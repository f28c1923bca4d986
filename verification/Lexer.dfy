/** The tokenizer: `next_token` and `scan_string`. */
module Lexer {
  import opened Bytes

  datatype Kind = Dot | Comma | Equal | LBrace | RBrace | Newline | LBracket | RBracket | String

  /** A token is a slice of the input; `eof` marks the NEWLINE invented at the end. */
  datatype Token = Token(kind: Kind, lineno: nat, ptr: nat, len: nat, eof: bool)

  /** What `next_token` does: stores a token, or raises a syntax error on a line. */
  datatype Lexed = Tok(tok: Token) | LexError(line: nat)

  /** The artificial NEWLINE of length 0 the parser starts from. */
  const START := Token(Newline, 1, 0, 0, false)

  function Text(inp: Str, t: Token): Str
    requires t.ptr + t.len <= |inp|
  {
    inp[t.ptr..t.ptr + t.len]
  }

  // ---- Scanning, as functions ----

  predicate IsBlank(b: Byte) { b == CR || b == SPACE || b == TAB }

  predicate IsHex(b: Byte) { 48 <= b <= 57 || 65 <= b <= 70 }

  /** The letters `\` may be followed by, apart from the two Unicode forms. */
  predicate IsSimpleEscape(b: Byte) {
    b == LOWER_B || b == LOWER_T || b == LOWER_N || b == LOWER_F || b == LOWER_R || b == DQUOTE || b == BACKSLASH
  }

  predicate IsBare(b: Byte) {
    IsAlnum(b) || b == PLUS || b == DASH || b == UNDERSCORE || b == DOT || b == COLON
  }

  predicate IsTriple(inp: Str, p: nat, quote: Byte) {
    At(inp, p) == quote && At(inp, p + 1) == quote && At(inp, p + 2) == quote
  }

  /** First newline at or after `p`, or the end. */
  function LineEnd(inp: Str, p: nat): (q: nat)
    requires p <= |inp|
    ensures p <= q <= |inp| && LF !in inp[p..q]
    ensures q < |inp| ==> inp[q] == LF
    decreases |inp| - p
  {
    if p == |inp| || inp[p] == LF then p else
      var q := LineEnd(inp, p + 1);
      assert inp[p..q] == [inp[p]] + inp[p + 1..q];
      q
  }

  /** First byte at or after `p` that is neither blank nor inside a comment. */
  function SkipBlank(inp: Str, p: nat): (q: nat)
    requires p <= |inp|
    ensures p <= q <= |inp|
    ensures q < |inp| ==> !IsBlank(inp[q]) && inp[q] != HASH
    decreases |inp| - p
  {
    if p == |inp| then p
    else if inp[p] == HASH then SkipBlank(inp, LineEnd(inp, p + 1))
    else if IsBlank(inp[p]) then SkipBlank(inp, p + 1)
    else p
  }

  /** Where the first three quotes at or after `p` start. */
  function FindTriple(inp: Str, p: nat): (r: Option<nat>)
    ensures r.Some? ==> p <= r.value && r.value + 3 <= |inp| && IsTriple(inp, r.value, SQUOTE)
    decreases |inp| - p
  {
    if |inp| < p + 3 then None
    else if IsTriple(inp, p, SQUOTE) then Some(p)
    else FindTriple(inp, p + 1)
  }

  /**
    * The `"""` automaton: an escape is pending, `hex` digits are still owed,
    * `quotes` double quotes were just counted. Escapes leave the count alone.
    */
  function ScanMulti(inp: Str, p: nat, escape: bool, hex: nat, quotes: nat): (r: Option<nat>)
    requires p <= |inp|
    ensures r.Some? ==> p <= r.value <= |inp| && r.value >= p + (if quotes <= 3 then 3 - quotes else 0)
    decreases |inp| - p
  {
    if quotes == 3 then Some(p)
    else if p == |inp| then None
    else if escape then
      if IsSimpleEscape(inp[p]) || inp[p] == LF then ScanMulti(inp, p + 1, false, hex, quotes)
      else if inp[p] == LOWER_U then ScanMulti(inp, p + 1, false, 4, quotes)
      else if inp[p] == UPPER_U then ScanMulti(inp, p + 1, false, 8, quotes)
      else None
    else if hex > 0 then
      if IsHex(inp[p]) then ScanMulti(inp, p + 1, false, hex - 1, quotes) else None
    else if inp[p] == BACKSLASH then ScanMulti(inp, p + 1, true, 0, quotes)
    else ScanMulti(inp, p + 1, false, 0, if inp[p] == DQUOTE then quotes + 1 else 0)
  }

  /** The single-line `"` automaton; gives the position of the closing quote. */
  function ScanBasic(inp: Str, p: nat, escape: bool, hex: nat): (r: Option<nat>)
    requires p <= |inp|
    ensures r.Some? ==> p <= r.value < |inp| && inp[r.value] == DQUOTE
    decreases |inp| - p
  {
    if p == |inp| then None
    else if escape then
      if IsSimpleEscape(inp[p]) then ScanBasic(inp, p + 1, false, hex)
      else if inp[p] == LOWER_U then ScanBasic(inp, p + 1, false, 4)
      else if inp[p] == UPPER_U then ScanBasic(inp, p + 1, false, 8)
      else None
    else if hex > 0 then
      if IsHex(inp[p]) then ScanBasic(inp, p + 1, false, hex - 1) else None
    else if inp[p] == BACKSLASH then ScanBasic(inp, p + 1, true, 0)
    else if inp[p] == LF then None
    else if inp[p] == DQUOTE then Some(p)
    else ScanBasic(inp, p + 1, false, 0)
  }

  function ScanLiteral(inp: Str, p: nat): (r: Option<nat>)
    requires p <= |inp|
    ensures r.Some? ==> p <= r.value < |inp| && inp[r.value] == SQUOTE
    decreases |inp| - p
  {
    if p == |inp| || inp[p] == LF then None
    else if inp[p] == SQUOTE then Some(p)
    else ScanLiteral(inp, p + 1)
  }

  function ScanBare(inp: Str, p: nat, dot: bool): (q: nat)
    requires p <= |inp|
    ensures p <= q <= |inp|
    ensures forall i | p <= i < q :: IsBare(inp[i])
    decreases |inp| - p
  {
    if p == |inp| || (dot && inp[p] == DOT) || !IsBare(inp[p]) then p else ScanBare(inp, p + 1, dot)
  }

  /** The end of the STRING token starting at `p`; None raises a syntax error. */
  function ScanString(inp: Str, p: nat, dot: bool): (r: Option<nat>)
    requires p < |inp|
    ensures r.Some? ==> p <= r.value <= |inp|
    ensures r.Some? && inp[p] == DQUOTE ==> r.value >= p + (if IsTriple(inp, p, DQUOTE) then 6 else 2)
    ensures r.Some? && inp[p] == SQUOTE ==> r.value >= p + (if IsTriple(inp, p, SQUOTE) then 6 else 2)
  {
    if IsTriple(inp, p, SQUOTE) then
      match FindTriple(inp, p + 3) case None => None case Some(q) => Some(q + 3)
    else if IsTriple(inp, p, DQUOTE) then ScanMulti(inp, p + 3, false, 0, 0)
    else if inp[p] == SQUOTE then
      match ScanLiteral(inp, p + 1) case None => None case Some(q) => Some(q + 1)
    else if inp[p] == DQUOTE then
      match ScanBasic(inp, p + 1, false, 0) case None => None case Some(q) => Some(q + 1)
    else Some(ScanBare(inp, p, dot))
  }

  /** The kind a byte stands for on its own; None when it starts a STRING. */
  function Punctuation(b: Byte, dot: bool): Option<Kind> {
    if dot && b == DOT then Some(Dot)
    else if b == COMMA then Some(Comma)
    else if b == EQUALS then Some(Equal)
    else if b == LBRACE then Some(LBrace)
    else if b == RBRACE then Some(RBrace)
    else if b == LBRACKET then Some(LBracket)
    else if b == RBRACKET then Some(RBracket)
    else if b == LF then Some(Newline)
    else None
  }

  predicate Within(inp: Str, t: Token) { t.ptr + t.len <= |inp| }

  /** The token after `t`; `dot` says whether `.` is a token of its own. */
  function Next(inp: Str, t: Token, dot: bool): (r: Lexed)
    requires Within(inp, t)
    ensures r.Tok? ==> Within(inp, r.tok) && t.ptr + t.len <= r.tok.ptr
  {
    var p := t.ptr + t.len;
    var line := t.lineno + Newlines(inp[t.ptr..p]);
    var q := SkipBlank(inp, p);
    if q == |inp| then Tok(Token(Newline, line, |inp|, 0, true))
    else match Punctuation(inp[q], dot)
      case Some(k) => Tok(Token(k, line, q, 1, false))
      case None =>
        match ScanString(inp, q, dot)
        case None => LexError(line)
        case Some(e) => Tok(Token(String, line, q, e - q, false))
  }

  // ---- The loops of the source, proved against the functions ----

  method SkipBlanks(inp: Str, p0: nat) returns (p: nat)
    requires p0 <= |inp|
    ensures p == SkipBlank(inp, p0)
  {
    p := p0;
    while p < |inp|
      invariant p <= |inp|
      invariant SkipBlank(inp, p) == SkipBlank(inp, p0)
    {
      if inp[p] == HASH {
        ghost var start := p + 1;
        p := p + 1;
        while p < |inp| && inp[p] != LF
          invariant start <= p <= |inp|
          invariant LineEnd(inp, p) == LineEnd(inp, start)
        {
          p := p + 1;
        }
      } else if IsBlank(inp[p]) {
        p := p + 1;
      } else {
        return;
      }
    }
  }

  method ScanMultiLine(inp: Str, p0: nat) returns (r: Option<nat>)
    requires p0 <= |inp|
    ensures r == ScanMulti(inp, p0, false, 0, 0)
  {
    var hexreq, escape, qcnt := 0, false, 0;
    var p := p0;
    while p < |inp| && qcnt < 3
      invariant p <= |inp| && 0 <= hexreq && 0 <= qcnt <= 3
      invariant ScanMulti(inp, p, escape, hexreq, qcnt) == ScanMulti(inp, p0, false, 0, 0)
      invariant escape ==> hexreq == 0
    {
      if escape {
        escape := false;
        if IsSimpleEscape(inp[p]) {
        } else if inp[p] == LOWER_U {
          hexreq := 4;
        } else if inp[p] == UPPER_U {
          hexreq := 8;
        } else if inp[p] == LF {
        } else {
          return None;
        }
      } else if hexreq > 0 {
        hexreq := hexreq - 1;
        if !IsHex(inp[p]) {
          return None;
        }
      } else if inp[p] == BACKSLASH {
        escape := true;
      } else {
        qcnt := if inp[p] == DQUOTE then qcnt + 1 else 0;
      }
      p := p + 1;
    }
    return if qcnt != 3 then None else Some(p);
  }

  method ScanSingleLine(inp: Str, p0: nat) returns (r: Option<nat>)
    requires p0 <= |inp|
    ensures r == ScanBasic(inp, p0, false, 0)
  {
    var hexreq, escape := 0, false;
    var p := p0;
    while p < |inp|
      invariant p <= |inp| && 0 <= hexreq
      invariant ScanBasic(inp, p, escape, hexreq) == ScanBasic(inp, p0, false, 0)
      invariant escape ==> hexreq == 0
    {
      if escape {
        escape := false;
        if IsSimpleEscape(inp[p]) {
        } else if inp[p] == LOWER_U {
          hexreq := 4;
        } else if inp[p] == UPPER_U {
          hexreq := 8;
        } else {
          return None;
        }
      } else if hexreq > 0 {
        hexreq := hexreq - 1;
        if !IsHex(inp[p]) {
          return None;
        }
      } else if inp[p] == BACKSLASH {
        escape := true;
      } else if inp[p] == LF {
        break;
      } else if inp[p] == DQUOTE {
        break;
      }
      p := p + 1;
    }
    return if At(inp, p) != DQUOTE then None else Some(p);
  }

  /** `strstr` for the closing quotes of a multi-line literal; past the end if there are none. */
  method FindQuotes(inp: Str, p0: nat) returns (p: nat)
    ensures if p + 3 <= |inp| then FindTriple(inp, p0) == Some(p) else FindTriple(inp, p0) == None
  {
    p := p0;
    while p + 3 <= |inp| && !IsTriple(inp, p, SQUOTE)
      invariant FindTriple(inp, p) == FindTriple(inp, p0)
    {
      p := p + 1;
    }
  }

  /** The loop over a bare token. */
  method ScanBareText(inp: Str, p0: nat, dot: bool) returns (p: nat)
    requires p0 <= |inp|
    ensures p == ScanBare(inp, p0, dot)
  {
    p := p0;
    while p < |inp| && inp[p] != LF
      invariant p <= |inp|
      invariant ScanBare(inp, p, dot) == ScanBare(inp, p0, dot)
    {
      if inp[p] == DOT && dot { break; }
      if !IsBare(inp[p]) { break; }
      p := p + 1;
    }
  }

  method ScanStringToken(inp: Str, p0: nat, dot: bool) returns (r: Option<nat>)
    requires p0 < |inp|
    ensures r == ScanString(inp, p0, dot)
  {
    var p := p0;
    if IsTriple(inp, p, SQUOTE) {
      p := FindQuotes(inp, p + 3);
      return if p + 3 <= |inp| then Some(p + 3) else None;
    }
    if IsTriple(inp, p, DQUOTE) {
      r := ScanMultiLine(inp, p + 3);
      return;
    }
    if inp[p] == SQUOTE {
      p := p + 1;
      while p < |inp| && inp[p] != LF && inp[p] != SQUOTE
        invariant p <= |inp|
        invariant ScanLiteral(inp, p) == ScanLiteral(inp, p0 + 1)
      {
        p := p + 1;
      }
      return if At(inp, p) != SQUOTE then None else Some(p + 1);
    }
    if inp[p] == DQUOTE {
      r := ScanSingleLine(inp, p + 1);
      if r.Some? {
        r := Some(r.value + 1);
      }
      return;
    }
    p := ScanBareText(inp, p, dot);
    return Some(p);
  }

  method NextToken(inp: Str, t: Token, dot: bool) returns (r: Lexed)
    requires Within(inp, t)
    ensures r == Next(inp, t, dot)
  {
    var lineno, p := t.lineno, t.ptr;
    // eat this token
    for i := 0 to t.len
      invariant p == t.ptr + i
      invariant lineno == t.lineno + Newlines(inp[t.ptr..p])
    {
      NewlinesStep(inp, t.ptr, p);
      if inp[p] == LF {
        lineno := lineno + 1;
      }
      p := p + 1;
    }
    p := SkipBlanks(inp, p);
    if p == |inp| {
      return Tok(Token(Newline, lineno, |inp|, 0, true));
    }
    match Punctuation(inp[p], dot) {
      case Some(k) =>
        return Tok(Token(k, lineno, p, 1, false));
      case None =>
        var e := ScanStringToken(inp, p, dot);
        return if e.None? then LexError(lineno) else Tok(Token(String, lineno, p, e.value - p, false));
    }
  }

  // ---- What a token looks like ----

  /** Where a token may lie, by its kind. */
  ghost predicate Shaped(inp: Str, t: Token) {
    && Within(inp, t)
    && match t.kind
       case String => !t.eof && t.ptr < |inp|
       case Newline => if t.eof then t.ptr == |inp| && t.len == 0 else t.len == 1 && inp[t.ptr] == LF
       case k => !t.eof && t.len == 1 && Punctuation(inp[t.ptr], true) == Some(k)
  }

  /** A STRING starts on a byte of its own and ends where scanning it ends. */
  ghost predicate Scanned(inp: Str, t: Token)
    requires Shaped(inp, t) && t.kind.String?
  {
    && !IsBlank(inp[t.ptr]) && inp[t.ptr] != HASH && Punctuation(inp[t.ptr], false) == None
    && exists dot :: (dot ==> inp[t.ptr] != DOT) && ScanString(inp, t.ptr, dot) == Some(t.ptr + t.len)
  }

  /** What is true of every token the tokenizer delivers. */
  ghost predicate TokenOk(inp: Str, t: Token) {
    Shaped(inp, t) && (t.kind.String? ==> Scanned(inp, t))
  }

  lemma NextOk(inp: Str, t: Token, dot: bool)
    requires Within(inp, t) && Next(inp, t, dot).Tok?
    ensures TokenOk(inp, Next(inp, t, dot).tok)
  {
    var t' := Next(inp, t, dot).tok;
    if t'.kind.String? {
      assert (dot ==> inp[t'.ptr] != DOT) && ScanString(inp, t'.ptr, dot) == Some(t'.ptr + t'.len);
    }
  }

  // ---- Tokens tile the input ----

  /** `a..b` is blanks up to `h`, then nothing or one comment running to the end of its line. */
  ghost predicate GapVia(inp: Str, a: nat, h: nat, b: nat) {
    && a <= h <= b <= |inp|
    && (forall i | a <= i < h :: IsBlank(inp[i]))
    && (h < b ==> inp[h] == HASH && LF !in inp[h..b] && (b < |inp| ==> inp[b] == LF))
  }

  /** Only blanks and comments lie between `a` and `b`. */
  ghost predicate IsGap(inp: Str, a: nat, b: nat) {
    exists h: nat :: GapVia(inp, a, h, b)
  }

  lemma {:induction false} SkipBlankGap(inp: Str, p: nat)
    requires p <= |inp|
    ensures IsGap(inp, p, SkipBlank(inp, p))
    decreases |inp| - p
  {
    var q := SkipBlank(inp, p);
    if p == |inp| {
      assert GapVia(inp, p, p, q);
    } else if inp[p] == HASH {
      var e := LineEnd(inp, p + 1);
      assert SkipBlank(inp, e) == e;
      assert inp[p..e] == [inp[p]] + inp[p + 1..e];
      assert GapVia(inp, p, p, q);
    } else if IsBlank(inp[p]) {
      SkipBlankGap(inp, p + 1);
      var h: nat :| GapVia(inp, p + 1, h, q);
      assert GapVia(inp, p, h, q);
    } else {
      assert GapVia(inp, p, p, q);
    }
  }

  lemma {:induction false} NoNewlines(s: Str)
    requires LF !in s
    ensures Newlines(s) == 0
  {
    if s != [] {
      NoNewlines(s[..|s| - 1]);
    }
  }

  lemma GapNewlines(inp: Str, a: nat, b: nat)
    requires IsGap(inp, a, b)
    ensures a <= b <= |inp| && Newlines(inp[a..b]) == 0
  {
    var h: nat :| GapVia(inp, a, h, b);
    assert inp[a..b] == inp[a..h] + inp[h..b];
    assert LF !in inp[h..b] by { if h == b { assert inp[h..b] == []; } }
    NoNewlines(inp[a..b]);
  }

  /** In bounds, and on the line its position says. */
  ghost predicate Placed(inp: Str, t: Token) {
    Within(inp, t) && t.lineno == 1 + Newlines(inp[..t.ptr])
  }

  /** Past the gap from `p`, at `q`, stands a quote that is never closed or holds a bad escape. */
  ghost predicate Unscannable(inp: Str, p: nat, q: int, dot: bool) {
    p <= q < |inp| && IsGap(inp, p, q) && ScanString(inp, q, dot) == None
  }

  /** One step: the next token lies after this one, past a gap, on its own line. */
  lemma NextTiles(inp: Str, t: Token, dot: bool)
    requires Placed(inp, t)
    ensures match Next(inp, t, dot)
            case Tok(t') => Placed(inp, t') && IsGap(inp, t.ptr + t.len, t'.ptr)
            case LexError(line) => exists q :: Unscannable(inp, t.ptr + t.len, q, dot) && line == 1 + Newlines(inp[..q])
  {
    var p := t.ptr + t.len;
    var q := SkipBlank(inp, p);
    SkipBlankGap(inp, p);
    GapNewlines(inp, p, q);
    NewlinesSplit(inp, t.ptr, p);
    NewlinesSplit(inp, p, q);
    if Next(inp, t, dot).LexError? {
      assert Unscannable(inp, p, q, dot);
    }
  }

  /** The token a run reaches: one call of `next_token` for each flag. */
  function TokenAfter(inp: Str, dots: seq<bool>): (r: Lexed)
    ensures r.Tok? ==> Within(inp, r.tok)
  {
    if dots == [] then Tok(START)
    else match TokenAfter(inp, dots[..|dots| - 1])
      case LexError(l) => LexError(l)
      case Tok(t) => Next(inp, t, dots[|dots| - 1])
  }

  /** The token `t'` follows `t` in the input. */
  ghost predicate Follows(inp: Str, t: Token, t': Token) {
    Placed(inp, t') && TokenOk(inp, t') && IsGap(inp, t.ptr + t.len, t'.ptr)
  }

  lemma NextFollows(inp: Str, t: Token, dot: bool, t': Token)
    requires Placed(inp, t) && Next(inp, t, dot) == Tok(t')
    ensures Follows(inp, t, t')
  {
    NextTiles(inp, t, dot);
    NextOk(inp, t, dot);
  }

  /**
    * In every run, whatever the modes: each token lies inside the input, begins
    * at or after the end of the one before it with only blanks and comments
    * between, and carries one plus the number of newlines before it.
    */
  lemma {:induction false} TokensTile(inp: Str, dots: seq<bool>)
    requires TokenAfter(inp, dots).Tok?
    ensures Placed(inp, TokenAfter(inp, dots).tok)
    ensures dots != [] ==>
              var before := TokenAfter(inp, dots[..|dots| - 1]);
              before.Tok? && Follows(inp, before.tok, TokenAfter(inp, dots).tok)
  {
    if dots != [] {
      var before := TokenAfter(inp, dots[..|dots| - 1]);
      TokensTile(inp, dots[..|dots| - 1]);
      NextFollows(inp, before.tok, dots[|dots| - 1], TokenAfter(inp, dots).tok);
    } else {
      assert inp[..0] == [];
    }
  }

  // ---- Where the tokenizer makes no progress ----

  /** At the end of file `next_token` is a fixpoint. */
  lemma EofIsFixpoint(inp: Str, t: Token, dot: bool)
    requires TokenOk(inp, t) && t.eof
    ensures Next(inp, t, dot) == Tok(t)
  {
    assert inp[t.ptr..t.ptr] == [];
  }

  /** The tokens `while (tok == NEWLINE) next_token(ctx, 0)` would see, one by one. */
  function SkipSteps(inp: Str, t: Token, n: nat): (r: Lexed)
    requires Within(inp, t)
    ensures r.Tok? ==> Within(inp, r.tok)
  {
    if n == 0 then Tok(t)
    else match SkipSteps(inp, t, n - 1)
      case LexError(l) => LexError(l)
      case Tok(u) => Next(inp, u, false)
  }

  /** As written, skipping newlines at the end of file never ends: every step finds the same NEWLINE. */
  lemma {:induction false} UnguardedSkipSpins(inp: Str, t: Token, n: nat)
    requires TokenOk(inp, t) && t.eof
    ensures SkipSteps(inp, t, n) == Tok(t) && t.kind == Newline
  {
    if n > 0 {
      UnguardedSkipSpins(inp, t, n - 1);
      EofIsFixpoint(inp, t, false);
    }
  }

  /**
    * A token that moves the tokenizer nowhere is the end of file, or a STRING of
    * length 0 on a byte outside the bare set; either is delivered for ever.
    */
  lemma StuckTokens(inp: Str, t: Token, dot: bool)
    requires TokenOk(inp, t)
    ensures t.len == 0 <==>
            t.eof || (t.kind.String? && !IsBare(inp[t.ptr]) && inp[t.ptr] != DQUOTE && inp[t.ptr] != SQUOTE)
    ensures t.len == 0 ==> Next(inp, t, dot) == Tok(t)
    ensures t.len > 0 && Next(inp, t, dot).Tok? ==> Next(inp, t, dot).tok.ptr > t.ptr
  {
    assert inp[t.ptr..t.ptr] == [];
    if t.kind.String? {
      var d :| (d ==> inp[t.ptr] != DOT) && ScanString(inp, t.ptr, d) == Some(t.ptr + t.len);
      if t.len == 0 {
        assert SkipBlank(inp, t.ptr) == t.ptr;
      }
    }
  }
}
