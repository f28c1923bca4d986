/**
  * Which token comes next, told in bytes: bare words, punctuation marks, comments
  * and the end of file.
  */
module Words {
  import opened Bytes
  import opened Lexer

  /** [A-Za-z0-9+_.:-] */
  predicate WordByte(b: Byte) {
    || 48 <= b <= 57 || 65 <= b <= 90 || 97 <= b <= 122
    || b == 43 || b == 45 || b == 46 || b == 58 || b == 95
  }

  /** A word goes on with this byte; where a dot is a token of its own, it does not go on with one. */
  predicate GoesOn(b: Byte, dot: bool) { WordByte(b) && !(dot && b == 46) }

  /** From `p` to `q` there is a word, and at `q` it ends. */
  ghost predicate WordAt(inp: Str, p: nat, q: nat, dot: bool) {
    && p <= q <= |inp|
    && (forall i | p <= i < q :: GoesOn(inp[i], dot))
    && (q < |inp| ==> !GoesOn(inp[q], dot))
  }

  /** A bare token is as long as it can be. */
  lemma {:induction false} BareIsMaximal(inp: Str, p: nat, dot: bool)
    requires p <= |inp|
    ensures WordAt(inp, p, ScanBare(inp, p, dot), dot)
    decreases |inp| - p
  {
    if p < |inp| && GoesOn(inp[p], dot) {
      BareIsMaximal(inp, p + 1, dot);
    }
  }

  lemma OneEnd(inp: Str, p: nat, q: nat, r: nat, dot: bool)
    requires WordAt(inp, p, q, dot) && WordAt(inp, p, r, dot)
    ensures q == r
  {
  }

  // ---- What comes before a token ----

  /** Spaces, tabs and carriage returns. */
  ghost predicate Blanks(inp: Str, p: nat, q: nat) {
    p <= q <= |inp| && forall i | p <= i < q :: inp[i] == 32 || inp[i] == 9 || inp[i] == 13
  }

  lemma {:induction false} BlanksSkipped(inp: Str, p: nat, q: nat)
    requires Blanks(inp, p, q)
    ensures SkipBlank(inp, p) == SkipBlank(inp, q)
    decreases q - p
  {
    if p < q {
      BlanksSkipped(inp, p + 1, q);
    }
  }

  /** A comment runs up to `q`: the end of its line, or of the input. */
  ghost predicate CommentTo(inp: Str, p: nat, q: nat) {
    p < q <= |inp| && inp[p] == 35 && (forall i | p <= i < q :: inp[i] != 10) && (q < |inp| ==> inp[q] == 10)
  }

  lemma CommentSkipped(inp: Str, p: nat, q: nat)
    requires CommentTo(inp, p, q)
    ensures SkipBlank(inp, p) == q
  {
    var e := LineEnd(inp, p + 1);
    assert forall i | p < i < e :: inp[p + 1..e][i - p - 1] == inp[i];
  }

  /** The line of the token that comes after `t`. */
  function LineAfter(inp: Str, t: Token): nat
    requires Within(inp, t)
  {
    t.lineno + Newlines(Text(inp, t))
  }

  // ---- Main results ----

  /** What a byte on its own is a token of. */
  function MarkOf(b: Byte, dot: bool): Option<Kind> {
    match b
    case 10 => Some(Newline)
    case 44 => Some(Comma)
    case 46 => if dot then Some(Dot) else None
    case 61 => Some(Equal)
    case 91 => Some(LBracket)
    case 93 => Some(RBracket)
    case 123 => Some(LBrace)
    case 125 => Some(RBrace)
    case _ => None
  }

  /** `\n`, `,`, `=`, `[`, `]`, `{`, `}` and, when it is special, `.` are tokens of their own. */
  lemma MarkDelivered(inp: Str, t: Token, p: nat, dot: bool)
    requires Within(inp, t) && Blanks(inp, t.ptr + t.len, p) && p < |inp| && MarkOf(inp[p], dot).Some?
    ensures Next(inp, t, dot) == Tok(Token(MarkOf(inp[p], dot).value, LineAfter(inp, t), p, 1, false))
  {
    BlanksSkipped(inp, t.ptr + t.len, p);
  }

  /** After blanks, or a comment, that reach the end of the input, the end of file is delivered. */
  lemma EndDelivered(inp: Str, t: Token, p: nat, dot: bool)
    requires Within(inp, t) && Blanks(inp, t.ptr + t.len, p) && (p == |inp| || CommentTo(inp, p, |inp|))
    ensures Next(inp, t, dot) == Tok(Token(Newline, LineAfter(inp, t), |inp|, 0, true))
  {
    BlanksSkipped(inp, t.ptr + t.len, p);
    if p < |inp| { CommentSkipped(inp, p, |inp|); }
  }

  /** A comment is passed over, up to the newline at its end. */
  lemma CommentPassed(inp: Str, t: Token, p: nat, q: nat, dot: bool)
    requires Within(inp, t) && Blanks(inp, t.ptr + t.len, p) && CommentTo(inp, p, q) && q < |inp|
    ensures Next(inp, t, dot) == Tok(Token(Newline, LineAfter(inp, t), q, 1, false))
  {
    BlanksSkipped(inp, t.ptr + t.len, p);
    CommentSkipped(inp, p, q);
  }

  /** A byte that begins a STRING: no blank, no mark and no comment. */
  predicate Begins(b: Byte, dot: bool) { b != 32 && b != 9 && b != 13 && b != 35 && MarkOf(b, dot).None? }

  /** Where a STRING begins, the scan of it decides what is delivered. */
  lemma StringDelivered(inp: Str, t: Token, p: nat, dot: bool)
    requires Within(inp, t) && Blanks(inp, t.ptr + t.len, p) && p < |inp| && Begins(inp[p], dot)
    ensures Next(inp, t, dot) == match ScanString(inp, p, dot)
                                 case None => LexError(LineAfter(inp, t))
                                 case Some(e) => Tok(Token(String, LineAfter(inp, t), p, e - p, false))
  {
    BlanksSkipped(inp, t.ptr + t.len, p);
  }

  /** A word over the bare bytes that ends at `q` is delivered whole. */
  lemma WordDelivered(inp: Str, t: Token, p: nat, q: nat, dot: bool)
    requires Within(inp, t) && Blanks(inp, t.ptr + t.len, p) && p < q && WordAt(inp, p, q, dot)
    ensures Next(inp, t, dot) == Tok(Token(String, LineAfter(inp, t), p, q - p, false))
  {
    StringDelivered(inp, t, p, dot);
    BareIsMaximal(inp, p, dot);
    OneEnd(inp, p, q, ScanBare(inp, p, dot), dot);
  }

  /** ... and a delivered STRING that is no quoted one is such a word, or empty. */
  lemma DeliveredIsWord(inp: Str, t: Token, dot: bool, u: Token)
    requires Within(inp, t) && Next(inp, t, dot) == Tok(u) && u.kind.String? && inp[u.ptr] != 34 && inp[u.ptr] != 39
    ensures WordAt(inp, u.ptr, u.ptr + u.len, dot)
  {
    BareIsMaximal(inp, u.ptr, dot);
  }
}
