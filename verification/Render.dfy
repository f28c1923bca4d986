/**
  * From syntax trees to bytes: lexemes written out with a space after each scan
  * as those lexemes again, so that every document has a text and parsing the
  * text gives the document back.
  */
module Render {
  import opened Bytes
  import opened Lexer
  import opened Store
  import opened Grammar
  import opened Eval
  import opened Parser
  import opened Document
  import opened Language
  import opened Keys
  import opened Faithful
  import opened Represents

  // ---- A token's text scans the same wherever it stands ----

  lemma {:induction false} MultiMoves(s: Str, inp: Str, p: nat, i: nat, escape: bool, hex: nat, quotes: nat)
    requires LiesAt(inp, p, s) && i <= |s| && ScanMulti(s, i, escape, hex, quotes).Some?
    ensures ScanMulti(inp, p + i, escape, hex, quotes) == Some(p + ScanMulti(s, i, escape, hex, quotes).value)
    decreases |s| - i
  {
    if quotes != 3 {
      var b := s[i];
      assert inp[p + i] == b;
      if escape {
        MultiMoves(s, inp, p, i + 1, false, if b == LOWER_U then 4 else if b == UPPER_U then 8 else hex, quotes);
      } else if hex > 0 {
        MultiMoves(s, inp, p, i + 1, false, hex - 1, quotes);
      } else if b == BACKSLASH {
        MultiMoves(s, inp, p, i + 1, true, 0, quotes);
      } else {
        MultiMoves(s, inp, p, i + 1, false, 0, if b == DQUOTE then quotes + 1 else 0);
      }
    }
  }

  lemma {:induction false} BasicMoves(s: Str, inp: Str, p: nat, i: nat, escape: bool, hex: nat)
    requires LiesAt(inp, p, s) && i <= |s| && ScanBasic(s, i, escape, hex).Some?
    ensures ScanBasic(inp, p + i, escape, hex) == Some(p + ScanBasic(s, i, escape, hex).value)
    decreases |s| - i
  {
    var b := s[i];
    assert inp[p + i] == b;
    if escape {
      BasicMoves(s, inp, p, i + 1, false, if b == LOWER_U then 4 else if b == UPPER_U then 8 else hex);
    } else if hex > 0 {
      BasicMoves(s, inp, p, i + 1, false, hex - 1);
    } else if b == BACKSLASH {
      BasicMoves(s, inp, p, i + 1, true, 0);
    } else if b != DQUOTE {
      BasicMoves(s, inp, p, i + 1, false, 0);
    }
  }

  lemma {:induction false} LiteralMoves(s: Str, inp: Str, p: nat, i: nat)
    requires LiesAt(inp, p, s) && i <= |s| && ScanLiteral(s, i).Some?
    ensures ScanLiteral(inp, p + i) == Some(p + ScanLiteral(s, i).value)
    decreases |s| - i
  {
    assert inp[p + i] == s[i];
    if s[i] != SQUOTE {
      LiteralMoves(s, inp, p, i + 1);
    }
  }

  lemma {:induction false} TripleMoves(s: Str, inp: Str, p: nat, i: nat)
    requires LiesAt(inp, p, s) && FindTriple(s, i).Some?
    ensures FindTriple(inp, p + i) == Some(p + FindTriple(s, i).value)
    decreases |s| - i
  {
    assert inp[p + i] == s[i] && inp[p + (i + 1)] == s[i + 1] && inp[p + (i + 2)] == s[i + 2];
    if !IsTriple(s, i, SQUOTE) {
      TripleMoves(s, inp, p, i + 1);
    }
  }

  lemma {:induction false} BareMoves(s: Str, inp: Str, p: nat, i: nat, dot: bool)
    requires LiesAt(inp, p, s) && i <= |s| && ScanBare(s, i, dot) < |s|
    ensures ScanBare(inp, p + i, dot) == p + ScanBare(s, i, dot)
    decreases |s| - i
  {
    assert inp[p + i] == s[i];
    if ScanBare(s, i, dot) != i {
      BareMoves(s, inp, p, i + 1, dot);
    }
  }

  /** The text of a string token, with a space after it. */
  function Spaced(text: Str): Str { text + [SPACE] }

  lemma QuotesMove(s: Str, inp: Str, p: nat)
    requires LiesAt(inp, p, s) && |s| >= 3
    ensures IsTriple(inp, p, SQUOTE) == IsTriple(s, 0, SQUOTE) && IsTriple(inp, p, DQUOTE) == IsTriple(s, 0, DQUOTE)
  {
    assert inp[p + 0] == s[0] && inp[p + 1] == s[1] && inp[p + 2] == s[2];
  }

  lemma StringMoves(text: Str, inp: Str, p: nat, dot: bool)
    requires LiesAt(inp, p, Spaced(text)) && ScanString(Spaced(text), 0, dot) == Some(|text|)
    ensures ScanString(inp, p, dot) == Some(p + |text|)
  {
    var s := Spaced(text);
    FirstByte(inp, p, s);
    if s[0] == SQUOTE || s[0] == DQUOTE {
      QuotesMove(s, inp, p);
      if IsTriple(s, 0, SQUOTE) {
        TripleMoves(s, inp, p, 3);
      } else if IsTriple(s, 0, DQUOTE) {
        MultiMoves(s, inp, p, 3, false, 0, 0);
      } else if s[0] == SQUOTE {
        LiteralMoves(s, inp, p, 1);
      } else {
        BasicMoves(s, inp, p, 1, false, 0);
      }
    } else {
      BareMoves(s, inp, p, 0, dot);
    }
  }

  // ---- Lexemes written out ----

  /** A lexeme that the tokenizer can deliver in the mode `dot`. */
  predicate Legal(l: Lexeme, dot: bool) {
    match l.kind
    case Newline => l.text == [LF]
    case String =>
      && l.text != [] && !IsBlank(l.text[0]) && l.text[0] != HASH && Punctuation(l.text[0], dot) == None
      && ScanString(Spaced(l.text), 0, dot) == Some(|l.text|)
    case k => |l.text| == 1 && Punctuation(l.text[0], dot) == Some(k)
  }

  /** Each lexeme is legal in the mode the one before it asks for. */
  predicate LegalAll(ls: seq<Lexeme>, dot: bool) {
    ls == [] || (Legal(ls[0], dot) && LegalAll(ls[1..], ls[0].dot))
  }

  function Rendered(ls: seq<Lexeme>): Str {
    if ls == [] then [] else Spaced(ls[0].text) + Rendered(ls[1..])
  }

  /** The mode in which the lexeme after these is fetched. */
  function ModeAfter(ls: seq<Lexeme>, dot: bool): bool { if ls == [] then dot else ls[|ls| - 1].dot }

  lemma {:induction false} LegalConcat(a: seq<Lexeme>, b: seq<Lexeme>, dot: bool)
    requires LegalAll(a, dot) && LegalAll(b, ModeAfter(a, dot))
    ensures LegalAll(a + b, dot)
    decreases |a|
  {
    if a == [] {
      assert a + b == b;
    } else {
      assert ModeAfter(a[1..], a[0].dot) == ModeAfter(a, dot);
      LegalConcat(a[1..], b, a[0].dot);
      assert (a + b)[1..] == a[1..] + b;
    }
  }

  // ---- Rendered lexemes are read again ----

  /** `t` is the token of the first of these lexemes, which fill the input from there on; or it is the end of file. */
  ghost predicate StartsAt(inp: Str, t: Token, ls: seq<Lexeme>) {
    if ls == [] then Within(inp, t) && t.eof && t.kind == Newline && t.ptr == |inp| && t.len == 0
    else
      && Matches(inp, t, ls[0]) && t.len == |ls[0].text|
      && LiesAt(inp, t.ptr, Rendered(ls)) && t.ptr + |Rendered(ls)| == |inp|
  }

  /** From a position before a rendered lexeme, or at the end, the tokenizer delivers it. */
  lemma RenderedNext(inp: Str, t: Token, p: nat, ls: seq<Lexeme>, dot: bool) returns (u: Token)
    requires Within(inp, t) && t.ptr + t.len <= p <= |inp| && SkipBlank(inp, t.ptr + t.len) == SkipBlank(inp, p)
    requires p + |Rendered(ls)| == |inp| && LiesAt(inp, p, Rendered(ls)) && LegalAll(ls, dot)
    ensures Next(inp, t, dot) == Tok(u) && StartsAt(inp, u, ls)
  {
    if ls != [] {
      FirstStands(inp, p, ls, dot);
    }
    u := Next(inp, t, dot).tok;
  }

  lemma FirstByte(inp: Str, p: nat, text: Str)
    requires LiesAt(inp, p, text) && text != []
    ensures p < |inp| && inp[p] == text[0]
  {
    assert inp[p..p + |text|][0] == inp[p];
  }

  lemma TextStands(inp: Str, p: nat, text: Str)
    requires LiesAt(inp, p, Spaced(text)) && text != []
    ensures p + |text| < |inp| && inp[p] == text[0] && inp[p..p + |text|] == text && inp[p + |text|] == SPACE
    ensures SkipBlank(inp, p + |text|) == SkipBlank(inp, p + |text| + 1)
  {
    LiesInParts(inp, p, text, [SPACE]);
    FirstByte(inp, p, text);
    FirstByte(inp, p + |text|, [SPACE]);
  }

  /** The first of the lexemes, where they stand. */
  lemma FirstStands(inp: Str, p: nat, ls: seq<Lexeme>, dot: bool)
    requires p <= |inp| && LiesAt(inp, p, Rendered(ls)) && ls != [] && Legal(ls[0], dot)
    ensures var text := ls[0].text;
            && text != [] && p + |text| < |inp|
            && inp[p] == text[0] && inp[p..p + |text|] == text && inp[p + |text|] == SPACE
            && SkipBlank(inp, p) == p
            && (ls[0].kind.String? ==> ScanString(inp, p, dot) == Some(p + |text|))
  {
    var text := ls[0].text;
    LiesInParts(inp, p, Spaced(text), Rendered(ls[1..]));
    TextStands(inp, p, text);
    if ls[0].kind.String? {
      StringMoves(text, inp, p, dot);
    }
  }

  lemma PastFirst(inp: Str, p: nat, ls: seq<Lexeme>, dot: bool, q: nat)
    requires ls != [] && LiesAt(inp, p, Rendered(ls)) && Legal(ls[0], dot) && q == p + |ls[0].text| + 1
    ensures p + |Rendered(ls)| == q + |Rendered(ls[1..])| && LiesAt(inp, q, Rendered(ls[1..]))
    ensures SkipBlank(inp, p + |ls[0].text|) == SkipBlank(inp, q)
  {
    LiesInParts(inp, p, Spaced(ls[0].text), Rendered(ls[1..]));
    TextStands(inp, p, ls[0].text);
  }

  /** Past a rendered lexeme comes the next one. */
  lemma RenderedStep(inp: Str, t: Token, ls: seq<Lexeme>, dot: bool) returns (u: Token)
    requires ls != [] && StartsAt(inp, t, ls) && LegalAll(ls, dot)
    ensures Next(inp, t, ls[0].dot) == Tok(u) && StartsAt(inp, u, ls[1..])
  {
    var q := t.ptr + |ls[0].text| + 1;
    PastFirst(inp, t.ptr, ls, dot, q);
    u := RenderedNext(inp, t, q, ls[1..], ls[0].dot);
  }

  lemma {:induction false} RenderedReads(inp: Str, t: Token, ls: seq<Lexeme>, dot: bool)
    requires StartsAt(inp, t, ls) && LegalAll(ls, dot)
    ensures Read(inp, t, ls).Some? && Read(inp, t, ls).value.eof
    decreases |ls|
  {
    if ls != [] {
      var u := RenderedStep(inp, t, ls, dot);
      RenderedReads(inp, u, ls[1..], ls[0].dot);
    }
  }

  // ---- Which trees have a text ----

  predicate LegalWord(text: Str, dot: bool, next: bool) { Legal(Lexeme(String, text, next), dot) }

  predicate LegalValue(v: Value)
    decreases v, 0
  {
    match v
    case Scalar(text) => LegalWord(text, false, false)
    case Array(elems) => LegalElems(elems)
    case Inline(fields) => LegalFields(fields)
  }

  predicate LegalElems(e: Elems) {
    match e
    case NoElem(_) => true
    case LastElem(_, v, _) => LegalValue(v)
    case MoreElems(_, v, _, rest) => LegalValue(v) && LegalElems(rest)
  }

  predicate LegalFields(fs: Fields) {
    match fs
    case NoField(_) => true
    case LastField(_, k, v, _) => LegalWord(k, false, false) && LegalValue(v)
    case MoreFields(_, k, v, _, rest) => LegalWord(k, false, false) && LegalValue(v) && LegalFields(rest)
  }

  /** Every text in a statement is one the tokenizer delivers whole; lines end in a newline. */
  ghost predicate LegalStmt(s: Stmt) {
    match s
    case Blank => true
    case Entry(k, v, end) => LegalWord(k, false, false) && LegalWord(k, true, false) && LegalValue(v) && end == [LF]
    case Header(_, keys) => forall i | 0 <= i < |keys| :: LegalWord(keys[i], true, true)
  }

  /** Legal, and each fetched with `.` as a byte of its own. */
  ghost predicate Plain(ls: seq<Lexeme>) { LegalAll(ls, false) && forall i | 0 <= i < |ls| :: !ls[i].dot }

  lemma PlainConcat(a: seq<Lexeme>, b: seq<Lexeme>)
    requires Plain(a) && Plain(b)
    ensures Plain(a + b)
  {
    LegalConcat(a, b, false);
  }

  lemma {:induction false} LinesPlain(n: nat)
    ensures Plain(Lines(n))
  {
    if n > 0 {
      LinesPlain(n - 1);
      PlainConcat([NL], Lines(n - 1));
    }
  }

  lemma MarksPlain()
    ensures Plain(Mark(LBracket, LBRACKET)) && Plain(Mark(RBracket, RBRACKET)) && Plain(Mark(LBrace, LBRACE))
    ensures Plain(Mark(RBrace, RBRACE)) && Plain(Mark(Kind.Comma, COMMA)) && Plain(Mark(Equal, EQUALS))
  {
  }

  lemma {:induction false} ValuePlain(v: Value)
    requires LegalValue(v)
    ensures Plain(PrintValue(v))
    decreases v, 0
  {
    MarksPlain();
    match v
    case Scalar(_) =>
    case Array(e) => ElemsPlain(e); PlainConcat(Mark(LBracket, LBRACKET), PrintElems(e));
    case Inline(fs) => FieldsPlain(fs); PlainConcat(Mark(LBrace, LBRACE), PrintFields(fs));
  }

  /** Newlines, a piece, newlines and what closes or continues. */
  lemma PiecePlain(n: nat, piece: seq<Lexeme>, m: nat, last: seq<Lexeme>)
    requires Plain(piece) && Plain(last)
    ensures Plain(Lines(n) + (piece + (Lines(m) + last)))
  {
    LinesPlain(n);
    LinesPlain(m);
    PlainConcat(Lines(m), last);
    PlainConcat(piece, Lines(m) + last);
    PlainConcat(Lines(n), piece + (Lines(m) + last));
  }

  lemma {:induction false} ElemsPlain(e: Elems)
    requires LegalElems(e)
    ensures Plain(PrintElems(e))
    decreases e
  {
    MarksPlain();
    match e
    case NoElem(n) => LinesPlain(n); PlainConcat(Lines(n), Mark(RBracket, RBRACKET));
    case LastElem(n, v, m) => ValuePlain(v); PiecePlain(n, PrintValue(v), m, Mark(RBracket, RBRACKET));
    case MoreElems(n, v, m, rest) =>
      ValuePlain(v);
      ElemsPlain(rest);
      PlainConcat(Mark(Kind.Comma, COMMA), PrintElems(rest));
      PiecePlain(n, PrintValue(v), m, Mark(Kind.Comma, COMMA) + PrintElems(rest));
  }

  lemma {:induction false} FieldPlain(k: Str, v: Value)
    requires LegalWord(k, false, false) && LegalValue(v)
    ensures Plain(PrintField(k, v))
    decreases v, 1
  {
    MarksPlain();
    ValuePlain(v);
    PlainConcat(Mark(Equal, EQUALS), PrintValue(v));
    PlainConcat(Word(k), Mark(Equal, EQUALS) + PrintValue(v));
  }

  lemma {:induction false} FieldsPlain(fs: Fields)
    requires LegalFields(fs)
    ensures Plain(PrintFields(fs))
    decreases fs
  {
    MarksPlain();
    match fs
    case NoField(n) => LinesPlain(n); PlainConcat(Lines(n), Mark(RBrace, RBRACE));
    case LastField(n, k, v, m) => FieldPlain(k, v); PiecePlain(n, PrintField(k, v), m, Mark(RBrace, RBRACE));
    case MoreFields(n, k, v, m, rest) =>
      FieldPlain(k, v);
      FieldsPlain(rest);
      PlainConcat(Mark(Kind.Comma, COMMA), PrintFields(rest));
      PiecePlain(n, PrintField(k, v), m, Mark(Kind.Comma, COMMA) + PrintFields(rest));
  }

  // ---- Statements and documents ----

  lemma {:induction false} PathLegal(keys: seq<Str>)
    requires forall i | 0 <= i < |keys| :: LegalWord(keys[i], true, true)
    ensures LegalAll(PrintPath(keys), true) && ModeAfter(PrintPath(keys), true)
    decreases |keys|
  {
    if |keys| > 1 {
      PathLegal(keys[1..]);
      var word := [Lexeme(Kind.String, keys[0], true)];
      LegalConcat(DotMark(Kind.Dot, DOT), PrintPath(keys[1..]), true);
      LegalConcat(word, DotMark(Kind.Dot, DOT) + PrintPath(keys[1..]), true);
    }
  }

  lemma HeaderLegal(double: bool, keys: seq<Str>, dot: bool)
    requires forall i | 0 <= i < |keys| :: LegalWord(keys[i], true, true)
    ensures LegalAll(Print(Header(double, keys)), dot) && !ModeAfter(Print(Header(double, keys)), dot)
  {
    var open, path, close := PrintOpen(double), PrintPath(keys), PrintClose(double);
    PathLegal(keys);
    assert LegalAll(close, true) by {
      if double { LegalConcat(Mark(RBracket, RBRACKET), Mark(RBracket, RBRACKET), true); }
    }
    LegalConcat(path, close, true);
    assert LegalAll(open, dot) && ModeAfter(open, dot) by {
      if double { LegalConcat(DotMark(LBracket, LBRACKET), DotMark(LBracket, LBRACKET), dot); }
    }
    LegalConcat(open, path + close, dot);
  }

  lemma EntryLegal(k: Str, rest: seq<Lexeme>, last: seq<Lexeme>, dot: bool)
    requires LegalWord(k, dot, false) && Plain(rest) && rest != [] && Plain(last)
    ensures LegalAll(Word(k) + rest + last, dot)
  {
    LegalConcat(Word(k), rest, dot);
    assert ModeAfter(Word(k) + rest, dot) == ModeAfter(rest, false) == false;
    LegalConcat(Word(k) + rest, last, dot);
  }

  lemma StmtLegal(s: Stmt, dot: bool)
    requires LegalStmt(s)
    ensures LegalAll(Print(s), dot)
  {
    match s
    case Blank =>
    case Header(double, keys) => HeaderLegal(double, keys, dot);
    case Entry(k, v, end) =>
      MarksPlain();
      ValuePlain(v);
      PlainConcat(Mark(Equal, EQUALS), PrintValue(v));
      EntryLegal(k, Mark(Equal, EQUALS) + PrintValue(v), [Lexeme(Newline, end, false)], dot);
  }

  function PrintAll(ss: seq<Stmt>): seq<Lexeme> {
    if ss == [] then [] else Print(ss[0]) + PrintAll(ss[1..])
  }

  lemma {:induction false} DocumentLegal(ss: seq<Stmt>, dot: bool)
    requires forall i | 0 <= i < |ss| :: LegalStmt(ss[i])
    ensures LegalAll(PrintAll(ss), dot)
    decreases |ss|
  {
    if ss != [] {
      StmtLegal(ss[0], dot);
      DocumentLegal(ss[1..], ModeAfter(Print(ss[0]), dot));
      LegalConcat(Print(ss[0]), PrintAll(ss[1..]), dot);
    }
  }

  /** Nothing but a line end follows a header. */
  ghost predicate HeadersEnd(ss: seq<Stmt>) { forall i | 0 < i < |ss| && ss[i - 1].Header? :: ss[i].Blank? }

  lemma {:induction false} PrintedIsRead(inp: Str, t: Token, ss: seq<Stmt>, end: Token)
    requires Shaped(inp, t) && HeadersEnd(ss) && Read(inp, t, PrintAll(ss)) == Some(end) && end.eof
    ensures ReadAll(inp, t, ss) == Some(end)
    decreases |ss|
  {
    if ss != [] {
      ReadConcat(inp, t, Print(ss[0]), PrintAll(ss[1..]));
      var u := Read(inp, t, Print(ss[0])).value;
      if ss[0].Header? && |ss| > 1 {
        assert ss[1].Blank? && ss[1..][0] == ss[1];
        ReadConcat(inp, u, Print(ss[1]), PrintAll(ss[1..][1..]));
      }
      assert ReadStmt(inp, t, ss[0]) == Some(u);
      forall i | 0 < i < |ss[1..]| && ss[1..][i - 1].Header? ensures ss[1..][i].Blank? { assert ss[i].Header?; }
      PrintedIsRead(inp, u, ss[1..], end);
    }
  }

  /** The text of a document. */
  function TextOf(ss: seq<Stmt>): Str { Rendered(PrintAll(ss)) }

  lemma TextSpells(ss: seq<Stmt>)
    requires HeadersEnd(ss) && forall i | 0 <= i < |ss| :: LegalStmt(ss[i])
    ensures Spells(TextOf(ss), ss)
  {
    var inp, ls := TextOf(ss), PrintAll(ss);
    DocumentLegal(ss, true);
    var t := RenderedNext(inp, START, 0, ls, true);
    RenderedReads(inp, t, ls, true);
    NextOk(inp, START, true);
    PrintedIsRead(inp, t, ss, Read(inp, t, ls).value);
  }

  /**
    * The round trip from bytes: any statements made of legal texts, written out, are
    * parsed to what executing them makes.
    */
  lemma TextRoundTrip(env: Env, ss: seq<Stmt>)
    requires env.inp == TextOf(ss) && HeadersEnd(ss) && forall i | 0 <= i < |ss| :: LegalStmt(ss[i])
    requires ExecAll(env.foreign, Place(EMPTY, ROOT), ss).Some?
    ensures Parse(env).Going? && Parse(env).st.heap == ExecAll(env.foreign, Place(EMPTY, ROOT), ss).value.heap
  {
    TextSpells(ss);
    ParseAccepts(env, ss);
  }

  /**
    * A key and any well-formed value, written out on a line, parse to a document that holds that
    * value under that key.
    */
  lemma ValueRoundTrip(env: Env, k: Str, v: Value)
    requires env.inp == TextOf([Entry(k, v, [LF])]) && LegalStmt(Entry(k, v, [LF]))
    requires KeyOf(k).Key? && WfValue(env.foreign, v)
    ensures Parse(env).Going? && HoldsFields(Parse(env).st.heap, ROOT, 0, 0, 0, LastField(0, k, v, 0))
  {
    var f, fs := env.foreign, LastField(0, k, v, 0);
    FieldsSucceed(f, EMPTY, ROOT, fs);
    var h := EvalField(f, EMPTY, ROOT, k, v).value;
    FieldsBuilt(f, EMPTY, ROOT, fs, h);
    var ss := [Entry(k, v, [LF])];
    assert NodeGrows(EMPTY[ROOT], h[ROOT]);
    assert ExecAll(f, Place(h, ROOT), []) == Some(Place(h, ROOT));
    assert ss[1..] == [];
    TextRoundTrip(env, ss);
  }
}
