/**
  * Which token can come next: an automaton with a stack follows every document of
  * the grammar, so what it cannot follow begins no document.
  */
module Prefixes {
  import opened Bytes
  import opened Lexer
  import opened Grammar
  import opened Language
  import opened Stops

  /** What is due: the innermost on top. */
  datatype Due =
    | Stmt | EndOfEntry | EndOfHeader
    | EqualSign | Val | Elem | MoreElem | Field | MoreField
    | Opened | PathKey(n: nat, double: bool) | PathDot(n: nat, double: bool) | SecondClose

  type Stack = seq<Due>

  /** The stack after a token; None where it is not one that is due. The end of file ends an entry and nothing else. */
  function Step(s: Stack, l: Lexeme): Option<Stack> {
    if s == [] || (l.kind == Newline && l.text != [10] && s[0] != EndOfEntry) then None
    else
      var rest := s[1..];
      match (s[0], l.kind)
      case (Stmt, Newline) => Some([Due.Stmt] + rest)
      case (Stmt, String) => Some([EqualSign, EndOfEntry] + rest)
      case (Stmt, LBracket) => Some([Opened] + rest)
      case (EndOfEntry, Newline) => Some([Due.Stmt] + rest)
      case (EndOfHeader, Newline) => Some([Due.Stmt] + rest)
      case (EqualSign, Equal) => Some([Val] + rest)
      case (Val, String) => Some(rest)
      case (Val, LBracket) => Some([Elem] + rest)
      case (Val, LBrace) => Some([Field] + rest)
      case (Elem, Newline) => Some(s)
      case (Elem, String) => Some([MoreElem] + rest)
      case (Elem, LBracket) => Some([Elem, MoreElem] + rest)
      case (Elem, LBrace) => Some([Field, MoreElem] + rest)
      case (Elem, RBracket) => Some(rest)
      case (MoreElem, Newline) => Some(s)
      case (MoreElem, Comma) => Some([Elem] + rest)
      case (MoreElem, RBracket) => Some(rest)
      case (Field, Newline) => Some(s)
      case (Field, String) => Some([EqualSign, MoreField] + rest)
      case (Field, RBrace) => Some(rest)
      case (MoreField, Newline) => Some(s)
      case (MoreField, Comma) => Some([Field] + rest)
      case (MoreField, RBrace) => Some(rest)
      case (Opened, LBracket) => Some([PathKey(0, true)] + rest)
      case (Opened, String) => Some([PathDot(1, false)] + rest)
      case (PathKey(n, d), String) => Some([PathDot(n + 1, d)] + rest)
      case (PathDot(n, d), Dot) => if n < 10 then Some([PathKey(n, d)] + rest) else None
      case (PathDot(_, d), RBracket) => Some([if d then SecondClose else EndOfHeader] + rest)
      case (SecondClose, RBracket) => Some([EndOfHeader] + rest)
      case _ => None
  }

  function Run(s: Stack, ls: seq<Lexeme>): Option<Stack>
    decreases |ls|
  {
    if ls == [] then Some(s)
    else match Step(s, ls[0])
      case None => None
      case Some(s') => Run(s', ls[1..])
  }

  lemma {:induction false} RunConcat(s: Stack, a: seq<Lexeme>, b: seq<Lexeme>)
    ensures Run(s, a + b) == match Run(s, a) case None => None case Some(s') => Run(s', b)
    decreases |a|
  {
    if a == [] {
      assert a + b == b;
    } else {
      assert (a + b)[1..] == a[1..] + b;
      if Step(s, a[0]).Some? { RunConcat(Step(s, a[0]).value, a[1..], b); }
    }
  }

  lemma {:induction false} RunOne(s: Stack, l: Lexeme)
    ensures Run(s, [l]) == Step(s, l)
  {
    assert [l][1..] == [];
  }

  /** Newlines where they are allowed. */
  lemma {:induction false} RunLines(s: Stack, n: nat)
    requires s != [] && s[0] in {Elem, MoreElem, Field, MoreField}
    ensures Run(s, Lines(n)) == Some(s)
    decreases n
  {
    if n > 0 {
      assert Lines(n)[1..] == Lines(n - 1);
      RunLines(s, n - 1);
    }
  }

  /** One piece and then another. */
  lemma {:induction false} RunThen(s: Stack, a: seq<Lexeme>, s': Stack, b: seq<Lexeme>, r: Option<Stack>)
    requires Run(s, a) == Some(s') && Run(s', b) == r
    ensures Run(s, a + b) == r
  {
    RunConcat(s, a, b);
  }

  // ---- Values ----

  lemma {:induction false} RunValue(v: Value, rest: Stack)
    ensures Run([Val] + rest, PrintValue(v)) == Some(rest)
    decreases v, 0
  {
    match v
    case Scalar(text) => RunOne([Val] + rest, Lexeme(String, text, false));
    case Array(e) =>
      RunOne([Val] + rest, Lexeme(LBracket, [LBRACKET], false));
      RunElems(e, rest);
      RunThen([Val] + rest, Mark(LBracket, LBRACKET), [Elem] + rest, PrintElems(e), Some(rest));
    case Inline(fs) =>
      RunOne([Val] + rest, Lexeme(LBrace, [LBRACE], false));
      RunFields(fs, rest);
      RunThen([Val] + rest, Mark(LBrace, LBRACE), [Field] + rest, PrintFields(fs), Some(rest));
  }

  /** Stacks that agree after the first token agree. */
  lemma {:induction false} SameFirst(s: Stack, s': Stack, ls: seq<Lexeme>)
    requires ls != [] && Step(s, ls[0]) == Step(s', ls[0])
    ensures Run(s, ls) == Run(s', ls)
  {
  }

  /** As an element, a value leaves more elements due. */
  lemma {:induction false} RunElem(v: Value, rest: Stack)
    ensures Run([Elem] + rest, PrintValue(v)) == Some([MoreElem] + rest)
    decreases v, 1
  {
    RunValue(v, [MoreElem] + rest);
    ElemIsValue(rest, PrintValue(v));
  }

  /** Where an element is due, a value can stand, and more elements are due after it. */
  lemma {:induction false} ElemIsValue(rest: Stack, ls: seq<Lexeme>)
    requires ls != [] && ls[0].kind in {Kind.String, LBracket, LBrace}
    ensures Run([Elem] + rest, ls) == Run([Val] + ([MoreElem] + rest), ls)
  {
    assert ([Val] + ([MoreElem] + rest))[1..] == [MoreElem] + rest && ([Elem] + rest)[1..] == rest;
    assert [Elem, MoreElem] + rest == [Elem] + ([MoreElem] + rest);
    assert [Field, MoreElem] + rest == [Field] + ([MoreElem] + rest);
    SameFirst([Elem] + rest, [Val] + ([MoreElem] + rest), ls);
  }

  lemma {:induction false} RunElems(e: Elems, rest: Stack)
    ensures Run([Elem] + rest, PrintElems(e)) == Some(rest)
    decreases e, 1
  {
    RunLines([Elem] + rest, e.before);
    match e
    case NoElem(n) =>
      RunOne([Elem] + rest, Lexeme(RBracket, [RBRACKET], false));
      RunThen([Elem] + rest, Lines(n), [Elem] + rest, Mark(RBracket, RBRACKET), Some(rest));
    case LastElem(n, v, m) =>
      RunOne([MoreElem] + rest, Lexeme(RBracket, [RBRACKET], false));
      RunAfterElem(n, v, m, Mark(RBracket, RBRACKET), rest, Some(rest));
    case MoreElems(n, v, m, more) =>
      RunOne([MoreElem] + rest, Lexeme(Kind.Comma, [COMMA], false));
      RunElems(more, rest);
      RunThen([MoreElem] + rest, Mark(Kind.Comma, COMMA), [Elem] + rest, PrintElems(more), Some(rest));
      RunAfterElem(n, v, m, Mark(Kind.Comma, COMMA) + PrintElems(more), rest, Some(rest));
  }

  /** Newlines, an element, newlines, and what comes then. */
  lemma {:induction false} RunAfterElem(n: nat, v: Value, m: nat, last: seq<Lexeme>, rest: Stack, r: Option<Stack>)
    requires Run([MoreElem] + rest, last) == r
    ensures Run([Elem] + rest, Lines(n) + (PrintValue(v) + (Lines(m) + last))) == r
    decreases v, 2
  {
    RunLines([MoreElem] + rest, m);
    RunThen([MoreElem] + rest, Lines(m), [MoreElem] + rest, last, r);
    RunElem(v, rest);
    RunThen([Elem] + rest, PrintValue(v), [MoreElem] + rest, Lines(m) + last, r);
    RunLines([Elem] + rest, n);
    RunThen([Elem] + rest, Lines(n), [Elem] + rest, PrintValue(v) + (Lines(m) + last), r);
  }

  /** After a key: `=`, and what is due as a value. */
  lemma {:induction false} RunAfterKey(s: Stack, k: Str, more: Due, rest: Stack, value: seq<Lexeme>, r: Option<Stack>)
    requires Step(s, Lexeme(String, k, false)) == Some([EqualSign, more] + rest) && Run([Val, more] + rest, value) == r
    ensures Run(s, Word(k) + (Mark(Equal, EQUALS) + value)) == r
  {
    var eq := [EqualSign, more] + rest;
    RunOne(s, Lexeme(String, k, false));
    RunOne(eq, Lexeme(Equal, [EQUALS], false));
    assert [Val] + eq[1..] == [Val, more] + rest;
    RunThen(eq, Mark(Equal, EQUALS), [Val, more] + rest, value, r);
    RunThen(s, Word(k), eq, Mark(Equal, EQUALS) + value, r);
  }

  lemma {:induction false} RunField(k: Str, v: Value, rest: Stack)
    ensures Run([Field] + rest, PrintField(k, v)) == Some([MoreField] + rest)
    decreases v, 1
  {
    RunValue(v, [MoreField] + rest);
    assert [Val] + ([MoreField] + rest) == [Val, MoreField] + rest;
    RunAfterKey([Field] + rest, k, MoreField, rest, PrintValue(v), Some([MoreField] + rest));
  }

  lemma {:induction false} RunFields(fs: Fields, rest: Stack)
    ensures Run([Field] + rest, PrintFields(fs)) == Some(rest)
    decreases fs, 1
  {
    RunLines([Field] + rest, fs.before);
    match fs
    case NoField(n) =>
      RunOne([Field] + rest, Lexeme(RBrace, [RBRACE], false));
      RunThen([Field] + rest, Lines(n), [Field] + rest, Mark(RBrace, RBRACE), Some(rest));
    case LastField(n, k, v, m) =>
      RunOne([MoreField] + rest, Lexeme(RBrace, [RBRACE], false));
      RunAfterField(n, k, v, m, Mark(RBrace, RBRACE), rest, Some(rest));
    case MoreFields(n, k, v, m, more) =>
      RunOne([MoreField] + rest, Lexeme(Kind.Comma, [COMMA], false));
      RunFields(more, rest);
      RunThen([MoreField] + rest, Mark(Kind.Comma, COMMA), [Field] + rest, PrintFields(more), Some(rest));
      RunAfterField(n, k, v, m, Mark(Kind.Comma, COMMA) + PrintFields(more), rest, Some(rest));
  }

  lemma {:induction false} RunAfterField(n: nat, k: Str, v: Value, m: nat, last: seq<Lexeme>, rest: Stack,
                                         r: Option<Stack>)
    requires Run([MoreField] + rest, last) == r
    ensures Run([Field] + rest, Lines(n) + (PrintField(k, v) + (Lines(m) + last))) == r
    decreases v, 2
  {
    RunLines([MoreField] + rest, m);
    RunThen([MoreField] + rest, Lines(m), [MoreField] + rest, last, r);
    RunField(k, v, rest);
    RunThen([Field] + rest, PrintField(k, v), [MoreField] + rest, Lines(m) + last, r);
    RunLines([Field] + rest, n);
    RunThen([Field] + rest, Lines(n), [Field] + rest, PrintField(k, v) + (Lines(m) + last), r);
  }

  // ---- Open values ----

  /** What is due after open elements, in front of `rest`. */
  function DueElems(e: OpenElems, rest: Stack): Stack {
    match e
    case AwaitElem(_) => [Elem] + rest
    case AfterElem(_, _, _) => [MoreElem] + rest
    case ThenElems(_, _, _, more) => DueElems(more, rest)
    case InElem(_, o) => DueValue(o, [MoreElem] + rest)
  }

  function DueFields(fs: OpenFields, rest: Stack): Stack {
    match fs
    case AwaitField(_) => [Field] + rest
    case AfterField(_, _, _, _) => [MoreField] + rest
    case ThenFields(_, _, _, _, more) => DueFields(more, rest)
    case InField(_, _, o) => DueValue(o, [MoreField] + rest)
  }

  function DueValue(o: OpenValue, rest: Stack): Stack {
    match o
    case OpenArray(e) => DueElems(e, rest)
    case OpenTable(fs) => DueFields(fs, rest)
  }

  lemma {:induction false} RunOpenValue(o: OpenValue, rest: Stack)
    ensures Run([Val] + rest, PrintOpenValue(o)) == Some(DueValue(o, rest))
    decreases o, 0
  {
    match o
    case OpenArray(e) =>
      RunOne([Val] + rest, Lexeme(LBracket, [LBRACKET], false));
      RunOpenElems(e, rest);
      RunThen([Val] + rest, Mark(LBracket, LBRACKET), [Elem] + rest, PrintOpenElems(e), Some(DueElems(e, rest)));
    case OpenTable(fs) =>
      RunOne([Val] + rest, Lexeme(LBrace, [LBRACE], false));
      RunOpenFields(fs, rest);
      RunThen([Val] + rest, Mark(LBrace, LBRACE), [Field] + rest, PrintOpenFields(fs), Some(DueFields(fs, rest)));
  }

  lemma {:induction false} RunOpenElems(e: OpenElems, rest: Stack)
    ensures Run([Elem] + rest, PrintOpenElems(e)) == Some(DueElems(e, rest))
    decreases e, 1
  {
    var r := Some(DueElems(e, rest));
    RunLines([Elem] + rest, e.before);
    match e
    case AwaitElem(_) =>
    case AfterElem(n, v, m) =>
      RunAfterElem(n, v, m, [], rest, r);
      assert Lines(m) + [] == Lines(m);
    case ThenElems(n, v, m, more) =>
      RunOne([MoreElem] + rest, Lexeme(Kind.Comma, [COMMA], false));
      RunOpenElems(more, rest);
      RunThen([MoreElem] + rest, Mark(Kind.Comma, COMMA), [Elem] + rest, PrintOpenElems(more), r);
      RunAfterElem(n, v, m, Mark(Kind.Comma, COMMA) + PrintOpenElems(more), rest, r);
    case InElem(n, o) =>
      RunOpenValue(o, [MoreElem] + rest);
      FirstOfOpen(o);
      ElemIsValue(rest, PrintOpenValue(o));
      RunThen([Elem] + rest, Lines(n), [Elem] + rest, PrintOpenValue(o), r);
  }

  lemma {:induction false} RunOpenFields(fs: OpenFields, rest: Stack)
    ensures Run([Field] + rest, PrintOpenFields(fs)) == Some(DueFields(fs, rest))
    decreases fs, 1
  {
    var r := Some(DueFields(fs, rest));
    RunLines([Field] + rest, fs.before);
    match fs
    case AwaitField(_) =>
    case AfterField(n, k, v, m) =>
      RunAfterField(n, k, v, m, [], rest, r);
      assert Lines(m) + [] == Lines(m);
    case ThenFields(n, k, v, m, more) =>
      RunOne([MoreField] + rest, Lexeme(Kind.Comma, [COMMA], false));
      RunOpenFields(more, rest);
      RunThen([MoreField] + rest, Mark(Kind.Comma, COMMA), [Field] + rest, PrintOpenFields(more), r);
      RunAfterField(n, k, v, m, Mark(Kind.Comma, COMMA) + PrintOpenFields(more), rest, r);
    case InField(n, k, o) =>
      RunOpenValue(o, [MoreField] + rest);
      assert [Val] + ([MoreField] + rest) == [Val, MoreField] + rest;
      RunAfterKey([Field] + rest, k, MoreField, rest, PrintOpenValue(o), r);
      RunThen([Field] + rest, Lines(n), [Field] + rest, PrintOpenField(k, o), r);
  }

  // ---- Statements ----

  /** Headers have one to ten keys, and a newline after them. */
  predicate DocOk(afterHeader: bool, ss: seq<Language.Stmt>)
    decreases |ss|
  {
    ss == [] ||
    (&& (afterHeader ==> ss[0].Blank?) && (ss[0].Header? ==> 0 < |ss[0].keys| <= 10)
     && DocOk(ss[0].Header?, ss[1..]))
  }

  function PrintAll(ss: seq<Language.Stmt>): seq<Lexeme>
    decreases |ss|
  {
    if ss == [] then [] else Print(ss[0]) + PrintAll(ss[1..])
  }

  function Between(afterHeader: bool): Stack { [if afterHeader then EndOfHeader else Due.Stmt] }

  /** One token where one thing is due. */
  lemma {:induction false} RunAlone(x: Due, l: Lexeme, y: Due)
    requires Step([x], l) == Some([y] + [x][1..])
    ensures Run([x], [l]) == Some([y])
  {
    RunOne([x], l);
    assert [y] + [x][1..] == [y];
  }

  lemma {:induction false} RunPath(n: nat, d: bool, keys: seq<Str>)
    requires keys != [] && n + |keys| <= 10
    ensures Run([PathKey(n, d)], PrintPath(keys)) == Some([PathDot(n + |keys|, d)])
    decreases |keys|
  {
    var key := Lexeme(Kind.String, keys[0], true);
    RunAlone(PathKey(n, d), key, PathDot(n + 1, d));
    if |keys| > 1 {
      var rest := DotMark(Kind.Dot, DOT) + PrintPath(keys[1..]);
      RunAlone(PathDot(n + 1, d), Lexeme(Kind.Dot, [DOT], true), PathKey(n + 1, d));
      RunPath(n + 1, d, keys[1..]);
      RunThen([PathDot(n + 1, d)], DotMark(Kind.Dot, DOT), [PathKey(n + 1, d)], PrintPath(keys[1..]),
              Some([PathDot(n + |keys|, d)]));
      RunThen([PathKey(n, d)], [key], [PathDot(n + 1, d)], rest, Some([PathDot(n + |keys|, d)]));
    }
  }

  /** The opening brackets, and a key. */
  lemma {:induction false} RunOpen(double: bool, ls: seq<Lexeme>)
    requires ls != [] && ls[0].kind == Kind.String
    ensures Run([Due.Stmt], PrintOpen(double) + ls) == Run([PathKey(0, double)], ls)
  {
    var l := Lexeme(LBracket, [LBRACKET], true);
    RunAlone(Due.Stmt, l, Opened);
    if double {
      RunAlone(Opened, l, PathKey(0, true));
      RunThen([Due.Stmt], [l], [Opened], [l], Some([PathKey(0, true)]));
      RunConcat([Due.Stmt], PrintOpen(double), ls);
    } else {
      assert [Opened][1..] == [PathKey(0, false)][1..];
      SameFirst([Opened], [PathKey(0, false)], ls);
      RunConcat([Due.Stmt], [l], ls);
    }
  }

  lemma {:induction false} RunClose(n: nat, double: bool)
    ensures Run([PathDot(n, double)], PrintClose(double)) == Some([EndOfHeader])
  {
    var l := Lexeme(RBracket, [RBRACKET], false);
    RunAlone(PathDot(n, double), l, if double then SecondClose else EndOfHeader);
    if double {
      RunAlone(SecondClose, l, EndOfHeader);
      RunThen([PathDot(n, true)], [l], [SecondClose], [l], Some([EndOfHeader]));
    }
  }

  lemma {:induction false} RunHeader(double: bool, keys: seq<Str>)
    requires 0 < |keys| <= 10
    ensures Run([Due.Stmt], Print(Header(double, keys))) == Some([EndOfHeader])
  {
    RunPath(0, double, keys);
    RunClose(|keys|, double);
    RunThen([PathKey(0, double)], PrintPath(keys), [PathDot(|keys|, double)], PrintClose(double), Some([EndOfHeader]));
    RunOpen(double, PrintPath(keys) + PrintClose(double));
  }

  lemma {:induction false} RunEntry(k: Str, value: seq<Lexeme>, r: Option<Stack>)
    requires Run([Val, EndOfEntry], value) == r
    ensures Run([Due.Stmt], Word(k) + (Mark(Equal, EQUALS) + value)) == r
  {
    assert [EqualSign, EndOfEntry] + [] == [EqualSign, EndOfEntry] && [Val, EndOfEntry] + [] == [Val, EndOfEntry];
    assert [Due.Stmt][1..] == [];
    RunAfterKey([Due.Stmt], k, EndOfEntry, [], value, r);
  }

  lemma {:induction false} RunStmt(afterHeader: bool, st: Language.Stmt)
    requires (afterHeader ==> st.Blank?) && (st.Header? ==> 0 < |st.keys| <= 10)
    ensures Run(Between(afterHeader), Print(st)) == Some(Between(st.Header?))
  {
    match st
    case Blank => RunAlone(Between(afterHeader)[0], Lexeme(Newline, [LF], true), Due.Stmt);
    case Entry(k, v, end) =>
      RunValue(v, [EndOfEntry]);
      assert [Val] + [EndOfEntry] == [Val, EndOfEntry];
      RunEntry(k, PrintValue(v), Some([EndOfEntry]));
      RunAlone(EndOfEntry, Lexeme(Newline, end, false), Due.Stmt);
      RunThen([Due.Stmt], PrintField(k, v), [EndOfEntry], [Lexeme(Newline, end, false)], Some([Due.Stmt]));
    case Header(double, keys) => RunHeader(double, keys);
  }

  function AfterLast(afterHeader: bool, ss: seq<Language.Stmt>): bool {
    if ss == [] then afterHeader else ss[|ss| - 1].Header?
  }

  lemma {:induction false} RunDoc(afterHeader: bool, ss: seq<Language.Stmt>)
    requires DocOk(afterHeader, ss)
    ensures Run(Between(afterHeader), PrintAll(ss)) == Some(Between(AfterLast(afterHeader, ss)))
    decreases |ss|
  {
    if ss != [] {
      RunStmt(afterHeader, ss[0]);
      RunDoc(ss[0].Header?, ss[1..]);
      RunThen(Between(afterHeader), Print(ss[0]), Between(ss[0].Header?), PrintAll(ss[1..]),
              Some(Between(AfterLast(afterHeader, ss))));
    }
  }

  // ---- What begins no document ----

  /** No document begins with these lexemes and a next one that the token `u` could be. */
  ghost predicate Dead(inp: Str, ls: seq<Lexeme>, u: Token) {
    forall ss, l | DocOk(false, ss) && Matches(inp, u, l) :: !(ls + [l] <= PrintAll(ss))
  }

  /** What the automaton cannot follow begins no document. */
  lemma {:induction false} StuckIsDead(inp: Str, ls: seq<Lexeme>, s: Stack, u: Token)
    requires Run([Due.Stmt], ls) == Some(s) && Within(inp, u) && Step(s, Lexeme(u.kind, Text(inp, u), false)) == None
    ensures Dead(inp, ls, u)
  {
    forall ss, l | DocOk(false, ss) && Matches(inp, u, l) ensures !(ls + [l] <= PrintAll(ss)) {
      RunOne(s, l);
      RunThen([Due.Stmt], ls, s, [l], None);
      RunDoc(false, ss);
      NotFollowed([Due.Stmt], ls + [l], PrintAll(ss));
    }
  }

  lemma {:induction false} NotFollowed(s: Stack, ls: seq<Lexeme>, all: seq<Lexeme>)
    requires Run(s, ls) == None && Run(s, all).Some?
    ensures !(ls <= all)
  {
    if ls <= all {
      assert all == ls + all[|ls|..];
      RunConcat(s, ls, all[|ls|..]);
    }
  }
}
