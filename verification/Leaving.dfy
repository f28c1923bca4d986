/**
  * Where the tokens leave the grammar a syntax error is raised: at the first token
  * with which no document goes on, if what comes before it is built.
  */
module Leaving {
  import opened Bytes
  import opened Lexer
  import opened Store
  import opened Keys
  import opened Grammar
  import opened Eval
  import opened Parser
  import opened Document
  import opened Language
  import opened Stops
  import opened Faults
  import opened Prefixes
  import opened SyntaxErrors

  // ---- Tokens that are due can be followed by the rest of a document ----

  /** The text of a lexeme that is punctuation, or a line that ends. */
  predicate Worded(l: Lexeme) {
    !l.dot &&
    match l.kind
    case String => true
    case Newline => l.text == [LF]
    case LBracket => l.text == [LBRACKET]
    case RBracket => l.text == [RBRACKET]
    case LBrace => l.text == [LBRACE]
    case RBrace => l.text == [RBRACE]
    case Comma => l.text == [COMMA]
    case Equal => l.text == [EQUALS]
    case Dot => l.text == [DOT]
  }

  lemma WordedToken(inp: Str, u: Token)
    requires Shaped(inp, u) && !u.eof
    ensures Worded(Lexeme(u.kind, Text(inp, u), false))
  {
    match u.kind
    case String =>
    case Newline => assert Text(inp, u) == [inp[u.ptr]];
    case _ => assert Text(inp, u) == [inp[u.ptr]];
  }

  /** The kinds of token that are due inside a value. */
  predicate Allowed(d: Due, k: Kind) {
    match d
    case Elem => k in {Newline, Kind.String, LBracket, LBrace, RBracket}
    case MoreElem => k in {Newline, Kind.Comma, RBracket}
    case Field => k in {Newline, Kind.String, RBrace}
    case MoreField => k in {Newline, Kind.Comma, RBrace}
    case _ => false
  }

  /** A value that begins with this lexeme. */
  function Begun(l: Lexeme): (v: Value)
    ensures Worded(l) && l.kind in {Kind.String, LBracket, LBrace} ==> [l] <= PrintValue(v)
  {
    match l.kind
    case LBracket => Array(NoElem(0))
    case LBrace => Inline(NoField(0))
    case _ => Scalar(l.text)
  }

  /** The lexeme; a key with a value. */
  function Chunk(d: Due, l: Lexeme, v: Value): seq<Lexeme> {
    if d == Field && l.kind == Kind.String then PrintField(l.text, v) else [l]
  }

  /** The open elements, then the lexeme (where a key is due, with this value), and then what closes them. */
  function CloseElems(e: OpenElems, l: Lexeme, v: Value): Elems {
    match e
    case AwaitElem(n) =>
      if l.kind == Newline then NoElem(n + 1)
      else if l.kind == RBracket then NoElem(n)
      else LastElem(n, Begun(l), 0)
    case AfterElem(n, x, m) =>
      if l.kind == Newline then LastElem(n, x, m + 1)
      else if l.kind == RBracket then LastElem(n, x, m)
      else MoreElems(n, x, m, NoElem(0))
    case ThenElems(n, x, m, rest) => MoreElems(n, x, m, CloseElems(rest, l, v))
    case InElem(n, o) => LastElem(n, CloseValue(o, l, v), 0)
  }

  function CloseFields(fs: OpenFields, l: Lexeme, v: Value): Fields {
    match fs
    case AwaitField(n) =>
      if l.kind == Newline then NoField(n + 1)
      else if l.kind == RBrace then NoField(n)
      else LastField(n, l.text, v, 0)
    case AfterField(n, k, x, m) =>
      if l.kind == Newline then LastField(n, k, x, m + 1)
      else if l.kind == RBrace then LastField(n, k, x, m)
      else MoreFields(n, k, x, m, NoField(0))
    case ThenFields(n, k, x, m, rest) => MoreFields(n, k, x, m, CloseFields(rest, l, v))
    case InField(n, k, o) => LastField(n, k, CloseValue(o, l, v), 0)
  }

  function CloseValue(o: OpenValue, l: Lexeme, v: Value): Value {
    match o
    case OpenArray(e) => Array(CloseElems(e, l, v))
    case OpenTable(fs) => Inline(CloseFields(fs, l, v))
  }

  lemma LinesEnd(n: nat)
    ensures Lines(n + 1) == Lines(n) + [NL]
  {
    if n > 0 { LinesEnd(n - 1); }
  }

  /** A common beginning, and then a beginning. */
  lemma Longer(a: seq<Lexeme>, b: seq<Lexeme>, c: seq<Lexeme>)
    requires b <= c
    ensures a + b <= a + c
  {
  }

  lemma After(a: seq<Lexeme>, b: seq<Lexeme>, x: seq<Lexeme>, c: seq<Lexeme>)
    requires b + x <= c
    ensures (a + b) + x <= a + c
  {
    assert (a + b) + x == a + (b + x);
  }

  /** ... behind newlines, an item and newlines. */
  lemma AfterItem(n: nat, x: seq<Lexeme>, m: nat, b: seq<Lexeme>, y: seq<Lexeme>, c: seq<Lexeme>)
    requires b + y <= c
    ensures Lines(n) + (x + (Lines(m) + b)) + y <= Lines(n) + (x + (Lines(m) + c))
  {
    After(Lines(m), b, y, c);
    After(x, Lines(m) + b, y, Lines(m) + c);
    After(Lines(n), x + (Lines(m) + b), y, x + (Lines(m) + c));
  }

  /** After an item a newline, the closing bracket or something longer goes on. */
  lemma ItemGoesOn(n: nat, x: seq<Lexeme>, m: nat, l: Lexeme, more: seq<Lexeme>)
    ensures Lines(n) + (x + Lines(m)) + [l] <= Lines(n) + (x + (Lines(m) + ([l] + more)))
  {
    AfterItem(n, x, m, [], [l], [l] + more);
    assert Lines(m) + [] == Lines(m);
  }

  /** ... a newline in front of the closing bracket. */
  lemma LineGoesOn(n: nat, x: seq<Lexeme>, m: nat, end: seq<Lexeme>)
    ensures Lines(n) + (x + Lines(m)) + [NL] <= Lines(n) + (x + (Lines(m + 1) + end))
  {
    LinesEnd(m);
    ItemGoesOn(n, x, m, NL, end);
    assert Lines(m + 1) + end == Lines(m) + ([NL] + end);
  }

  lemma AwaitGoesOn(n: nat, l: Lexeme, v: Value)
    requires Worded(l) && Allowed(Elem, l.kind)
    ensures PrintOpenElems(AwaitElem(n)) + [l] <= PrintElems(CloseElems(AwaitElem(n), l, v))
  {
    LinesEnd(n);
    if l.kind in {Kind.String, LBracket, LBrace} {
      Longer(Lines(n), [l], PrintValue(Begun(l)) + (Lines(0) + Mark(RBracket, RBRACKET)));
    }
  }

  lemma PastGoesOn(n: nat, x: Value, m: nat, l: Lexeme, v: Value)
    requires Worded(l) && Allowed(MoreElem, l.kind)
    ensures PrintOpenElems(AfterElem(n, x, m)) + [l] <= PrintElems(CloseElems(AfterElem(n, x, m), l, v))
  {
    if l.kind == Newline {
      LineGoesOn(n, PrintValue(x), m, Mark(RBracket, RBRACKET));
    } else {
      var more := if l.kind == Kind.Comma then PrintElems(NoElem(0)) else [];
      ItemGoesOn(n, PrintValue(x), m, l, more);
      assert [l] + [] == [l];
    }
  }

  lemma {:induction false} ElemsGoOn(e: OpenElems, l: Lexeme, v: Value, rest: Stack)
    requires Worded(l) && DueElems(e, rest) != [] && Allowed(DueElems(e, rest)[0], l.kind)
    ensures PrintOpenElems(e) + Chunk(DueElems(e, rest)[0], l, v) <= PrintElems(CloseElems(e, l, v))
    decreases e
  {
    match e
    case AwaitElem(n) => AwaitGoesOn(n, l, v);
    case AfterElem(n, x, m) => PastGoesOn(n, x, m, l, v);
    case ThenElems(n, x, m, more) =>
      ElemsGoOn(more, l, v, rest);
      var c := Chunk(DueElems(e, rest)[0], l, v);
      var a, b := PrintOpenElems(more), PrintElems(CloseElems(more, l, v));
      After(Mark(Kind.Comma, COMMA), a, c, b);
      AfterItem(n, PrintValue(x), m, Mark(Kind.Comma, COMMA) + a, c, Mark(Kind.Comma, COMMA) + b);
    case InElem(n, o) =>
      ValueGoesOn(o, l, v, [MoreElem] + rest);
      var c := Chunk(DueElems(e, rest)[0], l, v);
      var b := PrintValue(CloseValue(o, l, v));
      assert PrintOpenValue(o) + c <= b + (Lines(0) + Mark(RBracket, RBRACKET));
      After(Lines(n), PrintOpenValue(o), c, b + (Lines(0) + Mark(RBracket, RBRACKET)));
  }

  lemma AwaitFieldGoesOn(n: nat, l: Lexeme, v: Value)
    requires Worded(l) && Allowed(Field, l.kind)
    ensures PrintOpenFields(AwaitField(n)) + Chunk(Field, l, v) <= PrintFields(CloseFields(AwaitField(n), l, v))
  {
    LinesEnd(n);
    if l.kind == Kind.String {
      Longer(Lines(n), PrintField(l.text, v), PrintField(l.text, v) + (Lines(0) + Mark(RBrace, RBRACE)));
    }
  }

  lemma PastFieldGoesOn(n: nat, k: Str, x: Value, m: nat, l: Lexeme, v: Value)
    requires Worded(l) && Allowed(MoreField, l.kind)
    ensures PrintOpenFields(AfterField(n, k, x, m)) + [l] <= PrintFields(CloseFields(AfterField(n, k, x, m), l, v))
  {
    if l.kind == Newline {
      LineGoesOn(n, PrintField(k, x), m, Mark(RBrace, RBRACE));
    } else {
      var more := if l.kind == Kind.Comma then PrintFields(NoField(0)) else [];
      ItemGoesOn(n, PrintField(k, x), m, l, more);
      assert [l] + [] == [l];
    }
  }

  lemma {:induction false} FieldsGoOn(fs: OpenFields, l: Lexeme, v: Value, rest: Stack)
    requires Worded(l) && DueFields(fs, rest) != [] && Allowed(DueFields(fs, rest)[0], l.kind)
    ensures PrintOpenFields(fs) + Chunk(DueFields(fs, rest)[0], l, v) <= PrintFields(CloseFields(fs, l, v))
    decreases fs
  {
    var c := Chunk(DueFields(fs, rest)[0], l, v);
    match fs
    case AwaitField(n) => AwaitFieldGoesOn(n, l, v);
    case AfterField(n, k, x, m) => PastFieldGoesOn(n, k, x, m, l, v);
    case ThenFields(n, k, x, m, more) =>
      FieldsGoOn(more, l, v, rest);
      var a, b := PrintOpenFields(more), PrintFields(CloseFields(more, l, v));
      After(Mark(Kind.Comma, COMMA), a, c, b);
      AfterItem(n, PrintField(k, x), m, Mark(Kind.Comma, COMMA) + a, c, Mark(Kind.Comma, COMMA) + b);
    case InField(n, k, o) =>
      FieldGoesOn(k, o, l, v, [MoreField] + rest);
      var b := PrintField(k, CloseValue(o, l, v));
      assert PrintOpenField(k, o) + c <= b + (Lines(0) + Mark(RBrace, RBRACE));
      After(Lines(n), PrintOpenField(k, o), c, b + (Lines(0) + Mark(RBrace, RBRACE)));
  }

  lemma {:induction false} ValueGoesOn(o: OpenValue, l: Lexeme, v: Value, rest: Stack)
    requires Worded(l) && DueValue(o, rest) != [] && Allowed(DueValue(o, rest)[0], l.kind)
    ensures PrintOpenValue(o) + Chunk(DueValue(o, rest)[0], l, v) <= PrintValue(CloseValue(o, l, v))
    decreases o, 0
  {
    var c := Chunk(DueValue(o, rest)[0], l, v);
    match o
    case OpenArray(e) =>
      ElemsGoOn(e, l, v, rest);
      After(Mark(LBracket, LBRACKET), PrintOpenElems(e), c, PrintElems(CloseElems(e, l, v)));
    case OpenTable(fs) =>
      FieldsGoOn(fs, l, v, rest);
      After(Mark(LBrace, LBRACE), PrintOpenFields(fs), c, PrintFields(CloseFields(fs, l, v)));
  }

  lemma {:induction false} FieldGoesOn(k: Str, o: OpenValue, l: Lexeme, v: Value, rest: Stack)
    requires Worded(l) && DueValue(o, rest) != [] && Allowed(DueValue(o, rest)[0], l.kind)
    ensures PrintOpenField(k, o) + Chunk(DueValue(o, rest)[0], l, v) <= PrintField(k, CloseValue(o, l, v))
    decreases o, 1
  {
    var c, b := Chunk(DueValue(o, rest)[0], l, v), PrintValue(CloseValue(o, l, v));
    ValueGoesOn(o, l, v, rest);
    After(Mark(Equal, EQUALS), PrintOpenValue(o), c, b);
    After(Word(k), Mark(Equal, EQUALS) + PrintOpenValue(o), c, Mark(Equal, EQUALS) + b);
  }

  // ---- Statements ----

  /** One statement more. */
  lemma {:induction false} OneMore(afterHeader: bool, ss: seq<Language.Stmt>, x: Language.Stmt)
    requires DocOk(afterHeader, ss) && (AfterLast(afterHeader, ss) ==> x.Blank?) && (x.Header? ==> 0 < |x.keys| <= 10)
    ensures DocOk(afterHeader, ss + [x]) && PrintAll(ss + [x]) == PrintAll(ss) + Print(x)
    decreases |ss|
  {
    if ss == [] {
      assert PrintAll([x]) == Print(x) + PrintAll([]);
      assert [] + [x] == [x];
    } else {
      OneMore(ss[0].Header?, ss[1..], x);
      assert (ss + [x])[1..] == ss[1..] + [x];
      assert |ss| > 1 ==> ss[1..][|ss| - 2] == ss[|ss| - 1];
    }
  }

  /** With the next token of one more statement a document goes on. */
  lemma {:induction false} Alive(inp: Str, ss: seq<Language.Stmt>, x: Language.Stmt, ls: seq<Lexeme>, u: Token,
                                 l: Lexeme)
    requires DocOk(false, ss) && (AfterLast(false, ss) ==> x.Blank?) && (x.Header? ==> 0 < |x.keys| <= 10)
    requires Matches(inp, u, l) && ls + [l] <= Print(x)
    ensures !Dead(inp, PrintAll(ss) + ls, u)
  {
    OneMore(false, ss, x);
    After(PrintAll(ss), ls, [l], Print(x));
    assert DocOk(false, ss + [x]) && PrintAll(ss) + ls + [l] <= PrintAll(ss + [x]);
  }

  /** Inside a value. */
  lemma {:induction false} DeadInside(inp: Str, ss: seq<Language.Stmt>, k: Str, o: OpenValue, u: Token)
    requires DocOk(false, ss) && !AfterLast(false, ss) && Shaped(inp, u) && !u.eof && DueValue(o, [EndOfEntry]) != []
    requires Dead(inp, PrintAll(ss) + PrintOpenField(k, o), u)
    ensures !Allowed(DueValue(o, [EndOfEntry])[0], u.kind)
  {
    var l, v, due := Lexeme(u.kind, Text(inp, u), false), Scalar([]), DueValue(o, [EndOfEntry])[0];
    if Allowed(due, u.kind) {
      WordedToken(inp, u);
      FieldGoesOn(k, o, l, v, [EndOfEntry]);
      assert [l] <= Chunk(due, l, v);
      Longer(PrintOpenField(k, o), [l], Chunk(due, l, v));
      Alive(inp, ss, Entry(k, CloseValue(o, l, v), [LF]), PrintOpenField(k, o), u, l);
    }
  }

  /** Between statements. */
  lemma {:induction false} DeadBetween(inp: Str, ss: seq<Language.Stmt>, u: Token)
    requires DocOk(false, ss) && (AfterLast(false, ss) ==> u.kind == Newline) && Shaped(inp, u) && !u.eof
    requires Dead(inp, PrintAll(ss), u)
    ensures u.kind !in {Newline, Kind.String, LBracket}
  {
    WordedToken(inp, u);
    assert PrintAll(ss) + [] == PrintAll(ss);
    if u.kind == Newline {
      Alive(inp, ss, Blank, [], u, Lexeme(Newline, Text(inp, u), true));
    } else if u.kind == Kind.String {
      Alive(inp, ss, Entry(Text(inp, u), Scalar([]), [LF]), [], u, Lexeme(Kind.String, Text(inp, u), false));
    } else if u.kind == LBracket {
      Alive(inp, ss, Header(false, [[]]), [], u, Lexeme(LBracket, Text(inp, u), true));
    }
  }

  /** After a key-value. */
  lemma {:induction false} DeadPast(inp: Str, ss: seq<Language.Stmt>, k: Str, v: Value, u: Token)
    requires DocOk(false, ss) && !AfterLast(false, ss) && Shaped(inp, u)
    requires Dead(inp, PrintAll(ss) + PrintField(k, v), u)
    ensures u.kind != Newline
  {
    if u.kind == Newline {
      Alive(inp, ss, Entry(k, v, Text(inp, u)), PrintField(k, v), u, Lexeme(Newline, Text(inp, u), false));
    }
  }

  // ---- Where a document is built so far ----

  function PrintTail(tail: Tail): seq<Lexeme> {
    match tail
    case NextStmt => []
    case InEntry(k, o) => PrintOpenField(k, o)
    case PastEntry(k, v) => PrintField(k, v)
    case InHeader(double, keys) => PrintOpen(double) + PrintDotted(keys)
  }

  /** This much of a statement is read from token `t` on, and what there is of its value built; `u` is next. */
  ghost predicate BuiltFrom(env: Env, p: Place, t: Token, tail: Tail, h: Heap, u: Token)
    requires PlaceOk(p)
  {
    Read(env.inp, t, PrintTail(tail)) == Some(u) &&
    match tail
    case NextStmt => h == p.heap
    case InEntry(k, o) =>
      var st := EvalOpenField(env.foreign, p.heap, p.cur, k, o);
      st.Some? && h == st.value.heap
    case PastEntry(k, v) => EvalField(env.foreign, p.heap, p.cur, k, v) == Some(h)
    case InHeader(_, keys) => h == p.heap && |keys| <= 10 && KeyNames(keys).Some?
  }

  /** ... after statements that execute, from the first token of the input on. */
  ghost predicate Built(env: Env, ss: seq<Language.Stmt>, tail: Tail, h: Heap, u: Token) {
    && Next(env.inp, START, true).Tok? && Shaped(env.inp, Next(env.inp, START, true).tok)
    && var t := Next(env.inp, START, true).tok;
       && ReadAll(env.inp, t, ss).Some? && ExecAll(env.foreign, Place(EMPTY, ROOT), ss).Some?
       && BuiltFrom(env, ExecAll(env.foreign, Place(EMPTY, ROOT), ss).value, ReadAll(env.inp, t, ss).value, tail, h, u)
  }

  /** The place and the token where the last statement begins. */
  lemma {:induction false} LastBegins(env: Env, ss: seq<Language.Stmt>, tail: Tail, h: Heap, u: Token)
    returns (p: Place, t: Token)
    requires Built(env, ss, tail, h, u)
    ensures DocOk(false, ss) && (AfterLast(false, ss) ==> t.kind == Newline) && PlaceOk(p) && Shaped(env.inp, t)
    ensures BuiltFrom(env, p, t, tail, h, u) && Shaped(env.inp, u)
    ensures ExecAll(env.foreign, Place(EMPTY, ROOT), ss) == Some(p)
    ensures ReadAll(env.inp, Next(env.inp, START, true).tok, ss) == Some(t)
    ensures forall tail', x :: TailFault(env, p, t, tail') == Some(x) ==> Raises(Parse(env), x)
  {
    var t0 := Next(env.inp, START, true).tok;
    t, p := ReadAll(env.inp, t0, ss).value, ExecAll(env.foreign, Place(EMPTY, ROOT), ss).value;
    StatementsStand(env.inp, env.foreign, Place(EMPTY, ROOT), t0, false, ss, t);
    LastStands(env.inp, t0, false, ss, t);
    forall tail', x | TailFault(env, p, t, tail') == Some(x) ensures Raises(Parse(env), x) {
      assert FaultAfter(env, Place(EMPTY, ROOT), t0, ss, tail', x);
      ParseFaults(env, x);
    }
  }

  /**
    * If the input spells statements that execute, and perhaps part of a value that is
    * built, then a token with which no document goes on is a syntax error on its
    * line. (At the end of file a document is complete between statements; inside a
    * value the test for the end of file is what raises the error.)
    */
  lemma {:induction false} LeavesGrammar(env: Env, ss: seq<Language.Stmt>, tail: Tail, h: Heap, u: Token)
    requires Built(env, ss, tail, h, u) && !tail.InHeader?
    requires Dead(env.inp, PrintAll(ss) + PrintTail(tail), u) && (u.eof ==> tail.InEntry? && env.guard)
    ensures Raises(Parse(env), Fault(h, Error(SyntaxError, u.lineno)))
  {
    var p, t := LastBegins(env, ss, tail, h, u);
    LeavesAt(env, p, t, ss, tail, h, u);
  }

  lemma {:induction false} LeavesAt(env: Env, p: Place, t: Token, ss: seq<Language.Stmt>, tail: Tail, h: Heap, u: Token)
    requires DocOk(false, ss) && (AfterLast(false, ss) ==> t.kind == Newline) && Shaped(env.inp, t) && PlaceOk(p)
    requires BuiltFrom(env, p, t, tail, h, u) && !tail.InHeader? && Shaped(env.inp, u)
    requires Dead(env.inp, PrintAll(ss) + PrintTail(tail), u) && (u.eof ==> tail.InEntry? && env.guard)
    ensures TailFault(env, p, t, tail) == Some(Fault(h, Error(SyntaxError, u.lineno)))
  {
    match tail
    case NextStmt =>
      assert PrintAll(ss) + [] == PrintAll(ss);
      DeadBetween(env.inp, ss, u);
    case InEntry(k, o) =>
      var st := EvalOpenField(env.foreign, p.heap, p.cur, k, o).value;
      assert t.kind == PrintOpenField(k, o)[0].kind;
      DueFieldTop(env.foreign, p.heap, p.cur, k, o, [EndOfEntry]);
      if !u.eof { DeadInside(env.inp, ss, k, o, u); }
      NotAllowed(env, st, u);
    case PastEntry(k, v) =>
      assert t.kind == PrintField(k, v)[0].kind;
      DeadPast(env.inp, ss, k, v, u);
  }

  lemma {:induction false} NotAllowed(env: Env, st: Stop, u: Token)
    requires Shaped(env.inp, u) && StopOk(st) && (u.eof ==> env.guard) && (u.eof || !Allowed(DueAt(st.at), u.kind))
    ensures FaultAt(env, st, u) == Some(Fault(st.heap, Error(SyntaxError, u.lineno)))
  {
  }

  // ---- After a key ----

  /** A key is due there, for table `i`. */
  ghost predicate KeyIsDue(env: Env, p: Place, tail: Tail, i: nat)
    requires PlaceOk(p)
  {
    match tail
    case NextStmt => i == p.cur
    case InEntry(k, o) =>
      var st := EvalOpenField(env.foreign, p.heap, p.cur, k, o);
      st.Some? && st.value.at == AtField(i)
    case _ => false
  }

  /** A key with any value goes on there. */
  lemma {:induction false} KeyGoesOn(env: Env, p: Place, tail: Tail, i: nat, key: Str, v: Value)
    returns (x: Language.Stmt)
    requires PlaceOk(p) && KeyIsDue(env, p, tail, i)
    ensures x.Entry? && PrintTail(tail) + PrintField(key, v) <= Print(x)
  {
    match tail
    case NextStmt =>
      x := Entry(key, v, [LF]);
      assert [] + PrintField(key, v) == PrintField(key, v);
    case InEntry(k, o) =>
      var l := Lexeme(Kind.String, key, false);
      DueFieldTop(env.foreign, p.heap, p.cur, k, o, [EndOfEntry]);
      FieldGoesOn(k, o, l, v, [EndOfEntry]);
      x := Entry(k, CloseValue(o, l, v), [LF]);
  }

  lemma {:induction false} AtKey(env: Env, p: Place, t: Token, tail: Tail, h: Heap, key: Token, i: nat)
    requires PlaceOk(p) && Shaped(env.inp, t) && Shaped(env.inp, key) && key.kind == Kind.String
    requires BuiltFrom(env, p, t, tail, h, key) && KeyIsDue(env, p, tail, i)
    ensures i < |h| && h[i].Tab? && TailFault(env, p, t, tail) == KeyFault(env, h, i, key)
  {
  }

  /** What follows a key is not dead if it can follow it in front of some value. */
  lemma {:induction false} AliveAfterKey(env: Env, p: Place, ss: seq<Language.Stmt>, tail: Tail, i: nat, key: Str,
                                         v: Value,
                                         more: seq<Lexeme>, l: Lexeme, u: Token)
    requires DocOk(false, ss) && !AfterLast(false, ss) && PlaceOk(p) && KeyIsDue(env, p, tail, i)
    requires Matches(env.inp, u, l) && more + [l] <= PrintField(key, v)
    ensures !Dead(env.inp, PrintAll(ss) + (PrintTail(tail) + more), u)
  {
    var x := KeyGoesOn(env, p, tail, i, key, v);
    After(PrintTail(tail), more, [l], PrintField(key, v));
    Alive(env.inp, ss, x, PrintTail(tail) + more, u, l);
  }

  /** A token after which a key does not go on is a syntax error, on that token's line. */
  lemma {:induction false} LeavesAfterKey(env: Env, ss: seq<Language.Stmt>, tail: Tail, h: Heap, key: Token, i: nat,
                                          u: Token)
    requires Built(env, ss, tail, h, key) && key.kind == Kind.String && Next(env.inp, key, false) == Tok(u)
    requires KeyIsDue(env, ExecAll(env.foreign, Place(EMPTY, ROOT), ss).value, tail, i)
    requires Dead(env.inp, PrintAll(ss) + (PrintTail(tail) + Word(Text(env.inp, key))), u)
    ensures Raises(Parse(env), Fault(h, Error(SyntaxError, u.lineno)))
  {
    var p, t := LastBegins(env, ss, tail, h, key);
    BeginsWithKey(env, p, t, tail, h, key, i);
    NextOk(env.inp, key, false);
    if u.kind == Equal {
      WordedToken(env.inp, u);
      var l := Lexeme(Equal, [EQUALS], false);
      AliveAfterKey(env, p, ss, tail, i, Text(env.inp, key), Scalar([]), Word(Text(env.inp, key)), l, u);
    }
    AtKey(env, p, t, tail, h, key, i);
    NoEqual(env, h, i, key, u);
  }

  lemma {:induction false} BeginsWithKey(env: Env, p: Place, t: Token, tail: Tail, h: Heap, key: Token, i: nat)
    requires PlaceOk(p) && KeyIsDue(env, p, tail, i) && BuiltFrom(env, p, t, tail, h, key) && key.kind == Kind.String
    ensures t.kind == Kind.String
  {
    if tail.InEntry? { assert t.kind == PrintOpenField(tail.key, tail.o)[0].kind; }
  }

  lemma {:induction false} NoEqual(env: Env, s: Heap, i: nat, key: Token, u: Token)
    requires Shaped(env.inp, key) && i < |s| && s[i].Tab? && Next(env.inp, key, false) == Tok(u) && u.kind != Equal
    ensures KeyFault(env, s, i, key) == Some(Fault(s, Error(SyntaxError, u.lineno)))
  {
  }

  /** ... and after `=` a token with which no value begins. */
  lemma {:induction false} LeavesAfterEqual(env: Env, ss: seq<Language.Stmt>, tail: Tail, h: Heap, key: Token, i: nat,
                                            e: Token, u: Token)
    requires Built(env, ss, tail, h, key) && key.kind == Kind.String && Next(env.inp, key, false) == Tok(e)
    requires e.kind == Equal && Within(env.inp, e) && Next(env.inp, e, false) == Tok(u)
    requires KeyIsDue(env, ExecAll(env.foreign, Place(EMPTY, ROOT), ss).value, tail, i)
    requires Dead(env.inp, PrintAll(ss) + (PrintTail(tail) + (Word(Text(env.inp, key)) + Mark(Equal, EQUALS))), u)
    ensures Raises(Parse(env), Fault(h, Error(SyntaxError, u.lineno)))
  {
    var p, t := LastBegins(env, ss, tail, h, key);
    BeginsWithKey(env, p, t, tail, h, key, i);
    NextOk(env.inp, e, false);
    var l, text := Lexeme(u.kind, Text(env.inp, u), false), Text(env.inp, key);
    if u.kind in {Kind.String, LBracket, LBrace} {
      WordedToken(env.inp, u);
      ValueBegins(text, l);
      AliveAfterKey(env, p, ss, tail, i, text, Begun(l), Word(text) + Mark(Equal, EQUALS), l, u);
    }
    AtKey(env, p, t, tail, h, key, i);
    NoValue(env, h, i, key, e, u);
  }

  lemma {:induction false} ValueBegins(key: Str, l: Lexeme)
    requires Worded(l) && l.kind in {Kind.String, LBracket, LBrace}
    ensures Word(key) + Mark(Equal, EQUALS) + [l] <= PrintField(key, Begun(l))
  {
    After(Word(key), Mark(Equal, EQUALS), [l], Mark(Equal, EQUALS) + PrintValue(Begun(l)));
  }

  lemma {:induction false} NoValue(env: Env, s: Heap, i: nat, key: Token, e: Token, u: Token)
    requires Shaped(env.inp, key) && i < |s| && s[i].Tab? && Next(env.inp, key, false) == Tok(e) && e.kind == Equal
    requires Within(env.inp, e) && Next(env.inp, e, false) == Tok(u) && u.kind !in {Kind.String, LBracket, LBrace}
    ensures KeyFault(env, s, i, key) == Some(Fault(s, Error(SyntaxError, u.lineno)))
  {
    NextOk(env.inp, e, false);
    assert ValueFault(env, s, i, key, u) == Unexpected(s, u);
  }

  // ---- In headers ----

  lemma {:induction false} DottedEnd(keys: seq<Str>, key: Str)
    ensures PrintPath(keys + [key]) == PrintDotted(keys) + [Lexeme(Kind.String, key, true)]
    decreases |keys|
  {
    if keys == [] {
      assert [] + [key] == [key];
    } else {
      assert (keys + [key])[1..] == keys[1..] + [key];
      DottedEnd(keys[1..], key);
    }
  }

  /** A header with a key more goes on. */
  lemma {:induction false} AliveInPath(inp: Str, ss: seq<Language.Stmt>, double: bool, keys: seq<Str>, key: Str,
                                       more: seq<Lexeme>, l: Lexeme, u: Token)
    requires DocOk(false, ss) && !AfterLast(false, ss) && |keys| < 10 && Matches(inp, u, l)
    requires more + [l] <= [Lexeme(Kind.String, key, true)] + PrintClose(double)
    ensures !Dead(inp, PrintAll(ss) + (PrintOpen(double) + PrintDotted(keys) + more), u)
  {
    var path, close := PrintPath(keys + [key]), PrintClose(double);
    DottedEnd(keys, key);
    var last := [Lexeme(Kind.String, key, true)] + close;
    assert path + close == PrintDotted(keys) + last;
    After(PrintDotted(keys), more, [l], last);
    After(PrintOpen(double), PrintDotted(keys) + more, [l], path + close);
    assert PrintOpen(double) + PrintDotted(keys) + more == PrintOpen(double) + (PrintDotted(keys) + more);
    Alive(inp, ss, Header(double, keys + [key]), PrintOpen(double) + PrintDotted(keys) + more, u, l);
  }

  /** After the first bracket of a header comes a key or, where there is none yet, another bracket. */
  lemma {:induction false} DeadInPath(inp: Str, ss: seq<Language.Stmt>, double: bool, keys: seq<Str>, u: Token)
    requires DocOk(false, ss) && !AfterLast(false, ss) && |keys| <= 10 && Shaped(inp, u)
    requires Dead(inp, PrintAll(ss) + (PrintOpen(double) + PrintDotted(keys)), u)
    ensures |keys| == 10 || u.kind != Kind.String
    ensures double || keys != [] || u.kind != LBracket
  {
    var ls := PrintOpen(double) + PrintDotted(keys);
    if |keys| < 10 && u.kind == Kind.String {
      assert ls + [] == ls;
      AliveInPath(inp, ss, double, keys, Text(inp, u), [], Lexeme(Kind.String, Text(inp, u), true), u);
    }
    if !double && keys == [] && u.kind == LBracket {
      WordedToken(inp, u);
      assert ls == PrintOpen(false);
      Alive(inp, ss, Header(true, [[]]), ls, u, Lexeme(LBracket, [LBRACKET], true));
    }
  }

  /** The token where the path of a header begins, behind the brackets. */
  function PathBegins(env: Env, ss: seq<Language.Stmt>, double: bool): Option<Token> {
    match Next(env.inp, START, true)
    case LexError(_) => None
    case Tok(t0) =>
      match ReadAll(env.inp, t0, ss)
      case None => None
      case Some(t) => Read(env.inp, t, PrintOpen(double))
  }

  /** Where the path of a header is cut off, a fault of it is raised. */
  lemma {:induction false} PathRaises(env: Env, ss: seq<Language.Stmt>, double: bool, keys: seq<Str>, h: Heap, w: Token,
                                      u: Token, x: Fault)
    requires Built(env, ss, InHeader(double, keys), h, u) && PathBegins(env, ss, double) == Some(w)
    requires Shaped(env.inp, u)
    requires |KeyNames(keys).value| == |keys| <= 10 && (double || keys != [] || u.kind != LBracket)
    requires PathFault(env.inp, ExecAll(env.foreign, Place(EMPTY, ROOT), ss).value, w.lineno, double,
                       KeyNames(keys).value, KeyTokens(env.inp, w, keys), u) == Some(x)
    ensures Raises(Parse(env), x)
  {
    var p, t := LastBegins(env, ss, InHeader(double, keys), h, u);
    ReadConcat(env.inp, t, PrintOpen(double), PrintDotted(keys));
    InHeaderFault(env.inp, p, t, double, keys, w, u, x);
    assert TailFault(env, p, t, InHeader(double, keys)) == Some(x);
  }

  lemma {:induction false} HeaderBegins(env: Env, ss: seq<Language.Stmt>, double: bool, keys: seq<Str>, h: Heap,
                                        u: Token)
    requires Built(env, ss, InHeader(double, keys), h, u)
    ensures DocOk(false, ss) && !AfterLast(false, ss) && Shaped(env.inp, u)
    ensures KeyNames(keys).Some? && |KeyNames(keys).value| == |keys| <= 10
    ensures h == ExecAll(env.foreign, Place(EMPTY, ROOT), ss).value.heap
  {
    var p, t := LastBegins(env, ss, InHeader(double, keys), h, u);
    assert t.kind == PrintOpen(double)[0].kind;
    KeyNamesLength(keys);
  }

  /**
    * A token with which the path of a header does not go on, or an eleventh key, is
    * a syntax error on the line where the path begins.
    */
  lemma {:induction false} LeavesPath(env: Env, ss: seq<Language.Stmt>, double: bool, keys: seq<Str>, h: Heap, w: Token,
                                      u: Token)
    requires Built(env, ss, InHeader(double, keys), h, u) && PathBegins(env, ss, double) == Some(w)
    requires Dead(env.inp, PrintAll(ss) + (PrintOpen(double) + PrintDotted(keys)), u)
    ensures Raises(Parse(env), Fault(h, Error(SyntaxError, w.lineno)))
  {
    HeaderBegins(env, ss, double, keys, h, u);
    DeadInPath(env.inp, ss, double, keys, u);
    PathRaises(env, ss, double, keys, h, w, u, Fault(h, Error(SyntaxError, w.lineno)));
  }

  /** ... and so is a token other than a dot or `]` after a key of it. */
  lemma {:induction false} LeavesPathKey(env: Env, ss: seq<Language.Stmt>, double: bool, keys: seq<Str>, h: Heap,
                                         w: Token,
                                         u: Token, e: Token)
    requires Built(env, ss, InHeader(double, keys), h, u) && PathBegins(env, ss, double) == Some(w)
    requires |keys| < 10 && u.kind == Kind.String && Within(env.inp, u) && KeyOf(Text(env.inp, u)).Key?
    requires Next(env.inp, u, true) == Tok(e) && (|keys| == 9 ==> e.kind != Kind.Dot)
    requires var key := Lexeme(Kind.String, Text(env.inp, u), true);
             Dead(env.inp, PrintAll(ss) + (PrintOpen(double) + PrintDotted(keys) + [key]), e)
    ensures Raises(Parse(env), Fault(h, Error(SyntaxError, w.lineno)))
  {
    HeaderBegins(env, ss, double, keys, h, u);
    NextOk(env.inp, u, true);
    DeadAfterPathKey(env.inp, ss, double, keys, Text(env.inp, u), e);
    PathRaises(env, ss, double, keys, h, w, u, Fault(h, Error(SyntaxError, w.lineno)));
  }

  lemma {:induction false} DeadAfterPathKey(inp: Str, ss: seq<Language.Stmt>, double: bool, keys: seq<Str>, key: Str,
                                            e: Token)
    requires DocOk(false, ss) && !AfterLast(false, ss) && |keys| < 10 && Shaped(inp, e)
    requires (|keys| == 9 ==> e.kind != Kind.Dot)
    requires Dead(inp, PrintAll(ss) + (PrintOpen(double) + PrintDotted(keys) + [Lexeme(Kind.String, key, true)]), e)
    ensures e.kind != RBracket && e.kind != Kind.Dot
  {
    var l := Lexeme(Kind.String, key, true);
    if e.kind == RBracket {
      WordedToken(inp, e);
      AliveInPath(inp, ss, double, keys, key, [l], Lexeme(RBracket, [RBRACKET], false), e);
    }
    if e.kind == Kind.Dot {
      WordedToken(inp, e);
      DottedMore(keys, key);
      DottedEnd(keys + [key], []);
      var dot, last := Lexeme(Kind.Dot, [DOT], true), [Lexeme(Kind.String, [], true)];
      var path := PrintPath(keys + [key] + [[]]);
      assert path == PrintDotted(keys) + [l] + [dot] + last;
      After(PrintOpen(double), PrintDotted(keys) + [l], [dot], path + PrintClose(double));
      assert PrintOpen(double) + PrintDotted(keys) + [l] == PrintOpen(double) + (PrintDotted(keys) + [l]);
      Alive(inp, ss, Header(double, keys + [key] + [[]]), PrintOpen(double) + PrintDotted(keys) + [l], e, dot);
    }
  }

  lemma {:induction false} DottedMore(keys: seq<Str>, key: Str)
    ensures PrintDotted(keys + [key]) ==
            PrintDotted(keys) + [Lexeme(Kind.String, key, true)] + [Lexeme(Kind.Dot, [DOT], true)]
    decreases |keys|
  {
    if keys == [] {
      assert [] + [key] == [key];
    } else {
      assert (keys + [key])[1..] == keys[1..] + [key];
      DottedMore(keys[1..], key);
    }
  }

  // ---- After headers ----

  /** After the first bracket that closes `[[p]]` comes another; after the last one a newline. */
  lemma {:induction false} DeadAfterClose(inp: Str, ss: seq<Language.Stmt>, double: bool, keys: seq<Str>, key: Str,
                                          ls: seq<Lexeme>, y: Token)
    requires DocOk(false, ss) && !AfterLast(false, ss) && |keys| < 10 && Shaped(inp, y) && !y.eof
    requires ls == PrintClose(double) || ls == PrintClose(false)
    requires var l := [Lexeme(Kind.String, key, true)];
             Dead(inp, PrintAll(ss) + (PrintOpen(double) + PrintDotted(keys) + (l + ls)), y)
    ensures y.kind != if ls == PrintClose(double) then Newline else RBracket
  {
    var l := [Lexeme(Kind.String, key, true)];
    if ls == PrintClose(double) && y.kind == Newline {
      var st := Header(double, keys + [key]);
      WordedToken(inp, y);
      DottedEnd(keys, key);
      OneMore(false, ss, st);
      assert PrintOpen(double) + PrintDotted(keys) + (l + ls) == Print(st);
      assert PrintAll(ss + [st]) + [] == PrintAll(ss + [st]);
      Alive(inp, ss + [st], Blank, [], y, Lexeme(Newline, [LF], true));
    }
    if ls != PrintClose(double) && y.kind == RBracket {
      WordedToken(inp, y);
      assert (l + ls) + [Lexeme(RBracket, [RBRACKET], false)] == l + PrintClose(double);
      AliveInPath(inp, ss, double, keys, key, l + ls, Lexeme(RBracket, [RBRACKET], false), y);
    }
  }

  lemma {:induction false} CloseFaults(inp: Str, s: Heap, e: Token, double: bool, ls: seq<Lexeme>, y: Token)
    requires Shaped(inp, e) && Read(inp, e, ls) == Some(y) && (ls == PrintClose(double) || ls == PrintClose(false))
    requires y.kind != if ls == PrintClose(double) then Newline else RBracket
    ensures CloseFault(inp, s, e, double) == Some(Fault(s, Error(SyntaxError, y.lineno)))
  {
    if ls == PrintClose(true) {
      ReadConcat(inp, e, PrintClose(false), PrintClose(false));
      var z := Read(inp, e, PrintClose(false)).value;
      OneMark(inp, z, y);
      OneMark(inp, e, z);
    } else {
      OneMark(inp, e, y);
    }
  }

  lemma {:induction false} OneMark(inp: Str, e: Token, y: Token)
    requires Read(inp, e, PrintClose(false)) == Some(y)
    ensures Within(inp, e) && e.kind == RBracket && Next(inp, e, false) == Tok(y)
  {
    assert PrintClose(false) == [Lexeme(RBracket, [RBRACKET], false)] + [];
    ReadOne(inp, e, Lexeme(RBracket, [RBRACKET], false), []);
  }

  /**
    * When the table of a header is made, a token other than the second bracket of
    * `]]`, or the newline after the header, is a syntax error on that token's line.
    */
  lemma {:induction false} LeavesHeader(env: Env, ss: seq<Language.Stmt>, double: bool, keys: seq<Str>, h: Heap,
                                        w: Token,
                                        u: Token, e: Token, h': Heap, id: nat, ls: seq<Lexeme>, y: Token)
    requires Built(env, ss, InHeader(double, keys), h, u) && PathBegins(env, ss, double) == Some(w)
    requires |keys| < 10 && u.kind == Kind.String && Within(env.inp, u) && KeyOf(Text(env.inp, u)).Key?
    requires Next(env.inp, u, true) == Tok(e) && Read(env.inp, e, ls) == Some(y) && !y.eof
    requires |h| > 0 && h[ROOT].Tab?
    requires Selects(h, double, KeyNames(keys).value + [KeyOf(Text(env.inp, u)).name], h', id)
    requires ls == PrintClose(double) || ls == PrintClose(false)
    requires var key := Lexeme(Kind.String, Text(env.inp, u), true);
             Dead(env.inp, PrintAll(ss) + (PrintOpen(double) + PrintDotted(keys) + ([key] + ls)), y)
    ensures Raises(Parse(env), Fault(h', Error(SyntaxError, y.lineno)))
  {
    HeaderBegins(env, ss, double, keys, h, u);
    NextOk(env.inp, u, true);
    DeadAfterClose(env.inp, ss, double, keys, Text(env.inp, u), ls, y);
    CloseFaults(env.inp, h', e, double, ls, y);
    if ls == PrintClose(true) { ReadConcat(env.inp, e, PrintClose(false), PrintClose(false)); }
    OneMark(env.inp, e, Read(env.inp, e, PrintClose(false)).value);
    PathRaises(env, ss, double, keys, h, w, u, Fault(h', Error(SyntaxError, y.lineno)));
  }

  /** The table of this header is made, or found. */
  predicate Selects(s: Heap, double: bool, names: seq<Str>, h: Heap, id: nat)
    requires |s| > 0 && s[ROOT].Tab? && names != []
  {
    (if double then SelectElement(s, names) else SelectTable(s, names)) == Current(h, id)
  }
}
