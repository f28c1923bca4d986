/** Why a syntax error is raised, and on which line: the string, the token or the element it is raised for. */
module SyntaxErrors {
  import opened Bytes
  import opened Lexer
  import opened Store
  import opened Keys
  import opened Grammar
  import opened Eval
  import opened Parser
  import opened Document
  import opened Language
  import opened Stops
  import opened Faults
  import opened Prefixes
  import opened KeyErrors

  // ---- The keys of a path ----

  predicate IsKey(inp: Str, key: Token) { Within(inp, key) && key.kind == Kind.String }

  /** The tokens of a path are keys, and name what it says. */
  ghost predicate TokensName(inp: Str, toks: seq<Token>, names: seq<Str>) {
    |toks| == |names| && forall j | 0 <= j < |toks| :: IsKey(inp, toks[j]) && KeyOf(Text(inp, toks[j])) == Key(names[j])
  }

  lemma {:induction false} OneMoreName(inp: Str, t: Token, name: Str, toks: seq<Token>, names: seq<Str>)
    requires IsKey(inp, t) && KeyOf(Text(inp, t)) == Key(name) && TokensName(inp, toks, names)
    ensures TokensName(inp, [t] + toks, [name] + names)
  {
  }

  lemma {:induction false} LastName(inp: Str, toks: seq<Token>, names: seq<Str>, t: Token, name: Str)
    requires TokensName(inp, toks, names) && IsKey(inp, t) && KeyOf(Text(inp, t)) == Key(name)
    ensures TokensName(inp, toks + [t], names + [name])
  {
  }

  lemma {:induction false} PathTokensName(inp: Str, w: Token, keys: seq<Str>, u: Token)
    requires Shaped(inp, w) && Read(inp, w, PrintDotted(keys)) == Some(u) && KeyNames(keys).Some?
    ensures TokensName(inp, KeyTokens(inp, w, keys), KeyNames(keys).value)
    decreases |keys|
  {
    if keys != [] {
      var d, v := FirstDotted(inp, w, keys);
      assert keys == [keys[0]] + keys[1..];
      KeyNamesCons(keys[0], keys[1..]);
      PathTokensName(inp, v, keys[1..], u);
      OneMoreName(inp, w, KeyOf(keys[0]).name, KeyTokens(inp, v, keys[1..]), KeyNames(keys[1..]).value);
    }
  }

  // ---- Syntax errors ----

  /** On this line begins a string that is never closed, or that holds a bad escape. */
  ghost predicate Unscanned(inp: Str, line: nat) {
    exists q: nat, dot :: q < |inp| && ScanString(inp, q, dot) == None && line == 1 + Newlines(inp[..q])
  }

  /** The tokens from `t` on are those of a document up to one, on this line, with which no document goes on. */
  ghost predicate OutOfGrammar(inp: Str, t: Token, line: nat) {
    exists ls, u: Token :: Leaves(inp, t, ls, u) && u.lineno == line
  }

  ghost predicate Leaves(inp: Str, t: Token, ls: seq<Lexeme>, u: Token) {
    Read(inp, t, ls) == Some(u) && Dead(inp, ls, u)
  }

  /** On this line begins the path of a header that no document has, or that has more than ten keys. */
  ghost predicate BadPath(inp: Str, t: Token, line: nat) {
    exists ls, w: Token, keys, u :: w.lineno == line && Read(inp, t, ls) == Some(w) && PathLeaves(inp, ls, w, keys, u)
  }

  ghost predicate PathLeaves(inp: Str, ls: seq<Lexeme>, w: Token, keys: seq<Str>, u: Token) {
    && Read(inp, w, PrintDotted(keys)) == Some(u)
    && (|| |keys| == 10
        || Dead(inp, ls + PrintDotted(keys), u)
        || (u.kind == Kind.String && Within(inp, u) && Next(inp, u, true).Tok?
            && Dead(inp, ls + PrintDotted(keys) + [Lexeme(Kind.String, Text(inp, u), true)], Next(inp, u, true).tok)))
  }

  /** On this line is an element that does not go into its array, for its kind or its type. */
  ghost predicate BadElement(env: Env, line: nat) {
    exists s: Heap, a: nat, u: Token :: a < |s| && s[a].Arr? && Misfit(env, s[a], u) && u.lineno == line
  }

  predicate Misfit(env: Env, arr: Node, u: Token)
    requires arr.Arr?
  {
    Within(env.inp, u) &&
    match u.kind
    case String => arr.kind in {Arrays, Tables} || (arr.elems != [] && arr.typ != TypeOf(env.foreign, Text(env.inp, u)))
    case LBracket => arr.kind in {Values, Tables}
    case LBrace => arr.kind in {Values, Arrays}
    case _ => false
  }

  /** On this line is the key of an array of tables, in a table that has something else under it. */
  ghost predicate BadArrayKey(inp: Str, x: Fault) {
    exists key, i: nat :: NoTables(inp, x.heap, key, i) && key.lineno == x.err.line
  }

  predicate NoTables(inp: Str, s: Heap, key: Token, i: nat) {
    && IsKey(inp, key) && KeyOf(Text(inp, key)).Key? && i < |s| && s[i].Tab?
    && match CheckKey(s, s[i], KeyOf(Text(inp, key)).name)
       case Absent => false
       case FoundArr(a) => !(a < |s| && s[a].Arr? && s[a].kind in {NoKind, Tables})
       case _ => true
  }

  /** Why a syntax error is raised. */
  ghost predicate SyntaxSound(env: Env, t: Token, x: Fault) {
    x.err.kind == SyntaxError ==>
      || Unscanned(env.inp, x.err.line) || OutOfGrammar(env.inp, t, x.err.line) || BadPath(env.inp, t, x.err.line)
      || BadElement(env, x.err.line) || BadArrayKey(env.inp, x)
  }

  lemma {:induction false} NotSyntax(env: Env, t: Token, x: Fault)
    requires x.err.kind != SyntaxError
    ensures SyntaxSound(env, t, x)
  {
  }

  lemma {:induction false} FromPath(env: Env, t: Token, x: Fault)
    requires BadPath(env.inp, t, x.err.line)
    ensures SyntaxSound(env, t, x)
  {
  }

  lemma {:induction false} FromArrayKey(env: Env, t: Token, x: Fault)
    requires BadArrayKey(env.inp, x)
    ensures SyntaxSound(env, t, x)
  {
  }

  /** Tokens read from one in its place are in theirs. */
  lemma {:induction false} ReadPlaced(inp: Str, t: Token, ls: seq<Lexeme>, u: Token)
    requires Placed(inp, t) && Read(inp, t, ls) == Some(u)
    ensures Placed(inp, u)
    decreases |ls|
  {
    if ls != [] {
      NextTiles(inp, t, ls[0].dot);
      ReadPlaced(inp, Next(inp, t, ls[0].dot).tok, ls[1..], u);
    }
  }

  lemma {:induction false} LexicalMeans(inp: Str, u: Token, dot: bool)
    requires Placed(inp, u) && Next(inp, u, dot).LexError?
    ensures Unscanned(inp, Next(inp, u, dot).line)
  {
    NextTiles(inp, u, dot);
    var q :| Unscannable(inp, u.ptr + u.len, q, dot) && Next(inp, u, dot).line == 1 + Newlines(inp[..q]);
  }

  /** Read so far, and where the automaton is. */
  ghost predicate Stands(inp: Str, t: Token, ls: seq<Lexeme>, u: Token, s: Stack) {
    Placed(inp, t) && Read(inp, t, ls) == Some(u) && Run([Due.Stmt], ls) == Some(s)
  }

  lemma {:induction false} StandsPlaced(inp: Str, t: Token, ls: seq<Lexeme>, u: Token, s: Stack)
    requires Stands(inp, t, ls, u, s)
    ensures Placed(inp, u)
  {
    ReadPlaced(inp, t, ls, u);
  }

  /** One token more. */
  lemma {:induction false} StandsNext(inp: Str, t: Token, ls: seq<Lexeme>, u: Token, s: Stack, dot: bool, v: Token,
                                      s': Stack)
    requires Stands(inp, t, ls, u, s) && Within(inp, u) && Next(inp, u, dot) == Tok(v)
    requires Step(s, Lexeme(u.kind, Text(inp, u), dot)) == Some(s')
    ensures Stands(inp, t, ls + [Lexeme(u.kind, Text(inp, u), dot)], v, s')
  {
    var l := Lexeme(u.kind, Text(inp, u), dot);
    ReadConcat(inp, t, ls, [l]);
    ReadOne(inp, u, l, []);
    assert [l] + [] == [l];
    RunOne(s, l);
    RunThen([Due.Stmt], ls, s, [l], Some(s'));
  }

  lemma {:induction false} UnexpectedMeans(env: Env, t: Token, ls: seq<Lexeme>, u: Token, s: Stack, h: Heap)
    requires Stands(env.inp, t, ls, u, s) && Within(env.inp, u)
    requires Step(s, Lexeme(u.kind, Text(env.inp, u), false)) == None
    ensures SyntaxSound(env, t, Unexpected(h, u).value)
  {
    StuckIsDead(env.inp, ls, s, u);
    assert Leaves(env.inp, t, ls, u);
  }

  lemma {:induction false} LexicalSound(env: Env, t: Token, ls: seq<Lexeme>, u: Token, s: Stack, h: Heap, dot: bool)
    requires Stands(env.inp, t, ls, u, s) && Within(env.inp, u)
    ensures Lexical(env.inp, h, u, dot).Some? ==> SyntaxSound(env, t, Lexical(env.inp, h, u, dot).value)
  {
    StandsPlaced(env.inp, t, ls, u, s);
    if Next(env.inp, u, dot).LexError? { LexicalMeans(env.inp, u, dot); }
  }

  // ---- Keys and values ----

  lemma {:induction false} ValueSyntax(env: Env, t: Token, ls: seq<Lexeme>, more: Due, rest: Stack, s: Heap, i: nat,
                                       key: Token, v: Token, x: Fault)
    requires Stands(env.inp, t, ls, v, [Val, more] + rest) && Shaped(env.inp, v) && Within(env.inp, key)
    requires i < |s| && s[i].Tab? && ValueFault(env, s, i, key, v) == Some(x)
    ensures SyntaxSound(env, t, x)
  {
    var stack := [Val, more] + rest;
    var k := Text(env.inp, key);
    match v.kind
    case String =>
      var b := CreateVal(s, i, k, Text(env.inp, v));
      if b.Done? { LexicalSound(env, t, ls, v, stack, b.heap, false); }
    case LBracket =>
      var b := CreateArray(s, i, k);
      if b.Done? { LexicalSound(env, t, ls, v, stack, b.heap, false); }
    case LBrace =>
      var b := CreateTable(s, i, k);
      if b.Done? { LexicalSound(env, t, ls, v, stack, b.heap, false); }
    case _ => UnexpectedMeans(env, t, ls, v, stack, s);
  }

  lemma {:induction false} KeySyntax(env: Env, t: Token, ls: seq<Lexeme>, due: Stack, more: Due, rest: Stack, s: Heap,
                                     i: nat, key: Token, x: Fault)
    requires Stands(env.inp, t, ls, key, due) && Shaped(env.inp, key) && key.kind == Kind.String && i < |s| && s[i].Tab?
    requires Step(due, Lexeme(Kind.String, Text(env.inp, key), false)) == Some([EqualSign, more] + rest)
    requires KeyFault(env, s, i, key) == Some(x)
    ensures SyntaxSound(env, t, x)
  {
    if Next(env.inp, key, false).LexError? {
      LexicalSound(env, t, ls, key, due, s, false);
    } else {
      var e := Next(env.inp, key, false).tok;
      NextOk(env.inp, key, false);
      StandsNext(env.inp, t, ls, key, due, false, e, [EqualSign, more] + rest);
      EqualSyntax(env, t, ls + [Lexeme(Kind.String, Text(env.inp, key), false)], more, rest, s, i, key, e, x);
    }
  }

  /** After a key: `=`. */
  lemma {:induction false} AfterKeyDue(more: Due, rest: Stack, l: Lexeme)
    ensures l.kind == Equal ==> Step([EqualSign, more] + rest, l) == Some([Val, more] + rest)
    ensures l.kind != Equal ==> Step([EqualSign, more] + rest, l) == None
  {
    var eq := [EqualSign, more] + rest;
    assert [Val] + eq[1..] == [Val, more] + rest;
  }

  lemma {:induction false} EqualSyntax(env: Env, t: Token, ls: seq<Lexeme>, more: Due, rest: Stack, s: Heap, i: nat,
                                       key: Token, e: Token, x: Fault)
    requires Stands(env.inp, t, ls, e, [EqualSign, more] + rest) && Shaped(env.inp, key) && Shaped(env.inp, e)
    requires i < |s| && s[i].Tab? && Next(env.inp, key, false) == Tok(e) && KeyFault(env, s, i, key) == Some(x)
    ensures SyntaxSound(env, t, x)
  {
    var eq := [EqualSign, more] + rest;
    AfterKeyDue(more, rest, Lexeme(e.kind, Text(env.inp, e), false));
    if e.kind != Equal {
      UnexpectedMeans(env, t, ls, e, eq, s);
    } else if Next(env.inp, e, false).LexError? {
      LexicalSound(env, t, ls, e, eq, s, false);
    } else {
      var v := Next(env.inp, e, false).tok;
      NextOk(env.inp, e, false);
      StandsNext(env.inp, t, ls, e, eq, false, v, [Val, more] + rest);
      ValueSyntax(env, t, ls + [Lexeme(Equal, Text(env.inp, e), false)], more, rest, s, i, key, v, x);
    }
  }

  // ---- Inside values ----

  /** What is due where a value stops. */
  function DueAt(w: Where): Due {
    match w
    case AtElem(_) => Elem
    case PastElem(_) => MoreElem
    case AtField(_) => Field
    case PastField(_) => MoreField
  }

  lemma {:induction false} ElemSyntax(env: Env, t: Token, ls: seq<Lexeme>, stack: Stack, s: Heap, a: nat, u: Token,
                                      x: Fault)
    requires Stands(env.inp, t, ls, u, stack) && stack != [] && stack[0] == Elem && Shaped(env.inp, u)
    requires (u.kind == Newline ==> u.eof) && a < |s| && s[a].Arr? && ElemFault(env, s, a, u) == Some(x)
    ensures SyntaxSound(env, t, x)
  {
    match u.kind
    case String =>
      var b := AppendScalar(env.foreign, s, a, Text(env.inp, u));
      if b.Done? { LexicalSound(env, t, ls, u, stack, b.heap, false); } else { assert Misfit(env, s[a], u); }
    case LBracket =>
      var b := AppendArray(s, a);
      if b.Done? { LexicalSound(env, t, ls, u, stack, b.heap, false); } else { assert Misfit(env, s[a], u); }
    case LBrace =>
      var b := AppendTable(s, a);
      if b.Done? { LexicalSound(env, t, ls, u, stack, b.heap, false); } else { assert Misfit(env, s[a], u); }
    case RBracket => LexicalSound(env, t, ls, u, stack, s, false);
    case _ => UnexpectedMeans(env, t, ls, u, stack, s);
  }

  lemma {:induction false} HoleSyntax(env: Env, t: Token, ls: seq<Lexeme>, stack: Stack, st: Stop, u: Token, x: Fault)
    requires Stands(env.inp, t, ls, u, stack) && StopOk(st) && stack != [] && stack[0] == DueAt(st.at)
    requires Shaped(env.inp, u) && FaultAt(env, st, u) == Some(x)
    ensures SyntaxSound(env, t, x)
  {
    LexicalSound(env, t, ls, u, stack, st.heap, false);
    if Step(stack, Lexeme(u.kind, Text(env.inp, u), false)) == None {
      UnexpectedMeans(env, t, ls, u, stack, st.heap);
    }
    match st.at
    case AtElem(a) => if u.kind != Newline { ElemSyntax(env, t, ls, stack, st.heap, a, u, x); }
    case AtField(i) =>
      if u.kind == Kind.String { KeySyntax(env, t, ls, stack, MoreField, stack[1..], st.heap, i, u, x); }
    case _ =>
  }

  /** What is due on top after an open value is what its stop says. */
  lemma {:induction false} DueElemsTop(f: Foreign, s: Heap, a: nat, e: OpenElems, rest: Stack)
    requires a < |s| && s[a].Arr? && EvalOpenElems(f, s, a, e).Some?
    ensures DueElems(e, rest) != [] && DueElems(e, rest)[0] == DueAt(EvalOpenElems(f, s, a, e).value.at)
    decreases e, 1
  {
    match e
    case AwaitElem(_) =>
    case AfterElem(_, _, _) =>
    case ThenElems(_, v, _, more) =>
      var s' := EvalElem(f, s, a, v).value;
      assert NodeGrows(s[a], s'[a]);
      DueElemsTop(f, s', a, more, rest);
    case InElem(_, o) =>
      match o
      case OpenArray(inner) => DueElemsTop(f, AppendArray(s, a).heap, AppendArray(s, a).id, inner, [MoreElem] + rest);
      case OpenTable(fs) => DueFieldsTop(f, AppendTable(s, a).heap, AppendTable(s, a).id, fs, [MoreElem] + rest);
  }

  lemma {:induction false} DueFieldsTop(f: Foreign, s: Heap, i: nat, fs: OpenFields, rest: Stack)
    requires i < |s| && s[i].Tab? && EvalOpenFields(f, s, i, fs).Some?
    ensures DueFields(fs, rest) != [] && DueFields(fs, rest)[0] == DueAt(EvalOpenFields(f, s, i, fs).value.at)
    decreases fs, 1
  {
    match fs
    case AwaitField(_) =>
    case AfterField(_, _, _, _) =>
    case ThenFields(_, k, v, _, more) =>
      var s' := EvalField(f, s, i, k, v).value;
      assert NodeGrows(s[i], s'[i]);
      DueFieldsTop(f, s', i, more, rest);
    case InField(_, k, o) => DueFieldTop(f, s, i, k, o, [MoreField] + rest);
  }

  lemma {:induction false} DueFieldTop(f: Foreign, s: Heap, i: nat, k: Str, o: OpenValue, rest: Stack)
    requires i < |s| && s[i].Tab? && EvalOpenField(f, s, i, k, o).Some?
    ensures DueValue(o, rest) != [] && DueValue(o, rest)[0] == DueAt(EvalOpenField(f, s, i, k, o).value.at)
    decreases o, 1
  {
    match o
    case OpenArray(e) => DueElemsTop(f, CreateArray(s, i, k).heap, CreateArray(s, i, k).id, e, rest);
    case OpenTable(fs) => DueFieldsTop(f, CreateTable(s, i, k).heap, CreateTable(s, i, k).id, fs, rest);
  }

  // ---- Headers ----

  lemma {:induction false} RunDotted(n: nat, d: bool, keys: seq<Str>)
    requires n + |keys| <= 9
    ensures Run([PathKey(n, d)], PrintDotted(keys)) == Some([PathKey(n + |keys|, d)])
    decreases |keys|
  {
    if keys != [] {
      var key, rest := Lexeme(Kind.String, keys[0], true), PrintDotted(keys[1..]);
      RunAlone(PathKey(n, d), key, PathDot(n + 1, d));
      RunAlone(PathDot(n + 1, d), Lexeme(Kind.Dot, [DOT], true), PathKey(n + 1, d));
      RunDotted(n + 1, d, keys[1..]);
      RunThen([PathDot(n + 1, d)], DotMark(Kind.Dot, DOT), [PathKey(n + 1, d)], rest, Some([PathKey(n + |keys|, d)]));
      RunThen([PathKey(n, d)], [key], [PathDot(n + 1, d)], DotMark(Kind.Dot, DOT) + rest,
              Some([PathKey(n + |keys|, d)]));
    }
  }

  /** What is due after the opening brackets, and keys with a dot after each. */
  function DueInPath(double: bool, n: nat): Due { if n == 0 && !double then Opened else PathKey(n, double) }

  lemma {:induction false} RunBrackets(double: bool)
    ensures Run([Due.Stmt], PrintOpen(double)) == Some([DueInPath(double, 0)])
  {
    var l := Lexeme(LBracket, [LBRACKET], true);
    RunAlone(Due.Stmt, l, Opened);
    if double {
      RunAlone(Opened, l, PathKey(0, true));
      RunThen([Due.Stmt], [l], [Opened], [l], Some([PathKey(0, true)]));
    }
  }

  lemma {:induction false} RunOpenPath(double: bool, keys: seq<Str>)
    requires |keys| <= 9
    ensures Run([Due.Stmt], PrintOpen(double) + PrintDotted(keys)) == Some([DueInPath(double, |keys|)])
  {
    RunDotted(0, double, keys);
    if keys == [] {
      RunBrackets(double);
      assert PrintOpen(double) + PrintDotted(keys) == PrintOpen(double);
    } else {
      RunOpen(double, PrintDotted(keys));
    }
  }

  /** After a key of a path: a dot or `]`. */
  lemma {:induction false} AfterPathKey(n: nat, double: bool, l: Lexeme)
    ensures l.kind == RBracket ==>
              Step([PathDot(n, double)], l) == Some([if double then SecondClose else EndOfHeader])
    ensures l.kind != RBracket && l.kind != Kind.Dot ==> Step([PathDot(n, double)], l) == None
  {
    var due := if double then SecondClose else EndOfHeader;
    assert [due] + [PathDot(n, double)][1..] == [due];
  }

  /** Where a key of a path is due, what is no key is not; after the first bracket another one is. */
  lemma {:induction false} NoPathKey(double: bool, n: nat, l: Lexeme)
    requires l.kind != Kind.String && (double || n > 0 || l.kind != LBracket)
    ensures Step([DueInPath(double, n)], l) == None
  {
  }

  lemma {:induction false} PathKeyDue(double: bool, n: nat, text: Str)
    ensures Step([DueInPath(double, n)], Lexeme(Kind.String, text, true)) == Some([PathDot(n + 1, double)])
  {
    assert [PathDot(n + 1, double)] + [DueInPath(double, n)][1..] == [PathDot(n + 1, double)];
  }

  /** After the brackets: another one, or a newline. */
  lemma {:induction false} AfterClose(l: Lexeme)
    ensures l.kind == RBracket ==> Step([SecondClose], l) == Some([EndOfHeader])
    ensures l.kind != RBracket ==> Step([SecondClose], l) == None
    ensures l.kind != Newline ==> Step([EndOfHeader], l) == None
  {
    assert [EndOfHeader] + [SecondClose][1..] == [EndOfHeader];
  }

  lemma {:induction false} CloseMeans(env: Env, t: Token, ls: seq<Lexeme>, e: Token, stack: Stack, double: bool,
                                      h: Heap,
                                      x: Fault)
    requires Stands(env.inp, t, ls, e, stack) && Within(env.inp, e)
    requires Step(stack, Lexeme(e.kind, Text(env.inp, e), false)) == Some([if double then SecondClose else EndOfHeader])
    requires CloseFault(env.inp, h, e, double) == Some(x)
    ensures SyntaxSound(env, t, x)
    decreases double
  {
    LexicalSound(env, t, ls, e, stack, h, false);
    if Next(env.inp, e, false).Tok? {
      var y := Next(env.inp, e, false).tok;
      var ls', due := ls + [Lexeme(e.kind, Text(env.inp, e), false)], if double then SecondClose else EndOfHeader;
      StandsNext(env.inp, t, ls, e, stack, false, y, [due]);
      AfterClose(Lexeme(y.kind, Text(env.inp, y), false));
      if double && y.kind == RBracket {
        CloseMeans(env, t, ls', y, [SecondClose], false, h, x);
      } else {
        UnexpectedMeans(env, t, ls', y, [due], h);
      }
    }
  }

  /** A header with two brackets is refused at its last key only if there is no array of tables under it. */
  lemma {:induction false} SelectSyntax(inp: Str, p: Place, double: bool, names: seq<Str>, toks: seq<Token>)
    requires PlaceOk(p) && names != [] && TokensName(inp, toks, names)
    ensures var r := if double then SelectElement(p.heap, names) else SelectTable(p.heap, names);
            r.Unselected? && r.why == SyntaxError ==>
              BadArrayKey(inp, Fault(r.heap, Error(SyntaxError, toks[r.at].lineno)))
  {
    SelectReasons(p.heap, names, double);
    var r := if double then SelectElement(p.heap, names) else SelectTable(p.heap, names);
    if r.Unselected? && r.why == SyntaxError {
      var i := ElementRefused(p.heap, names, r);
      NoTablesThere(inp, r.heap, i, toks[r.at], names[r.at]);
    }
  }

  lemma {:induction false} ElementRefused(s: Heap, names: seq<Str>, r: Selected) returns (i: nat)
    requires |s| > 0 && s[ROOT].Tab? && names != [] && Walk(s, ROOT, names[..|names| - 1], 0).Reached?
    requires r == SelectElement(s, names) && r.Unselected?
    ensures i < |r.heap| && r.heap[i].Tab? && AppendElement(r.heap, i, names[r.at]).Refused?
  {
    i := Walk(s, ROOT, names[..|names| - 1], 0).id;
  }

  lemma {:induction false} NoTablesThere(inp: Str, s: Heap, i: nat, key: Token, name: Str)
    requires i < |s| && s[i].Tab? && IsKey(inp, key) && KeyOf(Text(inp, key)) == Key(name)
    requires AppendElement(s, i, name).Refused?
    ensures BadArrayKey(inp, Fault(s, Error(SyntaxError, key.lineno)))
  {
    assert NoTables(inp, s, key, i);
  }

  lemma {:induction false} SelectMeans(env: Env, t: Token, ls: seq<Lexeme>, n: nat, p: Place, double: bool,
                                       names: seq<Str>, toks: seq<Token>, e: Token, x: Fault)
    requires Stands(env.inp, t, ls, e, [PathDot(n, double)]) && Within(env.inp, e) && e.kind == RBracket
    requires PlaceOk(p) && names != [] && TokensName(env.inp, toks, names)
    requires SelectFault(env.inp, p, double, names, toks, e) == Some(x)
    ensures SyntaxSound(env, t, x)
  {
    var r := if double then SelectElement(p.heap, names) else SelectTable(p.heap, names);
    if r.Unselected? {
      SelectSyntax(env.inp, p, double, names, toks);
      if r.why == SyntaxError { FromArrayKey(env, t, x); } else { NotSyntax(env, t, x); }
    } else {
      AfterPathKey(n, double, Lexeme(e.kind, Text(env.inp, e), false));
      CloseMeans(env, t, ls, e, [PathDot(n, double)], double, r.heap, x);
    }
  }

  /** A key of a path is read. */
  lemma {:induction false} PathStands(env: Env, t: Token, ls: seq<Lexeme>, double: bool, n: nat, u: Token, e: Token)
    requires Stands(env.inp, t, ls, u, [DueInPath(double, n)]) && Within(env.inp, u) && u.kind == Kind.String
    requires Next(env.inp, u, true) == Tok(e)
    ensures Stands(env.inp, t, ls + [Lexeme(Kind.String, Text(env.inp, u), true)], e, [PathDot(n + 1, double)])
  {
    PathKeyDue(double, n, Text(env.inp, u));
    StandsNext(env.inp, t, ls, u, [DueInPath(double, n)], true, e, [PathDot(n + 1, double)]);
  }

  lemma {:induction false} PathMeans(env: Env, t: Token, ls: seq<Lexeme>, w: Token, p: Place, double: bool,
                                     keys: seq<Str>, names: seq<Str>, toks: seq<Token>, u: Token, x: Fault)
    requires Read(env.inp, t, ls) == Some(w) && Read(env.inp, w, PrintDotted(keys)) == Some(u) && Shaped(env.inp, u)
    requires Placed(env.inp, t) && PlaceOk(p) && |keys| == |names| <= 10 && TokensName(env.inp, toks, names)
    requires |keys| < 10 ==> Run([Due.Stmt], ls + PrintDotted(keys)) == Some([DueInPath(double, |keys|)])
    requires double || keys != [] || u.kind != LBracket
    requires PathFault(env.inp, p, w.lineno, double, names, toks, u) == Some(x)
    ensures SyntaxSound(env, t, x)
  {
    if |keys| == 10 || u.kind != Kind.String {
      NoKeySyntax(env, t, ls, w, p, double, keys, names, toks, u, x);
    } else if KeyOf(Text(env.inp, u)).Key? {
      DottedStands(env.inp, t, ls, w, double, keys, u);
      KeyMeans(env, t, ls, w, p, double, keys, names, toks, u, x);
    } else {
      BadKeySyntax(env, t, p, w.lineno, double, names, toks, u, x);
    }
  }

  /** A key that names nothing is another error. */
  lemma {:induction false} BadKeySyntax(env: Env, t: Token, p: Place, line: nat, double: bool, names: seq<Str>,
                                        toks: seq<Token>, u: Token, x: Fault)
    requires PlaceOk(p) && Shaped(env.inp, u) && |names| == |toks| < 10 && u.kind == Kind.String
    requires !KeyOf(Text(env.inp, u)).Key? && PathFault(env.inp, p, line, double, names, toks, u) == Some(x)
    ensures SyntaxSound(env, t, x)
  {
    NotSyntax(env, t, x);
  }


  lemma {:induction false} NoKeySyntax(env: Env, t: Token, ls: seq<Lexeme>, w: Token, p: Place, double: bool,
                                       keys: seq<Str>, names: seq<Str>, toks: seq<Token>, u: Token, x: Fault)
    requires Read(env.inp, t, ls) == Some(w) && Read(env.inp, w, PrintDotted(keys)) == Some(u) && Shaped(env.inp, u)
    requires PlaceOk(p) && |keys| == |names| == |toks| && (double || keys != [] || u.kind != LBracket)
    requires |keys| < 10 ==> Run([Due.Stmt], ls + PrintDotted(keys)) == Some([DueInPath(double, |keys|)])
    requires |keys| == 10 || (|keys| < 10 && u.kind != Kind.String)
    requires PathFault(env.inp, p, w.lineno, double, names, toks, u) == Some(x)
    ensures SyntaxSound(env, t, x)
  {
    NoKeyHere(env.inp, t, ls, w, double, keys, u);
    FromPath(env, t, x);
  }

  lemma {:induction false} NoKeyHere(inp: Str, t: Token, ls: seq<Lexeme>, w: Token, double: bool, keys: seq<Str>,
                                     u: Token)
    requires Read(inp, t, ls) == Some(w) && Read(inp, w, PrintDotted(keys)) == Some(u) && Shaped(inp, u)
    requires |keys| < 10 ==> Run([Due.Stmt], ls + PrintDotted(keys)) == Some([DueInPath(double, |keys|)])
    requires double || keys != [] || u.kind != LBracket
    requires |keys| == 10 || (|keys| < 10 && u.kind != Kind.String)
    ensures BadPath(inp, t, w.lineno)
  {
    if |keys| == 10 {
      LongPath(inp, t, ls, w, keys, u);
    } else {
      NoPathKey(double, |keys|, Lexeme(u.kind, Text(inp, u), false));
      StuckIsDead(inp, ls + PrintDotted(keys), [DueInPath(double, |keys|)], u);
      DeadAtKey(inp, t, ls, w, keys, u);
    }
  }

  lemma {:induction false} DottedStands(inp: Str, t: Token, ls: seq<Lexeme>, w: Token, double: bool, keys: seq<Str>,
                                        u: Token)
    requires Placed(inp, t) && Read(inp, t, ls) == Some(w) && Read(inp, w, PrintDotted(keys)) == Some(u)
    requires Run([Due.Stmt], ls + PrintDotted(keys)) == Some([DueInPath(double, |keys|)])
    ensures Stands(inp, t, ls + PrintDotted(keys), u, [DueInPath(double, |keys|)])
  {
    ReadConcat(inp, t, ls, PrintDotted(keys));
  }

  lemma {:induction false} LongPath(inp: Str, t: Token, ls: seq<Lexeme>, w: Token, keys: seq<Str>, u: Token)
    requires Read(inp, t, ls) == Some(w) && Read(inp, w, PrintDotted(keys)) == Some(u) && |keys| == 10
    ensures BadPath(inp, t, w.lineno)
  {
    assert PathLeaves(inp, ls, w, keys, u);
  }

  lemma {:induction false} DeadAtKey(inp: Str, t: Token, ls: seq<Lexeme>, w: Token, keys: seq<Str>, u: Token)
    requires Read(inp, t, ls) == Some(w) && Read(inp, w, PrintDotted(keys)) == Some(u)
    requires Dead(inp, ls + PrintDotted(keys), u)
    ensures BadPath(inp, t, w.lineno)
  {
    assert PathLeaves(inp, ls, w, keys, u);
  }

  lemma {:induction false} DeadAfterKey(inp: Str, t: Token, ls: seq<Lexeme>, w: Token, keys: seq<Str>, u: Token,
                                        e: Token)
    requires Read(inp, t, ls) == Some(w) && Read(inp, w, PrintDotted(keys)) == Some(u) && Within(inp, u)
    requires u.kind == Kind.String && Next(inp, u, true) == Tok(e)
    requires Dead(inp, ls + PrintDotted(keys) + [Lexeme(Kind.String, Text(inp, u), true)], e)
    ensures BadPath(inp, t, w.lineno)
  {
    assert PathLeaves(inp, ls, w, keys, u);
  }

  lemma {:induction false} KeyMeans(env: Env, t: Token, ls: seq<Lexeme>, w: Token, p: Place, double: bool,
                                    keys: seq<Str>, names: seq<Str>, toks: seq<Token>, u: Token, x: Fault)
    requires Read(env.inp, t, ls) == Some(w) && Read(env.inp, w, PrintDotted(keys)) == Some(u) && Shaped(env.inp, u)
    requires PlaceOk(p) && |keys| == |names| < 10 && TokensName(env.inp, toks, names)
    requires Stands(env.inp, t, ls + PrintDotted(keys), u, [DueInPath(double, |keys|)])
    requires u.kind == Kind.String && KeyOf(Text(env.inp, u)).Key?
    requires PathFault(env.inp, p, w.lineno, double, names, toks, u) == Some(x)
    ensures SyntaxSound(env, t, x)
  {
    var all, due := ls + PrintDotted(keys), [DueInPath(double, |keys|)];
    if Next(env.inp, u, true).LexError? {
      LexicalSound(env, t, all, u, due, p.heap, true);
    } else {
      var e, name := Next(env.inp, u, true).tok, KeyOf(Text(env.inp, u)).name;
      var all' := all + [Lexeme(Kind.String, Text(env.inp, u), true)];
      PathStands(env, t, all, double, |keys|, u, e);
      if e.kind == RBracket {
        LastName(env.inp, toks, names, u, name);
        SelectMeans(env, t, all', |keys| + 1, p, double, names + [name], toks + [u], e, x);
      } else if e.kind == Kind.Dot {
        LexicalSound(env, t, all', e, [PathDot(|keys| + 1, double)], p.heap, true);
      } else {
        NoDotSyntax(env, t, ls, w, double, keys, u, e);
        FromPath(env, t, x);
      }
    }
  }

  /** After a key neither a dot nor `]`. */
  lemma {:induction false} NoDotSyntax(env: Env, t: Token, ls: seq<Lexeme>, w: Token, double: bool, keys: seq<Str>,
                                       u: Token, e: Token)
    requires Read(env.inp, t, ls) == Some(w) && Read(env.inp, w, PrintDotted(keys)) == Some(u) && Within(env.inp, u)
    requires u.kind == Kind.String && Next(env.inp, u, true) == Tok(e) && Within(env.inp, e)
    requires e.kind != RBracket && e.kind != Kind.Dot
    requires Stands(env.inp, t, ls + PrintDotted(keys) + [Lexeme(Kind.String, Text(env.inp, u), true)], e,
                    [PathDot(|keys| + 1, double)])
    ensures BadPath(env.inp, t, w.lineno)
  {
    AfterPathKey(|keys| + 1, double, Lexeme(e.kind, Text(env.inp, e), false));
    StuckIsDead(env.inp, ls + PrintDotted(keys) + [Lexeme(Kind.String, Text(env.inp, u), true)],
                [PathDot(|keys| + 1, double)], e);
    DeadAfterKey(env.inp, t, ls, w, keys, u, e);
  }

  // ---- Statements ----

  lemma {:induction false} BracketsStand(inp: Str, t: Token, ls: seq<Lexeme>, t1: Token, double: bool, w: Token)
    requires Stands(inp, t, ls, t1, [Due.Stmt]) && Read(inp, t1, PrintOpen(double)) == Some(w)
    ensures Stands(inp, t, ls + PrintOpen(double), w, [DueInPath(double, 0)])
  {
    RunBrackets(double);
    ReadConcat(inp, t, ls, PrintOpen(double));
    RunThen([Due.Stmt], ls, [Due.Stmt], PrintOpen(double), Some([DueInPath(double, 0)]));
  }

  lemma {:induction false} PathRuns(ls: seq<Lexeme>, double: bool, keys: seq<Str>)
    requires Run([Due.Stmt], ls) == Some([Due.Stmt]) && |keys| < 10
    ensures Run([Due.Stmt], ls + PrintOpen(double) + PrintDotted(keys)) == Some([DueInPath(double, |keys|)])
  {
    RunOpenPath(double, keys);
    RunThen([Due.Stmt], ls, [Due.Stmt], PrintOpen(double) + PrintDotted(keys), Some([DueInPath(double, |keys|)]));
    assert ls + PrintOpen(double) + PrintDotted(keys) == ls + (PrintOpen(double) + PrintDotted(keys));
  }

  lemma {:induction false} HeaderSyntax(env: Env, t: Token, ls: seq<Lexeme>, t1: Token, p: Place, double: bool,
                                        keys: seq<Str>, x: Fault)
    requires Stands(env.inp, t, ls, t1, [Due.Stmt]) && Shaped(env.inp, t1) && PlaceOk(p)
    requires HeaderFault(env.inp, p, t1, double, keys) == Some(x)
    ensures SyntaxSound(env, t, x)
  {
    var w := Read(env.inp, t1, PrintOpen(double)).value;
    var u := Read(env.inp, w, PrintDotted(keys)).value;
    var open := ls + PrintOpen(double);
    BracketsStand(env.inp, t, ls, t1, double, w);
    if !double && keys == [] && u.kind == LBracket {
      LexicalSound(env, t, open, w, [DueInPath(double, 0)], p.heap, true);
    } else {
      KeyNamesLength(keys);
      PathTokensName(env.inp, w, keys, u);
      if |keys| < 10 { PathRuns(ls, double, keys); }
      PathMeans(env, t, open, w, p, double, keys, KeyNames(keys).value, KeyTokens(env.inp, w, keys), u, x);
    }
  }

  lemma {:induction false} InEntrySyntax(env: Env, t: Token, ls: seq<Lexeme>, t1: Token, p: Place, k: Str, o: OpenValue,
                                         u: Token, st: Stop, x: Fault)
    requires Stands(env.inp, t, ls, t1, [Due.Stmt]) && Shaped(env.inp, t1) && PlaceOk(p)
    requires Read(env.inp, t1, PrintOpenField(k, o)) == Some(u) && Shaped(env.inp, u)
    requires EvalOpenField(env.foreign, p.heap, p.cur, k, o) == Some(st) && FaultAt(env, st, u) == Some(x)
    ensures SyntaxSound(env, t, x)
  {
    var stack := DueValue(o, [EndOfEntry]);
    RunOpenValue(o, [EndOfEntry]);
    assert [Val] + [EndOfEntry] == [Val, EndOfEntry];
    RunEntry(k, PrintOpenValue(o), Some(stack));
    RunThen([Due.Stmt], ls, [Due.Stmt], PrintOpenField(k, o), Some(stack));
    ReadConcat(env.inp, t, ls, PrintOpenField(k, o));
    DueFieldTop(env.foreign, p.heap, p.cur, k, o, [EndOfEntry]);
    HoleSyntax(env, t, ls + PrintOpenField(k, o), stack, st, u, x);
  }

  lemma {:induction false} PastEntrySyntax(env: Env, t: Token, ls: seq<Lexeme>, t1: Token, k: Str, v: Value, u: Token,
                                           h: Heap, x: Fault)
    requires Stands(env.inp, t, ls, t1, [Due.Stmt]) && Read(env.inp, t1, PrintField(k, v)) == Some(u)
    requires Shaped(env.inp, u) && EndFault(env.inp, h, u) == Some(x)
    ensures SyntaxSound(env, t, x)
  {
    RunValue(v, [EndOfEntry]);
    assert [Val] + [EndOfEntry] == [Val, EndOfEntry];
    RunEntry(k, PrintValue(v), Some([EndOfEntry]));
    RunThen([Due.Stmt], ls, [Due.Stmt], PrintField(k, v), Some([EndOfEntry]));
    ReadConcat(env.inp, t, ls, PrintField(k, v));
    LexicalSound(env, t, ls + PrintField(k, v), u, [EndOfEntry], h, false);
    if u.kind != Newline { UnexpectedMeans(env, t, ls + PrintField(k, v), u, [EndOfEntry], h); }
  }

  lemma {:induction false} NextSyntax(env: Env, t: Token, ls: seq<Lexeme>, stack: Stack, u: Token, p: Place, x: Fault)
    requires Stands(env.inp, t, ls, u, stack) && Shaped(env.inp, u) && PlaceOk(p) && StmtFault(env, p, u) == Some(x)
    requires stack == [Due.Stmt] || (stack == [EndOfHeader] && u.kind == Newline)
    ensures SyntaxSound(env, t, x)
  {
    LexicalSound(env, t, ls, u, stack, p.heap, true);
    if u.kind == Kind.String {
      assert [EqualSign, EndOfEntry] + stack[1..] == [EqualSign, EndOfEntry] + [];
      KeySyntax(env, t, ls, stack, EndOfEntry, [], p.heap, p.cur, u, x);
    } else if u.kind != Newline && u.kind != LBracket {
      UnexpectedMeans(env, t, ls, u, stack, p.heap);
    }
  }

  /** Statements that are read and execute are a document so far. */
  lemma {:induction false} StatementsStand(inp: Str, f: Foreign, p: Place, t: Token, afterHeader: bool,
                                           ss: seq<Language.Stmt>, u: Token)
    requires PlaceOk(p) && Shaped(inp, t) && ReadAll(inp, t, ss) == Some(u) && ExecAll(f, p, ss).Some?
    requires afterHeader ==> t.kind == Newline
    ensures Read(inp, t, PrintAll(ss)) == Some(u) && Shaped(inp, u) && DocOk(afterHeader, ss)
    decreases |ss|
  {
    if ss != [] {
      var st, v := ss[0], ReadStmt(inp, t, ss[0]).value;
      BeginsWith(inp, t, st);
      if st.Header? { KeyNamesLength(st.keys); }
      StatementsStand(inp, f, Exec(f, p, st).value, v, st.Header?, ss[1..], u);
      ReadConcat(inp, t, Print(st), PrintAll(ss[1..]));
    }
  }

  /** After a header comes a newline. */
  lemma {:induction false} LastStands(inp: Str, t: Token, afterHeader: bool, ss: seq<Language.Stmt>, u: Token)
    requires ReadAll(inp, t, ss) == Some(u) && (afterHeader ==> t.kind == Newline)
    ensures AfterLast(afterHeader, ss) ==> u.kind == Newline
    decreases |ss|
  {
    if ss != [] {
      BeginsWith(inp, t, ss[0]);
      LastStands(inp, ReadStmt(inp, t, ss[0]).value, ss[0].Header?, ss[1..], u);
      assert |ss| > 1 ==> ss[1..][|ss| - 2] == ss[|ss| - 1];
    }
  }

  lemma {:induction false} BeginsWith(inp: Str, t: Token, st: Language.Stmt)
    requires ReadStmt(inp, t, st).Some?
    ensures t.kind == Newline <==> st.Blank?
    ensures st.Header? ==> ReadStmt(inp, t, st).value.kind == Newline
  {
    assert Print(st) != [] && t.kind == Print(st)[0].kind;
  }

  lemma {:induction false} TailSyntax(env: Env, t: Token, ls: seq<Lexeme>, stack: Stack, t1: Token, p: Place,
                                      tail: Tail,
                                      x: Fault)
    requires Stands(env.inp, t, ls, t1, stack) && Shaped(env.inp, t1) && PlaceOk(p)
    requires stack == [Due.Stmt] || (stack == [EndOfHeader] && t1.kind == Newline)
    requires TailFault(env, p, t1, tail) == Some(x)
    ensures SyntaxSound(env, t, x)
  {
    match tail
    case NextStmt => NextSyntax(env, t, ls, stack, t1, p, x);
    case InEntry(k, o) =>
      assert t1.kind == PrintOpenField(k, o)[0].kind;
      InEntrySyntax(env, t, ls, t1, p, k, o, Read(env.inp, t1, PrintOpenField(k, o)).value,
                    EvalOpenField(env.foreign, p.heap, p.cur, k, o).value, x);
    case PastEntry(k, v) =>
      assert t1.kind == PrintField(k, v)[0].kind;
      PastEntrySyntax(env, t, ls, t1, k, v, Read(env.inp, t1, PrintField(k, v)).value,
                      EvalField(env.foreign, p.heap, p.cur, k, v).value, x);
    case InHeader(double, keys) =>
      assert t1.kind == PrintOpen(double)[0].kind;
      HeaderSyntax(env, t, ls, t1, p, double, keys, x);
  }

  /**
    * Whatever the input, a syntax error is raised for one of these: a string that
    * cannot be scanned; a token with which no document goes on; the path of a
    * header that no document has, or that is too long; an element that does not go
    * into its array; or `[[p]]` where something else is under the key; and on the
    * line of that string, token, path, element or key.
    */
  lemma {:induction false} SyntaxErrorsMean(env: Env)
    requires Parse(env).Raise?
    ensures match Next(env.inp, START, true)
            case LexError(line) => Parse(env).err == Error(SyntaxError, line) && Unscanned(env.inp, line)
            case Tok(t) => SyntaxSound(env, t, Fault(Parse(env).st.heap, Parse(env).err))
  {
    var x := Fault(Parse(env).st.heap, Parse(env).err);
    assert env.inp[..0] == [];
    ParseFaults(env, x);
    if Next(env.inp, START, true).LexError? {
      LexicalMeans(env.inp, START, true);
    } else {
      var t := Next(env.inp, START, true).tok;
      NextTiles(env.inp, START, true);
      var ss, tail :| FaultAfter(env, Place(EMPTY, ROOT), t, ss, tail, x);
      DocumentSyntax(env, t, ss, tail, x);
    }
  }

  lemma {:induction false} DocumentSyntax(env: Env, t: Token, ss: seq<Language.Stmt>, tail: Tail, x: Fault)
    requires Placed(env.inp, t) && Shaped(env.inp, t) && FaultAfter(env, Place(EMPTY, ROOT), t, ss, tail, x)
    ensures SyntaxSound(env, t, x)
  {
    var u, p := ReadAll(env.inp, t, ss).value, ExecAll(env.foreign, Place(EMPTY, ROOT), ss).value;
    StatementsStand(env.inp, env.foreign, Place(EMPTY, ROOT), t, false, ss, u);
    LastStands(env.inp, t, false, ss, u);
    RunDoc(false, ss);
    TailSyntax(env, t, PrintAll(ss), Between(AfterLast(false, ss)), u, p, tail, x);
  }
}
