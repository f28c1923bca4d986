/**
  * Which error an input raises: where the reading of it stops, and what is wrong
  * there.
  */
module Faults {
  import opened Bytes
  import opened Lexer
  import opened Store
  import opened Keys
  import opened Grammar
  import opened Eval
  import opened Parser
  import opened Document
  import opened Language
  import opened Stops
  import Recognizer

  /**
    * What has been read of the statement in which the error is raised: nothing; a
    * key and part of its value; a key-value; or the opening brackets of a header
    * and some keys with a dot after each.
    */
  datatype Tail =
    NextStmt | InEntry(key: Str, o: OpenValue) | PastEntry(key: Str, v: Value) | InHeader(double: bool, keys: seq<Str>)

  function PrintDotted(keys: seq<Str>): seq<Lexeme> {
    if keys == [] then []
    else [Lexeme(Kind.String, keys[0], true)] + (DotMark(Kind.Dot, DOT) + PrintDotted(keys[1..]))
  }

  // ---- What is wrong at the top level ----

  /** A statement is due. */
  function StmtFault(env: Env, p: Place, u: Token): Option<Fault>
    requires Shaped(env.inp, u) && PlaceOk(p)
  {
    match u.kind
    case Newline => if u.eof then None else Lexical(env.inp, p.heap, u, true)
    case String => KeyFault(env, p.heap, p.cur, u)
    case LBracket => Lexical(env.inp, p.heap, u, true)
    case _ => Unexpected(p.heap, u)
  }

  /** A key-value has been read; a newline is due. */
  function EndFault(inp: Str, s: Heap, u: Token): Option<Fault>
    requires Shaped(inp, u)
  {
    if u.kind != Newline then Unexpected(s, u) else Lexical(inp, s, u, false)
  }

  /** The path of a header has been read, up to `]`: its table is made, and the brackets and a newline are due. */
  function SelectFault(inp: Str, p: Place, double: bool, names: seq<Str>, toks: seq<Token>, x: Token): Option<Fault>
    requires Within(inp, x) && PlaceOk(p) && 0 < |names| == |toks|
  {
    match (if double then SelectElement(p.heap, names) else SelectTable(p.heap, names))
    case Unselected(h, at, why) => Some(Fault(h, Error(why, toks[at].lineno)))
    case Current(h, _) => CloseFault(inp, h, x, double)
  }

  function CloseFault(inp: Str, s: Heap, x: Token, double: bool): Option<Fault>
    requires Within(inp, x)
    decreases double
  {
    match Next(inp, x, false)
    case LexError(line) => Some(Fault(s, Error(SyntaxError, line)))
    case Tok(y) =>
      if double then if y.kind == RBracket then CloseFault(inp, s, y, false) else Unexpected(s, y)
      else if y.kind == Newline then None
      else Unexpected(s, y)
  }

  /**
    * A key of a header's path is due, at most the tenth, and then a dot or `]`. What
    * is wrong with a path is reported on the line where it begins.
    */
  function PathFault(inp: Str, p: Place, line: nat, double: bool, names: seq<Str>, toks: seq<Token>,
                     u: Token): Option<Fault>
    requires Shaped(inp, u) && PlaceOk(p) && |names| == |toks|
  {
    if |names| >= 10 || u.kind != Kind.String then Some(Fault(p.heap, Error(SyntaxError, line)))
    else match KeyOf(Text(inp, u))
      case Key(k) =>
        (match Next(inp, u, true)
         case LexError(l) => Some(Fault(p.heap, Error(SyntaxError, l)))
         case Tok(x) =>
           if x.kind == RBracket then SelectFault(inp, p, double, names + [k], toks + [u], x)
           else if x.kind == Kind.Dot then Lexical(inp, p.heap, x, true)
           else Some(Fault(p.heap, Error(SyntaxError, line))))
      case bad => Some(Fault(p.heap, Raised(UnusableKey(bad), u.lineno)))
  }

  /** The token after the next one. */
  function SecondNext(inp: Str, t: Token): Token {
    if Within(inp, t) && Next(inp, t, true).Tok? && Next(inp, Next(inp, t, true).tok, true).Tok? then
      Next(inp, Next(inp, t, true).tok, true).tok
    else t
  }

  /** The tokens of keys with a dot after each. */
  function KeyTokens(inp: Str, w: Token, keys: seq<Str>): (r: seq<Token>)
    ensures |r| == |keys|
    decreases |keys|
  {
    if keys == [] then [] else [w] + KeyTokens(inp, SecondNext(inp, w), keys[1..])
  }

  /** What is wrong after the opening brackets, and keys with a dot after each. */
  function HeaderFault(inp: Str, p: Place, t: Token, double: bool, keys: seq<Str>): Option<Fault>
    requires Shaped(inp, t) && PlaceOk(p)
  {
    match Read(inp, t, PrintOpen(double))
    case None => None
    case Some(w) =>
      match (Read(inp, w, PrintDotted(keys)), KeyNames(keys))
      case (Some(u), Some(names)) =>
        if |keys| > 10 then None
        else if !double && keys == [] && u.kind == LBracket then Lexical(inp, p.heap, u, true)
        else
          KeyNamesLength(keys);
          PathFault(inp, p, w.lineno, double, names, KeyTokens(inp, w, keys), u)
      case _ => None
  }

  /** What is wrong after this much of a statement, from token `t` on. */
  function TailFault(env: Env, p: Place, t: Token, tail: Tail): Option<Fault>
    requires Shaped(env.inp, t) && PlaceOk(p)
  {
    match tail
    case NextStmt => StmtFault(env, p, t)
    case InEntry(k, o) =>
      (match (Read(env.inp, t, PrintOpenField(k, o)), EvalOpenField(env.foreign, p.heap, p.cur, k, o))
       case (Some(u), Some(st)) => FaultAt(env, st, u)
       case _ => None)
    case PastEntry(k, v) =>
      (match (Read(env.inp, t, PrintField(k, v)), EvalField(env.foreign, p.heap, p.cur, k, v))
       case (Some(u), Some(h)) => EndFault(env.inp, h, u)
       case _ => None)
    case InHeader(double, keys) => HeaderFault(env.inp, p, t, double, keys)
  }

  // ---- Paths ----

  lemma DottedCons(key: Str, rest: seq<Str>)
    ensures PrintDotted([key] + rest) == [Lexeme(Kind.String, key, true)] + (DotMark(Kind.Dot, DOT) + PrintDotted(rest))
  {
    assert ([key] + rest)[1..] == rest;
  }

  /** A key and its dot, read. */
  lemma FirstDotted(inp: Str, t: Token, keys: seq<Str>) returns (d: Token, w: Token)
    requires Shaped(inp, t) && keys != [] && Read(inp, t, PrintDotted(keys)).Some?
    ensures t.kind == Kind.String && Text(inp, t) == keys[0] && Next(inp, t, true) == Tok(d) && Shaped(inp, d)
    ensures d.kind == Kind.Dot && Next(inp, d, true) == Tok(w) && Shaped(inp, w)
    ensures Read(inp, w, PrintDotted(keys[1..])) == Read(inp, t, PrintDotted(keys))
  {
    var rest := PrintDotted(keys[1..]);
    d := MarkTaken(inp, t, Lexeme(Kind.String, keys[0], true), DotMark(Kind.Dot, DOT) + rest);
    w := MarkTaken(inp, d, Lexeme(Kind.Dot, [DOT], true), rest);
  }

  /** ... and the other way round. */
  lemma DottedRead(inp: Str, t: Token, d: Token, w: Token, rest: seq<Str>, u: Token)
    requires Shaped(inp, t) && t.kind == Kind.String && Next(inp, t, true) == Tok(d) && Shaped(inp, d)
    requires d.kind == Kind.Dot && Next(inp, d, true) == Tok(w) && Read(inp, w, PrintDotted(rest)) == Some(u)
    ensures Read(inp, t, PrintDotted([Text(inp, t)] + rest)) == Some(u)
  {
    DottedCons(Text(inp, t), rest);
    DotGiven(inp, d, w);
    MarkGiven(inp, t, Lexeme(Kind.String, Text(inp, t), true), d);
    Recognizer.Glue(inp, d, DotMark(Kind.Dot, DOT), PrintDotted(rest), w, u);
    Recognizer.Glue(inp, t, [Lexeme(Kind.String, Text(inp, t), true)], DotMark(Kind.Dot, DOT) + PrintDotted(rest), d,
                    u);
  }

  /** Filling the path goes over keys and dots. */
  lemma {:induction false} PathGoesOn(inp: Str, t: Token, line: nat, names: seq<Str>, toks: seq<Token>, keys: seq<Str>,
                                      u: Token)
    requires Shaped(inp, t) && |names| == |toks| && |names| + |keys| <= MAX_PATH && KeyNames(keys).Some?
    requires Read(inp, t, PrintDotted(keys)) == Some(u)
    ensures Shaped(inp, u) && |KeyNames(keys).value| == |keys|
    ensures FillPath(inp, t, line, names, toks) ==
            FillPath(inp, u, line, names + KeyNames(keys).value, toks + KeyTokens(inp, t, keys))
    decreases |keys|
  {
    KeyNamesLength(keys);
    if keys == [] {
      assert names + [] == names && toks + KeyTokens(inp, t, []) == toks;
    } else {
      var key, rest := keys[0], keys[1..];
      assert keys == [key] + rest;
      KeyNamesCons(key, rest);
      var d, w := FirstDotted(inp, t, keys);
      PathGoesOn(inp, w, line, names + [KeyOf(key).name], toks + [t], rest, u);
      Assoc(names, [KeyOf(key).name], KeyNames(rest).value);
      Assoc(toks, [t], KeyTokens(inp, w, rest));
    }
  }

  /** ... as far as it goes over them: the last key has no dot and a key after it. */
  lemma {:induction false} PathStops(inp: Str, t: Token, line: nat, names: seq<Str>, toks: seq<Token>)
    returns (keys: seq<Str>, u: Token)
    requires Shaped(inp, t) && |names| == |toks| <= MAX_PATH
    ensures KeyNames(keys).Some? && |names| + |keys| <= MAX_PATH && |KeyNames(keys).value| == |keys|
    ensures Read(inp, t, PrintDotted(keys)) == Some(u) && Shaped(inp, u)
    ensures FillPath(inp, t, line, names, toks) ==
            FillPath(inp, u, line, names + KeyNames(keys).value, toks + KeyTokens(inp, t, keys))
    ensures |names| + |keys| < MAX_PATH ==> !Continues(inp, u)
    decreases |inp| - t.ptr
  {
    if |names| < MAX_PATH && Continues(inp, t) {
      var key, d := Text(inp, t), Next(inp, t, true).tok;
      NextOk(inp, t, true);
      var w := Next(inp, d, true).tok;
      NextOk(inp, d, true);
      var rest;
      rest, u := PathStops(inp, w, line, names + [KeyOf(key).name], toks + [t]);
      keys := [key] + rest;
      KeyNamesCons(key, rest);
      DottedRead(inp, t, d, w, rest, u);
      assert keys[1..] == rest;
      Assoc(names, [KeyOf(key).name], KeyNames(rest).value);
      Assoc(toks, [t], KeyTokens(inp, w, rest));
    } else {
      keys, u := [], t;
      assert names + [] == names && toks + [] == toks;
    }
  }

  /** A key that can be used, a dot, and one more token. */
  predicate Continues(inp: Str, t: Token)
    requires Shaped(inp, t)
  {
    && t.kind == Kind.String && KeyOf(Text(inp, t)).Key?
    && Next(inp, t, true).Tok? && Next(inp, t, true).tok.kind == Kind.Dot
    && Next(inp, Next(inp, t, true).tok, true).Tok?
  }

  /** What becomes of the path at a token it does not continue from. */
  function FilledHere(inp: Str, line: nat, names: seq<Str>, toks: seq<Token>, u: Token): Filled
    requires Shaped(inp, u) && |names| == |toks| <= MAX_PATH
  {
    if |names| >= MAX_PATH || u.kind != Kind.String then NoPath(names, Error(SyntaxError, line))
    else match KeyOf(Text(inp, u))
      case Key(k) =>
        (match Next(inp, u, true)
         case LexError(l) => NoPath(names + [k], Error(SyntaxError, l))
         case Tok(x) =>
           if x.kind == RBracket then Path(names + [k], toks + [u], x)
           else if x.kind != Kind.Dot then NoPath(names + [k], Error(SyntaxError, line))
           else match Next(inp, x, true)
             case LexError(l) => NoPath(names + [k], Error(SyntaxError, l))
             case Tok(_) => NoPath(names, Error(SyntaxError, line)))
      case bad => NoPath(names, Raised(UnusableKey(bad), u.lineno))
  }

  lemma {:induction false} FillEnds(inp: Str, line: nat, names: seq<Str>, toks: seq<Token>, u: Token)
    requires Shaped(inp, u) && |names| == |toks| <= MAX_PATH && (|names| < MAX_PATH ==> !Continues(inp, u))
    ensures FillPath(inp, u, line, names, toks) == FilledHere(inp, line, names, toks, u)
  {
  }

  /** A path stops where it has a fault, and its header then raises it. */
  lemma {:induction false} HeaderFails(inp: Str, st: State, w: Token, double: bool, names: seq<Str>, toks: seq<Token>,
                                       u: Token, x: Fault)
    requires StateOk(st) && Shaped(inp, w) && Shaped(inp, u) && |names| == |toks| <= MAX_PATH
    requires FillPath(inp, w, w.lineno, [], []) == FillPath(inp, u, w.lineno, names, toks)
    requires PathFault(inp, Place(st.heap, st.cur), w.lineno, double, names, toks, u) == Some(x)
    ensures FillAndEnter(inp, st, w, double).Raise?
    ensures FillAndEnter(inp, st, w, double).st.heap == x.heap && FillAndEnter(inp, st, w, double).err == x.err
  {
    var q := FillStops(inp, Place(st.heap, st.cur), w.lineno, double, names, toks, u);
    FilledFails(inp, st, w, double, names, toks, u, q, x);
  }

  lemma {:induction false} FillStops(inp: Str, p: Place, line: nat, double: bool, names: seq<Str>, toks: seq<Token>,
                                     u: Token)
    returns (q: Filled)
    requires PlaceOk(p) && Shaped(inp, u) && |names| == |toks| <= MAX_PATH
    requires PathFault(inp, p, line, double, names, toks, u).Some?
    ensures q == FilledHere(inp, line, names, toks, u) == FillPath(inp, u, line, names, toks)
  {
    FaultStops(inp, p, line, double, names, toks, u);
    q := FilledHere(inp, line, names, toks, u);
    FillEnds(inp, line, names, toks, u);
  }

  lemma {:induction false} FaultStops(inp: Str, p: Place, line: nat, double: bool, names: seq<Str>, toks: seq<Token>,
                                      u: Token)
    requires PlaceOk(p) && Shaped(inp, u) && |names| == |toks| && PathFault(inp, p, line, double, names, toks, u).Some?
    ensures |names| < MAX_PATH ==> !Continues(inp, u)
  {
  }

  lemma {:induction false} NoPathFault(inp: Str, p: Place, line: nat, double: bool, names: seq<Str>, toks: seq<Token>,
                                       u: Token)
    requires PlaceOk(p) && Shaped(inp, u) && |names| == |toks| <= MAX_PATH
    requires (|names| < MAX_PATH ==> !Continues(inp, u))
    requires var r := FilledHere(inp, line, names, toks, u);
             r.NoPath? || SelectFault(inp, p, double, r.names, r.toks, r.tok).Some?
    ensures PathFault(inp, p, line, double, names, toks, u).Some?
  {
  }

  lemma {:induction false} FilledFails(inp: Str, st: State, w: Token, double: bool, names: seq<Str>, toks: seq<Token>,
                                       u: Token, p: Filled,
                    x: Fault)
    requires StateOk(st) && Shaped(inp, w) && Shaped(inp, u) && |names| == |toks| <= MAX_PATH
    requires p == FilledHere(inp, w.lineno, names, toks, u) == FillPath(inp, w, w.lineno, [], [])
    requires PathFault(inp, Place(st.heap, st.cur), w.lineno, double, names, toks, u) == Some(x)
    ensures FillAndEnter(inp, st, w, double).Raise?
    ensures FillAndEnter(inp, st, w, double).st.heap == x.heap && FillAndEnter(inp, st, w, double).err == x.err
  {
    if p.Path? {
      EnterFails(inp, st, p, double, x);
    }
  }

  lemma {:induction false} EnterFails(inp: Str, st: State, p: Filled, double: bool, x: Fault)
    requires StateOk(st) && p.Path? && Shaped(inp, p.tok) && p.tok.kind == RBracket && 0 < |p.names| == |p.toks|
    requires SelectFault(inp, Place(st.heap, st.cur), double, p.names, p.toks, p.tok) == Some(x)
    ensures Enter(inp, st, p, double).Raise?
    ensures Enter(inp, st, p, double).st.heap == x.heap && Enter(inp, st, p, double).err == x.err
  {
    var sel := if double then SelectElement(st.heap, p.names) else SelectTable(st.heap, p.names);
    if sel.Current? {
      assert NodeGrows(st.heap[ROOT], sel.heap[ROOT]);
      CloseFails(inp, State(sel.heap, sel.id, p.names[..|p.names| - 1]), p.tok, double, x);
    }
  }

  lemma {:induction false} CloseFails(inp: Str, st: State, t: Token, double: bool, x: Fault)
    requires Shaped(inp, t) && t.kind == RBracket && CloseFault(inp, st.heap, t, double) == Some(x)
    ensures CloseHeader(inp, st, t, double).Raise?
    ensures CloseHeader(inp, st, t, double).st.heap == x.heap && CloseHeader(inp, st, t, double).err == x.err
    decreases double
  {
    if Next(inp, t, false).Tok? {
      NextOk(inp, t, false);
      var y := Next(inp, t, false).tok;
      if double && y.kind == RBracket { CloseFails(inp, st, y, false, x); }
    }
  }

  lemma {:induction false} CloseHalts(inp: Str, st: State, t: Token, double: bool)
    requires Shaped(inp, t) && t.kind == RBracket && CloseHeader(inp, st, t, double).Raise?
    ensures CloseFault(inp, st.heap, t, double).Some?
    decreases double
  {
    if Next(inp, t, false).Tok? {
      NextOk(inp, t, false);
      var y := Next(inp, t, false).tok;
      if double && y.kind == RBracket { CloseHalts(inp, st, y, false); }
    }
  }

  lemma {:induction false} WholePath(inp: Str, w: Token, line: nat) returns (keys: seq<Str>, u: Token)
    requires Shaped(inp, w)
    ensures KeyNames(keys).Some? && |KeyNames(keys).value| == |keys| <= MAX_PATH
    ensures Read(inp, w, PrintDotted(keys)) == Some(u) && Shaped(inp, u)
    ensures FillPath(inp, w, line, [], []) == FillPath(inp, u, line, KeyNames(keys).value, KeyTokens(inp, w, keys))
    ensures |keys| < MAX_PATH ==> !Continues(inp, u)
  {
    keys, u := PathStops(inp, w, line, [], []);
    var names, toks := KeyNames(keys).value, KeyTokens(inp, w, keys);
    assert [] + names == names && [] + toks == toks;
  }

  /** A header that raises an error has a path that stops at a fault. */
  lemma {:induction false} HeaderHalts(inp: Str, st: State, w: Token, double: bool) returns (keys: seq<Str>, u: Token)
    requires StateOk(st) && Shaped(inp, w) && FillAndEnter(inp, st, w, double).Raise?
    ensures Read(inp, w, PrintDotted(keys)) == Some(u) && Shaped(inp, u) && KeyNames(keys).Some?
    ensures |KeyNames(keys).value| == |keys| <= 10
    ensures PathFault(inp, Place(st.heap, st.cur), w.lineno, double, KeyNames(keys).value, KeyTokens(inp, w, keys), u)
         == Some(Fault(FillAndEnter(inp, st, w, double).st.heap, FillAndEnter(inp, st, w, double).err))
  {
    keys, u := WholePath(inp, w, w.lineno);
    FilledHalts(inp, st, w, double, KeyNames(keys).value, KeyTokens(inp, w, keys), u);
  }

  lemma {:induction false} FilledHalts(inp: Str, st: State, w: Token, double: bool, names: seq<Str>, toks: seq<Token>,
                                       u: Token)
    requires StateOk(st) && Shaped(inp, w) && Shaped(inp, u) && |names| == |toks| <= MAX_PATH
    requires FillPath(inp, w, w.lineno, [], []) == FillPath(inp, u, w.lineno, names, toks)
    requires |names| < MAX_PATH ==> !Continues(inp, u)
    requires FillAndEnter(inp, st, w, double).Raise?
    ensures PathFault(inp, Place(st.heap, st.cur), w.lineno, double, names, toks, u)
         == Some(Fault(FillAndEnter(inp, st, w, double).st.heap, FillAndEnter(inp, st, w, double).err))
  {
    PathHasFault(inp, st, w, double, names, toks, u);
    var x := PathFault(inp, Place(st.heap, st.cur), w.lineno, double, names, toks, u).value;
    HeaderFails(inp, st, w, double, names, toks, u, x);
  }

  lemma {:induction false} PathHasFault(inp: Str, st: State, w: Token, double: bool, names: seq<Str>, toks: seq<Token>,
                                        u: Token)
    requires StateOk(st) && Shaped(inp, w) && Shaped(inp, u) && |names| == |toks| <= MAX_PATH
    requires FillPath(inp, w, w.lineno, [], []) == FillPath(inp, u, w.lineno, names, toks)
    requires |names| < MAX_PATH ==> !Continues(inp, u)
    requires FillAndEnter(inp, st, w, double).Raise?
    ensures PathFault(inp, Place(st.heap, st.cur), w.lineno, double, names, toks, u).Some?
  {
    FillEnds(inp, w.lineno, names, toks, u);
    var p := FilledHere(inp, w.lineno, names, toks, u);
    if p.Path? {
      SelectHalts(inp, st, p, double);
    }
    NoPathFault(inp, Place(st.heap, st.cur), w.lineno, double, names, toks, u);
  }

  lemma {:induction false} SelectHalts(inp: Str, st: State, p: Filled, double: bool)
    requires StateOk(st) && p.Path? && Shaped(inp, p.tok) && p.tok.kind == RBracket && 0 < |p.names| == |p.toks|
    requires Enter(inp, st, p, double).Raise?
    ensures SelectFault(inp, Place(st.heap, st.cur), double, p.names, p.toks, p.tok).Some?
  {
    var sel := if double then SelectElement(st.heap, p.names) else SelectTable(st.heap, p.names);
    if sel.Current? {
      assert NodeGrows(st.heap[ROOT], sel.heap[ROOT]);
      CloseHalts(inp, State(sel.heap, sel.id, p.names[..|p.names| - 1]), p.tok, double);
    }
  }

  // ---- Statements ----

  /** The statement raises this error, and leaves this document. */
  ghost predicate Raises(r: Result, x: Fault) { r.Raise? && r.st.heap == x.heap && r.err == x.err }

  lemma {:induction false} NextFails(env: Env, st: State, t: Token, x: Fault)
    requires StateOk(st) && Shaped(env.inp, t) && StmtFault(env, Place(st.heap, st.cur), t) == Some(x)
    ensures !t.eof && Raises(Statement(env, st, t), x)
  {
    if t.kind == Kind.String {
      KeyFails(env, st.heap, t, st.cur, x);
    }
  }

  lemma {:induction false} PastFails(env: Env, st: State, t: Token, k: Str, v: Value, u: Token, h: Heap, x: Fault)
    requires StateOk(st) && Shaped(env.inp, t) && Read(env.inp, t, PrintField(k, v)) == Some(u)
    requires EvalField(env.foreign, st.heap, st.cur, k, v) == Some(h) && Shaped(env.inp, u)
    requires EndFault(env.inp, h, u) == Some(x)
    ensures !t.eof && Raises(Statement(env, st, t), x)
  {
    var d := MarkTaken(env.inp, t, Lexeme(Kind.String, k, false), Mark(Equal, EQUALS) + PrintValue(v));
    Recognizer.FieldParsed(env, st.heap, t, st.cur, k, v, h, u);
  }

  lemma {:induction false} InFails(env: Env, st: State, t: Token, k: Str, o: OpenValue, u: Token, stop: Stop, x: Fault)
    requires StateOk(st) && Shaped(env.inp, t) && Read(env.inp, t, PrintOpenField(k, o)) == Some(u)
    requires EvalOpenField(env.foreign, st.heap, st.cur, k, o) == Some(stop) && Shaped(env.inp, u)
    requires FaultAt(env, stop, u) == Some(x)
    ensures !t.eof && Raises(Statement(env, st, t), x)
  {
    FieldStops(env, st.heap, t, st.cur, k, o, stop, u, x);
  }

  /** The token after the opening brackets of a header. */
  lemma {:induction false} OpenStops(inp: Str, t: Token, double: bool, w: Token)
    requires Shaped(inp, t) && Read(inp, t, PrintOpen(double)) == Some(w)
    ensures !t.eof && t.kind == LBracket && Shaped(inp, w) && Next(inp, t, true).Tok?
    ensures var u := Next(inp, t, true).tok;
            if double then u.kind == LBracket && Next(inp, u, true) == Tok(w) else w == u
  {
    assert PrintOpen(double) + [] == PrintOpen(double);
    var v := OpenTaken(inp, t, double, [], w);
  }

  lemma {:induction false} SelectFails(env: Env, st: State, t: Token, double: bool, keys: seq<Str>, w: Token, u: Token,
                                       x: Fault)
    requires StateOk(st) && Shaped(env.inp, t) && Read(env.inp, t, PrintOpen(double)) == Some(w)
    requires Shaped(env.inp, w) && Read(env.inp, w, PrintDotted(keys)) == Some(u) && KeyNames(keys).Some?
    requires |KeyNames(keys).value| == |keys| <= 10 && Shaped(env.inp, u)
    requires double || keys != [] || u.kind != LBracket
    requires PathFault(env.inp, Place(st.heap, st.cur), w.lineno, double, KeyNames(keys).value,
                       KeyTokens(env.inp, w, keys), u) == Some(x)
    ensures !t.eof && Raises(Statement(env, st, t), x)
  {
    OpenStops(env.inp, t, double, w);
    if keys != [] { var d, v := FirstDotted(env.inp, w, keys); }
    var names, toks := KeyNames(keys).value, KeyTokens(env.inp, w, keys);
    PathGoesOn(env.inp, w, w.lineno, [], [], keys, u);
    assert [] + names == names && [] + toks == toks;
    HeaderFails(env.inp, st, w, double, names, toks, u, x);
  }

  lemma {:induction false} TailFails(env: Env, st: State, t: Token, tail: Tail, x: Fault)
    requires StateOk(st) && Shaped(env.inp, t) && TailFault(env, Place(st.heap, st.cur), t, tail) == Some(x)
    ensures !t.eof && Raises(Statement(env, st, t), x)
  {
    match tail
    case NextStmt => NextFails(env, st, t, x);
    case InEntry(k, o) =>
      InFails(env, st, t, k, o, Read(env.inp, t, PrintOpenField(k, o)).value,
              EvalOpenField(env.foreign, st.heap, st.cur, k, o).value, x);
    case PastEntry(k, v) =>
      PastFails(env, st, t, k, v, Read(env.inp, t, PrintField(k, v)).value,
                EvalField(env.foreign, st.heap, st.cur, k, v).value, x);
    case InHeader(double, keys) =>
      var w := Read(env.inp, t, PrintOpen(double)).value;
      var u := Read(env.inp, w, PrintDotted(keys)).value;
      KeyNamesLength(keys);
      if !double && keys == [] && u.kind == LBracket {
        OpenStops(env.inp, t, double, w);
      } else {
        SelectFails(env, st, t, double, keys, w, u, x);
      }
  }

  // ---- Where a statement raises an error, there is a fault ----

  lemma {:induction false} EntryHasFault(env: Env, st: State, t: Token) returns (tail: Tail)
    requires StateOk(st) && Shaped(env.inp, t) && t.kind == Kind.String && Statement(env, st, t).Raise?
    ensures TailFault(env, Place(st.heap, st.cur), t, tail).Some?
  {
    if ParseKeyval(env, st.heap, t, st.cur).Fail? {
      tail := InEntryHasFault(env, st, t);
    } else {
      tail := PastEntryHasFault(env, st, t);
    }
  }

  lemma {:induction false} InEntryHasFault(env: Env, st: State, t: Token) returns (tail: Tail)
    requires StateOk(st) && Shaped(env.inp, t) && t.kind == Kind.String && ParseKeyval(env, st.heap, t, st.cur).Fail?
    ensures TailFault(env, Place(st.heap, st.cur), t, tail).Some?
  {
    var r := ParseKeyval(env, st.heap, t, st.cur);
    var here, k, o, u := FieldHalts(env, st.heap, t, st.cur, Fault(r.heap, r.err));
    tail := if here then NextStmt else InEntry(k, o);
  }

  lemma {:induction false} PastEntryHasFault(env: Env, st: State, t: Token) returns (tail: Tail)
    requires StateOk(st) && Shaped(env.inp, t) && t.kind == Kind.String && Statement(env, st, t).Raise?
    requires ParseKeyval(env, st.heap, t, st.cur).Ok?
    ensures TailFault(env, Place(st.heap, st.cur), t, tail).Some?
  {
    var r := ParseKeyval(env, st.heap, t, st.cur);
    var k, v := Recognizer.FieldSpelled(env, st.heap, t, st.cur, r.heap, r.tok);
    tail := PastEntry(k, v);
    EndHasFault(env, st, t);
  }

  lemma {:induction false} EndHasFault(env: Env, st: State, t: Token)
    requires StateOk(st) && Shaped(env.inp, t) && t.kind == Kind.String && Statement(env, st, t).Raise?
    requires ParseKeyval(env, st.heap, t, st.cur).Ok?
    ensures var r := ParseKeyval(env, st.heap, t, st.cur); EndFault(env.inp, r.heap, r.tok).Some?
  {
  }

  lemma {:induction false} HeaderHasFault(env: Env, st: State, t: Token, double: bool, w: Token) returns (tail: Tail)
    requires StateOk(st) && Shaped(env.inp, t) && Read(env.inp, t, PrintOpen(double)) == Some(w) && Shaped(env.inp, w)
    requires FillAndEnter(env.inp, st, w, double).Raise? && (double || w.kind != LBracket)
    ensures TailFault(env, Place(st.heap, st.cur), t, tail).Some?
  {
    var keys, u := HeaderHalts(env.inp, st, w, double);
    tail := InHeader(double, keys);
    if keys == [] { assert u == w; }
    InHeaderFault(env.inp, Place(st.heap, st.cur), t, double, keys, w, u,
                  Fault(FillAndEnter(env.inp, st, w, double).st.heap, FillAndEnter(env.inp, st, w, double).err));
  }

  lemma {:induction false} InHeaderFault(inp: Str, p: Place, t: Token, double: bool, keys: seq<Str>, w: Token, u: Token,
                                         x: Fault)
    requires PlaceOk(p) && Shaped(inp, t) && Read(inp, t, PrintOpen(double)) == Some(w)
    requires Read(inp, w, PrintDotted(keys)) == Some(u) && Shaped(inp, u) && KeyNames(keys).Some?
    requires |KeyNames(keys).value| == |keys| <= 10 && (double || keys != [] || u.kind != LBracket)
    requires PathFault(inp, p, w.lineno, double, KeyNames(keys).value, KeyTokens(inp, w, keys), u) == Some(x)
    ensures HeaderFault(inp, p, t, double, keys) == Some(x)
  {
  }

  lemma {:induction false} SelectHasFault(env: Env, st: State, t: Token) returns (tail: Tail)
    requires StateOk(st) && Shaped(env.inp, t) && t.kind == LBracket && Statement(env, st, t).Raise?
    ensures TailFault(env, Place(st.heap, st.cur), t, tail).Some?
  {
    if Next(env.inp, t, true).LexError? {
      tail := NextStmt;
    } else {
      var u := Next(env.inp, t, true).tok;
      OpenGiven(env.inp, t, u);
      if u.kind != LBracket {
        tail := HeaderHasFault(env, st, t, false, u);
      } else if Next(env.inp, u, true).LexError? {
        tail := SecondHasFault(env, st, t, u);
      } else {
        var w := Next(env.inp, u, true).tok;
        OpenGiven(env.inp, u, w);
        Recognizer.Glue(env.inp, t, PrintOpen(false), PrintOpen(false), u, w);
        tail := HeaderHasFault(env, st, t, true, w);
      }
    }
  }

  /** No token comes after the second bracket. */
  lemma {:induction false} SecondHasFault(env: Env, st: State, t: Token, u: Token) returns (tail: Tail)
    requires StateOk(st) && Shaped(env.inp, t) && Read(env.inp, t, PrintOpen(false)) == Some(u) && Shaped(env.inp, u)
    requires u.kind == LBracket && Next(env.inp, u, true).LexError?
    ensures TailFault(env, Place(st.heap, st.cur), t, tail).Some?
  {
    tail := InHeader(false, []);
    assert KeyNames([]) == Some([]) && PrintDotted([]) == [];
  }

  lemma {:induction false} TailHalts(env: Env, st: State, t: Token) returns (tail: Tail)
    requires StateOk(st) && Shaped(env.inp, t) && !t.eof && Statement(env, st, t).Raise?
    ensures TailFault(env, Place(st.heap, st.cur), t, tail).Some?
  {
    match t.kind
    case String => tail := EntryHasFault(env, st, t);
    case LBracket => tail := SelectHasFault(env, st, t);
    case _ => tail := NextStmt;
  }

  // ---- Whole documents ----

  /** From token `t` on the input spells statements that execute, and then there is this fault. */
  ghost predicate FaultAfter(env: Env, p: Place, t: Token, ss: seq<Stmt>, tail: Tail, x: Fault)
    requires PlaceOk(p) && Shaped(env.inp, t)
  {
    && ReadAll(env.inp, t, ss).Some? && ExecAll(env.foreign, p, ss).Some?
    && TailFault(env, ExecAll(env.foreign, p, ss).value, ReadAll(env.inp, t, ss).value, tail) == Some(x)
  }

  lemma {:induction false} StatementsFail(env: Env, st: State, t: Token, ss: seq<Stmt>, tail: Tail, x: Fault)
    requires StateOk(st) && Shaped(env.inp, t) && FaultAfter(env, Place(st.heap, st.cur), t, ss, tail, x)
    ensures Raises(Statements(env, st, t), x)
    decreases |ss|
  {
    if ss == [] {
      TailFails(env, st, t, tail, x);
    } else {
      var u := ReadStmt(env.inp, t, ss[0]).value;
      StatementTaken(env, st, t, ss[0], u);
      StatementsFail(env, Statement(env, st, t).st, u, ss[1..], tail, x);
    }
  }

  lemma {:induction false} StatementsHalt(env: Env, st: State, t: Token, x: Fault) returns (ss: seq<Stmt>, tail: Tail)
    requires StateOk(st) && Shaped(env.inp, t) && Raises(Statements(env, st, t), x)
    ensures FaultAfter(env, Place(st.heap, st.cur), t, ss, tail, x)
    decreases |env.inp| - t.ptr
  {
    var r := Statement(env, st, t);
    if r.Going? {
      var s := StatementGiven(env, st, t);
      var rest;
      rest, tail := StatementsHalt(env, r.st, r.tok, x);
      ss := [s] + rest;
      assert ss[1..] == rest;
    } else {
      tail := TailHalts(env, st, t);
      TailFails(env, st, t, tail, TailFault(env, Place(st.heap, st.cur), t, tail).value);
      ss := [];
    }
  }

  /** What the input raises: its first token is none, or it spells statements that execute up to the fault. */
  ghost predicate HasFault(env: Env, x: Fault) {
    match Next(env.inp, START, true)
    case LexError(line) => x == Fault(EMPTY, Error(SyntaxError, line))
    case Tok(t) => Shaped(env.inp, t) && exists ss, tail :: FaultAfter(env, Place(EMPTY, ROOT), t, ss, tail, x)
  }

  /**
    * `toml_parse` raises an error if and only if the input has that fault, and then
    * the document is what was built up to it.
    */
  lemma {:induction false} ParseFaults(env: Env, x: Fault)
    ensures Raises(Parse(env), x) <==> HasFault(env, x)
  {
    if Next(env.inp, START, true).Tok? {
      NextOk(env.inp, START, true);
      var t := Next(env.inp, START, true).tok;
      if Raises(Parse(env), x) {
        var ss, tail := StatementsHalt(env, INITIAL, t, x);
        assert FaultAfter(env, Place(EMPTY, ROOT), t, ss, tail, x);
      }
      if HasFault(env, x) {
        var ss, tail :| FaultAfter(env, Place(EMPTY, ROOT), t, ss, tail, x);
        StatementsFail(env, INITIAL, t, ss, tail, x);
      }
    }
  }
}
