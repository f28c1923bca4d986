/** Which inputs raise an error about a key: KeyExists, a bad key, or a bad escape in a key. */
module KeyErrors {
  import opened Bytes
  import opened Lexer
  import opened Store
  import opened Keys
  import opened Grammar
  import opened Eval
  import opened Parser
  import opened Document
  import opened Language
  import opened Stops
  import opened Faults

  predicate AboutKeys(k: ErrorKind) { k == KeyExists || k == BadKeyError || k.BadString? }

  // ---- What is refused ----

  /** The first token of the value, when the key is followed by `=` and a value. */
  function ValueAfter(inp: Str, key: Token): Option<Token>
    requires Within(inp, key)
  {
    match Next(inp, key, false)
    case LexError(_) => None
    case Tok(e) =>
      if e.kind != Equal then None
      else match Next(inp, e, false)
        case LexError(_) => None
        case Tok(v) => if v.kind in {Kind.String, LBracket, LBrace} then Some(v) else None
  }

  /** Table `i` has an entry under the name, and not a table made on the way for what is to be one. */
  predicate Occupied(s: Heap, i: nat, name: Str, table: bool)
    requires i < |s| && s[i].Tab?
  {
    match CheckKey(s, s[i], name)
    case Absent => false
    case FoundTab(id) => !(table && id < |s| && s[id].Tab? && s[id].implicit)
    case _ => true
  }

  /** A key with its value is refused by table `i` of the document: for an entry it has, or for what the key is. */
  ghost predicate EntryRefused(inp: Str, s: Heap, i: nat, key: Token, err: Error)
    requires Shaped(inp, key) && i < |s| && s[i].Tab?
  {
    && key.kind == Kind.String && ValueAfter(inp, key).Some? && err.line == key.lineno
    && match KeyOf(Text(inp, key))
       case Key(name) => err.kind == KeyExists && Occupied(s, i, name, ValueAfter(inp, key).value.kind == LBrace)
       case BadText(why) => err.kind == BadString(why)
       case BadKey => err.kind == BadKeyError
  }

  /**
    * At key `j` of a path there is something in the way: a value; or anything but a
    * table made on the way, where a `[p]` ends. The tables before it are made.
    */
  ghost predicate InTheWay(s: Heap, names: seq<Str>, double: bool, j: nat, h: Heap)
    requires |s| > 0 && s[ROOT].Tab? && j < |names|
  {
    && Walk(s, ROOT, names[..j], 0).Reached? && Walk(s, ROOT, names[..j], 0).heap == h
    && var i := Walk(s, ROOT, names[..j], 0).id;
       if j < |names| - 1 then CheckKey(h, h[i], names[j]).FoundVal? else !double && Occupied(h, i, names[j], true)
  }

  /** The keys before `u`, and `u`, are all there is in the brackets. */
  ghost predicate PathEnds(inp: Str, u: Token)
    requires Shaped(inp, u)
  {
    u.kind == Kind.String && Next(inp, u, true).Tok? && Next(inp, u, true).tok.kind == RBracket
  }

  ghost predicate PathRefused(inp: Str, p: Place, double: bool, names: seq<Str>, toks: seq<Token>, u: Token, x: Fault)
    requires PlaceOk(p) && Shaped(inp, u) && |names| == |toks|
  {
    |names| < 10 && u.kind == Kind.String &&
    match KeyOf(Text(inp, u))
    case Key(k) =>
      && PathEnds(inp, u) && x.err.kind == KeyExists
      && exists j: nat :: j <= |names| && InTheWay(p.heap, names + [k], double, j, x.heap)
                          && x.err.line == (toks + [u])[j].lineno
    case BadText(why) => x == Fault(p.heap, Error(BadString(why), u.lineno))
    case BadKey => x == Fault(p.heap, Error(BadKeyError, u.lineno))
  }

  ghost predicate HeaderRefused(inp: Str, p: Place, t: Token, double: bool, keys: seq<Str>, x: Fault)
    requires Shaped(inp, t) && PlaceOk(p)
  {
    match Read(inp, t, PrintOpen(double))
    case None => false
    case Some(w) =>
      match (Read(inp, w, PrintDotted(keys)), KeyNames(keys))
      case (Some(u), Some(names)) =>
        |names| == |keys| && PathRefused(inp, p, double, names, KeyTokens(inp, w, keys), u, x)
      case _ => false
  }

  ghost predicate TailRefused(env: Env, p: Place, t: Token, tail: Tail, x: Fault)
    requires Shaped(env.inp, t) && PlaceOk(p)
  {
    match tail
    case NextStmt => x.heap == p.heap && EntryRefused(env.inp, p.heap, p.cur, t, x.err)
    case InEntry(k, o) =>
      (match (Read(env.inp, t, PrintOpenField(k, o)), EvalOpenField(env.foreign, p.heap, p.cur, k, o))
       case (Some(u), Some(Stop(h, AtField(i)))) => x.heap == h && EntryRefused(env.inp, h, i, u, x.err)
       case _ => false)
    case PastEntry(_, _) => false
    case InHeader(double, keys) => HeaderRefused(env.inp, p, t, double, keys, x)
  }

  // ---- ... is what is wrong ----

  lemma {:induction false} ValueFaultExactly(env: Env, s: Heap, i: nat, key: Token, v: Token, x: Fault)
    requires Shaped(env.inp, key) && key.kind == Kind.String && Shaped(env.inp, v) && i < |s| && s[i].Tab?
    requires ValueAfter(env.inp, key) == (if v.kind in {Kind.String, LBracket, LBrace} then Some(v) else None)
    requires AboutKeys(x.err.kind)
    ensures ValueFault(env, s, i, key, v) == Some(x) <==> x.heap == s && EntryRefused(env.inp, s, i, key, x.err)
  {
    var k, table := Text(env.inp, key), v.kind == LBrace;
    match v.kind
    case String => RefusalExactly(env.inp, s, i, key, CreateVal(s, i, k, Text(env.inp, v)), table, v, x);
    case LBracket => RefusalExactly(env.inp, s, i, key, CreateArray(s, i, k), table, v, x);
    case LBrace => RefusalExactly(env.inp, s, i, key, CreateTable(s, i, k), table, v, x);
    case _ =>
  }

  lemma {:induction false} RefusalExactly(inp: Str, s: Heap, i: nat, key: Token, b: Built, table: bool, v: Token,
                                          x: Fault)
    requires Shaped(inp, key) && Within(inp, v) && i < |s| && s[i].Tab? && AboutKeys(x.err.kind)
    requires match KeyOf(Text(inp, key))
             case Key(name) => if Occupied(s, i, name, table) then b == Refused(s, KeyTaken) else b.Done?
             case bad => b == Refused(s, UnusableKey(bad))
    ensures Refusal(inp, b, key.lineno, v) == Some(x) <==>
            && x.heap == s && x.err.line == key.lineno
            && match KeyOf(Text(inp, key))
               case Key(name) => x.err.kind == KeyExists && Occupied(s, i, name, table)
               case BadText(why) => x.err.kind == BadString(why)
               case BadKey => x.err.kind == BadKeyError
  {
  }

  lemma {:induction false} KeyFaultExactly(env: Env, s: Heap, i: nat, key: Token, x: Fault)
    requires Shaped(env.inp, key) && key.kind == Kind.String && i < |s| && s[i].Tab? && AboutKeys(x.err.kind)
    ensures KeyFault(env, s, i, key) == Some(x) <==> x.heap == s && EntryRefused(env.inp, s, i, key, x.err)
  {
    if Next(env.inp, key, false).Tok? {
      var e := Next(env.inp, key, false).tok;
      if e.kind == Equal && Next(env.inp, e, false).Tok? {
        NextOk(env.inp, e, false);
        ValueFaultExactly(env, s, i, key, Next(env.inp, e, false).tok, x);
      }
    }
  }

  lemma {:induction false} HoleExactly(env: Env, st: Stop, u: Token, x: Fault)
    requires Shaped(env.inp, u) && StopOk(st) && AboutKeys(x.err.kind)
    ensures FaultAt(env, st, u) == Some(x) <==>
            st.at.AtField? && x.heap == st.heap && EntryRefused(env.inp, st.heap, st.at.i, u, x.err)
  {
    if u.kind == Kind.String && st.at.AtField? { KeyFaultExactly(env, st.heap, st.at.i, u, x); }
  }

  // ---- ... in headers ----

  /** Walking a longer path goes on where walking the shorter one ends. */
  lemma {:induction false} WalkOn(s: Heap, cur: nat, path: seq<Str>, at: nat, j: nat, h: Heap, id: nat)
    requires cur < |s| && s[cur].Tab? && at <= j <= |path| && Walk(s, cur, path[..j], at) == Reached(h, id)
    ensures Walk(s, cur, path, at) == Walk(h, id, path, j)
    decreases |path| - at
  {
    if at < j {
      assert path[..j][at] == path[at];
      match CheckKey(s, s[cur], path[at])
      case FoundTab(next) => WalkOn(s, next, path, at + 1, j, h, id);
      case FoundArr(a) => WalkOn(s, LastTable(s, a).value, path, at + 1, j, h, id);
      case Absent => WalkOn(AddTab(s, cur, path[at], true), |s|, path, at + 1, j, h, id);
    } else {
      WalkHere(s, cur, path, at);
    }
  }

  /** A walk stops at a taken key exactly where it comes to a value. */
  lemma {:induction false} WalkBlocked(s: Heap, cur: nat, path: seq<Str>, at: nat, j: nat)
    requires cur < |s| && s[cur].Tab? && at <= |path| && Walk(s, cur, path, at).Blocked?
    requires j == Walk(s, cur, path, at).at
    ensures Walk(s, cur, path[..j], at).Reached?
    ensures var r, w := Walk(s, cur, path[..j], at), Walk(s, cur, path, at);
            && r.heap == w.heap && w.why in {KeyExists, InternalError}
            && (w.why == KeyExists <==> CheckKey(r.heap, r.heap[r.id], path[j]).FoundVal?)
    decreases |path| - at
  {
    if at < j {
      assert path[..j][at] == path[at];
      match CheckKey(s, s[cur], path[at])
      case FoundTab(id) => WalkBlocked(s, id, path, at + 1, j);
      case FoundArr(id) => WalkBlocked(s, LastTable(s, id).value, path, at + 1, j);
      case FoundVal(_) =>
      case Absent => WalkBlocked(AddTab(s, cur, path[at], true), |s|, path, at + 1, j);
    } else {
      WalkHere(s, cur, path, at);
    }
  }

  lemma {:induction false} WalkHere(s: Heap, cur: nat, path: seq<Str>, at: nat)
    requires cur < |s| && s[cur].Tab? && at <= |path|
    ensures Walk(s, cur, path[..at], at) == Reached(s, cur)
  {
  }

  lemma {:induction false} LastExactly(s: Heap, names: seq<Str>, double: bool, j: nat, h: Heap)
    requires |s| > 0 && s[ROOT].Tab? && j < |names| && Walk(s, ROOT, names[..|names| - 1], 0).Reached?
    ensures (if double then SelectElement(s, names) else SelectTable(s, names)) == Unselected(h, j, KeyExists)
       <==> j == |names| - 1 && InTheWay(s, names, double, j, h)
  {
  }

  /** The path is blocked at a key with a value under it. */
  lemma {:induction false} BlockedExactly(s: Heap, names: seq<Str>, j: nat, h: Heap)
    requires |s| > 0 && s[ROOT].Tab? && j < |names| - 1
    ensures Walk(s, ROOT, names[..|names| - 1], 0) == Blocked(h, j, KeyExists) <==> InTheWay(s, names, false, j, h)
  {
    var path := names[..|names| - 1];
    var w, v := Walk(s, ROOT, path, 0), Walk(s, ROOT, names[..j], 0);
    assert path[..j] == names[..j];
    if v.Reached? { WalkOn(s, ROOT, path, 0, j, v.heap, v.id); }
    if w == Blocked(h, j, KeyExists) { WalkBlocked(s, ROOT, path, 0, j); }
  }

  /** The table is not made exactly where something is in the way. */
  lemma {:induction false} SelectExactly(s: Heap, names: seq<Str>, double: bool, j: nat, h: Heap)
    requires |s| > 0 && s[ROOT].Tab? && j < |names|
    ensures (if double then SelectElement(s, names) else SelectTable(s, names)) == Unselected(h, j, KeyExists)
       <==> InTheWay(s, names, double, j, h)
  {
    if j < |names| - 1 { BlockedExactly(s, names, j, h); }
    if Walk(s, ROOT, names[..|names| - 1], 0).Reached? {
      LastExactly(s, names, double, j, h);
    } else {
      BlockedSelects(s, names, double);
    }
  }

  lemma {:induction false} BlockedSelects(s: Heap, names: seq<Str>, double: bool)
    requires |s| > 0 && s[ROOT].Tab? && names != [] && Walk(s, ROOT, names[..|names| - 1], 0).Blocked?
    ensures var w := Walk(s, ROOT, names[..|names| - 1], 0);
            (if double then SelectElement(s, names) else SelectTable(s, names)) == Unselected(w.heap, w.at, w.why)
  {
  }

  lemma {:induction false} CloseIsSyntax(inp: Str, s: Heap, e: Token, double: bool)
    requires Within(inp, e)
    ensures CloseFault(inp, s, e, double).Some? ==> CloseFault(inp, s, e, double).value.err.kind == SyntaxError
    decreases double
  {
    if double && Next(inp, e, false).Tok? { CloseIsSyntax(inp, s, Next(inp, e, false).tok, false); }
  }

  lemma {:induction false} SelectReasons(s: Heap, names: seq<Str>, double: bool)
    requires |s| > 0 && s[ROOT].Tab? && names != []
    ensures var r := if double then SelectElement(s, names) else SelectTable(s, names);
            && (r.Unselected? ==> r.why in {KeyExists, InternalError, SyntaxError})
            && (r.Unselected? && r.why == SyntaxError ==>
                  double && r.at == |names| - 1 && Walk(s, ROOT, names[..|names| - 1], 0).Reached?)
  {
    var path := names[..|names| - 1];
    if Walk(s, ROOT, path, 0).Blocked? { WalkBlocked(s, ROOT, path, 0, Walk(s, ROOT, path, 0).at); }
  }

  lemma {:induction false} SelectFaultExactly(inp: Str, p: Place, double: bool, names: seq<Str>, toks: seq<Token>,
                                              e: Token, x: Fault)
    requires Within(inp, e) && PlaceOk(p) && 0 < |names| == |toks| && AboutKeys(x.err.kind)
    ensures SelectFault(inp, p, double, names, toks, e) == Some(x) <==>
            x.err.kind == KeyExists &&
            exists j: nat :: j < |names| && InTheWay(p.heap, names, double, j, x.heap) && x.err.line == toks[j].lineno
  {
    var r := if double then SelectElement(p.heap, names) else SelectTable(p.heap, names);
    SelectReasons(p.heap, names, double);
    forall j: nat | j < |names|
      ensures r == Unselected(x.heap, j, KeyExists) <==> InTheWay(p.heap, names, double, j, x.heap)
    {
      SelectExactly(p.heap, names, double, j, x.heap);
    }
    if r.Current? {
      CloseIsSyntax(inp, r.heap, e, double);
    } else {
      assert r.at < |names|;
    }
  }

  lemma {:induction false} PathExactly(inp: Str, p: Place, line: nat, double: bool, names: seq<Str>, toks: seq<Token>,
                                       u: Token, x: Fault)
    requires PlaceOk(p) && Shaped(inp, u) && |names| == |toks| && AboutKeys(x.err.kind)
    ensures PathFault(inp, p, line, double, names, toks, u) == Some(x) <==>
            PathRefused(inp, p, double, names, toks, u, x)
  {
    if KeyOf(Text(inp, u)).Key? && PathEnds(inp, u) {
      var k, e := KeyOf(Text(inp, u)).name, Next(inp, u, true).tok;
      SelectFaultExactly(inp, p, double, names + [k], toks + [u], e, x);
    }
  }

  lemma {:induction false} HeaderExactly(inp: Str, p: Place, t: Token, double: bool, keys: seq<Str>, x: Fault)
    requires PlaceOk(p) && Shaped(inp, t) && AboutKeys(x.err.kind)
    ensures HeaderFault(inp, p, t, double, keys) == Some(x) <==> HeaderRefused(inp, p, t, double, keys, x)
  {
    KeyNamesLength(keys);
    if Read(inp, t, PrintOpen(double)).Some? && KeyNames(keys).Some? {
      var w := Read(inp, t, PrintOpen(double)).value;
      if Read(inp, w, PrintDotted(keys)).Some? {
        var u := Read(inp, w, PrintDotted(keys)).value;
        PathExactly(inp, p, w.lineno, double, KeyNames(keys).value, KeyTokens(inp, w, keys), u, x);
      }
    }
  }

  // ---- Whole documents ----

  lemma {:induction false} TailExactly(env: Env, p: Place, t: Token, tail: Tail, x: Fault)
    requires PlaceOk(p) && Shaped(env.inp, t) && AboutKeys(x.err.kind)
    ensures TailFault(env, p, t, tail) == Some(x) <==> TailRefused(env, p, t, tail, x)
  {
    match tail
    case NextStmt => if t.kind == Kind.String { KeyFaultExactly(env, p.heap, p.cur, t, x); }
    case InEntry(k, o) =>
      var u, st := Read(env.inp, t, PrintOpenField(k, o)), EvalOpenField(env.foreign, p.heap, p.cur, k, o);
      if u.Some? && st.Some? { HoleExactly(env, st.value, u.value, x); }
    case PastEntry(_, _) =>
    case InHeader(double, keys) => HeaderExactly(env.inp, p, t, double, keys, x);
  }

  /** From token `t` on the input spells statements that execute, and then a key is refused. */
  ghost predicate RefusedAfter(env: Env, t: Token, ss: seq<Stmt>, tail: Tail, x: Fault)
    requires Shaped(env.inp, t)
  {
    && ReadAll(env.inp, t, ss).Some? && ExecAll(env.foreign, Place(EMPTY, ROOT), ss).Some?
    && TailRefused(env, ExecAll(env.foreign, Place(EMPTY, ROOT), ss).value, ReadAll(env.inp, t, ss).value, tail, x)
  }

  /**
    * Whatever the input, KeyExists, a bad key or a bad escape in a key is raised if
    * and only if the input spells statements that execute, and perhaps part of a
    * value that is built, up to a key that is refused: the table it is for has an
    * entry under it, or something is in the way of its path, or it names nothing. The
    * error has the line of that key, and the document is what was built before it.
    */
  lemma {:induction false} KeyErrorsExactly(env: Env, x: Fault)
    requires AboutKeys(x.err.kind)
    ensures Raises(Parse(env), x) <==>
            && Next(env.inp, START, true).Tok? && Shaped(env.inp, Next(env.inp, START, true).tok)
            && exists ss, tail :: RefusedAfter(env, Next(env.inp, START, true).tok, ss, tail, x)
  {
    ParseFaults(env, x);
    if Next(env.inp, START, true).Tok? {
      var t := Next(env.inp, START, true).tok;
      NextOk(env.inp, START, true);
      forall ss, tail
        ensures FaultAfter(env, Place(EMPTY, ROOT), t, ss, tail, x) <==> RefusedAfter(env, t, ss, tail, x)
      {
        if ReadAll(env.inp, t, ss).Some? && ExecAll(env.foreign, Place(EMPTY, ROOT), ss).Some? {
          TailExactly(env, ExecAll(env.foreign, Place(EMPTY, ROOT), ss).value, ReadAll(env.inp, t, ss).value, tail, x);
        }
      }
    }
  }
}
