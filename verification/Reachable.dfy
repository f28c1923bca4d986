/** What holds in every state the parser can reach, at errors too. */
module Reachable {
  import opened Bytes
  import opened Lexer
  import opened Store
  import opened Eval
  import opened Parser
  import opened Preservation
  import opened Document
  import Ownership

  /** One table more on the way. */
  lemma WayKept(f: Foreign, before: Heap, s: Heap, cur: nat, key: Str)
    requires Sound(f, before, s, true) && cur < |s| && s[cur].Tab? && CheckKey(s, s[cur], key).Absent?
    ensures Sound(f, before, AddTab(s, cur, key, true), true)
  {
    AddTabSound(f, s, cur, key, true);
  }

  lemma {:induction false} WalkKept(f: Foreign, before: Heap, s: Heap, cur: nat, path: seq<Str>, at: nat, h: Heap)
    requires Sound(f, before, s, true) && cur < |s| && s[cur].Tab? && at <= |path| && h == Walk(s, cur, path, at).heap
    ensures Sound(f, before, h, true)
    decreases |path| - at
  {
    if at < |path| {
      match CheckKey(s, s[cur], path[at])
      case FoundTab(id) =>
        if id < |s| && s[id].Tab? {
          WalkKept(f, before, s, id, path, at + 1, h);
        }
      case FoundArr(id) =>
        if LastTable(s, id).Some? {
          WalkKept(f, before, s, LastTable(s, id).value, path, at + 1, h);
        }
      case FoundVal(_) =>
      case Absent =>
        var s' := AddTab(s, cur, path[at], true);
        WayKept(f, before, s, cur, path[at]);
        WalkKept(f, before, s', |s|, path, at + 1, h);
    }
  }

  lemma PushElementSound(f: Foreign, s: Heap, a: nat)
    requires Inv(s) && a < |s| && Takes(s[a], Tables)
    ensures Sound(f, s, PushTab(s, a, Some(ANON)), true)
  {
    PushTabInv(s, a, Some(ANON));
    if Uniform(f, s) { UniformStep(f, s, a, PushTab(s, a, Some(ANON))); }
  }

  lemma AppendElementKept(f: Foreign, s: Heap, i: nat, key: Str)
    requires Inv(s) && i < |s| && s[i].Tab?
    ensures Sound(f, s, AppendElement(s, i, key).heap, true)
  {
    match CheckKey(s, s[i], key)
    case Absent =>
      AddArrSound(f, s, i, key);
      PushElementSound(f, AddArr(s, i, key), |s|);
    case FoundArr(id) => if id < |s| && Takes(s[id], Tables) { PushElementSound(f, s, id); }
    case _ =>
  }

  lemma SelectKept(f: Foreign, s: Heap, path: seq<Str>, double: bool)
    requires Inv(s) && path != []
    ensures Sound(f, s, (if double then SelectElement(s, path) else SelectTable(s, path)).heap, true)
  {
    var last := |path| - 1;
    WalkKept(f, s, s, ROOT, path[..last], 0, Walk(s, ROOT, path[..last], 0).heap);
    match Walk(s, ROOT, path[..last], 0)
    case Blocked(_, _, _) =>
    case Reached(h, id) =>
      if double { AppendElementKept(f, h, id, path[last]); } else { ClaimKept(f, h, id, path[last]); }
  }

  lemma ClaimKept(f: Foreign, s: Heap, i: nat, k: Str)
    requires Inv(s) && i < |s| && s[i].Tab?
    ensures Sound(f, s, ClaimTable(s, i, k).heap, true)
  {
    ClaimTableInv(f, s, i, k);
  }

  lemma StatementKept(env: Env, st: State, t: Token)
    requires StateOk(st) && Shaped(env.inp, t) && !t.eof && Inv(st.heap)
    ensures var r := Statement(env, st, t);
            Sound(env.foreign, st.heap, r.st.heap, r.Going?)
  {
    match t.kind
    case String => KeyvalKept(env, st.heap, t, st.cur);
    case LBracket => SelectStatementKept(env, st, t);
    case _ =>
  }

  lemma SelectStatementKept(env: Env, st: State, t: Token)
    requires StateOk(st) && Shaped(env.inp, t) && t.kind == LBracket && Inv(st.heap)
    ensures Sound(env.foreign, st.heap, ParseSelect(env.inp, st, t).st.heap, true)
  {
    match Next(env.inp, t, true)
    case LexError(_) =>
    case Tok(u) =>
      NextOk(env.inp, t, true);
      if u.kind == LBracket {
        match Next(env.inp, u, true) {
          case LexError(_) =>
          case Tok(w) => NextOk(env.inp, u, true); EnterKept(env, st, w, true);
        }
      } else {
        EnterKept(env, st, u, false);
      }
  }

  lemma EnterKept(env: Env, st: State, t: Token, double: bool)
    requires StateOk(st) && Shaped(env.inp, t) && Inv(st.heap)
    ensures Sound(env.foreign, st.heap, FillAndEnter(env.inp, st, t, double).st.heap, true)
  {
    match FillPath(env.inp, t, t.lineno, [], [])
    case NoPath(_, _) =>
    case Path(names, toks, u) => SelectKept(env.foreign, st.heap, names, double);
  }

  lemma {:induction false} StatementsKept(env: Env, st: State, t: Token)
    requires StateOk(st) && Shaped(env.inp, t) && Inv(st.heap)
    ensures var r := Statements(env, st, t);
            Sound(env.foreign, st.heap, r.st.heap, r.Going?)
    decreases |env.inp| - t.ptr
  {
    if !t.eof {
      StatementKept(env, st, t);
      var r := Statement(env, st, t);
      if r.Going? {
        StatementsKept(env, r.st, r.tok);
      }
    }
  }

  /**
    * For every input: when parsing ends, in success or at any error, the document
    * is a tree in which every table's keys are distinct and every array's elements
    * lie in the arm its kind names, and freeing the root frees every node exactly
    * once. After success every value array is uniform, too.
    */
  lemma ParseKeepsDocument(env: Env)
    ensures var r := Parse(env);
            && Inv(r.st.heap) && r.st.cur < |r.st.heap|
            && (r.Going? ==> r.tok.eof && Uniform(env.foreign, r.st.heap))
            && Ownership.Ordered(r.st.heap)
            && multiset(Ownership.FreeOrder(r.st.heap, ROOT)) == multiset(seq(|r.st.heap|, i => i))
  {
    EmptyInv();
    assert Uniform(env.foreign, EMPTY);
    match Next(env.inp, START, true)
    case LexError(_) => Ownership.FreeIsExact(EMPTY);
    case Tok(t) =>
      NextOk(env.inp, START, true);
      StatementsKept(env, INITIAL, t);
      StatementsEnd(env, INITIAL, t);
      Ownership.FreeIsExact(Statements(env, INITIAL, t).st.heap);
  }

  lemma {:induction false} StatementsEnd(env: Env, st: State, t: Token)
    requires StateOk(st) && Shaped(env.inp, t)
    ensures Statements(env, st, t).Going? ==> Statements(env, st, t).tok.eof
    decreases |env.inp| - t.ptr
  {
    if !t.eof && Statement(env, st, t).Going? {
      StatementsEnd(env, Statement(env, st, t).st, Statement(env, st, t).tok);
    }
  }

  /**
    * A path crossing an array of tables goes on in its last element. The internal
    * error for an array of tables without elements is never raised.
    */
  lemma PathsCrossLastElement(s: Heap, cur: nat, path: seq<Str>, at: nat, id: nat)
    requires Inv(s) && cur < |s| && s[cur].Tab? && at < |path| && CheckKey(s, s[cur], path[at]) == FoundArr(id)
    ensures id < |s| && s[id].Arr?
    ensures s[id].kind == Tables ==>
              && s[id].elems != [] && s[id].elems[|s[id].elems| - 1].T?
              && s[id].elems[|s[id].elems| - 1].id < |s| && s[s[id].elems[|s[id].elems| - 1].id].Tab?
              && Walk(s, cur, path, at) == Walk(s, s[id].elems[|s[id].elems| - 1].id, path, at + 1)
    ensures s[id].kind != Tables ==> Walk(s, cur, path, at) == Blocked(s, at, InternalError)
  {
    assert NodeOk(s, cur, s[cur]);
    assert NodeOk(s, id, s[id]);
    if s[id].kind == Tables {
      assert SlotOk(s, id, s[id].kind, s[id].elems[|s[id].elems| - 1]);
    }
  }

  // ---- Tokens of length 0 ----

  /** A STRING that moves the tokenizer nowhere. */
  ghost predicate Stuck(inp: Str, t: Token) { TokenOk(inp, t) && t.kind.String? && t.len == 0 }

  lemma StuckComesAgain(inp: Str, t: Token, dot: bool)
    requires Stuck(inp, t)
    ensures Next(inp, t, dot) == Tok(t)
  {
    StuckTokens(inp, t, dot);
  }

  /** Wherever the parser meets a stuck token, it raises an error instead of meeting it for ever. */
  lemma StuckTokensFail(env: Env, st: State, t: Token, a: nat, line: nat, names: seq<Str>, toks: seq<Token>)
    requires StateOk(st) && Stuck(env.inp, t) && |names| == |toks| <= MAX_PATH
    ensures Statement(env, st, t).Raise?
    ensures ParseKeyval(env, st.heap, t, st.cur).Fail?
    ensures FillPath(env.inp, t, line, names, toks).NoPath?
    ensures ParseFields(env, st.heap, t, st.cur).Fail?
    ensures a < |st.heap| && st.heap[a].Arr? ==> ParseElems(env, st.heap, t, a).Fail?
  {
    StuckComesAgain(env.inp, t, false);
    StuckComesAgain(env.inp, t, true);
    if a < |st.heap| && st.heap[a].Arr? {
      StuckElementFails(env, st.heap, t, a);
    }
  }

  lemma StuckElementFails(env: Env, s: Heap, t: Token, a: nat)
    requires Stuck(env.inp, t) && a < |s| && s[a].Arr?
    ensures ParseElems(env, s, t, a).Fail?
  {
    StuckComesAgain(env.inp, t, false);
    var b := AppendScalar(env.foreign, s, a, Text(env.inp, t));
    assert NodeGrows(s[a], b.heap[a]);
    assert ElemsTail(env, b.heap, t, a) == Fail(b.heap, Error(SyntaxError, t.lineno));
  }

  /**
    * As the value of a key a stuck token is entered once, as an empty value; what
    * must follow the value then meets the same token, and raises an error.
    */
  lemma StuckValueFails(env: Env, s: Heap, key: Token, t: Token, i: nat, a: nat)
    requires Stuck(env.inp, t) && Shaped(env.inp, key) && key.kind.String? && i < |s| && s[i].Tab?
    ensures var b := CreateVal(s, i, Text(env.inp, key), []);
            ParseEntry(env, s, key, t, i) == if b.Done? then Ok(b.heap, t) else Fail(b.heap, Raised(b.why, key.lineno))
    ensures FieldsTail(env, s, t, i) == Fail(s, Error(SyntaxError, t.lineno))
    ensures a < |s| && s[a].Arr? ==> ElemsTail(env, s, t, a) == Fail(s, Error(SyntaxError, t.lineno))
  {
    assert Text(env.inp, t) == [];
    StuckTailFails(env, s, t, i, a);
  }

  lemma StuckTailFails(env: Env, s: Heap, t: Token, i: nat, a: nat)
    requires Stuck(env.inp, t)
    ensures Fetch(env.inp, s, t, false) == Ok(s, t)
    ensures i < |s| && s[i].Tab? ==> FieldsTail(env, s, t, i) == Fail(s, Error(SyntaxError, t.lineno))
    ensures a < |s| && s[a].Arr? ==> ElemsTail(env, s, t, a) == Fail(s, Error(SyntaxError, t.lineno))
  {
    StuckComesAgain(env.inp, t, false);
  }

  /** At the top level too: a key, `=` and a stuck token are an error. */
  lemma StuckStatementFails(env: Env, st: State, key: Token, eq: Token, t: Token)
    requires StateOk(st) && Shaped(env.inp, key) && key.kind.String? && !key.eof && Shaped(env.inp, eq)
    requires eq.kind == Equal
    requires Next(env.inp, key, false) == Tok(eq) && Next(env.inp, eq, false) == Tok(t) && Stuck(env.inp, t)
    ensures Statement(env, st, key).Raise?
  {
    StuckValueFails(env, st.heap, key, t, st.cur, 0);
  }
}
