/**
  * What the missing test for the end of file costs: with it, every run that would
  * never end is the syntax error the code after the loops raises, and every other
  * run is as it was.
  */
module Guarding {
  import opened Bytes
  import opened Lexer
  import opened Store
  import opened Eval
  import opened Parser
  import opened Document
  import opened Spinning

  function Guarded(env: Env): Env { env.(guard := true) }

  /** Spinning as the syntax error it should be; anything else as it is. */
  function Mended(e: Error): Error { if e.kind == Spins then Error(SyntaxError, e.line) else e }

  function MendedStep(r: Parsed): Parsed { match r case Fail(h, e) => Fail(h, Mended(e)) case _ => r }

  function MendedRun(r: Result): Result { match r case Raise(st, e) => Raise(st, Mended(e)) case _ => r }

  lemma {:induction false} ElemsMended(env: Env, s: Heap, t: Token, a: nat)
    requires !env.guard && Shaped(env.inp, t) && a < |s| && s[a].Arr?
    ensures ParseElems(Guarded(env), s, t, a) == MendedStep(ParseElems(env, s, t, a))
    decreases |env.inp| - t.ptr, 3
  {
    SpinsAreMarked(env, t);
    if SkipNewlines(env, t).To? {
      var t1 := SkipNewlines(env, t).tok;
      if t1.kind != RBracket {
        ElemMended(env, s, t1, a);
        var r := ParseElem(env, s, t1, a);
        if r.Ok? {
          assert NodeGrows(s[a], r.heap[a]);
          ElemsTailMended(env, r.heap, r.tok, a);
        }
      }
    }
  }

  lemma {:induction false} ElemsTailMended(env: Env, s: Heap, t: Token, a: nat)
    requires !env.guard && Shaped(env.inp, t) && a < |s| && s[a].Arr?
    ensures ElemsTail(Guarded(env), s, t, a) == MendedStep(ElemsTail(env, s, t, a))
    decreases |env.inp| - t.ptr, 1
  {
    SpinsAreMarked(env, t);
    if SkipNewlines(env, t).To? && SkipNewlines(env, t).tok.kind == Kind.Comma {
      var c := Fetch(env.inp, s, SkipNewlines(env, t).tok, false);
      if c.Ok? { ElemsMended(env, s, c.tok, a); }
    }
  }

  lemma {:induction false} ElemMended(env: Env, s: Heap, t: Token, a: nat)
    requires !env.guard && Shaped(env.inp, t) && a < |s| && s[a].Arr?
    ensures ParseElem(Guarded(env), s, t, a) == MendedStep(ParseElem(env, s, t, a))
    decreases |env.inp| - t.ptr, 2
  {
    if t.kind == LBracket && AppendArray(s, a).Done? {
      var b := AppendArray(s, a);
      var c := Fetch(env.inp, b.heap, t, false);
      if c.Ok? { ElemsMended(env, c.heap, c.tok, b.id); }
    } else if t.kind == LBrace && AppendTable(s, a).Done? {
      var b := AppendTable(s, a);
      var c := Fetch(env.inp, b.heap, t, false);
      if c.Ok? { FieldsMended(env, c.heap, c.tok, b.id); }
    }
  }

  lemma {:induction false} FieldsMended(env: Env, s: Heap, t: Token, i: nat)
    requires !env.guard && Shaped(env.inp, t) && i < |s| && s[i].Tab?
    ensures ParseFields(Guarded(env), s, t, i) == MendedStep(ParseFields(env, s, t, i))
    decreases |env.inp| - t.ptr, 3
  {
    SpinsAreMarked(env, t);
    if SkipNewlines(env, t).To? {
      var t1 := SkipNewlines(env, t).tok;
      if t1.kind == String {
        KeyvalMended(env, s, t1, i);
        var r := ParseKeyval(env, s, t1, i);
        if r.Ok? {
          assert NodeGrows(s[i], r.heap[i]);
          FieldsTailMended(env, r.heap, r.tok, i);
        }
      }
    }
  }

  lemma {:induction false} FieldsTailMended(env: Env, s: Heap, t: Token, i: nat)
    requires !env.guard && Shaped(env.inp, t) && i < |s| && s[i].Tab?
    ensures FieldsTail(Guarded(env), s, t, i) == MendedStep(FieldsTail(env, s, t, i))
    decreases |env.inp| - t.ptr, 1
  {
    SpinsAreMarked(env, t);
    if SkipNewlines(env, t).To? && SkipNewlines(env, t).tok.kind == Kind.Comma {
      var c := Fetch(env.inp, s, SkipNewlines(env, t).tok, false);
      if c.Ok? { FieldsMended(env, s, c.tok, i); }
    }
  }

  lemma {:induction false} KeyvalMended(env: Env, s: Heap, t: Token, i: nat)
    requires !env.guard && Shaped(env.inp, t) && t.kind == String && i < |s| && s[i].Tab?
    ensures ParseKeyval(Guarded(env), s, t, i) == MendedStep(ParseKeyval(env, s, t, i))
    decreases |env.inp| - t.ptr, 2
  {
    var c := Fetch(env.inp, s, t, false);
    if c.Ok? && c.tok.kind == Equal {
      var d := Fetch(env.inp, s, c.tok, false);
      if d.Ok? { EntryMended(env, s, t, d.tok, i); }
    }
  }

  lemma {:induction false} EntryMended(env: Env, s: Heap, key: Token, t: Token, i: nat)
    requires !env.guard && Shaped(env.inp, key) && key.kind == String && Shaped(env.inp, t) && i < |s| && s[i].Tab?
    ensures ParseEntry(Guarded(env), s, key, t, i) == MendedStep(ParseEntry(env, s, key, t, i))
    decreases |env.inp| - t.ptr, 2
  {
    var k := Text(env.inp, key);
    if t.kind == LBracket && CreateArray(s, i, k).Done? {
      var b := CreateArray(s, i, k);
      var c := Fetch(env.inp, b.heap, t, false);
      if c.Ok? { ElemsMended(env, c.heap, c.tok, b.id); }
    } else if t.kind == LBrace && CreateTable(s, i, k).Done? {
      var b := CreateTable(s, i, k);
      var c := Fetch(env.inp, b.heap, t, false);
      if c.Ok? { FieldsMended(env, c.heap, c.tok, b.id); }
    }
  }

  // ---- Whole runs ----

  lemma {:induction false} PathNeverSpins(inp: Str, t: Token, line: nat, names: seq<Str>, toks: seq<Token>)
    requires Shaped(inp, t) && |names| == |toks| <= MAX_PATH
    ensures var p := FillPath(inp, t, line, names, toks); p.NoPath? ==> p.err.kind != Spins
    decreases |inp| - t.ptr
  {
    if |names| < MAX_PATH && t.kind == String && Keys.KeyOf(Text(inp, t)).Key? && Next(inp, t, true).Tok? {
      NextOk(inp, t, true);
      var u := Next(inp, t, true).tok;
      if u.kind == Kind.Dot && Next(inp, u, true).Tok? {
        NextOk(inp, u, true);
        PathNeverSpins(inp, Next(inp, u, true).tok, line, names + [Keys.KeyOf(Text(inp, t)).name], toks + [t]);
      }
    }
  }

  lemma {:induction false} WalkNeverSpins(s: Heap, cur: nat, path: seq<Str>, at: nat)
    requires cur < |s| && s[cur].Tab? && at <= |path|
    ensures var w := Walk(s, cur, path, at); w.Blocked? ==> w.why != Spins
    decreases |path| - at
  {
    if at < |path| {
      match CheckKey(s, s[cur], path[at])
      case FoundTab(id) => if id < |s| && s[id].Tab? { WalkNeverSpins(s, id, path, at + 1); }
      case FoundArr(id) => if LastTable(s, id).Some? { WalkNeverSpins(s, LastTable(s, id).value, path, at + 1); }
      case FoundVal(_) =>
      case Absent => WalkNeverSpins(AddTab(s, cur, path[at], true), |s|, path, at + 1);
    }
  }

  lemma CloseNeverSpins(inp: Str, st: State, t: Token, double: bool)
    requires Shaped(inp, t) && t.kind == RBracket
    ensures var r := CloseHeader(inp, st, t, double); r.Raise? ==> r.err.kind != Spins
  {
  }

  lemma FillAndEnterNeverSpins(inp: Str, st: State, t: Token, double: bool)
    requires StateOk(st) && Shaped(inp, t)
    ensures var r := FillAndEnter(inp, st, t, double); r.Raise? ==> r.err.kind != Spins
  {
    PathNeverSpins(inp, t, t.lineno, [], []);
    var p := FillPath(inp, t, t.lineno, [], []);
    if p.Path? {
      WalkNeverSpins(st.heap, ROOT, p.names[..|p.names| - 1], 0);
      var sel := if double then SelectElement(st.heap, p.names) else SelectTable(st.heap, p.names);
      if sel.Current? {
        CloseNeverSpins(inp, State(sel.heap, sel.id, p.names[..|p.names| - 1]), p.tok, double);
      }
    }
  }

  /** No header spins. */
  lemma SelectNeverSpins(inp: Str, st: State, t: Token)
    requires StateOk(st) && Shaped(inp, t) && t.kind == LBracket
    ensures var r := ParseSelect(inp, st, t); r.Raise? ==> r.err.kind != Spins
  {
    if Next(inp, t, true).Tok? {
      NextOk(inp, t, true);
      var u := Next(inp, t, true).tok;
      FillAndEnterNeverSpins(inp, st, u, false);
      if u.kind == LBracket && Next(inp, u, true).Tok? {
        NextOk(inp, u, true);
        FillAndEnterNeverSpins(inp, st, Next(inp, u, true).tok, true);
      }
    }
  }

  lemma StatementMended(env: Env, st: State, t: Token)
    requires !env.guard && StateOk(st) && Shaped(env.inp, t) && !t.eof
    ensures Statement(Guarded(env), st, t) == MendedRun(Statement(env, st, t))
  {
    if t.kind == String {
      KeyvalMended(env, st.heap, t, st.cur);
    } else if t.kind == LBracket {
      SelectNeverSpins(env.inp, st, t);
    }
  }

  lemma {:induction false} StatementsMended(env: Env, st: State, t: Token)
    requires !env.guard && StateOk(st) && Shaped(env.inp, t)
    ensures Statements(Guarded(env), st, t) == MendedRun(Statements(env, st, t))
    decreases |env.inp| - t.ptr
  {
    if !t.eof {
      StatementMended(env, st, t);
      var r := Statement(env, st, t);
      if r.Going? { StatementsMended(env, r.st, r.tok); }
    }
  }

  /**
    * `toml_parse` with the test: where it would spin without, it raises a syntax
    * error on the last line, with the same document; otherwise nothing changes.
    */
  lemma ParseMended(env: Env)
    requires !env.guard
    ensures Parse(Guarded(env)) == MendedRun(Parse(env))
  {
    if Next(env.inp, START, true).Tok? {
      NextOk(env.inp, START, true);
      StatementsMended(env, INITIAL, Next(env.inp, START, true).tok);
    }
  }

  // ---- With the test, no run spins ----

  /** With the test every run ends in a document or a real error. */
  lemma GuardedParseEnds(env: Env)
    requires env.guard
    ensures Parse(env).Raise? ==> Parse(env).err.kind != Spins
  {
    ParseMended(env.(guard := false));
    assert Guarded(env.(guard := false)) == env;
  }

  // ---- A run that never ends ----

  const X: Byte := 120

  const OPEN: Str := [X, EQUALS, LBRACKET]

  lemma OpenTokens()
    ensures Next(OPEN, START, true) == Tok(Token(String, 1, 0, 1, false))
    ensures Next(OPEN, Token(String, 1, 0, 1, false), false) == Tok(Token(Equal, 1, 1, 1, false))
    ensures Next(OPEN, Token(Equal, 1, 1, 1, false), false) == Tok(Token(LBracket, 1, 2, 1, false))
    ensures Next(OPEN, Token(LBracket, 1, 2, 1, false), false) == Tok(Token(Newline, 1, 3, 0, true))
  {
    assert OPEN[0..0] == [] && OPEN[0..1] == [X] && OPEN[1..2] == [EQUALS] && OPEN[2..3] == [LBRACKET];
    assert ScanBare(OPEN, 1, true) == 1 && ScanBare(OPEN, 0, true) == 1;
  }

  /** `x=[` makes `toml_parse` spin, and is a syntax error with the test. */
  lemma OpenBracketSpins(f: Foreign)
    ensures var env := Env(OPEN, f, false);
            && Parse(env).Raise? && Parse(env).err == Error(Spins, 1)
            && Parse(Guarded(env)).Raise? && Parse(Guarded(env)).err == Error(SyntaxError, 1)
  {
    var env := Env(OPEN, f, false);
    var key, eq, open := Token(String, 1, 0, 1, false), Token(Equal, 1, 1, 1, false), Token(LBracket, 1, 2, 1, false);
    var end := Token(Newline, 1, 3, 0, true);
    OpenTokens();
    assert Text(OPEN, key) == [X];
    assert Keys.KeyOf([X]) == Keys.Key([X]) by { assert Cut([X]) == [X]; }
    assert CheckKey(EMPTY, EMPTY[ROOT], [X]).Absent?;
    var b := CreateArray(EMPTY, ROOT, [X]);
    assert ParseElems(env, b.heap, end, b.id) == Fail(b.heap, Error(Spins, 1));
    assert ParseEntry(env, EMPTY, key, open, ROOT) == Fail(b.heap, Error(Spins, 1));
    assert ParseKeyval(env, EMPTY, key, ROOT) == Fail(b.heap, Error(Spins, 1));
    assert Statements(env, INITIAL, key).Raise? && Statements(env, INITIAL, key).err == Error(Spins, 1);
    ParseMended(env);
  }
}
