/**
  * Exactly which inputs make `toml_parse` spin as it is written: those that end
  * inside an open bracket, at a place where newlines are allowed, with everything
  * before that in order.
  */
module Unclosed {
  import opened Bytes
  import opened Lexer
  import opened Store
  import opened Grammar
  import opened Parser
  import opened Document
  import opened Stops
  import Guarding
  import opened Language

  // ---- Spinning among the faults ----

  /** Inside a bracket the parser spins at the end of file, and at no other token. */
  lemma EndSpins(env: Env, st: Stop, u: Token)
    requires !env.guard && Shaped(env.inp, u) && StopOk(st)
    ensures u.eof ==> FaultAt(env, st, u) == Some(Fault(st.heap, Error(Spins, u.lineno)))
    ensures FaultAt(env, st, u).Some? && FaultAt(env, st, u).value.err.kind == Spins ==> u.eof
  {
    if st.at.AtField? && u.kind == Kind.String { KeyNeverSpins(env, st.heap, st.at.i, u); }
  }

  lemma KeyNeverSpins(env: Env, s: Heap, i: nat, key: Token)
    requires Shaped(env.inp, key) && i < |s| && s[i].Tab?
    ensures KeyFault(env, s, i, key).Some? ==> KeyFault(env, s, i, key).value.err.kind != Spins
  {
  }

  // ---- Whole documents ----

  /**
    * The input, from token `t` on, spells statements that execute, and then a key whose value is
    * cut off by the end of file.
    */
  ghost predicate CutOffAfter(env: Env, p: Place, t: Token, ss: seq<Stmt>, k: Str, o: OpenValue)
    requires PlaceOk(p)
  {
    && ReadAll(env.inp, t, ss).Some? && ExecAll(env.foreign, p, ss).Some?
    && var u, q := ReadAll(env.inp, t, ss).value, ExecAll(env.foreign, p, ss).value;
    && Read(env.inp, u, PrintOpenField(k, o)).Some? && Read(env.inp, u, PrintOpenField(k, o)).value.eof
    && EvalOpenField(env.foreign, q.heap, q.cur, k, o).Some?
  }

  lemma {:induction false} StatementsSpin(env: Env, st: State, t: Token, ss: seq<Stmt>, k: Str, o: OpenValue)
    requires !env.guard && StateOk(st) && Shaped(env.inp, t) && CutOffAfter(env, Place(st.heap, st.cur), t, ss, k, o)
    ensures Statements(env, st, t).Raise? && Statements(env, st, t).err.kind == Spins
    decreases |ss|
  {
    if ss == [] {
      var end := Read(env.inp, t, PrintOpenField(k, o)).value;
      var stop := EvalOpenField(env.foreign, st.heap, st.cur, k, o).value;
      EndSpins(env, stop, end);
      FieldStops(env, st.heap, t, st.cur, k, o, stop, end, Fault(stop.heap, Error(Spins, end.lineno)));
    } else {
      var u := ReadStmt(env.inp, t, ss[0]).value;
      StatementTaken(env, st, t, ss[0], u);
      StatementsSpin(env, Statement(env, st, t).st, u, ss[1..], k, o);
    }
  }

  lemma {:induction false} StatementsCutOff(env: Env, st: State, t: Token) returns (ss: seq<Stmt>, k: Str, o: OpenValue)
    requires !env.guard && StateOk(st) && Shaped(env.inp, t)
    requires Statements(env, st, t).Raise? && Statements(env, st, t).err.kind == Spins
    ensures CutOffAfter(env, Place(st.heap, st.cur), t, ss, k, o)
    decreases |env.inp| - t.ptr
  {
    var r := Statement(env, st, t);
    if r.Going? {
      var s := StatementGiven(env, st, t);
      var rest;
      rest, k, o := StatementsCutOff(env, r.st, r.tok);
      ss := [s] + rest;
      assert ss[1..] == rest;
    } else {
      if t.kind == LBracket { Guarding.SelectNeverSpins(env.inp, st, t); }
      var c := ParseKeyval(env, st.heap, t, st.cur);
      var here, end;
      here, k, o, end := FieldHalts(env, st.heap, t, st.cur, Fault(c.heap, c.err));
      if here {
        KeyNeverSpins(env, st.heap, st.cur, t);
      } else {
        EndSpins(env, EvalOpenField(env.foreign, st.heap, st.cur, k, o).value, end);
      }
      ss := [];
    }
  }

  /** The whole input spells statements that execute, and then a key whose value is cut off. */
  ghost predicate CutOff(env: Env, ss: seq<Stmt>, k: Str, o: OpenValue) {
    Next(env.inp, START, true).Tok? && CutOffAfter(env, Place(EMPTY, ROOT), Next(env.inp, START, true).tok, ss, k, o)
  }

  /** `toml_parse` as it is written spins on exactly the inputs that are cut off inside a value. */
  lemma SpinsExactlyWhenCutOff(env: Env)
    requires !env.guard
    ensures Parse(env).Raise? && Parse(env).err.kind == Spins <==> exists ss, k, o :: CutOff(env, ss, k, o)
  {
    if Next(env.inp, START, true).Tok? {
      NextOk(env.inp, START, true);
      var t := Next(env.inp, START, true).tok;
      if Parse(env).Raise? && Parse(env).err.kind == Spins {
        var ss, k, o := StatementsCutOff(env, INITIAL, t);
        assert CutOff(env, ss, k, o);
      }
      if exists ss, k, o :: CutOff(env, ss, k, o) {
        var ss, k, o :| CutOff(env, ss, k, o);
        StatementsSpin(env, INITIAL, t, ss, k, o);
      }
    }
  }
}
