/**
  * SKIP_NEWLINES as it is written, which does not test for the end of file, and
  * with that test: where the written loop never ends, and what the test changes.
  */
module Spinning {
  import opened Bytes
  import opened Lexer
  import opened Grammar
  import opened Parser

  // ---- The loop, one token at a time ----

  /** The loop's test holds after `n` rounds. */
  ghost predicate NewlineAt(inp: Str, t: Token, n: nat)
    requires Within(inp, t)
  {
    SkipSteps(inp, t, n).Tok? && SkipSteps(inp, t, n).tok.kind == Newline
  }

  /** The loop ends after `n` rounds, at `r`: a token that is no NEWLINE, or a lexical error. */
  ghost predicate EndsIn(inp: Str, t: Token, n: nat, r: Lexed)
    requires Within(inp, t)
  {
    SkipSteps(inp, t, n) == r && (r.Tok? ==> r.tok.kind != Newline) && forall k: nat | k < n :: NewlineAt(inp, t, k)
  }

  ghost predicate Ends(inp: Str, t: Token, r: Lexed)
    requires Within(inp, t)
  {
    exists n: nat :: EndsIn(inp, t, n, r)
  }

  lemma {:induction false} SkipStepsShift(inp: Str, t: Token, u: Token, n: nat)
    requires Within(inp, t) && Next(inp, t, false) == Tok(u)
    ensures SkipSteps(inp, t, n + 1) == SkipSteps(inp, u, n)
  {
    if n == 0 {
      assert SkipSteps(inp, t, 0) == Tok(t);
    } else {
      SkipStepsShift(inp, t, u, n - 1);
      OneStep(inp, t, n);
      OneStep(inp, u, n - 1);
    }
  }

  lemma OneStep(inp: Str, t: Token, n: nat)
    requires Within(inp, t)
    ensures SkipSteps(inp, t, n + 1) == match SkipSteps(inp, t, n)
                                        case LexError(l) => LexError(l)
                                        case Tok(u) => Next(inp, u, false)
  {
  }

  /** A round of the loop: it ends from here as from the next token. */
  lemma EndsShift(inp: Str, t: Token, u: Token, r: Lexed)
    requires Within(inp, t) && t.kind == Newline && Next(inp, t, false) == Tok(u)
    ensures Ends(inp, t, r) <==> Ends(inp, u, r)
  {
    assert SkipSteps(inp, t, 0) == Tok(t);
    if Ends(inp, t, r) {
      var n: nat :| EndsIn(inp, t, n, r);
      assert n > 0;
      forall k: nat | k < n ensures SkipSteps(inp, t, k + 1) == SkipSteps(inp, u, k) { SkipStepsShift(inp, t, u, k); }
      forall k: nat | k < n - 1 ensures NewlineAt(inp, u, k) { assert NewlineAt(inp, t, k + 1); }
      assert EndsIn(inp, u, n - 1, r);
    }
    if Ends(inp, u, r) {
      var n: nat :| EndsIn(inp, u, n, r);
      forall k: nat | k <= n ensures SkipSteps(inp, t, k + 1) == SkipSteps(inp, u, k) { SkipStepsShift(inp, t, u, k); }
      forall k: nat | k < n + 1 ensures NewlineAt(inp, t, k) {
        if k > 0 { assert NewlineAt(inp, u, k - 1); }
      }
      assert EndsIn(inp, t, n + 1, r);
    }
  }

  /** What the loop ended at, as a token or a lexical error. */
  function Outcome(s: Skipped): Option<Lexed> {
    match s
    case To(u) => Some(Tok(u))
    case Halt(e) => if e.kind == SyntaxError then Some(LexError(e.line)) else None
  }

  /** The written loop ends exactly where the model says, and there only. */
  lemma {:induction false} WrittenLoopEnds(env: Env, t: Token, r: Lexed)
    requires !env.guard && TokenOk(env.inp, t)
    ensures Outcome(SkipNewlines(env, t)) == Some(r) <==> Ends(env.inp, t, r)
    decreases |env.inp| - t.ptr
  {
    assert SkipSteps(env.inp, t, 0) == Tok(t);
    if t.kind != Newline {
      assert Tok(t) == r ==> EndsIn(env.inp, t, 0, r);
      forall n: nat | EndsIn(env.inp, t, n, r) ensures n == 0 { assert n > 0 ==> NewlineAt(env.inp, t, 0); }
    } else if t.eof {
      forall n: nat ensures !EndsIn(env.inp, t, n, r) { UnguardedSkipSpins(env.inp, t, n); }
    } else if Next(env.inp, t, false).LexError? {
      ErrorAtOnce(env.inp, t, r);
    } else {
      NextOk(env.inp, t, false);
      var u := Next(env.inp, t, false).tok;
      WrittenLoopEnds(env, u, r);
      EndsShift(env.inp, t, u, r);
    }
  }

  lemma ErrorAtOnce(inp: Str, t: Token, r: Lexed)
    requires Within(inp, t) && t.kind == Newline && Next(inp, t, false).LexError?
    ensures Ends(inp, t, r) <==> r == Next(inp, t, false)
  {
    assert SkipSteps(inp, t, 0) == Tok(t);
    assert SkipSteps(inp, t, 1) == Next(inp, t, false);
    if r == Next(inp, t, false) {
      assert EndsIn(inp, t, 1, r);
    }
    forall n: nat | EndsIn(inp, t, n, r) ensures n == 1 {
      assert n > 1 ==> NewlineAt(inp, t, 1);
    }
  }

  // ---- Where it never ends ----

  /** From here on there are newlines, and then the end of file. */
  ghost predicate RunsOut(inp: Str, t: Token, n: nat) {
    Read(inp, t, Lines(n)).Some? && Read(inp, t, Lines(n)).value.eof
  }

  /** The first of some lines. */
  lemma OneLine(inp: Str, t: Token, n: nat)
    requires Shaped(inp, t) && !t.eof
    ensures Read(inp, t, Lines(n)) ==
            if n == 0 then Some(t)
            else if t.kind == Newline && Next(inp, t, false).Tok? then Read(inp, Next(inp, t, false).tok, Lines(n - 1))
            else None
  {
    if n > 0 { ReadOne(inp, t, NL, Lines(n - 1)); }
  }

  /** The written loop never ends if and only if it stands before newlines and the end of file. */
  lemma {:induction false} SpinsBeforeEof(inp: Str, t: Token)
    requires TokenOk(inp, t)
    ensures (forall n: nat :: NewlineAt(inp, t, n)) <==> exists n: nat :: RunsOut(inp, t, n)
    decreases |inp| - t.ptr
  {
    assert SkipSteps(inp, t, 0) == Tok(t);
    if t.eof {
      forall n: nat ensures NewlineAt(inp, t, n) { UnguardedSkipSpins(inp, t, n); }
      assert RunsOut(inp, t, 0);
    } else {
      forall n: nat { OneLine(inp, t, n); }
      if t.kind != Newline {
        assert !NewlineAt(inp, t, 0);
      } else if Next(inp, t, false).LexError? {
        assert SkipSteps(inp, t, 1) == Next(inp, t, false);
        assert !NewlineAt(inp, t, 1);
      } else {
        NextOk(inp, t, false);
        SpinShift(inp, t, Next(inp, t, false).tok);
        SpinsBeforeEof(inp, Next(inp, t, false).tok);
        OutShift(inp, t, Next(inp, t, false).tok);
      }
    }
  }

  lemma SpinShift(inp: Str, t: Token, u: Token)
    requires Within(inp, t) && t.kind == Newline && Next(inp, t, false) == Tok(u)
    ensures (forall n: nat :: NewlineAt(inp, t, n)) <==> (forall n: nat :: NewlineAt(inp, u, n))
  {
    forall n: nat ensures NewlineAt(inp, t, n + 1) <==> NewlineAt(inp, u, n) { SkipStepsShift(inp, t, u, n); }
    if forall n: nat :: NewlineAt(inp, t, n) {
      forall n: nat ensures NewlineAt(inp, u, n) { assert NewlineAt(inp, t, n + 1); }
    }
    if forall n: nat :: NewlineAt(inp, u, n) {
      assert SkipSteps(inp, t, 0) == Tok(t);
      forall n: nat ensures NewlineAt(inp, t, n) {
        if n > 0 { assert NewlineAt(inp, u, n - 1); assert NewlineAt(inp, t, n - 1 + 1); }
      }
    }
  }

  lemma OutShift(inp: Str, t: Token, u: Token)
    requires Within(inp, t) && t.kind == Newline && !t.eof && Next(inp, t, false) == Tok(u)
    requires forall n: nat :: RunsOut(inp, t, n) <==> n > 0 && RunsOut(inp, u, n - 1)
    ensures (exists n: nat :: RunsOut(inp, t, n)) <==> (exists n: nat :: RunsOut(inp, u, n))
  {
    if exists n: nat :: RunsOut(inp, t, n) {
      var n: nat :| RunsOut(inp, t, n);
      assert RunsOut(inp, u, n - 1);
    }
    if exists n: nat :: RunsOut(inp, u, n) {
      var n: nat :| RunsOut(inp, u, n);
      assert RunsOut(inp, t, n + 1);
    }
  }

  predicate SkipSpins(s: Skipped) { s.Halt? && s.err.kind == Spins }

  /**
    * The model marks exactly the tokens from which the written loop never ends; with the guard, the
    * loop stops at the end of file instead.
    */
  lemma {:induction false} SpinsAreMarked(env: Env, t: Token)
    requires !env.guard && Shaped(env.inp, t)
    ensures SkipSpins(SkipNewlines(env, t)) <==> exists n: nat :: RunsOut(env.inp, t, n)
    ensures var g := SkipNewlines(env.(guard := true), t);
            if SkipSpins(SkipNewlines(env, t)) then
              g.To? && g.tok.eof && g.tok.lineno == SkipNewlines(env, t).err.line
              && exists n: nat :: Read(env.inp, t, Lines(n)) == Some(g.tok)
            else g == SkipNewlines(env, t)
    decreases |env.inp| - t.ptr
  {
    if t.eof {
      assert RunsOut(env.inp, t, 0) && Read(env.inp, t, Lines(0)) == Some(t);
    } else {
      forall n: nat { OneLine(env.inp, t, n); }
      if t.kind == Newline && Next(env.inp, t, false).Tok? {
        NextOk(env.inp, t, false);
        var u := Next(env.inp, t, false).tok;
        SpinsAreMarked(env, u);
        OutShift(env.inp, t, u);
        if SkipSpins(SkipNewlines(env, t)) {
          var n: nat :| Read(env.inp, u, Lines(n)) == Some(SkipNewlines(env.(guard := true), u).tok);
          assert Read(env.inp, t, Lines(n + 1)) == Some(SkipNewlines(env.(guard := true), t).tok);
        }
      }
    }
  }
}
