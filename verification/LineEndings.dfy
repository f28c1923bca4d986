/** `kill_line_ending_backslash`: two in-place rounds over a literal string. */
module LineEndings {
  import opened Bytes

  /** Which line ending a round looks for after a backslash. */
  datatype Ending = Lf | CrLf | Either

  predicate Hit(s: Str, e: Ending) {
    && At(s, 0) == BACKSLASH
    && ((e != CrLf && At(s, 1) == LF) || (e != Lf && At(s, 1) == CR && At(s, 2) == LF))
  }

  /** The text without its leading white space. */
  function DropSpace(s: Str): (r: Str)
    ensures |r| <= |s|
  {
    if s != [] && IsSpace(s[0]) then DropSpace(s[1..]) else s
  }

  lemma {:induction false} DropSpaceShape(s: Str)
    ensures var r := DropSpace(s);
            && s == s[..|s| - |r|] + r
            && !IsSpace(At(r, 0))
            && forall i | 0 <= i < |s| - |r| :: IsSpace(s[i])
  {
    if s != [] && IsSpace(s[0]) {
      DropSpaceShape(s[1..]);
      var n := |s| - |DropSpace(s)|;
      assert s[..n] == [s[0]] + s[1..][..n - 1];
    }
  }

  /** One left-to-right pass: each hit goes, with the white space that follows it. */
  function Pass(s: Str, e: Ending): (r: Str)
    ensures |r| <= |s|
    decreases |s|
  {
    if s == [] then []
    else if Hit(s, e) then Pass(DropSpace(s[1..]), e)
    else [s[0]] + Pass(s[1..], e)
  }

  ghost predicate NoHit(s: Str, e: Ending) {
    forall i | 0 <= i <= |s| :: !Hit(s[i..], e)
  }

  // ---- The two rounds are one pass ----

  /** A pass keeps a first byte that is neither white space nor the start of a hit; it never uncovers white space. */
  lemma {:induction false} FirstByte(s: Str, e: Ending)
    ensures !IsSpace(At(s, 0)) ==> !IsSpace(At(Pass(s, e), 0))
    ensures s != [] && IsSpace(s[0]) ==> Pass(s, e) == [s[0]] + Pass(s[1..], e)
    decreases |s|
  {
    if s != [] && Hit(s, e) {
      DropSpaceShape(s[1..]);
      FirstByte(DropSpace(s[1..]), e);
    }
  }

  /** Where a text starts with no hit, no pass over the rest makes one there. */
  lemma NoNewHit(s: Str, e: Ending, e': Ending)
    requires s != [] && !Hit(s, e')
    ensures !Hit([s[0]] + Pass(s[1..], e), e')
  {
    var t := s[1..];
    var r := [s[0]] + Pass(t, e);
    assert forall i: nat :: At(s, i + 1) == At(t, i) && At(r, i + 1) == At(Pass(t, e), i);
    assert At(r, 1) == At(r, 0 + 1) && At(r, 2) == At(r, 1 + 1) && At(s, 1) == At(s, 0 + 1) && At(s, 2) == At(s, 1 + 1);
    FirstByte(t, e);
    if t != [] && t[0] == CR {
      FirstByte(t[1..], e);
      assert At(t, 1) == At(t[1..], 0) && At(Pass(t, e), 1) == At(Pass(t[1..], e), 0);
    }
  }

  /** Over white space a pass only copies. */
  lemma {:induction false} PassOverSpace(w: Str, s: Str, e: Ending)
    requires forall i | 0 <= i < |w| :: IsSpace(w[i])
    ensures Pass(w + s, e) == w + Pass(s, e)
  {
    if w == [] {
      assert w + s == s;
    } else {
      assert (w + s)[1..] == w[1..] + s;
      PassOverSpace(w[1..], s, e);
    }
  }

  lemma {:induction false} DropSpaceOf(w: Str, s: Str)
    requires forall i | 0 <= i < |w| :: IsSpace(w[i])
    requires !IsSpace(At(s, 0))
    ensures DropSpace(w + s) == s
  {
    if w == [] {
      assert w + s == s;
    } else {
      assert (w + s)[1..] == w[1..] + s;
      DropSpaceOf(w[1..], s);
    }
  }

  /** First LF, then CR LF, is the same as both in a single pass. */
  lemma {:induction false} TwoRoundsAreOnePass(s: Str)
    ensures Pass(Pass(s, Lf), CrLf) == Pass(s, Either)
    decreases |s|
  {
    if s == [] {
    } else if Hit(s, Lf) {
      TwoRoundsAreOnePass(DropSpace(s[1..]));
    } else if Hit(s, CrLf) {
      var d := DropSpace(s[1..]);
      var w := s[1..][..|s| - 1 - |d|];
      DropSpaceShape(s[1..]);
      PassOverSpace(w, d, Lf);
      FirstByte(d, Lf);
      var r := Pass(s, Lf);
      assert r == [BACKSLASH] + (w + Pass(d, Lf));
      assert s[1..][0] == CR && s[1..][1] == LF;
      assert |w| >= 2 && w[0] == CR && w[1] == LF;
      assert Hit(r, CrLf);
      assert r[1..] == w + Pass(d, Lf);
      DropSpaceOf(w, Pass(d, Lf));
      TwoRoundsAreOnePass(d);
    } else {
      TwoRoundsAreOnePass(s[1..]);
      NoNewHit(s, Lf, CrLf);
      var r := [s[0]] + Pass(s[1..], Lf);
      assert r[1..] == Pass(s[1..], Lf);
    }
  }

  /** Nothing is left for a second pass ... */
  lemma {:induction false} PassLeavesNoHit(s: Str)
    ensures NoHit(Pass(s, Either), Either)
    decreases |s|
  {
    if s == [] {
    } else if Hit(s, Either) {
      PassLeavesNoHit(DropSpace(s[1..]));
    } else {
      var r := Pass(s, Either);
      PassLeavesNoHit(s[1..]);
      NoNewHit(s, Either, Either);
      forall i | 0 <= i <= |r| ensures !Hit(r[i..], Either) {
        if i > 0 {
          assert r[i..] == Pass(s[1..], Either)[i - 1..];
        } else {
          assert r[0..] == r;
        }
      }
    }
  }

  lemma {:induction false} PassKeeps(s: Str, e: Ending)
    requires NoHit(s, e)
    ensures Pass(s, e) == s
  {
    if s != [] {
      assert s[0..] == s;
      forall i | 0 <= i <= |s[1..]| ensures !Hit(s[1..][i..], e) {
        assert s[1..][i..] == s[i + 1..];
      }
      PassKeeps(s[1..], e);
    }
  }

  /** ... so killing line endings twice is killing them once. */
  lemma PassIsIdempotent(s: Str)
    ensures Pass(Pass(s, Either), Either) == Pass(s, Either)
  {
    PassLeavesNoHit(s);
    PassKeeps(Pass(s, Either), Either);
  }

  // ---- In place ----

  /** What one step of the loop does to its invariant `done + Pass(rest, e)`. */
  lemma PassStep(done: Str, rest: Str, e: Ending)
    requires rest != []
    ensures Hit(rest, e) ==> done + Pass(rest, e) == done + Pass(DropSpace(rest[1..]), e)
    ensures !Hit(rest, e) ==> done + Pass(rest, e) == done + [rest[0]] + Pass(rest[1..], e)
  {
    if !Hit(rest, e) {
      Assoc(done, [rest[0]], Pass(rest[1..], e));
    }
  }

  /** `strspn` over white space. */
  method SkipSpaces(a: array<Byte>, q0: nat, n: nat) returns (q: nat)
    requires q0 <= n <= a.Length
    ensures q0 <= q <= n
    ensures DropSpace(a[q0..n]) == a[q..n]
  {
    q := q0;
    while q < n && IsSpace(a[q])
      invariant q0 <= q <= n
      invariant DropSpace(a[q..n]) == DropSpace(a[q0..n])
    {
      assert a[q..n][1..] == a[q + 1..n];
      q := q + 1;
    }
  }

  /** One `strstr` loop; `n` is the length of the string in `a`, whose NUL moves with it. */
  method KillRound(a: array<Byte>, n0: nat, e: Ending) returns (n: nat)
    requires n0 < a.Length && a[n0] == NUL
    modifies a
    ensures n <= n0 && a[n] == NUL
    ensures a[..n] == Pass(old(a[..n0]), e)
  {
    n := n0;
    var p := 0;
    ghost var done: Str, rest: Str := [], a[..n0];
    while p < n
      invariant p <= n <= n0 && a[n] == NUL
      invariant a[..p] == done && a[p..n] == rest
      invariant done + Pass(rest, e) == Pass(old(a[..n0]), e)
      decreases n - p
    {
      PassStep(done, rest, e);
      assert a[p + 1..n] == rest[1..];
      if Hit(a[p..n], e) {
        var q := SkipSpaces(a, p + 1, n);
        n := MoveDown(a, p, q, n);
        rest := DropSpace(rest[1..]);
      } else {
        done, rest := done + [rest[0]], rest[1..];
        p := p + 1;
      }
    }
    assert a[..n] == done + Pass(rest, e);
  }

  /** `memmove(a + p, a + q, n - q + 1)`: the tail of the string, NUL included. */
  method MoveDown(a: array<Byte>, p: nat, q: nat, n0: nat) returns (n: nat)
    requires p < q <= n0 < a.Length && a[n0] == NUL
    modifies a
    ensures n == n0 - (q - p) && a[n] == NUL
    ensures a[..p] == old(a[..p]) && a[p..n] == old(a[q..n0])
  {
    for i := 0 to n0 - q + 1
      invariant a[..p] == old(a[..p])
      invariant a[p..p + i] == old(a[q..n0 + 1])[..i]
      invariant forall j | q + i <= j <= n0 :: a[j] == old(a[j])
    {
      a[p + i] := a[q + i];
      assert a[p..p + i + 1] == a[p..p + i] + [a[p + i]];
    }
    n := n0 - (q - p);
    assert a[p..n + 1] == old(a[q..n0 + 1]);
    assert a[n] == a[p..n + 1][n - p];
    assert a[p..n] == a[p..n + 1][..n - p] == old(a[q..n0 + 1])[..n0 - q];
  }

  method KillLineEndingBackslash(a: array<Byte>, n0: nat) returns (n: nat)
    requires n0 < a.Length && a[n0] == NUL
    modifies a
    ensures n <= n0 && a[n] == NUL
    ensures a[..n] == Pass(old(a[..n0]), Either)
  {
    ghost var s := a[..n0];
    n := KillRound(a, n0, Lf);
    n := KillRound(a, n, CrLf);
    TwoRoundsAreOnePass(s);
  }
}
