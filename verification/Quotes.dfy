/** Which texts after three double quotes are scanned as a string, and where it ends. */
module Quotes {
  import opened Bytes
  import opened Lexer
  import opened Strings

  /** A unit the scanner passes over; a backslash may stand before a newline. */
  predicate MultiOk(u: Unit) { EscapeOk(u) || u == Escaped(10) }

  /** How many double quotes have been counted: escapes leave the count alone, and other bytes reset it. */
  function Counted(k: nat, u: Unit): nat {
    match u
    case Plain(b) => if b == 34 then k + 1 else 0
    case _ => k
  }

  /** The units up to the one that brings the count to three. */
  predicate Closes(k: nat, us: seq<Unit>)
    decreases |us|
  {
    if k == 3 then us == [] else us != [] && MultiOk(us[0]) && Closes(Counted(k, us[0]), us[1..])
  }

  lemma {:induction false} MultiHex(inp: Str, p: nat, n: nat, k: nat)
    requires p <= |inp| && k < 3
    ensures ScanMulti(inp, p, false, n, k).Some? ==> p + n <= |inp| && forall i | p <= i < p + n :: IsHex(inp[i])
    ensures p + n <= |inp| && (forall i | p <= i < p + n :: IsHex(inp[i])) ==>
              ScanMulti(inp, p, false, n, k) == ScanMulti(inp, p + n, false, 0, k)
    decreases n
  {
    if n > 0 && p < |inp| && IsHex(inp[p]) {
      MultiHex(inp, p + 1, n - 1, k);
    }
  }

  lemma FirstTwo(inp: Str, p: nat, u: Unit)
    requires LiesAt(inp, p, Spell(u))
    ensures inp[p] == Spell(u)[0] && (!u.Plain? ==> |Spell(u)| >= 2 && inp[p + 1] == Spell(u)[1])
  {
    var s := inp[p..p + |Spell(u)|];
    assert inp[p] == s[0];
    if !u.Plain? { assert inp[p + 1] == s[1]; }
  }

  /** From the start of a unit the scanner goes to its end. */
  lemma MultiUnit(inp: Str, p: nat, u: Unit, k: nat)
    requires MultiOk(u) && LiesAt(inp, p, Spell(u)) && k < 3
    ensures ScanMulti(inp, p, false, 0, k) == ScanMulti(inp, p + |Spell(u)|, false, 0, Counted(k, u))
  {
    FirstTwo(inp, p, u);
    if !u.Plain? {
      assert ScanMulti(inp, p, false, 0, k) == ScanMulti(inp, p + 1, true, 0, k);
    }
    if u.Uni? {
      MultiUni(inp, p, u, k);
    }
  }

  lemma MultiUni(inp: Str, p: nat, u: Unit, k: nat)
    requires u.Uni? && LiesAt(inp, p, Spell(u)) && k < 3
    ensures ScanMulti(inp, p + 1, true, 0, k) == ScanMulti(inp, p + |Spell(u)|, false, 0, k)
  {
    var n := Digits(u.wide);
    FirstTwo(inp, p, u);
    assert Spell(u) == Spell(u)[..2] + HexText(u.code, n);
    LiesInParts(inp, p, Spell(u)[..2], HexText(u.code, n));
    HexTextIsHex(u.code, n);
    forall i | p + 2 <= i < p + 2 + n ensures IsHex(inp[i]) {
      assert inp[i] == inp[p + 2..p + 2 + n][i - p - 2] == HexText(u.code, n)[i - p - 2];
    }
    MultiHex(inp, p + 2, n, k);
    assert ScanMulti(inp, p + 1, true, 0, k) == ScanMulti(inp, p + 2, false, n, k);
  }

  lemma {:induction false} ClosesScans(inp: Str, p: nat, us: seq<Unit>, k: nat)
    requires k <= 3 && Closes(k, us) && LiesAt(inp, p, SpellAll(us))
    ensures ScanMulti(inp, p, false, 0, k) == Some(p + |SpellAll(us)|)
    decreases |us|
  {
    if k < 3 {
      LiesInParts(inp, p, Spell(us[0]), SpellAll(us[1..]));
      MultiUnit(inp, p, us[0], k);
      ClosesScans(inp, p + |Spell(us[0])|, us[1..], Counted(k, us[0]));
    }
  }

  /** The unit an accepting scan starts with. */
  lemma MultiFirst(inp: Str, p: nat, k: nat) returns (u: Unit)
    requires p <= |inp| && k < 3 && ScanMulti(inp, p, false, 0, k).Some?
    ensures MultiOk(u) && LiesAt(inp, p, Spell(u))
  {
    if inp[p] != BACKSLASH {
      u := Plain(inp[p]);
      assert inp[p..p + 1] == Spell(u);
    } else {
      assert ScanMulti(inp, p, false, 0, k) == ScanMulti(inp, p + 1, true, 0, k);
      if IsSimpleEscape(inp[p + 1]) || inp[p + 1] == LF {
        u := Escaped(inp[p + 1]);
        assert inp[p..p + 2] == Spell(u);
      } else {
        var wide := inp[p + 1] == UPPER_U;
        assert ScanMulti(inp, p + 1, true, 0, k) == ScanMulti(inp, p + 2, false, Digits(wide), k);
        MultiHex(inp, p + 2, Digits(wide), k);
        u := UniSpelled(inp, p, wide);
      }
    }
  }

  lemma {:induction false} ScansCloses(inp: Str, p: nat, k: nat) returns (us: seq<Unit>)
    requires p <= |inp| && k <= 3 && ScanMulti(inp, p, false, 0, k).Some?
    ensures Closes(k, us) && inp[p..ScanMulti(inp, p, false, 0, k).value] == SpellAll(us)
    decreases |inp| - p
  {
    if k == 3 {
      us := [];
    } else {
      var q := ScanMulti(inp, p, false, 0, k).value;
      var u := MultiFirst(inp, p, k);
      MultiUnit(inp, p, u, k);
      var p' := p + |Spell(u)|;
      var rest := ScansCloses(inp, p', Counted(k, u));
      us := [u] + rest;
      SpellCons(u, rest);
      assert us[1..] == rest;
      Join(inp, p, p', q, Spell(u), SpellAll(rest));
    }
  }

  /**
    * After three double quotes, a token ends where units have brought the count of
    * quotes to three, and only there.
    */
  lemma MultiScanned(inp: Str, p: nat, q: nat, dot: bool)
    requires p < |inp| && IsTriple(inp, p, 34)
    ensures ScanString(inp, p, dot) == Some(q) <==>
            exists us :: Closes(0, us) && LiesAt(inp, p + 3, SpellAll(us)) && q == p + 3 + |SpellAll(us)|
  {
    if ScanString(inp, p, dot) == Some(q) {
      var us := ScansCloses(inp, p + 3, 0);
      assert LiesAt(inp, p + 3, SpellAll(us));
    }
    forall us | Closes(0, us) && LiesAt(inp, p + 3, SpellAll(us)) && q == p + 3 + |SpellAll(us)|
      ensures ScanString(inp, p, dot) == Some(q)
    {
      ClosesScans(inp, p + 3, us, 0);
    }
  }
}
