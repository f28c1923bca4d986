/** Which key a text names. */
module Naming {
  import opened Bytes
  import opened Lexer
  import opened Unescape
  import opened Strings
  import opened Literals
  import opened Keys

  /** [A-Za-z0-9_-] */
  predicate KeyByte(b: Byte) { 48 <= b <= 57 || 65 <= b <= 90 || 97 <= b <= 122 || b == 95 || b == 45 }

  ghost predicate Bare(t: Str) { t != [] && forall i | 0 <= i < |t| :: KeyByte(t[i]) }

  /** The text names what stands before its first NUL, unless there is a newline in that. */
  ghost predicate Names(t: Str, r: KeyRead) {
    exists n: Str :: UpToNul(t, n) && r == if 10 in n then BadKey else Key(n)
  }

  predicate UpToNul(t: Str, n: Str) { n <= t && 0 !in n && (n == t || t[|n|] == 0) }

  lemma CheckedNames(t: Str)
    ensures Names(t, Checked(t))
  {
    assert UpToNul(t, Cut(t));
  }

  // ---- The five ways to write a key ----

  /** A bare text names itself; one that is neither bare nor quoted names nothing. */
  lemma BareNames(t: Str)
    requires t != [] && t[0] != 34 && t[0] != 39
    ensures KeyOf(t) == if Bare(t) then Key(t) else BadKey
  {
    assert forall i | 0 <= i < |t| :: IsKeyByte(t[i]) <==> KeyByte(t[i]);
  }

  /** The empty token is read as the empty key. */
  lemma EmptyNames()
    ensures KeyOf([]) == Key([])
  {
  }

  lemma InQuotes(t: Str, q: Byte)
    requires q == 34 || q == 39
    requires t == [] || t[0] != q
    ensures var s := [q] + t + [q];
            |s| == |t| + 2 && s[0] == q && !IsTriple(s, 0, q) && s[1..|s| - 1] == t
  {
    var s := [q] + t + [q];
    if t != [] { assert s[1] == t[0]; }
  }

  /** A text in single quotes is taken as it stands, up to a NUL. */
  lemma SingleNames(t: Str)
    requires t == [] || t[0] != 39
    ensures Names(t, KeyOf(Single(t)))
  {
    InQuotes(t, 39);
    CheckedNames(t);
  }

  lemma TripleSingleNames(t: Str)
    ensures Names(t, KeyOf(Triple(t)))
  {
    assert Triple(t)[3..|t| + 3] == t;
    CheckedNames(t);
  }

  /** Units in double quotes name what they stand for. */
  lemma DoubleNames(us: seq<Unit>)
    requires AllOk(us)
    ensures match MeaningAll(us)
            case Raw(t) => Names(t, KeyOf(Quoted(us)))
            case Bad(w) => KeyOf(Quoted(us)) == BadText(w)
  {
    var s := Quoted(us);
    SpelledStart(us);
    InQuotes(SpellAll(us), 34);
    UnescapeSpelled(s, 1, |s| - 1, us, false);
    if MeaningAll(us).Raw? { CheckedNames(MeaningAll(us).text); }
  }

  lemma {:induction false} TripleDoubleNames(us: seq<Unit>)
    requires forall i | 0 <= i < |us| :: EscapeOk(us[i])
    ensures var s := [34, 34, 34] + SpellAll(us) + [34, 34, 34];
            match MeaningAll(us)
            case Raw(t) => Names(t, KeyOf(s))
            case Bad(w) => KeyOf(s) == BadText(w)
  {
    var s := [34, 34, 34] + SpellAll(us) + [34, 34, 34];
    var hi := 3 + |SpellAll(us)|;
    assert s[3..hi] == SpellAll(us) && |s| == hi + 3 && IsTriple(s, 0, 34);
    UnescapeSpelled(s, 3, hi, us, false);
    if MeaningAll(us).Raw? { CheckedNames(MeaningAll(us).text); }
  }

  // ---- When two texts name one key ----

  /** A text has one beginning up to its first NUL. */
  lemma NamesOnce(t: Str, r: KeyRead, r': KeyRead)
    requires Names(t, r) && Names(t, r')
    ensures r == r'
  {
    var n: Str :| UpToNul(t, n) && r == if 10 in n then BadKey else Key(n);
    var m: Str :| UpToNul(t, m) && r' == if 10 in m then BadKey else Key(m);
    OneBeginning(t, n);
    OneBeginning(t, m);
  }

  lemma {:induction false} OneBeginning(t: Str, n: Str)
    requires UpToNul(t, n)
    ensures n == Cut(t)
    decreases |t|
  {
    if t != [] && t[0] != 0 {
      assert n != [] && n[0] == t[0];
      assert n[1..] <= t[1..];
      OneBeginning(t[1..], n[1..]);
    }
  }

  /** Two bare keys are the same key only if they are the same text. */
  lemma BareKeysDiffer(t: Str, u: Str)
    requires Bare(t) && Bare(u)
    ensures KeyOf(t) == KeyOf(u) <==> t == u
  {
    BareNames(t);
    BareNames(u);
  }

  /** The bytes of a text, each standing for itself. */
  function Plains(t: Str): (us: seq<Unit>)
    ensures |us| == |t| && forall i | 0 <= i < |t| :: us[i] == Plain(t[i])
  {
    seq(|t|, i requires 0 <= i < |t| => Plain(t[i]))
  }

  lemma {:induction false} PlainsSpell(t: Str)
    ensures SpellAll(Plains(t)) == t && MeaningAll(Plains(t)) == Raw(t)
  {
    if t != [] {
      assert Plains(t)[1..] == Plains(t[1..]);
      PlainsSpell(t[1..]);
    }
  }

  /**
    * A text without quotes, backslashes, newlines and NULs names one key, itself,
    * in either kind of quotes, and bare if it is made for that.
    */
  lemma OneKeyThreeWays(t: Str)
    requires forall i | 0 <= i < |t| :: t[i] !in {0, 10, 34, 39, 92}
    ensures KeyOf(Single(t)) == KeyOf([34] + t + [34]) == Key(t)
    ensures Bare(t) ==> KeyOf(t) == Key(t)
  {
    PlainsSpell(t);
    SingleNames(t);
    DoubleNames(Plains(t));
    assert UpToNul(t, t);
    NamesOnce(t, KeyOf(Single(t)), Key(t));
    NamesOnce(t, KeyOf(Quoted(Plains(t))), Key(t));
    if Bare(t) { BareNames(t); }
  }
}
