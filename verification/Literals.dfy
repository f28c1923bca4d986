/** Strings in single quotes: what is scanned as one, and that it is taken as it stands. */
module Literals {
  import opened Bytes
  import opened Lexer
  import opened Unescape
  import opened Strings
  import opened Multiline
  import LineEndings

  // ---- On one line ----

  /** No single quote and no newline. */
  predicate OnOneLine(t: Str) { forall i | 0 <= i < |t| :: t[i] != 39 && t[i] != 10 }

  function Single(t: Str): Str { [39] + t + [39] }

  lemma {:induction false} ScanUpTo(inp: Str, p: nat, t: Str)
    requires OnOneLine(t) && LiesAt(inp, p, t + [39])
    ensures ScanLiteral(inp, p) == Some(p + |t|)
    decreases |t|
  {
    assert inp[p] == inp[p..p + |t| + 1][0] == (t + [39])[0];
    if t != [] {
      assert t + [39] == [t[0]] + (t[1..] + [39]);
      LiesInParts(inp, p, [t[0]], t[1..] + [39]);
      ScanUpTo(inp, p + 1, t[1..]);
    }
  }

  lemma {:induction false} ScannedOver(inp: Str, p: nat)
    requires p <= |inp| && ScanLiteral(inp, p).Some?
    ensures OnOneLine(inp[p..ScanLiteral(inp, p).value])
    decreases |inp| - p
  {
    if inp[p] != 39 {
      var q := ScanLiteral(inp, p).value;
      ScannedOver(inp, p + 1);
      assert inp[p..q] == [inp[p]] + inp[p + 1..q];
    }
  }

  lemma SingleParts(t: Str)
    requires OnOneLine(t)
    ensures var s := Single(t);
            s[0] == 39 && s[|s| - 1] == 39 && s[1..|s| - 1] == t && !IsTriple(s, 0, 39)
  {
    var s := Single(t);
    if t != [] { assert s[1] == t[0]; }
  }

  /**
    * A text between single quotes, anywhere in an input, is scanned as one token,
    * and the token converts to the text as it stands. When the text is empty, no
    * third quote may follow.
    */
  lemma SingleQuoted(inp: Str, p: nat, t: Str, dot: bool)
    requires OnOneLine(t) && LiesAt(inp, p, Single(t)) && (t == [] ==> At(inp, p + 2) != 39)
    ensures ScanString(inp, p, dot) == Some(p + |t| + 2) && Rtos(Single(t)) == Raw(t)
  {
    SingleParts(t);
    assert Single(t) == [39] + (t + [39]);
    LiesInParts(inp, p, [39], t + [39]);
    LiesInParts(inp, p + 1, t, [39]);
    assert inp[p] == inp[p..p + 1][0];
    if t != [] { assert inp[p + 1] == inp[p + 1..p + 1 + |t|][0]; }
    ScanUpTo(inp, p + 1, t);
  }

  /** Every token that begins with one single quote is of this form, and converts. */
  lemma SingleScanned(inp: Str, p: nat, dot: bool)
    requires p < |inp| && inp[p] == 39 && !IsTriple(inp, p, 39) && ScanString(inp, p, dot).Some?
    ensures exists t :: OnOneLine(t) && inp[p..ScanString(inp, p, dot).value] == Single(t)
                        && Rtos(inp[p..ScanString(inp, p, dot).value]) == Raw(t)
  {
    var q := ScanLiteral(inp, p + 1).value;
    ScannedOver(inp, p + 1);
    var t := inp[p + 1..q];
    SingleParts(t);
    assert inp[p..q + 1] == Single(t);
  }

  // ---- On several lines ----

  /** Three single quotes stand at index `i`. */
  predicate Quotes(s: Str, i: nat) { i + 3 <= |s| && s[i] == 39 && s[i + 1] == 39 && s[i + 2] == 39 }

  lemma {:induction false} FirstQuotes(inp: Str, p: nat, q: nat)
    requires p <= q && Quotes(inp, q) && forall i: nat | p <= i < q :: !Quotes(inp, i)
    ensures FindTriple(inp, p) == Some(q)
    decreases q - p
  {
    if p < q {
      assert !Quotes(inp, p);
      FirstQuotes(inp, p + 1, q);
    }
  }

  lemma {:induction false} FoundFirst(inp: Str, p: nat)
    requires FindTriple(inp, p).Some?
    ensures p <= FindTriple(inp, p).value && Quotes(inp, FindTriple(inp, p).value)
    ensures forall i: nat | p <= i < FindTriple(inp, p).value :: !Quotes(inp, i)
    decreases |inp| - p
  {
    if !Quotes(inp, p) {
      FoundFirst(inp, p + 1);
    }
  }

  function Triple(t: Str): Str { [39, 39, 39] + t + [39, 39, 39] }

  /** Between three quotes and three quotes, the token ends at the first three. */
  predicate EndsFirst(t: Str) { forall i: nat | i < |t| :: !Quotes(t + [39, 39, 39], i) }

  /** A text between triple single quotes, anywhere in an input, is scanned as one token. */
  lemma TripleQuoted(inp: Str, p: nat, t: Str, dot: bool)
    requires EndsFirst(t) && LiesAt(inp, p, Triple(t))
    ensures ScanString(inp, p, dot) == Some(p + |t| + 6)
  {
    var s, lo := t + [39, 39, 39], p + 3;
    assert Triple(t) == [39, 39, 39] + s;
    LiesInParts(inp, p, [39, 39, 39], s);
    assert forall i: nat | i < 3 :: inp[p + i] == inp[p..lo][i] == 39;
    assert inp[p] == inp[p + 0];
    forall i: nat | i < |s| ensures inp[lo + i] == s[i] { assert inp[lo..lo + |s|][i] == inp[lo + i]; }
    forall i: nat | lo <= i < lo + |t| ensures !Quotes(inp, i) {
      assert !Quotes(s, i - lo);
      assert inp[i] == s[i - lo] && inp[i + 1] == s[i - lo + 1] && inp[i + 2] == s[i - lo + 2];
    }
    assert inp[lo + |t|] == s[|t|] && inp[lo + |t| + 1] == s[|t| + 1] && inp[lo + |t| + 2] == s[|t| + 2];
    FirstQuotes(inp, lo, lo + |t|);
  }

  /** Every token that begins with three single quotes is of this form. */
  lemma TripleScanned(inp: Str, p: nat, dot: bool) returns (t: Str)
    requires p < |inp| && IsTriple(inp, p, 39) && ScanString(inp, p, dot).Some?
    ensures EndsFirst(t) && inp[p..ScanString(inp, p, dot).value] == Triple(t)
  {
    var lo, q := p + 3, FindTriple(inp, p + 3).value;
    FoundFirst(inp, lo);
    t := inp[lo..q];
    var s := t + [39, 39, 39];
    assert inp[lo..q + 3] == s;
    forall i: nat | i < |t| ensures !Quotes(s, i) {
      assert !Quotes(inp, lo + i);
      assert forall j: nat | j < |s| :: s[j] == inp[lo + j];
      assert s[i] == inp[lo + i] && s[i + 1] == inp[lo + (i + 1)] && s[i + 2] == inp[lo + (i + 2)];
    }
    assert inp[p..q + 3] == [39, 39, 39] + s == Triple(t);
  }

  // ---- Line endings ----

  /**
    * The pieces of a text that is taken as it stands: any byte, and a backslash
    * before a line ending with all the white space from there on, which is dropped.
    */
  predicate VerbatimOk(xs: seq<Piece>) {
    xs == [] ||
    (VerbatimOk(xs[1..]) &&
     match xs[0]
     case Item(Plain(b)) => b == 92 ==> !LineEnding(WrittenAll(xs[1..]))
     case LineEnd(w) =>
       && LineEnding(w) && (forall i | 0 <= i < |w| :: White(w[i]))
       && (|xs| > 1 ==> !White(Written(xs[1])[0]))
     case _ => false)
  }

  lemma WhiteFirst(w: Str, s: Str)
    requires (forall i | 0 <= i < |w| :: White(w[i])) && (s == [] || !White(s[0]))
    ensures LineEndings.DropSpace(w + s) == s
  {
    LineEndings.DropSpaceOf(w, s);
  }

  lemma EndingHit(s: Str)
    ensures s != [] ==> (LineEndings.Hit(s, LineEndings.Either) <==> s[0] == 92 && LineEnding(s[1..]))
  {
  }

  lemma {:induction false} PassLineEnd(w: Str, rest: Str)
    requires LineEnding(w) && (forall i | 0 <= i < |w| :: White(w[i])) && (rest == [] || !White(rest[0]))
    ensures LineEndings.Pass([92] + w + rest, LineEndings.Either) == LineEndings.Pass(rest, LineEndings.Either)
  {
    var s := [92] + w + rest;
    assert s[1..] == w + rest;
    assert LineEnding(s[1..]);
    EndingHit(s);
    WhiteFirst(w, rest);
  }

  lemma PassByte(b: Byte, rest: Str)
    requires b == 92 ==> !LineEnding(rest)
    ensures LineEndings.Pass([b] + rest, LineEndings.Either) == [b] + LineEndings.Pass(rest, LineEndings.Either)
  {
    var s := [b] + rest;
    assert s[1..] == rest;
    EndingHit(s);
  }

  /** Killing line endings leaves what the pieces stand for. */
  lemma {:induction false} PassMeans(xs: seq<Piece>)
    requires VerbatimOk(xs)
    ensures TextOf(xs) == Raw(LineEndings.Pass(WrittenAll(xs), LineEndings.Either))
    decreases |xs|
  {
    if xs != [] {
      var rest := WrittenAll(xs[1..]);
      PassMeans(xs[1..]);
      match xs[0]
      case Item(Plain(b)) => PassByte(b, rest);
      case LineEnd(w) =>
        NextWritten(xs[1..]);
        PassLineEnd(w, rest);
    }
  }

  lemma NextWritten(xs: seq<Piece>)
    ensures xs != [] ==> WrittenAll(xs) != [] && WrittenAll(xs)[0] == Written(xs[0])[0]
  {
  }

  /** The line ending a text begins with after a backslash. */
  lemma FirstLineEnd(s: Str) returns (w: Str, rest: Str)
    requires s != [] && s[0] == 92 && LineEnding(s[1..])
    ensures s == [92] + w + rest && LineEnding(w) && (forall i | 0 <= i < |w| :: White(w[i]))
    ensures rest == [] || !White(rest[0])
  {
    var t := s[1..];
    rest := LineEndings.DropSpace(t);
    LineEndings.DropSpaceShape(t);
    w := t[..|t| - |rest|];
    assert forall i | 0 <= i < |w| :: w[i] == t[i];
  }

  lemma {:induction false} PiecesOfText(s: Str) returns (xs: seq<Piece>)
    ensures VerbatimOk(xs) && WrittenAll(xs) == s
    decreases |s|
  {
    if s == [] {
      xs := [];
    } else if s[0] == 92 && LineEnding(s[1..]) {
      var w, rest := FirstLineEnd(s);
      var ys := PiecesOfText(rest);
      NextWritten(ys);
      xs := [LineEnd(w)] + ys;
      assert xs[1..] == ys;
    } else {
      var ys := PiecesOfText(s[1..]);
      xs := [Item(Plain(s[0]))] + ys;
      assert xs[1..] == ys;
    }
  }

  /** The text between the quotes, without a newline right after the opening ones. */
  function Inside(t: Str): Str {
    if [10] <= t then t[1..] else if [13, 10] <= t then t[2..] else t
  }

  /**
    * Every token in triple single quotes converts: to its inside, piece by piece,
    * without a first newline and without line-ending backslashes.
    */
  lemma TripleConverts(t: Str)
    ensures exists xs :: VerbatimOk(xs) && WrittenAll(xs) == Inside(t)
    ensures forall xs | VerbatimOk(xs) && WrittenAll(xs) == Inside(t) ::
              Rtos(Triple(t)) == TextOf(xs) && TextOf(xs).Raw?
  {
    var ys := PiecesOfText(Inside(t));
    TripleInside(t);
    forall xs | VerbatimOk(xs) && WrittenAll(xs) == Inside(t) ensures Rtos(Triple(t)) == TextOf(xs) && TextOf(xs).Raw? {
      PassMeans(xs);
    }
  }

  lemma TripleInside(t: Str)
    ensures Rtos(Triple(t)) == Raw(LineEndings.Pass(Inside(t), LineEndings.Either))
  {
    var src := Triple(t);
    var lo, hi := SkipFirstNewline(src, 3), |src| - 3;
    assert src[3..hi] == t;
    assert forall i: nat | i < |t| :: src[3 + i] == t[i];
    if t != [] { assert src[3] == t[0]; }
    if |t| > 1 { assert src[4] == t[1]; }
    assert src[lo..hi] == Inside(t);
  }
}
