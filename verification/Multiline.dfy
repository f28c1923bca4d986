/** Multi-line strings in double quotes, piece by piece. */
module Multiline {
  import opened Bytes
  import opened Lexer
  import opened Unescape
  import opened Strings
  import opened TripleQuotes

  /** A unit, where a plain byte may be any but a backslash; or a backslash before a line ending and white space. */
  datatype Piece = Item(u: Unit) | LineEnd(white: Str)

  /** A space, a tab, CR or LF. */
  predicate White(b: Byte) { b == 32 || b == 9 || b == 13 || b == 10 }

  /** It begins with LF, or with CR LF. */
  predicate LineEnding(w: Str) { [10] <= w || [13, 10] <= w }

  predicate PieceOk(x: Piece) {
    match x
    case Item(u) => EscapeOk(u)
    case LineEnd(w) => LineEnding(w) && forall i | 0 <= i < |w| :: White(w[i])
  }

  function Written(x: Piece): (r: Str)
    ensures r != []
  {
    match x
    case Item(u) => Spell(u)
    case LineEnd(w) => [92] + w
  }

  function WrittenAll(xs: seq<Piece>): Str {
    if xs == [] then [] else Written(xs[0]) + WrittenAll(xs[1..])
  }

  /** After a line ending there is no more white space. */
  predicate PiecesOk(xs: seq<Piece>) {
    xs == [] ||
    (PieceOk(xs[0]) && PiecesOk(xs[1..]) && (xs[0].LineEnd? && |xs| > 1 ==> !White(Written(xs[1])[0])))
  }

  /** A line ending stands for nothing. */
  function PieceText(x: Piece): Unescaped {
    match x
    case Item(u) => Meaning(u)
    case LineEnd(_) => Raw([])
  }

  function TextOf(xs: seq<Piece>): Unescaped {
    if xs == [] then Raw([])
    else match PieceText(xs[0])
      case Bad(w) => Bad(w)
      case Raw(t) => Prepend(t, TextOf(xs[1..]))
  }

  // ---- Pieces are unescaped to their text ----

  lemma {:induction false} SpaceUpTo(mem: Str, p: nat, q: nat)
    requires p <= q <= |mem| && (forall i | p <= i < q :: IsSpace(mem[i])) && !IsSpace(At(mem, q))
    ensures SkipSpace(mem, p) == q
    decreases q - p
  {
    if p < q {
      SpaceUpTo(mem, p + 1, q);
    }
  }

  lemma StepLineEnd(mem: Str, p: nat, hi: nat, w: Str, q: nat)
    requires PieceOk(LineEnd(w)) && LiesAt(mem, p, [BACKSLASH] + w)
    requires q == p + 1 + |w| <= hi <= |mem| && !IsSpace(At(mem, q))
    ensures Step(mem, p, hi, true) == Go([], q)
  {
    LiesInParts(mem, p, [BACKSLASH], w);
    assert mem[p..p + 1][0] == mem[p];
    forall i: nat | i < |w| ensures mem[p + 1 + i] == w[i] { assert mem[p + 1..p + 1 + |w|][i] == mem[p + 1 + i]; }
    assert mem[p + 1] == mem[p + 1 + 0] == w[0];
    assert w[0] == CR ==> mem[p + 2] == mem[p + 1 + 1] == w[1];
    forall i | p + 1 <= i < q ensures IsSpace(mem[i]) { assert mem[i] == mem[p + 1 + (i - p - 1)]; }
    SpaceUpTo(mem, p + 1, q);
  }

  /** One round unescapes one piece. */
  lemma StepPiece(mem: Str, p: nat, hi: nat, x: Piece, q: nat)
    requires PieceOk(x) && LiesAt(mem, p, Written(x)) && q == p + |Written(x)| <= hi <= |mem|
    requires x.LineEnd? ==> !IsSpace(At(mem, q))
    ensures Step(mem, p, hi, true) == match PieceText(x)
                                      case Raw(t) => Go(t, q)
                                      case Bad(w) => Fail(w)
  {
    match x
    case Item(u) => StepUnit(mem, p, hi, u, true);
    case LineEnd(w) => StepLineEnd(mem, p, hi, w, q);
  }

  lemma {:induction false} PiecesUnescape(mem: Str, p: nat, hi: nat, xs: seq<Piece>)
    requires PiecesOk(xs) && p + |WrittenAll(xs)| == hi <= |mem|
    requires LiesAt(mem, p, WrittenAll(xs)) && !IsSpace(At(mem, hi))
    ensures Unescape.Unescape(mem, p, hi, true) == TextOf(xs)
    decreases |xs|
  {
    if xs != [] {
      var q := p + |Written(xs[0])|;
      LiesInParts(mem, p, Written(xs[0]), WrittenAll(xs[1..]));
      NextByte(mem, q, hi, xs[1..]);
      StepPiece(mem, p, hi, xs[0], q);
      PiecesUnescape(mem, q, hi, xs[1..]);
    }
  }

  /** The byte the pieces begin with, where they lie. */
  lemma NextByte(mem: Str, q: nat, hi: nat, xs: seq<Piece>)
    requires q + |WrittenAll(xs)| == hi <= |mem| && LiesAt(mem, q, WrittenAll(xs))
    ensures xs == [] ==> q == hi
    ensures xs != [] ==> q < hi && mem[q] == Written(xs[0])[0]
  {
    if xs != [] { assert mem[q] == mem[q..hi][0]; }
  }

  // ---- What is unescaped is pieces ----

  lemma {:induction false} DigitsRead(mem: Str, p: nat, hi: nat, n: nat, acc: nat)
    requires hi <= |mem| && ReadHex(mem, p, hi, n, acc).Code?
    ensures p + n <= hi || n == 0
    ensures forall i | p <= i < p + n :: IsHex(At(mem, i))
    ensures ReadHex(mem, p, |mem|, n, acc) == ReadHex(mem, p, hi, n, acc)
    decreases n
  {
    if n > 0 {
      DigitsRead(mem, p + 1, hi, n - 1, acc * 16 + HexDigit(mem[p]));
    }
  }

  /** The escape of a code, in 4 or 8 digits. */
  lemma UniAt(mem: Str, p: nat, hi: nat, wide: bool) returns (u: Unit)
    requires p + 1 < hi <= |mem| && mem[p] == BACKSLASH && mem[p + 1] == (if wide then UPPER_U else LOWER_U)
    requires ReadHex(mem, p + 2, hi, Digits(wide), 0).Code?
    ensures EscapeOk(u) && LiesAt(mem, p, Spell(u)) && p + |Spell(u)| <= hi
  {
    var n := Digits(wide);
    DigitsRead(mem, p + 2, hi, n, 0);
    forall i | p + 2 <= i < p + 2 + n ensures IsHex(mem[i]) { assert At(mem, i) == mem[i]; }
    u := UniSpelled(mem, p, wide);
  }

  /** A line ending, with all the white space from there on. */
  lemma LineEndAt(mem: Str, p: nat, hi: nat) returns (x: Piece)
    requires p < hi <= |mem| && mem[p] == BACKSLASH && EndsLine(mem, p + 1) && !IsSpace(At(mem, hi))
    ensures x.LineEnd? && PieceOk(x) && p + |Written(x)| <= hi && LiesAt(mem, p, Written(x))
    ensures !IsSpace(At(mem, p + |Written(x)|))
  {
    var q := SkipSpace(mem, p + 1);
    SpaceEnds(mem, p + 1, hi);
    var w := mem[p + 1..q];
    x := LineEnd(w);
    forall i | 0 <= i < |w| ensures IsSpace(w[i]) && At(w, i) == At(mem, p + 1 + i) {
      assert IsSpace(At(mem, p + 1 + i));
    }
    assert SkipSpace(mem, p + 1) == SkipSpace(mem, p + 2);
    assert At(mem, p + 1) == CR ==> SkipSpace(mem, p + 2) == SkipSpace(mem, p + 3);
    assert mem[p..q] == [BACKSLASH] + w;
  }

  lemma GoneOn(mem: Str, p: nat, hi: nat)
    requires p < hi <= |mem| && Step(mem, p, hi, true).Go? && mem[p] == BACKSLASH && !EndsLine(mem, p + 1)
    ensures p + 1 < hi
    ensures mem[p + 1] == LOWER_U || mem[p + 1] == UPPER_U ==>
              ReadHex(mem, p + 2, hi, Digits(mem[p + 1] == UPPER_U), 0).Code?
    ensures mem[p + 1] != LOWER_U && mem[p + 1] != UPPER_U ==> IsSimpleEscape(mem[p + 1])
  {
  }

  /** The escape a round of unescaping takes. */
  lemma EscapeAt(mem: Str, p: nat, hi: nat) returns (u: Unit)
    requires p < hi <= |mem| && Step(mem, p, hi, true).Go? && mem[p] == BACKSLASH && !EndsLine(mem, p + 1)
    ensures EscapeOk(u) && p + |Spell(u)| <= hi && LiesAt(mem, p, Spell(u))
  {
    GoneOn(mem, p, hi);
    if mem[p + 1] == LOWER_U || mem[p + 1] == UPPER_U {
      u := UniAt(mem, p, hi, mem[p + 1] == UPPER_U);
    } else {
      u := Escaped(mem[p + 1]);
      assert mem[p..p + 2] == [BACKSLASH, mem[p + 1]];
    }
  }

  /** The piece a round of unescaping takes. */
  lemma FirstPiece(mem: Str, p: nat, hi: nat) returns (x: Piece, q: nat)
    requires p < hi <= |mem| && !IsSpace(At(mem, hi)) && Unescape.Unescape(mem, p, hi, true).Raw?
    ensures PieceOk(x) && q == p + |Written(x)| <= hi && LiesAt(mem, p, Written(x))
    ensures x.LineEnd? ==> !IsSpace(At(mem, q))
    ensures Unescape.Unescape(mem, q, hi, true).Raw?
  {
    assert Step(mem, p, hi, true).Go?;
    if mem[p] != BACKSLASH {
      x := Item(Plain(mem[p]));
      assert mem[p..p + 1] == [mem[p]];
    } else if EndsLine(mem, p + 1) {
      x := LineEndAt(mem, p, hi);
    } else {
      var u := EscapeAt(mem, p, hi);
      x := Item(u);
    }
    q := p + |Written(x)|;
    StepPiece(mem, p, hi, x, q);
  }

  lemma {:induction false} SpaceEnds(mem: Str, p: nat, hi: nat)
    requires p <= hi && !IsSpace(At(mem, hi))
    ensures SkipSpace(mem, p) <= hi
    decreases hi - p
  {
    if p < hi && IsSpace(At(mem, p)) {
      SpaceEnds(mem, p + 1, hi);
    }
  }

  lemma {:induction false} PiecesOf(mem: Str, p: nat, hi: nat) returns (xs: seq<Piece>)
    requires p <= hi <= |mem| && !IsSpace(At(mem, hi)) && Unescape.Unescape(mem, p, hi, true).Raw?
    ensures PiecesOk(xs) && WrittenAll(xs) == mem[p..hi]
    decreases hi - p
  {
    if p == hi {
      xs := [];
    } else {
      var x, q := FirstPiece(mem, p, hi);
      var rest := PiecesOf(mem, q, hi);
      xs := [x] + rest;
      NextByte(mem, q, hi, rest);
      PiecesCons(x, rest);
      Join(mem, p, q, hi, Written(x), WrittenAll(rest));
    }
  }

  lemma PiecesCons(x: Piece, rest: seq<Piece>)
    requires PieceOk(x) && PiecesOk(rest) && (x.LineEnd? && rest != [] ==> !IsSpace(Written(rest[0])[0]))
    ensures PiecesOk([x] + rest) && WrittenAll([x] + rest) == Written(x) + WrittenAll(rest)
  {
    assert ([x] + rest)[1..] == rest;
  }

  // ---- Main result ----

  /** Between its quotes, but for a newline right after the opening ones, the token says these pieces. */
  ghost predicate Says(raw: Str, xs: seq<Piece>) {
    var lo := SkipFirstNewline(raw, 3);
    && lo + 3 <= |raw| && PiecesOk(xs) && WrittenAll(xs) == raw[lo..|raw| - 3]
  }

  /**
    * A `"""` token converts to a text if and only if its closing quotes stand
    * together and it is made of pieces that mean this text.
    */
  lemma TripleQuotesMean(inp: Str, p: nat, dot: bool, text: Str)
    requires p < |inp| && IsTriple(inp, p, DQUOTE) && ScanString(inp, p, dot).Some?
    ensures var raw := inp[p..ScanString(inp, p, dot).value];
            |raw| >= 6
            && (Rtos(raw) == Raw(text) <==> ClosesCleanly(raw) && exists xs :: Says(raw, xs) && TextOf(xs) == Raw(text))
  {
    TripleQuotesAgree(inp, p, dot);
    var raw := inp[p..ScanString(inp, p, dot).value];
    assert raw[0] == inp[p] && raw[1] == inp[p + 1] && raw[2] == inp[p + 2];
    TokenMeans(raw, text);
  }

  lemma TokenMeans(raw: Str, text: Str)
    requires IsTriple(raw, 0, DQUOTE) && ConvertsWhenClean(raw)
    ensures Rtos(raw) == Raw(text) <==> ClosesCleanly(raw) && exists xs :: Says(raw, xs) && TextOf(xs) == Raw(text)
  {
    var lo, hi := SkipFirstNewline(raw, 3), |raw| - 3;
    if ClosesCleanly(raw) {
      StrictEnd(raw, 3, false, 0, 0);
      assert raw[hi] == DQUOTE && raw[hi + 1] == DQUOTE && raw[hi + 2] == DQUOTE;
      assert Rtos(raw) == Unescape.Unescape(raw, lo, hi, true);
      if Rtos(raw) == Raw(text) {
        var xs := PiecesOf(raw, lo, hi);
        PiecesUnescape(raw, lo, hi, xs);
        assert Says(raw, xs);
      }
      forall xs | Says(raw, xs) ensures Rtos(raw) == TextOf(xs) {
        PiecesUnescape(raw, lo, hi, xs);
      }
    }
  }
}
