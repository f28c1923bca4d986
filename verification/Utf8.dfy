/**
  * The UTF-8 codec: up to six bytes a code, the layout of section 2 of RFC 2279.
  *
  * The methods shift and mask as the source does; the functions they are proved
  * against divide and take remainders.
  */
module Utf8 {
  import opened Bytes
  import opened Bits

  /** The codes the encoder accepts. */
  predicate Encodable(code: int) {
    && 0 <= code <= 0x7FFF_FFFF
    && !(0xD800 <= code <= 0xDFFF)
    && !(0xFFFE <= code <= 0xFFFF)
  }

  /** Length of the shortest encoding. */
  function EncLen(code: nat): nat {
    if code <= 0x7F then 1
    else if code <= 0x7FF then 2
    else if code <= 0xFFFF then 3
    else if code <= 0x1F_FFFF then 4
    else if code <= 0x3FF_FFFF then 5
    else 6
  }

  /** What is left of a code once its low `m` groups of six bits are dropped. */
  function Hi(code: nat, m: nat): nat {
    if m == 0 then code else Hi(code, m - 1) / 64
  }

  /** The tag bits of the first of `n` bytes. */
  function Mark(n: nat): nat {
    if n <= 1 then 0 else if n == 2 then 0xC0 else if n == 3 then 0xE0
    else if n == 4 then 0xF0 else if n == 5 then 0xF8 else 0xFC
  }

  /** The low `m` groups of six bits as continuation bytes, high group first. */
  function Tail(code: nat, m: nat): (r: Str)
    ensures |r| == m
    ensures forall i | 0 <= i < m :: r[i] / 64 == 2
  {
    if m == 0 then [] else [0x80 + Hi(code, m - 1) % 64] + Tail(code, m - 1)
  }

  function Encode(code: int): (r: Str)
    requires Encodable(code)
    ensures |r| == EncLen(code)
  {
    var n := EncLen(code);
    LeadFits(code);
    [Mark(n) + Hi(code, n - 1)] + Tail(code, n - 1)
  }

  lemma HiUnfold(code: nat)
    ensures Hi(code, 0) == code && Hi(code, 1) == code / 64 && Hi(code, 2) == code / 4096
    ensures Hi(code, 3) == code / 0x4_0000 && Hi(code, 4) == code / 0x100_0000
    ensures Hi(code, 5) == code / 0x4000_0000
  {
    assert Hi(code, 2) == Hi(code, 1) / 64;
    assert Hi(code, 3) == Hi(code, 2) / 64;
    assert Hi(code, 4) == Hi(code, 3) / 64;
    assert Hi(code, 5) == Hi(code, 4) / 64;
  }

  lemma LeadFits(code: nat)
    requires code <= 0x7FFF_FFFF
    ensures var n := EncLen(code); 0 <= Mark(n) + Hi(code, n - 1) < 256
    ensures var n := EncLen(code); LeadLen(Mark(n) + Hi(code, n - 1)) == n
    ensures var n := EncLen(code); LeadBits(Mark(n) + Hi(code, n - 1), n) == Hi(code, n - 1)
  {
    HiUnfold(code);
  }

  /** How many bytes the first byte announces; 0 for a byte that starts nothing. */
  function LeadLen(b: Byte): nat {
    if b / 128 == 0 then 1
    else if b / 32 == 0x6 then 2
    else if b / 16 == 0xE then 3
    else if b / 8 == 0x1E then 4
    else if b / 4 == 0x3E then 5
    else if b / 2 == 0x7E then 6
    else 0
  }

  /** The payload bits of a first byte. */
  function LeadBits(b: Byte, n: nat): nat {
    if n <= 1 then b else if n == 2 then b % 32 else if n == 3 then b % 16
    else if n == 4 then b % 8 else if n == 5 then b % 4 else b % 2
  }

  /** Folds `m` continuation bytes from index `k` of memory into `v`. */
  function Continue(mem: Str, k: nat, m: nat, v: nat): Option<nat>
    decreases m
  {
    if m == 0 then Some(v)
    else if At(mem, k) / 64 != 2 then None
    else Continue(mem, k + 1, m - 1, v * 64 + At(mem, k) % 64)
  }

  datatype Decoded = Decoded(code: nat, used: nat)

  /**
    * The decoder, reading the first continuation byte at index `first`.
    * The layout its comments give is `first == 1`; the code as written reads
    * from index 2, having stepped over byte 0 twice.
    */
  function DecodeFrom(mem: Str, len: int, first: nat): (r: Option<Decoded>)
    ensures r.Some? ==> 1 <= r.value.used <= 6 && r.value.used <= len
  {
    var b := At(mem, 0);
    var n := LeadLen(b);
    if n == 0 || len < n then None
    else match Continue(mem, first, n - 1, LeadBits(b, n))
      case None => None
      case Some(v) => Some(Decoded(v, n))
  }

  function Decode(mem: Str, len: int): Option<Decoded> { DecodeFrom(mem, len, 1) }

  function DecodeWritten(mem: Str, len: int): Option<Decoded> { DecodeFrom(mem, len, 2) }

  // ---- The layout, byte by byte ----

  predicate IsTail(b: Byte) { 0x80 <= b < 0xC0 }

  /** Six bits more for each byte. */
  function Folded(v: int, tail: Str): int
    decreases |tail|
  {
    if tail == [] then v else Folded(v * 64 + (tail[0] as int - 0x80), tail[1..])
  }

  /** These bytes are laid out as one code: a first byte that says how many follow, and six bits in each of those. */
  predicate Layout(b: Str, code: int) {
    && b != [] && (forall i | 1 <= i < |b| :: IsTail(b[i]))
    && match |b|
       case 1 => b[0] < 0x80 && code == b[0]
       case 2 => 0xC0 <= b[0] < 0xE0 && code == Folded(b[0] as int - 0xC0, b[1..])
       case 3 => 0xE0 <= b[0] < 0xF0 && code == Folded(b[0] as int - 0xE0, b[1..])
       case 4 => 0xF0 <= b[0] < 0xF8 && code == Folded(b[0] as int - 0xF0, b[1..])
       case 5 => 0xF8 <= b[0] < 0xFC && code == Folded(b[0] as int - 0xF8, b[1..])
       case 6 => 0xFC <= b[0] < 0xFE && code == Folded(b[0] as int - 0xFC, b[1..])
       case _ => false
  }

  /** What the first byte says. */
  lemma LeadSays(b: Byte)
    ensures b < 0x80 ==> LeadLen(b) == 1 && LeadBits(b, 1) == b
    ensures 0x80 <= b < 0xC0 || 0xFE <= b ==> LeadLen(b) == 0
    ensures 0xC0 <= b < 0xE0 ==> LeadLen(b) == 2 && LeadBits(b, 2) == b as int - 0xC0
    ensures 0xE0 <= b < 0xF0 ==> LeadLen(b) == 3 && LeadBits(b, 3) == b as int - 0xE0
    ensures 0xF0 <= b < 0xF8 ==> LeadLen(b) == 4 && LeadBits(b, 4) == b as int - 0xF0
    ensures 0xF8 <= b < 0xFC ==> LeadLen(b) == 5 && LeadBits(b, 5) == b as int - 0xF8
    ensures 0xFC <= b < 0xFE ==> LeadLen(b) == 6 && LeadBits(b, 6) == b as int - 0xFC
  {
  }

  /** Continuation bytes are folded as long as they are such. */
  lemma {:induction false} ContinueFolds(mem: Str, k: nat, m: nat, v: nat, c: nat)
    requires k + m <= |mem|
    ensures Continue(mem, k, m, v) == Some(c) <==>
            (forall i | k <= i < k + m :: IsTail(mem[i])) && c == Folded(v, mem[k..k + m])
    decreases m
  {
    if m > 0 {
      assert mem[k..k + m][1..] == mem[k + 1..k + m];
      if IsTail(mem[k]) { ContinueFolds(mem, k + 1, m - 1, v * 64 + (mem[k] as int - 0x80), c); }
    }
  }

  /** In the commented layout exactly the first bytes that are laid out as a code are decoded, to that code. */
  lemma DecodesExactly(mem: Str, len: nat, code: nat, n: nat)
    requires len <= |mem|
    ensures Decode(mem, len) == Some(Decoded(code, n)) <==> n <= len && Layout(mem[..n], code)
  {
    if 0 < len {
      var b := mem[0];
      var k := LeadLen(b);
      LeadSays(b);
      if 0 < k <= len {
        ContinueFolds(mem, 1, k - 1, LeadBits(b, k), code);
        assert mem[..k][1..] == mem[1..k];
      }
    }
  }

  // ---- As the source writes it ----

  /** The code shifted by groups of six bits. */
  lemma {:induction false} HiShifts(code: nat, m: nat)
    ensures Hi(code, m) == Shr(code, 6 * m)
  {
    if m > 0 {
      HiShifts(code, m - 1);
      PowersUsed();
      ShrDivides(Hi(code, m - 1), 6);
      ShrAgain(code, 6 * (m - 1), 6);
    }
  }

  /** A group of six bits is joined to the tag of a continuation byte ... */
  lemma GroupJoins(x: nat)
    ensures Or(0x80, And(x, 0x3F)) == 0x80 + x % 64
  {
    PowersUsed();
    MaskIsRemainder(x, 6);
    ApartAdds(0x80, x % 64, 6);
  }

  /** ... and the leading bits to the tag of a first byte. */
  lemma LeadJoins(code: nat, n: nat)
    requires Encodable(code) && n == EncLen(code) && n > 1
    ensures Encode(code) == [Or(Mark(n), Shr(code, 6 * (n - 1)))] + Tail(code, n - 1)
  {
    LeadRoom(code, n);
    HiShifts(code, n - 1);
    MarkJoins(n, Hi(code, n - 1));
  }

  lemma LeadRoom(code: nat, n: nat)
    requires code <= 0x7FFF_FFFF && n == EncLen(code) && n > 1
    ensures Hi(code, n - 1) < Pow2(7 - n)
  {
    LeadFits(code);
    PowersUsed();
  }

  lemma MarkJoins(n: nat, x: nat)
    requires 2 <= n <= 6 && x < Pow2(7 - n)
    ensures Or(Mark(n), x) == Mark(n) + x
  {
    PowersUsed();
    ApartAdds(Mark(n), x, 7 - n);
  }

  /** A continuation byte joins its low six bits to the bits read before. */
  lemma ContinuationAdds(v: nat, i: nat)
    ensures Or(Shl(v, 6), And(i, 0x3F)) == v * 64 + i % 64
  {
    PowersUsed();
    ShlMultiplies(v, 6);
    MaskIsRemainder(i, 6);
    ApartAdds(v * 64, i % 64, 6);
  }

  /** The tests of a byte's tag, and what is masked out of it. */
  lemma TagBits(i: nat)
    ensures Shr(i, 7) == i / 128 && Shr(i, 6) == i / 64 && Shr(i, 5) == i / 32 && Shr(i, 4) == i / 16
    ensures Shr(i, 3) == i / 8
    ensures Shr(i, 2) == i / 4 && Shr(i, 1) == i / 2
    ensures And(i, 0x1F) == i % 32 && And(i, 0x0F) == i % 16 && And(i, 0x07) == i % 8 && And(i, 0x03) == i % 4
    ensures And(i, 0x01) == i % 2
  {
    PowersUsed();
    ShrDivides(i, 7);
    ShrDivides(i, 6);
    ShrDivides(i, 5);
    ShrDivides(i, 4);
    ShrDivides(i, 3);
    ShrDivides(i, 2);
    ShrDivides(i, 1);
    MaskIsRemainder(i, 5);
    MaskIsRemainder(i, 4);
    MaskIsRemainder(i, 3);
    MaskIsRemainder(i, 2);
    MaskIsRemainder(i, 1);
  }

  /** How many bytes the first byte announces, and the first bits of the code. */
  method FirstByte(i: Byte) returns (n: nat, v: nat)
    ensures n == LeadLen(i) && v == LeadBits(i, n)
  {
    TagBits(i);
    if 0 == Shr(i, 7) { return 1, i; }
    if 0x6 == Shr(i, 5) { return 2, And(i, 0x1F); }
    if 0xE == Shr(i, 4) { return 3, And(i, 0x0F); }
    if 0x1E == Shr(i, 3) { return 4, And(i, 0x07); }
    if 0x3E == Shr(i, 2) { return 5, And(i, 0x03); }
    if 0x7E == Shr(i, 1) { return 6, And(i, 0x01); }
    return 0, i;
  }

  /** What a continuation byte adds to the bits read before. */
  method NextByte(i: Byte, v: nat) returns (ok: bool, w: nat)
    ensures ok <==> i / 64 == 2
    ensures ok ==> w == v * 64 + i % 64
  {
    TagBits(i);
    if 0x2 != Shr(i, 6) { return false, v; }
    ContinuationAdds(v, i);
    return true, Or(Shl(v, 6), And(i, 0x3F));
  }

  /** The decoder, with the loops it has for each announced length as one. */
  method Utf8ToUcs(mem: Str, len: int) returns (used: int, code: int)
    ensures match DecodeWritten(mem, len)
            case None => used == -1
            case Some(d) => used == d.used && code == d.code
  {
    code := 0;
    var i := At(mem, 0);
    var buf := 1;
    var n, v := FirstByte(i);
    if n == 0 || len < n {
      return -1, 0;
    }
    for j := 0 to n - 1
      invariant buf == 1 + j
      invariant Continue(mem, buf + 1, n - 1 - j, v) == Continue(mem, 2, n - 1, LeadBits(At(mem, 0), n))
    {
      buf := buf + 1;
      i := At(mem, buf);
      var ok;
      ok, v := NextByte(i, v);
      if !ok {
        return -1, 0;
      }
    }
    return buf, v;
  }

  /** Consecutive assignments to `buf[off]`, `buf[off + 1]`, ... */
  method Store(buf: array<Byte>, off: nat, bytes: Str) returns (n: int)
    requires off + |bytes| <= buf.Length
    modifies buf
    ensures n == |bytes|
    ensures buf[..off + |bytes|] == old(buf[..off]) + bytes
    ensures buf[off + |bytes|..] == old(buf[off + |bytes|..])
  {
    for i := 0 to |bytes|
      invariant buf[off + |bytes|..] == old(buf[off + |bytes|..])
      invariant buf[..off + i] == old(buf[..off]) + bytes[..i]
    {
      buf[off + i] := bytes[i];
      assert buf[..off + i + 1] == buf[..off + i] + [bytes[i]];
    }
    n := |bytes|;
  }

  /** The encoder, writing into `buf` from `off` on. */
  method UcsToUtf8(code: int, buf: array<Byte>, off: nat) returns (n: int)
    requires off + 6 <= buf.Length
    modifies buf
    ensures n == if Encodable(code) then EncLen(code) else -1
    ensures Encodable(code) ==>
              buf[..off + n] == old(buf[..off]) + Encode(code) && buf[off + n..] == old(buf[off + n..])
    ensures !Encodable(code) ==> buf[..] == old(buf[..])
  {
    if 0xD800 <= code <= 0xDFFF { return -1; }
    if 0xFFFE <= code <= 0xFFFF { return -1; }
    if code < 0 || 0x7FFF_FFFF < code { return -1; }
    var bytes := BytesOf(code);
    n := Store(buf, off, bytes);
  }

  /** The bytes it assigns. */
  method BytesOf(code: nat) returns (bytes: seq<nat>)
    requires Encodable(code)
    ensures bytes == Encode(code)
  {
    if code <= 0x7F {
      bytes := [code];
    } else if code <= 0x7FF {
      TwoBytes(code);
      bytes := [Or(0xC0, Shr(code, 6)), Or(0x80, And(code, 0x3F))];
    } else if code <= 0xFFFF {
      ThreeBytes(code);
      bytes := [Or(0xE0, Shr(code, 12)), Or(0x80, And(Shr(code, 6), 0x3F)), Or(0x80, And(code, 0x3F))];
    } else if code <= 0x1F_FFFF {
      FourBytes(code);
      bytes := [Or(0xF0, Shr(code, 18)), Or(0x80, And(Shr(code, 12), 0x3F)), Or(0x80, And(Shr(code, 6), 0x3F)),
                Or(0x80, And(code, 0x3F))];
    } else if code <= 0x3FF_FFFF {
      FiveBytes(code);
      bytes := [Or(0xF8, Shr(code, 24)), Or(0x80, And(Shr(code, 18), 0x3F)), Or(0x80, And(Shr(code, 12), 0x3F)),
                Or(0x80, And(Shr(code, 6), 0x3F)), Or(0x80, And(code, 0x3F))];
    } else {
      SixBytes(code);
      bytes := [Or(0xFC, Shr(code, 30)), Or(0x80, And(Shr(code, 24), 0x3F)), Or(0x80, And(Shr(code, 18), 0x3F)),
                Or(0x80, And(Shr(code, 12), 0x3F)), Or(0x80, And(Shr(code, 6), 0x3F)), Or(0x80, And(code, 0x3F))];
    }
  }

  lemma TwoBytes(code: nat)
    requires 0x7F < code <= 0x7FF && Encodable(code)
    ensures Encode(code) == [Or(0xC0, Shr(code, 6)), Or(0x80, And(code, 0x3F))]
  {
    LeadJoins(code, 2);
    OneGroup(code);
  }

  lemma ThreeBytes(code: nat)
    requires 0x7FF < code <= 0xFFFF && Encodable(code)
    ensures Encode(code) == [Or(0xE0, Shr(code, 12)), Or(0x80, And(Shr(code, 6), 0x3F)), Or(0x80, And(code, 0x3F))]
  {
    LeadJoins(code, 3);
    TwoGroups(code);
  }

  lemma FourBytes(code: nat)
    requires 0xFFFF < code <= 0x1F_FFFF && Encodable(code)
    ensures Encode(code) == [Or(0xF0, Shr(code, 18)), Or(0x80, And(Shr(code, 12), 0x3F)),
                             Or(0x80, And(Shr(code, 6), 0x3F)), Or(0x80, And(code, 0x3F))]
  {
    LeadJoins(code, 4);
    ThreeGroups(code);
  }

  lemma FiveBytes(code: nat)
    requires 0x1F_FFFF < code <= 0x3FF_FFFF && Encodable(code)
    ensures Encode(code) == [Or(0xF8, Shr(code, 24)), Or(0x80, And(Shr(code, 18), 0x3F)),
                             Or(0x80, And(Shr(code, 12), 0x3F)), Or(0x80, And(Shr(code, 6), 0x3F)),
                             Or(0x80, And(code, 0x3F))]
  {
    LeadJoins(code, 5);
    FourGroups(code);
  }

  lemma SixBytes(code: nat)
    requires 0x3FF_FFFF < code && Encodable(code)
    ensures Encode(code) == [Or(0xFC, Shr(code, 30)), Or(0x80, And(Shr(code, 24), 0x3F)),
                             Or(0x80, And(Shr(code, 18), 0x3F)), Or(0x80, And(Shr(code, 12), 0x3F)),
                             Or(0x80, And(Shr(code, 6), 0x3F)), Or(0x80, And(code, 0x3F))]
  {
    LeadJoins(code, 6);
    FiveGroups(code);
  }

  // The continuation bytes, as they are masked out of the code.

  lemma OneGroup(code: nat)
    ensures Tail(code, 1) == [Or(0x80, And(code, 0x3F))]
  {
    TailStep(code, 1);
  }

  lemma TwoGroups(code: nat)
    ensures Tail(code, 2) == [Or(0x80, And(Shr(code, 6), 0x3F)), Or(0x80, And(code, 0x3F))]
  {
    TailStep(code, 2);
    OneGroup(code);
  }

  lemma ThreeGroups(code: nat)
    ensures Tail(code, 3) == [Or(0x80, And(Shr(code, 12), 0x3F)), Or(0x80, And(Shr(code, 6), 0x3F)),
                              Or(0x80, And(code, 0x3F))]
  {
    TailStep(code, 3);
    TwoGroups(code);
  }

  lemma FourGroups(code: nat)
    ensures Tail(code, 4) == [Or(0x80, And(Shr(code, 18), 0x3F)), Or(0x80, And(Shr(code, 12), 0x3F)),
                              Or(0x80, And(Shr(code, 6), 0x3F)), Or(0x80, And(code, 0x3F))]
  {
    TailStep(code, 4);
    ThreeGroups(code);
  }

  lemma FiveGroups(code: nat)
    ensures Tail(code, 5) == [Or(0x80, And(Shr(code, 24), 0x3F)), Or(0x80, And(Shr(code, 18), 0x3F)),
                              Or(0x80, And(Shr(code, 12), 0x3F)), Or(0x80, And(Shr(code, 6), 0x3F)),
                              Or(0x80, And(code, 0x3F))]
  {
    TailStep(code, 5);
    FourGroups(code);
  }

  lemma TailStep(code: nat, m: nat)
    requires m > 0
    ensures Tail(code, m) == [Or(0x80, And(Shr(code, 6 * (m - 1)), 0x3F))] + Tail(code, m - 1)
  {
    HiShifts(code, m - 1);
    GroupJoins(Shr(code, 6 * (m - 1)));
  }

  // ---- One code ----

  lemma {:induction false} ContinueTail(mem: Str, k: nat, m: nat, code: nat)
    requires k + m <= |mem| && mem[k..k + m] == Tail(code, m)
    ensures Continue(mem, k, m, Hi(code, m)) == Some(code)
    decreases m
  {
    if m > 0 {
      assert mem[k] == mem[k..k + m][0] == 0x80 + Hi(code, m - 1) % 64;
      assert mem[k + 1..k + m] == mem[k..k + m][1..] == Tail(code, m - 1);
      ContinueTail(mem, k + 1, m - 1, code);
    }
  }

  /** Decoding undoes encoding, whatever follows. */
  lemma DecodeEncode(code: int, rest: Str)
    requires Encodable(code)
    ensures Decode(Encode(code) + rest, |Encode(code) + rest|) == Some(Decoded(code, EncLen(code)))
  {
    var n := EncLen(code);
    var mem := Encode(code) + rest;
    LeadFits(code);
    assert mem[1..n] == Tail(code, n - 1);
    ContinueTail(mem, 1, n - 1, code);
  }

  /** The length of the shortest encoding, by the size of the code. */
  predicate ShortestLength(code: int, n: nat) {
    match n
    case 1 => code < 0x80
    case 2 => 0x80 <= code < 0x800
    case 3 => 0x800 <= code < 0x1_0000
    case 4 => 0x1_0000 <= code < 0x20_0000
    case 5 => 0x20_0000 <= code < 0x400_0000
    case 6 => 0x400_0000 <= code
    case _ => false
  }

  /**
    * A code has an encoding unless it is negative, wider than 31 bits, a surrogate or
    * one of the last two of the first plane; and that is its shortest layout.
    */
  lemma EncodesExactly(code: int, b: Str)
    ensures Encodable(code) && b == Encode(code) <==>
            && 0 <= code < 0x8000_0000 && !(0xD800 <= code < 0xE000) && code != 0xFFFE && code != 0xFFFF
            && ShortestLength(code, |b|) && Layout(b, code)
  {
    if Encodable(code) {
      var e := Encode(code);
      DecodeEncode(code, []);
      assert e + [] == e && e[..|e|] == e;
      DecodesExactly(e, |e|, code, |e|);
      if Layout(b, code) && |b| == |e| { LayoutOnce(b, e, code); }
    }
  }

  lemma {:induction false} FoldedOnce(v: int, a: Str, w: int, b: Str)
    requires |a| == |b| && Folded(v, a) == Folded(w, b)
    requires forall i | 0 <= i < |a| :: IsTail(a[i]) && IsTail(b[i])
    ensures v == w && a == b
    decreases |a|
  {
    if a != [] {
      FoldedOnce(v * 64 + (a[0] as int - 0x80), a[1..], w * 64 + (b[0] as int - 0x80), b[1..]);
      assert a == [a[0]] + a[1..] && b == [b[0]] + b[1..];
    }
  }

  /** There is one layout of a length. */
  lemma LayoutOnce(a: Str, b: Str, code: int)
    requires Layout(a, code) && Layout(b, code) && |a| == |b|
    ensures a == b
  {
    if |a| > 1 {
      var tag := match |a| case 2 => 0xC0 case 3 => 0xE0 case 4 => 0xF0 case 5 => 0xF8 case _ => 0xFC;
      FoldedOnce(a[0] as int - tag, a[1..], b[0] as int - tag, b[1..]);
      assert a == [a[0]] + a[1..] && b == [b[0]] + b[1..];
    }
  }

  /** No accepted code's encoding is a prefix of another's. */
  lemma PrefixFree(a: int, b: int)
    requires Encodable(a) && Encodable(b) && Encode(a) <= Encode(b)
    ensures a == b
  {
    var rest := Encode(b)[EncLen(a)..];
    assert Encode(b) == Encode(a) + rest;
    DecodeEncode(a, rest);
    assert Encode(b) + [] == Encode(b);
    DecodeEncode(b, []);
  }

  /** Whatever the continuation loop accepts is the tail of its result. */
  lemma {:induction false} ContinueInv(mem: Str, k: nat, m: nat, v: nat)
    requires Continue(mem, k, m, v).Some?
    ensures var c := Continue(mem, k, m, v).value;
            Hi(c, m) == v && forall i | 0 <= i < m :: At(mem, k + i) == Tail(c, m)[i]
    decreases m
  {
    if m > 0 {
      ContinueInv(mem, k + 1, m - 1, v * 64 + At(mem, k) % 64);
      var c := Continue(mem, k, m, v).value;
      assert Hi(c, m) == Hi(c, m - 1) / 64 == v;
      forall i | 0 <= i < m ensures At(mem, k + i) == Tail(c, m)[i] {
        if i > 0 {
          assert At(mem, k + 1 + (i - 1)) == Tail(c, m - 1)[i - 1];
        }
      }
    }
  }

  /**
    * Shortest form: no byte sequence that decodes to an accepted code is shorter
    * than the encoder's, and the only one as short is the encoder's own.
    */
  lemma ShortestForm(s: Str)
    requires Decode(s, |s|).Some? && Encodable(Decode(s, |s|).value.code)
    ensures var d := Decode(s, |s|).value;
            && EncLen(d.code) <= d.used
            && (s[..d.used] == Encode(d.code) <==> EncLen(d.code) == d.used)
  {
    var n := LeadLen(s[0]);
    var c := Decode(s, |s|).value.code;
    ContinueInv(s, 1, n - 1, LeadBits(s[0], n));
    LenBound(c, s[0]);
    if EncLen(c) == n {
      LeadOf(c, s[0]);
      assert s[..n] == [s[0]] + Tail(c, n - 1);
    }
  }

  /** A first byte announces enough bytes for the code that begins with its bits. */
  lemma LenBound(c: nat, b: Byte)
    requires LeadLen(b) != 0 && Hi(c, LeadLen(b) - 1) == LeadBits(b, LeadLen(b))
    ensures EncLen(c) <= LeadLen(b)
  {
    HiUnfold(c);
  }

  /** It is the tag and the leading bits of that code. */
  lemma LeadOf(c: nat, b: Byte)
    requires LeadLen(b) != 0 && Hi(c, LeadLen(b) - 1) == LeadBits(b, LeadLen(b))
    ensures b == Mark(LeadLen(b)) + Hi(c, LeadLen(b) - 1)
  {
  }

  // ---- Streams ----

  ghost predicate AllEncodable(codes: seq<int>) {
    forall i | 0 <= i < |codes| :: Encodable(codes[i])
  }

  function EncodeAll(codes: seq<int>): Str
    requires AllEncodable(codes)
  {
    if codes == [] then [] else Encode(codes[0]) + EncodeAll(codes[1..])
  }

  /** Calling the decoder again and again until the bytes are used up. */
  function DecodeAll(s: Str, first: nat): Option<seq<Decoded>> {
    if s == [] then Some([])
    else match DecodeFrom(s, |s|, first)
      case None => None
      case Some(d) =>
        match DecodeAll(s[d.used..], first)
        case None => None
        case Some(ds) => Some([d] + ds)
  }

  function WithLengths(codes: seq<int>): seq<Decoded>
    requires AllEncodable(codes)
  {
    if codes == [] then [] else [Decoded(codes[0], EncLen(codes[0]))] + WithLengths(codes[1..])
  }

  /** The codec round trip on streams, for the layout the comments give. */
  lemma {:induction false} StreamRoundTrip(codes: seq<int>)
    requires AllEncodable(codes)
    ensures DecodeAll(EncodeAll(codes), 1) == Some(WithLengths(codes))
  {
    if codes != [] {
      var rest := EncodeAll(codes[1..]);
      DecodeEncode(codes[0], rest);
      assert (Encode(codes[0]) + rest)[EncLen(codes[0])..] == rest;
      StreamRoundTrip(codes[1..]);
    }
  }

  /** No encoding starts with a continuation byte. */
  lemma EncodeStart(codes: seq<int>)
    requires AllEncodable(codes)
    ensures At(EncodeAll(codes), 0) / 64 != 2
  {
    if codes != [] {
      LeadFits(codes[0]);
    }
  }

  /** Reading m bytes of which the last is no continuation byte fails. */
  lemma {:induction false} ContinueStops(mem: Str, k: nat, m: nat, v: nat)
    requires m > 0 && At(mem, k + m - 1) / 64 != 2
    ensures Continue(mem, k, m, v) == None
    decreases m
  {
    if m > 1 && At(mem, k) / 64 == 2 {
      ContinueStops(mem, k + 1, m - 1, v * 64 + At(mem, k) % 64);
    }
  }

  /**
    * The decoder as written gets a stream back exactly when every code in it is
    * 7-bit: on any longer code it reads the byte after the encoding as its last
    * continuation byte, and in a stream that byte never is one.
    */
  lemma {:induction false} WrittenDecoderOnStreams(codes: seq<int>)
    requires AllEncodable(codes)
    ensures DecodeAll(EncodeAll(codes), 2) == Some(WithLengths(codes))
       <==> forall i | 0 <= i < |codes| :: codes[i] <= 0x7F
    ensures (exists i | 0 <= i < |codes| :: codes[i] > 0x7F) ==> DecodeAll(EncodeAll(codes), 2) == None
  {
    if codes != [] {
      var rest := EncodeAll(codes[1..]);
      var n := EncLen(codes[0]);
      var mem := Encode(codes[0]) + rest;
      LeadFits(codes[0]);
      if codes[0] > 0x7F {
        EncodeStart(codes[1..]);
        assert At(mem, n) == At(rest, 0);
        ContinueStops(mem, 2, n - 1, LeadBits(mem[0], n));
        assert codes[0] > 0x7F;
      } else {
        assert mem[n..] == rest;
        WrittenDecoderOnStreams(codes[1..]);
        assert forall i | 0 <= i < |codes| - 1 :: codes[1..][i] == codes[i + 1];
        assert (forall i | 0 <= i < |codes| :: codes[i] <= 0x7F)
          <==> forall i | 0 <= i < |codes| - 1 :: codes[1..][i] <= 0x7F by {
          if forall i | 0 <= i < |codes| - 1 :: codes[1..][i] <= 0x7F {
            forall i | 0 <= i < |codes| ensures codes[i] <= 0x7F {
              if i > 0 { assert codes[1..][i - 1] <= 0x7F; }
            }
          }
        }
      }
    }
  }

  /** A concrete stream the decoder as written refuses: the two bytes of U+0080. */
  lemma WrittenDecoderFails()
    ensures Encodable(0x80) && Encode(0x80) == [0xC2, 0x80]
    ensures Decode([0xC2, 0x80], 2) == Some(Decoded(0x80, 2))
    ensures DecodeWritten([0xC2, 0x80], 2) == None
  {
    HiUnfold(0x80);
    assert Continue([0xC2, 0x80], 2, 1, 2) == None;
    assert Continue([0xC2, 0x80], 1, 1, 2) == Continue([0xC2, 0x80], 2, 0, 0x80) == Some(0x80);
  }
}
