/** `normalize_string`: turning the source text of a string into raw UTF-8. */
module Unescape {
  import opened Bytes
  import opened Blocks
  import Utf8
  import opened Lexer

  datatype Complaint = NotQuoted | TrailingBackslash | TooFewHex | InvalidHex | IllegalCode | IllegalEscape

  datatype Unescaped = Raw(text: Str) | Bad(why: Complaint)

  datatype HexRead = Code(value: nat) | HexError(why: Complaint)

  function HexDigit(b: Byte): nat
    requires IsHex(b)
  {
    if b <= 57 then b - 48 else b - 55
  }

  /** Reads `n` hex digits at `p`, before `hi`. */
  function ReadHex(mem: Str, p: nat, hi: nat, n: nat, acc: nat): HexRead
    requires hi <= |mem|
    decreases n
  {
    if n == 0 then Code(acc)
    else if p >= hi then HexError(TooFewHex)
    else if !IsHex(mem[p]) then HexError(InvalidHex)
    else ReadHex(mem, p + 1, hi, n - 1, acc * 16 + HexDigit(mem[p]))
  }

  /** Bound on what n more digits make of `acc`. */
  lemma {:induction false} ReadHexBound(mem: Str, p: nat, hi: nat, n: nat, acc: nat, bound: nat)
    requires p <= hi <= |mem| && acc < bound && n <= 8
    ensures match ReadHex(mem, p, hi, n, acc)
            case Code(v) => v < bound * Pow16(n) && p + n <= hi
            case HexError(_) => true
    decreases n
  {
    if n > 0 && p < hi && IsHex(mem[p]) {
      var acc' := acc * 16 + HexDigit(mem[p]);
      ReadHexBound(mem, p + 1, hi, n - 1, acc', bound * 16);
      assert (bound * 16) * Pow16(n - 1) == bound * Pow16(n) by { var k := Pow16(n - 1); assert Pow16(n) == 16 * k; }
    } else if n == 0 {
      assert ReadHex(mem, p, hi, n, acc) == Code(acc);
    }
  }

  function Pow16(n: nat): nat { if n == 0 then 1 else 16 * Pow16(n - 1) }

  /** The byte a one-letter escape stands for. */
  function Simple(b: Byte): Byte
    requires IsSimpleEscape(b)
  {
    if b == LOWER_B then BACKSPACE
    else if b == LOWER_T then TAB
    else if b == LOWER_N then LF
    else if b == LOWER_F then FORMFEED
    else if b == LOWER_R then CR
    else b
  }

  /** `strspn(mem + p, " \t\r\n")`, as the position it leads to. */
  function SkipSpace(mem: Str, p: nat): (q: nat)
    ensures p <= q
    ensures forall i | p <= i < q :: IsSpace(At(mem, i))
    ensures !IsSpace(At(mem, q))
    decreases |mem| - p
  {
    if IsSpace(At(mem, p)) then SkipSpace(mem, p + 1) else p
  }

  predicate EndsLine(mem: Str, p: nat) {
    At(mem, p) == LF || (At(mem, p) == CR && At(mem, p + 1) == LF)
  }

  function Prepend(a: Str, r: Unescaped): Unescaped {
    match r case Raw(t) => Raw(a + t) case Bad(w) => Bad(w)
  }

  /** One round of the loop: it is done, it fails, or it writes `out` and moves on to `next`. */
  datatype Round = Done | Fail(why: Complaint) | Go(out: Str, next: nat)

  function Step(mem: Str, p: nat, hi: nat, kill: bool): (r: Round)
    requires hi <= |mem|
    ensures r.Go? ==> p < hi && p < r.next && |r.out| <= r.next - p && |r.out| <= 6
  {
    if p >= hi then Done
    else if mem[p] != BACKSLASH then Go([mem[p]], p + 1)
    else if p + 1 >= hi then Fail(TrailingBackslash)
    else if kill && EndsLine(mem, p + 1) then Go([], SkipSpace(mem, p + 1))
    else if mem[p + 1] == LOWER_U || mem[p + 1] == UPPER_U then
      var n := if mem[p + 1] == LOWER_U then 4 else 8;
      match ReadHex(mem, p + 2, hi, n, 0)
      case HexError(w) => Fail(w)
      case Code(c) =>
        if Utf8.Encodable(c) then
          ReadHexBound(mem, p + 2, hi, n, 0, 1);
          assert Pow16(4) == 0x10000;
          Go(Utf8.Encode(c), p + 2 + n)
        else Fail(IllegalCode)
    else if IsSimpleEscape(mem[p + 1]) then Go([Simple(mem[p + 1])], p + 2)
    else Fail(IllegalEscape)
  }

  /** The text of `mem[p..hi]` with its escapes resolved; `kill` drops line-ending backslashes. */
  function Unescape(mem: Str, p: nat, hi: nat, kill: bool): Unescaped
    requires hi <= |mem|
    decreases hi - p
  {
    match Step(mem, p, hi, kill)
    case Done => Raw([])
    case Fail(w) => Bad(w)
    case Go(out, next) => Prepend(out, Unescape(mem, next, hi, kill))
  }

  /** Unescaping never makes a text longer. */
  lemma {:induction false} NeverLonger(mem: Str, p: nat, hi: nat, kill: bool)
    requires hi <= |mem| && Unescape(mem, p, hi, kill).Raw?
    ensures |Unescape(mem, p, hi, kill).text| <= (if p <= hi then hi - p else 0)
    decreases hi - p
  {
    match Step(mem, p, hi, kill)
    case Go(out, next) => NeverLonger(mem, next, hi, kill);
    case _ =>
  }

  lemma PrependAssoc(a: Str, b: Str, r: Unescaped)
    ensures Prepend(a, Prepend(b, r)) == Prepend(a + b, r)
  {
    if r.Raw? {
      assert a + (b + r.text) == a + b + r.text;
    }
  }

  /** One round carries the loop's invariant forward. */
  lemma Advance(mem: Str, lo: nat, sp: nat, hi: nat, kill: bool, done: Str)
    requires hi <= |mem| && Step(mem, sp, hi, kill).Go?
    requires Prepend(done, Unescape(mem, sp, hi, kill)) == Unescape(mem, lo, hi, kill)
    ensures var r := Step(mem, sp, hi, kill);
            Prepend(done + r.out, Unescape(mem, r.next, hi, kill)) == Unescape(mem, lo, hi, kill)
  {
    var r := Step(mem, sp, hi, kill);
    PrependAssoc(done, r.out, Unescape(mem, r.next, hi, kill));
  }

  /** The inner loop over the hex digits of a Unicode escape. */
  method HexDigits(mem: Str, lo: nat, hi: nat, nhex: nat, heap: Allocator) returns (r: HexRead)
    requires hi <= |mem| && Scratch in heap.live
    modifies heap
    ensures r == ReadHex(mem, lo, hi, nhex, 0)
    ensures heap.live == old(heap.live) - if r.HexError? then {Scratch} else {}
  {
    var ucs: nat, sp := 0, lo;
    for i := 0 to nhex
      invariant sp == lo + i && heap.live == old(heap.live)
      invariant ReadHex(mem, sp, hi, nhex - i, ucs) == ReadHex(mem, lo, hi, nhex, 0)
    {
      if sp >= hi {
        heap.Free(Scratch);
        return HexError(TooFewHex);
      }
      var ch := mem[sp];
      sp := sp + 1;
      if !IsHex(ch) {
        heap.Free(Scratch);
        return HexError(InvalidHex);
      }
      ucs := ucs * 16 + HexDigit(ch);
    }
    return Code(ucs);
  }

  /** The body of the loop, past its growth check: `off` has room for six bytes. A complaint frees the buffer. */
  method OneRound(mem: Str, sp0: nat, hi: nat, kill: bool, dst: array<Byte>, off: nat, heap: Allocator, ghost done: Str)
    returns (r: Round, written: nat)
    requires hi <= |mem| && off + 6 <= dst.Length && dst[..off] == done && Scratch in heap.live
    modifies dst, heap
    ensures heap.live == old(heap.live) - if r.Fail? then {Scratch} else {}
    ensures r == Step(mem, sp0, hi, kill)
    ensures r.Go? ==> written == |r.out| && dst[..off + written] == done + r.out
    ensures !r.Go? ==> dst[..off] == done
  {
    written := 0;
    var sp := sp0;
    if sp >= hi { return Done, 0; }
    var ch := mem[sp];
    sp := sp + 1;
    if ch != BACKSLASH {
      written := Utf8.Store(dst, off, [ch]);
      return Go([ch], sp), written;
    }
    if sp >= hi {
      heap.Free(Scratch);
      return Fail(TrailingBackslash), 0;
    }
    if kill && EndsLine(mem, sp) {
      return Go([], SkipSpace(mem, sp)), 0;
    }
    ch := mem[sp];
    sp := sp + 1;
    if ch == LOWER_U || ch == UPPER_U {
      var nhex := if ch == LOWER_U then 4 else 8;
      var hex := HexDigits(mem, sp, hi, nhex, heap);
      if hex.HexError? { return Fail(hex.why), 0; }
      var n := Utf8.UcsToUtf8(hex.value, dst, off);
      if n == -1 {
        heap.Free(Scratch);
        return Fail(IllegalCode), 0;
      }
      return Go(Utf8.Encode(hex.value), sp + nhex), n;
    }
    if !IsSimpleEscape(ch) {
      heap.Free(Scratch);
      return Fail(IllegalEscape), 0;
    }
    written := Utf8.Store(dst, off, [Simple(ch)]);
    return Go([Simple(ch)], sp), written;
  }

  /**
    * The loop of the source over a buffer grown by 100 bytes at a time. Every
    * index it writes is in bounds, the closing NUL included. The buffer is the
    * caller's at the end, and freed at every complaint.
    */
  method NormalizeString(mem: Str, lo: nat, hi: nat, kill: bool, heap: Allocator)
    returns (r: Unescaped, dst: array<Byte>)
    requires lo <= hi <= |mem| && Scratch !in heap.live
    modifies heap
    ensures heap.live == old(heap.live) + if r.Raw? then {Scratch} else {}
    ensures r == Unescape(mem, lo, hi, kill)
    ensures r.Raw? ==> |r.text| < dst.Length && dst[..|r.text|] == r.text && dst[|r.text|] == NUL
    ensures r.Raw? ==> |r.text| <= hi - lo
  {
    var max, off, sp := 0, 0, lo;
    ghost var done: Str := [];
    dst := new Byte[0];
    while true
      invariant 0 <= off <= dst.Length == max && (max > 0 ==> off < max - 4)
      invariant lo <= sp && fresh(dst)
      invariant heap.live == old(heap.live) + if max > 0 then {Scratch} else {}
      invariant dst[..off] == done
      invariant Prepend(done, Unescape(mem, sp, hi, kill)) == Unescape(mem, lo, hi, kill)
      decreases hi - sp
    {
      if off >= max - 10 {
        heap.Grow(Scratch, max == 0);
        max := max + 100;
        dst := Realloc(dst, off, max);
      }
      assert off < max - 10;
      var round, written := OneRound(mem, sp, hi, kill, dst, off, heap, done);
      if round.Done? { break; }
      if round.Fail? { return Bad(round.why), dst; }
      Advance(mem, lo, sp, hi, kill, done);
      off, sp, done := off + written, round.next, done + round.out;
    }
    dst[off] := NUL;
    assert dst[..off] == done;
    r := Raw(dst[..off]);
    NeverLonger(mem, lo, hi, kill);
  }

  /** `realloc`: a larger block holding the old contents. */
  method Realloc(a: array<Byte>, used: nat, size: nat) returns (b: array<Byte>)
    requires used <= a.Length <= size
    ensures fresh(b) && b.Length == size && b[..used] == a[..used]
  {
    b := new Byte[size];
    for i := 0 to a.Length
      invariant b[..i] == a[..i]
    {
      b[i] := a[i];
    }
    assert forall i | 0 <= i < used :: b[i] == b[..a.Length][i] == a[..a.Length][i];
  }
}
