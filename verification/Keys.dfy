/** `normalize_key`: from a STRING token to the key it names. */
module Keys {
  import opened Bytes
  import opened Lexer
  import opened Blocks
  import opened Unescape

  /** The key as later comparisons see it (up to its first NUL), or why there is none. */
  datatype KeyRead = Key(name: Str) | BadKey | BadText(why: Complaint)

  predicate IsKeyByte(b: Byte) { IsAlnum(b) || b == UNDERSCORE || b == DASH }

  /** Newlines are not allowed in keys; `strchr` looks no further than the first NUL. */
  function Checked(text: Str): KeyRead {
    if LF in Cut(text) then BadKey else Key(Cut(text))
  }

  /** The key a token's text names. */
  function KeyOf(text: Str): KeyRead {
    if text != [] && (text[0] == SQUOTE || text[0] == DQUOTE) then
      var n := if IsTriple(text, 0, text[0]) then 3 else 1;
      if |text| < 2 * n then BadKey  // no token is this short
      else if text[0] == SQUOTE then Checked(text[n..|text| - n])
      else match Unescape.Unescape(text, n, |text| - n, false)
        case Raw(t) => Checked(t)
        case Bad(w) => BadText(w)
    else if forall i | 0 <= i < |text| :: IsKeyByte(text[i]) then Key(text)
    else BadKey
  }

  // ---- Reading the key where it stands in the input ----

  lemma {:induction false} ReadHexShift(mem: Str, at: nat, text: Str, p: nat, hi: nat, n: nat, acc: nat)
    requires hi <= |text| && LiesAt(mem, at, text)
    ensures ReadHex(mem, at + p, at + hi, n, acc) == ReadHex(text, p, hi, n, acc)
    decreases n
  {
    if n > 0 && p < hi {
      if IsHex(text[p]) {
        ReadHexShift(mem, at, text, p + 1, hi, n - 1, acc * 16 + HexDigit(text[p]));
      }
    }
  }

  lemma {:induction false} StepShift(mem: Str, at: nat, text: Str, p: nat, hi: nat, sp: nat, sq: nat)
    requires hi <= |text| && LiesAt(mem, at, text) && sp == at + p && sq == at + hi
    ensures Step(mem, sp, sq, false) == Moved(Step(text, p, hi, false), at)
  {
    if p + 1 < hi && text[p] == BACKSLASH && (text[p + 1] == LOWER_U || text[p + 1] == UPPER_U) {
      UniShift(mem, at, text, p, hi, sp, sq, if text[p + 1] == LOWER_U then 4 else 8);
    } else if p < hi {
      assert mem[sp] == text[p];
      if p + 1 < hi { assert mem[sp + 1] == mem[at + (p + 1)] == text[p + 1]; }
    }
  }

  function Moved(r: Round, at: nat): Round {
    match r
    case Go(out, next) => Go(out, at + next)
    case _ => r
  }

  /** What an escape with these digits comes to. */
  function Escaped(read: HexRead, next: nat): Round {
    match read
    case HexError(w) => Fail(w)
    case Code(c) => if Utf8.Encodable(c) then Go(Utf8.Encode(c), next) else Fail(IllegalCode)
  }

  lemma {:induction false} StepUni(mem: Str, p: nat, hi: nat, n: nat)
    requires p + 1 < hi <= |mem| && mem[p] == BACKSLASH && mem[p + 1] == (if n == 4 then LOWER_U else UPPER_U)
    requires n == 4 || n == 8
    ensures Step(mem, p, hi, false) == Escaped(ReadHex(mem, p + 2, hi, n, 0), p + 2 + n)
  {
  }

  lemma {:induction false} UniShift(mem: Str, at: nat, text: Str, p: nat, hi: nat, sp: nat, sq: nat, n: nat)
    requires p + 1 < hi <= |text| && LiesAt(mem, at, text) && sp == at + p && sq == at + hi
    requires text[p] == BACKSLASH && (text[p + 1] == if n == 4 then LOWER_U else UPPER_U) && (n == 4 || n == 8)
    ensures Step(mem, sp, sq, false) == Moved(Step(text, p, hi, false), at)
  {
    assert mem[sp] == text[p] && mem[sp + 1] == mem[at + (p + 1)] == text[p + 1];
    StepUni(mem, sp, sq, n);
    StepUni(text, p, hi, n);
    SameDigits(mem, at, text, p + 2, hi, sp + 2, sq, n);
  }

  lemma {:induction false} SameDigits(mem: Str, at: nat, text: Str, p: nat, hi: nat, sp: nat, sq: nat, n: nat)
    requires hi <= |text| && LiesAt(mem, at, text) && sp == at + p && sq == at + hi
    ensures ReadHex(mem, sp, sq, n, 0) == ReadHex(text, p, hi, n, 0)
  {
    ReadHexShift(mem, at, text, p, hi, n, 0);
  }

  /** Unescaping a slice in place is unescaping its text; nothing past the slice is looked at. */
  lemma {:induction false} UnescapeShift(mem: Str, at: nat, text: Str, p: nat, hi: nat, sp: nat, sq: nat)
    requires hi <= |text| && LiesAt(mem, at, text) && sp == at + p && sq == at + hi
    ensures Unescape.Unescape(mem, sp, sq, false) == Unescape.Unescape(text, p, hi, false)
    decreases hi - p
  {
    StepShift(mem, at, text, p, hi, sp, sq);
    match Step(text, p, hi, false)
    case Go(out, next) => UnescapeShift(mem, at, text, next, hi, at + next, sq);
    case _ =>
  }

  /**
    * Looking two bytes ahead of a quote, past the end of an empty string, tells a
    * triple quote exactly when the token itself is one.
    */
  lemma TripleInPlace(inp: Str, t: Token)
    requires TokenOk(inp, t) && t.kind.String? && (inp[t.ptr] == SQUOTE || inp[t.ptr] == DQUOTE)
    ensures IsTriple(inp, t.ptr, inp[t.ptr]) <==> IsTriple(Text(inp, t), 0, inp[t.ptr])
    ensures t.len >= if IsTriple(inp, t.ptr, inp[t.ptr]) then 6 else 2
  {
    var dot :| (dot ==> inp[t.ptr] != DOT) && ScanString(inp, t.ptr, dot) == Some(t.ptr + t.len);
    assert forall i: nat | i < t.len :: Text(inp, t)[i] == inp[t.ptr + i];
    if IsTriple(Text(inp, t), 0, inp[t.ptr]) {
      assert t.len >= 3;
    }
  }

  /** `normalize_key`: a key is a block of the caller's; where there is none, nothing has been left behind. */
  method NormalizeKey(inp: Str, t: Token, heap: Allocator) returns (r: KeyRead)
    requires TokenOk(inp, t) && t.kind.String? && Scratch !in heap.live
    modifies heap
    ensures r == KeyOf(Text(inp, t))
    ensures heap.live == old(heap.live) + if r.Key? then {Scratch} else {}
  {
    var ch := inp[t.ptr];
    if ch == SQUOTE || ch == DQUOTE {
      r := QuotedKey(inp, t, heap);
    } else {
      r := BareKey(inp, t, heap);
    }
  }

  method QuotedKey(inp: Str, t: Token, heap: Allocator) returns (r: KeyRead)
    requires TokenOk(inp, t) && t.kind.String? && (inp[t.ptr] == SQUOTE || inp[t.ptr] == DQUOTE)
    requires Scratch !in heap.live
    modifies heap
    ensures r == KeyOf(Text(inp, t))
    ensures heap.live == old(heap.live) + if r.Key? then {Scratch} else {}
  {
    var sp: nat, sq: int := t.ptr, t.ptr + t.len;
    var ch := inp[sp];
    var n := if At(inp, sp + 1) == ch && At(inp, sp + 2) == ch then 3 else 1;
    sp, sq := sp + n, sq - n;
    QuotedInPlace(inp, t, n, sp, sq);
    if ch == SQUOTE {
      heap.Alloc(Scratch);
      r := CheckKeyText(inp[sp..sq], heap);
    } else {
      r := NormalizedKey(inp, sp, sq, heap);
    }
  }

  /** What a quoted token names, in terms of the input it stands in. */
  lemma QuotedInPlace(inp: Str, t: Token, n: nat, sp: nat, sq: int)
    requires TokenOk(inp, t) && t.kind.String? && (inp[t.ptr] == SQUOTE || inp[t.ptr] == DQUOTE)
    requires n == if IsTriple(inp, t.ptr, inp[t.ptr]) then 3 else 1
    requires sp == t.ptr + n && sq == t.ptr + t.len - n
    ensures sp <= sq
    ensures KeyOf(Text(inp, t)) == if inp[t.ptr] == SQUOTE then Checked(inp[sp..sq])
                                   else InsideKey(Unescape.Unescape(inp, sp, sq, false))
  {
    TripleInPlace(inp, t);
    var text := Text(inp, t);
    assert text[0] == inp[t.ptr] && |text| == t.len;
    KeyInQuotes(text, n);
    InPlace(inp, t.ptr, text, n, sp, sq);
  }

  /** What is between the quotes, where the token lies. */
  lemma InPlace(inp: Str, at: nat, text: Str, n: nat, sp: nat, sq: nat)
    requires LiesAt(inp, at, text) && 2 * n <= |text| && sp == at + n && sq == at + (|text| - n)
    ensures text[n..|text| - n] == inp[sp..sq]
    ensures Unescape.Unescape(text, n, |text| - n, false) == Unescape.Unescape(inp, sp, sq, false)
  {
    SubSlice(inp, at, at + |text|, n, |text| - n);
    UnescapeShift(inp, at, text, n, |text| - n, sp, sq);
  }

  lemma KeyInQuotes(text: Str, n: nat)
    requires text != [] && (text[0] == SQUOTE || text[0] == DQUOTE) && 2 * n <= |text|
    requires n == if IsTriple(text, 0, text[0]) then 3 else 1
    ensures KeyOf(text) == if text[0] == SQUOTE then Checked(text[n..|text| - n])
                           else InsideKey(Unescape.Unescape(text, n, |text| - n, false))
  {
  }

  function InsideKey(u: Unescaped): KeyRead {
    match u
    case Raw(t) => Checked(t)
    case Bad(w) => BadText(w)
  }

  method NormalizedKey(inp: Str, sp: nat, sq: nat, heap: Allocator) returns (r: KeyRead)
    requires sp <= sq <= |inp| && Scratch !in heap.live
    modifies heap
    ensures heap.live == old(heap.live) + if r.Key? then {Scratch} else {}
    ensures r == InsideKey(Unescape.Unescape(inp, sp, sq, false))
  {
    var u, dst := Unescape.NormalizeString(inp, sp, sq, false, heap);
    if u.Bad? {
      return BadText(u.why);
    }
    r := CheckKeyText(u.text, heap);
  }

  /** A key with a newline in it is freed and refused. */
  method CheckKeyText(text: Str, heap: Allocator) returns (r: KeyRead)
    requires Scratch in heap.live
    modifies heap
    ensures r == Checked(text)
    ensures heap.live == old(heap.live) - if r.Key? then {} else {Scratch}
  {
    var ret := Cut(text);
    if LF in ret {
      heap.Free(Scratch);
      return BadKey;
    }
    return Key(ret);
  }

  /** A bare key allows only [A-Za-z0-9_-]. */
  method BareKey(inp: Str, t: Token, heap: Allocator) returns (r: KeyRead)
    requires TokenOk(inp, t) && t.kind.String? && inp[t.ptr] != SQUOTE && inp[t.ptr] != DQUOTE && Scratch !in heap.live
    modifies heap
    ensures heap.live == old(heap.live) + if r.Key? then {Scratch} else {}
    ensures r == KeyOf(Text(inp, t))
  {
    ghost var text := Text(inp, t);
    assert text != [] ==> text[0] == inp[t.ptr];
    var sp, sq := t.ptr, t.ptr + t.len;
    var xp := sp;
    while xp != sq
      invariant sp <= xp <= sq
      invariant forall i | 0 <= i < xp - sp :: IsKeyByte(text[i])
      decreases sq - xp
    {
      if !IsKeyByte(inp[xp]) {
        assert !IsKeyByte(text[xp - sp]);
        return BadKey;
      }
      xp := xp + 1;
    }
    heap.Alloc(Scratch);
    return Key(inp[sp..sq]);
  }
}
