/** `toml_rtos`, and how the scanner and the unescaper fit together. */
module Strings {
  import opened Bytes
  import opened Blocks
  import opened Lexer
  import opened Unescape
  import LineEndings

  /** Where the text of a multi-line string begins: one newline right after the quotes is skipped. */
  function SkipFirstNewline(src: Str, p: nat): nat {
    if At(src, p) == LF then p + 1
    else if At(src, p) == CR && At(src, p + 1) == LF then p + 2
    else p
  }

  /** `toml_rtos`: the text a raw string token stands for. */
  function Rtos(src: Str): Unescaped {
    var quote := At(src, 0);
    if quote != SQUOTE && quote != DQUOTE then Bad(NotQuoted)
    else if IsTriple(src, 0, quote) then
      if |src| < 6 || !IsTriple(src, |src| - 3, quote) then Bad(NotQuoted)
      else
        var lo, hi := SkipFirstNewline(src, 3), |src| - 3;
        if quote == SQUOTE then Raw(LineEndings.Pass(src[lo..hi], LineEndings.Either))
        else Unescape.Unescape(src, lo, hi, true)
    else
      if |src| < 2 || src[|src| - 1] != quote then Bad(NotQuoted)
      else if quote == SQUOTE then Raw(src[1..|src| - 1])
      else Unescape.Unescape(src, 1, |src| - 1, true)
  }

  /** `toml_rtos`: the text is a block of the caller's, and no block is left behind where there is none. */
  method ToString(src: Str, heap: Allocator) returns (r: Unescaped)
    requires Scratch !in heap.live
    modifies heap
    ensures r == Rtos(src)
    ensures heap.live == old(heap.live) + if r.Raw? then {Scratch} else {}
  {
    var quote := At(src, 0);
    if quote != SQUOTE && quote != DQUOTE {
      return Bad(NotQuoted);
    }
    var n := |src|;
    var sp, sq;
    var triple := IsTriple(src, 0, quote);
    if triple {
      sp, sq := 3, n - 3;
      if !(sp <= sq && IsTriple(src, sq, quote)) {
        return Bad(NotQuoted);
      }
      if src[sp] == LF {
        sp := sp + 1;
      } else if src[sp] == CR && At(src, sp + 1) == LF {
        sp := sp + 2;
      }
    } else {
      sp, sq := 1, n - 1;
      if !(sp <= sq && src[sq] == quote) {
        return Bad(NotQuoted);
      }
    }
    if quote == DQUOTE {
      var dst;
      r, dst := Unescape.NormalizeString(src, sp, sq, true, heap);
      return;
    }
    heap.Alloc(Scratch);
    if !triple {
      return Raw(src[sp..sq]);
    }
    var copy := Duplicate(src[sp..sq]);
    var len := LineEndings.KillLineEndingBackslash(copy, sq - sp);
    return Raw(copy[..len]);
  }

  /** `strndup` */
  method Duplicate(s: Str) returns (copy: array<Byte>)
    ensures fresh(copy) && copy.Length == |s| + 1 && copy[..|s|] == s && copy[|s|] == NUL
  {
    copy := new Byte[|s| + 1](i => if 0 <= i < |s| then s[i] else NUL);
    assert forall i | 0 <= i < |s| :: copy[..|s|][i] == s[i];
  }

  // ---- Single-line strings, unit by unit ----

  /** What a single-line string is made of: a byte, a one-letter escape, or a code in 4 or 8 hex digits. */
  datatype Unit = Plain(b: Byte) | Escaped(b: Byte) | Uni(code: nat, wide: bool)

  /** What the letters b, t, n, f and r, a double quote and a backslash stand for after a backslash. */
  function EscapeFor(b: Byte): Option<Byte> {
    match b
    case 98 => Some(8)
    case 116 => Some(9)
    case 110 => Some(10)
    case 102 => Some(12)
    case 114 => Some(13)
    case 34 => Some(34)
    case 92 => Some(92)
    case _ => None
  }

  predicate EscapeOk(u: Unit) {
    match u
    case Plain(b) => b != 92
    case Escaped(b) => EscapeFor(b).Some?
    case Uni(c, wide) => c < if wide then 0x1_0000_0000 else 0x1_0000
  }

  /** A double quote or a newline does not stand for itself in a single line. */
  predicate UnitOk(u: Unit) {
    EscapeOk(u) && (u.Plain? ==> u.b != 34 && u.b != 10)
  }

  ghost predicate AllOk(us: seq<Unit>) { forall i | 0 <= i < |us| :: UnitOk(us[i]) }

  function Digits(wide: bool): nat { if wide then 8 else 4 }

  function HiHex(c: nat, m: nat): nat {
    if m == 0 then c else HiHex(c, m - 1) / 16
  }

  /** The digits 0 to 9 and A to F. */
  function HexByte(d: nat): Byte
    requires d < 16
  {
    if d < 10 then 48 + d else 65 + (d - 10)
  }

  /** The low `n` hex digits of `c`, upper case, high digit first. */
  function HexText(c: nat, n: nat): (r: Str)
    ensures |r| == n
  {
    if n == 0 then [] else [HexByte(HiHex(c, n - 1) % 16)] + HexText(c, n - 1)
  }

  function Spell(u: Unit): Str {
    match u
    case Plain(b) => [b]
    case Escaped(b) => [92, b]
    case Uni(c, wide) => [92, if wide then 85 else 117] + HexText(c, Digits(wide))
  }

  function SpellAll(us: seq<Unit>): Str {
    if us == [] then [] else Spell(us[0]) + SpellAll(us[1..])
  }

  function Quoted(us: seq<Unit>): Str { [34] + SpellAll(us) + [34] }

  /** What a unit stands for; an escape naming a code the encoder rejects stands for nothing. */
  function Meaning(u: Unit): Unescaped {
    match u
    case Plain(b) => Raw([b])
    case Escaped(b) => if EscapeFor(b).Some? then Raw([EscapeFor(b).value]) else Bad(IllegalEscape)
    case Uni(c, _) => if Utf8.Encodable(c) then Raw(Utf8.Encode(c)) else Bad(IllegalCode)
  }

  function MeaningAll(us: seq<Unit>): Unescaped {
    if us == [] then Raw([])
    else match Meaning(us[0])
      case Bad(w) => Bad(w)
      case Raw(t) => Prepend(t, MeaningAll(us[1..]))
  }

  // ---- Hex digits ----

  lemma {:induction false} HexTextRead(mem: Str, p: nat, hi: nat, n: nat, c: nat)
    requires p + n <= hi <= |mem| && LiesAt(mem, p, HexText(c, n))
    ensures ReadHex(mem, p, hi, n, HiHex(c, n)) == Code(c)
    decreases n
  {
    if n > 0 {
      LiesInParts(mem, p, [HexByte(HiHex(c, n - 1) % 16)], HexText(c, n - 1));
      assert mem[p] == mem[p..p + 1][0] == HexByte(HiHex(c, n - 1) % 16);
      HexTextRead(mem, p + 1, hi, n - 1, c);
    }
  }

  lemma HiHexZero(c: nat)
    ensures c < 0x1_0000 ==> HiHex(c, 4) == 0
    ensures c < 0x1_0000_0000 ==> HiHex(c, 8) == 0
  {
    assert HiHex(c, 4) == c / 16 / 16 / 16 / 16 by {
      assert HiHex(c, 2) == HiHex(c, 1) / 16 && HiHex(c, 1) == HiHex(c, 0) / 16;
      assert HiHex(c, 4) == HiHex(c, 3) / 16 && HiHex(c, 3) == HiHex(c, 2) / 16;
    }
    assert HiHex(c, 8) == HiHex(c, 4) / 16 / 16 / 16 / 16 by {
      assert HiHex(c, 6) == HiHex(c, 5) / 16 && HiHex(c, 5) == HiHex(c, 4) / 16;
      assert HiHex(c, 8) == HiHex(c, 7) / 16 && HiHex(c, 7) == HiHex(c, 6) / 16;
    }
  }

  lemma DigitApart(acc: nat, b: Byte)
    requires IsHex(b)
    ensures var d := HexDigit(b); d < 16 && HexByte(d) == b && (acc * 16 + d) % 16 == d && (acc * 16 + d) / 16 == acc
  {
  }

  /** Digits the scanner has let through are the hex text of the code they read as. */
  lemma {:induction false} ReadIsHexText(mem: Str, p: nat, n: nat, acc: nat) returns (c: nat)
    requires p + n <= |mem| && forall i | p <= i < p + n :: IsHex(mem[i])
    ensures ReadHex(mem, p, |mem|, n, acc) == Code(c)
    ensures HiHex(c, n) == acc && LiesAt(mem, p, HexText(c, n))
    decreases n
  {
    if n == 0 {
      c := acc;
    } else {
      var d := HexDigit(mem[p]);
      c := ReadIsHexText(mem, p + 1, n - 1, acc * 16 + d);
      DigitApart(acc, mem[p]);
      assert mem[p..p + 1] == [HexByte(d)];
      LiesInParts(mem, p, [HexByte(d)], HexText(c, n - 1));
    }
  }

  lemma {:induction false} HexTextIsHex(c: nat, n: nat)
    ensures forall i | 0 <= i < n :: IsHex(HexText(c, n)[i])
  {
    if n > 0 {
      HexTextIsHex(c, n - 1);
    }
  }

  /** The scanner's countdown of hex digits. */
  lemma {:induction false} ScanHex(inp: Str, p: nat, n: nat)
    requires p <= |inp|
    ensures ScanBasic(inp, p, false, n).Some? ==> p + n <= |inp|
    ensures p + n <= |inp| && (forall i | p <= i < p + n :: IsHex(inp[i])) ==>
              ScanBasic(inp, p, false, n) == ScanBasic(inp, p + n, false, 0)
    ensures ScanBasic(inp, p, false, n).Some? ==> forall i | p <= i < p + n :: IsHex(inp[i])
    decreases n
  {
    if n > 0 && p < |inp| && IsHex(inp[p]) {
      ScanHex(inp, p + 1, n - 1);
    }
  }

  // ---- The scanner accepts exactly the spelled-out strings ----

  /** From the start of a unit the scanner goes to its end. */
  lemma ScanUnit(inp: Str, p: nat, u: Unit)
    requires UnitOk(u) && LiesAt(inp, p, Spell(u))
    ensures ScanBasic(inp, p, false, 0) == ScanBasic(inp, p + |Spell(u)|, false, 0)
  {
    var s := inp[p..p + |Spell(u)|];
    assert inp[p] == s[0] == Spell(u)[0];
    if !u.Plain? {
      assert inp[p + 1] == s[1] == Spell(u)[1];
    }
    if u.Uni? {
      var n := Digits(u.wide);
      LiesInParts(inp, p, Spell(u)[..2], HexText(u.code, n));
      assert Spell(u) == Spell(u)[..2] + HexText(u.code, n);
      HexTextIsHex(u.code, n);
      forall i | p + 2 <= i < p + 2 + n ensures IsHex(inp[i]) {
        assert inp[i] == inp[p + 2..p + 2 + n][i - p - 2] == HexText(u.code, n)[i - p - 2];
      }
      ScanHex(inp, p + 2, n);
    }
  }

  lemma ScanOne(inp: Str, p: nat, u: Unit, rest: Str)
    requires UnitOk(u) && LiesAt(inp, p, Spell(u) + rest)
    ensures ScanBasic(inp, p, false, 0) == ScanBasic(inp, p + |Spell(u)|, false, 0) && LiesAt(inp, p + |Spell(u)|, rest)
  {
    LiesInParts(inp, p, Spell(u), rest);
    ScanUnit(inp, p, u);
  }

  lemma SpelledRest(us: seq<Unit>, rest: Str)
    requires us != [] && rest == SpellAll(us[1..]) + [DQUOTE]
    ensures SpellAll(us) + [DQUOTE] == Spell(us[0]) + rest && |SpellAll(us)| == |Spell(us[0])| + |SpellAll(us[1..])|
  {
    Assoc(Spell(us[0]), SpellAll(us[1..]), [DQUOTE]);
  }

  lemma ScanClose(inp: Str, p: nat)
    requires LiesAt(inp, p, SpellAll([]) + [DQUOTE])
    ensures ScanBasic(inp, p, false, 0) == Some(p)
  {
    assert SpellAll([]) + [DQUOTE] == [DQUOTE];
    assert inp[p] == inp[p..p + 1][0] == DQUOTE;
  }

  lemma {:induction false} ScanSpelled(inp: Str, p: nat, us: seq<Unit>, text: Str)
    requires AllOk(us) && text == SpellAll(us) + [DQUOTE] && LiesAt(inp, p, text)
    ensures ScanBasic(inp, p, false, 0) == Some(p + |SpellAll(us)|)
    decreases |us|
  {
    if us == [] {
      ScanClose(inp, p);
    } else {
      var rest := SpellAll(us[1..]) + [DQUOTE];
      SpelledRest(us, rest);
      ScanOne(inp, p, us[0], rest);
      ScanSpelled(inp, p + |Spell(us[0])|, us[1..], rest);
    }
  }

  /** A Unicode escape, with all its digits. */
  lemma UniSpelled(inp: Str, p: nat, wide: bool) returns (u: Unit)
    requires p + 2 + Digits(wide) <= |inp|
    requires inp[p] == BACKSLASH && inp[p + 1] == (if wide then UPPER_U else LOWER_U)
    requires forall i | p + 2 <= i < p + 2 + Digits(wide) :: IsHex(inp[i])
    ensures u.Uni? && u.wide == wide && UnitOk(u) && LiesAt(inp, p, Spell(u))
  {
    var n := Digits(wide);
    var c := ReadIsHexText(inp, p + 2, n, 0);
    ReadHexBound(inp, p + 2, |inp|, n, 0, 1);
    assert Pow16(4) == 0x10000 && Pow16(8) == 0x1_0000_0000 by {
      assert Pow16(6) == 256 * Pow16(4) && Pow16(8) == 256 * Pow16(6);
    }
    u := Uni(c, wide);
    Join(inp, p, p + 2, p + 2 + n, [inp[p], inp[p + 1]], HexText(c, n));
  }

  /** The Unicode escape an accepting scan starts with. */
  lemma FirstUni(inp: Str, p: nat, wide: bool) returns (u: Unit)
    requires p + 1 < |inp| && inp[p] == BACKSLASH && inp[p + 1] == (if wide then UPPER_U else LOWER_U)
    requires ScanBasic(inp, p + 2, false, Digits(wide)).Some?
    ensures UnitOk(u) && LiesAt(inp, p, Spell(u))
  {
    ScanHex(inp, p + 2, Digits(wide));
    u := UniSpelled(inp, p, wide);
  }

  /** The unit an accepting scan starts with. */
  lemma FirstUnit(inp: Str, p: nat) returns (u: Unit)
    requires p < |inp| && inp[p] != DQUOTE && ScanBasic(inp, p, false, 0).Some?
    ensures UnitOk(u) && LiesAt(inp, p, Spell(u))
  {
    if inp[p] != BACKSLASH {
      u := Plain(inp[p]);
      assert inp[p..p + 1] == Spell(u);
    } else if IsSimpleEscape(inp[p + 1]) {
      u := Escaped(inp[p + 1]);
      assert inp[p..p + 2] == Spell(u);
    } else {
      assert ScanBasic(inp, p, false, 0) == ScanBasic(inp, p + 1, true, 0);
      u := FirstUni(inp, p, inp[p + 1] == UPPER_U);
    }
  }

  lemma SpellCons(u: Unit, us: seq<Unit>)
    ensures SpellAll([u] + us) == Spell(u) + SpellAll(us)
  {
    assert ([u] + us)[1..] == us;
  }

  lemma Join(s: Str, i: nat, j: nat, k: nat, a: Str, b: Str)
    requires i <= j <= k <= |s| && s[i..j] == a && s[j..k] == b
    ensures s[i..k] == a + b
  {
  }

  /** What the scanner accepts up to the closing quote is spelled out of whole units. */
  lemma {:induction false} ScanIsSpelled(inp: Str, p: nat) returns (us: seq<Unit>)
    requires p <= |inp| && ScanBasic(inp, p, false, 0).Some?
    ensures AllOk(us) && inp[p..ScanBasic(inp, p, false, 0).value] == SpellAll(us)
    decreases |inp| - p
  {
    var q := ScanBasic(inp, p, false, 0).value;
    if inp[p] == DQUOTE {
      us := [];
    } else {
      var u := FirstUnit(inp, p);
      ScanUnit(inp, p, u);
      var p' := p + |Spell(u)|;
      var rest := ScanIsSpelled(inp, p');
      us := [u] + rest;
      SpellCons(u, rest);
      Join(inp, p, p', q, Spell(u), SpellAll(rest));
    }
  }

  // ---- Unescaping a spelled-out string ----

  lemma {:induction false} StepUnit(mem: Str, p: nat, hi: nat, u: Unit, kill: bool)
    requires EscapeOk(u) && hi <= |mem| && p + |Spell(u)| <= hi && LiesAt(mem, p, Spell(u))
    ensures Step(mem, p, hi, kill) == match Meaning(u)
                                      case Raw(t) => Go(t, p + |Spell(u)|)
                                      case Bad(w) => Fail(w)
  {
    var s := mem[p..p + |Spell(u)|];
    assert mem[p] == s[0] == Spell(u)[0];
    if !u.Plain? {
      assert mem[p + 1] == s[1] == Spell(u)[1];
    }
    if u.Uni? {
      var n := Digits(u.wide);
      assert Spell(u) == Spell(u)[..2] + HexText(u.code, n);
      LiesInParts(mem, p, Spell(u)[..2], HexText(u.code, n));
      HiHexZero(u.code);
      HexTextRead(mem, p + 2, hi, n, u.code);
    }
  }

  lemma {:induction false} UnescapeSpelled(mem: Str, p: nat, hi: nat, us: seq<Unit>, kill: bool)
    requires (forall i | 0 <= i < |us| :: EscapeOk(us[i])) && hi <= |mem| && p + |SpellAll(us)| == hi
    requires LiesAt(mem, p, SpellAll(us))
    ensures Unescape.Unescape(mem, p, hi, kill) == MeaningAll(us)
    decreases |us|
  {
    if us != [] {
      LiesInParts(mem, p, Spell(us[0]), SpellAll(us[1..]));
      StepUnit(mem, p, hi, us[0], kill);
      UnescapeSpelled(mem, p + |Spell(us[0])|, hi, us[1..], kill);
    }
  }

  lemma RtosQuoted(us: seq<Unit>)
    requires AllOk(us)
    ensures Rtos(Quoted(us)) == MeaningAll(us)
  {
    var src := Quoted(us);
    LiesInParts(src, 1, SpellAll(us), [DQUOTE]);
    assert src[1..] == SpellAll(us) + [DQUOTE];
    SpelledStart(us);
    if us != [] { assert src[1] == SpellAll(us)[0]; }
    UnescapeSpelled(src, 1, |src| - 1, us, true);
  }

  /** No spelled-out text starts with a quote. */
  lemma SpelledStart(us: seq<Unit>)
    requires AllOk(us)
    ensures us != [] ==> SpellAll(us) != [] && SpellAll(us)[0] != DQUOTE
  {
  }

  /** `MeaningAll` is defined exactly when every named code is one the encoder accepts. */
  lemma {:induction false} MeaningAllDefined(us: seq<Unit>)
    requires AllOk(us)
    ensures MeaningAll(us).Raw? <==> forall i | 0 <= i < |us| && us[i].Uni? :: Utf8.Encodable(us[i].code)
    ensures MeaningAll(us).Bad? ==> MeaningAll(us).why == IllegalCode
  {
    if us != [] {
      var t := us[1..];
      MeaningAllDefined(t);
      assert forall i | 0 <= i < |t| :: t[i] == us[i + 1];
      if forall i | 0 <= i < |us| && us[i].Uni? :: Utf8.Encodable(us[i].code) {
        assert Meaning(us[0]).Raw?;
      } else {
        var i :| 0 <= i < |us| && us[i].Uni? && !Utf8.Encodable(us[i].code);
        if i > 0 { assert t[i - 1] == us[i]; }
      }
    }
  }

  // ---- Main results ----

  /** `raw` is the units in quotes, and converting it fails exactly when one names a rejected code. */
  ghost predicate ConvertsAs(raw: Str, us: seq<Unit>) {
    && AllOk(us) && raw == Quoted(us)
    && (Rtos(raw).Raw? <==> forall i | 0 <= i < |us| && us[i].Uni? :: Utf8.Encodable(us[i].code))
    && (if Rtos(raw).Raw? then Rtos(raw) == MeaningAll(us) else Rtos(raw) == Bad(IllegalCode))
  }

  lemma QuotedConverts(us: seq<Unit>)
    requires AllOk(us)
    ensures ConvertsAs(Quoted(us), us)
  {
    RtosQuoted(us);
    MeaningAllDefined(us);
  }

  lemma ScanIsQuoted(inp: Str, p: nat, dot: bool) returns (us: seq<Unit>)
    requires p < |inp| && inp[p] == DQUOTE && !IsTriple(inp, p, DQUOTE) && ScanString(inp, p, dot).Some?
    ensures AllOk(us) && inp[p..ScanString(inp, p, dot).value] == Quoted(us)
  {
    us := ScanIsSpelled(inp, p + 1);
    var q := ScanBasic(inp, p + 1, false, 0).value;
    Join(inp, p, p + 1, q, [DQUOTE], SpellAll(us));
    Join(inp, p, q, q + 1, [DQUOTE] + SpellAll(us), [DQUOTE]);
  }

  /**
    * The scanner and the unescaper agree: a single-line double-quoted token is
    * always spelled out of whole units, and converting it fails exactly when one
    * of its \u or \U escapes names a code the encoder rejects. No other complaint
    * is reachable, and otherwise the text is what the units stand for.
    */
  lemma ScannerAndUnescaperAgree(inp: Str, p: nat, dot: bool)
    requires p < |inp| && inp[p] == DQUOTE && !IsTriple(inp, p, DQUOTE) && ScanString(inp, p, dot).Some?
    ensures exists us :: ConvertsAs(inp[p..ScanString(inp, p, dot).value], us)
  {
    var us := ScanIsQuoted(inp, p, dot);
    QuotedConverts(us);
  }

  lemma ScanQuoted(inp: Str, p: nat, us: seq<Unit>, dot: bool)
    requires AllOk(us) && LiesAt(inp, p, Quoted(us))
    requires us == [] ==> At(inp, p + |Quoted(us)|) != DQUOTE
    ensures ScanString(inp, p, dot) == Some(p + |Quoted(us)|)
  {
    var body := SpellAll(us) + [DQUOTE];
    assert Quoted(us) == [DQUOTE] + body;
    LiesInParts(inp, p, [DQUOTE], body);
    assert inp[p] == inp[p..p + 1][0] && inp[p + 1] == inp[p + 1..p + 1 + |body|][0] == body[0];
    SpelledStart(us);
    ScanSpelled(inp, p + 1, us, SpellAll(us) + [DQUOTE]);
  }

  /**
    * Quote, scan, convert: any units, written between double quotes and followed
    * by anything (not by a quote when there are none), scan as exactly that token.
    */
  lemma QuotedScans(us: seq<Unit>, before: Str, after: Str, dot: bool)
    requires AllOk(us)
    requires us == [] ==> At(after, 0) != DQUOTE
    ensures var inp := before + Quoted(us) + after;
            ScanString(inp, |before|, dot) == Some(|before| + |Quoted(us)|)
  {
    var p := |before|;
    var inp := before + Quoted(us) + after;
    assert inp[p..p + |Quoted(us)|] == Quoted(us);
    assert At(inp, p + |Quoted(us)|) == At(after, 0);
    ScanQuoted(inp, p, us, dot);
  }

  /** The escapes for a sequence of codes, each in the form `wide` asks for. */
  function Escapes(codes: seq<int>, wide: seq<bool>): (us: seq<Unit>)
    requires Utf8.AllEncodable(codes) && |wide| == |codes|
    requires forall i | 0 <= i < |codes| :: codes[i] > 0xFFFF ==> wide[i]
    ensures AllOk(us) && |us| == |codes|
  {
    if codes == [] then [] else [Uni(codes[0], wide[0])] + Escapes(codes[1..], wide[1..])
  }

  lemma {:induction false} EscapesMean(codes: seq<int>, wide: seq<bool>)
    requires Utf8.AllEncodable(codes) && |wide| == |codes|
    requires forall i | 0 <= i < |codes| :: codes[i] > 0xFFFF ==> wide[i]
    ensures MeaningAll(Escapes(codes, wide)) == Raw(Utf8.EncodeAll(codes))
  {
    if codes != [] {
      EscapesMean(codes[1..], wide[1..]);
      assert Escapes(codes, wide)[1..] == Escapes(codes[1..], wide[1..]);
    }
  }

  /**
    * The whole way round: codes written as escapes between quotes in any input
    * scan as one token, convert to the concatenated UTF-8 encodings, and decode
    * (by the layout the decoder's comments give) to the same codes.
    */
  lemma CodesThroughTheConfigFile(codes: seq<int>, wide: seq<bool>, us: seq<Unit>, before: Str, after: Str, dot: bool)
    requires Utf8.AllEncodable(codes) && |wide| == |codes|
    requires forall i | 0 <= i < |codes| :: codes[i] > 0xFFFF ==> wide[i]
    requires us == Escapes(codes, wide)
    requires codes == [] ==> At(after, 0) != DQUOTE
    ensures ScanString(before + Quoted(us) + after, |before|, dot) == Some(|before| + |Quoted(us)|)
    ensures Rtos(Quoted(us)) == Raw(Utf8.EncodeAll(codes))
    ensures Utf8.DecodeAll(Utf8.EncodeAll(codes), 1) == Some(Utf8.WithLengths(codes))
  {
    QuotedScans(us, before, after, dot);
    RtosQuoted(us);
    EscapesMean(codes, wide);
    Utf8.StreamRoundTrip(codes);
  }

  /**
    * Scanner and unescaper do not agree on `"""` strings: escapes leave the quote
    * count alone, so this token ends inside what its last quotes were meant to
    * close, and the conversion refuses it.
    */
  lemma TripleQuotesDisagree()
    ensures var q := DQUOTE;
            var inp: Str := [q, q, q, q, BACKSLASH, LOWER_N, q, q];
            ScanString(inp, 0, false) == Some(8) && Rtos(inp) == Bad(NotQuoted)
  {
    var q := DQUOTE;
    var inp: Str := [q, q, q, q, BACKSLASH, LOWER_N, q, q];
    assert ScanMulti(inp, 7, false, 0, 2) == ScanMulti(inp, 8, false, 0, 3);
    assert ScanMulti(inp, 5, true, 0, 1) == ScanMulti(inp, 6, false, 0, 1) == ScanMulti(inp, 7, false, 0, 2);
    assert ScanMulti(inp, 3, false, 0, 0) == ScanMulti(inp, 4, false, 0, 1) == ScanMulti(inp, 5, true, 0, 1);
  }
}
