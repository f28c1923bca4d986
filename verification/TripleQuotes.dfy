/**
  * Multi-line strings in double quotes, on which the scanner and the unescaper
  * agree only when no escape comes between the closing quotes.
  */
module TripleQuotes {
  import opened Bytes
  import opened Lexer
  import opened Unescape
  import opened Strings

  /** The `"""` automaton with its count of quotes reset by escapes, as by any other byte that is no quote. */
  function ScanStrict(inp: Str, p: nat, escape: bool, hex: nat, quotes: nat): (r: Option<nat>)
    requires p <= |inp|
    ensures r.Some? ==> p <= r.value <= |inp| && r.value >= p + (if quotes <= 3 then 3 - quotes else 0)
    decreases |inp| - p
  {
    if quotes == 3 then Some(p)
    else if p == |inp| then None
    else if escape then
      if IsSimpleEscape(inp[p]) || inp[p] == LF then ScanStrict(inp, p + 1, false, hex, 0)
      else if inp[p] == LOWER_U then ScanStrict(inp, p + 1, false, 4, 0)
      else if inp[p] == UPPER_U then ScanStrict(inp, p + 1, false, 8, 0)
      else None
    else if hex > 0 then
      if IsHex(inp[p]) then ScanStrict(inp, p + 1, false, hex - 1, 0) else None
    else if inp[p] == BACKSLASH then ScanStrict(inp, p + 1, true, 0, 0)
    else ScanStrict(inp, p + 1, false, 0, if inp[p] == DQUOTE then quotes + 1 else 0)
  }

  /** It ends on three quotes in a row. */
  lemma {:induction false} StrictEnd(inp: Str, p: nat, escape: bool, hex: nat, quotes: nat)
    requires p <= |inp| && quotes <= 3 && ScanStrict(inp, p, escape, hex, quotes).Some?
    requires escape || hex > 0 ==> quotes == 0
    ensures var q := ScanStrict(inp, p, escape, hex, quotes).value;
            forall i | p <= i < q && q - 3 <= i :: inp[i] == DQUOTE
    decreases |inp| - p
  {
    if quotes < 3 {
      if escape {
        var n := if inp[p] == LOWER_U then 4 else if inp[p] == UPPER_U then 8 else hex;
        StrictEnd(inp, p + 1, false, n, 0);
      } else if hex > 0 {
        StrictEnd(inp, p + 1, false, hex - 1, 0);
      } else if inp[p] == BACKSLASH {
        StrictEnd(inp, p + 1, true, 0, 0);
      } else {
        StrictEnd(inp, p + 1, false, 0, if inp[p] == DQUOTE then quotes + 1 else 0);
      }
    }
  }

  // ---- Both automata go through escapes and white space together ----

  lemma {:induction false} HexDigitsPass(inp: Str, p: nat, n: nat, k: nat)
    requires p <= |inp| && k < 3 && ScanMulti(inp, p, false, n, k).Some?
    ensures p + n <= |inp| && forall i | p <= i < p + n :: IsHex(inp[i])
    ensures ScanMulti(inp, p, false, n, k) == ScanMulti(inp, p + n, false, 0, k)
    ensures ScanStrict(inp, p, false, n, 0) == ScanStrict(inp, p + n, false, 0, 0)
    decreases n
  {
    if n > 0 {
      HexDigitsPass(inp, p + 1, n - 1, k);
    }
  }

  /** From white space on both have counted nothing. */
  lemma {:induction false} SpacePasses(inp: Str, p: nat, k: nat, q: nat)
    requires p < q <= |inp| && k < 3 && forall i | p <= i < q :: IsSpace(inp[i])
    ensures ScanMulti(inp, p, false, 0, k) == ScanMulti(inp, q, false, 0, 0)
    ensures ScanStrict(inp, p, false, 0, 0) == ScanStrict(inp, q, false, 0, 0)
    decreases q - p
  {
    if p + 1 < q {
      SpacePasses(inp, p + 1, 0, q);
    }
  }

  /** One of the \u and \U escapes of a text names a code the encoder rejects. */
  predicate NamesRejected(inp: Str, p: nat, hi: nat)
    requires hi <= |inp|
    decreases hi - p
  {
    if p >= hi then false
    else if inp[p] != BACKSLASH then NamesRejected(inp, p + 1, hi)
    else if p + 1 < hi && (inp[p + 1] == LOWER_U || inp[p + 1] == UPPER_U) then
      var n := if inp[p + 1] == LOWER_U then 4 else 8;
      match ReadHex(inp, p + 2, hi, n, 0)
      case HexError(_) => false
      case Code(c) => !Utf8.Encodable(c) || NamesRejected(inp, p + 2 + n, hi)
    else NamesRejected(inp, p + 2, hi)
  }

  lemma {:induction false} SpaceNamesNothing(inp: Str, p: nat, q: nat, hi: nat)
    requires p <= q <= hi <= |inp| && forall i | p <= i < q :: IsSpace(inp[i])
    ensures NamesRejected(inp, p, hi) == NamesRejected(inp, q, hi)
    decreases q - p
  {
    if p < q {
      SpaceNamesNothing(inp, p + 1, q, hi);
    }
  }

  /**
    * What a text ending at `hi`, before closing quotes, unescapes to: to a text
    * unless it names a rejected code if the strict scan ends there too, else to none.
    */
  ghost predicate Fits(inp: Str, p: nat, hi: nat, strict: Option<nat>)
    requires hi <= |inp|
  {
    var r := Unescape.Unescape(inp, p, hi, true);
    if strict == Some(hi + 3) then (r.Raw? <==> !NamesRejected(inp, p, hi)) && (r.Bad? ==> r == Bad(IllegalCode))
    else r.Bad?
  }

  lemma ThreeQuotes(inp: Str, p: nat, k: nat)
    requires p + 3 <= |inp| && IsTriple(inp, p, DQUOTE) && k < 3
    ensures ScanStrict(inp, p, false, 0, 0) == Some(p + 3)
    ensures ScanMulti(inp, p, false, 0, k) == Some(p + 3 - k)
  {
    assert inp[p] == DQUOTE && inp[p + 1] == DQUOTE && inp[p + 2] == DQUOTE;
    assert ScanStrict(inp, p + 3, false, 0, 3) == Some(p + 3);
    assert ScanStrict(inp, p + 2, false, 0, 2) == Some(p + 3);
    assert ScanStrict(inp, p + 1, false, 0, 1) == Some(p + 3);
    assert ScanMulti(inp, p + 3 - k, false, 0, 3) == Some(p + 3 - k);
    if k < 2 {
      assert ScanMulti(inp, p + 2 - k, false, 0, 2) == Some(p + 3 - k);
      if k == 0 {
        assert ScanMulti(inp, p + 1, false, 0, 1) == Some(p + 3);
      }
    }
  }

  /** The scan of the rest, by both automata: `k` quotes counted, of which `j` since the last escape. */
  lemma {:induction false} ScansFit(inp: Str, p: nat, hi: nat, k: nat, j: nat)
    requires p <= hi && hi + 3 <= |inp| && IsTriple(inp, hi, DQUOTE) && j <= k < 3
    requires ScanMulti(inp, p, false, 0, k) == Some(hi + 3)
    ensures Fits(inp, p, hi, ScanStrict(inp, p, false, 0, j))
    decreases hi - p, 2
  {
    if p == hi {
      ThreeQuotes(inp, p, k);
    } else if inp[p] != BACKSLASH {
      var d := inp[p] == DQUOTE;
      ScansFit(inp, p + 1, hi, if d then k + 1 else 0, if d then j + 1 else 0);
    } else if p + 1 < hi {
      EscapeFits(inp, p, hi, k, j);
    } else {
      assert ScanStrict(inp, p, false, 0, j) == ScanStrict(inp, p + 1, true, 0, 0);
      assert ScanStrict(inp, p + 1, true, 0, 0) == ScanStrict(inp, p + 2, false, 0, 0);
    }
  }

  lemma {:induction false} EscapeFits(inp: Str, p: nat, hi: nat, k: nat, j: nat)
    requires p + 1 < hi && hi + 3 <= |inp| && IsTriple(inp, hi, DQUOTE) && j <= k < 3 && inp[p] == BACKSLASH
    requires ScanMulti(inp, p, false, 0, k) == Some(hi + 3)
    ensures Fits(inp, p, hi, ScanStrict(inp, p, false, 0, j))
    decreases hi - p, 1
  {
    assert ScanMulti(inp, p, false, 0, k) == ScanMulti(inp, p + 1, true, 0, k);
    assert ScanStrict(inp, p, false, 0, j) == ScanStrict(inp, p + 1, true, 0, 0);
    if inp[p + 1] == LF {
      LineEndFits(inp, p, hi, k, j);
    } else if IsSimpleEscape(inp[p + 1]) {
      ScansFit(inp, p + 2, hi, k, 0);
    } else {
      CodeFits(inp, p, hi, k, j);
    }
  }

  lemma {:induction false} LineEndFits(inp: Str, p: nat, hi: nat, k: nat, j: nat)
    requires p + 1 < hi && hi + 3 <= |inp| && IsTriple(inp, hi, DQUOTE) && j <= k < 3
    requires inp[p] == BACKSLASH && inp[p + 1] == LF && ScanMulti(inp, p, false, 0, k) == Some(hi + 3)
    ensures Fits(inp, p, hi, ScanStrict(inp, p, false, 0, j))
    decreases hi - p, 0
  {
    assert ScanMulti(inp, p, false, 0, k) == ScanMulti(inp, p + 1, true, 0, k);
    assert ScanStrict(inp, p, false, 0, j) == ScanStrict(inp, p + 1, true, 0, 0);
    var sp := SkipSpace(inp, p + 1);
    assert !IsSpace(At(inp, hi));
    if p + 2 < sp {
      forall i | p + 2 <= i < sp ensures IsSpace(inp[i]) { assert At(inp, i) == inp[i]; }
      SpacePasses(inp, p + 2, k, sp);
      SpaceNamesNothing(inp, p + 2, sp, hi);
      ScansFit(inp, sp, hi, 0, 0);
    } else {
      ScansFit(inp, sp, hi, k, 0);
    }
  }

  lemma {:induction false} CodeFits(inp: Str, p: nat, hi: nat, k: nat, j: nat)
    requires p + 1 < hi && hi + 3 <= |inp| && IsTriple(inp, hi, DQUOTE) && j <= k < 3
    requires inp[p] == BACKSLASH && (inp[p + 1] == LOWER_U || inp[p + 1] == UPPER_U)
    requires ScanMulti(inp, p, false, 0, k) == Some(hi + 3)
    ensures Fits(inp, p, hi, ScanStrict(inp, p, false, 0, j))
    decreases hi - p, 0
  {
    assert ScanMulti(inp, p, false, 0, k) == ScanMulti(inp, p + 1, true, 0, k);
    assert ScanStrict(inp, p, false, 0, j) == ScanStrict(inp, p + 1, true, 0, 0);
    var n := if inp[p + 1] == LOWER_U then 4 else 8;
    HexDigitsPass(inp, p + 2, n, k);
    assert !IsHex(inp[hi]);
    ReadHexSucceeds(inp, p + 2, hi, n, 0);
    var c := ReadHex(inp, p + 2, hi, n, 0).value;
    assert NamesRejected(inp, p, hi) <==> !Utf8.Encodable(c) || NamesRejected(inp, p + 2 + n, hi);
    assert ScanStrict(inp, p, false, 0, j) == ScanStrict(inp, p + 2 + n, false, 0, 0);
    if Step(inp, p, hi, true).Go? {
      ScansFit(inp, p + 2 + n, hi, k, 0);
    }
  }

  lemma {:induction false} ReadHexSucceeds(mem: Str, p: nat, hi: nat, n: nat, acc: nat)
    requires p + n <= hi <= |mem| && forall i | p <= i < p + n :: IsHex(mem[i])
    ensures ReadHex(mem, p, hi, n, acc).Code?
    decreases n
  {
    if n > 0 {
      ReadHexSucceeds(mem, p + 1, hi, n - 1, 16 * acc + HexDigit(mem[p]));
    }
  }

  // ---- Tokens ----

  /** A token is scanned alone as it was in its place. */
  lemma {:induction false} ScanAlone(inp: Str, a: nat, p: nat, escape: bool, hex: nat, quotes: nat, q: nat)
    requires a <= p <= q <= |inp| && ScanMulti(inp, p, escape, hex, quotes) == Some(q)
    ensures ScanMulti(inp[a..q], p - a, escape, hex, quotes) == Some(q - a)
    decreases |inp| - p
  {
    if quotes != 3 {
      var b := inp[p];
      assert p < q && inp[a..q][p - a] == b;
      if escape {
        ScanAlone(inp, a, p + 1, false, if b == LOWER_U then 4 else if b == UPPER_U then 8 else hex, quotes, q);
      } else if hex > 0 {
        ScanAlone(inp, a, p + 1, false, hex - 1, quotes, q);
      } else if b == BACKSLASH {
        ScanAlone(inp, a, p + 1, true, 0, quotes, q);
      } else {
        ScanAlone(inp, a, p + 1, false, 0, if b == DQUOTE then quotes + 1 else 0, q);
      }
    }
  }

  /** The closing quotes of a `"""` token stand together: no escape was read between them. */
  predicate ClosesCleanly(raw: Str)
    requires |raw| >= 3
  {
    ScanStrict(raw, 3, false, 0, 0) == Some(|raw|)
  }

  /**
    * `raw` converts to a text exactly if its closing quotes stand together and it names no rejected
    * code, and a rejected code is the complaint if they do.
    */
  ghost predicate ConvertsWhenClean(raw: Str) {
    && |raw| >= 6
    && (Rtos(raw).Raw? <==> ClosesCleanly(raw) && !NamesRejected(raw, 3, |raw| - 3))
    && (ClosesCleanly(raw) && Rtos(raw).Bad? ==> Rtos(raw) == Bad(IllegalCode))
  }

  lemma RawTokenFits(raw: Str)
    requires IsTriple(raw, 0, DQUOTE) && ScanMulti(raw, 3, false, 0, 0) == Some(|raw|)
    ensures ConvertsWhenClean(raw)
  {
    var hi := |raw| - 3;
    if ClosesCleanly(raw) {
      StrictEnd(raw, 3, false, 0, 0);
      assert raw[hi] == DQUOTE && raw[hi + 1] == DQUOTE && raw[hi + 2] == DQUOTE;
    }
    if IsTriple(raw, hi, DQUOTE) {
      var lo := SkipFirstNewline(raw, 3);
      if lo > 3 {
        SpacePasses(raw, 3, 0, lo);
      }
      assert !IsSpace(raw[hi]);
      SpaceNamesNothing(raw, 3, lo, hi);
      ScansFit(raw, lo, hi, 0, 0);
    }
  }

  /**
    * A `"""` token converts if and only if its closing quotes stand together and
    * none of its escapes names a rejected code.
    */
  lemma TripleQuotesAgree(inp: Str, p: nat, dot: bool)
    requires p < |inp| && IsTriple(inp, p, DQUOTE) && ScanString(inp, p, dot).Some?
    ensures ConvertsWhenClean(inp[p..ScanString(inp, p, dot).value])
  {
    var q := ScanString(inp, p, dot).value;
    ScanAlone(inp, p, p + 3, false, 0, 0, q);
    var raw := inp[p..q];
    assert raw[0] == inp[p] && raw[1] == inp[p + 1] && raw[2] == inp[p + 2];
    RawTokenFits(raw);
  }
}
