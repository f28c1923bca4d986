/** The operators `&`, `|`, `<<` and `>>` on non-negative integers, bit by bit, and what they come to as arithmetic. */
module Bits {

  function And(a: nat, b: nat): nat {
    if a == 0 || b == 0 then 0 else And(a / 2, b / 2) * 2 + (if a % 2 == 1 && b % 2 == 1 then 1 else 0)
  }

  function Or(a: nat, b: nat): nat {
    if a == 0 && b == 0 then 0 else Or(a / 2, b / 2) * 2 + (if a % 2 == 1 || b % 2 == 1 then 1 else 0)
  }

  function Shr(a: nat, n: nat): nat
    decreases n
  {
    if n == 0 then a else Shr(a / 2, n - 1)
  }

  function Shl(a: nat, n: nat): nat
    decreases n
  {
    if n == 0 then a else Shl(a * 2, n - 1)
  }

  function Pow2(n: nat): (r: nat)
    ensures r > 0
  {
    if n == 0 then 1 else 2 * Pow2(n - 1)
  }

  lemma PowersUsed()
    ensures Pow2(1) == 2 && Pow2(2) == 4 && Pow2(3) == 8 && Pow2(4) == 16 && Pow2(5) == 32 && Pow2(6) == 64
    ensures Pow2(7) == 128
    ensures Pow2(12) == 4096 && Pow2(18) == 0x4_0000 && Pow2(24) == 0x100_0000 && Pow2(30) == 0x4000_0000
  {
  }

  lemma MoreTimes(q: nat, k: nat, d: nat)
    requires q < k
    ensures k * d >= q * d + d
  {
    var more := k - q - 1;
    assert k * d == q * d + d + more * d;
  }

  /** Quotient and remainder are the only ones. */
  lemma Division(a: nat, d: nat, q: nat, r: nat)
    requires a == q * d + r && r < d
    ensures a / d == q && a % d == r
  {
    var k := a / d;
    assert a == k * d + a % d;
    if k < q { MoreTimes(k, q, d); }
    if q < k { MoreTimes(q, k, d); }
  }

  /** Dividing by two first. */
  lemma Halved(a: nat, p: nat)
    requires p > 0
    ensures a / (2 * p) == a / 2 / p && a % (2 * p) == 2 * (a / 2 % p) + a % 2
  {
    var q, r := a / 2 / p, a / 2 % p;
    assert a / 2 == q * p + r;
    assert a == q * (2 * p) + (2 * r + a % 2);
    Division(a, 2 * p, q, 2 * r + a % 2);
  }

  /** Shifting right divides ... */
  lemma {:induction false} ShrDivides(a: nat, n: nat)
    ensures Shr(a, n) == a / Pow2(n)
  {
    if n > 0 {
      ShrDivides(a / 2, n - 1);
      Halved(a, Pow2(n - 1));
    }
  }

  lemma {:induction false} ShrAgain(a: nat, n: nat, m: nat)
    ensures Shr(Shr(a, n), m) == Shr(a, n + m)
    decreases n
  {
    if n > 0 {
      ShrAgain(a / 2, n - 1, m);
    }
  }

  /** ... shifting left multiplies ... */
  lemma {:induction false} ShlMultiplies(a: nat, n: nat)
    ensures Shl(a, n) == a * Pow2(n)
    decreases n
  {
    if n > 0 {
      ShlMultiplies(a * 2, n - 1);
    }
  }

  lemma MaskStep(a: nat, m: nat)
    ensures And(a, 2 * m + 1) == And(a / 2, m) * 2 + a % 2
  {
    assert (2 * m + 1) / 2 == m;
  }

  lemma OrStep(y: nat, x: nat)
    ensures Or(2 * y, x) == Or(y, x / 2) * 2 + x % 2
  {
    assert 2 * y / 2 == y;
  }

  /** ... masking low bits takes the remainder ... */
  lemma {:induction false} MaskIsRemainder(a: nat, n: nat)
    ensures And(a, Pow2(n) - 1) == a % Pow2(n)
  {
    if n > 0 {
      var p := Pow2(n - 1);
      MaskIsRemainder(a / 2, n - 1);
      MaskStep(a, p - 1);
      Halved(a, p);
    }
  }

  /** ... and joining bits that do not meet adds them. */
  lemma {:induction false} ApartAdds(y: nat, x: nat, n: nat)
    requires y % Pow2(n) == 0 && x < Pow2(n)
    ensures Or(y, x) == y + x
    decreases n
  {
    if n > 0 {
      Halved(y, Pow2(n - 1));
      ApartAdds(y / 2, x / 2, n - 1);
      OrStep(y / 2, x);
    } else {
      OrZero(y);
    }
  }

  lemma {:induction false} OrZero(a: nat)
    ensures Or(a, 0) == a
  {
    if a > 0 { OrZero(a / 2); }
  }
}
