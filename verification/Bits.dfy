/** Shifts and bitwise operators on unbounded two's-complement integers, as Python has them. */
module Bits {

  function Pow2(n: nat): (r: nat)
    ensures r > 0
  {
    if n == 0 then 1 else 2 * Pow2(n - 1)
  }

  function Shl(x: int, n: nat): int {
    x * Pow2(n)
  }

  /** The arithmetic right shift: Dafny's division by a positive number is the floor. */
  function Shr(x: int, n: nat): int {
    x / Pow2(n)
  }

  predicate Bit(x: int, i: nat) {
    Shr(x, i) % 2 == 1
  }

  function Abs(x: int): nat {
    if x < 0 then -x else x
  }

  /** 0 and -1 are their own halves: every higher bit is a copy of the sign. */
  predicate AllSign(x: int) {
    x == 0 || x == -1
  }

  function Or(a: int, b: int): int
    decreases Abs(a) + Abs(b)
  {
    if AllSign(a) && AllSign(b) then
      if a == -1 || b == -1 then -1 else 0
    else
      2 * Or(a / 2, b / 2) + (if a % 2 == 1 || b % 2 == 1 then 1 else 0)
  }

  function And(a: int, b: int): int
    decreases Abs(a) + Abs(b)
  {
    if AllSign(a) && AllSign(b) then
      if a == -1 && b == -1 then -1 else 0
    else
      2 * And(a / 2, b / 2) + (if a % 2 == 1 && b % 2 == 1 then 1 else 0)
  }

  lemma {:induction false} ShrStep(x: int, i: nat)
    ensures Shr(x, i + 1) == Shr(x / 2, i)
  {
    var p := Pow2(i);
    assert Pow2(i + 1) == 2 * p;
    var q, r := (x / 2) / p, (x / 2) % p;
    assert x / 2 == p * q + r && x == 2 * (x / 2) + x % 2;
    assert x == (2 * p) * q + (2 * r + x % 2);
    DivUnique(x, 2 * p, q, 2 * r + x % 2);
  }

  lemma DivUnique(x: int, d: int, q: int, r: int)
    requires d > 0 && 0 <= r < d && x == d * q + r
    ensures x / d == q && x % d == r
  {
    var e := x / d - q;
    assert d * (x / d) + x % d == d * q + r;
    assert d * e == r - x % d;
    assert e >= 1 ==> d * e >= d;
    assert e <= -1 ==> d * e <= -d;
  }

  /** The recursive operators are the bit-by-bit ones, at every position. */
  lemma {:induction false} OrBits(a: int, b: int, i: nat)
    ensures Bit(Or(a, b), i) <==> Bit(a, i) || Bit(b, i)
    decreases i
  {
    var o := Or(a, b);
    assert o % 2 == (if a % 2 == 1 || b % 2 == 1 then 1 else 0) && o / 2 == Or(a / 2, b / 2);
    if i > 0 {
      ShrStep(a, i - 1);
      ShrStep(b, i - 1);
      ShrStep(o, i - 1);
      OrBits(a / 2, b / 2, i - 1);
    }
  }

  lemma {:induction false} AndBits(a: int, b: int, i: nat)
    ensures Bit(And(a, b), i) <==> Bit(a, i) && Bit(b, i)
    decreases i
  {
    var o := And(a, b);
    assert o % 2 == (if a % 2 == 1 && b % 2 == 1 then 1 else 0) && o / 2 == And(a / 2, b / 2);
    if i > 0 {
      ShrStep(a, i - 1);
      ShrStep(b, i - 1);
      ShrStep(o, i - 1);
      AndBits(a / 2, b / 2, i - 1);
    }
  }

  lemma {:induction false} OrZero(a: int)
    ensures Or(a, 0) == a
    decreases Abs(a)
  {
    if !AllSign(a) {
      OrZero(a / 2);
    }
  }

  lemma {:induction false} AndZero(a: int)
    ensures And(a, 0) == 0
    decreases Abs(a)
  {
    if !AllSign(a) {
      AndZero(a / 2);
    }
  }

  /** Or of a shifted value with a value that fits below the shift is their sum. */
  lemma {:induction false} OrIsSum(x: int, n: nat, low: int)
    requires 0 <= low < Pow2(n)
    ensures Or(Shl(x, n), low) == Shl(x, n) + low
    decreases n
  {
    if n == 0 {
      OrZero(x);
    } else {
      var half := Shl(x, n - 1);
      assert Shl(x, n) == 2 * half;
      OrIsSum(x, n - 1, low / 2);
    }
  }

  lemma HalvedRemainder(x: int, p: nat)
    requires p > 0
    ensures x % (2 * p) == 2 * ((x / 2) % p) + x % 2
  {
    var q, r := (x / 2) / p, (x / 2) % p;
    assert x / 2 == p * q + r;
    assert (2 * p) * q == 2 * (p * q);
    DivUnique(x, 2 * p, q, 2 * r + x % 2);
  }

  /** A mask of n ones takes the remainder, also for negative x. */
  lemma {:induction false} MaskIsRemainder(x: int, n: nat)
    ensures And(x, Pow2(n) - 1) == x % Pow2(n)
    decreases n
  {
    if n == 0 {
      AndZero(x);
    } else {
      var p := Pow2(n - 1);
      MaskIsRemainder(x / 2, n - 1);
      assert (2 * p - 1) / 2 == p - 1 && (2 * p - 1) % 2 == 1;
      HalvedRemainder(x, p);
    }
  }

  lemma {:induction false} Pow2Add(m: nat, n: nat)
    ensures Pow2(m + n) == Pow2(m) * Pow2(n)
  {
    if m > 0 {
      Pow2Add(m - 1, n);
      assert Pow2(m + n) == 2 * (Pow2(m - 1) * Pow2(n));
    }
  }
}
