/** The C integer semantics the simulator relies on: `/` and `%` truncate
    toward zero, and a narrowing cast to a 32-bit `int` keeps the low 32
    bits in two's complement. Dafny's own `/` and `%` are Euclidean, so the
    C operators are written out here. */
module CInt {

  const INT_MIN: int := -0x8000_0000
  const INT_MAX: int := 0x7FFF_FFFF

  predicate IsInt32(x: int)
  {
    INT_MIN <= x <= INT_MAX
  }

  function Abs(x: int): nat
  {
    if x < 0 then -x else x
  }

  /** C `a / b`: the quotient rounded toward zero. */
  function CDiv(a: int, b: int): int
    requires b != 0
  {
    var q := Abs(a) / Abs(b);
    if (a < 0) == (b < 0) then q else -q
  }

  /** C `a % b`: what is left after CDiv, carrying the sign of a. */
  function CRem(a: int, b: int): int
    requires b != 0
  {
    a - CDiv(a, b) * b
  }

  /** The C division identity: the remainder is smaller than the divisor in
      magnitude and is never of the opposite sign to the dividend. */
  lemma CDivRem(a: int, b: int)
    requires b != 0
    ensures a == CDiv(a, b) * b + CRem(a, b)
    ensures Abs(CRem(a, b)) < Abs(b)
    ensures a >= 0 ==> CRem(a, b) >= 0
    ensures a <= 0 ==> CRem(a, b) <= 0
  {
    var q, r := Abs(a) / Abs(b), Abs(a) % Abs(b);
    DivMod(Abs(a), Abs(b));
    RemainderBySign(a, b, CDiv(a, b), q, r);
  }

  /** What is left of a after CDiv, from the quotient q and remainder r of
      the magnitudes. */
  lemma RemainderBySign(a: int, b: int, c: int, q: int, r: int)
    requires b != 0 && Abs(a) == Abs(b) * q + r
    requires c == if (a < 0) == (b < 0) then q else -q
    ensures a - c * b == if a < 0 then -r else r
  {
    assert (-q) * b == -(q * b);
    if b < 0 {
      assert Abs(b) * q == -(q * b);
    } else {
      assert Abs(b) * q == q * b;
    }
  }

  /** On a non-negative dividend and a positive divisor C and Dafny agree. */
  lemma CDivIsEuclidean(a: int, b: int)
    requires a >= 0 && b > 0
    ensures CDiv(a, b) == a / b && CRem(a, b) == a % b
  {
  }

  /** The low 32 bits of x read as a signed 32-bit value, the result of
      converting a wider integer to `int`. */
  function Wrap32(x: int): (r: int)
    ensures IsInt32(r)
    ensures (x - r) % 0x1_0000_0000 == 0
  {
    var m := x % 0x1_0000_0000;
    if m > INT_MAX then m - 0x1_0000_0000 else m
  }

  /** A value that already fits is kept. */
  lemma Wrap32Fits(x: int)
    requires IsInt32(x)
    ensures Wrap32(x) == x
  {
  }

  lemma MulAtLeast(d: int, r: int)
    requires d >= 1 && r > 0
    ensures d * r >= r
  {
    assert d * r == (d - 1) * r + r;
    assert (d - 1) * r >= 0;
  }

  /** Euclidean quotient and remainder are unique. */
  lemma DivUnique(a: int, r: int, q: int, m: int)
    requires r > 0 && a == q * r + m && 0 <= m < r
    ensures a / r == q && a % r == m
  {
    var q', m' := a / r, a % r;
    assert a == q' * r + m';
    assert (q - q') * r == m' - m;
    if q > q' {
      MulAtLeast(q - q', r);
    } else if q' > q {
      MulAtLeast(q' - q, r);
    }
  }

  /** Dividing by a positive number preserves order. */
  lemma DivMonotone(a: int, b: int, r: int)
    requires 0 <= a <= b && r > 0
    ensures a / r <= b / r
  {
    var qa, qb := a / r, b / r;
    assert a == qa * r + a % r;
    assert b == qb * r + b % r;
    if qa > qb {
      MulAtLeast(qa - qb, r);
    }
  }

  // ---------------------------------------------------------------------
  // Shifts and masks on non-negative values.
  // ---------------------------------------------------------------------

  function Pow2(n: nat): (r: nat)
    ensures r >= 1
  {
    if n == 0 then 1 else 2 * Pow2(n - 1)
  }

  /** Bitwise and of two naturals, one bit at a time. */
  function And(a: nat, b: nat): nat
  {
    if a == 0 || b == 0 then 0
    else 2 * And(a / 2, b / 2) + (if a % 2 == 1 && b % 2 == 1 then 1 else 0)
  }

  /** x & m of a C integer x with a non-negative mask m below 2^32:
      the two's complement bits of x are those of x mod 2^32. */
  function AndMask(x: int, m: nat): nat
  {
    And(x % 0x1_0000_0000, m)
  }

  lemma {:induction false} Pow2Add(a: nat, b: nat)
    ensures Pow2(a + b) == Pow2(a) * Pow2(b)
    decreases a
  {
    if a > 0 {
      Pow2Add(a - 1, b);
      assert Pow2(a + b) == 2 * Pow2(a - 1 + b);
    }
  }

  lemma Pow2Is32()
    ensures Pow2(16) == 0x1_0000 && Pow2(32) == 0x1_0000_0000
    ensures Pow2(30) == 0x4000_0000 && Pow2(31) == 0x8000_0000
  {
    assert Pow2(8) == 256;
    assert Pow2(14) == 0x4000;
    assert Pow2(15) == 0x8000;
    Pow2Add(8, 8);
    Pow2Add(16, 16);
    Pow2Add(16, 14);
    Pow2Add(16, 15);
  }

  lemma {:induction false} Pow2Monotone(a: nat, b: nat)
    requires a <= b
    ensures Pow2(a) <= Pow2(b)
    decreases b - a
  {
    if a < b {
      Pow2Monotone(a, b - 1);
    }
  }

  lemma DivMod(x: int, d: int)
    requires d > 0
    ensures x == d * (x / d) + x % d && 0 <= x % d < d
  {
  }

  lemma MulAssoc(a: int, b: int, c: int)
    ensures (a * b) * c == a * (b * c)
  {
  }

  lemma MulDistributes(a: int, b: int, c: int)
    ensures a * (b + c) == a * b + a * c
  {
  }

  /** x mod 2P splits into the low bit and (x / 2) mod P. */
  lemma ModDouble(x: int, p: int)
    requires p > 0
    ensures x % (2 * p) == 2 * ((x / 2) % p) + x % 2
    ensures x / (2 * p) == (x / 2) / p
  {
    var h := x / 2;
    assert x == 2 * h + x % 2;
    assert h == p * (h / p) + h % p;
    assert x == (2 * p) * (h / p) + (2 * (h % p) + x % 2);
    DivUnique(x, 2 * p, h / p, 2 * (h % p) + x % 2);
  }

  /** Masking with 2^k - 1 keeps the value mod 2^k. */
  lemma {:induction false} AndLowMask(x: nat, k: nat)
    ensures And(x, Pow2(k) - 1) == x % Pow2(k)
    decreases k
  {
    if k == 0 {
      assert Pow2(k) == 1 && And(x, 0) == 0;
    } else if x == 0 {
      assert And(0, Pow2(k) - 1) == 0;
    } else {
      AndLowMask(x / 2, k - 1);
      AndLowMaskStep(x, k);
    }
  }

  /** The inductive step of AndLowMask: one more low bit. */
  lemma AndLowMaskStep(x: nat, k: nat)
    requires k > 0 && x != 0
    requires And(x / 2, Pow2(k - 1) - 1) == (x / 2) % Pow2(k - 1)
    ensures And(x, Pow2(k) - 1) == x % Pow2(k)
  {
    var p := Pow2(k - 1);
    var m := Pow2(k) - 1;
    assert m == (p - 1) * 2 + 1;
    DivUnique(m, 2, p - 1, 1);
    ModDouble(x, p);
    calc {
      And(x, m);
      2 * And(x / 2, m / 2) + (if x % 2 == 1 then 1 else 0);
      2 * ((x / 2) % p) + x % 2;
      x % (2 * p);
    }
  }

  /** Masking with 2^n keeps exactly bit n. */
  lemma {:induction false} AndSingleBit(x: nat, n: nat)
    ensures And(x, Pow2(n)) == Pow2(n) * ((x / Pow2(n)) % 2)
    decreases n
  {
    if n > 0 && x != 0 {
      var p := Pow2(n - 1);
      assert Pow2(n) == 2 * p && Pow2(n) / 2 == p && Pow2(n) % 2 == 0;
      assert And(x, Pow2(n)) == 2 * And(x / 2, p);
      AndSingleBit(x / 2, n - 1);
      ModDouble(x, p);
      var b := ((x / 2) / p) % 2;
      assert x / Pow2(n) == (x / 2) / p;
      assert And(x, Pow2(n)) == 2 * (p * b);
      assert 2 * (p * b) == (2 * p) * b;
    } else if x == 0 {
      assert (x / Pow2(n)) % 2 == 0;
    } else {
      assert And(x, 1) == 2 * And(x / 2, 0) + (if x % 2 == 1 then 1 else 0);
    }
  }

  /** x >> s on a C integer is floor division by 2^s. */
  function Shr(x: int, s: nat): int
  {
    x / Pow2(s)
  }
}
