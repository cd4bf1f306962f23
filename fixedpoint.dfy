/** Saturating signed fixed-point arithmetic of src/include/fixedpoint.h.
    A value is a 32-bit `sfxp_t` holding a WL-bit word with FL fraction
    bits; results are clamped to the WL-bit range. */
module FixedPoint {
  import opened CInt

  /** The word lengths for which the range macros are defined: `1 << (WL-1)`
      must be a positive `int`. */
  predicate ValidWL(WL: int)
  {
    1 <= WL <= 31
  }

  /** ONE(FL): the fixed-point 1.0 (fixedpoint.h:39). */
  function One(FL: int): (r: int)
    requires 0 <= FL <= 30
    ensures r > 0 && IsInt32(r)
  {
    Pow2Bound(FL);
    Pow2(FL)
  }

  lemma Pow2Bound(n: nat)
    requires n <= 31
    ensures Pow2(n) <= 0x8000_0000
    ensures n <= 30 ==> Pow2(n) <= 0x4000_0000
  {
    Pow2Is32();
    if n <= 30 {
      Pow2Monotone(n, 30);
    } else {
      Pow2Monotone(n, 31);
    }
  }

  /** MAX_SFXP(WL) and MIN_SFXP(WL): 2^(WL-1) - 1 and -2^(WL-1) (fixedpoint.h:40-41). */
  function MaxSfxp(WL: int): (r: int)
    requires ValidWL(WL)
    ensures IsInt32(r) && r >= 0
  {
    Pow2Bound(WL - 1);
    Pow2(WL - 1) - 1
  }

  function MinSfxp(WL: int): (r: int)
    requires ValidWL(WL)
    ensures IsInt32(r) && r == -MaxSfxp(WL) - 1
  {
    Pow2Bound(WL - 1);
    0 - Pow2(WL - 1) as int
  }

  /** MASK_SIGN(WL) and MASK_FRAC(FL) (fixedpoint.h:44-45). */
  function MaskSign(WL: int): nat
    requires ValidWL(WL)
  {
    Pow2(WL - 1)
  }

  function MaskFrac(FL: int): nat
    requires 0 <= FL <= 30
  {
    Pow2(FL) - 1
  }

  predicate InRange(i: int, WL: int)
    requires ValidWL(WL)
  {
    MinSfxp(WL) <= i <= MaxSfxp(WL)
  }

  /** RANGECHECK(I, WL) (fixedpoint.h:69-77): saturates to the WL-bit range. */
  function RangeCheck(i: int, WL: int): (r: int)
    requires ValidWL(WL)
    ensures InRange(r, WL) && IsInt32(r)
    ensures InRange(i, WL) ==> r == i
  {
    if i > MaxSfxp(WL) then MaxSfxp(WL) else if i < MinSfxp(WL) then MinSfxp(WL) else i
  }

  /** The clamp returns the representable value closest to i. */
  lemma RangeCheckIsNearest(i: int, WL: int, c: int)
    requires ValidWL(WL) && InRange(c, WL)
    ensures Abs(RangeCheck(i, WL) - i) <= Abs(c - i)
  {
  }

  /** Saturation is monotone: order between inputs survives the clamp. */
  lemma RangeCheckMonotone(i: int, j: int, WL: int)
    requires ValidWL(WL) && i <= j
    ensures RangeCheck(i, WL) <= RangeCheck(j, WL)
  {
  }

  /** fxpAdd (fixedpoint.h:82-87). The 32-bit sum must not overflow, as
      signed overflow is undefined in C. */
  function FxpAdd(A: int, B: int, WL: int): (r: int)
    requires IsInt32(A) && IsInt32(B) && IsInt32(A + B) && ValidWL(WL)
    ensures InRange(r, WL)
    ensures InRange(A + B, WL) ==> r == A + B
    ensures A + B > MaxSfxp(WL) ==> r == MaxSfxp(WL)
    ensures A + B < MinSfxp(WL) ==> r == MinSfxp(WL)
  {
    RangeCheck(A + B, WL)
  }

  /** fxpSub (fixedpoint.h:90-95). */
  function FxpSub(A: int, B: int, WL: int): (r: int)
    requires IsInt32(A) && IsInt32(B) && IsInt32(A - B) && ValidWL(WL)
    ensures InRange(r, WL)
    ensures InRange(A - B, WL) ==> r == A - B
    ensures A - B > MaxSfxp(WL) ==> r == MaxSfxp(WL)
    ensures A - B < MinSfxp(WL) ==> r == MinSfxp(WL)
  {
    RangeCheck(A - B, WL)
  }

  lemma FxpAddCommutes(A: int, B: int, WL: int)
    requires IsInt32(A) && IsInt32(B) && IsInt32(A + B) && ValidWL(WL)
    ensures FxpAdd(A, B, WL) == FxpAdd(B, A, WL)
  {
  }

  /** Subtracting is adding the negation. */
  lemma FxpSubIsAddNegated(A: int, B: int, WL: int)
    requires IsInt32(A) && IsInt32(B) && IsInt32(-B) && IsInt32(A - B) && ValidWL(WL)
    ensures FxpSub(A, B, WL) == FxpAdd(A, -B, WL)
  {
  }

  /** Adding zero to a representable value is exact. */
  lemma FxpAddZero(A: int, WL: int)
    requires ValidWL(WL) && InRange(A, WL)
    ensures FxpAdd(A, 0, WL) == A
  {
  }

  /** The shifted 64-bit product of fxpMul, before the narrowing cast. */
  function MulShifted(A: int, B: int, FL: int): int
    requires 0 <= FL < 64
  {
    Shr(A * B, FL)
  }

  /** fxpMul (fixedpoint.h:97-107): the 64-bit product shifted right by FL
      (an arithmetic shift, rounding down), narrowed to 32 bits, then clamped.
      The narrowing keeps the low 32 bits before the clamp sees the value. */
  function FxpMul(A: int, B: int, WL: int, FL: int): (r: int)
    requires IsInt32(A) && IsInt32(B) && ValidWL(WL) && 0 <= FL < 64
    ensures InRange(r, WL)
  {
    RangeCheck(Wrap32(MulShifted(A, B, FL)), WL)
  }

  /** When the shifted product fits in 32 bits, fxpMul is the clamped
      product rounded down. */
  lemma FxpMulNoWrap(A: int, B: int, WL: int, FL: int)
    requires IsInt32(A) && IsInt32(B) && ValidWL(WL) && 0 <= FL < 64
    requires IsInt32(MulShifted(A, B, FL))
    ensures FxpMul(A, B, WL, FL) == RangeCheck((A * B) / Pow2(FL), WL)
  {
    Wrap32Fits(MulShifted(A, B, FL));
  }

  /** ONE(FL) is the multiplicative identity on representable values. */
  lemma FxpMulOne(A: int, WL: int, FL: int)
    requires ValidWL(WL) && 0 <= FL <= 30 && InRange(A, WL)
    ensures FxpMul(A, One(FL), WL, FL) == A
  {
    DivUnique(A * Pow2(FL), Pow2(FL), A, 0);
    Wrap32Fits(A);
  }

  /** The 64-bit quotient of fxpDiv, before the narrowing cast: C division
      truncates toward zero. */
  function DivShifted(A: int, B: int, FL: int): int
    requires B != 0 && 0 <= FL
  {
    CDiv(A * Pow2(FL), B)
  }

  /** fxpDiv (fixedpoint.h:109-119): (A << FL) / B in 64 bits, narrowed to
      32 bits, then clamped. B == 0 is undefined in C. */
  function FxpDiv(A: int, B: int, WL: int, FL: int): (r: int)
    requires IsInt32(A) && IsInt32(B) && B != 0 && ValidWL(WL) && 0 <= FL <= 32
    ensures InRange(r, WL)
  {
    RangeCheck(Wrap32(DivShifted(A, B, FL)), WL)
  }

  /** Dividing by ONE(FL) gives the value back. */
  lemma FxpDivOne(A: int, WL: int, FL: int)
    requires ValidWL(WL) && 0 <= FL <= 30 && InRange(A, WL)
    ensures FxpDiv(A, One(FL), WL, FL) == A
  {
    var p := Pow2(FL);
    assert A * p == A * p;
    if A >= 0 {
      DivUnique(A * p, p, A, 0);
      CDivIsEuclidean(A * p, p);
    } else {
      DivUnique(-A * p, p, -A, 0);
      assert Abs(A * p) == -A * p;
    }
    Wrap32Fits(A);
  }

  /** Division truncates toward zero: negating the dividend negates the
      unclamped quotient. */
  lemma DivShiftedOdd(A: int, B: int, FL: int)
    requires B != 0 && 0 <= FL
    ensures DivShifted(-A, B, FL) == -DivShifted(A, B, FL)
  {
    assert (-A) * Pow2(FL) == -(A * Pow2(FL));
  }

  /** fxpRec (fixedpoint.h:122-124): ONE(FL) / A. */
  function FxpRec(A: int, WL: int, FL: int): (r: int)
    requires IsInt32(A) && A != 0 && ValidWL(WL) && 0 <= FL <= 30
    ensures InRange(r, WL)
  {
    FxpDiv(One(FL), A, WL, FL)
  }

  /** The reciprocal of one is one, when one is representable. */
  lemma FxpRecOfOne(WL: int, FL: int)
    requires ValidWL(WL) && 0 <= FL <= 30 && One(FL) <= MaxSfxp(WL)
    ensures FxpRec(One(FL), WL, FL) == One(FL)
  {
    FxpDivOne(One(FL), WL, FL);
  }

  /** GET_SIGN(I, WL) (fixedpoint.h:47): -1 when (I & MASK_SIGN(WL)) >> (WL-1)
      is non-zero, else 1. */
  function GetSign(i: int, WL: int): (r: int)
    requires ValidWL(WL)
    ensures r == -1 || r == 1
  {
    if AndMask(i, MaskSign(WL)) / Pow2(WL - 1) != 0 then -1 else 1
  }

  /** GET_SIGN reads bit WL - 1 of the two's complement word. */
  lemma GetSignIsBit(i: int, WL: int)
    requires ValidWL(WL)
    ensures GetSign(i, WL) == -1 <==> ((i % 0x1_0000_0000) / Pow2(WL - 1)) % 2 == 1
  {
    var u := i % 0x1_0000_0000;
    var p := Pow2(WL - 1);
    AndSingleBit(u, WL - 1);
    var b := (u / p) % 2;
    assert AndMask(i, MaskSign(WL)) == p * b;
    DivUnique(p * b, p, b, 0);
  }

  /** On a representable WL-bit value, GET_SIGN is -1 exactly for negatives. */
  lemma GetSignOfInRange(i: int, WL: int)
    requires ValidWL(WL) && InRange(i, WL)
    ensures GetSign(i, WL) == -1 <==> i < 0
  {
    GetSignIsBit(i, WL);
    var p := Pow2(WL - 1);
    var u := i % 0x1_0000_0000;
    if i < 0 {
      SignWordOfNegative(i, WL);
    } else {
      assert u == i && i < p;
      DivUnique(u, p, 0, i);
    }
  }

  /** A negative WL-bit value has bit WL - 1 of its 32-bit word set: the word
      is 2^32 + i, which is (2^(33-WL) - 1) * 2^(WL-1) + (i + 2^(WL-1)). */
  lemma SignWordOfNegative(i: int, WL: int)
    requires ValidWL(WL) && MinSfxp(WL) <= i < 0
    ensures ((i % 0x1_0000_0000) / Pow2(WL - 1)) % 2 == 1
  {
    var p := Pow2(WL - 1);
    Pow2Is32();
    Pow2Add(WL - 1, 33 - WL);
    var q := Pow2(33 - WL);
    assert p * q == 0x1_0000_0000;
    assert q == 2 * Pow2(32 - WL);
    var u := 0x1_0000_0000 + i;
    DivUnique(i, 0x1_0000_0000, -1, u);
    var k := q - 1;
    MulDistributes(p, k, 1);
    assert u == p * k + (i + p);
    DivUnique(u, p, k, i + p);
    DivUnique(q - 1, 2, Pow2(32 - WL) - 1, 1);
  }

  // ---------------------------------------------------------------------
  // fxp2strFxp (fixedpoint.h:127-132)
  // ---------------------------------------------------------------------

  /** strSfxp_t: a value split into sign, integer field and fraction field. */
  datatype StrSfxp = StrSfxp(sign: int, integer: int, frac: int)

  predicate ValidFormat(WL: int, FL: int)
  {
    ValidWL(WL) && 0 <= FL < WL
  }

  /** fxp2strFxp as written: `-` binds tighter than `&`, so the integer
      field is masked with the value WL - FL rather than 2^(WL-FL) - 1. */
  function FxpToStr(i: int, WL: int, FL: int): (r: StrSfxp)
    requires ValidFormat(WL, FL) && IsInt32(i)
    ensures r.sign == -1 || r.sign == 1
    ensures 0 <= r.frac < Pow2(FL)
    ensures 0 <= r.integer <= WL - FL
  {
    AndLowMask(i % 0x1_0000_0000, FL);
    AndBoundedByMask(Shr(i, FL) % 0x1_0000_0000, WL - FL);
    StrSfxp(GetSign(i, WL), AndMask(Shr(i, FL), (WL - FL + 1) - 1), AndMask(i, MaskFrac(FL)))
  }

  lemma {:induction false} AndBoundedByMask(a: nat, m: nat)
    ensures And(a, m) <= m
  {
    if a != 0 && m != 0 {
      AndBoundedByMask(a / 2, m / 2);
    }
  }

  /** Input that shows the mask slip: 3.0 in Q8.8 (768 with WL = 16,
      FL = 8) has integer field 3, but 3 & 8 == 0 is reported. */
  lemma FxpToStrDropsInteger()
    ensures FxpToStr(768, 16, 8).integer == 0
    ensures Shr(768, 8) == 3
  {
    assert Pow2(8) == 256;
    assert Shr(768, 8) == 3 by {
      DivUnique(768, 256, 3, 0);
    }
    assert And(3, 8) == 0 by {
      assert And(3, 8) == 2 * And(1, 4);
      assert And(1, 4) == 2 * And(0, 2);
    }
    assert AndMask(3, 8) == And(3, 8) by {
      DivUnique(3, 0x1_0000_0000, 0, 3);
    }
    assert FxpToStr(768, 16, 8).integer == AndMask(Shr(768, 8), 8);
  }

  /** fxp2strFxp with the integer mask meant, 2^(WL-FL) - 1. */
  function FxpToStrCorrected(i: int, WL: int, FL: int): (r: StrSfxp)
    requires ValidFormat(WL, FL) && IsInt32(i)
    ensures r.sign == -1 || r.sign == 1
    ensures 0 <= r.frac < Pow2(FL)
    ensures 0 <= r.integer < Pow2(WL - FL)
  {
    AndLowMask(i % 0x1_0000_0000, FL);
    AndLowMask(Shr(i, FL) % 0x1_0000_0000, WL - FL);
    Pow2Mod32(i, FL, WL);
    StrSfxp(GetSign(i, WL), AndMask(Shr(i, FL), Pow2(WL - FL) - 1), AndMask(i, MaskFrac(FL)))
  }

  /** Reducing mod 2^32 first does not change a residue mod a smaller power. */
  lemma Pow2Mod32(i: int, FL: int, WL: int)
    requires ValidFormat(WL, FL)
    ensures (i % 0x1_0000_0000) % Pow2(FL) == i % Pow2(FL)
    ensures (Shr(i, FL) % 0x1_0000_0000) % Pow2(WL - FL) == Shr(i, FL) % Pow2(WL - FL)
  {
    Pow2Is32();
    ModOfMod(i, FL, 32);
    ModOfMod(Shr(i, FL), WL - FL, 32);
  }

  /** (x mod 2^b) mod 2^a == x mod 2^a when a <= b. */
  lemma ModOfMod(x: int, a: nat, b: nat)
    requires a <= b
    ensures (x % Pow2(b)) % Pow2(a) == x % Pow2(a)
  {
    var pa, pb := Pow2(a), Pow2(b);
    Pow2Add(a, b - a);
    var c := Pow2(b - a);
    var Q, r := x / pb, x % pb;
    var R, rr := r / pa, r % pa;
    DivMod(x, pb);
    DivMod(r, pa);
    MulAssoc(pa, c, Q);
    MulDistributes(pa, c * Q, R);
    var k := c * Q + R;
    assert x == pa * k + rr;
    DivUnique(x, pa, k, rr);
  }

  /** The corrected fields rebuild the WL-bit word: integer * 2^FL + frac is
      the input modulo 2^WL, its two's complement bit pattern. */
  lemma FxpToStrCorrectedRebuilds(i: int, WL: int, FL: int)
    requires ValidFormat(WL, FL) && IsInt32(i)
    ensures var r := FxpToStrCorrected(i, WL, FL);
      r.integer * Pow2(FL) + r.frac == i % Pow2(WL)
  {
    var r := FxpToStrCorrected(i, WL, FL);
    CorrectedFields(i, WL, FL);
    Pow2Split(WL, FL);
    Recombine(r.integer, r.frac, i, Pow2(FL), Pow2(WL - FL), Pow2(WL));
  }

  lemma Pow2Split(WL: nat, FL: nat)
    requires FL <= WL
    ensures Pow2(WL) == Pow2(FL) * Pow2(WL - FL)
  {
    Pow2Add(FL, WL - FL);
  }

  /** Digits (i / pf) mod pi and i mod pf rebuild i mod (pf * pi). */
  lemma Recombine(integer: int, frac: int, i: int, pf: int, pi: int, w: int)
    requires pf > 0 && pi > 0 && w == pf * pi
    requires integer == (i / pf) % pi && frac == i % pf
    ensures integer * pf + frac == i % w
  {
    SplitDigits(i, pf, pi);
  }

  /** The corrected fields are the two mixed-radix digits of i. */
  lemma CorrectedFields(i: int, WL: int, FL: int)
    requires ValidFormat(WL, FL) && IsInt32(i)
    ensures FxpToStrCorrected(i, WL, FL).frac == i % Pow2(FL)
    ensures FxpToStrCorrected(i, WL, FL).integer == (i / Pow2(FL)) % Pow2(WL - FL)
  {
    MaskedFieldsAreResidues(i, WL, FL);
  }

  /** Both masks of the corrected conversion keep residues. */
  lemma MaskedFieldsAreResidues(i: int, WL: int, FL: int)
    requires ValidFormat(WL, FL)
    ensures AndMask(i, MaskFrac(FL)) == i % Pow2(FL)
    ensures AndMask(Shr(i, FL), Pow2(WL - FL) - 1) == (i / Pow2(FL)) % Pow2(WL - FL)
  {
    Pow2Mod32(i, FL, WL);
    AndLowMask(i % 0x1_0000_0000, FL);
    AndLowMask(Shr(i, FL) % 0x1_0000_0000, WL - FL);
  }

  /** Mixed-radix digits: i mod (pf * pi) == ((i / pf) mod pi) * pf + i mod pf. */
  lemma SplitDigits(i: int, pf: int, pi: int)
    requires pf > 0 && pi > 0
    ensures (i / pf) % pi * pf + i % pf == i % (pf * pi)
  {
    var q, f := i / pf, i % pf;
    var hi, lo := q / pi, q % pi;
    DivMod(i, pf);
    DivMod(q, pi);
    MulDistributes(pf, pi * hi, lo);
    MulAssoc(pf, pi, hi);
    var n := pf * pi;
    var m := pf * lo + f;
    assert i == n * hi + m;
    MulDistributes(pf, pi - 1, 1);
    BoundedDigit(pf, pi, lo, f);
    DivUnique(i, n, hi, m);
  }

  lemma BoundedDigit(pf: int, pi: int, lo: int, f: int)
    requires pf > 0 && 0 <= lo < pi && 0 <= f < pf
    ensures 0 <= pf * lo + f < pf * pi
  {
    assert pf * lo <= pf * (pi - 1);
  }
}
