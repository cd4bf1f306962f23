/** The integer helpers of src/include/comMath.h: the bit-error counter
    xorInt and the 4-bit Gray code table GRAY_MAPPING. */
module ComMathInt {

  /** The number of positions below n where a and b differ. */
  function Mismatches(a: seq<int>, b: seq<int>, n: int): (r: nat)
    requires n <= |a| && n <= |b|
    decreases n
  {
    if n <= 0 then 0 else Mismatches(a, b, n - 1) + (if a[n - 1] != b[n - 1] then 1 else 0)
  }

  /** xorInt (comMath.h:43-52): counts the differing positions of the first
      len entries. */
  method XorInt(a: seq<int>, b: seq<int>, len: int) returns (count: int)
    requires len <= |a| && len <= |b|
    ensures count == Mismatches(a, b, len)
  {
    var i := 0;
    count := 0;
    while i < len
      invariant 0 <= i <= if len < 0 then 0 else len
      invariant count == Mismatches(a, b, i)
    {
      if a[i] != b[i] {
        count := count + 1;
      }
      i := i + 1;
    }
  }

  /** The set of differing positions, an independent reading of the count. */
  ghost function DiffSet(a: seq<int>, b: seq<int>, n: int): set<int>
    requires n <= |a| && n <= |b|
  {
    set i | 0 <= i < n && a[i] != b[i]
  }

  lemma {:induction false} MismatchesIsDiffSetSize(a: seq<int>, b: seq<int>, n: int)
    requires 0 <= n <= |a| && n <= |b|
    ensures Mismatches(a, b, n) == |DiffSet(a, b, n)|
    decreases n
  {
    if n > 0 {
      MismatchesIsDiffSetSize(a, b, n - 1);
      if a[n - 1] != b[n - 1] {
        assert DiffSet(a, b, n) == DiffSet(a, b, n - 1) + {n - 1};
      } else {
        assert DiffSet(a, b, n) == DiffSet(a, b, n - 1);
      }
    } else {
      assert DiffSet(a, b, n) == {};
    }
  }

  /** The count lies in [0, len]. */
  lemma {:induction false} MismatchesBounded(a: seq<int>, b: seq<int>, n: int)
    requires n <= |a| && n <= |b|
    ensures 0 <= Mismatches(a, b, n) <= if n < 0 then 0 else n
    decreases n
  {
    if n > 0 {
      MismatchesBounded(a, b, n - 1);
    }
  }

  /** The count is zero exactly when the prefixes agree. */
  lemma {:induction false} MismatchesZeroIffEqual(a: seq<int>, b: seq<int>, n: int)
    requires 0 <= n <= |a| && n <= |b|
    ensures Mismatches(a, b, n) == 0 <==> a[..n] == b[..n]
    decreases n
  {
    if n > 0 {
      MismatchesZeroIffEqual(a, b, n - 1);
      assert a[..n] == a[..n - 1] + [a[n - 1]];
      assert b[..n] == b[..n - 1] + [b[n - 1]];
      if a[..n] == b[..n] {
        assert a[..n - 1] == a[..n][..n - 1];
        assert b[..n - 1] == b[..n][..n - 1];
        assert a[n - 1] == a[..n][n - 1];
        assert b[n - 1] == b[..n][n - 1];
      }
    }
  }

  /** The count does not depend on which side is the reference. */
  lemma {:induction false} MismatchesSymmetric(a: seq<int>, b: seq<int>, n: int)
    requires n <= |a| && n <= |b|
    ensures Mismatches(a, b, n) == Mismatches(b, a, n)
    decreases n
  {
    if n > 0 {
      MismatchesSymmetric(a, b, n - 1);
    }
  }

  // ---------------------------------------------------------------------
  // GRAY_MAPPING (comMath.h:36)
  // ---------------------------------------------------------------------

  const GRAY_MAPPING: seq<int> := [0, 1, 3, 2, 6, 7, 5, 4, 12, 13, 15, 14, 10, 11, 9, 8]

  /** Bitwise exclusive or of two naturals, one bit at a time. */
  function Xor(a: nat, b: nat): nat
  {
    if a == 0 && b == 0 then 0
    else 2 * Xor(a / 2, b / 2) + (if a % 2 != b % 2 then 1 else 0)
  }

  /** The number of set bits. */
  function PopCount(a: nat): nat
  {
    if a == 0 then 0 else PopCount(a / 2) + a % 2
  }

  /** The table is the binary-reflected Gray code i XOR (i >> 1). */
  lemma GrayIsXorShift(i: int)
    requires 0 <= i < 16
    ensures GRAY_MAPPING[i] == Xor(i, i / 2)
  {
    if i < 8 {
      GrayLowHalf(i);
    } else {
      GrayHighHalf(i);
    }
  }

  lemma GrayLowHalf(i: int)
    requires 0 <= i < 8
    ensures GRAY_MAPPING[i] == Xor(i, i / 2)
  {
    if i < 4 {
      assert i == 0 || i == 1 || i == 2 || i == 3;
    } else {
      assert i == 4 || i == 5 || i == 6 || i == 7;
    }
  }

  lemma GrayHighHalf(i: int)
    requires 8 <= i < 16
    ensures GRAY_MAPPING[i] == Xor(i, i / 2)
  {
    if i < 12 {
      assert i == 8 || i == 9 || i == 10 || i == 11;
    } else {
      assert i == 12 || i == 13 || i == 14 || i == 15;
    }
  }

  /** A single set bit. */
  lemma PowersOfTwoHaveOneBit()
    ensures PopCount(1) == 1 && PopCount(2) == 1 && PopCount(4) == 1 && PopCount(8) == 1
  {
    assert PopCount(2) == PopCount(1) + 0;
    assert PopCount(4) == PopCount(2) + 0;
    assert PopCount(8) == PopCount(4) + 0;
  }

  /** Neighbouring entries differ in exactly one bit. */
  lemma GrayAdjacentOneBit(i: int)
    requires 0 <= i < 15
    ensures PopCount(Xor(GRAY_MAPPING[i], GRAY_MAPPING[i + 1])) == 1
  {
    PowersOfTwoHaveOneBit();
    if i == 0 {
      assert GRAY_MAPPING[i] == 0 && GRAY_MAPPING[i + 1] == 1;
      assert Xor(0, 1) == 1;
    } else if i == 1 {
      assert GRAY_MAPPING[i] == 1 && GRAY_MAPPING[i + 1] == 3;
      assert Xor(1, 3) == 2;
    } else if i == 2 {
      assert GRAY_MAPPING[i] == 3 && GRAY_MAPPING[i + 1] == 2;
      assert Xor(3, 2) == 1;
    } else if i == 3 {
      assert GRAY_MAPPING[i] == 2 && GRAY_MAPPING[i + 1] == 6;
      assert Xor(2, 6) == 4;
    } else if i == 4 {
      assert GRAY_MAPPING[i] == 6 && GRAY_MAPPING[i + 1] == 7;
      assert Xor(6, 7) == 1;
    } else if i == 5 {
      assert GRAY_MAPPING[i] == 7 && GRAY_MAPPING[i + 1] == 5;
      assert Xor(7, 5) == 2;
    } else if i == 6 {
      assert GRAY_MAPPING[i] == 5 && GRAY_MAPPING[i + 1] == 4;
      assert Xor(5, 4) == 1;
    } else if i == 7 {
      assert GRAY_MAPPING[i] == 4 && GRAY_MAPPING[i + 1] == 12;
      assert Xor(4, 12) == 8;
    } else if i == 8 {
      assert GRAY_MAPPING[i] == 12 && GRAY_MAPPING[i + 1] == 13;
      assert Xor(12, 13) == 1;
    } else if i == 9 {
      assert GRAY_MAPPING[i] == 13 && GRAY_MAPPING[i + 1] == 15;
      assert Xor(13, 15) == 2;
    } else if i == 10 {
      assert GRAY_MAPPING[i] == 15 && GRAY_MAPPING[i + 1] == 14;
      assert Xor(15, 14) == 1;
    } else if i == 11 {
      assert GRAY_MAPPING[i] == 14 && GRAY_MAPPING[i + 1] == 10;
      assert Xor(14, 10) == 4;
    } else if i == 12 {
      assert GRAY_MAPPING[i] == 10 && GRAY_MAPPING[i + 1] == 11;
      assert Xor(10, 11) == 1;
    } else if i == 13 {
      assert GRAY_MAPPING[i] == 11 && GRAY_MAPPING[i + 1] == 9;
      assert Xor(11, 9) == 2;
    } else if i == 14 {
      assert GRAY_MAPPING[i] == 9 && GRAY_MAPPING[i + 1] == 8;
      assert Xor(9, 8) == 1;
    }
  }

  /** The table is a permutation of 0..15. */
  lemma GrayIsPermutation()
    ensures forall v :: 0 <= v < 16 <==> v in GRAY_MAPPING
    ensures forall i, j :: 0 <= i < j < 16 ==> GRAY_MAPPING[i] != GRAY_MAPPING[j]
  {
    assert GRAY_MAPPING[0] == 0 && GRAY_MAPPING[1] == 1 && GRAY_MAPPING[3] == 2 && GRAY_MAPPING[2] == 3;
    assert GRAY_MAPPING[7] == 4 && GRAY_MAPPING[6] == 5 && GRAY_MAPPING[4] == 6 && GRAY_MAPPING[5] == 7;
    assert GRAY_MAPPING[15] == 8 && GRAY_MAPPING[14] == 9 && GRAY_MAPPING[12] == 10 && GRAY_MAPPING[13] == 11;
    assert GRAY_MAPPING[8] == 12 && GRAY_MAPPING[9] == 13 && GRAY_MAPPING[11] == 14 && GRAY_MAPPING[10] == 15;
  }
}
