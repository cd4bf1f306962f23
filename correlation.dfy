/** The windowed correlation engine of src/include/comMath.h:136-380:
    xcorr_range (real samples), xcorr_rangeComp (complex samples, `local`
    conjugated first) and the wrappers xcorr, autocorr_range and autocorr.

    The index arithmetic of the four hand-written windowing branches is kept
    literally, in the pure functions Iters, RevIdx and LocIdx and in the loops
    of WindowSum/WindowSumComp. CorrSum is the textbook bounded sum
      out[k] = Σ_i rev[i] · local[i - k + |local| - 1]
    and the lemmas say exactly where the code agrees with it. */
module Correlation {
  import opened Sums
  import opened ComplexArith
  import opened Maybe

  /** A threshold equal to its sentinel is disabled (comMath.h:32-33). */
  const MAX_MAGIC: real := -65534.0
  const MIN_MAGIC: real := 65533.0

  // ---------------------------------------------------------------------
  // Window index formulas of comMath.h:168-198 (R = len_rev, L = len_local,
  // k = oBuff, i = inner loop counter, lenOut = R + L - 1).
  // ---------------------------------------------------------------------

  /** How many times the inner loop runs at output position k. */
  function Iters(R: int, L: int, k: int): int
  {
    var lenOut := R + L - 1;
    if R >= L then
      (if k < L then k + 1 else if k >= R then lenOut - k else L)
    else
      (if k < R then k + 1 else if k >= L then lenOut - k else R)
  }

  /** The index of `rev` read in iteration i at position k. */
  function RevIdx(R: int, L: int, k: int, i: int): int
  {
    var lenOut := R + L - 1;
    if R >= L then
      (if k < L then k - i else if k >= R then R - (lenOut - k) + i else k - i)
    else
      (if k < R then k - i else if k >= L then R - (lenOut - k) + i else R - 1 - i)
  }

  /** The index of `local` read in iteration i at position k. */
  function LocIdx(R: int, L: int, k: int, i: int): int
  {
    var lenOut := R + L - 1;
    if R >= L then
      (if k < L then L - 1 - i else if k >= R then L - (lenOut - k) - 1 + i else L - 1 - i)
    else
      (if k < R then L - 1 - i else if k >= L then i else L - 1 - (k + 1 - R) - i)
  }

  /** Every read of the four regimes is in bounds (comMath.h:168-198). */
  lemma WindowInBounds(R: nat, L: nat, k: int, i: int)
    requires 0 <= k <= R + L - 1 && 0 <= i < Iters(R, L, k)
    ensures 0 <= RevIdx(R, L, k, i) < R
    ensures 0 <= LocIdx(R, L, k, i) < L
  {
  }

  /** In the falling edge of the branch len_rev >= len_local the code reads
      `local` k - R places to the right of the index the correlation needs
      (comMath.h:173-177); the two coincide only at k == R. */
  lemma FallingEdgeOffset(R: nat, L: nat, k: int, i: int)
    requires R >= L && L <= k && R <= k <= R + L - 1 && 0 <= i < Iters(R, L, k)
    ensures LocIdx(R, L, k, i) == (RevIdx(R, L, k, i) - k + L - 1) + (k - R)
  {
  }

  // ---------------------------------------------------------------------
  // The sums the code computes, and the textbook sum.
  // ---------------------------------------------------------------------

  /** rev[a] * local[b]; nothing when either index is out of range. */
  function Term(rev: seq<real>, local: seq<real>, a: int, b: int): real
  {
    if 0 <= a < |rev| && 0 <= b < |local| then rev[a] * local[b] else 0.0
  }

  ghost function TermFn(rev: seq<real>, local: seq<real>): (int, int) -> real
  {
    (a, b) => Term(rev, local, a, b)
  }

  /** The i-th term the inner loop adds at position k, for a term function g. */
  ghost function Window(g: (int, int) -> real, R: int, L: int, k: int): int -> real
  {
    i => g(RevIdx(R, L, k, i), LocIdx(R, L, k, i))
  }

  /** The index of `local` the textbook sum pairs with rev[i] at position k. */
  function Partner(L: int, k: int, i: int): int
  {
    i - k + L - 1
  }

  /** The term the textbook sum takes at rev index i for position k. */
  ghost function Diagonal(g: (int, int) -> real, L: int, k: int): int -> real
  {
    i => g(i, Partner(L, k, i))
  }

  /** One term of the window, read at the literal indices a loop uses. */
  lemma WindowTerm(rev: seq<real>, local: seq<real>, k: int, i: int, a: int, b: int)
    requires 0 <= a < |rev| && 0 <= b < |local|
    requires RevIdx(|rev|, |local|, k, i) == a && LocIdx(|rev|, |local|, k, i) == b
    ensures Window(TermFn(rev, local), |rev|, |local|, k)(i) == rev[a] * local[b]
  {
    assert TermFn(rev, local)(a, b) == Term(rev, local, a, b);
  }

  /** The value xcorr_range stores at position k: zero beyond lenOut
      (comMath.h:165-166), otherwise the sum over its window. */
  ghost function CodeValue(rev: seq<real>, local: seq<real>, k: int): real
  {
    var R, L := |rev|, |local|;
    if k > R + L - 1 then 0.0 else Sum(0, Iters(R, L, k), Window(TermFn(rev, local), R, L, k))
  }

  /** The textbook bounded cross-correlation. */
  ghost function CorrSum(rev: seq<real>, local: seq<real>, k: int): real
  {
    Sum(0, |rev|, Diagonal(TermFn(rev, local), |local|, k))
  }


  /** The first and one-past-last rev index that overlaps local at position k. */
  function OverlapLo(L: int, k: int): int { Max(0, k - L + 1) }
  function OverlapHi(R: int, k: int): int { Min(R, k + 1) }

  /** Falling edges that the code gets right (k == R, or R < L): the window
      walks the overlap upwards. */
  lemma FallingMatches(R: nat, L: nat, k: int, g: (int, int) -> real)
    requires 0 <= k <= R + L - 1
    requires (R >= L && k == R && L <= k) || (R < L && L <= k)
    ensures Sum(0, Iters(R, L, k), Window(g, R, L, k))
         == Sum(OverlapLo(L, k), OverlapHi(R, k), Diagonal(g, L, k))
  {
    var w, d := Window(g, R, L, k), Diagonal(g, L, k);
    var lo, n := k - L + 1, R + L - 1 - k;
    assert OverlapLo(L, k) == lo && OverlapHi(R, k) == lo + n && Iters(R, L, k) == n;
    forall i | 0 <= i < n ensures w(i) == d(i - 0 + lo) {
      assert RevIdx(R, L, k, i) == i - 0 + lo;
      assert LocIdx(R, L, k, i) == Partner(L, k, i - 0 + lo);
    }
    SumShift(0, lo, n, w, d);
  }

  /** Rising edge and both plateaus: the window walks the overlap downwards. */
  lemma RisingMatches(R: nat, L: nat, k: int, g: (int, int) -> real)
    requires 0 <= k
    requires (k < R && k < L) || (R >= L && L <= k < R) || (R < L && R <= k < L)
    ensures Sum(0, Iters(R, L, k), Window(g, R, L, k))
         == Sum(OverlapLo(L, k), OverlapHi(R, k), Diagonal(g, L, k))
  {
    var w, d := Window(g, R, L, k), Diagonal(g, L, k);
    var lo, hi := OverlapLo(L, k), OverlapHi(R, k);
    var n := hi - lo;
    assert Iters(R, L, k) == n;
    forall i | 0 <= i < n ensures w(i) == d(lo + (0 + n - 1 - i)) {
      assert RevIdx(R, L, k, i) == lo + (0 + n - 1 - i);
      assert LocIdx(R, L, k, i) == Partner(L, k, lo + (0 + n - 1 - i));
    }
    SumReflect(0, lo, n, w, d);
  }

  /** For a term function that vanishes outside the two signals, the textbook
      sum over all of rev is the sum over the overlap. */
  lemma DiagonalOverlap(R: nat, L: nat, k: int, g: (int, int) -> real)
    requires forall a, b :: !(0 <= a < R && 0 <= b < L) ==> g(a, b) == 0.0
    ensures Sum(0, R, Diagonal(g, L, k)) == Sum(OverlapLo(L, k), OverlapHi(R, k), Diagonal(g, L, k))
  {
    var d := Diagonal(g, L, k);
    var lo, hi := OverlapLo(L, k), OverlapHi(R, k);
    forall i | 0 <= i < R && !(lo <= i < hi)
      ensures d(i) == 0.0
    {
      var j := Partner(L, k, i);
      assert !(0 <= j < L);
      assert d(i) == g(i, j);
    }
    SumSupport(0, R, lo, hi, d);
  }

  /** The code's window sum equals the textbook sum wherever the window
      formulas are right: every k when R < L, k <= R otherwise, and the
      empty window at k == lenOut. */
  lemma WindowIsCorrelation(R: nat, L: nat, k: int, g: (int, int) -> real)
    requires forall a, b :: !(0 <= a < R && 0 <= b < L) ==> g(a, b) == 0.0
    requires 0 <= k <= R + L - 1
    requires R < L || k <= R || k == R + L - 1
    ensures Sum(0, Iters(R, L, k), Window(g, R, L, k)) == Sum(0, R, Diagonal(g, L, k))
  {
    DiagonalOverlap(R, L, k, g);
    if (k < R && k < L) || (R >= L && L <= k < R) || (R < L && R <= k < L) {
      RisingMatches(R, L, k, g);
    } else if (R >= L && k == R && L <= k) || (R < L && L <= k) {
      FallingMatches(R, L, k, g);
    } else {
      // k == lenOut > R: the falling window is empty, and so is the overlap
      assert Iters(R, L, k) == 0 && OverlapHi(R, k) <= OverlapLo(L, k);
    }
  }

  /** output[k] of xcorr_range is the cross-correlation at every position
      when len_rev < len_local, and at positions k <= len_rev otherwise;
      past the natural length both are zero. */
  lemma CodeValueIsCorrelation(rev: seq<real>, local: seq<real>, k: int)
    requires 0 <= k
    requires |rev| < |local| || k <= |rev| || k >= |rev| + |local| - 1
    ensures CodeValue(rev, local, k) == CorrSum(rev, local, k)
  {
    var R, L, g := |rev|, |local|, TermFn(rev, local);
    if k <= R + L - 1 {
      WindowIsCorrelation(R, L, k, g);
    } else {
      DiagonalOverlap(R, L, k, g);
    }
  }

  /** Positions past the natural length are zero. */
  lemma PaddingIsZero(rev: seq<real>, local: seq<real>, k: int)
    requires k >= |rev| + |local| - 1
    ensures CodeValue(rev, local, k) == 0.0 && CorrSum(rev, local, k) == 0.0
  {
    DiagonalOverlap(|rev|, |local|, k, TermFn(rev, local));
    if k == |rev| + |local| - 1 {
      assert Iters(|rev|, |local|, k) == 0;
    }
  }

  /** Input that shows the falling-edge discrepancy: the autocorrelation of
      [1, -1, 1] is [1, -2, 3, -2, 1], but position 4 is computed as
      rev[2] * local[1] = -1 instead of rev[2] * local[0] = 1. */
  lemma FallingEdgeCounterexample()
    ensures CodeValue([1.0, -1.0, 1.0], [1.0, -1.0, 1.0], 4) == -1.0
    ensures CorrSum([1.0, -1.0, 1.0], [1.0, -1.0, 1.0], 4) == 1.0
  {
    var s := [1.0, -1.0, 1.0];
    var w, d := Window(TermFn(s, s), 3, 3, 4), Diagonal(TermFn(s, s), 3, 4);
    assert Iters(3, 3, 4) == 1;
    assert RevIdx(3, 3, 4, 0) == 2 && LocIdx(3, 3, 4, 0) == 1;
    assert w(0) == Term(s, s, 2, 1) == -1.0;
    assert Sum(0, 1, w) == w(0) + Sum(1, 1, w);
    assert Partner(3, 4, 0) == -2 && Partner(3, 4, 1) == -1 && Partner(3, 4, 2) == 0;
    assert d(0) == Term(s, s, 0, -2) == 0.0;
    assert d(1) == Term(s, s, 1, -1) == 0.0;
    assert d(2) == Term(s, s, 2, 0) == 1.0;
    assert Sum(2, 3, d) == d(2) + Sum(3, 3, d);
    assert Sum(1, 3, d) == d(1) + Sum(2, 3, d);
  }

  /** The local index the falling edge of the branch len_rev >= len_local
      evidently means: the same as the other branch's falling edge, i. */
  function CorrectedLocIdx(R: int, L: int, k: int, i: int): int
  {
    if R >= L && k >= L && k >= R then i else LocIdx(R, L, k, i)
  }

  ghost function CorrectedWindow(g: (int, int) -> real, R: int, L: int, k: int): int -> real
  {
    i => g(RevIdx(R, L, k, i), CorrectedLocIdx(R, L, k, i))
  }

  /** xcorr_range's value with the falling edge corrected. */
  ghost function CorrectedValue(rev: seq<real>, local: seq<real>, k: int): real
  {
    var R, L := |rev|, |local|;
    if k > R + L - 1 then 0.0 else Sum(0, Iters(R, L, k), CorrectedWindow(TermFn(rev, local), R, L, k))
  }

  /** With the correction, every position is the cross-correlation. */
  lemma CorrectedIsCorrelation(rev: seq<real>, local: seq<real>, k: int)
    requires 0 <= k
    ensures CorrectedValue(rev, local, k) == CorrSum(rev, local, k)
  {
    var R, L, g := |rev|, |local|, TermFn(rev, local);
    if k > R + L - 1 {
      DiagonalOverlap(R, L, k, g);
    } else if R >= L && k >= L && k >= R {
      DiagonalOverlap(R, L, k, g);
      var w, d := CorrectedWindow(g, R, L, k), Diagonal(g, L, k);
      var lo, n := k - L + 1, R + L - 1 - k;
      assert OverlapLo(L, k) == lo && OverlapHi(R, k) == lo + n && Iters(R, L, k) == n;
      forall i | 0 <= i < n ensures w(i) == d(i - 0 + lo) {
        assert RevIdx(R, L, k, i) == i - 0 + lo;
        assert CorrectedLocIdx(R, L, k, i) == Partner(L, k, i - 0 + lo);
      }
      SumShift(0, lo, n, w, d);
    } else {
      var w, cw := Window(g, R, L, k), CorrectedWindow(g, R, L, k);
      forall i | 0 <= i < Iters(R, L, k) ensures cw(i) == w(i) {
        assert CorrectedLocIdx(R, L, k, i) == LocIdx(R, L, k, i);
      }
      SumCongruent(0, Iters(R, L, k), cw, w);
      WindowIsCorrelation(R, L, k, g);
    }
  }

  // ---------------------------------------------------------------------
  // Properties of the correlation itself.
  // ---------------------------------------------------------------------

  /** The overlap at position k and at the mirrored position of the swapped
      signals line up: the same length, starting at the partner index. */
  lemma OverlapMirror(R: nat, L: nat, k: int)
    ensures OverlapLo(R, R + L - 2 - k) == Partner(L, k, OverlapLo(L, k))
    ensures OverlapHi(L, R + L - 2 - k) - OverlapLo(R, R + L - 2 - k) == OverlapHi(R, k) - OverlapLo(L, k)
  {
  }

  /** The overlapping parts of the two sums pair the same terms. */
  lemma OverlapSwap(R: nat, L: nat, k: int, g1: (int, int) -> real, g2: (int, int) -> real)
    requires forall a, b :: g1(a, b) == g2(b, a)
    ensures Sum(OverlapLo(L, k), OverlapHi(R, k), Diagonal(g1, L, k))
         == Sum(OverlapLo(R, R + L - 2 - k), OverlapHi(L, R + L - 2 - k), Diagonal(g2, R, R + L - 2 - k))
  {
    var k' := R + L - 2 - k;
    var d1, d2 := Diagonal(g1, L, k), Diagonal(g2, R, k');
    var lo1, lo2 := OverlapLo(L, k), OverlapLo(R, k');
    var n := OverlapHi(R, k) - lo1;
    OverlapMirror(R, L, k);
    forall i | lo1 <= i < lo1 + n ensures d1(i) == d2(i - lo1 + lo2) {
      var j := i - lo1 + lo2;
      assert Partner(R, k', j) == i;
      assert d1(i) == g1(i, j);
      assert d2(j) == g2(j, i);
    }
    SumShift(lo1, lo2, n, d1, d2);
  }

  /** Swapping the arguments of a term function mirrors the textbook sum
      about position |rev| + |local| - 2. */
  lemma DiagonalSwap(R: nat, L: nat, k: int, g1: (int, int) -> real, g2: (int, int) -> real)
    requires forall a, b :: !(0 <= a < R && 0 <= b < L) ==> g1(a, b) == 0.0
    requires forall a, b :: g1(a, b) == g2(b, a)
    ensures Sum(0, R, Diagonal(g1, L, k)) == Sum(0, L, Diagonal(g2, R, R + L - 2 - k))
  {
    DiagonalOverlap(R, L, k, g1);
    forall b, a | !(0 <= b < L && 0 <= a < R) ensures g2(b, a) == 0.0 {
      assert g2(b, a) == g1(a, b);
    }
    DiagonalOverlap(L, R, R + L - 2 - k, g2);
    OverlapSwap(R, L, k, g1, g2);
  }

  /** Swapping the signals mirrors the output: position k of xcorr(rev, local)
      is position |rev| + |local| - 2 - k of xcorr(local, rev). */
  lemma CorrSumSwap(rev: seq<real>, local: seq<real>, k: int)
    ensures CorrSum(rev, local, k) == CorrSum(local, rev, |rev| + |local| - 2 - k)
  {
    var g1, g2 := TermFn(rev, local), TermFn(local, rev);
    forall a, b ensures g1(a, b) == g2(b, a) {
      assert g1(a, b) == Term(rev, local, a, b) && g2(b, a) == Term(local, rev, b, a);
    }
    DiagonalSwap(|rev|, |local|, k, g1, g2);
  }

  /** A worked example: xcorr_range of [1, 2, 3] against [1, 1] stores
      1, 3, 5, 3 at the four positions of the natural length, and those are
      the cross-correlation values. */
  lemma CrossCorrelationExample()
    ensures CodeValue([1.0, 2.0, 3.0], [1.0, 1.0], 0) == 1.0
    ensures CodeValue([1.0, 2.0, 3.0], [1.0, 1.0], 1) == 3.0
    ensures CodeValue([1.0, 2.0, 3.0], [1.0, 1.0], 2) == 5.0
    ensures CodeValue([1.0, 2.0, 3.0], [1.0, 1.0], 3) == 3.0
    ensures forall k :: 0 <= k < 4 ==>
      CodeValue([1.0, 2.0, 3.0], [1.0, 1.0], k) == CorrSum([1.0, 2.0, 3.0], [1.0, 1.0], k)
  {
    var rev, local := [1.0, 2.0, 3.0], [1.0, 1.0];
    var g := TermFn(rev, local);
    var w0, w1, w2, w3 := Window(g, 3, 2, 0), Window(g, 3, 2, 1), Window(g, 3, 2, 2), Window(g, 3, 2, 3);
    // position 0: rev[0] * local[1]
    assert w0(0) == 1.0 by { WindowTerm(rev, local, 0, 0, 0, 1); }
    assert Sum(0, 1, w0) == w0(0) + Sum(1, 1, w0);
    // position 1: rev[1] * local[1] + rev[0] * local[0]
    assert w1(0) == 2.0 by { WindowTerm(rev, local, 1, 0, 1, 1); }
    assert w1(1) == 1.0 by { WindowTerm(rev, local, 1, 1, 0, 0); }
    SumSnoc(0, 2, w1);
    assert Sum(0, 1, w1) == w1(0) + Sum(1, 1, w1);
    // position 2: rev[2] * local[1] + rev[1] * local[0]
    assert w2(0) == 3.0 by { WindowTerm(rev, local, 2, 0, 2, 1); }
    assert w2(1) == 2.0 by { WindowTerm(rev, local, 2, 1, 1, 0); }
    SumSnoc(0, 2, w2);
    assert Sum(0, 1, w2) == w2(0) + Sum(1, 1, w2);
    // position 3, the falling edge at k == len_rev: rev[2] * local[0]
    assert w3(0) == 3.0 by { WindowTerm(rev, local, 3, 0, 2, 0); }
    assert Sum(0, 1, w3) == w3(0) + Sum(1, 1, w3);
    forall k | 0 <= k < 4
      ensures CodeValue(rev, local, k) == CorrSum(rev, local, k)
    {
      CodeValueIsCorrelation(rev, local, k);
    }
  }

  /** The textbook autocorrelation CorrSum(s, s, .) is a palindrome around
      position |s| - 1. The values autocorr_range stores differ from it past
      the centre (FallingEdgeCounterexample), so they need not be one. */
  lemma AutocorrSymmetric(s: seq<real>, k: int)
    ensures CorrSum(s, s, k) == CorrSum(s, s, 2 * |s| - 2 - k)
  {
    CorrSumSwap(s, s, k);
  }

  /** The energy Σ s[i]^2 of a signal. */
  ghost function Energy(s: seq<real>): real
  {
    Sum(0, |s|, i => Term(s, s, i, i))
  }

  /** The centre tap of the autocorrelation is the signal's energy, which is
      never negative. */
  lemma AutocorrCenterIsEnergy(s: seq<real>)
    ensures CorrSum(s, s, |s| - 1) == Energy(s)
    ensures Energy(s) >= 0.0
  {
    var d, e := Diagonal(TermFn(s, s), |s|, |s| - 1), i => Term(s, s, i, i);
    forall i | 0 <= i < |s| ensures d(i) == e(i) && e(i) >= 0.0 {
      assert Partner(|s|, |s| - 1, i) == i;
      assert d(i) == Term(s, s, i, i);
      SquarePositive(s[i]);
    }
    SumCongruent(0, |s|, d, e);
    SumNonNegative(0, |s|, e);
  }

  // ---------------------------------------------------------------------
  // Early stop (comMath.h:200-206).
  // ---------------------------------------------------------------------

  /** The real variant's stop test: an enabled bound is crossed. */
  predicate Violates(v: real, maxThreshold: real, minThreshold: real)
  {
    (maxThreshold != MAX_MAGIC && v > maxThreshold) || (minThreshold != MIN_MAGIC && v < minThreshold)
  }

  /** Position k is checked (k <= lenOut, since the skip test is `>`) and fails the test. */
  ghost function StopsFn(rev: seq<real>, local: seq<real>, maxThreshold: real, minThreshold: real): int -> bool
  {
    k => 0 <= k <= |rev| + |local| - 1 && Violates(CodeValue(rev, local, k), maxThreshold, minThreshold)
  }

  /** The first position in [lo, hi) where `stops` holds. */
  ghost function FirstStop(stops: int -> bool, lo: int, hi: int): Option<int>
    decreases hi - lo
  {
    if hi <= lo then None else if stops(lo) then Some(lo) else FirstStop(stops, lo + 1, hi)
  }

  lemma {:induction false} FirstStopIsFirst(stops: int -> bool, lo: int, hi: int, k: int)
    requires FirstStop(stops, lo, hi) == Some(k)
    ensures lo <= k < hi && stops(k)
    ensures forall j :: lo <= j < k ==> !stops(j)
    decreases hi - lo
  {
    if !stops(lo) {
      FirstStopIsFirst(stops, lo + 1, hi, k);
    }
  }

  lemma {:induction false} FirstStopNone(stops: int -> bool, lo: int, hi: int)
    ensures FirstStop(stops, lo, hi) == None <==> forall j :: lo <= j < hi ==> !stops(j)
    decreases hi - lo
  {
    if lo < hi {
      FirstStopNone(stops, lo + 1, hi);
    }
  }

  /** Once every earlier position is known not to stop, a stop at k is the first. */
  lemma StopHere(stops: int -> bool, lo: int, hi: int, k: int)
    requires FirstStop(stops, lo, hi) == FirstStop(stops, k, hi)
    requires k < hi && stops(k)
    ensures FirstStop(stops, lo, hi) == Some(k)
  {
  }

  /** How many leading positions a call writes: through the stop, or all. */
  function Written(stop: Option<int>, lenOutput: int): int
  {
    match stop
    case Some(k) => k + 1
    case None => Max(lenOutput, 0)
  }

  /** The integer returned: the stop position, or 0 on completion, so a stop
      at position 0 reads the same as completion (comMath.h:125-128). */
  function Indicator(stop: Option<int>): int
  {
    match stop
    case Some(k) => k
    case None => 0
  }

  /** With both sentinels the real variant never stops. */
  lemma DisabledNeverStops(rev: seq<real>, local: seq<real>, lenOutput: int)
    ensures FirstStop(StopsFn(rev, local, MAX_MAGIC, MIN_MAGIC), 0, lenOutput) == None
  {
    FirstStopNone(StopsFn(rev, local, MAX_MAGIC, MIN_MAGIC), 0, lenOutput);
  }

  // ---------------------------------------------------------------------
  // The real routine.
  // ---------------------------------------------------------------------

  /** The inner loops of xcorr_range for one position (comMath.h:168-198),
      accumulating from 0 as output[oBuff] does. */
  method WindowSum(rev: seq<real>, local: seq<real>, oBuff: int) returns (acc: real)
    requires 0 <= oBuff <= |rev| + |local| - 1
    ensures acc == CodeValue(rev, local, oBuff)
  {
    if |rev| >= |local| {
      acc := WindowSumLongRev(rev, local, oBuff);
    } else {
      acc := WindowSumLongLocal(rev, local, oBuff);
    }
  }

  /** The three loops of the branch len_rev >= len_local (comMath.h:168-182). */
  method WindowSumLongRev(rev: seq<real>, local: seq<real>, oBuff: int) returns (acc: real)
    requires |rev| >= |local| && 0 <= oBuff <= |rev| + |local| - 1
    ensures acc == CodeValue(rev, local, oBuff)
  {
    var lenRev, lenLocal := |rev|, |local|;
    var lenOut := lenRev + lenLocal - 1;
    ghost var f := Window(TermFn(rev, local), lenRev, lenLocal, oBuff);
    var lenWin, i := 0, 0;
    acc := 0.0;
    if oBuff < lenLocal {
      lenWin := oBuff;
      while i <= oBuff
        invariant 0 <= i <= oBuff + 1
        invariant acc == Sum(0, i, f)
      {
        SumSnoc(0, i + 1, f);
        WindowTerm(rev, local, oBuff, i, lenWin - i, lenLocal - 1 - i);
        acc := acc + rev[lenWin - i] * local[lenLocal - 1 - i];
        i := i + 1;
      }
    } else if oBuff >= lenRev {
      lenWin := lenOut - oBuff;
      while i < lenWin
        invariant 0 <= i <= lenWin
        invariant acc == Sum(0, i, f)
      {
        SumSnoc(0, i + 1, f);
        WindowTerm(rev, local, oBuff, i, lenRev - lenWin + i, lenLocal - lenWin - 1 + i);
        acc := acc + rev[lenRev - lenWin + i] * local[lenLocal - lenWin - 1 + i];
        i := i + 1;
      }
    } else {
      lenWin := lenLocal;
      while i < lenWin
        invariant 0 <= i <= lenWin
        invariant acc == Sum(0, i, f)
      {
        SumSnoc(0, i + 1, f);
        WindowTerm(rev, local, oBuff, i, oBuff - i, lenWin - 1 - i);
        acc := acc + rev[oBuff - i] * local[lenWin - 1 - i];
        i := i + 1;
      }
    }
  }

  /** The three loops of the branch len_rev < len_local (comMath.h:183-198). */
  method WindowSumLongLocal(rev: seq<real>, local: seq<real>, oBuff: int) returns (acc: real)
    requires |rev| < |local| && 0 <= oBuff <= |rev| + |local| - 1
    ensures acc == CodeValue(rev, local, oBuff)
  {
    if oBuff < |rev| {
      acc := LongLocalRise(rev, local, oBuff);
    } else if oBuff >= |local| {
      acc := LongLocalFall(rev, local, oBuff);
    } else {
      acc := LongLocalPlateau(rev, local, oBuff);
    }
  }

  /** The rising edge oBuff < len_rev of the branch len_rev < len_local. */
  method LongLocalRise(rev: seq<real>, local: seq<real>, oBuff: int) returns (acc: real)
    requires |rev| < |local| && 0 <= oBuff < |rev|
    ensures acc == Sum(0, oBuff + 1, Window(TermFn(rev, local), |rev|, |local|, oBuff))
  {
    var lenLocal := |local|;
    ghost var f := Window(TermFn(rev, local), |rev|, lenLocal, oBuff);
    var lenWin, i := oBuff, 0;
    acc := 0.0;
    while i <= lenWin
      invariant 0 <= i <= lenWin + 1
      invariant acc == Sum(0, i, f)
    {
      SumSnoc(0, i + 1, f);
      WindowTerm(rev, local, oBuff, i, lenWin - i, lenLocal - 1 - i);
      acc := acc + rev[lenWin - i] * local[lenLocal - 1 - i];
      i := i + 1;
    }
  }

  /** The falling edge oBuff >= len_local of the branch len_rev < len_local. */
  method LongLocalFall(rev: seq<real>, local: seq<real>, oBuff: int) returns (acc: real)
    requires |rev| < |local| <= oBuff <= |rev| + |local| - 1
    ensures acc == Sum(0, |rev| + |local| - 1 - oBuff, Window(TermFn(rev, local), |rev|, |local|, oBuff))
  {
    var lenRev, lenLocal := |rev|, |local|;
    var lenOut := lenRev + lenLocal - 1;
    ghost var f := Window(TermFn(rev, local), lenRev, lenLocal, oBuff);
    var lenWin, i := lenOut - oBuff, 0;
    acc := 0.0;
    while i < lenWin
      invariant 0 <= i <= lenWin
      invariant acc == Sum(0, i, f)
    {
      SumSnoc(0, i + 1, f);
      WindowTerm(rev, local, oBuff, i, lenRev - lenWin + i, i);
      acc := acc + rev[lenRev - lenWin + i] * local[i];
      i := i + 1;
    }
  }

  /** The plateau len_rev <= oBuff < len_local of the branch len_rev < len_local. */
  method LongLocalPlateau(rev: seq<real>, local: seq<real>, oBuff: int) returns (acc: real)
    requires |rev| <= oBuff < |local|
    ensures acc == Sum(0, |rev|, Window(TermFn(rev, local), |rev|, |local|, oBuff))
  {
    var lenRev, lenLocal := |rev|, |local|;
    ghost var f := Window(TermFn(rev, local), lenRev, lenLocal, oBuff);
    var lenWin, i := lenRev, 0;
    acc := 0.0;
    while i < lenWin
      invariant 0 <= i <= lenWin
      invariant acc == Sum(0, i, f)
    {
      SumSnoc(0, i + 1, f);
      WindowTerm(rev, local, oBuff, i, lenWin - 1 - i, lenLocal - 1 - (oBuff + 1 - lenRev) - i);
      acc := acc + rev[lenWin - 1 - i] * local[lenLocal - 1 - (oBuff + 1 - lenRev) - i];
      i := i + 1;
    }
  }

  /** xcorr_range (comMath.h:136-207): writes output[0..lenOutput) in order,
      each slot zeroed, positions past lenOut left at zero, and returns at
      the first checked position that crosses an enabled bound. */
  method XcorrRange(output: array<real>, lenOutput: int, rev: seq<real>, local: seq<real>,
                    maxThreshold: real, minThreshold: real) returns (ret: int)
    requires lenOutput <= output.Length
    modifies output
    ensures var stop := FirstStop(StopsFn(rev, local, maxThreshold, minThreshold), 0, lenOutput);
      && ret == Indicator(stop)
      && forall j :: 0 <= j < output.Length ==>
           output[j] == if j < Written(stop, lenOutput) then CodeValue(rev, local, j) else old(output[j])
  {
    var lenOut := |rev| + |local| - 1;
    ghost var stops := StopsFn(rev, local, maxThreshold, minThreshold);
    var oBuff := 0;
    while oBuff < lenOutput
      invariant 0 <= oBuff <= Max(lenOutput, 0)
      invariant FirstStop(stops, 0, lenOutput) == FirstStop(stops, oBuff, lenOutput)
      invariant forall j :: 0 <= j < output.Length ==>
        output[j] == if j < oBuff then CodeValue(rev, local, j) else old(output[j])
    {
      output[oBuff] := 0.0;
      if oBuff <= lenOut {
        var acc := WindowSum(rev, local, oBuff);
        output[oBuff] := output[oBuff] + acc;
        if (maxThreshold != MAX_MAGIC && output[oBuff] > maxThreshold)
          || (minThreshold != MIN_MAGIC && output[oBuff] < minThreshold)
        {
          assert stops(oBuff);
          assert FirstStop(stops, 0, lenOutput) == Some(oBuff);
          return oBuff;
        }
      }
      assert !stops(oBuff);
      oBuff := oBuff + 1;
    }
    assert FirstStop(stops, 0, lenOutput) == None;
    return 0;
  }

  /** xcorr (comMath.h:230-239): xcorr_range with both bounds disabled, so it
      always completes, fills all lenOutput slots and returns 0. */
  method Xcorr(output: array<real>, lenOutput: int, rev: seq<real>, local: seq<real>) returns (ret: int)
    requires lenOutput <= output.Length
    modifies output
    ensures ret == 0
    ensures forall j :: 0 <= j < output.Length ==>
      output[j] == if j < lenOutput then CodeValue(rev, local, j) else old(output[j])
  {
    DisabledNeverStops(rev, local, lenOutput);
    ret := XcorrRange(output, lenOutput, rev, local, MAX_MAGIC, MIN_MAGIC);
  }

  /** autocorr_range (comMath.h:254-263): rev correlated with itself. */
  method AutocorrRange(output: array<real>, lenOutput: int, rev: seq<real>,
                       maxThreshold: real, minThreshold: real) returns (ret: int)
    requires lenOutput <= output.Length
    modifies output
    ensures var stop := FirstStop(StopsFn(rev, rev, maxThreshold, minThreshold), 0, lenOutput);
      && ret == Indicator(stop)
      && forall j :: 0 <= j < output.Length ==>
           output[j] == if j < Written(stop, lenOutput) then CodeValue(rev, rev, j) else old(output[j])
  {
    ret := XcorrRange(output, lenOutput, rev, rev, maxThreshold, minThreshold);
  }

  /** autocorr (comMath.h:278-284). */
  method Autocorr(output: array<real>, lenOutput: int, rev: seq<real>) returns (ret: int)
    requires lenOutput <= output.Length
    modifies output
    ensures ret == 0
    ensures forall j :: 0 <= j < output.Length ==>
      output[j] == if j < lenOutput then CodeValue(rev, rev, j) else old(output[j])
  {
    ret := Xcorr(output, lenOutput, rev, rev);
  }

  // ---------------------------------------------------------------------
  // The complex routine (comMath.h:293-380): the same windows, over
  // rev[a] * conj(local[b]), kept as a pair of real sums.
  // ---------------------------------------------------------------------

  /** The conjugated copy compLocal of comMath.h:317-320. */
  function ConjAll(s: seq<Complex>): (r: seq<Complex>)
    ensures |r| == |s|
    ensures forall i :: 0 <= i < |s| ==> r[i] == Conj(s[i])
  {
    if s == [] then [] else [Conj(s[0])] + ConjAll(s[1..])
  }

  /** Conjugating twice gives the signal back. */
  lemma ConjAllInvolutive(s: seq<Complex>)
    ensures ConjAll(ConjAll(s)) == s
  {
    var t := ConjAll(ConjAll(s));
    forall i | 0 <= i < |s| ensures t[i] == s[i] {
      ConjInvolutive(s[i]);
    }
  }

  /** Real and imaginary parts of rev[a] * cl[b]; nothing out of range. */
  function TermRe(rev: seq<Complex>, cl: seq<Complex>, a: int, b: int): real
  {
    if 0 <= a < |rev| && 0 <= b < |cl| then Mul(rev[a], cl[b]).re else 0.0
  }

  function TermIm(rev: seq<Complex>, cl: seq<Complex>, a: int, b: int): real
  {
    if 0 <= a < |rev| && 0 <= b < |cl| then Mul(rev[a], cl[b]).im else 0.0
  }

  ghost function TermReFn(rev: seq<Complex>, cl: seq<Complex>): (int, int) -> real
  {
    (a, b) => TermRe(rev, cl, a, b)
  }

  ghost function TermImFn(rev: seq<Complex>, cl: seq<Complex>): (int, int) -> real
  {
    (a, b) => TermIm(rev, cl, a, b)
  }

  /** The value xcorr_rangeComp stores at position k, against the conjugated
      copy cl of local. */
  ghost function CodeValueConj(rev: seq<Complex>, cl: seq<Complex>, k: int): Complex
  {
    var R, L := |rev|, |cl|;
    if k > R + L - 1 then Zero
    else Complex(Sum(0, Iters(R, L, k), Window(TermReFn(rev, cl), R, L, k)),
                 Sum(0, Iters(R, L, k), Window(TermImFn(rev, cl), R, L, k)))
  }

  ghost function CodeValueComp(rev: seq<Complex>, local: seq<Complex>, k: int): Complex
  {
    CodeValueConj(rev, ConjAll(local), k)
  }

  /** The textbook complex correlation Σ_i rev[i] · conj(local[i - k + |local| - 1]). */
  ghost function CorrSumComp(rev: seq<Complex>, local: seq<Complex>, k: int): Complex
  {
    var cl := ConjAll(local);
    Complex(Sum(0, |rev|, Diagonal(TermReFn(rev, cl), |cl|, k)),
            Sum(0, |rev|, Diagonal(TermImFn(rev, cl), |cl|, k)))
  }

  /** The complex engine agrees with the textbook sum exactly where the real
      one does. */
  lemma CodeValueCompIsCorrelation(rev: seq<Complex>, local: seq<Complex>, k: int)
    requires 0 <= k
    requires |rev| < |local| || k <= |rev| || k >= |rev| + |local| - 1
    ensures CodeValueComp(rev, local, k) == CorrSumComp(rev, local, k)
  {
    var cl := ConjAll(local);
    var R, L := |rev|, |cl|;
    var gr, gi := TermReFn(rev, cl), TermImFn(rev, cl);
    if k <= R + L - 1 {
      WindowIsCorrelation(R, L, k, gr);
      WindowIsCorrelation(R, L, k, gi);
    } else {
      DiagonalOverlap(R, L, k, gr);
      DiagonalOverlap(R, L, k, gi);
    }
  }

  /** The terms of the swapped complex correlation are the conjugates. */
  lemma SwappedTermsComp(rev: seq<Complex>, local: seq<Complex>, cl: seq<Complex>, cr: seq<Complex>, a: int, b: int)
    requires cl == ConjAll(local) && cr == ConjAll(rev)
    ensures TermRe(rev, cl, a, b) == TermRe(local, cr, b, a)
    ensures TermIm(rev, cl, a, b) == -TermIm(local, cr, b, a)
  {
    if 0 <= a < |rev| && 0 <= b < |local| {
      MulConjSwap(rev[a], local[b]);
    }
  }

  lemma SwappedTermFnsComp(rev: seq<Complex>, local: seq<Complex>)
    ensures forall a, b :: TermReFn(rev, ConjAll(local))(a, b) == TermReFn(local, ConjAll(rev))(b, a)
    ensures forall a, b :: TermImFn(rev, ConjAll(local))(a, b) == -TermImFn(local, ConjAll(rev))(b, a)
  {
    var cl, cr := ConjAll(local), ConjAll(rev);
    forall a, b
      ensures TermReFn(rev, cl)(a, b) == TermReFn(local, cr)(b, a)
      ensures TermImFn(rev, cl)(a, b) == -TermImFn(local, cr)(b, a)
    {
      SwappedTermsComp(rev, local, cl, cr, a, b);
    }
  }

  lemma CorrSumCompSwapRe(rev: seq<Complex>, local: seq<Complex>, k: int)
    ensures CorrSumComp(rev, local, k).re == CorrSumComp(local, rev, |rev| + |local| - 2 - k).re
  {
    var r1, r2 := TermReFn(rev, ConjAll(local)), TermReFn(local, ConjAll(rev));
    SwappedTermFnsComp(rev, local);
    DiagonalSwap(|rev|, |local|, k, r1, r2);
  }

  lemma CorrSumCompSwapIm(rev: seq<Complex>, local: seq<Complex>, k: int)
    ensures CorrSumComp(rev, local, k).im == -CorrSumComp(local, rev, |rev| + |local| - 2 - k).im
  {
    var R, L := |rev|, |local|;
    var i1, i2 := TermImFn(rev, ConjAll(local)), TermImFn(local, ConjAll(rev));
    var n2: (int, int) -> real := (b, a) => -i2(b, a);
    SwappedTermFnsComp(rev, local);
    DiagonalSwap(R, L, k, i1, n2);
    SumNegate(0, L, Diagonal(i2, R, R + L - 2 - k), Diagonal(n2, R, R + L - 2 - k));
  }

  /** Swapping the signals of the complex correlation mirrors the output and
      conjugates it: position k of xcorr_rangeComp(rev, local) is the
      conjugate of position |rev| + |local| - 2 - k of xcorr_rangeComp(local, rev). */
  lemma CorrSumCompSwap(rev: seq<Complex>, local: seq<Complex>, k: int)
    ensures CorrSumComp(rev, local, k) == Conj(CorrSumComp(local, rev, |rev| + |local| - 2 - k))
  {
    CorrSumCompSwapRe(rev, local, k);
    CorrSumCompSwapIm(rev, local, k);
  }

  /** The values xcorr_rangeComp stores obey the same conjugate mirror
      wherever both positions are ones the complex engine gets right. */
  lemma CodeValueCompSwap(rev: seq<Complex>, local: seq<Complex>, k: int)
    requires 0 <= k <= |rev| + |local| - 2
    requires |rev| < |local| || k <= |rev|
    requires |local| < |rev| || |rev| + |local| - 2 - k <= |local|
    ensures CodeValueComp(rev, local, k) == Conj(CodeValueComp(local, rev, |rev| + |local| - 2 - k))
  {
    var k' := |rev| + |local| - 2 - k;
    var c1, c2 := CorrSumComp(rev, local, k), CorrSumComp(local, rev, k');
    assert CodeValueComp(rev, local, k) == c1 by { CodeValueCompIsCorrelation(rev, local, k); }
    assert CodeValueComp(local, rev, k') == c2 by { CodeValueCompIsCorrelation(local, rev, k'); }
    assert c1 == Conj(c2) by { CorrSumCompSwap(rev, local, k); }
  }

  /** One complex term of the window, at the literal indices a loop uses. */
  lemma WindowTermComp(rev: seq<Complex>, cl: seq<Complex>, k: int, i: int, a: int, b: int)
    requires 0 <= a < |rev| && 0 <= b < |cl|
    requires RevIdx(|rev|, |cl|, k, i) == a && LocIdx(|rev|, |cl|, k, i) == b
    ensures Window(TermReFn(rev, cl), |rev|, |cl|, k)(i) == Mul(rev[a], cl[b]).re
    ensures Window(TermImFn(rev, cl), |rev|, |cl|, k)(i) == Mul(rev[a], cl[b]).im
  {
    assert TermReFn(rev, cl)(a, b) == TermRe(rev, cl, a, b);
    assert TermImFn(rev, cl)(a, b) == TermIm(rev, cl, a, b);
  }

  /** The complex stop test: only the upper bound, on the magnitude
      (comMath.h:370-371); the lower bound is never consulted. */
  predicate ViolatesComp(v: Complex, maxThreshold: real)
  {
    maxThreshold != MAX_MAGIC && AbsExceeds(v, maxThreshold)
  }

  ghost function StopsCompFn(rev: seq<Complex>, local: seq<Complex>, maxThreshold: real): int -> bool
  {
    k => 0 <= k <= |rev| + |local| - 1 && ViolatesComp(CodeValueComp(rev, local, k), maxThreshold)
  }

  /** The inner loops of xcorr_rangeComp for one position (comMath.h:329-367). */
  method WindowSumComp(rev: seq<Complex>, cl: seq<Complex>, oBuff: int) returns (acc: Complex)
    requires 0 <= oBuff <= |rev| + |cl| - 1
    ensures acc == CodeValueConj(rev, cl, oBuff)
  {
    if |rev| >= |cl| {
      acc := WindowSumCompLongRev(rev, cl, oBuff);
    } else {
      acc := WindowSumCompLongLocal(rev, cl, oBuff);
    }
  }

  /** The three loops of the branch len_rev >= len_local (comMath.h:329-349). */
  method WindowSumCompLongRev(rev: seq<Complex>, cl: seq<Complex>, oBuff: int) returns (acc: Complex)
    requires |rev| >= |cl| && 0 <= oBuff <= |rev| + |cl| - 1
    ensures acc == CodeValueConj(rev, cl, oBuff)
  {
    var lenRev, lenLocal := |rev|, |cl|;
    var lenOut := lenRev + lenLocal - 1;
    ghost var fr := Window(TermReFn(rev, cl), lenRev, lenLocal, oBuff);
    ghost var fi := Window(TermImFn(rev, cl), lenRev, lenLocal, oBuff);
    var lenWin, i := 0, 0;
    acc := Gen(0.0, 0.0);
    if oBuff < lenLocal {
      lenWin := oBuff;
      while i <= oBuff
        invariant 0 <= i <= oBuff + 1
        invariant acc.re == Sum(0, i, fr) && acc.im == Sum(0, i, fi)
      {
        SumSnoc(0, i + 1, fr);
        SumSnoc(0, i + 1, fi);
        WindowTermComp(rev, cl, oBuff, i, lenWin - i, lenLocal - 1 - i);
        acc := Add(acc, Mul(rev[lenWin - i], cl[lenLocal - 1 - i]));
        i := i + 1;
      }
    } else if oBuff >= lenRev {
      lenWin := lenOut - oBuff;
      while i < lenWin
        invariant 0 <= i <= lenWin
        invariant acc.re == Sum(0, i, fr) && acc.im == Sum(0, i, fi)
      {
        SumSnoc(0, i + 1, fr);
        SumSnoc(0, i + 1, fi);
        WindowTermComp(rev, cl, oBuff, i, lenRev - lenWin + i, lenLocal - lenWin - 1 + i);
        acc := Add(acc, Mul(rev[lenRev - lenWin + i], cl[lenLocal - lenWin - 1 + i]));
        i := i + 1;
      }
    } else {
      lenWin := lenLocal;
      while i < lenWin
        invariant 0 <= i <= lenWin
        invariant acc.re == Sum(0, i, fr) && acc.im == Sum(0, i, fi)
      {
        SumSnoc(0, i + 1, fr);
        SumSnoc(0, i + 1, fi);
        WindowTermComp(rev, cl, oBuff, i, oBuff - i, lenWin - 1 - i);
        acc := Add(acc, Mul(rev[oBuff - i], cl[lenWin - 1 - i]));
        i := i + 1;
      }
    }
  }

  /** The three loops of the branch len_rev < len_local (comMath.h:350-367). */
  method WindowSumCompLongLocal(rev: seq<Complex>, cl: seq<Complex>, oBuff: int) returns (acc: Complex)
    requires |rev| < |cl| && 0 <= oBuff <= |rev| + |cl| - 1
    ensures acc == CodeValueConj(rev, cl, oBuff)
  {
    var lenRev, lenLocal := |rev|, |cl|;
    var lenOut := lenRev + lenLocal - 1;
    ghost var fr := Window(TermReFn(rev, cl), lenRev, lenLocal, oBuff);
    ghost var fi := Window(TermImFn(rev, cl), lenRev, lenLocal, oBuff);
    var lenWin, i := 0, 0;
    acc := Gen(0.0, 0.0);
    if oBuff < lenRev {
      lenWin := oBuff;
      while i <= lenWin
        invariant 0 <= i <= lenWin + 1
        invariant acc.re == Sum(0, i, fr) && acc.im == Sum(0, i, fi)
      {
        SumSnoc(0, i + 1, fr);
        SumSnoc(0, i + 1, fi);
        WindowTermComp(rev, cl, oBuff, i, lenWin - i, lenLocal - 1 - i);
        acc := Add(acc, Mul(rev[lenWin - i], cl[lenLocal - 1 - i]));
        i := i + 1;
      }
    } else if oBuff >= lenLocal {
      lenWin := lenOut - oBuff;
      while i < lenWin
        invariant 0 <= i <= lenWin
        invariant acc.re == Sum(0, i, fr) && acc.im == Sum(0, i, fi)
      {
        SumSnoc(0, i + 1, fr);
        SumSnoc(0, i + 1, fi);
        WindowTermComp(rev, cl, oBuff, i, lenRev - lenWin + i, i);
        acc := Add(acc, Mul(rev[lenRev - lenWin + i], cl[i]));
        i := i + 1;
      }
    } else {
      lenWin := lenRev;
      while i < lenWin
        invariant 0 <= i <= lenWin
        invariant acc.re == Sum(0, i, fr) && acc.im == Sum(0, i, fi)
      {
        SumSnoc(0, i + 1, fr);
        SumSnoc(0, i + 1, fi);
        WindowTermComp(rev, cl, oBuff, i, lenWin - 1 - i, lenLocal - 1 - (oBuff + 1 - lenRev) - i);
        acc := Add(acc, Mul(rev[lenWin - 1 - i], cl[lenLocal - 1 - (oBuff + 1 - lenRev) - i]));
        i := i + 1;
      }
    }
  }

  /** One pass of xcorr_rangeComp's outer loop (comMath.h:325-371): the
      position is cleared, positions past the natural length stay zero and
      never stop, the others take the window sum, and the result says whether
      its magnitude crosses the threshold. */
  method StoreComp(output: array<Complex>, oBuff: int, rev: seq<Complex>, local: seq<Complex>,
                   cl: seq<Complex>, maxThreshold: real) returns (hit: bool)
    requires 0 <= oBuff < output.Length
    requires cl == ConjAll(local)
    modifies output
    ensures output[oBuff] == CodeValueComp(rev, local, oBuff)
    ensures forall j :: 0 <= j < output.Length && j != oBuff ==> output[j] == old(output[j])
    ensures hit == StopsCompFn(rev, local, maxThreshold)(oBuff)
  {
    output[oBuff] := Gen(0.0, 0.0);
    if oBuff > |rev| + |local| - 1 {
      return false;
    }
    var acc := WindowSumComp(rev, cl, oBuff);
    output[oBuff] := acc;
    hit := ViolatesComp(output[oBuff], maxThreshold);
  }

  /** The malloc'd buffer compLocal holding conj(local[i]) (comMath.h:317-320). */
  method ConjugateCopy(local: seq<Complex>) returns (compLocal: array<Complex>)
    ensures fresh(compLocal)
    ensures compLocal[..] == ConjAll(local)
  {
    compLocal := new Complex[|local|];
    var i := 0;
    while i < |local|
      invariant 0 <= i <= |local|
      invariant forall j :: 0 <= j < i ==> compLocal[j] == Conj(local[j])
    {
      compLocal[i] := Conj(local[i]);
      i := i + 1;
    }
  }

  /** xcorr_rangeComp (comMath.h:293-380): conjugates local into a scratch
      buffer, then runs the window loops over rev and that buffer. It stops
      only when an enabled upper bound is below the magnitude. */
  method XcorrRangeComp(output: array<Complex>, lenOutput: int, rev: seq<Complex>, local: seq<Complex>,
                        maxThreshold: real, minThreshold: real) returns (ret: int)
    requires lenOutput <= output.Length
    modifies output
    ensures var stop := FirstStop(StopsCompFn(rev, local, maxThreshold), 0, lenOutput);
      && ret == Indicator(stop)
      && forall j :: 0 <= j < output.Length ==>
           output[j] == if j < Written(stop, lenOutput) then CodeValueComp(rev, local, j) else old(output[j])
  {
    var compLocal := ConjugateCopy(local);
    var cl := compLocal[..];
    ghost var stops := StopsCompFn(rev, local, maxThreshold);
    var oBuff := 0;
    while oBuff < lenOutput
      invariant 0 <= oBuff <= Max(lenOutput, 0)
      invariant FirstStop(stops, 0, lenOutput) == FirstStop(stops, oBuff, lenOutput)
      invariant forall j :: 0 <= j < output.Length ==>
        output[j] == if j < oBuff then CodeValueComp(rev, local, j) else old(output[j])
    {
      var hit := StoreComp(output, oBuff, rev, local, cl, maxThreshold);
      if hit {
        StopHere(stops, 0, lenOutput, oBuff);
        return oBuff;
      }
      oBuff := oBuff + 1;
    }
    assert FirstStop(stops, 0, lenOutput) == None;
    return 0;
  }
}
