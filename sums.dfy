/** Finite sums of real-valued terms over integer index ranges.
    The correlation, convolution and complex-arithmetic models all state
    their results as such sums, so the reindexing facts are proved once here. */
module Sums {

  /** The larger and the smaller of two range bounds. */
  function Max(a: int, b: int): int { if a < b then b else a }
  function Min(a: int, b: int): int { if a < b then a else b }

  /** The sum f(lo) + f(lo+1) + ... + f(hi-1); zero when hi <= lo. */
  ghost function Sum(lo: int, hi: int, f: int -> real): real
    decreases hi - lo
  {
    if hi <= lo then 0.0 else f(lo) + Sum(lo + 1, hi, f)
  }

  /** Peeling the last term, the shape a counting loop accumulates in. */
  lemma {:induction false} SumSnoc(lo: int, hi: int, f: int -> real)
    requires lo < hi
    ensures Sum(lo, hi, f) == Sum(lo, hi - 1, f) + f(hi - 1)
    decreases hi - lo
  {
    if lo < hi - 1 {
      SumSnoc(lo + 1, hi, f);
    }
  }

  lemma {:induction false} SumSplit(lo: int, mid: int, hi: int, f: int -> real)
    requires lo <= mid <= hi
    ensures Sum(lo, hi, f) == Sum(lo, mid, f) + Sum(mid, hi, f)
    decreases mid - lo
  {
    if lo < mid {
      SumSplit(lo + 1, mid, hi, f);
    }
  }

  lemma {:induction false} SumOfZeros(lo: int, hi: int, f: int -> real)
    requires forall i :: lo <= i < hi ==> f(i) == 0.0
    ensures Sum(lo, hi, f) == 0.0
    decreases hi - lo
  {
    if lo < hi {
      SumOfZeros(lo + 1, hi, f);
    }
  }

  lemma {:induction false} SumCongruent(lo: int, hi: int, f: int -> real, g: int -> real)
    requires forall i :: lo <= i < hi ==> f(i) == g(i)
    ensures Sum(lo, hi, f) == Sum(lo, hi, g)
    decreases hi - lo
  {
    if lo < hi {
      SumCongruent(lo + 1, hi, f, g);
    }
  }

  /** Renaming the index by a constant offset: Σ_{a<=i<a+n} f(i) == Σ_{b<=j<b+n} g(j). */
  lemma {:induction false} SumShift(a: int, b: int, n: int, f: int -> real, g: int -> real)
    requires forall i :: a <= i < a + n ==> f(i) == g(i - a + b)
    ensures Sum(a, a + n, f) == Sum(b, b + n, g)
    decreases n
  {
    if 0 < n {
      assert f(a) == g(b);
      SumShift(a + 1, b + 1, n - 1, f, g);
    }
  }

  /** Summing in the opposite order: f(i) is paired with g(b + (a + n - 1 - i)). */
  lemma {:induction false} SumReflect(a: int, b: int, n: int, f: int -> real, g: int -> real)
    requires forall i :: a <= i < a + n ==> f(i) == g(b + (a + n - 1 - i))
    ensures Sum(a, a + n, f) == Sum(b, b + n, g)
    decreases n
  {
    if 0 < n {
      SumSnoc(b, b + n, g);
      assert f(a) == g(b + n - 1);
      SumReflect(a + 1, b, n - 1, f, g);
    }
  }

  /** A sum is unchanged by dropping terms that are zero outside [lo', hi'). */
  lemma SumSupport(lo: int, hi: int, lo': int, hi': int, f: int -> real)
    requires lo <= lo' && hi' <= hi
    requires forall i :: lo <= i < hi && !(lo' <= i < hi') ==> f(i) == 0.0
    ensures Sum(lo, hi, f) == Sum(lo', hi', f)
  {
    if hi' <= lo' {
      SumOfZeros(lo, hi, f);
      SumOfZeros(lo', hi', f);
    } else {
      SumSplit(lo, lo', hi, f);
      SumSplit(lo', hi', hi, f);
      SumOfZeros(lo, lo', f);
      SumOfZeros(hi', hi, f);
    }
  }

  lemma {:induction false} SumNegate(lo: int, hi: int, f: int -> real, g: int -> real)
    requires forall i :: lo <= i < hi ==> g(i) == -f(i)
    ensures Sum(lo, hi, g) == -Sum(lo, hi, f)
    decreases hi - lo
  {
    if lo < hi {
      SumNegate(lo + 1, hi, f, g);
    }
  }

  lemma {:induction false} SumNonNegative(lo: int, hi: int, f: int -> real)
    requires forall i :: lo <= i < hi ==> f(i) >= 0.0
    ensures Sum(lo, hi, f) >= 0.0
    decreases hi - lo
  {
    if lo < hi {
      SumNonNegative(lo + 1, hi, f);
    }
  }
}
