/** The sample-rate converters and the direct-form convolution of
    src/include/fir.h: upSamp, downSamp and conv. Samples are exact reals
    in place of doubles; the output buffers are arrays written in place. */
module Fir {
  import opened Sums
  import opened CInt

  // ---------------------------------------------------------------------
  // upSamp (fir.h:172-185)
  // ---------------------------------------------------------------------

  /** Slot i of the up-sampled signal: x[i / rate] on multiples of rate,
      zero in between. */
  function UpSample(x: seq<real>, rate: int, i: int): real
    requires rate > 0 && 0 <= i && CDiv(i, rate) < |x|
  {
    if CRem(i, rate) == 0 then x[CDiv(i, rate)] else 0.0
  }

  /** upSamp: fills y[0..lenOut) with x spread out by `rate`, always returning 0. */
  method UpSamp(y: array<real>, lenOut: int, x: seq<real>, rate: int) returns (ret: int)
    requires rate > 0 && lenOut <= y.Length
    requires lenOut > 0 ==> (lenOut - 1) / rate < |x|
    modifies y
    ensures ret == 0
    ensures forall i :: 0 <= i < y.Length ==>
      y[i] == if i < lenOut then (DivMonotone(i, lenOut - 1, rate); UpSample(x, rate, i)) else old(y[i])
  {
    var i := 0;
    while i < lenOut
      invariant 0 <= i <= Max0(lenOut)
      invariant forall j :: 0 <= j < y.Length ==>
        y[j] == if j < i then (DivMonotone(j, lenOut - 1, rate); UpSample(x, rate, j)) else old(y[j])
    {
      DivMonotone(i, lenOut - 1, rate);
      if CRem(i, rate) == 0 {
        y[i] := x[CDiv(i, rate)];
      } else {
        y[i] := 0.0;
      }
      i := i + 1;
    }
    return 0;
  }

  function Max0(n: int): nat { if n < 0 then 0 else n }

  /** Every rate-th slot of the up-sampled signal is the next input sample. */
  lemma UpSampleKeepsSamples(x: seq<real>, rate: int, j: int)
    requires rate > 0 && 0 <= j < |x|
    ensures CDiv(j * rate, rate) == j && UpSample(x, rate, j * rate) == x[j]
  {
    assert j * rate >= 0;
    CDivIsEuclidean(j * rate, rate);
    DivUnique(j * rate, rate, j, 0);
  }

  /** The slots in between are zero. */
  lemma UpSampleZeroStuffs(x: seq<real>, rate: int, i: int)
    requires rate > 0 && 0 <= i && i % rate != 0 && i / rate < |x|
    ensures UpSample(x, rate, i) == 0.0
  {
    CDivIsEuclidean(i, rate);
  }

  // ---------------------------------------------------------------------
  // downSamp (fir.h:187-198)
  // ---------------------------------------------------------------------

  /** Whether slot j of the down-sampled output is written: input index
      offset + j * rate exists. */
  predicate DownHit(lenIn: int, rate: int, offset: int, j: int)
  {
    0 <= offset + j * rate < lenIn
  }

  /** The exact multiple: (j * rate) / rate == j with no remainder. */
  lemma CDivExact(m: int, rate: int, j: int)
    requires rate > 0 && j >= 0 && m == j * rate
    ensures CDiv(m, rate) == j && CRem(m, rate) == 0
  {
    assert m >= 0;
    CDivIsEuclidean(m, rate);
    DivUnique(m, rate, j, 0);
  }

  /** downSamp: y[j] := x[offset + j * rate] where that input exists; every
      other slot is left alone; the result is always 0. An offset at or above
      rate, or a too-short y, makes the C code write out of bounds. */
  method DownSamp(y: array<real>, x: seq<real>, rate: int, offset: int) returns (ret: int)
    requires rate > 0 && offset < rate
    requires offset < |x| ==> (|x| - 1 - offset) / rate < y.Length
    modifies y
    ensures ret == 0
    ensures forall j :: 0 <= j < y.Length ==>
      y[j] == if DownHit(|x|, rate, offset, j) then x[offset + j * rate] else old(y[j])
  {
    var i := 0;
    while i < |x|
      invariant 0 <= i <= |x|
      invariant forall j :: 0 <= j < y.Length ==>
        y[j] == if DownHit(i, rate, offset, j) then x[offset + j * rate] else old(y[j])
    {
      if i - offset >= 0 {
        CDivIsEuclidean(i - offset, rate);
        if CRem(i - offset, rate) == 0 {
          var j0 := CDiv(i - offset, rate);
          DivMonotone(i - offset, |x| - 1 - offset, rate);
          assert offset + j0 * rate == i;
          forall j | 0 <= j < y.Length && j != j0 ensures offset + j * rate != i {
            if offset + j * rate == i { CDivExact(i - offset, rate, j); }
          }
          y[j0] := x[i];
        } else {
          forall j | 0 <= j < y.Length ensures offset + j * rate != i {
            if j >= 0 && offset + j * rate == i { CDivExact(i - offset, rate, j); }
          }
        }
      } else {
        CDivRem(i - offset, rate);
        forall j | 0 <= j < y.Length ensures offset + j * rate != i {
          assert j * rate >= 0;
        }
      }
      i := i + 1;
    }
    return 0;
  }

  /** Down-sampling by `rate` at offset 0 undoes up-sampling by `rate`. */
  lemma DownUndoesUp(x: seq<real>, rate: int, j: int)
    requires rate > 0 && 0 <= j < |x|
    ensures DownHit(|x| * rate, rate, 0, j)
    ensures CDiv(j * rate, rate) < |x| && UpSample(x, rate, 0 + j * rate) == x[j]
  {
    assert j * rate < |x| * rate;
    UpSampleKeepsSamples(x, rate, j);
  }

  // ---------------------------------------------------------------------
  // conv (fir.h:216-261)
  // ---------------------------------------------------------------------

  /** h[t] * x[k - t], nothing where either index is out of range. */
  function ConvTerm(h: seq<real>, x: seq<real>, t: int, k: int): real
  {
    if 0 <= t < |h| && 0 <= k - t < |x| then h[t] * x[k - t] else 0.0
  }

  /** The textbook linear convolution (h * x)[k] = Σ_t h[t] x[k - t]. */
  ghost function ConvSum(h: seq<real>, x: seq<real>, k: int): real
  {
    Sum(0, |h|, t => ConvTerm(h, x, t, k))
  }

  /** The taps reversed, inv_h of fir.h:236-237. */
  method ReverseTaps(h: seq<real>) returns (invH: array<real>)
    ensures fresh(invH) && invH.Length == |h|
    ensures forall j :: 0 <= j < |h| ==> invH[j] == h[|h| - 1 - j]
  {
    invH := new real[|h|];
    var idx := 0;
    while idx < |h|
      invariant 0 <= idx <= |h|
      invariant forall j :: 0 <= j < idx ==> invH[j] == h[|h| - 1 - j]
    {
      invH[idx] := h[|h| - 1 - idx];
      idx := idx + 1;
    }
  }

  /** The input framed by lenH - 1 zeros on each side, buf of fir.h:239-243. */
  method PadInput(x: seq<real>, lenH: int) returns (buf: array<real>)
    requires lenH >= 1
    ensures fresh(buf) && buf.Length == |x| + (lenH - 1) * 2
    ensures forall j :: 0 <= j < buf.Length ==>
      buf[j] == if lenH - 1 <= j < |x| - 1 + lenH then x[j - lenH + 1] else 0.0
  {
    var lenBuf := |x| + (lenH - 1) * 2;
    buf := new real[lenBuf];
    var idx := 0;
    while idx < lenBuf
      invariant 0 <= idx <= lenBuf
      invariant forall j :: 0 <= j < idx ==> buf[j] == 0.0
    {
      buf[idx] := 0.0;
      idx := idx + 1;
    }
    idx := lenH - 1;
    while idx < |x| - 1 + lenH
      invariant lenH - 1 <= idx <= |x| - 1 + lenH
      invariant forall j :: 0 <= j < lenBuf ==>
        buf[j] == if lenH - 1 <= j < idx then x[j - lenH + 1] else 0.0
    {
      buf[idx] := x[idx - lenH + 1];
      idx := idx + 1;
    }
  }

  /** The term the inner loop of fir.h:247-249 adds at output idx, iteration idx2. */
  function MacTerm(buf: seq<real>, invH: seq<real>, idx: int, idx2: int): real
  {
    if 0 <= idx + idx2 < |buf| && 0 <= idx2 < |invH| then buf[idx + idx2] * invH[idx2] else 0.0
  }

  ghost function MacFn(buf: seq<real>, invH: seq<real>, idx: int): int -> real
  {
    idx2 => MacTerm(buf, invH, idx, idx2)
  }

  /** The code's multiply-accumulate over the padded input and reversed taps
      is the textbook convolution. */
  lemma MacIsConvolution(h: seq<real>, x: seq<real>, buf: seq<real>, invH: seq<real>, idx: int)
    requires |h| >= 1 && 0 <= idx < |x| + |h| - 1
    requires |invH| == |h| && forall j :: 0 <= j < |h| ==> invH[j] == h[|h| - 1 - j]
    requires |buf| == |x| + (|h| - 1) * 2
    requires forall j :: 0 <= j < |buf| ==>
      buf[j] == if |h| - 1 <= j < |x| - 1 + |h| then x[j - |h| + 1] else 0.0
    ensures Sum(0, |h|, MacFn(buf, invH, idx)) == ConvSum(h, x, idx)
  {
    var n := |h|;
    var f, g := MacFn(buf, invH, idx), t => ConvTerm(h, x, t, idx);
    forall i | 0 <= i < n ensures f(i) == g(0 + (0 + n - 1 - i)) {
      var t := n - 1 - i;
      assert f(i) == MacTerm(buf, invH, idx, i);
      assert g(t) == ConvTerm(h, x, t, idx);
      assert invH[i] == h[t];
    }
    SumReflect(0, 0, n, f, g);
  }

  /** The double loop of fir.h:246-249: y[idx] += buf[idx + idx2] * invH[idx2]. */
  method MultiplyAccumulate(y: array<real>, n: int, buf: seq<real>, invH: seq<real>)
    requires 0 <= n <= y.Length && n + |invH| - 1 <= |buf|
    modifies y
    ensures forall k :: 0 <= k < y.Length ==>
      y[k] == if k < n then old(y[k]) + Sum(0, |invH|, MacFn(buf, invH, k)) else old(y[k])
  {
    var idx := 0;
    while idx < n
      invariant 0 <= idx <= n
      invariant forall k :: 0 <= k < y.Length ==>
        y[k] == if k < idx then old(y[k]) + Sum(0, |invH|, MacFn(buf, invH, k)) else old(y[k])
    {
      var idx2 := 0;
      while idx2 < |invH|
        invariant 0 <= idx2 <= |invH|
        invariant y[idx] == old(y[idx]) + Sum(0, idx2, MacFn(buf, invH, idx))
        invariant forall k :: 0 <= k < y.Length && k != idx ==>
          y[k] == if k < idx then old(y[k]) + Sum(0, |invH|, MacFn(buf, invH, k)) else old(y[k])
      {
        SumSnoc(0, idx2 + 1, MacFn(buf, invH, idx));
        assert MacFn(buf, invH, idx)(idx2) == buf[idx + idx2] * invH[idx2];
        y[idx] := y[idx] + buf[idx + idx2] * invH[idx2];
        idx2 := idx2 + 1;
      }
      idx := idx + 1;
    }
  }

  /** conv: on a buffer of at least |x| + |h| - 1 slots, adds (h * x)[k] to
      y[k] for every k of the full convolution and returns 0; on a shorter
      one returns -1 and writes nothing. y is accumulated into, not
      overwritten, so callers clear it first. With no taps and a long enough
      output, the padding loop of fir.h:242-243 starts at index -1 and
      writes buf[-1] and buf[len_x - 2], outside the len_x - 2 slots of buf,
      hence the second precondition. */
  method Conv(y: array<real>, lenY: int, h: seq<real>, x: seq<real>) returns (ret: int)
    requires lenY <= y.Length
    requires |h| >= 1 || lenY < |x| + |h| - 1
    modifies y
    ensures lenY < |x| + |h| - 1 ==> ret == -1 && y[..] == old(y[..])
    ensures lenY >= |x| + |h| - 1 ==> ret == 0 && forall k :: 0 <= k < y.Length ==>
      y[k] == if k < |x| + |h| - 1 then old(y[k]) + ConvSum(h, x, k) else old(y[k])
  {
    var lenH, lenX := |h|, |x|;
    if lenY < lenX + lenH - 1 {
      return -1;
    }
    var invH := ReverseTaps(h);
    var buf := PadInput(x, lenH);
    MultiplyAccumulate(y, lenX + lenH - 1, buf[..], invH[..]);
    forall k | 0 <= k < lenX + lenH - 1
      ensures Sum(0, lenH, MacFn(buf[..], invH[..], k)) == ConvSum(h, x, k)
    {
      MacIsConvolution(h, x, buf[..], invH[..], k);
    }
    return 0;
  }


  /** Only t in [Max(0, k - |x| + 1), Min(|h|, k + 1)) contributes. */
  lemma ConvOverlap(h: seq<real>, x: seq<real>, k: int)
    ensures ConvSum(h, x, k) == Sum(Max(0, k - |x| + 1), Min(|h|, k + 1), t => ConvTerm(h, x, t, k))
  {
    var f := t => ConvTerm(h, x, t, k);
    var lo, hi := Max(0, k - |x| + 1), Min(|h|, k + 1);
    if lo < hi {
      forall t | 0 <= t < |h| && !(lo <= t < hi) ensures f(t) == 0.0 {
        assert f(t) == ConvTerm(h, x, t, k);
      }
      SumSupport(0, |h|, lo, hi, f);
    } else {
      forall t | 0 <= t < |h| ensures f(t) == 0.0 {
        assert f(t) == ConvTerm(h, x, t, k);
      }
      SumOfZeros(0, |h|, f);
    }
  }

  /** Convolution is commutative: filtering x by h equals filtering h by x. */
  lemma ConvCommutes(h: seq<real>, x: seq<real>, k: int)
    ensures ConvSum(h, x, k) == ConvSum(x, h, k)
  {
    ConvOverlap(h, x, k);
    ConvOverlap(x, h, k);
    var f, g := t => ConvTerm(h, x, t, k), t => ConvTerm(x, h, t, k);
    var lo, hi := Max(0, k - |x| + 1), Min(|h|, k + 1);
    var lo' := Max(0, k - |h| + 1);
    var n := hi - lo;
    assert Min(|x|, k + 1) == lo' + n;
    forall i | lo <= i < lo + n ensures f(i) == g(lo' + (lo + n - 1 - i)) {
      assert lo' + (lo + n - 1 - i) == k - i;
      assert f(i) == ConvTerm(h, x, i, k);
      assert g(k - i) == ConvTerm(x, h, k - i, k);
    }
    SumReflect(lo, lo', n, f, g);
  }

  /** The unit impulse is the identity filter. */
  lemma ConvImpulse(x: seq<real>, k: int)
    requires 0 <= k < |x|
    ensures ConvSum([1.0], x, k) == x[k]
  {
    var f := t => ConvTerm([1.0], x, t, k);
    assert f(0) == x[k];
    assert Sum(0, 1, f) == f(0) + Sum(1, 1, f);
  }

  /** Outside the full length |x| + |h| - 1 the convolution is zero. */
  lemma ConvSupport(h: seq<real>, x: seq<real>, k: int)
    requires k < 0 || k >= |x| + |h| - 1
    ensures ConvSum(h, x, k) == 0.0
  {
    ConvOverlap(h, x, k);
  }
}
