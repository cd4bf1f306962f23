/** biA2decA of src/include/dataGen.h: packs a bit stream into integers of
    M bits each, most significant bit first, accumulating into the output. */
module DataGen {
  import opened CInt

  /** The integer a group of bits spells, most significant bit first. */
  function BitsToInt(s: seq<int>): int
  {
    if s == [] then 0 else 2 * BitsToInt(s[..|s| - 1]) + s[|s| - 1]
  }

  predicate IsBits(s: seq<int>)
  {
    forall i :: 0 <= i < |s| ==> s[i] == 0 || s[i] == 1
  }

  /** The number of groups the outer loop visits: ceil(lenIn / M). */
  function Groups(lenIn: int, M: int): int
    requires M > 0
  {
    if lenIn <= 0 then 0 else (lenIn + M - 1) / M
  }

  /** Exactly ceil(lenIn / M) groups: the last starts below lenIn and ends
      at or past it. */
  lemma GroupsIsCeiling(lenIn: int, M: int)
    requires M > 0 && lenIn > 0
    ensures (Groups(lenIn, M) - 1) * M < lenIn <= Groups(lenIn, M) * M
  {
    var g := Groups(lenIn, M);
    DivMod(lenIn + M - 1, M);
    var r := (lenIn + M - 1) % M;
    assert lenIn + M - 1 == M * g + r;
    assert M * g == (g - 1) * M + M;
  }

  /** The value of group k of the input; 0 for a group that does not fit. */
  function GroupValue(bits: seq<int>, k: int, M: int): int
    requires M > 0
  {
    if 0 <= k && k * M + M <= |bits| then BitsToInt(bits[k * M .. k * M + M]) else 0
  }

  /** One step of the countdown loop at dataGen.h:61-62: adding bit t of the
      group with weight 2^(M-1-t). */
  lemma BitsToIntStep(g: seq<int>, t: int, M: int)
    requires |g| == M && 0 <= t < M
    ensures BitsToInt(g[..t]) * Pow2(M - t) + Pow2(M - 1 - t) * g[t]
         == BitsToInt(g[..t + 1]) * Pow2(M - t - 1)
  {
    assert g[..t + 1][..t] == g[..t];
    var b, p := BitsToInt(g[..t]), Pow2(M - t - 1);
    assert BitsToInt(g[..t + 1]) == 2 * b + g[t];
    assert Pow2(M - t) == 2 * p;
    MulDistributes(p, 2 * b, g[t]);
    MulAssoc(b, 2, p);
  }

  /** biA2decA (dataGen.h:53-74). Adds every group's value to its output
      slot; when lenIn is not a multiple of M the last, partial group is
      read past lenIn and then zeroed, and 1 is returned; otherwise 0.
      Reading past lenIn needs the input to extend to a whole group, and
      with a negative lenIn the C code zeroes decOut[-1] unless lenIn % M
      is 0. */
  method BiA2DecA(output: array<int>, bits: seq<int>, lenIn: int, M: int) returns (ret: int)
    requires 1 <= M <= 31
    requires lenIn >= 0 || CRem(lenIn, M) == 0
    requires Groups(lenIn, M) * M <= |bits| && Groups(lenIn, M) <= output.Length
    modifies output
    ensures ret == if CRem(lenIn, M) != 0 then 1 else 0
    ensures forall k :: 0 <= k < output.Length ==>
      output[k] == if k < Groups(lenIn, M) then
                     (if ret == 1 && k == Groups(lenIn, M) - 1 then 0
                      else old(output[k]) + GroupValue(bits, k, M))
                   else old(output[k])
  {
    var cnt := PackGroups(output, bits, lenIn, M);
    if CRem(lenIn, M) != 0 {
      assert lenIn > 0;
      output[cnt - 1] := 0;
      return 1;
    }
    return 0;
  }

  /** The outer loop of dataGen.h:59-64: one group per M input bits. */
  method PackGroups(output: array<int>, bits: seq<int>, lenIn: int, M: int) returns (cnt: int)
    requires 1 <= M <= 31
    requires Groups(lenIn, M) * M <= |bits| && Groups(lenIn, M) <= output.Length
    modifies output
    ensures cnt == Groups(lenIn, M)
    ensures forall k :: 0 <= k < output.Length ==>
      output[k] == if k < cnt then old(output[k]) + GroupValue(bits, k, M) else old(output[k])
  {
    var G := Groups(lenIn, M);
    var i := 0;
    cnt := 0;
    GroupStart(lenIn, M, 0);
    while i < lenIn
      invariant 0 <= cnt <= G && i == cnt * M
      invariant cnt < G <==> i < lenIn
      invariant forall k :: 0 <= k < output.Length ==>
        output[k] == if k < cnt then old(output[k]) + GroupValue(bits, k, M) else old(output[k])
    {
      GroupStart(lenIn, M, cnt + 1);
      GroupInto(output, cnt, bits, i, M);
      cnt := cnt + 1;
      i := i + M;
    }
  }

  /** Group cnt starts at cnt * M, below lenIn exactly for the groups that exist. */
  lemma GroupStart(lenIn: int, M: int, cnt: int)
    requires M > 0 && 0 <= cnt <= Groups(lenIn, M)
    ensures cnt < Groups(lenIn, M) <==> cnt * M < lenIn
    ensures cnt * M <= Groups(lenIn, M) * M
    ensures cnt >= 1 ==> cnt * M == (cnt - 1) * M + M
  {
    var G := Groups(lenIn, M);
    MulDistributes(M, cnt - 1, 1);
    if lenIn > 0 {
      GroupsIsCeiling(lenIn, M);
      MulDistributes(M, G - 1, 1);
      if cnt < G {
        assert cnt * M <= (G - 1) * M;
      }
      assert cnt * M <= G * M;
    }
  }

  /** The countdown loop of dataGen.h:60-62 for the group starting at i. */
  method GroupInto(output: array<int>, cnt: int, bits: seq<int>, i: int, M: int)
    requires 1 <= M <= 31 && 0 <= cnt < output.Length && i == cnt * M && i + M <= |bits|
    modifies output
    ensures forall k :: 0 <= k < output.Length ==>
      output[k] == if k == cnt then old(output[k]) + GroupValue(bits, cnt, M) else old(output[k])
  {
    ghost var g := bits[i .. i + M];
    ghost var start := output[cnt];
    var cursor := M - 1;
    while cursor >= 0
      invariant -1 <= cursor <= M - 1
      invariant output[cnt] == start + BitsToInt(g[..M - 1 - cursor]) * Pow2(cursor + 1)
      invariant forall k :: 0 <= k < output.Length && k != cnt ==> output[k] == old(output[k])
    {
      AccumulateBit(start, output[cnt], g, M - 1 - cursor, M, bits[i + M - 1 - cursor]);
      output[cnt] := output[cnt] + Pow2(cursor) * bits[i + M - 1 - cursor];
      cursor := cursor - 1;
    }
    assert g[..M] == g;
  }

  /** The loop invariant of GroupInto carried across one added bit. */
  lemma AccumulateBit(start: int, acc: int, g: seq<int>, t: int, M: int, bit: int)
    requires |g| == M && 0 <= t < M && bit == g[t]
    requires acc == start + BitsToInt(g[..t]) * Pow2(M - t)
    ensures acc + Pow2(M - 1 - t) * bit == start + BitsToInt(g[..t + 1]) * Pow2(M - t - 1)
  {
    BitsToIntStep(g, t, M);
  }

  // ---------------------------------------------------------------------
  // Properties of the packing.
  // ---------------------------------------------------------------------

  /** A group of M zero-or-one bits packs into [0, 2^M). */
  lemma {:induction false} BitsToIntBounded(s: seq<int>)
    requires IsBits(s)
    ensures 0 <= BitsToInt(s) < Pow2(|s|)
    decreases |s|
  {
    if s != [] {
      BitsToIntBounded(s[..|s| - 1]);
    }
  }

  /** M bits of v, most significant first. */
  function IntToBits(v: int, M: nat): (r: seq<int>)
    ensures |r| == M && IsBits(r)
    decreases M
  {
    if M == 0 then [] else IntToBits(v / 2, M - 1) + [v % 2]
  }

  /** Unpacking inverts packing on bit groups. */
  lemma {:induction false} IntToBitsOfBitsToInt(s: seq<int>)
    requires IsBits(s)
    ensures IntToBits(BitsToInt(s), |s|) == s
    decreases |s|
  {
    if s != [] {
      var init, last := s[..|s| - 1], s[|s| - 1];
      assert s == init + [last];
      BitsToIntBounded(init);
      DivUnique(BitsToInt(s), 2, BitsToInt(init), last);
      IntToBitsOfBitsToInt(init);
    }
  }

  /** Packing inverts unpacking on [0, 2^M). */
  lemma {:induction false} BitsToIntOfIntToBits(v: int, M: nat)
    requires 0 <= v < Pow2(M)
    ensures BitsToInt(IntToBits(v, M)) == v
    decreases M
  {
    if M > 0 {
      var s := IntToBits(v, M);
      assert s[..M - 1] == IntToBits(v / 2, M - 1);
      DivMod(v, 2);
      BitsToIntOfIntToBits(v / 2, M - 1);
    }
  }
}
