/** The table-driven complex oscillator nco_complex of src/include/nco.h.
    The file-scope `static unsigned int phaseAcc` becomes the field of an
    Nco object; LUT holds one quarter wave of the sine. */
module Oscillator {
  import opened CInt

  const PHASE_ACC_BITS: nat := 32
  const QT_PHASE_ACC_BITS: nat := 18
  const TWO32: int := 0x1_0000_0000

  /** The top 18 bits of the accumulator (nco.h:104-105). */
  function QtPhase(acc: nat): nat
  {
    AndMask(Shr(acc, PHASE_ACC_BITS - QT_PHASE_ACC_BITS), Pow2(QT_PHASE_ACC_BITS) - 1)
  }

  /** The quadrant: the top two of those bits (nco.h:106). */
  function Stage(acc: nat): int
  {
    Shr(QtPhase(acc), QT_PHASE_ACC_BITS - 2)
  }

  /** The table address: the low 16 of those bits (nco.h:107). */
  function Addr(acc: nat): nat
  {
    AndMask(QtPhase(acc), Pow2(QT_PHASE_ACC_BITS - 2) - 1)
  }

  /** For a 32-bit accumulator, Stage is bits 31-30 and Addr is bits 29-14,
      so Stage < 4, Addr < 2^16, and together with the 14 bits dropped they
      make up the whole phase. */
  lemma StageAddrSplit(acc: nat)
    requires acc < TWO32
    ensures Stage(acc) < 4 && Addr(acc) < 0x1_0000
    ensures acc == Stage(acc) * 0x4000_0000 + Addr(acc) * 0x4000 + acc % 0x4000
  {
    Pow2Is32();
    assert Pow2(14) == 0x4000;
    assert Pow2(18) == 0x4_0000 by { Pow2Add(16, 2); }
    var h := acc / 0x4000;
    DivMod(acc, 0x4000);
    assert h < 0x4_0000;
    DivUnique(h, TWO32, 0, h);
    AndLowMask(h, 18);
    assert QtPhase(acc) == h;
    assert QtPhase(acc) % TWO32 == h;
    AndLowMask(h, 16);
    DivMod(h, 0x1_0000);
  }

  /** The sine a stage and address select (nco.h:110-124); stages past 3
      do not occur. */
  function SineOf(lut: seq<real>, lutSize: int, stage: int, addr: int): real
    requires 0 <= addr < 0x1_0000 <= |lut| && 0xFFFF <= lutSize <= |lut|
  {
    if stage == 0 then lut[addr]
    else if stage == 1 then (if addr == 0 then 1.0 else lut[lutSize - addr])
    else if stage == 2 then -lut[addr]
    else if addr == 0 then -1.0 else -lut[lutSize - addr]
  }

  /** The cosine a stage and address select (nco.h:127-141). */
  function CosineOf(lut: seq<real>, lutSize: int, stage: int, addr: int): real
    requires 0 <= addr < 0x1_0000 <= |lut| && 0xFFFF <= lutSize <= |lut|
  {
    if stage == 3 then lut[addr]
    else if stage == 0 then (if addr == 0 then 1.0 else lut[lutSize - addr])
    else if stage == 1 then -lut[addr]
    else if addr == 0 then -1.0 else -lut[lutSize - addr]
  }

  /** The cosine leads the sine by a quarter turn. */
  lemma CosineLeadsSine(lut: seq<real>, lutSize: int, stage: int, addr: int)
    requires 0 <= addr < 0x1_0000 <= |lut| && 0xFFFF <= lutSize <= |lut| && 0 <= stage < 4
    ensures CosineOf(lut, lutSize, stage, addr) == SineOf(lut, lutSize, (stage + 1) % 4, addr)
  {
  }

  /** Half a turn negates the sine, and the quarter-turn points are exact. */
  lemma SineHalfTurn(lut: seq<real>, lutSize: int, stage: int, addr: int)
    requires 0 <= addr < 0x1_0000 <= |lut| && 0xFFFF <= lutSize <= |lut| && 0 <= stage < 4
    ensures SineOf(lut, lutSize, (stage + 2) % 4, addr) == -SineOf(lut, lutSize, stage, addr)
    ensures SineOf(lut, lutSize, 1, 0) == 1.0 && SineOf(lut, lutSize, 3, 0) == -1.0
  {
  }

  /** The sample produced for accumulator value acc. */
  function SineAt(lut: seq<real>, lutSize: int, acc: nat): real
    requires acc < TWO32 && 0x1_0000 <= |lut| && 0xFFFF <= lutSize <= |lut|
  {
    StageAddrSplit(acc);
    SineOf(lut, lutSize, Stage(acc), Addr(acc))
  }

  function CosineAt(lut: seq<real>, lutSize: int, acc: nat): real
    requires acc < TWO32 && 0x1_0000 <= |lut| && 0xFFFF <= lutSize <= |lut|
  {
    StageAddrSplit(acc);
    CosineOf(lut, lutSize, Stage(acc), Addr(acc))
  }

  /** The accumulator after j samples, each advancing it by `step` modulo 2^32. */
  function PhaseAfter(start: int, step: int, j: nat): (r: nat)
    ensures r < TWO32
  {
    if j == 0 then start % TWO32 else (PhaseAfter(start, step, j - 1) + step) % TWO32
  }

  /** After n samples the accumulator has advanced by n * step modulo 2^32. */
  lemma {:induction false} PhaseAfterClosedForm(start: int, step: int, n: nat)
    ensures PhaseAfter(start, step, n) == (start + n * step) % TWO32
    decreases n
  {
    if n > 0 {
      PhaseAfterClosedForm(start, step, n - 1);
      ModAdd(start + (n - 1) * step, step, TWO32);
      MulDistributes(step, n - 1, 1);
      assert start + (n - 1) * step + step == start + n * step;
    }
  }

  lemma ModAdd(a: int, b: int, n: int)
    requires n > 0
    ensures (a % n + b) % n == (a + b) % n
  {
    DivMod(a, n);
    DivMod(a % n + b, n);
    var k := a / n + (a % n + b) / n;
    MulDistributes(n, a / n, (a % n + b) / n);
    assert a + b == n * k + (a % n + b) % n;
    DivUnique(a + b, n, k, (a % n + b) % n);
  }

  /** One step of nco.h:144-146: add phaseInc, mask with 2^32 - 1 (a no-op on
      an unsigned int), add offset, all in 32-bit unsigned arithmetic. */
  lemma AccumulateStep(acc: int, inc: nat, off: nat)
    requires 0 <= acc < TWO32 && inc < TWO32 && off < TWO32
    ensures var a1 := (acc + inc) % TWO32;
      AndMask(a1, TWO32 - 1) == a1
      && (a1 + off) % TWO32 == (acc + (inc + off)) % TWO32
  {
    var a1 := (acc + inc) % TWO32;
    Pow2Is32();
    DivUnique(a1, TWO32, 0, a1);
    AndLowMask(a1, 32);
    ModAdd(acc + inc, off, TWO32);
  }

  /** The sine branches of nco.h:110-124. */
  method SelectSine(lut: seq<real>, lutSize: int, stage: int, addr: int) returns (v: real)
    requires 0 <= stage < 4
    requires 0 <= addr < 0x1_0000 <= |lut| && 0xFFFF <= lutSize <= |lut|
    ensures v == SineOf(lut, lutSize, stage, addr)
  {
    if stage == 0 {
      v := lut[addr];
    } else if stage == 1 {
      if addr == 0 {
        v := 1.0;
      } else {
        v := lut[lutSize - addr];
      }
    } else if stage == 2 {
      v := -lut[addr];
    } else if stage == 3 {
      if addr == 0 {
        v := -1.0;
      } else {
        v := -lut[lutSize - addr];
      }
    }
  }

  /** The cosine branches of nco.h:127-141. */
  method SelectCosine(lut: seq<real>, lutSize: int, stage: int, addr: int) returns (v: real)
    requires 0 <= stage < 4
    requires 0 <= addr < 0x1_0000 <= |lut| && 0xFFFF <= lutSize <= |lut|
    ensures v == CosineOf(lut, lutSize, stage, addr)
  {
    if stage == 3 {
      v := lut[addr];
    } else if stage == 0 {
      if addr == 0 {
        v := 1.0;
      } else {
        v := lut[lutSize - addr];
      }
    } else if stage == 1 {
      v := -lut[addr];
    } else if stage == 2 {
      if addr == 0 {
        v := -1.0;
      } else {
        v := -lut[lutSize - addr];
      }
    }
  }

  /** The bit slicing of nco.h:104-107. */
  method SplitPhase(acc: int) returns (stage: int, addr: int)
    requires 0 <= acc < TWO32
    ensures stage == Stage(acc) && addr == Addr(acc)
    ensures 0 <= stage < 4 && 0 <= addr < 0x1_0000
  {
    var qt := AndMask(Shr(acc, PHASE_ACC_BITS - QT_PHASE_ACC_BITS), Pow2(QT_PHASE_ACC_BITS) - 1);
    stage := Shr(qt, QT_PHASE_ACC_BITS - 2);
    addr := AndMask(qt, Pow2(QT_PHASE_ACC_BITS - 2) - 1);
    StageAddrSplit(acc);
  }

  /** The phase update of nco.h:144-146 in unsigned 32-bit arithmetic. */
  method Accumulate(acc: int, phaseInc: int, offset: int) returns (next: int)
    requires 0 <= acc < TWO32 && 0 <= phaseInc < TWO32 && 0 <= offset < TWO32
    ensures next == (AndMask((acc + phaseInc) % TWO32, TWO32 - 1) + offset) % TWO32
  {
    next := (acc + phaseInc) % TWO32;
    next := AndMask(next, TWO32 - 1);
    next := (next + offset) % TWO32;
  }

  /** One iteration's table lookups and stores (nco.h:104-141). */
  method EmitSample(ySine: array<real>, yCosine: array<real>, i: int,
                    lut: seq<real>, lutSize: int, acc: int)
    requires ySine != yCosine && 0 <= i < ySine.Length && i < yCosine.Length
    requires 0 <= acc < TWO32 && 0x1_0000 <= |lut| && 0xFFFF <= lutSize <= |lut|
    modifies ySine, yCosine
    ensures forall j :: 0 <= j < ySine.Length ==>
      ySine[j] == if j == i then SineAt(lut, lutSize, acc) else old(ySine[j])
    ensures forall j :: 0 <= j < yCosine.Length ==>
      yCosine[j] == if j == i then CosineAt(lut, lutSize, acc) else old(yCosine[j])
  {
    var stage, addr := SplitPhase(acc);

    var sine := SelectSine(lut, lutSize, stage, addr);
    ySine[i] := sine;
    var cosine := SelectCosine(lut, lutSize, stage, addr);
    yCosine[i] := cosine;
  }

  class Nco {
    /** The phase accumulator, an unsigned 32-bit value. */
    var phaseAcc: int

    ghost predicate Valid()
      reads this
    {
      0 <= phaseAcc < TWO32
    }

    /** A file-scope static starts at zero. */
    constructor ()
      ensures Valid() && phaseAcc == 0
    {
      phaseAcc := 0;
    }

    /** nco_complex (nco.h:91-148): writes len_out sine and cosine samples
        from the table and advances the accumulator by phaseInc + offset per
        sample. The C function has no return statement, so no result is
        modelled. Every address reaches the table when it holds at least
        2^16 entries and LUT_SIZE - Addr stays in range. */
    method NcoComplex(ySine: array<real>, yCosine: array<real>, lenOut: int,
                      lut: seq<real>, lutSize: int, phaseInc: int, offset: int)
      requires Valid()
      requires ySine != yCosine && lenOut <= ySine.Length && lenOut <= yCosine.Length
      requires 0x1_0000 <= |lut| && 0xFFFF <= lutSize <= |lut|
      requires 0 <= phaseInc < TWO32 && 0 <= offset < TWO32
      modifies this, ySine, yCosine
      ensures Valid()
      ensures phaseAcc == PhaseAfter(old(phaseAcc), phaseInc + offset, if lenOut < 0 then 0 else lenOut)
      ensures forall j :: 0 <= j < ySine.Length ==>
        ySine[j] == if j < lenOut then SineAt(lut, lutSize, PhaseAfter(old(phaseAcc), phaseInc + offset, j))
                    else old(ySine[j])
      ensures forall j :: 0 <= j < yCosine.Length ==>
        yCosine[j] == if j < lenOut then CosineAt(lut, lutSize, PhaseAfter(old(phaseAcc), phaseInc + offset, j))
                      else old(yCosine[j])
    {
      ghost var start := phaseAcc;
      var i := 0;
      assert PhaseAfter(start, phaseInc + offset, 0) == phaseAcc;
      while i < lenOut
        invariant 0 <= i <= if lenOut < 0 then 0 else lenOut
        invariant phaseAcc == PhaseAfter(start, phaseInc + offset, i)
        invariant forall j :: 0 <= j < ySine.Length ==>
          ySine[j] == if j < i then SineAt(lut, lutSize, PhaseAfter(start, phaseInc + offset, j)) else old(ySine[j])
        invariant forall j :: 0 <= j < yCosine.Length ==>
          yCosine[j] == if j < i then CosineAt(lut, lutSize, PhaseAfter(start, phaseInc + offset, j)) else old(yCosine[j])
      {
        EmitSample(ySine, yCosine, i, lut, lutSize, phaseAcc);
        AccumulateStep(phaseAcc, phaseInc, offset);
        phaseAcc := Accumulate(phaseAcc, phaseInc, offset);
        i := i + 1;
      }
    }
  }
}
