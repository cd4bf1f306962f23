/** Bit-to-symbol mappers and hard-decision demappers
    (src/include/symMapper.h). Symbols are exact complex numbers. A QAM
    axis carries an odd integer level times one positive scale `unit`, which
    stands for 1/sqrt(10), 1/sqrt(42) or 1/sqrt(170) by modulation order;
    the demapper thresholds are multiples of the same scale. Bit streams are
    `int` sequences, as in the source. */
module SymMapper {
  import opened ComplexArith
  import opened CInt
  import opened Maybe
  import DataGen

  /** The modulation orders of the enum; Code gives each its integer value. */
  datatype Order = Bpsk | Qpsk | Psk8 | Qam16 | Qam64 | Qam256

  function Code(o: Order): int
  {
    match o
    case Bpsk => 2
    case Qpsk => 4
    case Psk8 => 8
    case Qam16 => 16
    case Qam64 => 64
    case Qam256 => 256
  }

  /** The case a `switch (type)` selects: the order whose code is the
      given integer, None for the default branch. */
  function OrderOf(modulation: int): (r: Option<Order>)
    ensures r.Some? ==> Code(r.value) == modulation
  {
    if modulation == 2 then Some(Bpsk)
    else if modulation == 4 then Some(Qpsk)
    else if modulation == 8 then Some(Psk8)
    else if modulation == 16 then Some(Qam16)
    else if modulation == 64 then Some(Qam64)
    else if modulation == 256 then Some(Qam256)
    else None
  }

  /** Every order is selected by its own code. */
  lemma OrderOfCode(o: Order)
    ensures OrderOf(Code(o)) == Some(o)
  {
  }

  /** Bits per symbol. */
  function Bps(o: Order): nat
  {
    match o
    case Bpsk => 1
    case Qpsk => 2
    case Psk8 => 3
    case Qam16 => 4
    case Qam64 => 6
    case Qam256 => 8
  }

  predicate IsQam(o: Order)
  {
    o == Qam16 || o == Qam64 || o == Qam256
  }

  /** The PSK orders the model maps: QPSK mapping is left out. */
  predicate IsMappedPsk(o: Order)
  {
    o == Bpsk || o == Psk8
  }

  // The 8-PSK coordinates are dyadic decimals, so these reals are exact.
  const COS_PI8: real := 0.923828125
  const SIN_PI8: real := 0.382568359375

  /** The psk8 constellation, indexed by 4*b0 + 2*b1 + b2. */
  const PSK8_TABLE: seq<Complex> := [
    Complex(SIN_PI8, COS_PI8), Complex(COS_PI8, SIN_PI8),
    Complex(SIN_PI8, -COS_PI8), Complex(COS_PI8, -SIN_PI8),
    Complex(-SIN_PI8, COS_PI8), Complex(-COS_PI8, SIN_PI8),
    Complex(-SIN_PI8, -COS_PI8), Complex(-COS_PI8, -SIN_PI8)]

  // ---------------------------------------------------------------------
  // The number of symbols, lenBit / log2(type).
  // ---------------------------------------------------------------------

  /** log2(n) when n is a power of two, None otherwise. */
  function Log2(n: int): Option<nat>
    decreases if n > 0 then n else 0
  {
    if n == 1 then Some(0)
    else if n >= 2 && n % 2 == 0 then
      match Log2(n / 2)
      case Some(k) => Some(k + 1)
      case None => None
    else None
  }

  lemma {:induction false} Log2IsExact(n: int)
    ensures Log2(n).Some? ==> Pow2(Log2(n).value) == n
    decreases if n > 0 then n else 0
  {
    if n >= 2 && n % 2 == 0 {
      Log2IsExact(n / 2);
    }
  }

  lemma {:induction false} Log2OfPow2(k: nat)
    ensures Log2(Pow2(k)) == Some(k)
  {
    if k > 0 {
      Log2OfPow2(k - 1);
      assert Pow2(k) == 2 * Pow2(k - 1);
      assert Pow2(k) / 2 == Pow2(k - 1);
    }
  }

  /** The bits per symbol of every order are the log2 of its code. */
  lemma BpsIsLog2(o: Order)
    ensures Log2(Code(o)) == Some(Bps(o))
  {
    assert Pow2(Bps(o)) == Code(o) by {
      assert Pow2(4) == 16;
    }
    Log2OfPow2(Bps(o));
  }

  /** A modulation for which `lenBit / log2(type)` is an exact, finite
      quotient: a power of two, at least 2. */
  predicate PowerModulation(modulation: int)
  {
    Log2(modulation).Some? && Log2(modulation).value >= 1
  }

  /** The `type` values the mappers are modelled for: the powers of two
      above, and 0, for which log2(0) is -inf and the quotient is zero. */
  predicate ValidModulation(modulation: int)
  {
    modulation == 0 || PowerModulation(modulation)
  }

  /** `*lenSym` after either mapper: the quotient converted to `int`, which
      truncates toward zero; 0 for type 0. */
  function SymbolCount(lenBit: int, modulation: int): (c: int)
    requires ValidModulation(modulation)
    ensures modulation == 0 ==> c == 0
  {
    if modulation == 0 then 0 else CDiv(lenBit, Log2(modulation).value)
  }

  lemma RealScale(x: real, y: real, b: real)
    requires b > 0.0
    ensures x <= y <==> x * b <= y * b
    ensures x < y <==> x * b < y * b
  {
    if x < y {
      PositiveProduct(y - x, b);
    } else if y < x {
      PositiveProduct(x - y, b);
    }
  }

  /** C's int conversion of the quotient n / d cuts the fraction off
      toward zero. */
  lemma TruncatedQuotient(n: int, d: int)
    requires d >= 1
    ensures var c, q := CDiv(n, d), (n as real) / (d as real);
      (n >= 0 ==> c as real <= q < (c + 1) as real) &&
      (n < 0 ==> (c - 1) as real < q <= c as real)
  {
    CDivRem(n, d);
    if n >= 0 {
      QuotientAbove(n, CDiv(n, d), CRem(n, d), d);
    } else {
      QuotientBelow(n, CDiv(n, d), CRem(n, d), d);
    }
  }

  lemma QuotientAbove(n: int, c: int, r: int, d: int)
    requires d >= 1 && n == c * d + r && 0 <= r < d
    ensures c as real <= (n as real) / (d as real) < (c + 1) as real
  {
    var b := d as real;
    var q := (n as real) / b;
    assert q * b == n as real;
    assert (c as real) * b == (c * d) as real;
    assert ((c + 1) as real) * b == (c * d + d) as real;
    RealScale(c as real, q, b);
    RealScale(q, (c + 1) as real, b);
  }

  lemma QuotientBelow(n: int, c: int, r: int, d: int)
    requires d >= 1 && n == c * d + r && -d < r <= 0
    ensures (c - 1) as real < (n as real) / (d as real) <= c as real
  {
    var b := d as real;
    var q := (n as real) / b;
    assert q * b == n as real;
    assert (c as real) * b == (c * d) as real;
    assert ((c - 1) as real) * b == (c * d - d) as real;
    RealScale((c - 1) as real, q, b);
    RealScale(q, c as real, b);
  }

  /** SymbolCount is the real quotient lenBit / log2(type) with its
      fraction cut off toward zero. */
  lemma SymbolCountIsTruncatedQuotient(lenBit: int, modulation: int)
    requires PowerModulation(modulation)
    ensures var c, q := SymbolCount(lenBit, modulation), (lenBit as real) / (Log2(modulation).value as real);
      (lenBit >= 0 ==> c as real <= q < (c + 1) as real) &&
      (lenBit < 0 ==> (c - 1) as real < q <= c as real)
  {
    TruncatedQuotient(lenBit, Log2(modulation).value);
  }

  // ---------------------------------------------------------------------
  // Symbols.
  // ---------------------------------------------------------------------

  function Scaled(level: int, unit: real): real
  {
    (level as real) * unit
  }

  /** Axis levels, in units of `unit`, from the bits of one axis. */
  function Qam16Level(b0: int, b1: int): int
  {
    (2 * b0 - 1) * (2 * b1 + 1)
  }

  function Qam64Level(b0: int, b1: int, b2: int): int
  {
    (2 * b0 - 1) * (4 + (2 * b1 - 1) * (2 * b2 + 1))
  }

  function Qam256Level(b0: int, b1: int, b2: int, b3: int): int
  {
    (2 * b0 - 1) * (8 + 4 * (2 * b1 - 1) + (2 * b2 - 1) * (2 * b3 + 1))
  }

  /** The bits of symbol i: bits[bps*i .. bps*i + bps]. */
  function Group(bits: seq<int>, bps: nat, i: int): (g: seq<int>)
    requires bps >= 1 && 0 <= i < |bits| / bps
    ensures |g| == bps
    ensures forall r :: 0 <= r < bps ==> bps * i + r < |bits| && g[r] == bits[bps * i + r]
  {
    GroupFits(|bits|, bps, i);
    bits[bps * i .. bps * i + bps]
  }

  lemma GroupFits(n: int, bps: int, i: int)
    requires bps >= 1 && 0 <= i < n / bps
    ensures 0 <= bps * i && bps * i + bps <= n
  {
    DivMod(n, bps);
    MulAtLeast2(bps, n / bps, i + 1);
    MulAtLeast2(bps, i, 0);
    assert bps * (i + 1) == bps * i + bps;
  }

  function Psk8Index(g: seq<int>): int
    requires |g| == 3
  {
    4 * g[0] + 2 * g[1] + g[2]
  }

  /** The symbol one group of bits maps to. */
  function MapSymbol(o: Order, g: seq<int>, unit: real, avePow: real): Complex
    requires IsQam(o) || IsMappedPsk(o)
    requires |g| == Bps(o)
    requires o == Psk8 ==> 0 <= Psk8Index(g) < 8
  {
    if o == Bpsk then
      Complex(avePow * ((1 - 2 * g[0]) as real), 0.0)
    else if o == Psk8 then
      PSK8_TABLE[Psk8Index(g)]
    else if o == Qam16 then
      Complex(Scaled(Qam16Level(g[0], g[1]), unit), Scaled(Qam16Level(g[2], g[3]), unit))
    else if o == Qam64 then
      Complex(Scaled(Qam64Level(g[0], g[1], g[2]), unit), Scaled(Qam64Level(g[3], g[4], g[5]), unit))
    else
      Complex(Scaled(Qam256Level(g[0], g[1], g[2], g[3]), unit),
              Scaled(Qam256Level(g[4], g[5], g[6], g[7]), unit))
  }

  /** Whether every 8-PSK group among the first n indexes the table. */
  predicate Psk8Indexable(bits: seq<int>, n: int)
    requires n <= |bits| / 3
  {
    forall i :: 0 <= i < n ==> 0 <= Psk8Index(Group(bits, 3, i)) < 8
  }

  /** Symbol i of the mapped stream. */
  function MappedSymbol(o: Order, bits: seq<int>, i: int, unit: real, avePow: real): Complex
    requires IsQam(o) || IsMappedPsk(o)
    requires 0 <= i < |bits| / Bps(o)
    requires o == Psk8 ==> 0 <= Psk8Index(Group(bits, 3, i)) < 8
  {
    MapSymbol(o, Group(bits, Bps(o), i), unit, avePow)
  }

  // ---------------------------------------------------------------------
  // Hard decisions.
  // ---------------------------------------------------------------------

  /** fabs */
  function RAbs(x: real): real
  {
    if x < 0.0 then -x else x
  }

  function Qam16Axis(x: real, unit: real): seq<int>
  {
    [if x > 0.0 then 1 else 0,
     if RAbs(x) > 2.0 * unit then 1 else 0]
  }

  function Qam64Axis(x: real, unit: real): seq<int>
  {
    [if x > 0.0 then 1 else 0,
     if RAbs(x) > 4.0 * unit then 1 else 0,
     if RAbs(x) > 2.0 * unit && RAbs(x) < 6.0 * unit then 0 else 1]
  }

  function Qam256Axis(x: real, unit: real): seq<int>
  {
    [if x > 0.0 then 1 else 0,
     if RAbs(x) > 8.0 * unit then 1 else 0,
     if (RAbs(x) > 4.0 * unit && RAbs(x) < 8.0 * unit) || RAbs(x) > 12.0 * unit then 1 else 0,
     if (RAbs(x) > 2.0 * unit && RAbs(x) < 6.0 * unit) || (RAbs(x) > 10.0 * unit && RAbs(x) < 14.0 * unit)
     then 0 else 1]
  }

  /** The bits decided for one received symbol z. */
  function Decide(o: Order, z: Complex, unit: real): (bits: seq<int>)
    ensures |bits| == Bps(o)
  {
    if o == Bpsk then
      [if z.re < 0.0 then 1 else 0]
    else if o == Qpsk then
      [if z.re < 0.0 then 1 else 0, if z.im < 0.0 then 1 else 0]
    else if o == Psk8 then
      [if z.re > 0.0 then 0 else 1,
       if z.im > 0.0 then 0 else 1,
       if (z.re + z.im) * (-z.re + z.im) > 0.0 then 0 else 1]
    else if o == Qam16 then
      Qam16Axis(z.re, unit) + Qam16Axis(z.im, unit)
    else if o == Qam64 then
      Qam64Axis(z.re, unit) + Qam64Axis(z.im, unit)
    else
      Qam256Axis(z.re, unit) + Qam256Axis(z.im, unit)
  }

  /** Output bit k of a demapped stream: bit k % bps of symbol k / bps. */
  function DemappedBit(o: Order, syms: seq<Complex>, unit: real, k: int): int
    requires 0 <= k && k / Bps(o) < |syms|
  {
    Decide(o, syms[k / Bps(o)], unit)[k % Bps(o)]
  }

  /** Symbol idx decides exactly the bits bps*idx .. bps*idx + bps - 1. */
  lemma DemappedBitOfSymbol(o: Order, syms: seq<Complex>, unit: real, idx: int, j: int)
    requires 0 <= idx < |syms| && 0 <= j < Bps(o)
    ensures (Bps(o) * idx + j) / Bps(o) == idx
    ensures DemappedBit(o, syms, unit, Bps(o) * idx + j) == Decide(o, syms[idx], unit)[j]
  {
    DivUnique(Bps(o) * idx + j, Bps(o), idx, j);
  }

  // ---------------------------------------------------------------------
  // Round trips.
  // ---------------------------------------------------------------------

  lemma ScaleOrder(a: int, c: int, unit: real)
    requires unit > 0.0
    ensures Scaled(a, unit) > Scaled(c, unit) <==> a > c
    ensures Scaled(a, unit) < Scaled(c, unit) <==> a < c
  {
    assert Scaled(a, unit) - Scaled(c, unit) == ((a - c) as real) * unit;
    if a > c {
      PositiveProduct((a - c) as real, unit);
    } else if a < c {
      PositiveProduct((c - a) as real, unit);
    }
  }

  lemma ScaleSign(l: int, unit: real)
    requires unit > 0.0
    ensures Scaled(l, unit) > 0.0 <==> l > 0
    ensures RAbs(Scaled(l, unit)) == Scaled(Abs(l), unit)
  {
    ScaleOrder(l, 0, unit);
  }

  /** Hard decisions on a scaled level, stated on the integer level alone. */
  function Qam16AxisOfLevel(l: int): seq<int>
  {
    [if l > 0 then 1 else 0, if Abs(l) > 2 then 1 else 0]
  }

  function Qam64AxisOfLevel(l: int): seq<int>
  {
    [if l > 0 then 1 else 0,
     if Abs(l) > 4 then 1 else 0,
     if 2 < Abs(l) < 6 then 0 else 1]
  }

  function Qam256AxisOfLevel(l: int): seq<int>
  {
    [if l > 0 then 1 else 0,
     if Abs(l) > 8 then 1 else 0,
     if 4 < Abs(l) < 8 || Abs(l) > 12 then 1 else 0,
     if 2 < Abs(l) < 6 || 10 < Abs(l) < 14 then 0 else 1]
  }

  /** The QAM decisions of a level do not depend on the scale. */
  lemma Qam16AxisOfScaled(l: int, unit: real)
    requires unit > 0.0
    ensures Qam16Axis(Scaled(l, unit), unit) == Qam16AxisOfLevel(l)
  {
    ScaleSign(l, unit);
    ScaleOrder(Abs(l), 2, unit);
  }

  lemma Qam64AxisOfScaled(l: int, unit: real)
    requires unit > 0.0
    ensures Qam64Axis(Scaled(l, unit), unit) == Qam64AxisOfLevel(l)
  {
    ScaleSign(l, unit);
    ScaleOrder(Abs(l), 2, unit);
    ScaleOrder(Abs(l), 4, unit);
    ScaleOrder(Abs(l), 6, unit);
  }

  lemma Qam256AxisOfScaled(l: int, unit: real)
    requires unit > 0.0
    ensures Qam256Axis(Scaled(l, unit), unit) == Qam256AxisOfLevel(l)
  {
    ScaleSign(l, unit);
    var m := Abs(l);
    ScaleOrder(m, 2, unit);
    ScaleOrder(m, 4, unit);
    ScaleOrder(m, 6, unit);
    ScaleOrder(m, 8, unit);
    ScaleOrder(m, 10, unit);
    ScaleOrder(m, 12, unit);
    ScaleOrder(m, 14, unit);
  }

  predicate IsBit(b: int)
  {
    b == 0 || b == 1
  }

  /** Axis levels are odd, non-zero, bounded by 3, 7 and 15, and decided
      back to the bits that made them. */
  lemma Qam16LevelRoundTrip(b0: int, b1: int)
    requires IsBit(b0) && IsBit(b1)
    ensures var l := Qam16Level(b0, b1);
      l % 2 == 1 && 1 <= Abs(l) <= 3 && Qam16AxisOfLevel(l) == [b0, b1]
  {
    if b0 == 0 {
      if b1 == 0 { } else { }
    } else {
      if b1 == 0 { } else { }
    }
  }

  lemma Qam64LevelRoundTrip(b0: int, b1: int, b2: int)
    requires IsBit(b0) && IsBit(b1) && IsBit(b2)
    ensures var l := Qam64Level(b0, b1, b2);
      l % 2 == 1 && 1 <= Abs(l) <= 7 && Qam64AxisOfLevel(l) == [b0, b1, b2]
  {
    var m := 4 + (2 * b1 - 1) * (2 * b2 + 1);
    if b1 == 0 {
      if b2 == 0 { assert m == 3; } else { assert m == 1; }
    } else {
      if b2 == 0 { assert m == 5; } else { assert m == 7; }
    }
    if b0 == 0 {
      assert Qam64Level(b0, b1, b2) == -m;
    } else {
      assert Qam64Level(b0, b1, b2) == m;
    }
  }

  lemma Qam256LevelRoundTrip(b0: int, b1: int, b2: int, b3: int)
    requires IsBit(b0) && IsBit(b1) && IsBit(b2) && IsBit(b3)
    ensures var l := Qam256Level(b0, b1, b2, b3);
      l % 2 == 1 && 1 <= Abs(l) <= 15 && Qam256AxisOfLevel(l) == [b0, b1, b2, b3]
  {
    var t := (2 * b2 - 1) * (2 * b3 + 1);
    if b2 == 0 {
      if b3 == 0 { assert t == -1; } else { assert t == -3; }
    } else {
      if b3 == 0 { assert t == 1; } else { assert t == 3; }
    }
    var m := 8 + 4 * (2 * b1 - 1) + t;
    if b0 == 0 {
      assert Qam256Level(b0, b1, b2, b3) == -m;
    } else {
      assert Qam256Level(b0, b1, b2, b3) == m;
    }
  }

  lemma Qam16SymbolRoundTrip(g: seq<int>, unit: real, avePow: real)
    requires |g| == 4 && DataGen.IsBits(g) && unit > 0.0
    ensures Decide(Qam16, MapSymbol(Qam16, g, unit, avePow), unit) == g
  {
    var l0, l1 := Qam16Level(g[0], g[1]), Qam16Level(g[2], g[3]);
    Qam16LevelRoundTrip(g[0], g[1]);
    Qam16LevelRoundTrip(g[2], g[3]);
    Qam16AxisOfScaled(l0, unit);
    Qam16AxisOfScaled(l1, unit);
    assert g == [g[0], g[1]] + [g[2], g[3]];
  }

  lemma Qam64SymbolRoundTrip(g: seq<int>, unit: real, avePow: real)
    requires |g| == 6 && DataGen.IsBits(g) && unit > 0.0
    ensures Decide(Qam64, MapSymbol(Qam64, g, unit, avePow), unit) == g
  {
    var l0, l1 := Qam64Level(g[0], g[1], g[2]), Qam64Level(g[3], g[4], g[5]);
    Qam64LevelRoundTrip(g[0], g[1], g[2]);
    Qam64LevelRoundTrip(g[3], g[4], g[5]);
    Qam64AxisOfScaled(l0, unit);
    Qam64AxisOfScaled(l1, unit);
    assert g == [g[0], g[1], g[2]] + [g[3], g[4], g[5]];
  }

  lemma Qam256SymbolRoundTrip(g: seq<int>, unit: real, avePow: real)
    requires |g| == 8 && DataGen.IsBits(g) && unit > 0.0
    ensures Decide(Qam256, MapSymbol(Qam256, g, unit, avePow), unit) == g
  {
    var l0, l1 := Qam256Level(g[0], g[1], g[2], g[3]), Qam256Level(g[4], g[5], g[6], g[7]);
    Qam256LevelRoundTrip(g[0], g[1], g[2], g[3]);
    Qam256LevelRoundTrip(g[4], g[5], g[6], g[7]);
    Qam256AxisOfScaled(l0, unit);
    Qam256AxisOfScaled(l1, unit);
    assert g == [g[0], g[1], g[2], g[3]] + [g[4], g[5], g[6], g[7]];
  }

  /** QAM round trip for one symbol, at any positive scale. */
  lemma QamSymbolRoundTrip(o: Order, g: seq<int>, unit: real, avePow: real)
    requires IsQam(o) && |g| == Bps(o) && DataGen.IsBits(g)
    requires unit > 0.0
    ensures Decide(o, MapSymbol(o, g, unit, avePow), unit) == g
  {
    if o == Qam16 {
      Qam16SymbolRoundTrip(g, unit, avePow);
    } else if o == Qam64 {
      Qam64SymbolRoundTrip(g, unit, avePow);
    } else {
      Qam256SymbolRoundTrip(g, unit, avePow);
    }
  }

  /** Bpsk round trip: the bit comes back exactly when the power is
      positive (or it is zero and the bit is 0, whose symbol is +0). */
  lemma BpskSymbolRoundTrip(b: int, avePow: real, unit: real)
    requires IsBit(b)
    ensures Decide(Bpsk, MapSymbol(Bpsk, [b], unit, avePow), unit) == [b]
        <==> avePow > 0.0 || (avePow == 0.0 && b == 0)
  {
  }

  /** 8-PSK round trip over the table: the two sign tests and the sign of
      (re + im) * (im - re) recover the three bits. */
  lemma Psk8SymbolRoundTrip(g: seq<int>, unit: real, avePow: real)
    requires |g| == 3 && DataGen.IsBits(g)
    ensures 0 <= Psk8Index(g) < 8
    ensures Decide(Psk8, MapSymbol(Psk8, g, unit, avePow), unit) == g
  {
    assert g == [g[0], g[1], g[2]];
  }

  /** The PSK decisions look at directions only: scaling a symbol by a
      positive factor leaves its bits unchanged. */
  lemma PskDecisionIgnoresScale(o: Order, z: Complex, s: real, unit: real)
    requires o == Bpsk || o == Qpsk || o == Psk8
    requires s > 0.0
    ensures Decide(o, Complex(s * z.re, s * z.im), unit) == Decide(o, z, unit)
  {
    var p := (z.re + z.im) * (-z.re + z.im);
    assert (s * z.re + s * z.im) * (-(s * z.re) + s * z.im) == (p * s) * s;
    RealScale(0.0, p, s);
    RealScale(0.0, p * s, s);
    RealScale(0.0, z.re, s);
    RealScale(z.re, 0.0, s);
    RealScale(0.0, z.im, s);
    RealScale(z.im, 0.0, s);
  }

  /** The symbols mapped from the first n groups of bits. */
  function MappedSymbols(o: Order, bits: seq<int>, n: int, unit: real, avePow: real): (syms: seq<Complex>)
    requires IsQam(o) || IsMappedPsk(o)
    requires 0 <= n <= |bits| / Bps(o)
    requires o == Psk8 ==> Psk8Indexable(bits, n)
    ensures |syms| == n
    ensures forall i :: 0 <= i < n ==> syms[i] == MappedSymbol(o, bits, i, unit, avePow)
  {
    seq(n, i requires 0 <= i < n => MappedSymbol(o, bits, i, unit, avePow))
  }

  /** Map then demap gives back every bit of the first n symbols, for QAM
      at a positive scale, BPSK at a positive power, and 8-PSK. */
  lemma MapThenDemap(o: Order, bits: seq<int>, n: int, unit: real, avePow: real, k: int)
    requires IsQam(o) || IsMappedPsk(o)
    requires 0 <= n <= |bits| / Bps(o)
    requires DataGen.IsBits(bits)
    requires IsQam(o) ==> unit > 0.0
    requires o == Bpsk ==> avePow > 0.0
    requires 0 <= k && k / Bps(o) < n
    ensures o == Psk8 ==> Psk8Indexable(bits, n)
    ensures DemappedBit(o, MappedSymbols(o, bits, n, unit, avePow), unit, k) == bits[k]
  {
    if o == Psk8 {
      Psk8GroupsIndexable(bits, n);
    }
    var b := Bps(o);
    DivMod(k, b);
    var g := Group(bits, b, k / b);
    assert g[k % b] == bits[k];
    SymbolRoundTrip(o, g, unit, avePow);
  }

  /** Every 8-PSK group of bits indexes the table. */
  lemma Psk8GroupsIndexable(bits: seq<int>, n: int)
    requires 0 <= n <= |bits| / 3 && DataGen.IsBits(bits)
    ensures Psk8Indexable(bits, n)
  {
    forall i | 0 <= i < n
      ensures 0 <= Psk8Index(Group(bits, 3, i)) < 8
    {
      Psk8SymbolRoundTrip(Group(bits, 3, i), 0.0, 0.0);
    }
  }

  /** The one-symbol round trip of every mapped order. */
  lemma SymbolRoundTrip(o: Order, g: seq<int>, unit: real, avePow: real)
    requires IsQam(o) || IsMappedPsk(o)
    requires |g| == Bps(o) && DataGen.IsBits(g)
    requires IsQam(o) ==> unit > 0.0
    requires o == Bpsk ==> avePow > 0.0
    ensures (o == Psk8 ==> 0 <= Psk8Index(g) < 8) && Decide(o, MapSymbol(o, g, unit, avePow), unit) == g
  {
    if IsQam(o) {
      QamSymbolRoundTrip(o, g, unit, avePow);
    } else if o == Bpsk {
      assert g == [g[0]];
      BpskSymbolRoundTrip(g[0], avePow, unit);
    } else {
      Psk8SymbolRoundTrip(g, unit, avePow);
    }
  }

  // ---------------------------------------------------------------------
  // The mappers.
  // ---------------------------------------------------------------------

  method MapBpsk(symVec: array<Complex>, symLen: int, bits: seq<int>, avePow: real)
    requires symLen <= symVec.Length && symLen <= |bits|
    modifies symVec
    ensures forall j :: 0 <= j < symVec.Length ==>
      symVec[j] == if j < symLen then MappedSymbol(Bpsk, bits, j, 0.0, avePow) else old(symVec[j])
  {
    var boost := avePow * 1.0;
    var i := 0;
    while i < symLen
      invariant 0 <= i <= if symLen < 0 then 0 else symLen
      invariant forall j :: 0 <= j < symVec.Length ==>
        symVec[j] == if j < i then MappedSymbol(Bpsk, bits, j, 0.0, avePow) else old(symVec[j])
    {
      symVec[i] := Complex(boost * ((1 - 2 * bits[i]) as real), 0.0);
      i := i + 1;
    }
  }

  method MapPsk8(symVec: array<Complex>, symLen: int, bits: seq<int>)
    requires symLen <= symVec.Length && symLen <= |bits| / 3
    requires Psk8Indexable(bits, symLen)
    modifies symVec
    ensures forall j :: 0 <= j < symVec.Length ==>
      symVec[j] == if j < symLen then MappedSymbol(Psk8, bits, j, 0.0, 0.0) else old(symVec[j])
  {
    var i := 0;
    while i < symLen
      invariant 0 <= i <= if symLen < 0 then 0 else symLen
      invariant forall j :: 0 <= j < symVec.Length ==>
        symVec[j] == if j < i then MappedSymbol(Psk8, bits, j, 0.0, 0.0) else old(symVec[j])
    {
      assert 0 <= Psk8Index(Group(bits, 3, i)) < 8;
      var symIndex := bits[3 * i] * 4 + bits[3 * i + 1] * 2 + bits[3 * i + 2];
      symVec[i] := PSK8_TABLE[symIndex];
      i := i + 1;
    }
  }

  method MapQam16(symVec: array<Complex>, symLen: int, bits: seq<int>, unit: real)
    requires symLen <= symVec.Length && symLen <= |bits| / 4
    modifies symVec
    ensures forall j :: 0 <= j < symVec.Length ==>
      symVec[j] == if j < symLen then MappedSymbol(Qam16, bits, j, unit, 0.0) else old(symVec[j])
  {
    var i := 0;
    while i < symLen
      invariant 0 <= i <= if symLen < 0 then 0 else symLen
      invariant forall j :: 0 <= j < symVec.Length ==>
        symVec[j] == if j < i then MappedSymbol(Qam16, bits, j, unit, 0.0) else old(symVec[j])
    {
      GroupFits(|bits|, 4, i);
      symVec[i] := Complex(
        (((2 * bits[4 * i] - 1) * (2 * bits[4 * i + 1] + 1)) as real) * unit,
        (((2 * bits[4 * i + 2] - 1) * (2 * bits[4 * i + 3] + 1)) as real) * unit);
      i := i + 1;
    }
  }

  method MapQam64(symVec: array<Complex>, symLen: int, bits: seq<int>, unit: real)
    requires symLen <= symVec.Length && symLen <= |bits| / 6
    modifies symVec
    ensures forall j :: 0 <= j < symVec.Length ==>
      symVec[j] == if j < symLen then MappedSymbol(Qam64, bits, j, unit, 0.0) else old(symVec[j])
  {
    var i := 0;
    while i < symLen
      invariant 0 <= i <= if symLen < 0 then 0 else symLen
      invariant forall j :: 0 <= j < symVec.Length ==>
        symVec[j] == if j < i then MappedSymbol(Qam64, bits, j, unit, 0.0) else old(symVec[j])
    {
      GroupFits(|bits|, 6, i);
      symVec[i] := Complex(
        (((2 * bits[6 * i] - 1) * (4 + (2 * bits[6 * i + 1] - 1) * (2 * bits[6 * i + 2] + 1))) as real) * unit,
        (((2 * bits[6 * i + 3] - 1) * (4 + (2 * bits[6 * i + 4] - 1) * (2 * bits[6 * i + 5] + 1))) as real) * unit);
      i := i + 1;
    }
  }

  method MapQam256(symVec: array<Complex>, symLen: int, bits: seq<int>, unit: real)
    requires symLen <= symVec.Length && symLen <= |bits| / 8
    modifies symVec
    ensures forall j :: 0 <= j < symVec.Length ==>
      symVec[j] == if j < symLen then MappedSymbol(Qam256, bits, j, unit, 0.0) else old(symVec[j])
  {
    var i := 0;
    while i < symLen
      invariant 0 <= i <= if symLen < 0 then 0 else symLen
      invariant forall j :: 0 <= j < symVec.Length ==>
        symVec[j] == if j < i then MappedSymbol(Qam256, bits, j, unit, 0.0) else old(symVec[j])
    {
      GroupFits(|bits|, 8, i);
      symVec[i] := Complex(
        (((2 * bits[8 * i] - 1) * (8 + 4 * (2 * bits[8 * i + 1] - 1)
          + (2 * bits[8 * i + 2] - 1) * (2 * bits[8 * i + 3] + 1))) as real) * unit,
        (((2 * bits[8 * i + 4] - 1) * (8 + 4 * (2 * bits[8 * i + 5] - 1)
          + (2 * bits[8 * i + 6] - 1) * (2 * bits[8 * i + 7] + 1))) as real) * unit);
      i := i + 1;
    }
  }

  /** Whether a `type` argument selects a mapped PSK branch of mapPsk. */
  predicate SelectsPsk(modulation: int)
  {
    OrderOf(modulation).Some? && IsMappedPsk(OrderOf(modulation).value)
  }

  /** Whether a `type` argument selects a branch of mapQam or QamHd. */
  predicate SelectsQam(modulation: int)
  {
    OrderOf(modulation).Some? && IsQam(OrderOf(modulation).value)
  }

  /** mapPsk: BPSK symbols avePow * (1 - 2b) on the real axis, 8-PSK
      symbols from the table; any other `type` writes nothing. */
  method MapPsk(symVec: array<Complex>, lenBit: int, bits: seq<int>, modulation: int, avePow: real)
    returns (lenSym: int, ret: int)
    requires ValidModulation(modulation) && modulation != Code(Qpsk)
    requires SelectsPsk(modulation) ==>
      SymbolCount(lenBit, modulation) <= symVec.Length &&
      SymbolCount(lenBit, modulation) <= |bits| / Bps(OrderOf(modulation).value)
    requires modulation == Code(Psk8) ==> Psk8Indexable(bits, SymbolCount(lenBit, modulation))
    modifies symVec
    ensures lenSym == SymbolCount(lenBit, modulation) && ret == 0
    ensures forall j :: 0 <= j < symVec.Length ==>
      symVec[j] == if SelectsPsk(modulation) && j < lenSym
                   then MappedSymbol(OrderOf(modulation).value, bits, j, 0.0, avePow)
                   else old(symVec[j])
  {
    lenSym := SymbolCount(lenBit, modulation);
    if modulation == Code(Bpsk) {
      MapBpsk(symVec, lenSym, bits, avePow);
    } else if modulation == Code(Psk8) {
      MapPsk8(symVec, lenSym, bits);
      forall j | 0 <= j < symVec.Length && j < lenSym
        ensures MappedSymbol(Psk8, bits, j, 0.0, 0.0) == MappedSymbol(Psk8, bits, j, 0.0, avePow)
      {
      }
    }
    ret := 0;
  }

  /** mapQam: each axis carries its level times `unit`; any other `type`
      writes nothing. avePow is accepted and unused, as in the source. */
  method MapQam(symVec: array<Complex>, lenBit: int, bits: seq<int>, modulation: int, avePow: real, unit: real)
    returns (lenSym: int, ret: int)
    requires ValidModulation(modulation)
    requires SelectsQam(modulation) ==>
      SymbolCount(lenBit, modulation) <= symVec.Length &&
      SymbolCount(lenBit, modulation) <= |bits| / Bps(OrderOf(modulation).value)
    modifies symVec
    ensures lenSym == SymbolCount(lenBit, modulation) && ret == 0
    ensures forall j :: 0 <= j < symVec.Length ==>
      symVec[j] == if SelectsQam(modulation) && j < lenSym
                   then MappedSymbol(OrderOf(modulation).value, bits, j, unit, avePow)
                   else old(symVec[j])
  {
    lenSym := SymbolCount(lenBit, modulation);
    if modulation == Code(Qam16) {
      MapQam16(symVec, lenSym, bits, unit);
    } else if modulation == Code(Qam64) {
      MapQam64(symVec, lenSym, bits, unit);
    } else if modulation == Code(Qam256) {
      MapQam256(symVec, lenSym, bits, unit);
    }
    if SelectsQam(modulation) {
      var o := OrderOf(modulation).value;
      forall j | 0 <= j < symVec.Length && j < lenSym
        ensures MappedSymbol(o, bits, j, unit, 0.0) == MappedSymbol(o, bits, j, unit, avePow)
      {
      }
    }
    ret := 0;
  }

  // ---------------------------------------------------------------------
  // The demappers.
  // ---------------------------------------------------------------------

  /** From symbol-wise to bit-wise: when the first n symbols' decisions
      sit at bps*i + j and the rest of the stream is untouched, every bit k
      is the decision of symbol k / bps, or the original value past the
      n-th symbol. */
  lemma GroupsToBits(o: Order, b: int, a: seq<int>, orig: seq<int>, syms: seq<Complex>, unit: real, n: int)
    requires b == Bps(o)
    requires |a| == |orig| && 0 <= n <= |syms|
    requires forall i, j :: 0 <= i < n && 0 <= j < b && b * i + j < |a| ==>
      a[b * i + j] == Decide(o, syms[i], unit)[j]
    requires forall k :: b * n <= k < |a| ==> a[k] == orig[k]
    ensures forall k :: 0 <= k < |a| ==>
      a[k] == if k / b < n then DemappedBit(o, syms, unit, k) else orig[k]
  {
    forall k | 0 <= k < |a|
      ensures a[k] == if k / b < n then DemappedBit(o, syms, unit, k) else orig[k]
    {
      DivBelow(k, b, n);
      if k / b < n {
        DivMod(k, b);
        GroupBit(o, a, syms, unit, k / b, k % b);
      }
    }
  }

  lemma GroupBit(o: Order, a: seq<int>, syms: seq<Complex>, unit: real, i: int, j: int)
    requires 0 <= i < |syms| && 0 <= j < Bps(o) && Bps(o) * i + j < |a|
    requires a[Bps(o) * i + j] == Decide(o, syms[i], unit)[j]
    ensures a[Bps(o) * i + j] == DemappedBit(o, syms, unit, Bps(o) * i + j)
  {
    DemappedBitOfSymbol(o, syms, unit, i, j);
  }

  /** Bit k lies before symbol n exactly when k < bps * n. */
  lemma DivBelow(k: int, b: int, n: int)
    requires 0 <= k && b >= 1
    ensures k / b < n <==> k < b * n
  {
    DivMod(k, b);
    var q := k / b;
    if q < n {
      MulAtLeast2(b, n, q + 1);
    } else {
      MulAtLeast2(b, q, n);
    }
  }

  lemma MulAtLeast2(b: int, x: int, y: int)
    requires b >= 1 && x >= y
    ensures b * x >= b * y
  {
    assert b * x - b * y == b * (x - y);
  }

  method DemapBpsk(bitStream: array<int>, lenSym: int, symVec: seq<Complex>)
    requires lenSym <= |symVec| && lenSym <= bitStream.Length
    modifies bitStream
    ensures forall k :: 0 <= k < bitStream.Length ==>
      bitStream[k] == if k < lenSym then DemappedBit(Bpsk, symVec, 0.0, k) else old(bitStream[k])
  {
    var idx := 0;
    while idx < lenSym
      invariant 0 <= idx <= if lenSym < 0 then 0 else lenSym
      invariant forall k :: 0 <= k < bitStream.Length ==>
        bitStream[k] == if k < idx then DemappedBit(Bpsk, symVec, 0.0, k) else old(bitStream[k])
    {
      bitStream[idx] := if symVec[idx].re < 0.0 then 1 else 0;
      idx := idx + 1;
    }
  }

  method DemapQpsk(bitStream: array<int>, lenSym: int, symVec: seq<Complex>)
    requires lenSym <= |symVec| && 2 * lenSym <= bitStream.Length
    modifies bitStream
    ensures forall k :: 0 <= k < bitStream.Length ==>
      bitStream[k] == if k / 2 < lenSym then DemappedBit(Qpsk, symVec, 0.0, k) else old(bitStream[k])
  {
    var idx := 0;
    while idx < lenSym
      invariant 0 <= idx <= if lenSym < 0 then 0 else lenSym
      invariant forall k :: 0 <= k < bitStream.Length ==>
        bitStream[k] == if k / 2 < idx then DemappedBit(Qpsk, symVec, 0.0, k) else old(bitStream[k])
    {
      bitStream[2 * idx] := if symVec[idx].re < 0.0 then 1 else 0;
      bitStream[2 * idx + 1] := if symVec[idx].im < 0.0 then 1 else 0;
      idx := idx + 1;
    }
  }

  method DemapPsk8(bitStream: array<int>, lenSym: int, symVec: seq<Complex>)
    requires lenSym <= |symVec| && 3 * lenSym <= bitStream.Length
    modifies bitStream
    ensures forall k :: 0 <= k < bitStream.Length ==>
      bitStream[k] == if k / 3 < lenSym then DemappedBit(Psk8, symVec, 0.0, k) else old(bitStream[k])
  {
    var idx := 0;
    while idx < lenSym
      invariant 0 <= idx <= if lenSym < 0 then 0 else lenSym
      invariant forall k :: 0 <= k < bitStream.Length ==>
        bitStream[k] == if k / 3 < idx then DemappedBit(Psk8, symVec, 0.0, k) else old(bitStream[k])
    {
      var s := symVec[idx];
      bitStream[3 * idx] := if s.re > 0.0 then 0 else 1;
      bitStream[3 * idx + 1] := if s.im > 0.0 then 0 else 1;
      bitStream[3 * idx + 2] := if (s.re + s.im) * (-s.re + s.im) > 0.0 then 0 else 1;
      idx := idx + 1;
    }
  }

  /** The two Qam16 decisions of one axis x, written at pos and pos + 1. */
  method WriteQam16Axis(bitStream: array<int>, pos: int, x: real, unit: real)
    requires 0 <= pos && pos + 2 <= bitStream.Length
    modifies bitStream
    ensures forall k :: 0 <= k < bitStream.Length && !(pos <= k < pos + 2) ==> bitStream[k] == old(bitStream[k])
    ensures forall j :: 0 <= j < 2 ==> bitStream[pos + j] == Qam16Axis(x, unit)[j]
  {
    bitStream[pos] := if x > 0.0 then 1 else 0;
    bitStream[pos + 1] := if RAbs(x) > 2.0 * unit then 1 else 0;
  }

  method DemapQam16(bitStream: array<int>, lenSym: int, symVec: seq<Complex>, unit: real)
    requires lenSym <= |symVec| && 4 * lenSym <= bitStream.Length
    modifies bitStream
    ensures forall k :: 0 <= k < bitStream.Length ==>
      bitStream[k] == if k / 4 < lenSym then DemappedBit(Qam16, symVec, unit, k) else old(bitStream[k])
  {
    var idx := 0;
    while idx < lenSym
      invariant 0 <= idx <= if lenSym < 0 then 0 else lenSym
      invariant forall i, j :: 0 <= i < idx && 0 <= j < 4 ==>
        bitStream[4 * i + j] == Decide(Qam16, symVec[i], unit)[j]
      invariant forall k :: 4 * idx <= k < bitStream.Length ==> bitStream[k] == old(bitStream[k])
    {
      var s := symVec[idx];
      WriteQam16Axis(bitStream, 4 * idx, s.re, unit);
      WriteQam16Axis(bitStream, 4 * idx + 2, s.im, unit);
      forall j | 0 <= j < 4
        ensures bitStream[4 * idx + j] == Decide(Qam16, s, unit)[j]
      {
        if j >= 2 {
          assert bitStream[(4 * idx + 2) + (j - 2)] == Qam16Axis(s.im, unit)[j - 2];
        }
      }
      idx := idx + 1;
    }
    GroupsToBits(Qam16, 4, bitStream[..], old(bitStream[..]), symVec, unit, idx);
  }

  /** The three Qam64 decisions of one axis x, written at pos .. pos + 2. */
  method WriteQam64Axis(bitStream: array<int>, pos: int, x: real, unit: real)
    requires 0 <= pos && pos + 3 <= bitStream.Length
    modifies bitStream
    ensures forall k :: 0 <= k < bitStream.Length && !(pos <= k < pos + 3) ==> bitStream[k] == old(bitStream[k])
    ensures forall j :: 0 <= j < 3 ==> bitStream[pos + j] == Qam64Axis(x, unit)[j]
  {
    var m := RAbs(x);
    bitStream[pos] := if x > 0.0 then 1 else 0;
    bitStream[pos + 1] := if m > 4.0 * unit then 1 else 0;
    bitStream[pos + 2] := if m > 2.0 * unit && m < 6.0 * unit then 0 else 1;
  }

  /** The six Qam64 decisions of symbol idx, as one loop iteration writes
      them: the real axis first, then the imaginary axis. */
  method WriteQam64(bitStream: array<int>, idx: int, s: Complex, unit: real)
    requires 0 <= idx && 6 * idx + 6 <= bitStream.Length
    modifies bitStream
    ensures forall k :: 0 <= k < bitStream.Length && !(6 * idx <= k < 6 * idx + 6) ==>
      bitStream[k] == old(bitStream[k])
    ensures forall j :: 0 <= j < 6 ==> bitStream[6 * idx + j] == Decide(Qam64, s, unit)[j]
  {
    WriteQam64Axis(bitStream, 6 * idx, s.re, unit);
    WriteQam64Axis(bitStream, 6 * idx + 3, s.im, unit);
    forall j | 0 <= j < 6
      ensures bitStream[6 * idx + j] == Decide(Qam64, s, unit)[j]
    {
      if j >= 3 {
        assert bitStream[(6 * idx + 3) + (j - 3)] == Qam64Axis(s.im, unit)[j - 3];
      }
    }
  }

  method DemapQam64(bitStream: array<int>, lenSym: int, symVec: seq<Complex>, unit: real)
    requires lenSym <= |symVec| && 6 * lenSym <= bitStream.Length
    modifies bitStream
    ensures forall k :: 0 <= k < bitStream.Length ==>
      bitStream[k] == if k / 6 < lenSym then DemappedBit(Qam64, symVec, unit, k) else old(bitStream[k])
  {
    var idx := 0;
    while idx < lenSym
      invariant 0 <= idx <= if lenSym < 0 then 0 else lenSym
      invariant forall i, j :: 0 <= i < idx && 0 <= j < 6 ==>
        bitStream[6 * i + j] == Decide(Qam64, symVec[i], unit)[j]
      invariant forall k :: 6 * idx <= k < bitStream.Length ==> bitStream[k] == old(bitStream[k])
    {
      WriteQam64(bitStream, idx, symVec[idx], unit);
      idx := idx + 1;
    }
    GroupsToBits(Qam64, 6, bitStream[..], old(bitStream[..]), symVec, unit, idx);
  }

  /** The four Qam256 decisions of one axis x, written at pos .. pos + 3. */
  method WriteQam256Axis(bitStream: array<int>, pos: int, x: real, unit: real)
    requires 0 <= pos && pos + 4 <= bitStream.Length
    modifies bitStream
    ensures forall k :: 0 <= k < bitStream.Length && !(pos <= k < pos + 4) ==> bitStream[k] == old(bitStream[k])
    ensures forall j :: 0 <= j < 4 ==> bitStream[pos + j] == Qam256Axis(x, unit)[j]
  {
    var m := RAbs(x);
    bitStream[pos] := if x > 0.0 then 1 else 0;
    bitStream[pos + 1] := if m > 8.0 * unit then 1 else 0;
    bitStream[pos + 2] := if (m > 4.0 * unit && m < 8.0 * unit) || m > 12.0 * unit then 1 else 0;
    bitStream[pos + 3] :=
      if (m > 2.0 * unit && m < 6.0 * unit) || (m > 10.0 * unit && m < 14.0 * unit) then 0 else 1;
  }

  /** The eight Qam256 decisions of symbol idx, as one loop iteration
      writes them: the real axis first, then the imaginary axis. */
  method WriteQam256(bitStream: array<int>, idx: int, s: Complex, unit: real)
    requires 0 <= idx && 8 * idx + 8 <= bitStream.Length
    modifies bitStream
    ensures forall k :: 0 <= k < bitStream.Length && !(8 * idx <= k < 8 * idx + 8) ==>
      bitStream[k] == old(bitStream[k])
    ensures forall j :: 0 <= j < 8 ==> bitStream[8 * idx + j] == Decide(Qam256, s, unit)[j]
  {
    WriteQam256Axis(bitStream, 8 * idx, s.re, unit);
    WriteQam256Axis(bitStream, 8 * idx + 4, s.im, unit);
    forall j | 0 <= j < 8
      ensures bitStream[8 * idx + j] == Decide(Qam256, s, unit)[j]
    {
      if j >= 4 {
        assert bitStream[(8 * idx + 4) + (j - 4)] == Qam256Axis(s.im, unit)[j - 4];
      }
    }
  }

  method DemapQam256(bitStream: array<int>, lenSym: int, symVec: seq<Complex>, unit: real)
    requires lenSym <= |symVec| && 8 * lenSym <= bitStream.Length
    modifies bitStream
    ensures forall k :: 0 <= k < bitStream.Length ==>
      bitStream[k] == if k / 8 < lenSym then DemappedBit(Qam256, symVec, unit, k) else old(bitStream[k])
  {
    var idx := 0;
    while idx < lenSym
      invariant 0 <= idx <= if lenSym < 0 then 0 else lenSym
      invariant forall i, j :: 0 <= i < idx && 0 <= j < 8 ==>
        bitStream[8 * i + j] == Decide(Qam256, symVec[i], unit)[j]
      invariant forall k :: 8 * idx <= k < bitStream.Length ==> bitStream[k] == old(bitStream[k])
    {
      WriteQam256(bitStream, idx, symVec[idx], unit);
      idx := idx + 1;
    }
    GroupsToBits(Qam256, 8, bitStream[..], old(bitStream[..]), symVec, unit, idx);
  }

  /** QamHd: bit k is decided from symbol k / bps for the QAM orders; any
      other `type` writes nothing. The `*lenBit` out-parameter is never
      written by the source, so it is not modelled. */
  method QamHd(bitStream: array<int>, lenSym: int, symVec: seq<Complex>, modulation: int, unit: real)
    returns (ret: int)
    requires SelectsQam(modulation) ==>
      lenSym <= |symVec| && lenSym <= bitStream.Length / Bps(OrderOf(modulation).value)
    modifies bitStream
    ensures ret == 0
    ensures forall k :: 0 <= k < bitStream.Length ==>
      bitStream[k] == if SelectsQam(modulation) && k / Bps(OrderOf(modulation).value) < lenSym
                      then DemappedBit(OrderOf(modulation).value, symVec, unit, k)
                      else old(bitStream[k])
  {
    if modulation == Code(Qam16) {
      DemapQam16(bitStream, lenSym, symVec, unit);
    } else if modulation == Code(Qam64) {
      DemapQam64(bitStream, lenSym, symVec, unit);
    } else if modulation == Code(Qam256) {
      DemapQam256(bitStream, lenSym, symVec, unit);
    }
    ret := 0;
  }

  /** PskHd: BPSK, QPSK and 8-PSK decisions, and for the QAM orders the
      same decisions as QamHd; any other `type` writes nothing. */
  method PskHd(bitStream: array<int>, lenSym: int, symVec: seq<Complex>, modulation: int, unit: real)
    returns (ret: int)
    requires OrderOf(modulation).Some? ==>
      lenSym <= |symVec| && lenSym <= bitStream.Length / Bps(OrderOf(modulation).value)
    modifies bitStream
    ensures ret == 0
    ensures forall k :: 0 <= k < bitStream.Length ==>
      bitStream[k] == if OrderOf(modulation).Some? && k / Bps(OrderOf(modulation).value) < lenSym
                      then DemappedBit(OrderOf(modulation).value, symVec, unit, k)
                      else old(bitStream[k])
  {
    if modulation == Code(Bpsk) {
      DemapBpsk(bitStream, lenSym, symVec);
      forall k | 0 <= k < bitStream.Length && k < lenSym
        ensures DemappedBit(Bpsk, symVec, 0.0, k) == DemappedBit(Bpsk, symVec, unit, k)
      {
      }
    } else if modulation == Code(Qpsk) {
      DemapQpsk(bitStream, lenSym, symVec);
      forall k | 0 <= k < bitStream.Length && k / 2 < lenSym
        ensures DemappedBit(Qpsk, symVec, 0.0, k) == DemappedBit(Qpsk, symVec, unit, k)
      {
      }
    } else if modulation == Code(Psk8) {
      DemapPsk8(bitStream, lenSym, symVec);
      forall k | 0 <= k < bitStream.Length && k / 3 < lenSym
        ensures DemappedBit(Psk8, symVec, 0.0, k) == DemappedBit(Psk8, symVec, unit, k)
      {
      }
    } else if modulation == Code(Qam16) {
      DemapQam16(bitStream, lenSym, symVec, unit);
    } else if modulation == Code(Qam64) {
      DemapQam64(bitStream, lenSym, symVec, unit);
    } else if modulation == Code(Qam256) {
      DemapQam256(bitStream, lenSym, symVec, unit);
    }
    ret := 0;
  }
}
