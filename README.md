# comSim signal-processing core in Dafny

This project models the signal-processing helpers of the comSim communications
link simulator and proves what they compute. The model covers these headers:

- **Correlation engine** (`comMath.h`): `xcorr_range` and `xcorr_rangeComp` fill
  an output buffer position by position. Each uses three overlap regimes that
  depend on which input is longer, and each stops early when a value crosses an
  enabled threshold. `xcorr`, `autocorr_range` and `autocorr` are the wrappers.
  The model proves:
  - every written position equals the textbook bounded cross-correlation,
    except in one falling-edge branch (see Findings);
  - the return value is the first stopping position, or 0;
  - exactly the positions up to and including the stop are written.
- **Complex record and integer helpers** (`comSim_types.h`, `comMath.h`):
  - the complex operations `conjComp`, `genComp`, `addComp`, `mulComp` and
    `absSqrComp`;
  - the bit-error counter `xorInt`;
  - the `GRAY_MAPPING` table, proved to be the reflected Gray code.
- **Sample-rate conversion and convolution** (`fir.h`):
  - `upSamp` is zero stuffing;
  - `downSamp` is decimation, and it undoes `upSamp`;
  - `conv` reverses the taps and pads the input, and its double loop is proved
    to be the linear convolution.
- **Oscillator** (`nco.h`): the file-scope `phaseAcc` is a field of class
  `Oscillator.Nco`. `nco_complex` writes one table-driven sine/cosine pair per
  sample and advances the accumulator modulo 2^32. The model proves:
  - the closed form of the phase after n samples;
  - the quadrant symmetries of the table lookups.
- **Fixed point** (`fixedpoint.h`): the saturating `fxpAdd`, `fxpSub`, `fxpMul`,
  `fxpDiv` and `fxpRec`, over 32-bit words. Also the `ONE`, `MAX_SFXP`,
  `MIN_SFXP`, `GET_SIGN` and `RANGECHECK` macros, and the field split
  `fxp2strFxp`.
- **Bit packing** (`dataGen.h`): `biA2decA` packs groups of M bits into
  integers, most significant bit first. The model proves the round trip against
  an unpacking function.
- **Symbol mapping** (`symMapper.h`):
  - `mapPsk` and `mapQam` map bits to BPSK, 8-PSK and 16/64/256-QAM symbols;
  - `PskHd` and `QamHd` make the hard decisions;
  - map then demap gives back every bit.

C integer semantics live in module `CInt`:
- `/` and `%` truncate toward zero;
- 32-bit wrap-around is written out where the code narrows a value;
- bitwise and is `And` on naturals.

Samples are exact `real`s, and finite sums are the ghost function `Sums.Sum`.

## Model

| member | source | states |
|---|---|---|
| ComplexArith.Conj | src/include/comMath.h:57-64 | the real part is kept and the imaginary part is negated |
| ComplexArith.GenOfParts | src/include/comMath.h:66-73 | building a record from the two components of a value gives that value back |
| ComplexArith.AddCommutes | src/include/comMath.h:100-103 | the sum is commutative |
| ComplexArith.AddAssociates | src/include/comMath.h:100-103 | the sum is associative |
| ComplexArith.AddZero | src/include/comMath.h:100-103 | genComp(0, 0) is the identity of the sum on both sides |
| ComplexArith.ConjOfAdd | src/include/comMath.h:57-103 | the conjugate of a sum is the sum of the conjugates |
| ComplexArith.Mul | src/include/comMath.h:90-98 | on two reals it is the real product, 1 is its identity and 0 absorbs it |
| ComplexArith.MulDistributesOverAdd | src/include/comMath.h:90-103 | the product distributes over the sum |
| ComplexArith.MulConjSwap | src/include/comMath.h:57-98 | a times conj(b) is the conjugate of b times conj(a) |
| ComplexArith.AbsSqr | src/include/comMath.h:80-83 | the squared magnitude is never negative |
| ComplexArith.AbsExceedsIsMagnitudeTest | src/include/comMath.h:75-78 | comparing squares is exactly `absComp(z) > m` for any non-negative root of the squared magnitude, negative bounds included |
| ComplexArith.ConjInvolutive | src/include/comMath.h:57-64 | conjugating twice is the identity |
| ComplexArith.MulCommutes | src/include/comMath.h:90-98 | the product is commutative |
| ComplexArith.ConjOfMul | src/include/comMath.h:57-98 | the conjugate of a product is the product of the conjugates |
| ComplexArith.MulConjIsAbsSqr | src/include/comMath.h:80-98 | z times conj(z) is the real number absSqrComp(z) |
| ComplexArith.AbsSqrOfMul | src/include/comMath.h:80-98 | the squared magnitude is multiplicative |
| ComMathInt.XorInt | src/include/comMath.h:43-52 | the count is the number of positions below len where the inputs differ |
| ComMathInt.MismatchesIsDiffSetSize | src/include/comMath.h:43-52 | the count equals the size of the set of differing positions |
| ComMathInt.MismatchesBounded | src/include/comMath.h:43-52 | the count lies between 0 and len, and is 0 for a negative len |
| ComMathInt.MismatchesZeroIffEqual | src/include/comMath.h:43-52 | the count is zero exactly when the two prefixes are equal |
| ComMathInt.MismatchesSymmetric | src/include/comMath.h:43-52 | swapping the inputs leaves the count unchanged |
| ComMathInt.GrayIsXorShift | src/include/comMath.h:36 | entry i of the table is i XOR (i >> 1) |
| ComMathInt.GrayAdjacentOneBit | src/include/comMath.h:36 | neighbouring entries differ in exactly one bit |
| ComMathInt.GrayIsPermutation | src/include/comMath.h:36 | the table holds each of 0..15 exactly once |
| Correlation.WindowInBounds | src/include/comMath.h:168-198 | every array read of the six window loops is in bounds |
| Correlation.WindowIsCorrelation | src/include/comMath.h:168-198 | except in the buggy falling edge, a window loop's sum equals the textbook sum over the whole reference, for any term function that vanishes outside both signals |
| Correlation.CodeValueIsCorrelation | src/include/comMath.h:160-198 | the value the code stores at position k is the cross-correlation at k, except in the falling edge of the `len_rev >= len_local` branch with `len_rev < k < len_out` |
| Correlation.PaddingIsZero | src/include/comMath.h:162-166 | positions past the natural length hold zero, and so does the textbook sum there |
| Correlation.CorrSumSwap | src/include/comMath.h:136-207 | swapping the two signals mirrors the correlation about the natural length |
| Correlation.CrossCorrelationExample | src/include/comMath.h:136-207 | xcorr_range of [1, 2, 3] against [1, 1] stores 1, 3, 5, 3, and these are the cross-correlation values |
| Correlation.AutocorrSymmetric | src/include/comMath.h:254-263 | the textbook autocorrelation CorrSum(s, s, ·) is a palindrome about position \|s\| - 1; the values autocorr_range stores differ from it past the centre (see Findings) |
| Correlation.AutocorrCenterIsEnergy | src/include/comMath.h:254-263 | the centre tap of the autocorrelation is the signal's non-negative energy |
| Correlation.FirstStopIsFirst | src/include/comMath.h:200-203 | a found stop lies in range, stops, and no earlier position stops |
| Correlation.FirstStopNone | src/include/comMath.h:200-206 | no stop is found exactly when no position in range stops |
| Correlation.DisabledNeverStops | src/include/comMath.h:32-33 | with both sentinels, the real engine never stops early |
| Correlation.WindowSumLongRev | src/include/comMath.h:168-182 | the three loops of the `len_rev >= len_local` branch accumulate the stored value for the position |
| Correlation.WindowSumLongLocal | src/include/comMath.h:183-198 | the three loops of the `len_rev < len_local` branch accumulate the stored value for the position |
| Correlation.LongLocalRise | src/include/comMath.h:184-187 | the rising-edge loop sums the k + 1 window terms |
| Correlation.LongLocalFall | src/include/comMath.h:188-191 | the falling-edge loop sums the len_out - k window terms |
| Correlation.LongLocalPlateau | src/include/comMath.h:192-197 | the plateau loop sums len_rev window terms |
| Correlation.WindowSum | src/include/comMath.h:164-198 | the inner loops for one position yield the value the code stores there |
| Correlation.XcorrRange | src/include/comMath.h:136-207 | returns the first position that crosses an enabled bound, or 0; slots up to and including the stop hold the stored value, and every other slot is unchanged |
| Correlation.Xcorr | src/include/comMath.h:230-239 | always returns 0, fills all len_output slots and leaves the rest untouched |
| Correlation.AutocorrRange | src/include/comMath.h:254-263 | xcorr_range of the signal against itself, with the same stop rule and the same written prefix |
| Correlation.Autocorr | src/include/comMath.h:278-284 | returns 0 and fills len_output slots with the signal's autocorrelation values |
| Correlation.ConjAll | src/include/comMath.h:317-320 | the copy has the same length and holds conj(local[i]) at every i |
| Correlation.ConjAllInvolutive | src/include/comMath.h:317-320 | conjugating the copy again gives the signal back |
| Correlation.ConjugateCopy | src/include/comMath.h:317-320 | the fresh scratch buffer holds the conjugated local signal |
| Correlation.CodeValueCompIsCorrelation | src/include/comMath.h:329-367 | the complex engine's value is the complex correlation sum of rev[i] and conj(local[...]) wherever the real engine's is the real one |
| Correlation.WindowSumComp | src/include/comMath.h:329-367 | the complex inner loops for one position yield the stored complex value |
| Correlation.WindowSumCompLongRev | src/include/comMath.h:329-349 | the three complex loops of the `len_rev >= len_local` branch |
| Correlation.WindowSumCompLongLocal | src/include/comMath.h:350-367 | the three complex loops of the `len_rev < len_local` branch |
| Correlation.CorrSumCompSwap | src/include/comMath.h:293-380 | swapping the two signals of the complex correlation mirrors it about the natural length and conjugates it |
| Correlation.CodeValueCompSwap | src/include/comMath.h:329-367 | the values xcorr_rangeComp stores obey the same conjugate mirror wherever both calls store the correlation |
| Correlation.StoreComp | src/include/comMath.h:325-371 | one pass of the outer loop: the slot holds the stored value, no other slot changes, and the result is the stop test at that position |
| Correlation.XcorrRangeComp | src/include/comMath.h:293-380 | returns the first position whose magnitude exceeds an enabled upper bound, or 0; there is no lower bound; slots up to and including the stop hold the stored value, and the rest are unchanged |
| Correlation.FallingEdgeCounterexample | src/include/comMath.h:173-177 | for [1,-1,1] against itself, position 4 stores -1 where the correlation is 1 |
| Correlation.CorrectedIsCorrelation | src/include/comMath.h:168-198 | with the falling-edge index corrected, every position is the cross-correlation |
| Fir.UpSamp | src/include/fir.h:172-185 | returns 0; slot i below len_out holds x[i / rate] when rate divides i, else 0; other slots are unchanged |
| Fir.UpSampleKeepsSamples | src/include/fir.h:177-178 | slot j * rate of the output is x[j] |
| Fir.UpSampleZeroStuffs | src/include/fir.h:179-180 | slots between the multiples of rate are zero |
| Fir.DownSamp | src/include/fir.h:187-198 | returns 0; y[j] is x[offset + j * rate] where that input exists; other slots are unchanged |
| Fir.DownUndoesUp | src/include/fir.h:172-198 | decimating by rate at offset 0 after up-sampling by rate gives back x[j] |
| Fir.ReverseTaps | src/include/fir.h:235-237 | the buffer holds h reversed |
| Fir.PadInput | src/include/fir.h:239-243 | the buffer holds x framed by len_h - 1 zeros on each side |
| Fir.MacIsConvolution | src/include/fir.h:235-249 | the multiply-accumulate over the padded input and reversed taps equals the textbook sum of h[t] x[k - t] |
| Fir.MultiplyAccumulate | src/include/fir.h:247-249 | y[idx] gains the multiply-accumulate sum for each idx below n; other slots are unchanged |
| Fir.Conv | src/include/fir.h:216-261 | a too-short output returns -1 and leaves y unchanged; otherwise it returns 0 and adds (h * x)[k] to each y[k] below len_x + len_h - 1 |
| Fir.ConvOverlap | src/include/fir.h:247-249 | only the overlapping taps contribute to the convolution |
| Fir.ConvCommutes | src/include/fir.h:216-261 | convolution is commutative |
| Fir.ConvImpulse | src/include/fir.h:216-261 | the unit impulse is the identity filter |
| Fir.ConvSupport | src/include/fir.h:247-249 | the convolution is zero outside its len_x + len_h - 1 positions |
| Oscillator.StageAddrSplit | src/include/nco.h:104-107 | stage, address and the 14 discarded bits rebuild the 32-bit accumulator |
| Oscillator.CosineLeadsSine | src/include/nco.h:110-141 | the cosine of a stage is the sine of the next stage |
| Oscillator.SineHalfTurn | src/include/nco.h:110-124 | half a turn negates the sine, and the quarter-turn samples are exactly 1 and -1 |
| Oscillator.PhaseAfterClosedForm | src/include/nco.h:143-146 | after n samples the accumulator is start + n * (phase_inc + offset) modulo 2^32 |
| Oscillator.AccumulateStep | src/include/nco.h:144-146 | one update with masking is one step of the modular closed form |
| Oscillator.SplitPhase | src/include/nco.h:104-107 | stage and address are the top two and the next sixteen bits of the accumulator |
| Oscillator.SelectSine | src/include/nco.h:110-124 | the branches pick the sine sample of the quadrant |
| Oscillator.SelectCosine | src/include/nco.h:127-141 | the branches pick the cosine sample of the quadrant |
| Oscillator.Accumulate | src/include/nco.h:144-146 | the accumulator advances by phase_inc and offset in unsigned 32-bit arithmetic |
| Oscillator.EmitSample | src/include/nco.h:104-141 | sample i of each output is the table value for the accumulator, and nothing else changes |
| Oscillator.Nco.constructor | src/include/nco.h:35 | the zero-initialised static accumulator |
| Oscillator.Nco.NcoComplex | src/include/nco.h:91-148 | every slot j below len_out holds the sine and cosine of the phase after j steps; the accumulator ends at the phase after len_out steps; the other slots are unchanged |
| FixedPoint.One | src/include/fixedpoint.h:39 | ONE(FL) is a positive 32-bit value |
| FixedPoint.MaxSfxp | src/include/fixedpoint.h:40 | the largest WL-bit value is non-negative and fits 32 bits |
| FixedPoint.MinSfxp | src/include/fixedpoint.h:41 | the smallest WL-bit value is -MAX_SFXP - 1 |
| FixedPoint.RangeCheck | src/include/fixedpoint.h:69-77 | the result is representable, and a representable input is kept |
| FixedPoint.RangeCheckIsNearest | src/include/fixedpoint.h:69-77 | the clamp returns the representable value nearest the input |
| FixedPoint.RangeCheckMonotone | src/include/fixedpoint.h:69-77 | clamping preserves order |
| FixedPoint.FxpAdd | src/include/fixedpoint.h:82-87 | the exact sum when it is representable, otherwise the bound it crossed |
| FixedPoint.FxpSub | src/include/fixedpoint.h:90-95 | the exact difference when it is representable, otherwise the bound it crossed |
| FixedPoint.FxpAddCommutes | src/include/fixedpoint.h:82-87 | saturating addition is commutative |
| FixedPoint.FxpSubIsAddNegated | src/include/fixedpoint.h:82-95 | subtracting is adding the negation |
| FixedPoint.FxpAddZero | src/include/fixedpoint.h:82-87 | adding zero keeps a representable value |
| FixedPoint.FxpMul | src/include/fixedpoint.h:97-107 | the result is a representable WL-bit value |
| FixedPoint.FxpMulNoWrap | src/include/fixedpoint.h:97-107 | when the shifted product fits 32 bits, the result is the clamped floor of A * B / 2^FL |
| FixedPoint.FxpMulOne | src/include/fixedpoint.h:39-107 | ONE(FL) is the multiplicative identity |
| FixedPoint.FxpDiv | src/include/fixedpoint.h:109-119 | the result is a representable WL-bit value |
| FixedPoint.FxpDivOne | src/include/fixedpoint.h:39-119 | dividing by ONE(FL) gives the value back |
| FixedPoint.DivShiftedOdd | src/include/fixedpoint.h:109-119 | the quotient truncates toward zero, so negating the dividend negates it |
| FixedPoint.FxpRec | src/include/fixedpoint.h:122-124 | the reciprocal is a representable WL-bit value |
| FixedPoint.FxpRecOfOne | src/include/fixedpoint.h:122-124 | the reciprocal of ONE(FL) is ONE(FL) |
| FixedPoint.GetSign | src/include/fixedpoint.h:47 | the sign is -1 or 1 |
| FixedPoint.GetSignIsBit | src/include/fixedpoint.h:44-47 | the sign is -1 exactly when bit WL - 1 of the 32-bit word is set |
| FixedPoint.GetSignOfInRange | src/include/fixedpoint.h:44-47 | on a representable value, the sign is -1 exactly for negatives |
| FixedPoint.FxpToStr | src/include/fixedpoint.h:127-132 | as written: the sign is ±1, the fraction lies below 2^FL and the integer field below WL - FL + 1 |
| FixedPoint.FxpToStrDropsInteger | src/include/fixedpoint.h:130 | 3.0 in Q8.8 (768, WL = 16, FL = 8) gets integer field 0, although 768 >> 8 is 3 |
| FixedPoint.FxpToStrCorrected | src/include/fixedpoint.h:127-132 | with the mask 2^(WL-FL) - 1, the fields lie below 2^(WL-FL) and 2^FL |
| FixedPoint.FxpToStrCorrectedRebuilds | src/include/fixedpoint.h:127-132 | the corrected fields rebuild the low WL bits of the word: integer * 2^FL + frac |
| DataGen.GroupsIsCeiling | src/include/dataGen.h:59 | the outer loop visits ceil(lenIn / M) groups |
| DataGen.BiA2DecA | src/include/dataGen.h:53-74 | returns 1 when M does not divide lenIn, else 0; output[k] gains group k's value for every group, except that the last, partial group's slot is set to 0 when the return is 1; the rest is unchanged |
| DataGen.PackGroups | src/include/dataGen.h:59-64 | the outer loop visits ceil(lenIn / M) groups and adds each value to its slot |
| DataGen.GroupInto | src/include/dataGen.h:60-63 | the countdown adds the group's value, most significant bit first, to one slot |
| DataGen.BitsToIntBounded | src/include/dataGen.h:60-62 | M zero-or-one bits pack into [0, 2^M) |
| DataGen.IntToBitsOfBitsToInt | src/include/dataGen.h:60-62 | unpacking a packed group gives the bits back |
| DataGen.BitsToIntOfIntToBits | src/include/dataGen.h:60-62 | packing the bits of v in [0, 2^M) gives v back |
| SymMapper.OrderOf | src/include/symMapper.h:54-61 | a selected order has the given enum value |
| SymMapper.OrderOfCode | src/include/symMapper.h:54-61 | every order is selected by its own enum value |
| SymMapper.BpsIsLog2 | src/include/symMapper.h:96-97 | the bits per symbol of every order are log2 of its enum value |
| SymMapper.SymbolCountIsTruncatedQuotient | src/include/symMapper.h:96-99 | the symbol count is lenBit / log2(type) with the fraction cut toward zero |
| SymMapper.Decide | src/include/symMapper.h:239-300 | one symbol decides exactly bps bits |
| SymMapper.DemappedBitOfSymbol | src/include/symMapper.h:240-299 | symbol idx decides exactly bits bps*idx .. bps*idx + bps - 1 |
| SymMapper.Qam16SymbolRoundTrip | src/include/symMapper.h:177-183 | deciding a mapped 16-QAM symbol gives its four bits back at any positive scale |
| SymMapper.Qam64SymbolRoundTrip | src/include/symMapper.h:184-192 | deciding a mapped 64-QAM symbol gives its six bits back at any positive scale |
| SymMapper.Qam256SymbolRoundTrip | src/include/symMapper.h:193-201 | deciding a mapped 256-QAM symbol gives its eight bits back at any positive scale |
| SymMapper.QamSymbolRoundTrip | src/include/symMapper.h:177-201 | the QAM one-symbol round trip for every QAM order |
| SymMapper.BpskSymbolRoundTrip | src/include/symMapper.h:102-108 | the BPSK bit comes back exactly when avePow is positive, or avePow is zero and the bit is 0 |
| SymMapper.Psk8SymbolRoundTrip | src/include/symMapper.h:39-46 | every 3-bit group indexes the table, and deciding the table entry gives the group back |
| SymMapper.PskDecisionIgnoresScale | src/include/symMapper.h:239-256 | the PSK decisions do not change when the symbol is scaled by a positive factor |
| SymMapper.SymbolRoundTrip | src/include/symMapper.h:102-201 | the one-symbol round trip of every mapped order |
| SymMapper.MappedSymbols | src/include/symMapper.h:104-201 | the mapped stream has one symbol per group, each mapped from its own bits |
| SymMapper.MapThenDemap | src/include/symMapper.h:84-386 | demapping the mapped stream gives back every bit of the first n symbols |
| SymMapper.MapPsk | src/include/symMapper.h:84-138 | lenSym is the truncated lenBit / log2(type), and 0 for type 0; the return is 0, the first lenSym slots hold the mapped BPSK or 8-PSK symbols, and other types write nothing |
| SymMapper.MapQam | src/include/symMapper.h:159-208 | lenSym is the truncated lenBit / log2(type), and 0 for type 0; the return is 0, the first lenSym slots hold the mapped QAM symbols, and other types write nothing |
| SymMapper.DemapBpsk | src/include/symMapper.h:239-242 | bit k is the decision of symbol k, and the rest is unchanged |
| SymMapper.DemapQpsk | src/include/symMapper.h:243-248 | bits 2k and 2k + 1 are the two decisions of symbol k, and the rest is unchanged |
| SymMapper.DemapPsk8 | src/include/symMapper.h:249-256 | bits 3k .. 3k + 2 are the decisions of symbol k, and the rest is unchanged |
| SymMapper.DemapQam16 | src/include/symMapper.h:337-344 | bits 4k .. 4k + 3 are the decisions of symbol k, and the rest is unchanged |
| SymMapper.DemapQam64 | src/include/symMapper.h:345-357 | bits 6k .. 6k + 5 are the decisions of symbol k, and the rest is unchanged |
| SymMapper.DemapQam256 | src/include/symMapper.h:358-380 | bits 8k .. 8k + 7 are the decisions of symbol k, and the rest is unchanged |
| SymMapper.QamHd | src/include/symMapper.h:326-386 | returns 0; for a QAM type, every bit of the first lenSym symbols is the decision of its symbol; other types write nothing |
| SymMapper.PskHd | src/include/symMapper.h:228-306 | returns 0; for any enum type, every bit of the first lenSym symbols is the decision of its symbol; other types write nothing |
| CInt.CDivRem | src/include/fir.h:174 | C division: a == (a / b) * b + a % b, the remainder is smaller than the divisor and carries the sign of a |
| CInt.Wrap32 | src/include/fixedpoint.h:102-103 | the narrowing cast gives a 32-bit value congruent to its input modulo 2^32 |
| CInt.AndLowMask | src/include/fixedpoint.h:45 | masking with 2^k - 1 keeps the value modulo 2^k |
| CInt.AndSingleBit | src/include/fixedpoint.h:44-47 | masking with 2^n keeps exactly bit n |

## Left out

- awgn.h: random Gaussian noise from `rand()`, `sqrt` and `log`, with hidden static state.
- `genBitSource` (dataGen.h:29-37): it draws bits from `rand()` seeded with the clock.
- File input: `getTapsFrmFile`, `fir` and `intpl_fir` (fir.h:52-169), and `load_lut` (nco.h:44-70). `Fir.Conv` takes the taps as a sequence, and `Oscillator.Nco.NcoComplex` takes the table as one.
- The float-to-fixed macros `REAL2FXP*`, `SREAL2FXP*`, `FXP2FLOAT` and `FXP2DOUBLE` (fixedpoint.h:50-66), and the `Dprintf` and `printf` diagnostics. The truncation and padding messages of `xcorr_range` are logging only.
- Floating point: samples, the complex components, the QAM scale and the PSK constants are exact reals, so IEEE rounding is not modelled.
- `absComp` uses `sqrt`. `ComplexArith.AbsExceeds` compares squared magnitudes instead, and `AbsExceedsIsMagnitudeTest` proves the two agree for any non-negative root.
- Allocation: `malloc` failure is not modelled. `xcorr_rangeComp` does not check its `malloc` (comMath.h:317). The -2 path of `conv` (fir.h:231-233, 255-258) also frees an uninitialised `buf`. The `free` calls are implicit.
- QPSK mapping (symMapper.h:109-116): it reads `bitStream` with an uninitialised index and takes the imaginary part from `psk8`, so its behaviour is undefined. `SymMapper.MapPsk` requires a type other than QPSK. QPSK demapping is modelled.
- SymMapper.MapPsk and SymMapper.MapQam: the `type` must be 0 or a power of two, at least 2. Type 0 is modelled: log2(0) is -inf, so `*lenSym` becomes 0 and the default branch writes nothing. For type 1 and negative types, `lenBit / log2(type)` is infinite or NaN. For the other types it is a rounded double whose conversion to `int` the model does not reproduce. The `*lenSym` out-parameter is returned as `lenSym`.
- SymMapper.MapQam, SymMapper.QamHd and SymMapper.PskHd: the mapper divides the levels by `sqrt(10)`, `sqrt(42)` and `sqrt(170)` (symMapper.h:180-199), and the demappers compare against the same multiples of those constants (symMapper.h:260-298, 340-380). The model writes each of these scales as one parameter `unit`, shared by the mapper and the demapper. The round trips assume `unit > 0`. `mapQam` ignores `avePow`, and so does the model.
- The PSK4 table `psk4` (symMapper.h:48-51) is used only by the QPSK mapping, which is left out.
- FixedPoint.ValidWL: WL = 32 is excluded, because `1 << 31` in `MAX_SFXP` and `MIN_SFXP` (fixedpoint.h:40-41) overflows `int`.
- Oscillator.EmitSample and Oscillator.Nco.NcoComplex: `ySine` and `yCosine` must be different arrays. The C accepts one buffer for both, and then the cosine overwrites the sine (nco.h:111-140).
- Fir.UpSamp: `rate` must be positive. For rate 0, the C divides by zero at fir.h:174 and 178. For a negative rate, `i / rate` is negative once i reaches |rate|, so `x[i/rate]` at fir.h:177-178 reads before the start of `x`.
- FixedPoint.FxpAdd and FixedPoint.FxpSub: the exact sum and difference must fit in 32 bits. `sfxp_t C = A + B` and `A - B` (fixedpoint.h:84, 92) would overflow signed `int`, which is undefined behaviour in C, so no result is modelled for those inputs.
- DataGen.BiA2DecA: the slots are unbounded integers, so overflow of `output[cnt] +=` on large prior contents is not modelled.
- DataGen.BiA2DecA: M must be 1..31. For M = 0 the loop never ends and `lenIn % M` is undefined, and `1 << 31` overflows `int`. A negative lenIn that M does not divide writes `output[-1]`, so it is excluded too.
- Fir.DownSamp: `len_in` is the length of the input sequence.
- Fir.Conv: with no taps (`len_h` = 0) and an output of at least `len_x - 1` slots, the padding loop at fir.h:242-243 writes `buf[-1]`, outside the buffer. That case is excluded by a precondition.
- Correlation.XcorrRange and Correlation.XcorrRangeComp: `rev` and `local` are sequence values, so a call whose `output` aliases one of them cannot be expressed. In C such a call reads input values that the zeroing at comMath.h:162 and 325, and the accumulation after it, have already overwritten. For `xcorr_range` either input is exposed. For `xcorr_rangeComp` only `rev` is, because `local` is read through the copy `compLocal`. `conv` is not affected, because it reads its inputs only through the copies `buf` and `inv_h`.
- Oscillator.Nco.NcoComplex: `nco_complex` is declared `int` but has no `return` (nco.h:91-148), so its result is indeterminate. The model returns nothing and states the samples and the new accumulator.
- comSim_types.h and linkSim.h only declare types and prototypes. Only the `complex` record is used.

## Findings

| source | as written | input that shows it | evidently intended | confidence | as-written member | corrected member |
|---|---|---|---|---|---|---|
| src/include/comMath.h:173-177 | in the falling edge of the `len_rev >= len_local` branch, `local` is read at `len_local - len_win - 1 + i`, which is off by `oBuff - len_rev` from the partner of `rev[len_rev - len_win + i]` | autocorrelation of [1, -1, 1] at position 4: the code stores -1, while the correlation is 1 (and the value 3 at position 2 is right) | read `local[i]`, as the mirror branch at comMath.h:191 does, so every position is the cross-correlation | not executed | Correlation.FallingEdgeCounterexample | Correlation.CorrectedIsCorrelation |
| src/include/fixedpoint.h:130 | the integer mask `(WL-FL+1)-1` is WL - FL, because `-` binds tighter than `&` and the parentheses do not build a power of two | 768 (3.0 in Q8.8, WL = 16, FL = 8): 768 >> 8 is 3, and 3 & 8 is 0, so the integer field is 0 | mask with `(1 << (WL-FL)) - 1`, so the integer and fraction fields rebuild the word | not executed | FixedPoint.FxpToStrDropsInteger | FixedPoint.FxpToStrCorrectedRebuilds |
