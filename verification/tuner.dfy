/**
  `selectFrequency` (Tuner.cpp:36-108) on the non-panadapter path: move the
  active VFO by a number of tuning steps, clamp at the 1 MHz floor, store the
  result in the VFO the split/transmit state selects, and compute the value
  handed to the synthesiser with the RIT/XIT, transverter and Fc offsets.
  `VFOA`, `sub_VFO` and the frequencies are `uint64_t`; every addition onto
  them wraps modulo 2^64, written out here with `% U64`.
 */
module Tuner {
  import opened Base

  /** The receiver's lower frequency limit `bottomFreq` in Hz. */
  const Bottom: nat := 1_000_000

  const I64Min: int := -0x8000_0000_0000_0000
  const I64Max: int := 0x7FFF_FFFF_FFFF_FFFF

  predicate IsI64(n: int) { I64Min <= n <= I64Max }
  predicate IsI16(n: int) { -0x8000 <= n < 0x8000 }

  /**
    The tuning state: `VFOA`, the band's `vfo_A_last`, the profile's
    `sub_VFO`, the band's split flag and the profile's transmit flag.
   */
  datatype TunerState = TunerState(vfoA: nat, vfoALast: nat, subVfo: nat, split: bool, xmit: bool)

  predicate Wf(st: TunerState) { st.vfoA < U64 && st.vfoALast < U64 && st.subVfo < U64 }

  /** Transmitting on the sub VFO: the only case that tunes `sub_VFO`. */
  predicate SplitTransmit(st: TunerState) { st.split && st.xmit }

  /** `rit_offset`, `xit_offset` (int16), `xvtr_offset` and `Fc` (int64). */
  datatype Offsets = Offsets(rit: int, xit: int, xvtr: int, fc: int)

  /** The offset the transmit state selects. */
  function ActiveOffset(o: Offsets, xmit: bool): int { if xmit then o.xit else o.rit }

  /**
    The types of the offsets, and the int64 subtraction `offset - xvtr_offset`
    staying defined.
   */
  predicate OffsetsWf(o: Offsets)
  {
    IsI16(o.rit) && IsI16(o.xit) && IsI64(o.xvtr) && IsI64(o.fc) &&
    IsI64(o.rit - o.xvtr) && IsI64(o.xit - o.xvtr)
  }

  /** The stored state and the frequency passed to `SetFreq`. */
  datatype Tuned = Tuned(state: TunerState, hwFreq: nat)

  /**
    The starting frequency: `sub_VFO` as is when split-transmitting, otherwise
    `VFOA` rounded down to a multiple of the step.
   */
  function BaseFrequency(st: TunerState, step: nat): (f: nat)
    requires Wf(st) && 1 <= step
    ensures f < U64
    ensures SplitTransmit(st) ==> f == st.subVfo
    ensures !SplitTransmit(st) ==> f <= st.vfoA < f + step && f == (st.vfoA / step) * step
  {
    if SplitTransmit(st) then st.subVfo else st.vfoA - st.vfoA % step
  }

  /** Any frequency at or below the floor becomes the floor. */
  function ClampBottom(f: nat): (r: nat)
    ensures r >= Bottom
    ensures f > Bottom ==> r == f
    ensures f <= Bottom ==> r == Bottom
  {
    if f <= Bottom then Bottom else f
  }

  /**
    The synthesiser value: the stored frequency plus the selected RIT or XIT
    offset, minus the transverter LO, plus Fc, each addition wrapping modulo
    2^64. When no step wraps it is the exact sum.
   */
  function HardwareFrequency(freq: nat, xmit: bool, o: Offsets): (hw: nat)
    requires freq < U64
    ensures hw < U64
    ensures (hw - (freq + ActiveOffset(o, xmit) - o.xvtr + o.fc)) % U64 == 0
    ensures 0 <= freq + ActiveOffset(o, xmit) - o.xvtr < U64 &&
            0 <= freq + ActiveOffset(o, xmit) - o.xvtr + o.fc < U64 ==>
            hw == freq + ActiveOffset(o, xmit) - o.xvtr + o.fc
  {
    var f1 := (freq + (ActiveOffset(o, xmit) - o.xvtr)) % U64;
    var hw := (f1 + o.fc) % U64;
    WrapSum(freq + ActiveOffset(o, xmit) - o.xvtr, o.fc);
    hw
  }

  /** Wrapping an intermediate sum does not change the final residue. */
  lemma WrapSum(a: int, b: int)
    ensures ((a % U64 + b) % U64 - (a + b)) % U64 == 0
  {
    var q := a / U64;
    assert a == q * U64 + a % U64;
    ModMultiple(a % U64 + b, q);
  }

  /** Adding a multiple of the modulus keeps the residue. */
  lemma ModMultiple(x: int, q: int)
    ensures ((x + q * U64) % U64) == x % U64
    ensures ((x % U64) - (x + q * U64)) % U64 == 0
  {
  }

  /** The two parameter ranges the source relies on: a non-zero step and an int64 product. */
  predicate ArgsWf(step: nat, newFreq: int)
  {
    1 <= step < 0x1_0000 && IsI64(newFreq) && IsI64(newFreq * step)
  }

  /**
    `selectFrequency` as written. The step product is added onto the unsigned
    base, so a move below zero wraps to a huge frequency before the floor
    test (see `TuneBelowZeroWraps`).
   */
  function SelectFrequency(st: TunerState, step: nat, newFreq: int, o: Offsets): (r: Tuned)
    requires Wf(st) && ArgsWf(step, newFreq) && OffsetsWf(o)
    ensures Wf(r.state)
    ensures r.state.split == st.split && r.state.xmit == st.xmit
    ensures var freq := ClampBottom((BaseFrequency(st, step) + newFreq * step) % U64);
      && (SplitTransmit(st) ==> r.state == st.(subVfo := freq))
      && (!SplitTransmit(st) ==> r.state == st.(vfoA := freq, vfoALast := freq))
      && r.hwFreq == HardwareFrequency(freq, st.xmit, o)
    ensures SplitTransmit(st) ==> r.state.subVfo >= Bottom
    ensures !SplitTransmit(st) ==> r.state.vfoA >= Bottom && r.state.vfoALast == r.state.vfoA
  {
    var freq := ClampBottom((BaseFrequency(st, step) + newFreq * step) % U64);
    var st' := if SplitTransmit(st) then st.(subVfo := freq) else st.(vfoA := freq, vfoALast := freq);
    Tuned(st', HardwareFrequency(freq, st.xmit, o))
  }

  /** The frequency `selectFrequency` stores into the VFO it tunes. */
  function StoredFrequency(r: Tuned, st: TunerState): nat
  {
    if SplitTransmit(st) then r.state.subVfo else r.state.vfoA
  }

  /**
    Without wrap-around the stored frequency is the floor or the base moved by
    the requested steps, never below 1 MHz.
   */
  lemma StoredIsClampedMove(st: TunerState, step: nat, newFreq: int, o: Offsets)
    requires Wf(st) && ArgsWf(step, newFreq) && OffsetsWf(o)
    requires 0 <= BaseFrequency(st, step) + newFreq * step < U64
    ensures var f, target := StoredFrequency(SelectFrequency(st, step, newFreq, o), st), BaseFrequency(st, step) + newFreq * step;
      && f >= Bottom
      && (target <= Bottom ==> f == Bottom)
      && (target > Bottom ==> f == target)
  {
    var t := BaseFrequency(st, step) + newFreq * step;
    assert t % U64 == t;
    var r := SelectFrequency(st, step, newFreq, o);
    assert StoredFrequency(r, st) == ClampBottom(t);
  }

  /** The RIT/XIT, transverter and Fc offsets reach the hardware only: the stored state ignores them. */
  lemma OffsetsNotStored(st: TunerState, step: nat, newFreq: int, o1: Offsets, o2: Offsets)
    requires Wf(st) && ArgsWf(step, newFreq) && OffsetsWf(o1) && OffsetsWf(o2)
    ensures SelectFrequency(st, step, newFreq, o1).state == SelectFrequency(st, step, newFreq, o2).state
  {
  }

  /**
    Re-tuning by zero steps, off the sub VFO, from a step multiple above the
    floor stores the same frequency again.
   */
  lemma ZeroStepKeepsVfo(st: TunerState, step: nat, o: Offsets)
    requires Wf(st) && ArgsWf(step, 0) && OffsetsWf(o)
    requires !SplitTransmit(st) && st.vfoA % step == 0 && st.vfoA > Bottom
    ensures SelectFrequency(st, step, 0, o).state == st.(vfoALast := st.vfoA)
  {
  }

  /**
    Tuning 101 steps of 10 kHz down from 1 MHz aims at -10 kHz; the unsigned
    addition wraps that to 2^64 - 10000, which passes the floor test and is
    stored in `VFOA`.
   */
  lemma TuneBelowZeroWraps()
    ensures var st := TunerState(1_000_000, 1_000_000, 0, false, false);
      var r := SelectFrequency(st, 10_000, -101, Offsets(0, 0, 0, 0));
      BaseFrequency(st, 10_000) + -101 * 10_000 < Bottom && r.state.vfoA == U64 - 10_000
  {
  }

  /**
    `selectFrequency` with the floor applied to the signed target before it
    is stored as unsigned: a move at or below 1 MHz, including one below
    zero, stops at the floor.
   */
  function SelectFrequencyFloored(st: TunerState, step: nat, newFreq: int, o: Offsets): (r: Tuned)
    requires Wf(st) && ArgsWf(step, newFreq) && OffsetsWf(o)
    ensures Wf(r.state)
    ensures var target := BaseFrequency(st, step) + newFreq * step;
      var f := StoredFrequency(r, st);
      && f >= Bottom
      && (target <= Bottom ==> f == Bottom)
      && (Bottom < target < U64 ==> f == target)
      && (SplitTransmit(st) ==> r.state == st.(subVfo := f))
      && (!SplitTransmit(st) ==> r.state == st.(vfoA := f, vfoALast := f))
      && r.hwFreq == HardwareFrequency(f, st.xmit, o)
  {
    var freq := FloorTarget(BaseFrequency(st, step) + newFreq * step);
    var st' := if SplitTransmit(st) then st.(subVfo := freq) else st.(vfoA := freq, vfoALast := freq);
    Tuned(st', HardwareFrequency(freq, st.xmit, o))
  }

  /**
    A signed target frequency brought into the unsigned range with the floor
    applied first: anything at or below 1 MHz is the floor, anything in range
    is kept.
   */
  function FloorTarget(target: int): (f: nat)
    ensures Bottom <= f < U64
    ensures target <= Bottom ==> f == Bottom
    ensures Bottom < target < U64 ==> f == target
  {
    if target <= Bottom then Bottom else ClampBottom(target % U64)
  }

  /** Where nothing wraps, the floored version stores what the source stores. */
  lemma FlooredAgreesWithoutWrap(st: TunerState, step: nat, newFreq: int, o: Offsets)
    requires Wf(st) && ArgsWf(step, newFreq) && OffsetsWf(o)
    requires 0 <= BaseFrequency(st, step) + newFreq * step < U64
    ensures SelectFrequencyFloored(st, step, newFreq, o) == SelectFrequency(st, step, newFreq, o)
  {
    var t := BaseFrequency(st, step) + newFreq * step;
    FloorMatchesClamp(t);
    var f := FloorTarget(t);
    assert SelectFrequencyFloored(st, step, newFreq, o) ==
      Tuned(if SplitTransmit(st) then st.(subVfo := f) else st.(vfoA := f, vfoALast := f),
            HardwareFrequency(f, st.xmit, o));
  }

  /** Inside the unsigned range the early floor and the late clamp coincide. */
  lemma FloorMatchesClamp(t: int)
    requires 0 <= t < U64
    ensures FloorTarget(t) == ClampBottom(t % U64)
  {
    assert t % U64 == t;
  }

  /**
    Turning the knob further down never stores a higher frequency, as long as
    the upward target stays below 2^64.
   */
  lemma FlooredMonotone(st: TunerState, step: nat, n1: int, n2: int, o: Offsets)
    requires Wf(st) && ArgsWf(step, n1) && ArgsWf(step, n2) && OffsetsWf(o)
    requires n1 <= n2 && BaseFrequency(st, step) + n2 * step < U64
    ensures StoredFrequency(SelectFrequencyFloored(st, step, n1, o), st) <=
            StoredFrequency(SelectFrequencyFloored(st, step, n2, o), st)
  {
    var b := BaseFrequency(st, step);
    MulMonotone(n1, n2, step);
    FloorTargetMonotone(b + n1 * step, b + n2 * step);
  }

  lemma MulMonotone(a: int, b: int, m: nat)
    requires a <= b
    ensures a * m <= b * m
  {
  }

  /** The floor is monotone below 2^64. */
  lemma FloorTargetMonotone(t1: int, t2: int)
    requires t1 <= t2 < U64
    ensures FloorTarget(t1) <= FloorTarget(t2)
  {
  }
}
