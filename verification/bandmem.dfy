/**
  Per-band memory (`struct Band_Memory`) and the updates `check_CIV` commits
  into it: band-stack register slots, preamp/attenuator, AGC and split.
 */
module BandMemory {
  import opened Base

  /** The bands of the band table, in the order of its band-decode list. */
  datatype Band =
    | Band160M | Band80M | Band60M | Band40M | Band30M | Band20M | Band17M | Band15M
    | Band12M | Band10M | Band6M | Band144 | Band222 | Band432 | Band902 | Band1296
    | Band2400 | Band3400 | Band5760 | Band10G | Band24G | Band47G | Band76G | Band122G

  /** AGC settings; the three the radio reports, and any other entry of the AGC table. */
  datatype Agc = Fast | Mid | Slow | Other(index: nat)

  /**
    The fields of one band's record that this core reads or writes. Slot 1
    of the band stack is `vfo_A_last`/`mode_A`/`filter_A`/`data_A`, slot 2 the
    `_1` fields and slot 3 the `_2` fields; the record has one data flag,
    `data_A_2`, beyond slot 1's.
   */
  datatype BandRecord = BandRecord(
    vfoALast: nat, modeA: Byte, filterA: Byte, dataA: Byte,
    vfoALast1: nat, modeA1: Byte, filterA1: Byte,
    vfoALast2: nat, modeA2: Byte, filterA2: Byte, dataA2: Byte,
    preamp: bool, attenuator: bool, agcMode: Agc, split: Byte)

  /** Frequency, mode and filter of one band-stack slot. */
  datatype Slot = Slot(freq: nat, mode: Byte, filter: Byte)

  function Slot1(m: BandRecord): Slot { Slot(m.vfoALast, m.modeA, m.filterA) }
  function Slot2(m: BandRecord): Slot { Slot(m.vfoALast1, m.modeA1, m.filterA1) }
  function Slot3(m: BandRecord): Slot { Slot(m.vfoALast2, m.modeA2, m.filterA2) }

  /** The radio's band-stack band code of a band, 0 for bands the radio has no code for. */
  function StackCode(b: Band): nat
  {
    match b
    case Band144 => 1
    case Band432 => 2
    case Band1296 => 3
    case Band2400 => 4
    case Band5760 => 5
    case Band10G => 6
    case _ => 0
  }

  /** The band a band-stack report refers to (CIV.cpp:291-300); unknown codes fall back to 2 m. */
  function BandFromCode(code: Byte): (b: Band)
    ensures 1 <= code <= 6 ==> StackCode(b) == code
    ensures !(1 <= code <= 6) ==> b == Band144
    ensures 1 <= StackCode(b) <= 6
  {
    match code
    case 1 => Band144
    case 2 => Band432
    case 3 => Band1296
    case 4 => Band2400
    case 5 => Band5760
    case 6 => Band10G
    case _ => Band144
  }

  /** Every band with a code is reached from exactly that code. */
  lemma BandFromCodeInverse(b: Band)
    requires StackCode(b) != 0
    ensures BandFromCode(StackCode(b)) == b
  {
  }

  /**
    Store a band-stack report in register `reg` (CIV.cpp:303-323): register 1
    fills slot 1 and `data_A`, registers 2 and 3 fill their own slot and both
    write `data_A_2`; any other register code stores nothing.
   */
  function StoreBandStack(m: BandRecord, reg: Byte, s: Slot, data: Byte): (r: BandRecord)
    requires s.freq < U64
    ensures reg == 1 ==> Slot1(r) == s && r.dataA == data
    ensures reg == 2 ==> Slot2(r) == s && r.dataA2 == data
    ensures reg == 3 ==> Slot3(r) == s && r.dataA2 == data
    ensures reg != 1 ==> Slot1(r) == Slot1(m) && r.dataA == m.dataA
    ensures reg != 2 ==> Slot2(r) == Slot2(m)
    ensures reg != 3 ==> Slot3(r) == Slot3(m)
    ensures reg != 2 && reg != 3 ==> r.dataA2 == m.dataA2
    ensures !(1 <= reg <= 3) ==> r == m
    ensures r.preamp == m.preamp && r.attenuator == m.attenuator
    ensures r.agcMode == m.agcMode && r.split == m.split
  {
    match reg
    case 1 => m.(vfoALast := s.freq, modeA := s.mode, filterA := s.filter, dataA := data)
    case 2 => m.(vfoALast1 := s.freq, modeA1 := s.mode, filterA1 := s.filter, dataA2 := data)
    case 3 => m.(vfoALast2 := s.freq, modeA2 := s.mode, filterA2 := s.filter, dataA2 := data)
    case _ => m
  }

  /** Preamp and attenuator are never both on. */
  predicate OneGainStage(m: BandRecord) { !(m.preamp && m.attenuator) }

  /**
    A preamp status report (CIV.cpp:448-461): a non-zero status turns the
    preamp on and the attenuator off; zero turns only the preamp off.
   */
  function ApplyPreamp(m: BandRecord, status: Byte): (r: BandRecord)
    ensures status > 0 ==> r.preamp && !r.attenuator
    ensures status == 0 ==> !r.preamp && r.attenuator == m.attenuator
    ensures OneGainStage(r)
    ensures r == m.(preamp := r.preamp, attenuator := r.attenuator)
  {
    if status > 0 then m.(attenuator := false, preamp := true)
    else m.(preamp := false)
  }

  /**
    An attenuator status report (CIV.cpp:491-502): a non-zero status turns
    the attenuator on and the preamp off; zero turns only the attenuator off.
   */
  function ApplyAttn(m: BandRecord, status: Byte): (r: BandRecord)
    ensures status > 0 ==> r.attenuator && !r.preamp
    ensures status == 0 ==> !r.attenuator && r.preamp == m.preamp
    ensures OneGainStage(r)
    ensures r == m.(preamp := r.preamp, attenuator := r.attenuator)
  {
    if status > 0 then m.(preamp := false, attenuator := true)
    else m.(attenuator := false)
  }

  /** The AGC setting a status octet names, if any (CIV.cpp:518-520). */
  function AgcFromStatus(status: Byte): Option<Agc>
  {
    match status
    case 1 => Some(Fast)
    case 2 => Some(Mid)
    case 3 => Some(Slow)
    case _ => None
  }

  /** An AGC status report: 1, 2 and 3 select fast, mid and slow; other values change nothing. */
  function ApplyAgc(m: BandRecord, status: Byte): (r: BandRecord)
    ensures status == 1 ==> r.agcMode == Fast
    ensures status == 2 ==> r.agcMode == Mid
    ensures status == 3 ==> r.agcMode == Slow
    ensures !(1 <= status <= 3) ==> r == m
    ensures r == m.(agcMode := r.agcMode)
  {
    match AgcFromStatus(status)
    case Some(a) => m.(agcMode := a)
    case None => m
  }

  /** The status octet the radio sends for a named AGC speed; the inverse of `AgcFromStatus`. */
  function AgcStatus(a: Agc): (s: Byte)
    requires !a.Other?
    ensures 1 <= s <= 3 && AgcFromStatus(s) == Some(a)
  {
    match a
    case Fast => 1
    case Mid => 2
    case Slow => 3
  }

  /** Reporting a named AGC speed stores exactly that speed, and a stored speed reports back its octet. */
  lemma AgcRoundTrip(m: BandRecord, a: Agc, status: Byte)
    requires !a.Other?
    ensures ApplyAgc(m, AgcStatus(a)) == m.(agcMode := a)
    ensures 1 <= status <= 3 ==> AgcStatus(ApplyAgc(m, status).agcMode) == status
  {
  }

  /** A split status report (CIV.cpp:470-481): split becomes 1 for a non-zero status, else 0. */
  function ApplySplit(m: BandRecord, status: Byte): (r: BandRecord)
    ensures r.split == 1 <==> status > 0
    ensures r.split == 0 <==> status == 0
    ensures r == m.(split := r.split)
  {
    m.(split := if status > 0 then 1 else 0)
  }
}
