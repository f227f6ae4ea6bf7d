/**
  The receive side of `check_CIV` (CIV.cpp:140-619): recognise the command
  of one received message, decode its fields, commit them to the global
  radio and band-memory state, and return the message-type code 0..14.
 */
module Civ {
  import opened Base
  import opened Bcd
  import opened Commands
  import opened Modes
  import opened BandMemory
  import opened Fields
  import opened Duplex

  /** `retVal` of a library read, in the order of its enumeration. */
  datatype RetVal = CivOk | CivOkDav | CivNok | CivHwFault | CivBusBusy | CivBusConflict | CivNoMsg

  /** `retVal <= CIV_NOK`: the library read produced an answer. */
  predicate Answered(v: RetVal) { v == CivOk || v == CivOkDav || v == CivNok }

  /**
    One library read (`CIVresultL`): the command body with its length octet
    first, the data field with its length octet first, and the numeric value
    the library already computed from the data.
   */
  datatype CivResult = CivResult(retVal: RetVal, cmd: seq<Byte>, datafield: seq<Byte>, value: nat)

  /**
    The global state `check_CIV` reads and writes: the band table, the
    current band, the mode table, the `radio_*` globals, the UTC offsets,
    the last transmit state, the transmit flag of the active user profile,
    the last clock setting and `freqReceived`.
   */
  datatype CivState = CivState(
    bandmem: map<Band, BandRecord>, currBand: Band, modes: seq<ModeEntry>,
    radioVfo: nat, radioMode: Byte, radioFilter: Byte, radioData: Byte,
    radioRit: int, radioDup: int, ritOnOff: Byte, xitOnOff: Byte,
    hrOff: int, minOff: int, shiftDir: int,
    txLast: Byte, xmit: Byte, clock: Option<TimeFields>, freqReceived: bool)

  /** The new state and the returned `msg_type`. */
  datatype Step = Step(state: CivState, msgType: nat)

  /**
    Every band has a record, and the mode table is small enough for the
    `uint8_t` lookup counters to reach its end.
   */
  predicate Valid(st: CivState)
  {
    (forall b: Band :: b in st.bandmem) && |st.modes| < 256
  }

  /** Preamp and attenuator are exclusive on every band. */
  predicate GainExclusive(st: CivState)
    requires Valid(st)
  {
    forall b: Band :: OneGainStage(st.bandmem[b])
  }

  /** How many `datafield` octets (length octet included) a command's branch reads. */
  function FieldsRead(id: CmdId): nat
  {
    match id
    case F26 | F26A | F26B => 5
    case BandStack => 11
    case MyPositData => 29
    case UtcRead905 | UtcRead705 | DuplexRead | DuplexSend | RitXit => 4
    case RitOnOff | XitOnOff => 2
    case _ => 0
  }

  /** The mode-table key of a (mode code, data flag) pair. */
  function PairKey(code: Byte, data: Byte): ModeKey { ByCodeAndData(code, data) }

  /**
    The accesses of a branch stay inside the data field and the mode table:
    the source indexes `modeList` with the stored or resolved mode and does
    not check either bound.
   */
  predicate InBounds(st: CivState, id: CmdId, df: seq<Byte>)
    requires Valid(st)
  {
    |df| >= FieldsRead(id) &&
    match id
    case F26 | F26A | F26B =>
      st.bandmem[st.currBand].modeA < |st.modes| &&
      IndexOrRaw(st.modes, df[2], PairKey(df[2], df[3])) < |st.modes|
    case BandStack =>
      var band, reg := BandFromCode(df[1]), df[2];
      (reg == 1 ==> IndexOrRaw(st.modes, df[8], PairKey(df[8], df[10])) < |st.modes|) &&
      (reg == 2 || reg == 3 ==> st.bandmem[band].modeA < |st.modes|)
    case _ => true
  }

  /** What the source needs of a message: a well-formed command and in-bounds accesses. */
  predicate Admissible(st: CivState, msg: CivResult)
    requires Valid(st)
  {
    msg.retVal == CivOkDav ==>
      CmdWf(msg.cmd) &&
      match Recognise(msg.cmd)
      case None => true
      case Some(id) => InBounds(st, id, msg.datafield)
  }

  /** Replace the record of band `b`. */
  function WithBand(st: CivState, b: Band, rec: BandRecord): (r: CivState)
    requires Valid(st)
    ensures Valid(r) && r.bandmem[b] == rec
    ensures forall c: Band :: c != b ==> r.bandmem[c] == st.bandmem[c]
    ensures r == st.(bandmem := r.bandmem)
  {
    st.(bandmem := st.bandmem[b := rec])
  }

  /**
    A mode report (CIV.cpp:208-231): the library value is mode * 100 + filter;
    the mode number, read back through its decimal string as hexadecimal, is
    looked up by code alone. An unresolved mode leaves the raw number.
   */
  function ModeReport(st: CivState, value: nat): (r: Step)
    requires Valid(st)
    ensures r.msgType == 2
    ensures r.state.radioFilter == value % 100
    ensures var code := ToByte(value / 100);
      match Resolve(st.modes, ByCode(DecimalAsHex(code)))
      case Some(i) => r.state.radioMode == i && st.modes[i].modeNum == DecimalAsHex(code)
      case None => r.state.radioMode == code
    ensures r.state == st.(radioMode := r.state.radioMode, radioFilter := r.state.radioFilter)
  {
    var code := ToByte(value / 100);
    var mode := IndexOrRaw(st.modes, code, ByCode(DecimalAsHex(code)));
    Step(st.(radioMode := mode, radioFilter := value % 100), 2)
  }

  /** The little-endian frequency of a band-stack report: five octets from position 3. */
  function StackFrequency(df: seq<Byte>): (f: nat)
    requires |df| >= 8
    ensures f < U64
    ensures AllBcd(df[3..8]) ==> f < 10_000_000_000
  {
    DecodeBound(df[3..8]);
    assert Pow100(5) == 10_000_000_000;
    DecodeLeBcd(df[3..8])
  }

  /**
    The band-stack frequency is the little-endian BCD value of octets 3..7:
    a frequency below 10^10 Hz encoded there reads back unchanged, and a field
    of decimal octets re-encodes to itself.
   */
  lemma StackFrequencyRoundTrip(df: seq<Byte>, f: nat)
    requires |df| >= 8
    ensures f < 10_000_000_000 && df[3..8] == EncodeLeBcd(f, 5) ==> StackFrequency(df) == f
    ensures AllBcd(df[3..8]) ==> EncodeLeBcd(StackFrequency(df), 5) == df[3..8]
  {
    assert Pow100(5) == 10_000_000_000;
    if f < 10_000_000_000 && df[3..8] == EncodeLeBcd(f, 5) {
      DecodeEncode(f, 5);
    }
    if AllBcd(df[3..8]) {
      EncodeDecode(df[3..8]);
    }
  }

  /**
    A band-stack report (CIV.cpp:235-327). Octet 1 is the band code, octet 2
    the register, 3..7 the frequency, then mode, filter and data flag. The
    addressed band's slot is written and one mode-table width is set: the new
    mode's for register 1, the band's `mode_A` for registers 2 and 3.
   */
  function BandStackReport(st: CivState, df: seq<Byte>): (r: Step)
    requires Valid(st) && InBounds(st, BandStack, df)
    ensures r.msgType == 3 && Valid(r.state) && |r.state.modes| == |st.modes|
    ensures var band, reg := BandFromCode(df[1]), df[2];
      var mode := IndexOrRaw(st.modes, df[8], PairKey(df[8], df[10]));
      && (1 <= reg <= 3 ==> StoredSlot(r.state.bandmem[band], reg) == Slot(StackFrequency(df), mode, df[9]))
      && (reg != 1 ==> Slot1(r.state.bandmem[band]) == Slot1(st.bandmem[band]))
      && (reg != 1 ==> r.state.bandmem[band].dataA == st.bandmem[band].dataA)
      && (!(1 <= reg <= 3) ==> r.state.bandmem == st.bandmem && r.state.modes == st.modes)
      && (forall c: Band :: c != band ==> r.state.bandmem[c] == st.bandmem[c])
      && r.state.radioMode == mode && r.state.radioFilter == df[9] && r.state.radioData == df[10]
      && (reg == 1 ==> r.state.modes[mode].width == df[9])
      && (reg == 2 || reg == 3 ==> r.state.modes[st.bandmem[band].modeA].width == df[9])
    ensures var band, reg := BandFromCode(df[1]), df[2];
      var written := if reg == 1 then IndexOrRaw(st.modes, df[8], PairKey(df[8], df[10])) else st.bandmem[band].modeA;
      forall j :: 0 <= j < |st.modes| && (!(1 <= reg <= 3) || j != written) ==> r.state.modes[j] == st.modes[j]
    ensures forall j :: 0 <= j < |st.modes| ==>
      r.state.modes[j].modeNum == st.modes[j].modeNum && r.state.modes[j].data == st.modes[j].data
    ensures r.state == st.(bandmem := r.state.bandmem, modes := r.state.modes, radioMode := r.state.radioMode,
                           radioFilter := r.state.radioFilter, radioData := r.state.radioData)
  {
    var band, reg := BandFromCode(df[1]), df[2];
    var freq := StackFrequency(df);
    var raw, filter, data := df[8], df[9], df[10];
    var mode := IndexOrRaw(st.modes, raw, PairKey(raw, data));
    var rec := st.bandmem[band];
    var modes :=
      if reg == 1 then SetWidth(st.modes, mode, filter)
      else if reg == 2 || reg == 3 then SetWidth(st.modes, rec.modeA, filter)
      else st.modes;
    var st1 := WithBand(st, band, StoreBandStack(rec, reg, Slot(freq, mode, filter), data));
    Step(st1.(modes := modes, radioMode := mode, radioFilter := filter, radioData := data), 3)
  }

  /** The slot a register code names. */
  function StoredSlot(m: BandRecord, reg: Byte): Slot
    requires 1 <= reg <= 3
  {
    if reg == 1 then Slot1(m) else if reg == 2 then Slot2(m) else Slot3(m)
  }

  /**
    An extended mode report (CIV.cpp:329-355): octet 2 is the mode code, 3 the
    data flag, 4 the filter. Data flag and filter always land in the current
    band's slot 1; `mode_A` changes only when the pair is in the mode table.
   */
  function ExtendedModeReport(st: CivState, df: seq<Byte>): (r: Step)
    requires Valid(st) && InBounds(st, F26, df)
    ensures r.msgType == 4 && Valid(r.state)
    ensures var rec, rec' := st.bandmem[st.currBand], r.state.bandmem[st.currBand];
      && rec'.dataA == df[3] && rec'.filterA == df[4]
      && (match Resolve(st.modes, PairKey(df[2], df[3]))
          case Some(i) => rec'.modeA == i && r.state.radioMode == i
          case None => rec'.modeA == rec.modeA && r.state.radioMode == df[2])
      && rec' == rec.(modeA := rec'.modeA, dataA := rec'.dataA, filterA := rec'.filterA)
    ensures forall c: Band :: c != st.currBand ==> r.state.bandmem[c] == st.bandmem[c]
    ensures r.state.radioData == df[3] && r.state.radioFilter == df[4]
    ensures |r.state.modes| == |st.modes| && r.state.modes[r.state.radioMode].width == df[4]
    ensures r.state.modes[st.bandmem[st.currBand].modeA].width == df[4]
    ensures forall j :: 0 <= j < |st.modes| ==>
      r.state.modes[j].modeNum == st.modes[j].modeNum && r.state.modes[j].data == st.modes[j].data
    ensures forall j :: 0 <= j < |st.modes| && j != st.bandmem[st.currBand].modeA && j != r.state.radioMode ==>
      r.state.modes[j] == st.modes[j]
    ensures r.state == st.(bandmem := r.state.bandmem, modes := r.state.modes, radioMode := r.state.radioMode,
                           radioData := r.state.radioData, radioFilter := r.state.radioFilter)
  {
    var raw, data, filter := df[2], df[3], df[4];
    var rec := st.bandmem[st.currBand].(dataA := data, filterA := filter);
    var modes1 := SetWidth(st.modes, rec.modeA, filter);
    WidthKeepsResolution(st.modes, rec.modeA, filter, PairKey(raw, data), 0);
    var mode := IndexOrRaw(modes1, raw, PairKey(raw, data));
    var rec2 := if Resolve(modes1, PairKey(raw, data)).Some? then rec.(modeA := mode) else rec;
    var st1 := WithBand(st, st.currBand, rec2);
    Step(st1.(modes := SetWidth(modes1, mode, filter), radioMode := mode, radioData := data,
              radioFilter := filter), 4)
  }

  /**
    A transmit-state report (CIV.cpp:358-377): only a change against the last
    reported state is signalled; 1 and 0 set and clear the transmit flag.
   */
  function TxReport(st: CivState, value: nat): (r: Step)
    ensures var tx := ToByte(value);
      && (r.msgType == 5 <==> tx != st.txLast)
      && (r.msgType == 0 <==> tx == st.txLast)
      && r.state.txLast == tx
      && (tx == 1 && tx != st.txLast ==> r.state.xmit == 1)
      && (tx == 0 && tx != st.txLast ==> r.state.xmit == 0)
      && (tx > 1 || tx == st.txLast ==> r.state.xmit == st.xmit)
    ensures r.state == st.(txLast := r.state.txLast, xmit := r.state.xmit)
  {
    var tx := ToByte(value);
    if tx != st.txLast then
      var xmit := if tx == 1 then 1 else if tx == 0 then 0 else st.xmit;
      Step(st.(xmit := xmit, txLast := tx), 5)
    else Step(st, 0)
  }

  /** A repeated transmit-state answer reports nothing and changes nothing. */
  lemma TxRepeatSilent(st: CivState, value: nat)
    ensures var s1 := TxReport(st, value).state; TxReport(s1, value) == Step(s1, 0)
  {
  }

  /**
    Only an edge is reported: of two successive answers, the second returns 5
    exactly when its octet differs from the first's.
   */
  lemma TxReportsEdges(st: CivState, v1: nat, v2: nat)
    ensures var s1 := TxReport(st, v1).state;
      TxReport(s1, v2).msgType == 5 <==> ToByte(v1) != ToByte(v2)
  {
  }

  /** The commands whose answer updates a flag of the current band. */
  predicate IsBandFlag(id: CmdId)
  {
    id == PreampRead || id == SplitRead || id == AttnRead || id == AttnOn || id == AttnOff || id == AgcRead
  }

  /**
    The preamp, split, attenuator and AGC answers (CIV.cpp:444-526): the
    value, truncated to an octet, updates one flag group of the current band.
    Only the split answer returns 0.
   */
  function BandFlagReport(st: CivState, id: CmdId, status: Byte): (r: Step)
    requires Valid(st) && IsBandFlag(id)
    ensures Valid(r.state) && r.state == st.(bandmem := r.state.bandmem)
    ensures forall c: Band :: c != st.currBand ==> r.state.bandmem[c] == st.bandmem[c]
    ensures r.msgType == (if id == PreampRead then 8 else if id == SplitRead then 0 else if id == AgcRead then 10 else 9)
    ensures GainExclusive(st) ==> GainExclusive(r.state)
    ensures id == PreampRead ==> r.state.bandmem[st.currBand] == ApplyPreamp(st.bandmem[st.currBand], status)
    ensures id == SplitRead ==> r.state.bandmem[st.currBand] == ApplySplit(st.bandmem[st.currBand], status)
    ensures id == AgcRead ==> r.state.bandmem[st.currBand] == ApplyAgc(st.bandmem[st.currBand], status)
    ensures id in {AttnRead, AttnOn, AttnOff} ==>
      r.state.bandmem[st.currBand] == ApplyAttn(st.bandmem[st.currBand], status)
  {
    var cb := st.currBand;
    var rec := st.bandmem[cb];
    if id == PreampRead then Step(WithBand(st, cb, ApplyPreamp(rec, status)), 8)
    else if id == SplitRead then Step(WithBand(st, cb, ApplySplit(rec, status)), 0)
    else if id == AgcRead then Step(WithBand(st, cb, ApplyAgc(rec, status)), 10)
    else Step(WithBand(st, cb, ApplyAttn(rec, status)), 9)
  }

  /** The commands whose answer sets one decoded `radio_*` or clock field. */
  predicate IsFieldReport(id: CmdId)
  {
    id == MyPositData || id == UtcRead905 || id == UtcRead705 || id == DuplexRead ||
    id == DuplexSend || id == RitXit || id == RitOnOff || id == XitOnOff
  }

  /**
    The position/time and UTC-offset answers (CIV.cpp:381-442): the clock
    fields go to `setTime`, the offset to `hr_off`, `min_off` and `shift_dir`.
   */
  function TimeReport(st: CivState, id: CmdId, df: seq<Byte>): (r: Step)
    requires id == MyPositData || id == UtcRead905 || id == UtcRead705
    requires |df| >= FieldsRead(id)
    ensures r.msgType == if id == MyPositData then 6 else 7
    ensures id == MyPositData ==>
      r.state == st.(clock := r.state.clock) && r.state.clock == Some(DecodeClock(df))
    ensures id != MyPositData ==>
      r.state == st.(hrOff := r.state.hrOff, minOff := r.state.minOff, shiftDir := r.state.shiftDir) &&
      UtcShift(r.state.hrOff, r.state.minOff, r.state.shiftDir) == UtcOffset(df[1], df[2], df[3])
  {
    if id == MyPositData then Step(st.(clock := Some(DecodeClock(df))), 6)
    else
      var u := UtcOffset(df[1], df[2], df[3]);
      Step(st.(hrOff := u.hours, minOff := u.minutes, shiftDir := u.dir), 7)
  }

  /**
    The duplex-offset and RIT/XIT-offset answers (CIV.cpp:528-576): three BCD
    octets decoded into `radio_dup` or `radio_RIT`.
   */
  function OffsetReport(st: CivState, id: CmdId, df: seq<Byte>): (r: Step)
    requires id == DuplexRead || id == DuplexSend || id == RitXit
    requires |df| >= FieldsRead(id)
    ensures r.msgType == if id == RitXit then 12 else 11
    ensures id != RitXit ==>
      r.state == st.(radioDup := r.state.radioDup) && r.state.radioDup == DuplexOffset(df[1], df[2], df[3])
    ensures id == RitXit ==>
      r.state == st.(radioRit := r.state.radioRit) && r.state.radioRit == RitOffset(df[1], df[2], df[3])
  {
    if id == RitXit then Step(st.(radioRit := RitOffset(df[1], df[2], df[3])), 12)
    else Step(st.(radioDup := DuplexOffset(df[1], df[2], df[3])), 11)
  }

  /**
    The RIT and XIT on-off answers (CIV.cpp:578-596): one BCD octet, truncated
    to `uint8_t`, into `ritOnOff` or `xitOnOff`.
   */
  function SwitchReport(st: CivState, id: CmdId, df: seq<Byte>): (r: Step)
    requires id == RitOnOff || id == XitOnOff
    requires |df| >= FieldsRead(id)
    ensures r.msgType == if id == RitOnOff then 13 else 14
    ensures id == RitOnOff ==>
      r.state == st.(ritOnOff := r.state.ritOnOff) && r.state.ritOnOff == ToByte(BcdByte(df[1]))
    ensures id == XitOnOff ==>
      r.state == st.(xitOnOff := r.state.xitOnOff) && r.state.xitOnOff == ToByte(BcdByte(df[1]))
  {
    if id == RitOnOff then Step(st.(ritOnOff := ToByte(BcdByte(df[1]))), 13)
    else Step(st.(xitOnOff := ToByte(BcdByte(df[1]))), 14)
  }

  /**
    The position/time, UTC-offset, duplex, RIT/XIT and RIT/XIT on-off answers
    (CIV.cpp:380-598): each decodes its data octets into its own globals (see
    `TimeReport`, `OffsetReport` and `SwitchReport`) and leaves the band and
    mode tables alone.
   */
  function FieldReport(st: CivState, id: CmdId, df: seq<Byte>): (r: Step)
    requires IsFieldReport(id) && |df| >= FieldsRead(id)
    ensures r.state.bandmem == st.bandmem && r.state.modes == st.modes
    ensures r.state.currBand == st.currBand && r.state.freqReceived == st.freqReceived
    ensures 6 <= r.msgType <= 14
    ensures r.msgType == if id == MyPositData then 6 else if id == DuplexRead || id == DuplexSend then 11
      else if id == RitXit then 12 else if id == RitOnOff then 13 else if id == XitOnOff then 14 else 7
  {
    if id == MyPositData || id == UtcRead905 || id == UtcRead705 then TimeReport(st, id, df)
    else if id == RitOnOff || id == XitOnOff then SwitchReport(st, id, df)
    else OffsetReport(st, id, df)
  }

  /**
    The switch of `check_CIV` (CIV.cpp:195-599) for a recognised command.
    Commands without a case return 0 and change nothing.
   */
  function Dispatch(st: CivState, id: CmdId, msg: CivResult): (r: Step)
    requires Valid(st) && InBounds(st, id, msg.datafield)
    ensures Valid(r.state) && r.msgType <= 14
    ensures r.state.currBand == st.currBand && |r.state.modes| == |st.modes|
    ensures r.state.freqReceived == (r.msgType == 1 || st.freqReceived)
    ensures GainExclusive(st) ==> GainExclusive(r.state)
    ensures id == FRead || id == FSend || id == F1Send ==>
      r.msgType == 1 && r.state == st.(radioVfo := r.state.radioVfo, freqReceived := true) &&
      r.state.radioVfo == msg.value % U64
  {
    var df, value := msg.datafield, msg.value;
    if IsBandFlag(id) then BandFlagReport(st, id, ToByte(value))
    else if IsFieldReport(id) then FieldReport(st, id, df)
    else if id == FRead || id == FSend || id == F1Send then
      Step(st.(radioVfo := value % U64, freqReceived := true), 1)
    else if id == ModRead || id == ModSend then ModeReport(st, value)
    else if id == BandStack then BandStackReport(st, df)
    else if id == F26A || id == F26B || id == F26 then ExtendedModeReport(st, df)
    else if id == Tx then TxReport(st, value)
    else Step(st, 0)
  }

  /**
    `check_CIV`: `freqReceived` is cleared on every call; anything but a data
    answer, and any command the scan does not accept, returns 0 with nothing
    else changed.
   */
  function CheckCiv(st: CivState, msg: CivResult): (r: Step)
    requires Valid(st) && Admissible(st, msg)
    ensures Valid(r.state) && r.msgType <= 14
    ensures r.state.freqReceived <==> r.msgType == 1
    ensures r.state.currBand == st.currBand && |r.state.modes| == |st.modes|
    ensures msg.retVal != CivOkDav ==> r == Step(st.(freqReceived := false), 0)
    ensures msg.retVal == CivOkDav && Recognise(msg.cmd).None? ==> r == Step(st.(freqReceived := false), 0)
    ensures GainExclusive(st) ==> GainExclusive(r.state)
  {
    var st0 := st.(freqReceived := false);
    if !(Answered(msg.retVal) && msg.retVal == CivOkDav) then Step(st0, 0)
    else
      match Recognise(msg.cmd)
      case None => Step(st0, 0)
      case Some(id) => Dispatch(st0, id, msg)
  }

  /** The message-type code of each handled command, as the switch's cases assign it. */
  function MsgTypeOf(id: CmdId): nat
  {
    if id == FRead || id == FSend || id == F1Send then 1
    else if id == ModRead || id == ModSend then 2
    else if id == BandStack then 3
    else if id == F26 || id == F26A || id == F26B then 4
    else if id == Tx then 5
    else if id == MyPositData then 6
    else if id == UtcRead905 || id == UtcRead705 then 7
    else if id == PreampRead then 8
    else if id == AttnRead || id == AttnOn || id == AttnOff then 9
    else if id == AgcRead then 10
    else if id == DuplexRead || id == DuplexSend then 11
    else if id == RitXit then 12
    else if id == RitOnOff then 13
    else if id == XitOnOff then 14
    else 0
  }

  /**
    A recognised data answer returns its command's message type, except a
    transmit report repeating the last state, which returns 0.
   */
  lemma CheckCivMsgType(st: CivState, msg: CivResult, id: CmdId)
    requires Valid(st) && Admissible(st, msg)
    requires msg.retVal == CivOkDav && Recognise(msg.cmd) == Some(id)
    ensures CheckCiv(st, msg).msgType ==
      if id == Tx && ToByte(msg.value) == st.txLast then 0 else MsgTypeOf(id)
  {
    var st0 := st.(freqReceived := false);
    assert CheckCiv(st, msg) == Dispatch(st0, id, msg);
    if IsBandFlag(id) {
      BandFlagCodes(id);
    } else if IsFieldReport(id) {
      FieldCodes(id);
    } else {
      OtherCodes(id);
    }
  }

  lemma BandFlagCodes(id: CmdId)
    requires IsBandFlag(id)
    ensures MsgTypeOf(id) == if id == PreampRead then 8 else if id == SplitRead then 0 else if id == AgcRead then 10 else 9
  {
  }

  lemma FieldCodes(id: CmdId)
    requires IsFieldReport(id)
    ensures MsgTypeOf(id) == if id == MyPositData then 6 else if id == DuplexRead || id == DuplexSend then 11
      else if id == RitXit then 12 else if id == RitOnOff then 13 else if id == XitOnOff then 14 else 7
  {
  }

  lemma OtherCodes(id: CmdId)
    requires !IsBandFlag(id) && !IsFieldReport(id)
    ensures MsgTypeOf(id) == if id == FRead || id == FSend || id == F1Send then 1
      else if id == ModRead || id == ModSend then 2 else if id == BandStack then 3
      else if id == F26A || id == F26B || id == F26 then 4 else if id == Tx then 5 else 0
  {
  }

  /**
    `PREAMP_ON` shares `PREAMP_OFF`'s signature and `PREAMP_OFF` has no case,
    so the preamp-on answer changes nothing and returns 0.
   */
  lemma PreampOnAnswerIgnored(st: CivState, msg: CivResult)
    requires Valid(st)
    requires msg.retVal == CivOkDav && msg.cmd == [3, 0x16, 0x02, 0x00]
    ensures Admissible(st, msg)
    ensures CheckCiv(st, msg) == Step(st.(freqReceived := false), 0)
  {
    PreampOnExample();
    var st0 := st.(freqReceived := false);
    PreampOffIgnored(st0, msg);
  }

  lemma PreampOffIgnored(st: CivState, msg: CivResult)
    requires Valid(st)
    ensures InBounds(st, PreampOff, msg.datafield)
    ensures Dispatch(st, PreampOff, msg) == Step(st, 0)
  {
    assert FieldsRead(PreampOff) == 0;
    assert !IsBandFlag(PreampOff) && !IsFieldReport(PreampOff);
  }

  /**
    After a preamp or attenuator answer the current band has at most one gain
    stage on, whatever it held before.
   */
  lemma GainAnswerLeavesOneStage(st: CivState, msg: CivResult)
    requires Valid(st) && Admissible(st, msg) && msg.retVal == CivOkDav
    requires Recognise(msg.cmd) in {Some(PreampRead), Some(AttnRead), Some(AttnOn), Some(AttnOff)}
    ensures OneGainStage(CheckCiv(st, msg).state.bandmem[st.currBand])
  {
    var st0, id, cb := st.(freqReceived := false), Recognise(msg.cmd).value, st.currBand;
    assert CheckCiv(st, msg) == Dispatch(st0, id, msg);
    if id == PreampRead {
      assert Dispatch(st0, id, msg).state.bandmem[cb] == ApplyPreamp(st.bandmem[cb], ToByte(msg.value));
    } else {
      assert Dispatch(st0, id, msg).state.bandmem[cb] == ApplyAttn(st.bandmem[cb], ToByte(msg.value));
    }
  }

  /** A split answer stores the flag on the current band and returns 0. */
  lemma SplitAnswerReturnsZero(st: CivState, msg: CivResult)
    requires Valid(st) && Admissible(st, msg) && msg.retVal == CivOkDav
    requires Recognise(msg.cmd) == Some(SplitRead)
    ensures var r := CheckCiv(st, msg);
      && r.msgType == 0
      && (r.state.bandmem[st.currBand].split == 1 <==> ToByte(msg.value) > 0)
      && (r.state.bandmem[st.currBand].split == 0 <==> ToByte(msg.value) == 0)
  {
    var st0, cb := st.(freqReceived := false), st.currBand;
    assert CheckCiv(st, msg) == Dispatch(st0, SplitRead, msg);
    assert Dispatch(st0, SplitRead, msg) == BandFlagReport(st0, SplitRead, ToByte(msg.value));
    assert BandFlagReport(st0, SplitRead, ToByte(msg.value)).state.bandmem[cb] ==
      ApplySplit(st.bandmem[cb], ToByte(msg.value));
  }

  /**
    A preamp answer returns 8; a non-zero value turns the current band's
    preamp on and its attenuator off, zero turns only the preamp off.
   */
  lemma PreampAnswer(st: CivState, msg: CivResult)
    requires Valid(st) && Admissible(st, msg) && msg.retVal == CivOkDav
    requires Recognise(msg.cmd) == Some(PreampRead)
    ensures var r, rec := CheckCiv(st, msg), st.bandmem[st.currBand];
      && r.msgType == 8
      && (ToByte(msg.value) > 0 ==> r.state.bandmem[st.currBand] == rec.(preamp := true, attenuator := false))
      && (ToByte(msg.value) == 0 ==> r.state.bandmem[st.currBand] == rec.(preamp := false))
  {
    var st0, cb := st.(freqReceived := false), st.currBand;
    assert CheckCiv(st, msg) == Dispatch(st0, PreampRead, msg);
    assert Dispatch(st0, PreampRead, msg) == BandFlagReport(st0, PreampRead, ToByte(msg.value));
  }

  /**
    An attenuator answer returns 9; a non-zero value turns the current band's
    attenuator on and its preamp off, zero turns only the attenuator off.
   */
  lemma AttnAnswer(st: CivState, msg: CivResult, id: CmdId)
    requires Valid(st) && Admissible(st, msg) && msg.retVal == CivOkDav
    requires Recognise(msg.cmd) == Some(id) && id in {AttnRead, AttnOn, AttnOff}
    ensures var r, rec := CheckCiv(st, msg), st.bandmem[st.currBand];
      && r.msgType == 9
      && (ToByte(msg.value) > 0 ==> r.state.bandmem[st.currBand] == rec.(preamp := false, attenuator := true))
      && (ToByte(msg.value) == 0 ==> r.state.bandmem[st.currBand] == rec.(attenuator := false))
  {
    var st0, cb := st.(freqReceived := false), st.currBand;
    assert CheckCiv(st, msg) == Dispatch(st0, id, msg);
    assert IsBandFlag(id) && id != PreampRead && id != SplitRead && id != AgcRead;
    assert Dispatch(st0, id, msg) == BandFlagReport(st0, id, ToByte(msg.value));
  }

  /**
    An AGC answer returns 10; the values 1, 2 and 3 select fast, mid and slow
    on the current band, and any other value changes no band.
   */
  lemma AgcAnswer(st: CivState, msg: CivResult)
    requires Valid(st) && Admissible(st, msg) && msg.retVal == CivOkDav
    requires Recognise(msg.cmd) == Some(AgcRead)
    ensures var r, rec, v := CheckCiv(st, msg), st.bandmem[st.currBand], ToByte(msg.value);
      && r.msgType == 10
      && (v == 1 ==> r.state.bandmem[st.currBand] == rec.(agcMode := Fast))
      && (v == 2 ==> r.state.bandmem[st.currBand] == rec.(agcMode := Mid))
      && (v == 3 ==> r.state.bandmem[st.currBand] == rec.(agcMode := Slow))
      && (!(1 <= v <= 3) ==> r.state.bandmem == st.bandmem)
  {
    var st0, cb := st.(freqReceived := false), st.currBand;
    assert CheckCiv(st, msg) == Dispatch(st0, AgcRead, msg);
    assert Dispatch(st0, AgcRead, msg) == BandFlagReport(st0, AgcRead, ToByte(msg.value));
    assert st0.bandmem == st.bandmem;
  }

  /**
    A frequency answer returns 1, stores the library value (wrapped to 64
    bits) in `radio_VFO`, sets `freqReceived`, and changes nothing else.
   */
  lemma FrequencyAnswer(st: CivState, msg: CivResult, id: CmdId)
    requires Valid(st) && Admissible(st, msg) && msg.retVal == CivOkDav
    requires Recognise(msg.cmd) == Some(id) && id in {FRead, FSend, F1Send}
    ensures var r := CheckCiv(st, msg);
      r == Step(st.(radioVfo := msg.value % U64, freqReceived := true), 1)
  {
    var st0 := st.(freqReceived := false);
    assert CheckCiv(st, msg) == Dispatch(st0, id, msg);
  }
}
