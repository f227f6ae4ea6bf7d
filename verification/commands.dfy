/**
  The CI-V command signature table and the first-match scan of `check_CIV`
  (CIV.cpp:37-103, 159-186). A signature is the length octet followed by the
  command and sub-command octets; the enumeration ids equal table positions.
 */
module Commands {
  import opened Base

  /** The command ids, in table order. */
  datatype CmdId =
    | FSend | F1Send | FRead | F26 | F26A | F26B | F25ASend | F25BSend
    | ModRead | ModSet | ModSend | Mod1Send | ModUsbF1Send | ModUsbSend
    | UsbD0F2Send | UsbD1F2Send | LsbD0F2Send | LsbD1F2Send | FmD1F1Send
    | AttnRead | AttnOff | AttnOn | SplitRead | SplitOffSend | SplitOnSend
    | RfGain | AfGain | RfPower | SMeterLevel | PreampRead | PreampOff | PreampOn | PreampOn2
    | AgcRead | AgcFast | AgcMid | AgcSlow | CwMsgs | BandStack | MyPositRead | MyPositData
    | RfPow | TrxOnOff | TrxId | Tx | Date | Time | UtcRead905 | UtcRead705
    | DuplexRead | DuplexSend | RitXit | RitOnOff | XitOnOff | RadioOff | RadioOn

  /** The expected command body of a row: one to five octets. */
  type Body = s: seq<Byte> | 1 <= |s| <= 5 witness [0]

  /**
    One table row. The source spells each row as a length octet followed by
    the body; every row's length octet equals its body size, so the model
    derives it.
   */
  datatype Signature = Signature(id: CmdId, body: Body)
  {
    /** The row as stored in `cmdData`: length octet, then the body. */
    function Bytes(): (bs: seq<Byte>)
      ensures |bs| == |body| + 1 && bs[0] == |body| && bs[1..] == body
    {
      [|body|] + body
    }
  }

  /** The enumeration value of each command id in the source: its table position. */
  function Position(id: CmdId): nat
  {
    match id
    case FSend => 0
    case F1Send => 1
    case FRead => 2
    case F26 => 3
    case F26A => 4
    case F26B => 5
    case F25ASend => 6
    case F25BSend => 7
    case ModRead => 8
    case ModSet => 9
    case ModSend => 10
    case Mod1Send => 11
    case ModUsbF1Send => 12
    case ModUsbSend => 13
    case UsbD0F2Send => 14
    case UsbD1F2Send => 15
    case LsbD0F2Send => 16
    case LsbD1F2Send => 17
    case FmD1F1Send => 18
    case AttnRead => 19
    case AttnOff => 20
    case AttnOn => 21
    case SplitRead => 22
    case SplitOffSend => 23
    case SplitOnSend => 24
    case RfGain => 25
    case AfGain => 26
    case RfPower => 27
    case SMeterLevel => 28
    case PreampRead => 29
    case PreampOff => 30
    case PreampOn => 31
    case PreampOn2 => 32
    case AgcRead => 33
    case AgcFast => 34
    case AgcMid => 35
    case AgcSlow => 36
    case CwMsgs => 37
    case BandStack => 38
    case MyPositRead => 39
    case MyPositData => 40
    case RfPow => 41
    case TrxOnOff => 42
    case TrxId => 43
    case Tx => 44
    case Date => 45
    case Time => 46
    case UtcRead905 => 47
    case UtcRead705 => 48
    case DuplexRead => 49
    case DuplexSend => 50
    case RitXit => 51
    case RitOnOff => 52
    case XitOnOff => 53
    case RadioOff => 54
    case RadioOn => 55
  }

  /** `cmd_List`, row for row: the row at position `i`. */
  function CmdList(i: nat): Signature
    requires i < EndOfCmdList
  {
    match i
    case 0 => Signature(FSend, [0x00])
    case 1 => Signature(F1Send, [0x05])
    case 2 => Signature(FRead, [0x03])
    case 3 => Signature(F26, [0x26])
    case 4 => Signature(F26A, [0x26, 0x00])
    case 5 => Signature(F26B, [0x26, 0x01])
    case 6 => Signature(F25ASend, [0x25, 0x00])
    case 7 => Signature(F25BSend, [0x25, 0x01])
    case 8 => Signature(ModRead, [0x04])
    case 9 => Signature(ModSet, [0x06, 0x23, 0x02])
    case 10 => Signature(ModSend, [0x01])
    case 11 => Signature(Mod1Send, [0x06])
    case 12 => Signature(ModUsbF1Send, [0x06, 0x01, 0x01])
    case 13 => Signature(ModUsbSend, [0x06, 0x01])
    case 14 => Signature(UsbD0F2Send, [0x26, 0x00, 0x01, 0x00, 0x02])
    case 15 => Signature(UsbD1F2Send, [0x26, 0x00, 0x01, 0x01, 0x02])
    case 16 => Signature(LsbD0F2Send, [0x26, 0x00, 0x00, 0x00, 0x02])
    case 17 => Signature(LsbD1F2Send, [0x26, 0x00, 0x00, 0x01, 0x02])
    case 18 => Signature(FmD1F1Send, [0x26, 0x00, 0x05, 0x01, 0x01])
    case 19 => Signature(AttnRead, [0x11])
    case 20 => Signature(AttnOff, [0x11, 0x00])
    case 21 => Signature(AttnOn, [0x11, 0x10])
    case 22 => Signature(SplitRead, [0x0F])
    case 23 => Signature(SplitOffSend, [0x0F, 0x00])
    case 24 => Signature(SplitOnSend, [0x0F, 0x01])
    case 25 => Signature(RfGain, [0x14, 0x02])
    case 26 => Signature(AfGain, [0x14, 0x01])
    case 27 => Signature(RfPower, [0x14, 0x0A])
    case 28 => Signature(SMeterLevel, [0x15, 0x02])
    case 29 => Signature(PreampRead, [0x16, 0x02])
    case 30 => Signature(PreampOff, [0x16, 0x02, 0x00])
    case 31 => Signature(PreampOn, [0x16, 0x02, 0x00])
    case 32 => Signature(PreampOn2, [0x16, 0x02, 0x02])
    case 33 => Signature(AgcRead, [0x16, 0x12])
    case 34 => Signature(AgcFast, [0x16, 0x12, 0x01])
    case 35 => Signature(AgcMid, [0x16, 0x12, 0x02])
    case 36 => Signature(AgcSlow, [0x16, 0x12, 0x03])
    case 37 => Signature(CwMsgs, [0x17])
    case 38 => Signature(BandStack, [0x1A, 0x01])
    case 39 => Signature(MyPositRead, [0x23, 0x00])
    case 40 => Signature(MyPositData, [0x23])
    case 41 => Signature(RfPow, [0x14, 0x0A])
    case 42 => Signature(TrxOnOff, [0x18])
    case 43 => Signature(TrxId, [0x19, 0x00])
    case 44 => Signature(Tx, [0x1C, 0x00])
    case 45 => Signature(Date, [0x1A, 0x05, 0x00, 0x94])
    case 46 => Signature(Time, [0x1A, 0x05, 0x00, 0x95])
    case 47 => Signature(UtcRead905, [0x1A, 0x05, 0x01, 0x81])
    case 48 => Signature(UtcRead705, [0x1A, 0x05, 0x01, 0x70])
    case 49 => Signature(DuplexRead, [0x0C])
    case 50 => Signature(DuplexSend, [0x0D])
    case 51 => Signature(RitXit, [0x21, 0x00])
    case 52 => Signature(RitOnOff, [0x21, 0x01])
    case 53 => Signature(XitOnOff, [0x21, 0x02])
    case 54 => Signature(RadioOff, [0x18, 0x00])
    case _ => Signature(RadioOn, [0x18, 0x01])
  }

  /**
    The table is positional: the row at position `i` carries the command whose
    enumeration value is `i`, so a row index doubles as the command id.
   */
  lemma TableIsPositional(i: nat)
    requires i < EndOfCmdList
    ensures Position(CmdList(i).id) == i
  {
    if i < 7 {
      RowsPositional0(i);
    } else if i < 14 {
      RowsPositional7(i);
    } else if i < 21 {
      RowsPositional14(i);
    } else if i < 28 {
      RowsPositional21(i);
    } else if i < 35 {
      RowsPositional28(i);
    } else if i < 42 {
      RowsPositional35(i);
    } else if i < 49 {
      RowsPositional42(i);
    } else {
      RowsPositional49(i);
    }
  }

  lemma RowsPositional0(i: nat)
    requires 0 <= i < 7
    ensures Position(CmdList(i).id) == i
  {
  }

  lemma RowsPositional7(i: nat)
    requires 7 <= i < 14
    ensures Position(CmdList(i).id) == i
  {
  }

  lemma RowsPositional14(i: nat)
    requires 14 <= i < 21
    ensures Position(CmdList(i).id) == i
  {
  }

  lemma RowsPositional21(i: nat)
    requires 21 <= i < 28
    ensures Position(CmdList(i).id) == i
  {
  }

  lemma RowsPositional28(i: nat)
    requires 28 <= i < 35
    ensures Position(CmdList(i).id) == i
  {
  }

  lemma RowsPositional35(i: nat)
    requires 35 <= i < 42
    ensures Position(CmdList(i).id) == i
  {
  }

  lemma RowsPositional42(i: nat)
    requires 42 <= i < 49
    ensures Position(CmdList(i).id) == i
  {
  }

  lemma RowsPositional49(i: nat)
    requires 49 <= i < 56
    ensures Position(CmdList(i).id) == i
  {
  }

  /** `End_of_Cmd_List`: one past the last table position. */
  const EndOfCmdList: nat := 56

  /** A received body, length octet first, whose length octet fits inside it. */
  predicate CmdWf(cmd: seq<Byte>)
  {
    0 < |cmd| && cmd[0] < |cmd|
  }

  /** The received body `cmd` starts with every octet of the row, length octet included. */
  predicate Matches(sig: Signature, cmd: seq<Byte>)
  {
    |sig.Bytes()| <= |cmd| && cmd[..|sig.Bytes()|] == sig.Bytes()
  }

  /** The least table position at or after `k` whose row matches, or `EndOfCmdList` when none does. */
  function FirstMatchFrom(cmd: seq<Byte>, k: nat): (r: nat)
    requires k <= EndOfCmdList
    ensures k <= r <= EndOfCmdList
    ensures r < EndOfCmdList ==> Matches(CmdList(r), cmd)
    ensures forall j :: k <= j < r ==> !Matches(CmdList(j), cmd)
    decreases EndOfCmdList - k
  {
    if k == EndOfCmdList then EndOfCmdList
    else if Matches(CmdList(k), cmd) then k
    else FirstMatchFrom(cmd, k + 1)
  }

  /** The value `cmd_num` holds after the scan: the first matching position, or `End_of_Cmd_List`. */
  function FirstMatch(cmd: seq<Byte>): (r: nat)
    ensures r <= EndOfCmdList
    ensures r < EndOfCmdList ==> Matches(CmdList(r), cmd)
    ensures forall j :: 0 <= j < r ==> !Matches(CmdList(j), cmd)
  {
    FirstMatchFrom(cmd, 0)
  }

  /**
    The command `check_CIV` dispatches on, if any. A scan that ends at or
    beyond `End_of_Cmd_List - 1` counts as no match, so the last row is
    rejected even when it is the one that matched.
   */
  function Recognise(cmd: seq<Byte>): (r: Option<CmdId>)
    ensures r.None? <==> forall i :: 0 <= i < EndOfCmdList - 1 ==> !Matches(CmdList(i), cmd)
    ensures r.Some? ==>
      exists i :: 0 <= i < EndOfCmdList - 1 && Matches(CmdList(i), cmd) && CmdList(i).id == r.value &&
        (forall j :: 0 <= j < i ==> !Matches(CmdList(j), cmd))
  {
    var n := FirstMatch(cmd);
    if n >= EndOfCmdList - 1 then None else Some(CmdList(n).id)
  }

  lemma MatchesBody(sig: Signature, cmd: seq<Byte>)
    requires CmdWf(cmd)
    ensures Matches(sig, cmd) <==> cmd[0] == |sig.body| && cmd[1..cmd[0] + 1] == sig.body
  {
    if Matches(sig, cmd) {
      assert cmd[1..cmd[0] + 1] == cmd[..|sig.Bytes()|][1..];
    }
    if cmd[0] == |sig.body| && cmd[1..cmd[0] + 1] == sig.body {
      assert cmd[..|sig.Bytes()|] == [cmd[0]] + cmd[1..cmd[0] + 1];
    }
  }

  /**
    The nested loops of `check_CIV` (CIV.cpp:159-178): for each row, compare
    octets `0..cmd[0]` and stop at the first row where all of them agree.
    `matched` is the source's `match` counter.
   */
  method FindCommand(cmd: seq<Byte>) returns (cmdNum: nat)
    requires CmdWf(cmd)
    ensures cmdNum <= EndOfCmdList
    ensures cmdNum < EndOfCmdList ==> Matches(CmdList(cmdNum), cmd)
    ensures forall j :: 0 <= j < cmdNum ==> !Matches(CmdList(j), cmd)
  {
    var matched: nat := 0;
    cmdNum := 0;
    while cmdNum < EndOfCmdList
      invariant cmdNum <= EndOfCmdList
      invariant matched == 0
      invariant forall j :: 0 <= j < cmdNum ==> !Matches(CmdList(j), cmd)
    {
      var sig := CmdList(cmdNum);
      var row := sig.Bytes();
      var len: int := cmd[0];
      var i := 0;
      while i <= len
        invariant 0 <= i <= len + 1
        invariant matched == i
        invariant i > 0 ==> row[0] == cmd[0]
        invariant i <= |row| && row[..i] == cmd[..i]
      {
        if row[i] != cmd[i] {
          MismatchAt(sig, cmd, i);
          matched := 0;
          break;
        }
        assert row[..i + 1] == row[..i] + [row[i]];
        assert cmd[..i + 1] == cmd[..i] + [cmd[i]];
        matched := matched + 1;
        i := i + 1;
      }
      if matched == len + 1 {
        assert row == cmd[..|row|];
        break;
      }
      cmdNum := cmdNum + 1;
    }
  }

  /** One differing octet inside both the row and the body rules the row out. */
  lemma MismatchAt(sig: Signature, cmd: seq<Byte>, i: nat)
    requires i < |sig.Bytes()| && i < |cmd| && sig.Bytes()[i] != cmd[i]
    ensures !Matches(sig, cmd)
  {
  }

  /** The scan written as loops finds the same position as the functional definition. */
  lemma FindCommandAgrees(cmd: seq<Byte>, n: nat)
    requires n <= EndOfCmdList
    requires n < EndOfCmdList ==> Matches(CmdList(n), cmd)
    requires forall j :: 0 <= j < n ==> !Matches(CmdList(j), cmd)
    ensures n == FirstMatch(cmd)
  {
  }

  /**
    A row whose body repeats an earlier row's body can never be selected:
    the earlier row always wins.
   */
  lemma DuplicateNeverWins(i: nat, j: nat, cmd: seq<Byte>)
    requires i < j < EndOfCmdList
    requires CmdList(i).body == CmdList(j).body
    ensures FirstMatch(cmd) != j
  {
  }

  /** `PREAMP_ON` repeats the body of `PREAMP_OFF`, so it is never selected. */
  lemma PreampOnShadowed(cmd: seq<Byte>)
    ensures CmdList(31).id == PreampOn && FirstMatch(cmd) != 31
  {
    assert CmdList(30).body == [0x16, 0x02, 0x00] == CmdList(31).body;
    DuplicateNeverWins(30, 31, cmd);
  }

  /** `RF_POW` repeats the body of `RFPOWER`, so it is never selected. */
  lemma RfPowShadowed(cmd: seq<Byte>)
    ensures CmdList(41).id == RfPow && FirstMatch(cmd) != 41
  {
    assert CmdList(27).body == [0x14, 0x0A] == CmdList(41).body;
    DuplicateNeverWins(27, 41, cmd);
  }

  /** A body equal to row `n`'s, and to no earlier row's, selects row `n`. */
  lemma FirstRowWithBody(n: nat, cmd: seq<Byte>)
    requires n < EndOfCmdList && CmdWf(cmd)
    requires cmd[0] == |CmdList(n).body| && cmd[1..cmd[0] + 1] == CmdList(n).body
    requires forall r :: 0 <= r < n ==> CmdList(r).body != CmdList(n).body
    ensures FirstMatch(cmd) == n
  {
    var r := FirstMatch(cmd);
    MatchesBody(CmdList(n), cmd);
    if r < n {
      MatchesBody(CmdList(r), cmd);
    }
  }

  /** The attenuator-on report `[2, 0x11, 0x10]` is recognised as `ATTN_ON`. */
  lemma AttnOnExample()
    ensures Recognise([2, 0x11, 0x10]) == Some(AttnOn)
  {
    var cmd: seq<Byte> := [2, 0x11, 0x10];
    assert cmd[1..cmd[0] + 1] == CmdList(21).body;
    forall r | 0 <= r < 21 ensures CmdList(r).body != CmdList(21).body {}
    FirstRowWithBody(21, cmd);
  }

  /** A preamp-on report resolves to the earlier, identical `PREAMP_OFF` row. */
  lemma PreampOnExample()
    ensures Recognise([3, 0x16, 0x02, 0x00]) == Some(PreampOff)
  {
    var cmd: seq<Byte> := [3, 0x16, 0x02, 0x00];
    assert cmd[1..cmd[0] + 1] == CmdList(30).body;
    forall r | 0 <= r < 30 ensures CmdList(r).body != CmdList(30).body {}
    FirstRowWithBody(30, cmd);
  }

  /** The radio-on body matches only the last row, and the off-by-one test then rejects it. */
  lemma LastRowRejected()
    ensures FirstMatch([2, 0x18, 0x01]) == EndOfCmdList - 1
    ensures Recognise([2, 0x18, 0x01]) == None
  {
    var cmd: seq<Byte> := [2, 0x18, 0x01];
    assert cmd[1..cmd[0] + 1] == CmdList(55).body;
    forall r | 0 <= r < 55 ensures CmdList(r).body != CmdList(55).body {}
    FirstRowWithBody(55, cmd);
  }
}
