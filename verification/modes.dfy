/**
  The extended mode table `modeList`: one row per (radio mode, data flag)
  combination, each with a mutable filter-width slot. A row's position is the
  extended mode index stored in band memory.
 */
module Modes {
  import opened Base
  import Bcd

  /** A row of `modeList`: the radio's BCD mode code, the data flag and the filter width. */
  datatype ModeEntry = ModeEntry(modeNum: int, data: Byte, width: Byte)

  /** What a lookup compares: the mode code alone, or the code and the data flag. */
  datatype ModeKey = ByCode(code: int) | ByCodeAndData(code: int, data: Byte)

  predicate Fits(e: ModeEntry, key: ModeKey)
  {
    match key
    case ByCode(code) => e.modeNum == code
    case ByCodeAndData(code, data) => e.modeNum == code && e.data == data
  }

  /** The least position at or after `k` whose row fits `key` (the `for ... break` loops). */
  function ResolveFrom(modes: seq<ModeEntry>, key: ModeKey, k: nat): (r: Option<nat>)
    requires k <= |modes|
    ensures r.Some? ==> k <= r.value < |modes| && Fits(modes[r.value], key)
    ensures r.Some? ==> forall j :: k <= j < r.value ==> !Fits(modes[j], key)
    ensures r.None? ==> forall j :: k <= j < |modes| ==> !Fits(modes[j], key)
    decreases |modes| - k
  {
    if k == |modes| then None
    else if Fits(modes[k], key) then Some(k)
    else ResolveFrom(modes, key, k + 1)
  }

  /**
    The first-match mode lookup (CIV.cpp:216-223, 280-287, 341-348): the least
    table position whose row fits `key`, or nothing.
   */
  function Resolve(modes: seq<ModeEntry>, key: ModeKey): (r: Option<nat>)
    ensures r.Some? ==> r.value < |modes| && Fits(modes[r.value], key)
    ensures r.Some? ==> forall j :: 0 <= j < r.value ==> !Fits(modes[j], key)
    ensures r.None? <==> forall j :: 0 <= j < |modes| ==> !Fits(modes[j], key)
  {
    ResolveFrom(modes, key, 0)
  }

  /**
    What the source leaves in `radio_mode` after a lookup: the extended index
    when one is found, otherwise the raw code unchanged. The lookup loops run
    a `uint8_t` counter up to the table size, so they only terminate on a
    table of fewer than 256 entries.
   */
  function IndexOrRaw(modes: seq<ModeEntry>, code: Byte, key: ModeKey): (r: Byte)
    requires |modes| < 256
    ensures Resolve(modes, key).None? ==> r == code
    ensures Resolve(modes, key).Some? ==> r < |modes| && Fits(modes[r], key)
    ensures Resolve(modes, key).Some? ==> r == Resolve(modes, key).value
    ensures Resolve(modes, key).Some? ==> forall j :: 0 <= j < r ==> !Fits(modes[j], key)
  {
    match Resolve(modes, key)
    case Some(i) => i
    case None => code
  }

  /** `modeList[i].Width = w`. */
  function SetWidth(modes: seq<ModeEntry>, i: nat, w: Byte): (r: seq<ModeEntry>)
    requires i < |modes|
    ensures |r| == |modes|
    ensures r[i].width == w && r[i].modeNum == modes[i].modeNum && r[i].data == modes[i].data
    ensures forall j :: 0 <= j < |modes| && j != i ==> r[j] == modes[j]
  {
    modes[i := modes[i].(width := w)]
  }

  /** Rewriting a filter width never changes which row a later lookup finds. */
  lemma {:induction false} WidthKeepsResolution(modes: seq<ModeEntry>, i: nat, w: Byte, key: ModeKey, k: nat)
    requires i < |modes| && k <= |modes|
    ensures ResolveFrom(SetWidth(modes, i, w), key, k) == ResolveFrom(modes, key, k)
    decreases |modes| - k
  {
    var m := SetWidth(modes, i, w);
    if k < |modes| {
      assert Fits(m[k], key) == Fits(modes[k], key);
      WidthKeepsResolution(modes, i, w, key, k + 1);
    }
  }

  /**
    `hexToDec(String(n))`: the decimal digits of `n` read back as hexadecimal,
    which turns a decimal mode number into its BCD code.
   */
  function DecimalAsHex(n: nat): (r: nat)
    ensures n < 10 ==> r == n
  {
    if n < 10 then n else 16 * DecimalAsHex(n / 10) + n % 10
  }

  /** For two-digit values the string round trip is exactly the BCD encoder. */
  lemma DecimalAsHexIsBcd(n: nat)
    requires n <= 99
    ensures DecimalAsHex(n) == Bcd.ToBcd(n)
    ensures Bcd.BcdByte(DecimalAsHex(n) as Byte) == n
  {
    var tens, units := n / 10, n % 10;
    assert n == 10 * tens + units && units < 10;
    assert Bcd.ToBcd(n) == 16 * tens + units;
    if n >= 10 {
      assert tens < 10;
      assert DecimalAsHex(n) == 16 * tens + units;
    } else {
      assert tens == 0;
    }
    Bcd.BcdOfToBcd(n);
  }
}
