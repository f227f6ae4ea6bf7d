/**
  Decoders of the small signed and unsigned CI-V fields: RIT/XIT offset,
  UTC offset and the clock fields of a position report. Each
  takes the `datafield` octets it reads; `datafield[0]` is the data length.
 */
module Fields {
  import opened Base
  import opened Bcd

  /**
    The RIT/XIT offset in Hz (CIV.cpp:568-571): `d1` holds the tens and units
    of Hz, `d2` the thousands and hundreds, and a non-zero `sign` negates.
   */
  function RitOffset(d1: Byte, d2: Byte, sign: Byte): (r: int)
    ensures -0x8000 <= r < 0x8000
    ensures IsBcd(d1) && IsBcd(d2) ==> -9999 <= r <= 9999
    ensures sign == 0 ==> r >= 0
    ensures sign != 0 ==> r <= 0
    ensures r == 0 <==> BcdByte(d1) == 0 && BcdByte(d2) == 0
  {
    var magnitude := BcdByte(d2) * 100 + BcdByte(d1);
    if sign != 0 then -magnitude else magnitude
  }

  /** The reference encoder: an offset of at most 9999 Hz as two BCD octets and a sign octet. */
  function EncodeRit(n: int): (f: (Byte, Byte, Byte))
    requires -9999 <= n <= 9999
    ensures IsBcd(f.0) && IsBcd(f.1) && (f.2 == 0 || f.2 == 1)
  {
    var m := if n < 0 then -n else n;
    (ToBcd(m % 100), ToBcd(m / 100), if n < 0 then 1 else 0)
  }

  /** Decoding inverts encoding for every offset the radio can report. */
  lemma RitRoundTrip(n: int)
    requires -9999 <= n <= 9999
    ensures var f := EncodeRit(n); RitOffset(f.0, f.1, f.2) == n
  {
    var m := if n < 0 then -n else n;
    BcdOfToBcd(m % 100);
    BcdOfToBcd(m / 100);
  }

  /**
    Encoding inverts decoding for BCD octets and a 0/1 sign, except that a
    zero offset reported with the minus sign comes back with the plus sign.
   */
  lemma RitDecodeEncode(d1: Byte, d2: Byte, sign: Byte)
    requires IsBcd(d1) && IsBcd(d2) && (sign == 0 || sign == 1)
    requires sign == 1 ==> BcdByte(d1) + BcdByte(d2) > 0
    ensures EncodeRit(RitOffset(d1, d2, sign)) == (d1, d2, sign)
  {
    var lo, hi := BcdByte(d1), BcdByte(d2);
    var m: int := hi * 100 + lo;
    var n := RitOffset(d1, d2, sign);
    assert (if n < 0 then -n else n) == m;
    var f := EncodeRit(n);
    assert f.0 == ToBcd(m % 100) && f.1 == ToBcd(m / 100);
    DigitSplit(m, lo, hi);
    ToBcdOfBcd(d1);
    ToBcdOfBcd(d2);
  }

  /** A UTC offset as stored in `hr_off`, `min_off` and `shift_dir`. */
  datatype UtcShift = UtcShift(hours: int, minutes: int, dir: int)

  /**
    The UTC-offset report (CIV.cpp:424-433): hours and minutes in BCD, and a
    third BCD octet whose non-zero value negates both.
   */
  function UtcOffset(d1: Byte, d2: Byte, d3: Byte): (u: UtcShift)
    ensures u.dir == BcdByte(d3)
    ensures u.dir == 0 ==> u.hours == BcdByte(d1) && u.minutes == BcdByte(d2)
    ensures u.dir != 0 ==> u.hours == -(BcdByte(d1) as int) && u.minutes == -(BcdByte(d2) as int)
    ensures (u.hours >= 0 && u.minutes >= 0) || (u.hours <= 0 && u.minutes <= 0)
    ensures IsBcd(d1) && IsBcd(d2) ==> Encodable(u.hours, u.minutes)
  {
    var dir := BcdByte(d3);
    var h: int, m: int := BcdByte(d1), BcdByte(d2);
    if dir != 0 then UtcShift(-h, -m, dir) else UtcShift(h, m, dir)
  }

  /** Hours and minutes of at most two digits each and of one sign. */
  predicate Encodable(hours: int, minutes: int)
  {
    -99 <= hours <= 99 && -99 <= minutes <= 99 &&
    ((hours >= 0 && minutes >= 0) || (hours <= 0 && minutes <= 0))
  }

  /**
    The reference encoder: an offset of at most 99 h 99 min, hours and minutes
    of one sign, as two BCD octets and a direction octet (1 for minus).
   */
  function EncodeUtc(hours: int, minutes: int): (f: (Byte, Byte, Byte))
    requires Encodable(hours, minutes)
    ensures IsBcd(f.0) && IsBcd(f.1) && (f.2 == 0 || f.2 == 1)
  {
    var negative := hours < 0 || minutes < 0;
    var h := if hours < 0 then -hours else hours;
    var m := if minutes < 0 then -minutes else minutes;
    (ToBcd(h), ToBcd(m), if negative then 1 else 0)
  }

  /** Decoding inverts encoding for every offset of one sign. */
  lemma UtcRoundTrip(hours: int, minutes: int)
    requires Encodable(hours, minutes)
    ensures var f := EncodeUtc(hours, minutes);
      var u := UtcOffset(f.0, f.1, f.2);
      u.hours == hours && u.minutes == minutes && (u.dir != 0 <==> hours < 0 || minutes < 0)
  {
    var f := EncodeUtc(hours, minutes);
    var h := if hours < 0 then -hours else hours;
    var m := if minutes < 0 then -minutes else minutes;
    assert f.0 == ToBcd(h) && f.1 == ToBcd(m);
    BcdOfToBcd(h);
    BcdOfToBcd(m);
    assert BcdByte(f.0) == h && BcdByte(f.1) == m;
    DirectionDigit(f.2);
    if hours < 0 || minutes < 0 {
      assert f.2 == 1;
      assert UtcOffset(f.0, f.1, f.2) == UtcShift(-h, -m, 1);
    } else {
      assert f.2 == 0;
      assert UtcOffset(f.0, f.1, f.2) == UtcShift(h, m, 0);
    }
  }

  /** A direction octet 0 or 1 decodes to itself. */
  lemma DirectionDigit(d: Byte)
    requires d == 0 || d == 1
    ensures BcdByte(d) == d
  {
  }

  /**
    Encoding inverts decoding for BCD octets and a 0/1 direction, except that
    a zero offset reported with the minus direction comes back as plus.
   */
  lemma UtcDecodeEncode(d1: Byte, d2: Byte, d3: Byte)
    requires IsBcd(d1) && IsBcd(d2) && (d3 == 0 || d3 == 1)
    requires d3 == 1 ==> BcdByte(d1) + BcdByte(d2) > 0
    ensures var u := UtcOffset(d1, d2, d3); EncodeUtc(u.hours, u.minutes) == (d1, d2, d3)
  {
    var h: int, m: int := BcdByte(d1), BcdByte(d2);
    DirectionDigit(d3);
    if d3 == 0 {
      assert UtcOffset(d1, d2, d3) == UtcShift(h, m, d3);
      UtcPlusDigits(d1, d2, d3);
    } else {
      assert UtcOffset(d1, d2, d3) == UtcShift(-h, -m, d3);
      UtcMinusDigits(d1, d2, d3);
    }
  }

  lemma UtcPlusDigits(d1: Byte, d2: Byte, d3: Byte)
    requires IsBcd(d1) && IsBcd(d2) && d3 == 0
    ensures EncodeUtc(BcdByte(d1), BcdByte(d2)) == (d1, d2, d3)
  {
    ToBcdOfBcd(d1);
    ToBcdOfBcd(d2);
  }

  lemma UtcMinusDigits(d1: Byte, d2: Byte, d3: Byte)
    requires IsBcd(d1) && IsBcd(d2) && BcdByte(d1) + BcdByte(d2) > 0 && d3 == 1
    ensures EncodeUtc(-(BcdByte(d1) as int), -(BcdByte(d2) as int)) == (d1, d2, d3)
  {
    ToBcdOfBcd(d1);
    ToBcdOfBcd(d2);
  }

  /** A clock field read back through the reference encoder. */
  lemma ClockDigit(b: Byte)
    ensures IsBcd(b) ==> BcdByte(b) <= 99 && ToBcd(BcdByte(b)) == b
  {
    if IsBcd(b) {
      ToBcdOfBcd(b);
    }
  }

  /** The arguments of the `setTime` call of a position report. */
  datatype TimeFields = TimeFields(hour: nat, minute: nat, second: nat, day: nat, month: nat, year: nat)

  /**
    The clock fields of a position report (CIV.cpp:392-400), each one BCD
    octet: year at 23, month 24, day 25, hour 26, minute 27, second 28.
   */
  function DecodeClock(df: seq<Byte>): (t: TimeFields)
    requires |df| >= 29
    ensures IsBcd(df[26]) ==> t.hour <= 99 && ToBcd(t.hour) == df[26]
    ensures IsBcd(df[27]) ==> t.minute <= 99 && ToBcd(t.minute) == df[27]
    ensures IsBcd(df[28]) ==> t.second <= 99 && ToBcd(t.second) == df[28]
    ensures IsBcd(df[25]) ==> t.day <= 99 && ToBcd(t.day) == df[25]
    ensures IsBcd(df[24]) ==> t.month <= 99 && ToBcd(t.month) == df[24]
    ensures IsBcd(df[23]) ==> t.year <= 99 && ToBcd(t.year) == df[23]
  {
    ClockDigit(df[23]);
    ClockDigit(df[24]);
    ClockDigit(df[25]);
    ClockDigit(df[26]);
    ClockDigit(df[27]);
    ClockDigit(df[28]);
    TimeFields(BcdByte(df[26]), BcdByte(df[27]), BcdByte(df[28]),
               BcdByte(df[25]), BcdByte(df[24]), BcdByte(df[23]))
  }
}
