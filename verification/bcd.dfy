/**
  Binary-coded decimal codec used by every numeric CI-V field: one octet holds
  two decimal digits, the high nibble the tens and the low nibble the units.
  Multi-octet quantities are little-endian: the first octet holds the two
  least significant digits.
 */
module Bcd {
  import opened Base

  /** Low (units) nibble of an octet. */
  function Lo(b: Byte): nat { b % 16 }

  /** High (tens) nibble of an octet. */
  function Hi(b: Byte): nat { b / 16 }

  /** Both nibbles of `b` are decimal digits. */
  predicate IsBcd(b: Byte) { Lo(b) <= 9 && Hi(b) <= 9 }

  predicate AllBcd(bs: seq<Byte>) { forall i :: 0 <= i < |bs| ==> IsBcd(bs[i]) }

  /** 100 to the power `k`: the weight of the `k`-th octet of a little-endian field. */
  function Pow100(k: nat): (p: nat)
    ensures p >= 1
  {
    if k == 0 then 1 else 100 * Pow100(k - 1)
  }

  /**
    The library's `bcdByte`: tens from the high nibble, units from the low one.
    Nibbles above 9 are not rejected; they simply weigh in as 10..15.
   */
  function BcdByte(b: Byte): (r: nat)
    ensures r <= 165
    ensures IsBcd(b) ==> r <= 99
  {
    Hi(b) * 10 + Lo(b)
  }

  /** For an octet with two decimal nibbles, the decoded tens and units are the nibbles. */
  lemma BcdDigits(b: Byte)
    requires IsBcd(b)
    ensures BcdByte(b) / 10 == Hi(b) && BcdByte(b) % 10 == Lo(b)
  {
  }

  /** The reference encoder of one value 0..99 into one BCD octet. */
  function ToBcd(n: nat): (b: Byte)
    requires n <= 99
    ensures IsBcd(b)
    ensures Hi(b) == n / 10 && Lo(b) == n % 10
  {
    (n / 10) * 16 + n % 10
  }

  /** Decoding inverts the encoder on 0..99. */
  lemma BcdOfToBcd(n: nat)
    requires n <= 99
    ensures BcdByte(ToBcd(n)) == n
  {
  }

  /** The encoder inverts decoding on octets whose nibbles are both digits. */
  lemma ToBcdOfBcd(b: Byte)
    requires IsBcd(b)
    ensures ToBcd(BcdByte(b)) == b
  {
  }

  /**
    A little-endian BCD field: the `k`-th octet contributes its low nibble at
    weight 10^(2k) and its high nibble at weight 10^(2k+1).
   */
  function DecodeLeBcd(bs: seq<Byte>): (r: nat)
    ensures AllBcd(bs) ==> r < Pow100(|bs|)
  {
    if |bs| == 0 then 0 else BcdByte(bs[0]) + 100 * DecodeLeBcd(bs[1..])
  }

  /** The reference encoder: `n` as `len` little-endian BCD octets (higher digits dropped). */
  function EncodeLeBcd(n: nat, len: nat): (bs: seq<Byte>)
    ensures |bs| == len
    ensures AllBcd(bs)
  {
    if len == 0 then [] else [ToBcd(n % 100)] + EncodeLeBcd(n / 100, len - 1)
  }

  /** Even with nibbles above 9 a field stays below twice its decimal capacity. */
  lemma {:induction false} DecodeBound(bs: seq<Byte>)
    ensures DecodeLeBcd(bs) + 2 <= 2 * Pow100(|bs|)
  {
    if |bs| > 0 {
      DecodeBound(bs[1..]);
    }
  }

  /** Decoding inverts encoding for every magnitude the field can hold. */
  lemma {:induction false} DecodeEncode(n: nat, len: nat)
    requires n < Pow100(len)
    ensures DecodeLeBcd(EncodeLeBcd(n, len)) == n
  {
    if len > 0 {
      var bs := EncodeLeBcd(n, len);
      assert bs[1..] == EncodeLeBcd(n / 100, len - 1);
      DecodeEncode(n / 100, len - 1);
      BcdOfToBcd(n % 100);
    }
  }

  /** Encoding inverts decoding for every field whose nibbles are all decimal digits. */
  lemma {:induction false} EncodeDecode(bs: seq<Byte>)
    requires AllBcd(bs)
    ensures EncodeLeBcd(DecodeLeBcd(bs), |bs|) == bs
  {
    if |bs| > 0 {
      var b := bs[0];
      assert IsBcd(b);
      var c := BcdByte(b);
      var rest := DecodeLeBcd(bs[1..]);
      var n := DecodeLeBcd(bs);
      assert n == c + 100 * rest;
      assert AllBcd(bs[1..]);
      EncodeDecode(bs[1..]);
      DigitSplit(n, c, rest);
      assert ToBcd(c) == b by { ToBcdOfBcd(b); }
      calc {
        EncodeLeBcd(n, |bs|);
        [ToBcd(n % 100)] + EncodeLeBcd(n / 100, |bs| - 1);
        [ToBcd(c)] + EncodeLeBcd(rest, |bs| - 1);
        [b] + bs[1..];
        bs;
      }
    }
  }

  /** Splitting a number into its last two digits and the rest is unique. */
  lemma DigitSplit(n: nat, low: nat, high: nat)
    requires low < 100 && n == low + 100 * high
    ensures n % 100 == low && n / 100 == high
  {
  }

  /** Appending an octet adds its two digits at the next weight. */
  lemma {:induction false} DecodeSnoc(bs: seq<Byte>, b: Byte)
    ensures DecodeLeBcd(bs + [b]) == DecodeLeBcd(bs) + (Lo(b) + 10 * Hi(b)) * Pow100(|bs|)
  {
    if |bs| > 0 {
      var d := Lo(b) + 10 * Hi(b);
      var p := Pow100(|bs| - 1);
      assert (bs + [b])[1..] == bs[1..] + [b];
      DecodeSnoc(bs[1..], b);
      assert DecodeLeBcd(bs[1..] + [b]) == DecodeLeBcd(bs[1..]) + d * p;
      assert 100 * (d * p) == d * (100 * p) by { MulShift(100, d, p); }
    }
  }

  lemma MulShift(a: nat, b: nat, c: nat)
    ensures a * (b * c) == b * (a * c)
  {
  }

  /**
    The band-stack frequency loop (CIV.cpp:256-271): a running multiplier
    `mul` that grows by ten after each nibble, units before tens.
   */
  method DecodeFrequency(rx: seq<Byte>) returns (freq: nat)
    ensures freq == DecodeLeBcd(rx)
    ensures AllBcd(rx) ==> freq < Pow100(|rx|)
  {
    var mul: nat := 1;
    freq := 0;
    var idx := 0;
    while idx < |rx|
      invariant 0 <= idx <= |rx|
      invariant mul == Pow100(idx)
      invariant freq == DecodeLeBcd(rx[..idx])
    {
      var lo, hi := Lo(rx[idx]), Hi(rx[idx]);
      StepDigits(rx[..idx], rx[idx], freq, mul);
      assert rx[..idx + 1] == rx[..idx] + [rx[idx]];
      freq := freq + lo * mul;
      mul := mul * 10;
      freq := freq + hi * mul;
      mul := mul * 10;
      idx := idx + 1;
    }
    assert rx[..idx] == rx;
  }

  /** One iteration of the frequency loop appends one octet's two digits. */
  lemma StepDigits(done: seq<Byte>, b: Byte, freq: nat, mul: nat)
    requires mul == Pow100(|done|) && freq == DecodeLeBcd(done)
    ensures freq + Lo(b) * mul + Hi(b) * (mul * 10) == DecodeLeBcd(done + [b])
    ensures mul * 10 * 10 == Pow100(|done + [b]|)
    ensures Lo(b) * mul >= 0 && Hi(b) * (mul * 10) >= 0
  {
    var n := |done|;
    DecodeSnoc(done, b);
    TwoDigits(Lo(b), Hi(b), mul);
    assert |done + [b]| == n + 1;
    assert Pow100(n + 1) == 100 * Pow100(n);
    ProductNonneg(Lo(b), mul);
    ProductNonneg(Hi(b), mul * 10);
  }

  lemma ProductNonneg(a: nat, b: nat)
    ensures a * b >= 0
  {
  }

  lemma TwoDigits(lo: nat, hi: nat, mul: nat)
    ensures lo * mul + hi * (mul * 10) == (lo + 10 * hi) * mul
  {
    Distribute(lo, 10 * hi, mul);
    MulShift(10, hi, mul);
    assert (10 * hi) * mul == 10 * (hi * mul);
  }

  lemma Distribute(a: nat, b: nat, c: nat)
    ensures (a + b) * c == a * c + b * c
  {
  }

  /**
    `getByteResponse` (CIV.cpp:650-657): a guarded two-octet BCD read into a
    `uint8_t`, so the hundreds and the final sum both wrap modulo 256.
   */
  function GetByteResponse(mCounter: Byte, offset: Byte, buffer: seq<Byte>): (r: Byte)
    requires mCounter <= |buffer|
    ensures mCounter < offset + 3 ==> r == 0
    ensures mCounter >= offset + 3 ==>
      r == (100 * BcdByte(buffer[offset]) + BcdByte(buffer[offset + 1])) % 256
  {
    if mCounter < offset + 3 then 0
    else
      var ret := ToByte(BcdByte(buffer[offset]) * 100);
      ModAbsorb(BcdByte(buffer[offset]) * 100, BcdByte(buffer[offset + 1]));
      ToByte(ret + BcdByte(buffer[offset + 1]))
  }

  /** Reducing the first addend early does not change a sum modulo 256. */
  lemma ModAbsorb(x: nat, y: nat)
    ensures (x % 256 + y) % 256 == (x + y) % 256
  {
    var q := x / 256;
    assert x == 256 * q + x % 256;
    ModShift(x % 256 + y, q);
  }

  lemma ModShift(z: nat, q: nat)
    ensures (256 * q + z) % 256 == z % 256
  {
  }

  /** A value 0..255 written as its hundreds and its last two digits reads back unchanged. */
  lemma GetByteResponseRoundTrip(v: Byte, mCounter: Byte, offset: Byte, buffer: seq<Byte>)
    requires mCounter <= |buffer| && mCounter >= offset + 3
    requires buffer[offset] == ToBcd(v / 100) && buffer[offset + 1] == ToBcd(v % 100)
    ensures GetByteResponse(mCounter, offset, buffer) == v
  {
    BcdOfToBcd(v / 100);
    BcdOfToBcd(v % 100);
  }
}
