/**
  The duplex-offset answer: three little-endian BCD octets, `datafield[1..3]`,
  holding the 1 kHz/100 Hz, 100 kHz/10 kHz and 10 MHz/1 MHz digit pairs.
 */
module Duplex {
  import opened Base
  import opened Bcd

  /**
    The duplex offset in Hz as the source computes it (CIV.cpp:547-550):
    `(bcd(d3) * 1000 + bcd(d2) * 10 + bcd(d1)) * 1000`, with no sign applied.
    Per nibble, `d1`'s low and high digits weigh 1 kHz and 10 kHz, `d2`'s
    10 kHz and 100 kHz, `d3`'s 1 MHz and 10 MHz.
   */
  function DuplexOffset(d1: Byte, d2: Byte, d3: Byte): (r: nat)
    ensures r == 1000 * Lo(d1) + 10_000 * Hi(d1) + 10_000 * Lo(d2) + 100_000 * Hi(d2)
                 + 1_000_000 * Lo(d3) + 10_000_000 * Hi(d3)
  {
    (BcdByte(d3) * 1000 + BcdByte(d2) * 10 + BcdByte(d1)) * 1000
  }

  /** The decoded offset is whole kHz, fits `int32_t`, and stays below 100.09 MHz for BCD octets. */
  lemma DuplexOffsetRange(d1: Byte, d2: Byte, d3: Byte)
    ensures DuplexOffset(d1, d2, d3) % 1000 == 0
    ensures DuplexOffset(d1, d2, d3) < 0x8000_0000
    ensures IsBcd(d1) && IsBcd(d2) && IsBcd(d3) ==> DuplexOffset(d1, d2, d3) <= 100_089_000
  {
    var k := BcdByte(d3) * 1000 + BcdByte(d2) * 10 + BcdByte(d1);
    assert DuplexOffset(d1, d2, d3) == k * 1000;
  }

  /**
    Two nibbles of a duplex report share the 10 kHz weight in the source's
    decoder: a digit in `d1`'s high nibble and the same digit in `d2`'s low
    nibble decode to the same offset (`10 00 00` and `00 01 00` both give
    10 kHz), so it is not injective on BCD reports. `DuplexOffsetHz` corrects
    this.
   */
  lemma DuplexDigitsOverlap(d1: Byte, d2: Byte)
    requires Lo(d1) == 0 && Hi(d2) == 0 && Hi(d1) == Lo(d2)
    ensures DuplexOffset(d1, 0, 0) == DuplexOffset(0, d2, 0) == 10_000 * Hi(d1)
  {
    var z: Byte := 0;
    assert Lo(z) == 0 && Hi(z) == 0;
    assert DuplexOffset(d1, z, z) == 10_000 * Hi(d1);
    assert DuplexOffset(z, d2, z) == 10_000 * Lo(d2);
  }

  /**
    A report whose only digit is `d1`'s low nibble (the 100 Hz digit by the
    layout) decodes to ten times the offset that digit denotes.
   */
  lemma DuplexLowDigitTenfold(d1: Byte)
    requires Hi(d1) == 0 && Lo(d1) > 0
    ensures DuplexOffset(d1, 0, 0) == 10 * DuplexOffsetHz(d1, 0, 0) == 1000 * Lo(d1)
  {
  }

  /**
    The duplex offset in Hz with the positional weights the report layout
    gives: `d1` holds the 1 kHz and 100 Hz digits, `d2` the 100 kHz and
    10 kHz digits, `d3` the 10 MHz and 1 MHz digits.
   */
  function DuplexOffsetHz(d1: Byte, d2: Byte, d3: Byte): (r: nat)
    ensures r % 100 == 0
    ensures r == 100 * Lo(d1) + 1000 * Hi(d1) + 10_000 * Lo(d2) + 100_000 * Hi(d2)
                 + 1_000_000 * Lo(d3) + 10_000_000 * Hi(d3)
    ensures IsBcd(d1) && IsBcd(d2) && IsBcd(d3) ==> r < 100_000_000
  {
    100 * BcdByte(d1) + 10_000 * BcdByte(d2) + 1_000_000 * BcdByte(d3)
  }

  /** The three BCD octets of a duplex offset in whole hundreds of Hz below 100 MHz. */
  function EncodeDuplex(n: nat): (f: (Byte, Byte, Byte))
    requires n % 100 == 0 && n < 100_000_000
    ensures IsBcd(f.0) && IsBcd(f.1) && IsBcd(f.2)
  {
    var k := n / 100;
    var q := k / 100;
    (ToBcd(k % 100), ToBcd(q % 100), ToBcd(q / 100))
  }

  /** Encoding an offset and decoding it with the positional weights gives it back. */
  lemma DuplexRoundTrip(n: nat)
    requires n % 100 == 0 && n < 100_000_000
    ensures var f := EncodeDuplex(n); DuplexOffsetHz(f.0, f.1, f.2) == n
  {
    var k := n / 100;
    var q := k / 100;
    BcdOfToBcd(k % 100);
    BcdOfToBcd(q % 100);
    BcdOfToBcd(q / 100);
    assert q == q % 100 + 100 * (q / 100);
    assert k == k % 100 + 100 * q;
    assert n == 100 * k;
  }

  /** Every BCD report decodes to an offset that encodes back to the same octets. */
  lemma DuplexDecodeEncode(d1: Byte, d2: Byte, d3: Byte)
    requires IsBcd(d1) && IsBcd(d2) && IsBcd(d3)
    ensures var n := DuplexOffsetHz(d1, d2, d3);
      n % 100 == 0 && n < 100_000_000 && EncodeDuplex(n) == (d1, d2, d3)
  {
    var x1, x2, x3 := BcdByte(d1), BcdByte(d2), BcdByte(d3);
    var n := DuplexOffsetHz(d1, d2, d3);
    var q := x2 + 100 * x3;
    var k := x1 + 100 * q;
    assert n == 100 * k;
    assert n / 100 == k;
    DigitSplit(k, x1, q);
    DigitSplit(q, x2, x3);
    ToBcdOfBcd(d1);
    ToBcdOfBcd(d2);
    ToBcdOfBcd(d3);
  }
}
