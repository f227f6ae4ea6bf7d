/** Small shared vocabulary: octets of a CI-V frame and an optional value. */
module Base {

  /** One octet as carried by a CI-V frame (a C `uint8_t`). */
  type Byte = x: int | 0 <= x < 256

  /** Two to the 64: the modulus of the C `uint64_t` arithmetic in the tuner. */
  const U64: nat := 0x1_0000_0000_0000_0000

  /** A lookup that may find nothing. */
  datatype Option<T> = None | Some(value: T)

  /** Truncation of a non-negative integer to a C `uint8_t`. */
  function ToByte(n: nat): (b: Byte)
    ensures n < 256 ==> b == n
    ensures (n - b) % 256 == 0
  {
    n % 256
  }
}
