/** Machine integer ranges, byte order and the failure-carrying wrappers shared
    by every part of the RSEQ model. */
module Common {

  type u8 = x: int | 0 <= x < 0x100
  type u16 = x: int | 0 <= x < 0x1_0000
  type u32 = x: int | 0 <= x < 0x1_0000_0000
  type u64 = x: int | 0 <= x < 0x1_0000_0000_0000_0000
  type i16 = x: int | -0x8000 <= x < 0x8000

  type Bytes = seq<u8>

  /** A label name: the bytes of a Rust `String`. */
  type Name = seq<u8>

  /** The byte order chosen once per container by its byte-order marker. */
  datatype Endianness = Big | Little

  datatype Option<T> = None | Some(value: T)

  datatype Result<T, E> = Success(value: T) | Failure(error: E)

  /** Rust's `x as u32` on an unsigned value: keep the low 32 bits. */
  function U32(x: nat): (r: u32)
    ensures x < 0x1_0000_0000 ==> r == x
  {
    x % 0x1_0000_0000
  }

  /** Rust's `x as u64` from a wider unsigned value. */
  function U64(x: nat): (r: u64)
    ensures x < 0x1_0000_0000_0000_0000 ==> r == x
  {
    x % 0x1_0000_0000_0000_0000
  }

  function Zeros(n: nat): (r: Bytes)
    ensures |r| == n
    ensures forall i :: 0 <= i < n ==> r[i] == 0
  {
    seq(n, _ => 0)
  }

  /** Little-endian base-256 value of a byte string. */
  function LE(bs: Bytes): nat
  {
    if |bs| == 0 then 0 else bs[0] + 0x100 * LE(bs[1..])
  }

  /** Big-endian base-256 value of a byte string. */
  function BE(bs: Bytes): nat
  {
    if |bs| == 0 then 0 else BE(bs[..|bs| - 1]) * 0x100 + bs[|bs| - 1]
  }

  /** The value a byte string denotes in the given byte order. */
  function Value(bs: Bytes, e: Endianness): nat
  {
    match e
    case Big => BE(bs)
    case Little => LE(bs)
  }

}
