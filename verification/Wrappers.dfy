/** Option and Result, and the machine integers whose width matters to the server. */
module Wrappers {

  datatype Option<+T> = None | Some(value: T)

  datatype Result<+T, +E> = Success(value: T) | Failure(error: E) {
    predicate IsFailure() {
      Failure?
    }

    function PropagateFailure<U>(): Result<U, E>
      requires Failure?
    {
      Failure(error)
    }

    function Extract(): T
      requires Success?
    {
      value
    }
  }

  const I64_MAX: int := 0x7fff_ffff_ffff_ffff
  const U64_MAX: int := 0xffff_ffff_ffff_ffff

  type Int64 = x: int | -0x8000_0000_0000_0000 <= x <= 0x7fff_ffff_ffff_ffff
  type Int32 = x: int | -0x8000_0000 <= x <= 0x7fff_ffff

  /** A length cast with `as i64`: the low 64 bits, read as two's complement. */
  function AsInt64(n: nat): (r: Int64)
    ensures n <= I64_MAX ==> r == n
    ensures (n - r) % 0x1_0000_0000_0000_0000 == 0
  {
    var low := n % 0x1_0000_0000_0000_0000;
    if low <= I64_MAX then low else low - 0x1_0000_0000_0000_0000
  }

  /** `u64::saturating_add(1)`. */
  function SaturatingIncrement(n: nat): nat {
    if n < U64_MAX then n + 1 else U64_MAX
  }

  function Min(a: nat, b: nat): nat {
    if a <= b then a else b
  }

  newtype Byte = x: int | 0 <= x < 256

  type Bytes = seq<Byte>

  /** The bytes of a list of chunks, in order. */
  function Concat(chunks: seq<Bytes>): Bytes {
    if chunks == [] then [] else chunks[0] + Concat(chunks[1..])
  }
}
