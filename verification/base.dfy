/** Types shared by every part of the model. */
module Base {

  /** One byte of a buffer, as Python's `bytes`/`bytearray` elements. */
  type byte = b: int | 0 <= b < 256

  /** A value that may be absent, as Python's `None`. */
  datatype Option<+T> = None | Some(value: T)

  /** The outcome of an operation that may raise: a value, or the exception raised. */
  datatype Result<+T, +E> = Ok(value: T) | Err(error: E)

  /** The all-zero buffer of length `n` (`"\x00" * n`, `b'\x00' * n`). */
  function Zeros(n: nat): (r: seq<byte>)
    ensures |r| == n
    ensures forall i :: 0 <= i < n ==> r[i] == 0
  {
    seq(n, _ => 0)
  }
}
