/** Values shared by every part of the sector-based disk model: bytes,
    the fixed sector size and the typed failures of sector access. */
module DiskTypes {

  /** An unsigned 8-bit value, as the controller exchanges them. */
  newtype byte = b: int | 0 <= b < 256

  /** Every sector operation moves exactly this many bytes. */
  const SECTOR_SIZE: nat := 512

  /** The failures a sector access can report to the controller. */
  datatype DiskError = NoSuchSector | WriteProtected | DiskIOError

  datatype Option<T> = None | Some(value: T)

  /** The result of an operation that produces a value or fails. */
  datatype Result<T> = Ok(value: T) | Err(error: DiskError)

  /** The result of an operation that only succeeds or fails. */
  datatype Outcome = Pass | Fail(error: DiskError)

  /** `n` copies of `v`: what a counted loop `*out++ = v` emits. */
  function Repeat(v: byte, n: nat): (r: seq<byte>)
    ensures |r| == n
    ensures forall i :: 0 <= i < n ==> r[i] == v
  {
    seq(n, _ => v)
  }
}
