/** Machine integer widths and the failure-carrying wrappers shared by every
    component of the VIA raw-HID sender. */
module Types {

  /** Rust's `u8`: one byte of a HID report. */
  newtype uint8 = x: int | 0 <= x < 0x100

  /** Rust's `u16`: vendor, product, usage page and usage identifiers. */
  newtype uint16 = x: int | 0 <= x < 0x1_0000

  datatype Option<+T> = None | Some(value: T)

  datatype Result<+T, +E> = Ok(value: T) | Err(error: E)

  /** `n` copies of byte `b`. */
  function Fill(b: uint8, n: nat): (r: seq<uint8>)
    ensures |r| == n
    ensures forall i :: 0 <= i < n ==> r[i] == b
  {
    if n == 0 then [] else [b] + Fill(b, n - 1)
  }
}
