/** Types shared by every component of the mail pipeline. */
module Common {

  datatype Option<+T> = None | Some(value: T)

  /** Success or failure of a call whose error text does not matter. */
  datatype Result<+T> = Ok(value: T) | Err

  /** Go's uint32, the width of UIDs and UIDVALIDITY. */
  type Uint32 = n: int | 0 <= n < 0x1_0000_0000

  const MAX_UINT32: Uint32 := 0xFFFF_FFFF

  newtype Byte = n: int | 0 <= n < 256

  type Bytes = seq<Byte>
}
