/** Result types and machine integers shared by every component. */
module Wrappers {

  datatype Option<+T> = None | Some(value: T)

  /** The errors of protocol/boringtun/src/noise/errors.rs that the model raises. */
  datatype Error =
    | DestinationBufferTooSmall
    | UnexpectedPacket
    | WrongIndex
    | WrongKey
    | InvalidTai64nTimestamp
    | WrongTai64nTimestamp
    | InvalidMac
    | InvalidAeadTag
    | InvalidCounter
    | DuplicateCounter
    | InvalidPacket
    | NoCurrentSession
    | ConnectionExpired
    | UnderLoad

  datatype Result<+T> = Ok(value: T) | Err(error: Error)

  datatype Unit = Unit

  const U32_SIZE: nat := 0x1_0000_0000
  const U64_SIZE: nat := 0x1_0000_0000_0000_0000

  type u8 = x: int | 0 <= x < 256
  type u32 = x: int | 0 <= x < 0x1_0000_0000
  type u64 = x: int | 0 <= x < 0x1_0000_0000_0000_0000
}
