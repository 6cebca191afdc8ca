/** Machine types, results and error codes shared by every layer. */
module Types {
  type byte = x: int | 0 <= x < 0x100
  type u16 = x: int | 0 <= x < 0x1_0000
  type u31 = x: int | 0 <= x < 0x8000_0000
  type u32 = x: int | 0 <= x < 0x1_0000_0000
  type Bytes = seq<byte>

  datatype Option<+T> = None | Some(value: T)

  /** A master key identifier: absent, or a byte string. */
  type Mki = Option<Bytes>

  datatype SrtpError =
    | Encryption
    | Authentication
    | InvalidKeySize
    | TransformDispatch
    | InvalidPacket
    | InvalidProfile
    | InvalidPacketIndex
    | InvalidMki
    | StreamNotFound
    | KeyLimit(isRtp: bool, isDead: bool, mki: Mki, ssrc: u32)

  datatype Result<+T> = Ok(value: T) | Err(error: SrtpError) {
    predicate IsFailure() { Err? }
    function PropagateFailure<U>(): Result<U>
      requires Err?
    {
      Err(error)
    }
    function Extract(): T
      requires Ok?
    {
      value
    }
  }

  type Unit = ()
}
