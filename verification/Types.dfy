/** Vocabulary shared by every layer. */
module Types {
  newtype byte = x: int | 0 <= x < 256

  type Bytes = seq<byte>

  const U32: nat := 0x1_0000_0000
  const U64: nat := 0x1_0000_0000_0000_0000

  datatype Option<+T> = None | Some(value: T)

  datatype Error =
    | NoImageInClipboard | ClipboardOpenFailed | ClipboardLockFailed | ClipboardReadFailed
    | ImageTooLarge | PngEncodeFailed | TempFileFailed
    | ChannelNotConnected | ChannelSpawnFailed | ChannelWriteFailed | ChannelReadFailed
    | SftpInitFailed | SftpProtocolError | SftpStatusError
    | RealpathFailed | MkdirFailed | OpenFailed | WriteFailed | CloseFailed | StatFailed
    | RenameFailed | RemoveFailed | SizeMismatch | BufferTooSmall
    | ClipboardSetFailed | FocusChanged | SendInputRejected
    | ConfigParseFailed | ConfigWriteFailed
    | Busy | UploadTimeout | LogIoFailed

  datatype Status = Ok | Err(error: Error)

  datatype Result<+T> = Success(value: T) | Failure(error: Error)
}
