/** Shared vocabulary of the preview handler: Go's byte strings and int64,
    optional values, and the error values that flow through the handler. */
module Common {

  /** One byte of a Go string. */
  type Byte = b: int | 0 <= b < 256

  /** Go's int64, the type of time.Time.Unix() and of a file's size. */
  type Int64 = x: int | -0x8000_0000_0000_0000 <= x < 0x8000_0000_0000_0000

  datatype Option<T> = None | Some(value: T)

  /** The errors the handler returns or compares against. Go compares errors
      by identity; here each is a distinct value. */
  datatype Error =
    | ErrUnsupportedFormat               // img.ErrUnsupportedFormat
    | InvalidSize(token: seq<Byte>)      // returned by ParsePreviewSize
    | NoPreviewForType(fileType: string) // "can't create preview for %s type"
    | Backend(code: nat)                 // any other error of a collaborator

  datatype Result<T> = Success(value: T) | Failure(error: Error)
}
