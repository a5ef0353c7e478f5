/** Values shared by every part of the model: bytes, Go's error returns, and
    the 64-bit signed integer that Go's `int` is on the platforms the
    server runs on. */
module Base {

  /** One octet. Go strings are byte strings, so both `string` and `[]byte`
      of the source are modelled as `Bytes`. */
  newtype byte = b: int | 0 <= b < 256

  type Bytes = seq<byte>

  /** Go's `int` on a 64-bit platform. */
  newtype int64 = x: int | -0x8000_0000_0000_0000 <= x < 0x8000_0000_0000_0000

  /** The errors the core returns, one per `errors.New` (or passed-through
      error) of the source. */
  datatype Error =
    | TimeMarshal          // time.Time.MarshalBinary failed; passed through by NewId
    | MessageIdOverwrite   // "message id overwrite"
    | NoUsers              // "no users in conversation"
    | MessageMissing       // "message doesn't exist"
    | NoFreeSlot           // "this is bad": join with zero or two occupants
    | ConvoIdOverwrite     // "convo id overwrite"

  /** A Go `(value, error)` pair in which exactly one half is meaningful. */
  datatype Result<T> = Ok(value: T) | Err(error: Error)

  /** A Go function that returns only an `error`. */
  datatype Outcome = Pass | Fail(error: Error)

  /** A Go lookup that may yield `nil`. */
  datatype Option<T> = None | Some(value: T)
}
