/** Values shared by every part of the model. */
module Base {

  /** A Go byte. */
  newtype byte = x: int | 0 <= x < 256

  /** A Go []byte. A nil slice and an empty slice both have length 0 and are both []. */
  type Bytes = seq<byte>

  /** A Go value that may be nil (a reference, an interface or an error). */
  datatype Option<+T> = None | Some(value: T)
}
