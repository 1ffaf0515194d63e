// Values shared by the other modules: an optional value and an 8-bit byte.
module Options {
  datatype Option<+T> = None | Some(value: T)

  type Byte = b: int | 0 <= b < 256
  type Bytes = seq<Byte>
}
