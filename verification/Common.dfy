// Small shared vocabulary: bytes and optional values.
module Common {
  newtype Byte = x: int | 0 <= x < 256

  datatype Option<+T> = None | Some(value: T)

  function Min(a: int, b: int): (m: int)
    ensures m == a || m == b
    ensures m <= a && m <= b
  {
    if a < b then a else b
  }
}
