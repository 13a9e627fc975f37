module Bytes {

  newtype byte = x: int | 0 <= x < 256

  type bytes = seq<byte>

  lemma Assoc(a: bytes, b: bytes, c: bytes)
    ensures (a + b) + c == a + (b + c)
  {}
}
