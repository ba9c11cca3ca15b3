/** The types shared by every component of the model. */
module Wrappers {

  datatype Option<+T> = None | Some(value: T)

  type byte = x: int | 0 <= x < 256

  const KEY_LENGTH: nat := 32

  /** A 256-bit value: a symmetric key, an X25519 scalar or an X25519 coordinate. */
  type Key = k: seq<byte> | |k| == KEY_LENGTH witness seq(KEY_LENGTH, _ => 0)

  lemma Associates<T>(x: seq<T>, y: seq<T>, z: seq<T>)
    ensures (x + y) + z == x + (y + z)
  {
  }
}
