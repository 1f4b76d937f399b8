/** Vocabulary shared by the models. */
module Basics {
  type Byte = b: int | 0 <= b < 256

  type Bytes = seq<Byte>

  /** A UTF-16 code unit. */
  type Unit = u: int | 0 <= u < 0x1_0000

  /** A text, a file name or a path. */
  type Name = seq<Unit>

  datatype Option<+T> = None | Some(value: T)

  function Min(a: nat, b: nat): nat {
    if a <= b then a else b
  }
}
