// Types every part of the model uses.
module Base {
  newtype u8 = x: int | 0 <= x < 0x100

  datatype Option<T> = None | Some(value: T)

  function Min(a: nat, b: nat): nat {
    if a < b then a else b
  }
}
