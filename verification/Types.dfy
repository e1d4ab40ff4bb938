/** Value types shared by the models. */
module Types {

  datatype Option<+T> = None | Some(value: T)

  /** A token identifier, as it appears in pool data and in pool names. */
  datatype Token = Token(id: string)

  /** The number of values of Go's `uint64`; arithmetic on `uint64` is modulo this. */
  const TWO_64: nat := 0x1_0000_0000_0000_0000

  const MAX_UINT64: nat := TWO_64 - 1
}
