/** Small shared datatypes and the machine-word constants used by every component. */
module Base {
  datatype Option<+T> = None | Some(value: T)

  const WORD32: int := 0x1_0000_0000
  const WORD64: int := 0x1_0000_0000_0000_0000
}
