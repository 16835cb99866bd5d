/** Types that several components share: unsigned machine integers and an optional value. */
module Types {
  type byte = n: nat | n < 0x100
  type uint16 = n: nat | n < 0x1_0000
  type uint32 = n: nat | n < 0x1_0000_0000

  datatype Option<T> = None | Some(value: T)
}
