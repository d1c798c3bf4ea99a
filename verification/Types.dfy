/** Fixed-width numbers and the small wrappers shared by every module. */
module Types {
  const TWO_64: nat := 0x1_0000_0000_0000_0000
  const TWO_128: nat := 0x1_0000_0000_0000_0000_0000_0000_0000_0000
  const TWO_256: nat :=
    0x1_0000_0000_0000_0000_0000_0000_0000_0000_0000_0000_0000_0000_0000_0000_0000_0000

  type Byte = n: nat | n < 0x100
  type U64 = n: nat | n < TWO_64
  type U128 = n: nat | n < TWO_128
  type U256 = n: nat | n < TWO_256

  // Hashes, accounts and keys are 32 big-endian bytes, ordered as numbers.
  // The value 0 stands for "none".
  type Hash = U256
  type Account = U256
  type PublicKey = U256
  type Amount = U128

  datatype Option<+T> = None | Some(value: T)

  /** The checked increment of a 256-bit number. */
  function Inc(x: U256): (r: Option<U256>)
    ensures r.None? <==> x == TWO_256 - 1
    ensures r.Some? ==> r.value == x + 1
  {
    if x + 1 < TWO_256 then Some(x + 1) else None
  }
}
