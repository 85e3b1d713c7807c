/** The ranges of the machine integers that matter to the model. */
module Words {
  const U32: nat := 0x1_0000_0000
  const U64: nat := 0x1_0000_0000_0000_0000
  const I64_LIMIT: nat := 0x8000_0000_0000_0000
  const I64_MIN: int := -0x8000_0000_0000_0000
}
