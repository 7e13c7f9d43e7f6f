/** The fixed widths of the source's integers. */
module Widths {
  const U32_LIMIT: nat := 0x1_0000_0000
  const U64_LIMIT: nat := 0x1_0000_0000_0000_0000

  const U32_MAX: nat := U32_LIMIT - 1
  const U64_MAX: nat := U64_LIMIT - 1
}
