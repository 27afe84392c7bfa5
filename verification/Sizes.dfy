/** The range of size_t. */
module Sizes {
  const SIZE_MOD: nat := 0x1_0000_0000_0000_0000
}
