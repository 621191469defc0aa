/** Solidity 0.8 unsigned arithmetic: an operation whose result leaves the 256-bit range reverts. */
module Uint256 {
  import opened Wrappers

  const MAX_UINT256: nat := 0xFFFF_FFFF_FFFF_FFFF_FFFF_FFFF_FFFF_FFFF_FFFF_FFFF_FFFF_FFFF_FFFF_FFFF_FFFF_FFFF

  type uint256 = n: nat | n <= MAX_UINT256
}
