/** The sizes of a compressed block that the decoder's driver accepts. */
module BlockLimits {
  import opened Bytes

  /** Room for the literals and the inline match list of a block, given the output buffer. */
  function CompBufSize(bufsize: u64): (n: nat)
    ensures 2 * bufsize + 1037 <= n <= 2 * bufsize + 1040
  {
    bufsize + 4 * (4 + 256 + bufsize / 4)
  }

  /** The driver refuses a block of `size` bytes with that much inline list and literals. */
  predicate Oversized(size: nat, list: nat, literals: nat, bufsize: u64) {
    size > bufsize || literals + list > CompBufSize(bufsize)
  }
}
