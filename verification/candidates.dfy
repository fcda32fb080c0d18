/** The overflow candidate record exchanged by the detectors, the
    feasibility check and the rectifier. */
module Candidates {
  import opened Wrappers

  /** Rust's `usize`/`u64` on a 64-bit target. */
  type U64 = x: int | 0 <= x < 0x1_0000_0000_0000_0000

  /** One suspicious site. Candidates of the tree analyzer leave both sizes
      `None`; the legacy visitor fills them in. */
  datatype OverflowCandidate = OverflowCandidate(
    location: string,
    bufferName: string,
    operation: string,
    line: nat,
    column: nat,
    bufferSize: Option<U64>,
    offset: Option<U64>)

  const PointerOffset: string := "pointer_offset"
  const Allocation: string := "allocation"
}
