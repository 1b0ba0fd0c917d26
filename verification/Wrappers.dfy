/** Result types, machine integers and the error variants shared by every module. */
module Wrappers {

  type u8 = x: int | 0 <= x < 0x100
  type u32 = x: int | 0 <= x < 0x1_0000_0000
  type u64 = x: int | 0 <= x < 0x1_0000_0000_0000_0000
  type i64 = x: int | -0x8000_0000_0000_0000 <= x < 0x8000_0000_0000_0000

  type Bytes = seq<u8>

  const U32_MAX: int := 0xFFFF_FFFF
  const U64_MAX: int := 0xFFFF_FFFF_FFFF_FFFF
  const I64_MIN: int := -0x8000_0000_0000_0000
  const I64_MAX: int := 0x7FFF_FFFF_FFFF_FFFF
  const I128_MIN: int := -0x8000_0000_0000_0000_0000_0000_0000_0000
  const I128_MAX: int := 0x7FFF_FFFF_FFFF_FFFF_FFFF_FFFF_FFFF_FFFF

  /** No slice holds more elements than this on any platform the source supports. */
  const ISIZE_MAX: int := 0x7FFF_FFFF_FFFF_FFFF

  datatype Option<+T> = None | Some(value: T)

  /** Why a block sequence is not one unbroken chain; stands for the message text. */
  datatype ContinuityReason =
    | DuplicateHeight
    | OutsideInterval
    | NotAscending
    | NoBlocks
    | AnchorNotLinked
    | PredecessorNotLinked
    | EndHashDiffers
    | ClaimedHeightDiffers

  datatype ReconcileError =
    | Rpc
    | InvalidInterval
    | InvalidInput
    | MissingBlock(missing: u32)
    | BlockContinuity(height: u32, reason: ContinuityReason)
    | TransactionParse(blockHeight: u32, txIndex: nat)
    | BranchIdMismatch(expected: u32, actual: u32)
    | HashMismatch(mismatched: string)
    | MissingFile(absent: string)
    | ManifestInvalid
    | EvidenceInconsistent(inconsistent: string)
    | ArithmeticOverflow
    | ValueOutOfBounds(outOfBounds: i64)
    | CaptureIncomplete
    | ArchiveRejected
    | Filesystem
    | Internal

  datatype Result<+T> = Ok(value: T) | Err(error: ReconcileError) {
    predicate IsFailure() {
      Err?
    }

    function PropagateFailure<U>(): Result<U>
      requires Err?
    {
      Err(error)
    }

    function Extract(): T
      requires Ok?
    {
      value
    }
  }

  /** Position of the first element satisfying `p`, as an iterator's `find` or `position`. */
  function FindIndex<T>(s: seq<T>, p: T -> bool): (r: Option<nat>)
    ensures r.Some? ==> r.value < |s| && p(s[r.value])
    ensures r.Some? ==> forall i | 0 <= i < r.value :: !p(s[i])
    ensures r.None? ==> forall i | 0 <= i < |s| :: !p(s[i])
  {
    if s == [] then None
    else if p(s[0]) then Some(0)
    else
      var rest := FindIndex(s[1..], p);
      if rest.None? then
        assert forall i | 0 < i < |s| :: s[i] == s[1..][i - 1];
        None
      else
        assert forall i | 0 < i < |s| :: s[i] == s[1..][i - 1];
        Some(rest.value + 1)
  }
}
