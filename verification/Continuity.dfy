/** Block sequence coverage and chain linkage. */
module Continuity {
  import opened Wrappers
  import opened Ledger

  datatype ChainEndpoints = ChainEndpoints(anchorHash: string, endHash: string)

  // ---- What is being verified ----

  /** Exactly the interval's heights, each once, in ascending order. */
  ghost predicate Covers(ledgers: seq<BlockLedger>, interval: HeightInterval)
    requires interval.Valid()
  {
    && |ledgers| == interval.BlockCount()
    && forall i | 0 <= i < |ledgers| :: ledgers[i].height == interval.start + i
  }

  /** Block `i` points at the block before it. */
  ghost predicate LinksBack(ledgers: seq<BlockLedger>, i: nat)
    requires 0 < i < |ledgers|
  {
    ledgers[i].previousBlockHash == ledgers[i - 1].blockHash
  }

  /** One unbroken chain from the anchor's hash to the recorded end hash. */
  ghost predicate Linked(ledgers: seq<BlockLedger>, endpoints: ChainEndpoints) {
    && ledgers != []
    && ledgers[0].previousBlockHash == endpoints.anchorHash
    && (forall i | 0 < i < |ledgers| :: LinksBack(ledgers, i))
    && ledgers[|ledgers| - 1].blockHash == endpoints.endHash
  }

  ghost predicate Recurs(ledgers: seq<BlockLedger>, i: nat)
    requires i < |ledgers|
  {
    exists j | 0 <= j < i :: ledgers[j].height == ledgers[i].height
  }

  /** No height among the first `n` repeats or lies outside the interval. */
  ghost predicate Admissible(ledgers: seq<BlockLedger>, interval: HeightInterval, n: nat)
    requires n <= |ledgers|
  {
    forall i | 0 <= i < n :: !Recurs(ledgers, i) && interval.Contains(ledgers[i].height)
  }

  ghost predicate Present(ledgers: seq<BlockLedger>, height: u32) {
    exists i | 0 <= i < |ledgers| :: ledgers[i].height == height
  }

  /** The least interval height no ledger has. */
  ghost predicate LeastMissing(ledgers: seq<BlockLedger>, interval: HeightInterval, missing: u32) {
    && interval.Contains(missing)
    && !Present(ledgers, missing)
    && forall height: u32 | interval.start <= height < missing :: Present(ledgers, height)
  }

  ghost predicate StepsByOne(ledgers: seq<BlockLedger>, i: nat)
    requires 0 < i < |ledgers|
  {
    ledgers[i].height == ledgers[i - 1].height + 1
  }

  /** The first place where a height is not one more than the height before it. */
  ghost predicate FirstMisstep(ledgers: seq<BlockLedger>, i: nat) {
    && 0 < i < |ledgers|
    && !StepsByOne(ledgers, i)
    && forall j | 0 < j < i :: StepsByOne(ledgers, j)
  }

  /** No successor exists above the last height, so the comparison itself is refused there. */
  ghost predicate MisstepError(ledgers: seq<BlockLedger>, i: nat, error: ReconcileError) {
    && FirstMisstep(ledgers, i)
    && error == if ledgers[i - 1].height == U32_MAX then ArithmeticOverflow
                else BlockContinuity(ledgers[i].height, NotAscending)
  }

  /** Which coverage error is due, by priority: the first repeated or outside height, then the least
      missing height, then the first step that is not by one. */
  ghost predicate CoverageError(ledgers: seq<BlockLedger>, interval: HeightInterval, error: ReconcileError) {
    || (exists i | 0 <= i < |ledgers| ::
          && Admissible(ledgers, interval, i)
          && if Recurs(ledgers, i) then error == BlockContinuity(ledgers[i].height, DuplicateHeight)
             else !interval.Contains(ledgers[i].height) && error == BlockContinuity(ledgers[i].height, OutsideInterval))
    || (&& Admissible(ledgers, interval, |ledgers|)
        && exists missing: u32 :: LeastMissing(ledgers, interval, missing) && error == MissingBlock(missing))
    || (&& Admissible(ledgers, interval, |ledgers|)
        && (forall height: u32 | interval.Contains(height) :: Present(ledgers, height))
        && exists i :: MisstepError(ledgers, i, error))
  }

  // ---- The checks ----

  /** Decides whether the ledgers cover the interval, and otherwise which error is due. */
  method VerifyCoverage(ledgers: seq<BlockLedger>, interval: HeightInterval) returns (r: Result<()>)
    requires interval.Valid()
    ensures r.Ok? <==> Covers(ledgers, interval)
    ensures r.Err? ==> CoverageError(ledgers, interval, r.error)
  {
    var seen: set<u32> := {};
    for i := 0 to |ledgers|
      invariant Admissible(ledgers, interval, i)
      invariant forall height: u32 :: height in seen <==> exists j | 0 <= j < i :: ledgers[j].height == height
    {
      if ledgers[i].height in seen {
        assert Recurs(ledgers, i);
        CoveredIsAdmissible(ledgers, interval);
        return Err(BlockContinuity(ledgers[i].height, DuplicateHeight));
      }
      seen := seen + {ledgers[i].height};
      if !interval.Contains(ledgers[i].height) {
        return Err(BlockContinuity(ledgers[i].height, OutsideInterval));
      }
    }

    for expected: int := interval.start to interval.end + 1
      invariant forall height: u32 | interval.start <= height < expected :: Present(ledgers, height)
    {
      if expected !in seen {
        assert LeastMissing(ledgers, interval, expected);
        CoveredIsAdmissible(ledgers, interval);
        return Err(MissingBlock(expected));
      }
    }

    assert Present(ledgers, interval.start);
    for i := 1 to |ledgers|
      invariant forall j | 0 < j < i :: StepsByOne(ledgers, j)
    {
      if ledgers[i - 1].height == U32_MAX {
        assert MisstepError(ledgers, i, ArithmeticOverflow);
        return Err(ArithmeticOverflow);
      }
      if ledgers[i].height != ledgers[i - 1].height + 1 {
        assert MisstepError(ledgers, i, BlockContinuity(ledgers[i].height, NotAscending));
        return Err(BlockContinuity(ledgers[i].height, NotAscending));
      }
    }
    AscendingCovers(ledgers, interval);
    r := Ok(());
  }

  lemma CoveredIsAdmissible(ledgers: seq<BlockLedger>, interval: HeightInterval)
    requires interval.Valid()
    ensures Covers(ledgers, interval) ==> Admissible(ledgers, interval, |ledgers|)
    ensures Covers(ledgers, interval) ==> forall height: u32 | interval.Contains(height) :: Present(ledgers, height)
  {
    if Covers(ledgers, interval) {
      forall height: u32 | interval.Contains(height)
        ensures Present(ledgers, height)
      {
        assert ledgers[height - interval.start].height == height;
      }
    }
  }

  lemma {:induction false} StepsFromFirst(ledgers: seq<BlockLedger>, i: nat)
    requires i < |ledgers|
    requires forall j | 0 < j <= i :: StepsByOne(ledgers, j)
    ensures ledgers[i].height == ledgers[0].height + i
  {
    if i > 0 {
      assert StepsByOne(ledgers, i);
      StepsFromFirst(ledgers, i - 1);
    }
  }

  lemma AscendingCovers(ledgers: seq<BlockLedger>, interval: HeightInterval)
    requires interval.Valid() && Admissible(ledgers, interval, |ledgers|)
    requires forall height: u32 | interval.Contains(height) :: Present(ledgers, height)
    requires forall j | 0 < j < |ledgers| :: StepsByOne(ledgers, j)
    ensures Covers(ledgers, interval)
  {
    assert Present(ledgers, interval.start) && Present(ledgers, interval.end);
    forall i | 0 <= i < |ledgers|
      ensures ledgers[i].height == ledgers[0].height + i
    {
      StepsFromFirst(ledgers, i);
    }
    var first :| 0 <= first < |ledgers| && ledgers[first].height == interval.start;
    var last :| 0 <= last < |ledgers| && ledgers[last].height == interval.end;
    assert interval.Contains(ledgers[0].height) && interval.Contains(ledgers[|ledgers| - 1].height);
  }

  /** Which linkage error is due: no blocks, the anchor, the first block not following its predecessor,
      or the end, in that order. */
  ghost predicate LinkageError(ledgers: seq<BlockLedger>, endpoints: ChainEndpoints, error: ReconcileError) {
    if ledgers == [] then error == BlockContinuity(0, NoBlocks)
    else if ledgers[0].previousBlockHash != endpoints.anchorHash then
      error == BlockContinuity(ledgers[0].height, AnchorNotLinked)
    else
      var last := ledgers[|ledgers| - 1];
      || (exists i | 0 < i < |ledgers| ::
            && !LinksBack(ledgers, i) && (forall j | 0 < j < i :: LinksBack(ledgers, j))
            && error == BlockContinuity(ledgers[i].height, PredecessorNotLinked))
      || (&& (forall i | 0 < i < |ledgers| :: LinksBack(ledgers, i))
          && last.blockHash != endpoints.endHash && error == BlockContinuity(last.height, EndHashDiffers))
  }

  /** Scans the links from the anchor on and compares the last hash with the recorded one. */
  method VerifyLinkage(ledgers: seq<BlockLedger>, endpoints: ChainEndpoints) returns (r: Result<()>)
    ensures r.Ok? <==> Linked(ledgers, endpoints)
    ensures r.Err? ==> LinkageError(ledgers, endpoints, r.error)
  {
    if |ledgers| == 0 {
      return Err(BlockContinuity(0, NoBlocks));
    }
    if ledgers[0].previousBlockHash != endpoints.anchorHash {
      return Err(BlockContinuity(ledgers[0].height, AnchorNotLinked));
    }
    for i := 1 to |ledgers|
      invariant forall j | 0 < j < i :: LinksBack(ledgers, j)
    {
      if ledgers[i].previousBlockHash != ledgers[i - 1].blockHash {
        assert !LinksBack(ledgers, i);
        return Err(BlockContinuity(ledgers[i].height, PredecessorNotLinked));
      }
    }
    if ledgers[|ledgers| - 1].blockHash != endpoints.endHash {
      return Err(BlockContinuity(ledgers[|ledgers| - 1].height, EndHashDiffers));
    }
    r := Ok(());
  }

  /** Decides coverage and then linkage; an error is the one due in whichever fails first. */
  method Verify(ledgers: seq<BlockLedger>, interval: HeightInterval, endpoints: ChainEndpoints)
    returns (r: Result<()>)
    requires interval.Valid()
    ensures r.Ok? <==> Covers(ledgers, interval) && Linked(ledgers, endpoints)
    ensures r.Err? && !Covers(ledgers, interval) ==> CoverageError(ledgers, interval, r.error)
    ensures r.Err? && Covers(ledgers, interval) ==> LinkageError(ledgers, endpoints, r.error)
  {
    var _ :- VerifyCoverage(ledgers, interval);
    var _ :- VerifyLinkage(ledgers, endpoints);
    r := Ok(());
  }

  // ---- Laws ----

  /** A missing block is reported exactly when every captured height is admissible and that one is
      the least absent, so the error identifies the block uniquely. */
  lemma MissingBlockExact(ledgers: seq<BlockLedger>, interval: HeightInterval, error: ReconcileError, missing: u32)
    requires interval.Valid()
    requires CoverageError(ledgers, interval, error)
    ensures error == MissingBlock(missing) <==>
            Admissible(ledgers, interval, |ledgers|) && LeastMissing(ledgers, interval, missing)
  {
    if Admissible(ledgers, interval, |ledgers|) && LeastMissing(ledgers, interval, missing) {
      if error.MissingBlock? {
        var other: u32 :| LeastMissing(ledgers, interval, other) && error == MissingBlock(other);
        assert other < missing ==> Present(ledgers, other);
        assert missing < other ==> Present(ledgers, missing);
      }
    }
  }

  /** An arithmetic overflow is due instead of a continuity error exactly when every height of the interval is
      there once and the first misstep comes after the last representable height. */
  lemma OverflowExact(ledgers: seq<BlockLedger>, interval: HeightInterval, error: ReconcileError)
    requires interval.Valid()
    requires CoverageError(ledgers, interval, error)
    ensures error == ArithmeticOverflow <==>
            && Admissible(ledgers, interval, |ledgers|)
            && (forall height: u32 | interval.Contains(height) :: Present(ledgers, height))
            && exists i :: FirstMisstep(ledgers, i) && ledgers[i - 1].height == U32_MAX
  {
    if Admissible(ledgers, interval, |ledgers|)
       && (forall height: u32 | interval.Contains(height) :: Present(ledgers, height))
    {
      var i :| MisstepError(ledgers, i, error);
      forall j | FirstMisstep(ledgers, j)
        ensures j == i
      {
      }
    }
  }

  /** The interval of the last two representable heights, captured in descending order. */
  lemma DescendingOverflows(error: ReconcileError)
    ensures var ledgers := [BlockLedger(U32_MAX, "b", "a", 0, 0, []), BlockLedger(U32_MAX - 1, "a", "", 0, 0, [])];
            var interval := HeightInterval(U32_MAX - 2, U32_MAX - 1, U32_MAX);
            && interval.Valid() && !Covers(ledgers, interval)
            && (CoverageError(ledgers, interval, error) <==> error == ArithmeticOverflow)
  {
    var ledgers := [BlockLedger(U32_MAX, "b", "a", 0, 0, []), BlockLedger(U32_MAX - 1, "a", "", 0, 0, [])];
    var interval := HeightInterval(U32_MAX - 2, U32_MAX - 1, U32_MAX);
    assert ledgers[0].height == U32_MAX && ledgers[1].height == U32_MAX - 1;
    assert Admissible(ledgers, interval, 2);
    assert forall height: u32 | interval.Contains(height) :: Present(ledgers, height);
    assert FirstMisstep(ledgers, 1) && MisstepError(ledgers, 1, ArithmeticOverflow);
    if CoverageError(ledgers, interval, error) {
      OverflowExact(ledgers, interval, error);
    }
  }

  /** The hash of a block commits to the hash of the block before it. */
  ghost predicate HashCommitsToPrevious(ledgers: seq<BlockLedger>, others: seq<BlockLedger>) {
    forall i, j | 0 <= i < |ledgers| && 0 <= j < |others| ::
      ledgers[i].blockHash == others[j].blockHash ==> ledgers[i].previousBlockHash == others[j].previousBlockHash
  }

  lemma {:induction false} ChainsMeetFrom(
    ledgers: seq<BlockLedger>, others: seq<BlockLedger>, endpoints: ChainEndpoints, endpoints': ChainEndpoints, i: nat)
    requires |ledgers| == |others| && i < |ledgers|
    requires Linked(ledgers, endpoints) && Linked(others, endpoints')
    requires endpoints.endHash == endpoints'.endHash
    requires HashCommitsToPrevious(ledgers, others)
    ensures ledgers[i].blockHash == others[i].blockHash
    decreases |ledgers| - i
  {
    if i + 1 < |ledgers| {
      ChainsMeetFrom(ledgers, others, endpoints, endpoints', i + 1);
      assert LinksBack(ledgers, i + 1) && LinksBack(others, i + 1);
    }
  }

  /** One end hash pins the whole chain: two sequences accepted for the same interval and end hash
      agree on every block hash and on the anchor's. */
  lemma ChainIsUnique(
    ledgers: seq<BlockLedger>, others: seq<BlockLedger>, interval: HeightInterval,
    endpoints: ChainEndpoints, endpoints': ChainEndpoints)
    requires interval.Valid()
    requires Covers(ledgers, interval) && Linked(ledgers, endpoints)
    requires Covers(others, interval) && Linked(others, endpoints')
    requires endpoints.endHash == endpoints'.endHash
    requires HashCommitsToPrevious(ledgers, others)
    ensures |ledgers| == |others|
    ensures forall i | 0 <= i < |ledgers| ::
              ledgers[i].blockHash == others[i].blockHash && ledgers[i].height == others[i].height
    ensures endpoints.anchorHash == endpoints'.anchorHash
  {
    forall i | 0 <= i < |ledgers|
      ensures ledgers[i].blockHash == others[i].blockHash
    {
      ChainsMeetFrom(ledgers, others, endpoints, endpoints', i);
    }
  }
}
