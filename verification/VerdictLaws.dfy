/** What several checks imply together, and what one of them implies about the accounting. */
module VerdictLaws {
  import opened Wrappers
  import opened Money
  import opened Ledger
  import opened Interval
  import opened Continuity
  import opened Checks
  import opened Verdicts
  import opened Reconcile

  // ---- Three checks combine ----

  lemma {:induction false} StillIronwood(ledgers: seq<BlockLedger>, anchor: AnchorBalances, k: nat)
    requires k <= |ledgers|
    requires forall i | 0 <= i < k :: ledgers[i].ironwoodDelta == 0
    ensures Balance(ledgers, anchor, Ironwood, k) == anchor.ironwood
  {
    if k > 0 {
      StillIronwood(ledgers, anchor, k - 1);
      assert Deltas(ledgers, Ironwood)[k - 1] == ledgers[k - 1].Delta(Ironwood);
    }
  }

  /** What the rows of an outcome say of Ironwood. */
  ghost predicate IronwoodRows(
    rows: seq<HeightOutcome>, ledgers: seq<BlockLedger>, start: u32, anchor: AnchorBalances, reported: Reports)
  {
    && |rows| == |ledgers|
    && forall i | 0 <= i < |rows| ::
         && rows[i].height == start + i && rows[i].ironwoodDelta == ledgers[i].ironwoodDelta
         && rows[i].expectedIronwood == Balance(ledgers, anchor, Ironwood, i + 1)
         && rows[i].reportedIronwood == ReportedBalance(reported, rows[i].height, Ironwood)
  }

  lemma IronwoodRowsOf(ledgers: seq<BlockLedger>, interval: HeightInterval, anchor: AnchorBalances, reported: Reports)
    requires interval.Valid() && Covers(ledgers, interval) && Reconcilable(ledgers, anchor)
    ensures IronwoodRows(
              OutcomeOf(ledgers, interval, anchor, reported).heights, ledgers, interval.start, anchor, reported)
    ensures OutcomeOf(ledgers, interval, anchor, reported).anchor == anchor
  {
    hide Balance;
  }

  /** With the boundary inside the interval: a zero there and no movement up to it leave the anchor at zero too. */
  lemma BoundaryInside(
    rows: seq<HeightOutcome>, ledgers: seq<BlockLedger>, start: u32, anchor: AnchorBalances, reported: Reports,
    at: nat)
    requires IronwoodRows(rows, ledgers, start, anchor, reported) && at < |rows|
    requires rows[at].expectedIronwood == 0
    requires forall i | 0 <= i <= at :: rows[i].ironwoodDelta == 0
    ensures anchor.ironwood == 0
    ensures forall i | 0 <= i <= at :: rows[i].expectedIronwood == 0
  {
    hide Balance;
    forall i | 0 <= i <= at
      ensures rows[i].expectedIronwood == anchor.ironwood
    {
      StillIronwood(ledgers, anchor, i + 1);
    }
  }

  /** No check says that Ironwood starts empty; three together do. When the pool is recorded as zero at
      the block before activation, per-height balances match, and nothing moves before activation, then
      the interval reaches back to the boundary, its anchor holds no Ironwood, and no pre-activation
      height has any, whether the boundary is the anchor or a height inside. */
  lemma IronwoodStartsEmpty(
    ledgers: seq<BlockLedger>, interval: HeightInterval, anchor: AnchorBalances, reported: Reports,
    anchorState: ReportedPoolState, network: Network)
    requires interval.Valid() && Covers(ledgers, interval) && Reconcilable(ledgers, anchor)
    requires forall height | height in reported :: interval.Contains(height)
    requires anchorState.Balance(Ironwood) == Some(anchor.ironwood)
    requires IronwoodAnchorZero(
               network, PreActivationIronwood(interval.anchor, network, anchorState, reported)).status == Pass
    requires var rows := OutcomeOf(ledgers, interval, anchor, reported).heights;
             && DivergenceVerdict(PER_HEIGHT_BALANCES_MATCH, Divergent(rows, OnBalance)).status == Pass
             && NoIronwoodBeforeActivation(rows, network).status in {Pass, NotApplicable}
    ensures var outcome, activation := OutcomeOf(ledgers, interval, anchor, reported), network.ActivationHeight();
            && interval.start <= activation
            && outcome.anchor.ironwood == 0
            && forall i | 0 <= i < |outcome.heights| && outcome.heights[i].height < activation ::
                 outcome.heights[i].expectedIronwood == 0
  {
    IronwoodRowsOf(ledgers, interval, anchor, reported);
    hide OutcomeOf, Reconcilable, Covers, Balance, Divergent;
    var rows, boundary := OutcomeOf(ledgers, interval, anchor, reported).heights, network.ActivationHeight() - 1;
    DivergentExact(rows, OnBalance);
    if boundary != interval.anchor {
      var at: nat := boundary - interval.start;
      assert AgreesOn(rows[at], OnBalance);
      assert forall i | 0 <= i <= at :: IsPreActivation(rows[i], network);
      BoundaryInside(rows, ledgers, interval.start, anchor, reported, at);
    }
  }

  // ---- Withdrawal only ----

  lemma {:induction false} WithdrawalsSumBelowZero(values: seq<int>, k: nat)
    requires k <= |values| && forall i | 0 <= i < k :: values[i] <= 0
    ensures SumTo(values, k) <= 0
  {
    if k > 0 {
      WithdrawalsSumBelowZero(values, k - 1);
    }
  }

  lemma {:induction false} AllLeaves(values: seq<int>, k: nat)
    requires k <= |values| && forall i | 0 <= i < k :: values[i] <= 0
    ensures SumTo(Leaving(values), k) == -SumTo(values, k)
  {
    if k > 0 {
      AllLeaves(values, k - 1);
    }
  }

  /** A block none of whose transactions adds to Orchard does not add to it in total. */
  lemma TotalWithdraws(ledger: BlockLedger)
    requires ledger.Balanced() && OnlyWithdraws(ledger)
    ensures ledger.orchardDelta <= 0
  {
    var values := DeltasOf(ledger.transactions, Orchard);
    assert IsReconstructed(Orchard) && ledger.orchardDelta == ledger.Delta(Orchard);
    forall i | 0 <= i < |values|
      ensures values[i] <= 0
    {
      assert !GrowsOrchard(ledger.transactions[i]);
      assert values[i] == ledger.transactions[i].Delta(Orchard);
    }
    WithdrawalsSumBelowZero(values, |values|);
  }

  /** The converse fails: the block total nets transactions against each other, so testing it instead
      would pass a block one of whose transactions breaks the rule. */
  lemma TotalsHideGrowth()
    ensures exists ledger: BlockLedger :: ledger.Balanced() && ledger.orchardDelta <= 0 && !OnlyWithdraws(ledger)
  {
    var grows := TransactionPoolDelta("a", 0, 0, 100, 0);
    var withdraws := TransactionPoolDelta("b", 0, 1, -200, 0);
    var ledger := BlockLedger(0, "", "", -100, 0, [grows, withdraws]);
    var orchard, ironwood := DeltasOf(ledger.transactions, Orchard), DeltasOf(ledger.transactions, Ironwood);
    assert SumTo(orchard, 2) == SumTo(orchard, 1) + -200 && SumTo(orchard, 1) == SumTo(orchard, 0) + 100;
    assert SumTo(ironwood, 2) == SumTo(ironwood, 1) + 0 && SumTo(ironwood, 1) == SumTo(ironwood, 0) + 0;
    assert ledger.Balanced();
    assert GrowsOrchard(ledger.transactions[0]);
  }

  ghost function OrchardBefore(outcome: IntervalOutcome, i: nat): int
    requires i < |outcome.heights|
  {
    if i == 0 then outcome.anchor.orchard else outcome.heights[i - 1].expectedOrchard
  }

  lemma OrchardStep(
    ledgers: seq<BlockLedger>, interval: HeightInterval, anchor: AnchorBalances, reported: Reports, i: nat)
    requires Reconcilable(ledgers, anchor) && i < |ledgers|
    ensures var outcome := OutcomeOf(ledgers, interval, anchor, reported);
            outcome.heights[i].expectedOrchard == OrchardBefore(outcome, i) + ledgers[i].orchardDelta
  {
    var outcome := OutcomeOf(ledgers, interval, anchor, reported);
    assert Deltas(ledgers, Orchard)[i] == ledgers[i].Delta(Orchard);
    assert OrchardBefore(outcome, i) == Balance(ledgers, anchor, Orchard, i);
  }

  lemma WithdrawalAt(
    ledgers: seq<BlockLedger>, interval: HeightInterval, anchor: AnchorBalances, reported: Reports, network: Network,
    i: nat)
    requires interval.Valid() && Covers(ledgers, interval) && Reconcilable(ledgers, anchor) && i < |ledgers|
    requires forall k | 0 <= k < |ledgers| :: ledgers[k].Balanced()
    requires OrchardWithdrawalOnly(
               OutcomeOf(ledgers, interval, anchor, reported).heights, ledgers, network).status == Pass
    requires network.IsPostActivation(ledgers[i].height)
    ensures ledgers[i].orchardDelta <= 0
  {
    hide OnlyWithdraws;
    var rows := OutcomeOf(ledgers, interval, anchor, reported).heights;
    assert rows[i].height == ledgers[i].height && !IsPreActivation(rows[i], network);
    assert OnlyWithdraws(ledgers[i]);
    TotalWithdraws(ledgers[i]);
  }

  /** When the withdrawal-only check passes, the reconstructed Orchard balance never rises at a height
      from activation on, and on an interval that starts there the gross outflow is the whole change. */
  lemma OrchardNeverRises(
    ledgers: seq<BlockLedger>, interval: HeightInterval, anchor: AnchorBalances, reported: Reports, network: Network)
    requires interval.Valid() && Covers(ledgers, interval) && Reconcilable(ledgers, anchor)
    requires forall i | 0 <= i < |ledgers| :: ledgers[i].Balanced()
    requires OrchardWithdrawalOnly(
               OutcomeOf(ledgers, interval, anchor, reported).heights, ledgers, network).status == Pass
    ensures var outcome := OutcomeOf(ledgers, interval, anchor, reported);
            && (forall i | 0 <= i < |outcome.heights| && network.IsPostActivation(outcome.heights[i].height) ::
                  outcome.heights[i].expectedOrchard <= OrchardBefore(outcome, i))
            && (network.IsPostActivation(interval.start) ==>
                  outcome.flows.orchardOutflow == -(outcome.cumulativeOrchard as int))
  {
    hide BlockLedger.Balanced, OrchardWithdrawalOnly, OrchardBefore, Reconcilable, Balance;
    var outcome, ds := OutcomeOf(ledgers, interval, anchor, reported), Deltas(ledgers, Orchard);
    forall i | 0 <= i < |ledgers|
      ensures outcome.heights[i].height == ledgers[i].height == interval.start + i
      ensures ds[i] == ledgers[i].orchardDelta
      ensures network.IsPostActivation(ledgers[i].height) ==>
                ledgers[i].orchardDelta <= 0 && outcome.heights[i].expectedOrchard <= OrchardBefore(outcome, i)
    {
      OrchardStep(ledgers, interval, anchor, reported, i);
      if network.IsPostActivation(ledgers[i].height) {
        WithdrawalAt(ledgers, interval, anchor, reported, network, i);
      }
      assert ds[i] == ledgers[i].Delta(Orchard);
    }
    if network.IsPostActivation(interval.start) {
      AllLeaves(ds, |ds|);
    }
  }

  // ---- Which continuity error blames which check ----

  /** "Sequence complete" passes exactly when the sequence is complete, or is not but no error says
      which block is missing: a repeated, outside or unordered height is recorded as broken linkage. */
  lemma SequenceVerdictExact(
    ledgers: seq<BlockLedger>, interval: HeightInterval, endpoints: ChainEndpoints, continuity: Result<()>)
    requires interval.Valid()
    requires continuity.Ok? <==> Covers(ledgers, interval) && Linked(ledgers, endpoints)
    requires continuity.Err? && !Covers(ledgers, interval) ==> CoverageError(ledgers, interval, continuity.error)
    requires continuity.Err? && Covers(ledgers, interval) ==> continuity.error.BlockContinuity?
    ensures Passed(BLOCK_SEQUENCE_COMPLETE) in ContinuityVerdicts(continuity) <==>
            || Covers(ledgers, interval)
            || !(Admissible(ledgers, interval, |ledgers|) && exists missing :: LeastMissing(ledgers, interval, missing))
  {
    hide CoverageError, Admissible, LeastMissing, Linked, Covers;
    var checks := ContinuityVerdicts(continuity);
    assert Passed(BLOCK_SEQUENCE_COMPLETE) in checks <==> continuity.Ok? || !continuity.error.MissingBlock? by {
      assert checks[0] in checks;
      assert PREVIOUS_BLOCK_LINKS_VALID[0] != BLOCK_SEQUENCE_COMPLETE[0];
    }
    if continuity.Err? && !Covers(ledgers, interval) {
      forall missing: u32
        ensures continuity.error == MissingBlock(missing) <==>
                Admissible(ledgers, interval, |ledgers|) && LeastMissing(ledgers, interval, missing)
      {
        MissingBlockExact(ledgers, interval, continuity.error, missing);
      }
    }
  }

  /** A height captured twice: the sequence does not cover the interval, the error due says so, and the
      check recorded as passed is that the sequence is complete. */
  lemma RepeatedHeightPasses(error: ReconcileError)
    ensures var ledger := BlockLedger(1, "b", "a", 0, 0, []);
            var ledgers, interval := [ledger, ledger], HeightInterval(0, 1, 1);
            && interval.Valid() && !Covers(ledgers, interval)
            && (CoverageError(ledgers, interval, error) <==> error == BlockContinuity(1, DuplicateHeight))
            && Passed(BLOCK_SEQUENCE_COMPLETE) in ContinuityVerdicts(Err(BlockContinuity(1, DuplicateHeight)))
  {
    var ledger := BlockLedger(1, "b", "a", 0, 0, []);
    var ledgers, interval := [ledger, ledger], HeightInterval(0, 1, 1);
    assert ledgers[0].height == ledgers[1].height;
    assert Recurs(ledgers, 1) && !Recurs(ledgers, 0);
    assert Admissible(ledgers, interval, 1) && !Admissible(ledgers, interval, 2);
  }
}
