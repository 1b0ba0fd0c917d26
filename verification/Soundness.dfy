/** What a verdict means for the chain: exit code 0, in terms of blocks and plain integers. */
module Soundness {
  import opened Wrappers
  import opened Money
  import opened Ledger
  import opened Interval
  import opened Continuity
  import opened Checks
  import opened Ordering
  import opened Layout
  import opened Manifest
  import opened Validation
  import opened Verdicts
  import opened Reporting
  import opened Reconcile

  // ---- The claim ----

  /** A figure the node served, if it served one, is the given figure. */
  ghost predicate IfReported(reported: Option<Zatoshi>, figure: int) {
    reported.Some? ==> reported.value == figure
  }

  /** The blocks link unbroken from the anchor block's computed hash to the manifest's end hash. */
  ghost predicate ChainHolds(bundle: Bundle)
    requires EvidenceUsable(bundle)
  {
    var chain := Chain(bundle);
    && chain[0].previousHash == AnchorHash(bundle)
    && (forall i | 0 < i < |chain| :: FollowsOn(chain, i))
    && chain[|chain| - 1].hash == bundle.data.header.endHash
  }

  ghost predicate FollowsOn(chain: seq<RawBlock>, i: nat)
    requires 0 < i < |chain|
  {
    chain[i].previousHash == chain[i - 1].hash
  }

  /** The manifest states the balances the evidence records. */
  ghost predicate SummaryHolds(bundle: Bundle)
    requires EvidenceUsable(bundle)
  {
    var header, endState := bundle.data.header, StateAt(bundle, bundle.End());
    && AnchorState(bundle).Balance(Orchard) == Some(header.anchorOrchard)
    && AnchorState(bundle).Balance(Ironwood) == Some(header.anchorIronwood)
    && endState.Balance(Orchard) == Some(header.endOrchard)
    && endState.Balance(Ironwood) == Some(header.endIronwood)
  }

  /** What the bundle records about Ironwood just before activation is nothing, or zero. */
  ghost predicate PoolStartsEmpty(bundle: Bundle)
    requires EvidenceUsable(bundle)
  {
    var boundary := bundle.Network().ActivationHeight() - 1;
    && (boundary == bundle.data.header.interval.anchor ==> IfReported(AnchorState(bundle).Balance(Ironwood), 0))
    && (boundary != bundle.data.header.interval.anchor && bundle.Start() <= boundary <= bundle.End() ==>
          IfReported(StateAt(bundle, boundary).Balance(Ironwood), 0))
  }

  ghost predicate OnlyWithdrawsOrchard(raw: RawBlock) {
    forall j | 0 <= j < |raw.transactions| :: raw.transactions[j].Movement(Orchard) <= 0
  }

  /** The rules of the boundary at one block: before it Ironwood does not move, from it on no
      transaction adds to Orchard. */
  ghost predicate RuleHolds(bundle: Bundle, raw: RawBlock, height: u32) {
    if bundle.Network().IsPostActivation(height) then OnlyWithdrawsOrchard(raw) else raw.Movement(Ironwood) == 0
  }

  ghost predicate BoundaryHolds(bundle: Bundle)
    requires EvidenceUsable(bundle)
  {
    && bundle.data.header.activationHeight == bundle.Network().ActivationHeight()
    && PoolStartsEmpty(bundle)
    && forall i | 0 <= i < |Chain(bundle)| :: RuleHolds(bundle, Chain(bundle)[i], bundle.Start() + i)
  }

  /** After block `i`, the pool is not negative and the node's figures are the reconstructed ones. */
  ghost predicate PoolAgrees(bundle: Bundle, pool: Pool, i: nat)
    requires EvidenceUsable(bundle) && IsReconstructed(pool) && i < |Chain(bundle)|
  {
    ChainAt(bundle, bundle.Start() + i);
    var state := StateAt(bundle, bundle.Start() + i);
    && HeldAfter(bundle, pool, i + 1) >= 0
    && IfReported(state.Balance(pool), HeldAfter(bundle, pool, i + 1))
    && IfReported(state.Delta(pool), Chain(bundle)[i].Movement(pool))
  }

  /** At every height both pools agree, and the end balances exist and are the anchor's less the value
      balance of every transaction of every block. */
  ghost predicate BalancesHold(bundle: Bundle)
    requires EvidenceUsable(bundle)
  {
    var n := |Chain(bundle)|;
    && (forall i | 0 <= i < n :: PoolAgrees(bundle, Orchard, i) && PoolAgrees(bundle, Ironwood, i))
    && StateAt(bundle, bundle.End()).Balance(Orchard) == Some(HeldAfter(bundle, Orchard, n))
    && StateAt(bundle, bundle.End()).Balance(Ironwood) == Some(HeldAfter(bundle, Ironwood, n))
  }

  ghost predicate Certified(bundle: Bundle)
    requires EvidenceUsable(bundle)
  {
    HasAnchorBlock(bundle) && ChainHolds(bundle) &&
    SummaryHolds(bundle) && BoundaryHolds(bundle) && BalancesHold(bundle)
  }

  // ---- Failures group by group ----

  ghost predicate NoFailure(checks: seq<Check>) {
    forall i | 0 <= i < |checks| :: checks[i].status != Fail
  }

  lemma NoFailureConcat(a: seq<Check>, b: seq<Check>)
    ensures NoFailure(a + b) <==> NoFailure(a) && NoFailure(b)
  {
    if NoFailure(a + b) {
      forall i | 0 <= i < |a|
        ensures a[i].status != Fail
      {
        assert (a + b)[i] == a[i];
      }
      forall i | 0 <= i < |b|
        ensures b[i].status != Fail
      {
        assert (a + b)[|a| + i] == b[i];
      }
    }
  }

  lemma SucceedsWithoutFailure(checks: seq<Check>)
    ensures ExitsSuccessfully(Verdict(checks)) <==> NoFailure(checks)
  {
    if NoFailure(checks) {
      assert !AnyWith(checks, Fail);
    } else {
      var i :| 0 <= i < |checks| && checks[i].status == Fail;
      assert checks[i] in checks;
    }
  }

  lemma StructureExact(network: Network, validation: ValidationReport, present: bool, continuity: Result<()>)
    ensures NoFailure(StructuralVerdicts(network, validation, network, present, continuity)) <==>
            validation.failures == [] && present && continuity.Ok?
  {
    var first := [Passed(MANIFEST_SCHEMA_RECOGNIZED), EvidenceHashes(validation.failures),
                  Condition(NETWORK_MATCHES, true, NetworkDiffers(network, network)),
                  Condition(ANCHOR_BLOCK_PRESENT, present, Fixed)];
    assert first[1] == EvidenceHashes(validation.failures)
           && first[3] == Condition(ANCHOR_BLOCK_PRESENT, present, Fixed);
    var second, third := ContinuityVerdicts(continuity), UnlistedVerdicts(validation.warnings);
    assert NoFailure(second) <==> continuity.Ok? by {
      assert NoFailure(second) <==> forall check | check in second :: check.status != Fail;
    }
    assert NoFailure(third);
    NoFailureConcat(first, second);
    NoFailureConcat(first + second, third);
  }

  lemma ActivationExact(
    rows: seq<HeightOutcome>, ledgers: seq<BlockLedger>, network: Network, declared: u32,
    observed: Option<Option<Zatoshi>>)
    requires |rows| == |ledgers| && forall i | 0 <= i < |rows| :: rows[i].height == ledgers[i].height
    ensures NoFailure(ActivationVerdicts(rows, ledgers, network, Some(declared), observed)) <==>
            && declared == network.ActivationHeight()
            && (observed.Some? ==> IfReported(observed.value, 0))
            && (forall i | 0 <= i < |rows| && !network.IsPostActivation(rows[i].height) :: rows[i].ironwoodDelta == 0)
            && forall i | 0 <= i < |ledgers| && network.IsPostActivation(ledgers[i].height) :: OnlyWithdraws(ledgers[i])
  {
    hide OnlyWithdraws, FirstGrowth, IronwoodAnchorZero, NoIronwoodBeforeActivation, OrchardWithdrawalOnly;
    hide ActivationContext;
    var checks := ActivationVerdicts(rows, ledgers, network, Some(declared), observed);
    assert checks[0] == ActivationContext(network, Some(declared))
           && checks[1] == IronwoodAnchorZero(network, observed);
    assert checks[2] == NoIronwoodBeforeActivation(rows, network);
    assert checks[3] == OrchardWithdrawalOnly(rows, ledgers, network);
    assert checks[4].status == Pass && checks[5].status == Pass;
    assert forall i | 0 <= i < |rows| ::
             IsPreActivation(rows[i], network) <==> !network.IsPostActivation(rows[i].height);
    assert forall i | 0 <= i < |ledgers| && network.IsPostActivation(ledgers[i].height) ::
             !IsPreActivation(rows[i], network);
  }

  /** A row says nothing against itself. */
  ghost predicate RowClean(row: HeightOutcome) {
    NonNegative(row) && AgreesOn(row, OnBalance) && AgreesOn(row, OnDelta)
  }

  lemma AccountingExact(outcome: IntervalOutcome, endOrchard: Option<Zatoshi>, endIronwood: Option<Zatoshi>)
    ensures NoFailure(AccountingVerdicts(outcome, endOrchard, endIronwood)) <==>
            && (forall i | 0 <= i < |outcome.heights| :: RowClean(outcome.heights[i]))
            && endOrchard == Some(outcome.expectedEndOrchard) && endIronwood == Some(outcome.expectedEndIronwood)
  {
    hide NonNegative, AgreesOn, Divergent, NoNegativeBalance, EndBalance, EndsCorroborated;
    var rows := outcome.heights;
    var checks := AccountingVerdicts(outcome, endOrchard, endIronwood);
    DivergentExact(rows, OnBalance);
    DivergentExact(rows, OnDelta);
    assert checks[3] == NoNegativeBalance(rows);
    assert checks[4] == DivergenceVerdict(PER_HEIGHT_BALANCES_MATCH, Divergent(rows, OnBalance));
    assert checks[5] == DivergenceVerdict(PER_HEIGHT_DELTAS_MATCH, Divergent(rows, OnDelta));
    assert checks[6] == EndBalance(ORCHARD_END_BALANCE_MATCHES, Orchard, outcome.expectedEndOrchard, endOrchard);
    assert checks[7] == EndBalance(IRONWOOD_END_BALANCE_MATCHES, Ironwood, outcome.expectedEndIronwood, endIronwood);
    assert checks[8] == EndsCorroborated(endOrchard, endIronwood);
    assert checks[0].status == Pass && checks[1].status == Pass && checks[2].status == Pass;
  }

  // ---- From the outcome's rows back to blocks ----

  /** A row states a block's movements, the balances they lead to, and what the node said there. */
  ghost predicate RowIs(bundle: Bundle, row: HeightOutcome, i: nat)
    requires EvidenceUsable(bundle) && i < |Chain(bundle)|
  {
    ChainAt(bundle, bundle.Start() + i);
    var raw, state := Chain(bundle)[i], StateAt(bundle, bundle.Start() + i);
    && row.height == bundle.Start() + i
    && row.orchardDelta == raw.Movement(Orchard) && row.ironwoodDelta == raw.Movement(Ironwood)
    && row.expectedOrchard == HeldAfter(bundle, Orchard, i + 1)
    && row.expectedIronwood == HeldAfter(bundle, Ironwood, i + 1)
    && row.reportedOrchard == state.Balance(Orchard) && row.reportedIronwood == state.Balance(Ironwood)
    && row.reportedOrchardDelta == state.Delta(Orchard) && row.reportedIronwoodDelta == state.Delta(Ironwood)
  }

  lemma GatheredLedger(bundle: Bundle, reading: Reading, i: nat)
    requires EvidenceUsable(bundle) && Gathers(bundle, reading) && i < |reading.ledgers|
    ensures |reading.ledgers| == |Chain(bundle)|
    ensures LedgerFor(reading.ledgers[i], Chain(bundle)[i], bundle.Start() + i)
  {
    hide LedgerFor, Chain, Linked, ReportsAre, WarnsOfUnlisted, EvidenceUsable;
  }

  lemma GatheredState(bundle: Bundle, reading: Reading, height: u32)
    requires EvidenceUsable(bundle) && Gathers(bundle, reading) && bundle.Start() <= height <= bundle.End()
    ensures HeightUsable(bundle, height)
    ensures height in reading.reported && reading.reported[height] == StateAt(bundle, height)
    ensures forall pool :: ReportedBalance(reading.reported, height, pool) == StateAt(bundle, height).Balance(pool)
    ensures forall pool :: ReportedDelta(reading.reported, height, pool) == StateAt(bundle, height).Delta(pool)
  {
    hide LedgersFor, Chain, Linked, WarnsOfUnlisted, StateAt, HeightUsable, Intact, AnchorUsable;
  }

  lemma EvidenceParts(bundle: Bundle)
    requires EvidenceUsable(bundle)
    ensures AnchorUsable(bundle) && ReadPoolState(bundle, AnchorPools).Ok? && 0 < bundle.Start() <= bundle.End()
  {
  }

  /** A reading and the outcome folded from it. */
  ghost predicate Concluded(bundle: Bundle, reading: Reading, outcome: IntervalOutcome)
    requires EvidenceUsable(bundle)
  {
    && Gathers(bundle, reading)
    && Reconcilable(reading.ledgers, AnchorOf(bundle))
    && outcome == OutcomeOf(reading.ledgers, DeclaredInterval(bundle), AnchorOf(bundle), reading.reported)
  }

  lemma ConcludedShape(bundle: Bundle, reading: Reading, outcome: IntervalOutcome)
    requires EvidenceUsable(bundle) && Concluded(bundle, reading, outcome)
    ensures Gathers(bundle, reading)
    ensures 0 < |outcome.heights| == |reading.ledgers| == |Chain(bundle)|
    ensures outcome.anchor == AnchorOf(bundle)
    ensures outcome.expectedEndOrchard == HeldAfter(bundle, Orchard, |Chain(bundle)|)
    ensures outcome.expectedEndIronwood == HeldAfter(bundle, Ironwood, |Chain(bundle)|)
  {
    hide Gathers, EvidenceUsable, LedgersFor, HeldAfter, Chain, Balance;
    GatheredLength(bundle, reading);
    GatheredLedger(bundle, reading, 0);
    BalanceIsHeld(bundle, reading.ledgers, Orchard, |reading.ledgers|);
    BalanceIsHeld(bundle, reading.ledgers, Ironwood, |reading.ledgers|);
  }

  /** The fields of one row of an outcome. */
  lemma RowFields(
    ledgers: seq<BlockLedger>, interval: HeightInterval, anchor: AnchorBalances, reported: Reports, i: nat)
    requires Reconcilable(ledgers, anchor) && i < |ledgers|
    ensures var row, height := OutcomeOf(ledgers, interval, anchor, reported).heights[i], ledgers[i].height;
            && row.height == height
            && row.orchardDelta == ledgers[i].Delta(Orchard) && row.ironwoodDelta == ledgers[i].Delta(Ironwood)
            && row.expectedOrchard == Balance(ledgers, anchor, Orchard, i + 1)
            && row.expectedIronwood == Balance(ledgers, anchor, Ironwood, i + 1)
            && row.reportedOrchard == ReportedBalance(reported, height, Orchard)
            && row.reportedIronwood == ReportedBalance(reported, height, Ironwood)
            && row.reportedOrchardDelta == ReportedDelta(reported, height, Orchard)
            && row.reportedIronwoodDelta == ReportedDelta(reported, height, Ironwood)
  {
  }

  lemma RowStates(bundle: Bundle, reading: Reading, outcome: IntervalOutcome, i: nat)
    requires EvidenceUsable(bundle) && Concluded(bundle, reading, outcome) && i < |Chain(bundle)|
    ensures i < |outcome.heights| && RowIs(bundle, outcome.heights[i], i)
  {
    hide Gathers, EvidenceUsable, Reconcilable, Chain, AnchorOf, HeldAfter, LedgerFor, LedgersFor, StateAt, Balance;
    hide OutcomeOf;
    hide ReportedBalance, ReportedDelta, HeightUsable;
    ConcludedShape(bundle, reading, outcome);
    EvidenceParts(bundle);
    RowFields(reading.ledgers, DeclaredInterval(bundle), AnchorOf(bundle), reading.reported, i);
    RowStatesBlock(bundle, reading, outcome.heights[i], i);
  }

  lemma RowStatesBlock(bundle: Bundle, reading: Reading, row: HeightOutcome, i: nat)
    requires EvidenceUsable(bundle) && Gathers(bundle, reading) && i < |reading.ledgers| == |Chain(bundle)|
    requires row.height == reading.ledgers[i].height
    requires row.orchardDelta == reading.ledgers[i].Delta(Orchard)
             && row.ironwoodDelta == reading.ledgers[i].Delta(Ironwood)
    requires row.expectedOrchard == Balance(reading.ledgers, AnchorOf(bundle), Orchard, i + 1)
    requires row.expectedIronwood == Balance(reading.ledgers, AnchorOf(bundle), Ironwood, i + 1)
    requires row.reportedOrchard == ReportedBalance(reading.reported, row.height, Orchard)
    requires row.reportedIronwood == ReportedBalance(reading.reported, row.height, Ironwood)
    requires row.reportedOrchardDelta == ReportedDelta(reading.reported, row.height, Orchard)
    requires row.reportedIronwoodDelta == ReportedDelta(reading.reported, row.height, Ironwood)
    ensures RowIs(bundle, row, i)
  {
    hide Gathers, EvidenceUsable, Reconcilable, Chain, AnchorOf, HeldAfter, LedgerFor, LedgersFor, StateAt, Balance;
    hide ReportedBalance, ReportedDelta, HeightUsable;
    GatheredLength(bundle, reading);
    GatheredLedger(bundle, reading, i);
    LedgerHeight(reading.ledgers[i], Chain(bundle)[i], bundle.Start() + i);
    GatheredState(bundle, reading, bundle.Start() + i);
    BalanceIsHeld(bundle, reading.ledgers, Orchard, i + 1);
    BalanceIsHeld(bundle, reading.ledgers, Ironwood, i + 1);
  }

  lemma RowCleanExact(bundle: Bundle, row: HeightOutcome, i: nat)
    requires EvidenceUsable(bundle) && i < |Chain(bundle)| && RowIs(bundle, row, i)
    ensures RowClean(row) <==> PoolAgrees(bundle, Orchard, i) && PoolAgrees(bundle, Ironwood, i)
  {
    hide EvidenceUsable, Chain, HeldAfter, StateAt;
  }

  lemma GatheredLinks(bundle: Bundle, reading: Reading, i: nat)
    requires EvidenceUsable(bundle) && Gathers(bundle, reading) && i < |reading.ledgers|
    ensures i < |Chain(bundle)|
    ensures reading.ledgers[i].blockHash == Chain(bundle)[i].hash
    ensures reading.ledgers[i].previousBlockHash == Chain(bundle)[i].previousHash
  {
    hide LedgerFor, Chain, Gathers, EvidenceUsable;
    GatheredLength(bundle, reading);
    GatheredLedger(bundle, reading, i);
    LedgerHeight(reading.ledgers[i], Chain(bundle)[i], bundle.Start() + i);
  }

  lemma SameLinks(ledgers: seq<BlockLedger>, chain: seq<RawBlock>, endpoints: ChainEndpoints)
    requires |ledgers| == |chain| > 0
    requires forall i | 0 <= i < |chain| ::
               ledgers[i].blockHash == chain[i].hash && ledgers[i].previousBlockHash == chain[i].previousHash
    ensures Linked(ledgers, endpoints) <==>
            && chain[0].previousHash == endpoints.anchorHash
            && (forall i | 0 < i < |chain| :: FollowsOn(chain, i))
            && chain[|chain| - 1].hash == endpoints.endHash
  {
    assert forall i | 0 < i < |ledgers| :: LinksBack(ledgers, i) <==> FollowsOn(chain, i);
  }

  lemma LinkedExact(bundle: Bundle, reading: Reading)
    requires EvidenceUsable(bundle) && Gathers(bundle, reading)
    ensures reading.continuity.Ok? <==> ChainHolds(bundle)
  {
    hide EvidenceUsable, Chain, LedgersFor, ReportsAre, WarnsOfUnlisted, AnchorHash, Linked;
    GatheredLength(bundle, reading);
    ChainFits(bundle);
    GatheredLedger(bundle, reading, 0);
    forall i | 0 <= i < |reading.ledgers|
      ensures reading.ledgers[i].blockHash == Chain(bundle)[i].hash
      ensures reading.ledgers[i].previousBlockHash == Chain(bundle)[i].previousHash
    {
      GatheredLinks(bundle, reading, i);
    }
    SameLinks(reading.ledgers, Chain(bundle), ChainEndpoints(AnchorHash(bundle), bundle.data.header.endHash));
  }

  lemma WithdrawalExact(ledger: BlockLedger, raw: RawBlock, height: u32)
    requires LedgerFor(ledger, raw, height)
    ensures OnlyWithdraws(ledger) <==> OnlyWithdrawsOrchard(raw)
  {
    forall j | 0 <= j < |raw.transactions|
      ensures ledger.transactions[j].orchardDelta == raw.transactions[j].Movement(Orchard)
    {
      assert SameMovement(ledger.transactions[j], raw.transactions[j]);
      assert ledger.transactions[j].Delta(Orchard) == ledger.transactions[j].orchardDelta;
    }
    assert forall j | 0 <= j < |raw.transactions| ::
        GrowsOrchard(ledger.transactions[j]) <==> !(raw.transactions[j].Movement(Orchard) <= 0);
  }

  /** The Ironwood balance a reading found one block below activation. */
  ghost function ObservedIn(bundle: Bundle, reading: Reading): Option<Option<Zatoshi>>
    requires ReadPoolState(bundle, AnchorPools).Ok?
  {
    PreActivationIronwood(bundle.data.header.interval.anchor, bundle.Network(), AnchorState(bundle), reading.reported)
  }

  lemma ObservedExact(bundle: Bundle, reading: Reading)
    requires EvidenceUsable(bundle) && Gathers(bundle, reading)
    ensures (ObservedIn(bundle, reading).Some? ==> IfReported(ObservedIn(bundle, reading).value, 0)) <==>
            PoolStartsEmpty(bundle)
  {
    var boundary: u32 := bundle.Network().ActivationHeight() - 1;
    assert boundary in reading.reported <==> bundle.Start() <= boundary <= bundle.End();
    if bundle.Start() <= boundary <= bundle.End() {
      GatheredState(bundle, reading, boundary);
    }
    hide Gathers, EvidenceUsable, StateAt, AnchorState;
  }

  lemma SummaryExact(bundle: Bundle, reading: Reading)
    requires EvidenceUsable(bundle) && Gathers(bundle, reading)
    ensures var check := ManifestAgreement(
              bundle.data.header, AnchorOf(bundle), ReportedBalance(reading.reported, bundle.End(), Orchard),
              ReportedBalance(reading.reported, bundle.End(), Ironwood));
            check.status != Fail <==> SummaryHolds(bundle)
  {
    hide Chain, LedgersFor, Linked, WarnsOfUnlisted, HeightUsable, Intact, ManifestAgreement, StateAt;
    GatheredState(bundle, reading, bundle.End());
    assert AnchorState(bundle).Balance(Orchard) == Some(AnchorOf(bundle).orchard);
    assert AnchorState(bundle).Balance(Ironwood) == Some(AnchorOf(bundle).ironwood);
  }

  // ---- The groups, in terms of blocks ----

  /** A row, a ledger and a block of the same height say the same about the boundary rules. */
  ghost predicate SameAtBoundary(row: HeightOutcome, ledger: BlockLedger, raw: RawBlock, height: u32) {
    && row.height == ledger.height == height
    && row.ironwoodDelta == raw.Movement(Ironwood)
    && (OnlyWithdraws(ledger) <==> OnlyWithdrawsOrchard(raw))
  }

  lemma RowMeetsBoundary(bundle: Bundle, reading: Reading, outcome: IntervalOutcome, i: nat)
    requires EvidenceUsable(bundle) && Concluded(bundle, reading, outcome) && i < |Chain(bundle)|
    ensures i < |outcome.heights| && i < |reading.ledgers| && bundle.Start() + i <= U32_MAX
    ensures SameAtBoundary(outcome.heights[i], reading.ledgers[i], Chain(bundle)[i], bundle.Start() + i)
  {
    hide Gathers, EvidenceUsable, Concluded, Chain, HeldAfter, LedgerFor, StateAt, HeightUsable, OnlyWithdraws;
    hide OnlyWithdrawsOrchard;
    ConcludedShape(bundle, reading, outcome);
    ChainFits(bundle);
    RowStates(bundle, reading, outcome, i);
    GatheredLedger(bundle, reading, i);
    WithdrawalExact(reading.ledgers[i], Chain(bundle)[i], bundle.Start() + i);
    LedgerHeight(reading.ledgers[i], Chain(bundle)[i], bundle.Start() + i);
  }

  lemma ChainFits(bundle: Bundle)
    requires EvidenceUsable(bundle)
    ensures bundle.Start() + |Chain(bundle)| == bundle.End() + 1 && |Chain(bundle)| > 0
  {
    hide Intact, AnchorUsable, HeightUsable;
  }

  lemma RulesExact(
    bundle: Bundle, rows: seq<HeightOutcome>, ledgers: seq<BlockLedger>, chain: seq<RawBlock>, start: u32)
    requires |rows| == |ledgers| == |chain| && start + |chain| <= U32_MAX + 1
    requires forall i | 0 <= i < |chain| :: SameAtBoundary(rows[i], ledgers[i], chain[i], start + i)
    ensures (forall i | 0 <= i < |chain| :: RuleHolds(bundle, chain[i], start + i)) <==>
            && (forall i | 0 <= i < |rows| && !bundle.Network().IsPostActivation(rows[i].height) ::
                  rows[i].ironwoodDelta == 0)
            && forall i | 0 <= i < |ledgers| && bundle.Network().IsPostActivation(ledgers[i].height) ::
                 OnlyWithdraws(ledgers[i])
  {
    hide OnlyWithdraws, OnlyWithdrawsOrchard;
    var network := bundle.Network();
    forall i | 0 <= i < |chain|
      ensures RuleHolds(bundle, chain[i], start + i) <==>
              && (!network.IsPostActivation(rows[i].height) ==> rows[i].ironwoodDelta == 0)
              && (network.IsPostActivation(ledgers[i].height) ==> OnlyWithdraws(ledgers[i]))
    {
      assert SameAtBoundary(rows[i], ledgers[i], chain[i], start + i);
    }
  }

  lemma ActivationHolds(bundle: Bundle, reading: Reading, outcome: IntervalOutcome)
    requires EvidenceUsable(bundle) && Concluded(bundle, reading, outcome)
    ensures NoFailure(ActivationVerdicts(
              outcome.heights, reading.ledgers, bundle.Network(), Some(bundle.data.header.activationHeight),
              ObservedIn(bundle, reading)))
            <==> BoundaryHolds(bundle)
  {
    hide EvidenceUsable, Gathers, Concluded, Chain, OnlyWithdraws, OnlyWithdrawsOrchard, SameAtBoundary, RuleHolds;
    hide ActivationVerdicts, ObservedIn, PoolStartsEmpty, IfReported, AnchorOf, HeldAfter, NoFailure;
    hide Network.IsPostActivation;
    EvidenceParts(bundle);
    ConcludedShape(bundle, reading, outcome);
    ObservedExact(bundle, reading);
    RulesOfRows(bundle, reading, outcome);
    ActivationExact(
      outcome.heights, reading.ledgers, bundle.Network(), bundle.data.header.activationHeight,
      ObservedIn(bundle, reading));
  }

  lemma RulesOfRows(bundle: Bundle, reading: Reading, outcome: IntervalOutcome)
    requires EvidenceUsable(bundle) && Concluded(bundle, reading, outcome)
    ensures var rows, ledgers, chain, network := outcome.heights, reading.ledgers, Chain(bundle), bundle.Network();
            && |rows| == |ledgers| == |chain| && bundle.Start() + |chain| <= U32_MAX + 1
            && (forall i | 0 <= i < |rows| :: rows[i].height == ledgers[i].height)
            && ((forall i | 0 <= i < |chain| :: RuleHolds(bundle, chain[i], bundle.Start() + i)) <==>
                  && (forall i | 0 <= i < |rows| && !network.IsPostActivation(rows[i].height) ::
                        rows[i].ironwoodDelta == 0)
                  && forall i | 0 <= i < |ledgers| && network.IsPostActivation(ledgers[i].height) ::
                       OnlyWithdraws(ledgers[i]))
  {
    hide EvidenceUsable, Gathers, Concluded, Chain, OnlyWithdraws, OnlyWithdrawsOrchard, SameAtBoundary, RuleHolds;
    hide HeldAfter, Network.IsPostActivation, HeightUsable;
    ConcludedShape(bundle, reading, outcome);
    ChainFits(bundle);
    var rows, ledgers, chain := outcome.heights, reading.ledgers, Chain(bundle);
    forall i | 0 <= i < |chain|
      ensures SameAtBoundary(rows[i], ledgers[i], chain[i], bundle.Start() + i)
      ensures rows[i].height == ledgers[i].height
    {
      RowMeetsBoundary(bundle, reading, outcome, i);
      BoundaryHeights(rows[i], ledgers[i], chain[i], bundle.Start() + i);
    }
    RulesExact(bundle, rows, ledgers, chain, bundle.Start());
  }

  lemma BoundaryHeights(row: HeightOutcome, ledger: BlockLedger, raw: RawBlock, height: u32)
    requires SameAtBoundary(row, ledger, raw, height)
    ensures row.height == ledger.height
  {
  }

  lemma AccountingHolds(bundle: Bundle, reading: Reading, outcome: IntervalOutcome)
    requires EvidenceUsable(bundle) && Concluded(bundle, reading, outcome)
    ensures NoFailure(AccountingVerdicts(
              outcome, ReportedBalance(reading.reported, bundle.End(), Orchard),
              ReportedBalance(reading.reported, bundle.End(), Ironwood)))
            <==> BalancesHold(bundle)
  {
    hide EvidenceUsable, Gathers, Concluded, Chain, AnchorOf, StateAt, HeldAfter, PoolAgrees, RowClean, RowIs;
    hide ReportedBalance, ReportedDelta, AccountingVerdicts, HeightUsable;
    var rows, n := outcome.heights, |Chain(bundle)|;
    ConcludedShape(bundle, reading, outcome);
    ChainFits(bundle);
    forall i | 0 <= i < n
      ensures RowClean(rows[i]) <==> PoolAgrees(bundle, Orchard, i) && PoolAgrees(bundle, Ironwood, i)
    {
      RowStates(bundle, reading, outcome, i);
      RowCleanExact(bundle, rows[i], i);
    }
    GatheredState(bundle, reading, bundle.End());
    AccountingExact(
      outcome, ReportedBalance(reading.reported, bundle.End(), Orchard),
      ReportedBalance(reading.reported, bundle.End(), Ironwood));
  }

  /** Exit code 0 is exactly the certificate: the chain links from the anchor block's own hash to the
      claimed end, the manifest's summary is the evidence's, the boundary rules hold block by block, and
      at every height both balances are the anchor's less every value balance, never negative and as
      the node reported them. */
  lemma VerdictExact(bundle: Bundle, r: Reconciliation, reading: Reading)
    requires EvidenceUsable(bundle) && Reconciles(bundle, r, reading)
    ensures ExitsSuccessfully(r.report.overallStatus) <==> Certified(bundle)
  {
    var outcome := r.outcome;
    WhatIsReported(bundle, r, reading);
    hide EvidenceUsable, Gathers, Concluded, Reconciles, Reconcilable, Chain, AnchorOf, AnchorState, OutcomeOf;
    hide Presents, Verdict;
    hide ActivationVerdicts, AccountingVerdicts, StructuralVerdicts, ManifestAgreement, ObservedIn, ReportedBalance;
    hide BoundaryHolds, BalancesHold, ChainHolds, SummaryHolds, HasAnchorBlock, NoFailure, AllVerdicts, HeldAfter;
    ConcludedShape(bundle, reading, outcome);
    ActivationHolds(bundle, reading, outcome);
    AccountingHolds(bundle, reading, outcome);
    LinkedExact(bundle, reading);
    SummaryExact(bundle, reading);
    EvidenceParts(bundle);
    AllExact(bundle, reading, outcome);
    SucceedsWithoutFailure(AllVerdicts(bundle, reading, outcome));
  }

  lemma WhatIsReported(bundle: Bundle, r: Reconciliation, reading: Reading)
    requires EvidenceUsable(bundle) && Reconciles(bundle, r, reading)
    ensures Concluded(bundle, reading, r.outcome) && reading.validation.failures == []
    ensures ReadPoolState(bundle, AnchorPools).Ok?
    ensures r.report.overallStatus == Verdict(AllVerdicts(bundle, reading, r.outcome))
    ensures r.report.perHeight == RowsFor(r.outcome.heights)
  {
    hide LedgersFor, Chain, Linked, ReportsAre, WarnsOfUnlisted, AllVerdicts, Verdict, Reconcilable, OutcomeOf;
    hide HeightUsable, Intact;
  }

  lemma SingletonFailure(check: Check)
    ensures NoFailure([check]) <==> check.status != Fail
  {
    assert [check][0] == check;
  }

  lemma AllExact(bundle: Bundle, reading: Reading, outcome: IntervalOutcome)
    requires ReadPoolState(bundle, AnchorPools).Ok? && reading.validation.failures == []
    ensures var endOrchard := ReportedBalance(reading.reported, bundle.End(), Orchard);
            var endIronwood := ReportedBalance(reading.reported, bundle.End(), Ironwood);
            NoFailure(AllVerdicts(bundle, reading, outcome)) <==>
            && HasAnchorBlock(bundle) && reading.continuity.Ok?
            && ManifestAgreement(bundle.data.header, outcome.anchor, endOrchard, endIronwood).status != Fail
            && NoFailure(ActivationVerdicts(
                 outcome.heights, reading.ledgers, bundle.Network(), Some(bundle.data.header.activationHeight),
                 ObservedIn(bundle, reading)))
            && NoFailure(AccountingVerdicts(outcome, endOrchard, endIronwood))
  {
    hide ActivationVerdicts, AccountingVerdicts, StructuralVerdicts, ManifestAgreement, PreActivationIronwood;
    hide ReportedBalance;
    hide HasAnchorBlock, NoFailure, ReadPoolState;
    var network, header := bundle.Network(), bundle.data.header;
    var endOrchard := ReportedBalance(reading.reported, bundle.End(), Orchard);
    var endIronwood := ReportedBalance(reading.reported, bundle.End(), Ironwood);
    var a := StructuralVerdicts(network, reading.validation, network, HasAnchorBlock(bundle), reading.continuity);
    var b := ManifestAgreement(header, outcome.anchor, endOrchard, endIronwood);
    var c := ActivationVerdicts(
      outcome.heights, reading.ledgers, network, Some(header.activationHeight), ObservedIn(bundle, reading));
    var d := AccountingVerdicts(outcome, endOrchard, endIronwood);
    StructureExact(network, reading.validation, HasAnchorBlock(bundle), reading.continuity);
    NoFailureConcat(a, [b]);
    NoFailureConcat(a + [b], c);
    NoFailureConcat(a + [b] + c, d);
    NoFailureConcat(a + [b] + c + d, [Passed(CANONICAL_REPORT_GENERATED)]);
    SingletonFailure(b);
    SingletonFailure(Passed(CANONICAL_REPORT_GENERATED));
  }

  // ---- Warnings ----

  ghost predicate NoWarning(checks: seq<Check>) {
    forall i | 0 <= i < |checks| :: checks[i].status != Warn
  }

  lemma NoWarningConcat(a: seq<Check>, b: seq<Check>)
    ensures NoWarning(a + b) <==> NoWarning(a) && NoWarning(b)
  {
    if NoWarning(a + b) {
      forall i | 0 <= i < |a|
        ensures a[i].status != Warn
      {
        assert (a + b)[i] == a[i];
      }
      forall i | 0 <= i < |b|
        ensures b[i].status != Warn
      {
        assert (a + b)[|a| + i] == b[i];
      }
    }
  }

  lemma OthersNeverWarn(
    bundle: Bundle, reading: Reading, outcome: IntervalOutcome, endOrchard: Option<Zatoshi>,
    endIronwood: Option<Zatoshi>)
    requires ReadPoolState(bundle, AnchorPools).Ok?
    ensures NoWarning(ActivationVerdicts(
              outcome.heights, reading.ledgers, bundle.Network(), Some(bundle.data.header.activationHeight),
              ObservedIn(bundle, reading)))
    ensures NoWarning(AccountingVerdicts(outcome, endOrchard, endIronwood))
    ensures NoWarning([ManifestAgreement(bundle.data.header, outcome.anchor, endOrchard, endIronwood)])
    ensures NoWarning([Passed(CANONICAL_REPORT_GENERATED)])
  {
    hide NoIronwoodBeforeActivation, OrchardWithdrawalOnly, NoNegativeBalance, EndBalance, EndsCorroborated;
    hide ObservedIn;
    hide ManifestAgreement, Divergent, ReadPoolState;
  }

  lemma StructureWarns(network: Network, validation: ValidationReport, present: bool, continuity: Result<()>)
    ensures NoWarning(StructuralVerdicts(network, validation, network, present, continuity)) <==>
            CountUnlisted(validation.warnings) == 0
  {
    var first := [Passed(MANIFEST_SCHEMA_RECOGNIZED), EvidenceHashes(validation.failures),
                  Condition(NETWORK_MATCHES, true, NetworkDiffers(network, network)),
                  Condition(ANCHOR_BLOCK_PRESENT, present, Fixed)];
    var second, third := ContinuityVerdicts(continuity), UnlistedVerdicts(validation.warnings);
    hide CountUnlisted;
    assert NoWarning(third) <==> CountUnlisted(validation.warnings) == 0 by {
      assert third != [] ==> third[0].status == Warn;
    }
    NoWarningConcat(first, second);
    NoWarningConcat(first + second, third);
  }

  lemma UnlistedExactly(bundle: Bundle, warnings: seq<ValidationWarning>)
    requires WarnsOfUnlisted(bundle, warnings)
    ensures CountUnlisted(warnings) > 0 <==> UnlistedPaths(bundle.files, bundle.data) != {}
  {
    hide UnlistedPaths;
    var unlisted :| ListsAscending(unlisted, UnlistedPaths(bundle.files, bundle.data))
                    && warnings == DigestWarnings(bundle.files) + UnlistedWarnings(unlisted);
    if unlisted != [] {
      assert unlisted[0] in unlisted;
      assert UnlistedWarnings(unlisted)[0] == UnlistedFile(unlisted[0]);
      assert UnlistedFile(unlisted[0]) in warnings;
    } else {
      assert warnings == DigestWarnings(bundle.files);
      assert forall path | path in UnlistedPaths(bundle.files, bundle.data) :: path in unlisted;
    }
  }

  /** A certified report is a plain pass exactly when no file of the bundle is unlisted; with one it
      passes with a warning. A missing manifest digest leaves no trace in the verdict. */
  lemma WarningExact(bundle: Bundle, r: Reconciliation, reading: Reading)
    requires EvidenceUsable(bundle) && Reconciles(bundle, r, reading)
    ensures r.report.overallStatus == Pass <==> Certified(bundle) && UnlistedPaths(bundle.files, bundle.data) == {}
    ensures r.report.overallStatus == Warn <==> Certified(bundle) && UnlistedPaths(bundle.files, bundle.data) != {}
  {
    var outcome := r.outcome;
    VerdictExact(bundle, r, reading);
    WhatIsReported(bundle, r, reading);
    assert WarnsOfUnlisted(bundle, reading.validation.warnings);
    hide EvidenceUsable, Gathers, Concluded, Reconciles, Reconcilable, Certified, UnlistedPaths, CountUnlisted;
    hide WarnsOfUnlisted;
    UnlistedExactly(bundle, reading.validation.warnings);
    AllWarn(bundle, reading, outcome);
    var checks := AllVerdicts(bundle, reading, outcome);
    hide AllVerdicts;
    assert NoWarning(checks) <==> !AnyWith(checks, Warn) by {
      if !NoWarning(checks) {
        var i :| 0 <= i < |checks| && checks[i].status == Warn;
        assert checks[i] in checks;
      }
    }
  }

  lemma AllWarn(bundle: Bundle, reading: Reading, outcome: IntervalOutcome)
    requires ReadPoolState(bundle, AnchorPools).Ok?
    ensures NoWarning(AllVerdicts(bundle, reading, outcome)) <==> CountUnlisted(reading.validation.warnings) == 0
  {
    hide ActivationVerdicts, AccountingVerdicts, StructuralVerdicts, ManifestAgreement, PreActivationIronwood;
    hide ReportedBalance;
    hide HasAnchorBlock, NoWarning, ReadPoolState, CountUnlisted;
    var network, header := bundle.Network(), bundle.data.header;
    var endOrchard := ReportedBalance(reading.reported, bundle.End(), Orchard);
    var endIronwood := ReportedBalance(reading.reported, bundle.End(), Ironwood);
    var a := StructuralVerdicts(network, reading.validation, network, HasAnchorBlock(bundle), reading.continuity);
    var b := ManifestAgreement(header, outcome.anchor, endOrchard, endIronwood);
    var c := ActivationVerdicts(
      outcome.heights, reading.ledgers, network, Some(header.activationHeight), ObservedIn(bundle, reading));
    var d := AccountingVerdicts(outcome, endOrchard, endIronwood);
    StructureWarns(network, reading.validation, HasAnchorBlock(bundle), reading.continuity);
    OthersNeverWarn(bundle, reading, outcome, endOrchard, endIronwood);
    NoWarningConcat(a, [b]);
    NoWarningConcat(a + [b], c);
    NoWarningConcat(a + [b] + c, d);
    NoWarningConcat(a + [b] + c + d, [Passed(CANONICAL_REPORT_GENERATED)]);
  }

  // ---- What the report states ----

  ghost predicate Flags(agreement: Agreement, reported: Option<Zatoshi>, figure: int) {
    && (agreement.NotReported? <==> reported.None?)
    && (agreement.Differs? <==> !IfReported(reported, figure))
  }

  ghost predicate RowReports(bundle: Bundle, row: HeightRow, i: nat)
    requires EvidenceUsable(bundle) && i < |Chain(bundle)|
  {
    ChainAt(bundle, bundle.Start() + i);
    var raw, state := Chain(bundle)[i], StateAt(bundle, bundle.Start() + i);
    && row.height == bundle.Start() + i
    && row.orchardDelta == raw.Movement(Orchard) && row.ironwoodDelta == raw.Movement(Ironwood)
    && row.orchardExpected == HeldAfter(bundle, Orchard, i + 1)
    && row.ironwoodExpected == HeldAfter(bundle, Ironwood, i + 1)
    && row.orchardReported == state.Balance(Orchard) && row.ironwoodReported == state.Balance(Ironwood)
    && Flags(row.orchardBalance, state.Balance(Orchard), HeldAfter(bundle, Orchard, i + 1))
    && Flags(row.ironwoodBalance, state.Balance(Ironwood), HeldAfter(bundle, Ironwood, i + 1))
    && Flags(row.orchardDeltaAgreement, state.Delta(Orchard), raw.Movement(Orchard))
    && Flags(row.ironwoodDeltaAgreement, state.Delta(Ironwood), raw.Movement(Ironwood))
  }

  lemma RowReportsExact(bundle: Bundle, row: HeightOutcome, i: nat)
    requires EvidenceUsable(bundle) && i < |Chain(bundle)| && RowIs(bundle, row, i)
    ensures RowReports(bundle, RowFor(row), i)
  {
    hide EvidenceUsable, Chain, HeldAfter, StateAt, HeightUsable;
  }

  /** Each row of the report is about the block of its height: that block's movements, the balances they
      lead to and the node's figures there, and a divergence is flagged exactly where those disagree. */
  lemma ReportRowExact(bundle: Bundle, r: Reconciliation, reading: Reading, i: nat)
    requires EvidenceUsable(bundle) && Reconciles(bundle, r, reading) && i < |Chain(bundle)|
    ensures |r.report.perHeight| == |Chain(bundle)|
    ensures RowReports(bundle, r.report.perHeight[i], i)
  {
    hide EvidenceUsable, Gathers, Concluded, Reconciles, Reconcilable, Chain, HeldAfter, StateAt, HeightUsable;
    hide OutcomeOf;
    hide RowFor, RowIs, RowReports, Verdict, AllVerdicts;
    WhatIsReported(bundle, r, reading);
    ConcludedShape(bundle, reading, r.outcome);
    RowStates(bundle, reading, r.outcome, i);
    RowReportsExact(bundle, r.outcome.heights[i], i);
  }

  /** The totals of the report, over the blocks themselves: net changes are sums of movements, the flows count only
      what left Orchard and what entered Ironwood, and the ends are the anchor's balances plus the net changes. */
  lemma ReportTotalsExact(bundle: Bundle, r: Reconciliation, reading: Reading)
    requires EvidenceUsable(bundle) && Reconciles(bundle, r, reading)
    ensures var orchard, ironwood := Movements(Chain(bundle), Orchard), Movements(Chain(bundle), Ironwood);
            && r.report.cumulativeOrchard == Sum(orchard) && r.report.cumulativeIronwood == Sum(ironwood)
            && r.report.flows.orchardOutflow == Sum(Leaving(orchard))
            && r.report.flows.ironwoodInflow == Sum(Entering(ironwood))
            && r.report.expectedEndOrchard == AnchorState(bundle).balances[Orchard] + Sum(orchard)
            && r.report.expectedEndIronwood == AnchorState(bundle).balances[Ironwood] + Sum(ironwood)
  {
    hide EvidenceUsable, Gathers, LedgersFor, Chain, Deltas, Movements, AllVerdicts, ReadPoolState, Leaving, Entering;
    hide AnchorUsable, OutcomeOf, Reconcilable, ContextOf;
    EvidenceParts(bundle);
    GatheredLength(bundle, reading);
    OutcomeTotals(reading.ledgers, DeclaredInterval(bundle), AnchorOf(bundle), reading.reported);
    DeltasAreMovements(reading.ledgers, Chain(bundle), bundle.Start(), Orchard);
    DeltasAreMovements(reading.ledgers, Chain(bundle), bundle.Start(), Ironwood);
  }

  lemma OutcomeTotals(ledgers: seq<BlockLedger>, interval: HeightInterval, anchor: AnchorBalances, reported: Reports)
    requires Reconcilable(ledgers, anchor)
    ensures var outcome := OutcomeOf(ledgers, interval, anchor, reported);
            var orchard, ironwood := Deltas(ledgers, Orchard), Deltas(ledgers, Ironwood);
            && outcome.cumulativeOrchard == Sum(orchard) && outcome.cumulativeIronwood == Sum(ironwood)
            && outcome.flows.orchardOutflow == Sum(Leaving(orchard))
            && outcome.flows.ironwoodInflow == Sum(Entering(ironwood))
            && outcome.expectedEndOrchard == anchor.orchard + Sum(orchard)
            && outcome.expectedEndIronwood == anchor.ironwood + Sum(ironwood)
  {
    hide Deltas, Leaving, Entering;
  }

  /** The end balances a report quotes are those of the last record, each pool's own, and its identity and network
      are the manifest's. */
  lemma ContextExact(bundle: Bundle, reading: Reading)
    requires EvidenceUsable(bundle) && Gathers(bundle, reading)
    ensures HeightUsable(bundle, bundle.End())
    ensures var context := ContextOf(bundle, reading.reported);
            && context.bundleId == bundle.data.header.bundleId && context.network == bundle.data.header.network
            && context.reportedEndOrchard == StateAt(bundle, bundle.End()).Balance(Orchard)
            && context.reportedEndIronwood == StateAt(bundle, bundle.End()).Balance(Ironwood)
  {
    EvidenceParts(bundle);
    GatheredState(bundle, reading, bundle.End());
    hide EvidenceUsable, Gathers, HeightUsable, StateAt, ReportedBalance;
  }

  /** What the report says around its rows: the bundle's identity, the interval and its anchor as the evidence has
      them, and the end balances the node stated in the last record. */
  lemma ReportContextExact(bundle: Bundle, r: Reconciliation, reading: Reading)
    requires EvidenceUsable(bundle) && Reconciles(bundle, r, reading)
    ensures HeightUsable(bundle, bundle.End())
    ensures r.report.context.bundleId == bundle.data.header.bundleId
    ensures r.report.context.network == bundle.data.header.network
    ensures r.report.context.reportedEndOrchard == StateAt(bundle, bundle.End()).Balance(Orchard)
    ensures r.report.context.reportedEndIronwood == StateAt(bundle, bundle.End()).Balance(Ironwood)
    ensures r.report.interval.start == bundle.data.header.interval.start
    ensures r.report.interval.end == bundle.data.header.interval.end
    ensures r.report.interval.anchor == bundle.data.header.interval.start - 1
    ensures r.report.blockCount == |Chain(bundle)|
    ensures r.report.anchor.orchard == AnchorState(bundle).balances[Orchard]
    ensures r.report.anchor.ironwood == AnchorState(bundle).balances[Ironwood]
  {
    EvidenceParts(bundle);
    GatheredLength(bundle, reading);
    ContextExact(bundle, reading);
    hide EvidenceUsable, Gathers, LedgersFor, AllVerdicts, ReadPoolState, HeightUsable, StateAt, ContextOf;
  }

  /** The report's summary counts the rows that disagree with the node and names the first. */
  lemma ReportSummaryExact(bundle: Bundle, r: Reconciliation, reading: Reading)
    requires EvidenceUsable(bundle) && Reconciles(bundle, r, reading)
    ensures r.report.summary.heightsCompared == |r.report.perHeight| == |Chain(bundle)|
    ensures r.report.summary.heightsDiverging == 0 <==>
            forall i | 0 <= i < |r.report.perHeight| :: !r.report.perHeight[i].Diverges()
    ensures match r.report.summary.firstDivergingHeight
            case None => r.report.summary.heightsDiverging == 0
            case Some(height) =>
              exists i | 0 <= i < |r.report.perHeight| ::
                && r.report.perHeight[i].Diverges() && r.report.perHeight[i].height == height
                && forall j | 0 <= j < i :: !r.report.perHeight[j].Diverges()
  {
    hide EvidenceUsable, Gathers, LedgersFor, AllVerdicts, OutcomeOf, Chain, Concluded, Reconcilable, DivergentHeights;
    hide RowsFor, ContextOf, AnchorOf, HeldAfter, HeightRow.Diverges, HeightOutcome.Diverges, Verdict;
    WhatIsReported(bundle, r, reading);
    ConcludedShape(bundle, reading, r.outcome);
    FirstDivergent(r.outcome.heights);
    RowsDiverge(r.report, r.outcome);
  }

  lemma RowsDiverge(report: Report, outcome: IntervalOutcome)
    requires report.perHeight == RowsFor(outcome.heights)
    ensures |report.perHeight| == |outcome.heights|
    ensures forall i | 0 <= i < |outcome.heights| ::
              && report.perHeight[i].Diverges() == outcome.heights[i].Diverges()
              && report.perHeight[i].height == outcome.heights[i].height
  {
  }

  // ---- The command ----

  /** Exit code for an error; every error's is above 1. */
  function ExitCodeOf(error: ReconcileError): (code: nat)
    ensures 2 <= code <= 10
  {
    match error
    case InvalidInput => 2
    case InvalidInterval => 2
    case ManifestInvalid => 3
    case HashMismatch(_) => 4
    case MissingFile(_) => 4
    case EvidenceInconsistent(_) => 4
    case ArchiveRejected => 4
    case TransactionParse(_, _) => 5
    case BlockContinuity(_, _) => 6
    case MissingBlock(_) => 6
    case Rpc => 7
    case CaptureIncomplete => 7
    case BranchIdMismatch(_, _) => 8
    case ArithmeticOverflow => 9
    case ValueOutOfBounds(_) => 9
    case Internal => 9
    case Filesystem => 10
  }

  /** What each exit code above 1 says went wrong. */
  lemma ExitCodesExact(error: ReconcileError)
    ensures ExitCodeOf(error) == 2 <==> error in {InvalidInput, InvalidInterval}
    ensures ExitCodeOf(error) == 3 <==> error == ManifestInvalid
    ensures ExitCodeOf(error) == 4 <==>
            error.HashMismatch? || error.MissingFile? || error.EvidenceInconsistent? || error == ArchiveRejected
    ensures ExitCodeOf(error) == 5 <==> error.TransactionParse?
    ensures ExitCodeOf(error) == 6 <==> error.BlockContinuity? || error.MissingBlock?
    ensures ExitCodeOf(error) == 7 <==> error in {Rpc, CaptureIncomplete}
    ensures ExitCodeOf(error) == 8 <==> error.BranchIdMismatch?
    ensures ExitCodeOf(error) == 9 <==> error in {ArithmeticOverflow, Internal} || error.ValueOutOfBounds?
    ensures ExitCodeOf(error) == 10 <==> error == Filesystem
  {
  }

  /** What a directory's manifest makes of it: the bundle reconciliation works on. */
  ghost function BundleIn(files: Files, codec: Codec, decoder: Decoder): Bundle
    requires Loads(files, codec)
  {
    Bundle(files, codec.loadManifest(files[MANIFEST]).value, codec, decoder)
  }

  /** A manifest that loads is consistent: a supported version, an identity that is its network's and interval's,
      figures of the interval that follow from its bounds, and an ascending index without duplicates. */
  lemma LoadedIsConsistent(files: Files, codec: Codec, decoder: Decoder)
    requires Loads(files, codec)
    ensures var data := BundleIn(files, codec, decoder).data;
            var header := data.header;
            && SchemaMajor(header.schemaVersion) == Some(1)
            && header.bundleId == BundleId(header.network, header.interval.anchor, header.interval.end)
            && header.interval.anchor + 1 == header.interval.start <= header.interval.end
            && header.interval.blockCount == header.interval.end - header.interval.start + 1
            && forall i, j | 0 <= i < j < |data.files| ::
                 StringLe(data.files[i].path, data.files[j].path) && data.files[i].path != data.files[j].path
  {
    hide SchemaMajor, StringLe, MANIFEST;
  }

  /** A directory the command gives a verdict on: its manifest loads, its evidence can be used, and every
      figure fits. */
  ghost predicate HasVerdict(files: Files, codec: Codec, decoder: Decoder) {
    Loads(files, codec) && EvidenceUsable(BundleIn(files, codec, decoder)) &&
    FiguresFit(BundleIn(files, codec, decoder))
  }

  /** Why a directory gets no verdict: its manifest is missing, unreadable or inconsistent, or its bundle has
      the problem named. */
  ghost predicate CommandError(files: Files, codec: Codec, decoder: Decoder, error: ReconcileError) {
    if MANIFEST !in files then error == Filesystem
    else if codec.loadManifest(files[MANIFEST]).Err? then error == codec.loadManifest(files[MANIFEST]).error
    else if !Loads(files, codec) then error == ManifestInvalid
    else Problem(BundleIn(files, codec, decoder), error)
  }

  /** The directory reconciles to this report. */
  ghost predicate Reported(files: Files, codec: Codec, decoder: Decoder, report: Report) {
    && HasVerdict(files, codec, decoder)
    && exists r, reading :: Reconciles(BundleIn(files, codec, decoder), r, reading) && r.report == report
  }

  /** Loads a directory's manifest and reconciles what it describes. There is a report exactly when the directory
      has a verdict, its status says whether the certificate holds, and why there is none is `CommandError`. */
  method ReconcileDirectory(files: Files, codec: Codec, decoder: Decoder) returns (r: Result<Report>)
    ensures r.Ok? <==> HasVerdict(files, codec, decoder)
    ensures r.Ok? ==>
              && Reported(files, codec, decoder, r.value)
              && (ExitsSuccessfully(r.value.overallStatus) <==> Certified(BundleIn(files, codec, decoder)))
    ensures r.Err? ==> CommandError(files, codec, decoder, r.error)
  {
    hide EvidenceUsable, FiguresFit, Certified, Reconciles, Problem, MANIFEST, ValidStructure;
    var data :- LoadManifest(files, codec);
    var bundle := Bundle(files, data, codec, decoder);
    var reconciled, reading := ReconcileWithManifest(bundle);
    match reconciled {
      case Err(error) => r := Err(error);
      case Ok(reconciliation) =>
        VerdictExact(bundle, reconciliation, reading);
        r := Ok(reconciliation.report);
    }
  }

  /** The `reconcile` command: it exits 0 exactly when the directory has a verdict and is certified, 1 exactly
      when it has one and something the certificate asks does not hold, and otherwise with the code of
      whatever is wrong. */
  method RunReconcile(files: Files, codec: Codec, decoder: Decoder) returns (exitCode: nat)
    ensures exitCode == 0 <==> HasVerdict(files, codec, decoder) && Certified(BundleIn(files, codec, decoder))
    ensures exitCode == 1 <==> HasVerdict(files, codec, decoder) && !Certified(BundleIn(files, codec, decoder))
    ensures exitCode > 1 ==> exists error :: CommandError(files, codec, decoder, error) && exitCode == ExitCodeOf(error)
  {
    hide HasVerdict, Reported, Certified, CommandError, ExitCodeOf;
    var r := ReconcileDirectory(files, codec, decoder);
    match r {
      case Err(error) => exitCode := ExitCodeOf(error);
      case Ok(report) => exitCode := if ExitsSuccessfully(report.overallStatus) then 0 else 1;
    }
  }
}
