/** The verdicts recorded about a bundle: what each check decides, and what its failure names. */
module Verdicts {
  import opened Wrappers
  import opened Money
  import opened Ledger
  import opened Interval
  import opened Checks
  import opened Validation

  // ---- Structural checks ----

  function EvidenceHashes(failures: seq<ReconcileError>): (check: Check)
    ensures check.id == EVIDENCE_HASHES_VALID && check.status in {Pass, Fail}
    ensures check.status == Fail <==> failures != []
    ensures failures != [] ==> check.details == Some(EvidenceFailures(|failures|, failures[0]))
  {
    if failures == [] then Passed(EVIDENCE_HASHES_VALID)
    else Failed(EVIDENCE_HASHES_VALID, EvidenceFailures(|failures|, failures[0]))
  }

  /** The two verdicts drawn from continuity: a missing block is the sequence's failure, anything else the
      links'. */
  function ContinuityVerdicts(continuity: Result<()>): (checks: seq<Check>)
    ensures |checks| == 2
    ensures checks[0].id == BLOCK_SEQUENCE_COMPLETE && checks[1].id == PREVIOUS_BLOCK_LINKS_VALID
    ensures checks[0].status == Fail <==> continuity.Err? && continuity.error.MissingBlock?
    ensures checks[1].status == Fail <==> continuity.Err? && !continuity.error.MissingBlock?
    ensures checks[1].status == NotApplicable <==> checks[0].status == Fail
    ensures (forall check | check in checks :: check.status != Fail) <==> continuity.Ok?
    ensures continuity.Err? ==>
              (Failed(BLOCK_SEQUENCE_COMPLETE, ContinuityFailure(continuity.error)) in checks <==>
                 continuity.error.MissingBlock?)
    ensures continuity.Err? && !continuity.error.MissingBlock? ==>
              && Passed(BLOCK_SEQUENCE_COMPLETE) in checks
              && Failed(PREVIOUS_BLOCK_LINKS_VALID, ContinuityFailure(continuity.error)) in checks
  {
    match continuity
    case Ok(_) => [Passed(BLOCK_SEQUENCE_COMPLETE), Passed(PREVIOUS_BLOCK_LINKS_VALID)]
    case Err(error) =>
      var checks :=
        if error.MissingBlock? then
          [Failed(BLOCK_SEQUENCE_COMPLETE, ContinuityFailure(error)), Inapplicable(PREVIOUS_BLOCK_LINKS_VALID)]
        else
          [Passed(BLOCK_SEQUENCE_COMPLETE), Failed(PREVIOUS_BLOCK_LINKS_VALID, ContinuityFailure(error))];
      assert checks[0] in checks && checks[1] in checks;
      checks
  }

  ghost function UnlistedAt(warnings: seq<ValidationWarning>): set<nat> {
    set i: nat | i < |warnings| && warnings[i].UnlistedFile?
  }

  /** How many of the warnings are about an unlisted file. */
  function CountUnlisted(warnings: seq<ValidationWarning>): (count: nat)
    ensures count == |UnlistedAt(warnings)|
  {
    if warnings == [] then
      assert UnlistedAt(warnings) == {};
      0
    else
      var init, last := warnings[..|warnings| - 1], warnings[|warnings| - 1];
      assert UnlistedAt(warnings) == UnlistedAt(init) + if last.UnlistedFile? then {|warnings| - 1} else {};
      CountUnlisted(init) + if last.UnlistedFile? then 1 else 0
  }

  /** A warning on top of the verdict on hashes, when a file is unlisted, and none otherwise. */
  function UnlistedVerdicts(warnings: seq<ValidationWarning>): (checks: seq<Check>)
    ensures checks == [] <==> forall warning | warning in warnings :: !warning.UnlistedFile?
    ensures |checks| <= 1 && forall check | check in checks ::
              && check.id == EVIDENCE_HASHES_VALID && check.status == Warn
              && check.details == Some(UnlistedFiles(|UnlistedAt(warnings)|))
  {
    NoneUnlisted(warnings);
    var unlisted := CountUnlisted(warnings);
    if unlisted > 0 then [Warned(EVIDENCE_HASHES_VALID, UnlistedFiles(unlisted))] else []
  }

  lemma NoneUnlisted(warnings: seq<ValidationWarning>)
    ensures UnlistedAt(warnings) == {} <==> forall warning | warning in warnings :: !warning.UnlistedFile?
  {
    forall i: nat | i < |warnings| && warnings[i].UnlistedFile?
      ensures i in UnlistedAt(warnings)
    {
    }
  }

  ghost function StructuralVerdicts(
    declared: Network, validation: ValidationReport, requested: Network, anchorBlockPresent: bool,
    continuity: Result<()>): seq<Check>
  {
    [Passed(MANIFEST_SCHEMA_RECOGNIZED),
     EvidenceHashes(validation.failures),
     Condition(NETWORK_MATCHES, declared == requested, NetworkDiffers(declared, requested)),
     Condition(ANCHOR_BLOCK_PRESENT, anchorBlockPresent, Fixed)]
    + ContinuityVerdicts(continuity) + UnlistedVerdicts(validation.warnings)
  }

  method EvaluateStructure(
    declared: Network, validation: ValidationReport, requested: Network, anchorBlockPresent: bool,
    continuity: Result<()>, registry: CheckRegistry)
    modifies registry
    ensures registry.checks == old(registry.checks)
            + StructuralVerdicts(declared, validation, requested, anchorBlockPresent, continuity)
  {
    registry.Record(Passed(MANIFEST_SCHEMA_RECOGNIZED));
    registry.Record(EvidenceHashes(validation.failures));
    registry.RecordCondition(NETWORK_MATCHES, declared == requested, NetworkDiffers(declared, requested));
    registry.RecordCondition(ANCHOR_BLOCK_PRESENT, anchorBlockPresent, Fixed);
    RecordAll(ContinuityVerdicts(continuity), registry);
    RecordAll(UnlistedVerdicts(validation.warnings), registry);
  }

  method RecordAll(checks: seq<Check>, registry: CheckRegistry)
    modifies registry
    ensures registry.checks == old(registry.checks) + checks
  {
    for i := 0 to |checks|
      invariant registry.checks == old(registry.checks) + checks[..i]
    {
      registry.Record(checks[i]);
      assert checks[..i + 1] == checks[..i] + [checks[i]];
    }
    assert checks[..|checks|] == checks;
  }

  // ---- Activation: properties of the NU6.3 boundary ----

  function ActivationContext(network: Network, declared: Option<u32>): (check: Check)
    ensures check.id == ACTIVATION_CONTEXT_VALID
    ensures check.status == Fail <==> declared.Some? && declared.value != network.ActivationHeight()
    ensures check.status == Fail ==>
              check.details == Some(ActivationDiffers(declared.value, network.ActivationHeight()))
    ensures check.status == Fail || check.status == Pass
  {
    var expected := network.ActivationHeight();
    match declared
    case None => Passed(ACTIVATION_CONTEXT_VALID)
    case Some(height) =>
      if height == expected then Passed(ACTIVATION_CONTEXT_VALID)
      else Failed(ACTIVATION_CONTEXT_VALID, ActivationDiffers(height, expected))
  }

  /** The Ironwood pool at the block before activation; `observed` is what the bundle records about
      that block, if it covers it, which may be no balance at all. */
  function IronwoodAnchorZero(network: Network, observed: Option<Option<Zatoshi>>): (check: Check)
    ensures check.id == IRONWOOD_ANCHOR_ZERO
    ensures check.status == Pass <==> observed == Some(Some(0))
    ensures check.status == Fail <==> observed.Some? && observed.value.Some? && observed.value.value != 0
    ensures check.status == Fail ==> check.details == Some(PoolNotEmpty(observed.value.value))
    ensures check.status != Warn
  {
    if observed.None? || observed.value.None? then Inapplicable(IRONWOOD_ANCHOR_ZERO)
    else if observed.value.value == 0 then Passed(IRONWOOD_ANCHOR_ZERO)
    else Failed(IRONWOOD_ANCHOR_ZERO, PoolNotEmpty(observed.value.value))
  }

  ghost predicate IsPreActivation(row: HeightOutcome, network: Network) {
    !network.IsPostActivation(row.height)
  }

  /** No Ironwood movement at a height below activation; the first one is named. */
  function NoIronwoodBeforeActivation(rows: seq<HeightOutcome>, network: Network): (check: Check)
    ensures check.id == NO_IRONWOOD_BEFORE_ACTIVATION
    ensures check.status == NotApplicable <==> forall i | 0 <= i < |rows| :: !IsPreActivation(rows[i], network)
    ensures check.status == Fail <==>
            exists i | 0 <= i < |rows| :: IsPreActivation(rows[i], network) && rows[i].ironwoodDelta != 0
    ensures check.status == Fail ==> exists i | 0 <= i < |rows| ::
              && IsPreActivation(rows[i], network) && rows[i].ironwoodDelta != 0
              && (forall j | 0 <= j < i && IsPreActivation(rows[j], network) :: rows[j].ironwoodDelta == 0)
              && check.details == Some(MovementBeforeActivation(rows[i].ironwoodDelta, rows[i].height))
    ensures check.status != Warn
  {
    if FindIndex(rows, (row: HeightOutcome) => !network.IsPostActivation(row.height)).None? then
      Inapplicable(NO_IRONWOOD_BEFORE_ACTIVATION)
    else
      match FindIndex(rows, (row: HeightOutcome) => !network.IsPostActivation(row.height) && row.ironwoodDelta != 0)
      case None => Passed(NO_IRONWOOD_BEFORE_ACTIVATION)
      case Some(i) =>
        Failed(NO_IRONWOOD_BEFORE_ACTIVATION, MovementBeforeActivation(rows[i].ironwoodDelta, rows[i].height))
  }

  ghost predicate GrowsOrchard(transaction: TransactionPoolDelta) {
    transaction.orchardDelta > 0
  }

  /** No transaction of the block adds to Orchard. */
  ghost predicate OnlyWithdraws(ledger: BlockLedger) {
    forall i | 0 <= i < |ledger.transactions| :: !GrowsOrchard(ledger.transactions[i])
  }

  /** A transaction, named by block and place, is the first from activation on that adds to Orchard. */
  ghost predicate FirstToGrow(ledgers: seq<BlockLedger>, network: Network, t: TransactionPoolDelta) {
    exists i, j | 0 <= i < |ledgers| && 0 <= j < |ledgers[i].transactions| ::
      && t == ledgers[i].transactions[j]
      && network.IsPostActivation(ledgers[i].height) && GrowsOrchard(ledgers[i].transactions[j])
      && (forall k | 0 <= k < i && network.IsPostActivation(ledgers[k].height) :: OnlyWithdraws(ledgers[k]))
      && forall k | 0 <= k < j :: !GrowsOrchard(ledgers[i].transactions[k])
  }

  /** The first transaction, block by block from activation on, that adds to Orchard. */
  function FirstGrowth(ledgers: seq<BlockLedger>, network: Network): (r: Option<TransactionPoolDelta>)
    ensures r.None? <==>
            forall i | 0 <= i < |ledgers| && network.IsPostActivation(ledgers[i].height) :: OnlyWithdraws(ledgers[i])
    ensures r.Some? ==> FirstToGrow(ledgers, network, r.value)
  {
    if ledgers == [] then None
    else
      var here :=
        if network.IsPostActivation(ledgers[0].height)
        then FindIndex(
          ledgers[0].transactions, (t: TransactionPoolDelta) => !(t.orchardDelta < 0) && t.orchardDelta != 0)
        else None;
      match here
      case Some(j) =>
        assert GrowsOrchard(ledgers[0].transactions[j]);
        Some(ledgers[0].transactions[j])
      case None =>
        var rest := FirstGrowth(ledgers[1..], network);
        assert forall i | 0 < i < |ledgers| :: ledgers[i] == ledgers[1..][i - 1];
        assert network.IsPostActivation(ledgers[0].height) ==> OnlyWithdraws(ledgers[0]);
        rest
  }

  /** No new value may enter Orchard at or after activation (ZIP 258), transaction by transaction. */
  function OrchardWithdrawalOnly(
    rows: seq<HeightOutcome>, ledgers: seq<BlockLedger>, network: Network): (check: Check)
    ensures check.id == ORCHARD_WITHDRAWAL_ONLY
    ensures check.status == NotApplicable <==> forall i | 0 <= i < |rows| :: IsPreActivation(rows[i], network)
    ensures check.status == Fail <==>
            && (exists i | 0 <= i < |rows| :: !IsPreActivation(rows[i], network))
            && exists i | 0 <= i < |ledgers| ::
                 network.IsPostActivation(ledgers[i].height) && !OnlyWithdraws(ledgers[i])
    ensures check.status == Fail ==> exists t ::
              && FirstToGrow(ledgers, network, t)
              && check.details == Some(OrchardGrows(t.txid, t.txIndex, t.blockHeight, t.orchardDelta))
    ensures check.status != Warn
  {
    if FindIndex(rows, (row: HeightOutcome) => network.IsPostActivation(row.height)).None? then
      Inapplicable(ORCHARD_WITHDRAWAL_ONLY)
    else
      match FirstGrowth(ledgers, network)
      case None => Passed(ORCHARD_WITHDRAWAL_ONLY)
      case Some(t) => Failed(ORCHARD_WITHDRAWAL_ONLY, OrchardGrows(t.txid, t.txIndex, t.blockHeight, t.orchardDelta))
  }

  ghost function ActivationVerdicts(
    rows: seq<HeightOutcome>, ledgers: seq<BlockLedger>, network: Network, declared: Option<u32>,
    observed: Option<Option<Zatoshi>>): seq<Check>
  {
    [ActivationContext(network, declared),
     IronwoodAnchorZero(network, observed),
     NoIronwoodBeforeActivation(rows, network),
     OrchardWithdrawalOnly(rows, ledgers, network),
     Passed(CONSENSUS_BRANCH_ID_VALID),
     Passed(TRANSACTION_VERSIONS_RECOGNIZED)]
  }

  method EvaluateActivation(
    outcome: IntervalOutcome, ledgers: seq<BlockLedger>, network: Network, declared: Option<u32>,
    observed: Option<Option<Zatoshi>>, registry: CheckRegistry)
    modifies registry
    ensures registry.checks ==
            old(registry.checks) + ActivationVerdicts(outcome.heights, ledgers, network, declared, observed)
  {
    registry.Record(ActivationContext(network, declared));
    registry.Record(IronwoodAnchorZero(network, observed));
    registry.Record(NoIronwoodBeforeActivation(outcome.heights, network));
    registry.Record(OrchardWithdrawalOnly(outcome.heights, ledgers, network));
    registry.Record(Passed(CONSENSUS_BRANCH_ID_VALID));
    registry.Record(Passed(TRANSACTION_VERSIONS_RECOGNIZED));
  }

  // ---- Accounting: the reconstruction itself ----

  ghost predicate NonNegative(row: HeightOutcome) {
    row.expectedOrchard >= 0 && row.expectedIronwood >= 0
  }

  function FirstNegativePool(row: HeightOutcome): (r: Option<Pool>)
    ensures r.None? <==> NonNegative(row)
    ensures r.Some? ==> IsReconstructed(r.value) && row.ExpectedBalance(r.value).value < 0
    ensures r == Some(Ironwood) ==> row.expectedOrchard >= 0
  {
    match FindIndex(
      RECONSTRUCTED, (pool: Pool) => row.ExpectedBalance(pool).Some? && row.ExpectedBalance(pool).value < 0)
    case None =>
      assert RECONSTRUCTED[0] == Orchard && RECONSTRUCTED[1] == Ironwood;
      None
    case Some(i) =>
      assert RECONSTRUCTED[0] == Orchard && RECONSTRUCTED[1] == Ironwood;
      Some(RECONSTRUCTED[i])
  }

  /** Fails exactly on a negative expected balance (ZIP 209), naming the first. */
  function NoNegativeBalance(rows: seq<HeightOutcome>): (check: Check)
    ensures check.id == NO_NEGATIVE_POOL_BALANCE
    ensures check.status == Fail <==> exists i | 0 <= i < |rows| :: !NonNegative(rows[i])
    ensures check.status == Fail ==> exists i | 0 <= i < |rows| ::
              && !NonNegative(rows[i])
              && (forall j | 0 <= j < i :: NonNegative(rows[j]))
              && check.details == Some(
                   if rows[i].expectedOrchard < 0 then NegativeBalance(Orchard, rows[i].height, rows[i].expectedOrchard)
                   else NegativeBalance(Ironwood, rows[i].height, rows[i].expectedIronwood))
    ensures check.status == Pass || check.status == Fail
  {
    match FindIndex(rows, (row: HeightOutcome) => FirstNegativePool(row).Some?)
    case None => Passed(NO_NEGATIVE_POOL_BALANCE)
    case Some(i) =>
      var pool := FirstNegativePool(rows[i]).value;
      assert forall j | 0 <= j < i :: FirstNegativePool(rows[j]).None?;
      Failed(NO_NEGATIVE_POOL_BALANCE, NegativeBalance(pool, rows[i].height, rows[i].ExpectedBalance(pool).value))
  }

  datatype Axis = OnBalance | OnDelta {
    function Agreement(row: HeightOutcome, pool: Pool): Agreement {
      match this
      case OnBalance => row.BalanceAgreement(pool)
      case OnDelta => row.DeltaAgreement(pool)
    }
  }

  /** Where a height disagrees on an axis: Orchard first, then Ironwood. */
  ghost function DivergencesAt(row: HeightOutcome, axis: Axis): seq<(u32, Pool)> {
    (if axis.Agreement(row, Orchard).Differs? then [(row.height, Orchard)] else [])
    + if axis.Agreement(row, Ironwood).Differs? then [(row.height, Ironwood)] else []
  }

  /** Every disagreement on an axis, by height, within a height by pool. */
  ghost function Divergent(rows: seq<HeightOutcome>, axis: Axis): seq<(u32, Pool)> {
    if rows == [] then []
    else Divergent(rows[..|rows| - 1], axis) + DivergencesAt(rows[|rows| - 1], axis)
  }

  ghost predicate AgreesOn(row: HeightOutcome, axis: Axis) {
    !axis.Agreement(row, Orchard).Differs? && !axis.Agreement(row, Ironwood).Differs?
  }

  /** The first height that disagrees, and the first pool it disagrees in. */
  ghost predicate FirstDivergence(rows: seq<HeightOutcome>, axis: Axis, at: (u32, Pool)) {
    exists i | 0 <= i < |rows| ::
      && !AgreesOn(rows[i], axis) && (forall j | 0 <= j < i :: AgreesOn(rows[j], axis))
      && at == DivergencesAt(rows[i], axis)[0]
  }

  lemma FirstDivergenceStays(rows: seq<HeightOutcome>, axis: Axis, at: (u32, Pool))
    requires rows != [] && FirstDivergence(rows[..|rows| - 1], axis, at)
    ensures FirstDivergence(rows, axis, at)
  {
    var init := rows[..|rows| - 1];
    assert forall i | 0 <= i < |init| :: init[i] == rows[i];
    hide AgreesOn, DivergencesAt;
    var i :| 0 <= i < |init| && !AgreesOn(init[i], axis) && (forall j | 0 <= j < i :: AgreesOn(init[j], axis))
             && at == DivergencesAt(init[i], axis)[0];
    assert !AgreesOn(rows[i], axis);
  }

  /** There are none exactly when no height disagrees, and the first is at the first height that does. */
  lemma {:induction false} DivergentExact(rows: seq<HeightOutcome>, axis: Axis)
    ensures Divergent(rows, axis) == [] <==> forall i | 0 <= i < |rows| :: AgreesOn(rows[i], axis)
    ensures Divergent(rows, axis) != [] ==> FirstDivergence(rows, axis, Divergent(rows, axis)[0])
  {
    if rows != [] {
      var init, last := rows[..|rows| - 1], rows[|rows| - 1];
      assert DivergencesAt(last, axis) == [] <==> AgreesOn(last, axis);
      hide AgreesOn, DivergencesAt, FirstDivergence;
      DivergentExact(init, axis);
      assert forall i | 0 <= i < |init| :: init[i] == rows[i];
      if Divergent(init, axis) != [] {
        FirstDivergenceStays(rows, axis, Divergent(init, axis)[0]);
      } else if !AgreesOn(last, axis) {
        LastIsFirstDivergence(rows, axis);
      }
    }
  }

  ghost function DifferingAt(rows: seq<HeightOutcome>, axis: Axis, pool: Pool): set<nat> {
    set i: nat | i < |rows| && axis.Agreement(rows[i], pool).Differs?
  }

  ghost predicate DiffersSomewhere(rows: seq<HeightOutcome>, axis: Axis, at: (u32, Pool)) {
    exists i | 0 <= i < |rows| :: rows[i].height == at.0 && axis.Agreement(rows[i], at.1).Differs?
  }

  /** As many disagreements are listed as there are heights and pools that disagree. */
  lemma {:induction false} DivergentCounts(rows: seq<HeightOutcome>, axis: Axis)
    ensures |Divergent(rows, axis)| == |DifferingAt(rows, axis, Orchard)| + |DifferingAt(rows, axis, Ironwood)|
  {
    if rows != [] {
      hide Axis.Agreement;
      var init, last := rows[..|rows| - 1], rows[|rows| - 1];
      DivergentCounts(init, axis);
      DifferingStep(rows, axis, Orchard);
      DifferingStep(rows, axis, Ironwood);
    }
  }

  lemma DifferingStep(rows: seq<HeightOutcome>, axis: Axis, pool: Pool)
    requires rows != []
    ensures |DifferingAt(rows, axis, pool)| ==
            |DifferingAt(rows[..|rows| - 1], axis, pool)|
            + if axis.Agreement(rows[|rows| - 1], pool).Differs? then 1 else 0
  {
    hide Axis.Agreement;
    var n := |rows| - 1;
    var before, now := DifferingAt(rows[..n], axis, pool), DifferingAt(rows, axis, pool);
    forall i: nat
      ensures i in now <==> i in before || (i == n && axis.Agreement(rows[n], pool).Differs?)
    {
      assert i < n ==> rows[..n][i] == rows[i];
    }
    hide DifferingAt;
    if axis.Agreement(rows[n], pool).Differs? {
      assert now == before + {n};
    } else {
      assert now == before;
    }
  }

  lemma DivergencesAtExact(row: HeightOutcome, axis: Axis, at: (u32, Pool))
    ensures at in DivergencesAt(row, axis) <==>
            IsReconstructed(at.1) && row.height == at.0 && axis.Agreement(row, at.1).Differs?
  {
    hide Axis.Agreement;
  }

  lemma DiffersStep(rows: seq<HeightOutcome>, axis: Axis, at: (u32, Pool))
    requires rows != []
    ensures DiffersSomewhere(rows, axis, at) <==>
            || DiffersSomewhere(rows[..|rows| - 1], axis, at)
            || (rows[|rows| - 1].height == at.0 && axis.Agreement(rows[|rows| - 1], at.1).Differs?)
  {
    hide Axis.Agreement;
    var init := rows[..|rows| - 1];
    assert forall i | 0 <= i < |init| :: init[i] == rows[i];
    if DiffersSomewhere(init, axis, at) {
      var i :| 0 <= i < |init| && init[i].height == at.0 && axis.Agreement(init[i], at.1).Differs?;
      assert rows[i].height == at.0;
    }
  }

  /** Exactly the heights and pools that disagree are listed. */
  lemma {:induction false} DivergentMembers(rows: seq<HeightOutcome>, axis: Axis, at: (u32, Pool))
    ensures at in Divergent(rows, axis) <==> IsReconstructed(at.1) && DiffersSomewhere(rows, axis, at)
  {
    if rows != [] {
      hide DivergencesAt, DiffersSomewhere, Axis.Agreement;
      DivergentMembers(rows[..|rows| - 1], axis, at);
      DivergencesAtExact(rows[|rows| - 1], axis, at);
      DiffersStep(rows, axis, at);
    }
  }

  lemma LastIsFirstDivergence(rows: seq<HeightOutcome>, axis: Axis)
    requires rows != [] && !AgreesOn(rows[|rows| - 1], axis)
    requires forall i | 0 <= i < |rows| - 1 :: AgreesOn(rows[i], axis)
    ensures FirstDivergence(rows, axis, DivergencesAt(rows[|rows| - 1], axis)[0])
  {
  }

  /** A pass without divergences; otherwise their number and the first. */
  function DivergenceVerdict(id: string, divergences: seq<(u32, Pool)>): (check: Check)
    ensures check.id == id && check.status in {Pass, Fail}
    ensures check.status == Fail <==> divergences != []
    ensures check.status == Fail ==>
              && check.details.Some? && check.details.value.Divergences?
              && check.details.value.count == |divergences|
              && (check.details.value.at, check.details.value.pool) == divergences[0]
  {
    if divergences == [] then Passed(id)
    else Failed(id, Divergences(|divergences|, divergences[0].0, divergences[0].1))
  }

  /** Both per-height comparison axes, against what the node reported. */
  method CheckPerHeightAgreement(outcome: IntervalOutcome, registry: CheckRegistry)
    modifies registry
    ensures registry.checks == old(registry.checks)
            + [DivergenceVerdict(PER_HEIGHT_BALANCES_MATCH, Divergent(outcome.heights, OnBalance)),
               DivergenceVerdict(PER_HEIGHT_DELTAS_MATCH, Divergent(outcome.heights, OnDelta))]
  {
    var rows := outcome.heights;
    var balanceFailures: seq<(u32, Pool)>, deltaFailures: seq<(u32, Pool)> := [], [];
    for i := 0 to |rows|
      invariant balanceFailures == Divergent(rows[..i], OnBalance)
      invariant deltaFailures == Divergent(rows[..i], OnDelta)
      invariant registry.checks == old(registry.checks)
    {
      assert rows[..i + 1][..i] == rows[..i];
      for p := 0 to |RECONSTRUCTED|
        invariant balanceFailures == Divergent(rows[..i], OnBalance) + AtPools(rows[i], OnBalance, p)
        invariant deltaFailures == Divergent(rows[..i], OnDelta) + AtPools(rows[i], OnDelta, p)
      {
        var pool := RECONSTRUCTED[p];
        if rows[i].BalanceAgreement(pool).Differs? {
          balanceFailures := balanceFailures + [(rows[i].height, pool)];
        }
        if rows[i].DeltaAgreement(pool).Differs? {
          deltaFailures := deltaFailures + [(rows[i].height, pool)];
        }
      }
    }
    assert rows[..|rows|] == rows;
    registry.Record(DivergenceVerdict(PER_HEIGHT_BALANCES_MATCH, balanceFailures));
    registry.Record(DivergenceVerdict(PER_HEIGHT_DELTAS_MATCH, deltaFailures));
  }

  ghost function AtPools(row: HeightOutcome, axis: Axis, pools: nat): seq<(u32, Pool)> {
    if pools == 0 then []
    else if pools == 1 then (if axis.Agreement(row, Orchard).Differs? then [(row.height, Orchard)] else [])
    else DivergencesAt(row, axis)
  }

  function EndBalance(id: string, pool: Pool, expected: Zatoshi, reported: Option<Zatoshi>): (check: Check)
    ensures check.id == id
    ensures check.status == Fail <==> reported != Some(expected)
    ensures check.status == Fail ==>
              check.details == Some(if reported.Some? then EndDiffers(pool, expected, reported.value)
                                    else EndNotReported(pool))
    ensures check.status == Pass || check.status == Fail
  {
    match reported
    case Some(value) => if value == expected then Passed(id) else Failed(id, EndDiffers(pool, expected, value))
    case None => Failed(id, EndNotReported(pool))
  }

  function EndsCorroborated(reportedOrchard: Option<Zatoshi>, reportedIronwood: Option<Zatoshi>): (check: Check)
    ensures check.id == END_BALANCES_CORROBORATED
    ensures check.status == Fail <==> reportedOrchard.None? || reportedIronwood.None?
    ensures check.status == Fail ==>
              && check.details.Some? && check.details.value.EndsAbsent?
              && forall pool :: pool in check.details.value.pools <==>
                   (pool == Orchard && reportedOrchard.None?) || (pool == Ironwood && reportedIronwood.None?)
    ensures check.status == Pass || check.status == Fail
  {
    var absent := (if reportedOrchard.None? then [Orchard] else []) + if reportedIronwood.None? then [Ironwood] else [];
    if absent == [] then Passed(END_BALANCES_CORROBORATED) else Failed(END_BALANCES_CORROBORATED, EndsAbsent(absent))
  }

  ghost function AccountingVerdicts(
    outcome: IntervalOutcome, reportedOrchard: Option<Zatoshi>, reportedIronwood: Option<Zatoshi>): seq<Check>
  {
    [Passed(ORCHARD_DELTAS_RECONSTRUCTED),
     Passed(IRONWOOD_DELTAS_RECONSTRUCTED),
     Passed(NO_ARITHMETIC_OVERFLOW),
     NoNegativeBalance(outcome.heights),
     DivergenceVerdict(PER_HEIGHT_BALANCES_MATCH, Divergent(outcome.heights, OnBalance)),
     DivergenceVerdict(PER_HEIGHT_DELTAS_MATCH, Divergent(outcome.heights, OnDelta)),
     EndBalance(ORCHARD_END_BALANCE_MATCHES, Orchard, outcome.expectedEndOrchard, reportedOrchard),
     EndBalance(IRONWOOD_END_BALANCE_MATCHES, Ironwood, outcome.expectedEndIronwood, reportedIronwood),
     EndsCorroborated(reportedOrchard, reportedIronwood)]
  }

  method EvaluateAccounting(
    outcome: IntervalOutcome, reportedOrchard: Option<Zatoshi>, reportedIronwood: Option<Zatoshi>,
    registry: CheckRegistry)
    modifies registry
    ensures registry.checks == old(registry.checks) + AccountingVerdicts(outcome, reportedOrchard, reportedIronwood)
  {
    registry.Record(Passed(ORCHARD_DELTAS_RECONSTRUCTED));
    registry.Record(Passed(IRONWOOD_DELTAS_RECONSTRUCTED));
    registry.Record(Passed(NO_ARITHMETIC_OVERFLOW));
    registry.Record(NoNegativeBalance(outcome.heights));
    CheckPerHeightAgreement(outcome, registry);
    registry.Record(EndBalance(ORCHARD_END_BALANCE_MATCHES, Orchard, outcome.expectedEndOrchard, reportedOrchard));
    registry.Record(EndBalance(IRONWOOD_END_BALANCE_MATCHES, Ironwood, outcome.expectedEndIronwood, reportedIronwood));
    registry.Record(EndsCorroborated(reportedOrchard, reportedIronwood));
  }
}
