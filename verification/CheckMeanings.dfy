/** What each check of a report says about the bundle, check by check. */
module CheckMeanings {
  import opened Wrappers
  import opened Money
  import opened Ledger
  import opened Interval
  import opened Continuity
  import opened Checks
  import opened Layout
  import opened Validation
  import opened Verdicts
  import opened Reporting
  import opened Reconcile
  import opened Soundness

  /** A check of this name is among them, and fails exactly when `fails` holds. */
  ghost predicate Reads(checks: seq<Check>, id: string, fails: bool) {
    exists check | check in checks :: check.id == id && (check.status == Fail <==> fails)
  }

  lemma ReadsConcat(a: seq<Check>, b: seq<Check>)
    ensures forall id, fails | Reads(a, id, fails) || Reads(b, id, fails) :: Reads(a + b, id, fails)
  {
    forall id, fails | Reads(a, id, fails) || Reads(b, id, fails)
      ensures Reads(a + b, id, fails)
    {
      if Reads(a, id, fails) {
        var check :| check in a && check.id == id && (check.status == Fail <==> fails);
        assert check in a + b;
      } else {
        var check :| check in b && check.id == id && (check.status == Fail <==> fails);
        assert check in a + b;
      }
    }
  }

  lemma ReadsAt(checks: seq<Check>, i: nat, check: Check)
    requires i < |checks| && checks[i] == check
    ensures Reads(checks, check.id, check.status == Fail)
  {
    assert check in checks;
  }

  lemma SortedReads(checks: seq<Check>)
    ensures forall id, fails :: Reads(Canonical(checks), id, fails) <==> Reads(checks, id, fails)
  {
    hide Canonical;
    CanonicalKeepsVerdict(checks);
    forall check
      ensures check in Canonical(checks) <==> check in checks
    {
      assert check in multiset(Canonical(checks)) <==> check in multiset(checks);
    }
  }

  // ---- Group by group ----

  lemma StructureReads(network: Network, validation: ValidationReport, present: bool, continuity: Result<()>)
    ensures var checks := StructuralVerdicts(network, validation, network, present, continuity);
            && Reads(checks, MANIFEST_SCHEMA_RECOGNIZED, false)
            && Reads(checks, EVIDENCE_HASHES_VALID, validation.failures != [])
            && Reads(checks, NETWORK_MATCHES, false)
            && Reads(checks, ANCHOR_BLOCK_PRESENT, !present)
            && Reads(checks, BLOCK_SEQUENCE_COMPLETE, continuity.Err? && continuity.error.MissingBlock?)
            && Reads(checks, PREVIOUS_BLOCK_LINKS_VALID, continuity.Err? && !continuity.error.MissingBlock?)
  {
    hide Reads, EvidenceHashes, Condition, ContinuityVerdicts, UnlistedVerdicts;
    var hashes := EvidenceHashes(validation.failures);
    var matches := Condition(NETWORK_MATCHES, true, NetworkDiffers(network, network));
    var anchored := Condition(ANCHOR_BLOCK_PRESENT, present, Fixed);
    var first := [Passed(MANIFEST_SCHEMA_RECOGNIZED), hashes, matches, anchored];
    var second, third := ContinuityVerdicts(continuity), UnlistedVerdicts(validation.warnings);
    assert StructuralVerdicts(network, validation, network, present, continuity) == first + second + third;
    ReadsAt(first, 0, Passed(MANIFEST_SCHEMA_RECOGNIZED));
    ReadsAt(first, 1, hashes);
    ReadsAt(first, 2, matches);
    ReadsAt(first, 3, anchored);
    ReadsAt(second, 0, second[0]);
    ReadsAt(second, 1, second[1]);
    ReadsConcat(first, second);
    ReadsConcat(first + second, third);
  }

  lemma ActivationReads(
    rows: seq<HeightOutcome>, ledgers: seq<BlockLedger>, network: Network, declared: u32,
    observed: Option<Option<Zatoshi>>)
    ensures var checks := ActivationVerdicts(rows, ledgers, network, Some(declared), observed);
            && Reads(checks, ACTIVATION_CONTEXT_VALID, declared != network.ActivationHeight())
            && Reads(checks, IRONWOOD_ANCHOR_ZERO, observed.Some? && !IfReported(observed.value, 0))
            && Reads(checks, NO_IRONWOOD_BEFORE_ACTIVATION,
                     exists i | 0 <= i < |rows| :: IsPreActivation(rows[i], network) && rows[i].ironwoodDelta != 0)
            && Reads(checks, ORCHARD_WITHDRAWAL_ONLY,
                     && (exists i | 0 <= i < |rows| :: !IsPreActivation(rows[i], network))
                     && exists i | 0 <= i < |ledgers| ::
                          network.IsPostActivation(ledgers[i].height) && !OnlyWithdraws(ledgers[i]))
            && Reads(checks, CONSENSUS_BRANCH_ID_VALID, false)
            && Reads(checks, TRANSACTION_VERSIONS_RECOGNIZED, false)
  {
    hide Reads, ActivationContext, IronwoodAnchorZero, NoIronwoodBeforeActivation, OrchardWithdrawalOnly;
    var checks := ActivationVerdicts(rows, ledgers, network, Some(declared), observed);
    ReadsAt(checks, 0, ActivationContext(network, Some(declared)));
    ReadsAt(checks, 1, IronwoodAnchorZero(network, observed));
    ReadsAt(checks, 2, NoIronwoodBeforeActivation(rows, network));
    ReadsAt(checks, 3, OrchardWithdrawalOnly(rows, ledgers, network));
    ReadsAt(checks, 4, Passed(CONSENSUS_BRANCH_ID_VALID));
    ReadsAt(checks, 5, Passed(TRANSACTION_VERSIONS_RECOGNIZED));
  }

  lemma AccountingReads(outcome: IntervalOutcome, endOrchard: Option<Zatoshi>, endIronwood: Option<Zatoshi>)
    ensures var checks := AccountingVerdicts(outcome, endOrchard, endIronwood);
            && Reads(checks, ORCHARD_DELTAS_RECONSTRUCTED, false)
            && Reads(checks, IRONWOOD_DELTAS_RECONSTRUCTED, false)
            && Reads(checks, NO_ARITHMETIC_OVERFLOW, false)
            && Reads(checks, NO_NEGATIVE_POOL_BALANCE,
                     exists i | 0 <= i < |outcome.heights| :: !NonNegative(outcome.heights[i]))
            && Reads(checks, PER_HEIGHT_BALANCES_MATCH,
                     exists i | 0 <= i < |outcome.heights| :: !AgreesOn(outcome.heights[i], OnBalance))
            && Reads(checks, PER_HEIGHT_DELTAS_MATCH,
                     exists i | 0 <= i < |outcome.heights| :: !AgreesOn(outcome.heights[i], OnDelta))
            && Reads(checks, ORCHARD_END_BALANCE_MATCHES, endOrchard != Some(outcome.expectedEndOrchard))
            && Reads(checks, IRONWOOD_END_BALANCE_MATCHES, endIronwood != Some(outcome.expectedEndIronwood))
            && Reads(checks, END_BALANCES_CORROBORATED, endOrchard.None? || endIronwood.None?)
  {
    hide Reads, NoNegativeBalance, DivergenceVerdict, EndBalance, EndsCorroborated, Divergent, AgreesOn, NonNegative;
    hide ORCHARD_DELTAS_RECONSTRUCTED, IRONWOOD_DELTAS_RECONSTRUCTED, NO_ARITHMETIC_OVERFLOW, NO_NEGATIVE_POOL_BALANCE;
    hide PER_HEIGHT_BALANCES_MATCH, PER_HEIGHT_DELTAS_MATCH, ORCHARD_END_BALANCE_MATCHES, IRONWOOD_END_BALANCE_MATCHES;
    hide END_BALANCES_CORROBORATED;
    var rows := outcome.heights;
    var checks := AccountingVerdicts(outcome, endOrchard, endIronwood);
    DivergentExact(rows, OnBalance);
    DivergentExact(rows, OnDelta);
    ReadsAt(checks, 0, Passed(ORCHARD_DELTAS_RECONSTRUCTED));
    ReadsAt(checks, 1, Passed(IRONWOOD_DELTAS_RECONSTRUCTED));
    ReadsAt(checks, 2, Passed(NO_ARITHMETIC_OVERFLOW));
    ReadsAt(checks, 3, NoNegativeBalance(rows));
    ReadsAt(checks, 4, DivergenceVerdict(PER_HEIGHT_BALANCES_MATCH, Divergent(rows, OnBalance)));
    ReadsAt(checks, 5, DivergenceVerdict(PER_HEIGHT_DELTAS_MATCH, Divergent(rows, OnDelta)));
    ReadsAt(checks, 6, EndBalance(ORCHARD_END_BALANCE_MATCHES, Orchard, outcome.expectedEndOrchard, endOrchard));
    ReadsAt(checks, 7, EndBalance(IRONWOOD_END_BALANCE_MATCHES, Ironwood, outcome.expectedEndIronwood, endIronwood));
    ReadsAt(checks, 8, EndsCorroborated(endOrchard, endIronwood));
  }

  // ---- In terms of blocks ----

  /** Some height below activation at which Ironwood moves. */
  ghost predicate IronwoodMovesEarly(bundle: Bundle)
    requires EvidenceUsable(bundle)
  {
    exists i | 0 <= i < |Chain(bundle)| :: MovesEarly(bundle, i)
  }

  ghost predicate MovesEarly(bundle: Bundle, i: nat)
    requires EvidenceUsable(bundle) && i < |Chain(bundle)|
  {
    ChainFits(bundle);
    !bundle.Network().IsPostActivation(bundle.Start() + i) && Chain(bundle)[i].Movement(Ironwood) != 0
  }

  /** Some transaction from activation on that adds to Orchard. */
  ghost predicate OrchardGrowsLate(bundle: Bundle)
    requires EvidenceUsable(bundle)
  {
    exists i | 0 <= i < |Chain(bundle)| :: GrowsLate(bundle, i)
  }

  ghost predicate GrowsLate(bundle: Bundle, i: nat)
    requires EvidenceUsable(bundle) && i < |Chain(bundle)|
  {
    ChainFits(bundle);
    bundle.Network().IsPostActivation(bundle.Start() + i) && !OnlyWithdrawsOrchard(Chain(bundle)[i])
  }

  /** A balance below zero after block `i`. */
  ghost predicate GoesNegative(bundle: Bundle, i: nat)
    requires EvidenceUsable(bundle) && i < |Chain(bundle)|
  {
    HeldAfter(bundle, Orchard, i + 1) < 0 || HeldAfter(bundle, Ironwood, i + 1) < 0
  }

  /** The node states another balance after block `i` than the blocks lead to. */
  ghost predicate BalanceDiffers(bundle: Bundle, i: nat)
    requires EvidenceUsable(bundle) && i < |Chain(bundle)|
  {
    ChainAt(bundle, bundle.Start() + i);
    var state := StateAt(bundle, bundle.Start() + i);
    || !IfReported(state.Balance(Orchard), HeldAfter(bundle, Orchard, i + 1))
    || !IfReported(state.Balance(Ironwood), HeldAfter(bundle, Ironwood, i + 1))
  }

  /** The node states another movement for block `i` than its transactions add up to. */
  ghost predicate DeltaDiffers(bundle: Bundle, i: nat)
    requires EvidenceUsable(bundle) && i < |Chain(bundle)|
  {
    ChainAt(bundle, bundle.Start() + i);
    var state := StateAt(bundle, bundle.Start() + i);
    || !IfReported(state.Delta(Orchard), Chain(bundle)[i].Movement(Orchard))
    || !IfReported(state.Delta(Ironwood), Chain(bundle)[i].Movement(Ironwood))
  }

  lemma RowMeanings(bundle: Bundle, reading: Reading, outcome: IntervalOutcome, i: nat)
    requires EvidenceUsable(bundle) && Concluded(bundle, reading, outcome) && i < |Chain(bundle)|
    ensures i < |outcome.heights| && i < |reading.ledgers|
    ensures NonNegative(outcome.heights[i]) <==> !GoesNegative(bundle, i)
    ensures AgreesOn(outcome.heights[i], OnBalance) <==> !BalanceDiffers(bundle, i)
    ensures AgreesOn(outcome.heights[i], OnDelta) <==> !DeltaDiffers(bundle, i)
    ensures IsPreActivation(outcome.heights[i], bundle.Network()) && outcome.heights[i].ironwoodDelta != 0 <==>
            MovesEarly(bundle, i)
    ensures bundle.Network().IsPostActivation(reading.ledgers[i].height) && !OnlyWithdraws(reading.ledgers[i]) <==>
            GrowsLate(bundle, i)
    ensures bundle.Network().IsPostActivation(reading.ledgers[i].height) ==>
              !IsPreActivation(outcome.heights[i], bundle.Network())
  {
    hide EvidenceUsable, Gathers, Concluded, Chain, HeldAfter, StateAt, OnlyWithdraws, OnlyWithdrawsOrchard;
    hide HeightUsable, Network.IsPostActivation;
    ConcludedShape(bundle, reading, outcome);
    ChainFits(bundle);
    ChainAt(bundle, bundle.Start() + i);
    RowStates(bundle, reading, outcome, i);
    RowMeetsBoundary(bundle, reading, outcome, i);
  }

  lemma ChecksAreSorted(bundle: Bundle, r: Reconciliation, reading: Reading)
    requires EvidenceUsable(bundle) && Reconciles(bundle, r, reading)
    ensures ReadPoolState(bundle, AnchorPools).Ok?
    ensures r.report.checks == Canonical(AllVerdicts(bundle, reading, r.outcome))
  {
    EvidenceParts(bundle);
    hide EvidenceUsable, Gathers, AllVerdicts, Canonical, OutcomeOf, Reconcilable, ReadPoolState, AnchorOf, ContextOf;
  }

  ghost function EndsOf(bundle: Bundle, reading: Reading): (Option<Zatoshi>, Option<Zatoshi>) {
    (ReportedBalance(reading.reported, bundle.End(), Orchard),
     ReportedBalance(reading.reported, bundle.End(), Ironwood))
  }

  /** What reads in one group reads in the whole. */
  lemma GroupsRead(bundle: Bundle, reading: Reading, outcome: IntervalOutcome)
    requires ReadPoolState(bundle, AnchorPools).Ok?
    ensures var network, ends, all := bundle.Network(), EndsOf(bundle, reading), AllVerdicts(bundle, reading, outcome);
            forall id, fails |
              || Reads(StructuralVerdicts(
                         network, reading.validation, network, HasAnchorBlock(bundle), reading.continuity), id, fails)
              || Reads([ManifestAgreement(bundle.data.header, outcome.anchor, ends.0, ends.1)], id, fails)
              || Reads(ActivationVerdicts(
                         outcome.heights, reading.ledgers, network, Some(bundle.data.header.activationHeight),
                         ObservedIn(bundle, reading)), id, fails)
              || Reads(AccountingVerdicts(outcome, ends.0, ends.1), id, fails)
              || Reads([Passed(CANONICAL_REPORT_GENERATED)], id, fails) ::
              Reads(all, id, fails)
  {
    hide ActivationVerdicts, AccountingVerdicts, StructuralVerdicts, ManifestAgreement, PreActivationIronwood;
    hide ReportedBalance, HasAnchorBlock, ReadPoolState, Reads, AnchorState, Passed;
    var network, header, ends := bundle.Network(), bundle.data.header, EndsOf(bundle, reading);
    var a := StructuralVerdicts(network, reading.validation, network, HasAnchorBlock(bundle), reading.continuity);
    var b := [ManifestAgreement(header, outcome.anchor, ends.0, ends.1)];
    var c := ActivationVerdicts(
      outcome.heights, reading.ledgers, network, Some(header.activationHeight), ObservedIn(bundle, reading));
    var d := AccountingVerdicts(outcome, ends.0, ends.1);
    var e := [Passed(CANONICAL_REPORT_GENERATED)];
    assert AllVerdicts(bundle, reading, outcome) == a + b + c + d + e;
    hide AllVerdicts;
    ReadsConcat(a, b);
    ReadsConcat(a + b, c);
    ReadsConcat(a + b + c, d);
    ReadsConcat(a + b + c + d, e);
  }

  lemma StructuralMeanings(bundle: Bundle, reading: Reading, outcome: IntervalOutcome)
    requires EvidenceUsable(bundle) && Concluded(bundle, reading, outcome)
    ensures ReadPoolState(bundle, AnchorPools).Ok?
    ensures var checks := AllVerdicts(bundle, reading, outcome);
            && Reads(checks, MANIFEST_SCHEMA_RECOGNIZED, false) && Reads(checks, EVIDENCE_HASHES_VALID, false)
            && Reads(checks, NETWORK_MATCHES, false)
            && Reads(checks, ANCHOR_BLOCK_PRESENT, !HasAnchorBlock(bundle))
            && Reads(checks, BLOCK_SEQUENCE_COMPLETE, false)
            && Reads(checks, PREVIOUS_BLOCK_LINKS_VALID, !ChainHolds(bundle))
            && Reads(checks, MANIFEST_MATCHES_EVIDENCE, !SummaryHolds(bundle))
            && Reads(checks, CANONICAL_REPORT_GENERATED, false)
  {
    EvidenceParts(bundle);
    LinkedExact(bundle, reading);
    SummaryExact(bundle, reading);
    ConcludedShape(bundle, reading, outcome);
    NeverMissing(bundle, reading);
    hide EvidenceUsable, Gathers, Concluded, Chain, AnchorOf, HeldAfter, AllVerdicts, ChainHolds, SummaryHolds;
    hide StructuralVerdicts, ActivationVerdicts, AccountingVerdicts, ManifestAgreement, Reads, ReadPoolState;
    hide ReportedBalance, HasAnchorBlock, Passed;
    GroupsRead(bundle, reading, outcome);
    StructureReads(bundle.Network(), reading.validation, HasAnchorBlock(bundle), reading.continuity);
    var ends := EndsOf(bundle, reading);
    var agreement := ManifestAgreement(bundle.data.header, outcome.anchor, ends.0, ends.1);
    ReadsAt([agreement], 0, agreement);
    var generated := Passed(CANONICAL_REPORT_GENERATED);
    ReadsAt([generated], 0, generated);
    assert generated.id == CANONICAL_REPORT_GENERATED && generated.status != Fail by {
      PassedPasses(CANONICAL_REPORT_GENERATED);
    }
  }

  lemma PassedPasses(id: string)
    ensures Passed(id).id == id && Passed(id).status == Pass
  {
  }

  lemma NeverMissing(bundle: Bundle, reading: Reading)
    requires EvidenceUsable(bundle) && Gathers(bundle, reading)
    ensures reading.validation.failures == []
    ensures reading.continuity.Err? ==> !reading.continuity.error.MissingBlock?
  {
    hide EvidenceUsable, Chain, LedgersFor, ReportsAre, WarnsOfUnlisted, AnchorHash, Linked;
  }

  lemma EarlyMeaning(bundle: Bundle, reading: Reading, outcome: IntervalOutcome)
    requires EvidenceUsable(bundle) && Concluded(bundle, reading, outcome)
    ensures var rows, network := outcome.heights, bundle.Network();
            (exists i | 0 <= i < |rows| :: IsPreActivation(rows[i], network) && rows[i].ironwoodDelta != 0) <==>
            IronwoodMovesEarly(bundle)
  {
    ConcludedShape(bundle, reading, outcome);
    hide EvidenceUsable, Gathers, Concluded, Chain, AnchorOf, HeldAfter, OnlyWithdraws, IsPreActivation, MovesEarly;
    hide GrowsLate, Network.IsPostActivation, NonNegative, AgreesOn, GoesNegative, BalanceDiffers, DeltaDiffers;
    forall i | 0 <= i < |Chain(bundle)|
      ensures IsPreActivation(outcome.heights[i], bundle.Network()) && outcome.heights[i].ironwoodDelta != 0 <==>
              MovesEarly(bundle, i)
    {
      RowMeanings(bundle, reading, outcome, i);
    }
  }

  lemma LateMeaning(bundle: Bundle, reading: Reading, outcome: IntervalOutcome)
    requires EvidenceUsable(bundle) && Concluded(bundle, reading, outcome)
    ensures var rows, ledgers, network := outcome.heights, reading.ledgers, bundle.Network();
            (&& (exists i | 0 <= i < |rows| :: !IsPreActivation(rows[i], network))
             && exists i | 0 <= i < |ledgers| ::
                  network.IsPostActivation(ledgers[i].height) && !OnlyWithdraws(ledgers[i])) <==>
            OrchardGrowsLate(bundle)
  {
    ConcludedShape(bundle, reading, outcome);
    hide EvidenceUsable, Gathers, Concluded, Chain, AnchorOf, HeldAfter, OnlyWithdraws, IsPreActivation, MovesEarly;
    hide GrowsLate, Network.IsPostActivation, NonNegative, AgreesOn, GoesNegative, BalanceDiffers, DeltaDiffers;
    var rows, ledgers, network := outcome.heights, reading.ledgers, bundle.Network();
    forall i | 0 <= i < |Chain(bundle)|
      ensures network.IsPostActivation(ledgers[i].height) && !OnlyWithdraws(ledgers[i]) <==> GrowsLate(bundle, i)
      ensures network.IsPostActivation(ledgers[i].height) ==> !IsPreActivation(rows[i], network)
    {
      RowMeanings(bundle, reading, outcome, i);
    }
  }

  lemma NegativeMeaning(bundle: Bundle, reading: Reading, outcome: IntervalOutcome)
    requires EvidenceUsable(bundle) && Concluded(bundle, reading, outcome)
    ensures (exists i | 0 <= i < |outcome.heights| :: !NonNegative(outcome.heights[i])) <==>
            exists i | 0 <= i < |Chain(bundle)| :: GoesNegative(bundle, i)
  {
    ConcludedShape(bundle, reading, outcome);
    hide EvidenceUsable, Gathers, Concluded, Chain, AnchorOf, HeldAfter, OnlyWithdraws, IsPreActivation, MovesEarly;
    hide GrowsLate, Network.IsPostActivation, NonNegative, AgreesOn, GoesNegative, BalanceDiffers, DeltaDiffers;
    forall i | 0 <= i < |Chain(bundle)|
      ensures NonNegative(outcome.heights[i]) <==> !GoesNegative(bundle, i)
    {
      RowMeanings(bundle, reading, outcome, i);
    }
  }

  lemma BalanceMeaning(bundle: Bundle, reading: Reading, outcome: IntervalOutcome)
    requires EvidenceUsable(bundle) && Concluded(bundle, reading, outcome)
    ensures (exists i | 0 <= i < |outcome.heights| :: !AgreesOn(outcome.heights[i], OnBalance)) <==>
            exists i | 0 <= i < |Chain(bundle)| :: BalanceDiffers(bundle, i)
  {
    ConcludedShape(bundle, reading, outcome);
    hide EvidenceUsable, Gathers, Concluded, Chain, AnchorOf, HeldAfter, OnlyWithdraws, IsPreActivation, MovesEarly;
    hide GrowsLate, Network.IsPostActivation, NonNegative, AgreesOn, GoesNegative, BalanceDiffers, DeltaDiffers;
    forall i | 0 <= i < |Chain(bundle)|
      ensures AgreesOn(outcome.heights[i], OnBalance) <==> !BalanceDiffers(bundle, i)
    {
      RowMeanings(bundle, reading, outcome, i);
    }
  }

  lemma DeltaMeaning(bundle: Bundle, reading: Reading, outcome: IntervalOutcome)
    requires EvidenceUsable(bundle) && Concluded(bundle, reading, outcome)
    ensures (exists i | 0 <= i < |outcome.heights| :: !AgreesOn(outcome.heights[i], OnDelta)) <==>
            exists i | 0 <= i < |Chain(bundle)| :: DeltaDiffers(bundle, i)
  {
    ConcludedShape(bundle, reading, outcome);
    hide EvidenceUsable, Gathers, Concluded, Chain, AnchorOf, HeldAfter, OnlyWithdraws, IsPreActivation, MovesEarly;
    hide GrowsLate, Network.IsPostActivation, NonNegative, AgreesOn, GoesNegative, BalanceDiffers, DeltaDiffers;
    forall i | 0 <= i < |Chain(bundle)|
      ensures AgreesOn(outcome.heights[i], OnDelta) <==> !DeltaDiffers(bundle, i)
    {
      RowMeanings(bundle, reading, outcome, i);
    }
  }

  lemma ActivationMeanings(bundle: Bundle, reading: Reading, outcome: IntervalOutcome)
    requires EvidenceUsable(bundle) && Concluded(bundle, reading, outcome)
    ensures ReadPoolState(bundle, AnchorPools).Ok?
    ensures var checks := AllVerdicts(bundle, reading, outcome);
            && Reads(checks, ACTIVATION_CONTEXT_VALID,
                     bundle.data.header.activationHeight != bundle.Network().ActivationHeight())
            && Reads(checks, IRONWOOD_ANCHOR_ZERO, !PoolStartsEmpty(bundle))
            && Reads(checks, NO_IRONWOOD_BEFORE_ACTIVATION, IronwoodMovesEarly(bundle))
            && Reads(checks, ORCHARD_WITHDRAWAL_ONLY, OrchardGrowsLate(bundle))
            && Reads(checks, CONSENSUS_BRANCH_ID_VALID, false)
            && Reads(checks, TRANSACTION_VERSIONS_RECOGNIZED, false)
  {
    EvidenceParts(bundle);
    ObservedExact(bundle, reading);
    ConcludedShape(bundle, reading, outcome);
    hide EvidenceUsable, Gathers, Concluded, Chain, AnchorOf, HeldAfter, AllVerdicts, OnlyWithdraws, IfReported;
    hide StructuralVerdicts, ActivationVerdicts, AccountingVerdicts, ManifestAgreement, Reads, ReadPoolState;
    hide ReportedBalance, HasAnchorBlock, ObservedIn, PoolStartsEmpty, MovesEarly, GrowsLate, Passed;
    hide NonNegative, AgreesOn, IsPreActivation, Network.IsPostActivation, IronwoodMovesEarly, OrchardGrowsLate;
    EarlyMeaning(bundle, reading, outcome);
    LateMeaning(bundle, reading, outcome);
    GroupsRead(bundle, reading, outcome);
    ActivationReads(
      outcome.heights, reading.ledgers, bundle.Network(), bundle.data.header.activationHeight,
      ObservedIn(bundle, reading));
  }

  lemma AccountingMeanings(bundle: Bundle, reading: Reading, outcome: IntervalOutcome)
    requires EvidenceUsable(bundle) && Concluded(bundle, reading, outcome)
    ensures ReadPoolState(bundle, AnchorPools).Ok? && HeightUsable(bundle, bundle.End())
    ensures var checks, n := AllVerdicts(bundle, reading, outcome), |Chain(bundle)|;
            var endState := StateAt(bundle, bundle.End());
            && Reads(checks, ORCHARD_DELTAS_RECONSTRUCTED, false)
            && Reads(checks, IRONWOOD_DELTAS_RECONSTRUCTED, false)
            && Reads(checks, NO_ARITHMETIC_OVERFLOW, false)
            && Reads(checks, NO_NEGATIVE_POOL_BALANCE, exists i | 0 <= i < n :: GoesNegative(bundle, i))
            && Reads(checks, PER_HEIGHT_BALANCES_MATCH, exists i | 0 <= i < n :: BalanceDiffers(bundle, i))
            && Reads(checks, PER_HEIGHT_DELTAS_MATCH, exists i | 0 <= i < n :: DeltaDiffers(bundle, i))
            && Reads(checks, ORCHARD_END_BALANCE_MATCHES,
                     endState.Balance(Orchard) != Some(HeldAfter(bundle, Orchard, n)))
            && Reads(checks, IRONWOOD_END_BALANCE_MATCHES,
                     endState.Balance(Ironwood) != Some(HeldAfter(bundle, Ironwood, n)))
            && Reads(checks, END_BALANCES_CORROBORATED,
                     endState.Balance(Orchard).None? || endState.Balance(Ironwood).None?)
  {
    EvidenceParts(bundle);
    ConcludedShape(bundle, reading, outcome);
    ChainFits(bundle);
    GatheredState(bundle, reading, bundle.End());
    hide EvidenceUsable, Gathers, Concluded, Chain, AnchorOf, HeldAfter, AllVerdicts, OnlyWithdraws, StateAt;
    hide StructuralVerdicts, ActivationVerdicts, AccountingVerdicts, ManifestAgreement, Reads, ReadPoolState;
    hide ReportedBalance, HasAnchorBlock, ObservedIn, MovesEarly, GrowsLate, Passed, HeightUsable;
    hide ORCHARD_DELTAS_RECONSTRUCTED, IRONWOOD_DELTAS_RECONSTRUCTED, NO_ARITHMETIC_OVERFLOW, NO_NEGATIVE_POOL_BALANCE;
    hide PER_HEIGHT_BALANCES_MATCH, PER_HEIGHT_DELTAS_MATCH, ORCHARD_END_BALANCE_MATCHES, IRONWOOD_END_BALANCE_MATCHES;
    hide END_BALANCES_CORROBORATED;
    hide NonNegative, AgreesOn, GoesNegative, BalanceDiffers, DeltaDiffers, IsPreActivation, Network.IsPostActivation;
    NegativeMeaning(bundle, reading, outcome);
    BalanceMeaning(bundle, reading, outcome);
    DeltaMeaning(bundle, reading, outcome);
    GroupsRead(bundle, reading, outcome);
    var ends := EndsOf(bundle, reading);
    AccountingReads(outcome, ends.0, ends.1);
  }

  /** Every check of the report, by name, and what its failure means for the blocks and the node's figures. */
  lemma ReportChecksExact(bundle: Bundle, r: Reconciliation, reading: Reading)
    requires EvidenceUsable(bundle) && Reconciles(bundle, r, reading)
    ensures HeightUsable(bundle, bundle.End())
    ensures var checks, n, endState := r.report.checks, |Chain(bundle)|, StateAt(bundle, bundle.End());
            && Reads(checks, MANIFEST_SCHEMA_RECOGNIZED, false)
            && Reads(checks, EVIDENCE_HASHES_VALID, false)
            && Reads(checks, NETWORK_MATCHES, false)
            && Reads(checks, ANCHOR_BLOCK_PRESENT, !HasAnchorBlock(bundle))
            && Reads(checks, MANIFEST_MATCHES_EVIDENCE, !SummaryHolds(bundle))
            && Reads(checks, BLOCK_SEQUENCE_COMPLETE, false)
            && Reads(checks, PREVIOUS_BLOCK_LINKS_VALID, !ChainHolds(bundle))
            && Reads(checks, ACTIVATION_CONTEXT_VALID,
                     bundle.data.header.activationHeight != bundle.Network().ActivationHeight())
            && Reads(checks, IRONWOOD_ANCHOR_ZERO, !PoolStartsEmpty(bundle))
            && Reads(checks, NO_IRONWOOD_BEFORE_ACTIVATION, IronwoodMovesEarly(bundle))
            && Reads(checks, ORCHARD_WITHDRAWAL_ONLY, OrchardGrowsLate(bundle))
            && Reads(checks, CONSENSUS_BRANCH_ID_VALID, false)
            && Reads(checks, TRANSACTION_VERSIONS_RECOGNIZED, false)
            && Reads(checks, ORCHARD_DELTAS_RECONSTRUCTED, false)
            && Reads(checks, IRONWOOD_DELTAS_RECONSTRUCTED, false)
            && Reads(checks, NO_ARITHMETIC_OVERFLOW, false)
            && Reads(checks, NO_NEGATIVE_POOL_BALANCE, exists i | 0 <= i < n :: GoesNegative(bundle, i))
            && Reads(checks, PER_HEIGHT_BALANCES_MATCH, exists i | 0 <= i < n :: BalanceDiffers(bundle, i))
            && Reads(checks, PER_HEIGHT_DELTAS_MATCH, exists i | 0 <= i < n :: DeltaDiffers(bundle, i))
            && Reads(checks, ORCHARD_END_BALANCE_MATCHES,
                     endState.Balance(Orchard) != Some(HeldAfter(bundle, Orchard, n)))
            && Reads(checks, IRONWOOD_END_BALANCE_MATCHES,
                     endState.Balance(Ironwood) != Some(HeldAfter(bundle, Ironwood, n)))
            && Reads(checks, END_BALANCES_CORROBORATED,
                     endState.Balance(Orchard).None? || endState.Balance(Ironwood).None?)
            && Reads(checks, CANONICAL_REPORT_GENERATED, false)
  {
    hide EvidenceUsable, Gathers, Concluded, Reconciles, Reconcilable, Chain, AnchorOf, AnchorState, OutcomeOf;
    hide Presents, Verdict, Canonical, Reads, HeldAfter, StateAt, HeightUsable, AllVerdicts, HasAnchorBlock;
    hide ChainHolds, SummaryHolds, PoolStartsEmpty, GoesNegative, BalanceDiffers, DeltaDiffers;
    hide IronwoodMovesEarly, OrchardGrowsLate;
    var outcome := r.outcome;
    WhatIsReported(bundle, r, reading);
    EvidenceParts(bundle);
    ConcludedShape(bundle, reading, outcome);
    GatheredState(bundle, reading, bundle.End());
    ChecksAreSorted(bundle, r, reading);
    SortedReads(AllVerdicts(bundle, reading, outcome));
    StructuralMeanings(bundle, reading, outcome);
    ActivationMeanings(bundle, reading, outcome);
    AccountingMeanings(bundle, reading, outcome);
  }
}
