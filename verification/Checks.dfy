/** The check registry: stable identifiers, verdicts and their canonical order. */
module Checks {
  import opened Wrappers
  import opened Money
  import opened Ledger
  import opened Ordering

  const MANIFEST_SCHEMA_RECOGNIZED := "manifest_schema_recognized"
  const EVIDENCE_HASHES_VALID := "evidence_hashes_valid"
  const NETWORK_MATCHES := "network_matches"
  const ANCHOR_BLOCK_PRESENT := "anchor_block_present"
  const MANIFEST_MATCHES_EVIDENCE := "manifest_matches_evidence"
  const BLOCK_SEQUENCE_COMPLETE := "block_sequence_complete"
  const PREVIOUS_BLOCK_LINKS_VALID := "previous_block_links_valid"
  const ACTIVATION_CONTEXT_VALID := "activation_context_valid"
  const CONSENSUS_BRANCH_ID_VALID := "consensus_branch_id_valid"
  const TRANSACTION_VERSIONS_RECOGNIZED := "transaction_versions_recognized"
  const IRONWOOD_ANCHOR_ZERO := "ironwood_anchor_zero"
  const NO_IRONWOOD_BEFORE_ACTIVATION := "no_ironwood_before_activation"
  const ORCHARD_WITHDRAWAL_ONLY := "orchard_withdrawal_only"
  const ORCHARD_DELTAS_RECONSTRUCTED := "orchard_deltas_reconstructed"
  const IRONWOOD_DELTAS_RECONSTRUCTED := "ironwood_deltas_reconstructed"
  const NO_ARITHMETIC_OVERFLOW := "no_arithmetic_overflow"
  const NO_NEGATIVE_POOL_BALANCE := "no_negative_pool_balance"
  const PER_HEIGHT_BALANCES_MATCH := "per_height_balances_match"
  const PER_HEIGHT_DELTAS_MATCH := "per_height_deltas_match"
  const ORCHARD_END_BALANCE_MATCHES := "orchard_end_balance_matches"
  const IRONWOOD_END_BALANCE_MATCHES := "ironwood_end_balance_matches"
  const END_BALANCES_CORROBORATED := "end_balances_corroborated"
  const CANONICAL_REPORT_GENERATED := "canonical_report_generated"
  const OFFLINE_REPORT_HASH_REPRODUCIBLE := "offline_report_hash_reproducible"

  /** The identifiers a report lists first, in this order. */
  const ALL: seq<string> := [
    MANIFEST_SCHEMA_RECOGNIZED, EVIDENCE_HASHES_VALID, NETWORK_MATCHES, ANCHOR_BLOCK_PRESENT,
    MANIFEST_MATCHES_EVIDENCE, BLOCK_SEQUENCE_COMPLETE, PREVIOUS_BLOCK_LINKS_VALID,
    ACTIVATION_CONTEXT_VALID, CONSENSUS_BRANCH_ID_VALID, TRANSACTION_VERSIONS_RECOGNIZED,
    IRONWOOD_ANCHOR_ZERO, NO_IRONWOOD_BEFORE_ACTIVATION, ORCHARD_WITHDRAWAL_ONLY,
    ORCHARD_DELTAS_RECONSTRUCTED, IRONWOOD_DELTAS_RECONSTRUCTED, NO_ARITHMETIC_OVERFLOW,
    NO_NEGATIVE_POOL_BALANCE, PER_HEIGHT_BALANCES_MATCH, PER_HEIGHT_DELTAS_MATCH,
    ORCHARD_END_BALANCE_MATCHES, IRONWOOD_END_BALANCE_MATCHES, END_BALANCES_CORROBORATED,
    CANONICAL_REPORT_GENERATED, OFFLINE_REPORT_HASH_REPRODUCIBLE]

  datatype Status = Pass | Fail | Warn | NotApplicable

  /** The figures a manifest summarises. */
  datatype SummaryField = AnchorOrchard | AnchorIronwood | EndOrchard | EndIronwood

  /** A summary field, what the manifest declares for it and what the evidence records. */
  datatype SummaryMismatch = SummaryMismatch(field: SummaryField, declared: Zatoshi, recorded: Option<Zatoshi>)

  /** What a verdict names; stands for the message text built from it. */
  datatype Detail =
    | Fixed
    | EvidenceFailures(count: nat, first: ReconcileError)
    | NetworkDiffers(declaredNetwork: Network, requestedNetwork: Network)
    | ContinuityFailure(error: ReconcileError)
    | UnlistedFiles(unlisted: nat)
    | ManifestMismatches(mismatches: seq<SummaryMismatch>)
    | ActivationDiffers(declaredHeight: u32, expectedHeight: u32)
    | PoolNotEmpty(poolBalance: Zatoshi)
    | MovementBeforeActivation(movement: Zatoshi, at: u32)
    | OrchardGrows(txid: string, txIndex: u32, inBlock: u32, added: Zatoshi)
    | NegativeBalance(pool: Pool, at: u32, balance: Zatoshi)
    | Divergences(count: nat, at: u32, pool: Pool)
    | EndDiffers(pool: Pool, expected: Zatoshi, reported: Zatoshi)
    | EndNotReported(pool: Pool)
    | EndsAbsent(pools: seq<Pool>)

  datatype Check = Check(id: string, status: Status, details: Option<Detail>)

  function Passed(id: string): Check {
    Check(id, Pass, None)
  }

  function Failed(id: string, details: Detail): Check {
    Check(id, Fail, Some(details))
  }

  function Warned(id: string, details: Detail): Check {
    Check(id, Warn, Some(details))
  }

  function Inapplicable(id: string): Check {
    Check(id, NotApplicable, Some(Fixed))
  }

  /** A pass, or a failure with these details. */
  function Condition(id: string, passed: bool, details: Detail): (check: Check)
    ensures check.id == id && check.status in {Pass, Fail}
    ensures check.status == Fail <==> !passed
    ensures check.details == if passed then None else Some(details)
  {
    if passed then Passed(id) else Failed(id, details)
  }

  const USIZE_MAX: nat := 0xFFFF_FFFF_FFFF_FFFF

  /** An identifier's first place in the list, or a place after all of them. */
  function Rank(id: string): nat {
    match FindIndex(ALL, (listed: string) => listed == id)
    case Some(position) => position
    case None => USIZE_MAX
  }

  predicate CheckLe(a: Check, b: Check) {
    Rank(a.id) < Rank(b.id) || (Rank(a.id) == Rank(b.id) && StringLe(a.id, b.id))
  }

  function Canonical(checks: seq<Check>): seq<Check> {
    StableSort(checks, CheckLe)
  }

  ghost predicate AnyWith(checks: seq<Check>, status: Status) {
    exists check | check in checks :: check.status == status
  }

  /** The overall verdict: any failure fails, otherwise any warning warns. */
  ghost function Verdict(checks: seq<Check>): Status {
    if AnyWith(checks, Fail) then Fail else if AnyWith(checks, Warn) then Warn else Pass
  }

  /** Exit code 0 for anything but a failure. */
  predicate ExitsSuccessfully(status: Status) {
    status != Fail
  }

  class CheckRegistry {
    var checks: seq<Check>

    constructor ()
      ensures checks == []
    {
      checks := [];
    }

    constructor Clone(original: seq<Check>)
      ensures checks == original
    {
      checks := original;
    }

    method Record(check: Check)
      modifies this
      ensures checks == old(checks) + [check]
    {
      checks := checks + [check];
    }

    /** Appends a pass, or a failure with these details. */
    method RecordCondition(id: string, passed: bool, details: Detail)
      modifies this
      ensures checks == old(checks) + [Condition(id, passed, details)]
    {
      if passed {
        Record(Passed(id));
      } else {
        Record(Failed(id, details));
      }
    }

    /** Puts the checks in canonical order, keeping the order of those that share an identifier. */
    method SortCanonically()
      modifies this
      ensures checks == Canonical(old(checks))
    {
      checks := StableSort(checks, CheckLe);
    }

    function HasFailures(): (failed: bool)
      reads this
      ensures failed <==> AnyWith(checks, Fail)
    {
      FindIndex(checks, (check: Check) => check.status == Fail).Some?
    }

    function OverallStatus(): (status: Status)
      reads this
      ensures status == Verdict(checks)
    {
      if HasFailures() then Fail
      else if FindIndex(checks, (check: Check) => check.status == Warn).Some? then Warn
      else Pass
    }
  }

  // ---- Laws ----

  lemma CheckOrderIsTotal()
    ensures TotalPreorder(CheckLe)
    ensures forall a, b :: CheckLe(a, b) && CheckLe(b, a) <==> a.id == b.id
  {
    StringOrderIsTotal();
  }

  /** The checks recorded under one identifier, in the order they were recorded. */
  ghost function WithId(checks: seq<Check>, id: string): seq<Check> {
    if checks == [] then []
    else (if checks[0].id == id then [checks[0]] else []) + WithId(checks[1..], id)
  }

  lemma {:induction false} PeersShareId(checks: seq<Check>, k: Check)
    ensures Peers(checks, k, CheckLe) == WithId(checks, k.id)
  {
    CheckOrderIsTotal();
    if checks != [] {
      PeersShareId(checks[1..], k);
    }
  }

  /** Each identifier, listed or not, has the same checks in the same relative order in both. */
  ghost predicate SamePerId(a: seq<Check>, b: seq<Check>) {
    forall id: string :: WithId(a, id) == WithId(b, id)
  }

  /** Sorting keeps what was recorded under each identifier, in order. */
  lemma CanonicalKeepsIds(checks: seq<Check>, id: string)
    ensures WithId(Canonical(checks), id) == WithId(checks, id)
  {
    CheckOrderIsTotal();
    StableSortSorts(checks, CheckLe);
    PeersShareId(checks, Passed(id));
    PeersShareId(Canonical(checks), Passed(id));
  }

  lemma SameIdsSortAlike(a: seq<Check>, b: seq<Check>)
    requires SamePerId(a, b)
    ensures Canonical(a) == Canonical(b)
  {
    CheckOrderIsTotal();
    StableSortSorts(a, CheckLe);
    StableSortSorts(b, CheckLe);
    forall k
      ensures Peers(Canonical(a), k, CheckLe) == Peers(Canonical(b), k, CheckLe)
    {
      PeersShareId(a, k);
      PeersShareId(b, k);
    }
    SortedIsUnique(Canonical(a), Canonical(b), CheckLe);
  }

  /** Canonical order erases exactly the order in which distinct identifiers were evaluated: two
      registries sort alike if and only if no identifier's own checks are reordered. */
  lemma CanonicalOrderExact(a: seq<Check>, b: seq<Check>)
    ensures Canonical(a) == Canonical(b) <==> SamePerId(a, b)
  {
    if Canonical(a) == Canonical(b) {
      forall id: string
        ensures WithId(a, id) == WithId(b, id)
      {
        CanonicalKeepsIds(a, id);
        CanonicalKeepsIds(b, id);
      }
    } else if SamePerId(a, b) {
      SameIdsSortAlike(a, b);
    }
  }

  /** Sorting neither loses nor invents a check, so it cannot change the verdict. */
  lemma CanonicalKeepsVerdict(checks: seq<Check>)
    ensures Verdict(Canonical(checks)) == Verdict(checks)
    ensures multiset(Canonical(checks)) == multiset(checks)
  {
    forall check
      ensures check in Canonical(checks) <==> check in checks
    {
      assert check in multiset(Canonical(checks)) <==> check in multiset(checks);
    }
  }

  /** The canonical order: checks of listed identifiers first, by place in the list; then the others, by
      identifier. */
  lemma CanonicalIsOrdered(checks: seq<Check>, i: nat, j: nat)
    requires i < j < |checks|
    ensures |Canonical(checks)| == |checks|
    ensures var a, b := Canonical(checks)[i].id, Canonical(checks)[j].id;
            && (b in ALL ==> a in ALL)
            && (a in ALL && b in ALL ==>
                  exists p, q | 0 <= p <= q < |ALL| ::
                    ALL[p] == a && ALL[q] == b && a !in ALL[..p] && b !in ALL[..q])
            && (a !in ALL && b !in ALL ==> StringLe(a, b))
  {
    CheckOrderIsTotal();
    StableSortSorts(checks, CheckLe);
    var sorted := Canonical(checks);
    assert |multiset(sorted)| == |multiset(checks)|;
    assert CheckLe(sorted[i], sorted[j]);
    RankExact(sorted[i].id);
    RankExact(sorted[j].id);
  }

  lemma RankExact(id: string)
    ensures id in ALL <==> Rank(id) < |ALL|
    ensures id in ALL ==> ALL[Rank(id)] == id && id !in ALL[..Rank(id)]
    ensures id !in ALL ==> Rank(id) == USIZE_MAX
  {
    assert |ALL| == 24;
    hide ALL;
    var found := FindIndex(ALL, (listed: string) => listed == id);
    if found.Some? {
      assert ALL[found.value] in ALL;
    }
  }
}
