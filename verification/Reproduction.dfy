/** Publishing evidence and reproducing its report from the archive alone. */
module Reproduction {
  import opened Wrappers
  import opened Ledger
  import opened Interval
  import opened Continuity
  import opened Checks
  import opened Ordering
  import opened Layout
  import opened Validation
  import opened Writer
  import opened Reporting
  import opened Reconcile
  import opened Soundness
  import opened Archive
  import opened Extraction

  // ---- The same evidence, the same report ----

  lemma SameTransaction(a: TransactionPoolDelta, b: TransactionPoolDelta, tx: RawTransaction)
    requires SameMovement(a, tx) && SameMovement(b, tx)
    requires a.blockHeight == b.blockHeight && a.txIndex == b.txIndex
    ensures a == b
  {
    assert a.Delta(Orchard) == b.Delta(Orchard) && a.Delta(Ironwood) == b.Delta(Ironwood);
  }

  /** A block has one ledger. */
  lemma LedgerOnce(a: BlockLedger, b: BlockLedger, raw: RawBlock, height: u32)
    requires LedgerFor(a, raw, height) && LedgerFor(b, raw, height)
    ensures a == b
  {
    assert a.Delta(Orchard) == b.Delta(Orchard) && a.Delta(Ironwood) == b.Delta(Ironwood);
    forall i | 0 <= i < |raw.transactions|
      ensures a.transactions[i] == b.transactions[i]
    {
      SameTransaction(a.transactions[i], b.transactions[i], raw.transactions[i]);
    }
  }

  lemma LedgersOnce(a: seq<BlockLedger>, b: seq<BlockLedger>, chain: seq<RawBlock>, start: u32)
    requires LedgersFor(a, chain, start) && LedgersFor(b, chain, start)
    ensures a == b
  {
    hide LedgerFor;
    forall i | 0 <= i < |chain|
      ensures a[i] == b[i]
    {
      LedgerOnce(a[i], b[i], chain[i], start + i);
    }
  }

  lemma LinkageErrorOnce(ledgers: seq<BlockLedger>, endpoints: ChainEndpoints, a: ReconcileError, b: ReconcileError)
    requires LinkageError(ledgers, endpoints, a) && LinkageError(ledgers, endpoints, b)
    ensures a == b
  {
  }

  lemma WarningsOnce(bundle: Bundle, a: seq<ValidationWarning>, b: seq<ValidationWarning>)
    requires WarnsOfUnlisted(bundle, a) && WarnsOfUnlisted(bundle, b)
    ensures a == b
  {
    var members := UnlistedPaths(bundle.files, bundle.data);
    var first :| ListsAscending(first, members) && a == DigestWarnings(bundle.files) + UnlistedWarnings(first);
    var second :| ListsAscending(second, members) && b == DigestWarnings(bundle.files) + UnlistedWarnings(second);
    StrictlySortedIsUnique(first, second);
  }

  /** Evidence is read in one way only. */
  lemma GatheredOnce(bundle: Bundle, a: Reading, b: Reading)
    requires EvidenceUsable(bundle) && Gathers(bundle, a) && Gathers(bundle, b)
    ensures a == b
  {
    hide EvidenceUsable, Chain, LedgerFor, LedgersFor, WarnsOfUnlisted, Linked, LinkageError, EndpointsOf, StateAt;
    LedgersOnce(a.ledgers, b.ledgers, Chain(bundle), bundle.Start());
    WarningsOnce(bundle, a.validation.warnings, b.validation.warnings);
    assert a.reported == b.reported;
    if a.continuity.Err? {
      LinkageErrorOnce(a.ledgers, EndpointsOf(bundle), a.continuity.error, b.continuity.error);
    } else {
      assert a.continuity.value == () == b.continuity.value;
    }
  }

  lemma ReconciledOnce(bundle: Bundle, a: Reconciliation, x: Reading, b: Reconciliation, y: Reading)
    requires EvidenceUsable(bundle) && Reconciles(bundle, a, x) && Reconciles(bundle, b, y)
    ensures a == b && x == y
  {
    hide BundleFile.Path, EvidenceUsable, Gathers, Reconcilable, Presents, AllVerdicts, AnchorOf, ContextOf, OutcomeOf;
    hide AnchorUsable, ReadPoolState;
    EvidenceParts(bundle);
    GatheredOnce(bundle, x, y);
    OutcomeShape(x.ledgers, DeclaredInterval(bundle), AnchorOf(bundle), x.reported);
    PresentedOnce(a.report, b.report, a.outcome, AllVerdicts(bundle, x, a.outcome), ContextOf(bundle, x.reported));
  }

  /** A directory has one report, whoever reconciles it. */
  lemma ReportedOnce(files: Files, codec: Codec, decoder: Decoder, a: Report, b: Report)
    requires Reported(files, codec, decoder, a) && Reported(files, codec, decoder, b)
    ensures a == b
  {
    hide BundleFile.Path, MANIFEST, BundleIn, Reconciles, EvidenceUsable, FiguresFit, Loads;
    var bundle := BundleIn(files, codec, decoder);
    var first, firstReading :| Reconciles(bundle, first, firstReading) && first.report == a;
    var second, secondReading :| Reconciles(bundle, second, secondReading) && second.report == b;
    ReconciledOnce(bundle, first, firstReading, second, secondReading);
  }

  // ---- Verifying an archive ----

  lemma RefusedIsNotTaken(archive: Stream, limits: Limits, error: ReconcileError, after: Files)
    ensures (exists i | 0 <= i < |archive| :: Refused(map[], archive, limits, i, error, after)) ==>
              !Accepted(map[], archive, limits, |archive|)
  {
    if i :| 0 <= i < |archive| && Refused(map[], archive, limits, i, error, after) {
      assert !Taking(map[], archive, limits, i);
    }
  }

  /** Whether a report hashes to what the caller expects, if it expects anything. */
  ghost predicate AsExpected(report: Report, reportHash: Report -> string, expected: Option<string>) {
    expected.Some? ==> expected.value == reportHash(report)
  }

  /** The verdict on a directory that has one: certified, with a report that hashes as expected. */
  ghost predicate Confirmed(
    files: Files, codec: Codec, decoder: Decoder, reportHash: Report -> string, expected: Option<string>)
  {
    && HasVerdict(files, codec, decoder)
    && Certified(BundleIn(files, codec, decoder))
    && forall report | Reported(files, codec, decoder, report) :: AsExpected(report, reportHash, expected)
  }

  /** The archive was extracted, and what came out has no report. */
  ghost predicate Unreconciled(
    archive: Stream, limits: Limits, codec: Codec, decoder: Decoder, error: ReconcileError, files: Files)
  {
    && Accepted(map[], archive, limits, |archive|)
    && files == FilesAfter(map[], archive, |archive|)
    && CommandError(files, codec, decoder, error)
  }

  /** The `verify` command: extracts an archive into an empty directory, reconciles what came out, manifest and
      all, and compares the report's hash with the one expected. The exit code is 0 when all of that holds and 1
      when the evidence gives a report and it does not. */
  method RunVerify(
    archive: Stream, workspace: Disk, limits: Limits, codec: Codec, decoder: Decoder, reportHash: Report -> string,
    expected: Option<string>)
    returns (r: Result<nat>)
    requires workspace.files == map[]
    modifies workspace`files
    ensures r.Ok? ==>
              && Accepted(map[], archive, limits, |archive|)
              && workspace.files == FilesAfter(map[], archive, |archive|)
              && HasVerdict(workspace.files, codec, decoder)
              && r.value == if Confirmed(workspace.files, codec, decoder, reportHash, expected) then 0 else 1
    ensures r.Err? ==>
              || Unreconciled(archive, limits, codec, decoder, r.error, workspace.files)
              || exists i | 0 <= i < |archive| ::
                   Accepted(map[], archive, limits, i) && CutOff(map[], archive, limits, i, workspace.files)
    ensures r.Err? && !workspace.faulty ==>
              || Unreconciled(archive, limits, codec, decoder, r.error, workspace.files)
              || exists i | 0 <= i < |archive| ::
                   && Accepted(map[], archive, limits, i)
                   && Refused(map[], archive, limits, i, r.error, workspace.files)
    ensures !workspace.faulty ==>
              (r.Ok? <==>
                 && Accepted(map[], archive, limits, |archive|)
                 && HasVerdict(FilesAfter(map[], archive, |archive|), codec, decoder))
  {
    hide HasVerdict, Certified, CommandError, Loads, BundleIn, Reported, Accepted, CutOff, Refused, FilesAfter;
    var extracted := Extract(archive, workspace, limits);
    if extracted.Err? {
      RefusedIsNotTaken(archive, limits, extracted.error, workspace.files);
      return Err(extracted.error);
    }
    var report :- ReconcileDirectory(workspace.files, codec, decoder);
    forall other | Reported(workspace.files, codec, decoder, other)
      ensures other == report
    {
      ReportedOnce(workspace.files, codec, decoder, other, report);
    }
    if expected.Some? && reportHash(report) != expected.value {
      return Ok(1);
    }
    r := Ok(if ExitsSuccessfully(report.overallStatus) then 0 else 1);
  }

  /** Packs a bundle directory and verifies the archive elsewhere: the files that come out are the directory's,
      and so are the report and the verdict. Publishing loses and adds nothing that reconciliation reads. */
  method PublishAndVerify(
    tree: Tree, workspace: Disk, limits: Limits, codec: Codec, decoder: Decoder, reportHash: Report -> string,
    expected: Option<string>)
    returns (r: Result<nat>)
    requires tree.Dir? && WellNamed(tree) && workspace.files == map[]
    modifies workspace`files
    ensures var files := TreeFiles(tree);
            && (r.Ok? ==>
                  && workspace.files == files
                  && HasVerdict(files, codec, decoder)
                  && r.value == if Confirmed(files, codec, decoder, reportHash, expected) then 0 else 1)
            && (!workspace.faulty ==>
                  && (r.Ok? <==> Packable(tree) && Fits(files, limits) && HasVerdict(files, codec, decoder))
                  && (r.Err? && Packable(tree) && Fits(files, limits) ==> CommandError(files, codec, decoder, r.error)))
  {
    hide WellNamed, Packable, IsPacked, TreeFiles, Fits, Accepted, FilesAfter, HasVerdict, Confirmed;
    hide Refused, CutOff, CommandError;
    var entries :- Pack(tree);
    ExtractUndoesPack(tree, entries, limits);
    r := RunVerify(AsStream(entries), workspace, limits, codec, decoder, reportHash, expected);
    if r.Err? && !workspace.faulty {
      RefusedIsNotTaken(AsStream(entries), limits, r.error, workspace.files);
    }
  }

  /** A publisher reconciles a directory and states the hash of its report; anyone who verifies the packed
      directory against that hash gets a verdict exactly when the publisher did, and the same one. */
  method Reproduce(
    tree: Tree, root: Files, workspace: Disk, limits: Limits, codec: Codec, decoder: Decoder,
    reportHash: Report -> string)
    returns (published: Result<Report>, verified: Result<nat>)
    requires tree.Dir? && WellNamed(tree) && root == TreeFiles(tree) && workspace.files == map[]
    modifies workspace`files
    ensures published.Ok? <==> HasVerdict(root, codec, decoder)
    ensures verified.Ok? ==>
              && published.Ok?
              && verified.value == if ExitsSuccessfully(published.value.overallStatus) then 0 else 1
    ensures !workspace.faulty && Packable(tree) && Fits(root, limits) ==> (verified.Ok? <==> published.Ok?)
  {
    hide WellNamed, Packable, TreeFiles, Fits, HasVerdict, Certified, Reported, CommandError, BundleIn;
    published := ReconcileDirectory(root, codec, decoder);
    var hash := if published.Ok? then Some(reportHash(published.value)) else None;
    verified := PublishAndVerify(tree, workspace, limits, codec, decoder, reportHash, hash);
    if published.Ok? {
      forall report | Reported(root, codec, decoder, report)
        ensures report == published.value
      {
        ReportedOnce(root, codec, decoder, report, published.value);
      }
    }
  }
}
