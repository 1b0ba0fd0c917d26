/** Reconstructing pool changes from an evidence bundle: from files on disk to a verdict. */
module Reconcile {
  import opened Wrappers
  import opened Money
  import opened Ledger
  import opened Interval
  import opened Continuity
  import opened Checks
  import opened Layout
  import opened Manifest
  import opened Validation
  import opened Verdicts
  import opened Reporting

  /** The foreign block decoder and the table of consensus branches. */
  datatype Decoder = Decoder(
    block: (string, Network) -> Option<RawBlock>,
    branchId: (Network, u32) -> u32)

  /** Everything a reconciliation reads. */
  datatype Bundle = Bundle(files: Files, data: ManifestData, codec: Codec, decoder: Decoder) {
    function Network(): Network {
      data.header.network
    }

    /** The heights the manifest declares. */
    function Start(): u32 {
      data.header.interval.start
    }

    function End(): u32 {
      data.header.interval.end
    }
  }

  datatype Reconciliation = Reconciliation(report: Report, outcome: IntervalOutcome, warnings: seq<ValidationWarning>)

  // ---- Reading evidence ----

  function ReadText(bundle: Bundle, file: BundleFile): Result<string> {
    if file.Path() !in bundle.files then Err(MissingFile(file.Path()))
    else
      match bundle.codec.bytesText(bundle.files[file.Path()])
      case Some(text) => Ok(text)
      case None => Err(Filesystem)
  }

  function ReadPoolState(bundle: Bundle, file: BundleFile): Result<CapturedBlockState> {
    if file.Path() !in bundle.files then Err(MissingFile(file.Path()))
    else bundle.codec.parsePools(bundle.files[file.Path()])
  }

  function AsciiLower(c: char): char {
    if 'A' <= c <= 'Z' then 'a' + (c - 'A') else c
  }

  predicate EqualIgnoringCase(a: string, b: string) {
    |a| == |b| && forall i | 0 <= i < |a| :: AsciiLower(a[i]) == AsciiLower(b[i])
  }

  /** The record states this height and, up to case, this hash. */
  predicate Describes(state: CapturedBlockState, height: u32, computedHash: string) {
    state.height == height && EqualIgnoringCase(state.blockHash, computedHash)
  }

  function CheckDescribesBlock(
    file: BundleFile, state: CapturedBlockState, height: u32, computedHash: string): (r: Result<()>)
    ensures r.Ok? <==> Describes(state, height, computedHash)
    ensures r.Err? ==> r.error == EvidenceInconsistent(file.Path())
  {
    if Describes(state, height, computedHash) then Ok(()) else Err(EvidenceInconsistent(file.Path()))
  }

  predicate LowerCase(text: string) {
    forall i | 0 <= i < |text| :: !('A' <= text[i] <= 'Z')
  }

  /** Exactly the 26 capital letters change, each to its small letter. */
  lemma AsciiLowerExact(c: char)
    ensures var upper, lower := "ABCDEFGHIJKLMNOPQRSTUVWXYZ", "abcdefghijklmnopqrstuvwxyz";
            && (forall i | 0 <= i < 26 :: AsciiLower(upper[i]) == lower[i])
            && (c !in upper ==> AsciiLower(c) == c)
  {
    var upper := "ABCDEFGHIJKLMNOPQRSTUVWXYZ";
    if 'A' <= c <= 'Z' {
      assert upper[(c - 'A') as int] == c;
    }
  }

  /** Text is in lower case exactly when lowering leaves it alone. */
  lemma LowerCaseExact(text: string)
    ensures LowerCase(text) <==> Lowered(text) == text
  {
    var lowered := Lowered(text);
    if lowered == text {
      assert forall i | 0 <= i < |text| :: lowered[i] == AsciiLower(text[i]);
    }
  }

  function Lowered(text: string): (lowered: string)
    ensures |lowered| == |text| && forall i | 0 <= i < |text| :: lowered[i] == AsciiLower(text[i])
  {
    seq(|text|, i requires 0 <= i < |text| => AsciiLower(text[i]))
  }

  /** What binding a record to a block establishes. Computed hashes are written in lower case; against one,
      binding succeeds exactly when the record states that height and, put in lower case, that very hash, and
      otherwise the record's own file is the one refused. */
  lemma BindingExact(file: BundleFile, state: CapturedBlockState, height: u32, computedHash: string)
    requires LowerCase(computedHash)
    ensures CheckDescribesBlock(file, state, height, computedHash) ==
            if state.height == height && Lowered(state.blockHash) == computedHash then Ok(())
            else Err(EvidenceInconsistent(file.Path()))
  {
    hide BundleFile.Path;
    forall i | 0 <= i < |computedHash|
      ensures AsciiLower(computedHash[i]) == computedHash[i]
    {
    }
  }

  /** A record describes one block only: any two blocks it is bound to have the same height and hash. */
  lemma DescribesOneBlock(state: CapturedBlockState, height: u32, hash: string, height': u32, hash': string)
    requires LowerCase(hash) && LowerCase(hash')
    requires Describes(state, height, hash) && Describes(state, height', hash')
    ensures height == height' && hash == hash'
  {
    BindingExact(AnchorPools, state, height, hash);
    BindingExact(AnchorPools, state, height', hash');
  }

  // ---- What the evidence amounts to ----

  /** The block a file decodes to. */
  ghost function RawAt(bundle: Bundle, file: BundleFile): Option<RawBlock> {
    var text := ReadText(bundle, file);
    if text.Err? then None else bundle.decoder.block(text.value, bundle.Network())
  }

  /** A block that parses as the block of its height: every transaction readable under the height's branch. */
  ghost predicate Parses(bundle: Bundle, raw: RawBlock, height: u32) {
    && raw.claimedHeight == height
    && |raw.transactions| <= U32_MAX + 1
    && forall i | 0 <= i < |raw.transactions| ::
         Readable(raw.transactions[i], bundle.decoder.branchId(bundle.Network(), height))
  }

  ghost predicate BlockUsable(bundle: Bundle, file: BundleFile, height: u32) {
    RawAt(bundle, file).Some? && Parses(bundle, RawAt(bundle, file).value, height)
  }

  /** Both files of a height can be used together, and the block's totals are 64-bit. */
  ghost predicate HeightUsable(bundle: Bundle, height: u32) {
    && BlockUsable(bundle, Block(height), height)
    && ReadPoolState(bundle, BlockPools(height)).Ok?
    && var raw := RawAt(bundle, Block(height)).value;
       && Describes(ReadPoolState(bundle, BlockPools(height)).value, height, raw.hash)
       && PrefixesFit(raw.Movements(Orchard)) && PrefixesFit(raw.Movements(Ironwood))
  }

  predicate HasAnchorBlock(bundle: Bundle) {
    AnchorBlock.Path() in bundle.files
  }

  ghost predicate AnchorUsable(bundle: Bundle) {
    var anchorHeight := bundle.data.header.interval.anchor;
    var state := ReadPoolState(bundle, AnchorPools);
    && state.Ok?
    && Orchard in state.value.pools.balances && Ironwood in state.value.pools.balances
    && (HasAnchorBlock(bundle) ==>
          && BlockUsable(bundle, AnchorBlock, anchorHeight)
          && Describes(state.value, anchorHeight, RawAt(bundle, AnchorBlock).value.hash))
  }

  /** What is wrong with a block that cannot be used: reading it, decoding it, or parsing it, in that order. */
  ghost predicate BlockError(bundle: Bundle, file: BundleFile, height: u32, error: ReconcileError) {
    match ReadText(bundle, file)
    case Err(unread) => error == unread
    case Ok(text) =>
      match bundle.decoder.block(text, bundle.Network())
      case None => error == TransactionParse(height, 0)
      case Some(raw) => ParseError(raw, height, bundle.decoder.branchId(bundle.Network(), height), error)
  }

  /** What is wrong with a height that cannot be used: its block, its record, their bond, or its totals. */
  ghost predicate HeightError(bundle: Bundle, height: u32, error: ReconcileError) {
    if !BlockUsable(bundle, Block(height), height) then BlockError(bundle, Block(height), height, error)
    else
      match ReadPoolState(bundle, BlockPools(height))
      case Err(unread) => error == unread
      case Ok(state) =>
        if !Describes(state, height, RawAt(bundle, Block(height)).value.hash)
        then error == EvidenceInconsistent(BlockPools(height).Path())
        else error == ArithmeticOverflow
  }

  /** The first height of the interval that cannot be used, and what is wrong with it. */
  ghost predicate FirstHeightError(bundle: Bundle, error: ReconcileError) {
    exists height: u32 | bundle.Start() <= height <= bundle.End() ::
      && !HeightUsable(bundle, height)
      && (forall earlier: u32 | bundle.Start() <= earlier < height :: HeightUsable(bundle, earlier))
      && HeightError(bundle, height, error)
  }

  /** What is wrong with intact evidence that cannot be used, by the order it is read in. */
  ghost predicate EvidenceError(bundle: Bundle, error: ReconcileError) {
    var anchorHeight, state := bundle.data.header.interval.anchor, ReadPoolState(bundle, AnchorPools);
    if !(0 < bundle.Start() <= bundle.End()) then error == InvalidInterval
    else if HasAnchorBlock(bundle) && !BlockUsable(bundle, AnchorBlock, anchorHeight) then
      BlockError(bundle, AnchorBlock, anchorHeight, error)
    else if state.Err? then error == state.error
    else if HasAnchorBlock(bundle) && !Describes(state.value, anchorHeight, RawAt(bundle, AnchorBlock).value.hash) then
      error == EvidenceInconsistent(AnchorPools.Path())
    else if exists height: u32 | bundle.Start() <= height <= bundle.End() :: !HeightUsable(bundle, height) then
      FirstHeightError(bundle, error)
    else error == CaptureIncomplete
  }

  /** The evidence is intact and every piece of it can be read. */
  ghost predicate EvidenceUsable(bundle: Bundle) {
    && Intact(bundle.files, bundle.data, bundle.codec)
    && 0 < bundle.Start() <= bundle.End()
    && AnchorUsable(bundle)
    && forall height: u32 | bundle.Start() <= height <= bundle.End() :: HeightUsable(bundle, height)
  }

  /** The blocks of the interval, in height order. */
  ghost function Chain(bundle: Bundle): (chain: seq<RawBlock>)
    requires EvidenceUsable(bundle)
    ensures |chain| == bundle.End() - bundle.Start() + 1
  {
    seq(bundle.End() - bundle.Start() + 1,
        i requires 0 <= i <= bundle.End() - bundle.Start() => BlockAt(bundle, bundle.Start() + i))
  }

  ghost function BlockAt(bundle: Bundle, height: u32): RawBlock
    requires HeightUsable(bundle, height)
  {
    RawAt(bundle, Block(height)).value
  }

  ghost function StateAt(bundle: Bundle, height: u32): ReportedPoolState
    requires HeightUsable(bundle, height)
  {
    ReadPoolState(bundle, BlockPools(height)).value.pools
  }

  function AnchorState(bundle: Bundle): ReportedPoolState
    requires ReadPoolState(bundle, AnchorPools).Ok?
  {
    ReadPoolState(bundle, AnchorPools).value.pools
  }

  /** Each block's whole effect on a pool, over unbounded integers. */
  ghost function Movements(chain: seq<RawBlock>, pool: Pool): (ms: seq<int>)
    ensures |ms| == |chain|
  {
    seq(|chain|, i requires 0 <= i < |chain| => chain[i].Movement(pool))
  }

  /** What a pool holds after the first `k` blocks: the anchor's balance, less every value balance. */
  ghost function HeldAfter(bundle: Bundle, pool: Pool, k: nat): int
    requires EvidenceUsable(bundle) && IsReconstructed(pool) && k <= |Chain(bundle)|
  {
    AnchorState(bundle).balances[pool] + SumTo(Movements(Chain(bundle), pool), k)
  }

  /** Running balances, net changes and gross flows all stay representable money. */
  ghost predicate StaysMoney(orchardAnchor: int, ironwoodAnchor: int, orchard: seq<int>, ironwood: seq<int>)
    requires |orchard| == |ironwood|
  {
    && (forall k | 0 < k <= |orchard| ::
          InMoneyRange(orchardAnchor + SumTo(orchard, k)) && InMoneyRange(ironwoodAnchor + SumTo(ironwood, k)))
    && InMoneyRange(Sum(orchard)) && InMoneyRange(Sum(ironwood))
    && InMoneyRange(Sum(Leaving(orchard))) && InMoneyRange(Sum(Entering(ironwood)))
  }

  /** Every figure of the reconstruction is representable money. */
  ghost predicate FiguresFit(bundle: Bundle)
    requires EvidenceUsable(bundle)
  {
    StaysMoney(AnchorState(bundle).balances[Orchard], AnchorState(bundle).balances[Ironwood],
               Movements(Chain(bundle), Orchard), Movements(Chain(bundle), Ironwood))
  }

  /** The ledger of a block: its links, and transaction by transaction the specified movements. */
  ghost predicate LedgerFor(ledger: BlockLedger, raw: RawBlock, height: u32) {
    && ledger.height == height && ledger.blockHash == raw.hash && ledger.previousBlockHash == raw.previousHash
    && ledger.Balanced()
    && (forall pool: Pool | IsReconstructed(pool) :: ledger.Delta(pool) == raw.Movement(pool))
    && |ledger.transactions| == |raw.transactions|
    && forall i | 0 <= i < |raw.transactions| ::
         && SameMovement(ledger.transactions[i], raw.transactions[i])
         && ledger.transactions[i].blockHeight == height && ledger.transactions[i].txIndex == i
  }

  ghost predicate LedgersFor(ledgers: seq<BlockLedger>, chain: seq<RawBlock>, start: u32) {
    && |ledgers| == |chain| && start + |chain| <= U32_MAX + 1
    && forall i | 0 <= i < |ledgers| :: LedgerFor(ledgers[i], chain[i], start + i)
  }

  // ---- Verdicts drawn from the manifest ----

  /** The Ironwood balance recorded one block below activation, wherever the bundle records that block. */
  function PreActivationIronwood(anchorHeight: u32, network: Network, anchorState: ReportedPoolState, reported: Reports)
    : Option<Option<Zatoshi>>
  {
    var boundary := network.ActivationHeight() - 1;
    if boundary == anchorHeight then Some(anchorState.Balance(Ironwood))
    else if boundary in reported then Some(reported[boundary].Balance(Ironwood))
    else None
  }

  /** What the manifest declares, or the evidence records, for each summary field. */
  datatype SummaryFigures = SummaryFigures(
    header: Header, anchor: AnchorBalances, endOrchard: Option<Zatoshi>, endIronwood: Option<Zatoshi>)
  {
    function Declared(field: SummaryField): Zatoshi {
      match field
      case AnchorOrchard => header.anchorOrchard
      case AnchorIronwood => header.anchorIronwood
      case EndOrchard => header.endOrchard
      case EndIronwood => header.endIronwood
    }

    function Recorded(field: SummaryField): Option<Zatoshi> {
      match field
      case AnchorOrchard => Some(anchor.orchard)
      case AnchorIronwood => Some(anchor.ironwood)
      case EndOrchard => endOrchard
      case EndIronwood => endIronwood
    }

    predicate Agrees(field: SummaryField) {
      Recorded(field) == Some(Declared(field))
    }

    /** The fields on which the two disagree, in order, with both figures. */
    function Mismatches(fields: seq<SummaryField>): (mismatches: seq<SummaryMismatch>)
      ensures forall m :: m in mismatches <==>
                && m.field in fields && !Agrees(m.field)
                && m.declared == Declared(m.field) && m.recorded == Recorded(m.field)
      ensures (forall i, j | 0 <= i < j < |fields| :: fields[i] != fields[j]) ==>
                forall i, j | 0 <= i < j < |mismatches| :: mismatches[i].field != mismatches[j].field
    {
      if fields == [] then []
      else
        var field, rest := fields[0], Mismatches(fields[1..]);
        if Agrees(field) then rest else [SummaryMismatch(field, Declared(field), Recorded(field))] + rest
    }
  }

  const SUMMARY_FIELDS: seq<SummaryField> := [AnchorOrchard, AnchorIronwood, EndOrchard, EndIronwood]

  lemma EveryFieldOnce()
    ensures forall field: SummaryField :: field in SUMMARY_FIELDS
    ensures forall i, j | 0 <= i < j < |SUMMARY_FIELDS| :: SUMMARY_FIELDS[i] != SUMMARY_FIELDS[j]
  {
    forall field: SummaryField
      ensures field in SUMMARY_FIELDS
    {
      match field
      case AnchorOrchard => assert SUMMARY_FIELDS[0] == field;
      case AnchorIronwood => assert SUMMARY_FIELDS[1] == field;
      case EndOrchard => assert SUMMARY_FIELDS[2] == field;
      case EndIronwood => assert SUMMARY_FIELDS[3] == field;
    }
  }

  /** Passes when all four summary figures are in the evidence; a failure names exactly those that are not, each
      once, with what is declared and what is recorded. */
  function ManifestAgreement(
    header: Header, anchor: AnchorBalances, endOrchard: Option<Zatoshi>, endIronwood: Option<Zatoshi>): (check: Check)
    ensures check.id == MANIFEST_MATCHES_EVIDENCE && check.status in {Pass, Fail}
    ensures check.status == Pass <==>
            && header.anchorOrchard == anchor.orchard && header.anchorIronwood == anchor.ironwood
            && endOrchard == Some(header.endOrchard) && endIronwood == Some(header.endIronwood)
    ensures check.status == Fail ==>
              && check.details.Some? && check.details.value.ManifestMismatches?
              && var mismatches := check.details.value.mismatches;
                 var summary := SummaryFigures(header, anchor, endOrchard, endIronwood);
                 && (forall i, j | 0 <= i < j < |mismatches| :: mismatches[i].field != mismatches[j].field)
                 && forall m :: m in mismatches <==>
                      && !summary.Agrees(m.field)
                      && m.declared == summary.Declared(m.field) && m.recorded == summary.Recorded(m.field)
  {
    EveryFieldOnce();
    var summary := SummaryFigures(header, anchor, endOrchard, endIronwood);
    var mismatches := summary.Mismatches(SUMMARY_FIELDS);
    AgreesOnAll(summary);
    Condition(MANIFEST_MATCHES_EVIDENCE, mismatches == [], ManifestMismatches(mismatches))
  }

  lemma AgreesOnAll(summary: SummaryFigures)
    ensures summary.Mismatches(SUMMARY_FIELDS) == [] <==>
            && summary.Agrees(AnchorOrchard) && summary.Agrees(AnchorIronwood)
            && summary.Agrees(EndOrchard) && summary.Agrees(EndIronwood)
  {
    EveryFieldOnce();
    var mismatches := summary.Mismatches(SUMMARY_FIELDS);
    if mismatches != [] {
      assert mismatches[0] in mismatches;
    }
    forall field: SummaryField | !summary.Agrees(field)
      ensures mismatches != []
    {
      assert SummaryMismatch(field, summary.Declared(field), summary.Recorded(field)) in mismatches;
    }
  }

  /** The hash the first block must link back to: computed from the anchor block when there is one. */
  ghost function AnchorHash(bundle: Bundle): string {
    if HasAnchorBlock(bundle) && RawAt(bundle, AnchorBlock).Some? then RawAt(bundle, AnchorBlock).value.hash
    else bundle.data.header.anchorHash
  }

  ghost function EndpointsOf(bundle: Bundle): ChainEndpoints {
    ChainEndpoints(AnchorHash(bundle), bundle.data.header.endHash)
  }

  /** The warnings name the missing manifest digest, then the unlisted files in order. */
  ghost predicate WarnsOfUnlisted(bundle: Bundle, warnings: seq<ValidationWarning>) {
    exists unlisted ::
      && ListsAscending(unlisted, UnlistedPaths(bundle.files, bundle.data))
      && warnings == DigestWarnings(bundle.files) + UnlistedWarnings(unlisted)
  }

  function DeclaredInterval(bundle: Bundle): HeightInterval
    requires 0 < bundle.Start() <= bundle.End()
  {
    HeightInterval(bundle.Start() - 1, bundle.Start(), bundle.End())
  }

  ghost function AnchorOf(bundle: Bundle): (anchor: AnchorBalances)
    requires AnchorUsable(bundle)
  {
    AnchorBalances(AnchorState(bundle).balances[Orchard], AnchorState(bundle).balances[Ironwood])
  }

  function ContextOf(bundle: Bundle, reported: Reports): Context {
    Context(bundle.data.header.bundleId, bundle.Network(),
            ReportedBalance(reported, bundle.End(), Orchard), ReportedBalance(reported, bundle.End(), Ironwood))
  }

  /** What the pipeline gathers on the way to a report. */
  datatype Reading = Reading(
    ledgers: seq<BlockLedger>, reported: Reports, validation: ValidationReport, continuity: Result<()>)

  ghost predicate ReportsAre(bundle: Bundle, reported: Reports)
    requires EvidenceUsable(bundle)
  {
    && (forall height: u32 :: height in reported <==> bundle.Start() <= height <= bundle.End())
    && (forall height: u32 | height in reported :: reported[height] == StateAt(bundle, height))
  }

  /** Every check of a reconciliation, in the order they are recorded. */
  ghost function AllVerdicts(bundle: Bundle, reading: Reading, outcome: IntervalOutcome): seq<Check>
    requires ReadPoolState(bundle, AnchorPools).Ok?
  {
    var header, network := bundle.data.header, bundle.Network();
    var endOrchard := ReportedBalance(reading.reported, bundle.End(), Orchard);
    var endIronwood := ReportedBalance(reading.reported, bundle.End(), Ironwood);
    var observed := PreActivationIronwood(header.interval.anchor, network, AnchorState(bundle), reading.reported);
    StructuralVerdicts(network, reading.validation, network, HasAnchorBlock(bundle), reading.continuity)
    + [ManifestAgreement(header, outcome.anchor, endOrchard, endIronwood)]
    + ActivationVerdicts(outcome.heights, reading.ledgers, network, Some(header.activationHeight), observed)
    + AccountingVerdicts(outcome, endOrchard, endIronwood)
    + [Passed(CANONICAL_REPORT_GENERATED)]
  }

  /** A reading of usable evidence: every block's ledger in order, every height's reported state, nothing
      wrong with the files, and the linkage verdict. */
  ghost predicate Gathers(bundle: Bundle, reading: Reading)
    requires EvidenceUsable(bundle)
  {
    && LedgersFor(reading.ledgers, Chain(bundle), bundle.Start())
    && ReportsAre(bundle, reading.reported)
    && reading.validation.failures == [] && WarnsOfUnlisted(bundle, reading.validation.warnings)
    && (reading.continuity.Ok? <==> Linked(reading.ledgers, EndpointsOf(bundle)))
    && (reading.continuity.Err? ==> LinkageError(reading.ledgers, EndpointsOf(bundle), reading.continuity.error))
  }

  /** What a completed reconciliation is made of. */
  ghost predicate Reconciles(bundle: Bundle, r: Reconciliation, reading: Reading)
    requires EvidenceUsable(bundle)
  {
    && Gathers(bundle, reading)
    && r.warnings == reading.validation.warnings
    && Reconcilable(reading.ledgers, AnchorOf(bundle))
    && r.outcome == OutcomeOf(reading.ledgers, DeclaredInterval(bundle), AnchorOf(bundle), reading.reported)
    && Presents(r.report, r.outcome, AllVerdicts(bundle, reading, r.outcome), ContextOf(bundle, reading.reported))
  }

  // ---- The pipeline ----

  method ParseBlockText(bundle: Bundle, text: string, height: u32) returns (r: Result<ParsedBlock>)
    ensures var raw := bundle.decoder.block(text, bundle.Network());
            && (r.Ok? <==> raw.Some? && Parses(bundle, raw.value, height))
            && (r.Ok? ==> Represents(r.value, raw.value))
            && (r.Err? ==>
                  if raw.None? then r.error == TransactionParse(height, 0)
                  else ParseError(raw.value, height, bundle.decoder.branchId(bundle.Network(), height), r.error))
  {
    match bundle.decoder.block(text, bundle.Network()) {
      case None => r := Err(TransactionParse(height, 0));
      case Some(raw) => r := ParseBlock(raw, height, bundle.decoder.branchId(bundle.Network(), height));
    }
  }

  /** The hash computed from the anchor block's bytes, when the bundle holds one. */
  method ReadAnchorBlock(bundle: Bundle) returns (r: Result<Option<string>>)
    ensures r.Ok? <==>
            (HasAnchorBlock(bundle) ==> BlockUsable(bundle, AnchorBlock, bundle.data.header.interval.anchor))
    ensures r.Ok? ==> r.value == if HasAnchorBlock(bundle) then Some(RawAt(bundle, AnchorBlock).value.hash) else None
    ensures r.Err? ==> BlockError(bundle, AnchorBlock, bundle.data.header.interval.anchor, r.error)
  {
    hide BundleFile.Path, Parses, Represents, ParseError;
    if !HasAnchorBlock(bundle) {
      return Ok(None);
    }
    var text :- ReadText(bundle, AnchorBlock);
    var parsed :- ParseBlockText(bundle, text, bundle.data.header.interval.anchor);
    BlockHashOf(parsed, RawAt(bundle, AnchorBlock).value);
    r := Ok(Some(parsed.blockHash));
  }

  lemma LedgerOfParsed(bundle: Bundle, block: ParsedBlock, raw: RawBlock, height: u32)
    requires Represents(block, raw) && Parses(bundle, raw, height)
    ensures LedgerFromParsed(block).Ok? <==> PrefixesFit(raw.Movements(Orchard)) && PrefixesFit(raw.Movements(Ironwood))
    ensures LedgerFromParsed(block).Ok? ==> LedgerFor(LedgerFromParsed(block).value, raw, height)
    ensures LedgerFromParsed(block).Err? ==> LedgerFromParsed(block).error == ArithmeticOverflow
  {
    LedgerIsBlockMovement(block, raw, bundle.decoder.branchId(bundle.Network(), height));
    forall pool: Pool
      ensures DeltasOf(block.transactions, pool) == raw.Movements(pool)
    {
      forall i | 0 <= i < |raw.transactions|
        ensures DeltasOf(block.transactions, pool)[i] == raw.Movements(pool)[i]
      {
        assert SameMovement(block.transactions[i], raw.transactions[i]);
      }
    }
    TrySumExact(DeltasOf(block.transactions, Orchard));
    TrySumExact(DeltasOf(block.transactions, Ironwood));
  }

  /** Reads the two files of a height and binds them to one another. A record that describes another
      block is refused, even though each file is intact. */
  method ReadHeight(bundle: Bundle, height: u32) returns (r: Result<(BlockLedger, ReportedPoolState)>)
    ensures r.Ok? <==> HeightUsable(bundle, height)
    ensures r.Ok? ==> LedgerFor(r.value.0, BlockAt(bundle, height), height) && r.value.1 == StateAt(bundle, height)
    ensures r.Err? ==> HeightError(bundle, height, r.error)
  {
    hide BundleFile.Path, Parses, Describes, PrefixesFit, LedgerFromParsed, LedgerFor, Represents, Readable, ParseError;
    var text :- ReadText(bundle, Block(height));
    var parsed :- ParseBlockText(bundle, text, height);
    var state :- ReadPoolState(bundle, BlockPools(height));
    ghost var raw := RawAt(bundle, Block(height)).value;
    assert parsed.blockHash == raw.hash by {
      BlockHashOf(parsed, raw);
    }
    var _ :- CheckDescribesBlock(BlockPools(height), state, height, parsed.blockHash);
    LedgerOfParsed(bundle, parsed, raw, height);
    var ledger :- LedgerFromParsed(parsed);
    r := Ok((ledger, state.pools));
  }

  lemma BlockHashOf(block: ParsedBlock, raw: RawBlock)
    requires Represents(block, raw)
    ensures block.blockHash == raw.hash
  {
  }

  /** What has been read once every height below `next` has been. */
  ghost predicate ReadBelow(bundle: Bundle, ledgers: seq<BlockLedger>, reported: Reports, next: int) {
    && bundle.Start() <= next <= bundle.End() + 1
    && |ledgers| == next - bundle.Start()
    && (forall height: u32 :: height in reported <==> bundle.Start() <= height < next)
    && (forall height: u32 | bundle.Start() <= height < next ::
          && HeightUsable(bundle, height)
          && LedgerFor(ledgers[height - bundle.Start()], BlockAt(bundle, height), height)
          && reported[height] == StateAt(bundle, height))
  }

  lemma ReadOneMore(
    bundle: Bundle, ledgers: seq<BlockLedger>, reported: Reports, next: u32, ledger: BlockLedger,
    state: ReportedPoolState)
    requires ReadBelow(bundle, ledgers, reported, next) && next <= bundle.End() && HeightUsable(bundle, next)
    requires LedgerFor(ledger, BlockAt(bundle, next), next) && state == StateAt(bundle, next)
    ensures ReadBelow(bundle, ledgers + [ledger], reported[next := state], next + 1)
  {
    hide HeightUsable, LedgerFor, BlockAt, StateAt;
  }

  lemma AllReadBelow(bundle: Bundle, ledgers: seq<BlockLedger>, reported: Reports, next: int)
    requires ReadBelow(bundle, ledgers, reported, next)
    ensures forall height: u32 | bundle.Start() <= height < next :: HeightUsable(bundle, height)
  {
    hide HeightUsable, LedgerFor, BlockAt, StateAt;
  }

  /** Reads every height of the interval, in order, stopping at the first that cannot be used. */
  method ReadHeights(bundle: Bundle) returns (r: Result<(seq<BlockLedger>, Reports)>)
    requires 0 < bundle.Start() <= bundle.End()
    ensures r.Ok? ==> ReadBelow(bundle, r.value.0, r.value.1, bundle.End() + 1)
    ensures r.Err? ==> FirstHeightError(bundle, r.error)
  {
    var ledgers: seq<BlockLedger>, reported: Reports := [], map[];
    assert ReadBelow(bundle, ledgers, reported, bundle.Start());
    hide HeightUsable, LedgerFor, BlockAt, StateAt, ReadBelow, HeightError;
    for height: int := bundle.Start() to bundle.End() + 1
      invariant ReadBelow(bundle, ledgers, reported, height)
    {
      AllReadBelow(bundle, ledgers, reported, height);
      var read :- ReadHeight(bundle, height);
      ReadOneMore(bundle, ledgers, reported, height, read.0, read.1);
      ledgers := ledgers + [read.0];
      reported := reported[height := read.1];
    }
    r := Ok((ledgers, reported));
  }

  lemma ChainAt(bundle: Bundle, height: u32)
    requires EvidenceUsable(bundle) && bundle.Start() <= height <= bundle.End()
    ensures HeightUsable(bundle, height)
    ensures Chain(bundle)[height - bundle.Start()] == BlockAt(bundle, height)
  {
    hide HeightUsable, Intact, AnchorUsable, BlockAt;
  }

  lemma ReadAt(bundle: Bundle, ledgers: seq<BlockLedger>, reported: Reports, height: u32)
    requires EvidenceUsable(bundle) && ReadBelow(bundle, ledgers, reported, bundle.End() + 1)
    requires bundle.Start() <= height <= bundle.End()
    ensures HeightUsable(bundle, height)
    ensures LedgerFor(ledgers[height - bundle.Start()], Chain(bundle)[height - bundle.Start()], height)
    ensures ledgers[height - bundle.Start()].height == height
    ensures height in reported && reported[height] == StateAt(bundle, height)
  {
    hide HeightUsable, LedgerFor, EvidenceUsable, Chain, BlockAt, StateAt;
    ChainAt(bundle, height);
    LedgerHeight(ledgers[height - bundle.Start()], BlockAt(bundle, height), height);
  }

  lemma ReadIsChain(bundle: Bundle, ledgers: seq<BlockLedger>, reported: Reports)
    requires EvidenceUsable(bundle) && ReadBelow(bundle, ledgers, reported, bundle.End() + 1)
    ensures LedgersFor(ledgers, Chain(bundle), bundle.Start())
    ensures Covers(ledgers, DeclaredInterval(bundle))
  {
    hide HeightUsable, LedgerFor, EvidenceUsable, Chain, BlockAt, StateAt;
    forall i | 0 <= i < |ledgers|
      ensures LedgerFor(ledgers[i], Chain(bundle)[i], bundle.Start() + i)
      ensures ledgers[i].height == bundle.Start() + i
    {
      ReadAt(bundle, ledgers, reported, bundle.Start() + i);
    }
  }

  lemma ReadIsReported(bundle: Bundle, ledgers: seq<BlockLedger>, reported: Reports)
    requires EvidenceUsable(bundle) && ReadBelow(bundle, ledgers, reported, bundle.End() + 1)
    ensures ReportsAre(bundle, reported)
  {
    hide HeightUsable, LedgerFor, EvidenceUsable, Chain, BlockAt, StateAt;
  }

  lemma LedgerHeight(ledger: BlockLedger, raw: RawBlock, height: u32)
    requires LedgerFor(ledger, raw, height)
    ensures ledger.height == height && ledger.blockHash == raw.hash && ledger.previousBlockHash == raw.previousHash
    ensures forall pool: Pool | IsReconstructed(pool) :: ledger.Delta(pool) == raw.Movement(pool)
  {
  }

  lemma DeltasAreMovements(ledgers: seq<BlockLedger>, chain: seq<RawBlock>, start: u32, pool: Pool)
    requires LedgersFor(ledgers, chain, start) && IsReconstructed(pool)
    ensures Deltas(ledgers, pool) == Movements(chain, pool)
  {
    hide LedgerFor;
    forall i | 0 <= i < |ledgers|
      ensures Deltas(ledgers, pool)[i] == Movements(chain, pool)[i]
    {
      LedgerHeight(ledgers[i], chain[i], start + i);
    }
  }

  /** The fold's running balances are the anchor's less every value balance so far. */
  lemma BalanceIsHeld(bundle: Bundle, ledgers: seq<BlockLedger>, pool: Pool, k: nat)
    requires EvidenceUsable(bundle) && LedgersFor(ledgers, Chain(bundle), bundle.Start())
    requires IsReconstructed(pool) && k <= |ledgers|
    ensures Balance(ledgers, AnchorOf(bundle), pool, k) == HeldAfter(bundle, pool, k)
  {
    hide EvidenceUsable, Chain, LedgerFor, Deltas, Movements, AnchorState;
    DeltasAreMovements(ledgers, Chain(bundle), bundle.Start(), pool);
  }

  lemma ReconcilableStaysMoney(ledgers: seq<BlockLedger>, anchor: AnchorBalances)
    requires ledgers != []
    ensures Reconcilable(ledgers, anchor) <==>
            StaysMoney(anchor.orchard, anchor.ironwood, Deltas(ledgers, Orchard), Deltas(ledgers, Ironwood))
  {
    hide Deltas, SumTo, Leaving, Entering;
    var n, orchard, ironwood := |ledgers|, Deltas(ledgers, Orchard), Deltas(ledgers, Ironwood);
    forall k | 0 < k <= n
      ensures Balance(ledgers, anchor, Orchard, k) == anchor.orchard + SumTo(orchard, k)
      ensures Balance(ledgers, anchor, Ironwood, k) == anchor.ironwood + SumTo(ironwood, k)
    {
    }
    if StaysMoney(anchor.orchard, anchor.ironwood, orchard, ironwood) {
      assert InMoneyRange(anchor.orchard + SumTo(orchard, n));
    } else {
      assert Reconcilable(ledgers, anchor) ==> forall k | 0 < k <= n ::
          InMoneyRange(Balance(ledgers, anchor, Orchard, k)) && InMoneyRange(Balance(ledgers, anchor, Ironwood, k));
    }
  }

  /** The fold succeeds exactly when the sums of value balances fit. */
  lemma FoldFits(bundle: Bundle, ledgers: seq<BlockLedger>)
    requires EvidenceUsable(bundle) && LedgersFor(ledgers, Chain(bundle), bundle.Start())
    ensures Reconcilable(ledgers, AnchorOf(bundle)) <==> FiguresFit(bundle)
  {
    assert |Chain(bundle)| > 0;
    hide EvidenceUsable, Chain, LedgerFor, Deltas, Movements, Reconcilable, StaysMoney, AnchorState;
    ReconcilableStaysMoney(ledgers, AnchorOf(bundle));
    DeltasAreMovements(ledgers, Chain(bundle), bundle.Start(), Orchard);
    DeltasAreMovements(ledgers, Chain(bundle), bundle.Start(), Ironwood);
  }

  /** Records every check into a new registry, group by group. */
  method RecordVerdicts(
    bundle: Bundle, anchorBlockPresent: bool, anchorState: CapturedBlockState, validation: ValidationReport,
    continuity: Result<()>, ledgers: seq<BlockLedger>, reported: Reports, outcome: IntervalOutcome)
    returns (registry: CheckRegistry)
    requires ReadPoolState(bundle, AnchorPools) == Ok(anchorState)
    requires anchorBlockPresent == HasAnchorBlock(bundle)
    ensures fresh(registry)
    ensures registry.checks == AllVerdicts(bundle, Reading(ledgers, reported, validation, continuity), outcome)
  {
    hide BundleFile.Path, ReadPoolState, ManifestAgreement, PreActivationIronwood, ReportedBalance;
    hide StructuralVerdicts, ActivationVerdicts, AccountingVerdicts, Passed;
    var header, network := bundle.data.header, bundle.Network();
    var endOrchard := ReportedBalance(reported, bundle.End(), Orchard);
    var endIronwood := ReportedBalance(reported, bundle.End(), Ironwood);
    registry := new CheckRegistry();
    EvaluateStructure(network, validation, network, anchorBlockPresent, continuity, registry);
    registry.Record(ManifestAgreement(header, outcome.anchor, endOrchard, endIronwood));
    EvaluateActivation(
      outcome, ledgers, network, Some(header.activationHeight),
      PreActivationIronwood(header.interval.anchor, network, anchorState.pools, reported), registry);
    EvaluateAccounting(outcome, endOrchard, endIronwood, registry);
    registry.Record(Passed(CANONICAL_REPORT_GENERATED));
  }

  lemma SomeHeightUnusable(bundle: Bundle, error: ReconcileError)
    requires FirstHeightError(bundle, error)
    ensures exists height: u32 | bundle.Start() <= height <= bundle.End() :: !HeightUsable(bundle, height)
  {
    hide HeightUsable, HeightError;
  }

  /** Everything the pipeline reads, in the order it reads it. */
  method ReadEvidence(bundle: Bundle, validation: ValidationReport)
    returns (r: Result<(Reading, Option<string>, CapturedBlockState, AnchorBalances)>)
    requires Intact(bundle.files, bundle.data, bundle.codec)
    requires validation.failures == [] && WarnsOfUnlisted(bundle, validation.warnings)
    ensures r.Ok? <==> EvidenceUsable(bundle)
    ensures r.Ok? ==>
              var (reading, anchorBlock, anchorState, anchor) := r.value;
              && Gathers(bundle, reading) && reading.validation == validation
              && (anchorBlock.Some? <==> HasAnchorBlock(bundle))
              && ReadPoolState(bundle, AnchorPools) == Ok(anchorState)
              && anchor == AnchorOf(bundle)
    ensures r.Err? ==> EvidenceError(bundle, r.error)
  {
    hide HeightError, BlockError;
    hide BundleFile.Path, ReadPoolState, HeightUsable, BlockUsable, Describes, Intact, WarnsOfUnlisted, RawAt;
    hide ReadBelow;
    hide Covers, Linked, LedgersFor, ReportsAre, Chain, LedgerFor;
    var interval :- NewInterval(bundle.Start(), bundle.End());
    var anchorBlock :- ReadAnchorBlock(bundle);
    var anchorState :- ReadPoolState(bundle, AnchorPools);
    if anchorBlock.Some? {
      var _ :- CheckDescribesBlock(AnchorPools, anchorState, bundle.data.header.interval.anchor, anchorBlock.value);
    }
    var heights := ReadHeights(bundle);
    if heights.Err? {
      SomeHeightUnusable(bundle, heights.error);
      return Err(heights.error);
    }
    var read := heights.value;
    AllReadBelow(bundle, read.0, read.1, bundle.End() + 1);
    var endpoints := ChainEndpoints(
      if anchorBlock.Some? then anchorBlock.value else bundle.data.header.anchorHash, bundle.data.header.endHash);
    var continuity := Verify(read.0, interval, endpoints);
    var orchard :- anchorState.pools.RequireBalance(Orchard);
    var ironwood :- anchorState.pools.RequireBalance(Ironwood);
    assert AnchorUsable(bundle);
    assert EvidenceUsable(bundle);
    ReadIsChain(bundle, read.0, read.1);
    ReadIsReported(bundle, read.0, read.1);
    AnchorHashComputed(bundle);
    r := Ok((Reading(read.0, read.1, validation, continuity), anchorBlock, anchorState,
             AnchorBalances(orchard, ironwood)));
  }

  lemma AnchorHashComputed(bundle: Bundle)
    requires AnchorUsable(bundle)
    ensures AnchorHash(bundle) ==
            if HasAnchorBlock(bundle) then RawAt(bundle, AnchorBlock).value.hash else bundle.data.header.anchorHash
  {
    hide BundleFile.Path, RawAt, Parses, ReadPoolState;
  }

  lemma GatheredLength(bundle: Bundle, reading: Reading)
    requires EvidenceUsable(bundle) && Gathers(bundle, reading)
    ensures 0 < |reading.ledgers| <= U32_MAX && LedgersFor(reading.ledgers, Chain(bundle), bundle.Start())
  {
    hide LedgerFor, Chain, Linked, ReportsAre, WarnsOfUnlisted, HeightUsable, Intact, AnchorUsable;
  }

  /** Why a bundle has no report: the first failure validation found; what is wrong with the evidence; or the
      first figure of its reconstruction that is not money. */
  ghost predicate Problem(bundle: Bundle, error: ReconcileError) {
    if !Intact(bundle.files, bundle.data, bundle.codec) then
      var failures := DigestFailures(bundle.files, bundle.data, bundle.codec)
                      + Errors(Findings(bundle.files, bundle.data.files, bundle.codec));
      failures != [] && error == failures[0]
    else if !EvidenceUsable(bundle) then EvidenceError(bundle, error)
    else
      exists ledgers ::
        LedgersFor(ledgers, Chain(bundle), bundle.Start()) && FailsAtFirst(Figures(ledgers, AnchorOf(bundle)), error)
  }

  /** Reconciles a bundle whose manifest is given. A report is produced exactly when the evidence is
      intact and usable and every figure fits; what it says is `Reconciles`, and why there is none is
      `Problem`. */
  method ReconcileWithManifest(bundle: Bundle) returns (r: Result<Reconciliation>, ghost reading: Reading)
    ensures r.Ok? <==> EvidenceUsable(bundle) && FiguresFit(bundle)
    ensures r.Ok? ==> Reconciles(bundle, r.value, reading)
    ensures r.Err? ==> Problem(bundle, r.error)
  {
    hide BundleFile.Path, ReadPoolState, Intact, AnchorUsable, HeightUsable, Chain, DigestFailures, Errors, Findings;
    hide EvidenceError, FailsAtFirst, Figures;
    hide Reconcilable, OutcomeOf, FiguresFit, LedgersFor, AllVerdicts, Presents, ReportsAre, Linked, AnchorHash;
    reading := Reading([], map[], ValidationReport([], []), Ok(()));
    var validation := ValidateBundle(bundle.files, bundle.data, bundle.codec);
    if !validation.IsValid() {
      return Err(validation.IntoResult().error), reading;
    }
    assert WarnsOfUnlisted(bundle, validation.warnings);
    hide WarnsOfUnlisted;
    var evidence :- ReadEvidence(bundle, validation);
    var (gathered, anchorBlock, anchorState, anchor) := evidence;
    reading := gathered;
    GatheredLength(bundle, gathered);
    FoldFits(bundle, gathered.ledgers);
    var outcome :- ReconcileInterval(gathered.ledgers, DeclaredInterval(bundle), anchor, gathered.reported);
    OutcomeShape(gathered.ledgers, DeclaredInterval(bundle), anchor, gathered.reported);
    var registry := RecordVerdicts(
      bundle, anchorBlock.Some?, anchorState, validation, gathered.continuity, gathered.ledgers, gathered.reported,
      outcome);
    var report := Build(outcome, registry, ContextOf(bundle, gathered.reported));
    assert report.Ok?;
    r := Ok(Reconciliation(report.value, outcome, validation.warnings));
  }

  lemma OutcomeShape(ledgers: seq<BlockLedger>, interval: HeightInterval, anchor: AnchorBalances, reported: Reports)
    requires Reconcilable(ledgers, anchor)
    ensures var outcome := OutcomeOf(ledgers, interval, anchor, reported);
            && outcome.interval == interval && outcome.anchor == anchor && |outcome.heights| == |ledgers|
  {
  }
}
