# zec-ironwood-reconcile, modelled in Dafny

The program captures block evidence for an interval of Zcash heights from a node, keeps it in a
self-describing bundle, and later reconstructs from that bundle alone how the Orchard and Ironwood
pools changed, comparing the result with what the node reported. This project models the offline half
and the bundle machinery around it, and proves what its verdicts and its files can be relied on for.

## What is proved

1. **What exit code 0 means.** `Soundness.VerdictExact` and `Soundness.RunReconcile` give the verdict's
   meaning as an equivalence, over unbounded integers: the command exits 0 if and only if the directory's
   manifest loads and is consistent, the evidence is intact and readable, every figure is representable money,
   the blocks link from the anchor block's own hash to the claimed end hash, the manifest's summary is the
   evidence's, the activation rules hold block by block and transaction by transaction, and at every height
   both balances are the anchor's less every value balance so far, never negative and equal to whatever the
   node reported.
   `Soundness.WarningExact` does the same for the warning, and `VerdictLaws.IronwoodStartsEmpty` shows what
   three checks say together that none says alone. Every other exit code is tied to what is wrong, by the
   order the source looks in. `CheckMeanings.ReportChecksExact` takes the verdict apart, check by check, and
   `Soundness.ReportRowExact`, `ReportTotalsExact` and `ReportContextExact` say what every figure of the report is in
   terms of the blocks. `Examples.OneBlockCertified` is a bundle on which the claim holds or fails with
   one word of its manifest.
2. **Exactly when the fold succeeds.** `Interval.ReconcileInterval` succeeds if and only if every running
   balance, both net changes and both gross flows are money, and otherwise reports the first figure that
   is not. `IntervalLaws` adds how intervals split and compose and what the two comparison axes detect.
3. **Chains.** `Continuity` gives coverage and linkage as equivalences, says which error is due, and shows
   that an end hash pins the whole chain.
4. **Crash and resume.** `Capture.CaptureUntilDone` captures into any directory over any number of attempts,
   the first in any mode, each of which may stop at any step of any write. A directory that is `Resumable`
   stays so; one undisturbed attempt is then enough to finish, and a finished capture is complete, holds no
   temporary file, and is the same, byte for byte of evidence, as an uninterrupted one
   (`Capture.CompleteIsUnique`). The condition is exact: an undisturbed attempt finishes if and only if it can
   read what it takes (`Capture.Run`), a finished resumed attempt has made a complete capture if and only if
   it began in a `Sound` directory, no number of attempts repairs one that is not (`Capture.ResumeUntilDone`),
   and a sound one that is not resumable can be spoilt by one attempt cut off (`Resuming.OrphanGetsStuck`).
   `Resuming.ResumableElsewhereExactly` says what that means for whatever an overwrite of any bundle leaves.
5. **Writer and validator agree** (`Writer.WriteAndValidate`), and validation reports nothing exactly when
   the bytes on disk are the ones listed (`Validation.ValidateBundle`).
6. **Extraction undoes packing** (`Extraction.ExtractUndoesPack`), whatever order directories are read in
   (`Archive.PackingIsUnique`), and stays within every limit wherever it stops
   (`Extraction.StoppedStaysBounded`).
7. **End to end.** `EndToEnd.CapturedVerdict` shows that a captured bundle can only fail because of the chain or
   the pools, never because of how it was written. A directory has one report (`Reproduction.ReportedOnce`), and
   whoever verifies its packed form against that report's hash gets the publisher's verdict
   (`Reproduction.Reproduce`). The cap on an interval is enough for its archive to be extracted
   (`Capacity.CapIsEnough`).

## How it is modelled

- A disk is a class holding a map from rendered path to bytes. While it is *faulty*, which every attempt
  sets according to whether anything disturbs it, any step of a write may fail, or be the last the process
  takes, which the methods express by a nondeterministic error return between steps; what a contract says of
  an error return is therefore what holds of a crash there.
- A node is a function from height to its two answers. SHA-256, JSON, the block decoder and the branch
  table are function values; a property that needs one of them to be injective, or text to read back as
  written, says so in its `requires`.
- Messages are left out of errors and checks; the variant and what it names are kept.
- The source's objects are classes (`Disk`, `BundleWriter`, `CheckRegistry`, `Manifest`) whose methods say
  what the new state is; loops that update variables are loops here, with invariants, and loops that only
  look for something are written as searches. The functions that specify them carry the laws.

## Where the code and its documentation differ

The model follows the code in each case.

- `SECURITY.md:69-70` and `src/evidence/archive/extract.rs:18` say a refused entry leaves nothing behind.
  An entry whose stream does not match its declared size is refused only after its bytes are in a file.
  `Extraction.RefusalLeavesNothingExactly` proves that this is the only such case, unless those bytes are what
  an earlier entry had left there already. `Extraction.PartialFileRemains` is an archive refused with a partial
  file on disk, `Extraction.DuplicateDestroysAccepted` one whose refused entry replaces a file that had been
  accepted.
- `src/capture/writer.rs:12-13` and `src/capture/run.rs:6-7` say that a bundle carrying a manifest is one whose
  capture finished. `Capture.Run` proves it of an attempt that began without a manifest, and of a resumed one that
  writes what the old manifest lists. Any other resumed attempt leaves the old manifest in place while it rewrites
  files the manifest lists: `Resuming.StaleManifestExample` is a directory on which the claim fails, and
  `Capture.WriteKeepsListedExactly` says which writes keep it. An overwrite cut off while deleting can leave the
  manifest without files it lists (`Resuming.HalfDeletedExample`); a manifest that survives is then true exactly
  when everything it lists survives too (`Resuming.RemnantEarnedExactly`).
- `src/capture/writer.rs:5-10` says that atomic renames make resuming sound, and `src/capture/fetch.rs:8-10` that
  the same conditions hold whether a capture ran once or was resumed. Two kinds of directory are exceptions.
  - An overwrite deletes the old bundle in whatever order the file system lists it
    (`src/capture/writer.rs:291`); cut off there, it can leave a height's balances without its block
    (`Resuming.OrphanedRecord`, `Examples.OrphanedCapture`). A resumed attempt then rewrites both, and if it is cut
    off in the second write (`Resuming.OrphanGetsStuck`), every later one adopts both files around the temporary
    left there, which no attempt removes (`Resuming.StuckStays`) and validation reports as unlisted
    (`Resuming.StuckIsUnlisted`).
  - `src/capture/writer.rs:89-94` means to keep two captures from being mixed, but looks at block heights only. The
    anchor's block carries none: left by an overwrite cut off, or by a capture with other bounds, it passes, is
    adopted (`src/capture/run.rs:191-193`), and the capture finishes with another anchor's block
    (`Resuming.StaleAnchor`, `Resuming.StaleAnchorFinishes`, `Examples.WrongAnchorFinishes`).

  `Resuming.ResumableElsewhereExactly` gives the exact condition, for what is left of a capture of any request from
  any node: it can be resumed if and only if no balances lost their block, no block is of a height the request does
  not want, and whatever would be adopted is what would be fetched. For the same request and node only the first
  remains (`Resuming.RemnantResumableExactly`).
- `src/rpc/auth.rs:253` says userinfo ends at the first `@`; the code looks for the last, which is what
  removes the whole of a password that contains one (`Scrub.ScrubIsIdempotent`). The two agree exactly on
  authorities with at most one `@` (`Scrub.FirstIsLastExactly`); `Scrub.FirstLeavesPassword` is one where they do
  not.
- `src/checks/structural.rs:69-90` records "sequence complete" as passed for every continuity error but a
  missing block, so for a repeated, outside or unordered height it blames linkage
  (`VerdictLaws.SequenceVerdictExact`; `VerdictLaws.RepeatedHeightPasses` is such a sequence). The pipeline
  never builds one.
- `src/reconcile/binding.rs:48` compares hashes ignoring case; `src/reconcile/continuity.rs:90-143` does
  not. A node that writes hashes in upper case yields a bundle that binds and then fails linkage
  (`EndToEnd.EndReachedExactly`; `Examples.UpperCaseCapture` is one, beside the same block in lower case).
- `src/evidence/layout.rs:75-82` accepts `a//b` and `a/./b`, which name the same file as `a/b`. A manifest
  listing such a spelling can be intact and have its file reported as unlisted (`Validation.AliasExample`).
  `Validation.AliasIsUnlistedExactly` gives the condition, and no path with one spelling meets it
  (`Validation.NormalFormIsListed`, `Layout.RenderedIsNormal`).
- Stepping past the last representable height makes coverage report an arithmetic overflow rather than a
  continuity error (`src/reconcile/continuity.rs:73-85`). `Continuity.OverflowExact` says exactly when, and
  `Continuity.DescendingOverflows` is such a sequence; the pipeline never builds one.

## Model

| member | source | states |
|---|---|---|
| Money.PoolDeltaExact | src/parse/value_balance.rs:39-41 | The sign convention of ZIP 209: in range the delta is the negated value balance and negating again gives it back; out of range the field itself is the error. |
| Money.TrySumExact | src/domain/zatoshi.rs:97-101 | A checked sum is the integer sum exactly when no running total leaves 64 bits, and an overflow otherwise. |
| Money.InI64Exact | src/domain/zatoshi.rs:71-101 | The range of a checked sum is that of a signed 64-bit integer. |
| Money.SumIsOrderIndependent | src/domain/zatoshi.rs:71-101 | An integer sum depends only on which values occur and how often. |
| Money.BlockSumIsExact | src/reconcile/ledger.rs:25-38 | Up to 4392 transaction deltas sum to their integer total in every order of them. |
| Money.BlockSumBoundIsTight | src/domain/zatoshi.rs:28-101 | A block size is safe from overflow if and only if it is at most 4392 transactions. |
| Ledger.NewInterval | src/domain/height.rs:58-77 | An interval exists exactly for 0 < start <= end, anchored one below its start; anything else is an invalid interval. |
| Ledger.ActivationExact | src/domain/network.rs:20-55 | Where the boundary lies on each network. |
| Ledger.ReportedExact | src/domain/pool_state.rs:77-120 | A figure is reported for a pool exactly when the map it belongs to has it, balances and deltas each from their own. |
| Ledger.ExtractDeltaExact | src/parse/transaction.rs:65-96 | A transaction is readable exactly when its branch is the height's and both value balances are money, and then each delta is the specified movement; otherwise the error is the branch mismatch, with both branches, or names the transaction. |
| Ledger.ParseBlock | src/parse/block.rs:58-102 | A block parses exactly when it claims its height and every transaction is readable; the result carries its links and, in block order, every movement. Otherwise the error is the claimed height's, or that of the first transaction that is not readable or has no 32-bit index. |
| Ledger.LedgerIsBlockMovement | src/reconcile/ledger.rs:25-38 | When a ledger exists its totals are the integer sums of the negated value balances, and one exists for every block of at most 4392 transactions. |
| Interval.DivergentHeights | src/reconcile/interval.rs:172-183 | The heights of the diverging rows, in order: as many as rows diverge, each at the place the number of diverging rows before it gives. |
| Interval.FirstDivergent | src/report/builder.rs:63-74 | None exactly when no height diverges; otherwise the first is that of the first row that does. |
| Interval.AddBlockExact | src/reconcile/interval.rs:207-223 | Once the previous height narrowed, the 128-bit additions equal the integer ones; only a gross flow could overflow, on a slice too long to exist, and then the interval is not reconcilable anyway. |
| Interval.NarrowRowExact | src/reconcile/interval.rs:261-264 | A height narrows exactly when both balances are money; otherwise the error is that of the first failing figure of the interval. |
| Interval.FiguresExact | src/reconcile/interval.rs:191-252 | Which figures must be money and in which order they are narrowed: at each height Orchard's balance, then Ironwood's; then the net changes, the ends and the flows. |
| Interval.FlowsExact | src/reconcile/interval.rs:207-223 | At every block what enters less what leaves is the movement, neither is negative and one of them is zero. |
| Interval.ReconcileInterval | src/reconcile/interval.rs:191-252 | Succeeds exactly when every running balance, both cumulative deltas and both gross flows are money; the outcome states the integer figures row by row; the error is the first figure's that is not money. |
| IntervalLaws.SplitExact | src/reconcile/interval.rs:191-252 | Each part of a reconciled interval reconciles exactly when its own cumulative deltas are money. |
| IntervalLaws.SplitInterval | src/reconcile/interval.rs:191-252 | With non-negative anchor and running balances every cut reconciles: rows concatenate, ends meet, deltas and flows add. |
| IntervalLaws.ComposeInterval | src/reconcile/interval.rs:191-252 | Two reconciled neighbours compose exactly unless a combined total leaves the money range. |
| IntervalLaws.DivergenceIsLocalised | src/reconcile/interval.rs:10-21 | When the node's deltas are the differences of its balances, the first row differing on one axis is the first differing on the other. |
| IntervalLaws.ShiftChangesNoVerdict | src/reconcile/interval.rs:52-58 | A constant added to the anchor and all reported balances changes no agreement, flow or cumulative delta. |
| Continuity.VerifyCoverage | src/reconcile/continuity.rs:40-87 | Succeeds exactly when the heights are the interval's, each once, ascending; otherwise the error due by priority: first repeated or outside height, least missing height, first misstep. |
| Continuity.VerifyLinkage | src/reconcile/continuity.rs:90-143 | Succeeds exactly when the blocks link unbroken from the anchor hash to the end hash; otherwise the error names the anchor, the first height that does not link back, or the end, whichever fails first. |
| Continuity.Verify | src/reconcile/continuity.rs:29-37 | Coverage and linkage together, coverage errors first; each error is the one due. |
| Continuity.MissingBlockExact | src/reconcile/continuity.rs:40-68 | A block is reported missing exactly when no height repeats or lies outside and it is the least absent one. |
| Continuity.OverflowExact | src/reconcile/continuity.rs:70-85 | Coverage reports an arithmetic overflow exactly when every height is there once and the first misstep comes after the last representable height. |
| Continuity.DescendingOverflows | src/reconcile/continuity.rs:70-85 | The last two representable heights in descending order are such a sequence. |
| Continuity.ChainIsUnique | src/reconcile/continuity.rs:90-143 | If a hash commits to its predecessor's, two accepted chains with the same end hash agree on every hash and on the anchor's. |
| Checks.CheckRegistry.RecordCondition | src/checks/mod.rs:175-181 | Appends a pass, or a failure with its details. |
| Checks.CheckRegistry.SortCanonically | src/checks/mod.rs:217-229 | Replaces the list by its canonical order. |
| Checks.CheckRegistry.OverallStatus | src/checks/mod.rs:203-211 | Fail if anything failed, else warn if anything warned, else pass. |
| Checks.CanonicalIsOrdered | src/checks/mod.rs:249-254 | Listed identifiers come first, by first place in the list; the others after them, by identifier. |
| Checks.CanonicalOrderExact | src/checks/mod.rs:213-229 | Two registries sort alike if and only if each identifier's checks, listed or not, occur in the same order in both. |
| Checks.CanonicalKeepsVerdict | src/checks/mod.rs:203-229 | Sorting keeps the checks and the overall verdict. |
| Verdicts.EvidenceHashes | src/checks/structural.rs:41-52 | Fails exactly when validation found a failure, stating how many and the first. |
| Verdicts.ContinuityVerdicts | src/checks/structural.rs:69-90 | One of the two continuity checks fails exactly when continuity did: completeness for a missing block, linkage for anything else. |
| Verdicts.CountUnlisted | src/checks/structural.rs:93-98 | Is the number of unlisted-file warnings among all warnings. |
| Verdicts.EvaluateStructure | src/checks/structural.rs:16-39 | Records the structural checks, in order, after what was recorded before. |
| Verdicts.ActivationContext | src/checks/activation.rs:48-62 | Fails exactly when a declared activation height is not the network's, naming both. |
| Verdicts.IronwoodAnchorZero | src/checks/activation.rs:77-120 | Passes exactly on a recorded zero, fails exactly on a recorded balance that is not zero, naming it. |
| Verdicts.NoIronwoodBeforeActivation | src/checks/activation.rs:123-155 | Not applicable exactly without pre-activation heights; fails exactly when one of them moves Ironwood, naming the first. |
| Verdicts.FirstGrowth | src/checks/activation.rs:193-199 | The first transaction, block by block from activation on, that adds to Orchard, if any. |
| Verdicts.OrchardWithdrawalOnly | src/checks/activation.rs:173-216 | Not applicable exactly without post-activation heights; otherwise fails exactly when some transaction from activation on adds to Orchard, naming the first. |
| Verdicts.EvaluateActivation | src/checks/activation.rs:28-45 | Records the activation checks, in order. |
| Verdicts.NoNegativeBalance | src/checks/accounting.rs:80-99 | Fails exactly when a running balance is negative, naming the first height and, there, the first pool. |
| Verdicts.DivergentExact | src/checks/accounting.rs:135-151 | The collected divergences are empty exactly when no height differs on the axis; the first names the first height and pool that do. |
| Verdicts.DivergentMembers | src/checks/accounting.rs:102-151 | Exactly the heights and pools that disagree on the axis are collected. |
| Verdicts.DivergentCounts | src/checks/accounting.rs:102-151 | As many are collected, and counted in the verdict, as there are heights and pools that disagree. |
| Verdicts.CheckPerHeightAgreement | src/checks/accounting.rs:102-129 | The nested loops collect every divergence of both axes by height, then pool, and record both verdicts. |
| Verdicts.EndBalance | src/checks/accounting.rs:154-188 | Passes exactly when the reported end balance exists and is the expected one; a failure names both figures, or that none was reported. |
| Verdicts.EndsCorroborated | src/checks/accounting.rs:49-74 | Fails exactly when an end balance was not reported, naming the pools concerned. |
| Verdicts.EvaluateAccounting | src/checks/accounting.rs:13-32 | Records the accounting checks, in order. |
| VerdictLaws.IronwoodStartsEmpty | src/checks/activation.rs:64-155 | A zero recorded before activation, matching balances and no earlier movement together imply that the interval reaches the boundary, its anchor holds no Ironwood and no pre-activation height has any. |
| VerdictLaws.TotalWithdraws | src/checks/activation.rs:157-172 | If no transaction adds to Orchard, neither does the block total. |
| VerdictLaws.TotalsHideGrowth | src/checks/activation.rs:164-170 | The converse fails: a block total can hide a transaction that adds. |
| VerdictLaws.OrchardNeverRises | src/checks/activation.rs:157-216 | When the withdrawal-only check passes, the Orchard balance never rises from activation on, and on an interval starting there the outflow is the negated cumulative delta. |
| VerdictLaws.SequenceVerdictExact | src/checks/structural.rs:69-90 | "Sequence complete" passes exactly when the sequence is complete or no error names a missing block. |
| VerdictLaws.RepeatedHeightPasses | src/checks/structural.rs:69-90 | A sequence with a repeated height, not covering its interval, for which "sequence complete" is recorded as passed. |
| Reporting.Build | src/report/builder.rs:32-110 | The report carries the outcome unaltered, one row per height, a summary that counts the divergent heights and names the first, and the checks in canonical order; it fails, with an internal error, exactly on more heights than 32 bits count. |
| Reporting.ReportForgetsEvaluationOrder | src/report/builder.rs:28-38 | Two reports of one outcome are equal if and only if no identifier's checks changed places. |
| Reconcile.BindingExact | src/reconcile/binding.rs:30-57 | Against a computed, lower-case hash, a record binds exactly when it states the height and, put in lower case, that very hash; otherwise the record's own file is named as inconsistent. |
| Reconcile.AsciiLowerExact | src/reconcile/binding.rs:48 | Ignoring case folds exactly the 26 capital letters, each to its small letter. |
| Reconcile.LowerCaseExact | src/reconcile/binding.rs:48 | Text is in lower case exactly when folding leaves it alone. |
| Reconcile.DescribesOneBlock | src/reconcile/binding.rs:30-57 | A record cannot be bound to two different blocks. |
| Reconcile.ManifestAgreement | src/commands/reconcile.rs:244-289 | Passes exactly when all four summary figures are recorded in the evidence; a failure names exactly the figures that are not, each once, with what is declared and what is recorded. |
| Reconcile.ReadAnchorBlock | src/commands/reconcile.rs:296-308 | Absent, or decoded and parsed as the anchor height, its hash the computed one; otherwise what is wrong with reading, decoding or parsing it. |
| Reconcile.ReadHeight | src/commands/reconcile.rs:114-132 | Succeeds exactly when the two files of a height parse, describe one another and total in 64 bits, and gives the block's ledger, with every transaction's index and height, and the reported state; a missing or foreign file is named. |
| Reconcile.ReadHeights | src/commands/reconcile.rs:111-132 | Every height in order, its ledger and its reported state; stops exactly at the first unusable height, with what is wrong there. |
| Reconcile.LedgerOfParsed | src/reconcile/ledger.rs:20-38 | A parsed block has a ledger exactly when its movements' running totals stay in 64 bits, and it is that block's: links, totals, and each transaction's movements, index and height. |
| Reconcile.BalanceIsHeld | src/reconcile/interval.rs:207-232 | The fold's running balance is the anchor's less every value balance of every transaction so far. |
| Reconcile.FoldFits | src/reconcile/interval.rs:191-252 | The fold succeeds exactly when the sums of value balances stay money. |
| Reconcile.ReadEvidence | src/commands/reconcile.rs:88-157 | Reads in the source's order, succeeds exactly on usable evidence, and gathers its ledgers, reports, anchor and linkage verdict, with the linkage error that is due; otherwise the error is the first thing that order finds wrong. |
| Reconcile.RecordVerdicts | src/commands/reconcile.rs:166-192 | Records structural, agreement, activation and accounting checks in that order, then the report's own. |
| Reconcile.ReconcileWithManifest | src/commands/reconcile.rs:72-208 | Produces a report exactly when the evidence is usable and every figure fits; the report presents the fold's outcome and all verdicts. Otherwise the error is validation's first failure, the first thing wrong with the evidence, or the first figure that is not money. |
| Soundness.VerdictExact | src/commands/reconcile.rs:72-208 | The status maps to exit 0 if and only if the certificate holds: linkage from the computed anchor hash, honest summary, boundary rules, and at every height balances and deltas equal to plain integer sums and never negative. |
| Soundness.WarningExact | src/checks/structural.rs:92-106 | Plain pass exactly when certified with nothing unlisted; warning exactly when certified with something unlisted. |
| CheckMeanings.ReportChecksExact | src/checks/mod.rs:249-254 | Every check of the report, by name: it fails exactly when its own clause about the blocks, the boundary or the node's figures is broken. |
| Soundness.ReportRowExact | src/report/builder.rs:40-58 | Each row states its block's movements, the balances they lead to and the node's figures, flagged exactly where these disagree. |
| Soundness.ReportTotalsExact | src/report/builder.rs:76-110 | The report's net changes, flows and ends are, over unbounded integers, the sums of the blocks' movements: the flows count only what left Orchard and what entered Ironwood. |
| Soundness.ReportContextExact | src/report/builder.rs:76-110 | The report carries the manifest's identity, network and interval, the anchor's balances as the evidence has them, and as reported end balances those of the last record, each pool's own. |
| Soundness.ReportSummaryExact | src/report/builder.rs:60-74 | The summary covers every block, counts no divergence exactly when no row diverges, and names the first that does. |
| Soundness.ReconcileDirectory | src/commands/reconcile.rs:62-66 | Loads the directory's manifest and reconciles: a report exactly when the directory has a verdict, with a status that says whether it is certified; otherwise the error the directory has. |
| Soundness.RunReconcile | src/commands/reconcile.rs:62-66 | Loads the manifest from the directory. Exits 0 exactly when it loads and the evidence is usable and certified, 1 exactly when it is usable and not certified, and otherwise with the code of the error the directory has. |
| Soundness.ExitCodesExact | src/cli/exit.rs:41-88 | Which errors each exit code above 1 stands for. |
| Examples.OneBlockCertified | src/commands/reconcile.rs:72-208 | A one-block bundle that is usable, and certified exactly when its manifest states the block's own hash. |
| Examples.SmallTree | src/evidence/archive/pack.rs:136-168 | A directory tree with one file in a directory of its own, and its content. |
| Examples.UpperCaseCapture | src/reconcile/binding.rs:45-57 | A finished, clean capture of a node that writes hashes in upper case is usable and not certified; the same block in lower case is certified. |
| Examples.OrphanedCapture | src/capture/writer.rs:291-294 | That capture with its block deleted is what an overwrite can leave; it cannot be resumed, and a resumed attempt can get stuck. |
| Examples.AnotherInterval | src/capture/writer.rs:89-128 | Where the next interval is to be captured, the captured bundle is refused and its anchor block alone is not; nothing finished from there is complete. |
| Examples.WrongAnchorFinishes | src/capture/run.rs:189-196 | Where the next interval's anchor block is left, resuming the first interval finishes with the wrong anchor block. |
| Layout.ValidatePathExact | src/evidence/layout.rs:55-85 | Accepts exactly the safe paths, and a safe path descends through at least one ordinary name and nothing else. |
| Layout.ToBundlePath | src/evidence/layout.rs:98-125 | Succeeds exactly on ordinary components and joins their names. |
| Layout.RenderedIsNormal | src/evidence/layout.rs:75-125 | Rendering projects onto paths with one spelling and fixes exactly those. |
| Layout.HeightRoundTrip | src/evidence/layout.rs:35-42 | A height written into a file name reads back as itself. |
| Layout.PathsDistinct | src/evidence/layout.rs:13-42 | Different files of a bundle have different paths, and none is the temporary name of another. |
| Layout.BundlePaths | src/evidence/layout.rs:13-42 | Where each file of a bundle lies. |
| Layout.GeneratedExact | src/evidence/layout.rs:44-48 | What a capture does not list: the manifest digest and the three report files. |
| Manifest.BinarySearch | src/evidence/manifest.rs:194-208 | Finds the place of a path in an ascending list, or where it belongs, or shows it absent. |
| Manifest.FindFile | src/evidence/manifest.rs:203-208 | Binary search agrees with linear search on an ascending list with distinct paths. |
| Manifest.Manifest.AddFile | src/evidence/manifest.rs:194-201 | Insertion keeps the list ascending and adds exactly the entry. |
| Manifest.IndexIsDetermined | src/evidence/manifest.rs:190-201 | Any insertion order of distinct paths gives the same list. |
| Manifest.LastWriteWins | src/capture/writer.rs:162-181 | Two logs of writes give the same index if and only if each path's last write is the same in both. |
| Manifest.ValidateFiles | src/evidence/manifest.rs:308-345 | Accepts exactly the strictly ascending lists of safe paths with 64-character lower-case hexadecimal digests. |
| Manifest.ValidateInterval | src/evidence/manifest.rs:280-306 | Accepts exactly an interval whose anchor and block count follow from its bounds. |
| Manifest.ValidateStructure | src/evidence/manifest.rs:231-252 | Accepts exactly the consistent manifests of the supported major schema version, read from the version text, in the order schema, identity, interval, files. |
| Manifest.OnlyMajorOne | src/evidence/manifest.rs:255-278 | Of versions whose leading component is a decimal number, exactly those of major version 1 can be accepted. |
| Manifest.BundleIdExact | src/evidence/manifest.rs:181-188 | A bundle's identity determines its network, anchor and end. |
| Validation.EntryFailureExact | src/evidence/validation.rs:126-155 | A listed file has no failure exactly when it is in place with its size and digest; otherwise the failure is an unsafe path, a missing file, or contents that are not the recorded ones, in that order. |
| Validation.ManifestDigestExact | src/evidence/validation.rs:84-107 | The detached digest is accepted exactly when there is none or it is readable and its first word is the manifest's digest; the failure says which, and the warning comes exactly without a digest file. |
| Validation.TamperedManifest | src/evidence/validation.rs:84-107 | A manifest with another digest, beside the digest of the one published, is refused as the first failure. |
| Text.FirstWordExact | src/evidence/validation.rs:98 | The first word of a text is what stands between leading white space and the next white space or the end. |
| Text.WhitespaceExact | src/evidence/validation.rs:98 | White space is the code points Unicode gives that property. |
| Validation.CollectUnlisted | src/evidence/validation.rs:171-190 | Exactly the files neither listed nor generated, in ascending order. |
| Validation.CleanExactlyWhenIntact | src/evidence/validation.rs:110-168 | There are no failures exactly when the bytes on disk are the ones described. |
| Validation.ValidateBundle | src/evidence/validation.rs:110-168 | One failure per offending file in manifest order after the manifest's own; none exactly when every listed file is in place and the detached digest, if any, states the manifest's; warnings name the missing digest and exactly the unlisted files. |
| Validation.LoadManifest | src/evidence/validation.rs:70-79 | Succeeds exactly when the manifest is there, decodes and is consistent, giving what it decodes to; the error says which of these fails first. |
| Soundness.LoadedIsConsistent | src/evidence/manifest.rs:231-345 | A manifest that loads has a supported version, an identity that is its network's and interval's, an anchor and a block count that follow from its bounds, and an ascending index without duplicates. |
| Validation.AliasIsUnlistedExactly | src/evidence/validation.rs:171-190 | A listed file in place is reported as unlisted exactly when no entry spells it as it is rendered and it is neither the manifest nor generated. |
| Validation.NormalFormIsListed | src/evidence/validation.rs:171-190 | A file listed under a path with one spelling is never reported as unlisted. |
| Validation.AliasExample | src/evidence/layout.rs:75-82 | A bundle listing its one file as `a//b` is intact, and that file is reported as unlisted. |
| Writer.WriteAtomically | src/capture/writer.rs:201-230 | On success the file is in place and its temporary gone; cut off at any step, everything is as before but for a temporary holding a prefix. |
| Writer.BundleWriter.Write | src/capture/writer.rs:131-143 | Writes, then records the path once with digest and size; an error leaves the records as they were. |
| Writer.BundleWriter.Adopt | src/capture/writer.rs:150-160 | Records a file already on disk from the bytes found there. |
| Writer.BundleWriter.Finish | src/capture/writer.rs:176-197 | Publishes the ascending index and then its digest, or nothing if the manifest is not consistent. |
| Writer.Open | src/capture/writer.rs:52-70 | Never creates into, or clears, a directory that holds something else; resuming changes nothing; overwriting leaves some part of the old bundle wherever it is cut off, and nothing once done. |
| Writer.WriteLeavesOthers | src/capture/writer.rs:201-230 | A write, finished or cut off, leaves every other file readable as before. |
| Writer.WriteKeepsFaithful | src/capture/writer.rs:131-170 | Whatever is written and wherever it stops, every recorded entry matches the disk and paths stay unique. |
| Writer.RecordsAreWellIndexed | src/capture/writer.rs:172-197 | What a writer records is always an index the reader accepts. |
| Writer.FinishedIsClean | src/capture/writer.rs:176-197 | After writes and adoptions and a finish, validation has no failure, no unlisted file and a digest. |
| Writer.WriteAndValidate | src/evidence/validation.rs:85-190 | From an empty directory, after any writes and a finish, validation reports nothing and the disk holds each path's last contents. |
| Capture.ValidateBlockHex | src/capture/fetch.rs:93-119 | Accepts exactly non-empty hexadecimal text of even length. |
| Capture.HexBytesExact | src/capture/fetch.rs:93-119 | The bytes it accepts are the digits and the letters a to f in either case. |
| Capture.FetchHeight | src/capture/fetch.rs:31-71 | Reuses or fetches both files of a height and settles it, succeeding, undisturbed, exactly when what it takes can be read; a resumable directory stays resumable wherever it stops. |
| Capture.WriteAnchor | src/capture/run.rs:180-206 | Reuses or fetches the anchor block, succeeding, undisturbed, exactly when that is block text, and rewrites its balances; a resumable directory stays resumable wherever it stops. |
| Capture.CaptureInterval | src/capture/run.rs:209-240 | Settles every height in order and returns the last one's record, succeeding, undisturbed, exactly when every height can be read. |
| Capture.EnsureNoBlocksOutside | src/capture/writer.rs:95-128 | Refuses exactly when some block file names a height outside the interval. |
| Capture.SoundHasNoForeignBlocks | src/capture/writer.rs:89-128 | Resuming the same request is never refused for foreign blocks. |
| Capture.BuildHeader | src/capture/run.rs:310-352 | The manifest is consistent and summarises the two records it was built from. |
| Capture.WriteKeepsResumable | src/capture/writer.rs:201-230 | A write a capture may do, finished or cut off at any step, keeps the directory resumable: no height's balances without its block, nothing wrong where a later attempt adopts, no temporary beside it. |
| Capture.Run | src/capture/run.rs:94-156 | One attempt in any mode, wherever it stops. A resumable directory stays so, after an overwrite exactly when no balances lost their block; whatever an overwrite found, it leaves a resumable directory or a part of it, with an earned manifest or a part of the old bundle. A manifest that was not there, or that lists what this attempt writes, describes only files in place. An undisturbed attempt finishes exactly when it may open the directory and can read everything it takes from it and from the node; a finished one holds the attempt's own contents in each of its own files and only block text and records that can be read back, lists every capture file with its encoding and nothing else, states the end hash the node confirmed when asked again, and made a complete capture exactly when it did not resume, or began in a sound directory. Nothing is touched before preflight passes, nor where foreign blocks are. |
| Capture.CaptureUntilDone | src/capture/run.rs:94-156 | A first attempt in any mode over any directory, then resumed ones, cut off anywhere. If the first leaves a resumable directory: always resumable, complete, clean and honestly summarised once finished, and finished once one attempt is undisturbed. If it leaves an unsound one, never complete. What it can leave is said for each mode. |
| Capture.CompleteIsUnique | src/capture/run.rs:94-240 | Two finished captures of a request have the same files, the same evidence bytes and no temporary file. |
| Capture.CompleteHolds | src/capture/fetch.rs:31-71 | What a finished capture holds: the anchor's and every height's block and record, each as the node serves it, and only bundle files. |
| Capture.ResumeUntilDone | src/capture/run.rs:94-156 | Resumed attempts until one finishes: from a resumable directory one undisturbed attempt is enough; from an unsound one no capture is ever complete; what is adopted or foreign is never changed. |
| Capture.CaptureAndFinish | src/capture/run.rs:112-156 | Everything an attempt does once its directory is open: what it leaves wherever it stops, that an undisturbed one finishes exactly when it can read what it takes, what a finished one wrote and listed, and that it is complete exactly when the directory it began in was sound. |
| Capture.CompleteIsResumable | src/capture/writer.rs:89-128 | A finished capture can be resumed, and none of its balances lacks its block. |
| Capture.EarnedEvidenceMatches | src/capture/run.rs:6-7 | A manifest earned in a directory whose evidence is this node's lists what the node serves, so resuming there keeps it. |
| Resuming.ResumableElsewhereExactly | src/capture/writer.rs:89-128 | What survives of a capture of any request from any node can be resumed by another exactly when no balances lost their block, no block is of an unwanted height, and whatever would be adopted is what would be fetched. |
| Resuming.ForeignBundleRefused | src/capture/writer.rs:95-128 | A finished capture with a block the request does not want is refused. |
| Resuming.StaleAnchor | src/capture/run.rs:189-196 | Another capture's anchor block alone is part of its bundle, is not refused, is never replaced, and no capture finished over it is complete. |
| Resuming.StaleAnchorFinishes | src/capture/run.rs:189-196 | An undisturbed resumed attempt over that directory does finish. |
| Resuming.RemnantResumableExactly | src/capture/writer.rs:261-295 | For the same request and node, what survives a deletion cut off in any order can be resumed exactly when no balances lost their block. |
| Resuming.OrphanedRecord | src/capture/writer.rs:291-294 | A finished capture with one block deleted is such a remnant, and cannot be resumed. |
| Resuming.OrphanGetsStuck | src/capture/fetch.rs:31-71 | A resumed attempt that rewrites such a height and is cut off in its second write leaves a temporary beside two finished files, and a directory that is not sound. |
| Resuming.StuckStays | src/capture/fetch.rs:31-71 | A directory with such a temporary is not sound, keeps it however often it is resumed, and never becomes a complete capture. |
| Resuming.StuckIsUnlisted | src/evidence/validation.rs:171-190 | Whatever earned manifest the directory has, validation reports that temporary as unlisted. |
| Capture.WriteKeepsListedExactly | src/capture/run.rs:6-7 | A write leaves an earned manifest earned exactly when it writes what the manifest lists for the file; a write cut off always does. |
| Resuming.StaleManifestExample | src/capture/run.rs:6-7 | A bundle whose manifest lists what it holds, and one write of a resumed attempt after which the manifest is still there and no longer true. |
| Resuming.RemnantEarnedExactly | src/capture/writer.rs:291-294 | After a deletion cut off, an earned manifest that is still there is true exactly when everything it lists is still there. |
| Resuming.HalfDeletedExample | src/capture/writer.rs:291-294 | A bundle whose one listed file is deleted before its manifest. |
| Archive.Walk | src/evidence/archive/pack.rs:136-168 | In any directory order, lists every regular file once, or fails exactly when some rendered path is unsafe. |
| Archive.Pack | src/evidence/archive/pack.rs:58-95 | Emits every regular file once, by ascending path, with its bytes. |
| Archive.PackingIsUnique | src/evidence/archive/pack.rs:129-134 | A tree has one packing, whatever order its directories are read in. |
| Extraction.Classify | src/evidence/archive/extract.rs:211-231 | Extracts regular content, refuses exactly links and unknown types, skips the rest. |
| Extraction.ArchivePathExact | src/evidence/archive/extract.rs:237-267 | The archive's path rule accepts exactly the paths the manifest's does. |
| Extraction.WritesConfined | src/evidence/archive/limits.rs:75-86 | However an accepted path is spelled, it is written below the destination, within the counted depth. |
| Extraction.CanCreateExact | src/evidence/archive/extract.rs:145-170 | A file can be created exactly when its path ends in a name and no file stands where a directory is needed, in either direction. |
| Extraction.ExtractionStaysTree | src/evidence/archive/extract.rs:72-194 | Whatever an archive holds, what has been extracted of it is a tree of files. |
| Extraction.WriteEntry | src/evidence/archive/extract.rs:145-194 | Copies at most one byte past the declaration; every failing step leaves the file untouched or a prefix in it. |
| Extraction.Extract | src/evidence/archive/extract.rs:38-142 | Succeeds exactly when every entry is taken, with exact count and byte total; otherwise stops at the first that is not, with the disk state that leaves. |
| Extraction.ExtractionStaysBounded | src/evidence/archive/limits.rs:42-86 | After any number of entries: plain names within the depth, no more files than allowed, no more bytes than allowed. |
| Extraction.StoppedStaysBounded | src/evidence/archive/extract.rs:72-194 | Refused or interrupted, the disk is still confined and at most one byte over the total. |
| Extraction.RefusalLeavesNothingExactly | src/evidence/archive/extract.rs:18-136 | A refusal leaves the disk as it was exactly when the entry does not lie about its size, or writes what was under its path already. |
| Extraction.PartialFileRemains | src/evidence/archive/extract.rs:124-136 | An archive that is refused with a partial file on disk. |
| Extraction.DuplicateDestroysAccepted | src/evidence/archive/extract.rs:160-194 | An archive whose refused entry replaces a file extracted from an accepted one. |
| Extraction.NoFileAboveAnother | src/evidence/archive/pack.rs:136-168 | In a tree no file's path continues another's, so packed entries never collide. |
| Extraction.ExtractUndoesPack | src/evidence/archive/pack.rs:58-168 | Extracting a packed tree succeeds exactly when its files fit the limits, and rebuilds exactly its regular files. |
| Scrub.ScrubUrlUserinfo | src/rpc/auth.rs:242-276 | The loop computes the text with the userinfo of every authority after a `://`, up to its last `@`, replaced. |
| Scrub.UserinfoIsReplaced | src/rpc/auth.rs:242-276 | After the first `://`, what stands before the last `@` of the authority is replaced, whatever it is, the authority ending at `/`, `?`, `#` or white space; the scan goes on behind it. |
| Scrub.HostIsKept | src/rpc/auth.rs:242-276 | An authority without `@` is kept. |
| Scrub.PlainTextIsKept | src/rpc/auth.rs:242-276 | Text without `://` is kept. |
| Scrub.PasswordIsReplaced | src/rpc/auth.rs:242-276 | A URL with a user name and a password. |
| Scrub.ScrubIsIdempotent | src/rpc/auth.rs:242-276 | Scrubbing twice is scrubbing once, and no scanned authority keeps userinfo but the marker. |
| Scrub.ScrubFixedExactly | src/rpc/auth.rs:242-276 | Text is unchanged exactly when every scanned authority is harmless already. |
| Scrub.FirstIsLastExactly | src/rpc/auth.rs:253-270 | Redacting up to the first `@` and up to the last agree exactly on authorities with at most one. |
| Scrub.FirstLeavesPassword | src/rpc/auth.rs:253-270 | A password containing an `@`, of which the first reading leaves part. |
| EndToEnd.CapturedVerdict | src/commands/reconcile.rs:148-192 | A captured bundle's verdict is that of its chain, boundary and balances alone. |
| EndToEnd.EndReachedExactly | src/reconcile/binding.rs:48-57 | The recorded end is reached exactly when the node wrote its hash in lower case, though binding forgives either. |
| EndToEnd.CapturedHashes | src/capture/run.rs:310-352 | The anchor and end hashes of a captured manifest are, up to case, those of the anchor block and of the last block. |
| EndToEnd.CaptureAndReconcile | src/main.rs:43-64 | Capture with a first attempt in any mode over any directory, resume as often as it takes, then load and reconcile what is on disk: whenever the first attempt left a resumable directory, exit 0 exactly when the directory has a verdict and chain, boundary and balances hold. |
| Reproduction.ReconciledOnce | src/commands/reconcile.rs:72-208 | One bundle has one reading and one reconciliation: ledgers, reports, warnings, linkage error, outcome and report. |
| Reproduction.ReportedOnce | src/commands/reconcile.rs:62-66 | One directory has one report. |
| Reproduction.RunVerify | src/main.rs:77-99 | Extracts, loads, reconciles and compares the report's hash: 0 exactly when the extracted evidence is certified and the hash is the one expected, if any; otherwise 1, or the error of the first stage that fails. |
| Reproduction.PublishAndVerify | src/commands/verify.rs:90-105 | Pack and verify elsewhere: the files are the directory's, a verdict is given exactly when the directory fits the limits and has one, and it is 0 exactly when the directory is certified and its report hashes as expected. |
| Reproduction.Reproduce | src/commands/verify.rs:84-105 | Verifying a packed directory against the hash of its own report gives a verdict exactly when reconciling the directory did, and the same one. |
| Capacity.PlanInterval | src/capture/plan.rs:43-66 | An interval is planned exactly when it is one and covers at most 49000 blocks. |
| Capacity.CaptureSize | src/evidence/layout.rs:13-42 | A finished capture holds two files a height and ten more, none deeper than two names. |
| Capacity.CapIsEnough | src/capture/plan.rs:17-22 | A finished capture of a planned interval can be extracted under the default limits exactly when its bytes are not too many. |
| Capacity.EntryLimitExact | src/evidence/archive/limits.rs:29-38 | The default entry limit admits exactly the captures of at most 49995 blocks. |

## Left out

- Decoding blocks and transactions, SHA-256, JSON and its canonical form, zstd and the tar byte format: foreign code, here function values with the facts a property needs stated in its `requires`. That covers turning the manifest's bytes into data and back.
- HTTP transport, retries, credentials, cookie discovery and preflight questions to the node: replaced by a function from height to answer and a preflight result; only `scrub_url_userinfo` of `src/rpc/auth.rs` is modelled.
- Argument parsing, terminal and Markdown rendering, `inspect`, report files on disk and the report's canonical bytes: presentation and I/O around the modelled result. The report hash is a function of the report. An output directory that cannot be written is therefore no outcome of `RunReconcile`.
- Timestamps, tool and build versions, advisories and capture environment contents: never inputs to a verdict; the environment file is a constant of an attempt.
- The preflight guards of `src/capture/guard.rs`: they ask the node and the command line, touch no bundle, and only decide whether an attempt starts; their combined answer is the attempt's preflight result.
- `unlisted_ids`, `total_size_bytes` and the enum-to-string tables: nothing a verdict, an exit code or a file's contents depends on reads them.
- Empty directories, permissions, non-UTF-8 names and symlink races: a bundle directory is a flat map of regular files, so a directory standing where the writer needs a file is not a state; in the packing and extraction model collisions of files and directories are.
- The re-projection of stored pool responses through JSON (`src/capture/fetch.rs:31-86`): a stored record is taken to read back as what was served, so a capture's bytes are compared as written.
- Interval.ReconcileInterval: says which error is reported only for slices short enough to exist (`ISIZE_MAX` elements); whether there is one is stated for all lengths.
