/** From a node to a verdict: what reconciling a captured bundle can find. */
module EndToEnd {
  import opened Wrappers
  import opened Layout
  import opened Manifest
  import opened Validation
  import opened Writer
  import opened Capture
  import opened Reconcile
  import opened Soundness

  /** A bundle as a finished capture of a request leaves it. */
  ghost predicate Captured(bundle: Bundle, request: Request, node: Node) {
    && request.interval.Valid()
    && Complete(bundle.files, request, node)
    && DescribesCapture(bundle.data.header, request, node, bundle.codec)
    && Clean(bundle.files, bundle.data, bundle.codec)
  }

  lemma CapturedFile(files: Files, request: Request, node: Node, file: BundleFile)
    requires Complete(files, request, node) && Wanted(file, request.interval) && IsEvidence(file)
    ensures file.Path() in files && files[file.Path()] == Content(file, request, node)
  {
    hide BundleFile.Path;
  }

  /** The records reconciliation reads at the two ends are the ones the header summarises. */
  lemma CapturedEnds(bundle: Bundle, request: Request, node: Node)
    requires Captured(bundle, request, node)
    ensures HasAnchorBlock(bundle)
    ensures bundle.Start() == request.interval.start && bundle.End() == request.interval.end
    ensures bundle.data.header.interval.anchor == request.interval.anchor && bundle.Network() == request.network
    ensures var anchor, end :=
              ReadPoolState(bundle, AnchorPools), ReadPoolState(bundle, BlockPools(request.interval.end));
            anchor.Ok? && end.Ok? && Summarises(bundle.data.header, request, anchor.value, end.value)
  {
    hide BundleFile.Path, Clean, Complete;
    CapturedFile(bundle.files, request, node, AnchorBlock);
    CapturedFile(bundle.files, request, node, AnchorPools);
    CapturedFile(bundle.files, request, node, BlockPools(request.interval.end));
  }

  /** A captured bundle cannot fail on its own account: the summary, the declared activation, the anchor
      block and the file list are right by construction, so its verdict is the chain's and the pools'. */
  lemma CapturedVerdict(bundle: Bundle, request: Request, node: Node)
    requires Captured(bundle, request, node) && EvidenceUsable(bundle)
    ensures Certified(bundle) <==>
            && ChainHolds(bundle) && PoolStartsEmpty(bundle) && BalancesHold(bundle)
            && forall i | 0 <= i < |Chain(bundle)| :: RuleHolds(bundle, Chain(bundle)[i], bundle.Start() + i)
    ensures UnlistedPaths(bundle.files, bundle.data) == {}
  {
    hide BundleFile.Path, Captured, EvidenceUsable, ChainHolds, PoolStartsEmpty, BalancesHold, RuleHolds, Chain;
    hide ReadPoolState, HeightUsable, UnlistedPaths, HasAnchorBlock;
    CapturedIsClean(bundle, request, node);
    EvidenceParts(bundle);
    CapturedEnds(bundle, request, node);
    EndUsable(bundle);
  }

  lemma CapturedIsClean(bundle: Bundle, request: Request, node: Node)
    requires Captured(bundle, request, node)
    ensures UnlistedPaths(bundle.files, bundle.data) == {}
    ensures bundle.data.header.activationHeight == bundle.Network().ActivationHeight()
  {
    hide Complete, Intact, UnlistedPaths, ParsePoolState;
  }

  lemma EndUsable(bundle: Bundle)
    requires EvidenceUsable(bundle)
    ensures HeightUsable(bundle, bundle.End())
    ensures StateAt(bundle, bundle.End()) == ReadPoolState(bundle, BlockPools(bundle.End())).value.pools
    ensures Describes(
              ReadPoolState(bundle, BlockPools(bundle.End())).value, bundle.End(), BlockAt(bundle, bundle.End()).hash)
    ensures |Chain(bundle)| > 0 && Chain(bundle)[|Chain(bundle)| - 1] == BlockAt(bundle, bundle.End())
  {
    ChainAt(bundle, bundle.End());
    ChainFits(bundle);
    hide BundleFile.Path, EvidenceUsable, Chain, ReadPoolState, Describes, RawAt, BlockUsable;
  }

  /** Binding a record to its block forgives upper case; linking the last block to the recorded end hash
      does not. So a captured chain reaches its recorded end exactly when the node wrote that hash in
      lower case, and one written in upper case is bound without complaint and then fails the linkage
      check. */
  lemma EndReachedExactly(bundle: Bundle, request: Request, node: Node)
    requires Captured(bundle, request, node) && EvidenceUsable(bundle)
    requires forall c | c in BlockAt(bundle, bundle.End()).hash :: !('A' <= c <= 'Z')
    ensures EqualIgnoringCase(bundle.data.header.endHash, BlockAt(bundle, bundle.End()).hash)
    ensures BlockAt(bundle, bundle.End()).hash == bundle.data.header.endHash <==>
            forall c | c in bundle.data.header.endHash :: !('A' <= c <= 'Z')
  {
    EvidenceParts(bundle);
    CapturedEnds(bundle, request, node);
    EndUsable(bundle);
    SameInLowerCase(bundle.data.header.endHash, BlockAt(bundle, bundle.End()).hash);
  }

  /** The hashes a captured manifest states are those of the anchor and of the last block, up to case. */
  lemma CapturedHashes(bundle: Bundle, request: Request, node: Node)
    requires Captured(bundle, request, node) && EvidenceUsable(bundle)
    ensures EqualIgnoringCase(bundle.data.header.anchorHash, AnchorHash(bundle))
    ensures EqualIgnoringCase(bundle.data.header.endHash, BlockAt(bundle, bundle.End()).hash)
  {
    EvidenceParts(bundle);
    CapturedEnds(bundle, request, node);
    EndUsable(bundle);
    AnchorHashComputed(bundle);
    hide BundleFile.Path, Captured, EvidenceUsable, ReadPoolState, HeightUsable, EqualIgnoringCase, AnchorHash;
    assert Describes(
        ReadPoolState(bundle, AnchorPools).value, bundle.data.header.interval.anchor,
        RawAt(bundle, AnchorBlock).value.hash);
  }

  lemma SameInLowerCase(written: string, computed: string)
    requires EqualIgnoringCase(written, computed)
    requires forall c | c in computed :: !('A' <= c <= 'Z')
    ensures computed == written <==> forall c | c in written :: !('A' <= c <= 'Z')
  {
    if forall c | c in written :: !('A' <= c <= 'Z') {
      forall i | 0 <= i < |written|
        ensures written[i] == computed[i]
      {
        assert written[i] in written && computed[i] in computed;
        assert AsciiLower(written[i]) == AsciiLower(computed[i]);
      }
    }
  }

  /** Captures with a first attempt in any mode and as many resumed ones as it takes, and reconciles what is then
      on disk. The capture is complete whenever the first attempt left a resumable directory, and then the exit
      code is 0 exactly when the directory has a verdict and the captured chain and pools hold. */
  method CaptureAndReconcile(
    disk: Disk, codec: Codec, decoder: Decoder, node: Node, request: Request, mode: OutputMode, first: Session,
    later: seq<Session>)
    returns (r: Result<nat>, left: Files)
    requires request.interval.Valid()
    requires codec.TextRoundTrips() && codec.ManifestRoundTrips()
    modifies disk
    ensures mode.Overwrite? ==> Resumable(left, request, node) || RemnantOf(old(disk.files), left)
    ensures !mode.Overwrite? && old(Resumable(disk.files, request, node)) ==> Resumable(left, request, node)
    ensures mode.Create? ==> Resumable(left, request, node) || left == old(disk.files)
    ensures r.Ok? && Resumable(left, request, node) ==>
              && Loads(disk.files, codec)
              && var bundle := BundleIn(disk.files, codec, decoder);
                 && Captured(bundle, request, node)
                 && (r.value == 0 <==>
                       && HasVerdict(disk.files, codec, decoder)
                       && ChainHolds(bundle) && PoolStartsEmpty(bundle) && BalancesHold(bundle)
                       && forall i | 0 <= i < |Chain(bundle)| ::
                             RuleHolds(bundle, Chain(bundle)[i], bundle.Start() + i))
  {
    hide Complete, DescribesCapture, Clean, ValidStructure, Sound, EvidenceUsable, FiguresFit, Certified, Chain;
    hide RuleHolds, ChainHolds, PoolStartsEmpty, BalancesHold, NoOrphans, MANIFEST, MayOpen, Problem, Keeps;
    hide RemnantOf, Serves, Favourable, HoldsSession, CommandError, ExitCodeOf;
    var data;
    data, left := CaptureUntilDone(disk, codec, node, request, mode, first, later);
    if data.Err? {
      return Err(data.error), left;
    }
    assert codec.loadManifest(codec.manifestJson(data.value)) == Ok(data.value);
    var exitCode := RunReconcile(disk.files, codec, decoder);
    if Resumable(left, request, node) {
      ghost var bundle := BundleIn(disk.files, codec, decoder);
      if EvidenceUsable(bundle) {
        CapturedVerdict(bundle, request, node);
      }
    }
    r := Ok(exitCode);
  }
}
