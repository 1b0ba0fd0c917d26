/** What a directory left by an earlier attempt, or by part of an overwrite, can still become. */
module Resuming {
  import opened Wrappers
  import opened Layout
  import opened Manifest
  import opened Validation
  import opened Writer
  import opened Capture

  // ---- Which directories can be resumed ----

  /** Two captures would fetch the same for every file of the directory that a later attempt adopts. */
  ghost predicate AdoptsAlike(files: Files, was: Request, other: Node, request: Request, node: Node) {
    && (Present(files, AnchorBlock) ==> other.rawHex(was.interval.anchor) == node.rawHex(request.interval.anchor))
    && forall height: u32 | Present(files, Block(height)) && Present(files, BlockPools(height)) ::
         other.rawHex(height) == node.rawHex(height) && other.poolState(height) == node.poolState(height)
  }

  lemma KnownElsewhere(files: Files, was: Request, request: Request)
    requires forall key | key in files :: Known(key, was.interval)
    requires EnsureNoBlocksOutside(files, request.interval).Ok?
    ensures forall key | key in files :: Known(key, request.interval)
  {
    hide BundleFile.Path, BlockHeightOf;
    forall key | key in files
      ensures Known(key, request.interval)
    {
      var file: BundleFile :| Wanted(file, was.interval)
                               && (key == file.Path() || key == file.Path() + PARTIAL_SUFFIX);
      KnownHeights(file);
    }
  }

  /** Whatever a capture left, of any request and any node, and whatever part of it survives a deletion cut
      off in any order: another can resume it exactly when no record lost its block, no block is of a height
      the other does not want, and the two would fetch the same wherever it adopts. */
  lemma ResumableElsewhereExactly(
    files: Files, remnant: Files, was: Request, other: Node, request: Request, node: Node)
    requires Sound(files, was, other) && RemnantOf(files, remnant)
    ensures Sound(remnant, request, node) <==>
              && EnsureNoBlocksOutside(remnant, request.interval).Ok?
              && AdoptsAlike(remnant, was, other, request, node)
    ensures Resumable(remnant, request, node) <==>
              && NoOrphans(remnant)
              && EnsureNoBlocksOutside(remnant, request.interval).Ok?
              && AdoptsAlike(remnant, was, other, request, node)
  {
    RemnantIsSound(files, remnant, was, other);
    SoundHasNoForeignBlocks(remnant, request, node);
    if EnsureNoBlocksOutside(remnant, request.interval).Ok? {
      KnownElsewhere(remnant, was, request);
    }
    hide BundleFile.Path, Known, EnsureNoBlocksOutside;
    if Sound(remnant, request, node) {
      forall file: BundleFile | Adoptable(remnant, file)
        ensures Content(file, was, other) == Content(file, request, node)
      {
      }
      assert Present(remnant, AnchorBlock) ==> Adoptable(remnant, AnchorBlock);
      forall height: u32 | Present(remnant, Block(height)) && Present(remnant, BlockPools(height))
        ensures other.rawHex(height) == node.rawHex(height) && other.poolState(height) == node.poolState(height)
      {
        assert Adoptable(remnant, Block(height)) && Adoptable(remnant, BlockPools(height));
      }
    }
  }

  /** For the same request and node only the first of these is left. */
  lemma RemnantResumableExactly(files: Files, remnant: Files, request: Request, node: Node)
    requires Sound(files, request, node) && RemnantOf(files, remnant)
    ensures Resumable(remnant, request, node) <==> NoOrphans(remnant)
  {
    RemnantIsSound(files, remnant, request, node);
  }

  // ---- Directories that cannot ----

  /** A bundle with a block the request does not want is refused as it stands. */
  lemma ForeignBundleRefused(files: Files, was: Request, node: Node, request: Request, height: u32)
    requires Complete(files, was, node)
    requires was.interval.Contains(height) && !request.interval.Contains(height)
    ensures EnsureNoBlocksOutside(files, request.interval).Err?
  {
    hide BundleFile.Path, BlockHeightOf;
    KnownHeights(Block(height));
    assert Wanted(Block(height), was.interval);
    assert Block(height).Path() in files;
  }

  /** What an overwrite cut off can leave of a bundle captured for another anchor, or resuming with other
      bounds can find: the other anchor's block and nothing else. No block is foreign and no record orphaned,
      so the attempt goes ahead, and no capture it finishes is complete. */
  lemma StaleAnchor(files: Files, was: Request, request: Request, node: Node)
    requires Complete(files, was, node)
    requires node.rawHex(was.interval.anchor) != node.rawHex(request.interval.anchor)
    ensures var remnant := map[AnchorBlock.Path() := node.rawHex(was.interval.anchor)];
            && RemnantOf(files, remnant) && Resumable(remnant, was, node)
            && NoOrphans(remnant) && EnsureNoBlocksOutside(remnant, request.interval).Ok?
            && !Sound(remnant, request, node)
            && forall after | Keeps(remnant, after, request.interval) ::
                 && Present(after, AnchorBlock)
                 && after[AnchorBlock.Path()] == node.rawHex(was.interval.anchor)
                 && !Complete(after, request, node)
  {
    hide BundleFile.Path, BlockHeightOf, Known, Complete;
    var remnant := map[AnchorBlock.Path() := node.rawHex(was.interval.anchor)];
    CompletesWith(files, was, node, AnchorBlock);
    FinishedIsSound(files, was, node);
    forall file: BundleFile
      ensures Present(remnant, file) <==> file == AnchorBlock
    {
      PathsDistinct(file, AnchorBlock);
    }
    RemnantResumableExactly(files, remnant, was, node);
    KnownHeights(AnchorBlock);
    assert Adoptable(remnant, AnchorBlock);
    forall after | Keeps(remnant, after, request.interval)
      ensures Present(after, AnchorBlock) && after[AnchorBlock.Path()] == node.rawHex(was.interval.anchor)
      ensures !Complete(after, request, node)
    {
      assert KeepsFile(remnant, after, AnchorBlock);
      CompleteOnlyFromSound(remnant, after, request, node);
    }
  }

  /** And an attempt over that directory does finish, as long as nothing disturbs it. */
  lemma StaleAnchorFinishes(was: Request, request: Request, node: Node, session: Session, codec: Codec)
    requires ValidateBlockHex(node.rawHex(was.interval.anchor)).Ok?
    requires Serves(node, request, codec) && Favourable(session, node, request)
    ensures var left := map[AnchorBlock.Path() := node.rawHex(was.interval.anchor)];
            WouldFinish(left, Resume, session, request, node, codec)
  {
    hide BundleFile.Path, BlockHeightOf, ParsePoolState, ValidateBlockHex;
    var files := map[AnchorBlock.Path() := node.rawHex(was.interval.anchor)];
    forall file: BundleFile
      ensures Present(files, file) <==> file == AnchorBlock
    {
      PathsDistinct(file, AnchorBlock);
    }
    KnownHeights(AnchorBlock);
    hide EnsureNoBlocksOutside;
    assert forall file: BundleFile | IsEvidence(file) && file != AnchorBlock ::
        Taken(files, file, request, node) == Content(file, request, node);
    assert Answers(node, request.interval.anchor, codec) && Answers(node, request.interval.end, codec);
    forall height: u32 | request.interval.Contains(height)
      ensures AcceptsHeight(files, height, request, node, codec)
    {
      assert Answers(node, height, codec);
    }
  }

  lemma CompletesWith(files: Files, request: Request, node: Node, file: BundleFile)
    requires Complete(files, request, node) && Wanted(file, request.interval) && IsEvidence(file)
    ensures Present(files, file) && files[file.Path()] == Content(file, request, node)
  {
    hide BundleFile.Path;
  }

  /** The condition fails of a real remnant: a finished capture with one block already deleted. */
  lemma OrphanedRecord(files: Files, request: Request, node: Node, height: u32)
    requires Complete(files, request, node) && request.interval.Contains(height)
    ensures var remnant := files - {Block(height).Path()};
            RemnantOf(files, remnant) && Present(remnant, BlockPools(height)) && !Resumable(remnant, request, node)
  {
    hide BundleFile.Path;
    PathsDistinct(Block(height), BlockPools(height));
    assert Wanted(BlockPools(height), request.interval);
  }

  /** A temporary file beside a finished record of a height whose block is there too: a later attempt adopts
      both, and nothing removes it. */
  ghost predicate Stuck(files: Files, height: u32) {
    Present(files, Block(height)) && Present(files, BlockPools(height)) && Pending(files, BlockPools(height))
  }

  /** How an orphaned record goes wrong: a resumed attempt writes both files of the height, and one cut off
      while writing the second leaves a temporary file between two files the next attempt adopts. */
  lemma OrphanGetsStuck(remnant: Files, request: Request, node: Node, height: u32)
    requires Present(remnant, BlockPools(height)) && !Present(remnant, Block(height))
    ensures var mid := WrittenTo(remnant, Block(height).Path(), node.rawHex(height));
            exists cut ::
              && Interrupted(mid, cut, BlockPools(height).Path(), node.poolState(height))
              && Stuck(cut, height) && !Sound(cut, request, node)
  {
    var mid := WrittenTo(remnant, Block(height).Path(), node.rawHex(height));
    var record := BlockPools(height);
    FileKeys(record);
    AllPathsDistinct(record);
    hide BundleFile.Path, WrittenTo, Rendered, PartialOf, Sound;
    WriteView(remnant, Block(height), node.rawHex(height));
    var none := node.poolState(height)[..0];
    var cut := mid[PartialOf(record.Path()) := none];
    assert Present(mid, record) && Present(mid, Block(height));
    assert Present(cut, record) && Present(cut, Block(height)) && Pending(cut, record);
    assert Interrupted(mid, cut, record.Path(), node.poolState(height)) && Stuck(cut, height);
    StuckStays(cut, request, node, height);
  }

  /** A directory in that state is not sound, and stays in it however often it is resumed. */
  lemma StuckStays(files: Files, request: Request, node: Node, height: u32)
    requires Stuck(files, height)
    ensures !Sound(files, request, node)
    ensures forall after | Keeps(files, after, request.interval) ::
              Stuck(after, height) && !Complete(after, request, node)
  {
    hide BundleFile.Path, Known, Complete;
    assert Adoptable(files, BlockPools(height));
    forall after | Keeps(files, after, request.interval)
      ensures Stuck(after, height) && !Complete(after, request, node)
    {
      assert KeepsFile(files, after, BlockPools(height));
      CompleteOnlyFromSound(files, after, request, node);
    }
  }

  /** The temporary file it keeps is reported as unlisted, whatever earned manifest the directory has. */
  lemma StuckIsUnlisted(files: Files, data: ManifestData, codec: Codec, height: u32)
    requires Stuck(files, height) && Listed(files, data, codec)
    ensures BlockPools(height).Path() + PARTIAL_SUFFIX in UnlistedPaths(files, data)
  {
    hide BundleFile.Path;
    var temporary := BlockPools(height).Path() + PARTIAL_SUFFIX;
    assert temporary[|temporary| - 1] == 'l';
    assert MANIFEST[|MANIFEST| - 1] != 'l';
    assert forall path | path in GENERATED_PATHS :: path[|path| - 1] != 'l';
    hide MANIFEST, GENERATED_PATHS, InPlace, PARTIAL_SUFFIX;
    forall i | 0 <= i < |data.files|
      ensures data.files[i].path != temporary
    {
      assert Writable(data.files[i].path);
    }
  }

  // ---- A manifest left behind ----

  function OneFile(file: BundleFile, header: Header, codec: Codec): (Files, ManifestData) {
    var data := ManifestData(header, [EntryOf(file.Path(), [1], Json, codec)]);
    (map[MANIFEST := codec.manifestJson(data), file.Path() := [1]], data)
  }

  lemma OneFileIsListed(file: BundleFile, header: Header, codec: Codec)
    requires codec.ManifestRoundTrips() && !IsManifest(file)
    ensures var (files, data) := OneFile(file, header, codec);
            Listed(files, data, codec)
  {
    var (files, data) := OneFile(file, header, codec);
    FileKeys(file);
    ManifestKeys();
    AllPathsDistinct(file);
    hide BundleFile.Path, MANIFEST, MANIFEST_HASH, Writable, Safe, FileAt;
    assert file.Path() != MANIFEST && file.Path() != MANIFEST_HASH;
    assert codec.loadManifest(codec.manifestJson(data)) == Ok(data);
    FoundOnDisk(files, file);
  }

  /** A bundle whose manifest lists the one file it holds, and the first write of a resumed attempt whose node
      describes itself at greater length: the manifest is still there, and no longer true. */
  lemma StaleManifestExample(header: Header, codec: Codec)
    requires codec.ManifestRoundTrips()
    ensures var (files, data) := OneFile(NodeInfo, header, codec);
            var after := WrittenTo(files, NodeInfo.Path(), [1, 2]);
            && Listed(files, data, codec) && ManifestIsEarned(files, codec)
            && MANIFEST in after && !ManifestIsEarned(after, codec)
  {
    hide BundleFile.Path, MANIFEST, Listed, ManifestIsEarned, WrittenTo;
    var (files, data) := OneFile(NodeInfo, header, codec);
    OneFileIsListed(NodeInfo, header, codec);
    EarnedExactly(files, codec);
    WriteKeepsListedExactly(files, NodeInfo, [1, 2], data, codec);
    assert data.files[0].path == NodeInfo.Path() && !EntryMatches(data.files[0], [1, 2], codec);
  }

  /** An overwrite cut off while deleting: a manifest that was earned and is still there stays earned exactly
      when everything it lists is still there. */
  lemma RemnantEarnedExactly(files: Files, remnant: Files, data: ManifestData, codec: Codec)
    requires Listed(files, data, codec) && RemnantOf(files, remnant) && MANIFEST in remnant
    ensures ManifestIsEarned(remnant, codec) <==>
            forall i | 0 <= i < |data.files| :: data.files[i].path in remnant
  {
    hide MANIFEST, MANIFEST_HASH, Writable;
    forall i | 0 <= i < |data.files|
      ensures InPlace(remnant, data.files[i], codec) <==> data.files[i].path in remnant
    {
      WritableIsRendered(data.files[i].path);
    }
  }

  lemma WritableIsRendered(path: string)
    requires Writable(path)
    ensures Rendered(path) == path
  {
    RenderedIsNormal(path);
  }

  /** The one file deleted before the manifest that lists it. */
  lemma HalfDeletedExample(header: Header, codec: Codec)
    requires codec.ManifestRoundTrips()
    ensures var (files, data) := OneFile(NodeInfo, header, codec);
            var remnant := files - {NodeInfo.Path()};
            && Listed(files, data, codec) && RemnantOf(files, remnant)
            && MANIFEST in remnant && !ManifestIsEarned(remnant, codec)
  {
    hide BundleFile.Path, Listed, ManifestIsEarned;
    var (files, data) := OneFile(NodeInfo, header, codec);
    ManifestKeys();
    AllPathsDistinct(NodeInfo);
    hide MANIFEST, MANIFEST_HASH;
    OneFileIsListed(NodeInfo, header, codec);
    RemnantEarnedExactly(files, files - {NodeInfo.Path()}, data, codec);
    assert data.files[0].path == NodeInfo.Path();
  }
}
