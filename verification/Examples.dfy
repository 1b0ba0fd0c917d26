/** Smallest bundles, on which the verdict can go either way. */
module Examples {
  import opened Wrappers
  import opened Money
  import opened Ledger
  import opened Interval
  import opened Layout
  import opened Manifest
  import opened Validation
  import opened Writer
  import opened Capture
  import opened Resuming
  import opened Archive
  import opened Reconcile
  import opened Soundness
  import opened EndToEnd

  const ANCHOR := RawBlock(0, "a", "", [])
  const BLOCK := RawBlock(1, "b", "a", [])

  function EmptyPools(height: u32, hash: string): CapturedBlockState {
    CapturedBlockState(height, hash, ReportedPoolState(height, map[Orchard := 0, Ironwood := 0], map[]))
  }

  function Zeros(): Digest {
    seq(64, _ => '0')
  }

  /** Intact evidence of an anchor and one empty block, whose record writes the block's hash as `recorded`. */
  ghost predicate Small(bundle: Bundle, recorded: string) {
    && Intact(bundle.files, bundle.data, bundle.codec)
    && HasAnchorBlock(bundle)
    && RawAt(bundle, AnchorBlock) == Some(ANCHOR) && RawAt(bundle, Block(1)) == Some(BLOCK)
    && ReadPoolState(bundle, AnchorPools) == Ok(EmptyPools(0, "a"))
    && ReadPoolState(bundle, BlockPools(1)) == Ok(EmptyPools(1, recorded))
    && EqualIgnoringCase(recorded, "b")
    && var header := bundle.data.header;
       && header.network == Mainnet && header.activationHeight == Mainnet.ActivationHeight()
       && header.interval == ManifestInterval(0, 1, 1, 1)
       && header.anchorOrchard == header.anchorIronwood == header.endOrchard == header.endIronwood == 0
  }

  lemma SmallUsable(bundle: Bundle, recorded: string)
    requires Small(bundle, recorded)
    ensures EvidenceUsable(bundle) && HeightUsable(bundle, 1)
    ensures Chain(bundle) == [BLOCK]
    ensures StateAt(bundle, 1) == EmptyPools(1, recorded).pools
    ensures forall pool: Pool :: Movements(Chain(bundle), pool) == [0]
  {
    hide BundleFile.Path, RawAt, ReadPoolState, Intact;
    forall pool: Pool
      ensures BLOCK.Movement(pool) == 0 && PrefixesFit(BLOCK.Movements(pool))
    {
      assert BLOCK.Movements(pool) == [];
    }
    assert HeightUsable(bundle, 1);
    assert AnchorUsable(bundle);
    assert Chain(bundle)[0] == BlockAt(bundle, 1);
  }

  lemma SmallFits(bundle: Bundle, recorded: string)
    requires Small(bundle, recorded)
    ensures EvidenceUsable(bundle) && FiguresFit(bundle)
  {
    SmallUsable(bundle, recorded);
    hide BundleFile.Path, RawAt, ReadPoolState, EvidenceUsable, Chain, HeightUsable, StateAt, Intact;
    assert SumTo([0], 1) == SumTo([0], 0) + 0;
    assert Leaving([0]) == [0] && Entering([0]) == [0];
  }

  lemma SmallRules(bundle: Bundle, recorded: string)
    requires Small(bundle, recorded)
    ensures EvidenceUsable(bundle) && SummaryHolds(bundle) && BoundaryHolds(bundle)
  {
    SmallUsable(bundle, recorded);
    hide BundleFile.Path, RawAt, ReadPoolState, EvidenceUsable, Chain, HeightUsable, StateAt, Intact;
    assert Chain(bundle)[0].Movement(Ironwood) == Movements(Chain(bundle), Ironwood)[0];
  }

  lemma SmallBalances(bundle: Bundle, recorded: string)
    requires Small(bundle, recorded)
    ensures EvidenceUsable(bundle) && BalancesHold(bundle)
  {
    SmallUsable(bundle, recorded);
    hide BundleFile.Path, RawAt, ReadPoolState, EvidenceUsable, Chain, HeightUsable, StateAt, Intact;
    assert SumTo([0], 1) == SumTo([0], 0) + 0;
    assert Chain(bundle)[0].Movement(Ironwood) == Movements(Chain(bundle), Ironwood)[0];
    assert Chain(bundle)[0].Movement(Orchard) == Movements(Chain(bundle), Orchard)[0];
    assert PoolAgrees(bundle, Orchard, 0) && PoolAgrees(bundle, Ironwood, 0);
  }

  lemma SmallChain(bundle: Bundle, recorded: string)
    requires Small(bundle, recorded)
    ensures EvidenceUsable(bundle)
    ensures ChainHolds(bundle) <==> bundle.data.header.endHash == "b"
  {
    SmallUsable(bundle, recorded);
    hide BundleFile.Path, RawAt, ReadPoolState, EvidenceUsable, Chain, HeightUsable, StateAt, Intact;
  }

  /** Such a bundle is certified exactly when its manifest states the block's own hash. */
  lemma SmallCertified(bundle: Bundle, recorded: string)
    requires Small(bundle, recorded)
    ensures EvidenceUsable(bundle) && FiguresFit(bundle)
    ensures Certified(bundle) <==> bundle.data.header.endHash == "b"
  {
    SmallFits(bundle, recorded);
    SmallRules(bundle, recorded);
    SmallBalances(bundle, recorded);
    SmallChain(bundle, recorded);
    hide EvidenceUsable, SummaryHolds, BoundaryHolds, BalancesHold, ChainHolds, FiguresFit, RawAt;
    hide ReadPoolState, Intact;
    hide BundleFile.Path;
  }

  // ---- A bundle that lists nothing ----

  function Decode(text: string, network: Network): Option<RawBlock> {
    Some(if text == "a" then ANCHOR else BLOCK)
  }

  function NoManifest(contents: Bytes): Result<ManifestData> {
    Err(ManifestInvalid)
  }

  /** An anchor and one empty block; `endHash` is what the manifest claims the block's hash to be. */
  function OneBlock(endHash: string): Bundle {
    var header := Header(
      SCHEMA_VERSION, BundleId(Mainnet, 0, 1), Mainnet, Mainnet.ActivationHeight(), ManifestInterval(0, 1, 1, 1),
      "a", 0, 0, endHash, 0, 0);
    Bundle(
      map[AnchorBlock.Path() := [0], AnchorPools.Path() := [0], Block(1).Path() := [1], BlockPools(1).Path() := [1]],
      ManifestData(header, []),
      Codec(_ => Zeros(), _ => [], NoManifest, _ => Zeros(), _ => [],
            (contents: Bytes) => Some(if contents == [0] then "a" else "b"),
            (contents: Bytes) => Ok(if contents == [0] then EmptyPools(0, "a") else EmptyPools(1, "b"))),
      Decoder(Decode, (_, _) => 0))
  }

  lemma OneBlockFiles(endHash: string)
    ensures var files := OneBlock(endHash).files;
            && AnchorBlock.Path() in files && files[AnchorBlock.Path()] == [0]
            && AnchorPools.Path() in files && files[AnchorPools.Path()] == [0]
            && Block(1).Path() in files && files[Block(1).Path()] == [1]
            && BlockPools(1).Path() in files && files[BlockPools(1).Path()] == [1]
  {
    hide BundleFile.Path, BundleId;
    PathsDistinct(AnchorBlock, AnchorPools);
    PathsDistinct(AnchorBlock, Block(1));
    PathsDistinct(AnchorBlock, BlockPools(1));
    PathsDistinct(AnchorPools, Block(1));
    PathsDistinct(AnchorPools, BlockPools(1));
    PathsDistinct(Block(1), BlockPools(1));
  }

  lemma OneBlockHasNoDigest(endHash: string)
    ensures MANIFEST_HASH !in OneBlock(endHash).files
  {
    assert ManifestDigest.Path() == MANIFEST_HASH;
    hide BundleFile.Path, MANIFEST_HASH, BundleId;
    PathsDistinct(ManifestDigest, AnchorBlock);
    PathsDistinct(ManifestDigest, AnchorPools);
    PathsDistinct(ManifestDigest, Block(1));
    PathsDistinct(ManifestDigest, BlockPools(1));
  }

  lemma OneBlockIsSmall(endHash: string)
    ensures Small(OneBlock(endHash), "b")
  {
    OneBlockFiles(endHash);
    OneBlockHasNoDigest(endHash);
    hide BundleFile.Path, MANIFEST_HASH, BundleId, EmptyPools;
  }

  /** The claim is neither empty nor automatic: this bundle is usable, and certified exactly when its
      manifest states the block's own hash. */
  lemma OneBlockCertified(endHash: string)
    ensures EvidenceUsable(OneBlock(endHash)) && FiguresFit(OneBlock(endHash))
    ensures Certified(OneBlock(endHash)) <==> endHash == "b"
  {
    hide OneBlock, EvidenceUsable, FiguresFit, Certified, Small;
    OneBlockIsSmall(endHash);
    SmallCertified(OneBlock(endHash), "b");
    assert OneBlock(endHash).data.header.endHash == endHash by {
      OneBlockEnds(endHash);
    }
  }

  lemma OneBlockEnds(endHash: string)
    ensures OneBlock(endHash).data.header.endHash == endHash
  {
  }

  // ---- A captured bundle ----

  /** Text as three bytes a character after a leading zero, so that block hex is never mistaken for it. */
  function Encode(text: string): Bytes {
    if text == "" then []
    else
      var code := text[0] as int;
      [code / 0x10000, code / 0x100 % 0x100, code % 0x100] + Encode(text[1..])
  }

  function DecodeText(contents: Bytes): Option<string> {
    if contents == [] then Some("")
    else if |contents| < 3 then None
    else
      var code := (contents[0] as int) * 0x10000 + (contents[1] as int) * 0x100 + (contents[2] as int);
      var rest := DecodeText(contents[3..]);
      if rest.None? || !(code < 0xD800 || 0xE000 <= code < 0x11_0000) then None
      else Some([code as char] + rest.value)
  }

  lemma CodeSplits(code: nat)
    requires code < 0x11_0000
    ensures code / 0x10000 < 0x100
    ensures code / 0x10000 * 0x10000 + code / 0x100 % 0x100 * 0x100 + code % 0x100 == code
  {
    assert code == code / 0x100 * 0x100 + code % 0x100;
    assert code / 0x100 == code / 0x100 / 0x100 * 0x100 + code / 0x100 % 0x100;
    assert code / 0x100 / 0x100 == code / 0x10000;
  }

  lemma HeadDecodes(head: Bytes, tail: Bytes)
    requires |head| == 3
    ensures head + tail != [] && (head + tail)[3..] == tail
    ensures forall i | 0 <= i < 3 :: (head + tail)[i] == head[i]
  {
  }

  lemma {:induction false} TextDecodes(text: string)
    ensures DecodeText(Encode(text)) == Some(text)
  {
    if text != "" {
      var code, tail := text[0] as int, Encode(text[1..]);
      CodeSplits(code);
      TextDecodes(text[1..]);
      var head: Bytes := [code / 0x10000, code / 0x100 % 0x100, code % 0x100];
      HeadDecodes(head, tail);
      assert Encode(text) == head + tail;
      DecodeStep(head + tail, text[0], text[1..]);
      assert text == [text[0]] + text[1..];
    }
  }

  lemma DecodeStep(contents: Bytes, c: char, rest: string)
    requires |contents| >= 3 && DecodeText(contents[3..]) == Some(rest)
    requires (contents[0] as int) * 0x10000 + (contents[1] as int) * 0x100 + (contents[2] as int) == c as int
    ensures DecodeText(contents) == Some([c] + rest)
  {
  }

  function BytesText(contents: Bytes): Option<string> {
    if contents != [] && contents[0] == 0 then DecodeText(contents[1..])
    else Some(if contents == [48, 48] then "a" else "b")
  }

  /** A codec under which the end block's record writes its hash as `recorded`. */
  function ExampleCodec(recorded: string): Codec {
    Codec(_ => Zeros(), _ => [], NoManifest, _ => Zeros(), (text: string) => [0] + Encode(text), BytesText,
          (contents: Bytes) => Ok(if contents == [0] then EmptyPools(0, "a") else EmptyPools(1, recorded)))
  }

  const NODE := Node((height: u32) => if height == 0 then [48, 48] else [49, 49],
                     (height: u32) => if height == 0 then [0] else [1])

  const REQUEST := Request(HeightInterval(0, 1, 1), Mainnet, [], [])

  lemma ExampleTextRoundTrips(recorded: string)
    ensures ExampleCodec(recorded).TextRoundTrips()
  {
    forall text: string
      ensures BytesText([0] + Encode(text)) == Some(text)
    {
      TextDecodes(text);
      assert ([0] + Encode(text))[1..] == Encode(text);
    }
  }

  /** A directory and its records after files were written one by one. */
  datatype Stored = Stored(files: Files, entries: seq<FileEntry>)

  ghost function Contents(file: BundleFile): Bytes {
    if IsEvidence(file) then Content(file, REQUEST, NODE) else []
  }

  ghost function WriteEach(order: seq<BundleFile>, codec: Codec): Stored {
    if order == [] then Stored(map[], [])
    else
      var before, file := WriteEach(order[..|order| - 1], codec), order[|order| - 1];
      Stored(WrittenTo(before.files, file.Path(), Contents(file)),
             Recorded(before.entries, EntryOf(file.Path(), Contents(file), EncodingOf(file), codec)))
  }

  ghost function Members(order: seq<BundleFile>): set<BundleFile> {
    set file | file in order
  }

  /** An order a capture may write files in: each once, and a block before its record. */
  ghost predicate CaptureOrder(order: seq<BundleFile>) {
    forall i | 0 <= i < |order| :: MayFollow(order[..i], order[i])
  }

  ghost predicate MayFollow(before: seq<BundleFile>, file: BundleFile) {
    && Wanted(file, REQUEST.interval) && !IsManifest(file) && file !in before
    && (file.Block? ==> BlockPools(file.height) !in before)
    && (file.BlockPools? ==> Block(file.height) in before)
  }

  ghost predicate Reached(order: seq<BundleFile>, stored: Stored, codec: Codec) {
    && Recording(stored.files, stored.entries, Members(order), codec)
    && OnTrack(stored.files, Members(order), REQUEST, NODE)
    && (forall file :: Present(stored.files, file) <==> file in order)
    && forall file :: !Pending(stored.files, file)
  }

  lemma ReachedParts(order: seq<BundleFile>, stored: Stored, codec: Codec)
    requires Reached(order, stored, codec)
    ensures Recording(stored.files, stored.entries, Members(order), codec)
    ensures OnTrack(stored.files, Members(order), REQUEST, NODE)
  {
    hide BundleFile.Path, Recording, OnTrack, Present, Pending, Members;
  }

  lemma NothingReached(codec: Codec)
    ensures Reached([], Stored(map[], []), codec)
  {
    hide BundleFile.Path, Recording, OnTrack, Sound, NoOrphans;
    StartRecording(map[], [], codec);
    RemnantsResumable(map[], REQUEST, NODE);
    assert Members([]) == {};
  }

  lemma WriteOneMore(init: seq<BundleFile>, before: Stored, file: BundleFile, codec: Codec)
    requires Reached(init, before, codec) && MayFollow(init, file)
    ensures Reached(
              init + [file],
              Stored(WrittenTo(before.files, file.Path(), Contents(file)),
                     Recorded(before.entries, EntryOf(file.Path(), Contents(file), EncodingOf(file), codec))),
              codec)
  {
    hide BundleFile.Path, WrittenTo, Recorded, Recording, OnTrack, Contents, Content;
    EvidenceContents(file);
    WriteRecords(before.files, before.entries, Members(init), codec, file, Contents(file), EncodingOf(file));
    SettledHolds(before.files, Members(init), file);
    WriteStaysOnTrack(before.files, Members(init), REQUEST, NODE, file, Contents(file));
    WriteView(before.files, file, Contents(file));
    assert Members(init + [file]) == Members(init) + {file};
  }

  lemma {:induction false} WriteEachOnTrack(order: seq<BundleFile>, codec: Codec)
    requires CaptureOrder(order)
    ensures Reached(order, WriteEach(order, codec), codec)
  {
    hide Reached, MayFollow, BundleFile.Path, WrittenTo, Recorded, Contents;
    if order == [] {
      NothingReached(codec);
    } else {
      var init, file := order[..|order| - 1], order[|order| - 1];
      forall i | 0 <= i < |init|
        ensures MayFollow(init[..i], init[i])
      {
        assert init[..i] == order[..i];
      }
      WriteEachOnTrack(init, codec);
      assert MayFollow(init, file);
      WriteOneMore(init, WriteEach(init, codec), file, codec);
      assert order == init + [file];
    }
  }

  lemma SettledHolds(files: Files, done: set<BundleFile>, file: BundleFile)
    requires OnTrack(files, done, REQUEST, NODE) && (file.BlockPools? ==> Block(file.height) in done)
    ensures file.BlockPools? ==>
              Present(files, Block(file.height)) && files[Block(file.height).Path()] == NODE.rawHex(file.height)
  {
    hide BundleFile.Path, Sound;
  }

  lemma EvidenceContents(file: BundleFile)
    ensures IsEvidence(file) ==> Contents(file) == Content(file, REQUEST, NODE)
  {
  }

  const ORDER: seq<BundleFile> := [
    NodeInfo, ChainInfoStart, AnchorBlock, AnchorPools, Block(1), BlockPools(1), ChainInfoEnd, Environment, Command,
    ToolVersion]

  /** Where a file stands in that order. */
  function Place(file: BundleFile): int {
    match file
    case NodeInfo => 0
    case ChainInfoStart => 1
    case AnchorBlock => 2
    case AnchorPools => 3
    case Block(_) => 4
    case BlockPools(_) => 5
    case ChainInfoEnd => 6
    case Environment => 7
    case Command => 8
    case ToolVersion => 9
    case _ => 10
  }

  lemma Placed(i: nat)
    requires i <= |ORDER|
    ensures forall file | file in ORDER[..i] :: Place(file) < i
    ensures i > 4 ==> Block(1) in ORDER[..i]
  {
    assert forall j | 0 <= j < i :: Place(ORDER[j]) == j && ORDER[..i][j] == ORDER[j];
    assert ORDER[4] == Block(1);
  }

  lemma OrderIsAllowed()
    ensures CaptureOrder(ORDER)
  {
    hide Wanted;
    AllWanted();
    forall i | 0 <= i < |ORDER|
      ensures MayFollow(ORDER[..i], ORDER[i])
    {
      Placed(i);
      assert Place(ORDER[i]) == i;
    }
  }

  lemma AllWanted()
    ensures forall i | 0 <= i < |ORDER| :: Wanted(ORDER[i], REQUEST.interval)
  {
  }

  lemma OrderIsCapture()
    ensures CaptureOrder(ORDER)
    ensures Members(ORDER) == AllFiles(REQUEST.interval)
  {
    OrderIsAllowed();
    hide CaptureOrder;
    var blocks := BlocksBelow(REQUEST.interval, 2);
    assert forall file :: file in blocks <==> file == Block(1) || file == BlockPools(1);
    forall file
      ensures file in Members(ORDER) <==> file in AllFiles(REQUEST.interval)
    {
      assert file in ORDER <==> exists i | 0 <= i < |ORDER| :: ORDER[i] == file;
    }
  }

  ghost function ExampleHeader(recorded: string): Header {
    Header(SCHEMA_VERSION, BundleId(Mainnet, 0, 1), Mainnet, Mainnet.ActivationHeight(), ManifestInterval(0, 1, 1, 1),
           "a", 0, 0, recorded, 0, 0)
  }

  /** What capturing one empty block leaves, when the node writes the block's hash as `recorded`. */
  ghost function CapturedBlock(recorded: string): Bundle {
    var codec := ExampleCodec(recorded);
    var stored := WriteEach(ORDER, codec);
    var data := ManifestData(ExampleHeader(recorded), Index(stored.entries));
    Bundle(Finished(stored.files, data, codec), data, codec, Decoder(Decode, (_, _) => 0))
  }

  lemma HeaderDescribes(recorded: string)
    ensures DescribesCapture(ExampleHeader(recorded), REQUEST, NODE, ExampleCodec(recorded))
  {
    hide BundleId, Encode;
  }

  /** Writing the files in that order and finishing is a finished, clean capture. */
  lemma OrderCompletes(header: Header, codec: Codec)
    requires codec.TextRoundTrips()
    ensures var stored := WriteEach(ORDER, codec);
            var data := ManifestData(header, Index(stored.entries));
            && Complete(Finished(stored.files, data, codec), REQUEST, NODE)
            && Clean(Finished(stored.files, data, codec), data, codec)
  {
    hide *;
    RequestIsValid();
    OrderIsCapture();
    WriteEachOnTrack(ORDER, codec);
    var stored := WriteEach(ORDER, codec);
    ReachedParts(ORDER, stored, codec);
    AfterFinish(
      stored.files, Finished(stored.files, ManifestData(header, Index(stored.entries)), codec), stored.entries, header,
      codec, REQUEST, NODE, true);
  }

  lemma RequestIsValid()
    ensures REQUEST.interval.Valid()
  {
  }

  lemma CapturedBlockIsCaptured(recorded: string)
    ensures Captured(CapturedBlock(recorded), REQUEST, NODE)
  {
    CapturedBlockParts(recorded);
    hide Finished, Index, ORDER, Complete, Clean, WriteEach, BundleId, NODE,
         DescribesCapture, ExampleCodec, ExampleHeader;
    hide CapturedBlock;
    HeaderDescribes(recorded);
    ExampleTextRoundTrips(recorded);
    OrderCompletes(ExampleHeader(recorded), ExampleCodec(recorded));
  }

  lemma CapturedBlockFile(recorded: string, file: BundleFile)
    requires Wanted(file, REQUEST.interval) && IsEvidence(file)
    ensures file.Path() in CapturedBlock(recorded).files
    ensures CapturedBlock(recorded).files[file.Path()] == Content(file, REQUEST, NODE)
  {
    hide BundleFile.Path, Complete, Clean, DescribesCapture, CapturedBlock, Content, NODE, REQUEST;
    CapturedBlockIsCaptured(recorded);
    CapturedFile(CapturedBlock(recorded).files, REQUEST, NODE, file);
  }

  /** What the evidence files of the captured block hold. */
  lemma CapturedBlockFiles(recorded: string)
    ensures var files := CapturedBlock(recorded).files;
            && AnchorBlock.Path() in files && files[AnchorBlock.Path()] == [48, 48]
            && AnchorPools.Path() in files && files[AnchorPools.Path()] == [0]
            && Block(1).Path() in files && files[Block(1).Path()] == [49, 49]
            && BlockPools(1).Path() in files && files[BlockPools(1).Path()] == [1]
  {
    hide BundleFile.Path, CapturedBlock;
    CapturedBlockFile(recorded, AnchorBlock);
    CapturedBlockFile(recorded, AnchorPools);
    CapturedBlockFile(recorded, Block(1));
    CapturedBlockFile(recorded, BlockPools(1));
  }

  lemma CapturedBlockReads(bundle: Bundle, recorded: string)
    requires bundle.codec == ExampleCodec(recorded) && bundle.decoder.block == Decode
    requires var files := bundle.files;
             && AnchorBlock.Path() in files && files[AnchorBlock.Path()] == [48, 48]
             && AnchorPools.Path() in files && files[AnchorPools.Path()] == [0]
             && Block(1).Path() in files && files[Block(1).Path()] == [49, 49]
             && BlockPools(1).Path() in files && files[BlockPools(1).Path()] == [1]
    ensures HasAnchorBlock(bundle)
    ensures RawAt(bundle, AnchorBlock) == Some(ANCHOR) && RawAt(bundle, Block(1)) == Some(BLOCK)
    ensures ReadPoolState(bundle, AnchorPools) == Ok(EmptyPools(0, "a"))
    ensures ReadPoolState(bundle, BlockPools(1)) == Ok(EmptyPools(1, recorded))
  {
    hide BundleFile.Path, EmptyPools, ANCHOR, BLOCK, Encode;
  }

  lemma CapturedBlockIsSmall(recorded: string)
    requires EqualIgnoringCase(recorded, "b")
    ensures Small(CapturedBlock(recorded), recorded)
  {
    var bundle := CapturedBlock(recorded);
    CapturedBlockParts(recorded);
    hide BundleFile.Path, CapturedBlock, Clean, Complete, DescribesCapture, ExampleCodec, RawAt, ReadPoolState, Intact;
    hide EqualIgnoringCase, HasAnchorBlock, BundleId;
    CapturedBlockIsCaptured(recorded);
    CapturedBlockFiles(recorded);
    CapturedBlockReads(bundle, recorded);
    CleanIsIntact(bundle);
  }

  lemma CapturedBlockParts(recorded: string)
    ensures var bundle, stored := CapturedBlock(recorded), WriteEach(ORDER, ExampleCodec(recorded));
            && bundle.codec == ExampleCodec(recorded) && bundle.decoder.block == Decode
            && bundle.data == ManifestData(ExampleHeader(recorded), Index(stored.entries))
            && bundle.files == Finished(stored.files, bundle.data, bundle.codec)
  {
    hide ExampleCodec, ExampleHeader, WriteEach, Finished, Index, ORDER;
  }

  lemma CleanIsIntact(bundle: Bundle)
    requires Clean(bundle.files, bundle.data, bundle.codec)
    ensures Intact(bundle.files, bundle.data, bundle.codec)
  {
  }

  /** A node that writes hashes in upper case: its capture is finished, clean and usable, every record is bound
      to its block, and it is not certified, though the same block written in lower case is. */
  lemma UpperCaseCapture()
    ensures var upper, lower := CapturedBlock("B"), CapturedBlock("b");
            && Captured(upper, REQUEST, NODE) && EvidenceUsable(upper) && FiguresFit(upper) && !Certified(upper)
            && Captured(lower, REQUEST, NODE) && EvidenceUsable(lower) && FiguresFit(lower) && Certified(lower)
  {
    CapturedBlockEnds("B");
    CapturedBlockEnds("b");
    hide CapturedBlock, Captured, EvidenceUsable, FiguresFit, Certified, Small;
    CapturedBlockIsCaptured("B");
    CapturedBlockIsCaptured("b");
    CapturedBlockIsSmall("B");
    CapturedBlockIsSmall("b");
    SmallCertified(CapturedBlock("B"), "B");
    SmallCertified(CapturedBlock("b"), "b");
  }

  /** An overwrite of the captured block cut off once the block is deleted: its balances are orphaned, the directory
      is not resumable, and a resumed attempt can then get stuck. */
  lemma OrphanedCapture()
    ensures var files := CapturedBlock("b").files;
            var remnant := files - {Block(1).Path()};
            && RemnantOf(files, remnant) && !Resumable(remnant, REQUEST, NODE)
            && exists cut :: Interrupted(WrittenTo(remnant, Block(1).Path(), NODE.rawHex(1)), cut,
                                         BlockPools(1).Path(), NODE.poolState(1))
                             && Stuck(cut, 1)
  {
    CapturedBlockCoversOne();
    CapturedBlockIsCaptured("b");
    hide *;
    var files := CapturedBlock("b").files;
    OrphanedRecord(files, REQUEST, NODE, 1);
    OrphanGetsStuck(files - {Block(1).Path()}, REQUEST, NODE, 1);
  }

  /** The next interval, anchored at the captured block. */
  const NEXT_REQUEST: Request := REQUEST.(interval := HeightInterval(1, 2, 2))

  lemma NextIsAnother()
    ensures REQUEST.interval.Contains(1) && !NEXT_REQUEST.interval.Contains(1)
    ensures NODE.rawHex(REQUEST.interval.anchor) != NODE.rawHex(NEXT_REQUEST.interval.anchor)
  {
  }

  /** The captured block is refused where the next interval is to be captured; its anchor's block alone is not,
      and no capture finished from there is complete. */
  lemma AnotherInterval()
    ensures var files := CapturedBlock("b").files;
            var remnant := map[AnchorBlock.Path() := NODE.rawHex(REQUEST.interval.anchor)];
            && EnsureNoBlocksOutside(files, NEXT_REQUEST.interval).Err?
            && RemnantOf(files, remnant) && NoOrphans(remnant)
            && EnsureNoBlocksOutside(remnant, NEXT_REQUEST.interval).Ok?
            && forall after | Keeps(remnant, after, NEXT_REQUEST.interval) :: !Complete(after, NEXT_REQUEST, NODE)
  {
    NextIsAnother();
    CapturedBlockCoversOne();
    CapturedBlockIsCaptured("b");
    hide *;
    var files := CapturedBlock("b").files;
    ForeignBundleRefused(files, REQUEST, NODE, NEXT_REQUEST, 1);
    StaleAnchor(files, REQUEST, NEXT_REQUEST, NODE);
  }

  const SESSION := Session(false, Ok(()), [], [], [], [], [1])

  lemma RecordsParse(recorded: string)
    ensures ParsePoolState(0, [0], ExampleCodec(recorded)).Ok? && ParsePoolState(1, [1], ExampleCodec(recorded)).Ok?
  {
    assert HasBalances(EmptyPools(0, "a")) && HasBalances(EmptyPools(1, recorded));
  }

  lemma AnswersAreHex()
    ensures ValidateBlockHex([48, 48]).Ok? && ValidateBlockHex([49, 49]).Ok?
  {
  }

  lemma NodeAnswers(height: u32)
    requires height <= 1
    ensures NODE.rawHex(height) == if height == 0 then [48, 48] else [49, 49]
    ensures NODE.poolState(height) == if height == 0 then [0] else [1]
  {
  }

  lemma AnswerIsUsable(height: u32, recorded: string)
    requires height <= 1
    ensures ValidateBlockHex(NODE.rawHex(height)).Ok?
    ensures Answers(NODE, height, ExampleCodec(recorded))
  {
    hide ParsePoolState, ExampleCodec, ValidateBlockHex, NODE;
    RecordsParse(recorded);
    AnswersAreHex();
    if height == 0 {
      NodeAnswers(0);
    } else {
      NodeAnswers(1);
    }
  }

  lemma NodeServes(recorded: string)
    ensures Serves(NODE, REQUEST, ExampleCodec(recorded)) && Favourable(SESSION, NODE, REQUEST)
    ensures ValidateBlockHex(NODE.rawHex(NEXT_REQUEST.interval.anchor)).Ok?
  {
    hide Answers, ParsePoolState, ExampleCodec, ValidateBlockHex, NODE;
    AnswerIsUsable(1, recorded);
    NodeAnswers(1);
    forall height: u32 | height <= 1
      ensures Answers(NODE, height, ExampleCodec(recorded))
    {
      AnswerIsUsable(height, recorded);
    }
  }

  /** Resuming the first interval where the next one's anchor block is left finishes, undisturbed, with that block
      in the place of its own. */
  lemma WrongAnchorFinishes(recorded: string)
    ensures var left := map[AnchorBlock.Path() := NODE.rawHex(NEXT_REQUEST.interval.anchor)];
            && WouldFinish(left, Resume, SESSION, REQUEST, NODE, ExampleCodec(recorded))
            && !Sound(left, REQUEST, NODE)
  {
    NodeServes(recorded);
    NextIsAnother();
    hide NODE, REQUEST, NEXT_REQUEST, ExampleCodec, SESSION, BundleFile.Path, WouldFinish, Known;
    StaleAnchorFinishes(NEXT_REQUEST, REQUEST, NODE, SESSION, ExampleCodec(recorded));
    assert Adoptable(map[AnchorBlock.Path() := NODE.rawHex(NEXT_REQUEST.interval.anchor)], AnchorBlock);
  }

  lemma CapturedBlockCoversOne()
    ensures REQUEST.interval.Contains(1)
    ensures Captured(CapturedBlock("b"), REQUEST, NODE) ==> Complete(CapturedBlock("b").files, REQUEST, NODE)
    ensures forall files: Files :: !Present(files - {Block(1).Path()}, Block(1))
  {
    hide CapturedBlock, Complete, BundleFile.Path;
  }

  lemma CapturedBlockEnds(recorded: string)
    ensures CapturedBlock(recorded).data.header.endHash == recorded
  {
  }

  lemma PathsOfDir(children: map<string, Tree>, path: seq<string>)
    ensures path in FilePaths(Dir(children)) <==>
            path != [] && path[0] in children && path[1..] in FilePaths(children[path[0]])
  {
    if path != [] && path[0] in children && path[1..] in FilePaths(children[path[0]]) {
      assert path == [path[0]] + path[1..];
    }
    if path in FilePaths(Dir(children)) {
      var name, rest :| name in children && rest in FilePaths(children[name]) && path == [name] + rest;
      assert path[1..] == rest;
    }
  }

  /** A directory that holds one file in a directory of its own, which is packed as that file. */
  lemma SmallTree()
    ensures var tree := Dir(map["a" := Dir(map["b" := File([7])])]);
            && WellNamed(tree) && ["a", "b"] in FilePaths(tree) && ContentAt(tree, ["a", "b"]) == [7]
  {
    var children := map["b" := File([7])];
    assert ["a", "b"][1..] == ["b"] && ["b"][1..] == [];
    PathsOfDir(children, ["b"]);
    PathsOfDir(map["a" := Dir(children)], ["a", "b"]);
  }
}
