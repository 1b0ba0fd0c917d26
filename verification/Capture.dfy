/** A capture from preflight to finished manifest, resumable after being cut off anywhere. */
module Capture {
  import opened Wrappers
  import opened Ledger
  import opened Layout
  import opened Manifest
  import opened Validation
  import opened Writer

  /** A node's answers about blocks, the same on every attempt: consensus bytes as hex, and the
      projected pool-state record. */
  datatype Node = Node(rawHex: u32 -> Bytes, poolState: u32 -> Bytes)

  /** What may differ between two attempts: whether anything disturbs it, preflight's verdict on the node,
      its descriptions of itself, the environment, and its second answer for the end block. */
  datatype Session = Session(
    disturbed: bool, preflight: Result<()>, nodeInfo: Bytes, chainStart: Bytes, chainEnd: Bytes, environment: Bytes,
    recheck: Bytes)

  datatype Request = Request(interval: HeightInterval, network: Network, command: Bytes, toolVersion: Bytes)

  // ---- Reading the node's answers ----

  predicate IsHexByte(b: u8) {
    48 <= b <= 57 || 65 <= b <= 70 || 97 <= b <= 102
  }

  lemma HexBytesExact(b: u8)
    ensures IsHexByte(b) <==> b as char in "0123456789abcdefABCDEF"
  {
    var digits := "0123456789abcdefABCDEF";
    if 48 <= b <= 57 {
      assert digits[b - 48] == b as char;
    } else if 97 <= b <= 102 {
      assert digits[b - 87] == b as char;
    } else if 65 <= b <= 70 {
      assert digits[b - 49] == b as char;
    } else {
      assert forall i | 0 <= i < |digits| ::
          '0' <= digits[i] <= '9' || 'a' <= digits[i] <= 'f' || 'A' <= digits[i] <= 'F';
    }
  }

  /** Block text that encodes at least one whole byte and nothing but hexadecimal. */
  function ValidateBlockHex(hex: Bytes): (r: Result<()>)
    ensures r.Ok? <==> hex != [] && |hex| % 2 == 0 && forall i | 0 <= i < |hex| :: IsHexByte(hex[i])
  {
    if hex == [] then Err(CaptureIncomplete)
    else if |hex| % 2 != 0 then Err(CaptureIncomplete)
    else if FindIndex(hex, (b: u8) => !IsHexByte(b)).Some? then Err(CaptureIncomplete)
    else Ok(())
  }

  predicate HasBalances(state: CapturedBlockState) {
    Orchard in state.pools.balances && Ironwood in state.pools.balances
  }

  /** Reads a pool-state record, requiring it to describe the height asked for and to state a balance
      for both reconstructed pools. */
  function ParsePoolState(height: u32, bytes: Bytes, codec: Codec): (r: Result<CapturedBlockState>)
    ensures r.Ok? <==>
            && codec.parsePools(bytes).Ok? && codec.parsePools(bytes).value.height == height
            && HasBalances(codec.parsePools(bytes).value)
    ensures r.Ok? ==> r == codec.parsePools(bytes)
    ensures r.Ok? ==> r.value.height == height
    ensures r.Ok? ==> HasBalances(r.value)
  {
    var state :- codec.parsePools(bytes);
    if state.height != height then Err(CaptureIncomplete)
    else if !HasBalances(state) then Err(CaptureIncomplete)
    else Ok(state)
  }

  /** The anchor's record, which preflight reads. */
  function AnchorRecord(request: Request, node: Node, codec: Codec): Result<CapturedBlockState> {
    ParsePoolState(request.interval.anchor, node.poolState(request.interval.anchor), codec)
  }

  /** The heights whose answers this capture needs are usable. */
  ghost predicate Serves(node: Node, request: Request, codec: Codec) {
    request.interval.Valid() &&
    forall height: u32 | request.interval.anchor <= height <= request.interval.end :: Answers(node, height, codec)
  }

  /** The node's two answers about a height can be read. */
  ghost predicate Answers(node: Node, height: u32, codec: Codec) {
    ValidateBlockHex(node.rawHex(height)).Ok? && ParsePoolState(height, node.poolState(height), codec).Ok?
  }

  /** Nothing about this attempt stands in its way. */
  ghost predicate Favourable(session: Session, node: Node, request: Request) {
    && !session.disturbed
    && session.preflight.Ok?
    && session.recheck == node.poolState(request.interval.end)
  }

  // ---- The state of a bundle directory between attempts ----

  predicate Wanted(file: BundleFile, interval: HeightInterval) {
    file.Block? || file.BlockPools? ==> interval.Contains(file.height)
  }

  predicate IsEvidence(file: BundleFile) {
    file.AnchorBlock? || file.AnchorPools? || file.Block? || file.BlockPools?
  }

  predicate IsManifest(file: BundleFile) {
    file.ManifestFile? || file.ManifestDigest?
  }

  /** What an uninterrupted capture stores in an evidence file. */
  function Content(file: BundleFile, request: Request, node: Node): Bytes
    requires IsEvidence(file)
  {
    match file
    case AnchorBlock => node.rawHex(request.interval.anchor)
    case AnchorPools => node.poolState(request.interval.anchor)
    case Block(height) => node.rawHex(height)
    case BlockPools(height) => node.poolState(height)
  }

  ghost predicate Present(files: Files, file: BundleFile) {
    file.Path() in files
  }

  ghost predicate Pending(files: Files, file: BundleFile) {
    file.Path() + PARTIAL_SUFFIX in files
  }

  ghost predicate Known(key: string, interval: HeightInterval) {
    exists file: BundleFile :: Wanted(file, interval) && (key == file.Path() || key == file.Path() + PARTIAL_SUFFIX)
  }

  /** An evidence file is there, with what an uninterrupted capture stores in it. */
  ghost predicate Holds(files: Files, file: BundleFile, request: Request, node: Node) {
    Present(files, file) && IsEvidence(file) && files[file.Path()] == Content(file, request, node)
  }

  /** A file a later attempt takes as it finds it: the anchor's block, and the two files of a height once both
      are there. Everything else it writes again. */
  ghost predicate Adoptable(files: Files, file: BundleFile) {
    match file
    case AnchorBlock => Present(files, AnchorBlock)
    case Block(height) => Present(files, Block(height)) && Present(files, BlockPools(height))
    case BlockPools(height) => Present(files, Block(height)) && Present(files, BlockPools(height))
    case _ => false
  }

  /** Nothing in the directory is foreign to the request, and nothing a later attempt adopts is other than
      what it would have fetched, or has a temporary file beside it. */
  ghost predicate Sound(files: Files, request: Request, node: Node) {
    && (forall key | key in files :: Known(key, request.interval))
    && forall file: BundleFile | Adoptable(files, file) :: Holds(files, file, request, node) && !Pending(files, file)
  }

  /** No height's pool-state record without its block. */
  ghost predicate NoOrphans(files: Files) {
    forall height: u32 | Present(files, BlockPools(height)) :: Present(files, Block(height))
  }

  /** What every attempt keeps, wherever it stops: without the second half, the first could not be kept. */
  ghost predicate Resumable(files: Files, request: Request, node: Node) {
    Sound(files, request, node) && NoOrphans(files)
  }

  /** What an attempt that starts in this directory takes a file of evidence to hold: what is there, if it adopts
      it, and what the node serves otherwise. */
  ghost function Taken(files: Files, file: BundleFile, request: Request, node: Node): Bytes
    requires IsEvidence(file)
  {
    if Adoptable(files, file) && Present(files, file) then files[file.Path()] else Content(file, request, node)
  }

  ghost predicate AcceptsHeight(files: Files, height: u32, request: Request, node: Node, codec: Codec) {
    && ValidateBlockHex(Taken(files, Block(height), request, node)).Ok?
    && ParsePoolState(height, Taken(files, BlockPools(height), request, node), codec).Ok?
  }

  /** The directory now holds of this height what an attempt that started in `before` took. */
  ghost predicate HoldsTaken(before: Files, after: Files, height: u32, request: Request, node: Node) {
    && Adoptable(after, Block(height)) && Present(after, Block(height)) && Present(after, BlockPools(height))
    && after[Block(height).Path()] == Taken(before, Block(height), request, node)
    && after[BlockPools(height).Path()] == Taken(before, BlockPools(height), request, node)
  }

  /** Every block is block text, and every record states its height and both balances. */
  ghost predicate Readable(files: Files, request: Request, codec: Codec) {
    && Present(files, AnchorBlock) && ValidateBlockHex(files[AnchorBlock.Path()]).Ok?
    && forall height: u32 | request.interval.Contains(height) ::
         && Present(files, Block(height)) && ValidateBlockHex(files[Block(height).Path()]).Ok?
         && Present(files, BlockPools(height))
         && ParsePoolState(height, files[BlockPools(height).Path()], codec).Ok?
  }

  ghost predicate AcceptsHeights(files: Files, request: Request, node: Node, codec: Codec) {
    forall height: u32 | request.interval.Contains(height) :: AcceptsHeight(files, height, request, node, codec)
  }

  /** Everything an attempt would take can be read, and the node's second answer for the end block names the
      block of the first. */
  ghost predicate Accepts(files: Files, session: Session, request: Request, node: Node, codec: Codec) {
    && ValidateBlockHex(Taken(files, AnchorBlock, request, node)).Ok?
    && AcceptsHeights(files, request, node, codec)
    && var end, recheck := request.interval.end, ParsePoolState(request.interval.end, session.recheck, codec);
       var taken := ParsePoolState(end, Taken(files, BlockPools(end), request, node), codec);
       recheck.Ok? && taken.Ok? && recheck.value.blockHash == taken.value.blockHash
  }

  /** A finished capture: every file, nothing else, and the evidence an uninterrupted run stores. */
  ghost predicate Complete(files: Files, request: Request, node: Node) {
    && (forall key :: key in files <==> exists file: BundleFile :: Wanted(file, request.interval) && key == file.Path())
    && (forall file: BundleFile | Wanted(file, request.interval) && IsEvidence(file) ::
          files[file.Path()] == Content(file, request, node))
  }

  lemma FileKeys(file: BundleFile)
    ensures Writable(file.Path()) && Safe(file.Path()) && EndsInName(file.Path())
    ensures Rendered(file.Path()) == file.Path()
    ensures PartialOf(file.Path()) == file.Path() + PARTIAL_SUFFIX
  {
    PathSegments(file);
    NormalEndsInName(file.Path());
    PartialIsNormal(file.Path());
    forall other: string
      ensures file.Path() != other + PARTIAL_SUFFIX
    {
      var partial := other + PARTIAL_SUFFIX;
      assert partial[|partial| - 1] == 'l';
    }
  }

  lemma DiskKeys(file: BundleFile)
    ensures Rendered(file.Path()) == file.Path()
    ensures PartialOf(file.Path()) == file.Path() + PARTIAL_SUFFIX
  {
    FileKeys(file);
  }

  lemma ManifestKeys()
    ensures MANIFEST == ManifestFile.Path() && MANIFEST_HASH == ManifestDigest.Path()
    ensures PartialOf(MANIFEST) == ManifestFile.Path() + PARTIAL_SUFFIX
    ensures PartialOf(MANIFEST_HASH) == ManifestDigest.Path() + PARTIAL_SUFFIX
  {
    DiskKeys(ManifestFile);
    DiskKeys(ManifestDigest);
  }

  lemma AllPathsDistinct(file: BundleFile)
    ensures forall other: BundleFile :: other.Path() == file.Path() <==> other == file
    ensures forall other: BundleFile :: other.Path() != file.Path() + PARTIAL_SUFFIX
    ensures forall other: BundleFile :: other.Path() + PARTIAL_SUFFIX != file.Path()
    ensures forall other: BundleFile :: other.Path() + PARTIAL_SUFFIX == file.Path() + PARTIAL_SUFFIX <==> other == file
  {
    hide *;
    forall other: BundleFile
      ensures other.Path() == file.Path() <==> other == file
      ensures other.Path() != file.Path() + PARTIAL_SUFFIX
      ensures other.Path() + PARTIAL_SUFFIX != file.Path()
      ensures other.Path() + PARTIAL_SUFFIX == file.Path() + PARTIAL_SUFFIX <==> other == file
    {
      PathsDistinct(file, other);
      PathsDistinct(other, file);
    }
  }

  // ---- One write, as seen from the directory ----

  /** When a file may be written: what its adoption by a later attempt rests on is not disturbed. */
  ghost predicate MayWrite(files: Files, file: BundleFile, contents: Bytes, request: Request, node: Node) {
    && Wanted(file, request.interval)
    && (IsEvidence(file) ==> contents == Content(file, request, node))
    && (file.Block? ==> !Present(files, BlockPools(file.height)))
    && (file.BlockPools? ==>
          && !Present(files, file)
          && Present(files, Block(file.height)) && !Pending(files, Block(file.height))
          && files[Block(file.height).Path()] == node.rawHex(file.height))
    && (file.AnchorBlock? ==> !Present(files, file))
  }

  /** A completed write, file by file. */
  lemma WriteView(files: Files, file: BundleFile, contents: Bytes)
    ensures var after := WrittenTo(files, file.Path(), contents);
            && (forall other: BundleFile :: Present(after, other) <==> other == file || Present(files, other))
            && (forall other: BundleFile :: Pending(after, other) <==> other != file && Pending(files, other))
            && (forall other: BundleFile | Present(after, other) ::
                  after[other.Path()] == if other == file then contents else files[other.Path()])
            && (forall key | key in after :: key in files || key == file.Path())
  {
    hide BundleFile.Path;
    DiskKeys(file);
    AllPathsDistinct(file);
    hide Rendered, PartialOf;
  }

  /** An interrupted write, file by file. */
  lemma InterruptedView(files: Files, after: Files, file: BundleFile, contents: Bytes)
    requires Interrupted(files, after, file.Path(), contents)
    ensures forall other: BundleFile :: Present(after, other) <==> Present(files, other)
    ensures forall other: BundleFile :: Pending(after, other) ==> other == file || Pending(files, other)
    ensures forall other: BundleFile :: Pending(files, other) ==> Pending(after, other)
    ensures forall other: BundleFile | Present(after, other) && Present(files, other) ::
              after[other.Path()] == files[other.Path()]
    ensures forall key | key in after :: key in files || key == file.Path() + PARTIAL_SUFFIX
  {
    hide BundleFile.Path;
    DiskKeys(file);
    AllPathsDistinct(file);
    hide Rendered, PartialOf;
    if after != files {
      var written: nat :| written <= |contents| && after == files[PartialOf(file.Path()) := contents[..written]];
    }
  }

  lemma WriteKeepsSound(files: Files, file: BundleFile, contents: Bytes, request: Request, node: Node)
    requires Sound(files, request, node) && MayWrite(files, file, contents, request, node)
    ensures Sound(WrittenTo(files, file.Path(), contents), request, node)
    ensures NoOrphans(files) ==> NoOrphans(WrittenTo(files, file.Path(), contents))
  {
    hide BundleFile.Path, WrittenTo;
    WriteView(files, file, contents);
    var after := WrittenTo(files, file.Path(), contents);
    forall other | Adoptable(after, other)
      ensures Holds(after, other, request, node) && !Pending(after, other)
    {
      assert Adoptable(files, other) ==> Holds(files, other, request, node);
    }
  }

  lemma InterruptedKeepsSound(
    files: Files, after: Files, file: BundleFile, contents: Bytes, request: Request, node: Node)
    requires Sound(files, request, node) && MayWrite(files, file, contents, request, node)
    requires Interrupted(files, after, file.Path(), contents)
    ensures Sound(after, request, node)
    ensures NoOrphans(files) ==> NoOrphans(after)
  {
    hide BundleFile.Path, Interrupted;
    InterruptedView(files, after, file, contents);
    forall other | Adoptable(after, other)
      ensures Holds(after, other, request, node) && !Pending(after, other)
    {
      assert Adoptable(files, other) ==> Holds(files, other, request, node);
    }
  }

  /** A write a capture may do keeps the directory resumable, finished or cut off at any step. */
  lemma WriteKeepsResumable(files: Files, file: BundleFile, contents: Bytes, request: Request, node: Node)
    requires Resumable(files, request, node) && MayWrite(files, file, contents, request, node)
    ensures Resumable(WrittenTo(files, file.Path(), contents), request, node)
    ensures forall after | Interrupted(files, after, file.Path(), contents) :: Resumable(after, request, node)
  {
    hide Sound, NoOrphans, WrittenTo, Interrupted, MayWrite;
    WriteKeepsSound(files, file, contents, request, node);
    forall after | Interrupted(files, after, file.Path(), contents)
      ensures Resumable(after, request, node)
    {
      InterruptedKeepsSound(files, after, file, contents, request, node);
    }
  }

  // ---- Progress within one attempt ----

  /** How each file of a bundle is encoded: consensus bytes as hex, the node's and the tool's records as JSON, the
      rest as text. */
  function EncodingOf(file: BundleFile): Encoding {
    if file.AnchorBlock? || file.Block? then RawBlockHex
    else if file.Command? || file.ToolVersion? then Text
    else Json
  }

  ghost predicate Encoded(entries: seq<FileEntry>) {
    forall i, file: BundleFile | 0 <= i < |entries| && entries[i].path == file.Path() ::
      entries[i].encoding == EncodingOf(file)
  }

  /** The files of `done` are recorded as they are on disk, each with its encoding, and nothing else is recorded. */
  ghost predicate Recording(files: Files, entries: seq<FileEntry>, done: set<BundleFile>, codec: Codec) {
    && Faithful(entries, files, codec) && AllWritable(entries) && Encoded(entries)
    && PathsOf(entries) == (set file | file in done :: file.Path())
    && ManifestFile !in done && ManifestDigest !in done
  }

  /** A sound directory in which the files of `done` are settled. */
  ghost predicate OnTrack(files: Files, done: set<BundleFile>, request: Request, node: Node) {
    && Sound(files, request, node)
    && forall file | file in done ::
         && Present(files, file) && !Pending(files, file)
         && (IsEvidence(file) ==> Holds(files, file, request, node))
  }

  ghost predicate SameManifest(before: Files, after: Files) {
    MANIFEST in before <==> MANIFEST in after
  }

  lemma WriteKeepsManifest(files: Files, file: BundleFile, contents: Bytes)
    requires !IsManifest(file)
    ensures SameManifest(files, WrittenTo(files, file.Path(), contents))
    ensures forall after | Interrupted(files, after, file.Path(), contents) :: SameManifest(files, after)
  {
    hide BundleFile.Path, MANIFEST, MANIFEST_HASH, PartialOf, WrittenTo, Interrupted;
    ManifestKeys();
    WriteView(files, file, contents);
    assert Present(files, ManifestFile) <==> Present(WrittenTo(files, file.Path(), contents), ManifestFile);
    forall after | Interrupted(files, after, file.Path(), contents)
      ensures SameManifest(files, after)
    {
      InterruptedView(files, after, file, contents);
      assert Present(files, ManifestFile) <==> Present(after, ManifestFile);
    }
  }

  // ---- What no attempt undoes ----

  /** A file a later attempt adopts is still there, unchanged, and so is any temporary file beside it. */
  ghost predicate KeepsFile(before: Files, after: Files, file: BundleFile) {
    Adoptable(before, file) ==>
      && Adoptable(after, file) && before[file.Path()] == after[file.Path()]
      && (Pending(before, file) ==> Pending(after, file))
  }

  ghost predicate KeepsForeign(before: Files, after: Files, interval: HeightInterval) {
    forall key | key in before && !Known(key, interval) :: key in after
  }

  /** What resuming never removes or changes: files that are foreign to the request, and files it adopts. */
  ghost predicate Keeps(before: Files, after: Files, interval: HeightInterval) {
    KeepsForeign(before, after, interval) && forall file: BundleFile :: KeepsFile(before, after, file)
  }

  /** Nothing but these files became adoptable. */
  ghost predicate AddsOnly(before: Files, after: Files, added: set<BundleFile>) {
    forall file: BundleFile | Adoptable(after, file) :: Adoptable(before, file) || file in added
  }

  /** So every other file is taken to hold what it was. */
  lemma TakenStays(
    before: Files, after: Files, added: set<BundleFile>, file: BundleFile, request: Request, node: Node)
    requires Keeps(before, after, request.interval) && AddsOnly(before, after, added)
    requires IsEvidence(file) && file !in added
    ensures Taken(before, file, request, node) == Taken(after, file, request, node)
  {
    hide BundleFile.Path, KeepsForeign;
    assert KeepsFile(before, after, file);
  }

  lemma AddsChain(before: Files, mid: Files, after: Files, first: set<BundleFile>, second: set<BundleFile>)
    requires AddsOnly(before, mid, first) && AddsOnly(mid, after, second)
    ensures AddsOnly(before, after, first + second)
  {
    hide Adoptable;
  }

  /** What a height holds stays. */
  lemma HoldsTakenStays(
    before: Files, mid: Files, after: Files, height: u32, request: Request, node: Node)
    requires HoldsTaken(before, mid, height, request, node) && Keeps(mid, after, request.interval)
    ensures HoldsTaken(before, after, height, request, node)
  {
    hide BundleFile.Path, KeepsForeign, Taken;
    assert KeepsFile(mid, after, Block(height)) && KeepsFile(mid, after, BlockPools(height));
  }

  lemma HoldsTakenIsReadable(
    before: Files, after: Files, request: Request, node: Node, codec: Codec)
    requires AcceptsHeights(before, request, node, codec)
    requires ValidateBlockHex(Taken(before, AnchorBlock, request, node)).Ok?
    requires forall height: u32 | request.interval.Contains(height) :: HoldsTaken(before, after, height, request, node)
    requires Present(after, AnchorBlock)
             && after[AnchorBlock.Path()] == Taken(before, AnchorBlock, request, node)
    ensures Readable(after, request, codec)
  {
    hide BundleFile.Path, Taken, ParsePoolState, ValidateBlockHex, Adoptable;
    forall height: u32 | request.interval.Contains(height)
      ensures Present(after, Block(height)) && ValidateBlockHex(after[Block(height).Path()]).Ok?
      ensures Present(after, BlockPools(height))
              && ParsePoolState(height, after[BlockPools(height).Path()], codec).Ok?
    {
      assert HoldsTaken(before, after, height, request, node) && AcceptsHeight(before, height, request, node, codec);
    }
  }

  /** What can be read stays readable. */
  lemma ReadableStays(before: Files, after: Files, request: Request, codec: Codec)
    requires Readable(before, request, codec) && Keeps(before, after, request.interval)
    ensures Readable(after, request, codec)
  {
    hide BundleFile.Path, KeepsForeign, ParsePoolState, ValidateBlockHex;
    assert KeepsFile(before, after, AnchorBlock);
    forall height: u32 | request.interval.Contains(height)
      ensures Present(after, Block(height)) && ValidateBlockHex(after[Block(height).Path()]).Ok?
      ensures Present(after, BlockPools(height))
              && ParsePoolState(height, after[BlockPools(height).Path()], codec).Ok?
    {
      assert KeepsFile(before, after, Block(height)) && KeepsFile(before, after, BlockPools(height));
    }
  }

  lemma AddsNothing(files: Files, added: set<BundleFile>)
    ensures AddsOnly(files, files, added)
  {
  }

  /** The files a write of this one can make adoptable. */
  function Siblings(file: BundleFile): set<BundleFile> {
    if file.Block? || file.BlockPools? then HeightFiles(file.height) else {file}
  }

  lemma WriteAdds(files: Files, file: BundleFile, contents: Bytes)
    ensures AddsOnly(files, WrittenTo(files, file.Path(), contents), Siblings(file))
  {
    hide BundleFile.Path, WrittenTo;
    WriteView(files, file, contents);
  }

  /** Neither makes nor removes a manifest, and keeps what resuming keeps. */
  ghost predicate Undisturbed(before: Files, after: Files, interval: HeightInterval) {
    SameManifest(before, after) && Keeps(before, after, interval)
  }

  lemma WriteKeeps(files: Files, file: BundleFile, contents: Bytes, interval: HeightInterval)
    requires Wanted(file, interval)
    ensures var after := WrittenTo(files, file.Path(), contents);
            KeepsForeign(files, after, interval) && forall other | other != file :: KeepsFile(files, after, other)
    ensures forall after | Interrupted(files, after, file.Path(), contents) :: Keeps(files, after, interval)
  {
    hide BundleFile.Path, WrittenTo, Interrupted, KeepsForeign, KeepsFile;
    WriteKeepsForeign(files, file, contents, interval);
    FinishedKeeps(files, file, contents);
    forall after | Interrupted(files, after, file.Path(), contents)
      ensures Keeps(files, after, interval)
    {
      InterruptedKeeps(files, after, file, contents);
    }
  }

  lemma FinishedKeeps(files: Files, file: BundleFile, contents: Bytes)
    ensures forall other | other != file :: KeepsFile(files, WrittenTo(files, file.Path(), contents), other)
  {
    hide BundleFile.Path, WrittenTo;
    WriteView(files, file, contents);
  }

  lemma InterruptedKeeps(files: Files, after: Files, file: BundleFile, contents: Bytes)
    requires Interrupted(files, after, file.Path(), contents)
    ensures forall other :: KeepsFile(files, after, other)
  {
    hide BundleFile.Path, Interrupted;
    InterruptedView(files, after, file, contents);
  }

  lemma WriteKeepsForeign(files: Files, file: BundleFile, contents: Bytes, interval: HeightInterval)
    requires Wanted(file, interval)
    ensures KeepsForeign(files, WrittenTo(files, file.Path(), contents), interval)
    ensures forall after | Interrupted(files, after, file.Path(), contents) :: KeepsForeign(files, after, interval)
  {
    hide BundleFile.Path, Rendered, PartialOf;
    DiskKeys(file);
  }

  lemma KeepsChain(interval: HeightInterval)
    ensures forall files: Files :: Keeps(files, files, interval)
    ensures forall before: Files, mid: Files, after: Files |
              Keeps(before, mid, interval) && Keeps(mid, after, interval) :: Keeps(before, after, interval)
  {
    hide BundleFile.Path, Known;
    forall before: Files, mid: Files, after: Files | Keeps(before, mid, interval) && Keeps(mid, after, interval)
      ensures Keeps(before, after, interval)
    {
      forall file: BundleFile
        ensures KeepsFile(before, after, file)
      {
        assert KeepsFile(before, mid, file) && KeepsFile(mid, after, file);
      }
    }
  }

  /** So a directory that is sound in the end was sound all along. */
  lemma KeepsOnlySound(before: Files, after: Files, request: Request, node: Node)
    requires Keeps(before, after, request.interval) && Sound(after, request, node)
    ensures Sound(before, request, node)
  {
    hide BundleFile.Path, Known;
    forall file: BundleFile | Adoptable(before, file)
      ensures Holds(before, file, request, node) && !Pending(before, file)
    {
      assert KeepsFile(before, after, file);
    }
  }

  lemma CompleteIsResumable(files: Files, request: Request, node: Node)
    requires Complete(files, request, node)
    ensures Resumable(files, request, node)
  {
    hide BundleFile.Path;
    forall file: BundleFile | Adoptable(files, file)
      ensures Holds(files, file, request, node) && !Pending(files, file)
    {
      AllPathsDistinct(file);
    }
    forall height: u32 | Present(files, BlockPools(height))
      ensures Present(files, Block(height))
    {
      AllPathsDistinct(BlockPools(height));
    }
  }

  // ---- A manifest already there ----

  /** The directory's manifest loads as `data`, and every file it lists is in place. */
  ghost predicate Listed(files: Files, data: ManifestData, codec: Codec) {
    && MANIFEST in files && codec.loadManifest(files[MANIFEST]) == Ok(data)
    && forall i | 0 <= i < |data.files| ::
         && Writable(data.files[i].path) && data.files[i].path != MANIFEST && data.files[i].path != MANIFEST_HASH
         && InPlace(files, data.files[i], codec)
  }

  /** The manifest, if it is there, describes files that are all in place. */
  ghost predicate ManifestIsEarned(files: Files, codec: Codec) {
    MANIFEST in files ==>
      && codec.loadManifest(files[MANIFEST]).Ok?
      && var data := codec.loadManifest(files[MANIFEST]).value;
         forall i | 0 <= i < |data.files| :: InPlace(files, data.files[i], codec)
  }

  ghost predicate EntryMatches(entry: FileEntry, contents: Bytes, codec: Codec) {
    |contents| == entry.sizeBytes && codec.sha256(contents) == entry.sha256
  }

  /** The contents are what the manifest lists for the file, if it lists it. */
  ghost predicate Matches(data: ManifestData, file: BundleFile, contents: Bytes, codec: Codec) {
    forall i | 0 <= i < |data.files| && data.files[i].path == file.Path() ::
      EntryMatches(data.files[i], contents, codec)
  }

  /** The evidence the manifest lists is what this node serves. */
  ghost predicate EvidenceMatches(data: ManifestData, request: Request, node: Node, codec: Codec) {
    forall file | Wanted(file, request.interval) && IsEvidence(file) ::
      Matches(data, file, Content(file, request, node), codec)
  }

  /** Whatever manifest was earned still is, if it lists what this node serves. */
  ghost predicate Carries(before: Files, after: Files, request: Request, node: Node, codec: Codec) {
    forall data | Listed(before, data, codec) && EvidenceMatches(data, request, node, codec) ::
      Listed(after, data, codec)
  }

  lemma WriteKeepsManifestBytes(files: Files, file: BundleFile, contents: Bytes)
    requires MANIFEST in files && !IsManifest(file)
    ensures MANIFEST in WrittenTo(files, file.Path(), contents)
    ensures WrittenTo(files, file.Path(), contents)[MANIFEST] == files[MANIFEST]
    ensures forall after | Interrupted(files, after, file.Path(), contents) ::
              MANIFEST in after && after[MANIFEST] == files[MANIFEST]
  {
    hide BundleFile.Path, WrittenTo, Interrupted, MANIFEST, MANIFEST_HASH, PartialOf;
    ManifestKeys();
    WriteView(files, file, contents);
    assert Present(files, ManifestFile);
    assert Present(WrittenTo(files, file.Path(), contents), ManifestFile);
    forall after | Interrupted(files, after, file.Path(), contents)
      ensures MANIFEST in after && after[MANIFEST] == files[MANIFEST]
    {
      InterruptedView(files, after, file, contents);
      assert Present(after, ManifestFile);
    }
  }

  /** One listed file after a write. */
  lemma EntryAfterWrite(files: Files, file: BundleFile, contents: Bytes, entry: FileEntry, codec: Codec)
    requires Writable(entry.path) && InPlace(files, entry, codec)
    ensures InPlace(WrittenTo(files, file.Path(), contents), entry, codec) <==>
            (entry.path == file.Path() ==> EntryMatches(entry, contents, codec))
    ensures forall after | Interrupted(files, after, file.Path(), contents) :: InPlace(after, entry, codec)
  {
    FileKeys(file);
    hide BundleFile.Path, WrittenTo, Interrupted, Writable, Safe, FileAt;
    WriteLeavesOthers(files, file.Path(), contents, entry.path);
  }

  /** A write keeps an earned manifest earned exactly when it writes what the manifest lists; a write cut
      off before its rename always does. */
  lemma WriteKeepsListedExactly(files: Files, file: BundleFile, contents: Bytes, data: ManifestData, codec: Codec)
    requires Listed(files, data, codec) && !IsManifest(file)
    ensures var after := WrittenTo(files, file.Path(), contents);
            && MANIFEST in after
            && (Listed(after, data, codec) <==> Matches(data, file, contents, codec))
            && (ManifestIsEarned(after, codec) <==> Matches(data, file, contents, codec))
    ensures forall after | Interrupted(files, after, file.Path(), contents) :: Listed(after, data, codec)
  {
    hide BundleFile.Path, WrittenTo, Interrupted, Writable, InPlace, EntryMatches, MANIFEST, MANIFEST_HASH;
    WriteKeepsManifestBytes(files, file, contents);
    forall i | 0 <= i < |data.files|
      ensures InPlace(WrittenTo(files, file.Path(), contents), data.files[i], codec) <==>
              (data.files[i].path == file.Path() ==> EntryMatches(data.files[i], contents, codec))
      ensures forall after | Interrupted(files, after, file.Path(), contents) :: InPlace(after, data.files[i], codec)
    {
      EntryAfterWrite(files, file, contents, data.files[i], codec);
    }
  }

  /** A manifest earned in a directory whose evidence is this node's lists what the node serves. */
  lemma EarnedEvidenceMatches(files: Files, data: ManifestData, codec: Codec, request: Request, node: Node)
    requires Listed(files, data, codec)
    requires forall file | Wanted(file, request.interval) && IsEvidence(file) && Present(files, file) ::
               files[file.Path()] == Content(file, request, node)
    ensures EvidenceMatches(data, request, node, codec)
  {
    forall file, i | Wanted(file, request.interval) && IsEvidence(file)
                     && 0 <= i < |data.files| && data.files[i].path == file.Path()
      ensures EntryMatches(data.files[i], Content(file, request, node), codec)
    {
      FoundOnDisk(files, file);
      hide BundleFile.Path, FileAt, Writable, MANIFEST, MANIFEST_HASH;
    }
  }

  /** The files of a bundle that come from the attempt rather than from the chain. */
  predicate IsSessionFile(file: BundleFile) {
    !IsEvidence(file) && !IsManifest(file)
  }

  function SessionContent(file: BundleFile, session: Session, request: Request): Bytes
    requires IsSessionFile(file)
  {
    match file
    case NodeInfo => session.nodeInfo
    case ChainInfoStart => session.chainStart
    case ChainInfoEnd => session.chainEnd
    case Environment => session.environment
    case Command => request.command
    case ToolVersion => request.toolVersion
  }

  /** The attempt's own files are the ones the manifest lists. */
  ghost predicate SessionMatches(data: ManifestData, session: Session, request: Request, codec: Codec) {
    forall file | IsSessionFile(file) :: Matches(data, file, SessionContent(file, session, request), codec)
  }

  /** The attempt's own files among `done` are there, with what the attempt puts in them. */
  ghost predicate Stores(files: Files, done: set<BundleFile>, session: Session, request: Request) {
    forall file | file in done && IsSessionFile(file) ::
      Present(files, file) && files[file.Path()] == SessionContent(file, session, request)
  }

  /** The attempt's own files are left as they are. */
  ghost predicate KeepsSession(before: Files, after: Files) {
    forall file | IsSessionFile(file) && Present(before, file) ::
      Present(after, file) && after[file.Path()] == before[file.Path()]
  }

  /** What an attempt writes of its own, file by file. */
  ghost predicate HoldsSession(files: Files, session: Session, request: Request) {
    && NodeInfo.Path() in files && files[NodeInfo.Path()] == session.nodeInfo
    && ChainInfoStart.Path() in files && files[ChainInfoStart.Path()] == session.chainStart
    && ChainInfoEnd.Path() in files && files[ChainInfoEnd.Path()] == session.chainEnd
    && Environment.Path() in files && files[Environment.Path()] == session.environment
    && Command.Path() in files && files[Command.Path()] == request.command
    && ToolVersion.Path() in files && files[ToolVersion.Path()] == request.toolVersion
  }

  lemma StoresAll(files: Files, session: Session, request: Request)
    requires request.interval.Valid() && Stores(files, AllFiles(request.interval), session, request)
    ensures HoldsSession(files, session, request)
  {
    hide BundleFile.Path;
    assert forall file | IsSessionFile(file) :: file in AllFiles(request.interval);
    assert IsSessionFile(NodeInfo) && IsSessionFile(ChainInfoStart) && IsSessionFile(ChainInfoEnd);
    assert IsSessionFile(Environment) && IsSessionFile(Command) && IsSessionFile(ToolVersion);
  }

  lemma StoresKept(before: Files, after: Files, done: set<BundleFile>, session: Session, request: Request)
    requires Stores(before, done, session, request) && KeepsSession(before, after)
    ensures Stores(after, done, session, request)
  {
    hide BundleFile.Path;
  }

  lemma StoresMore(files: Files, done: set<BundleFile>, more: set<BundleFile>, session: Session, request: Request)
    requires Stores(files, done, session, request) && forall file | file in more :: IsEvidence(file)
    ensures Stores(files, done + more, session, request)
  {
    hide BundleFile.Path;
  }

  lemma KeepsSessionChain()
    ensures forall files: Files :: KeepsSession(files, files)
    ensures forall before: Files, mid: Files, after: Files | KeepsSession(before, mid) && KeepsSession(mid, after) ::
              KeepsSession(before, after)
  {
    hide BundleFile.Path;
  }

  lemma WriteStores(
    files: Files, file: BundleFile, contents: Bytes, done: set<BundleFile>, session: Session, request: Request)
    ensures var after := WrittenTo(files, file.Path(), contents);
            && (IsSessionFile(file) && contents == SessionContent(file, session, request)
                && Stores(files, done, session, request) ==>
                  Stores(after, done + {file}, session, request))
  {
    hide BundleFile.Path, WrittenTo;
    WriteView(files, file, contents);
  }

  lemma SessionKept(files: Files, file: BundleFile, contents: Bytes)
    requires !IsSessionFile(file)
    ensures KeepsSession(files, WrittenTo(files, file.Path(), contents))
  {
    hide BundleFile.Path, WrittenTo;
    WriteView(files, file, contents);
  }

  /** Whatever manifest was earned still is, provided it lists what this attempt writes. */
  ghost predicate CarriesMatching(
    before: Files, after: Files, session: Session, request: Request, node: Node, codec: Codec)
  {
    forall data | Listed(before, data, codec)
                  && SessionMatches(data, session, request, codec) && EvidenceMatches(data, request, node, codec) ::
      Listed(after, data, codec)
  }

  lemma EncodedStays(entries: seq<FileEntry>, file: BundleFile, entry: FileEntry)
    requires Encoded(entries) && entry.path == file.Path() && entry.encoding == EncodingOf(file)
    ensures Encoded(Recorded(entries, entry))
  {
    AllPathsDistinct(file);
    hide BundleFile.Path;
    var after := Recorded(entries, entry);
    forall i, other: BundleFile | 0 <= i < |after| && after[i].path == other.Path()
      ensures after[i].encoding == EncodingOf(other)
    {
      if i < |after| - 1 {
        assert after[i] in Without(entries, entry.path);
        assert after[i] in entries;
      }
    }
  }

  lemma WriteRecords(
    files: Files, entries: seq<FileEntry>, done: set<BundleFile>, codec: Codec,
    file: BundleFile, contents: Bytes, encoding: Encoding)
    requires Recording(files, entries, done, codec) && !IsManifest(file) && encoding == EncodingOf(file)
    ensures Recording(WrittenTo(files, file.Path(), contents),
                      Recorded(entries, EntryOf(file.Path(), contents, encoding, codec)), done + {file}, codec)
  {
    hide BundleFile.Path, WrittenTo, Recorded, Faithful, AllWritable, Writable, PathsOf, Encoded;
    FileKeys(file);
    EncodedStays(entries, file, EntryOf(file.Path(), contents, encoding, codec));
    WriteKeepsFaithful(entries, files, file.Path(), contents, encoding, codec);
    PathsOfRecorded(entries, EntryOf(file.Path(), contents, encoding, codec));
  }

  lemma WriteStaysOnTrack(
    files: Files, done: set<BundleFile>, request: Request, node: Node, file: BundleFile, contents: Bytes)
    requires OnTrack(files, done, request, node) && MayWrite(files, file, contents, request, node)
    ensures var after := WrittenTo(files, file.Path(), contents);
            OnTrack(after, done + {file}, request, node) && (NoOrphans(files) ==> NoOrphans(after))
    ensures forall after | Interrupted(files, after, file.Path(), contents) && NoOrphans(files) ::
              Resumable(after, request, node)
  {
    hide BundleFile.Path, WrittenTo, Interrupted, Sound, NoOrphans;
    WriteView(files, file, contents);
    WriteKeepsSound(files, file, contents, request, node);
    forall after | Interrupted(files, after, file.Path(), contents) && NoOrphans(files)
      ensures Resumable(after, request, node)
    {
      InterruptedKeepsSound(files, after, file, contents, request, node);
    }
  }

  /** Writes one file of the bundle. */
  method Store(
    writer: BundleWriter, file: BundleFile, contents: Bytes, encoding: Encoding,
    ghost done: set<BundleFile>, ghost request: Request, ghost node: Node)
    returns (r: Result<()>)
    requires Recording(writer.disk.files, writer.entries, done, writer.codec)
    requires !IsManifest(file) && Wanted(file, request.interval) && encoding == EncodingOf(file)
    modifies writer, writer.disk`files
    ensures r.Ok? ==> Recording(writer.disk.files, writer.entries, done + {file}, writer.codec)
    ensures r.Ok? ==> writer.disk.files == WrittenTo(old(writer.disk.files), file.Path(), contents)
    ensures old(OnTrack(writer.disk.files, done, request, node) &&
                MayWrite(writer.disk.files, file, contents, request, node)) ==>
              && (r.Ok? ==> OnTrack(writer.disk.files, done + {file}, request, node))
              && (old(NoOrphans(writer.disk.files)) ==> Resumable(writer.disk.files, request, node))
    ensures SameManifest(old(writer.disk.files), writer.disk.files)
    ensures KeepsForeign(old(writer.disk.files), writer.disk.files, request.interval)
    ensures forall other | other != file || r.Err? :: KeepsFile(old(writer.disk.files), writer.disk.files, other)
    ensures r.Ok? ==> AddsOnly(old(writer.disk.files), writer.disk.files, Siblings(file))
    ensures forall data | old(Listed(writer.disk.files, data, writer.codec))
                        && Matches(data, file, contents, writer.codec) ::
              Listed(writer.disk.files, data, writer.codec)
    ensures !writer.disk.faulty ==> r.Ok?
  {
    ghost var files := writer.disk.files;
    FileKeys(file);
    hide BundleFile.Path, WrittenTo, Interrupted, Recorded, Recording, OnTrack, Writable, Safe, EndsInName;
    hide Listed, Matches, Sound, NoOrphans, KeepsForeign, KeepsFile, AddsOnly;
    WriteKeeps(files, file, contents, request.interval);
    WriteAdds(files, file, contents);
    forall data | Listed(files, data, writer.codec)
      ensures Matches(data, file, contents, writer.codec) ==>
                Listed(WrittenTo(files, file.Path(), contents), data, writer.codec)
      ensures forall after | Interrupted(files, after, file.Path(), contents) :: Listed(after, data, writer.codec)
    {
      WriteKeepsListedExactly(files, file, contents, data, writer.codec);
    }
    WriteRecords(files, writer.entries, done, writer.codec, file, contents, encoding);
    WriteKeepsManifest(files, file, contents);
    if OnTrack(files, done, request, node) && MayWrite(files, file, contents, request, node) {
      WriteStaysOnTrack(files, done, request, node, file, contents);
      OnTrackIsSound(WrittenTo(files, file.Path(), contents), done + {file}, request, node);
    }
    r := writer.Write(file.Path(), contents, encoding);
  }

  lemma OnTrackIsSound(files: Files, done: set<BundleFile>, request: Request, node: Node)
    ensures OnTrack(files, done, request, node) ==> Sound(files, request, node)
  {
    hide Sound;
  }

  lemma FoundOnDisk(files: Files, file: BundleFile)
    ensures FileAt(files, file.Path()) == if Present(files, file) then Some(files[file.Path()]) else None
  {
    FileKeys(file);
  }

  lemma AdoptRecords(
    files: Files, entries: seq<FileEntry>, done: set<BundleFile>, codec: Codec, file: BundleFile, encoding: Encoding)
    requires Recording(files, entries, done, codec) && !IsManifest(file) && Present(files, file)
    requires encoding == EncodingOf(file)
    ensures FileAt(files, file.Path()) == Some(files[file.Path()])
    ensures Recording(files, Recorded(entries, EntryOf(file.Path(), files[file.Path()], encoding, codec)),
                      done + {file}, codec)
  {
    hide BundleFile.Path, Recorded, Faithful, AllWritable, Writable, PathsOf, FileAt, Encoded;
    EncodedStays(entries, file, EntryOf(file.Path(), files[file.Path()], encoding, codec));
    FileKeys(file);
    FoundOnDisk(files, file);
    AdoptKeepsFaithful(entries, files, file.Path(), encoding, codec);
    PathsOfRecorded(entries, EntryOf(file.Path(), files[file.Path()], encoding, codec));
  }

  /** Adopts one file of the bundle left by an earlier attempt. */
  method Reuse(writer: BundleWriter, file: BundleFile, encoding: Encoding, ghost done: set<BundleFile>)
    returns (r: Result<Bytes>)
    requires Recording(writer.disk.files, writer.entries, done, writer.codec) && !IsManifest(file)
    requires Present(writer.disk.files, file) && encoding == EncodingOf(file)
    modifies writer
    ensures r.Ok? ==> Recording(writer.disk.files, writer.entries, done + {file}, writer.codec)
    ensures r.Ok? ==> r.value == writer.disk.files[file.Path()]
    ensures !writer.disk.faulty ==> r.Ok?
  {
    FileKeys(file);
    AdoptRecords(writer.disk.files, writer.entries, done, writer.codec, file, encoding);
    hide BundleFile.Path, Recorded, Recording, Writable, Safe, FileAt;
    r := writer.Adopt(file.Path(), encoding);
  }

  /** Whether a file of the bundle is already present. */
  method Has(writer: BundleWriter, file: BundleFile) returns (present: bool)
    ensures present <==> Present(writer.disk.files, file)
  {
    FileKeys(file);
    var r := writer.Contains(file.Path());
    present := r.value;
  }

  function HeightFiles(height: u32): set<BundleFile> {
    {Block(height), BlockPools(height)}
  }

  /** Writing both files of a height not yet adoptable settles it, whatever one of them held before. */
  lemma HeightWritten(files: Files, done: set<BundleFile>, request: Request, node: Node, height: u32)
    requires OnTrack(files, done, request, node) && request.interval.Contains(height)
    requires !Adoptable(files, Block(height))
    ensures var mid := WrittenTo(files, Block(height).Path(), node.rawHex(height));
            var after := WrittenTo(mid, BlockPools(height).Path(), node.poolState(height));
            && OnTrack(after, done + HeightFiles(height), request, node)
            && (NoOrphans(files) ==>
                  && MayWrite(files, Block(height), node.rawHex(height), request, node)
                  && MayWrite(mid, BlockPools(height), node.poolState(height), request, node))
  {
    hide BundleFile.Path, WrittenTo;
    var mid := WrittenTo(files, Block(height).Path(), node.rawHex(height));
    WriteView(files, Block(height), node.rawHex(height));
    WriteView(mid, BlockPools(height), node.poolState(height));
    var after := WrittenTo(mid, BlockPools(height).Path(), node.poolState(height));
    forall other | Adoptable(after, other)
      ensures Holds(after, other, request, node) && !Pending(after, other)
    {
      assert Adoptable(files, other) ==> Holds(files, other, request, node);
    }
  }

  /** A height already there in both files is settled as it is. */
  lemma AdoptedHeight(files: Files, done: set<BundleFile>, request: Request, node: Node, height: u32)
    ensures OnTrack(files, done, request, node) ==> Sound(files, request, node)
    ensures OnTrack(files, done, request, node) && Adoptable(files, Block(height)) ==>
              && OnTrack(files, done + HeightFiles(height), request, node)
              && files[Block(height).Path()] == node.rawHex(height)
              && files[BlockPools(height).Path()] == node.poolState(height)
  {
    hide BundleFile.Path, Known;
    assert Adoptable(files, Block(height)) ==> Adoptable(files, BlockPools(height));
  }

  /** Nothing adoptable was written over, neither between the two writes nor after. */
  lemma HeightKeeps(before: Files, mid: Files, after: Files, interval: HeightInterval, height: u32)
    requires !Adoptable(before, Block(height))
    requires KeepsForeign(before, mid, interval) && KeepsForeign(mid, after, interval)
    requires forall other | other != Block(height) :: KeepsFile(before, mid, other)
    requires forall other | other != BlockPools(height) :: KeepsFile(mid, after, other)
    ensures Keeps(before, after, interval)
  {
    hide BundleFile.Path, Known;
    forall file: BundleFile
      ensures KeepsFile(before, after, file)
    {
      if Adoptable(before, file) {
        assert file != Block(height) && file != BlockPools(height);
        assert KeepsFile(before, mid, file) && KeepsFile(mid, after, file);
      }
    }
  }

  lemma KeepsAll(before: Files, after: Files, interval: HeightInterval, file: BundleFile)
    requires !Adoptable(before, file) && KeepsForeign(before, after, interval)
    requires forall other | other != file :: KeepsFile(before, after, other)
    ensures Keeps(before, after, interval)
  {
    assert KeepsFile(before, after, file);
  }

  lemma WrittenIsTaken(files: Files, height: u32, request: Request, node: Node)
    requires !Adoptable(files, Block(height))
    ensures var mid := WrittenTo(files, Block(height).Path(), node.rawHex(height));
            var after := WrittenTo(mid, BlockPools(height).Path(), node.poolState(height));
            HoldsTaken(files, after, height, request, node)
  {
    hide BundleFile.Path, WrittenTo;
    WriteView(files, Block(height), node.rawHex(height));
    WriteView(
      WrittenTo(files, Block(height).Path(), node.rawHex(height)), BlockPools(height), node.poolState(height));
  }

  /** Writes both files of a height, the block first. */
  method StoreHeight(
    writer: BundleWriter, node: Node, height: u32, ghost done: set<BundleFile>, ghost request: Request)
    returns (r: Result<()>)
    requires Recording(writer.disk.files, writer.entries, done, writer.codec)
    requires request.interval.Contains(height)
    requires !Adoptable(writer.disk.files, Block(height))
    modifies writer, writer.disk`files
    ensures r.Ok? ==> Recording(writer.disk.files, writer.entries, done + HeightFiles(height), writer.codec)
    ensures Undisturbed(old(writer.disk.files), writer.disk.files, request.interval)
    ensures Carries(old(writer.disk.files), writer.disk.files, request, node, writer.codec)
    ensures r.Ok? ==> AddsOnly(old(writer.disk.files), writer.disk.files, HeightFiles(height))
    ensures r.Ok? ==> KeepsSession(old(writer.disk.files), writer.disk.files)
    ensures r.Ok? ==> HoldsTaken(old(writer.disk.files), writer.disk.files, height, request, node)
    ensures old(OnTrack(writer.disk.files, done, request, node)) ==>
              && (r.Ok? ==> OnTrack(writer.disk.files, done + HeightFiles(height), request, node))
              && (old(NoOrphans(writer.disk.files)) ==> Resumable(writer.disk.files, request, node))
    ensures !writer.disk.faulty ==> r.Ok?
  {
    hide BundleFile.Path, Listed, Matches, Recording, WrittenTo, Known;
    ghost var files := writer.disk.files;
    if OnTrack(files, done, request, node) {
      HeightWritten(files, done, request, node, height);
    }
    var stored := Store(writer, Block(height), node.rawHex(height), RawBlockHex, done, request, node);
    ghost var mid := writer.disk.files;
    KeepsAll(files, mid, request.interval, Block(height));
    if stored.Err? {
      return stored;
    }
    assert done + {Block(height)} + {BlockPools(height)} == done + HeightFiles(height);
    r := Store(writer, BlockPools(height), node.poolState(height), Json, done + {Block(height)}, request, node);
    HeightKeeps(files, mid, writer.disk.files, request.interval, height);
    if r.Ok? {
      WrittenIsTaken(files, height, request, node);
      SessionKept(files, Block(height), node.rawHex(height));
      SessionKept(mid, BlockPools(height), node.poolState(height));
      KeepsSessionChain();
      AddsChain(files, mid, writer.disk.files, HeightFiles(height), HeightFiles(height));
      assert HeightFiles(height) + HeightFiles(height) == HeightFiles(height);
    }
  }

  /** Adopts both files of a height, refusing what the parser would. */
  method AdoptHeight(writer: BundleWriter, height: u32, ghost done: set<BundleFile>)
    returns (r: Result<CapturedBlockState>)
    requires Recording(writer.disk.files, writer.entries, done, writer.codec)
    requires Adoptable(writer.disk.files, Block(height))
    modifies writer
    ensures r.Ok? ==>
              && Recording(writer.disk.files, writer.entries, done + HeightFiles(height), writer.codec)
              && ValidateBlockHex(writer.disk.files[Block(height).Path()]).Ok?
              && r == ParsePoolState(height, writer.disk.files[BlockPools(height).Path()], writer.codec)
              && HasBalances(r.value)
    ensures (&& !writer.disk.faulty && ValidateBlockHex(writer.disk.files[Block(height).Path()]).Ok?
             && ParsePoolState(height, writer.disk.files[BlockPools(height).Path()], writer.codec).Ok?) ==> r.Ok?
  {
    hide BundleFile.Path, Recording;
    var hex :- Reuse(writer, Block(height), RawBlockHex, done);
    var pools :- Reuse(writer, BlockPools(height), Json, done + {Block(height)});
    assert done + {Block(height)} + {BlockPools(height)} == done + HeightFiles(height);
    var _ :- ValidateBlockHex(hex);
    r := ParsePoolState(height, pools, writer.codec);
  }

  /** Settles both files of a height, by adoption when both are there and by fetching them otherwise. Nothing
      the parser refuses is written or adopted, and wherever it stops the directory can be resumed. */
  method FetchHeight(
    writer: BundleWriter, node: Node, height: u32, ghost done: set<BundleFile>, ghost request: Request)
    returns (r: Result<CapturedBlockState>)
    requires Recording(writer.disk.files, writer.entries, done, writer.codec)
    requires request.interval.Contains(height)
    modifies writer, writer.disk`files
    ensures r.Ok? ==>
              && Recording(writer.disk.files, writer.entries, done + HeightFiles(height), writer.codec)
              && HasBalances(r.value)
    ensures Undisturbed(old(writer.disk.files), writer.disk.files, request.interval)
    ensures Carries(old(writer.disk.files), writer.disk.files, request, node, writer.codec)
    ensures old(OnTrack(writer.disk.files, done, request, node)) ==>
              && (r.Ok? ==>
                    && OnTrack(writer.disk.files, done + HeightFiles(height), request, node)
                    && r == ParsePoolState(height, node.poolState(height), writer.codec))
              && (old(NoOrphans(writer.disk.files)) ==> Resumable(writer.disk.files, request, node))
    ensures r.Ok? ==>
              && old(AcceptsHeight(writer.disk.files, height, request, node, writer.codec))
              && r == ParsePoolState(
                        height, old(Taken(writer.disk.files, BlockPools(height), request, node)), writer.codec)
              && AddsOnly(old(writer.disk.files), writer.disk.files, HeightFiles(height))
              && KeepsSession(old(writer.disk.files), writer.disk.files)
              && HoldsTaken(old(writer.disk.files), writer.disk.files, height, request, node)
    ensures !writer.disk.faulty && old(AcceptsHeight(writer.disk.files, height, request, node, writer.codec)) ==> r.Ok?
  {
    KeepsChain(request.interval);
    AdoptedHeight(writer.disk.files, done, request, node, height);
    hide BundleFile.Path, Listed, Matches, EvidenceMatches, Known, Recording, Keeps, Sound, NoOrphans, OnTrack;
    hide MANIFEST;
    hide ParsePoolState, ValidateBlockHex, AddsOnly, KeepsSession;
    var hasBlock := Has(writer, Block(height));
    var hasPools := Has(writer, BlockPools(height));
    if hasBlock && hasPools {
      AddsNothing(writer.disk.files, HeightFiles(height));
      KeepsSessionChain();
      r := AdoptHeight(writer, height, done);
      return r;
    }

    if writer.disk.faulty { if * { return Err(Rpc); } }  // the node stops answering
    var hex, pools := node.rawHex(height), node.poolState(height);
    var state :- ParsePoolState(height, pools, writer.codec);
    var _ :- ValidateBlockHex(hex);
    var _ :- StoreHeight(writer, node, height, done, request);
    r := Ok(state);
  }

  /** Settles the anchor's block, by adoption when there is one. */
  method WriteAnchorBlock(writer: BundleWriter, node: Node, request: Request, ghost done: set<BundleFile>)
    returns (r: Result<()>)
    requires Recording(writer.disk.files, writer.entries, done, writer.codec)
    modifies writer, writer.disk`files
    ensures r.Ok? ==> Recording(writer.disk.files, writer.entries, done + {AnchorBlock}, writer.codec)
    ensures Undisturbed(old(writer.disk.files), writer.disk.files, request.interval)
    ensures Carries(old(writer.disk.files), writer.disk.files, request, node, writer.codec)
    ensures old(OnTrack(writer.disk.files, done, request, node)) ==>
              && (r.Ok? ==> OnTrack(writer.disk.files, done + {AnchorBlock}, request, node))
              && (old(NoOrphans(writer.disk.files)) ==> Resumable(writer.disk.files, request, node))
    ensures r.Ok? ==>
              && old(ValidateBlockHex(Taken(writer.disk.files, AnchorBlock, request, node)).Ok?)
              && Present(writer.disk.files, AnchorBlock)
              && writer.disk.files[AnchorBlock.Path()] == old(Taken(writer.disk.files, AnchorBlock, request, node))
              && AddsOnly(old(writer.disk.files), writer.disk.files, {AnchorBlock})
              && KeepsSession(old(writer.disk.files), writer.disk.files)
    ensures (&& !writer.disk.faulty
             && old(ValidateBlockHex(Taken(writer.disk.files, AnchorBlock, request, node)).Ok?)) ==> r.Ok?
  {
    hide BundleFile.Path, MANIFEST, Listed, Matches, Known, Recording, WrittenTo, KeepsSession, ValidateBlockHex;
    ghost var files := writer.disk.files;
    KeepsChain(request.interval);
    KeepsSessionChain();
    var hasBlock := Has(writer, AnchorBlock);
    if hasBlock {
      assert Sound(files, request, node) ==> Adoptable(files, AnchorBlock) && Holds(files, AnchorBlock, request, node);
      var hex :- Reuse(writer, AnchorBlock, RawBlockHex, done);
      r := ValidateBlockHex(hex);
    } else {
      if writer.disk.faulty { if * { return Err(Rpc); } }
      var hex := node.rawHex(request.interval.anchor);
      var _ :- ValidateBlockHex(hex);
      WriteView(files, AnchorBlock, hex);
      SessionKept(files, AnchorBlock, hex);
      r := Store(writer, AnchorBlock, hex, RawBlockHex, done, request, node);
      KeepsAll(files, writer.disk.files, request.interval, AnchorBlock);
    }
  }

  /** Settles the anchor's two files, adopting its block when there is one and always rewriting its record. */
  method WriteAnchor(writer: BundleWriter, node: Node, request: Request, ghost done: set<BundleFile>)
    returns (r: Result<()>)
    requires Recording(writer.disk.files, writer.entries, done, writer.codec)
    modifies writer, writer.disk`files
    ensures r.Ok? ==> Recording(writer.disk.files, writer.entries, done + {AnchorBlock, AnchorPools}, writer.codec)
    ensures Undisturbed(old(writer.disk.files), writer.disk.files, request.interval)
    ensures Carries(old(writer.disk.files), writer.disk.files, request, node, writer.codec)
    ensures old(OnTrack(writer.disk.files, done, request, node)) ==>
              && (r.Ok? ==> OnTrack(writer.disk.files, done + {AnchorBlock, AnchorPools}, request, node))
              && (old(NoOrphans(writer.disk.files)) ==> Resumable(writer.disk.files, request, node))
    ensures r.Ok? ==>
              && old(ValidateBlockHex(Taken(writer.disk.files, AnchorBlock, request, node)).Ok?)
              && Present(writer.disk.files, AnchorBlock)
              && writer.disk.files[AnchorBlock.Path()] == old(Taken(writer.disk.files, AnchorBlock, request, node))
              && AddsOnly(old(writer.disk.files), writer.disk.files, {AnchorBlock, AnchorPools})
              && KeepsSession(old(writer.disk.files), writer.disk.files)
    ensures (&& !writer.disk.faulty
             && old(ValidateBlockHex(Taken(writer.disk.files, AnchorBlock, request, node)).Ok?)) ==> r.Ok?
  {
    hide BundleFile.Path, MANIFEST, Listed, Matches, Known, Recording, WrittenTo, KeepsSession, ValidateBlockHex;
    hide AddsOnly;
    ghost var files := writer.disk.files;
    var pools := node.poolState(request.interval.anchor);
    KeepsChain(request.interval);
    KeepsSessionChain();
    var _ :- WriteAnchorBlock(writer, node, request, done);
    ghost var mid := writer.disk.files;
    WriteView(mid, AnchorPools, pools);
    SessionKept(mid, AnchorPools, pools);
    assert done + {AnchorBlock} + {AnchorPools} == done + {AnchorBlock, AnchorPools};
    OnTrackIsSound(mid, done + {AnchorBlock}, request, node);
    r := Store(writer, AnchorPools, pools, Json, done + {AnchorBlock}, request, node);
    KeepsAll(mid, writer.disk.files, request.interval, AnchorPools);
    if r.Ok? {
      AddsChain(files, mid, writer.disk.files, {AnchorBlock}, {AnchorPools});
      assert {AnchorBlock} + {AnchorPools} == {AnchorBlock, AnchorPools};
    }
  }

  // ---- Blocks of another interval ----

  /** The height a name in the `blocks` directory begins with. */
  function BlockHeightOf(path: string): Option<u32> {
    var segments := Split(path);
    if |segments| < 2 || segments[0] != "blocks" then None else ParseU32(UpToDot(segments[1]))
  }

  /** Fails exactly when some name in the block directory begins with a height outside the interval. */
  function EnsureNoBlocksOutside(files: Files, interval: HeightInterval): (r: Result<()>)
    ensures r.Ok? <==> forall path | path in files && BlockHeightOf(path).Some? ::
                         interval.Contains(BlockHeightOf(path).value)
  {
    var foreign := set path | path in files && BlockHeightOf(path).Some?
                              && !interval.Contains(BlockHeightOf(path).value);
    if foreign == {} then
      assert forall path | path in files && BlockHeightOf(path).Some? :: path !in foreign;
      Ok(())
    else
      assert exists path :: path in foreign;
      Err(InvalidInput)
  }

  lemma PartialSegments(file: BundleFile)
    ensures Split(file.Path() + PARTIAL_SUFFIX) == SuffixLast(file.Segments(), PARTIAL_SUFFIX)
  {
    PathSegments(file);
    JoinUndoesSplit(file.Path());
    hide BundleFile.Path, BundleFile.Segments;
    JoinSuffix(Split(file.Path()), PARTIAL_SUFFIX);
    var renamed := SuffixLast(Split(file.Path()), PARTIAL_SUFFIX);
    forall i | 0 <= i < |renamed|
      ensures '/' !in renamed[i]
    {
      SuffixedName(Split(file.Path())[i]);
    }
    SplitUndoesJoin(renamed);
  }

  lemma HeightOfSegments(path: string, directory: string, height: u32, rest: string)
    requires Split(path) == [directory, Decimal(height) + rest] && directory == "blocks"
    requires rest != "" && rest[0] == '.'
    ensures BlockHeightOf(path) == Some(height)
  {
    hide Decimal, ParseU32, UpToDot, Split;
    UpToDotOfHeight(height, rest);
    HeightRoundTrip(height);
  }

  lemma BlockHeights(file: BundleFile)
    requires file.Block? || file.BlockPools?
    ensures BlockHeightOf(file.Path()) == Some(file.height)
    ensures BlockHeightOf(file.Path() + PARTIAL_SUFFIX) == Some(file.height)
  {
    hide Decimal, ParseU32, UpToDot, Split, BlockHeightOf, BundleFile.Path;
    var name, rest := Decimal(file.height), if file.Block? then ".hex" else ".pools.json";
    PathSegments(file);
    PartialSegments(file);
    assert file.Segments() == ["blocks", name + rest];
    ConcatAssociates(name, rest, PARTIAL_SUFFIX);
    assert SuffixLast(["blocks", name + rest], PARTIAL_SUFFIX) == ["blocks", name + (rest + PARTIAL_SUFFIX)];
    HeightOfSegments(file.Path(), "blocks", file.height, rest);
    HeightOfSegments(file.Path() + PARTIAL_SUFFIX, "blocks", file.height, rest + PARTIAL_SUFFIX);
  }

  lemma OtherDirectories(file: BundleFile)
    requires !file.Block? && !file.BlockPools?
    ensures |file.Segments()| < 2 || file.Segments()[0] != "blocks"
  {
    assert file.Directory() == "" || file.Directory()[0] != "blocks"[0];
  }

  lemma KnownHeights(file: BundleFile)
    ensures var height := if file.Block? || file.BlockPools? then Some(file.height) else None;
            BlockHeightOf(file.Path()) == height && BlockHeightOf(file.Path() + PARTIAL_SUFFIX) == height
  {
    if file.Block? || file.BlockPools? {
      BlockHeights(file);
    } else {
      hide Split, BundleFile.Path, BundleFile.Segments;
      PathSegments(file);
      PartialSegments(file);
      OtherDirectories(file);
    }
  }

  /** Resuming the same request is never mistaken for starting another. */
  lemma SoundHasNoForeignBlocks(files: Files, request: Request, node: Node)
    ensures Sound(files, request, node) ==> EnsureNoBlocksOutside(files, request.interval).Ok?
  {
    hide BundleFile.Path, BlockHeightOf;
    forall path | Sound(files, request, node) && path in files && BlockHeightOf(path).Some?
      ensures request.interval.Contains(BlockHeightOf(path).value)
    {
      assert Known(path, request.interval);
      var file: BundleFile :| Wanted(file, request.interval)
                               && (path == file.Path() || path == file.Path() + PARTIAL_SUFFIX);
      KnownHeights(file);
    }
  }

  // ---- The whole capture ----

  function BlocksBelow(interval: HeightInterval, height: int): set<BundleFile> {
    (set h: u32 | interval.start <= h < height :: Block(h)) +
    (set h: u32 | interval.start <= h < height :: BlockPools(h))
  }

  /** One more height holds what was taken, and the others still do. */
  lemma HeightsHeld(before: Files, mid: Files, after: Files, height: u32, request: Request, node: Node)
    requires Keeps(before, mid, request.interval) && Keeps(mid, after, request.interval)
    requires AddsOnly(before, mid, BlocksBelow(request.interval, height))
    requires forall h: u32 | request.interval.start <= h < height :: HoldsTaken(before, mid, h, request, node)
    requires HoldsTaken(mid, after, height, request, node)
    ensures forall h: u32 | request.interval.start <= h <= height :: HoldsTaken(before, after, h, request, node)
  {
    TakenStays(before, mid, BlocksBelow(request.interval, height), Block(height), request, node);
    TakenStays(before, mid, BlocksBelow(request.interval, height), BlockPools(height), request, node);
    assert HoldsTaken(before, after, height, request, node) by {
      hide BundleFile.Path, Keeps, AddsOnly, Taken;
    }
    hide Keeps, AddsOnly, Taken, HoldsTaken;
    forall h: u32 | request.interval.start <= h < height
      ensures HoldsTaken(before, after, h, request, node)
    {
      HoldsTakenStays(before, mid, after, h, request, node);
    }
  }

  /** A height not reached yet is taken as it was at the beginning. */
  lemma HeightTakenStays(before: Files, mid: Files, height: u32, request: Request, node: Node, codec: Codec)
    requires Keeps(before, mid, request.interval)
    requires AddsOnly(before, mid, BlocksBelow(request.interval, height))
    ensures Taken(before, BlockPools(height), request, node) == Taken(mid, BlockPools(height), request, node)
    ensures AcceptsHeight(before, height, request, node, codec) <==> AcceptsHeight(mid, height, request, node, codec)
  {
    hide Keeps, AddsOnly, Taken;
    TakenStays(before, mid, BlocksBelow(request.interval, height), Block(height), request, node);
    TakenStays(before, mid, BlocksBelow(request.interval, height), BlockPools(height), request, node);
  }

  /** Settles the files of every height from the first to the last, and gives back the last one's record. */
  method CaptureInterval(writer: BundleWriter, node: Node, request: Request, ghost done: set<BundleFile>)
    returns (r: Result<CapturedBlockState>)
    requires request.interval.Valid()
    requires Recording(writer.disk.files, writer.entries, done, writer.codec)
    modifies writer, writer.disk`files
    ensures var done' := done + BlocksBelow(request.interval, request.interval.end + 1);
            && (r.Ok? ==> Recording(writer.disk.files, writer.entries, done', writer.codec) && HasBalances(r.value))
            && (old(OnTrack(writer.disk.files, done, request, node)) && r.Ok? ==>
                  && OnTrack(writer.disk.files, done', request, node)
                  && r == ParsePoolState(request.interval.end, node.poolState(request.interval.end), writer.codec))
    ensures old(OnTrack(writer.disk.files, done, request, node) && NoOrphans(writer.disk.files)) ==>
              Resumable(writer.disk.files, request, node)
    ensures Undisturbed(old(writer.disk.files), writer.disk.files, request.interval)
    ensures Carries(old(writer.disk.files), writer.disk.files, request, node, writer.codec)
    ensures r.Ok? ==> KeepsSession(old(writer.disk.files), writer.disk.files)
    ensures r.Ok? ==> forall h: u32 | request.interval.Contains(h) ::
              HoldsTaken(old(writer.disk.files), writer.disk.files, h, request, node)
    ensures r.Ok? ==>
              var end := request.interval.end;
              && old(AcceptsHeights(writer.disk.files, request, node, writer.codec))
              && r == ParsePoolState(end, old(Taken(writer.disk.files, BlockPools(end), request, node)), writer.codec)
    ensures !writer.disk.faulty && old(AcceptsHeights(writer.disk.files, request, node, writer.codec)) ==> r.Ok?
  {
    hide BundleFile.Path, Recording, OnTrack, Sound, NoOrphans, Listed, Keeps, EvidenceMatches, AddsOnly, Taken;
    hide ParsePoolState, AcceptsHeight, KeepsSession, HoldsTaken;
    KeepsSessionChain();
    var interval := request.interval;
    var last: Option<CapturedBlockState> := None;
    assert done + BlocksBelow(interval, interval.start) == done;
    ghost var before := writer.disk.files;
    ghost var sound := OnTrack(before, done, request, node);
    KeepsChain(interval);
    OnTrackIsSound(before, done, request, node);
    AddsNothing(before, BlocksBelow(interval, interval.start));
    for height: int := interval.start to interval.end + 1
      invariant Recording(writer.disk.files, writer.entries, done + BlocksBelow(interval, height), writer.codec)
      invariant sound ==> OnTrack(writer.disk.files, done + BlocksBelow(interval, height), request, node)
      invariant sound && NoOrphans(before) ==> Resumable(writer.disk.files, request, node)
      invariant Undisturbed(before, writer.disk.files, interval)
      invariant Carries(before, writer.disk.files, request, node, writer.codec)
      invariant height > interval.start ==> last.Some? && HasBalances(last.value)
      invariant sound && height > interval.start ==>
                  Ok(last.value) == ParsePoolState(height - 1, node.poolState(height - 1), writer.codec)
      invariant AddsOnly(before, writer.disk.files, BlocksBelow(interval, height))
      invariant KeepsSession(before, writer.disk.files)
      invariant forall h: u32 | interval.start <= h < height ::
                  HoldsTaken(before, writer.disk.files, h, request, node)
      invariant forall h: u32 | interval.start <= h < height :: AcceptsHeight(before, h, request, node, writer.codec)
      invariant height > interval.start ==>
                  Ok(last.value) ==
                  ParsePoolState(height - 1, Taken(before, BlockPools(height - 1), request, node), writer.codec)
    {
      ghost var mid := writer.disk.files;
      HeightTakenStays(before, mid, height, request, node, writer.codec);
      var state :- FetchHeight(writer, node, height, done + BlocksBelow(interval, height), request);
      assert BlocksBelow(interval, height) + HeightFiles(height) == BlocksBelow(interval, height + 1);
      assert done + BlocksBelow(interval, height) + HeightFiles(height) == done + BlocksBelow(interval, height + 1);
      AddsChain(before, mid, writer.disk.files, BlocksBelow(interval, height), HeightFiles(height));
      HeightsHeld(before, mid, writer.disk.files, height, request, node);
      last := Some(state);
    }
    if last.None? {
      return Err(InvalidInterval);
    }
    r := Ok(last.value);
  }

  /** A header's summary is that of the two records it was built from. */
  ghost predicate Summarises(header: Header, request: Request, anchor: CapturedBlockState, end: CapturedBlockState)
    requires request.interval.Valid()
  {
    && header.schemaVersion == SCHEMA_VERSION
    && header.network == request.network && header.activationHeight == request.network.ActivationHeight()
    && header.interval == IntervalOf(request.interval)
    && header.anchorHash == anchor.blockHash && header.endHash == end.blockHash
    && anchor.pools.Balance(Orchard) == Some(header.anchorOrchard)
    && anchor.pools.Balance(Ironwood) == Some(header.anchorIronwood)
    && end.pools.Balance(Orchard) == Some(header.endOrchard)
    && end.pools.Balance(Ironwood) == Some(header.endIronwood)
  }

  /** A header that summarises what the node serves at the two ends of the interval. */
  ghost predicate DescribesCapture(header: Header, request: Request, node: Node, codec: Codec)
    requires request.interval.Valid()
  {
    var anchor := ParsePoolState(request.interval.anchor, node.poolState(request.interval.anchor), codec);
    var end := ParsePoolState(request.interval.end, node.poolState(request.interval.end), codec);
    anchor.Ok? && end.Ok? && Summarises(header, request, anchor.value, end.value)
  }

  /** The end hash of the manifest is the one the node names for the end block when asked again. */
  ghost predicate Confirms(session: Session, request: Request, header: Header, codec: Codec) {
    var again := ParsePoolState(request.interval.end, session.recheck, codec);
    again.Ok? && again.value.blockHash == header.endHash
  }

  function BuildHeader(request: Request, anchor: CapturedBlockState, end: CapturedBlockState): (r: Result<Header>)
    requires request.interval.Valid()
    ensures r.Ok? ==> HonestHeader(r.value) && Summarises(r.value, request, anchor, end)
  {
    var anchorOrchard :- anchor.pools.RequireBalance(Orchard);
    var anchorIronwood :- anchor.pools.RequireBalance(Ironwood);
    var endOrchard :- end.pools.RequireBalance(Orchard);
    var endIronwood :- end.pools.RequireBalance(Ironwood);
    SupportedMajorIsOne();
    Ok(Header(
      SCHEMA_VERSION,
      BundleId(request.network, request.interval.anchor, request.interval.end),
      request.network, request.network.ActivationHeight(), IntervalOf(request.interval),
      anchor.blockHash, anchorOrchard, anchorIronwood,
      end.blockHash, endOrchard, endIronwood))
  }

  /** Every file of a finished capture but the manifest and its digest. */
  function AllFiles(interval: HeightInterval): set<BundleFile>
    requires interval.Valid()
  {
    EvidenceFiles(interval) + {ChainInfoEnd, Environment, Command, ToolVersion}
  }

  function EvidenceFiles(interval: HeightInterval): set<BundleFile>
    requires interval.Valid()
  {
    IdentityFiles() + {AnchorBlock, AnchorPools} + BlocksBelow(interval, interval.end + 1)
  }

  lemma AllFilesCovers(interval: HeightInterval, file: BundleFile)
    requires interval.Valid() && Wanted(file, interval)
    ensures IsManifest(file) <==> file !in AllFiles(interval)
  {
  }

  lemma SettledIsComplete(files: Files, request: Request, node: Node)
    requires Sound(files, request, node)
    requires forall file: BundleFile | Wanted(file, request.interval) ::
               && Present(files, file) && !Pending(files, file)
               && (IsEvidence(file) ==> Holds(files, file, request, node))
    ensures Complete(files, request, node)
  {
    hide BundleFile.Path;
    forall key
      ensures key in files <==> exists file: BundleFile :: Wanted(file, request.interval) && key == file.Path()
    {
      if key in files {
        assert Known(key, request.interval);
        var file: BundleFile :| Wanted(file, request.interval)
                               && (key == file.Path() || key == file.Path() + PARTIAL_SUFFIX);
        assert !Pending(files, file);
      } else {
        assert forall file: BundleFile | Wanted(file, request.interval) :: Present(files, file);
      }
    }
  }

  /** Finishing is two ordinary writes. */
  lemma FinishIsTwoWrites(files: Files, data: ManifestData, codec: Codec)
    ensures WithManifest(files, data, codec) == WrittenTo(files, ManifestFile.Path(), codec.manifestJson(data))
    ensures Finished(files, data, codec) ==
            WrittenTo(WithManifest(files, data, codec), ManifestDigest.Path(), DigestLine(data, codec))
    ensures forall after :: FinishInterrupted(files, after, data, codec) <==>
              || Interrupted(files, after, ManifestFile.Path(), codec.manifestJson(data))
              || Interrupted(WithManifest(files, data, codec), after, ManifestDigest.Path(), DigestLine(data, codec))
  {
    hide WrittenTo, Interrupted;
  }

  lemma FinishCompletes(
    files: Files, data: ManifestData, codec: Codec, request: Request, node: Node)
    requires request.interval.Valid() && OnTrack(files, AllFiles(request.interval), request, node)
    ensures Complete(Finished(files, data, codec), request, node)
  {
    hide BundleFile.Path, WrittenTo, Finished, WithManifest, Sound, NoOrphans, Complete, AllFiles, Present, Pending;
    hide Content;
    var mid, after := WithManifest(files, data, codec), Finished(files, data, codec);
    FinishIsTwoWrites(files, data, codec);
    WriteView(files, ManifestFile, codec.manifestJson(data));
    WriteKeepsSound(files, ManifestFile, codec.manifestJson(data), request, node);
    WriteView(mid, ManifestDigest, DigestLine(data, codec));
    WriteKeepsSound(mid, ManifestDigest, DigestLine(data, codec), request, node);
    forall file: BundleFile | Wanted(file, request.interval)
      ensures Present(after, file) && !Pending(after, file)
      ensures IsEvidence(file) ==> Holds(after, file, request, node)
    {
      AllFilesCovers(request.interval, file);
      assert file in AllFiles(request.interval) ==> Present(files, file) && Present(mid, file);
    }
    SettledIsComplete(after, request, node);
  }

  lemma FinishInterruptedIsResumable(
    files: Files, after: Files, data: ManifestData, codec: Codec, request: Request, node: Node)
    requires Resumable(files, request, node)
    requires FinishInterrupted(files, after, data, codec)
    ensures Resumable(after, request, node)
  {
    hide BundleFile.Path, WrittenTo, WithManifest, Interrupted, FinishInterrupted, Resumable;
    var mid := WithManifest(files, data, codec);
    FinishIsTwoWrites(files, data, codec);
    WriteKeepsResumable(files, ManifestFile, codec.manifestJson(data), request, node);
    WriteKeepsResumable(mid, ManifestDigest, DigestLine(data, codec), request, node);
  }

  lemma RecordingIsUnreserved(files: Files, entries: seq<FileEntry>, done: set<BundleFile>, codec: Codec)
    requires Recording(files, entries, done, codec)
    ensures Unreserved(entries)
  {
    hide BundleFile.Path, MANIFEST, MANIFEST_HASH, Faithful, AllWritable;
    ManifestKeys();
    AllPathsDistinct(ManifestFile);
    AllPathsDistinct(ManifestDigest);
  }

  lemma SettledHasNothingElse(
    files: Files, entries: seq<FileEntry>, request: Request, node: Node, codec: Codec)
    requires request.interval.Valid()
    requires Recording(files, entries, AllFiles(request.interval), codec)
    requires OnTrack(files, AllFiles(request.interval), request, node)
    ensures NothingElse(files, entries)
  {
    hide BundleFile.Path, PartialOf, Rendered, AllFiles, Faithful, AllWritable, PathsOf, MANIFEST, MANIFEST_HASH;
    ManifestKeys();
    forall key | key in files
      ensures key in PathsOf(entries) || key == MANIFEST || key == MANIFEST_HASH
              || key == PartialOf(MANIFEST) || key == PartialOf(MANIFEST_HASH)
    {
      assert Known(key, request.interval);
      var file: BundleFile :| Wanted(file, request.interval)
                               && (key == file.Path() || key == file.Path() + PARTIAL_SUFFIX);
      AllFilesCovers(request.interval, file);
      if file in AllFiles(request.interval) {
        assert !Pending(files, file);
        assert file.Path() in PathsOf(entries);
      } else {
        assert file == ManifestFile || file == ManifestDigest;
      }
    }
  }

  lemma FinishEarnsManifest(
    files: Files, after: Files, entries: seq<FileEntry>, done: set<BundleFile>, header: Header, codec: Codec)
    requires Recording(files, entries, done, codec) && codec.ManifestRoundTrips()
    requires var data := ManifestData(header, Index(entries));
             after == Finished(files, data, codec) || FinishInterrupted(files, after, data, codec)
    requires MANIFEST in after ==> after[MANIFEST] == codec.manifestJson(ManifestData(header, Index(entries)))
    ensures ManifestIsEarned(after, codec)
  {
    var data := ManifestData(header, Index(entries));
    RecordingIsUnreserved(files, entries, done, codec);
    hide BundleFile.Path, MANIFEST, MANIFEST_HASH, Finished, FinishInterrupted, InPlace, Index, Faithful, AllWritable;
    FinishLeavesEntries(files, after, entries, data, codec);
    IndexedInPlace(after, entries, codec);
    assert codec.loadManifest(codec.manifestJson(data)) == Ok(data);
  }

  lemma FinishedManifestContent(files: Files, after: Files, data: ManifestData, codec: Codec)
    requires after == Finished(files, data, codec) || FinishInterrupted(files, after, data, codec)
    ensures MANIFEST in after &&
            (MANIFEST !in files || !Interrupted(files, after, MANIFEST, codec.manifestJson(data))) ==>
              after[MANIFEST] == codec.manifestJson(data)
    ensures after == Finished(files, data, codec) ==> MANIFEST in after && after[MANIFEST] == codec.manifestJson(data)
  {
    hide BundleFile.Path, MANIFEST, MANIFEST_HASH, Finished, WithManifest, FinishInterrupted, WrittenTo;
    hide Interrupted, PartialOf;
    ManifestKeys();
    FinishIsTwoWrites(files, data, codec);
    var mid := WithManifest(files, data, codec);
    WriteView(files, ManifestFile, codec.manifestJson(data));
    WriteView(mid, ManifestDigest, DigestLine(data, codec));
    assert Present(mid, ManifestFile);
    if Interrupted(files, after, ManifestFile.Path(), codec.manifestJson(data)) {
      InterruptedView(files, after, ManifestFile, codec.manifestJson(data));
      assert Present(after, ManifestFile) <==> Present(files, ManifestFile);
    } else if Interrupted(mid, after, ManifestDigest.Path(), DigestLine(data, codec)) {
      InterruptedView(mid, after, ManifestDigest, DigestLine(data, codec));
      assert Present(after, ManifestFile);
    } else {
      assert Present(after, ManifestFile);
    }
  }

  lemma InterruptedKeepsListed(files: Files, after: Files, listed: ManifestData, contents: Bytes, codec: Codec)
    requires Listed(files, listed, codec) && Interrupted(files, after, MANIFEST, contents)
    ensures Listed(after, listed, codec)
  {
    ManifestNamesAreWritable();
    ManifestKeys();
    InterruptedView(files, after, ManifestFile, contents);
    assert Present(files, ManifestFile) && Present(after, ManifestFile);
    forall i | 0 <= i < |listed.files|
      ensures InPlace(after, listed.files[i], codec)
    {
      WriteLeavesOthers(files, MANIFEST, contents, listed.files[i].path);
      hide Interrupted, FileAt, MANIFEST, BundleFile.Path, Writable;
    }
  }

  /** However far publishing gets, the manifest on disk is an earned one: the old, if that was, or the new. */
  lemma FinishKeepsEarned(
    files: Files, after: Files, entries: seq<FileEntry>, done: set<BundleFile>, header: Header, codec: Codec)
    requires Recording(files, entries, done, codec) && codec.ManifestRoundTrips()
    requires MANIFEST in files ==> exists listed :: Listed(files, listed, codec)
    requires var data := ManifestData(header, Index(entries));
             after == Finished(files, data, codec) || FinishInterrupted(files, after, data, codec)
    ensures ManifestIsEarned(after, codec)
  {
    var data := ManifestData(header, Index(entries));
    FinishedManifestContent(files, after, data, codec);
    if MANIFEST in files && Interrupted(files, after, MANIFEST, codec.manifestJson(data)) {
      var listed :| Listed(files, listed, codec);
      hide MANIFEST, Interrupted, Finished, FinishInterrupted, InPlace, Index, Recording, Writable;
      InterruptedKeepsListed(files, after, listed, codec.manifestJson(data), codec);
    } else {
      hide MANIFEST, Interrupted, Finished, FinishInterrupted, InPlace, Index, Recording;
      FinishEarnsManifest(files, after, entries, done, header, codec);
    }
  }

  function IdentityFiles(): set<BundleFile> {
    {NodeInfo, ChainInfoStart}
  }

  lemma UndisturbedChain(session: Session, request: Request, node: Node, codec: Codec)
    ensures forall before: Files, mid: Files, after: Files |
              && Undisturbed(before, mid, request.interval) && Undisturbed(mid, after, request.interval)
              && CarriesMatching(before, mid, session, request, node, codec)
              && CarriesMatching(mid, after, session, request, node, codec) ::
                && Undisturbed(before, after, request.interval)
                && CarriesMatching(before, after, session, request, node, codec)
  {
    KeepsChain(request.interval);
    hide Keeps, Listed, SessionMatches, EvidenceMatches, MANIFEST;
  }

  /** Writes one of the attempt's own files. */
  method StoreSession(
    writer: BundleWriter, file: BundleFile, encoding: Encoding, session: Session,
    ghost done: set<BundleFile>, request: Request, ghost node: Node)
    returns (r: Result<()>)
    requires Recording(writer.disk.files, writer.entries, done, writer.codec)
    requires IsSessionFile(file) && encoding == EncodingOf(file)
    modifies writer, writer.disk`files
    ensures r.Ok? ==> Recording(writer.disk.files, writer.entries, done + {file}, writer.codec)
    ensures old(OnTrack(writer.disk.files, done, request, node)) ==>
              && (r.Ok? ==> OnTrack(writer.disk.files, done + {file}, request, node))
              && (old(NoOrphans(writer.disk.files)) ==> Resumable(writer.disk.files, request, node))
    ensures Undisturbed(old(writer.disk.files), writer.disk.files, request.interval)
    ensures CarriesMatching(old(writer.disk.files), writer.disk.files, session, request, node, writer.codec)
    ensures r.Ok? ==> AddsOnly(old(writer.disk.files), writer.disk.files, {file})
    ensures r.Ok? && old(Stores(writer.disk.files, done, session, request)) ==>
              Stores(writer.disk.files, done + {file}, session, request)
    ensures !writer.disk.faulty ==> r.Ok?
  {
    hide BundleFile.Path, Recording, Sound, NoOrphans, OnTrack, Present, Listed, Matches, KeepsFile, KeepsForeign;
    hide AddsOnly, Stores, SessionContent;
    ghost var before := writer.disk.files;
    var contents := SessionContent(file, session, request);
    WriteStores(before, file, contents, done, session, request);
    r := Store(writer, file, contents, encoding, done, request, node);
    KeepsAll(before, writer.disk.files, request.interval, file);
  }

  /** Settles the two files in which the node describes itself. */
  method WriteNodeResponses(writer: BundleWriter, session: Session, request: Request, ghost node: Node)
    returns (r: Result<()>)
    requires writer.entries == []
    modifies writer, writer.disk`files
    ensures r.Ok? ==> Recording(writer.disk.files, writer.entries, IdentityFiles(), writer.codec)
    ensures r.Ok? ==> AddsOnly(old(writer.disk.files), writer.disk.files, IdentityFiles())
    ensures r.Ok? ==> Stores(writer.disk.files, IdentityFiles(), session, request)
    ensures old(Sound(writer.disk.files, request, node)) ==>
              && (r.Ok? ==> OnTrack(writer.disk.files, IdentityFiles(), request, node))
              && (old(NoOrphans(writer.disk.files)) ==> Resumable(writer.disk.files, request, node))
    ensures Undisturbed(old(writer.disk.files), writer.disk.files, request.interval)
    ensures CarriesMatching(old(writer.disk.files), writer.disk.files, session, request, node, writer.codec)
    ensures !writer.disk.faulty ==> r.Ok?
  {
    StartRecording(writer.disk.files, writer.entries, writer.codec);
    KeepsChain(request.interval);
    hide BundleFile.Path, MANIFEST, Recording, Sound, NoOrphans, OnTrack, Present, Listed, SessionMatches, Keeps;
    hide EvidenceMatches;
    assert Stores(writer.disk.files, {}, session, request);
    hide AddsOnly, Stores;
    ghost var none: set<BundleFile> := {};
    ghost var before := writer.disk.files;
    var _ :- StoreSession(writer, NodeInfo, Json, session, none, request, node);
    ghost var mid := writer.disk.files;
    assert none + {NodeInfo} + {ChainInfoStart} == {NodeInfo} + {ChainInfoStart} == IdentityFiles();
    r := StoreSession(writer, ChainInfoStart, Json, session, none + {NodeInfo}, request, node);
    if r.Ok? {
      AddsChain(before, mid, writer.disk.files, {NodeInfo}, {ChainInfoStart});
    }
  }

  /** How the attempt was asked for, and by which version. */
  method WriteInvocation(
    writer: BundleWriter, session: Session, ghost done: set<BundleFile>, request: Request, ghost node: Node)
    returns (r: Result<()>)
    requires Recording(writer.disk.files, writer.entries, done, writer.codec)
    modifies writer, writer.disk`files
    ensures var done' := done + {Command, ToolVersion};
            && (r.Ok? ==> Recording(writer.disk.files, writer.entries, done', writer.codec))
            && (old(OnTrack(writer.disk.files, done, request, node)) ==>
                  && (r.Ok? ==> OnTrack(writer.disk.files, done', request, node))
                  && (old(NoOrphans(writer.disk.files)) ==> Resumable(writer.disk.files, request, node)))
            && (r.Ok? && old(Stores(writer.disk.files, done, session, request)) ==>
                  Stores(writer.disk.files, done', session, request))
    ensures Undisturbed(old(writer.disk.files), writer.disk.files, request.interval)
    ensures CarriesMatching(old(writer.disk.files), writer.disk.files, session, request, node, writer.codec)
    ensures !writer.disk.faulty ==> r.Ok?
  {
    OnTrackIsSound(writer.disk.files, done, request, node);
    UndisturbedChain(session, request, node, writer.codec);
    hide BundleFile.Path, MANIFEST, Recording, Sound, NoOrphans, OnTrack, Present, Listed, SessionMatches, Keeps;
    hide EvidenceMatches, Undisturbed, CarriesMatching, Stores;
    assert done + {Command} + {ToolVersion} == done + {Command, ToolVersion};
    var _ :- StoreSession(writer, Command, Text, session, done, request, node);
    r := StoreSession(writer, ToolVersion, Text, session, done + {Command}, request, node);
  }

  /** The attempt's metadata, in the order it is written. */
  method WriteMetadata(
    writer: BundleWriter, session: Session, ghost done: set<BundleFile>, request: Request, ghost node: Node)
    returns (r: Result<()>)
    requires Recording(writer.disk.files, writer.entries, done, writer.codec)
    modifies writer, writer.disk`files
    ensures var done' := done + {Environment, Command, ToolVersion};
            && (r.Ok? ==> Recording(writer.disk.files, writer.entries, done', writer.codec))
            && (old(OnTrack(writer.disk.files, done, request, node)) ==>
                  && (r.Ok? ==> OnTrack(writer.disk.files, done', request, node))
                  && (old(NoOrphans(writer.disk.files)) ==> Resumable(writer.disk.files, request, node)))
            && (r.Ok? && old(Stores(writer.disk.files, done, session, request)) ==>
                  Stores(writer.disk.files, done', session, request))
    ensures Undisturbed(old(writer.disk.files), writer.disk.files, request.interval)
    ensures CarriesMatching(old(writer.disk.files), writer.disk.files, session, request, node, writer.codec)
    ensures !writer.disk.faulty ==> r.Ok?
  {
    OnTrackIsSound(writer.disk.files, done, request, node);
    UndisturbedChain(session, request, node, writer.codec);
    hide BundleFile.Path, MANIFEST, Recording, Sound, NoOrphans, OnTrack, Present, Listed, SessionMatches, Keeps;
    hide EvidenceMatches, Undisturbed, CarriesMatching, Stores;
    assert done + {Environment} + {Command, ToolVersion} == done + {Environment, Command, ToolVersion};
    var _ :- StoreSession(writer, Environment, Json, session, done, request, node);
    r := WriteInvocation(writer, session, done + {Environment}, request, node);
  }

  /** The node's second description of the chain, then the metadata. */
  method WriteClosing(
    writer: BundleWriter, session: Session, ghost done: set<BundleFile>, request: Request, ghost node: Node)
    returns (r: Result<()>)
    requires Recording(writer.disk.files, writer.entries, done, writer.codec)
    modifies writer, writer.disk`files
    ensures var done' := done + {ChainInfoEnd, Environment, Command, ToolVersion};
            && (r.Ok? ==> Recording(writer.disk.files, writer.entries, done', writer.codec))
            && (old(OnTrack(writer.disk.files, done, request, node)) ==>
                  && (r.Ok? ==> OnTrack(writer.disk.files, done', request, node))
                  && (old(NoOrphans(writer.disk.files)) ==> Resumable(writer.disk.files, request, node)))
            && (r.Ok? && old(Stores(writer.disk.files, done, session, request)) ==>
                  Stores(writer.disk.files, done', session, request))
    ensures Undisturbed(old(writer.disk.files), writer.disk.files, request.interval)
    ensures CarriesMatching(old(writer.disk.files), writer.disk.files, session, request, node, writer.codec)
    ensures !writer.disk.faulty ==> r.Ok?
  {
    KeepsChain(request.interval);
    OnTrackIsSound(writer.disk.files, done, request, node);
    hide BundleFile.Path, MANIFEST, Recording, Sound, NoOrphans, OnTrack, Present, Listed, SessionMatches, Keeps;
    hide EvidenceMatches;
    hide Stores;
    if writer.disk.faulty { if * { return Err(Rpc); } }
    var _ :- StoreSession(writer, ChainInfoEnd, Json, session, done, request, node);
    ghost var first := done + {ChainInfoEnd};
    r := WriteMetadata(writer, session, first, request, node);
    assert first + {Environment, Command, ToolVersion} == done + {ChainInfoEnd, Environment, Command, ToolVersion};
  }

  /** The node's description of itself, the anchor and every height, in that order; gives back the
      end block's record. */
  method CaptureEvidence(writer: BundleWriter, node: Node, request: Request, session: Session)
    returns (r: Result<CapturedBlockState>)
    requires request.interval.Valid()
    requires writer.entries == []
    modifies writer, writer.disk`files
    ensures r.Ok? ==> Recording(writer.disk.files, writer.entries, EvidenceFiles(request.interval), writer.codec)
    ensures r.Ok? ==> Stores(writer.disk.files, EvidenceFiles(request.interval), session, request)
    ensures r.Ok? ==> Readable(writer.disk.files, request, writer.codec)
    ensures r.Ok? ==> HasBalances(r.value)
    ensures old(Sound(writer.disk.files, request, node)) ==>
              && (r.Ok? ==>
                    && OnTrack(writer.disk.files, EvidenceFiles(request.interval), request, node)
                    && r == ParsePoolState(request.interval.end, node.poolState(request.interval.end), writer.codec))
              && (old(NoOrphans(writer.disk.files)) ==> Resumable(writer.disk.files, request, node))
    ensures Undisturbed(old(writer.disk.files), writer.disk.files, request.interval)
    ensures CarriesMatching(old(writer.disk.files), writer.disk.files, session, request, node, writer.codec)
    ensures r.Ok? ==>
              var end := request.interval.end;
              && old(ValidateBlockHex(Taken(writer.disk.files, AnchorBlock, request, node)).Ok?)
              && old(AcceptsHeights(writer.disk.files, request, node, writer.codec))
              && r == ParsePoolState(end, old(Taken(writer.disk.files, BlockPools(end), request, node)), writer.codec)
    ensures (&& !writer.disk.faulty
             && old(ValidateBlockHex(Taken(writer.disk.files, AnchorBlock, request, node)).Ok?)
             && old(AcceptsHeights(writer.disk.files, request, node, writer.codec))) ==> r.Ok?
  {
    KeepsChain(request.interval);
    hide BundleFile.Path, Recording, Sound, NoOrphans, OnTrack, IdentityFiles, BlocksBelow, Serves, ParsePoolState;
    hide MANIFEST, Listed, SessionMatches, EvidenceMatches, Keeps, AddsOnly, Taken, AcceptsHeights, ValidateBlockHex;
    hide Stores, KeepsSession, Readable, HoldsTaken;
    ghost var before := writer.disk.files;
    var _ :- WriteNodeResponses(writer, session, request, node);
    AnchorTakenStays(before, writer.disk.files, request, node);
    ghost var mid := writer.disk.files;
    KeepsSessionChain();
    var _ :- WriteAnchor(writer, node, request, IdentityFiles());
    AddsChain(before, mid, writer.disk.files, IdentityFiles(), {AnchorBlock, AnchorPools});
    ghost var anchored := writer.disk.files;
    HeightsTakenStay(before, writer.disk.files, request, node, writer.codec);
    r := CaptureInterval(writer, node, request, IdentityFiles() + {AnchorBlock, AnchorPools});
    if r.Ok? {
      EvidenceStores(mid, writer.disk.files, session, request);
      EvidenceIsReadable(mid, anchored, writer.disk.files, request, node, writer.codec);
    }
  }

  lemma EvidenceIsReadable(
    mid: Files, anchored: Files, after: Files, request: Request, node: Node, codec: Codec)
    requires ValidateBlockHex(Taken(mid, AnchorBlock, request, node)).Ok?
    requires Present(anchored, AnchorBlock)
             && anchored[AnchorBlock.Path()] == Taken(mid, AnchorBlock, request, node)
    requires Keeps(anchored, after, request.interval) && AcceptsHeights(anchored, request, node, codec)
    requires forall h: u32 | request.interval.Contains(h) :: HoldsTaken(anchored, after, h, request, node)
    ensures Readable(after, request, codec)
  {
    hide BundleFile.Path, AcceptsHeights, HoldsTaken, ValidateBlockHex, KeepsForeign;
    assert KeepsFile(anchored, after, AnchorBlock);
    assert Taken(anchored, AnchorBlock, request, node) == anchored[AnchorBlock.Path()];
    hide Taken;
    HoldsTakenIsReadable(anchored, after, request, node, codec);
  }

  lemma EvidenceStores(mid: Files, after: Files, session: Session, request: Request)
    requires request.interval.Valid()
    requires Stores(mid, IdentityFiles(), session, request) && KeepsSession(mid, after)
    ensures Stores(after, EvidenceFiles(request.interval), session, request)
  {
    hide Stores, KeepsSession;
    StoresKept(mid, after, IdentityFiles(), session, request);
    var evidence := {AnchorBlock, AnchorPools} + BlocksBelow(request.interval, request.interval.end + 1);
    StoresMore(after, IdentityFiles(), evidence, session, request);
    assert IdentityFiles() + evidence == EvidenceFiles(request.interval);
  }

  lemma AnchorTakenStays(before: Files, mid: Files, request: Request, node: Node)
    requires Keeps(before, mid, request.interval) && AddsOnly(before, mid, IdentityFiles())
    ensures Taken(before, AnchorBlock, request, node) == Taken(mid, AnchorBlock, request, node)
  {
    hide Keeps, AddsOnly, Taken;
    TakenStays(before, mid, IdentityFiles(), AnchorBlock, request, node);
  }

  lemma HeightsTakenStay(before: Files, mid: Files, request: Request, node: Node, codec: Codec)
    requires Keeps(before, mid, request.interval)
    requires AddsOnly(before, mid, IdentityFiles() + {AnchorBlock, AnchorPools})
    ensures AcceptsHeights(before, request, node, codec) <==> AcceptsHeights(mid, request, node, codec)
    ensures forall height: u32 ::
              Taken(before, BlockPools(height), request, node) == Taken(mid, BlockPools(height), request, node)
  {
    hide Keeps, AddsOnly, Taken, ParsePoolState, ValidateBlockHex;
    forall height: u32
      ensures Taken(before, Block(height), request, node) == Taken(mid, Block(height), request, node)
      ensures Taken(before, BlockPools(height), request, node) == Taken(mid, BlockPools(height), request, node)
    {
      TakenStays(before, mid, IdentityFiles() + {AnchorBlock, AnchorPools}, Block(height), request, node);
      TakenStays(before, mid, IdentityFiles() + {AnchorBlock, AnchorPools}, BlockPools(height), request, node);
    }
  }

  /** Everything between opening the directory and publishing the manifest, in the order it is done. `anchor`
      is the anchor's record, as it was read before the directory was opened. */
  method CaptureFiles(
    writer: BundleWriter, node: Node, request: Request, session: Session, anchor: CapturedBlockState)
    returns (r: Result<Header>)
    requires request.interval.Valid()
    requires Ok(anchor) == AnchorRecord(request, node, writer.codec)
    requires writer.entries == []
    modifies writer, writer.disk`files
    ensures r.Ok? ==> Recording(writer.disk.files, writer.entries, AllFiles(request.interval), writer.codec)
    ensures r.Ok? ==> Stores(writer.disk.files, AllFiles(request.interval), session, request)
    ensures r.Ok? ==> Readable(writer.disk.files, request, writer.codec)
    ensures r.Ok? ==> HonestHeader(r.value) && Confirms(session, request, r.value, writer.codec)
    ensures old(Sound(writer.disk.files, request, node)) && r.Ok? ==>
              && DescribesCapture(r.value, request, node, writer.codec)
              && OnTrack(writer.disk.files, AllFiles(request.interval), request, node)
    ensures old(Resumable(writer.disk.files, request, node)) ==> Resumable(writer.disk.files, request, node)
    ensures Undisturbed(old(writer.disk.files), writer.disk.files, request.interval)
    ensures CarriesMatching(old(writer.disk.files), writer.disk.files, session, request, node, writer.codec)
    ensures r.Ok? ==> old(Accepts(writer.disk.files, session, request, node, writer.codec))
    ensures (&& !writer.disk.faulty
             && old(Accepts(writer.disk.files, session, request, node, writer.codec))) ==> r.Ok?
  {
    KeepsChain(request.interval);
    hide BundleFile.Path, Recording, Sound, NoOrphans, OnTrack, EvidenceFiles, ParsePoolState, Taken, AcceptsHeights;
    hide ValidateBlockHex, Stores, Readable;
    hide MANIFEST, BuildHeader, Summarises, Listed, SessionMatches, EvidenceMatches, Keeps;
    var interval := request.interval;
    var end :- CaptureEvidence(writer, node, request, session);

    if writer.disk.faulty { if * { return Err(Rpc); } }
    var recheck :- ParsePoolState(interval.end, session.recheck, writer.codec);
    if recheck.blockHash != end.blockHash {
      return Err(CaptureIncomplete);
    }
    OnTrackIsSound(writer.disk.files, EvidenceFiles(interval), request, node);
    ghost var read := writer.disk.files;
    var _ :- WriteClosing(writer, session, EvidenceFiles(interval), request, node);
    ReadableStays(read, writer.disk.files, request, writer.codec);
    BuildHeaderSucceeds(request, anchor, end);
    r := BuildHeader(request, anchor, end);
    EndOfHeader(request, anchor, end);
  }

  lemma StartRecording(files: Files, entries: seq<FileEntry>, codec: Codec)
    requires entries == []
    ensures Recording(files, entries, {}, codec)
    ensures forall request, node :: OnTrack(files, {}, request, node) <==> Sound(files, request, node)
  {
    hide BundleFile.Path, Sound;
    ghost var none: set<BundleFile> := {};
    assert PathsOf(entries) == set file | file in none :: file.Path();
  }

  /** A favourable attempt finds nothing it cannot accept in a sound directory. */
  lemma SoundAccepts(files: Files, session: Session, request: Request, node: Node, codec: Codec)
    requires Sound(files, request, node) && Serves(node, request, codec) && Favourable(session, node, request)
    ensures AnchorRecord(request, node, codec).Ok? && Accepts(files, session, request, node, codec)
  {
    hide BundleFile.Path, Known, ParsePoolState, ValidateBlockHex;
    forall file: BundleFile | IsEvidence(file)
      ensures Taken(files, file, request, node) == Content(file, request, node)
    {
      assert Adoptable(files, file) ==> Holds(files, file, request, node);
    }
    hide Taken, Sound;
    assert request.interval.anchor < request.interval.start <= request.interval.end;
    assert Answers(node, request.interval.anchor, codec) && Answers(node, request.interval.end, codec);
    forall height: u32 | request.interval.Contains(height)
      ensures AcceptsHeight(files, height, request, node, codec)
    {
      assert Answers(node, height, codec);
    }
  }

  lemma EndOfHeader(request: Request, anchor: CapturedBlockState, end: CapturedBlockState)
    requires request.interval.Valid() && BuildHeader(request, anchor, end).Ok?
    ensures BuildHeader(request, anchor, end).value.endHash == end.blockHash
  {
  }

  lemma BuildHeaderSucceeds(request: Request, anchor: CapturedBlockState, end: CapturedBlockState)
    requires request.interval.Valid()
    requires HasBalances(anchor) && HasBalances(end)
    ensures BuildHeader(request, anchor, end).Ok?
  {
  }

  // ---- Overwriting, and what a deletion cut off leaves ----

  lemma RemnantIsSound(files: Files, remnant: Files, request: Request, node: Node)
    requires Sound(files, request, node) && RemnantOf(files, remnant)
    ensures Sound(remnant, request, node)
  {
    hide BundleFile.Path, Known;
    forall file | Adoptable(remnant, file)
      ensures Holds(remnant, file, request, node) && !Pending(remnant, file)
    {
      assert Adoptable(files, file);
    }
  }

  lemma RemnantsResumable(files: Files, request: Request, node: Node)
    ensures Sound(files, request, node) ==>
              forall remnant | RemnantOf(files, remnant) :: Resumable(remnant, request, node) <==> NoOrphans(remnant)
    ensures Resumable(map[], request, node) && NoOrphans(map[])
  {
    if Sound(files, request, node) {
      forall remnant | RemnantOf(files, remnant)
        ensures Resumable(remnant, request, node) <==> NoOrphans(remnant)
      {
        RemnantIsSound(files, remnant, request, node);
      }
    }
  }

  // ---- One attempt ----

  lemma EarnedExactly(files: Files, codec: Codec)
    ensures MANIFEST !in files ==> ManifestIsEarned(files, codec)
    ensures forall listed | Listed(files, listed, codec) :: ManifestIsEarned(files, codec)
    ensures forall remnant | RemnantOf(files, remnant) && MANIFEST !in files :: ManifestIsEarned(remnant, codec)
    ensures RemnantOf(files, files)
  {
  }

  lemma FinishKeeps(files: Files, after: Files, data: ManifestData, codec: Codec, interval: HeightInterval)
    requires after == Finished(files, data, codec) || FinishInterrupted(files, after, data, codec)
    ensures Keeps(files, after, interval)
  {
    KeepsChain(interval);
    var mid := WithManifest(files, data, codec);
    FinishIsTwoWrites(files, data, codec);
    hide BundleFile.Path, KeepsForeign, KeepsFile, WrittenTo, WithManifest, Interrupted, Finished, FinishInterrupted;
    WriteKeeps(files, ManifestFile, codec.manifestJson(data), interval);
    KeepsAll(files, mid, interval, ManifestFile);
    WriteKeeps(mid, ManifestDigest, DigestLine(data, codec), interval);
    if after == Finished(files, data, codec) {
      KeepsAll(mid, after, interval, ManifestDigest);
    }
  }

  /** Everything an attempt does once its directory is open. A finished attempt has made a complete capture
      exactly when it began in a sound directory. */
  method CaptureAndFinish(
    disk: Disk, codec: Codec, node: Node, request: Request, session: Session, anchor: CapturedBlockState)
    returns (r: Result<ManifestData>)
    requires request.interval.Valid()
    requires Ok(anchor) == AnchorRecord(request, node, codec)
    modifies disk`files
    ensures old(Resumable(disk.files, request, node)) ==> Resumable(disk.files, request, node)
    ensures r.Ok? ==> MANIFEST in disk.files && disk.files[MANIFEST] == codec.manifestJson(r.value)
    ensures r.Ok? ==> HoldsSession(disk.files, session, request)
    ensures r.Ok? ==> Lists(r.value, request.interval)
    ensures r.Ok? ==> Confirms(session, request, r.value.header, codec)
    ensures r.Ok? ==> Readable(disk.files, request, codec)
    ensures r.Ok? && codec.TextRoundTrips() ==> Intact(disk.files, r.value, codec)
    ensures r.Ok? ==> (Complete(disk.files, request, node) <==> old(Sound(disk.files, request, node)))
    ensures r.Ok? && old(Sound(disk.files, request, node)) ==>
              && ValidStructure(r.value) && DescribesCapture(r.value.header, request, node, codec)
              && (codec.TextRoundTrips() ==> Clean(disk.files, r.value, codec))
    ensures MANIFEST !in old(disk.files) && codec.ManifestRoundTrips() ==> ManifestIsEarned(disk.files, codec)
    ensures codec.ManifestRoundTrips() ==>
              forall listed | && old(Listed(disk.files, listed, codec))
                              && SessionMatches(listed, session, request, codec)
                              && EvidenceMatches(listed, request, node, codec) ::
                ManifestIsEarned(disk.files, codec)
    ensures Keeps(old(disk.files), disk.files, request.interval)
    ensures r.Ok? ==> old(Accepts(disk.files, session, request, node, codec))
    ensures !disk.faulty && old(Accepts(disk.files, session, request, node, codec)) ==> r.Ok?
  {
    hide BundleFile.Path, Recording, Sound, NoOrphans, AllFiles, MANIFEST, Clean, Intact, Complete, OnTrack, Accepts;
    hide DescribesCapture, ValidStructure, HonestHeader, WellIndexed, Index, Listed, ManifestIsEarned, SessionMatches;
    hide EvidenceMatches, Keeps, ParsePoolState, Stores, HoldsSession, Lists, Readable, Confirms;
    KeepsChain(request.interval);
    ghost var before := disk.files;
    var writer := new BundleWriter(disk, codec);
    var captured := CaptureFiles(writer, node, request, session, anchor);
    EarnedExactly(disk.files, codec);
    if captured.Err? {
      return Err(captured.error);
    }
    var header := captured.value;
    ghost var files, entries := disk.files, writer.entries;
    ghost var data := ManifestData(header, Index(entries));
    RecordingLists(files, entries, header, codec, request.interval);
    RecordingGivesFaithful(files, entries, AllFiles(request.interval), codec);
    RecordsAreWellIndexed(entries, files, codec);
    StructureHolds(data);
    r := writer.Finish(header);
    AfterFinish(files, disk.files, entries, header, codec, request, node, r.Ok?);
    FinishKeeps(files, disk.files, data, codec, request.interval);
    if r.Ok? {
      FinishStores(files, data, codec, session, request);
      ReadableStays(files, disk.files, request, codec);
    }
    CompleteOnlyFromSound(before, disk.files, request, node);
  }

  lemma FinishStores(files: Files, data: ManifestData, codec: Codec, session: Session, request: Request)
    requires request.interval.Valid() && Stores(files, AllFiles(request.interval), session, request)
    ensures HoldsSession(Finished(files, data, codec), session, request)
  {
    hide BundleFile.Path, Stores, KeepsSession, HoldsSession, Finished, WithManifest, AllFiles;
    var mid, after := WithManifest(files, data, codec), Finished(files, data, codec);
    FinishIsTwoWrites(files, data, codec);
    SessionKept(files, ManifestFile, codec.manifestJson(data));
    SessionKept(mid, ManifestDigest, DigestLine(data, codec));
    KeepsSessionChain();
    StoresKept(files, after, AllFiles(request.interval), session, request);
    StoresAll(after, session, request);
  }

  lemma CompleteOnlyFromSound(before: Files, after: Files, request: Request, node: Node)
    requires Keeps(before, after, request.interval)
    ensures Complete(after, request, node) ==> Sound(before, request, node)
  {
    hide Complete, Sound, NoOrphans, Keeps;
    if Complete(after, request, node) {
      CompleteIsResumable(after, request, node);
      KeepsOnlySound(before, after, request, node);
    }
  }

  /** Whether an attempt may start writing in this directory in this mode. */
  ghost predicate MayOpen(files: Files, mode: OutputMode) {
    files == map[] || mode.Resume? || (mode.Overwrite? && MANIFEST in files)
  }

  /** What an attempt needs to finish when nothing disturbs it: preflight passes, the directory may be opened, and
      everything it takes from there, or from the node, can be read. */
  ghost predicate WouldFinish(
    files: Files, mode: OutputMode, session: Session, request: Request, node: Node, codec: Codec)
  {
    && session.preflight.Ok? && AnchorRecord(request, node, codec).Ok?
    && MayOpen(files, mode)
    && (mode.Resume? ==> EnsureNoBlocksOutside(files, request.interval).Ok?)
    && Accepts(if mode.Resume? then files else map[], session, request, node, codec)
  }

  lemma FavourableFinishes(
    files: Files, mode: OutputMode, session: Session, request: Request, node: Node, codec: Codec)
    ensures Serves(node, request, codec) && Favourable(session, node, request) && MayOpen(files, mode)
            && (mode.Resume? ==> Sound(files, request, node)) ==>
              WouldFinish(files, mode, session, request, node, codec) && !session.disturbed
  {
    RemnantsResumable(files, request, node);
    SoundHasNoForeignBlocks(files, request, node);
    hide BundleFile.Path, BlockHeightOf, EnsureNoBlocksOutside, Sound, Accepts, Serves, AnchorRecord;
    var start := if mode.Resume? then files else map[];
    if Serves(node, request, codec) && Favourable(session, node, request) && Sound(start, request, node) {
      SoundAccepts(start, session, request, node, codec);
    }
  }

  /** Runs one attempt. Wherever it stops:
      a directory that could be resumed still can, unless a deletion was cut off, and then exactly when no
      record lost its block; whatever an overwrite found, it leaves a resumable directory or a part of it;
      a manifest that was not there describes only files in place, and so does one that was, if it lists what
      this attempt writes, unless a deletion was cut off;
      resuming keeps what it adopts and what is foreign to it, so a finished resumed attempt has made a complete
      capture exactly when it began in a sound directory.
      An undisturbed attempt finishes exactly when it can read what it takes, right or wrong, and nothing is
      touched before preflight passes. */
  method Run(disk: Disk, codec: Codec, node: Node, request: Request, session: Session, mode: OutputMode)
    returns (r: Result<ManifestData>)
    requires request.interval.Valid()
    modifies disk
    ensures session.preflight.Err? || AnchorRecord(request, node, codec).Err? ==>
              r.Err? && disk.files == old(disk.files)
    ensures mode.Create? && old(disk.files) != map[] ==> r.Err? && disk.files == old(disk.files)
    ensures mode.Resume? && EnsureNoBlocksOutside(old(disk.files), request.interval).Err? ==>
              r.Err? && disk.files == old(disk.files)
    ensures !mode.Overwrite? && old(Resumable(disk.files, request, node)) ==> Resumable(disk.files, request, node)
    ensures mode.Overwrite? && old(Sound(disk.files, request, node)) ==>
              (Resumable(disk.files, request, node) <==> NoOrphans(disk.files))
    ensures mode.Overwrite? ==> Resumable(disk.files, request, node) || RemnantOf(old(disk.files), disk.files)
    ensures r.Ok? ==> MANIFEST in disk.files && disk.files[MANIFEST] == codec.manifestJson(r.value)
    ensures r.Ok? ==> HoldsSession(disk.files, session, request)
    ensures r.Ok? ==> Lists(r.value, request.interval)
    ensures r.Ok? ==> Confirms(session, request, r.value.header, codec)
    ensures r.Ok? ==> Readable(disk.files, request, codec)
    ensures r.Ok? && codec.TextRoundTrips() ==> Intact(disk.files, r.value, codec)
    ensures r.Ok? ==>
              (Complete(disk.files, request, node) <==> (mode.Resume? ==> old(Sound(disk.files, request, node))))
    ensures r.Ok? && Complete(disk.files, request, node) ==>
              && ValidStructure(r.value) && DescribesCapture(r.value.header, request, node, codec)
              && (codec.TextRoundTrips() ==> Clean(disk.files, r.value, codec))
    ensures MANIFEST !in old(disk.files) && codec.ManifestRoundTrips() ==> ManifestIsEarned(disk.files, codec)
    ensures mode.Resume? && codec.ManifestRoundTrips() ==>
              forall listed | && old(Listed(disk.files, listed, codec))
                              && SessionMatches(listed, session, request, codec)
                              && EvidenceMatches(listed, request, node, codec) ::
                ManifestIsEarned(disk.files, codec)
    ensures mode.Overwrite? && codec.ManifestRoundTrips() ==>
              ManifestIsEarned(disk.files, codec) || RemnantOf(old(disk.files), disk.files)
    ensures mode.Resume? ==> Keeps(old(disk.files), disk.files, request.interval)
    ensures r.Ok? ==> WouldFinish(old(disk.files), mode, session, request, node, codec)
    ensures !session.disturbed && WouldFinish(old(disk.files), mode, session, request, node, codec) ==> r.Ok?
    ensures (&& Serves(node, request, codec) && Favourable(session, node, request) && MayOpen(old(disk.files), mode)
             && (mode.Resume? ==> old(Sound(disk.files, request, node)))) ==> r.Ok?
  {
    hide BundleFile.Path, Recording, Sound, AllFiles, MANIFEST, Clean, Intact, Complete, OnTrack, Accepts, Keeps;
    hide DescribesCapture, ValidStructure, Listed, ManifestIsEarned, NoOrphans, SessionMatches, EvidenceMatches;
    hide RemnantOf, ParsePoolState, HoldsSession, Lists, Readable, Confirms;
    disk.faulty := session.disturbed;
    KeepsChain(request.interval);
    FavourableFinishes(disk.files, mode, session, request, node, codec);
    RemnantsResumable(disk.files, request, node);
    EarnedExactly(disk.files, codec);
    var _ :- session.preflight;
    if disk.faulty { if * { return Err(Rpc); } }         // the node stops answering
    var anchor :- AnchorRecord(request, node, codec);
    var _ :- Open(disk, mode);
    if mode.Resume? {
      SoundHasNoForeignBlocks(disk.files, request, node);
      var _ :- EnsureNoBlocksOutside(disk.files, request.interval);
    }
    r := CaptureAndFinish(disk, codec, node, request, session, anchor);
    RemnantsResumable(disk.files, request, node);
  }

  /** A manifest lists every file of a capture but itself and its digest, each with its encoding. */
  ghost predicate Lists(data: ManifestData, interval: HeightInterval) {
    && (forall file | Wanted(file, interval) && !IsManifest(file) :: ListsFile(data.files, file))
    && forall i | 0 <= i < |data.files| :: IsCaptureFile(data.files[i], interval)
  }

  ghost predicate ListsFile(entries: seq<FileEntry>, file: BundleFile) {
    exists entry | entry in entries :: entry.path == file.Path()
  }

  ghost predicate IsCaptureFile(entry: FileEntry, interval: HeightInterval) {
    exists file | Wanted(file, interval) && !IsManifest(file) ::
      entry.path == file.Path() && EncodedAs(file, entry.encoding)
  }

  ghost predicate EncodedAs(file: BundleFile, encoding: Encoding) {
    match encoding
    case RawBlockHex => file == AnchorBlock || file.Block?
    case Text => file == Command || file == ToolVersion
    case Json =>
      || file in {NodeInfo, ChainInfoStart, ChainInfoEnd, Environment, AnchorPools}
      || file.BlockPools?
  }

  lemma EncodingExact(file: BundleFile)
    requires !IsManifest(file)
    ensures EncodedAs(file, EncodingOf(file))
  {
  }

  lemma AllFilesAre(interval: HeightInterval, file: BundleFile)
    requires interval.Valid() && file in AllFiles(interval)
    ensures Wanted(file, interval) && !IsManifest(file)
  {
  }

  lemma EntryIsCapture(
    files: Files, entries: seq<FileEntry>, codec: Codec, interval: HeightInterval, entry: FileEntry)
    requires interval.Valid() && Recording(files, entries, AllFiles(interval), codec) && entry in entries
    ensures IsCaptureFile(entry, interval)
  {
    hide BundleFile.Path, Faithful, AllWritable, EncodingOf, AllFiles, Wanted, IsManifest, EncodedAs;
    assert entry.path in PathsOf(entries);
    var file :| file in AllFiles(interval) && file.Path() == entry.path;
    AllFilesAre(interval, file);
    EncodingExact(file);
  }

  lemma CaptureIsListed(
    files: Files, entries: seq<FileEntry>, codec: Codec, interval: HeightInterval, file: BundleFile)
    requires interval.Valid() && Recording(files, entries, AllFiles(interval), codec)
    requires Wanted(file, interval) && !IsManifest(file)
    ensures ListsFile(entries, file)
  {
    AllFilesCovers(interval, file);
    hide BundleFile.Path, Faithful, AllWritable, Encoded, AllFiles;
    assert file.Path() in PathsOf(entries);
  }

  lemma RecordingLists(
    files: Files, entries: seq<FileEntry>, header: Header, codec: Codec, interval: HeightInterval)
    requires interval.Valid() && Recording(files, entries, AllFiles(interval), codec)
    ensures Lists(ManifestData(header, Index(entries)), interval)
  {
    hide BundleFile.Path, Recording, Index, PathsOf, Wanted, IsManifest, IsCaptureFile;
    IndexMembers(entries);
    var index := Index(entries);
    forall file: BundleFile | Wanted(file, interval) && !IsManifest(file)
      ensures ListsFile(index, file)
    {
      CaptureIsListed(files, entries, codec, interval, file);
      var entry :| entry in entries && entry.path == file.Path();
      assert entry in index;
    }
    forall i | 0 <= i < |index|
      ensures IsCaptureFile(index[i], interval)
    {
      assert index[i] in entries;
      EntryIsCapture(files, entries, codec, interval, index[i]);
    }
  }

  lemma StructureHolds(data: ManifestData)
    ensures HonestHeader(data.header) && WellIndexed(data.files) ==> ValidStructure(data)
  {
  }

  lemma RecordingGivesFaithful(files: Files, entries: seq<FileEntry>, done: set<BundleFile>, codec: Codec)
    requires Recording(files, entries, done, codec)
    ensures Faithful(entries, files, codec) && AllWritable(entries) && Unreserved(entries)
  {
    RecordingIsUnreserved(files, entries, done, codec);
  }

  lemma AfterFinish(
    files: Files, after: Files, entries: seq<FileEntry>, header: Header, codec: Codec,
    request: Request, node: Node, finished: bool)
    requires request.interval.Valid()
    requires Recording(files, entries, AllFiles(request.interval), codec)
    requires var data := ManifestData(header, Index(entries));
             if finished then after == Finished(files, data, codec) else FinishInterrupted(files, after, data, codec)
    ensures var data := ManifestData(header, Index(entries));
            && (codec.ManifestRoundTrips() && (MANIFEST in files ==> exists listed :: Listed(files, listed, codec)) ==>
                  ManifestIsEarned(after, codec))
            && (finished ==> MANIFEST in after && after[MANIFEST] == codec.manifestJson(data))
            && (finished && codec.TextRoundTrips() ==> Intact(after, data, codec))
            && (Resumable(files, request, node) ==> Resumable(after, request, node))
            && (OnTrack(files, AllFiles(request.interval), request, node) && finished ==>
                  && Complete(after, request, node)
                  && (codec.TextRoundTrips() ==> Clean(after, data, codec)))
  {
    var data := ManifestData(header, Index(entries));
    var done := AllFiles(request.interval);
    hide BundleFile.Path, Sound, NoOrphans, AllFiles, MANIFEST, Clean, Intact, Complete, Finished, FinishInterrupted;
    hide Index, Faithful, OnTrack;
    RecordingGivesFaithful(files, entries, done, codec);
    FinishedManifestContent(files, after, data, codec);
    if codec.ManifestRoundTrips() && (MANIFEST in files ==> exists listed :: Listed(files, listed, codec)) {
      FinishKeepsEarned(files, after, entries, done, header, codec);
    }
    if finished && codec.TextRoundTrips() {
      FinishedIsIntact(files, entries, header, codec);
    }
    if Resumable(files, request, node) {
      if finished {
        FinishedIsResumable(files, data, codec, request, node);
      } else {
        FinishInterruptedIsResumable(files, after, data, codec, request, node);
      }
    }
    if OnTrack(files, done, request, node) && finished {
      FinishCompletes(files, data, codec, request, node);
      SettledHasNothingElse(files, entries, request, node, codec);
      if codec.TextRoundTrips() {
        FinishedIsClean(files, entries, header, codec);
      }
    }
  }

  lemma FinishedIsResumable(files: Files, data: ManifestData, codec: Codec, request: Request, node: Node)
    requires Resumable(files, request, node)
    ensures Resumable(Finished(files, data, codec), request, node)
  {
    hide BundleFile.Path, WrittenTo, WithManifest, Finished, Resumable;
    FinishIsTwoWrites(files, data, codec);
    WriteKeepsResumable(files, ManifestFile, codec.manifestJson(data), request, node);
    WriteKeepsResumable(WithManifest(files, data, codec), ManifestDigest, DigestLine(data, codec), request, node);
  }

  /** Resumes a capture until an attempt finishes. Whatever cuts the attempts off, a resumable directory
      stays one and the finished capture is complete and clean, and one undisturbed attempt is enough. From a
      directory that is not sound no number of attempts makes a complete capture. */
  method ResumeUntilDone(disk: Disk, codec: Codec, node: Node, request: Request, sessions: seq<Session>)
    returns (r: Result<ManifestData>)
    requires request.interval.Valid()
    modifies disk
    ensures Keeps(old(disk.files), disk.files, request.interval)
    ensures Complete(disk.files, request, node) ==> old(Sound(disk.files, request, node))
    ensures r.Ok? ==> MANIFEST in disk.files && disk.files[MANIFEST] == codec.manifestJson(r.value)
    ensures r.Ok? ==> exists i | 0 <= i < |sessions| :: HoldsSession(disk.files, sessions[i], request)
    ensures old(Resumable(disk.files, request, node)) ==>
              && Resumable(disk.files, request, node)
              && (r.Ok? ==> Complete(disk.files, request, node))
              && (r.Ok? ==> ValidStructure(r.value) && DescribesCapture(r.value.header, request, node, codec))
              && (r.Ok? && codec.TextRoundTrips() ==> Clean(disk.files, r.value, codec))
              && (Serves(node, request, codec)
                  && (exists i :: 0 <= i < |sessions| && Favourable(sessions[i], node, request)) ==>
                    r.Ok?)
  {
    hide Sound, NoOrphans, Complete, Clean, Serves, Favourable, DescribesCapture, ValidStructure, Listed, Keeps;
    hide ManifestIsEarned, SessionMatches, EvidenceMatches, MANIFEST, ParsePoolState, RemnantOf, HoldsSession;
    KeepsChain(request.interval);
    ghost var before := disk.files;
    ghost var resumable := Resumable(before, request, node);
    r := Err(CaptureIncomplete);
    for attempt := 0 to |sessions|
      invariant resumable ==> Resumable(disk.files, request, node)
      invariant Keeps(before, disk.files, request.interval)
      invariant resumable && Serves(node, request, codec) ==>
                  forall i | 0 <= i < attempt :: !Favourable(sessions[i], node, request)
      invariant r.Err?
    {
      r := Run(disk, codec, node, request, sessions[attempt], Resume);
      if r.Ok? {
        break;
      }
    }
    CompleteOnlyFromSound(before, disk.files, request, node);
  }

  /** A first attempt in any mode over any directory, then resumed ones until one finishes. `left` is what the
      first attempt left: a resumable directory, unless it resumed or refused one that was not, or was an
      overwrite cut off while deleting, which leaves part of what it found. When `left` is resumable the
      directory stays so, wherever the attempts are cut off, and a finished capture is complete and clean; when
      it is not even sound, no capture finished after it is complete. */
  method CaptureUntilDone(
    disk: Disk, codec: Codec, node: Node, request: Request, mode: OutputMode, first: Session, later: seq<Session>)
    returns (r: Result<ManifestData>, left: Files)
    requires request.interval.Valid()
    modifies disk
    ensures !mode.Overwrite? && old(Resumable(disk.files, request, node)) ==> Resumable(left, request, node)
    ensures mode.Create? ==> Resumable(left, request, node) || left == old(disk.files)
    ensures mode.Overwrite? ==> Resumable(left, request, node) || RemnantOf(old(disk.files), left)
    ensures mode.Overwrite? && old(Sound(disk.files, request, node)) ==>
              (Resumable(left, request, node) <==> NoOrphans(left))
    ensures Keeps(left, disk.files, request.interval)
    ensures Complete(disk.files, request, node) ==> Sound(left, request, node)
    ensures r.Ok? ==> MANIFEST in disk.files && disk.files[MANIFEST] == codec.manifestJson(r.value)
    ensures r.Ok? ==>
              || HoldsSession(disk.files, first, request)
              || exists i | 0 <= i < |later| :: HoldsSession(disk.files, later[i], request)
    ensures Resumable(left, request, node) ==>
              && Resumable(disk.files, request, node)
              && (r.Ok? ==> Complete(disk.files, request, node))
              && (r.Ok? ==> ValidStructure(r.value) && DescribesCapture(r.value.header, request, node, codec))
              && (r.Ok? && codec.TextRoundTrips() ==> Clean(disk.files, r.value, codec))
              && (Serves(node, request, codec)
                  && (exists i :: 0 <= i < |later| && Favourable(later[i], node, request)) ==>
                    r.Ok?)
    ensures (&& Serves(node, request, codec) && Favourable(first, node, request) && MayOpen(old(disk.files), mode)
             && (mode.Resume? ==> old(Sound(disk.files, request, node)))) ==> r.Ok?
  {
    hide Sound, NoOrphans, Complete, Clean, Serves, Favourable, DescribesCapture, ValidStructure, Listed, Keeps;
    hide ManifestIsEarned, SessionMatches, EvidenceMatches, MANIFEST, MayOpen, ParsePoolState, RemnantOf, HoldsSession;
    KeepsChain(request.interval);
    RemnantsResumable(disk.files, request, node);
    ghost var before := disk.files;
    r := Run(disk, codec, node, request, first, mode);
    left := disk.files;
    FinishedIsSound(left, request, node);
    if mode.Resume? && Sound(left, request, node) {
      KeepsOnlySound(before, left, request, node);
    }
    if r.Ok? {
      return;
    }
    r := ResumeUntilDone(disk, codec, node, request, later);
  }

  lemma FinishedIsSound(files: Files, request: Request, node: Node)
    ensures Complete(files, request, node) ==> Resumable(files, request, node) && Sound(files, request, node)
  {
    hide Complete, Sound, NoOrphans;
    if Complete(files, request, node) {
      CompleteIsResumable(files, request, node);
    }
  }

  /** What a finished capture holds, file by file. */
  lemma CompleteHolds(files: Files, request: Request, node: Node, height: u32)
    requires Complete(files, request, node)
    ensures AnchorBlock.Path() in files && files[AnchorBlock.Path()] == node.rawHex(request.interval.anchor)
    ensures AnchorPools.Path() in files && files[AnchorPools.Path()] == node.poolState(request.interval.anchor)
    ensures request.interval.start <= height <= request.interval.end ==>
              && Block(height).Path() in files && files[Block(height).Path()] == node.rawHex(height)
              && BlockPools(height).Path() in files && files[BlockPools(height).Path()] == node.poolState(height)
    ensures forall path | path in files :: exists file: BundleFile :: path == file.Path()
  {
    hide BundleFile.Path;
    assert Wanted(AnchorBlock, request.interval) && Wanted(AnchorPools, request.interval);
    if request.interval.start <= height <= request.interval.end {
      assert Wanted(Block(height), request.interval) && Wanted(BlockPools(height), request.interval);
    }
  }

  /** A finished capture is the same however it was reached: the same files, and byte for byte the
      same evidence, as an uninterrupted one. */
  lemma CompleteIsUnique(files: Files, other: Files, request: Request, node: Node)
    requires Complete(files, request, node) && Complete(other, request, node)
    ensures files.Keys == other.Keys
    ensures forall file: BundleFile | Wanted(file, request.interval) && IsEvidence(file) ::
              file.Path() in files && file.Path() in other && files[file.Path()] == other[file.Path()]
    ensures forall key | key in files :: !(exists name: string :: key == name + PARTIAL_SUFFIX)
  {
    hide BundleFile.Path;
    assert forall file: BundleFile | Wanted(file, request.interval) :: file.Path() in files && file.Path() in other;
    forall key | key in files
      ensures !(exists name: string :: key == name + PARTIAL_SUFFIX)
    {
      var file: BundleFile :| Wanted(file, request.interval) && key == file.Path();
      FileKeys(file);
    }
  }

}
