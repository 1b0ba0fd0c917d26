/** The largest interval a capture may cover, against what an archive may hold. */
module Capacity {
  import opened Wrappers
  import opened Ledger
  import opened Layout
  import opened Validation
  import opened Capture
  import opened Extraction

  const MAX_INTERVAL_BLOCKS := 49_000

  /** The limits an archive is extracted under unless told otherwise. */
  const DEFAULT_LIMITS := Limits(8 * 1024 * 1024 * 1024, 100_000, 512 * 1024 * 1024, 8)

  /** The files of a capture that are not about a height of its interval. */
  const FIXED_FILES: seq<BundleFile> := [
    ManifestFile, ManifestDigest, NodeInfo, ChainInfoStart, ChainInfoEnd, Environment, Command, ToolVersion,
    AnchorBlock, AnchorPools]

  /** Where a file stands in that list. */
  function Rank(file: BundleFile): int {
    match file
    case ManifestFile => 0
    case ManifestDigest => 1
    case NodeInfo => 2
    case ChainInfoStart => 3
    case ChainInfoEnd => 4
    case Environment => 5
    case Command => 6
    case ToolVersion => 7
    case AnchorBlock => 8
    case AnchorPools => 9
    case _ => 10
  }

  /** The interval of a capture, refused before any node is asked when it could not be published. */
  function PlanInterval(from: u32, to: u32): (r: Result<HeightInterval>)
    ensures r.Ok? <==> 0 < from <= to && to - from < MAX_INTERVAL_BLOCKS
    ensures r.Ok? ==> r.value.Valid() && r.value.start == from && r.value.end == to
    ensures r.Err? ==> r.error == InvalidInterval
  {
    var interval :- NewInterval(from, to);
    if interval.BlockCount() > MAX_INTERVAL_BLOCKS then Err(InvalidInterval) else Ok(interval)
  }

  lemma {:induction false} BlocksBelowCount(interval: HeightInterval, height: nat)
    requires interval.start <= height <= interval.end + 1
    ensures |BlocksBelow(interval, height)| == 2 * (height - interval.start)
  {
    if height == interval.start {
      assert BlocksBelow(interval, height) == {};
    } else {
      var h: u32 := height - 1;
      BlocksBelowCount(interval, h);
      assert BlocksBelow(interval, height) == BlocksBelow(interval, h) + {Block(h)} + {BlockPools(h)};
      assert Block(h) !in BlocksBelow(interval, h) && BlockPools(h) !in BlocksBelow(interval, h) + {Block(h)};
    }
  }

  function Members(files: seq<BundleFile>): set<BundleFile> {
    set file | file in files
  }

  lemma {:induction false} RankedCount(files: seq<BundleFile>)
    requires forall i | 0 <= i < |files| :: Rank(files[i]) == i
    ensures |Members(files)| == |files|
    ensures forall file | file in Members(files) :: Rank(file) < |files|
  {
    hide Rank;
    if files != [] {
      var n := |files| - 1;
      RankedCount(files[..n]);
      assert files == files[..n] + [files[n]];
      assert Members(files) == Members(files[..n]) + {files[n]};
    }
  }

  lemma FixedIsRanked(file: BundleFile)
    ensures file in FIXED_FILES <==> !file.Block? && !file.BlockPools?
    ensures forall i | 0 <= i < |FIXED_FILES| :: Rank(FIXED_FILES[i]) == i
  {
    if !file.Block? && !file.BlockPools? {
      assert FIXED_FILES[Rank(file)] == file;
    }
  }

  lemma FixedCount()
    ensures |Members(FIXED_FILES)| == 10
    ensures forall file :: file in Members(FIXED_FILES) <==> !file.Block? && !file.BlockPools?
  {
    hide Rank;
    FixedIsRanked(ManifestFile);
    RankedCount(FIXED_FILES);
    forall file: BundleFile
      ensures file in Members(FIXED_FILES) <==> !file.Block? && !file.BlockPools?
    {
      FixedIsRanked(file);
    }
  }

  /** Every file of a finished capture. */
  function CaptureFilesOf(interval: HeightInterval): set<BundleFile> {
    Members(FIXED_FILES) + BlocksBelow(interval, interval.end + 1)
  }

  lemma CaptureFilesAre(interval: HeightInterval, file: BundleFile)
    ensures file in CaptureFilesOf(interval) <==> Wanted(file, interval)
  {
    FixedCount();
    hide FIXED_FILES, Members;
  }

  lemma UnionCount(a: set<BundleFile>, b: set<BundleFile>)
    requires a !! b
    ensures |a + b| == |a| + |b|
  {
  }

  lemma BlocksAreNotFixed(interval: HeightInterval)
    ensures Members(FIXED_FILES) !! BlocksBelow(interval, interval.end + 1)
  {
    FixedCount();
    hide FIXED_FILES, Members;
  }

  lemma CaptureFilesCount(interval: HeightInterval)
    requires interval.Valid()
    ensures |CaptureFilesOf(interval)| == 2 * interval.BlockCount() + 10
  {
    hide FIXED_FILES, Members, BlocksBelow;
    FixedCount();
    BlocksBelowCount(interval, interval.end + 1);
    BlocksAreNotFixed(interval);
    UnionCount(Members(FIXED_FILES), BlocksBelow(interval, interval.end + 1));
  }

  lemma {:induction false} PathsCount(files: set<BundleFile>)
    ensures |set file | file in files :: file.Path()| == |files|
  {
    hide BundleFile.Path;
    var paths := set file | file in files :: file.Path();
    if file :| file in files {
      var rest := files - {file};
      PathsCount(rest);
      AllPathsDistinct(file);
      assert paths == (set other | other in rest :: other.Path()) + {file.Path()};
      assert files == rest + {file};
    } else {
      assert files == {} && paths == {};
    }
  }

  /** A finished capture is two files a height and ten more. */
  lemma CaptureSize(files: Files, request: Request, node: Node)
    requires request.interval.Valid() && Complete(files, request, node)
    ensures |files| == 2 * request.interval.BlockCount() + 10
    ensures forall key | key in files :: |Split(key)| <= 2
  {
    hide BundleFile.Path;
    var wanted := CaptureFilesOf(request.interval);
    CaptureFilesCount(request.interval);
    PathsCount(wanted);
    hide CaptureFilesOf;
    forall file: BundleFile
      ensures file in wanted <==> Wanted(file, request.interval)
    {
      CaptureFilesAre(request.interval, file);
    }
    assert files.Keys == set file | file in wanted :: file.Path();
    forall key | key in files
      ensures |Split(key)| <= 2
    {
      var file: BundleFile :| Wanted(file, request.interval) && key == file.Path();
      PathSegments(file);
    }
  }

  /** The cap does what it is for: a finished capture of an interval within it meets the entry and depth limits,
      so its archive can be extracted exactly when its bytes are not too many. */
  lemma CapIsEnough(files: Files, request: Request, node: Node)
    requires PlanInterval(request.interval.start, request.interval.end) == Ok(request.interval)
    requires Complete(files, request, node)
    ensures Fits(files, DEFAULT_LIMITS) <==>
            && DiskBytes(files) <= DEFAULT_LIMITS.maxTotalBytes
            && forall key | key in files :: |files[key]| <= DEFAULT_LIMITS.maxEntryBytes
  {
    hide Complete, Split, DiskBytes;
    CaptureSize(files, request, node);
  }

  /** The entry limit alone would allow a little more. */
  lemma EntryLimitExact(files: Files, request: Request, node: Node)
    requires request.interval.Valid() && Complete(files, request, node)
    ensures |files| <= DEFAULT_LIMITS.maxEntries <==> request.interval.BlockCount() <= 49_995
  {
    hide Complete;
    CaptureSize(files, request, node);
  }
}
