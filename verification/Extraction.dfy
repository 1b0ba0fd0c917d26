/** Extracting an archive nobody vouches for, and the round trip with packing. */
module Extraction {
  import opened Wrappers
  import opened Ordering
  import opened Layout
  import opened Validation
  import opened Writer
  import opened Archive

  /** Caps applied while extracting. */
  datatype Limits = Limits(maxTotalBytes: u64, maxEntries: u32, maxEntryBytes: u64, maxPathDepth: nat)

  datatype Summary = Summary(entries: u32, totalBytes: u64)

  /** An archive as a stream of records; `None` is one whose header or path cannot be read. */
  type Stream = seq<Option<ArchiveEntry>>

  // ---- The checks on one entry ----

  function NonEmpty(segments: seq<string>): nat {
    if segments == [] then 0 else (if segments[0] == "" then 0 else 1) + NonEmpty(segments[1..])
  }

  /** Path components, counted the way the depth limit counts them. */
  function Depth(path: string): nat {
    NonEmpty(Split(path))
  }

  /** The manifest's path rule, applied again because no manifest has been read yet. */
  function ValidateArchivePath(path: string): Result<()> {
    if path == "" || '\0' in path || '\\' in path || path[0] == '/' then Err(ArchiveRejected)
    else if FindIndex(Components(path), (c: Component) => !c.Normal?).Some? then Err(ArchiveRejected)
    else Ok(())
  }

  datatype Disposition = Extracted | Skipped

  /** Content is extracted, directories and metadata passed over; links and anything else are refused. */
  function Classify(kind: EntryKind): (r: Result<Disposition>)
    ensures r.Err? <==> kind.SymbolicLink? || kind.HardLink? || kind.OtherKind?
    ensures r == Ok(Extracted) <==> kind.Regular? || kind.Continuous?
  {
    match kind
    case Regular => Ok(Extracted)
    case Continuous => Ok(Extracted)
    case Directory => Ok(Skipped)
    case GlobalHeader => Ok(Skipped)
    case ExtendedHeader => Ok(Skipped)
    case LongName => Ok(Skipped)
    case _ => Err(ArchiveRejected)
  }

  predicate Above(a: seq<string>, b: seq<string>) {
    |a| < |b| && a == b[..|a|]
  }

  /** A file stands where a directory is needed, or the path is already a directory. */
  predicate Blocked(files: Files, path: string) {
    exists key | key in files :: Above(Split(key), Names(path)) || Above(Names(path), Split(key))
  }

  predicate CanCreate(files: Files, path: string) {
    EndsInName(path) && !Blocked(files, path)
  }

  /** What is copied of an entry: one byte past the declaration at most. */
  function Taken(delivered: Bytes, declared: nat): (taken: Bytes)
    ensures taken <= delivered
    ensures |taken| == if |delivered| <= declared then |delivered| else declared + 1
    ensures |taken| == declared <==> |delivered| == declared
  {
    if |delivered| > declared + 1 then delivered[..declared + 1] else delivered
  }

  /** Everything a write puts in the file it created; nothing when one byte more cannot be counted. */
  function Copied(delivered: Bytes, declared: nat): Bytes {
    if declared >= U64_MAX then [] else Taken(delivered, declared)
  }

  // ---- What extraction amounts to ----

  /** Regular content, the only kind that is counted and written. */
  predicate Writes(entry: Option<ArchiveEntry>) {
    entry.Some? && (entry.value.kind.Regular? || entry.value.kind.Continuous?)
  }

  function DeclaredOf(entry: Option<ArchiveEntry>): nat {
    if Writes(entry) && entry.value.declared.Some? then entry.value.declared.value else 0
  }

  /** Content entries among the first `i`. */
  ghost function CountAt(entries: Stream, i: nat): nat
    requires i <= |entries|
  {
    if i == 0 then 0 else CountAt(entries, i - 1) + if Writes(entries[i - 1]) then 1 else 0
  }

  /** Bytes declared by the content entries among the first `i`. */
  ghost function TotalAt(entries: Stream, i: nat): nat
    requires i <= |entries|
  {
    if i == 0 then 0 else TotalAt(entries, i - 1) + DeclaredOf(entries[i - 1])
  }

  function Put(files: Files, entry: Option<ArchiveEntry>): Files {
    if Writes(entry) then files[Rendered(entry.value.path) := entry.value.delivered] else files
  }

  /** The directory after the first `i` entries: each content entry's bytes, the last of a path winning. */
  ghost function FilesAfter(files: Files, entries: Stream, i: nat): Files
    requires i <= |entries|
  {
    if i == 0 then files else Put(FilesAfter(files, entries, i - 1), entries[i - 1])
  }

  /** An entry nothing is wrong with on its own, before its contents are looked at. */
  ghost predicate WellFormed(entry: Option<ArchiveEntry>, limits: Limits) {
    && entry.Some?
    && Safe(entry.value.path)
    && Depth(entry.value.path) <= limits.maxPathDepth
    && Classify(entry.value.kind).Ok?
    && (Writes(entry) ==> entry.value.declared.Some? && entry.value.declared.value <= limits.maxEntryBytes)
  }

  /** Entry `i` passes every check made before anything of it is written. */
  ghost predicate Vetted(entries: Stream, limits: Limits, i: nat)
    requires i < |entries|
  {
    && WellFormed(entries[i], limits)
    && (Writes(entries[i]) ==>
          CountAt(entries, i + 1) <= limits.maxEntries && TotalAt(entries, i + 1) <= limits.maxTotalBytes)
  }

  /** The stream delivers exactly what the header declared. */
  ghost predicate Honest(entry: ArchiveEntry) {
    entry.declared == Some(|entry.delivered|) && |entry.delivered| < U64_MAX
  }

  /** Entry `i` is taken: vetted, and, if it carries content, creatable and honest about its size. */
  ghost predicate Taking(files: Files, entries: Stream, limits: Limits, i: nat)
    requires i < |entries|
  {
    && Vetted(entries, limits, i)
    && (Writes(entries[i]) ==>
          CanCreate(FilesAfter(files, entries, i), entries[i].value.path) && Honest(entries[i].value))
  }

  /** The first `i` entries are all taken. */
  ghost predicate Accepted(files: Files, entries: Stream, limits: Limits, i: nat)
    requires i <= |entries|
  {
    forall k | 0 <= k < i :: Taking(files, entries, limits, k)
  }

  /** What is on disk when entry `i` is the first refused, and the error. */
  ghost predicate Refused(
    files: Files, entries: Stream, limits: Limits, i: nat, error: ReconcileError, after: Files)
    requires i < |entries|
  {
    var before := FilesAfter(files, entries, i);
    && !Taking(files, entries, limits, i)
    && if !Vetted(entries, limits, i) then error == ArchiveRejected && after == before
       else
         && Writes(entries[i])
         && var entry := entries[i].value;
            if !CanCreate(before, entry.path) then error == Filesystem && after == before
            else error == ArchiveRejected && after == before[Rendered(entry.path) := Leftover(entry)]
  }

  /** What a refused entry leaves behind once its file has been created. */
  ghost function Leftover(entry: ArchiveEntry): Bytes {
    if entry.declared.None? then [] else Copied(entry.delivered, entry.declared.value)
  }

  /** Where a failing step can leave entry `i`: untouched, or with some prefix of what was copied. */
  ghost predicate CutOff(files: Files, entries: Stream, limits: Limits, i: nat, after: Files)
    requires i < |entries|
  {
    var before := FilesAfter(files, entries, i);
    || after == before
    || (&& Vetted(entries, limits, i) && Writes(entries[i])
        && exists written: nat | written <= |Leftover(entries[i].value)| ::
             after == before[Rendered(entries[i].value.path) := Leftover(entries[i].value)[..written]])
  }

  // ---- The extractor ----

  /** Creates the entry's file and copies into it one byte more than declared at most; a step that fails
      leaves some prefix of that, or nothing new. */
  method WriteEntry(disk: Disk, relative: string, delivered: Bytes, declared: u64) returns (r: Result<u64>)
    modifies disk`files
    ensures r.Ok? ==>
              && CanCreate(old(disk.files), relative) && declared < U64_MAX
              && r.value == |Taken(delivered, declared)|
              && disk.files == old(disk.files)[Rendered(relative) := Taken(delivered, declared)]
    ensures r.Err? ==>
              || disk.files == old(disk.files)
              || exists written: nat | written <= |Copied(delivered, declared)| ::
                   disk.files == old(disk.files)[Rendered(relative) := Copied(delivered, declared)[..written]]
    ensures !disk.faulty ==>
              if !CanCreate(old(disk.files), relative) then r == Err(Filesystem) && disk.files == old(disk.files)
              else if declared == U64_MAX then
                r == Err(ArchiveRejected) && disk.files == old(disk.files)[Rendered(relative) := []]
              else r.Ok?
  {
    hide Blocked, EndsInName, Rendered, Taken;
    if disk.faulty { if * { return Err(Filesystem); } }    // create the parent directories
    if !CanCreate(disk.files, relative) {
      return Err(Filesystem);
    }
    if disk.faulty { if * { return Err(Filesystem); } }    // create the file
    disk.files := disk.files[Rendered(relative) := []];
    var nothing := Copied(delivered, declared)[..0];
    assert nothing == [];
    if declared == U64_MAX {
      return Err(ArchiveRejected);
    }
    var taken := Taken(delivered, declared);
    if disk.faulty {                                       // copy and flush
      if * {
        var written: nat :| written <= |taken|;
        disk.files := disk.files[Rendered(relative) := taken[..written]];
        return Err(Filesystem);
      }
    }
    disk.files := disk.files[Rendered(relative) := taken];
    assert |taken| <= U64_MAX;
    r := Ok(|taken|);
  }

  /** Extracts an archive, enforcing the limits. It succeeds exactly when every entry is taken, and
      then the summary counts them and their bytes; otherwise it stops at the first that is not. */
  method Extract(entries: Stream, disk: Disk, limits: Limits) returns (r: Result<Summary>)
    modifies disk`files
    ensures r.Ok? ==>
              && Accepted(old(disk.files), entries, limits, |entries|)
              && disk.files == FilesAfter(old(disk.files), entries, |entries|)
              && r.value.entries == CountAt(entries, |entries|)
              && r.value.totalBytes == TotalAt(entries, |entries|)
    ensures r.Err? ==> exists i | 0 <= i < |entries| ::
              Accepted(old(disk.files), entries, limits, i) && CutOff(old(disk.files), entries, limits, i, disk.files)
    ensures r.Err? && !disk.faulty ==> exists i | 0 <= i < |entries| ::
              && Accepted(old(disk.files), entries, limits, i)
              && Refused(old(disk.files), entries, limits, i, r.error, disk.files)
  {
    hide Components, Split, Safe, Depth, CanCreate, Rendered, Taken, FindIndex, FilesAfter, CountAt, TotalAt;
    ghost var files := disk.files;
    var count: u32, total: u64 := 0, 0;
    Nothing(files, entries);
    for i := 0 to |entries|
      invariant Accepted(files, entries, limits, i)
      invariant disk.files == FilesAfter(files, entries, i)
      invariant count == CountAt(entries, i) && total == TotalAt(entries, i)
    {
      OneMore(files, entries, i);
      var record := entries[i];
      if record.None? {
        return Err(ArchiveRejected);
      }
      var entry := record.value;
      ArchivePathExact(entry.path);
      var _ :- ValidateArchivePath(entry.path);
      if Depth(entry.path) > limits.maxPathDepth {
        return Err(ArchiveRejected);
      }
      var disposition :- Classify(entry.kind);
      if disposition.Extracted? {
        if entry.declared.None? || entry.declared.value > limits.maxEntryBytes {
          return Err(ArchiveRejected);
        }
        var declared: u64 := entry.declared.value;
        if count == U32_MAX || count + 1 > limits.maxEntries {
          return Err(ArchiveRejected);
        }
        count := count + 1;
        if total + declared > U64_MAX || total + declared > limits.maxTotalBytes {
          return Err(ArchiveRejected);
        }
        total := total + declared;
        assert Vetted(entries, limits, i);
        assert Leftover(entry) == Copied(entry.delivered, declared);
        var result := WriteEntry(disk, entry.path, entry.delivered, declared);
        if result.Err? {
          assert CutOff(files, entries, limits, i, disk.files);
          return Err(result.error);
        }
        TakenWhole(entry.delivered, declared);
        if result.value != declared {
          CutOffAfterCopy(files, entries, limits, i, disk.files);
          return Err(ArchiveRejected);
        }
      }
    }
    r := Ok(Summary(count, total));
  }

  lemma Nothing(files: Files, entries: Stream)
    ensures FilesAfter(files, entries, 0) == files && CountAt(entries, 0) == 0 && TotalAt(entries, 0) == 0
  {
  }

  lemma OneMore(files: Files, entries: Stream, i: nat)
    requires i < |entries|
    ensures FilesAfter(files, entries, i + 1) == Put(FilesAfter(files, entries, i), entries[i])
    ensures CountAt(entries, i + 1) == CountAt(entries, i) + if Writes(entries[i]) then 1 else 0
    ensures TotalAt(entries, i + 1) == TotalAt(entries, i) + DeclaredOf(entries[i])
  {
  }

  lemma TakenWhole(delivered: Bytes, declared: nat)
    ensures |delivered| == declared ==> Taken(delivered, declared) == delivered
  {
  }

  /** A finished copy is one of the states a cut-off one can leave. */
  lemma CutOffAfterCopy(files: Files, entries: Stream, limits: Limits, i: nat, after: Files)
    requires i < |entries| && Vetted(entries, limits, i) && Writes(entries[i])
    requires after == FilesAfter(files, entries, i)[Rendered(entries[i].value.path) := Leftover(entries[i].value)]
    ensures CutOff(files, entries, limits, i, after)
  {
    hide FilesAfter, Rendered, Vetted;
    var leftover := Leftover(entries[i].value);
    assert leftover[..|leftover|] == leftover;
  }

  lemma ArchivePathExact(path: string)
    ensures ValidateArchivePath(path).Ok? <==> Safe(path)
  {
    ValidatePathExact(path);
    hide Components, Split, Safe, FindIndex;
  }

  // ---- Bounds that hold at every step ----

  /** Bytes held by the files of a directory. */
  ghost function DiskBytes(files: Files): nat {
    if files == map[] then 0
    else
      var key :| key in files;
      |files[key]| + DiskBytes(files - {key})
  }

  lemma {:induction false} DiskBytesWithout(files: Files, key: string)
    requires key in files
    ensures DiskBytes(files) == |files[key]| + DiskBytes(files - {key})
    decreases |files|
  {
    var first :| first in files && DiskBytes(files) == |files[first]| + DiskBytes(files - {first});
    if first != key {
      DiskBytesWithout(files - {first}, key);
      DiskBytesWithout(files - {key}, first);
      assert files - {first} - {key} == files - {key} - {first};
    }
  }

  lemma FilesUpdate(files: Files, key: string, contents: Bytes)
    ensures |files[key := contents]| == |files| + if key in files then 0 else 1
    ensures files[key := contents] - {key} == files - {key}
    ensures key !in files ==> files - {key} == files
  {
    var updated := files[key := contents];
    assert updated.Keys == files.Keys + {key};
    assert |updated| == |updated.Keys| && |files| == |files.Keys|;
    assert key in files ==> updated.Keys == files.Keys;
  }

  lemma DiskBytesUpdate(files: Files, key: string, contents: Bytes)
    ensures DiskBytes(files[key := contents]) <= DiskBytes(files) + |contents|
    ensures key !in files ==> DiskBytes(files[key := contents]) == DiskBytes(files) + |contents|
    ensures |files[key := contents]| <= |files| + 1
    ensures key !in files ==> |files[key := contents]| == |files| + 1
  {
    hide DiskBytes;
    FilesUpdate(files, key, contents);
    DiskBytesWithout(files[key := contents], key);
    if key in files {
      DiskBytesWithout(files, key);
    }
  }

  /** Every file is under a plain name, no deeper than the limit allows. */
  ghost predicate Confined(files: Files, limits: Limits) {
    forall key | key in files :: NormalForm(key) && |Split(key)| <= limits.maxPathDepth
  }

  lemma {:induction false} NamesAreCounted(segments: seq<string>)
    ensures |NamesOf(segments)| <= NonEmpty(segments)
    ensures "." !in segments ==> |NamesOf(segments)| == NonEmpty(segments)
  {
    if segments != [] {
      assert segments == [segments[0]] + segments[1..];
      NamesAreCounted(segments[1..]);
    }
  }

  /** However an accepted path is spelled, it is written below the destination and within the depth. */
  lemma WritesConfined(path: string)
    requires Safe(path)
    ensures NormalForm(Rendered(path)) && |Split(Rendered(path))| <= Depth(path)
  {
    RenderedIsNormal(path);
    ValidatePathExact(path);
    RenderNames(Names(path));
    NamesAreCounted(Split(path));
  }

  /** No file stands where another file's directory is. */
  ghost predicate TreeShaped(files: Files) {
    forall a, b | a in files && b in files :: !Above(Split(a), Split(b))
  }

  lemma NamesOfRendered(path: string)
    requires Safe(path)
    ensures Split(Rendered(path)) == Names(path)
  {
    ValidatePathExact(path);
    RenderNames(Names(path));
  }

  /** A file can be created exactly when its path ends in a name and the directory stays a tree. */
  lemma CanCreateExact(files: Files, path: string, contents: Bytes)
    requires Safe(path) && TreeShaped(files)
    ensures CanCreate(files, path) <==> EndsInName(path) && TreeShaped(files[Rendered(path) := contents])
  {
    NamesOfRendered(path);
    hide Split, Names, Safe, EndsInName, Rendered;
    var after := files[Rendered(path) := contents];
    if Blocked(files, path) {
      var key :| key in files && (Above(Split(key), Names(path)) || Above(Names(path), Split(key)));
      assert key in after && Rendered(path) in after;
      assert !TreeShaped(after);
    }
  }

  /** So whatever an archive holds, what has been extracted of it is a tree of files. */
  lemma {:induction false} ExtractionStaysTree(entries: Stream, limits: Limits, i: nat)
    requires i <= |entries| && Accepted(map[], entries, limits, i)
    ensures TreeShaped(FilesAfter(map[], entries, i))
  {
    if i > 0 {
      ExtractionStaysTree(entries, limits, i - 1);
      assert Taking(map[], entries, limits, i - 1);
      if Writes(entries[i - 1]) {
        var entry := entries[i - 1].value;
        CanCreateExact(FilesAfter(map[], entries, i - 1), entry.path, entry.delivered);
      }
    }
  }

  /** After any number of entries, what is on disk stays within every limit. */
  lemma {:induction false} ExtractionStaysBounded(entries: Stream, limits: Limits, i: nat)
    requires i <= |entries| && Accepted(map[], entries, limits, i)
    ensures Confined(FilesAfter(map[], entries, i), limits)
    ensures |FilesAfter(map[], entries, i)| <= CountAt(entries, i) <= limits.maxEntries
    ensures DiskBytes(FilesAfter(map[], entries, i)) <= TotalAt(entries, i) <= limits.maxTotalBytes
  {
    hide Safe, Depth, CanCreate, Rendered, NormalForm, Split;
    if i > 0 {
      ExtractionStaysBounded(entries, limits, i - 1);
      assert Taking(map[], entries, limits, i - 1);
      if Writes(entries[i - 1]) {
        var entry := entries[i - 1].value;
        WritesConfined(entry.path);
        DiskBytesUpdate(FilesAfter(map[], entries, i - 1), Rendered(entry.path), entry.delivered);
      }
    }
  }

  /** Wherever extraction stops, refused or interrupted, the disk is still confined, and holds at most
      one byte more than the total limit. */
  lemma StoppedStaysBounded(entries: Stream, limits: Limits, i: nat, after: Files)
    requires i < |entries| && Accepted(map[], entries, limits, i)
    requires CutOff(map[], entries, limits, i, after)
    ensures Confined(after, limits)
    ensures |after| <= limits.maxEntries
    ensures DiskBytes(after) <= limits.maxTotalBytes + 1
  {
    hide Safe, Depth, CanCreate, Rendered, NormalForm, Split;
    ExtractionStaysBounded(entries, limits, i);
    var before := FilesAfter(map[], entries, i);
    if after != before {
      var entry := entries[i].value;
      OneMore(map[], entries, i);
      WritesConfined(entry.path);
      var written: nat :| written <= |Leftover(entry)|
                              && after == before[Rendered(entry.path) := Leftover(entry)[..written]];
      DiskBytesUpdate(before, Rendered(entry.path), Leftover(entry)[..written]);
    }
  }

  /** An entry nothing can be held against except that its stream does not match its header. */
  ghost predicate LiesAboutSize(files: Files, entries: Stream, limits: Limits, i: nat)
    requires i < |entries|
  {
    && Vetted(entries, limits, i) && Writes(entries[i])
    && CanCreate(FilesAfter(files, entries, i), entries[i].value.path)
    && !Honest(entries[i].value)
  }

  /** The documentation says a refused entry leaves nothing behind. That holds exactly when the entry
      is not one that lies about its size, or happens to put back what an earlier entry had left under the
      same path: such a lie is found out only by copying, over whatever was there. */
  lemma RefusalLeavesNothingExactly(
    files: Files, entries: Stream, limits: Limits, i: nat, error: ReconcileError, after: Files)
    requires i < |entries| && Refused(files, entries, limits, i, error, after)
    ensures var before := FilesAfter(files, entries, i);
            after == before <==>
            || !LiesAboutSize(files, entries, limits, i)
            || (&& Rendered(entries[i].value.path) in before
                && before[Rendered(entries[i].value.path)] == Leftover(entries[i].value))
  {
    hide Safe, Depth, CanCreate, Rendered, Split;
  }

  lemma OneLetterPath()
    ensures Split("a") == ["a"] && Rendered("a") == "a" && Safe("a") && EndsInName("a") && Depth("a") == 1
  {
    JoinUndoesSplit("a");
    assert NonEmpty(["a"]) == 1 + NonEmpty([]);
    assert NamesOf(["a"]) == ["a"] + NamesOf([]) == ["a"];
  }

  ghost predicate Generous(limits: Limits) {
    limits.maxTotalBytes >= 3 && limits.maxEntries >= 2 && limits.maxEntryBytes >= 2 && limits.maxPathDepth >= 1
  }

  /** A one-entry archive that declares two bytes and delivers one: refused, with the byte on disk. */
  lemma PartialFileRemains(limits: Limits)
    requires Generous(limits)
    ensures var entries := [Some(ArchiveEntry("a", Regular, Some(2), [7]))];
            && LiesAboutSize(map[], entries, limits, 0)
            && Refused(map[], entries, limits, 0, ArchiveRejected, map["a" := [7]])
  {
    OneLetterPath();
    hide Split, Rendered, Safe, EndsInName, Depth;
    var entries := [Some(ArchiveEntry("a", Regular, Some(2), [7]))];
    Nothing(map[], entries);
    OneMore(map[], entries, 0);
  }

  /** A lying duplicate destroys an accepted file: the first entry is extracted, the second is refused, and
      what is left under their path is the second's. */
  lemma DuplicateDestroysAccepted(limits: Limits)
    requires Generous(limits)
    ensures var entries := [Some(ArchiveEntry("a", Regular, Some(1), [7])),
                           Some(ArchiveEntry("a", Regular, Some(2), [8]))];
            && Accepted(map[], entries, limits, 1)
            && FilesAfter(map[], entries, 1) == map["a" := [7]]
            && Refused(map[], entries, limits, 1, ArchiveRejected, map["a" := [8]])
  {
    OneLetterPath();
    hide Split, Rendered, Safe, EndsInName, Depth;
    var entries := [Some(ArchiveEntry("a", Regular, Some(1), [7])), Some(ArchiveEntry("a", Regular, Some(2), [8]))];
    Nothing(map[], entries);
    OneMore(map[], entries, 0);
    OneMore(map[], entries, 1);
    hide FilesAfter, CountAt, TotalAt;
    assert Taking(map[], entries, limits, 0);
  }

  // ---- Extracting what was packed ----

  function AsStream(entries: seq<ArchiveEntry>): (stream: Stream)
    ensures |stream| == |entries| && forall i | 0 <= i < |entries| :: stream[i] == Some(entries[i])
  {
    seq(|entries|, i requires 0 <= i < |entries| => Some(entries[i]))
  }

  /** A tree's regular files by rendered path. */
  ghost function TreeFiles(tree: Tree): Files
    requires tree.Dir? && WellNamed(tree)
  {
    map key | key in RenderedPaths(tree) :: (ReadsRendered(tree, key); ReadFile(tree, Split(key)).value)
  }

  /** Files an archive may hold without exceeding any limit. */
  ghost predicate Fits(files: Files, limits: Limits) {
    && |files| <= limits.maxEntries
    && DiskBytes(files) <= limits.maxTotalBytes
    && forall key | key in files ::
         && |Split(key)| <= limits.maxPathDepth
         && |files[key]| <= limits.maxEntryBytes && |files[key]| < U64_MAX
  }

  /** A file's path never continues another file's path. */
  lemma {:induction false} NoFileAboveAnother(tree: Tree, p: seq<string>, q: seq<string>)
    requires p in FilePaths(tree) && q in FilePaths(tree)
    ensures !Above(p, q)
    decreases p
  {
    if tree.Dir? && Above(p, q) {
      assert p == [p[0]] + p[1..] && q == [q[0]] + q[1..] && p[0] == q[0];
      assert p[1..] == q[1..][..|p| - 1];
      NoFileAboveAnother(tree.children[p[0]], p[1..], q[1..]);
    }
  }

  /** What a packed entry's path looks like to the extractor. */
  lemma PackedPath(tree: Tree, entry: ArchiveEntry) returns (path: seq<string>)
    requires tree.Dir? && WellNamed(tree) && PacksAFile(tree, entry)
    ensures path in FilePaths(tree) && entry == Packed(Join(path), ContentAt(tree, path))
    ensures Split(entry.path) == path == Names(entry.path) && Rendered(entry.path) == entry.path
    ensures Depth(entry.path) == |path| && EndsInName(entry.path)
    ensures entry.path in RenderedPaths(tree)
  {
    path :| path in FilePaths(tree) && entry == Packed(Join(path), ContentAt(tree, path));
    PathNames(tree, path);
    assert |path| > 0;
    hide ContentAt, WellNamed;
    RenderNames(path);
    NamesAreCounted(path);
    assert path[|path| - 1] in path;
  }

  /** The files are those of the first `i` entries, and nothing else. */
  ghost predicate HoldsFirst(files: Files, entries: seq<ArchiveEntry>, i: nat)
    requires i <= |entries|
  {
    && (forall k | 0 <= k < i :: entries[k].path in files && files[entries[k].path] == entries[k].delivered)
    && (forall key | key in files :: exists k | 0 <= k < i :: entries[k].path == key)
  }

  lemma HoldsOneMore(files: Files, entries: seq<ArchiveEntry>, i: nat)
    requires i < |entries| && HoldsFirst(files, entries, i)
    requires forall k | 0 <= k < i :: entries[k].path != entries[i].path
    ensures entries[i].path !in files
    ensures HoldsFirst(files[entries[i].path := entries[i].delivered], entries, i + 1)
  {
    var updated := files[entries[i].path := entries[i].delivered];
    forall key | key in updated
      ensures exists k | 0 <= k < i + 1 :: entries[k].path == key
    {
      if key in files {
        var k :| 0 <= k < i && entries[k].path == key;
      }
    }
  }

  /** Extracting the first `i` packed entries puts exactly those files in place. */
  lemma {:induction false} PackedPrefix(tree: Tree, entries: seq<ArchiveEntry>, i: nat)
    requires tree.Dir? && WellNamed(tree) && IsPacked(tree, entries) && i <= |entries|
    ensures var files := FilesAfter(map[], AsStream(entries), i);
            && HoldsFirst(files, entries, i)
            && |files| == CountAt(AsStream(entries), i) == i
            && DiskBytes(files) == TotalAt(AsStream(entries), i)
  {
    hide Join, Split, FilePaths, ContentAt, WellNamed, StringLe, Rendered, PacksAFile, RenderedPaths, EndsInName;
    hide Depth, Names, DiskBytes, HoldsFirst, IsPacked;
    var stream := AsStream(entries);
    Nothing(map[], stream);
    if i == 0 {
      EmptyDisk(entries);
    } else {
      hide FilesAfter, CountAt, TotalAt;
      PackedPrefix(tree, entries, i - 1);
      OneMore(map[], stream, i - 1);
      PackedIsDistinct(tree, entries, i - 1);
      var path := PackedPath(tree, entries[i - 1]);
      var before := FilesAfter(map[], stream, i - 1);
      HoldsOneMore(before, entries, i - 1);
      DiskBytesUpdate(before, entries[i - 1].path, entries[i - 1].delivered);
    }
  }

  lemma EmptyDisk(entries: seq<ArchiveEntry>)
    ensures HoldsFirst(map[], entries, 0) && DiskBytes(map[]) == 0
  {
  }

  lemma PackedIsDistinct(tree: Tree, entries: seq<ArchiveEntry>, i: nat)
    requires IsPacked(tree, entries) && i < |entries|
    ensures PacksAFile(tree, entries[i])
    ensures forall k | 0 <= k < i :: entries[k].path != entries[i].path
  {
    hide StringLe, PacksAFile, RenderedPaths;
  }

  lemma PackedContents(tree: Tree, entry: ArchiveEntry)
    requires tree.Dir? && WellNamed(tree) && PacksAFile(tree, entry)
    ensures entry.path in TreeFiles(tree) && TreeFiles(tree)[entry.path] == entry.delivered
  {
    hide Join, Split, FilePaths, ContentAt, WellNamed, PacksAFile, RenderedPaths, ReadFile;
    var path := PackedPath(tree, entry);
    ReadsRendered(tree, entry.path);
    EntryOfPath(tree, entry, Packed(entry.path, ReadFile(tree, Split(entry.path)).value));
  }

  lemma HeldFilesAre(files: Files, entries: seq<ArchiveEntry>, expected: Files)
    requires HoldsFirst(files, entries, |entries|)
    requires forall k | 0 <= k < |entries| ::
               entries[k].path in expected && expected[entries[k].path] == entries[k].delivered
    requires forall key | key in expected :: exists k | 0 <= k < |entries| :: entries[k].path == key
    ensures files == expected
  {
    assert files.Keys == expected.Keys;
  }

  lemma PackedFilesAreTree(tree: Tree, entries: seq<ArchiveEntry>)
    requires tree.Dir? && WellNamed(tree) && IsPacked(tree, entries)
    ensures FilesAfter(map[], AsStream(entries), |entries|) == TreeFiles(tree)
  {
    assert TreeFiles(tree).Keys == RenderedPaths(tree);
    hide FilesAfter, WellNamed, StringLe, PacksAFile, RenderedPaths, ReadFile, Split, TreeFiles, HoldsFirst;
    PackedPrefix(tree, entries, |entries|);
    forall k | 0 <= k < |entries|
      ensures entries[k].path in TreeFiles(tree) && TreeFiles(tree)[entries[k].path] == entries[k].delivered
    {
      PackedContents(tree, entries[k]);
    }
    HeldFilesAre(FilesAfter(map[], AsStream(entries), |entries|), entries, TreeFiles(tree));
  }

  lemma {:induction false} RunningFigures(entries: Stream, i: nat, n: nat)
    requires i <= n <= |entries|
    ensures CountAt(entries, i) <= CountAt(entries, n) && TotalAt(entries, i) <= TotalAt(entries, n)
    decreases n
  {
    if i < n {
      RunningFigures(entries, i, n - 1);
    }
  }

  /** A packed entry never runs into a file already extracted. */
  lemma PackedCanCreate(tree: Tree, entries: seq<ArchiveEntry>, i: nat)
    requires tree.Dir? && WellNamed(tree) && IsPacked(tree, entries) && i < |entries|
    ensures CanCreate(FilesAfter(map[], AsStream(entries), i), entries[i].path)
  {
    hide Join, Split, FilePaths, ContentAt, WellNamed, StringLe, PacksAFile, RenderedPaths, FilesAfter, EndsInName;
    hide Above;
    PackedPrefix(tree, entries, i);
    var path := PackedPath(tree, entries[i]);
    var files := FilesAfter(map[], AsStream(entries), i);
    forall key | key in files
      ensures !Above(Split(key), Names(entries[i].path)) && !Above(Names(entries[i].path), Split(key))
    {
      var k :| 0 <= k < i && entries[k].path == key;
      var other := PackedPath(tree, entries[k]);
      NoFileAboveAnother(tree, path, other);
      NoFileAboveAnother(tree, other, path);
    }
  }

  /** One packed entry is taken exactly when it is within the limits. */
  lemma PackedEntryTaken(tree: Tree, entries: seq<ArchiveEntry>, limits: Limits, i: nat)
    requires tree.Dir? && WellNamed(tree) && Packable(tree) && IsPacked(tree, entries) && i < |entries|
    ensures Taking(map[], AsStream(entries), limits, i) <==>
            && |Split(entries[i].path)| <= limits.maxPathDepth
            && |entries[i].delivered| <= limits.maxEntryBytes && |entries[i].delivered| < U64_MAX
            && CountAt(AsStream(entries), i + 1) <= limits.maxEntries
            && TotalAt(AsStream(entries), i + 1) <= limits.maxTotalBytes
  {
    hide Join, Split, FilePaths, ContentAt, WellNamed, StringLe, RenderedPaths, FilesAfter, EndsInName, Depth, Safe;
    hide CanCreate, CountAt, TotalAt;
    PackedCanCreate(tree, entries, i);
    var path := PackedPath(tree, entries[i]);
    assert AsStream(entries)[i] == Some(entries[i]);
  }

  lemma FitsIsTaken(tree: Tree, entries: seq<ArchiveEntry>, limits: Limits, i: nat)
    requires tree.Dir? && WellNamed(tree) && Packable(tree) && IsPacked(tree, entries) && i < |entries|
    requires Fits(FilesAfter(map[], AsStream(entries), |entries|), limits)
    ensures Taking(map[], AsStream(entries), limits, i)
  {
    hide Join, Split, FilePaths, ContentAt, WellNamed, Packable, IsPacked, FilesAfter, Taking, CountAt, TotalAt;
    hide DiskBytes;
    PackedPrefix(tree, entries, |entries|);
    PackedEntryTaken(tree, entries, limits, i);
    RunningFigures(AsStream(entries), i + 1, |entries|);
  }

  lemma TakenFits(tree: Tree, entries: seq<ArchiveEntry>, limits: Limits)
    requires tree.Dir? && WellNamed(tree) && Packable(tree) && IsPacked(tree, entries)
    requires Accepted(map[], AsStream(entries), limits, |entries|)
    ensures Fits(FilesAfter(map[], AsStream(entries), |entries|), limits)
  {
    hide Join, Split, FilePaths, ContentAt, WellNamed, Packable, IsPacked, FilesAfter, Taking, CountAt, TotalAt;
    hide DiskBytes;
    var stream, n := AsStream(entries), |entries|;
    PackedPrefix(tree, entries, n);
    ExtractionStaysBounded(stream, limits, n);
    forall key | key in FilesAfter(map[], stream, n)
      ensures |Split(key)| <= limits.maxPathDepth
      ensures |FilesAfter(map[], stream, n)[key]| <= limits.maxEntryBytes
      ensures |FilesAfter(map[], stream, n)[key]| < U64_MAX
    {
      var k :| 0 <= k < n && entries[k].path == key;
      PackedEntryTaken(tree, entries, limits, k);
    }
  }

  /** Extraction undoes packing. For every tree whose names can be packed, extracting the archive into
      an empty directory succeeds exactly when the tree's files fit the limits, and what it leaves
      is the tree's regular files with their bytes: links, special files and empty directories are
      dropped, and nothing else. */
  lemma ExtractUndoesPack(tree: Tree, entries: seq<ArchiveEntry>, limits: Limits)
    requires tree.Dir? && WellNamed(tree) && Packable(tree) && IsPacked(tree, entries)
    ensures Accepted(map[], AsStream(entries), limits, |entries|) <==> Fits(TreeFiles(tree), limits)
    ensures FilesAfter(map[], AsStream(entries), |entries|) == TreeFiles(tree)
    ensures CountAt(AsStream(entries), |entries|) == |TreeFiles(tree)|
    ensures TotalAt(AsStream(entries), |entries|) == DiskBytes(TreeFiles(tree))
  {
    hide Join, Split, FilePaths, ContentAt, WellNamed, Packable, IsPacked, TreeFiles, FilesAfter, Taking, CountAt;
    hide TotalAt, Fits, DiskBytes;
    var stream, n := AsStream(entries), |entries|;
    PackedFilesAreTree(tree, entries);
    PackedPrefix(tree, entries, n);
    forall i | 0 <= i < n && Fits(TreeFiles(tree), limits)
      ensures Taking(map[], stream, limits, i)
    {
      FitsIsTaken(tree, entries, limits, i);
    }
    if Accepted(map[], stream, limits, n) {
      TakenFits(tree, entries, limits);
    }
  }
}
