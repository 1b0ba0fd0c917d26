/** Writing an evidence bundle to disk, one atomic file at a time. */
module Writer {
  import opened Wrappers
  import opened Text
  import opened Ordering
  import opened Layout
  import opened Manifest
  import opened Validation

  datatype OutputMode = Create | Overwrite | Resume

  /** A bundle directory. While `faulty` is set any step may fail, or be the last the process takes. */
  class Disk {
    var files: Files
    var faulty: bool

    constructor (faulty: bool)
      ensures files == map[] && this.faulty == faulty
    {
      this.faulty := faulty;
      files := map[];
    }
  }

  function PartialOf(path: string): string {
    Rendered(path + PARTIAL_SUFFIX)
  }

  /** The directory after `path` was written. */
  function WrittenTo(files: Files, path: string, contents: Bytes): Files {
    (files - {PartialOf(path)})[Rendered(path) := contents]
  }

  /** Every directory an interrupted write of `path` can leave: as it was, or with a temporary file
      holding some prefix of the contents. The file itself is never half-written. */
  ghost predicate Interrupted(before: Files, after: Files, path: string, contents: Bytes) {
    || after == before
    || exists written: nat | written <= |contents| :: after == before[PartialOf(path) := contents[..written]]
  }

  lemma MayStopHere(before: Files, path: string, contents: Bytes)
    ensures Interrupted(before, before, path, contents)
    ensures forall written: nat | written <= |contents| ::
              Interrupted(before, before[PartialOf(path) := contents[..written]], path, contents)
  {
  }

  /** Publishes contents by writing a temporary file and renaming it; cut off at any step, the file itself is
      as it was. */
  method WriteAtomically(disk: Disk, path: string, contents: Bytes) returns (r: Result<()>)
    requires Safe(path)
    modifies disk`files
    ensures r.Ok? ==> disk.files == WrittenTo(old(disk.files), path, contents)
    ensures r.Err? ==> Interrupted(old(disk.files), disk.files, path, contents)
    ensures !disk.faulty && EndsInName(path) ==> r.Ok?
  {
    hide Rendered, Interrupted;
    MayStopHere(disk.files, path, contents);
    ghost var before := disk.files;
    var partial := PartialOf(path);
    if disk.faulty { if * { return Err(Filesystem); } }  // create the parent directory
    if disk.faulty { if * { return Err(Filesystem); } }  // create the temporary file
    disk.files := disk.files[partial := []];
    assert disk.files == before[partial := contents[..0]];
    if disk.faulty {                                     // write the contents
      if * {
        var written: nat :| written <= |contents|;
        disk.files := disk.files[partial := contents[..written]];
        assert disk.files == before[partial := contents[..written]];
        return Err(Filesystem);
      }
    }
    disk.files := disk.files[partial := contents];
    assert contents[..|contents|] == contents;
    assert disk.files == before[partial := contents];
    if disk.faulty { if * { return Err(Filesystem); } }  // flush
    if disk.faulty { if * { return Err(Filesystem); } }  // rename
    if !EndsInName(path) {
      return Err(Filesystem);
    }
    disk.files := (disk.files - {partial})[Rendered(path) := contents];
    r := Ok(());
  }

  function EntryOf(path: string, contents: Bytes, encoding: Encoding, codec: Codec): FileEntry {
    FileEntry(path, codec.sha256(contents), |contents|, encoding)
  }

  /** Counts saturate, as the source's 32-bit counters do. */
  function Counted(count: u32): (counted: u32)
    ensures count < counted || count == counted == U32_MAX
    ensures counted <= count + 1
  {
    if count == U32_MAX then U32_MAX else count + 1
  }

  class BundleWriter {
    const disk: Disk
    const codec: Codec
    var entries: seq<FileEntry>
    var reused: u32
    var written: u32

    constructor (disk: Disk, codec: Codec)
      ensures this.disk == disk && this.codec == codec
      ensures entries == [] && reused == 0 && written == 0
    {
      this.disk := disk;
      this.codec := codec;
      entries := [];
      reused, written := 0, 0;
    }

    /** Whether a safe path leads to a regular file. */
    method Contains(path: string) returns (r: Result<bool>)
      ensures r.Ok? <==> Safe(path)
      ensures r.Ok? ==> (r.value <==> FileAt(disk.files, path).Some?)
    {
      ValidatePathExact(path);
      var _ :- ValidateRelativePath(path);
      r := Ok(FileAt(disk.files, path).Some?);
    }

    /** Publishes a file and replaces the record of its path; on error the records are as they were. */
    method Write(path: string, contents: Bytes, encoding: Encoding) returns (r: Result<()>)
      modifies this, disk`files
      ensures r.Ok? ==>
                && Safe(path)
                && disk.files == WrittenTo(old(disk.files), path, contents)
                && entries == Recorded(old(entries), EntryOf(path, contents, encoding, codec))
                && written == Counted(old(written)) && reused == old(reused)
      ensures r.Err? ==>
                && (if Safe(path) then Interrupted(old(disk.files), disk.files, path, contents)
                    else disk.files == old(disk.files))
                && entries == old(entries) && written == old(written) && reused == old(reused)
      ensures !disk.faulty && Safe(path) && EndsInName(path) ==> r.Ok?
    {
      ValidatePathExact(path);
      var _ :- ValidateRelativePath(path);
      var _ :- WriteAtomically(disk, path, contents);
      entries := Recorded(entries, EntryOf(path, contents, encoding, codec));
      written := Counted(written);
      r := Ok(());
    }

    /** Records a file already on disk by the bytes found there. */
    method Adopt(path: string, encoding: Encoding) returns (r: Result<Bytes>)
      modifies this
      ensures r.Ok? ==>
                && Safe(path)
                && FileAt(disk.files, path) == Some(r.value)
                && entries == Recorded(old(entries), EntryOf(path, r.value, encoding, codec))
                && reused == Counted(old(reused)) && written == old(written)
      ensures r.Err? ==> entries == old(entries) && written == old(written) && reused == old(reused)
      ensures !disk.faulty && Safe(path) && FileAt(disk.files, path).Some? ==> r.Ok?
    {
      ValidatePathExact(path);
      var _ :- ValidateRelativePath(path);
      if disk.faulty { if * { return Err(Filesystem); } }  // read
      match FileAt(disk.files, path) {
        case None => return Err(Filesystem);
        case Some(contents) =>
          entries := Recorded(entries, EntryOf(path, contents, encoding, codec));
          reused := Counted(reused);
          return Ok(contents);
      }
    }

    /** Publishes the index of what was recorded, then its digest, unless the manifest is inconsistent. */
    method Finish(header: Header) returns (r: Result<ManifestData>)
      requires DistinctPaths(entries)
      modifies disk`files
      ensures var data := ManifestData(header, Index(entries));
              && (r.Ok? ==>
                    r.value == data && ValidStructure(data) && disk.files == Finished(old(disk.files), data, codec))
              && (r.Err? ==> if ValidStructure(data) then FinishInterrupted(old(disk.files), disk.files, data, codec)
                             else disk.files == old(disk.files))
              && (!disk.faulty && ValidStructure(data) ==> r.Ok?)
    {
      var manifest := new Manifest(header);
      for i := 0 to |entries|
        invariant manifest.header == header && unchanged(this, disk)
        invariant Ascending(manifest.files) && multiset(manifest.files) == multiset(entries[..i])
      {
        assert entries[..i + 1] == entries[..i] + [entries[i]];
        manifest.AddFile(entries[i]);
      }
      assert entries[..|entries|] == entries;
      IndexIsDetermined(manifest.files, entries);
      var data := manifest.Data();
      var _ :- ValidateStructure(data);

      ManifestNamesAreNormal();
      var _ :- WriteAtomically(disk, MANIFEST, codec.manifestJson(data));
      var _ :- WriteAtomically(disk, MANIFEST_HASH, DigestLine(data, codec));
      r := Ok(data);
    }
  }

  lemma ManifestNamesAreNormal()
    ensures NormalForm(MANIFEST) && EndsInName(MANIFEST)
    ensures NormalForm(MANIFEST_HASH) && EndsInName(MANIFEST_HASH)
  {
    PathSegments(ManifestFile);
    PathSegments(ManifestDigest);
    NormalEndsInName(MANIFEST);
    NormalEndsInName(MANIFEST_HASH);
  }

  lemma NormalEndsInName(path: string)
    requires NormalForm(path)
    ensures EndsInName(path) && Rendered(path) == path
  {
    RenderedIsNormal(path);
    var segments := Split(path);
    assert segments[|segments| - 1] in segments;
  }

  function DigestLine(data: ManifestData, codec: Codec): Bytes {
    codec.textBytes(codec.manifestDigest(data) + "\n")
  }

  function WithManifest(files: Files, data: ManifestData, codec: Codec): Files {
    WrittenTo(files, MANIFEST, codec.manifestJson(data))
  }

  function Finished(files: Files, data: ManifestData, codec: Codec): Files {
    WrittenTo(WithManifest(files, data, codec), MANIFEST_HASH, DigestLine(data, codec))
  }

  /** What a `Finish` cut short can leave: the manifest is published before its digest. */
  ghost predicate FinishInterrupted(before: Files, after: Files, data: ManifestData, codec: Codec) {
    || Interrupted(before, after, MANIFEST, codec.manifestJson(data))
    || Interrupted(WithManifest(before, data, codec), after, MANIFEST_HASH, DigestLine(data, codec))
  }

  /** Some of a directory's files, as they were. */
  ghost predicate RemnantOf(before: Files, after: Files) {
    forall key | key in after :: key in before && after[key] == before[key]
  }

  /** Opens the output directory: only an empty one to create into, only a bundle to overwrite, anything to
      resume. Overwriting removes the old bundle file by file, in any order, and may be cut off between. */
  method Open(disk: Disk, mode: OutputMode) returns (r: Result<()>)
    modifies disk`files
    ensures mode.Create? ==> disk.files == old(disk.files) && (r.Ok? ==> disk.files == map[])
    ensures mode.Resume? ==> disk.files == old(disk.files)
    ensures mode.Overwrite? && old(disk.files) != map[] && MANIFEST !in old(disk.files) ==>
              r.Err? && disk.files == old(disk.files)
    ensures mode.Overwrite? ==> RemnantOf(old(disk.files), disk.files) && (r.Ok? ==> disk.files == map[])
    ensures !disk.faulty && (mode.Resume? || old(disk.files) == map[]) ==> r.Ok?
    ensures !disk.faulty && mode.Overwrite? && MANIFEST in old(disk.files) ==> r.Ok?
  {
    match mode {
      case Create =>
        if disk.files != map[] {
          return Err(InvalidInput);
        }
      case Overwrite =>
        if disk.files != map[] {
          if MANIFEST !in disk.files {
            return Err(InvalidInput);
          }
          if disk.faulty {                                 // remove the old bundle, file by file
            if * {
              var kept: set<string> :| kept <= disk.files.Keys;
              disk.files := map path | path in kept :: disk.files[path];
              return Err(Filesystem);
            }
          }
          disk.files := map[];
        }
      case Resume =>
    }
    if disk.faulty { if * { return Err(Filesystem); } }    // create the root
    r := Ok(());
  }

  // ---- What a writer's records say about the disk ----

  /** Every recorded entry is in place on disk with the recorded size and digest. */
  ghost predicate Faithful(entries: seq<FileEntry>, files: Files, codec: Codec) {
    && DistinctPaths(entries)
    && forall i | 0 <= i < |entries| :: InPlace(files, entries[i], codec)
  }

  /** A path a writer may be asked for: one spelling, and not the temporary name of another. */
  ghost predicate Writable(path: string) {
    NormalForm(path) && !(exists other: string :: path == other + PARTIAL_SUFFIX)
  }

  function SuffixLast(segments: seq<string>, suffix: string): seq<string>
    requires |segments| > 0
  {
    segments[..|segments| - 1] + [segments[|segments| - 1] + suffix]
  }

  lemma {:induction false} JoinSuffix(segments: seq<string>, suffix: string)
    requires |segments| > 0
    ensures Join(SuffixLast(segments, suffix)) == Join(segments) + suffix
  {
    if |segments| > 1 {
      var head, rest := segments[0], segments[1..];
      JoinSuffix(rest, suffix);
      assert SuffixLast(segments, suffix)[1..] == SuffixLast(rest, suffix);
      ConcatAssociates(head + "/", Join(rest), suffix);
    }
  }

  lemma ConcatAssociates(a: string, b: string, c: string)
    ensures a + b + c == a + (b + c)
  {
  }

  lemma PartialIsNormal(path: string)
    requires NormalForm(path)
    ensures PartialOf(path) == path + PARTIAL_SUFFIX
  {
    var segments := Split(path);
    JoinUndoesSplit(path);
    JoinSuffix(segments, PARTIAL_SUFFIX);
    var renamed := SuffixLast(segments, PARTIAL_SUFFIX);
    forall i | 0 <= i < |renamed|
      ensures renamed[i] != "" && renamed[i] != "." && '/' !in renamed[i]
    {
      SuffixedName(segments[i]);
      assert segments[i] in segments;
    }
    RenderNames(renamed);
  }

  lemma SuffixedName(name: string)
    requires '/' !in name
    ensures '/' !in name + PARTIAL_SUFFIX && |name + PARTIAL_SUFFIX| > 1
  {
  }

  /** Writing a file leaves every other file as it was. */
  lemma WriteLeavesOthers(files: Files, path: string, contents: Bytes, other: string)
    requires Writable(path) && Writable(other)
    ensures FileAt(WrittenTo(files, path, contents), other) ==
            if other == path then Some(contents) else FileAt(files, other)
    ensures forall after | Interrupted(files, after, path, contents) :: FileAt(after, other) == FileAt(files, other)
  {
    NormalEndsInName(path);
    NormalEndsInName(other);
    PartialIsNormal(path);
  }

  ghost predicate AllWritable(entries: seq<FileEntry>) {
    forall i | 0 <= i < |entries| :: Writable(entries[i].path)
  }

  /** Whatever is written, and wherever it is cut short, the records and the disk never part. */
  lemma WriteKeepsFaithful(
    entries: seq<FileEntry>, files: Files, path: string, contents: Bytes, encoding: Encoding, codec: Codec)
    requires Faithful(entries, files, codec) && AllWritable(entries) && Writable(path)
    ensures Faithful(
              Recorded(entries, EntryOf(path, contents, encoding, codec)), WrittenTo(files, path, contents), codec)
    ensures AllWritable(Recorded(entries, EntryOf(path, contents, encoding, codec)))
    ensures forall after | Interrupted(files, after, path, contents) :: Faithful(entries, after, codec)
  {
    var entry := EntryOf(path, contents, encoding, codec);
    var recorded := Recorded(entries, entry);
    RecordedKeepsDistinct(entries, entry);
    WriteLeavesOthers(files, path, contents, path);
    forall i | 0 <= i < |recorded|
      ensures InPlace(WrittenTo(files, path, contents), recorded[i], codec) && Writable(recorded[i].path)
    {
      RecordedMembers(entries, entry, i);
      WriteLeavesOthers(files, path, contents, recorded[i].path);
    }
    forall after, i | Interrupted(files, after, path, contents) && 0 <= i < |entries|
      ensures InPlace(after, entries[i], codec)
    {
      WriteLeavesOthers(files, path, contents, entries[i].path);
    }
  }

  lemma RecordedMembers(entries: seq<FileEntry>, entry: FileEntry, i: nat)
    requires i < |Recorded(entries, entry)|
    ensures var member := Recorded(entries, entry)[i];
            member == entry || (member.path != entry.path && exists j | 0 <= j < |entries| :: entries[j] == member)
  {
    var rest := Without(entries, entry.path);
    if i < |rest| {
      assert rest[i] in rest;
    }
  }

  lemma AdoptKeepsFaithful(
    entries: seq<FileEntry>, files: Files, path: string, encoding: Encoding, codec: Codec)
    requires Faithful(entries, files, codec) && AllWritable(entries) && Writable(path)
    requires FileAt(files, path).Some?
    ensures Faithful(Recorded(entries, EntryOf(path, FileAt(files, path).value, encoding, codec)), files, codec)
    ensures AllWritable(Recorded(entries, EntryOf(path, FileAt(files, path).value, encoding, codec)))
  {
    var entry := EntryOf(path, FileAt(files, path).value, encoding, codec);
    var recorded := Recorded(entries, entry);
    RecordedKeepsDistinct(entries, entry);
    forall i | 0 <= i < |recorded|
      ensures InPlace(files, recorded[i], codec) && Writable(recorded[i].path)
    {
      RecordedMembers(entries, entry, i);
    }
  }

  // ---- From writer to validator ----

  ghost function PathsOf(entries: seq<FileEntry>): set<string> {
    set i | 0 <= i < |entries| :: entries[i].path
  }

  lemma PathsOfRecorded(entries: seq<FileEntry>, entry: FileEntry)
    ensures PathsOf(Recorded(entries, entry)) == PathsOf(entries) + {entry.path}
  {
    var recorded := Recorded(entries, entry);
    assert recorded[|recorded| - 1] == entry;
    forall i | 0 <= i < |recorded|
      ensures recorded[i].path in PathsOf(entries) + {entry.path}
    {
      RecordedMembers(entries, entry, i);
    }
    forall i | 0 <= i < |entries|
      ensures entries[i].path in PathsOf(recorded)
    {
      if entries[i].path != entry.path {
        assert entries[i] in Without(entries, entry.path);
        var k :| 0 <= k < |recorded| - 1 && Without(entries, entry.path)[k] == entries[i];
        assert recorded[k] == entries[i];
      }
    }
  }

  lemma IndexMembers(entries: seq<FileEntry>)
    ensures forall entry :: entry in Index(entries) <==> entry in entries
    ensures PathsOf(Index(entries)) == PathsOf(entries)
  {
    var index := Index(entries);
    forall entry
      ensures entry in index <==> entry in entries
    {
      assert entry in multiset(index) <==> entry in multiset(entries);
    }
    forall path
      ensures path in PathsOf(index) <==> path in PathsOf(entries)
    {
      if path in PathsOf(index) {
        var i :| 0 <= i < |index| && index[i].path == path;
        assert index[i] in entries;
      }
      if path in PathsOf(entries) {
        var i :| 0 <= i < |entries| && entries[i].path == path;
        assert entries[i] in index;
      }
    }
  }

  /** Nothing is in the directory but the recorded files and what an earlier `Finish` left. */
  ghost predicate NothingElse(files: Files, entries: seq<FileEntry>) {
    forall key | key in files ::
      || key in PathsOf(entries) || key == MANIFEST || key == MANIFEST_HASH
      || key == PartialOf(MANIFEST) || key == PartialOf(MANIFEST_HASH)
  }

  ghost predicate Unreserved(entries: seq<FileEntry>) {
    MANIFEST !in PathsOf(entries) && MANIFEST_HASH !in PathsOf(entries)
  }

  /** A bundle the validator finds nothing to say about. */
  ghost predicate Clean(files: Files, data: ManifestData, codec: Codec) {
    && Intact(files, data, codec)
    && UnlistedPaths(files, data) == {}
    && MANIFEST_HASH in files
  }

  lemma DigestLineReads(files: Files, data: ManifestData, codec: Codec)
    requires codec.TextRoundTrips()
    ensures MANIFEST_HASH in Finished(files, data, codec)
    ensures DigestStated(Finished(files, data, codec), data, codec)
  {
    hide Rendered, PartialOf, FirstWord, IsDigest, NormalForm, EndsInName, Safe;
    ManifestNamesAreNormal();
    NormalEndsInName(MANIFEST_HASH);
    DigestIsFirstWord(codec.manifestDigest(data));
    assert codec.bytesText(DigestLine(data, codec)) == Some(codec.manifestDigest(data) + "\n");
  }

  lemma ManifestNamesAreWritable()
    ensures Writable(MANIFEST) && Writable(MANIFEST_HASH)
    ensures Rendered(MANIFEST) == MANIFEST && Rendered(MANIFEST_HASH) == MANIFEST_HASH
  {
    ManifestNamesAreNormal();
    NormalEndsInName(MANIFEST);
    NormalEndsInName(MANIFEST_HASH);
    PathSegments(ManifestFile);
    PathSegments(ManifestDigest);
    forall other: string
      ensures MANIFEST != other + PARTIAL_SUFFIX && MANIFEST_HASH != other + PARTIAL_SUFFIX
    {
      var partial := other + PARTIAL_SUFFIX;
      assert partial[|partial| - 1] == 'l';
      assert ManifestFile.Path() == MANIFEST && ManifestDigest.Path() == MANIFEST_HASH;
    }
  }

  /** Publishing the manifest disturbs no recorded file, at whatever step it stops. */
  lemma FinishLeavesEntries(files: Files, after: Files, entries: seq<FileEntry>, data: ManifestData, codec: Codec)
    requires Faithful(entries, files, codec) && AllWritable(entries) && Unreserved(entries)
    requires after == Finished(files, data, codec) || FinishInterrupted(files, after, data, codec)
    ensures Faithful(entries, after, codec)
  {
    ManifestNamesAreWritable();
    forall i | 0 <= i < |entries|
      ensures InPlace(after, entries[i], codec)
    {
      assert entries[i].path in PathsOf(entries);
      hide *;
      LeftAlone(files, after, entries, i, data, codec);
    }
  }

  lemma LeftAlone(
    files: Files, after: Files, entries: seq<FileEntry>, i: nat, data: ManifestData, codec: Codec)
    requires i < |entries|
    requires Faithful(entries, files, codec) && AllWritable(entries)
    requires entries[i].path != MANIFEST && entries[i].path != MANIFEST_HASH
    requires after == Finished(files, data, codec) || FinishInterrupted(files, after, data, codec)
    ensures InPlace(after, entries[i], codec)
  {
    ManifestNamesAreWritable();
    var path := entries[i].path;
    hide Rendered, PartialOf, Writable, MANIFEST, MANIFEST_HASH, FileAt, WrittenTo, Interrupted;
    WriteLeavesOthers(files, MANIFEST, codec.manifestJson(data), path);
    WriteLeavesOthers(WithManifest(files, data, codec), MANIFEST_HASH, DigestLine(data, codec), path);
    assert FileAt(after, path) == FileAt(files, path);
  }

  lemma NothingUnlisted(files: Files, entries: seq<FileEntry>, data: ManifestData, codec: Codec)
    requires NothingElse(files, entries)
    requires PathsOf(data.files) == PathsOf(entries)
    ensures UnlistedPaths(Finished(files, data, codec), data) == {}
  {
    ManifestNamesAreWritable();
    hide Rendered, PartialOf, Writable;
    var after := Finished(files, data, codec);
    forall key | key in after
      ensures key in PathsOf(entries) || key == MANIFEST || key == MANIFEST_HASH
    {
    }
    assert MANIFEST_HASH == GENERATED_PATHS[0];
    forall key | key in PathsOf(data.files)
      ensures key !in UnlistedPaths(after, data)
    {
    }
  }

  lemma IndexedInPlace(after: Files, entries: seq<FileEntry>, codec: Codec)
    requires Faithful(entries, after, codec)
    ensures forall i | 0 <= i < |Index(entries)| :: InPlace(after, Index(entries)[i], codec)
  {
    IndexMembers(entries);
    hide InPlace;
    forall i | 0 <= i < |Index(entries)|
      ensures InPlace(after, Index(entries)[i], codec)
    {
      assert Index(entries)[i] in entries;
    }
  }

  lemma FinishedIsIntact(files: Files, entries: seq<FileEntry>, header: Header, codec: Codec)
    requires Faithful(entries, files, codec) && AllWritable(entries) && Unreserved(entries)
    requires codec.TextRoundTrips()
    ensures var data := ManifestData(header, Index(entries));
            Intact(Finished(files, data, codec), data, codec) && MANIFEST_HASH in Finished(files, data, codec)
  {
    var data := ManifestData(header, Index(entries));
    var after := Finished(files, data, codec);
    hide Index, InPlace, Finished, DigestStated;
    DigestLineReads(files, data, codec);
    FinishLeavesEntries(files, after, entries, data, codec);
    IndexedInPlace(after, entries, codec);
  }

  /** Writer and validator agree: after files have been written or adopted, each under its normal
      form, and the bundle finished, validation reports no failure and no warning. */
  lemma FinishedIsClean(files: Files, entries: seq<FileEntry>, header: Header, codec: Codec)
    requires Faithful(entries, files, codec) && AllWritable(entries) && Unreserved(entries)
    requires NothingElse(files, entries)
    requires codec.TextRoundTrips()
    ensures var data := ManifestData(header, Index(entries));
            Clean(Finished(files, data, codec), data, codec)
  {
    var data := ManifestData(header, Index(entries));
    hide Index, InPlace, Finished, DigestStated, UnlistedPaths;
    FinishedIsIntact(files, entries, header, codec);
    IndexMembers(entries);
    NothingUnlisted(files, entries, data, codec);
  }

  /** What a writer recorded is always an index a reader accepts. */
  lemma RecordsAreWellIndexed(entries: seq<FileEntry>, files: Files, codec: Codec)
    requires Faithful(entries, files, codec) && AllWritable(entries)
    ensures WellIndexed(Index(entries))
  {
    EntryOrderIsTotal();
    StableSortSorts(entries, EntryLe);
    IndexIsDetermined(Index(entries), entries);
    IndexMembers(entries);
    hide Index;
    forall i | 0 <= i < |Index(entries)|
      ensures Safe(Index(entries)[i].path) && IsDigest(Index(entries)[i].sha256)
    {
      assert Index(entries)[i] in entries;
      var j :| 0 <= j < |entries| && entries[j] == Index(entries)[i];
      assert InPlace(files, entries[j], codec) && Writable(entries[j].path);
    }
  }

  datatype Item = Item(path: string, contents: Bytes, encoding: Encoding)

  ghost predicate Ordinary(item: Item) {
    Writable(item.path) && item.path != MANIFEST && item.path != MANIFEST_HASH
  }

  /** The last contents asked for under each path. */
  ghost function LastContents(items: seq<Item>): Files {
    if items == [] then map[]
    else LastContents(items[..|items| - 1])[items[|items| - 1].path := items[|items| - 1].contents]
  }

  ghost predicate Mirrors(files: Files, entries: seq<FileEntry>, codec: Codec) {
    && Faithful(entries, files, codec) && AllWritable(entries) && Unreserved(entries)
    && files.Keys == PathsOf(entries)
  }

  lemma MirrorHasNoPartials(files: Files, entries: seq<FileEntry>, path: string)
    requires AllWritable(entries) && files.Keys == PathsOf(entries)
    ensures path + PARTIAL_SUFFIX !in files
  {
    forall i | 0 <= i < |entries|
      ensures entries[i].path != path + PARTIAL_SUFFIX
    {
      assert Writable(entries[i].path);
    }
  }

  lemma OrdinaryWrite(files: Files, entries: seq<FileEntry>, item: Item)
    requires AllWritable(entries) && files.Keys == PathsOf(entries) && Ordinary(item)
    ensures WrittenTo(files, item.path, item.contents) == files[item.path := item.contents]
  {
    NormalEndsInName(item.path);
    PartialIsNormal(item.path);
    MirrorHasNoPartials(files, entries, item.path);
    hide Rendered, PartialOf, AllWritable, PathsOf;
  }

  lemma WriteKeepsMirror(entries: seq<FileEntry>, files: Files, item: Item, codec: Codec)
    requires Mirrors(files, entries, codec) && Ordinary(item)
    ensures var after := WrittenTo(files, item.path, item.contents);
            && after == files[item.path := item.contents]
            && Mirrors(after, Recorded(entries, EntryOf(item.path, item.contents, item.encoding, codec)), codec)
  {
    hide Writable, WrittenTo, Recorded, Faithful, AllWritable, PathsOf;
    WriteKeepsFaithful(entries, files, item.path, item.contents, item.encoding, codec);
    PathsOfRecorded(entries, EntryOf(item.path, item.contents, item.encoding, codec));
    OrdinaryWrite(files, entries, item);
  }

  /** Writes a sequence of files into an empty directory. */
  method WriteAll(writer: BundleWriter, items: seq<Item>) returns (r: Result<()>)
    requires writer.disk.files == map[] && writer.entries == []
    requires forall i | 0 <= i < |items| :: Ordinary(items[i])
    modifies writer, writer.disk`files
    ensures r.Ok? ==> Mirrors(writer.disk.files, writer.entries, writer.codec)
    ensures r.Ok? ==> writer.disk.files == LastContents(items)
    ensures !writer.disk.faulty ==> r.Ok?
  {
    assert Mirrors(writer.disk.files, writer.entries, writer.codec);
    hide Mirrors, Writable, WrittenTo, Rendered, PartialOf, Recorded, Safe, EndsInName;
    for i := 0 to |items|
      invariant Mirrors(writer.disk.files, writer.entries, writer.codec)
      invariant writer.disk.files == LastContents(items[..i])
    {
      assert items[..i + 1][..i] == items[..i];
      WriteKeepsMirror(writer.entries, writer.disk.files, items[i], writer.codec);
      OrdinaryIsSafe(items[i]);
      var _ :- writer.Write(items[i].path, items[i].contents, items[i].encoding);
    }
    assert items[..|items|] == items;
    r := Ok(());
  }

  /** Writes any sequence of files into an empty directory, finishes the bundle, and validates it:
      what is on disk is the last contents of each path, and validation has nothing to report. */
  method WriteAndValidate(disk: Disk, codec: Codec, items: seq<Item>, header: Header)
    returns (r: Result<ValidationReport>)
    requires disk.files == map[]
    requires forall i | 0 <= i < |items| :: Ordinary(items[i])
    modifies disk`files
    ensures r.Ok? && codec.TextRoundTrips() ==> r.value.failures == [] && r.value.warnings == []
    ensures r.Ok? ==> disk.files - {MANIFEST, MANIFEST_HASH} == LastContents(items)
    ensures !disk.faulty && HonestHeader(header) ==> r.Ok?
  {
    hide Mirrors, Ordinary, LastContents, Index, Finished, FinishInterrupted, Intact, UnlistedPaths;
    var writer := new BundleWriter(disk, codec);
    var _ :- WriteAll(writer, items);
    MirrorFinishes(disk.files, writer.entries, header, codec);
    var data :- writer.Finish(header);
    var report := ValidateBundle(disk.files, data, codec);
    r := Ok(report);
  }

  lemma OrdinaryIsSafe(item: Item)
    requires Ordinary(item)
    ensures Safe(item.path) && EndsInName(item.path)
  {
    NormalEndsInName(item.path);
  }

  lemma MirrorFinishes(files: Files, entries: seq<FileEntry>, header: Header, codec: Codec)
    requires Mirrors(files, entries, codec)
    ensures var data := ManifestData(header, Index(entries));
            var after := Finished(files, data, codec);
            && DistinctPaths(entries)
            && (HonestHeader(header) ==> ValidStructure(data))
            && (codec.TextRoundTrips() ==> Clean(after, data, codec))
            && after - {MANIFEST, MANIFEST_HASH} == files
  {
    RecordsAreWellIndexed(entries, files, codec);
    if codec.TextRoundTrips() {
      FinishedIsClean(files, entries, header, codec);
    }
    FinishAddsOnlyManifest(files, entries, ManifestData(header, Index(entries)), codec);
    hide Index, Clean, Finished;
  }

  lemma WriteWithoutPartial(files: Files, path: string, contents: Bytes)
    requires PartialOf(path) !in files && Rendered(path) == path
    ensures WrittenTo(files, path, contents) == files[path := contents]
  {
    hide Rendered, PartialOf;
  }

  lemma ManifestNamesApart(files: Files, entries: seq<FileEntry>)
    requires AllWritable(entries) && Unreserved(entries) && files.Keys == PathsOf(entries)
    ensures Rendered(MANIFEST) == MANIFEST && Rendered(MANIFEST_HASH) == MANIFEST_HASH
    ensures MANIFEST !in files && PartialOf(MANIFEST) !in files
    ensures MANIFEST_HASH !in files && PartialOf(MANIFEST_HASH) !in files && PartialOf(MANIFEST_HASH) != MANIFEST
  {
    ManifestNamesAreWritable();
    PartialIsNormal(MANIFEST);
    PartialIsNormal(MANIFEST_HASH);
    MirrorHasNoPartials(files, entries, MANIFEST);
    MirrorHasNoPartials(files, entries, MANIFEST_HASH);
    PathsDistinct(ManifestFile, ManifestDigest);
  }

  lemma FinishAddsOnlyManifest(files: Files, entries: seq<FileEntry>, data: ManifestData, codec: Codec)
    requires AllWritable(entries) && Unreserved(entries) && files.Keys == PathsOf(entries)
    ensures Finished(files, data, codec) - {MANIFEST, MANIFEST_HASH} == files
  {
    hide Rendered, PartialOf, WrittenTo, Writable, AllWritable, PathsOf, MANIFEST, MANIFEST_HASH;
    ManifestNamesApart(files, entries);
    WriteWithoutPartial(files, MANIFEST, codec.manifestJson(data));
    WriteWithoutPartial(WithManifest(files, data, codec), MANIFEST_HASH, DigestLine(data, codec));
  }
}
