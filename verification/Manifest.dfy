/** The evidence bundle manifest: a file index kept sorted, and the structure it must have. */
module Manifest {
  import opened Wrappers
  import opened Money
  import opened Ledger
  import opened Ordering
  import opened Layout

  datatype Encoding = RawBlockHex | Json | Text

  datatype FileEntry = FileEntry(path: string, sha256: string, sizeBytes: nat, encoding: Encoding)

  datatype ManifestInterval = ManifestInterval(anchor: u32, start: u32, end: u32, blockCount: u32)

  /** Everything a manifest states besides its file list. */
  datatype Header = Header(
    schemaVersion: string, bundleId: string, network: Network, activationHeight: u32,
    interval: ManifestInterval,
    anchorHash: string, anchorOrchard: Zatoshi, anchorIronwood: Zatoshi,
    endHash: string, endOrchard: Zatoshi, endIronwood: Zatoshi)

  datatype ManifestData = ManifestData(header: Header, files: seq<FileEntry>)

  const SCHEMA_VERSION := "1.1.0"

  /** The leading component of a version, when it is a 32-bit number. */
  function SchemaMajor(version: string): Option<u32> {
    ParseU32(UpToDot(version))
  }

  function SupportedMajor(): u32 {
    match SchemaMajor(SCHEMA_VERSION)
    case Some(major) => major
    case None => 0
  }

  lemma SupportedMajorIsOne()
    ensures SchemaMajor(SCHEMA_VERSION) == Some(1)
  {
    assert UpToDot(SCHEMA_VERSION) == "1";
    assert "1"[..0] == "" && DigitsValue("") == Some(0);
    assert DigitsValue("1") == Some(1);
  }

  /** A version whose leading component is the decimal of a 32-bit number is of that major version. */
  lemma SchemaMajorExact(major: u32, rest: string)
    ensures SchemaMajor(Decimal(major) + "." + rest) == Some(major)
  {
    hide Decimal, ParseU32, UpToDot;
    assert Decimal(major) + "." + rest == Decimal(major) + ("." + rest);
    UpToDotOfHeight(major, "." + rest);
    HeightRoundTrip(major);
  }

  function NetworkName(network: Network): string {
    match network
    case Mainnet => "mainnet"
    case Testnet => "testnet"
  }

  function BundleId(network: Network, anchor: u32, end: u32): string {
    NetworkName(network) + "-" + Decimal(anchor) + "-" + Decimal(end)
  }

  lemma PartsOfHyphenated(x: string, y: string, x': string, y': string)
    requires '-' !in x && '-' !in x' && x + "-" + y == x' + "-" + y'
    ensures x == x' && y == y'
  {
    var text := x + "-" + y;
    forall i | 0 <= i < |x|
      ensures text[i] != '-'
    {
      assert x[i] in x;
    }
    forall i | 0 <= i < |x'|
      ensures text[i] != '-'
    {
      assert x'[i] in x';
    }
    assert text[|x|] == '-' && text[|x'|] == '-';
    assert x == text[..|x|] && x' == text[..|x'|];
    assert y == text[|x| + 1..] && y' == text[|x'| + 1..];
  }

  lemma DecimalHasNoHyphen(n: nat)
    ensures '-' !in Decimal(n)
  {
  }

  lemma NetworkNames(network: Network, network': Network)
    ensures '-' !in NetworkName(network)
    ensures NetworkName(network) == NetworkName(network') <==> network == network'
    ensures NetworkName(Mainnet) == "mainnet" && NetworkName(Testnet) == "testnet"
  {
    assert "mainnet"[0] != "testnet"[0];
  }

  /** A bundle's identity determines its network and its interval. */
  lemma BundleIdExact(network: Network, anchor: u32, end: u32, network': Network, anchor': u32, end': u32)
    ensures BundleId(network, anchor, end) == BundleId(network', anchor', end') <==>
            network == network' && anchor == anchor' && end == end'
  {
    hide Decimal, NetworkName, ParseU32;
    if BundleId(network, anchor, end) == BundleId(network', anchor', end') {
      DecimalHasNoHyphen(anchor);
      DecimalHasNoHyphen(anchor');
      NetworkNames(network, network');
      NetworkNames(network', network);
      BundleIdParts(network, anchor, end);
      BundleIdParts(network', anchor', end');
      PartsOfHyphenated(NetworkName(network), Decimal(anchor) + "-" + Decimal(end),
                        NetworkName(network'), Decimal(anchor') + "-" + Decimal(end'));
      PartsOfHyphenated(Decimal(anchor), Decimal(end), Decimal(anchor'), Decimal(end'));
      HeightRoundTrip(anchor);
      HeightRoundTrip(anchor');
      HeightRoundTrip(end);
      HeightRoundTrip(end');
    }
  }

  lemma BundleIdParts(network: Network, anchor: u32, end: u32)
    ensures BundleId(network, anchor, end) == NetworkName(network) + "-" + (Decimal(anchor) + "-" + Decimal(end))
  {
  }

  function IntervalOf(interval: HeightInterval): ManifestInterval
    requires interval.Valid()
  {
    ManifestInterval(interval.anchor, interval.start, interval.end, interval.BlockCount())
  }

  // ---- The index ----

  predicate EntryLe(a: FileEntry, b: FileEntry) {
    StringLe(a.path, b.path)
  }

  ghost predicate Ascending(files: seq<FileEntry>) {
    SortedBy(files, EntryLe)
  }

  ghost predicate DistinctPaths(files: seq<FileEntry>) {
    forall i, j | 0 <= i < j < |files| :: files[i].path != files[j].path
  }

  lemma EntryOrderIsTotal()
    ensures TotalPreorder(EntryLe)
    ensures forall a, b :: EntryLe(a, b) && EntryLe(b, a) <==> a.path == b.path
  {
    StringOrderIsTotal();
  }

  lemma BelowMiddle(files: seq<FileEntry>, path: string, middle: nat)
    requires Ascending(files) && middle < |files| && StringLe(files[middle].path, path)
    ensures forall i | 0 <= i <= middle :: StringLe(files[i].path, path)
    ensures files[middle].path != path ==> forall i | 0 <= i <= middle :: files[i].path != path
  {
    forall i | 0 <= i < middle
      ensures StringLe(files[i].path, path)
      ensures files[middle].path != path ==> files[i].path != path
    {
      assert EntryLe(files[i], files[middle]);
      StringLeTransitive(files[i].path, files[middle].path, path);
      if files[i].path == path {
        StringLeAntisymmetric(files[middle].path, path);
      }
    }
  }

  lemma AboveMiddle(files: seq<FileEntry>, path: string, middle: nat)
    requires Ascending(files) && middle < |files| && StringLe(path, files[middle].path)
    ensures forall i | middle <= i < |files| :: StringLe(path, files[i].path)
    ensures files[middle].path != path ==> forall i | middle <= i < |files| :: files[i].path != path
  {
    forall i | middle < i < |files|
      ensures StringLe(path, files[i].path)
      ensures files[middle].path != path ==> files[i].path != path
    {
      assert EntryLe(files[middle], files[i]);
      StringLeTransitive(path, files[middle].path, files[i].path);
      if files[i].path == path {
        StringLeAntisymmetric(files[middle].path, path);
      }
    }
  }

  /** Where `path` is, or where it would have to go. */
  method BinarySearch(files: seq<FileEntry>, path: string) returns (found: bool, index: nat)
    ensures index <= |files|
    ensures found ==> index < |files| && files[index].path == path
    ensures Ascending(files) ==> forall i | 0 <= i < index :: StringLe(files[i].path, path)
    ensures Ascending(files) ==> forall i | index <= i < |files| :: StringLe(path, files[i].path)
    ensures Ascending(files) && !found ==> forall i | 0 <= i < |files| :: files[i].path != path
  {
    hide StringLe, Ascending;
    var low, high := 0, |files|;
    while low < high
      invariant 0 <= low <= high <= |files|
      invariant Ascending(files) ==> forall i | 0 <= i < low :: StringLe(files[i].path, path) && files[i].path != path
      invariant Ascending(files) ==> forall i | high <= i < |files| ::
                  StringLe(path, files[i].path) && files[i].path != path
    {
      var middle := (low + high) / 2;
      StringLeTotal(files[middle].path, path);
      if Ascending(files) && StringLe(files[middle].path, path) {
        BelowMiddle(files, path, middle);
      }
      if Ascending(files) && StringLe(path, files[middle].path) {
        AboveMiddle(files, path, middle);
      }
      if files[middle].path == path {
        StringLeReflexive(path);
        return true, middle;
      } else if StringLe(files[middle].path, path) {
        low := middle + 1;
      } else {
        high := middle;
      }
    }
    return false, low;
  }

  /** Linear search, the reference for the indexed one. */
  function LinearFind(files: seq<FileEntry>, path: string): Option<FileEntry> {
    match FindIndex(files, (entry: FileEntry) => entry.path == path)
    case Some(i) => Some(files[i])
    case None => None
  }

  /** Looks a file up by binary search; on a well-formed index this is linear search. */
  method FindFile(files: seq<FileEntry>, path: string) returns (r: Option<FileEntry>)
    ensures Ascending(files) && DistinctPaths(files) ==> r == LinearFind(files, path)
    ensures r.Some? ==> r.value in files && r.value.path == path
  {
    var found, index := BinarySearch(files, path);
    r := if found then Some(files[index]) else None;
  }

  lemma InsertKeepsAscending(files: seq<FileEntry>, entry: FileEntry, index: nat)
    requires index <= |files|
    requires Ascending(files) ==> forall i | 0 <= i < index :: EntryLe(files[i], entry)
    requires Ascending(files) ==> forall i | index <= i < |files| :: EntryLe(entry, files[i])
    ensures Ascending(files) ==> Ascending(files[..index] + [entry] + files[index..])
  {
    var inserted := files[..index] + [entry] + files[index..];
    forall i, j | Ascending(files) && 0 <= i < j < |inserted|
      ensures EntryLe(inserted[i], inserted[j])
    {
    }
  }

  class Manifest {
    const header: Header
    var files: seq<FileEntry>

    constructor (header: Header)
      ensures this.header == header && files == []
    {
      this.header := header;
      files := [];
    }

    function Data(): ManifestData
      reads this
    {
      ManifestData(header, files)
    }

    /** Inserts the entry at a place that keeps an ascending list ascending. */
    method AddFile(entry: FileEntry)
      modifies this
      ensures exists i | 0 <= i <= |old(files)| :: files == old(files)[..i] + [entry] + old(files)[i..]
      ensures multiset(files) == multiset(old(files)) + multiset{entry}
      ensures Ascending(old(files)) ==> Ascending(files)
    {
      var _, index := BinarySearch(files, entry.path);
      InsertKeepsAscending(files, entry, index);
      assert files == files[..index] + files[index..];
      files := files[..index] + [entry] + files[index..];
    }
  }

  /** The one index of a set of entries. */
  ghost function Index(files: seq<FileEntry>): seq<FileEntry> {
    StableSort(files, EntryLe)
  }

  lemma {:induction false} PeersOfDistinct(files: seq<FileEntry>, k: FileEntry)
    requires DistinctPaths(files)
    ensures Peers(files, k, EntryLe) ==
            match LinearFind(files, k.path) { case Some(entry) => [entry] case None => [] }
  {
    EntryOrderIsTotal();
    if files != [] {
      PeersOfDistinct(files[1..], k);
      assert forall i | 0 <= i < |files| - 1 :: files[1..][i].path != files[0].path;
    }
  }

  /** The order of insertion is forgotten: however entries with distinct paths were inserted, the
      resulting list is the same, and it is strictly ascending. */
  lemma IndexIsDetermined(files: seq<FileEntry>, entries: seq<FileEntry>)
    requires Ascending(files) && DistinctPaths(entries)
    requires multiset(files) == multiset(entries)
    ensures files == Index(entries)
    ensures StrictlyAscending(files)
  {
    EntryOrderIsTotal();
    StableSortSorts(entries, EntryLe);
    SameEntriesDistinct(files, entries);
    SameEntriesDistinct(Index(entries), entries);
    forall k
      ensures Peers(files, k, EntryLe) == Peers(Index(entries), k, EntryLe)
    {
      PeersOfDistinct(files, k);
      PeersOfDistinct(Index(entries), k);
      SameEntriesFindAlike(files, Index(entries), k.path);
    }
    SortedIsUnique(files, Index(entries), EntryLe);
  }

  lemma SameEntriesDistinct(files: seq<FileEntry>, entries: seq<FileEntry>)
    requires multiset(files) == multiset(entries) && DistinctPaths(entries)
    ensures DistinctPaths(files)
  {
    forall i, j | 0 <= i < j < |files|
      ensures files[i].path != files[j].path
    {
      if files[i] == files[j] {
        assert files == files[..i] + [files[i]] + files[i + 1..j] + [files[j]] + files[j + 1..];
        assert multiset(files)[files[i]] >= 2;
        CountsOfDistinct(entries, files[i]);
      } else {
        assert files[i] in multiset(entries) && files[j] in multiset(entries);
      }
    }
  }

  lemma {:induction false} CountsOfDistinct(entries: seq<FileEntry>, entry: FileEntry)
    requires DistinctPaths(entries)
    ensures multiset(entries)[entry] <= 1
  {
    if entries != [] {
      CountsOfDistinct(entries[1..], entry);
      assert entries == [entries[0]] + entries[1..];
      if entry == entries[0] {
        assert entry !in entries[1..];
      }
    }
  }

  lemma FindInDistinct(files: seq<FileEntry>, entry: FileEntry)
    requires DistinctPaths(files)
    ensures entry in files <==> LinearFind(files, entry.path) == Some(entry)
  {
    if entry in files {
      var i :| 0 <= i < |files| && files[i] == entry;
    }
  }

  lemma SameEntriesFindAlike(a: seq<FileEntry>, b: seq<FileEntry>, path: string)
    requires multiset(a) == multiset(b) && DistinctPaths(a) && DistinctPaths(b)
    ensures LinearFind(a, path) == LinearFind(b, path)
  {
    forall entry: FileEntry
      ensures LinearFind(a, entry.path) == Some(entry) <==> LinearFind(b, entry.path) == Some(entry)
    {
      assert entry in multiset(a) <==> entry in multiset(b);
      FindInDistinct(a, entry);
      FindInDistinct(b, entry);
    }
    var found, found' := LinearFind(a, path), LinearFind(b, path);
    assert found.Some? ==> LinearFind(b, found.value.path) == found;
    assert found'.Some? ==> LinearFind(a, found'.value.path) == found';
  }

  // ---- Recording: the last write wins ----

  function Without(files: seq<FileEntry>, path: string): (rest: seq<FileEntry>)
    ensures forall entry :: entry in rest <==> entry in files && entry.path != path
  {
    if files == [] then []
    else (if files[0].path == path then [] else [files[0]]) + Without(files[1..], path)
  }

  /** A writer's list after one more file was written or adopted. */
  function Recorded(files: seq<FileEntry>, entry: FileEntry): seq<FileEntry> {
    Without(files, entry.path) + [entry]
  }

  /** A writer's list after a whole history of recordings. */
  ghost function RecordAll(log: seq<FileEntry>): seq<FileEntry> {
    if log == [] then [] else Recorded(RecordAll(log[..|log| - 1]), log[|log| - 1])
  }

  /** The last entry a history holds for each path. */
  ghost function LastOf(log: seq<FileEntry>): map<string, FileEntry> {
    if log == [] then map[]
    else LastOf(log[..|log| - 1])[log[|log| - 1].path := log[|log| - 1]]
  }

  lemma {:induction false} WithoutKeepsDistinct(files: seq<FileEntry>, path: string)
    requires DistinctPaths(files)
    ensures DistinctPaths(Without(files, path))
  {
    if files != [] {
      WithoutKeepsDistinct(files[1..], path);
      forall entry | entry in Without(files[1..], path)
        ensures entry.path != files[0].path
      {
        assert entry in files[1..];
      }
    }
  }

  lemma RecordedKeepsDistinct(files: seq<FileEntry>, entry: FileEntry)
    requires DistinctPaths(files)
    ensures DistinctPaths(Recorded(files, entry))
    ensures forall path :: LinearFind(Recorded(files, entry), path) ==
              if path == entry.path then Some(entry) else LinearFind(files, path)
  {
    WithoutKeepsDistinct(files, entry.path);
    var recorded := Recorded(files, entry);
    forall path
      ensures LinearFind(recorded, path) == if path == entry.path then Some(entry) else LinearFind(files, path)
    {
      assert recorded[|recorded| - 1] == entry;
      forall other
        ensures other in recorded <==> other == entry || (other in files && other.path != entry.path)
      {
        assert other in recorded <==> other in Without(files, entry.path) || other == entry;
      }
    }
  }

  lemma {:induction false} RecordAllIsLast(log: seq<FileEntry>)
    ensures DistinctPaths(RecordAll(log))
    ensures forall path :: LinearFind(RecordAll(log), path) ==
              if path in LastOf(log) then Some(LastOf(log)[path]) else None
  {
    if log != [] {
      RecordAllIsLast(log[..|log| - 1]);
      RecordedKeepsDistinct(RecordAll(log[..|log| - 1]), log[|log| - 1]);
    }
  }

  /** Recording and then indexing is last-write-wins and nothing else: two histories whose last
      entries agree path by path give the same manifest list, whatever their order. */
  lemma LastWriteWins(log: seq<FileEntry>, other: seq<FileEntry>)
    ensures Index(RecordAll(log)) == Index(RecordAll(other)) <==> LastOf(log) == LastOf(other)
  {
    RecordAllIsLast(log);
    RecordAllIsLast(other);
    var a, b := RecordAll(log), RecordAll(other);
    IndexFindsAlike(a);
    IndexFindsAlike(b);
    if LastOf(log) == LastOf(other) {
      SameFindsSameIndex(a, b);
    }
    if Index(a) == Index(b) {
      forall path
        ensures path in LastOf(log) <==> path in LastOf(other)
        ensures path in LastOf(log) ==> LastOf(log)[path] == LastOf(other)[path]
      {
        assert LinearFind(a, path) == LinearFind(Index(a), path) == LinearFind(b, path);
      }
      assert LastOf(log) == LastOf(other);
    }
  }

  lemma IndexFindsAlike(files: seq<FileEntry>)
    requires DistinctPaths(files)
    ensures forall path :: LinearFind(Index(files), path) == LinearFind(files, path)
  {
    SameEntriesDistinct(Index(files), files);
    forall path
      ensures LinearFind(Index(files), path) == LinearFind(files, path)
    {
      SameEntriesFindAlike(Index(files), files, path);
    }
  }

  lemma SameFindsSameIndex(a: seq<FileEntry>, b: seq<FileEntry>)
    requires DistinctPaths(a) && DistinctPaths(b)
    requires forall path :: LinearFind(a, path) == LinearFind(b, path)
    ensures Index(a) == Index(b)
  {
    EntryOrderIsTotal();
    StableSortSorts(a, EntryLe);
    StableSortSorts(b, EntryLe);
    forall k
      ensures Peers(Index(a), k, EntryLe) == Peers(Index(b), k, EntryLe)
    {
      PeersOfDistinct(a, k);
      PeersOfDistinct(b, k);
    }
    SortedIsUnique(Index(a), Index(b), EntryLe);
  }

  // ---- Structure ----

  predicate IsLowerHex(c: char) {
    '0' <= c <= '9' || 'a' <= c <= 'f'
  }

  predicate IsHexDigit(c: char) {
    '0' <= c <= '9' || 'a' <= c <= 'f' || 'A' <= c <= 'F'
  }

  ghost predicate IsDigest(text: string) {
    |text| == 64 && forall i | 0 <= i < |text| :: IsLowerHex(text[i])
  }

  /** Sixty-four hexadecimal digits, none of them upper case. */
  predicate ValidDigest(text: string)
    ensures ValidDigest(text) <==> IsDigest(text)
  {
    && |text| == 64
    && FindIndex(text, (c: char) => !IsHexDigit(c)).None?
    && FindIndex(text, (c: char) => 'A' <= c <= 'Z').None?
  }

  ghost predicate StrictlyAscending(files: seq<FileEntry>) {
    forall i, j | 0 <= i < j < |files| :: StringLe(files[i].path, files[j].path) && files[i].path != files[j].path
  }

  ghost predicate WellIndexed(files: seq<FileEntry>) {
    && StrictlyAscending(files)
    && forall i | 0 <= i < |files| :: Safe(files[i].path) && IsDigest(files[i].sha256)
  }

  /** The listed files are safe to act on: checked entry by entry against the one before. */
  method ValidateFiles(files: seq<FileEntry>) returns (r: Result<()>)
    ensures r.Ok? <==> WellIndexed(files)
    ensures r.Err? ==> r.error == ManifestInvalid
  {
    var previous: Option<string> := None;
    for i := 0 to |files|
      invariant previous == if i == 0 then None else Some(files[i - 1].path)
      invariant WellIndexed(files[..i])
    {
      var entry := files[i];
      WellIndexedStep(files, i);
      ValidatePathExact(entry.path);
      var _ :- ValidateRelativePath(entry.path);
      if !ValidDigest(entry.sha256) {
        return Err(ManifestInvalid);
      }
      if previous.Some? {
        if previous.value == entry.path {
          return Err(ManifestInvalid);
        }
        if !StringLe(previous.value, entry.path) {
          return Err(ManifestInvalid);
        }
      }
      previous := Some(entry.path);
    }
    assert files[..|files|] == files;
    r := Ok(());
  }

  /** One more entry keeps an index well formed exactly when it is sound itself and follows the last. */
  lemma WellIndexedStep(files: seq<FileEntry>, i: nat)
    requires i < |files| && WellIndexed(files[..i])
    ensures WellIndexed(files[..i + 1]) <==>
            && Safe(files[i].path) && IsDigest(files[i].sha256)
            && (i > 0 ==> StringLe(files[i - 1].path, files[i].path) && files[i - 1].path != files[i].path)
    ensures WellIndexed(files) ==> WellIndexed(files[..i + 1])
  {
    var before, after := files[..i], files[..i + 1];
    assert after[i] == files[i];
    assert forall k | 0 <= k < i :: after[k] == before[k];
    if i > 0 && StringLe(files[i - 1].path, files[i].path) && files[i - 1].path != files[i].path {
      assert before[i - 1] == files[i - 1];
      forall k | 0 <= k < i
        ensures StringLe(after[k].path, files[i].path) && after[k].path != files[i].path
      {
        if k < i - 1 {
          StringLeTransitive(before[k].path, files[i - 1].path, files[i].path);
          if before[k].path == files[i].path {
            StringLeAntisymmetric(files[i - 1].path, files[i].path);
          }
        }
      }
    }
  }

  /** The interval is a real one and the two figures derived from it agree with it. */
  ghost predicate HonestInterval(interval: ManifestInterval) {
    && interval.anchor + 1 == interval.start <= interval.end
    && interval.blockCount == interval.end - interval.start + 1
  }

  function ValidateInterval(interval: ManifestInterval): (r: Result<()>)
    ensures r.Ok? <==> HonestInterval(interval)
    ensures r.Err? ==> r.error == ManifestInvalid
  {
    var derived := NewInterval(interval.start, interval.end);
    if derived.Err? then Err(ManifestInvalid)
    else if derived.value.anchor != interval.anchor then Err(ManifestInvalid)
    else if derived.value.BlockCount() != interval.blockCount then Err(ManifestInvalid)
    else Ok(())
  }

  ghost predicate HonestHeader(header: Header) {
    && SchemaMajor(header.schemaVersion) == Some(1)
    && header.bundleId == BundleId(header.network, header.interval.anchor, header.interval.end)
    && HonestInterval(header.interval)
  }

  ghost predicate ValidStructure(data: ManifestData) {
    HonestHeader(data.header) && WellIndexed(data.files)
  }

  /** Decides whether version, identity, interval and index are all as a capture would state them. */
  method ValidateStructure(data: ManifestData) returns (r: Result<()>)
    ensures r.Ok? <==> ValidStructure(data)
    ensures r.Err? ==> r.error == ManifestInvalid
  {
    var header := data.header;
    SupportedMajorIsOne();
    var declared := SchemaMajor(header.schemaVersion);
    if declared.None? {
      return Err(ManifestInvalid);
    }
    if declared.value != SupportedMajor() {
      return Err(ManifestInvalid);
    }
    if header.bundleId != BundleId(header.network, header.interval.anchor, header.interval.end) {
      return Err(ManifestInvalid);
    }
    var _ :- ValidateInterval(header.interval);
    r := ValidateFiles(data.files);
  }

  /** Of versions written that way, exactly those of major version 1 can be accepted. */
  lemma OnlyMajorOne(data: ManifestData, major: u32, rest: string)
    requires data.header.schemaVersion == Decimal(major) + "." + rest
    ensures ValidStructure(data) ==> major == 1
    ensures major == 1 ==>
              (ValidStructure(data) <==>
                 && data.header.bundleId ==
                    BundleId(data.header.network, data.header.interval.anchor, data.header.interval.end)
                 && HonestInterval(data.header.interval)
                 && WellIndexed(data.files))
  {
    hide Decimal, SchemaMajor, WellIndexed;
    SchemaMajorExact(major, rest);
  }
}
