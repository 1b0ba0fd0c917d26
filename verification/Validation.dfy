/** Validation of a bundle's files against its manifest. */
module Validation {
  import opened Wrappers
  import opened Text
  import opened Ledger
  import opened Ordering
  import opened Layout
  import opened Manifest

  /** A bundle directory: its regular files by rendered path. */
  type Files = map<string, Bytes>

  /** Sixty-four lower-case hexadecimal characters. */
  type Digest = text: string | IsDigest(text) ghost witness seq(64, _ => '0')

  /** The foreign encodings a bundle rests on. */
  datatype Codec = Codec(
    sha256: Bytes -> Digest,
    manifestJson: ManifestData -> Bytes,
    loadManifest: Bytes -> Result<ManifestData>,
    manifestDigest: ManifestData -> Digest,
    textBytes: string -> Bytes,
    bytesText: Bytes -> Option<string>,
    parsePools: Bytes -> Result<CapturedBlockState>)
  {
    /** Text written to a file reads back as itself. */
    ghost predicate TextRoundTrips() {
      forall text: string :: bytesText(textBytes(text)) == Some(text)
    }

    /** A manifest written to a file loads as itself. */
    ghost predicate ManifestRoundTrips() {
      forall data: ManifestData :: loadManifest(manifestJson(data)) == Ok(data)
    }
  }

  datatype ValidationWarning = UnlistedFile(path: string) | MissingManifestDigest

  datatype ValidationReport = ValidationReport(failures: seq<ReconcileError>, warnings: seq<ValidationWarning>) {
    predicate IsValid() {
      failures == []
    }

    /** The warnings, unless there is a failure; then the first. */
    function IntoResult(): Result<seq<ValidationWarning>> {
      if failures == [] then Ok(warnings) else Err(failures[0])
    }
  }

  /** A path whose last segment names something can name a regular file. */
  predicate EndsInName(path: string) {
    var segments := Split(path);
    segments[|segments| - 1] != "" && segments[|segments| - 1] != "."
  }

  /** The regular file an accepted path leads to. */
  function FileAt(files: Files, path: string): Option<Bytes> {
    if EndsInName(path) && Rendered(path) in files then Some(files[Rendered(path)]) else None
  }

  /** Succeeds when there is no digest file, with a warning, or when its first word is the manifest's digest. */
  function VerifyManifestDigest(files: Files, data: ManifestData, codec: Codec): Result<Option<ValidationWarning>> {
    if MANIFEST_HASH !in files then Ok(Some(MissingManifestDigest))
    else
      var text := codec.bytesText(files[MANIFEST_HASH]);
      if text.None? then Err(Filesystem)
      else if FirstWord(text.value) != codec.manifestDigest(data) then Err(HashMismatch(MANIFEST))
      else Ok(None)
  }

  /** What is wrong with one listed file, if anything. */
  function EntryFailure(files: Files, entry: FileEntry, codec: Codec): Option<ReconcileError> {
    var path := ValidateRelativePath(entry.path);
    if path.Err? then Some(path.error)
    else
      match FileAt(files, entry.path)
      case None => Some(MissingFile(entry.path))
      case Some(contents) =>
        if |contents| != entry.sizeBytes then Some(HashMismatch(entry.path))
        else if codec.sha256(contents) != entry.sha256 then Some(HashMismatch(entry.path))
        else None
  }

  // ---- What validation decides ----

  /** A listed file is in place, with the recorded size and digest. */
  ghost predicate InPlace(files: Files, entry: FileEntry, codec: Codec) {
    && Safe(entry.path)
    && FileAt(files, entry.path).Some?
    && var contents := FileAt(files, entry.path).value;
       |contents| == entry.sizeBytes && codec.sha256(contents) == entry.sha256
  }

  /** The detached digest, when there is one, is readable and states the manifest's own digest. */
  ghost predicate DigestStated(files: Files, data: ManifestData, codec: Codec) {
    MANIFEST_HASH in files ==>
      && codec.bytesText(files[MANIFEST_HASH]).Some?
      && FirstWord(codec.bytesText(files[MANIFEST_HASH]).value) == codec.manifestDigest(data)
  }

  /** The bytes on disk are the ones the manifest describes, and the manifest is the one that was published. */
  ghost predicate Intact(files: Files, data: ManifestData, codec: Codec) {
    && DigestStated(files, data, codec)
    && forall i | 0 <= i < |data.files| :: InPlace(files, data.files[i], codec)
  }

  /** Present, but neither listed nor produced by this tool after the capture. */
  ghost function UnlistedPaths(files: Files, data: ManifestData): set<string> {
    set path | path in files && path != MANIFEST && path !in GENERATED_PATHS
               && (forall i | 0 <= i < |data.files| :: data.files[i].path != path)
  }

  ghost predicate ListsAscending(paths: seq<string>, members: set<string>) {
    && (forall path :: path in paths <==> path in members)
    && StrictlySorted(paths)
  }

  /** The errors among a list of findings, in order. */
  ghost function Errors(findings: seq<Option<ReconcileError>>): seq<ReconcileError> {
    if findings == [] then []
    else
      var last := findings[|findings| - 1];
      Errors(findings[..|findings| - 1]) + if last.Some? then [last.value] else []
  }

  /** What is to be reported of a listed file: nothing when it is in place; otherwise a path that is not safe, a
      file that is not there, or contents that are not the recorded ones. */
  ghost function Finding(files: Files, entry: FileEntry, codec: Codec): Option<ReconcileError> {
    if InPlace(files, entry, codec) then None
    else if !Safe(entry.path) then Some(ManifestInvalid)
    else if FileAt(files, entry.path).None? then Some(MissingFile(entry.path))
    else Some(HashMismatch(entry.path))
  }

  ghost function Findings(files: Files, entries: seq<FileEntry>, codec: Codec): seq<Option<ReconcileError>> {
    seq(|entries|, i requires 0 <= i < |entries| => Finding(files, entries[i], codec))
  }

  /** A digest file that cannot be read, or that states another digest. */
  ghost function DigestFailures(files: Files, data: ManifestData, codec: Codec): seq<ReconcileError> {
    if DigestStated(files, data, codec) then []
    else if codec.bytesText(files[MANIFEST_HASH]).None? then [Filesystem]
    else [HashMismatch(MANIFEST)]
  }

  lemma ManifestDigestExact(files: Files, data: ManifestData, codec: Codec)
    ensures var verdict := VerifyManifestDigest(files, data, codec);
            && (verdict.Ok? <==> DigestStated(files, data, codec))
            && (verdict.Err? ==> DigestFailures(files, data, codec) == [verdict.error])
            && (verdict.Ok? ==> (verdict.value.Some? <==> MANIFEST_HASH !in files))
            && (verdict.Ok? && verdict.value.Some? ==> verdict.value.value == MissingManifestDigest)
  {
    hide FirstWord, MANIFEST, MANIFEST_HASH;
  }

  /** A manifest changed together with a file it lists, under the digest of the one that was published, is
      refused, whatever else the directory holds. */
  lemma TamperedManifest(files: Files, published: ManifestData, data: ManifestData, codec: Codec)
    requires MANIFEST_HASH in files
    requires codec.bytesText(files[MANIFEST_HASH]) == Some(codec.manifestDigest(published) + "\n")
    requires codec.manifestDigest(data) != codec.manifestDigest(published)
    ensures !Intact(files, data, codec) && DigestFailures(files, data, codec) == [HashMismatch(MANIFEST)]
  {
    DigestIsFirstWord(codec.manifestDigest(published));
    hide FirstWord, MANIFEST, MANIFEST_HASH;
  }

  lemma DigestIsFirstWord(digest: Digest)
    ensures FirstWord(digest + "\n") == digest
  {
    assert IsDigest(digest);
    forall i | 0 <= i < |digest|
      ensures !IsWhitespace(digest[i])
    {
      assert IsLowerHex(digest[i]);
    }
    FirstWordOfLine(digest);
  }

  lemma EntryFailureExact(files: Files, entry: FileEntry, codec: Codec)
    ensures EntryFailure(files, entry, codec) == Finding(files, entry, codec)
    ensures EntryFailure(files, entry, codec).None? <==> InPlace(files, entry, codec)
  {
    ValidatePathExact(entry.path);
  }

  lemma {:induction false} NoErrorsExact(findings: seq<Option<ReconcileError>>)
    ensures Errors(findings) == [] <==> forall i | 0 <= i < |findings| :: findings[i].None?
  {
    if findings != [] {
      NoErrorsExact(findings[..|findings| - 1]);
    }
  }

  lemma CleanExactlyWhenIntact(files: Files, data: ManifestData, codec: Codec)
    ensures DigestFailures(files, data, codec) + Errors(Findings(files, data.files, codec)) == [] <==>
            Intact(files, data, codec)
  {
    var findings := Findings(files, data.files, codec);
    NoErrorsExact(findings);
    assert forall i | 0 <= i < |data.files| :: findings[i].None? <==> InPlace(files, data.files[i], codec);
  }

  // ---- The checks ----

  /** A directory whose manifest can be acted on. */
  ghost predicate Loads(files: Files, codec: Codec) {
    && MANIFEST in files
    && codec.loadManifest(files[MANIFEST]).Ok?
    && ValidStructure(codec.loadManifest(files[MANIFEST]).value)
  }

  /** The manifest a directory holds, refused unless its structure is valid. */
  method LoadManifest(files: Files, codec: Codec) returns (r: Result<ManifestData>)
    ensures r.Ok? <==> Loads(files, codec)
    ensures r.Ok? ==> r == codec.loadManifest(files[MANIFEST])
    ensures r.Err? ==>
              r.error == if MANIFEST !in files then Filesystem
                         else if codec.loadManifest(files[MANIFEST]).Err? then codec.loadManifest(files[MANIFEST]).error
                         else ManifestInvalid
  {
    hide MANIFEST, ValidStructure;
    if MANIFEST !in files {
      return Err(Filesystem);
    }
    var data :- codec.loadManifest(files[MANIFEST]);
    var _ :- ValidateStructure(data);
    r := Ok(data);
  }

  /** Lists every regular file of a bundle, in whatever order the directories yield them. */
  method ListFiles(files: Files) returns (found: seq<string>)
    ensures multiset(found) == multiset(files.Keys)
  {
    found := [];
    var remaining := files.Keys;
    while remaining != {}
      invariant remaining <= files.Keys
      invariant multiset(found) == multiset(files.Keys - remaining)
    {
      var path :| path in remaining;
      found := found + [path];
      remaining := remaining - {path};
      assert files.Keys - remaining == (files.Keys - (remaining + {path})) + {path};
    }
    assert files.Keys - remaining == files.Keys;
  }

  function KeepUnlisted(present: seq<string>, listed: set<string>): (unlisted: seq<string>)
    ensures forall path :: path in unlisted <==>
              path in present && path != MANIFEST && path !in listed && path !in GENERATED_PATHS
  {
    if present == [] then []
    else
      (if present[0] != MANIFEST && present[0] !in listed && present[0] !in GENERATED_PATHS
       then [present[0]] else [])
      + KeepUnlisted(present[1..], listed)
  }

  lemma {:induction false} KeepUnlistedAscends(present: seq<string>, listed: set<string>)
    requires StrictlySorted(present)
    ensures StrictlySorted(KeepUnlisted(present, listed))
  {
    if present != [] {
      KeepUnlistedAscends(present[1..], listed);
      var rest := KeepUnlisted(present[1..], listed);
      forall i | 0 <= i < |rest|
        ensures StringLe(present[0], rest[i]) && present[0] != rest[i]
      {
        assert rest[i] in rest && rest[i] in present[1..];
      }
    }
  }

  lemma SortedKeysAscend(found: seq<string>, members: set<string>)
    requires multiset(found) == multiset(members)
    ensures ListsAscending(StableSort(found, StringLe), members)
  {
    SortForgetsOrder(found, found);
    MembersOccurOnce(StableSort(found, StringLe), members);
  }

  /** Lists exactly the unlisted paths, ascending. */
  method CollectUnlisted(files: Files, data: ManifestData) returns (unlisted: seq<string>)
    ensures ListsAscending(unlisted, UnlistedPaths(files, data))
    ensures UnlistedPaths(files, data) == {} ==> unlisted == []
  {
    var listed := set i | 0 <= i < |data.files| :: data.files[i].path;
    var present := ListFiles(files);
    SortedKeysAscend(present, files.Keys);
    present := StableSort(present, StringLe);
    KeepUnlistedAscends(present, listed);
    unlisted := KeepUnlisted(present, listed);
    if unlisted != [] {
      assert unlisted[0] in unlisted;
    }
  }

  function UnlistedWarnings(unlisted: seq<string>): (warnings: seq<ValidationWarning>)
    ensures |warnings| == |unlisted| && forall i | 0 <= i < |warnings| :: warnings[i] == UnlistedFile(unlisted[i])
  {
    seq(|unlisted|, i requires 0 <= i < |unlisted| => UnlistedFile(unlisted[i]))
  }

  ghost function DigestWarnings(files: Files): seq<ValidationWarning> {
    if MANIFEST_HASH in files then [] else [MissingManifestDigest]
  }

  method CheckEntries(files: Files, entries: seq<FileEntry>, codec: Codec) returns (failures: seq<ReconcileError>)
    ensures failures == Errors(Findings(files, entries, codec))
  {
    failures := [];
    ghost var findings := Findings(files, entries, codec);
    for i := 0 to |entries|
      invariant failures == Errors(findings[..i])
    {
      assert findings[..i + 1][..i] == findings[..i];
      EntryFailureExact(files, entries[i], codec);
      match EntryFailure(files, entries[i], codec) {
        case Some(error) => failures := failures + [error];
        case None =>
      }
    }
    assert findings[..|entries|] == findings;
  }

  /** Checks the manifest's digest, then each entry, then what is left over. The failures are one per
      offending file, in manifest order, after the manifest's own; there are none exactly when the
      bundle is intact; and the warnings name exactly the unlisted files, sorted. */
  method ValidateBundle(files: Files, data: ManifestData, codec: Codec) returns (report: ValidationReport)
    ensures report.failures == DigestFailures(files, data, codec) + Errors(Findings(files, data.files, codec))
    ensures report.IsValid() <==> Intact(files, data, codec)
    ensures exists unlisted ::
              && ListsAscending(unlisted, UnlistedPaths(files, data))
              && report.warnings == DigestWarnings(files) + UnlistedWarnings(unlisted)
    ensures UnlistedPaths(files, data) == {} ==> report.warnings == DigestWarnings(files)
  {
    var failures: seq<ReconcileError>, warnings: seq<ValidationWarning> := [], [];
    ManifestDigestExact(files, data, codec);
    match VerifyManifestDigest(files, data, codec) {
      case Ok(Some(warning)) => warnings := [warning];
      case Ok(None) =>
      case Err(error) => failures := [error];
    }
    var damaged := CheckEntries(files, data.files, codec);
    failures := failures + damaged;
    CleanExactlyWhenIntact(files, data, codec);
    var unlisted := CollectUnlisted(files, data);
    warnings := warnings + UnlistedWarnings(unlisted);
    report := ValidationReport(failures, warnings);
  }

  // ---- Listed under another spelling ----

  /** A file that is in place under its entry is reported as unlisted all the same exactly when no entry
      spells it the way it is rendered, and it is not the manifest or a generated file. */
  lemma AliasIsUnlistedExactly(files: Files, data: ManifestData, codec: Codec, i: nat)
    requires i < |data.files| && InPlace(files, data.files[i], codec)
    ensures var rendered := Rendered(data.files[i].path);
            rendered in UnlistedPaths(files, data) <==>
              && rendered != MANIFEST && rendered !in GENERATED_PATHS
              && forall k | 0 <= k < |data.files| :: data.files[k].path != rendered
  {
    hide Rendered, MANIFEST, GENERATED_PATHS;
  }

  /** An entry in normal form never has its file reported. */
  lemma NormalFormIsListed(files: Files, data: ManifestData, codec: Codec, i: nat)
    requires i < |data.files| && InPlace(files, data.files[i], codec) && NormalForm(data.files[i].path)
    ensures Rendered(data.files[i].path) !in UnlistedPaths(files, data)
  {
    RenderedIsNormal(data.files[i].path);
    AliasIsUnlistedExactly(files, data, codec, i);
  }

  const PLAIN := "a/b"
  const ALIAS := "a//b"

  lemma AliasSplits()
    ensures Split(ALIAS) == ["a", "", "b"]
  {
    hide Split;
    var segments := ["a", "", "b"];
    assert segments[1..] == ["", "b"] && ["", "b"][1..] == ["b"];
    assert Join(["b"]) == "b" && Join(["", "b"]) == "/b" && Join(segments) == ALIAS;
    SplitUndoesJoin(segments);
  }

  lemma AliasNames()
    ensures NamesOf(["a", "", "b"]) == ["a", "b"]
  {
    assert ["a", "", "b"][1..] == ["", "b"] && ["", "b"][1..] == ["b"] && ["b"][1..] == [];
    assert NamesOf(["b"]) == ["b"] + NamesOf([]);
    assert NamesOf(["", "b"]) == NamesOf(["b"]);
  }

  lemma AliasRenders()
    ensures Rendered(ALIAS) == PLAIN && Safe(ALIAS) && EndsInName(ALIAS)
  {
    AliasSplits();
    AliasNames();
    hide Split, NamesOf;
    assert ["a", "b"][1..] == ["b"] && Join(["b"]) == "b";
  }

  lemma PlainIsOrdinary()
    ensures PLAIN != MANIFEST && PLAIN != MANIFEST_HASH && PLAIN !in GENERATED_PATHS && PLAIN != ALIAS
  {
    assert |PLAIN| == 3 && |ALIAS| == 4 && forall path | path in GENERATED_PATHS :: |path| > 3;
  }

  function AliasBundle(header: Header, codec: Codec): (Files, ManifestData) {
    (map[PLAIN := [7]], ManifestData(header, [FileEntry(ALIAS, codec.sha256([7]), 1, Text)]))
  }

  lemma AliasInPlace(header: Header, codec: Codec)
    ensures var (files, data) := AliasBundle(header, codec);
            InPlace(files, data.files[0], codec)
  {
    AliasRenders();
    hide Rendered, Safe, EndsInName, PLAIN, ALIAS;
  }

  /** A bundle whose one entry spells `a/b` as `a//b`: intact, and its one file unlisted. */
  lemma AliasExample(header: Header, codec: Codec)
    ensures var (files, data) := AliasBundle(header, codec);
            Intact(files, data, codec) && UnlistedPaths(files, data) == {PLAIN}
  {
    var (files, data) := AliasBundle(header, codec);
    AliasRenders();
    PlainIsOrdinary();
    AliasInPlace(header, codec);
    hide Rendered, InPlace, MANIFEST, MANIFEST_HASH, GENERATED_PATHS, PLAIN, ALIAS;
    AliasIsUnlistedExactly(files, data, codec, 0);
  }
}
