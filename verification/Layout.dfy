/** Evidence bundle path conventions: components, safety, rendering and the names a capture uses. */
module Layout {
  import opened Wrappers

  // ---- Splitting a path at its separators ----

  function Split(s: string): (segments: seq<string>)
    ensures |segments| > 0
    ensures forall i | 0 <= i < |segments| :: '/' !in segments[i]
    decreases |s|
  {
    match FindIndex(s, (c: char) => c == '/')
    case None => assert '/' !in s; [s]
    case Some(i) => assert '/' !in s[..i]; [s[..i]] + Split(s[i + 1..])
  }

  function Join(segments: seq<string>): string {
    if |segments| == 0 then ""
    else if |segments| == 1 then segments[0]
    else segments[0] + "/" + Join(segments[1..])
  }

  lemma {:induction false} JoinUndoesSplit(s: string)
    ensures Join(Split(s)) == s
    decreases |s|
  {
    var slash := FindIndex(s, (c: char) => c == '/');
    if slash.Some? {
      var i := slash.value;
      JoinUndoesSplit(s[i + 1..]);
      assert Split(s)[1..] == Split(s[i + 1..]);
      assert s == s[..i] + "/" + s[i + 1..];
    }
  }

  lemma SplitAtFirst(head: string, tail: string)
    requires '/' !in head
    ensures Split(head + "/" + tail) == [head] + Split(tail)
  {
    var s, n := head + "/" + tail, |head|;
    assert forall i | 0 <= i < n :: s[i] == head[i] && head[i] in head;
    assert s[n] == '/' && s[..n] == head && s[n + 1..] == tail;
    hide Split;
    assert FindIndex(s, (c: char) => c == '/') == Some(n);
    SplitUnfolds(s, n);
  }

  lemma SplitUnfolds(s: string, n: nat)
    requires FindIndex(s, (c: char) => c == '/') == Some(n)
    ensures Split(s) == [s[..n]] + Split(s[n + 1..])
  {
    hide FindIndex;
  }

  lemma {:induction false} SplitUndoesJoin(segments: seq<string>)
    requires |segments| > 0
    requires forall i | 0 <= i < |segments| :: '/' !in segments[i]
    ensures Split(Join(segments)) == segments
  {
    if |segments| == 1 {
      assert '/' !in Join(segments);
    } else {
      hide Split;
      SplitUndoesJoin(segments[1..]);
      SplitAtFirst(segments[0], Join(segments[1..]));
      assert segments == [segments[0]] + segments[1..];
    }
  }

  // ---- Components, as the platform's path type yields them ----

  datatype Component = Normal(name: string) | CurDir | ParentDir | RootDir

  /** Empty segments and interior `.` segments are dropped. */
  function SegmentComponents(segments: seq<string>): seq<Component> {
    if segments == [] then []
    else
      (if segments[0] == "" || segments[0] == "." then []
       else if segments[0] == ".." then [ParentDir]
       else [Normal(segments[0])])
      + SegmentComponents(segments[1..])
  }

  function Components(path: string): seq<Component> {
    (if path != "" && path[0] == '/' then [RootDir] else [])
    + (if Split(path)[0] == "." then [CurDir] else [])
    + SegmentComponents(Split(path))
  }

  /** Accepts a path exactly when it is safe to join to a root. */
  function ValidateRelativePath(path: string): Result<()> {
    if path == "" then Err(ManifestInvalid)
    else if '\0' in path then Err(ManifestInvalid)
    else if '\\' in path then Err(ManifestInvalid)
    else if path[0] == '/' then Err(ManifestInvalid)
    else if FindIndex(Components(path), (c: Component) => !c.Normal?).Some? then Err(ManifestInvalid)
    else Ok(())
  }

  /** What an accepted path may look like. `a//b` and `a/./b` are accepted; `./a` is not. */
  ghost predicate Safe(path: string) {
    && path != "" && path[0] != '/'
    && '\0' !in path && '\\' !in path
    && Split(path)[0] != "."
    && ".." !in Split(path)
  }

  /** The file-system names an accepted path descends through. */
  function NamesOf(segments: seq<string>): (names: seq<string>)
    ensures forall name | name in names :: name in segments && name != "" && name != "."
  {
    if segments == [] then []
    else (if segments[0] == "" || segments[0] == "." then [] else [segments[0]]) + NamesOf(segments[1..])
  }

  function Names(path: string): seq<string> {
    NamesOf(Split(path))
  }

  lemma {:induction false} SegmentComponentsExact(segments: seq<string>)
    ensures (forall c | c in SegmentComponents(segments) :: c.Normal?) <==> ".." !in segments
    ensures ".." !in segments ==>
              && |SegmentComponents(segments)| == |NamesOf(segments)|
              && forall i | 0 <= i < |NamesOf(segments)| ::
                    SegmentComponents(segments)[i] == Normal(NamesOf(segments)[i])
  {
    if segments != [] {
      SegmentComponentsExact(segments[1..]);
      assert segments == [segments[0]] + segments[1..];
      if segments[0] == ".." {
        assert ParentDir in SegmentComponents(segments);
      } else if ".." in segments {
        var bad :| bad in SegmentComponents(segments[1..]) && !bad.Normal?;
        assert bad in SegmentComponents(segments);
      }
    }
  }

  lemma SplitHead(path: string)
    requires path != "" && path[0] != '/'
    ensures Split(path)[0] != "" && path[0] == Split(path)[0][0]
  {
  }

  /** The validation accepts exactly the safe paths, and a safe path descends through at least one
      ordinary name and nothing else, so it stays below the root it is joined to. */
  lemma ValidatePathExact(path: string)
    ensures ValidateRelativePath(path).Ok? <==> Safe(path)
    ensures Safe(path) ==>
              && |Components(path)| == |Names(path)| > 0
              && forall i | 0 <= i < |Names(path)| :: Components(path)[i] == Normal(Names(path)[i])
  {
    SegmentComponentsExact(Split(path));
    if path != "" && path[0] != '/' {
      SplitHead(path);
      var components := Components(path);
      assert Split(path)[0] != "." ==> components == SegmentComponents(Split(path));
      assert Split(path)[0] == "." ==> components[0] == CurDir;
    }
  }

  // ---- Rendering ----

  /** Renders the components below a bundle root as the form the manifest records. */
  method ToBundlePath(components: seq<Component>) returns (r: Result<string>)
    requires forall i | 0 <= i < |components| && components[i].Normal? :: components[i].name != ""
    ensures r.Ok? <==> forall i | 0 <= i < |components| :: components[i].Normal?
    ensures r.Ok? ==> forall names: seq<string> |
              |names| == |components| && (forall i | 0 <= i < |names| :: components[i] == Normal(names[i])) ::
              r.value == Join(names)
  {
    var rendered := "";
    ghost var done: seq<string> := [];
    for i := 0 to |components|
      invariant |done| == i && forall k | 0 <= k < i :: components[k] == Normal(done[k])
      invariant rendered == Join(done)
      invariant rendered == "" <==> i == 0
    {
      if !components[i].Normal? {
        return Err(ManifestInvalid);
      }
      if rendered != "" {
        rendered := rendered + "/";
      }
      rendered := rendered + components[i].name;
      JoinAppend(done, components[i].name);
      done := done + [components[i].name];
    }
    forall names: seq<string> |
      |names| == |components| && (forall i | 0 <= i < |names| :: components[i] == Normal(names[i]))
      ensures rendered == Join(names)
    {
      assert names == done;
    }
    r := Ok(rendered);
  }

  lemma {:induction false} JoinAppend(segments: seq<string>, last: string)
    ensures Join(segments + [last]) == if segments == [] then last else Join(segments) + "/" + last
  {
    if |segments| > 0 {
      assert (segments + [last])[1..] == segments[1..] + [last];
      JoinAppend(segments[1..], last);
    }
  }

  /** A path with no empty, `.` or `..` segment: one spelling per file. */
  ghost predicate NormalForm(path: string) {
    Safe(path) && "" !in Split(path) && "." !in Split(path)
  }

  /** The rendered form of the file an accepted path names. */
  function Rendered(path: string): string {
    Join(Names(path))
  }

  lemma {:induction false} NamesOfNames(segments: seq<string>)
    requires "" !in segments && "." !in segments
    ensures NamesOf(segments) == segments
  {
    if segments != [] {
      assert segments == [segments[0]] + segments[1..];
      NamesOfNames(segments[1..]);
    }
  }

  lemma RenderNames(names: seq<string>)
    requires |names| > 0
    requires forall name | name in names :: name != "" && name != "." && '/' !in name
    ensures Split(Join(names)) == names == Names(Join(names))
  {
    SplitUndoesJoin(names);
    NamesOfNames(names);
  }

  /** Rendering is a projection onto normal forms: it fixes exactly the paths already in normal form,
      and two safe paths render alike exactly when they descend through the same names. */
  lemma RenderedIsNormal(path: string)
    requires Safe(path)
    ensures NormalForm(Rendered(path)) && Rendered(Rendered(path)) == Rendered(path)
    ensures Rendered(path) == path <==> NormalForm(path)
  {
    ValidatePathExact(path);
    var names := Names(path);
    RenderNames(names);
    var rendered := Rendered(path);
    assert names[0] in Split(path) && names[0] != "";
    CharsOfRendered(path);
    JoinUndoesSplit(path);
    if NormalForm(path) {
      NamesOfNames(Split(path));
    }
  }

  lemma {:induction false} CharsOfJoin(segments: seq<string>, c: char)
    requires c in Join(segments) && c != '/'
    ensures exists i | 0 <= i < |segments| :: c in segments[i]
  {
    if |segments| == 1 {
      assert c in segments[0];
    } else if c in segments[0] {
    } else {
      CharsOfJoin(segments[1..], c);
      var i :| 0 <= i < |segments| - 1 && c in segments[1..][i];
      assert c in segments[i + 1];
    }
  }

  lemma {:induction false} CharsOfSegments(segments: seq<string>, i: nat, c: char)
    requires i < |segments| && c in segments[i]
    ensures c in Join(segments)
  {
    if |segments| > 1 && i > 0 {
      CharsOfSegments(segments[1..], i - 1, c);
    }
  }

  lemma CharsOfRendered(path: string)
    ensures forall c | c in Rendered(path) && c != '/' :: c in path
  {
    forall c | c in Rendered(path) && c != '/'
      ensures c in path
    {
      CharsOfJoin(Names(path), c);
      var i :| 0 <= i < |Names(path)| && c in Names(path)[i];
      assert Names(path)[i] in Split(path);
      var j :| 0 <= j < |Split(path)| && Split(path)[j] == Names(path)[i];
      CharsOfSegments(Split(path), j, c);
      JoinUndoesSplit(path);
    }
  }

  // ---- Heights in file names ----

  function Digit(d: nat): char
    requires d < 10
  {
    ['0', '1', '2', '3', '4', '5', '6', '7', '8', '9'][d]
  }

  function Decimal(n: nat): (text: string)
    ensures text != "" && forall c | c in text :: '0' <= c <= '9'
  {
    if n < 10 then [Digit(n)] else Decimal(n / 10) + [Digit(n % 10)]
  }

  function DigitsValue(text: string): Option<nat> {
    if text == "" then Some(0)
    else
      var last := text[|text| - 1];
      var rest := DigitsValue(text[..|text| - 1]);
      if rest.None? || !('0' <= last <= '9') then None
      else Some(10 * rest.value + (last as int - '0' as int))
  }

  /** Reads an unsigned 32-bit number the way the standard library's `parse` does. */
  function ParseU32(text: string): Option<u32> {
    var digits := if text != "" && text[0] == '+' then text[1..] else text;
    var value := DigitsValue(digits);
    if digits == "" || value.None? || value.value > U32_MAX then None else Some(value.value)
  }

  /** The part of a name before its first dot. */
  function UpToDot(name: string): string {
    match FindIndex(name, (c: char) => c == '.')
    case Some(dot) => name[..dot]
    case None => name
  }

  lemma {:induction false} DigitsOfDecimal(n: nat)
    ensures DigitsValue(Decimal(n)) == Some(n)
  {
    if n < 10 {
      assert Decimal(n)[..0] == "";
    } else {
      DigitsOfDecimal(n / 10);
      assert Decimal(n)[..|Decimal(n)| - 1] == Decimal(n / 10);
    }
  }

  lemma UpToDotOfHeight(height: u32, rest: string)
    requires rest != "" && rest[0] == '.'
    ensures UpToDot(Decimal(height) + rest) == Decimal(height)
  {
    var name := Decimal(height) + rest;
    var n := |Decimal(height)|;
    assert name[n] == '.';
    forall i | 0 <= i < n
      ensures name[i] != '.'
    {
      assert name[i] in Decimal(height);
    }
  }

  /** A height survives being written into a file name and read back. */
  lemma HeightRoundTrip(height: u32)
    ensures ParseU32(Decimal(height)) == Some(height)
  {
    DigitsOfDecimal(height);
    assert Decimal(height)[0] in Decimal(height);
  }

  // ---- The files of a bundle ----

  const MANIFEST := "manifest.json"
  const MANIFEST_HASH := "manifest.sha256"
  const REPORT_JSON := "reports/report.json"
  const REPORT_MARKDOWN := "reports/report.md"
  const REPORT_HASH := "reports/report.sha256"

  /** Files reconciliation may add to a bundle after it was captured. */
  const GENERATED_PATHS: seq<string> := [MANIFEST_HASH, REPORT_JSON, REPORT_MARKDOWN, REPORT_HASH]

  /** What a capture does not list: the manifest's digest and the three files of a report. */
  lemma GeneratedExact(path: string)
    ensures path in GENERATED_PATHS <==>
            || path == "manifest.sha256"
            || path == "reports/report.json" || path == "reports/report.md" || path == "reports/report.sha256"
  {
    hide MANIFEST_HASH, REPORT_JSON, REPORT_MARKDOWN, REPORT_HASH;
    GeneratedNames();
    assert GENERATED_PATHS[0] == MANIFEST_HASH && GENERATED_PATHS[1] == REPORT_JSON;
    assert GENERATED_PATHS[2] == REPORT_MARKDOWN && GENERATED_PATHS[3] == REPORT_HASH;
  }

  lemma GeneratedNames()
    ensures MANIFEST_HASH == "manifest.sha256" && REPORT_JSON == "reports/report.json"
    ensures REPORT_MARKDOWN == "reports/report.md" && REPORT_HASH == "reports/report.sha256"
  {
  }

  /** What a capture writes. */
  datatype BundleFile =
    | ManifestFile
    | ManifestDigest
    | NodeInfo
    | ChainInfoStart
    | ChainInfoEnd
    | Environment
    | Command
    | ToolVersion
    | AnchorBlock
    | AnchorPools
    | Block(height: u32)
    | BlockPools(height: u32)
  {
    function Directory(): string {
      match this
      case ManifestFile => ""
      case ManifestDigest => ""
      case NodeInfo => "rpc"
      case ChainInfoStart => "rpc"
      case ChainInfoEnd => "rpc"
      case Environment => "metadata"
      case Command => "metadata"
      case ToolVersion => "metadata"
      case AnchorBlock => "anchor"
      case AnchorPools => "anchor"
      case Block(_) => "blocks"
      case BlockPools(_) => "blocks"
    }

    function Name(): string {
      match this
      case ManifestFile => "manifest.json"
      case ManifestDigest => "manifest.sha256"
      case NodeInfo => "node-info.json"
      case ChainInfoStart => "blockchain-info-start.json"
      case ChainInfoEnd => "blockchain-info-end.json"
      case Environment => "capture-environment.json"
      case Command => "command.txt"
      case ToolVersion => "tool-version.txt"
      case AnchorBlock => "block.hex"
      case AnchorPools => "value-pools.json"
      case Block(height) => Decimal(height) + ".hex"
      case BlockPools(height) => Decimal(height) + ".pools.json"
    }

    function Path(): string {
      if Directory() == "" then Name() else Directory() + "/" + Name()
    }

    function Segments(): seq<string> {
      if Directory() == "" then [Name()] else [Directory(), Name()]
    }
  }

  /** Where each file of a bundle lies. */
  lemma BundlePaths(height: u32)
    ensures ManifestFile.Path() == MANIFEST && ManifestDigest.Path() == MANIFEST_HASH
    ensures NodeInfo.Path() == "rpc" + "/" + "node-info.json"
    ensures ChainInfoStart.Path() == "rpc" + "/" + "blockchain-info-start.json"
    ensures ChainInfoEnd.Path() == "rpc" + "/" + "blockchain-info-end.json"
    ensures Environment.Path() == "metadata" + "/" + "capture-environment.json"
    ensures Command.Path() == "metadata" + "/" + "command.txt"
    ensures ToolVersion.Path() == "metadata" + "/" + "tool-version.txt"
    ensures AnchorBlock.Path() == "anchor" + "/" + "block.hex"
    ensures AnchorPools.Path() == "anchor" + "/" + "value-pools.json"
    ensures Block(height).Path() == "blocks" + "/" + (Decimal(height) + ".hex")
    ensures BlockPools(height).Path() == "blocks" + "/" + (Decimal(height) + ".pools.json")
  {
  }

  const PARTIAL_SUFFIX := ".partial"

  /** A single ordinary file name that cannot be taken for one still being written. */
  ghost predicate PlainName(name: string) {
    && '/' !in name && '\0' !in name && '\\' !in name
    && name != "" && name != "." && name != ".."
    && name[|name| - 1] != PARTIAL_SUFFIX[7]
  }

  lemma HeightNames(height: u32)
    ensures PlainName(Decimal(height) + ".hex") && PlainName(Decimal(height) + ".pools.json")
  {
    assert Decimal(height)[0] in Decimal(height);
  }

  lemma NodeInfoName()
    ensures PlainName(NodeInfo.Name())
  {
  }

  lemma ChainInfoStartName()
    ensures PlainName(ChainInfoStart.Name())
  {
  }

  lemma ChainInfoEndName()
    ensures PlainName(ChainInfoEnd.Name())
  {
  }

  lemma EnvironmentName()
    ensures PlainName(Environment.Name())
  {
  }

  lemma TextNames()
    ensures PlainName(Command.Name()) && PlainName(ToolVersion.Name())
  {
  }

  lemma ManifestNames()
    ensures PlainName(ManifestFile.Name()) && PlainName(ManifestDigest.Name())
  {
  }

  lemma AnchorNames()
    ensures PlainName(AnchorBlock.Name()) && PlainName(AnchorPools.Name())
  {
  }

  lemma NamesArePlain(file: BundleFile)
    ensures PlainName(file.Name())
  {
    match file {
      case Block(height) => HeightNames(height);
      case BlockPools(height) => HeightNames(height);
      case NodeInfo => NodeInfoName();
      case ChainInfoStart => ChainInfoStartName();
      case ChainInfoEnd => ChainInfoEndName();
      case Environment => EnvironmentName();
      case _ => TextNames(); ManifestNames(); AnchorNames();
    }
  }

  lemma PlainPath(segments: seq<string>, path: string)
    requires 0 < |segments| && path == Join(segments)
    requires forall i | 0 <= i < |segments| :: PlainName(segments[i])
    ensures Split(path) == segments && NormalForm(path)
  {
    SplitUndoesJoin(segments);
    forall c | c in path && (c == '\0' || c == '\\')
      ensures false
    {
      CharsOfJoin(segments, c);
    }
    CharsOfSegments(segments, 0, segments[0][0]);
    assert path[0] == segments[0][0];
    assert segments[0] in segments && segments[0][0] in segments[0];
  }

  lemma DirectoriesArePlain(file: BundleFile)
    ensures file.Directory() == "" || PlainName(file.Directory())
  {
  }

  lemma PathSegments(file: BundleFile)
    ensures Split(file.Path()) == file.Segments()
    ensures NormalForm(file.Path())
    ensures file.Path()[|file.Path()| - 1] != 'l'
  {
    NamesArePlain(file);
    DirectoriesArePlain(file);
    PathIsJoin(file.Directory(), file.Name());
    PlainPath(file.Segments(), file.Path());
  }

  lemma PathIsJoin(directory: string, name: string)
    requires PlainName(name)
    ensures Join([name]) == name && Join([directory, name]) == directory + "/" + name
  {
    assert [directory, name][1..] == [name];
  }

  lemma BlockNameInjective(a: BundleFile, b: BundleFile)
    requires a.Block? || a.BlockPools?
    requires b.Block? || b.BlockPools?
    requires a.Name() == b.Name()
    ensures a == b
  {
    var n, x, y := |a.Name()|, Decimal(a.height), Decimal(b.height);
    assert a.Name()[n - 1] == if a.Block? then 'x' else 'n';
    assert b.Name()[n - 1] == if b.Block? then 'x' else 'n';
    var suffix := if a.Block? then 4 else 11;
    assert a.Name()[..n - suffix] == x && b.Name()[..n - suffix] == y;
    HeightRoundTrip(a.height);
    HeightRoundTrip(b.height);
  }

  lemma SamePathSameParts(a: BundleFile, b: BundleFile)
    requires a.Path() == b.Path()
    ensures a.Directory() == b.Directory() && a.Name() == b.Name()
  {
    PathSegments(a);
    PathSegments(b);
    hide BundleFile.Directory, BundleFile.Name, BundleFile.Path, Split, NormalForm;
    var segments := a.Segments();
    assert segments == b.Segments();
    assert segments[|segments| - 1] == a.Name() && b.Segments()[|segments| - 1] == b.Name();
    if |segments| == 2 {
      assert segments[0] == a.Directory() && b.Segments()[0] == b.Directory();
    }
  }

  lemma PathsInjective(a: BundleFile, b: BundleFile)
    requires a.Path() == b.Path()
    ensures a == b
  {
    SamePathSameParts(a, b);
    DirectoryOfBlocks(a);
    DirectoryOfBlocks(b);
    hide BundleFile.Directory, BundleFile.Name, BundleFile.Path;
    if a.Directory() == "blocks" {
      BlockNameInjective(a, b);
    } else {
      FixedNamesInjective(a, b);
    }
  }

  lemma DirectoryOfBlocks(file: BundleFile)
    ensures file.Directory() == "blocks" <==> file.Block? || file.BlockPools?
  {
    assert file.Directory() == "" || file.Block? || file.BlockPools? || file.Directory()[0] != "blocks"[0];
  }

  /** Different files have different paths, and no file is named like another one being written. */
  lemma PathsDistinct(a: BundleFile, b: BundleFile)
    ensures a.Path() == b.Path() <==> a == b
    ensures a.Path() != b.Path() + PARTIAL_SUFFIX
    ensures a.Path() + PARTIAL_SUFFIX == b.Path() + PARTIAL_SUFFIX <==> a == b
  {
    PathSegments(a);
    hide BundleFile.Path, Split, NormalForm;
    var partial := b.Path() + PARTIAL_SUFFIX;
    assert partial[|partial| - 1] == 'l';
    if a.Path() == b.Path() {
      PathsInjective(a, b);
    }
    if a.Path() + PARTIAL_SUFFIX == b.Path() + PARTIAL_SUFFIX {
      assert a.Path() == (a.Path() + PARTIAL_SUFFIX)[..|a.Path()|] == b.Path();
    }
  }

  lemma FixedNamesInjective(a: BundleFile, b: BundleFile)
    requires a.Directory() == b.Directory() != "blocks" && a.Name() == b.Name()
    ensures a == b
  {
    assert a.Name()[0] == b.Name()[0] && |a.Name()| == |b.Name()|;
  }
}
