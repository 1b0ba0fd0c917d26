/** Packing a bundle directory into an archive: one entry per regular file, whatever order directories are read in. */
module Archive {
  import opened Wrappers
  import opened Ordering
  import opened Layout

  // ---- A directory tree ----

  datatype Tree = File(data: Bytes) | Dir(children: map<string, Tree>) | Symlink | Special

  /** A name a file system can hold. */
  ghost predicate FileName(name: string) {
    name != "" && name != "." && name != ".." && '/' !in name && '\0' !in name
  }

  ghost predicate WellNamed(tree: Tree) {
    tree.Dir? ==> forall name | name in tree.children :: FileName(name) && WellNamed(tree.children[name])
  }

  /** The names leading to each regular file; links are not followed. */
  ghost function FilePaths(tree: Tree): (paths: set<seq<string>>)
  {
    match tree
    case File(_) => {[]}
    case Dir(children) => set name, path | name in children && path in FilePaths(children[name]) :: [name] + path
    case _ => {}
  }

  ghost function ContentAt(tree: Tree, path: seq<string>): Bytes
    requires path in FilePaths(tree)
  {
    match tree
    case File(data) => data
    case Dir(children) => assert path == [path[0]] + path[1..]; ContentAt(children[path[0]], path[1..])
  }

  // ---- Listing a tree in whatever order its directories yield it ----

  ghost predicate Lists<T(!new)>(listed: seq<T>, members: set<T>) {
    && (forall i, j | 0 <= i < j < |listed| :: listed[i] != listed[j])
    && forall x :: x in listed <==> x in members
  }

  lemma {:induction false} ListsOnce<T(!new)>(listed: seq<T>, members: set<T>)
    requires Lists(listed, members)
    ensures multiset(listed) == multiset(members)
  {
    if listed != [] {
      var first, rest := listed[0], listed[1..];
      assert listed == [first] + rest;
      forall x
        ensures x in rest <==> x in members - {first}
      {
        if x in rest {
          var i :| 0 <= i < |rest| && rest[i] == x;
          assert listed[i + 1] == x;
        }
      }
      ListsOnce(rest, members - {first});
      assert members == {first} + (members - {first});
    }
  }

  /** The paths below some of a directory's entries. */
  ghost function PathsUnder(children: map<string, Tree>, names: set<string>): set<seq<string>> {
    set name, path | name in names && name in children && path in FilePaths(children[name]) :: [name] + path
  }

  ghost function Prepend(name: string, paths: seq<seq<string>>): (prepended: seq<seq<string>>)
    ensures |prepended| == |paths| && forall i | 0 <= i < |paths| :: prepended[i] == [name] + paths[i]
  {
    seq(|paths|, i requires 0 <= i < |paths| => [name] + paths[i])
  }

  /** One more directory entry, listed after those already visited. */
  lemma ListEntry(
    children: map<string, Tree>, visited: set<string>, name: string, listed: seq<seq<string>>, below: seq<seq<string>>)
    requires name in children && name !in visited
    requires Lists(listed, PathsUnder(children, visited))
    requires Lists(below, FilePaths(children[name]))
    ensures Lists(listed + Prepend(name, below), PathsUnder(children, visited + {name}))
  {
    var more := Prepend(name, below);
    var all := listed + more;
    forall path
      ensures path in all <==> path in PathsUnder(children, visited + {name})
    {
      if path in PathsUnder(children, visited + {name}) {
        var n, rest :| n in visited + {name} && n in children && rest in FilePaths(children[n]) && path == [n] + rest;
        if n == name {
          var i :| 0 <= i < |below| && below[i] == rest;
          assert more[i] == path;
        } else {
          assert path in PathsUnder(children, visited);
        }
      }
      if path in more {
        var i :| 0 <= i < |more| && more[i] == path;
        assert below[i] in FilePaths(children[name]);
      }
    }
    forall i, j | 0 <= i < j < |all|
      ensures all[i] != all[j]
    {
      if j >= |listed| {
        var k := j - |listed|;
        assert all[j] == [name] + below[k];
        if i < |listed| {
          assert listed[i] in PathsUnder(children, visited);
          assert listed[i][0] in visited;
        } else {
          assert all[i] == [name] + below[i - |listed|];
          assert all[i][1..] == below[i - |listed|] && all[j][1..] == below[k];
        }
      }
    }
  }

  ghost function RenderAll(prefix: seq<string>, paths: seq<seq<string>>): (rendered: seq<string>)
    ensures |rendered| == |paths| && forall i | 0 <= i < |paths| :: rendered[i] == Join(prefix + paths[i])
  {
    seq(|paths|, i requires 0 <= i < |paths| => Join(prefix + paths[i]))
  }

  ghost predicate AllSafe(prefix: seq<string>, paths: set<seq<string>>) {
    forall path | path in paths :: Safe(Join(prefix + path))
  }

  lemma NoEntriesYet(prefix: seq<string>, children: map<string, Tree>)
    ensures Lists([], PathsUnder(children, {})) && AllSafe(prefix, PathsUnder(children, {}))
    ensures RenderAll(prefix, []) == []
    ensures PathsUnder(children, children.Keys) == FilePaths(Dir(children))
  {
  }

  lemma LeafPaths(prefix: seq<string>, tree: Tree)
    requires !tree.Dir?
    ensures Lists(if tree.File? then [[]] else [], FilePaths(tree))
    ensures RenderAll(prefix, if tree.File? then [[]] else []) == if tree.File? then [Join(prefix)] else []
    ensures AllSafe(prefix, FilePaths(tree)) <==> (tree.File? ==> ValidateRelativePath(Join(prefix)).Ok?)
  {
    hide Join, Safe, ValidateRelativePath;
    ValidatePathExact(Join(prefix));
    assert prefix + [] == prefix;
    if tree.File? {
      assert [] in FilePaths(tree);
    }
  }

  /** Collects the bundle-relative path of every regular file below a directory entry, appending to
      what was already found. Entries come in any order; links and special files are passed over. */
  method Walk(prefix: seq<string>, tree: Tree, found: seq<string>)
    returns (r: Result<seq<string>>, ghost listed: seq<seq<string>>)
    ensures r.Ok? <==> AllSafe(prefix, FilePaths(tree))
    ensures r.Ok? ==> Lists(listed, FilePaths(tree)) && r.value == found + RenderAll(prefix, listed)
    decreases tree
  {
    hide *;
    match tree {
      case Symlink =>
        LeafPaths(prefix, tree);
        return Ok(found), [];
      case Special =>
        LeafPaths(prefix, tree);
        return Ok(found), [];
      case File(_) =>
        LeafPaths(prefix, tree);
        var relative := Join(prefix);
        var valid := ValidateRelativePath(relative);
        if valid.Err? {
          return Err(valid.error), [];
        }
        return Ok(found + [relative]), [[]];
      case Dir(children) =>
        var collected := found;
        var remaining := children.Keys;
        ghost var visited: set<string> := {};
        listed := [];
        NoEntriesYet(prefix, children);
        while remaining != {}
          invariant visited + remaining == children.Keys && visited !! remaining
          invariant Lists(listed, PathsUnder(children, visited))
          invariant AllSafe(prefix, PathsUnder(children, visited))
          invariant collected == found + RenderAll(prefix, listed)
          decreases remaining
        {
          var name :| name in remaining;
          var result, below := Walk(prefix + [name], children[name], collected);
          SafeBelow(prefix, children, visited, name);
          if result.Err? {
            return Err(result.error), listed;
          }
          ListEntry(children, visited, name, listed, below);
          RenderBelow(prefix, name, listed, below);
          collected := result.value;
          listed := listed + Prepend(name, below);
          visited := visited + {name};
          remaining := remaining - {name};
        }
        assert visited == children.Keys;
        return Ok(collected), listed;
    }
  }

  lemma SafeBelow(prefix: seq<string>, children: map<string, Tree>, visited: set<string>, name: string)
    requires name in children && AllSafe(prefix, PathsUnder(children, visited))
    ensures AllSafe(prefix + [name], FilePaths(children[name])) <==>
              AllSafe(prefix, PathsUnder(children, visited + {name}))
    ensures !AllSafe(prefix + [name], FilePaths(children[name])) ==> !AllSafe(prefix, FilePaths(Dir(children)))
  {
    forall path | path in FilePaths(children[name])
      ensures prefix + [name] + path == prefix + ([name] + path)
      ensures [name] + path in PathsUnder(children, visited + {name}) && [name] + path in FilePaths(Dir(children))
    {
    }
    if AllSafe(prefix + [name], FilePaths(children[name])) {
      forall path | path in PathsUnder(children, visited + {name})
        ensures Safe(Join(prefix + path))
      {
        var n, rest :| n in visited + {name} && n in children && rest in FilePaths(children[n]) && path == [n] + rest;
        if n != name {
          assert path in PathsUnder(children, visited);
        } else {
          assert prefix + [name] + rest == prefix + path;
        }
      }
    }
  }

  lemma RenderBelow(prefix: seq<string>, name: string, listed: seq<seq<string>>, below: seq<seq<string>>)
    ensures RenderAll(prefix, listed) + RenderAll(prefix + [name], below) ==
            RenderAll(prefix, listed + Prepend(name, below))
  {
    forall i | 0 <= i < |below|
      ensures prefix + [name] + below[i] == prefix + ([name] + below[i])
    {
    }
  }

  // ---- Archives ----

  datatype EntryKind =
    | Regular | Continuous | Directory | GlobalHeader | ExtendedHeader | LongName | SymbolicLink | HardLink | OtherKind

  /** One archive entry: what its header says, and the bytes its stream yields. */
  datatype ArchiveEntry = ArchiveEntry(path: string, kind: EntryKind, declared: Option<nat>, delivered: Bytes)

  function Packed(path: string, contents: Bytes): ArchiveEntry {
    ArchiveEntry(path, Regular, Some(|contents|), contents)
  }

  /** The file at a path, descending through directories only. */
  function ReadFile(tree: Tree, path: seq<string>): Option<Bytes>
    decreases path
  {
    if path == [] then (if tree.File? then Some(tree.data) else None)
    else if tree.Dir? && path[0] in tree.children then ReadFile(tree.children[path[0]], path[1..])
    else None
  }

  lemma {:induction false} ReadFileFinds(tree: Tree, path: seq<string>)
    requires path in FilePaths(tree)
    ensures ReadFile(tree, path) == Some(ContentAt(tree, path))
    decreases path
  {
    if tree.Dir? {
      assert path == [path[0]] + path[1..];
      ReadFileFinds(tree.children[path[0]], path[1..]);
    }
  }

  lemma {:induction false} PathNames(tree: Tree, path: seq<string>)
    requires WellNamed(tree) && path in FilePaths(tree)
    ensures forall name | name in path :: FileName(name)
    decreases path
  {
    if tree.Dir? {
      assert path == [path[0]] + path[1..];
      PathNames(tree.children[path[0]], path[1..]);
    }
  }

  /** An entry for one of the tree's regular files. */
  ghost predicate PacksAFile(tree: Tree, entry: ArchiveEntry) {
    exists path | path in FilePaths(tree) :: entry == Packed(Join(path), ContentAt(tree, path))
  }

  /** The rendered paths of a tree's regular files. */
  ghost function RenderedPaths(tree: Tree): set<string> {
    set path | path in FilePaths(tree) :: Join(path)
  }

  /** The archive of a tree: its regular files, each once, by ascending path, with their bytes. */
  ghost predicate IsPacked(tree: Tree, entries: seq<ArchiveEntry>) {
    && (forall i, j | 0 <= i < j < |entries| ::
          StringLe(entries[i].path, entries[j].path) && entries[i].path != entries[j].path)
    && (forall i | 0 <= i < |entries| :: PacksAFile(tree, entries[i]))
    && (forall path | path in RenderedPaths(tree) :: exists i | 0 <= i < |entries| :: entries[i].path == path)
  }

  ghost predicate Packable(tree: Tree) {
    forall path | path in FilePaths(tree) :: Safe(Join(path))
  }

  lemma RenderingIsInjective(tree: Tree, p: seq<string>, q: seq<string>)
    requires WellNamed(tree) && tree.Dir? && p in FilePaths(tree) && q in FilePaths(tree)
    ensures Split(Join(p)) == p && Rendered(Join(p)) == Join(p)
    ensures Join(p) == Join(q) ==> p == q
  {
    PathNames(tree, p);
    PathNames(tree, q);
    assert |p| > 0 && |q| > 0;
    RenderNames(p);
    RenderNames(q);
  }

  /** Reading back a listed path yields the file it was rendered from. */
  lemma ReadsRendered(tree: Tree, path: string)
    requires tree.Dir? && WellNamed(tree) && path in RenderedPaths(tree)
    ensures ReadFile(tree, Split(path)).Some?
    ensures PacksAFile(tree, Packed(path, ReadFile(tree, Split(path)).value))
  {
    hide Join, Split, FilePaths, ContentAt, ReadFile, WellNamed;
    var names :| names in FilePaths(tree) && Join(names) == path;
    RenderingIsInjective(tree, names, names);
    ReadFileFinds(tree, names);
  }

  /** Packs a directory: lists it, sorts the paths, and appends each file with fixed metadata. */
  method Pack(tree: Tree) returns (r: Result<seq<ArchiveEntry>>)
    requires tree.Dir? && WellNamed(tree)
    ensures r.Ok? <==> Packable(tree)
    ensures r.Ok? ==> IsPacked(tree, r.value)
  {
    hide Join, Split, Safe, FilePaths, ContentAt, ReadFile, WellNamed, StableSort, PacksAFile, RenderedPaths, Lists;
    hide StringLe;
    var walked, listed := Walk([], tree, []);
    assert AllSafe([], FilePaths(tree)) <==> Packable(tree) by {
      assert forall path: seq<string> :: [] + path == path;
    }
    if walked.Err? {
      return Err(walked.error);
    }
    SortedRenderings(tree, walked.value, listed);
    var paths := StableSort(walked.value, StringLe);
    var entries: seq<ArchiveEntry> := [];
    for i := 0 to |paths|
      invariant |entries| == i
      invariant forall k | 0 <= k < i :: entries[k].path == paths[k] && PacksAFile(tree, entries[k])
    {
      assert paths[i] in RenderedPaths(tree);
      ReadsRendered(tree, paths[i]);
      var contents := ReadFile(tree, Split(paths[i]));
      entries := entries + [Packed(paths[i], contents.value)];
    }
    forall path | path in RenderedPaths(tree)
      ensures exists i | 0 <= i < |entries| :: entries[i].path == path
    {
      var i :| 0 <= i < |paths| && paths[i] == path;
      assert entries[i].path == path;
    }
    r := Ok(entries);
  }

  lemma SortedRenderings(tree: Tree, found: seq<string>, listed: seq<seq<string>>)
    requires tree.Dir? && WellNamed(tree)
    requires Lists(listed, FilePaths(tree)) && found == [] + RenderAll([], listed)
    ensures StrictlySorted(StableSort(found, StringLe))
    ensures forall path :: path in StableSort(found, StringLe) <==> path in RenderedPaths(tree)
  {
    hide StableSort, StringLe;
    RenderingsListed(tree, found, listed);
    ListsOnce(found, RenderedPaths(tree));
    SortForgetsOrder(found, found);
    MembersOccurOnce(StableSort(found, StringLe), RenderedPaths(tree));
  }

  lemma RenderingsListed(tree: Tree, found: seq<string>, listed: seq<seq<string>>)
    requires tree.Dir? && WellNamed(tree)
    requires Lists(listed, FilePaths(tree)) && found == [] + RenderAll([], listed)
    ensures Lists(found, RenderedPaths(tree))
  {
    hide Join, FilePaths, WellNamed;
    forall i | 0 <= i < |listed|
      ensures found[i] == Join(listed[i]) && listed[i] in FilePaths(tree)
    {
      assert [] + listed[i] == listed[i];
    }
    forall i, j | 0 <= i < j < |found|
      ensures found[i] != found[j]
    {
      RenderingIsInjective(tree, listed[i], listed[j]);
    }
    forall x
      ensures x in found <==> x in RenderedPaths(tree)
    {
      if x in RenderedPaths(tree) {
        var path :| path in FilePaths(tree) && x == Join(path);
        var i :| 0 <= i < |listed| && listed[i] == path;
        assert found[i] == x;
      }
    }
  }

  ghost function EntryPaths(entries: seq<ArchiveEntry>): (paths: seq<string>)
    ensures |paths| == |entries| && forall i | 0 <= i < |entries| :: paths[i] == entries[i].path
  {
    seq(|entries|, i requires 0 <= i < |entries| => entries[i].path)
  }

  lemma SortedPathsOf(tree: Tree, entries: seq<ArchiveEntry>)
    requires IsPacked(tree, entries)
    ensures SortedBy(EntryPaths(entries), StringLe) && Lists(EntryPaths(entries), RenderedPaths(tree))
  {
    hide Join, FilePaths, ContentAt, StringLe;
    var paths := EntryPaths(entries);
    forall x
      ensures x in paths <==> x in RenderedPaths(tree)
    {
      if x in RenderedPaths(tree) {
        var i :| 0 <= i < |entries| && entries[i].path == x;
        assert paths[i] == x;
      }
      if x in paths {
        var i :| 0 <= i < |paths| && paths[i] == x;
        assert PacksAFile(tree, entries[i]);
      }
    }
  }

  /** A path determines the entry that packs it. */
  lemma EntryOfPath(tree: Tree, a: ArchiveEntry, b: ArchiveEntry)
    requires tree.Dir? && WellNamed(tree)
    requires PacksAFile(tree, a) && PacksAFile(tree, b) && a.path == b.path
    ensures a == b
  {
    hide Join, FilePaths, ContentAt, WellNamed;
    var p :| p in FilePaths(tree) && a == Packed(Join(p), ContentAt(tree, p));
    var q :| q in FilePaths(tree) && b == Packed(Join(q), ContentAt(tree, q));
    RenderingIsInjective(tree, p, q);
  }

  /** The archive does not depend on the order directories were read in: a tree has one packing. */
  lemma PackingIsUnique(tree: Tree, entries: seq<ArchiveEntry>, other: seq<ArchiveEntry>)
    requires tree.Dir? && WellNamed(tree)
    requires IsPacked(tree, entries) && IsPacked(tree, other)
    ensures entries == other
  {
    hide StringLe, PacksAFile, RenderedPaths, WellNamed, Lists;
    var a, b := EntryPaths(entries), EntryPaths(other);
    SortedPathsOf(tree, entries);
    SortedPathsOf(tree, other);
    ListsOnce(a, RenderedPaths(tree));
    ListsOnce(b, RenderedPaths(tree));
    StringOrderIsTotal();
    SortedArrangementIsUnique(a, b, StringLe);
    assert |entries| == |a| == |b| == |other|;
    forall i | 0 <= i < |entries|
      ensures entries[i] == other[i]
    {
      assert a[i] == b[i];
      EntryOfPath(tree, entries[i], other[i]);
    }
  }
}
