/** String order and stable sorting: what `sort`, `sort_by` and `cmp` on strings provide. */
module Ordering {

  /** Lexicographic order by code point, which is also the order of the UTF-8 encodings. */
  predicate StringLe(a: string, b: string) {
    || a == []
    || (b != [] && (a[0] < b[0] || (a[0] == b[0] && StringLe(a[1..], b[1..]))))
  }

  lemma {:induction false} StringLeReflexive(a: string)
    ensures StringLe(a, a)
  {
    if a != [] {
      StringLeReflexive(a[1..]);
    }
  }

  lemma {:induction false} StringLeTotal(a: string, b: string)
    ensures StringLe(a, b) || StringLe(b, a)
  {
    if a != [] && b != [] {
      StringLeTotal(a[1..], b[1..]);
    }
  }

  lemma {:induction false} StringLeAntisymmetric(a: string, b: string)
    requires StringLe(a, b) && StringLe(b, a)
    ensures a == b
  {
    if a != [] && b != [] {
      StringLeAntisymmetric(a[1..], b[1..]);
      assert a == [a[0]] + a[1..] && b == [b[0]] + b[1..];
    }
  }

  lemma {:induction false} StringLeTransitive(a: string, b: string, c: string)
    requires StringLe(a, b) && StringLe(b, c)
    ensures StringLe(a, c)
  {
    if a != [] && a[0] == b[0] && b[0] == c[0] {
      StringLeTransitive(a[1..], b[1..], c[1..]);
    }
  }

  lemma StringOrderIsTotal()
    ensures TotalPreorder(StringLe)
    ensures forall a, b :: StringLe(a, b) && StringLe(b, a) <==> a == b
  {
    forall a: string, b: string
      ensures StringLe(a, b) || StringLe(b, a)
      ensures StringLe(a, b) && StringLe(b, a) <==> a == b
    {
      StringLeTotal(a, b);
      StringLeReflexive(a);
      if StringLe(a, b) && StringLe(b, a) {
        StringLeAntisymmetric(a, b);
      }
    }
    forall a, b, c | StringLe(a, b) && StringLe(b, c)
      ensures StringLe(a, c)
    {
      StringLeTransitive(a, b, c);
    }
  }

  ghost predicate TotalPreorder<T(!new)>(le: (T, T) -> bool) {
    && (forall x, y :: le(x, y) || le(y, x))
    && (forall x, y, z :: le(x, y) && le(y, z) ==> le(x, z))
  }

  ghost predicate SortedBy<T>(s: seq<T>, le: (T, T) -> bool) {
    forall i, j | 0 <= i < j < |s| :: le(s[i], s[j])
  }

  /** The elements ranking equal to `k`, in the order they occur. */
  function Peers<T>(s: seq<T>, k: T, le: (T, T) -> bool): (peers: seq<T>)
    ensures forall x | x in peers :: x in s && le(x, k) && le(k, x)
    ensures forall x | x in s && le(x, k) && le(k, x) :: x in peers
  {
    if s == [] then []
    else (if le(s[0], k) && le(k, s[0]) then [s[0]] else []) + Peers(s[1..], k, le)
  }

  function Insert<T>(x: T, s: seq<T>, le: (T, T) -> bool): (r: seq<T>)
    ensures multiset(r) == multiset([x]) + multiset(s)
  {
    if s == [] || le(x, s[0]) then [x] + s
    else
      var r := [s[0]] + Insert(x, s[1..], le);
      assert s == [s[0]] + s[1..];
      r
  }

  /** A stable sort: elements that rank equal keep their relative order. */
  function StableSort<T>(s: seq<T>, le: (T, T) -> bool): (r: seq<T>)
    ensures multiset(r) == multiset(s)
  {
    if s == [] then []
    else
      assert s == [s[0]] + s[1..];
      Insert(s[0], StableSort(s[1..], le), le)
  }

  lemma PeersOfCons<T(!new)>(x: T, s: seq<T>, k: T, le: (T, T) -> bool)
    ensures Peers([x] + s, k, le) == (if le(x, k) && le(k, x) then [x] else []) + Peers(s, k, le)
  {
    assert ([x] + s)[1..] == s;
  }

  lemma {:induction false} InsertKeepsPeers<T(!new)>(x: T, s: seq<T>, k: T, le: (T, T) -> bool)
    requires TotalPreorder(le) && SortedBy(s, le)
    ensures Peers(Insert(x, s, le), k, le) == Peers([x] + s, k, le)
  {
    hide Peers;
    if s != [] && !le(x, s[0]) {
      var first, rest := s[0], s[1..];
      InsertKeepsPeers(x, rest, k, le);
      PeersOfCons(first, Insert(x, rest, le), k, le);
      PeersOfCons(x, rest, k, le);
      PeersOfCons(x, s, k, le);
      assert s == [first] + rest;
      PeersOfCons(first, rest, k, le);
      assert !(le(x, k) && le(k, first));
    }
  }

  lemma {:induction false} InsertSorts<T(!new)>(x: T, s: seq<T>, le: (T, T) -> bool)
    requires TotalPreorder(le) && SortedBy(s, le)
    ensures SortedBy(Insert(x, s, le), le)
  {
    if s != [] && !le(x, s[0]) {
      InsertSorts(x, s[1..], le);
      var tail := Insert(x, s[1..], le);
      forall i | 0 <= i < |tail|
        ensures le(s[0], tail[i])
      {
        assert tail[i] in multiset(tail);
        assert tail[i] == x || tail[i] in s[1..];
      }
    }
  }

  lemma {:induction false} StableSortSorts<T(!new)>(s: seq<T>, le: (T, T) -> bool)
    requires TotalPreorder(le)
    ensures SortedBy(StableSort(s, le), le)
    ensures forall k :: Peers(StableSort(s, le), k, le) == Peers(s, k, le)
  {
    if s != [] {
      var sorted := StableSort(s[1..], le);
      StableSortSorts(s[1..], le);
      InsertSorts(s[0], sorted, le);
      forall k
        ensures Peers(StableSort(s, le), k, le) == Peers(s, k, le)
      {
        InsertKeepsPeers(s[0], sorted, k, le);
        assert ([s[0]] + sorted)[1..] == sorted;
      }
    }
  }

  /** A sorted sequence is determined by the relative order within each rank. */
  lemma {:induction false} SortedIsUnique<T(!new)>(a: seq<T>, b: seq<T>, le: (T, T) -> bool)
    requires TotalPreorder(le) && SortedBy(a, le) && SortedBy(b, le)
    requires forall k :: Peers(a, k, le) == Peers(b, k, le)
    ensures a == b
  {
    assert a != [] ==> a[0] in Peers(a, a[0], le);
    assert b != [] ==> b[0] in Peers(b, b[0], le);
    if a != [] && b != [] {
      var x, y := a[0], b[0];
      assert y in Peers(b, y, le) && y in Peers(a, y, le);
      assert x in Peers(a, x, le) && x in Peers(b, x, le);
      assert le(x, y) && le(y, x);
      assert Peers(a, x, le)[0] == x && Peers(b, x, le)[0] == y;
      forall k
        ensures Peers(a[1..], k, le) == Peers(b[1..], k, le)
      {
        var drop := if le(x, k) && le(k, x) then 1 else 0;
        assert Peers(a[1..], k, le) == Peers(a, k, le)[drop..];
        assert Peers(b[1..], k, le) == Peers(b, k, le)[drop..];
      }
      SortedIsUnique(a[1..], b[1..], le);
      assert a == [x] + a[1..] && b == [y] + b[1..];
    }
  }

  lemma {:induction false} PeersOfEqualsCount<T(!new)>(s: seq<T>, k: T, le: (T, T) -> bool)
    requires forall x, y :: le(x, y) && le(y, x) <==> x == y
    ensures |Peers(s, k, le)| == multiset(s)[k]
    ensures forall i | 0 <= i < |Peers(s, k, le)| :: Peers(s, k, le)[i] == k
  {
    if s != [] {
      hide Peers;
      var first, rest := s[0], s[1..];
      PeersOfEqualsCount(rest, k, le);
      PeersOfCons(first, rest, k, le);
      assert s == [first] + rest;
      assert multiset(s) == multiset{first} + multiset(rest);
    }
  }

  lemma SameCountsSamePeers<T(!new)>(a: seq<T>, b: seq<T>, k: T, le: (T, T) -> bool)
    requires forall x, y :: le(x, y) && le(y, x) <==> x == y
    requires multiset(a) == multiset(b)
    ensures Peers(a, k, le) == Peers(b, k, le)
  {
    PeersOfEqualsCount(a, k, le);
    PeersOfEqualsCount(b, k, le);
  }

  /** Under a total order, two sorted arrangements of the same elements are the same sequence. */
  lemma SortedArrangementIsUnique<T(!new)>(a: seq<T>, b: seq<T>, le: (T, T) -> bool)
    requires TotalPreorder(le) && forall x, y :: le(x, y) && le(y, x) <==> x == y
    requires SortedBy(a, le) && SortedBy(b, le) && multiset(a) == multiset(b)
    ensures a == b
  {
    forall k
      ensures Peers(a, k, le) == Peers(b, k, le)
    {
      SameCountsSamePeers(a, b, k, le);
    }
    SortedIsUnique(a, b, le);
  }

  /** Sorting strings forgets the order they arrived in. */
  lemma SortForgetsOrder(a: seq<string>, b: seq<string>)
    requires multiset(a) == multiset(b)
    ensures StableSort(a, StringLe) == StableSort(b, StringLe)
    ensures SortedBy(StableSort(a, StringLe), StringLe)
  {
    StringOrderIsTotal();
    StableSortSorts(a, StringLe);
    StableSortSorts(b, StringLe);
    SortedArrangementIsUnique(StableSort(a, StringLe), StableSort(b, StringLe), StringLe);
  }

  ghost predicate StrictlySorted(paths: seq<string>) {
    forall i, j | 0 <= i < j < |paths| :: StringLe(paths[i], paths[j]) && paths[i] != paths[j]
  }

  /** Strictly sorted lists of the same strings are the same list. */
  lemma {:induction false} StrictlySortedIsUnique(a: seq<string>, b: seq<string>)
    requires StrictlySorted(a) && StrictlySorted(b) && forall path :: path in a <==> path in b
    ensures a == b
  {
    assert a != [] ==> a[0] in b;
    assert b != [] ==> b[0] in a;
    if a != [] && b != [] {
      StringOrderIsTotal();
      hide StringLe;
      var first := a[0];
      var i :| 0 <= i < |a| && a[i] == b[0];
      var j :| 0 <= j < |b| && b[j] == a[0];
      assert a == [first] + a[1..] && b == [first] + b[1..];
      forall path
        ensures path in a[1..] <==> path in b[1..]
      {
        assert path in a[1..] <==> path in a && path != first;
        assert path in b[1..] <==> path in b && path != first;
      }
      StrictlySortedIsUnique(a[1..], b[1..]);
    }
  }

  lemma {:induction false} MembersOccurOnce<T>(s: seq<T>, members: set<T>)
    requires multiset(s) == multiset(members)
    ensures forall i, j | 0 <= i < j < |s| :: s[i] != s[j]
    ensures forall x :: x in s <==> x in members
  {
    forall x
      ensures x in s <==> x in members
    {
      assert x in multiset(s) <==> x in multiset(members);
    }
    if s != [] {
      assert s == [s[0]] + s[1..];
      assert multiset(s[1..]) == multiset(members) - multiset{s[0]} == multiset(members - {s[0]});
      MembersOccurOnce(s[1..], members - {s[0]});
      forall i, j | 0 <= i < j < |s|
        ensures s[i] != s[j]
      {
        assert s[j] == s[1..][j - 1] && (i > 0 ==> s[i] == s[1..][i - 1]);
        assert s[j] in s[1..];
      }
    }
  }
}
