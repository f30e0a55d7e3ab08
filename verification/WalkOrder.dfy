/**
 * The order and the extent of the two walks over a volume: paths come in the order of their names, and a search meets
 * exactly the children behind directories that it may enter.
 */
module WalkOrder {
  import opened Basics
  import opened Forest
  import opened Sorting
  import opened Volumes
  import opened Walks
  import Search = SearchVisitor

  /** A path comes after its parent's, and before the paths that have a greater name where they differ first. */
  ghost predicate PathLess(p: Path, q: Path) {
    exists i :: LessAt(p, q, i)
  }

  predicate LessAt(p: Path, q: Path, i: nat) {
    i <= |p| && i < |q| && p[..i] == q[..i] && (i == |p| || LexLess(p[i], q[i]))
  }

  // ---------------------------------------------------------------- the snapshot walk

  lemma NamesAscend(node: Node)
    requires node.Directory?
    ensures Ascending(LexLess, SortedNames(node)) && forall n :: n in SortedNames(node) <==> n in node.entries
  {
    LexOrders(node.entries.Keys);
    var names := SortedNames(node);
    assert forall n :: n in names <==> n in Elements(names);
  }

  /** Main result: the snapshot walk lists paths in the order of their names, each directory before what is in it. */
  lemma {:induction false} VisitsAscend(v: Volume, i: Ino, at: Path, j: nat, k: nat)
    requires WellFormed(v) && Walkable(v, i) && j < k < |Visits(v, i, at)|
    ensures PathLess(Visits(v, i, at)[j].path, Visits(v, i, at)[k].path)
    decreases Height(v, i), 1, 0
  {
    hide WellFormed, Visits, Below, PathLess;
    VisitsStep(v, i, at);
    assert i in v;
    if v[i].Directory? {
      var names := SortedNames(v[i]);
      NamesAscend(v[i]);
      if j == 0 {
        BelowAreLookups(v, i, at, names, k - 1);
        var q := Below(v, i, at, names)[k - 1].path;
        PathLessAt(at, q, |at|);
      } else {
        BelowAscend(v, i, at, names, j - 1, k - 1);
      }
    }
  }

  lemma PathLessAt(p: Path, q: Path, i: nat)
    requires LessAt(p, q, i)
    ensures PathLess(p, q)
  {
  }

  lemma {:induction false} BelowAscend(v: Volume, d: Ino, at: Path, names: seq<Name>, j: nat, k: nat)
    requires WellFormed(v) && Walkable(v, d) && v[d].Directory? && Ascending(LexLess, names)
    requires (forall n :: n in names ==> n in v[d].entries) && j < k < |Below(v, d, at, names)|
    ensures PathLess(Below(v, d, at, names)[j].path, Below(v, d, at, names)[k].path)
    decreases Height(v, d), 0, |names|
  {
    hide WellFormed, Visits, Below, PathLess, LexLess;
    if names == [] {
      NothingBelow(v, d, at);
    } else {
      BelowStep(v, d, at, names);
      var n := names[0];
      var c := v[d].entries[n];
      var m := |Visits(v, c, at + [n])|;
      if k < m {
        VisitsAscend(v, c, at + [n], j, k);
      } else if j >= m {
        BelowAscend(v, d, at, names[1..], j - m, k - m);
      } else {
        VisitsAreLookups(v, c, at + [n], j);
        BelowAreLookups(v, d, at, names[1..], k - m);
        var p, q := Visits(v, c, at + [n])[j].path, Below(v, d, at, names[1..])[k - m].path;
        Siblings(at, n, p, q, names);
      }
    }
  }

  lemma NothingBelow(v: Volume, d: Ino, at: Path)
    requires WellFormed(v) && Walkable(v, d) && v[d].Directory?
    ensures Below(v, d, at, []) == []
  {
  }

  /** Paths through different children of a directory are in the order of the children. */
  lemma Siblings(at: Path, n: Name, p: Path, q: Path, names: seq<Name>)
    requires names != [] && names[0] == n && Ascending(LexLess, names)
    requires at + [n] <= p && at < q && q[|at|] in names[1..]
    ensures PathLess(p, q)
  {
    var k :| 0 <= k < |names[1..]| && names[1..][k] == q[|at|];
    assert LexLess(names[0], names[k + 1]);
    assert p[|at|] == (at + [n])[|at|] && p[..|at|] == (at + [n])[..|at|] == at == q[..|at|];
    PathLessAt(p, q, |at|);
  }

  /** The entry of a path: a hard link to the node's first path, or else its content. */
  lemma EntryMeans(v: Volume, l: seq<Visit>, k: nat, j: nat)
    requires k < |l| && l[k].ino in v && j <= k && l[j].ino == l[k].ino && forall i :: 0 <= i < j ==> l[i].ino != l[k].ino
    ensures EntryAt(v, l, k) ==
            if j < k then HardLink(PathBytes(l[k].path), PathBytes(l[j].path))
            else match v[l[k].ino]
              case Directory(_, _, _, m) => DirectoryEntry(PathBytes(l[k].path), m)
              case File(_, data, m) => FileEntry(PathBytes(l[k].path), data, m)
              case Symlink(_, target, m) => SymlinkEntry(PathBytes(l[k].path), target, m)
  {
    hide PathBytes;
  }

  // ---------------------------------------------------------------- the search

  /** The directory `k` names down the path is named in text and not pruned. */
  ghost predicate EnteredAt(v: Volume, s: Search.Search, d: Ino, at: Path, p: Path, k: nat)
    requires 0 < k <= |p|
  {
    && s.decodes(p[k - 1]) && Lookup(v, d, p[..k]).Some?
    && !s.choose(at + p[..k], Lookup(v, d, p[..k]).value).prune
  }

  /** No directory on the way to the path is pruned, and their names are all text. */
  ghost predicate Entered(v: Volume, s: Search.Search, d: Ino, at: Path, p: Path) {
    forall k :: 0 < k < |p| ==> EnteredAt(v, s, d, at, p, k)
  }

  /** A path below `d` that a search comes to. */
  ghost predicate Met(v: Volume, s: Search.Search, d: Ino, at: Path, p: Path, x: Search.Visit) {
    && p != [] && Lookup(v, d, p).Some? && Entered(v, s, d, at, p)
    && x == Search.Visit(at + p, Lookup(v, d, p).value, s.decodes(p[|p| - 1]))
  }

  lemma MetFirst(v: Volume, s: Search.Search, d: Ino, at: Path, n: Name)
    requires d in v && v[d].Directory? && n in v[d].entries && v[d].entries[n] in v
    ensures Met(v, s, d, at, [n], Search.Visit(at + [n], v[d].entries[n], s.decodes(n)))
  {
    assert [n][1..] == [];
    assert Lookup(v, v[d].entries[n], []) == Some(v[d].entries[n]);
  }

  lemma EnteredShift(v: Volume, s: Search.Search, d: Ino, at: Path, n: Name, p: Path, k: nat)
    requires d in v && v[d].Directory? && n in v[d].entries && 0 < k <= |p|
    ensures EnteredAt(v, s, d, at, [n] + p, k + 1) <==> EnteredAt(v, s, v[d].entries[n], at + [n], p, k)
  {
    var q := [n] + p;
    assert q[..k + 1] == [n] + p[..k] && q[..k + 1][1..] == p[..k] && q[k] == p[k - 1];
    assert at + q[..k + 1] == at + [n] + p[..k];
  }

  lemma EnteredOnce(v: Volume, s: Search.Search, d: Ino, at: Path, n: Name, p: Path)
    requires d in v && v[d].Directory? && n in v[d].entries
    ensures var c := v[d].entries[n];
            EnteredAt(v, s, d, at, [n] + p, 1) <==> c in v && s.decodes(n) && !s.choose(at + [n], c).prune
  {
    assert ([n] + p)[..1] == [n] && [n][1..] == [];
    HereOnly(v, v[d].entries[n]);
  }

  lemma EnteredDeeper(v: Volume, s: Search.Search, d: Ino, at: Path, n: Name, p: Path)
    requires d in v && v[d].Directory? && n in v[d].entries && p != []
    ensures var c := v[d].entries[n];
            Entered(v, s, d, at, [n] + p) <==>
            c in v && s.decodes(n) && !s.choose(at + [n], c).prune && Entered(v, s, c, at + [n], p)
  {
    var c, q := v[d].entries[n], [n] + p;
    EnteredOnce(v, s, d, at, n, p);
    forall k | 0 < k < |p| ensures EnteredAt(v, s, d, at, q, k + 1) <==> EnteredAt(v, s, c, at + [n], p, k) {
      EnteredShift(v, s, d, at, n, p, k);
    }
    hide EnteredAt, Lookup;
    if Entered(v, s, d, at, q) {
      assert EnteredAt(v, s, d, at, q, 1);
      forall k | 0 < k < |p| ensures EnteredAt(v, s, c, at + [n], p, k) { assert EnteredAt(v, s, d, at, q, k + 1); }
    }
    if EnteredAt(v, s, d, at, q, 1) && Entered(v, s, c, at + [n], p) {
      forall k | 0 < k < |q| ensures EnteredAt(v, s, d, at, q, k) {
        if k > 1 { assert EnteredAt(v, s, c, at + [n], p, k - 1); }
      }
    }
  }

  lemma MetDeeper(v: Volume, s: Search.Search, d: Ino, at: Path, n: Name, p: Path, x: Search.Visit)
    requires d in v && v[d].Directory? && n in v[d].entries && p != []
    ensures Met(v, s, d, at, [n] + p, x) <==>
            && v[d].entries[n] in v && s.decodes(n) && !s.choose(at + [n], v[d].entries[n]).prune
            && Met(v, s, v[d].entries[n], at + [n], p, x)
  {
    var c, q := v[d].entries[n], [n] + p;
    assert q[1..] == p && at + [n] + p == at + q && Lookup(v, d, q) == Lookup(v, c, p);
    EnteredDeeper(v, s, d, at, n, p);
    hide Lookup, Entered;
  }

  lemma HereOnly(v: Volume, c: Ino)
    ensures Lookup(v, c, []) == if c in v then Some(c) else None
  {
  }

  /** What a search meets below the children in `names`. */
  lemma {:induction false} TourInside(v: Volume, s: Search.Search, d: Ino, at: Path, names: seq<Name>, x: Search.Visit)
    returns (p: Path)
    requires WellFormed(v) && Search.Walkable(v, d) && (forall n :: n in names ==> n in v[d].entries)
    requires x in Search.TourOf(v, s, d, at, names)
    ensures p != [] && p[0] in names && x.path == at + p && Met(v, s, d, at, p, x)
    decreases Height(v, d), 0, |names|
  {
    hide WellFormed, Search.Tour, Search.TourOf, Met, Lookup;
    if names == [] {
      NoTour(v, s, d, at);
    } else {
      Search.TourStep(v, s, d, at, names);
      var n := names[0];
      var c := v[d].entries[n];
      if x == Search.Visit(at + [n], c, s.decodes(n)) {
        p := [n];
        MetFirst(v, s, d, at, n);
      } else if Search.Descends(v, s, at + [n], c) && x in Search.Tour(v, s, c, at + [n]) {
        Search.TourStart(v, s, c, at + [n]);
        assert n in names;
        ChildLower(v, d, n);
        var q := TourInside(v, s, c, at + [n], SortedNames(v[c]), x);
        p := [n] + q;
        MetDeeper(v, s, d, at, n, q, x);
        assert at + [n] + q == at + p;
      } else {
        p := TourInside(v, s, d, at, names[1..], x);
      }
    }
  }

  lemma NoTour(v: Volume, s: Search.Search, d: Ino, at: Path)
    requires WellFormed(v) && Search.Walkable(v, d)
    ensures Search.TourOf(v, s, d, at, []) == []
  {
  }

  lemma {:induction false} InsideTour(v: Volume, s: Search.Search, d: Ino, at: Path, names: seq<Name>, p: Path, x: Search.Visit)
    requires WellFormed(v) && Search.Walkable(v, d) && (forall n :: n in names ==> n in v[d].entries)
    requires p != [] && p[0] in names && Met(v, s, d, at, p, x)
    ensures x in Search.TourOf(v, s, d, at, names)
    decreases Height(v, d), 0, |names|
  {
    hide WellFormed, Search.Tour, Search.TourOf, Met, Lookup;
    Search.TourStep(v, s, d, at, names);
    var n := names[0];
    var c := v[d].entries[n];
    if p[0] != n {
      InsideTour(v, s, d, at, names[1..], p, x);
    } else if |p| == 1 {
      assert p == [n];
      MetOnly(v, s, d, at, n, x);
    } else {
      var q := p[1..];
      assert p == [n] + q;
      MetDeeper(v, s, d, at, n, q, x);
      assert n in names;
      ChildLower(v, d, n);
      MetInDirectory(v, s, c, at + [n], q, x);
      assert (at + [n])[|at + [n]| - 1] == n;
      Search.TourStart(v, s, c, at + [n]);
      MetName(v, s, c, at + [n], q, x);
      InsideTour(v, s, c, at + [n], SortedNames(v[c]), q, x);
    }
  }

  lemma MetOnly(v: Volume, s: Search.Search, d: Ino, at: Path, n: Name, x: Search.Visit)
    requires d in v && v[d].Directory? && n in v[d].entries && v[d].entries[n] in v && Met(v, s, d, at, [n], x)
    ensures x == Search.Visit(at + [n], v[d].entries[n], s.decodes(n))
  {
    MetFirst(v, s, d, at, n);
  }

  lemma MetInDirectory(v: Volume, s: Search.Search, c: Ino, at: Path, p: Path, x: Search.Visit)
    requires Met(v, s, c, at, p, x)
    ensures c in v && v[c].Directory?
  {
  }

  lemma MetName(v: Volume, s: Search.Search, c: Ino, at: Path, p: Path, x: Search.Visit)
    requires Met(v, s, c, at, p, x) && c in v && v[c].Directory?
    ensures p != [] && p[0] in v[c].entries
  {
  }

  /** Main result: a search meets exactly the children whose directories are all entered: named in text, not pruned. */
  lemma TourMeans(v: Volume, s: Search.Search, d: Ino, at: Path, x: Search.Visit)
    requires WellFormed(v) && Search.Walkable(v, d)
    ensures x in Search.Tour(v, s, d, at) <==> exists p :: Met(v, s, d, at, p, x)
  {
    Search.TourStart(v, s, d, at);
    hide WellFormed, Search.Tour, Search.TourOf, Met, Lookup;
    if x in Search.Tour(v, s, d, at) { var p := TourInside(v, s, d, at, SortedNames(v[d]), x); }
    if p :| Met(v, s, d, at, p, x) {
      MetName(v, s, d, at, p, x);
      InsideTour(v, s, d, at, SortedNames(v[d]), p, x);
    }
  }

  lemma {:induction false} TourOfAscends(v: Volume, s: Search.Search, d: Ino, at: Path, names: seq<Name>, j: nat, k: nat)
    requires WellFormed(v) && Search.Walkable(v, d) && Ascending(LexLess, names)
    requires (forall n :: n in names ==> n in v[d].entries) && j < k < |Search.TourOf(v, s, d, at, names)|
    ensures PathLess(Search.TourOf(v, s, d, at, names)[j].path, Search.TourOf(v, s, d, at, names)[k].path)
    decreases Height(v, d), 0, |names|
  {
    hide WellFormed, Search.Tour, Search.TourOf, PathLess, LexLess, Met, Lookup, Search.Descends;
    if names == [] {
      NoTour(v, s, d, at);
    } else {
      Search.TourStep(v, s, d, at, names);
      var n := names[0];
      var c := v[d].entries[n];
      if Search.Descends(v, s, at + [n], c) { EntersDirectory(v, s, at + [n], c); }
      var inner := if Search.Descends(v, s, at + [n], c) then Search.Tour(v, s, c, at + [n]) else [];
      var rest := Search.TourOf(v, s, d, at, names[1..]);
      var m := 1 + |inner|;
      if j >= m {
        TourOfAscends(v, s, d, at, names[1..], j - m, k - m);
      } else if k >= m {
        if j > 0 { InnerPath(v, s, c, at + [n], j - 1); }
        var q := TourInside(v, s, d, at, names[1..], rest[k - m]);
        assert (at + q)[|at|] == q[0];
        var p := if j == 0 then at + [n] else inner[j - 1].path;
        Siblings(at, n, p, rest[k - m].path, names);
      } else if j == 0 {
        InnerPath(v, s, c, at + [n], k - 1);
        var q := inner[k - 1].path;
        PathLessAt(at + [n], q, |at + [n]|);
      } else {
        assert n in names;
        ChildLower(v, d, n);
        TourAscends(v, s, c, at + [n], j - 1, k - 1);
      }
    }
  }

  lemma EntersDirectory(v: Volume, s: Search.Search, path: Path, c: Ino)
    requires Search.Descends(v, s, path, c)
    ensures c in v && v[c].Directory?
  {
  }

  lemma InnerPath(v: Volume, s: Search.Search, c: Ino, at: Path, k: nat)
    requires WellFormed(v) && Search.Walkable(v, c) && k < |Search.Tour(v, s, c, at)|
    ensures at < Search.Tour(v, s, c, at)[k].path
  {
    Search.TourStart(v, s, c, at);
    hide WellFormed, Search.Tour, Search.TourOf, Met, Lookup;
    var x := Search.Tour(v, s, c, at)[k];
    var q := TourInside(v, s, c, at, SortedNames(v[c]), x);
    assert x.path[..|at|] == at;
  }

  /** Main result: a search meets them in the order of their names, each directory before what is in it. */
  lemma {:induction false} TourAscends(v: Volume, s: Search.Search, d: Ino, at: Path, j: nat, k: nat)
    requires WellFormed(v) && Search.Walkable(v, d) && j < k < |Search.Tour(v, s, d, at)|
    ensures PathLess(Search.Tour(v, s, d, at)[j].path, Search.Tour(v, s, d, at)[k].path)
    decreases Height(v, d), 1, 0
  {
    Search.TourStart(v, s, d, at);
    NamesAscend(v[d]);
    hide WellFormed, Search.Tour, Search.TourOf, PathLess;
    TourOfAscends(v, s, d, at, SortedNames(v[d]), j, k);
  }

  /** The length a search measures a path by: that of its byte path without the leading slash. */
  lemma {:induction false} PathSizeMeans(p: Path)
    requires GoodPath(p) && p != []
    ensures Search.PathSize(p) + 1 == |PathBytes(p)|
    decreases |p|
  {
    var front := p[..|p| - 1];
    PathBytesShape(front);
    if front != [] { PathSizeMeans(front); }
  }
}
