/**
 * The snapshot walk of `internal/image.ts`: an explicit stack visits the tree in sorted pre-order and emits one fixture
 * entry for every path, the first path of a file as content and its later paths as hard links to the first.
 */
module Walks {
  import opened Basics
  import opened Forest
  import opened Sorting
  import opened Volumes

  /** A fixture entry; paths and hard-link targets are byte paths under the walk's root. */
  datatype Entry =
    | DirectoryEntry(path: bytes, metadata: Metadata)
    | FileEntry(path: bytes, data: bytes, metadata: Metadata)
    | SymlinkEntry(path: bytes, target: bytes, metadata: Metadata)
    | HardLink(path: bytes, target: bytes)

  datatype Visit = Visit(ino: Ino, path: Path)

  // ---------------------------------------------------------------- the recursive pre-order

  ghost predicate Walkable(v: Volume, i: Ino) {
    i in v && (v[i].Directory? ==> Live(v, i))
  }

  /** The pre-order below `i`, children in byte order of their names; `at` is the path of `i`. */
  ghost function Visits(v: Volume, i: Ino, at: Path): (r: seq<Visit>)
    requires WellFormed(v) && Walkable(v, i)
    ensures r != [] && r[0] == Visit(i, at)
    decreases Height(v, i), 1, 0
  {
    if v[i].Directory? then
      var names := SortedNames(v[i]);
      assert forall n :: n in names ==> n in Elements(names);
      [Visit(i, at)] + Below(v, i, at, names)
    else [Visit(i, at)]
  }

  /** The pre-orders of the children of `d` named in `names`, one after the other. */
  ghost function Below(v: Volume, d: Ino, at: Path, names: seq<Name>): seq<Visit>
    requires WellFormed(v) && Walkable(v, d) && v[d].Directory?
    requires forall n :: n in names ==> n in v[d].entries
    decreases Height(v, d), 0, |names|
  {
    if names == [] then []
    else
      assert names[0] in names;
      ChildLower(v, d, names[0]);
      Visits(v, v[d].entries[names[0]], at + [names[0]]) + Below(v, d, at, names[1..])
  }

  lemma BelowStep(v: Volume, d: Ino, at: Path, names: seq<Name>)
    requires WellFormed(v) && Walkable(v, d) && v[d].Directory? && names != []
    requires forall n :: n in names ==> n in v[d].entries
    ensures names[0] in v[d].entries && Walkable(v, v[d].entries[names[0]])
    ensures Height(v, v[d].entries[names[0]]) < Height(v, d)
    ensures Below(v, d, at, names) == Visits(v, v[d].entries[names[0]], at + [names[0]]) + Below(v, d, at, names[1..])
  {
    assert names[0] in names;
    ChildLower(v, d, names[0]);
  }

  lemma VisitsStep(v: Volume, i: Ino, at: Path)
    requires WellFormed(v) && Walkable(v, i)
    ensures v[i].Directory? ==>
              && (forall n :: n in SortedNames(v[i]) <==> n in v[i].entries)
              && Visits(v, i, at) == [Visit(i, at)] + Below(v, i, at, SortedNames(v[i]))
    ensures !v[i].Directory? ==> Visits(v, i, at) == [Visit(i, at)]
  {
    if v[i].Directory? {
      var names := SortedNames(v[i]);
      assert forall n :: n in names <==> n in Elements(names);
    }
  }

  // ---------------------------------------------------------------- what the pre-order lists

  /** Every visit is the path of its node. */
  lemma {:induction false} VisitsAreLookups(v: Volume, i: Ino, at: Path, k: nat)
    requires WellFormed(v) && Walkable(v, i) && k < |Visits(v, i, at)|
    ensures var x := Visits(v, i, at)[k];
            at <= x.path && Lookup(v, i, x.path[|at|..]) == Some(x.ino) && Walkable(v, x.ino)
    decreases Height(v, i), 1, 0
  {
    hide WellFormed, Visits, Below;
    VisitsStep(v, i, at);
    if k == 0 || !v[i].Directory? {
      assert at[|at|..] == [];
    } else {
      BelowAreLookups(v, i, at, SortedNames(v[i]), k - 1);
    }
  }

  lemma {:induction false} BelowAreLookups(v: Volume, d: Ino, at: Path, names: seq<Name>, k: nat)
    requires WellFormed(v) && Walkable(v, d) && v[d].Directory?
    requires forall n :: n in names ==> n in v[d].entries
    requires k < |Below(v, d, at, names)|
    ensures var x := Below(v, d, at, names)[k];
            && at < x.path && x.path[|at|] in names
            && Lookup(v, d, x.path[|at|..]) == Some(x.ino) && Walkable(v, x.ino)
    decreases Height(v, d), 0, |names|
  {
    hide WellFormed, Visits;
    if names != [] {
      BelowStep(v, d, at, names);
      hide Below;
      var n := names[0];
      var c := v[d].entries[n];
      var m := |Visits(v, c, at + [n])|;
      if k < m {
        VisitsAreLookups(v, c, at + [n], k);
        var x := Visits(v, c, at + [n])[k];
        assert x.path[|at|..][1..] == x.path[|at + [n]|..];
        assert x.path[|at|] == (at + [n])[|at|];
        assert at == (at + [n])[..|at|] && at <= x.path;
      } else {
        BelowAreLookups(v, d, at, names[1..], k - m);
      }
    }
  }

  /** Every path is visited. */
  lemma {:induction false} LookupsAreVisited(v: Volume, i: Ino, at: Path, p: Path) returns (k: nat)
    requires WellFormed(v) && Walkable(v, i) && Lookup(v, i, p).Some?
    ensures k < |Visits(v, i, at)| && Visits(v, i, at)[k] == Visit(Lookup(v, i, p).value, at + p)
    decreases Height(v, i), 1, 0
  {
    hide WellFormed, Visits, Below;
    VisitsStep(v, i, at);
    if p == [] {
      assert at + p == at;
      VisitsFirst(v, i, at);
      k := 0;
    } else {
      var j := LookupsBelow(v, i, at, SortedNames(v[i]), p);
      k := j + 1;
    }
  }

  lemma VisitsFirst(v: Volume, i: Ino, at: Path)
    requires WellFormed(v) && Walkable(v, i)
    ensures Visits(v, i, at) != [] && Visits(v, i, at)[0] == Visit(i, at)
  {
  }

  lemma {:induction false} LookupsBelow(v: Volume, d: Ino, at: Path, names: seq<Name>, p: Path) returns (k: nat)
    requires WellFormed(v) && Walkable(v, d) && v[d].Directory?
    requires forall n :: n in names ==> n in v[d].entries
    requires p != [] && p[0] in names && Lookup(v, d, p).Some?
    ensures k < |Below(v, d, at, names)| && Below(v, d, at, names)[k] == Visit(Lookup(v, d, p).value, at + p)
    decreases Height(v, d), 0, |names|
  {
    hide WellFormed, Visits, Below;
    BelowStep(v, d, at, names);
    var n := names[0];
    var c := v[d].entries[n];
    if p[0] == n {
      k := LookupsAreVisited(v, c, at + [n], p[1..]);
      assert at + [n] + p[1..] == at + p;
    } else {
      var j := LookupsBelow(v, d, at, names[1..], p);
      k := |Visits(v, c, at + [n])| + j;
    }
  }

  ghost predicate DistinctPaths(l: seq<Visit>) {
    forall j, k :: 0 <= j < k < |l| ==> l[j].path != l[k].path
  }

  /** No path is visited twice. */
  lemma {:induction false} VisitsDistinct(v: Volume, i: Ino, at: Path)
    requires WellFormed(v) && Walkable(v, i)
    ensures DistinctPaths(Visits(v, i, at))
    decreases Height(v, i), 1, 0
  {
    hide WellFormed, Visits, Below;
    VisitsStep(v, i, at);
    if v[i].Directory? {
      var names := SortedNames(v[i]);
      SortedNamesDistinct(v[i]);
      BelowDistinct(v, i, at, names);
      forall k | 0 <= k < |Below(v, i, at, names)| ensures Below(v, i, at, names)[k].path != at {
        BelowAreLookups(v, i, at, names, k);
      }
    }
  }

  lemma SortedNamesDistinct(node: Node)
    requires node.Directory?
    ensures NoRepeats(SortedNames(node))
  {
    LexOrders(node.entries.Keys);
    AscendingDistinct(LexLess, node.entries.Keys, SortedNames(node));
  }

  lemma {:induction false} BelowDistinct(v: Volume, d: Ino, at: Path, names: seq<Name>)
    requires WellFormed(v) && Walkable(v, d) && v[d].Directory? && NoRepeats(names)
    requires forall n :: n in names ==> n in v[d].entries
    ensures DistinctPaths(Below(v, d, at, names))
    decreases Height(v, d), 0, |names|
  {
    hide WellFormed, Visits;
    if names != [] {
      BelowStep(v, d, at, names);
      hide Below;
      var n := names[0];
      var c := v[d].entries[n];
      var first, rest := Visits(v, c, at + [n]), Below(v, d, at, names[1..]);
      VisitsDistinct(v, c, at + [n]);
      BelowDistinct(v, d, at, names[1..]);
      forall j, k | 0 <= j < |first| && 0 <= k < |rest| ensures first[j].path != rest[k].path {
        VisitsAreLookups(v, c, at + [n], j);
        BelowAreLookups(v, d, at, names[1..], k);
        assert first[j].path[|at|] == (at + [n])[|at|] == n;
        var m :| 0 <= m < |names[1..]| && names[1..][m] == rest[k].path[|at|];
        assert names[0] != names[m + 1];
      }
    }
  }

  ghost predicate ParentListed(l: seq<Visit>, at: Path, k: nat)
    requires k < |l|
  {
    l[k].path != at ==>
      |l[k].path| > 0 && exists j :: 0 <= j < k && l[j].path == l[k].path[..|l[k].path| - 1]
  }

  /** Every path comes after its parent's. */
  lemma {:induction false} ParentsListed(v: Volume, i: Ino, at: Path, k: nat)
    requires WellFormed(v) && Walkable(v, i) && k < |Visits(v, i, at)|
    ensures ParentListed(Visits(v, i, at), at, k)
    decreases Height(v, i), 1, 0
  {
    hide WellFormed, Visits, Below;
    VisitsFirst(v, i, at);
    VisitsStep(v, i, at);
    if k > 0 && v[i].Directory? {
      var names := SortedNames(v[i]);
      var rest := Below(v, i, at, names);
      assert Visits(v, i, at) == [Visit(i, at)] + rest;
      var x := rest[k - 1];
      BelowAreLookups(v, i, at, names, k - 1);
      if |x.path| == |at| + 1 {
        assert x.path[..|at|] == at;
        assert Visits(v, i, at)[0].path == x.path[..|x.path| - 1];
      } else {
        var j := ParentsBelow(v, i, at, names, k - 1);
        assert Visits(v, i, at)[j + 1].path == x.path[..|x.path| - 1];
      }
    }
  }

  lemma {:induction false} ParentsBelow(v: Volume, d: Ino, at: Path, names: seq<Name>, k: nat) returns (j: nat)
    requires WellFormed(v) && Walkable(v, d) && v[d].Directory?
    requires forall n :: n in names ==> n in v[d].entries
    requires k < |Below(v, d, at, names)| && |Below(v, d, at, names)[k].path| > |at| + 1
    ensures var x := Below(v, d, at, names)[k];
            j < k && Below(v, d, at, names)[j].path == x.path[..|x.path| - 1]
    decreases Height(v, d), 0, |names|
  {
    assert names != [];
    hide *;
    BelowStep(v, d, at, names);
    var n := names[0];
    var c := v[d].entries[n];
    var first := Visits(v, c, at + [n]);
    if k < |first| {
      ParentsListed(v, c, at + [n], k);
      j := ParentAmong(first, at + [n], k);
    } else {
      var m := ParentsBelow(v, d, at, names[1..], k - |first|);
      j := |first| + m;
    }
  }

  lemma ParentAmong(l: seq<Visit>, at: Path, k: nat) returns (j: nat)
    requires k < |l| && ParentListed(l, at, k) && |l[k].path| > |at|
    ensures j < k && l[j].path == l[k].path[..|l[k].path| - 1]
  {
    j :| 0 <= j < k && l[j].path == l[k].path[..|l[k].path| - 1];
  }

  // ---------------------------------------------------------------- the entries

  function FirstIndex(l: seq<Visit>, i: Ino): (k: nat)
    requires exists j :: 0 <= j < |l| && l[j].ino == i
    ensures k < |l| && l[k].ino == i && forall j :: 0 <= j < k ==> l[j].ino != i
  {
    if l[0].ino == i then 0
    else
      assert exists j :: 0 <= j < |l[1..]| && l[1..][j].ino == i by {
        var j :| 0 <= j < |l| && l[j].ino == i;
        assert l[1..][j - 1].ino == i;
      }
      assert forall j :: 0 < j < |l| ==> l[j] == l[1..][j - 1];
      1 + FirstIndex(l[1..], i)
  }

  function Content(node: Node, path: bytes): Entry {
    match node
    case Directory(_, _, _, m) => DirectoryEntry(path, m)
    case File(_, data, m) => FileEntry(path, data, m)
    case Symlink(_, target, m) => SymlinkEntry(path, target, m)
  }

  /** The entry for the `k`-th visit: content at the first path of a node, a hard link to that path at the others. */
  ghost function EntryAt(v: Volume, l: seq<Visit>, k: nat): Entry
    requires k < |l| && l[k].ino in v
  {
    var first := FirstIndex(l, l[k].ino);
    if first < k then HardLink(PathBytes(l[k].path), PathBytes(l[first].path))
    else Content(v[l[k].ino], PathBytes(l[k].path))
  }

  lemma FirstIndexPrefix(l: seq<Visit>, m: seq<Visit>, k: nat)
    requires k < |l| && l <= m
    ensures FirstIndex(l, l[k].ino) == FirstIndex(m, m[k].ino)
  {
    var i := l[k].ino;
    assert m[k] == l[k];
    var a, b := FirstIndex(l, i), FirstIndex(m, i);
    assert m[a] == l[a] && (b < |l| ==> m[b] == l[b]);
  }

  /** A node with one link is visited once. */
  lemma OneLinkOneVisit(v: Volume, d: Ino, j: nat, k: nat)
    requires WellFormed(v) && Walkable(v, d)
    requires var l := Visits(v, d, []); j < k < |l| && l[j].ino == l[k].ino
    ensures var i := Visits(v, d, [])[k].ino; i in v && !v[i].Directory? && |v[i].links| > 1
  {
    hide WellFormed, Visits, Below, Lookup, Names, Live, LinkPath;
    var l := Visits(v, d, []);
    VisitsDistinct(v, d, []);
    VisitsAreLookups(v, d, [], j);
    VisitsAreLookups(v, d, [], k);
    if !v[d].Directory? {
      VisitsStep(v, d, []);
    } else {
      var p, q, i := l[j].path, l[k].path, l[k].ino;
      assert p[0..] == p && q[0..] == q;
      FromRoot(v, d, p);
      FromRoot(v, d, q);
      var a, b := Names(v, d) + p, Names(v, d) + q;
      assert a[|Names(v, d)|..] == p && b[|Names(v, d)|..] == q;
      LookupBack(v, a);
      LookupBack(v, b);
      if !v[i].Directory? {
        var x :| x in v[i].links && Live(v, x.parent) && a == LinkPath(v, x);
        var y :| y in v[i].links && Live(v, y.parent) && b == LinkPath(v, y);
        var s :| 0 <= s < |v[i].links| && v[i].links[s] == x;
        var t :| 0 <= t < |v[i].links| && v[i].links[t] == y;
        assert s != t;
      }
    }
  }

  /** A path below a live directory is a path from the root. */
  lemma FromRoot(v: Volume, d: Ino, p: Path)
    requires WellFormed(v) && Live(v, d)
    ensures Lookup(v, ROOT, Names(v, d) + p) == Lookup(v, d, p)
  {
    NamesLookup(v, d);
    LookupJoin(v, ROOT, Names(v, d), p);
  }

  lemma {:induction false} LookupJoin(v: Volume, from: Ino, p: Path, q: Path)
    requires Lookup(v, from, p).Some?
    ensures Lookup(v, from, p + q) == Lookup(v, Lookup(v, from, p).value, q)
    decreases |p|
  {
    if p == [] {
      assert p + q == q;
    } else {
      assert (p + q)[1..] == p[1..] + q;
      LookupJoin(v, v[from].entries[p[0]], p[1..], q);
    }
  }

  // ---------------------------------------------------------------- the stack

  datatype Frame = Frame(ino: Ino, path: bytes)

  ghost predicate Frames(v: Volume, stack: seq<Frame>) {
    forall k :: 0 <= k < |stack| ==> Walkable(v, stack[k].ino)
  }

  /** What a stack still has to visit; the last frame is next. `at` holds the paths of the frames. */
  ghost function Remaining(v: Volume, stack: seq<Frame>, at: seq<Path>): seq<Visit>
    requires WellFormed(v) && |stack| == |at| && Frames(v, stack)
    decreases |stack|
  {
    if stack == [] then []
    else
      var top := |stack| - 1;
      Visits(v, stack[top].ino, at[top]) + Remaining(v, stack[..top], at[..top])
  }

  ghost predicate StackOk(v: Volume, stack: seq<Frame>, at: seq<Path>) {
    && |stack| == |at| && Frames(v, stack)
    && (forall k :: 0 <= k < |stack| ==> stack[k].path == PathBytes(at[k]))
  }

  lemma PushRemaining(v: Volume, stack: seq<Frame>, at: seq<Path>, f: Frame, p: Path)
    requires WellFormed(v) && StackOk(v, stack, at) && Walkable(v, f.ino) && f.path == PathBytes(p)
    ensures StackOk(v, stack + [f], at + [p])
    ensures Remaining(v, stack + [f], at + [p]) == Visits(v, f.ino, p) + Remaining(v, stack, at)
  {
    hide WellFormed, Visits, Walkable, PathBytes;
    assert (stack + [f])[..|stack|] == stack && (at + [p])[..|at|] == at;
  }

  /** The children from the `k`-th on have been pushed onto a stack that had `base` to visit. */
  ghost predicate Pushed(
    v: Volume, d: Ino, p: Path, names: seq<Name>, k: nat, stack: seq<Frame>, at: seq<Path>, base: seq<Visit>)
    requires WellFormed(v) && Walkable(v, d) && v[d].Directory?
  {
    && k <= |names| && (forall n :: n in names ==> n in v[d].entries) && StackOk(v, stack, at)
    && (forall n :: n in names[k..] ==> n in v[d].entries)
    && Remaining(v, stack, at) == Below(v, d, p, names[k..]) + base
  }

  lemma StartPushing(v: Volume, d: Ino, p: Path, stack: seq<Frame>, at: seq<Path>)
    requires WellFormed(v) && Walkable(v, d) && v[d].Directory? && StackOk(v, stack, at)
    ensures Pushed(v, d, p, SortedNames(v[d]), |SortedNames(v[d])|, stack, at, Remaining(v, stack, at))
  {
    VisitsStep(v, d, p);
    assert SortedNames(v[d])[|SortedNames(v[d])|..] == [];
  }

  lemma PushChild(
    v: Volume, d: Ino, p: Path, names: seq<Name>, k: nat, stack: seq<Frame>, at: seq<Path>, base: seq<Visit>, path: bytes)
    requires WellFormed(v) && Walkable(v, d) && v[d].Directory? && k < |names| && path == PathBytes(p)
    requires Pushed(v, d, p, names, k + 1, stack, at, base)
    ensures names[k] in v[d].entries
    ensures Pushed(v, d, p, names, k, stack + [Frame(v[d].entries[names[k]], JoinPath(path, names[k]))], at + [p + [names[k]]], base)
  {
    var n := names[k];
    assert d in v && n in names;
    TailNames(v[d].entries.Keys, names, k);
    hide *;
    PushedMeans(v, d, p, names, k + 1, stack, at, base);
    BelowStep(v, d, p, names[k..]);
    PathBytesSnoc(p, n);
    var child := Frame(v[d].entries[n], JoinPath(path, n));
    PushRemaining(v, stack, at, child, p + [n]);
    Regroup(Visits(v, child.ino, p + [n]), Below(v, d, p, names[k + 1..]), base);
    PushedMeans(v, d, p, names, k, stack + [child], at + [p + [n]], base);
  }

  lemma Regroup(a: seq<Visit>, b: seq<Visit>, c: seq<Visit>)
    ensures a + (b + c) == a + b + c
  {
  }

  lemma PushedMeans(
    v: Volume, d: Ino, p: Path, names: seq<Name>, k: nat, stack: seq<Frame>, at: seq<Path>, base: seq<Visit>)
    requires WellFormed(v) && Walkable(v, d) && v[d].Directory? && k <= |names|
    requires forall n :: n in names ==> n in v[d].entries
    requires forall n :: n in names[k..] ==> n in v[d].entries
    ensures Pushed(v, d, p, names, k, stack, at, base) <==>
            StackOk(v, stack, at) && Remaining(v, stack, at) == Below(v, d, p, names[k..]) + base
  {
    hide WellFormed, Walkable, Below, Remaining, StackOk;
  }

  lemma TailNames(keys: set<Name>, names: seq<Name>, k: nat)
    requires k < |names| && forall n :: n in names ==> n in keys
    ensures names[k..] != [] && names[k..][0] == names[k] && names[k..][1..] == names[k + 1..]
    ensures names[k] in names && forall n :: n in names[k..] ==> n in keys
  {
  }

  lemma FinishPushing(v: Volume, d: Ino, p: Path, stack: seq<Frame>, at: seq<Path>, base: seq<Visit>)
    requires WellFormed(v) && Walkable(v, d) && v[d].Directory?
    requires Pushed(v, d, p, SortedNames(v[d]), 0, stack, at, base)
    ensures StackOk(v, stack, at) && [Visit(d, p)] + Remaining(v, stack, at) == Visits(v, d, p) + base
  {
    assert d in v;
    hide *;
    VisitsStep(v, d, p);
    var names := SortedNames(v[d]);
    assert names[0..] == names;
    PushedMeans(v, d, p, names, 0, stack, at, base);
    Regroup([Visit(d, p)], Below(v, d, p, names), base);
  }

  /** Push a directory's children so that the first name is on top. */
  method PushChildren(v: Volume, d: Ino, path: bytes, stack: seq<Frame>, ghost at: seq<Path>, ghost p: Path)
    returns (pushed: seq<Frame>, ghost paths: seq<Path>)
    requires WellFormed(v) && Walkable(v, d) && v[d].Directory? && StackOk(v, stack, at) && path == PathBytes(p)
    ensures StackOk(v, pushed, paths)
    ensures [Visit(d, p)] + Remaining(v, pushed, paths) == Visits(v, d, p) + Remaining(v, stack, at)
  {
    assert d in v && |stack| == |at| && Frames(v, stack);
    hide *;
    var names := ListNames(v[d]);
    pushed, paths := stack, at;
    ghost var base := Remaining(v, stack, at);
    StartPushing(v, d, p, stack, at);
    var k := |names|;
    while k > 0
      invariant 0 <= k <= |names| && Pushed(v, d, p, names, k, pushed, paths, base)
    {
      k := k - 1;
      PushChild(v, d, p, names, k, pushed, paths, base, path);
      var child := Frame(v[d].entries[names[k]], JoinPath(path, names[k]));
      pushed, paths := pushed + [child], paths + [p + [names[k]]];
    }
    FinishPushing(v, d, p, pushed, paths, base);
  }

  ghost predicate Seen(l: seq<Visit>, i: Ino) {
    exists k :: 0 <= k < |l| && l[k].ino == i
  }

  /** The first recorded paths of the multiply linked files among the visits so far. */
  ghost predicate FirstOk(v: Volume, l: seq<Visit>, first: map<Ino, bytes>) {
    && (forall k :: 0 <= k < |l| ==> l[k].ino in v)
    && (forall i :: i in first <==> Seen(l, i) && i in v && !v[i].Directory? && |v[i].links| > 1)
    && (forall i :: i in first ==> first[i] == FirstPath(l, i))
  }

  ghost function FirstPath(l: seq<Visit>, i: Ino): bytes {
    if Seen(l, i) then PathBytes(l[FirstIndex(l, i)].path) else []
  }

  /** One more visit: only a node that is new gets a new first path. */
  lemma FirstPathNext(l: seq<Visit>, x: Visit, i: Ino)
    ensures Seen(l + [x], i) <==> Seen(l, i) || x.ino == i
    ensures FirstPath(l + [x], i) == if Seen(l, i) then FirstPath(l, i) else if x.ino == i then PathBytes(x.path) else []
  {
    hide PathBytes, FirstIndex;
    var m := l + [x];
    if Seen(l, i) {
      var k :| 0 <= k < |l| && l[k].ino == i;
      assert m[k].ino == i;
      FirstIndexPrefix(l, m, k);
    } else if x.ino == i {
      assert m[|l|].ino == i;
      assert FirstIndex(m, i) == |l|;
    }
  }

  ghost predicate EntriesOk(v: Volume, l: seq<Visit>, out: seq<Entry>) {
    && |out| == |l| && (forall k :: 0 <= k < |l| ==> l[k].ino in v)
    && (forall k :: 0 <= k < |l| ==> out[k] == EntryAt(v, l, k))
  }

  lemma NextEntry(v: Volume, l: seq<Visit>, out: seq<Entry>, x: Visit, e: Entry)
    requires EntriesOk(v, l, out) && x.ino in v && e == EntryAt(v, l + [x], |l|)
    ensures EntriesOk(v, l + [x], out + [e])
  {
    hide PathBytes, FirstIndex;
    forall k | 0 <= k < |l| ensures (out + [e])[k] == EntryAt(v, l + [x], k) {
      FirstIndexPrefix(l, l + [x], k);
    }
  }

  lemma NextFirst(v: Volume, l: seq<Visit>, first: map<Ino, bytes>, x: Visit, next: map<Ino, bytes>)
    requires FirstOk(v, l, first) && x.ino in v
    requires next == if x.ino !in first && !v[x.ino].Directory? && |v[x.ino].links| > 1
                     then first[x.ino := PathBytes(x.path)] else first
    ensures FirstOk(v, l + [x], next)
  {
    hide FirstPath, Seen, PathBytes;
    forall i
      ensures Seen(l + [x], i) <==> Seen(l, i) || x.ino == i
      ensures FirstPath(l + [x], i) == if Seen(l, i) then FirstPath(l, i) else if x.ino == i then PathBytes(x.path) else []
    {
      FirstPathNext(l, x, i);
    }
  }

  /** A later visit of a node finds its first path recorded. */
  lemma AliasIsFirst(v: Volume, d: Ino, l: seq<Visit>, x: Visit, first: map<Ino, bytes>)
    requires WellFormed(v) && Walkable(v, d) && FirstOk(v, l, first) && x.ino in v
    requires l + [x] <= Visits(v, d, [])
    ensures EntryAt(v, l + [x], |l|) ==
            if x.ino in first then HardLink(PathBytes(x.path), first[x.ino]) else Content(v[x.ino], PathBytes(x.path))
  {
    hide PathBytes, WellFormed, Visits, Walkable;
    var m := l + [x];
    assert m[|l|] == x;
    var f := FirstIndex(m, x.ino);
    if f < |l| {
      assert m[f] == l[f];
      var all := Visits(v, d, []);
      assert all[f] == m[f] && all[|l|] == x;
      OneLinkOneVisit(v, d, f, |l|);
      assert l[f].ino in first;
      FirstIndexPrefix(l, m, f);
    } else {
      forall k | 0 <= k < |l| ensures l[k].ino != x.ino { assert m[k] == l[k]; }
    }
  }

  /** The walk: every visit of the sorted pre-order, once, with its entry. */
  method Walk(v: Volume, d: Ino) returns (out: seq<Entry>)
    requires WellFormed(v) && Walkable(v, d)
    ensures EntriesOk(v, Visits(v, d, []), out)
  {
    hide WellFormed, Walkable, Visits, Remaining, PathBytes, EntryAt;
    var stack, entries: seq<Entry> := [Frame(d, [SLASH])], [];
    var first: map<Ino, bytes> := map[];
    ghost var at, done: seq<Visit> := [[]], [];
    ghost var all := Visits(v, d, []);
    RootFrame(v, d);
    while stack != []
      invariant StackOk(v, stack, at) && done + Remaining(v, stack, at) == all
      invariant FirstOk(v, done, first) && EntriesOk(v, done, entries)
      decreases |all| - |done|
    {
      var top := stack[|stack| - 1];
      ghost var p := at[|at| - 1];
      PopRemaining(v, stack, at);
      ghost var rest, below := stack[..|stack| - 1], at[..|at| - 1];
      stack := stack[..|stack| - 1];
      ghost var x := Visit(top.ino, p);
      VisitsFirst(v, top.ino, p);
      Prefix(done, Visits(v, top.ino, p), Remaining(v, rest, below), all, x);
      AliasIsFirst(v, d, done, x, first);
      var node := v[top.ino];
      var entry := Content(node, top.path);
      if node.Directory? {
        stack, at := PushChildren(v, top.ino, top.path, stack, below, p);
      } else {
        VisitsStep(v, top.ino, p);
        at := below;
        if |node.links| > 1 {
          if top.ino in first { entry := HardLink(top.path, first[top.ino]); }
        }
      }
      NextEntry(v, done, entries, x, entry);
      ghost var next := if x.ino !in first && !v[x.ino].Directory? && |v[x.ino].links| > 1
                        then first[x.ino := PathBytes(x.path)] else first;
      NextFirst(v, done, first, x, next);
      if !node.Directory? && |node.links| > 1 && top.ino !in first { first := first[top.ino := top.path]; }
      assert first == next;
      assert done + ([x] + Remaining(v, stack, at)) == (done + [x]) + Remaining(v, stack, at);
      entries, done := entries + [entry], done + [x];
    }
    RemainingNone(v);
    assert done + [] == done;
    return entries;
  }

  lemma RootFrame(v: Volume, d: Ino)
    requires WellFormed(v) && Walkable(v, d)
    ensures StackOk(v, [Frame(d, [SLASH])], [[]])
    ensures [] + Remaining(v, [Frame(d, [SLASH])], [[]]) == Visits(v, d, [])
    ensures FirstOk(v, [], map[]) && EntriesOk(v, [], [])
  {
    hide Visits, WellFormed, Walkable;
    EmptyStack(v);
    hide *;
    RootPath();
    PushRemaining(v, [], [], Frame(d, [SLASH]), []);
    assert [] + [Frame(d, [SLASH])] == [Frame(d, [SLASH])];
    var none: seq<Path> := [];
    assert none + [[]] == [[]];
    assert [] + (Visits(v, d, []) + []) == Visits(v, d, []);
  }

  lemma RootPath()
    ensures PathBytes([]) == [SLASH]
  {
  }

  lemma EmptyStack(v: Volume)
    requires WellFormed(v)
    ensures StackOk(v, [], []) && Remaining(v, [], []) == [] && FirstOk(v, [], map[]) && EntriesOk(v, [], [])
  {
  }

  lemma RemainingNone(v: Volume)
    requires WellFormed(v)
    ensures Remaining(v, [], []) == []
  {
  }

  lemma PopRemaining(v: Volume, stack: seq<Frame>, at: seq<Path>)
    requires WellFormed(v) && StackOk(v, stack, at) && stack != []
    ensures var top := |stack| - 1;
            && StackOk(v, stack[..top], at[..top]) && Walkable(v, stack[top].ino) && stack[top].ino in v
            && stack[top].path == PathBytes(at[top])
            && Remaining(v, stack, at) == Visits(v, stack[top].ino, at[top]) + Remaining(v, stack[..top], at[..top])
  {
  }

  lemma Prefix(done: seq<Visit>, a: seq<Visit>, b: seq<Visit>, all: seq<Visit>, x: Visit)
    requires done + (a + b) == all && a != [] && a[0] == x
    ensures done + [x] <= all && |done| < |all|
  {
    assert all[..|done|] == done && all[|done|] == x;
  }
}
