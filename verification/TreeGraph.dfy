/**
 * The reader's check across nodes (`graphIssue` in `internal/tree.ts`): every name hangs in a directory of the image,
 * no directory holds a name twice, and every directory reaches the root. The memoised sweep agrees with plain
 * reachability.
 */
module TreeGraph {
  import opened Basics
  import opened Forest
  import opened Volumes
  import opened TreeReader

  ghost predicate NamesHang(names: seq<Named>, parents: Parents) {
    forall k :: 0 <= k < |names| ==> names[k].parent in parents
  }

  predicate SameName(a: Named, b: Named) { a.parent == b.parent && a.name == b.name }

  ghost predicate NamesOnce(names: seq<Named>) {
    forall j, k :: 0 <= j < k < |names| ==> !SameName(names[j], names[k])
  }

  ghost predicate AllAttached(parents: Parents) {
    forall d :: d in parents ==> Attached(parents, d)
  }

  /** The directories of an image form a tree under the root, and its names are where the tree can hold them. */
  ghost predicate GraphOk(names: seq<Named>, parents: Parents) {
    NamesHang(names, parents) && NamesOnce(names) && AllAttached(parents)
  }

  // ---------------------------------------------------------------- the first issue, in the source's order

  /** What is wrong with the name at `k`, given the names before it. */
  ghost function NameFault(names: seq<Named>, parents: Parents, k: nat): Option<Failure>
    requires k < |names|
  {
    if names[k].parent !in parents then Some(Broken(names[k].place, ".parent"))
    else if exists j :: 0 <= j < k && SameName(names[j], names[k]) then Some(Broken(names[k].place, ".name"))
    else None
  }

  ghost function NameIssue(names: seq<Named>, parents: Parents, k: nat): Option<Failure>
    requires k <= |names|
    decreases |names| - k
  {
    if k == |names| then None
    else if NameFault(names, parents, k).Some? then NameFault(names, parents, k)
    else NameIssue(names, parents, k + 1)
  }

  ghost function DirectoryIssue(directories: seq<Ino>, parents: Parents, positions: map<Ino, nat>, k: nat): Option<Failure>
    requires k <= |directories| && forall d :: d in directories ==> d in positions
    decreases |directories| - k
  {
    if k == |directories| then None
    else
      assert directories[k] in directories;
      if Attached(parents, directories[k]) then DirectoryIssue(directories, parents, positions, k + 1)
      else Some(Broken(AtNode(positions[directories[k]]), ".parent"))
  }

  /** The first issue of the names, else the first directory in reading order that does not reach the root. */
  ghost function GraphIssue(t: Tree): Option<Failure>
    requires forall d :: d in t.directories ==> d in t.positions
  {
    if NameIssue(t.names, t.parents, 0).Some? then NameIssue(t.names, t.parents, 0)
    else DirectoryIssue(t.directories, t.parents, t.positions, 0)
  }

  lemma {:induction false} NameIssueMeans(names: seq<Named>, parents: Parents, k: nat)
    requires k <= |names|
    ensures NameIssue(names, parents, k).None? <==> forall j :: k <= j < |names| ==> NameFault(names, parents, j).None?
    decreases |names| - k
  {
    if k < |names| { NameIssueMeans(names, parents, k + 1); }
  }

  lemma {:induction false} DirectoryIssueMeans(directories: seq<Ino>, parents: Parents, positions: map<Ino, nat>, k: nat)
    requires k <= |directories| && forall d :: d in directories ==> d in positions
    ensures DirectoryIssue(directories, parents, positions, k).None?
            <==> forall j :: k <= j < |directories| ==> Attached(parents, directories[j])
    decreases |directories| - k
  {
    if k < |directories| { DirectoryIssueMeans(directories, parents, positions, k + 1); }
  }

  /** What a reader knows of its directories. */
  ghost predicate DirectoriesKnown(t: Tree) {
    && (forall d :: d in t.directories <==> d in t.parents)
    && (forall d :: d in t.directories <==> d in t.positions)
    && ROOT in t.parents
    && (forall d :: d in t.parents && d != ROOT ==> exists k :: 0 <= k < |t.names| && t.names[k].parent == t.parents[d])
  }

  /** The check accepts exactly the graphs that form a tree. */
  lemma GraphIssueMeans(t: Tree)
    requires DirectoriesKnown(t)
    ensures GraphIssue(t).None? <==> GraphOk(t.names, t.parents)
  {
    hide Attached;
    NameIssueMeans(t.names, t.parents, 0);
    DirectoryIssueMeans(t.directories, t.parents, t.positions, 0);
    if GraphOk(t.names, t.parents) {
      forall j | 0 <= j < |t.directories| ensures Attached(t.parents, t.directories[j]) {
        assert t.directories[j] in t.directories;
      }
    }
    if GraphIssue(t).None? {
      forall j, k | 0 <= j < k < |t.names| ensures !SameName(t.names[j], t.names[k]) {
        assert NameFault(t.names, t.parents, k).None?;
      }
      forall k | 0 <= k < |t.names| ensures t.names[k].parent in t.parents {
        assert NameFault(t.names, t.parents, k).None?;
      }
    }
  }

  // ---------------------------------------------------------------- the sweep

  /** The loop over the names with the set of names held so far. */
  method CheckNames(names: seq<Named>, parents: Parents) returns (issue: Option<Failure>)
    ensures issue == NameIssue(names, parents, 0)
  {
    var held: set<(Ino, Name)> := {};
    for k := 0 to |names|
      invariant forall p, n :: (p, n) in held <==> exists j :: 0 <= j < k && names[j].parent == p && names[j].name == n
      invariant NameIssue(names, parents, 0) == NameIssue(names, parents, k)
    {
      var x := names[k];
      if x.parent !in parents { return Some(Broken(x.place, ".parent")); }
      if (x.parent, x.name) in held {
        var j :| 0 <= j < k && names[j].parent == x.parent && names[j].name == x.name;
        assert SameName(names[j], names[k]);
        return Some(Broken(x.place, ".name"));
      }
      assert NameFault(names, parents, k).None?;
      held := held + {(x.parent, x.name)};
    }
    return None;
  }

  /** A directory and its parent reach the root together. */
  lemma ReachTogether(parents: Parents, d: Ino)
    requires d != ROOT && d in parents
    ensures Attached(parents, d) <==> Attached(parents, parents[d])
  {
    if Attached(parents, d) { ParentAttached(parents, d); }
    if Attached(parents, parents[d]) { ChildAttached(parents, d); }
  }

  /** The directories passed on the way from `start` to `current`, none of them known to reach the root yet. */
  ghost predicate ChainOk(parents: Parents, reaches: set<Ino>, chain: set<Ino>, start: Ino, current: Ino) {
    && chain <= parents.Keys && chain !! reaches && ROOT in reaches
    && (forall m :: m in chain ==> parents[m] in chain || parents[m] == current)
    && (forall m :: m in chain ==> (Attached(parents, m) <==> Attached(parents, current)))
    && (start in chain || start == current)
  }

  lemma ChainStep(parents: Parents, reaches: set<Ino>, chain: set<Ino>, start: Ino, current: Ino)
    requires ChainOk(parents, reaches, chain, start, current)
    requires current in parents && current !in reaches && current !in chain
    ensures ChainOk(parents, reaches, chain + {current}, start, parents[current])
  {
    ReachTogether(parents, current);
    hide Attached;
  }

  lemma ChainLoops(parents: Parents, reaches: set<Ino>, chain: set<Ino>, start: Ino, current: Ino)
    requires ChainOk(parents, reaches, chain, start, current) && current in chain
    ensures !Attached(parents, start)
  {
    forall k: nat ensures !Climbs(parents, start, k) { TrappedBelow(parents, chain, start, k); }
  }

  lemma ChainArrives(parents: Parents, reaches: set<Ino>, chain: set<Ino>, start: Ino, current: Ino)
    requires ChainOk(parents, reaches, chain, start, current) && Attached(parents, current)
    ensures Attached(parents, start) && forall m :: m in chain ==> Attached(parents, m)
  {
    hide Attached;
  }

  /** Every directory's parent is a directory of the image. */
  ghost predicate Closed(parents: Parents) {
    forall d :: d in parents && d != ROOT ==> parents[d] in parents
  }

  /** The memoised reachability sweep over the directories in reading order. */
  method Sweep(directories: seq<Ino>, parents: Parents, positions: map<Ino, nat>) returns (issue: Option<Failure>)
    requires (forall d :: d in directories ==> d in positions && d in parents) && Closed(parents)
    ensures issue == DirectoryIssue(directories, parents, positions, 0)
  {
    hide Attached;
    var reachesRoot := {ROOT};
    RootAttached(parents);
    for k := 0 to |directories|
      invariant ROOT in reachesRoot && forall d :: d in reachesRoot ==> Attached(parents, d)
      invariant DirectoryIssue(directories, parents, positions, 0) == DirectoryIssue(directories, parents, positions, k)
    {
      var ino := directories[k];
      assert ino in directories;
      var chain: set<Ino>, current := {}, ino;
      while current !in reachesRoot
        invariant ChainOk(parents, reachesRoot, chain, ino, current)
        invariant current in parents || current in reachesRoot
        decreases parents.Keys - chain
      {
        if current in chain {
          ChainLoops(parents, reachesRoot, chain, ino, current);
          return Some(Broken(AtNode(positions[ino]), ".parent"));
        }
        ChainStep(parents, reachesRoot, chain, ino, current);
        chain := chain + {current};
        current := parents[current];
      }
      ChainArrives(parents, reachesRoot, chain, ino, current);
      reachesRoot := reachesRoot + chain;
    }
    return None;
  }

  method CheckGraph(t: Tree) returns (issue: Option<Failure>)
    requires DirectoriesKnown(t)
    ensures issue == GraphIssue(t)
    ensures issue.None? <==> GraphOk(t.names, t.parents)
  {
    GraphIssueMeans(t);
    hide Attached;
    issue := CheckNames(t.names, t.parents);
    if issue.Some? { return; }
    assert Closed(t.parents) by { HangingCloses(t); }
    issue := Sweep(t.directories, t.parents, t.positions);
  }

  lemma HangingCloses(t: Tree)
    requires DirectoriesKnown(t) && NameIssue(t.names, t.parents, 0).None?
    ensures Closed(t.parents)
  {
    NameIssueMeans(t.names, t.parents, 0);
    forall d | d in t.parents && d != ROOT ensures t.parents[d] in t.parents {
      var k :| 0 <= k < |t.names| && t.names[k].parent == t.parents[d];
      assert NameFault(t.names, t.parents, k).None?;
    }
  }
}
