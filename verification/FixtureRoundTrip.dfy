/** Rebuilding a volume from the entries of a snapshot walk: the same paths, content and hard-link groups. */
module FixtureRoundTrip {
  import opened Basics
  import opened Forest
  import opened Volumes
  import opened Walks
  import opened Fixtures
  import opened FixtureTrees

  /** Symbolic link targets never hold a NUL; `symlink` and the tree reader refuse one. */
  predicate CleanTargets(v: Volume) {
    forall i :: i in v && v[i].Symlink? ==> 0 !in v[i].target
  }

  /** Below `d` in `v` and below the root in `w` there are the same paths, with equal content and the same aliasing. */
  ghost predicate SameTree(v: Volume, d: Ino, w: Volume) {
    && (forall p :: Lookup(v, d, p).Some? <==> Lookup(w, ROOT, p).Some?)
    && (forall p :: Lookup(v, d, p).Some? && Lookup(w, ROOT, p).Some? ==>
          SameContent(v[Lookup(v, d, p).value], w[Lookup(w, ROOT, p).value]))
    && (forall p, q :: Lookup(v, d, p).Some? && Lookup(v, d, q).Some? ==>
          (Lookup(v, d, p) == Lookup(v, d, q) <==> Lookup(w, ROOT, p) == Lookup(w, ROOT, q)))
  }

  /** The visits of a walk from the live directory `d`. */
  ghost predicate WalkOf(v: Volume, d: Ino, l: seq<Visit>, out: seq<Entry>) {
    && WellFormed(v) && CleanTargets(v) && d in v && v[d].Directory? && Live(v, d)
    && l == Visits(v, d, []) && EntriesOk(v, l, out)
  }

  /** What a walk visits: the root first, then paths of names, none twice, each leading to its node. */
  lemma WalkFacts(v: Volume, d: Ino, l: seq<Visit>, out: seq<Entry>)
    requires WalkOf(v, d, l, out)
    ensures l != [] && l[0] == Visit(d, []) && |out| == |l| && DistinctPaths(l)
    ensures forall k :: 0 <= k < |l| ==> Lookup(v, d, l[k].path) == Some(l[k].ino) && GoodPath(l[k].path)
    ensures forall k :: 0 < k < |l| ==> l[k].path != []
  {
    hide WellFormed, Visits, Lookup, GoodPath, PathBytes, EntryAt, Live, LinkPath;
    VisitsDistinct(v, d, []);
    forall k | 0 <= k < |l| ensures Lookup(v, d, l[k].path) == Some(l[k].ino) && GoodPath(l[k].path) {
      VisitsAreLookups(v, d, [], k);
      var p := l[k].path;
      assert p[0..] == p;
      FromRoot(v, d, p);
      LookupGood(v, Names(v, d) + p);
      SuffixGood(Names(v, d), p);
    }
    VisitsFirst(v, d, []);
    forall k | 0 < k < |l| ensures l[k].path != [] { assert l[0].path != l[k].path; }
  }

  lemma SuffixGood(a: Path, b: Path)
    requires GoodPath(a + b)
    ensures GoodPath(b)
  {
    forall i | 0 <= i < |b| ensures IsName(b[i]) { assert (a + b)[|a| + i] == b[i]; }
  }

  /** Visits of the same node agree on the first of them. */
  lemma FirstSame(l: seq<Visit>, j: nat, k: nat)
    requires j < |l| && k < |l|
    ensures l[j].ino == l[k].ino <==> FirstIndex(l, l[j].ino) == FirstIndex(l, l[k].ino)
    ensures FirstIndex(l, l[k].ino) <= k
  {
  }

  /** The entry of a visit is content at the first visit of its node, else a link to the first path. */
  lemma EntryShape(v: Volume, d: Ino, l: seq<Visit>, out: seq<Entry>, k: nat)
    requires WalkOf(v, d, l, out) && 0 < k < |l|
    ensures |out| == |l| && l[k].ino in v
    ensures var f, i := FirstIndex(l, l[k].ino), l[k].ino;
            && f <= k && l[f].ino == i && FirstIndex(l, i) == f
            && out[k] == (if f < k then HardLink(PathBytes(l[k].path), PathBytes(l[f].path)) else Content(v[i], PathBytes(l[k].path)))
            && (f < k ==> 0 < f && !v[i].Directory?)
  {
    hide WellFormed, Visits, PathBytes, Live, Lookup;
    var i := l[k].ino;
    var f := FirstIndex(l, i);
    assert out[k] == EntryAt(v, l, k);
    if f < k {
      OneLinkOneVisit(v, d, f, k);
      VisitsFirst(v, d, []);
    }
  }

  /** The entries after the root's declare nodes at the paths of the visits. */
  lemma WalkDeclarable(v: Volume, d: Ino, l: seq<Visit>, out: seq<Entry>)
    requires WalkOf(v, d, l, out)
    ensures out != [] && Declarable(out[1..])
    ensures forall k :: 0 < k < |l| ==> GoodEntry(out[k]) && PathOf(out[k]) == l[k].path
  {
    hide *;
    WalkFacts(v, d, l, out);
    forall k | 0 < k < |l| ensures GoodEntry(out[k]) && PathOf(out[k]) == l[k].path { WalkEntry(v, d, l, out, k); }
    WalkOrder(l, out);
  }

  lemma WalkOrder(l: seq<Visit>, out: seq<Entry>)
    requires l != [] && |out| == |l| && DistinctPaths(l)
    requires forall k :: 0 < k < |l| ==> GoodEntry(out[k]) && PathOf(out[k]) == l[k].path
    ensures Declarable(out[1..])
  {
    hide GoodEntry, PathOf;
    var rest := out[1..];
    forall k | 0 <= k < |rest| ensures GoodEntry(rest[k]) && PathOf(rest[k]) == l[k + 1].path { assert rest[k] == out[k + 1]; }
  }

  lemma WalkEntry(v: Volume, d: Ino, l: seq<Visit>, out: seq<Entry>, k: nat)
    requires WalkOf(v, d, l, out) && 0 < k < |l|
    ensures |out| == |l| && GoodEntry(out[k]) && PathOf(out[k]) == l[k].path
  {
    WalkFacts(v, d, l, out);
    EntryShape(v, d, l, out, k);
    FixturePathBack(l[k].path);
    var f := FirstIndex(l, l[k].ino);
    if f < k { FixturePathBack(l[f].path); }
    hide WellFormed, Visits, PathBytes, Live, Lookup, FixturePath, GoodPath, DistinctPaths, EntriesOk;
    assert CleanTargets(v);
  }

  // ---------------------------------------------------------------- what the pass makes of the walk

  /** `Grounded` and `Real` for the visit `k`: its path stands for the first path of its node. */
  lemma VisitReal(v: Volume, d: Ino, l: seq<Visit>, out: seq<Entry>, pass: Pass, k: nat)
    requires WalkOf(v, d, l, out) && out != [] && PassOk(v[d].metadata, out[1..], pass) && k < |l|
    ensures var f := FirstIndex(l, l[k].ino);
            && f <= k && l[f].ino == l[k].ino && l[k].ino in v
            && Grounded(pass, l[k].path) && Real(pass, l[k].path) == l[f].path
            && l[f].path in pass.declared && NodeIs(v[l[k].ino], pass.declared[l[f].path])
  {
    hide *;
    WalkFacts(v, d, l, out);
    var f := FirstIndex(l, l[k].ino);
    FirstSame(l, k, k);
    FirstIsFirst(l, k);
    if f == 0 {
      RootDeclared(v, d, l, out, pass);
      RealDeclared(pass, []);
      if k > 0 { EntryShape(v, d, l, out, k); }
    } else {
      FirstDeclared(v, d, l, out, pass, f);
      RealDeclared(pass, l[f].path);
      if f < k {
        LaterAliased(v, d, l, out, pass, k);
        RealStep(pass, l[k].path);
      }
    }
  }

  lemma FirstIsFirst(l: seq<Visit>, k: nat)
    requires k < |l|
    ensures var f := FirstIndex(l, l[k].ino); f < |l| && l[f].ino == l[k].ino && FirstIndex(l, l[f].ino) == f
  {
  }

  lemma RootDeclared(v: Volume, d: Ino, l: seq<Visit>, out: seq<Entry>, pass: Pass)
    requires WalkOf(v, d, l, out) && out != [] && PassOk(v[d].metadata, out[1..], pass)
    ensures [] in pass.declared && NodeIs(v[d], pass.declared[[]]) && d in v
  {
    hide WellFormed, Live, Visits, EntriesOk, Recorded;
  }

  lemma FirstDeclared(v: Volume, d: Ino, l: seq<Visit>, out: seq<Entry>, pass: Pass, k: nat)
    requires WalkOf(v, d, l, out) && out != [] && PassOk(v[d].metadata, out[1..], pass)
    requires 0 < k < |l| && FirstIndex(l, l[k].ino) == k
    ensures l[k].path in pass.declared && l[k].ino in v && NodeIs(v[l[k].ino], pass.declared[l[k].path])
  {
    assert d in v;
    hide *;
    EntryShape(v, d, l, out, k);
    WalkDeclarable(v, d, l, out);
    assert out[1..][k - 1] == out[k];
    PassAt(v[d].metadata, out[1..], pass, k - 1);
    DeclaredIs(pass, out[k], l[k].path, v[l[k].ino], PathBytes(l[k].path));
  }

  lemma PassAt(m: Metadata, entries: seq<Entry>, pass: Pass, j: nat)
    requires PassOk(m, entries, pass) && j < |entries|
    ensures j < |pass.order| && Recorded(pass, entries[j], pass.order[j]) && GoodEntry(entries[j]) && pass.order[j] == PathOf(entries[j])
  {
    hide FixturePath;
  }

  /** What the pass recorded for a content entry is the node it was made from. */
  lemma DeclaredIs(pass: Pass, e: Entry, p: Path, node: Node, path: bytes)
    requires GoodEntry(e) && p == PathOf(e) && Recorded(pass, e, p) && e == Content(node, path)
    ensures p in pass.declared && NodeIs(node, pass.declared[p])
  {
    hide GoodEntry, PathOf, FixturePath;
  }

  lemma LaterAliased(v: Volume, d: Ino, l: seq<Visit>, out: seq<Entry>, pass: Pass, k: nat)
    requires WalkOf(v, d, l, out) && out != [] && PassOk(v[d].metadata, out[1..], pass)
    requires 0 < k < |l| && FirstIndex(l, l[k].ino) < k
    ensures l[k].path in pass.aliases && l[k].path !in pass.declared
    ensures pass.aliases[l[k].path] == l[FirstIndex(l, l[k].ino)].path
  {
    EntryShape(v, d, l, out, k);
    WalkDeclarable(v, d, l, out);
    WalkFacts(v, d, l, out);
    FixturePathBack(l[FirstIndex(l, l[k].ino)].path);
    hide WellFormed, Live, Visits, EntriesOk, PathBytes, GoodEntry, PathOf, FixturePath, Declarable, Lookup;
    assert out[1..][k - 1] == out[k];
    assert Recorded(pass, out[1..][k - 1], pass.order[k - 1]);
  }

  lemma OrderIsVisits(v: Volume, d: Ino, l: seq<Visit>, out: seq<Entry>, pass: Pass, p: Path) returns (k: nat)
    requires WalkOf(v, d, l, out) && out != [] && PassOk(v[d].metadata, out[1..], pass) && p in pass.order
    ensures 0 < k < |l| && l[k].path == p
  {
    WalkDeclarable(v, d, l, out);
    WalkFacts(v, d, l, out);
    hide WellFormed, Live, Visits, EntriesOk, PathBytes, GoodEntry, FixturePath, Declarable, Lookup, DistinctPaths, GoodPath;
    var j :| 0 <= j < |pass.order| && pass.order[j] == p;
    k := j + 1;
    assert out[1..][j] == out[k];
    assert Recorded(pass, out[1..][j], pass.order[j]);
  }

  /** Every hard link of a walk names a file or symbolic link emitted before it. */
  lemma WalkLinked(v: Volume, d: Ino, l: seq<Visit>, out: seq<Entry>, pass: Pass)
    requires WalkOf(v, d, l, out) && out != [] && PassOk(v[d].metadata, out[1..], pass)
    ensures Linked(pass)
  {
    AliasesOrdered(v[d].metadata, out[1..], pass);
    hide WalkOf, PassOk, GoodLink;
    forall p | p in pass.aliases ensures GoodLink(pass, p) {
      var k := OrderIsVisits(v, d, l, out, pass, p);
      WalkLinkGood(v, d, l, out, pass, k);
    }
  }

  lemma AliasesOrdered(m: Metadata, entries: seq<Entry>, pass: Pass)
    requires PassOk(m, entries, pass)
    ensures forall p :: p in pass.aliases ==> p in pass.order
  {
  }

  lemma WalkLinkGood(v: Volume, d: Ino, l: seq<Visit>, out: seq<Entry>, pass: Pass, k: nat)
    requires WalkOf(v, d, l, out) && out != [] && PassOk(v[d].metadata, out[1..], pass)
    requires 0 < k < |l| && l[k].path in pass.aliases
    ensures GoodLink(pass, l[k].path)
  {
    VisitReal(v, d, l, out, pass, k);
    AliasIsNoDirectory(v, d, l, out, pass, k);
    hide WalkOf, PassOk, Grounded, Real, NodeIs;
  }

  lemma AliasIsNoDirectory(v: Volume, d: Ino, l: seq<Visit>, out: seq<Entry>, pass: Pass, k: nat)
    requires WalkOf(v, d, l, out) && out != [] && PassOk(v[d].metadata, out[1..], pass)
    requires 0 < k < |l| && l[k].path in pass.aliases
    ensures l[k].ino in v && !v[l[k].ino].Directory?
    ensures forall n: Declared :: NodeIs(v[l[k].ino], n) ==> n.kind != DirectoryKind
  {
    EntryShape(v, d, l, out, k);
    hide WalkOf, Recorded;
    FirstSame(l, k, k);
    if FirstIndex(l, l[k].ino) == k {
      FirstDeclared(v, d, l, out, pass, k);
    }
  }

  /** Every path of a walk comes after its parent, a directory. */
  lemma WalkRooted(v: Volume, d: Ino, l: seq<Visit>, out: seq<Entry>, pass: Pass)
    requires WalkOf(v, d, l, out) && out != [] && PassOk(v[d].metadata, out[1..], pass)
    ensures Rooted(pass)
  {
    hide WalkOf, PassOk, Hung;
    forall p | p in pass.order ensures p != [] && Hung(pass.declared, p) {
      var k := OrderIsVisits(v, d, l, out, pass, p);
      VisitHung(v, d, l, out, pass, k);
    }
  }

  lemma VisitHung(v: Volume, d: Ino, l: seq<Visit>, out: seq<Entry>, pass: Pass, k: nat)
    requires WalkOf(v, d, l, out) && out != [] && PassOk(v[d].metadata, out[1..], pass) && 0 < k < |l|
    ensures l[k].path != [] && Hung(pass.declared, l[k].path)
  {
    hide *;
    var j := ParentVisit(v, d, l, out, k);
    VisitReal(v, d, l, out, pass, j);
    DirectoryFirst(v, d, l, out, j);
    HungBelow(pass.declared, l[k].path, l[j].path, v[l[j].ino]);
  }

  lemma HungBelow(declared: Table, p: Path, parent: Path, node: Node)
    requires p != [] && parent == Front(p) && parent in declared && node.Directory? && NodeIs(node, declared[parent])
    ensures Hung(declared, p)
  {
  }

  lemma ParentVisit(v: Volume, d: Ino, l: seq<Visit>, out: seq<Entry>, k: nat) returns (j: nat)
    requires WalkOf(v, d, l, out) && 0 < k < |l|
    ensures j < k && l[k].path != [] && l[j].path == Front(l[k].path) && l[j].ino in v && v[l[j].ino].Directory?
  {
    WalkFacts(v, d, l, out);
    var p := l[k].path;
    assert Lookup(v, d, p) == Some(l[k].ino);
    j := ParentListedAt(v, d, l, k);
    assert Lookup(v, d, l[j].path) == Some(l[j].ino);
    hide WalkOf, Lookup, GoodPath, DistinctPaths;
    assert p == Front(p) + [Last(p)];
    LookupSnoc(v, d, Front(p), Last(p));
  }

  lemma ParentListedAt(v: Volume, d: Ino, l: seq<Visit>, k: nat) returns (j: nat)
    requires WellFormed(v) && Walkable(v, d) && l == Visits(v, d, []) && k < |l| && l[k].path != []
    ensures j < k && l[j].path == Front(l[k].path)
  {
    hide WellFormed, Visits, Walkable;
    ParentsListed(v, d, [], k);
    j :| 0 <= j < k && l[j].path == l[k].path[..|l[k].path| - 1];
  }

  /** A directory is visited once. */
  lemma DirectoryFirst(v: Volume, d: Ino, l: seq<Visit>, out: seq<Entry>, j: nat)
    requires WalkOf(v, d, l, out) && j < |l| && l[j].ino in v && v[l[j].ino].Directory?
    ensures FirstIndex(l, l[j].ino) == j
  {
    FirstSame(l, j, j);
    if j > 0 { EntryShape(v, d, l, out, j); }
  }

  // ---------------------------------------------------------------- the round trip

  /** The rebuilt volume leads where the walk went. */
  lemma RebuiltVisit(v: Volume, d: Ino, l: seq<Visit>, out: seq<Entry>, pass: Pass, w: Volume, k: nat)
    requires WalkOf(v, d, l, out) && out != [] && PassOk(v[d].metadata, out[1..], pass) && Holds(pass, w) && k < |l|
    ensures var f := FirstIndex(l, l[k].ino);
            && f < |l| && l[f].path in pass.declared && l[k].ino in v
            && Lookup(w, ROOT, l[k].path) == Some(pass.declared[l[f].path].ino)
            && pass.declared[l[f].path].ino in w && SameContent(v[l[k].ino], w[pass.declared[l[f].path].ino])
  {
    hide *;
    VisitReal(v, d, l, out, pass, k);
    var p := l[FirstIndex(l, l[k].ino)].path;
    HoldsAt(pass, w, l[k].path, p);
    SameNode(v[l[k].ino], w[pass.declared[p].ino], pass.declared[p]);
  }

  lemma HoldsAt(pass: Pass, w: Volume, p: Path, q: Path)
    requires Holds(pass, w) && Grounded(pass, p) && Real(pass, p) == q && q in pass.declared
    ensures Lookup(w, ROOT, p) == Some(pass.declared[q].ino)
    ensures pass.declared[q].ino in w && NodeIs(w[pass.declared[q].ino], pass.declared[q])
  {
    hide Lookup, Grounded, Real, NodeIs;
  }

  lemma SameNode(a: Node, b: Node, n: Declared)
    requires NodeIs(a, n) && NodeIs(b, n)
    ensures SameContent(a, b)
  {
  }

  lemma RebuiltPaths(v: Volume, d: Ino, l: seq<Visit>, out: seq<Entry>, pass: Pass, w: Volume, p: Path)
    requires WalkOf(v, d, l, out) && out != [] && PassOk(v[d].metadata, out[1..], pass) && Holds(pass, w)
    requires Lookup(w, ROOT, p).Some?
    ensures exists k :: 0 <= k < |l| && l[k].path == p
  {
    WalkFacts(v, d, l, out);
    hide WalkOf, Lookup, Real, LeadsTo, NodeIs;
    assert Grounded(pass, p);
    GroundedKnown(pass, p);
    if p == [] {
      assert l[0].path == p;
    } else {
      hide Grounded, Recorded;
      var k := OrderIsVisits(v, d, l, out, pass, p);
    }
  }

  /** Two visits lead to one node exactly when the rebuilt volume leads to one node. */
  lemma RebuiltAliases(v: Volume, d: Ino, l: seq<Visit>, out: seq<Entry>, pass: Pass, w: Volume, j: nat, k: nat)
    requires WalkOf(v, d, l, out) && out != [] && PassOk(v[d].metadata, out[1..], pass) && Holds(pass, w)
    requires j < |l| && k < |l|
    ensures l[j].ino == l[k].ino <==> Lookup(w, ROOT, l[j].path) == Lookup(w, ROOT, l[k].path)
  {
    RebuiltVisit(v, d, l, out, pass, w, j);
    RebuiltVisit(v, d, l, out, pass, w, k);
    FirstSame(l, j, k);
    WalkFacts(v, d, l, out);
    DeclaredApart(v, out, d, pass);
    hide WalkOf, PassOk, Lookup, Grounded, Real, Holds;
    var f, g := FirstIndex(l, l[j].ino), FirstIndex(l, l[k].ino);
    if f < g { assert l[f].path != l[g].path; }
    if g < f { assert l[g].path != l[f].path; }
  }

  lemma DeclaredApart(v: Volume, out: seq<Entry>, d: Ino, pass: Pass)
    requires d in v && out != [] && PassOk(v[d].metadata, out[1..], pass)
    ensures forall p, q :: p in pass.declared && q in pass.declared && pass.declared[p].ino == pass.declared[q].ino ==> p == q
  {
  }

  lemma PathVisited(v: Volume, d: Ino, l: seq<Visit>, out: seq<Entry>, p: Path) returns (k: nat)
    requires WalkOf(v, d, l, out) && Lookup(v, d, p).Some?
    ensures k < |l| && l[k] == Visit(Lookup(v, d, p).value, p)
  {
    hide WellFormed, Visits, Lookup, Live;
    k := LookupsAreVisited(v, d, [], p);
    assert [] + p == p;
  }

  lemma RebuiltSameTree(v: Volume, d: Ino, l: seq<Visit>, out: seq<Entry>, pass: Pass, w: Volume)
    requires WalkOf(v, d, l, out) && out != [] && PassOk(v[d].metadata, out[1..], pass) && Holds(pass, w)
    ensures SameTree(v, d, w)
  {
    WalkFacts(v, d, l, out);
    hide WalkOf, PassOk, Lookup, Holds, SameContent, DistinctPaths, GoodPath;
    forall p ensures Lookup(v, d, p).Some? <==> Lookup(w, ROOT, p).Some? {
      if Lookup(v, d, p).Some? {
        var k := PathVisited(v, d, l, out, p);
        RebuiltVisit(v, d, l, out, pass, w, k);
      }
      if Lookup(w, ROOT, p).Some? {
        RebuiltPaths(v, d, l, out, pass, w, p);
        var k :| 0 <= k < |l| && l[k].path == p;
        assert Lookup(v, d, l[k].path) == Some(l[k].ino);
      }
    }
    forall p | Lookup(v, d, p).Some? && Lookup(w, ROOT, p).Some?
      ensures SameContent(v[Lookup(v, d, p).value], w[Lookup(w, ROOT, p).value])
    {
      var k := PathVisited(v, d, l, out, p);
      RebuiltVisit(v, d, l, out, pass, w, k);
    }
    forall p, q | Lookup(v, d, p).Some? && Lookup(v, d, q).Some?
      ensures Lookup(v, d, p) == Lookup(v, d, q) <==> Lookup(w, ROOT, p) == Lookup(w, ROOT, q)
    {
      var j := PathVisited(v, d, l, out, p);
      var k := PathVisited(v, d, l, out, q);
      RebuiltAliases(v, d, l, out, pass, w, j, k);
    }
  }

  /**
   * The entries of a walk after the root's are a fixture for a volume holding the same tree: `snapshotEntries` followed
   * by `fromFixture` never fails and loses nothing but inode numbers.
   */
  method Rebuild(v: Volume, d: Ino) returns (r: Result<Volume, Failure>)
    requires WellFormed(v) && CleanTargets(v) && d in v && v[d].Directory? && Live(v, d)
    ensures r.Ok? && SameTree(v, d, r.value)
  {
    hide *;
    WalkableDirectory(v, d);
    var out := Walk(v, d);
    ghost var l := Visits(v, d, []);
    assert WalkOf(v, d, l, out) by { WalkOfIntro(v, d, l, out); }
    WalkDeclarable(v, d, l, out);
    r := Build(v[d].metadata, out[1..]);
    PassOfOk(v[d].metadata, out[1..]);
    ghost var pass := PassOf(v[d].metadata, out[1..]);
    WalkLinked(v, d, l, out, pass);
    WalkRooted(v, d, l, out, pass);
    RebuiltSameTree(v, d, l, out, pass, r.value);
  }

  lemma WalkableDirectory(v: Volume, d: Ino)
    requires d in v && Live(v, d)
    ensures Walkable(v, d)
  {
  }

  lemma WalkOfIntro(v: Volume, d: Ino, l: seq<Visit>, out: seq<Entry>)
    requires WellFormed(v) && CleanTargets(v) && d in v && v[d].Directory? && Live(v, d)
    requires Walkable(v, d) && l == Visits(v, d, []) && EntriesOk(v, l, out)
    ensures WalkOf(v, d, l, out)
  {
  }
}
