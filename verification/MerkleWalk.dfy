/**
 * The budgeted walk that computes an identity (`identify` and `identityDigest` in `internal/merkle.ts`): breadth first
 * from the root, then leaves before directories and directories in reverse walk order, so that every child digest is
 * there when its parent is hashed.
 */
module MerkleWalk {
  import opened Basics
  import opened Forest
  import opened Sorting
  import opened Volumes
  import opened MerkleFraming
  import opened MerkleIdentity

  // ---------------------------------------------------------------- what there is to walk

  /** The nodes a path reaches. */
  ghost function ReachedSet(v: Volume): set<Ino> {
    set i | i in v && Reached(v, i)
  }

  datatype Weight = Planned | Payload

  ghost function Weigh(v: Volume, w: Weight, i: Ino): nat
    requires i in v
  {
    match w
    case Planned => PlannedLength(v[i], NamesOf(v[i]))
    case Payload => (match PayloadOf(v[i]) case Some(b) => |b| case None => 0)
  }

  ghost function Total(v: Volume, w: Weight, s: set<Ino>): nat
    requires s <= v.Keys
  {
    if s == {} then 0
    else
      var i :| i in s;
      Weigh(v, w, i) + Total(v, w, s - {i})
  }

  lemma {:induction false} TotalAdd(v: Volume, w: Weight, s: set<Ino>, i: Ino)
    requires s <= v.Keys && i in v && i !in s
    ensures Total(v, w, s + {i}) == Total(v, w, s) + Weigh(v, w, i)
    decreases s
  {
    var t := s + {i};
    var j :| j in t && Total(v, w, t) == Weigh(v, w, j) + Total(v, w, t - {j});
    if i == j {
      assert t - {j} == s;
    } else {
      assert t - {j} == (s - {j}) + {i};
      TotalAdd(v, w, s - {j}, i);
      assert (s - {j}) + {j} == s;
      TotalAdd(v, w, s - {j}, j);
    }
  }

  lemma {:induction false} TotalMonotone(v: Volume, w: Weight, s: set<Ino>, t: set<Ino>)
    requires s <= t <= v.Keys
    ensures Total(v, w, s) <= Total(v, w, t)
    decreases t - s
  {
    if t - s != {} {
      var i :| i in t - s;
      TotalAdd(v, w, s, i);
      TotalMonotone(v, w, s + {i}, t);
    } else {
      assert t <= s + (t - s);
      assert s == t;
    }
  }

  // ---------------------------------------------------------------- the state of the walk

  /** The locals of the breadth-first loop; `visited` is the set of entries looked at so far. */
  datatype Walk = Walk(
    order: seq<Ino>, seen: set<Ino>, paths: map<Ino, bytes>, named: map<Ino, seq<bytes>>, ghost visited: set<Link>)

  ghost predicate OrderOk(v: Volume, w: Walk) {
    && |w.order| > 0 && w.order[0] == ROOT && NoRepeats(w.order)
    && Elements(w.order) == w.seen && (forall i :: i in w.seen ==> Reached(v, i))
  }

  ghost predicate PathsOk(v: Volume, w: Walk)
    requires WellFormed(v) && OrderOk(v, w)
  {
    && (forall d :: d in w.paths <==> d in w.seen && d in v && v[d].Directory?)
    && (forall d :: d in w.paths ==> Live(v, d) && w.paths[d] == PathBytes(Names(v, d)))
  }

  ghost predicate VisitedOk(v: Volume, w: Walk) {
    && (forall l :: l in w.visited ==>
          l in AllEntries(v) && l.parent in w.seen && l.parent in v && v[l.parent].Directory?
          && l.name in v[l.parent].entries && v[l.parent].entries[l.name] in w.seen)
    && (forall i :: i in w.seen && i in v && i != ROOT && v[i].Directory? ==> Link(v[i].parent, v[i].name) in w.visited)
    && (forall i :: i in w.seen && i in v && !v[i].Directory? ==> exists l :: l in v[i].links && l in w.visited)
  }

  /** The byte paths of the links of `f` looked at so far. */
  ghost function VisitedPaths(v: Volume, visited: set<Link>, f: Ino): set<bytes>
    requires WellFormed(v) && f in v && !v[f].Directory?
  {
    assert forall l :: l in v[f].links ==> LinkOk(v, f, l);
    set l | l in v[f].links && l in visited :: PathBytes(LinkPath(v, l))
  }

  ghost predicate NamedOk(v: Volume, w: Walk)
    requires WellFormed(v)
  {
    && (forall f :: f in w.named ==>
          MultiplyLinked(v, f) && Elements(w.named[f]) == VisitedPaths(v, w.visited, f) && NoRepeats(w.named[f]))
    && (forall f, l :: MultiplyLinked(v, f) && l in v[f].links && l in w.visited ==> f in w.named)
  }

  /** Every directory comes after its parent. */
  ghost predicate ParentsFirst(v: Volume, order: seq<Ino>) {
    forall k :: 0 <= k < |order| && order[k] in v && v[order[k]].Directory? && order[k] != ROOT ==>
                  v[order[k]].parent in order[..k]
  }

  ghost predicate WalkOk(v: Volume, w: Walk)
    requires WellFormed(v)
  {
    OrderOk(v, w) && PathsOk(v, w) && VisitedOk(v, w) && NamedOk(v, w) && ParentsFirst(v, w.order)
  }

  const START := Walk([ROOT], {ROOT}, map[ROOT := [SLASH]], map[], {})

  lemma StartOk(v: Volume)
    requires WellFormed(v)
    ensures WalkOk(v, START)
  {
    RootLive(v);
    assert Elements(START.order) == START.seen;
  }

  /** Look at the entry `n` of the directory `d`. */
  function Visit(v: Volume, w: Walk, d: Ino, n: Name): Walk
    requires d in v && v[d].Directory? && n in v[d].entries && v[d].entries[n] in v && d in w.paths
  {
    var c := v[d].entries[n];
    var path := JoinPath(w.paths[d], n);
    var w1 :=
      if v[c].Directory? then w.(paths := w.paths[c := path])
      else if |v[c].links| > 1 then
        w.(named := w.named[c := if c in w.named then w.named[c] + [path] else [path]])
      else w;
    if c in w.seen then w1.(visited := w.visited + {Link(d, n)})
    else w1.(seen := w.seen + {c}, order := w.order + [c], visited := w.visited + {Link(d, n)})
  }

  /** What consistency says about one entry of a live directory. */
  ghost predicate Edge(v: Volume, d: Ino, n: Name, c: Ino) {
    && d in v && v[d].Directory? && n in v[d].entries && v[d].entries[n] == c && c in v && c != ROOT && Reached(v, c)
    && (if v[c].Directory? then v[c].parent == d && v[c].name == n else Link(d, n) in v[c].links)
    && Link(d, n) in AllEntries(v)
  }

  lemma EdgeOf(v: Volume, d: Ino, n: Name)
    requires WellFormed(v) && Live(v, d) && d in v && v[d].Directory? && n in v[d].entries
    ensures var c := v[d].entries[n]; Edge(v, d, n, c) && (v[c].Directory? ==> Live(v, c) && Names(v, c) == Names(v, d) + [n])
  {
    ChildReached(v, d, n);
    var c := v[d].entries[n];
    assert EntryOk(v, d, n, c);
  }

  lemma VisitOrder(v: Volume, w: Walk, d: Ino, n: Name, c: Ino)
    requires OrderOk(v, w) && ParentsFirst(v, w.order) && Edge(v, d, n, c) && d in w.paths && d in w.seen
    ensures OrderOk(v, Visit(v, w, d, n)) && ParentsFirst(v, Visit(v, w, d, n).order)
  {
    hide Reached, Live, AllEntries;
    var next := Visit(v, w, d, n);
    if c !in w.seen {
      assert d in Elements(w.order);
      assert c !in Elements(w.order) && c !in w.order;
      assert Elements(next.order) == Elements(w.order) + {c};
      assert next.order[..|w.order|] == w.order;
      forall k | 0 <= k < |next.order| && next.order[k] in v && v[next.order[k]].Directory? && next.order[k] != ROOT
        ensures v[next.order[k]].parent in next.order[..k]
      {
        if k < |w.order| { assert next.order[..k] == w.order[..k]; }
      }
    }
  }

  lemma VisitPaths(v: Volume, w: Walk, d: Ino, n: Name, c: Ino)
    requires WellFormed(v) && OrderOk(v, w) && PathsOk(v, w) && Edge(v, d, n, c) && d in w.paths
    requires v[c].Directory? ==> Live(v, c) && Live(v, d) && Names(v, c) == Names(v, d) + [n]
    requires OrderOk(v, Visit(v, w, d, n))
    ensures PathsOk(v, Visit(v, w, d, n))
  {
    hide WellFormed, Live, Reached, OrderOk, AllEntries, Names;
    if v[c].Directory? { PathBytesSnoc(Names(v, d), n); }
  }

  lemma VisitVisited(v: Volume, w: Walk, d: Ino, n: Name, c: Ino)
    requires VisitedOk(v, w) && Edge(v, d, n, c) && d in w.paths && d in w.seen
    ensures VisitedOk(v, Visit(v, w, d, n))
  {
    hide Reached, Live, AllEntries;
    var next, l := Visit(v, w, d, n), Link(d, n);
    forall i | i in next.seen && i in v && !v[i].Directory?
      ensures exists m :: m in v[i].links && m in next.visited
    {
      if i in w.seen {
        var m :| m in v[i].links && m in w.visited;
        assert m in next.visited;
      } else {
        assert l in v[i].links && l in next.visited;
      }
    }
  }

  /** The recorded paths of a file, once one more of its links is looked at. */
  lemma VisitedPathsGrow(v: Volume, visited: set<Link>, l: Link, c: Ino)
    requires WellFormed(v) && c in v && !v[c].Directory? && l in v[c].links && l !in visited
    ensures LinkOk(v, c, l)
    ensures VisitedPaths(v, visited + {l}, c) == VisitedPaths(v, visited, c) + {PathBytes(LinkPath(v, l))}
    ensures PathBytes(LinkPath(v, l)) !in VisitedPaths(v, visited, c)
  {
    assert forall m :: m in v[c].links ==> LinkOk(v, c, m);
    hide WellFormed, LinkPath, PathBytes;
    forall m | m in v[c].links && m in visited ensures PathBytes(LinkPath(v, m)) != PathBytes(LinkPath(v, l)) {
      OtherPath(v, c, l, m);
    }
  }

  lemma VisitedPathsKept(v: Volume, visited: set<Link>, l: Link, f: Ino)
    requires WellFormed(v) && f in v && !v[f].Directory? && l !in v[f].links
    ensures VisitedPaths(v, visited + {l}, f) == VisitedPaths(v, visited, f)
  {
    assert forall m :: m in v[f].links ==> LinkOk(v, f, m);
    hide WellFormed, LinkPath, PathBytes;
  }

  lemma OtherPath(v: Volume, f: Ino, l: Link, m: Link)
    requires WellFormed(v) && f in v && !v[f].Directory? && l in v[f].links && m in v[f].links && l != m
    ensures LinkOk(v, f, l) && LinkOk(v, f, m)
    ensures PathBytes(LinkPath(v, l)) != PathBytes(LinkPath(v, m))
  {
    LinkLookup(v, f, l);
    LinkLookup(v, f, m);
    LookupGood(v, LinkPath(v, l));
    LookupGood(v, LinkPath(v, m));
    if PathBytes(LinkPath(v, l)) == PathBytes(LinkPath(v, m)) {
      PathBytesInjective(LinkPath(v, l), LinkPath(v, m));
      LinkPathInjective(v, l, m);
    }
  }

  /** A link leads to one file. */
  lemma OneFilePerLink(v: Volume, l: Link, f: Ino, c: Ino)
    requires WellFormed(v) && f in v && !v[f].Directory? && l in v[f].links && Edge(v, l.parent, l.name, c)
    ensures f == c
  {
    assert LinkOk(v, f, l);
  }

  lemma VisitNamed(v: Volume, w: Walk, d: Ino, n: Name, c: Ino)
    requires WellFormed(v) && NamedOk(v, w) && Edge(v, d, n, c) && d in w.paths && Live(v, d)
    requires w.paths[d] == PathBytes(Names(v, d)) && Link(d, n) !in w.visited
    ensures NamedOk(v, Visit(v, w, d, n))
  {
    hide WellFormed, Live, Reached, AllEntries, Names, VisitedPaths;
    var next, l := Visit(v, w, d, n), Link(d, n);
    PathBytesSnoc(Names(v, d), n);
    var path := JoinPath(w.paths[d], n);
    forall f | f in v && !v[f].Directory? && f != c
      ensures l !in v[f].links && VisitedPaths(v, next.visited, f) == VisitedPaths(v, w.visited, f)
    {
      if l in v[f].links { OneFilePerLink(v, l, f, c); }
      VisitedPathsKept(v, w.visited, l, f);
    }
    if MultiplyLinked(v, c) {
      VisitedPathsGrow(v, w.visited, l, c);
      assert path == PathBytes(LinkPath(v, l));
      if c in w.named {
        assert path !in Elements(w.named[c]);
        assert Elements(next.named[c]) == Elements(w.named[c]) + {path};
      } else {
        NoneVisited(v, w.visited, c);
        assert Elements(next.named[c]) == {path};
      }
    }
  }

  lemma NoneVisited(v: Volume, visited: set<Link>, f: Ino)
    requires WellFormed(v) && f in v && !v[f].Directory? && forall l :: l in v[f].links ==> l !in visited
    ensures VisitedPaths(v, visited, f) == {}
  {
  }

  lemma VisitOk(v: Volume, w: Walk, d: Ino, n: Name)
    requires WellFormed(v) && WalkOk(v, w) && d in w.paths && d in v && v[d].Directory? && n in v[d].entries
    requires Link(d, n) !in w.visited
    ensures v[d].entries[n] in v && WalkOk(v, Visit(v, w, d, n)) && w.order <= Visit(v, w, d, n).order
    ensures Link(d, n) in AllEntries(v)
  {
    hide WellFormed, VisitedOk, NamedOk, ParentsFirst, Live, Reached, AllEntries;
    EdgeOf(v, d, n);
    var c := v[d].entries[n];
    VisitOrder(v, w, d, n, c);
    VisitPaths(v, w, d, n, c);
    VisitVisited(v, w, d, n, c);
    VisitNamed(v, w, d, n, c);
  }

  // ---------------------------------------------------------------- a finished walk

  /** Every directory among the first `k` has all its entries looked at. */
  ghost predicate Swept(v: Volume, w: Walk, k: nat)
    requires k <= |w.order|
  {
    forall i, n :: 0 <= i < k && w.order[i] in v && v[w.order[i]].Directory? && n in v[w.order[i]].entries ==>
                     Link(w.order[i], n) in w.visited
  }

  lemma {:induction false} AllDirectoriesSeen(v: Volume, w: Walk, d: Ino)
    requires WellFormed(v) && WalkOk(v, w) && Swept(v, w, |w.order|) && Live(v, d)
    ensures d in w.seen
    decreases Depth(Up(v), d)
  {
    if d == ROOT {
      assert w.order[0] in Elements(w.order);
    } else {
      LiveParent(v, d);
      AllDirectoriesSeen(v, w, v[d].parent);
      SweptEntry(v, w, v[d].parent, v[d].name);
    }
  }

  lemma SweptEntry(v: Volume, w: Walk, d: Ino, n: Name)
    requires WellFormed(v) && WalkOk(v, w) && Swept(v, w, |w.order|)
    requires d in w.seen && d in v && v[d].Directory? && n in v[d].entries
    ensures Link(d, n) in w.visited && v[d].entries[n] in w.seen
  {
    assert d in Elements(w.order);
    var i :| 0 <= i < |w.order| && w.order[i] == d;
    assert Link(w.order[i], n) in w.visited;
  }

  lemma AllLinksVisited(v: Volume, w: Walk, f: Ino, l: Link)
    requires WellFormed(v) && WalkOk(v, w) && Swept(v, w, |w.order|)
    requires f in v && !v[f].Directory? && l in v[f].links
    ensures l in w.visited && f in w.seen
  {
    assert LinkOk(v, f, l);
    hide WellFormed;
    AllDirectoriesSeen(v, w, l.parent);
    SweptEntry(v, w, l.parent, l.name);
  }

  lemma SeenIsReached(v: Volume, w: Walk)
    requires WellFormed(v) && WalkOk(v, w) && Swept(v, w, |w.order|)
    ensures w.seen == ReachedSet(v) && |w.order| == |w.seen|
  {
    hide WellFormed, PathsOk, VisitedOk, NamedOk, Swept, Live;
    forall i | i in ReachedSet(v) ensures i in w.seen {
      if v[i].Directory? {
        AllDirectoriesSeen(v, w, i);
      } else {
        AllLinksVisited(v, w, i, v[i].links[0]);
      }
    }
    DistinctCount(w.order);
  }

  lemma VisitedIsAll(v: Volume, w: Walk)
    requires WellFormed(v) && WalkOk(v, w) && Swept(v, w, |w.order|)
    ensures w.visited == AllEntries(v)
  {
    hide WellFormed, PathsOk, OrderOk, NamedOk, Swept, Live;
    forall l | l in AllEntries(v) ensures l in w.visited {
      AllDirectoriesSeen(v, w, l.parent);
      SweptEntry(v, w, l.parent, l.name);
    }
  }

  lemma NamedIsGroups(v: Volume, w: Walk)
    requires WellFormed(v) && WalkOk(v, w) && Swept(v, w, |w.order|)
    ensures w.named.Keys == set f | f in v && MultiplyLinked(v, f)
    ensures forall f :: f in w.named ==> f in v && !v[f].Directory? && Elements(w.named[f]) == FilePaths(v, f)
  {
    hide WellFormed, PathsOk, OrderOk, VisitedOk, Swept, Live;
    forall f | f in v && MultiplyLinked(v, f)
      ensures f in w.named && VisitedPaths(v, w.visited, f) == FilePaths(v, f)
    {
      forall l | l in v[f].links ensures l in w.visited { AllLinksVisited(v, w, f, l); }
      assert v[f].links[0] in v[f].links;
    }
  }
}
