/**
 * What a confined watch tells, said by names instead of hex strings: which names of its target it sees, which events
 * lie in their scope, and under which path below the innermost root an event is told.
 */
module WatchScope {
  import opened Basics
  import opened Forest
  import opened Volumes
  import opened HexPaths
  import opened CallerWatch

  // ---------------------------------------------------------------- the names a watch sees

  /** The chain is confined, and one of the target's names lies inside its innermost root. */
  ghost predicate Admits(s: Installed, chain: seq<Ino>, target: Ino)
    requires Consistent(s)
  {
    && AllLive(s, chain) && Confined(s, chain, [])
    && exists a :: Lookup(s.v, ROOT, a) == Some(target) && Innermost(s, chain) <= a
  }

  /** `p` is the path that the selection names. */
  ghost predicate IsSelected(s: Installed, selection: Link, p: Path)
    requires Consistent(s)
  {
    Live(s.v, selection.parent) && PathBytes(p) == PathBytes(Names(s.v, selection.parent) + [selection.name])
  }

  /** A name of the target inside the innermost root, the selected one if one is, that no other confinement shuts out. */
  ghost predicate Sees(w: CallerWatcher, s: Installed, selection: Option<Link>, p: Path)
    requires Consistent(s) && AllLive(s, w.roots)
  {
    && Lookup(s.v, ROOT, p) == Some(w.target) && Innermost(s, w.roots) <= p
    && (selection.Some? ==> IsSelected(s, selection.value, p))
    && forall k :: 0 <= k < |w.additionalRoots| ==> Admits(s, w.additionalRoots[k], w.target)
  }

  lemma {:induction false} SelectedMeans(aliases: seq<string>, root: string, all: bool, only: Option<string>, x: string)
    ensures x in Selected(aliases, root, all, only) <==> x in aliases && Below(x, root) && (all || Some(x) == only)
    decreases |aliases|
  {
    hide Below;
    if aliases != [] { SelectedMeans(aliases[1..], root, all, only, x); }
  }

  lemma HexSame(p: Path, q: Path)
    ensures HexPath(p) == HexPath(q) <==> PathBytes(p) == PathBytes(q)
  {
    if HexPath(p) == HexPath(q) { HexInjective(PathBytes(p), PathBytes(q)); }
  }

  lemma InnermostIsGood(s: Installed, chain: seq<Ino>)
    requires Consistent(s) && AllLive(s, chain)
    ensures GoodPath(Innermost(s, chain))
  {
    if chain != [] { NamesGood(s.v, chain[|chain| - 1]); }
  }

  /** A path of the target, by its names. */
  lemma AliasMeans(s: Installed, t: Ino, p: Path)
    requires Consistent(s) && GoodPath(p)
    ensures HexPath(p) in AliasesOf(s, t) <==> Lookup(s.v, ROOT, p) == Some(t)
  {
    AliasesAreLookups(s, t, HexPath(p));
    hide AliasesOf, WellFormed;
    if HexPath(p) in AliasesOf(s, t) {
      var q :| Lookup(s.v, ROOT, q) == Some(t) && HexPath(p) == HexPath(q);
      LookupGood(s.v, q);
      BelowIsPrefix(p, q);
    }
  }

  lemma AdmitsMeans(w: CallerWatcher, s: Installed, chain: seq<Ino>)
    requires Consistent(s) && AllLive(s, chain)
    ensures w.AnyBelow(AliasesOf(s, w.target), HexPath(Innermost(s, chain))) <==>
            exists a :: Lookup(s.v, ROOT, a) == Some(w.target) && Innermost(s, chain) <= a
  {
    InnermostIsGood(s, chain);
    var aliases, inner := AliasesOf(s, w.target), Innermost(s, chain);
    hide AliasesOf, Innermost, WellFormed, GoodPath;
    if w.AnyBelow(aliases, HexPath(inner)) {
      var x :| x in aliases && Below(x, HexPath(inner));
      AliasesAreLookups(s, w.target, x);
      var a :| Lookup(s.v, ROOT, a) == Some(w.target) && x == HexPath(a);
      LookupGood(s.v, a);
      BelowIsPrefix(inner, a);
    }
    if a :| Lookup(s.v, ROOT, a) == Some(w.target) && inner <= a {
      LookupGood(s.v, a);
      AliasMeans(s, w.target, a);
      BelowIsPrefix(inner, a);
      assert HexPath(a) in aliases && Below(HexPath(a), HexPath(inner));
    }
  }

  lemma BoundedMeans(w: CallerWatcher, s: Installed)
    requires Consistent(s)
    ensures w.Bounded(s, |w.additionalRoots|) <==>
            forall k :: 0 <= k < |w.additionalRoots| ==> Admits(s, w.additionalRoots[k], w.target)
  {
    hide AliasesOf, CallerWatcher.AnyBelow, Confined, Innermost, WellFormed, Consistent;
    forall k | 0 <= k < |w.additionalRoots| && AllLive(s, w.additionalRoots[k])
      ensures w.AnyBelow(AliasesOf(s, w.target), HexPath(Innermost(s, w.additionalRoots[k]))) <==>
              exists a :: Lookup(s.v, ROOT, a) == Some(w.target) && Innermost(s, w.additionalRoots[k]) <= a
    {
      AdmitsMeans(w, s, w.additionalRoots[k]);
    }
    if w.Bounded(s, |w.additionalRoots|) {
      forall k | 0 <= k < |w.additionalRoots| ensures Admits(s, w.additionalRoots[k], w.target) {
        assert AllLive(s, w.additionalRoots[k]);
      }
    }
  }

  lemma SelectionMeans(s: Installed, selection: Link, p: Path)
    requires Consistent(s)
    ensures EntryPathOf(s, selection) == Some(HexPath(p)) <==> IsSelected(s, selection, p)
  {
    if Live(s.v, selection.parent) { HexSame(p, Names(s.v, selection.parent) + [selection.name]); }
  }

  /** Main result: the hex strings a watch sees are exactly the names it is meant to see. */
  lemma VisibleMeans(w: CallerWatcher, s: Installed, selection: Option<Link>, p: Path)
    requires Consistent(s) && AllLive(s, w.roots) && GoodPath(p)
    ensures HexPath(p) in w.VisibleOf(s, HexPath(Innermost(s, w.roots)), selection) <==> Sees(w, s, selection, p)
  {
    var inner := Innermost(s, w.roots);
    InnermostIsGood(s, w.roots);
    BoundedMeans(w, s);
    AliasMeans(s, w.target, p);
    BelowIsPrefix(inner, p);
    if selection.Some? { SelectionMeans(s, selection.value, p); }
    SelectedMeans(AliasesOf(s, w.target), HexPath(inner), selection.None?,
                  if selection.Some? then EntryPathOf(s, selection.value) else None, HexPath(p));
    hide AliasesOf, Selected, Innermost, Below, CallerWatcher.Bounded, Admits, Lookup, GoodPath, HexPath, PathBytes,
         WellFormed, Live, IsSelected, EntryPathOf;
  }

  // ---------------------------------------------------------------- what is told of an event

  /** The entry an event names, if its directory has a path. */
  ghost predicate Entry(s: Installed, e: Event, q: Path)
    requires Consistent(s)
  {
    Live(s.v, e.parent) && q == if EventName(e) == [] then [] else Names(s.v, e.parent) + [EventName(e)]
  }

  /** The path of the watch's own target: the directory's own, or the event's entry; the selected one if one is. */
  ghost predicate OwnPath(w: CallerWatcher, s: Installed, selection: Option<Link>, e: Event, q: Path)
    requires Consistent(s)
  {
    && (if w.target in s.v && s.v[w.target].Directory? then Live(s.v, w.target) && q == Names(s.v, w.target)
        else Entry(s, e, q))
    && (selection.Some? ==> IsSelected(s, selection.value, q))
  }

  /** Something in the scope of a name the watch sees: below it, or for a shallow watch directly in it. */
  ghost predicate ScopePath(w: CallerWatcher, s: Installed, selection: Option<Link>, e: Event, q: Path)
    requires Consistent(s) && AllLive(s, w.roots)
  {
    && Entry(s, e, q)
    && exists p :: GoodPath(p) && Sees(w, s, selection, p) && p <= q && (w.recursive || p == Names(s.v, e.parent))
  }

  /** The name of an event that brings none is what follows the last slash of its path. */
  lemma {:induction false} LastNameMeans(path: bytes)
    ensures var n := LastName(path);
            && SLASH !in n && |n| <= |path| && path[|path| - |n|..] == n
            && (|n| == |path| || path[|path| - |n| - 1] == SLASH)
    decreases |path|
  {
    if path != [] && path[|path| - 1] != SLASH {
      var front := path[..|path| - 1];
      LastNameMeans(front);
      assert path == front + [path[|path| - 1]];
    }
  }

  lemma EntryIs(s: Installed, e: Event, q: Path)
    requires Consistent(s) && EventOk(e) && Entry(s, e, q)
    ensures GoodPath(q) && EntryPathOf(s, Link(e.parent, EventName(e))) == Some(HexPath(q))
  {
    NamesGood(s.v, e.parent);
    if EventName(e) == [] {
      RootEntryIn(s);
    } else {
      GoodParts(Names(s.v, e.parent), [EventName(e)]);
    }
    hide HexPath, Live, WellFormed;
  }

  lemma EntryThere(s: Installed, e: Event) returns (q: Path)
    requires Consistent(s) && EntryPathOf(s, Link(e.parent, EventName(e))).Some?
    ensures Entry(s, e, q)
  {
    q := if EventName(e) == [] then [] else Names(s.v, e.parent) + [EventName(e)];
  }

  lemma ScopeMeans(w: CallerWatcher, s: Installed, selection: Option<Link>, e: Event, q: Path)
    requires Consistent(s) && AllLive(s, w.roots) && EventOk(e) && Entry(s, e, q)
    ensures ScopePath(w, s, selection, e, q) <==>
            exists scope :: scope in w.VisibleOf(s, HexPath(Innermost(s, w.roots)), selection)
                            && w.InScope(HexPath(q), scope, DirectoryPathOf(s, e.parent))
  {
    EntryIs(s, e, q);
    NamesGood(s.v, e.parent);
    var root, parent := HexPath(Innermost(s, w.roots)), Names(s.v, e.parent);
    assert DirectoryPathOf(s, e.parent) == Some(HexPath(parent));
    hide HexPath, Live, WellFormed, Names, Innermost, Below, Sees, CallerWatcher.VisibleOf, Entry, Lookup, Consistent;
    if ScopePath(w, s, selection, e, q) {
      var p :| GoodPath(p) && Sees(w, s, selection, p) && p <= q && (w.recursive || p == parent);
      VisibleMeans(w, s, selection, p);
      BelowIsPrefix(p, q);
      assert w.InScope(HexPath(q), HexPath(p), Some(HexPath(parent)));
    }
    if scope :| scope in w.VisibleOf(s, root, selection) && w.InScope(HexPath(q), scope, Some(HexPath(parent))) {
      var p := SeenName(w, s, root, selection, scope);
      VisibleMeans(w, s, selection, p);
      BelowIsPrefix(p, q);
      BelowIsPrefix(p, parent);
    }
  }

  /** A hex string that a watch sees is a path. */
  lemma SeenName(w: CallerWatcher, s: Installed, root: string, selection: Option<Link>, x: string) returns (p: Path)
    requires Consistent(s) && x in w.VisibleOf(s, root, selection)
    ensures GoodPath(p) && x == HexPath(p)
  {
    w.VisibleBelow(s, root, selection);
    AliasesAreLookups(s, w.target, x);
    p :| Lookup(s.v, ROOT, p) == Some(w.target) && x == HexPath(p);
    LookupGood(s.v, p);
  }

  /** The state, root and selection that an event is told against: the ones before for a removal, else the ones after. */
  ghost predicate Covered(w: CallerWatcher, e: Event, s: Installed, selection: Option<Link>, q: Path)
    requires Consistent(s) && AllLive(s, w.roots)
    reads w
  {
    if e.ino == w.target then !(e.tag == Remove && w.terminal.Some?) && OwnPath(w, s, selection, e, q)
    else ScopePath(w, s, selection, e, q)
  }

  lemma OwnIs(w: CallerWatcher, s: Installed, selection: Option<Link>, e: Event, q: Path)
    requires Consistent(s) && EventOk(e) && OwnPath(w, s, selection, e, q)
    ensures GoodPath(q)
    ensures Some(HexPath(q)) == if w.target in s.v && s.v[w.target].Directory? then DirectoryPathOf(s, w.target)
                                else EntryPathOf(s, Link(e.parent, EventName(e)))
    ensures selection.Some? ==> EntryPathOf(s, selection.value) == Some(HexPath(q))
  {
    if w.target in s.v && s.v[w.target].Directory? { NamesGood(s.v, w.target); } else { EntryIs(s, e, q); }
    if selection.Some? { SelectionMeans(s, selection.value, q); }
    hide HexPath, Live, WellFormed, Names, IsSelected, EntryPathOf;
  }

  /** A covered event is told by the hex of its path. */
  lemma CoveredTells(w: CallerWatcher, e: Event, s: Installed, selection: Option<Link>, q: Path)
    requires Consistent(s) && AllLive(s, w.roots) && EventOk(e) && Covered(w, e, s, selection, q)
    ensures GoodPath(q) && w.Covers(e, s, HexPath(Innermost(s, w.roots)), selection, Some(HexPath(q)))
  {
    hide HexPath, Live, WellFormed, Names, Innermost, Below, Sees, CallerWatcher.VisibleOf, Lookup, IsSelected, Consistent,
         CallerWatcher.InScope, EntryPathOf, DirectoryPathOf;
    if e.ino == w.target {
      OwnIs(w, s, selection, e, q);
    } else {
      EntryIs(s, e, q);
      ScopeMeans(w, s, selection, e, q);
    }
  }

  lemma OwnThere(w: CallerWatcher, s: Installed, selection: Option<Link>, e: Event, x: string) returns (q: Path)
    requires Consistent(s) && EventOk(e)
    requires Some(x) == if w.target in s.v && s.v[w.target].Directory? then DirectoryPathOf(s, w.target)
                        else EntryPathOf(s, Link(e.parent, EventName(e)))
    requires selection.Some? ==> EntryPathOf(s, selection.value) == Some(x)
    ensures OwnPath(w, s, selection, e, q) && x == HexPath(q)
  {
    if w.target in s.v && s.v[w.target].Directory? {
      q := Names(s.v, w.target);
    } else {
      q := EntryThere(s, e);
      EntryIs(s, e, q);
    }
    if selection.Some? { SelectionMeans(s, selection.value, q); }
    hide HexPath, Live, WellFormed, Names, IsSelected;
  }

  /** What is told by some path is covered under it. */
  lemma ToldIsCovered(w: CallerWatcher, e: Event, s: Installed, selection: Option<Link>, path: Option<string>)
    returns (q: Path)
    requires Consistent(s) && AllLive(s, w.roots) && EventOk(e)
    requires w.Covers(e, s, HexPath(Innermost(s, w.roots)), selection, path)
    ensures Covered(w, e, s, selection, q) && path == Some(HexPath(q))
  {
    hide HexPath, Live, WellFormed, Names, Innermost, Below, Sees, CallerWatcher.VisibleOf, Lookup, IsSelected, Consistent,
         CallerWatcher.InScope, EntryPathOf, DirectoryPathOf, OwnPath, ScopePath, Entry;
    if e.ino == w.target {
      q := OwnThere(w, s, selection, e, path.value);
    } else {
      q := EntryThere(s, e);
      EntryIs(s, e, q);
      ScopeMeans(w, s, selection, e, q);
    }
  }

  // ---------------------------------------------------------------- the main results

  /** An object comes in under a name of the target that the watch saw before. */
  ghost predicate TakesName(w: CallerWatcher, e: Event, before: Installed, q: Path)
    requires Consistent(before) && AllLive(before, w.roots)
    reads w
  {
    && w.terminal.None? && e.ino != w.target && e.tag == Create
    && e.parent in before.v && before.v[e.parent].Directory? && EventName(e) in before.v[e.parent].entries
    && before.v[e.parent].entries[EventName(e)] == w.target
    && Entry(before, e, q) && Sees(w, before, w.oldSelected, q)
  }

  lemma TakesNameMeans(w: CallerWatcher, e: Event, before: Installed)
    requires Consistent(before) && AllLive(before, w.roots) && EventOk(e)
    requires w.previousRoot == HexPath(Innermost(before, w.roots))
    ensures w.Replaces(e, before) <==> exists q :: TakesName(w, e, before, q)
    ensures forall q :: TakesName(w, e, before, q) ==>
                          GoodPath(q) && Innermost(before, w.roots) <= q
                          && EntryPathOf(before, Link(e.parent, EventName(e))) == Some(HexPath(q))
  {
    hide HexPath, Live, WellFormed, Names, Innermost, Below, CallerWatcher.VisibleOf, Lookup, IsSelected, Consistent, Admits,
         EntryPathOf, DirectoryPathOf, Entry;
    forall q | Entry(before, e, q)
      ensures GoodPath(q) && EntryPathOf(before, Link(e.parent, EventName(e))) == Some(HexPath(q))
      ensures HexPath(q) in w.VisibleOf(before, w.previousRoot, w.oldSelected) <==> Sees(w, before, w.oldSelected, q)
    {
      EntryIs(before, e, q);
      VisibleMeans(w, before, w.oldSelected, q);
    }
    if w.Replaces(e, before) {
      var q := EntryThere(before, e);
      assert TakesName(w, e, before, q);
    }
  }

  /** `q` is told as what is left of it below the innermost root. */
  ghost predicate ToldAs(e: Event, tag: Tag, ino: Ino, told: Event, root: Path, q: Path) {
    root <= q && told == Event(tag, PathBytes(q[|root|..]), e.parent, ino, e.name)
  }

  /** The path to tell a covered event by, rebased. */
  lemma RebasedIs(e: Event, tag: Tag, ino: Ino, root: Path, q: Path, w: CallerWatcher)
    requires GoodPath(root) && GoodPath(q) && root <= q
    ensures w.Rebasable(HexPath(q), HexPath(root))
    ensures ToldAs(e, tag, ino, w.Emitted(e, tag, ino, HexPath(q), HexPath(root)), root, q)
  {
    var rest := q[|root|..];
    assert q == root + rest;
    RebaseIsRest(root, rest);
    UnHexHex(PathBytes(rest));
  }

  /** Main result: when a name that the watch saw is taken, its removal is told. */
  lemma ReplacementMeans(w: CallerWatcher, e: Event, before: Installed, after: Installed, q: Path)
    requires Consistent(before) && Consistent(after) && EventOk(e) && w.failure.None? && w.PreparedFor(before, after)
    requires TakesName(w, e, before, q)
    ensures w.Projection(e, before, after).Some?
    ensures ToldAs(e, Remove, w.target, w.Projection(e, before, after).value, Innermost(before, w.roots), q)
  {
    TakesNameMeans(w, e, before);
    InnermostIsGood(before, w.roots);
    RebasedIs(e, Remove, w.target, Innermost(before, w.roots), q, w);
    hide HexPath, Live, WellFormed, Names, Innermost, Below, CallerWatcher.VisibleOf, Lookup, IsSelected, Consistent,
         EntryPathOf, DirectoryPathOf, Entry, ToldAs, CallerWatcher.Replaces, CallerWatcher.Covers;
  }

  /** What is told of an event that is told by `path`. */
  lemma ProjectionOf(w: CallerWatcher, e: Event, before: Installed, after: Installed, path: string)
    requires Consistent(before) && Consistent(after) && w.failure.None? && !w.Replaces(e, before)
    requires var root := if e.tag == Remove then w.previousRoot else w.currentRoot;
             w.TellsOf(e, before, after, Some(path)) && w.Rebasable(path, root)
    requires forall other :: w.TellsOf(e, before, after, other) ==> other == Some(path)
    ensures var root := if e.tag == Remove then w.previousRoot else w.currentRoot;
            w.Projection(e, before, after) == if w.OfRoot(e) then None else Some(w.Emitted(e, e.tag, e.ino, path, root))
  {
    hide Consistent, CallerWatcher.TellsOf, CallerWatcher.Replaces, CallerWatcher.Emitted, CallerWatcher.Rebasable,
         CallerWatcher.OfRoot;
  }

  /** What is told, is told by a path. */
  lemma ProjectionFrom(w: CallerWatcher, e: Event, before: Installed, after: Installed) returns (path: Option<string>)
    requires Consistent(before) && Consistent(after) && !w.Replaces(e, before)
    requires w.Projection(e, before, after).Some?
    ensures w.TellsOf(e, before, after, path) && !w.OfRoot(e)
  {
    hide Consistent, CallerWatcher.Covers, CallerWatcher.Replaces, CallerWatcher.Emitted, CallerWatcher.Rebasable, Below,
         EntryPathOf;
    path :| w.TellsOf(e, before, after, path);
  }

  /** A covered path inside the innermost root is the one path that the event is told by. */
  lemma TellsByPath(w: CallerWatcher, e: Event, before: Installed, after: Installed, q: Path)
    requires Consistent(before) && Consistent(after) && w.failure.None? && w.PreparedFor(before, after) && GoodPath(q)
    requires var s := if e.tag == Remove then before else after;
             var selection := if e.tag == Remove then w.oldSelected else w.selected;
             && w.Covers(e, s, HexPath(Innermost(s, w.roots)), selection, Some(HexPath(q)))
             && Innermost(s, w.roots) <= q
    ensures w.TellsOf(e, before, after, Some(HexPath(q)))
    ensures forall other :: w.TellsOf(e, before, after, other) ==> other == Some(HexPath(q))
  {
    var s := if e.tag == Remove then before else after;
    InnermostIsGood(s, w.roots);
    BelowIsPrefix(Innermost(s, w.roots), q);
    w.CoversOne(e, s, HexPath(Innermost(s, w.roots)), if e.tag == Remove then w.oldSelected else w.selected, Some(HexPath(q)));
    hide Consistent, CallerWatcher.Covers, Confined, Inside, Innermost, HexPath, Below, GoodPath, AllLive,
         CallerWatcher.RootsLive;
  }

  lemma PreparedRoot(w: CallerWatcher, e: Event, before: Installed, after: Installed)
    requires Consistent(before) && Consistent(after) && w.failure.None? && w.PreparedFor(before, after)
    ensures AllLive(before, w.roots) && AllLive(after, w.roots)
    ensures (if e.tag == Remove then w.previousRoot else w.currentRoot) ==
            HexPath(Innermost(if e.tag == Remove then before else after, w.roots))
  {
    hide Consistent, Confined, Inside, HexPath, Live, Innermost;
  }

  /** Covered under a path inside the innermost root, the event is told as what is left of the path. */
  lemma CoveredIsTold(w: CallerWatcher, e: Event, before: Installed, after: Installed, q: Path)
    requires Consistent(before) && Consistent(after) && EventOk(e) && w.failure.None? && w.PreparedFor(before, after)
    requires !w.Replaces(e, before) && AllLive(before, w.roots) && AllLive(after, w.roots)
    requires var s := if e.tag == Remove then before else after;
             && Covered(w, e, s, if e.tag == Remove then w.oldSelected else w.selected, q)
             && Innermost(s, w.roots) <= q
    ensures var s := if e.tag == Remove then before else after;
            var r := w.Projection(e, before, after);
            if w.OfRoot(e) then r.None? else r.Some? && ToldAs(e, e.tag, e.ino, r.value, Innermost(s, w.roots), q)
  {
    var s := if e.tag == Remove then before else after;
    var inner := Innermost(s, w.roots);
    hide *;
    PreparedRoot(w, e, before, after);
    InnermostIsGood(s, w.roots);
    CoveredTells(w, e, s, if e.tag == Remove then w.oldSelected else w.selected, q);
    TellsByPath(w, e, before, after, q);
    RebasedIs(e, e.tag, e.ino, inner, q, w);
    ProjectionOf(w, e, before, after, HexPath(q));
  }

  /** What is told is covered under a path inside the innermost root. */
  lemma ToldWasCovered(w: CallerWatcher, e: Event, before: Installed, after: Installed) returns (q: Path)
    requires Consistent(before) && Consistent(after) && EventOk(e) && w.failure.None? && w.PreparedFor(before, after)
    requires !w.Replaces(e, before) && AllLive(before, w.roots) && AllLive(after, w.roots)
    requires w.Projection(e, before, after).Some?
    ensures var s := if e.tag == Remove then before else after;
            && Covered(w, e, s, if e.tag == Remove then w.oldSelected else w.selected, q)
            && Innermost(s, w.roots) <= q && !w.OfRoot(e)
  {
    var s := if e.tag == Remove then before else after;
    var inner := Innermost(s, w.roots);
    hide *;
    PreparedRoot(w, e, before, after);
    InnermostIsGood(s, w.roots);
    var path := ProjectionFrom(w, e, before, after);
    TellsParts(w, e, before, after, path);
    q := ToldIsCovered(w, e, s, if e.tag == Remove then w.oldSelected else w.selected, path);
    CoveredTells(w, e, s, if e.tag == Remove then w.oldSelected else w.selected, q);
    BelowIsPrefix(inner, q);
  }

  lemma TellsParts(w: CallerWatcher, e: Event, before: Installed, after: Installed, path: Option<string>)
    requires Consistent(before) && Consistent(after) && w.TellsOf(e, before, after, path)
    ensures path.Some?
    ensures var root := if e.tag == Remove then w.previousRoot else w.currentRoot;
            && Below(path.value, root)
            && w.Covers(e, if e.tag == Remove then before else after, root,
                        if e.tag == Remove then w.oldSelected else w.selected, path)
  {
    hide Below, EntryPathOf, DirectoryPathOf, CallerWatcher.VisibleOf, Consistent, CallerWatcher.InScope;
  }

  /**
   * Main result: any other event is told exactly when it is covered under a path inside the innermost root and is not
   * an event of that root itself, updates excepted; it is told as what is left of the path below that root.
   */
  lemma ProjectionMeans(w: CallerWatcher, e: Event, before: Installed, after: Installed)
    requires Consistent(before) && Consistent(after) && EventOk(e) && w.failure.None? && w.PreparedFor(before, after)
    requires AllLive(before, w.roots) && AllLive(after, w.roots) && forall q :: !TakesName(w, e, before, q)
    ensures var s := if e.tag == Remove then before else after;
            var selection := if e.tag == Remove then w.oldSelected else w.selected;
            var r := w.Projection(e, before, after);
            && (r.Some? <==>
                  && !(w.roots != [] && e.ino == w.roots[|w.roots| - 1] && e.tag != Update)
                  && exists q :: Covered(w, e, s, selection, q) && Innermost(s, w.roots) <= q)
            && forall q :: r.Some? && Covered(w, e, s, selection, q) && Innermost(s, w.roots) <= q ==>
                             ToldAs(e, e.tag, e.ino, r.value, Innermost(s, w.roots), q)
  {
    var s := if e.tag == Remove then before else after;
    var selection := if e.tag == Remove then w.oldSelected else w.selected;
    PreparedIsBefore(w, before, after);
    TakesNameMeans(w, e, before);
    hide Live, Consistent, Innermost, CallerWatcher.Projection, Covered, ToldAs, CallerWatcher.Replaces, TakesName,
         CallerWatcher.PreparedFor, EventOk, AllLive;
    forall q | Covered(w, e, s, selection, q) && Innermost(s, w.roots) <= q
      ensures var r := w.Projection(e, before, after);
              if w.OfRoot(e) then r.None? else r.Some? && ToldAs(e, e.tag, e.ino, r.value, Innermost(s, w.roots), q)
    {
      CoveredIsTold(w, e, before, after, q);
    }
    if w.Projection(e, before, after).Some? { var q := ToldWasCovered(w, e, before, after); }
  }

  lemma PreparedIsBefore(w: CallerWatcher, before: Installed, after: Installed)
    requires Consistent(before) && Consistent(after) && w.failure.None? && w.PreparedFor(before, after)
    ensures AllLive(before, w.roots) && w.previousRoot == HexPath(Innermost(before, w.roots))
  {
    hide Consistent, Confined, Inside, HexPath, Live, Innermost;
  }
}
