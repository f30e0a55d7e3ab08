/**
 * A caller's watch (`make` in `internal/callerWatch.ts`): events are selected and renamed to paths under the innermost
 * confinement root. Every event it passes on lies inside that root; the removals it ends with did before.
 */
module CallerWatch {
  import opened Basics
  import opened Forest
  import opened Volumes
  import opened HexPaths

  /** An installed state: the volume, and the inodes whose link count is zero. */
  datatype Installed = Installed(v: Volume, gone: set<Ino>)

  /** Link counts of a consistent state: directories no path reaches and files without names are gone. */
  ghost predicate Consistent(s: Installed) {
    && WellFormed(s.v)
    && (forall d :: d in s.v && s.v[d].Directory? ==> (d in s.gone <==> !Live(s.v, d)))
    && (forall f :: f in s.v && !s.v[f].Directory? ==> (f in s.gone <==> s.v[f].links == []))
  }

  datatype WatchFailure = ClosedCaller | AccessDenied

  // ---------------------------------------------------------------- paths of nodes

  ghost function DirectoryPathOf(s: Installed, d: Ino): Option<string>
    requires Consistent(s)
  {
    if Live(s.v, d) then Some(HexPath(Names(s.v, d))) else None
  }

  function Joined(names: seq<Name>): string {
    if names == [] then "" else if |names| == 1 then Hex(names[0]) else Hex(names[0]) + SLASH_HEX + Joined(names[1..])
  }

  lemma JoinedStep(names: seq<Name>)
    requires |names| > 1
    ensures SLASH_HEX + Joined(names) == SLASH_HEX + Hex(names[0]) + (SLASH_HEX + Joined(names[1..]))
  {
    hide Hex;
    Regroup(SLASH_HEX, Hex(names[0]), Joined(names[1..]));
  }

  lemma Regroup(a: string, b: string, c: string)
    ensures a + (b + a + c) == a + b + (a + c)
  {
  }

  /** The first name of a path, with the slash before it. */
  lemma FirstName(n: Name)
    ensures HexPath([n]) == SLASH_HEX + Hex(n)
  {
    SlashHex();
    assert PathBytes([]) == [SLASH] && [n] == [] + [n];
    PathBytesSnoc([], n);
    HexAppend([SLASH], n);
  }

  /** `SLASH_HEX + names.join(SLASH_HEX)`. */
  lemma {:induction false} JoinedIsPath(names: seq<Name>)
    requires GoodPath(names)
    ensures SLASH_HEX + Joined(names) == HexPath(names)
    decreases |names|
  {
    hide Hex, PathBytes, GoodPath;
    if names == [] {
      RootPathHex();
      assert SLASH_HEX + "" == SLASH_HEX;
    } else if |names| == 1 {
      FirstName(names[0]);
      assert names == [names[0]];
    } else {
      var first, rest := [names[0]], names[1..];
      assert names == first + rest;
      GoodParts(first, rest);
      JoinedIsPath(rest);
      PathBytesSplit(first, rest);
      FirstName(names[0]);
      HexAppend(PathBytes(first), PathBytes(rest));
      JoinedStep(names);
    }
  }

  function Reverse(names: seq<Name>): seq<Name> {
    if names == [] then [] else [names[|names| - 1]] + Reverse(names[..|names| - 1])
  }

  lemma ReverseSnoc(names: seq<Name>, n: Name)
    ensures Reverse(names + [n]) == [n] + Reverse(names)
  {
    assert (names + [n])[..|names|] == names;
  }

  /** One step of the climb: a live directory that is not the root hands over to its parent. */
  lemma ClimbOnce(v: Volume, at: Ino)
    requires WellFormed(v) && Live(v, at)
    ensures at in v && v[at].Directory?
    ensures at != ROOT ==>
              && Live(v, v[at].parent) && Depth(Up(v), v[at].parent) < Depth(Up(v), at)
              && Names(v, at) == Names(v, v[at].parent) + [v[at].name]
    ensures at == ROOT ==> Names(v, at) == []
  {
    if at != ROOT { LiveParent(v, at); }
  }

  /** `directoryPath`: climb to the root, noting names; nothing for a directory no path reaches. */
  method DirectoryPath(s: Installed, ino: Ino) returns (r: Option<string>)
    requires Consistent(s)
    ensures r == DirectoryPathOf(s, ino)
  {
    hide WellFormed, Attached, Names, PathBytes, Hex, Joined, Reverse;
    var names: seq<Name>, visited: set<Ino>, at := [], {}, ino;
    if Live(s.v, ino) { NamesGood(s.v, ino); ReverseNone(Names(s.v, ino)); }
    while true
      invariant Live(s.v, ino) ==>
                  && Live(s.v, at) && Names(s.v, ino) == Names(s.v, at) + Reverse(names)
                  && (forall x :: x in visited ==> Live(s.v, x) && Depth(Up(s.v), at) < Depth(Up(s.v), x))
      invariant !Live(s.v, ino) ==> at == ino && visited == {}
      decreases if Live(s.v, at) then Depth(Up(s.v), at) else 0
    {
      if at in visited { return None; }
      if Live(s.v, at) { ClimbOnce(s.v, at); }
      visited := visited + {at};
      if at !in s.v || !s.v[at].Directory? || at in s.gone { return None; }
      if at == ROOT {
        assert [] + Reverse(names) == Reverse(names);
        JoinedIsPath(Reverse(names));
        return Some(SLASH_HEX + Joined(Reverse(names)));
      }
      ReverseSnoc(names, s.v[at].name);
      ghost var up := Names(s.v, s.v[at].parent);
      assert up + [s.v[at].name] + Reverse(names) == up + ([s.v[at].name] + Reverse(names));
      names := names + [s.v[at].name];
      at := s.v[at].parent;
    }
  }

  lemma ReverseNone(p: Path)
    ensures p == p + Reverse([])
  {
  }

  ghost function EntryPathOf(s: Installed, l: Link): Option<string>
    requires Consistent(s)
  {
    if Live(s.v, l.parent) then Some(HexPath(Names(s.v, l.parent) + [l.name])) else None
  }

  lemma EntryPathJoins(p: Path, n: Name)
    requires GoodPath(p)
    ensures HexPath(p + [n]) == HexPath(p) + (if HexPath(p) == SLASH_HEX then "" else SLASH_HEX) + Hex(n)
  {
    BelowIsPrefix(p, p);
    PathBytesSnoc(p, n);
    PathBytesShape(p);
    SlashHex();
    if p == [] {
      HexAppend(PathBytes(p), n);
    } else {
      HexAppend(PathBytes(p) + [SLASH], n);
      HexAppend(PathBytes(p), [SLASH]);
    }
    hide Hex, PathBytes, GoodPath;
  }

  /** `entryPath`. */
  method EntryPath(s: Installed, l: Link) returns (r: Option<string>)
    requires Consistent(s)
    ensures r == EntryPathOf(s, l)
  {
    hide WellFormed, Live, Names, PathBytes, Hex;
    var parent := DirectoryPath(s, l.parent);
    if parent.None? { return None; }
    NamesGood(s.v, l.parent);
    EntryPathJoins(Names(s.v, l.parent), l.name);
    assert HexPath(Names(s.v, l.parent)) + "" == HexPath(Names(s.v, l.parent));
    return Some(parent.value + (if parent.value == SLASH_HEX then "" else SLASH_HEX) + Hex(l.name));
  }

  /** The paths a node goes by. */
  ghost function AliasesOf(s: Installed, t: Ino): seq<string>
    requires Consistent(s)
  {
    if t !in s.v then []
    else if s.v[t].Directory? then if Live(s.v, t) then [HexPath(Names(s.v, t))] else []
    else LinkPaths(s, t, |s.v[t].links|)
  }

  ghost function LinkPaths(s: Installed, t: Ino, k: nat): seq<string>
    requires Consistent(s) && t in s.v && !s.v[t].Directory? && k <= |s.v[t].links|
  {
    if k == 0 then []
    else
      LinkHangs(s.v, t, k - 1);
      LinkPaths(s, t, k - 1) + [HexPath(LinkPath(s.v, s.v[t].links[k - 1]))]
  }

  lemma LinkHangs(v: Volume, t: Ino, k: nat)
    requires WellFormed(v) && t in v && !v[t].Directory? && k < |v[t].links|
    ensures LinkOk(v, t, v[t].links[k]) && Live(v, v[t].links[k].parent)
  {
    assert v[t].links[k] in v[t].links;
  }

  /** `paths`. */
  method Paths(s: Installed, t: Ino) returns (r: seq<string>)
    requires Consistent(s)
    ensures r == AliasesOf(s, t)
  {
    hide WellFormed, Live, Names, PathBytes, Hex;
    if t !in s.v || t in s.gone { return []; }
    if s.v[t].Directory? {
      var path := DirectoryPath(s, t);
      return if path.None? then [] else [path.value];
    }
    r := [];
    for k := 0 to |s.v[t].links|
      invariant r == LinkPaths(s, t, k)
    {
      var link := s.v[t].links[k];
      LinkHangs(s.v, t, k);
      var path := EntryPath(s, link);
      if link.parent in s.v && s.v[link.parent].Directory? && link.name in s.v[link.parent].entries
         && s.v[link.parent].entries[link.name] == t {
        r := r + [path.value];
      }
    }
  }

  /** The aliases of a node are exactly the paths that lead to it. */
  lemma AliasesAreLookups(s: Installed, t: Ino, x: string)
    requires Consistent(s)
    ensures x in AliasesOf(s, t) <==> exists p :: Lookup(s.v, ROOT, p) == Some(t) && x == HexPath(p)
  {
    hide Hex, PathBytes, Live, Names, Lookup;
    if x in AliasesOf(s, t) {
      if s.v[t].Directory? {
        NamesLookup(s.v, t);
      } else {
        var k := LinkAmong(s, t, |s.v[t].links|, x);
        var l := s.v[t].links[k];
        LinkHangs(s.v, t, k);
        assert l in s.v[t].links;
        LinkLookup(s.v, t, l);
      }
    }
    if exists p :: Lookup(s.v, ROOT, p) == Some(t) && x == HexPath(p) {
      var p :| Lookup(s.v, ROOT, p) == Some(t) && x == HexPath(p);
      LookupBack(s.v, p);
      if !s.v[t].Directory? {
        var l :| l in s.v[t].links && Live(s.v, l.parent) && p == LinkPath(s.v, l);
        var k :| 0 <= k < |s.v[t].links| && s.v[t].links[k] == l;
        AmongLinks(s, t, |s.v[t].links|, k);
      }
    }
  }

  lemma {:induction false} LinkAmong(s: Installed, t: Ino, n: nat, x: string) returns (k: nat)
    requires Consistent(s) && t in s.v && !s.v[t].Directory? && n <= |s.v[t].links| && x in LinkPaths(s, t, n)
    ensures k < n && Live(s.v, s.v[t].links[k].parent) && x == HexPath(LinkPath(s.v, s.v[t].links[k]))
    decreases n
  {
    hide WellFormed, Hex, PathBytes, Names, Live;
    LinkHangs(s.v, t, n - 1);
    if x in LinkPaths(s, t, n - 1) {
      k := LinkAmong(s, t, n - 1, x);
    } else {
      k := n - 1;
    }
  }

  lemma {:induction false} AmongLinks(s: Installed, t: Ino, n: nat, k: nat)
    requires Consistent(s) && t in s.v && !s.v[t].Directory? && k < n <= |s.v[t].links|
    ensures Live(s.v, s.v[t].links[k].parent) && HexPath(LinkPath(s.v, s.v[t].links[k])) in LinkPaths(s, t, n)
    decreases n
  {
    hide WellFormed, Hex, PathBytes, Names, Live;
    LinkHangs(s.v, t, n - 1);
    if k < n - 1 {
      AmongLinks(s, t, n - 1, k);
    } else {
      assert LinkPaths(s, t, n)[|LinkPaths(s, t, n - 1)|] == HexPath(LinkPath(s.v, s.v[t].links[k]));
    }
  }

  // ---------------------------------------------------------------- confinement

  /** Every root of the chain is live and lies inside the one before it, the first inside `outer`. */
  ghost predicate Confined(s: Installed, roots: seq<Ino>, outer: Path)
    requires Consistent(s)
    decreases |roots|
  {
    roots == [] || (Live(s.v, roots[0]) && outer <= Names(s.v, roots[0]) && Confined(s, roots[1..], Names(s.v, roots[0])))
  }

  /** The names of the innermost root. */
  ghost function Innermost(s: Installed, roots: seq<Ino>): Path
    requires Consistent(s) && (forall i :: 0 <= i < |roots| ==> Live(s.v, roots[i]))
  {
    if roots == [] then [] else Names(s.v, roots[|roots| - 1])
  }

  /** A chain is confined exactly when every root is enclosed by the one before it. */
  lemma {:induction false} ConfinedMeans(s: Installed, roots: seq<Ino>, outer: Path)
    requires Consistent(s)
    ensures Confined(s, roots, outer) ==> forall i :: 0 <= i < |roots| ==> Live(s.v, roots[i])
    ensures Confined(s, roots, outer) <==>
            && (forall i :: 0 <= i < |roots| ==> Live(s.v, roots[i]))
            && (roots != [] ==> outer <= Names(s.v, roots[0]))
            && (forall i :: 0 < i < |roots| ==> Encloses(s.v, roots[i - 1], roots[i]))
    decreases |roots|
  {
    hide WellFormed, Live, Names, Encloses;
    if roots != [] {
      var rest := roots[1..];
      assert forall i :: 0 <= i < |rest| ==> rest[i] == roots[i + 1];
      if Live(s.v, roots[0]) {
        ConfinedMeans(s, rest, Names(s.v, roots[0]));
        if rest != [] && Live(s.v, rest[0]) { EnclosesIsPrefix(s.v, roots[0], rest[0]); }
        if Confined(s, roots, outer) {
          forall i | 0 < i < |roots| ensures Encloses(s.v, roots[i - 1], roots[i]) {
            if i > 1 { assert Encloses(s.v, rest[(i - 1) - 1], rest[i - 1]); }
          }
        }
        if (forall i :: 0 <= i < |roots| ==> Live(s.v, roots[i])) && outer <= Names(s.v, roots[0])
           && (forall i :: 0 < i < |roots| ==> Encloses(s.v, roots[i - 1], roots[i])) {
          forall i | 0 < i < |rest| ensures Encloses(s.v, rest[i - 1], rest[i]) {
            assert Encloses(s.v, roots[(i + 1) - 1], roots[i + 1]);
          }
          if rest != [] { assert Encloses(s.v, roots[1 - 1], roots[1]); }
        }
      }
    }
  }

  ghost predicate AllLive(s: Installed, roots: seq<Ino>) {
    forall i :: 0 <= i < |roots| ==> Live(s.v, roots[i])
  }

  /** `rootPath`: the innermost root's path, for confined chains and no others. */
  method RootPath(s: Installed, roots: seq<Ino>) returns (r: Result<string, WatchFailure>)
    requires Consistent(s)
    ensures r.Ok? <==> Confined(s, roots, [])
    ensures r.Ok? ==> (forall i :: 0 <= i < |roots| ==> Live(s.v, roots[i])) && r.value == HexPath(Innermost(s, roots))
    ensures r == Err(ClosedCaller) ==> exists k :: 0 <= k < |roots| && !Live(s.v, roots[k]) && AllLive(s, roots[..k])
    ensures r == Err(AccessDenied) ==>
              exists k :: 0 < k < |roots| && AllLive(s, roots[..k + 1]) && !Encloses(s.v, roots[k - 1], roots[k])
  {
    hide WellFormed, Live, Names, PathBytes, Hex, Below, Encloses;
    var previous := SLASH_HEX;
    ghost var outer: Path := [];
    RootPathHex();
    assert roots[0..] == roots;
    for k := 0 to |roots|
      invariant GoodPath(outer) && previous == HexPath(outer)
      invariant forall i :: 0 <= i < k ==> Live(s.v, roots[i])
      invariant outer == if k == 0 then [] else Names(s.v, roots[k - 1])
      invariant Confined(s, roots, []) <==> Confined(s, roots[k..], outer)
    {
      var root := roots[k];
      assert roots[k..][0] == root && roots[k..][1..] == roots[k + 1..];
      var path := DirectoryPath(s, root);
      if path.None? {
        assert AllLive(s, roots[..k]);
        return Err(ClosedCaller);
      }
      NamesGood(s.v, root);
      BelowIsPrefix(outer, Names(s.v, root));
      if !Below(path.value, previous) {
        assert k > 0 && AllLive(s, roots[..k + 1]);
        EnclosesIsPrefix(s.v, roots[k - 1], root);
        return Err(AccessDenied);
      }
      previous, outer := path.value, Names(s.v, root);
    }
    assert roots[|roots|..] == [];
    return Ok(previous);
  }

  lemma RootPathHex()
    ensures SLASH_HEX == HexPath([]) && GoodPath([])
  {
    SlashHex();
    assert PathBytes([]) == [SLASH];
  }

  // ---------------------------------------------------------------- the watch

  datatype Tag = Create | Update | Remove | Rescan

  datatype Event = Event(tag: Tag, path: bytes, parent: Ino, ino: Ino, name: Option<Name>)

  datatype Rename = Rename(ino: Ino, from: Link, to: Link)

  /** The name after the last slash of a byte path. */
  function LastName(path: bytes): Name {
    if path == [] || path[|path| - 1] == SLASH then [] else LastName(path[..|path| - 1]) + [path[|path| - 1]]
  }

  /** `eventName`. */
  function EventName(e: Event): Name { if e.name.Some? then e.name.value else LastName(e.path) }

  /** Events name an entry, or the root itself. */
  predicate EventOk(e: Event) {
    IsName(EventName(e)) || (EventName(e) == [] && e.parent == ROOT)
  }

  /** The aliases below `root`, or only the selected one. */
  function Selected(aliases: seq<string>, root: string, all: bool, only: Option<string>): seq<string> {
    if aliases == [] then []
    else
      (if Below(aliases[0], root) && (all || Some(aliases[0]) == only) then [aliases[0]] else [])
      + Selected(aliases[1..], root, all, only)
  }

  lemma {:induction false} SelectedBelow(aliases: seq<string>, root: string, all: bool, only: Option<string>, x: string)
    requires x in Selected(aliases, root, all, only)
    ensures x in aliases && Below(x, root)
    decreases |aliases|
  {
    hide Below;
    if x in Selected(aliases[1..], root, all, only) { SelectedBelow(aliases[1..], root, all, only, x); }
  }

  /** A path of the installed state: of a directory, or of a name in a directory. */
  ghost predicate PathIn(s: Installed, q: Path)
    requires Consistent(s)
  {
    && GoodPath(q)
    && ((exists d :: Live(s.v, d) && q == Names(s.v, d))
        || (q != [] && exists d :: Live(s.v, d) && q == Names(s.v, d) + [q[|q| - 1]]))
  }

  /** `bytes` is a path of the state that lies inside `root`, renamed to lie under `/`. */
  ghost predicate Inside(s: Installed, root: Path, path: bytes)
    requires Consistent(s)
  {
    exists rest: Path :: PathIn(s, root + rest) && path == PathBytes(rest)
  }

  /** Rebasing a path that passed the test. */
  lemma Rebased(s: Installed, root: Path, q: Path)
    requires Consistent(s) && PathIn(s, q) && GoodPath(root) && Below(HexPath(q), HexPath(root))
    ensures HexPath(root) == SLASH_HEX || |HexPath(root)| <= |HexPath(q)|
    ensures Inside(s, root, UnHex(Rebase(HexPath(q), HexPath(root))))
  {
    BelowIsPrefix(root, q);
    var rest := q[|root|..];
    assert q == root + rest;
    RebaseIsRest(root, rest);
    UnHexHex(PathBytes(rest));
    hide PathIn, Hex, PathBytes;
    assert PathIn(s, root + rest);
  }

  lemma DirectoryIn(s: Installed, d: Ino)
    requires Consistent(s) && Live(s.v, d)
    ensures PathIn(s, Names(s.v, d))
  {
    NamesGood(s.v, d);
  }

  lemma EntryIn(s: Installed, l: Link)
    requires Consistent(s) && Live(s.v, l.parent) && IsName(l.name)
    ensures PathIn(s, Names(s.v, l.parent) + [l.name])
  {
    NamesGood(s.v, l.parent);
    GoodParts(Names(s.v, l.parent), [l.name]);
    var q := Names(s.v, l.parent) + [l.name];
    assert q[|q| - 1] == l.name;
  }

  lemma RootEntryIn(s: Installed)
    requires Consistent(s)
    ensures Live(s.v, ROOT) && Names(s.v, ROOT) == [] && PathIn(s, []) && HexPath([] + [[]]) == HexPath([])
  {
    RootLive(s.v);
    DirectoryIn(s, ROOT);
    assert Names(s.v, ROOT) == [];
    PathBytesSnoc([], []);
    assert PathBytes([]) == [SLASH] && [SLASH] + [] == [SLASH];
  }

  /** The path of an event's entry is a path of the state. */
  lemma EventPathIn(s: Installed, parent: Ino, name: Name) returns (q: Path)
    requires Consistent(s) && (IsName(name) || (name == [] && parent == ROOT)) && Live(s.v, parent)
    ensures PathIn(s, q) && EntryPathOf(s, Link(parent, name)) == Some(HexPath(q))
  {
    hide PathIn, Hex, PathBytes, WellFormed, Live, Names;
    if IsName(name) {
      EntryIn(s, Link(parent, name));
      q := Names(s.v, parent) + [name];
    } else {
      RootEntryIn(s);
      q := [];
    }
  }

  class CallerWatcher {
    const roots: seq<Ino>
    const additionalRoots: seq<seq<Ino>>
    const target: Ino
    const recursive: bool
    var selected: Option<Link>
    var oldSelected: Option<Link>
    var failure: Option<WatchFailure>
    var previousRoot: string
    var currentRoot: string
    var terminal: Option<seq<string>>
    var rescanPath: string

    /** The watch has been prepared for this installation: both states keep the caller confined. */
    ghost predicate PreparedFor(before: Installed, after: Installed)
      requires Consistent(before) && Consistent(after)
      reads this
    {
      failure.None? ==>
        && Confined(after, roots, []) && RootsLive(after) && currentRoot == HexPath(Innermost(after, roots))
        && Confined(before, roots, []) && RootsLive(before) && previousRoot == HexPath(Innermost(before, roots))
        && (terminal.Some? ==> forall x :: x in terminal.value ==> Inside(before, Innermost(before, roots), UnHex(x)))
    }

    ghost predicate RootsLive(s: Installed)
    {
      forall i :: 0 <= i < |roots| ==> Live(s.v, roots[i])
    }

    constructor (roots: seq<Ino>, additionalRoots: seq<seq<Ino>>, target: Ino, recursive: bool, selected: Option<Link>)
      ensures this.roots == roots && this.additionalRoots == additionalRoots && this.target == target
      ensures this.recursive == recursive && this.selected == selected && failure.None? && terminal.None?
      ensures previousRoot == SLASH_HEX && currentRoot == SLASH_HEX
    {
      this.roots, this.additionalRoots, this.target, this.recursive := roots, additionalRoots, target, recursive;
      this.selected, oldSelected := selected, selected;
      failure, previousRoot, currentRoot, terminal, rescanPath := None, SLASH_HEX, SLASH_HEX, None, SLASH_HEX;
    }

    /** Every other confinement holds, and shuts not all aliases out. */
    ghost predicate Bounded(s: Installed, k: nat)
      requires Consistent(s) && k <= |additionalRoots|
    {
      forall j :: 0 <= j < k ==>
        && Confined(s, additionalRoots[j], []) && (forall i :: 0 <= i < |additionalRoots[j]| ==> Live(s.v, additionalRoots[j][i]))
        && AnyBelow(AliasesOf(s, target), HexPath(Innermost(s, additionalRoots[j])))
    }

    /** The aliases of the target that are told of. */
    ghost function VisibleOf(s: Installed, root: string, selection: Option<Link>): seq<string>
      requires Consistent(s)
    {
      if Bounded(s, |additionalRoots|) then
        Selected(AliasesOf(s, target), root, selection.None?, if selection.Some? then EntryPathOf(s, selection.value) else None)
      else []
    }

    lemma VisibleBelow(s: Installed, root: string, selection: Option<Link>)
      requires Consistent(s)
      ensures forall x :: x in VisibleOf(s, root, selection) ==> x in AliasesOf(s, target) && Below(x, root)
    {
      hide Below, AliasesOf, Bounded;
      forall x | x in VisibleOf(s, root, selection) ensures x in AliasesOf(s, target) && Below(x, root) {
        SelectedBelow(AliasesOf(s, target), root, selection.None?,
                      if selection.Some? then EntryPathOf(s, selection.value) else None, x);
      }
    }

    /** `visible`: the target's aliases below `root`, unless another confinement shuts them all out. */
    method Visible(s: Installed, root: string, selection: Option<Link>) returns (out: seq<string>)
      requires Consistent(s)
      ensures out == VisibleOf(s, root, selection)
      ensures forall x :: x in out ==> x in AliasesOf(s, target) && Below(x, root)
    {
      hide WellFormed, Live, Names, PathBytes, Hex, Below, AliasesOf, AnyBelow, Confined, Consistent, Selected;
      VisibleBelow(s, root, selection);
      var aliases := Paths(s, target);
      for k := 0 to |additionalRoots|
        invariant Bounded(s, k)
      {
        var boundary := RootPath(s, additionalRoots[k]);
        if boundary.Err? { return []; }
        if !AnyBelow(aliases, boundary.value) { return []; }
      }
      var only: Option<string> := None;
      if selection.Some? { only := EntryPath(s, selection.value); }
      out := Selected(aliases, root, selection.None?, only);
    }

    predicate AnyBelow(aliases: seq<string>, boundary: string) {
      exists x :: x in aliases && Below(x, boundary)
    }

    /** An alias below the root, rebased, is inside it. */
    lemma AliasInside(s: Installed, root: Path, x: string)
      requires Consistent(s) && GoodPath(root) && x in AliasesOf(s, target) && Below(x, HexPath(root))
      ensures HexPath(root) == SLASH_HEX || |HexPath(root)| <= |x|
      ensures Inside(s, root, UnHex(Rebase(x, HexPath(root))))
    {
      hide Below, Hex, PathBytes, PathIn, Live, Names, AliasesOf, Lookup;
      AliasesAreLookups(s, target, x);
      var p :| Lookup(s.v, ROOT, p) == Some(target) && x == HexPath(p);
      LookupIn(s, p);
      Rebased(s, root, p);
    }

    lemma LookupIn(s: Installed, p: Path)
      requires Consistent(s) && Lookup(s.v, ROOT, p).Some?
      ensures PathIn(s, p)
    {
      LookupGood(s.v, p);
      LookupBack(s.v, p);
      var c := Lookup(s.v, ROOT, p).value;
      hide WellFormed, Live, Names, Lookup, GoodPath;
      if !s.v[c].Directory? {
        var l :| l in s.v[c].links && Live(s.v, l.parent) && p == LinkPath(s.v, l);
        assert p[|p| - 1] == l.name;
      }
    }

    /** The caller is still confined by its own roots and by every other confinement. */
    ghost predicate KeepsCaller(after: Installed)
      requires Consistent(after)
    {
      Confined(after, roots, []) && forall k :: 0 <= k < |additionalRoots| ==> Confined(after, additionalRoots[k], [])
    }

    /** The additional confinements, in order. */
    method AdditionalFailure(after: Installed) returns (e: Option<WatchFailure>)
      requires Consistent(after)
      ensures e.None? <==> forall k :: 0 <= k < |additionalRoots| ==> Confined(after, additionalRoots[k], [])
    {
      hide WellFormed, Live, Names, PathBytes, Hex, Confined;
      for k := 0 to |additionalRoots|
        invariant forall j :: 0 <= j < k ==> Confined(after, additionalRoots[j], [])
      {
        var boundary := RootPath(after, additionalRoots[k]);
        if boundary.Err? { return Some(boundary.error); }
      }
      return None;
    }

    /** Where the selected name has gone after the first `k` renames. */
    function Followed(selection: Option<Link>, renames: seq<Rename>, k: nat): Option<Link>
      requires k <= |renames|
    {
      if k == 0 then selection
      else
        var now, last := Followed(selection, renames, k - 1), renames[k - 1];
        if last.ino == target && now == Some(last.from) then Some(last.to) else now
    }

    /** The aliases told of, under `/`. */
    ghost predicate Rebasings(paths: seq<string>, root: string, out: seq<string>) {
      && |out| == |paths|
      && forall k :: 0 <= k < |paths| ==>
           (root == SLASH_HEX || |root| <= |paths[k]|) && out[k] == Rebase(paths[k], root)
    }

    /**
     * `prepare`, before an installation's events are projected. A confinement that no longer holds afterwards fails the
     * watch for good. The roots are left as they were when the caller was not confined before. When no alias is left
     * the watch will end with the removal of every alias it told of.
     */
    method Prepare(before: Installed, after: Installed, renames: seq<Rename>)
      requires Consistent(before) && Consistent(after) && failure.None?
      modifies this
      ensures oldSelected == old(selected)
      ensures failure.None? <==> KeepsCaller(after)
      ensures Confined(before, roots, []) ==> PreparedFor(before, after)
      ensures failure.Some? ==> terminal.None?
      ensures Confined(before, roots, []) && failure.None? ==>
                && selected == Followed(old(selected), renames, |renames|)
                && (terminal.None? <==> VisibleOf(after, currentRoot, selected) != [])
                && (terminal.Some? ==> Rebasings(VisibleOf(before, previousRoot, oldSelected), previousRoot, terminal.value))
                && (terminal.None? ==> RootsLive(after) && Inside(after, Innermost(after, roots), UnHex(rescanPath)))
                && (terminal.Some? && terminal.value != [] ==> rescanPath == terminal.value[0])
      ensures !Confined(before, roots, []) ==> previousRoot == old(previousRoot) && currentRoot == old(currentRoot) && terminal.None?
    {
      hide WellFormed, Live, Names, PathBytes, Hex, Confined, Inside, Below, AliasesOf, VisibleOf;
      terminal, oldSelected := None, selected;
      var beforeRoot := RootPath(before, roots);
      var afterRoot := RootPath(after, roots);
      failure := AdditionalFailure(after);
      if failure.Some? { return; }
      if afterRoot.Err? {
        failure := Some(afterRoot.error);
        return;
      }
      if beforeRoot.Err? { return; }
      previousRoot, currentRoot := beforeRoot.value, afterRoot.value;
      FollowRenames(renames);
      PrepareEnd(before, after);
    }

    /** The end of `prepare`: what is left of the target, and what it was called before. */
    method PrepareEnd(before: Installed, after: Installed)
      requires Consistent(before) && Consistent(after) && terminal.None?
      requires RootsLive(before) && previousRoot == HexPath(Innermost(before, roots))
      requires RootsLive(after) && currentRoot == HexPath(Innermost(after, roots))
      modifies this`terminal, this`rescanPath
      ensures terminal.None? <==> VisibleOf(after, currentRoot, selected) != []
      ensures terminal.Some? ==> Rebasings(VisibleOf(before, previousRoot, oldSelected), previousRoot, terminal.value)
      ensures terminal.Some? ==> forall x :: x in terminal.value ==> Inside(before, Innermost(before, roots), UnHex(x))
      ensures terminal.None? ==> Inside(after, Innermost(after, roots), UnHex(rescanPath))
      ensures terminal.Some? && terminal.value != [] ==> rescanPath == terminal.value[0]
      ensures terminal.None? ==>
                var shown := VisibleOf(after, currentRoot, selected)[0];
                Rebasable(shown, currentRoot) && rescanPath == Rebase(shown, currentRoot)
    {
      hide WellFormed, Live, Names, PathBytes, Hex, Inside, Below, AliasesOf, VisibleOf;
      var oldPaths := Visible(before, previousRoot, oldSelected);
      var nextPaths := Visible(after, currentRoot, selected);
      InnermostGood(before);
      InnermostGood(after);
      if nextPaths != [] {
        AliasInside(after, Innermost(after, roots), nextPaths[0]);
        rescanPath := Rebase(nextPaths[0], currentRoot);
      } else {
        var removals: seq<string> := [];
        for k := 0 to |oldPaths|
          invariant Rebasings(oldPaths[..k], previousRoot, removals)
          invariant forall x :: x in removals ==> Inside(before, Innermost(before, roots), UnHex(x))
        {
          AliasInside(before, Innermost(before, roots), oldPaths[k]);
          assert oldPaths[..k + 1] == oldPaths[..k] + [oldPaths[k]];
          removals := removals + [Rebase(oldPaths[k], previousRoot)];
        }
        assert oldPaths[..|oldPaths|] == oldPaths;
        var lost := if oldPaths != [] then oldPaths[0] else currentRoot;
        rescanPath := if previousRoot == SLASH_HEX || |previousRoot| <= |lost| then Rebase(lost, previousRoot) else "";
        terminal := Some(removals);
      }
    }

    lemma InnermostGood(s: Installed)
      requires Consistent(s) && RootsLive(s)
      ensures GoodPath(Innermost(s, roots))
    {
      if roots != [] { NamesGood(s.v, roots[|roots| - 1]); }
    }

    /** A rename of the selected name moves the selection along. */
    method FollowRenames(renames: seq<Rename>)
      modifies this`selected
      ensures selected == Followed(old(selected), renames, |renames|)
    {
      for k := 0 to |renames|
        invariant selected == Followed(old(selected), renames, k)
      {
        var rename := renames[k];
        if rename.ino == target && selected.Some? && selected.value.parent == rename.from.parent
           && selected.value.name == rename.from.name { selected := Some(rename.to); }
      }
    }

    predicate Rebasable(path: string, root: string) {
      root == SLASH_HEX || |root| <= |path|
    }

    /** The renaming of an event whose path `path` passed the test. */
    function Emitted(e: Event, tag: Tag, ino: Ino, path: string, root: string): Event
      requires Rebasable(path, root)
    {
      e.(tag := tag, ino := ino, path := UnHex(Rebase(path, root)))
    }

    /** The state and root an event is told against. */
    ghost predicate EventInside(e: Event, before: Installed, after: Installed)
      requires Consistent(before) && Consistent(after) && RootsLive(before) && RootsLive(after)
    {
      if e.tag == Remove then Inside(before, Innermost(before, roots), e.path) else Inside(after, Innermost(after, roots), e.path)
    }

    /** An object comes in under a name the target was told of by. */
    ghost predicate Replaces(e: Event, before: Installed)
      requires Consistent(before)
      reads this
    {
      var name := EventName(e);
      && terminal.None? && e.ino != target && e.tag == Create
      && e.parent in before.v && before.v[e.parent].Directory? && name in before.v[e.parent].entries
      && before.v[e.parent].entries[name] == target && EntryPathOf(before, Link(e.parent, name)).Some?
      && EntryPathOf(before, Link(e.parent, name)).value in VisibleOf(before, previousRoot, oldSelected)
    }

    /** The path of an event the watch covers: the target's own, or one in the scope of a visible alias. */
    ghost predicate Covers(e: Event, s: Installed, root: string, selection: Option<Link>, path: Option<string>)
      requires Consistent(s)
      reads this
    {
      && path.Some?
      && if e.ino == target then
           && !(e.tag == Remove && terminal.Some?)
           && path == (if e.ino in s.v && s.v[e.ino].Directory? then DirectoryPathOf(s, e.ino)
                       else EntryPathOf(s, Link(e.parent, EventName(e))))
           && (selection.Some? ==> path == EntryPathOf(s, selection.value))
         else
           && path == EntryPathOf(s, Link(e.parent, EventName(e)))
           && exists scope :: scope in VisibleOf(s, root, selection) && InScope(path.value, scope, DirectoryPathOf(s, e.parent))
    }

    predicate InScope(path: string, scope: string, parent: Option<string>) {
      Below(path, scope) && (recursive || parent == Some(scope))
    }

    /** An incoming object that took one of the target's names: the target's removal. */
    method Replacement(e: Event, before: Installed, after: Installed) returns (r: Option<Event>)
      requires Consistent(before) && Consistent(after) && EventOk(e) && failure.None? && PreparedFor(before, after)
      ensures r.Some? <==> Replaces(e, before)
      ensures r.Some? ==> r == Projection(e, before, after)
      ensures r.Some? ==> r.value.tag == Remove && r.value.ino == target && EventInside(r.value, before, after)
    {
      hide WellFormed, Live, Names, PathBytes, Hex, Confined, Inside, Below, AliasesOf, VisibleOf;
      if terminal.Some? || e.ino == target || e.tag != Create { return None; }
      var name := EventName(e);
      var replacedPath := EntryPath(before, Link(e.parent, name));
      if e.parent !in before.v || !before.v[e.parent].Directory? || name !in before.v[e.parent].entries
         || before.v[e.parent].entries[name] != target || replacedPath.None? { return None; }
      var seen := Visible(before, previousRoot, oldSelected);
      if replacedPath.value !in seen { return None; }
      InnermostGood(before);
      AliasInside(before, Innermost(before, roots), replacedPath.value);
      return Some(Emitted(e, Remove, target, replacedPath.value, previousRoot));
    }

    /** The path an event is told by, when the watch covers it. */
    method CoveredPath(e: Event, installed: Installed, root: string, selection: Option<Link>) returns (path: Option<string>, ghost q: Path)
      requires Consistent(installed) && EventOk(e)
      ensures path.Some? ==> PathIn(installed, q) && path.value == HexPath(q) && Covers(e, installed, root, selection, path)
      ensures path.None? ==> forall p :: !Covers(e, installed, root, selection, p)
    {
      hide WellFormed, Live, Names, PathBytes, Hex, Confined, Inside, Below, AliasesOf, PathIn, VisibleOf;
      q := [];
      if e.ino == target {
        if e.tag == Remove && terminal.Some? { return None, q; }
        if e.ino in installed.v && installed.v[e.ino].Directory? {
          path := DirectoryPath(installed, e.ino);
          if path.Some? {
            DirectoryIn(installed, e.ino);
            q := Names(installed.v, e.ino);
          }
        } else {
          path := EntryPath(installed, Link(e.parent, EventName(e)));
          if path.Some? { q := EventPathIn(installed, e.parent, EventName(e)); }
        }
        if selection.Some? {
          var chosen := EntryPath(installed, selection.value);
          if path != chosen { return None, q; }
        }
        return path, q;
      }
      var scopes := Visible(installed, root, selection);
      path := EntryPath(installed, Link(e.parent, EventName(e)));
      if path.None? { return None, q; }
      q := EventPathIn(installed, e.parent, EventName(e));
      var parent := DirectoryPath(installed, e.parent);
      if !(exists scope :: scope in scopes && InScope(path.value, scope, parent)) { return None, q; }
      return path, q;
    }

    /** The event is covered under a path inside the root it is told against. */
    ghost predicate TellsOf(e: Event, before: Installed, after: Installed, path: Option<string>)
      requires Consistent(before) && Consistent(after)
      reads this
    {
      var removed := e.tag == Remove;
      var root := if removed then previousRoot else currentRoot;
      Covers(e, if removed then before else after, root, if removed then oldSelected else selected, path) && Below(path.value, root)
    }

    /** Events that are never passed on: all but updates of the innermost root itself. */
    predicate OfRoot(e: Event) {
      roots != [] && e.ino == roots[|roots| - 1] && e.tag != Update
    }

    /** What the watch tells of an event, if anything. */
    ghost function Projection(e: Event, before: Installed, after: Installed): Option<Event>
      requires Consistent(before) && Consistent(after)
      reads this
    {
      var root := if e.tag == Remove then previousRoot else currentRoot;
      if failure.Some? then None
      else if Replaces(e, before) then
        var path := EntryPathOf(before, Link(e.parent, EventName(e))).value;
        if Rebasable(path, previousRoot) then Some(Emitted(e, Remove, target, path, previousRoot)) else None
      else if !OfRoot(e) && exists path :: TellsOf(e, before, after, path) && Rebasable(path.value, root) then
        var path :| TellsOf(e, before, after, path) && Rebasable(path.value, root);
        Some(Emitted(e, e.tag, e.ino, path.value, root))
      else None
    }

    /** What was told of an event lies inside the innermost root that it is told against. */
    ghost predicate ToldInside(e: Event, before: Installed, after: Installed)
      requires Consistent(before) && Consistent(after)
    {
      RootsLive(before) && RootsLive(after) && EventInside(e, before, after)
    }

    /**
     * `project`: pass an event on with its path under the innermost root, or drop it. What is passed on lies inside that
     * root: of the state before for a removal, of the state after for anything else.
     */
    method Project(e: Event, before: Installed, after: Installed) returns (r: Option<Event>)
      requires Consistent(before) && Consistent(after) && EventOk(e) && PreparedFor(before, after)
      ensures r == Projection(e, before, after)
      ensures r.Some? ==> ToldInside(r.value, before, after)
      ensures r.Some? <==>
                && failure.None?
                && (Replaces(e, before) || (!OfRoot(e) && exists path :: TellsOf(e, before, after, path)))
      ensures r.Some? && !Replaces(e, before) ==> r.value.tag == e.tag && r.value.ino == e.ino
      ensures r.Some? && Replaces(e, before) ==> r.value.tag == Remove && r.value.ino == target
    {
      hide WellFormed, Live, Names, PathBytes, Hex, Confined, Inside, Below, AliasesOf, PathIn, VisibleOf, Covers, Replaces, Consistent;
      if failure.Some? { return None; }
      var replacement := Replacement(e, before, after);
      if replacement.Some? { return replacement; }
      var removed := e.tag == Remove;
      var installed := if removed then before else after;
      var root := if removed then previousRoot else currentRoot;
      var selection := if removed then oldSelected else selected;
      var path; ghost var q;
      path, q := CoveredPath(e, installed, root, selection);
      if path.Some? { CoversOne(e, installed, root, selection, path); }
      if path.None? || !Below(path.value, root) { return None; }
      if OfRoot(e) { return None; }
      InnermostGood(installed);
      Rebased(installed, Innermost(installed, roots), q);
      assert TellsOf(e, before, after, path);
      return Some(Emitted(e, e.tag, e.ino, path.value, root));
    }

    lemma CoversOne(e: Event, s: Installed, root: string, selection: Option<Link>, path: Option<string>)
      requires Consistent(s) && Covers(e, s, root, selection, path)
      ensures forall other :: Covers(e, s, root, selection, other) ==> other == path
    {
      hide WellFormed, Live, Names, PathBytes, Hex, Below, VisibleOf;
    }

    /** The removals that end the watch. */
    function Removals(): seq<Event> reads this {
      if terminal.None? then []
      else
        var paths := terminal.value;
        seq(|paths|, k requires 0 <= k < |paths| => Event(Remove, UnHex(paths[k]), target, target, None))
    }

    /** `settle`: the removals that end the watch, each inside the innermost root before the installation. */
    method Settle(ghost before: Installed, ghost after: Installed) returns (r: Option<seq<Event>>)
      requires Consistent(before) && Consistent(after) && PreparedFor(before, after) && (failure.Some? ==> terminal.None?)
      ensures r == if terminal.Some? then Some(Removals()) else None
      ensures r.Some? ==> forall x :: x in r.value ==> x.tag == Remove && x.ino == target && ToldInside(x, before, after)
    {
      hide WellFormed, Live, Names, PathBytes, Hex, Confined, Inside;
      if terminal.None? { return None; }
      return Some(Removals());
    }

    /** What the watch tells of the events of an installation, in order. */
    ghost function Projections(events: seq<Event>, before: Installed, after: Installed): seq<Event>
      requires Consistent(before) && Consistent(after)
      reads this
    {
      if events == [] then []
      else
        var last := Projection(events[|events| - 1], before, after);
        Projections(events[..|events| - 1], before, after) + (if last.Some? then [last.value] else [])
    }

    /**
     * `publishUnsafe` for this watch: prepare, project every event, settle. `goesOn` says whether the watch stays
     * registered for the next installation.
     */
    method Publish(i: Installation) returns (told: seq<Event>, goesOn: bool)
      requires InstallationOk(i) && failure.None? && Confined(i.before, roots, [])
      modifies this
      ensures PreparedFor(i.before, i.after)
      ensures told == Projections(i.events, i.before, i.after) + Removals()
      ensures forall x :: x in told ==> ToldInside(x, i.before, i.after)
      ensures failure.None? <==> KeepsCaller(i.after)
      ensures goesOn <==> failure.None? && terminal.None?
      ensures failure.None? ==> (goesOn <==> VisibleOf(i.after, currentRoot, selected) != [])
    {
      hide Consistent, Confined, PreparedFor, Removals, ToldInside, VisibleOf, KeepsCaller, Projections;
      Prepare(i.before, i.after, i.renames);
      told := ProjectAll(i.events, i.before, i.after);
      var last := Settle(i.before, i.after);
      if last.None? {
        NoRemovals();
        assert told + [] == told;
      } else {
        told := told + last.value;
      }
      return told, failure.None? && terminal.None?;
    }

    method ProjectAll(events: seq<Event>, before: Installed, after: Installed) returns (told: seq<Event>)
      requires Consistent(before) && Consistent(after) && PreparedFor(before, after)
      requires forall k :: 0 <= k < |events| ==> EventOk(events[k])
      ensures told == Projections(events, before, after)
      ensures forall x :: x in told ==> ToldInside(x, before, after)
    {
      hide Consistent, Confined, PreparedFor, Projection, ToldInside, EventOk;
      told := [];
      for k := 0 to |events|
        invariant told == Projections(events[..k], before, after)
        invariant forall x :: x in told ==> ToldInside(x, before, after)
      {
        assert events[..k + 1][..k] == events[..k] && events[..k + 1][k] == events[k];
        var one := Project(events[k], before, after);
        if one.Some? { told := told + [one.value]; }
      }
      assert events[..|events|] == events;
    }

    lemma NoRemovals()
      requires terminal.None?
      ensures Removals() == []
    {
    }
  }

  // ---------------------------------------------------------------- a run of the watch

  /** One published change: the states before and after it, the renames in it and its events. */
  datatype Installation = Installation(before: Installed, after: Installed, renames: seq<Rename>, events: seq<Event>)

  ghost predicate InstallationOk(i: Installation) {
    Consistent(i.before) && Consistent(i.after) && forall k :: 0 <= k < |i.events| ==> EventOk(i.events[k])
  }

  /** Every installation starts from the state that the one before it left. */
  ghost predicate Contiguous(run: seq<Installation>) {
    && (forall k :: 0 <= k < |run| ==> InstallationOk(run[k]))
    && (forall k :: 0 < k < |run| ==> run[k].before == run[k - 1].after)
  }

  /**
   * Main result: a watch registered for a confined caller, over any run of installations. Until it ends, the caller was
   * confined before every installation, and whatever it tells of one, an event or a final removal, names something
   * inside the innermost root. It fails exactly at an installation that frees the caller.
   */
  method WatchRun(w: CallerWatcher, run: seq<Installation>) returns (told: seq<seq<Event>>)
    requires Contiguous(run) && w.failure.None? && w.terminal.None?
    requires run != [] ==> Confined(run[0].before, w.roots, [])
    modifies w
    ensures |told| <= |run|
    ensures forall k :: 0 <= k < |told| ==> InstallationOk(run[k]) && Confined(run[k].before, w.roots, [])
    ensures forall k, x :: 0 <= k < |told| && x in told[k] ==> w.ToldInside(x, run[k].before, run[k].after)
    ensures forall k :: 0 <= k < |told| - 1 ==> w.KeepsCaller(run[k].after)
    ensures |told| < |run| ==> w.failure.Some? || w.terminal.Some?
    ensures w.failure.Some? <==> told != [] && !w.KeepsCaller(run[|told| - 1].after)
  {
    hide Consistent, Confined, CallerWatcher.PreparedFor, CallerWatcher.ToldInside, CallerWatcher.VisibleOf, EventOk;
    told := [];
    while |told| < |run|
      invariant |told| <= |run| && w.failure.None? && w.terminal.None?
      invariant forall k :: 0 <= k < |told| ==> InstallationOk(run[k]) && Confined(run[k].before, w.roots, [])
      invariant forall k, x :: 0 <= k < |told| && x in told[k] ==> w.ToldInside(x, run[k].before, run[k].after)
      invariant forall k :: 0 <= k < |told| ==> w.KeepsCaller(run[k].after)
      invariant |told| < |run| ==> Confined(run[|told|].before, w.roots, [])
    {
      var one, goesOn := w.Publish(run[|told|]);
      told := told + [one];
      if !goesOn { return; }
    }
  }
}
