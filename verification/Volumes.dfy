/**
 * The volume state of `internal/engine.ts`: inodes, directory entries, links and paths, with the consistency a
 * published volume keeps. Names are their bytes; the source keys entries by the lowercase hex of those bytes.
 */
module Volumes {
  import opened Basics
  import opened Forest
  import opened Sorting

  type Name = bytes

  type Path = seq<Name>

  const SLASH: byte := 47
  const DOT: byte := 46
  const MAX_NAME_BYTES := 255

  /** `storedMetadata`: what a snapshot keeps of a node's metadata. */
  datatype Metadata = Metadata(uid: nat, gid: nat, mode: nat, atimeNs: int, mtimeNs: int, ctimeNs: int, birthtimeNs: int)

  datatype Link = Link(parent: Ino, name: Name)

  datatype Node =
    | Directory(parent: Ino, name: Name, entries: map<Name, Ino>, metadata: Metadata)
    | File(links: seq<Link>, data: bytes, metadata: Metadata)
    | Symlink(links: seq<Link>, target: bytes, metadata: Metadata)

  type Volume = map<Ino, Node>

  /** `isNameBytes`. */
  predicate IsName(name: Name) {
    && 1 <= |name| <= MAX_NAME_BYTES && 0 !in name && SLASH !in name
    && name != [DOT] && name != [DOT, DOT]
  }

  /** `payloadOf`. */
  function PayloadOf(node: Node): Option<bytes> {
    match node
    case File(_, data, _) => Some(data)
    case Symlink(_, target, _) => Some(target)
    case Directory(_, _, _, _) => None
  }

  /** Two nodes hold the same content: kind, metadata, and bytes or target. */
  predicate SameContent(a: Node, b: Node) {
    && a.metadata == b.metadata
    && a.Directory? == b.Directory? && a.File? == b.File?
    && PayloadOf(a) == PayloadOf(b)
  }

  /** A directory that its parent really lists under its own name. */
  predicate Hooked(v: Volume, d: Ino) {
    && d in v && v[d].Directory? && v[d].parent in v && v[v[d].parent].Directory?
    && v[d].name in v[v[d].parent].entries && v[v[d].parent].entries[v[d].name] == d
  }

  function Up(v: Volume): Parents {
    map d | d in v && Hooked(v, d) :: v[d].parent
  }

  /** Directories a path from the root reaches. Detached directories may linger in a captured volume. */
  ghost predicate Live(v: Volume, d: Ino) {
    Attached(Up(v), d)
  }

  ghost predicate EntryOk(v: Volume, d: Ino, name: Name, c: Ino) {
    && IsName(name) && c in v && c != ROOT
    && if v[c].Directory? then v[c].parent == d && v[c].name == name else Link(d, name) in v[c].links
  }

  ghost predicate LinkOk(v: Volume, f: Ino, l: Link) {
    Live(v, l.parent) && l.parent in v && v[l.parent].Directory? && l.name in v[l.parent].entries
    && v[l.parent].entries[l.name] == f
  }

  predicate NoRepeats<T(==)>(s: seq<T>) {
    forall i, j :: 0 <= i < j < |s| ==> s[i] != s[j]
  }

  /** The consistency of a volume: entries, parents and links agree wherever a path leads. */
  ghost predicate WellFormed(v: Volume) {
    && ROOT in v && v[ROOT].Directory? && v[ROOT].parent == ROOT && v[ROOT].name == []
    && (forall d :: Live(v, d) ==> d in v && v[d].Directory?)
    && (forall d, name :: Live(v, d) && name in v[d].entries ==> EntryOk(v, d, name, v[d].entries[name]))
    && (forall f, l :: f in v && !v[f].Directory? && l in v[f].links ==> LinkOk(v, f, l))
    && (forall f :: f in v && !v[f].Directory? ==> NoRepeats(v[f].links))
  }

  lemma RootLive(v: Volume)
    requires WellFormed(v)
    ensures Live(v, ROOT)
  {
    RootAttached(Up(v));
  }

  /** A directory entry of a live directory leads one step deeper. */
  lemma ChildLive(v: Volume, d: Ino, name: Name)
    requires WellFormed(v) && Live(v, d) && name in v[d].entries
    ensures var c := v[d].entries[name];
            c in v && (v[c].Directory? ==> c != ROOT && Live(v, c) && Depth(Up(v), c) == Depth(Up(v), d) + 1 < |v|)
  {
    var c := v[d].entries[name];
    assert EntryOk(v, d, name, c);
    if v[c].Directory? {
      assert Hooked(v, c);
      ChildAttached(Up(v), c);
      DepthBounded(Up(v), c, v.Keys);
    }
  }

  lemma LiveShallow(v: Volume, d: Ino)
    requires WellFormed(v) && Live(v, d)
    ensures Depth(Up(v), d) < |v|
  {
    DepthBounded(Up(v), d, v.Keys);
  }

  lemma LiveParent(v: Volume, d: Ino)
    requires WellFormed(v) && Live(v, d) && d != ROOT
    ensures Hooked(v, d) && Live(v, v[d].parent) && Depth(Up(v), d) == Depth(Up(v), v[d].parent) + 1
  {
    ParentAttached(Up(v), d);
  }

  // ---------------------------------------------------------------- paths

  /** The inode `path` leads to from `from`, without following symbolic links. */
  function Lookup(v: Volume, from: Ino, path: Path): (r: Option<Ino>)
    ensures r.Some? ==> r.value in v
    decreases |path|
  {
    if from !in v then None
    else if path == [] then Some(from)
    else if v[from].Directory? && path[0] in v[from].entries then Lookup(v, v[from].entries[path[0]], path[1..])
    else None
  }

  lemma {:induction false} LookupSnoc(v: Volume, from: Ino, path: Path, name: Name)
    ensures Lookup(v, from, path + [name]) ==
            match Lookup(v, from, path)
            case None => None
            case Some(d) =>
              if v[d].Directory? && name in v[d].entries && v[d].entries[name] in v then Some(v[d].entries[name]) else None
    decreases |path|
  {
    if from !in v {
    } else if path == [] {
      assert path + [name] == [name] && [name][1..] == [];
    } else if v[from].Directory? && path[0] in v[from].entries {
      assert (path + [name])[1..] == path[1..] + [name];
      LookupSnoc(v, v[from].entries[path[0]], path[1..], name);
    }
  }

  /** The names on the way from the root to a live directory. */
  ghost function Names(v: Volume, d: Ino): Path
    requires WellFormed(v) && Live(v, d)
    decreases Depth(Up(v), d)
  {
    if d == ROOT then []
    else
      LiveParent(v, d);
      Names(v, v[d].parent) + [v[d].name]
  }

  /** Where a link puts its file. */
  ghost function LinkPath(v: Volume, l: Link): Path
    requires WellFormed(v) && Live(v, l.parent)
  {
    Names(v, l.parent) + [l.name]
  }

  lemma {:induction false} NamesLookup(v: Volume, d: Ino)
    requires WellFormed(v) && Live(v, d)
    ensures Lookup(v, ROOT, Names(v, d)) == Some(d)
    ensures |Names(v, d)| == Depth(Up(v), d)
    decreases Depth(Up(v), d)
  {
    if d == ROOT {
      RootAttached(Up(v));
    } else {
      LiveParent(v, d);
      var p := v[d].parent;
      NamesLookup(v, p);
      LookupSnoc(v, ROOT, Names(v, p), v[d].name);
    }
  }

  /** A directory has one path, and a file has one path for every link. */
  lemma {:induction false} LookupBack(v: Volume, path: Path)
    requires WellFormed(v) && Lookup(v, ROOT, path).Some?
    ensures var c := Lookup(v, ROOT, path).value;
            && c in v
            && (v[c].Directory? ==> Live(v, c) && path == Names(v, c))
            && (!v[c].Directory? ==>
                  path != [] && exists l :: l in v[c].links && Live(v, l.parent) && path == LinkPath(v, l))
    decreases |path|
  {
    var c := Lookup(v, ROOT, path).value;
    if path == [] {
      RootLive(v);
    } else {
      var front, name := path[..|path| - 1], path[|path| - 1];
      assert path == front + [name];
      LookupSnoc(v, ROOT, front, name);
      LookupBack(v, front);
      var d := Lookup(v, ROOT, front).value;
      assert EntryOk(v, d, name, c);
      if v[c].Directory? {
        ChildLive(v, d, name);
      } else {
        assert path == LinkPath(v, Link(d, name));
      }
    }
  }

  lemma LinkLookup(v: Volume, f: Ino, l: Link)
    requires WellFormed(v) && f in v && !v[f].Directory? && l in v[f].links
    ensures LinkOk(v, f, l) && Lookup(v, ROOT, LinkPath(v, l)) == Some(f)
  {
    assert LinkOk(v, f, l);
    NamesLookup(v, l.parent);
    LookupSnoc(v, ROOT, Names(v, l.parent), l.name);
  }

  lemma LinkPathInjective(v: Volume, l: Link, m: Link)
    requires WellFormed(v) && Live(v, l.parent) && Live(v, m.parent)
    requires LinkPath(v, l) == LinkPath(v, m)
    ensures l == m
  {
    var p, q := Names(v, l.parent), Names(v, m.parent);
    assert p == (p + [l.name])[..|p|] && q == (q + [m.name])[..|q|];
    assert l.name == (p + [l.name])[|p|];
    NamesLookup(v, l.parent);
    NamesLookup(v, m.parent);
  }

  // ---------------------------------------------------------------- byte paths

  /** `joinPath`: one slash between a prefix and a name. */
  function JoinPath(prefix: bytes, name: Name): bytes {
    if prefix == [] || prefix[|prefix| - 1] == SLASH then prefix + name else prefix + [SLASH] + name
  }

  /** The byte path of a list of names under the root. */
  function PathBytes(path: Path): bytes {
    if path == [] then [SLASH] else JoinPath(PathBytes(path[..|path| - 1]), path[|path| - 1])
  }

  predicate GoodPath(path: Path) {
    forall i :: 0 <= i < |path| ==> IsName(path[i])
  }

  lemma PathBytesSnoc(path: Path, name: Name)
    ensures PathBytes(path + [name]) == JoinPath(PathBytes(path), name)
  {
    assert (path + [name])[..|path|] == path;
  }

  /** Where a byte path ends: with a slash exactly at the root. */
  lemma {:induction false} PathBytesShape(path: Path)
    requires GoodPath(path)
    ensures |PathBytes(path)| >= 1
    ensures PathBytes(path)[|PathBytes(path)| - 1] == SLASH <==> path == []
    decreases |path|
  {
    if path != [] {
      PathBytesShape(path[..|path| - 1]);
      var name, whole := path[|path| - 1], PathBytes(path);
      assert IsName(name);
      assert whole[|whole| - 1] == name[|name| - 1];
      assert name[|name| - 1] in name;
    }
  }

  /** Each name with a slash in front. */
  function Segments(path: Path): (r: seq<bytes>)
    ensures |r| == |path| && forall i :: 0 <= i < |r| ==> r[i] == [47] + path[i]
  {
    seq(|path|, i requires 0 <= i < |path| => [47] + path[i])
  }

  /** The root is a slash; any other path is its segments one behind another. */
  lemma {:induction false} PathSpelled(path: Path)
    requires GoodPath(path)
    ensures PathBytes(path) == if path == [] then [47] else Flatten(Segments(path))
    decreases |path|
  {
    if path != [] {
      var front, name := path[..|path| - 1], path[|path| - 1];
      assert Segments(path) == Segments(front) + [[47] + name];
      hide Segments, Flatten;
      FlattenSnoc(Segments(front), [47] + name);
      PathSpelled(front);
      PathBytesShape(front);
      if front == [] {
        assert Segments(front) == [];
        NothingFlat();
      }
    }
  }

  lemma NothingFlat()
    ensures Flatten<byte>([]) == []
  {
  }

  /** Two prefixes ending at a slash followed by slash-free names split the same way. */
  lemma LastSlash(a: bytes, n: Name, b: bytes, m: Name)
    requires |a| >= 1 && a[|a| - 1] == SLASH && |b| >= 1 && b[|b| - 1] == SLASH
    requires SLASH !in n && SLASH !in m && a + n == b + m
    ensures a == b && n == m
  {
    forall i | |a| <= i < |a + n| ensures (a + n)[i] in n { }
    forall i | |b| <= i < |b + m| ensures (b + m)[i] in m { }
    assert (a + n)[|a| - 1] == SLASH && (b + m)[|b| - 1] == SLASH;
    assert |b| - 1 < |a| && |a| - 1 < |b|;
    SplitEqual(a, n, b, m);
  }

  lemma {:induction false} PathBytesInjective(p: Path, q: Path)
    requires GoodPath(p) && GoodPath(q) && PathBytes(p) == PathBytes(q)
    ensures p == q
    decreases |p|
  {
    PathBytesShape(p);
    PathBytesShape(q);
    if p != [] && q != [] {
      var fp, fq := p[..|p| - 1], q[..|q| - 1];
      var n, m := p[|p| - 1], q[|q| - 1];
      assert IsName(n) && IsName(m);
      PathBytesShape(fp);
      PathBytesShape(fq);
      var a := if fp == [] then PathBytes(fp) else PathBytes(fp) + [SLASH];
      var b := if fq == [] then PathBytes(fq) else PathBytes(fq) + [SLASH];
      assert PathBytes(p) == a + n && PathBytes(q) == b + m;
      LastSlash(a, n, b, m);
      assert (fp == []) == (|a| == 1) && (fq == []) == (|b| == 1);
      if fp != [] { assert a[..|a| - 1] == PathBytes(fp) && b[..|b| - 1] == PathBytes(fq); }
      PathBytesInjective(fp, fq);
      assert p == fp + [n] && q == fq + [m];
    }
  }

  /** Paths that lead anywhere hold names only. */
  lemma {:induction false} LookupGood(v: Volume, path: Path)
    requires WellFormed(v) && Lookup(v, ROOT, path).Some?
    ensures GoodPath(path)
    decreases |path|
  {
    if path != [] {
      var front, name := path[..|path| - 1], path[|path| - 1];
      assert path == front + [name];
      LookupSnoc(v, ROOT, front, name);
      LookupGood(v, front);
      LookupBack(v, front);
      var d := Lookup(v, ROOT, front).value;
      assert EntryOk(v, d, name, v[d].entries[name]);
    }
  }

  // ---------------------------------------------------------------- what paths reach

  ghost function SortedNames(node: Node): (names: seq<Name>)
    requires node.Directory?
    ensures Ascending(LexLess, names) && Elements(names) == node.entries.Keys
  {
    LexOrders(node.entries.Keys);
    Listing(LexLess, node.entries.Keys)
  }

  /** A directory's entry names in byte order: `[...entries].sort(byEntryName)`. */
  method ListNames(node: Node) returns (names: seq<Name>)
    requires node.Directory?
    ensures names == SortedNames(node)
  {
    var left, listed: seq<Name> := node.entries.Keys, [];
    while left != {}
      invariant Elements(listed) == node.entries.Keys - left && left <= node.entries.Keys && NoRepeats(listed)
      decreases left
    {
      var n :| n in left;
      assert n !in Elements(listed);
      assert Elements(listed + [n]) == Elements(listed) + {n};
      listed, left := listed + [n], left - {n};
    }
    LexOrders(node.entries.Keys);
    SortAscending(LexLess, node.entries.Keys, listed);
    ListingIs(LexLess, SortBy(LexLess, listed), node.entries.Keys);
    return SortBy(LexLess, listed);
  }

  /** Nodes a path from the root leads to. */
  ghost predicate Reached(v: Volume, i: Ino) {
    i in v && if v[i].Directory? then Live(v, i) else v[i].links != []
  }

  /** The directory entries of live directories. */
  ghost function AllEntries(v: Volume): set<Link> {
    set d, n | d in v && v[d].Directory? && n in v[d].entries && Live(v, d) :: Link(d, n)
  }

  ghost function Height(v: Volume, i: Ino): nat
    requires WellFormed(v) && i in v && (v[i].Directory? ==> Live(v, i))
  {
    if v[i].Directory? then
      LiveShallow(v, i);
      |v| - Depth(Up(v), i)
    else 0
  }

  lemma ChildLower(v: Volume, d: Ino, n: Name)
    requires WellFormed(v) && d in v && v[d].Directory? && Live(v, d) && n in v[d].entries
    ensures var c := v[d].entries[n]; c in v && (v[c].Directory? ==> Live(v, c)) && Height(v, c) < Height(v, d)
  {
    ChildLive(v, d, n);
    LiveShallow(v, d);
  }

  lemma ChildReached(v: Volume, d: Ino, n: Name)
    requires WellFormed(v) && Live(v, d) && d in v && v[d].Directory? && n in v[d].entries
    ensures Reached(v, v[d].entries[n])
  {
    ChildLive(v, d, n);
    assert EntryOk(v, d, n, v[d].entries[n]);
  }

  lemma ReachedShape(v: Volume, i: Ino)
    requires Reached(v, i)
    ensures i in v && (v[i].Directory? ==> Live(v, i))
  {
  }

  lemma LookupReached(v: Volume, p: Path)
    requires WellFormed(v) && Lookup(v, ROOT, p).Some?
    ensures var i := Lookup(v, ROOT, p).value; Reached(v, i) && i in v && (v[i].Directory? ==> Live(v, i))
  {
    LookupBack(v, p);
  }
}
