/**
 * What the semantic identity of a volume identifies (`internal/merkle.ts`). Two volumes get the same identity exactly
 * when they are the same namespace: the same paths, the same content at every path, the same hard-link groups. Inode
 * numbers do not matter. The digest is any function to 32 bytes; where two namespaces differ yet share an identity,
 * the two byte strings that collide are among those hashed for them.
 */
module MerkleIdentity {
  import opened Basics
  import opened Forest
  import opened Sorting
  import opened Volumes
  import opened MerkleFraming

  const ZEROS: bytes := seq(DIGEST_BYTES, _ => 0)

  /** A digest function: 32 bytes out, nothing else known. */
  type Hash = h: bytes -> bytes | forall x :: |h(x)| == DIGEST_BYTES witness (x: bytes) => ZEROS

  /** "effect-vfs-semantic-sha256-v1" and a NUL. */
  const PREFIX: bytes :=
    [101, 102, 102, 101, 99, 116, 45, 118, 102, 115, 45, 115, 101, 109, 97, 110, 116, 105, 99, 45,
     115, 104, 97, 50, 53, 54, 45, 118, 49, 0]

  // ---------------------------------------------------------------- node digests

  /** The digests of a directory's children, by name. */
  ghost function Children(h: Hash, v: Volume, d: Ino): (m: map<Name, bytes>)
    requires WellFormed(v) && d in v && v[d].Directory? && Live(v, d)
    ensures m.Keys == v[d].entries.Keys && forall n :: n in m ==> |m[n]| == DIGEST_BYTES
    decreases Height(v, d), 1
  {
    map n | n in v[d].entries :: ChildDigest(h, v, d, n)
  }

  ghost function ChildDigest(h: Hash, v: Volume, d: Ino, n: Name): (b: bytes)
    requires WellFormed(v) && d in v && v[d].Directory? && Live(v, d) && n in v[d].entries
    ensures |b| == DIGEST_BYTES
    decreases Height(v, d), 0
  {
    ChildLower(v, d, n);
    Digest(h, v, v[d].entries[n])
  }

  ghost function NamesOf(node: Node): (names: seq<Name>)
    ensures node.Directory? ==> forall n :: n in names <==> n in node.entries
    ensures !node.Directory? ==> names == []
  {
    if node.Directory? then
      var names := SortedNames(node);
      assert forall n :: n in names <==> n in Elements(names);
      names
    else []
  }

  ghost function ChildrenOf(h: Hash, v: Volume, i: Ino): (m: map<Name, bytes>)
    requires WellFormed(v) && i in v && (v[i].Directory? ==> Live(v, i))
    ensures v[i].Directory? ==> m.Keys == v[i].entries.Keys
    ensures forall n :: n in m ==> |m[n]| == DIGEST_BYTES
    decreases Height(v, i), 2
  {
    if v[i].Directory? then Children(h, v, i) else map[]
  }

  /** The byte string hashed for a node. */
  ghost function NodePreimage(h: Hash, v: Volume, i: Ino): bytes
    requires WellFormed(v) && i in v && (v[i].Directory? ==> Live(v, i))
    decreases Height(v, i), 3
  {
    Preimage(v[i], NamesOf(v[i]), ChildrenOf(h, v, i))
  }

  ghost function Digest(h: Hash, v: Volume, i: Ino): (b: bytes)
    requires WellFormed(v) && i in v && (v[i].Directory? ==> Live(v, i))
    ensures |b| == DIGEST_BYTES
    decreases Height(v, i), 4
  {
    h(NodePreimage(h, v, i))
  }

  // ---------------------------------------------------------------- hard-link groups

  /** The byte paths of a file, one for every link. */
  ghost function FilePaths(v: Volume, f: Ino): set<bytes>
    requires WellFormed(v) && f in v && !v[f].Directory?
  {
    assert forall l :: l in v[f].links ==> LinkOk(v, f, l);
    set l | l in v[f].links :: PathBytes(LinkPath(v, l))
  }

  predicate MultiplyLinked(v: Volume, f: Ino) {
    f in v && !v[f].Directory? && |v[f].links| > 1
  }

  /** A hard-link group: the paths of a file with several links, in byte order. */
  ghost function Group(v: Volume, f: Ino): (g: seq<bytes>)
    requires WellFormed(v) && MultiplyLinked(v, f)
    ensures g != [] && Elements(g) == FilePaths(v, f) && Ascending(LexLess, g)
  {
    LexOrders(FilePaths(v, f));
    var g := Listing(LexLess, FilePaths(v, f));
    assert v[f].links[0] in v[f].links;
    assert PathBytes(LinkPath(v, v[f].links[0])) in FilePaths(v, f);
    g
  }

  ghost function Groups(v: Volume): set<seq<bytes>>
    requires WellFormed(v)
  {
    set f | f in v && MultiplyLinked(v, f) :: Group(v, f)
  }

  /** Groups are ordered by their first path. */
  predicate GroupLess(a: seq<bytes>, b: seq<bytes>) {
    a != [] && b != [] && LexLess(a[0], b[0])
  }

  /** A byte path names one file, so different groups share no path. */
  lemma SharedPath(v: Volume, f: Ino, g: Ino, p: bytes)
    requires WellFormed(v) && f in v && g in v && !v[f].Directory? && !v[g].Directory?
    requires p in FilePaths(v, f) && p in FilePaths(v, g)
    ensures f == g
  {
    var l :| l in v[f].links && LinkOk(v, f, l) && p == PathBytes(LinkPath(v, l));
    var m :| m in v[g].links && LinkOk(v, g, m) && p == PathBytes(LinkPath(v, m));
    LinkLookup(v, f, l);
    LinkLookup(v, g, m);
    LookupGood(v, LinkPath(v, l));
    LookupGood(v, LinkPath(v, m));
    PathBytesInjective(LinkPath(v, l), LinkPath(v, m));
  }

  lemma GroupsOrdered(v: Volume)
    requires WellFormed(v)
    ensures Orders(GroupLess, Groups(v))
  {
    forall a, b | a in Groups(v) && b in Groups(v)
      ensures !GroupLess(a, a) && (a == b || GroupLess(a, b) || GroupLess(b, a))
    {
      var f :| f in v && MultiplyLinked(v, f) && a == Group(v, f);
      var g :| g in v && MultiplyLinked(v, g) && b == Group(v, g);
      LexTotal(a[0], b[0]);
      LexTotal(a[0], a[0]);
      assert a[0] in Elements(a) && b[0] in Elements(b);
      if a[0] == b[0] { SharedPath(v, f, g, a[0]); }
    }
    forall a, b, c | a in Groups(v) && b in Groups(v) && c in Groups(v) && GroupLess(a, b) && GroupLess(b, c)
      ensures GroupLess(a, c)
    {
      LexTransitive(a[0], b[0], c[0]);
    }
  }

  /** One group in the identity: its size, then each framed path. */
  function GroupBytes(g: seq<bytes>): bytes {
    U64(|g|) + FrameAll(g)
  }

  function GroupRows(gs: seq<seq<bytes>>): bytes {
    if gs == [] then [] else GroupBytes(gs[0]) + GroupRows(gs[1..])
  }

  /** The byte string whose digest is the identity. */
  function IdentityBytes(root: bytes, gs: seq<seq<bytes>>): bytes {
    PREFIX + (root + (U64(|gs|) + GroupRows(gs)))
  }

  const ALGORITHM := "effect-vfs-semantic-sha256-v1"

  /** Framed paths one after another. */
  predicate PathsAt(b: bytes, at: nat, paths: seq<bytes>)
    decreases |paths|
  {
    paths == [] || (FramedAt(b, at, paths[0]) && PathsAt(b, at + 8 + |paths[0]|, paths[1..]))
  }

  /** Each group: how many paths it has, then the paths; behind the last one the bytes end. */
  predicate GroupsAt(b: bytes, at: nat, gs: seq<seq<bytes>>)
    decreases |gs|
  {
    if gs == [] then at == |b|
    else
      && NumberAt(b, at, |gs[0]|) && PathsAt(b, at + 8, gs[0])
      && GroupsAt(b, at + 8 + FrameAllLength(gs[0]), gs[1..])
  }

  /** Where the bytes of an identity stand: the algorithm's name and a NUL, the root digest, then the groups. */
  ghost predicate IdentityLaidOut(b: bytes, root: bytes, gs: seq<seq<bytes>>) {
    && |b| >= 70
    && (forall i :: 0 <= i < 29 ==> b[i] == ALGORITHM[i] as int) && b[29] == 0
    && b[30..62] == root && NumberAt(b, 62, |gs|) && GroupsAt(b, 70, gs)
  }

  lemma {:induction false} PathsBehind(before: bytes, paths: seq<bytes>, rest: bytes)
    ensures PathsAt(before + (FrameAll(paths) + rest), |before|, paths)
    decreases |paths|
  {
    hide Frame, FramedAt;
    if paths != [] {
      var frame, more := Frame(paths[0]), FrameAll(paths[1..]);
      var b := before + (FrameAll(paths) + rest);
      assert b == before + (frame + (more + rest)) && b == (before + frame) + (more + rest);
      FrameBehind(before, paths[0], more + rest);
      FrameLength(paths[0]);
      PathsBehind(before + frame, paths[1..], rest);
    }
  }

  lemma {:induction false} GroupsBehind(before: bytes, gs: seq<seq<bytes>>)
    ensures GroupsAt(before + GroupRows(gs), |before|, gs)
    decreases |gs|
  {
    hide U64, NumberAt, PathsAt, FrameAll, FrameAllLength;
    if gs == [] {
      assert before + [] == before;
    } else {
      var count, paths, more := U64(|gs[0]|), FrameAll(gs[0]), GroupRows(gs[1..]);
      var b := before + GroupRows(gs);
      assert b == before + (count + (paths + more)) && b == (before + count) + (paths + more);
      assert b == (before + count + paths) + more;
      NumberBehind(before, |gs[0]|, paths + more);
      PathsBehind(before + count, gs[0], more);
      FramesMeasured(gs[0]);
      GroupsBehind(before + count + paths, gs[1..]);
    }
  }

  /** The bytes hashed for an identity stand where the persisted contract puts them. */
  lemma IdentityBytesLaidOut(root: bytes, gs: seq<seq<bytes>>)
    requires |root| == DIGEST_BYTES
    ensures IdentityLaidOut(IdentityBytes(root, gs), root, gs)
  {
    hide U64, NumberAt, GroupsAt, GroupRows;
    var b := IdentityBytes(root, gs);
    assert |PREFIX| == 30 && PREFIX[29] == 0;
    assert forall i :: 0 <= i < 29 ==> PREFIX[i] == ALGORITHM[i] as int;
    var head := PREFIX + root;
    assert b == head + (U64(|gs|) + GroupRows(gs)) && b == (head + U64(|gs|)) + GroupRows(gs);
    assert forall i :: 0 <= i < 30 ==> b[i] == PREFIX[i];
    assert b[30..62] == root;
    NumberBehind(head, |gs|, GroupRows(gs));
    GroupsBehind(head + U64(|gs|), gs);
  }

  ghost function SortedGroups(v: Volume): (gs: seq<seq<bytes>>)
    requires WellFormed(v)
    ensures Ascending(GroupLess, gs) && Elements(gs) == Groups(v)
  {
    GroupsOrdered(v);
    Listing(GroupLess, Groups(v))
  }

  ghost function IdentityPreimage(h: Hash, v: Volume): bytes
    requires WellFormed(v)
  {
    RootLive(v);
    IdentityBytes(Digest(h, v, ROOT), SortedGroups(v))
  }

  /** The semantic identity of a volume. */
  ghost function Identity(h: Hash, v: Volume): bytes
    requires WellFormed(v)
  {
    h(IdentityPreimage(h, v))
  }

  // ---------------------------------------------------------------- the claim

  /** The byte strings hashed while identifying a volume. */
  ghost predicate Hashed(h: Hash, v: Volume, x: bytes)
    requires WellFormed(v)
  {
    x == IdentityPreimage(h, v) || exists i :: Reached(v, i) && x == NodePreimage(h, v, i)
  }

  /** No two different byte strings among those hashed for the two volumes share a digest. */
  ghost predicate NoCollision(h: Hash, v: Volume, w: Volume)
    requires WellFormed(v) && WellFormed(w)
  {
    forall x, y :: Hashed(h, v, x) && Hashed(h, w, y) && h(x) == h(y) ==> x == y
  }

  /** Numbers and lengths that fit the eight bytes they are written in, as every JavaScript length does. */
  ghost predicate Fits(v: Volume)
    requires WellFormed(v)
  {
    && (forall i :: i in v ==> Representable(v[i]))
    && |Groups(v)| < WORD
    && (forall f :: MultiplyLinked(v, f) ==> |Group(v, f)| < WORD && Short(Group(v, f)))
  }

  /** The same namespace: paths, content and which paths are one file; inode numbers are not compared. */
  ghost predicate SameNamespace(v: Volume, w: Volume) {
    && (forall p :: Lookup(v, ROOT, p).Some? <==> Lookup(w, ROOT, p).Some?)
    && (forall p :: Lookup(v, ROOT, p).Some? && Lookup(w, ROOT, p).Some? ==>
          SameContent(v[Lookup(v, ROOT, p).value], w[Lookup(w, ROOT, p).value]))
    && (forall p, q :: Lookup(v, ROOT, p).Some? && Lookup(v, ROOT, q).Some? ==>
          (Lookup(v, ROOT, p) == Lookup(v, ROOT, q) <==> Lookup(w, ROOT, p) == Lookup(w, ROOT, q)))
  }

  // ---------------------------------------------------------------- identical identities

  lemma EqualPreimages(h: Hash, v: Volume, i: Ino, w: Volume, j: Ino)
    requires WellFormed(v) && WellFormed(w) && NoCollision(h, v, w)
    requires Reached(v, i) && Reached(w, j) && Digest(h, v, i) == Digest(h, w, j)
    ensures NodePreimage(h, v, i) == NodePreimage(h, w, j)
  {
    hide WellFormed, NodePreimage, IdentityPreimage, Live;
    assert Hashed(h, v, NodePreimage(h, v, i)) && Hashed(h, w, NodePreimage(h, w, j));
  }

  /** Nodes with equal digests have the same content, names and child digests. */
  lemma EqualDigests(h: Hash, v: Volume, i: Ino, w: Volume, j: Ino)
    requires WellFormed(v) && WellFormed(w) && Fits(v) && Fits(w) && NoCollision(h, v, w)
    requires Reached(v, i) && Reached(w, j) && Digest(h, v, i) == Digest(h, w, j)
    ensures SameContent(v[i], w[j])
    ensures ChildrenOf(h, v, i) == ChildrenOf(h, w, j)
  {
    hide WellFormed, NoCollision, Digest, ChildrenOf, Preimage, Live, NamesOf, Representable;
    EqualPreimages(h, v, i, w, j);
    NamesFit(v, i);
    NamesFit(w, j);
    PreimageInjective(v[i], NamesOf(v[i]), ChildrenOf(h, v, i), w[j], NamesOf(w[j]), ChildrenOf(h, w, j));
    SameKindOfNode(h, v, i, w, j);
  }

  lemma SameKindOfNode(h: Hash, v: Volume, i: Ino, w: Volume, j: Ino)
    requires WellFormed(v) && WellFormed(w) && Reached(v, i) && Reached(w, j)
    requires SameContent(v[i], w[j])
    requires v[i].Directory? ==> NamesOf(v[i]) == NamesOf(w[j])
                                 && forall n :: n in NamesOf(v[i]) ==> ChildrenOf(h, v, i)[n] == ChildrenOf(h, w, j)[n]
    ensures ChildrenOf(h, v, i) == ChildrenOf(h, w, j)
  {
    hide WellFormed, Live, NamesOf, Children;
    if v[i].Directory? {
      assert forall n :: n in v[i].entries <==> n in NamesOf(v[i]);
      assert forall n :: n in w[j].entries <==> n in NamesOf(w[j]);
    }
  }

  lemma NamesFit(v: Volume, i: Ino)
    requires WellFormed(v) && Fits(v) && Reached(v, i)
    ensures |NamesOf(v[i])| < WORD && forall n :: n in NamesOf(v[i]) ==> |n| < WORD
    ensures Representable(v[i])
  {
    if v[i].Directory? {
      var names := SortedNames(v[i]);
      LexOrders(v[i].entries.Keys);
      AscendingDistinct(LexLess, v[i].entries.Keys, names);
      forall n | n in names ensures |n| < WORD {
        assert n in Elements(names);
        assert EntryOk(v, i, n, v[i].entries[n]);
      }
    }
  }

  /** Two directories with equal child digests list the same names, with equal digests below each. */
  lemma EqualChildren(h: Hash, v: Volume, d: Ino, w: Volume, e: Ino, n: Name)
    requires WellFormed(v) && WellFormed(w) && Reached(v, d) && Reached(w, e)
    requires SameContent(v[d], w[e]) && ChildrenOf(h, v, d) == ChildrenOf(h, w, e)
    ensures v[d].Directory? <==> w[e].Directory?
    ensures v[d].Directory? ==> (n in v[d].entries <==> n in w[e].entries)
    ensures v[d].Directory? && n in v[d].entries ==>
              var i, j := v[d].entries[n], w[e].entries[n];
              Reached(v, i) && Reached(w, j) && Digest(h, v, i) == Digest(h, w, j)
  {
    hide NodePreimage;
    if v[d].Directory? {
      assert ChildrenOf(h, v, d).Keys == v[d].entries.Keys && ChildrenOf(h, w, e).Keys == w[e].entries.Keys;
      if n in v[d].entries {
        ChildReached(v, d, n);
        ChildReached(w, e, n);
        assert Children(h, v, d)[n] == Children(h, w, e)[n];
      }
    }
  }

  /** Equal root digests give the same paths, with equal digests along them. */
  lemma {:induction false} DigestsAlong(h: Hash, v: Volume, w: Volume, p: Path)
    requires WellFormed(v) && WellFormed(w) && Fits(v) && Fits(w) && NoCollision(h, v, w)
    requires RootsEqual(h, v, w)
    ensures Lookup(v, ROOT, p).Some? <==> Lookup(w, ROOT, p).Some?
    ensures Lookup(v, ROOT, p).Some? ==>
              var i, j := Lookup(v, ROOT, p).value, Lookup(w, ROOT, p).value;
              Reached(v, i) && Reached(w, j) && Digest(h, v, i) == Digest(h, w, j) && SameContent(v[i], w[j])
    decreases |p|
  {
    hide NodePreimage, Fits, NoCollision, Digest, ChildrenOf, SameContent, Live;
    if p == [] {
      RootLive(v);
      RootLive(w);
      EqualDigests(h, v, ROOT, w, ROOT);
    } else {
      hide WellFormed, Lookup;
      var front, n := p[..|p| - 1], p[|p| - 1];
      assert p == front + [n];
      LookupSnoc(v, ROOT, front, n);
      LookupSnoc(w, ROOT, front, n);
      DigestsAlong(h, v, w, front);
      if Lookup(v, ROOT, front).Some? {
        var d, e := Lookup(v, ROOT, front).value, Lookup(w, ROOT, front).value;
        EqualDigests(h, v, d, w, e);
        EqualChildren(h, v, d, w, e, n);
        if v[d].Directory? && n in v[d].entries {
          EqualDigests(h, v, v[d].entries[n], w, w[e].entries[n]);
        }
      }
    }
  }

  ghost predicate RootsEqual(h: Hash, v: Volume, w: Volume)
    requires WellFormed(v) && WellFormed(w)
  {
    RootLive(v);
    RootLive(w);
    Digest(h, v, ROOT) == Digest(h, w, ROOT)
  }

  lemma {:induction false} GroupRowsInjective(a: seq<seq<bytes>>, b: seq<seq<bytes>>)
    requires |a| == |b| && GroupRows(a) == GroupRows(b)
    requires forall i :: 0 <= i < |a| ==> |a[i]| < WORD && Short(a[i])
    requires forall i :: 0 <= i < |b| ==> |b[i]| < WORD && Short(b[i])
    ensures a == b
    decreases |a|
  {
    hide U64, FrameAll;
    if a != [] {
      var ra, rb := GroupRows(a[1..]), GroupRows(b[1..]);
      assert GroupRows(a) == U64(|a[0]|) + (FrameAll(a[0]) + ra);
      assert GroupRows(b) == U64(|b[0]|) + (FrameAll(b[0]) + rb);
      SplitEqual(U64(|a[0]|), FrameAll(a[0]) + ra, U64(|b[0]|), FrameAll(b[0]) + rb);
      U64Injective(|a[0]|, |b[0]|);
      FrameAllInjective(a[0], ra, b[0], rb);
      GroupRowsInjective(a[1..], b[1..]);
      assert a == [a[0]] + a[1..] && b == [b[0]] + b[1..];
    }
  }

  lemma IdentityBytesInjective(root: bytes, a: seq<seq<bytes>>, other: bytes, b: seq<seq<bytes>>)
    requires |root| == |other| && |a| < WORD && |b| < WORD
    requires forall i :: 0 <= i < |a| ==> |a[i]| < WORD && Short(a[i])
    requires forall i :: 0 <= i < |b| ==> |b[i]| < WORD && Short(b[i])
    requires IdentityBytes(root, a) == IdentityBytes(other, b)
    ensures root == other && a == b
  {
    hide U64, GroupRows;
    SplitEqual(PREFIX, root + (U64(|a|) + GroupRows(a)), PREFIX, other + (U64(|b|) + GroupRows(b)));
    SplitEqual(root, U64(|a|) + GroupRows(a), other, U64(|b|) + GroupRows(b));
    SplitEqual(U64(|a|), GroupRows(a), U64(|b|), GroupRows(b));
    U64Injective(|a|, |b|);
    GroupRowsInjective(a, b);
  }

  lemma SortedGroupsFit(v: Volume)
    requires WellFormed(v) && Fits(v)
    ensures |SortedGroups(v)| < WORD
    ensures forall i :: 0 <= i < |SortedGroups(v)| ==> |SortedGroups(v)[i]| < WORD && Short(SortedGroups(v)[i])
  {
    var gs := SortedGroups(v);
    GroupsOrdered(v);
    AscendingDistinct(GroupLess, Groups(v), gs);
    forall i | 0 <= i < |gs| ensures |gs[i]| < WORD && Short(gs[i]) {
      assert gs[i] in Elements(gs);
      var f :| f in v && MultiplyLinked(v, f) && gs[i] == Group(v, f);
    }
  }

  /** Equal identities, unless two hashed byte strings collide, have equal roots and equal groups. */
  lemma EqualIdentities(h: Hash, v: Volume, w: Volume)
    requires WellFormed(v) && WellFormed(w) && Fits(v) && Fits(w) && NoCollision(h, v, w)
    requires Identity(h, v) == Identity(h, w)
    ensures RootsEqual(h, v, w) && Groups(v) == Groups(w)
  {
    NoneCollide(h, v, w);
    IdentityIs(h, v);
    IdentityIs(h, w);
    hide *;
    SortedGroupsFit(v);
    SortedGroupsFit(w);
    RootsAreEqual(h, v, w);
    IdentityBytesInjective(RootDigest(h, v), SortedGroups(v), RootDigest(h, w), SortedGroups(w));
  }

  ghost function RootDigest(h: Hash, v: Volume): bytes
    requires WellFormed(v)
  {
    RootLive(v);
    Digest(h, v, ROOT)
  }

  lemma IdentityIs(h: Hash, v: Volume)
    requires WellFormed(v)
    ensures IdentityPreimage(h, v) == IdentityBytes(RootDigest(h, v), SortedGroups(v)) && Identity(h, v) == h(IdentityPreimage(h, v))
  {
    RootLive(v);
    hide WellFormed, Digest, SortedGroups, IdentityBytes, Live;
  }

  lemma NoneCollide(h: Hash, v: Volume, w: Volume)
    requires WellFormed(v) && WellFormed(w) && NoCollision(h, v, w) && Identity(h, v) == Identity(h, w)
    ensures IdentityPreimage(h, v) == IdentityPreimage(h, w)
  {
    hide WellFormed, IdentityPreimage;
    assert Hashed(h, v, IdentityPreimage(h, v)) && Hashed(h, w, IdentityPreimage(h, w));
  }

  lemma RootsAreEqual(h: Hash, v: Volume, w: Volume)
    requires WellFormed(v) && WellFormed(w)
    ensures RootsEqual(h, v, w) <==> RootDigest(h, v) == RootDigest(h, w)
    ensures Elements(SortedGroups(v)) == Groups(v) && Elements(SortedGroups(w)) == Groups(w)
  {
    hide WellFormed, Digest, Groups, SortedGroups;
  }

  /** With equal groups, paths of one file in `v` are paths of one file in `w`. */
  lemma PartitionKept(v: Volume, w: Volume, p: Path, q: Path)
    requires WellFormed(v) && WellFormed(w) && Groups(v) <= Groups(w)
    requires Lookup(v, ROOT, p).Some? && Lookup(v, ROOT, p) == Lookup(v, ROOT, q)
    requires Lookup(w, ROOT, p).Some? && Lookup(w, ROOT, q).Some?
    ensures Lookup(w, ROOT, p) == Lookup(w, ROOT, q)
  {
    hide WellFormed, LinkPath, Lookup, Live, Group;
    if p != q {
      LookupBack(v, p);
      LookupBack(v, q);
      var f := Lookup(v, ROOT, p).value;
      var l :| l in v[f].links && Live(v, l.parent) && p == LinkPath(v, l);
      var m :| m in v[f].links && Live(v, m.parent) && q == LinkPath(v, m);
      TwoPathsTwoLinks(v, f, p, q);
      var g := SharedGroup(v, w, f);
      GroupMember(v, f, w, g, p, l);
      GroupMember(v, f, w, g, q, m);
    }
  }

  lemma SharedGroup(v: Volume, w: Volume, f: Ino) returns (g: Ino)
    requires WellFormed(v) && WellFormed(w) && Groups(v) <= Groups(w) && MultiplyLinked(v, f)
    ensures MultiplyLinked(w, g) && Group(v, f) == Group(w, g)
  {
    hide WellFormed, Group;
    assert Group(v, f) in Groups(v);
    g :| g in w && MultiplyLinked(w, g) && Group(v, f) == Group(w, g);
  }

  lemma GroupMember(v: Volume, f: Ino, w: Volume, g: Ino, p: Path, l: Link)
    requires WellFormed(v) && WellFormed(w) && MultiplyLinked(v, f) && MultiplyLinked(w, g)
    requires Group(v, f) == Group(w, g)
    requires l in v[f].links && Live(v, l.parent) && p == LinkPath(v, l)
    ensures Lookup(w, ROOT, p) == Some(g)
  {
    assert LinkOk(v, f, l);
    assert PathBytes(p) in FilePaths(v, f);
    assert PathBytes(p) in FilePaths(w, g);
    var m :| m in w[g].links && LinkOk(w, g, m) && PathBytes(p) == PathBytes(LinkPath(w, m));
    LinkLookup(v, f, l);
    LinkLookup(w, g, m);
    LookupGood(v, p);
    LookupGood(w, LinkPath(w, m));
    PathBytesInjective(p, LinkPath(w, m));
  }

  lemma IdentityTells(h: Hash, v: Volume, w: Volume)
    requires WellFormed(v) && WellFormed(w) && Fits(v) && Fits(w) && NoCollision(h, v, w)
    requires Identity(h, v) == Identity(h, w)
    ensures SameNamespace(v, w)
  {
    hide WellFormed, Fits, NoCollision, Identity, Lookup, SameContent, Groups;
    EqualIdentities(h, v, w);
    forall p
      ensures Lookup(v, ROOT, p).Some? <==> Lookup(w, ROOT, p).Some?
      ensures Lookup(v, ROOT, p).Some? && Lookup(w, ROOT, p).Some? ==>
                SameContent(v[Lookup(v, ROOT, p).value], w[Lookup(w, ROOT, p).value])
    {
      DigestsAlong(h, v, w, p);
    }
    forall p, q | Lookup(v, ROOT, p).Some? && Lookup(v, ROOT, q).Some?
      ensures Lookup(v, ROOT, p) == Lookup(v, ROOT, q) <==> Lookup(w, ROOT, p) == Lookup(w, ROOT, q)
    {
      assert Lookup(w, ROOT, p).Some? && Lookup(w, ROOT, q).Some?;
      if Lookup(v, ROOT, p) == Lookup(v, ROOT, q) { PartitionKept(v, w, p, q); }
      if Lookup(w, ROOT, p) == Lookup(w, ROOT, q) { PartitionKept(w, v, p, q); }
    }
  }

  // ---------------------------------------------------------------- the same namespace

  lemma {:induction false} SameDigests(h: Hash, v: Volume, w: Volume, p: Path)
    requires WellFormed(v) && WellFormed(w) && SameNamespace(v, w)
    requires Lookup(v, ROOT, p).Some?
    ensures var i, j := Lookup(v, ROOT, p).value, Lookup(w, ROOT, p).value;
            Reached(v, i) && Reached(w, j) && Digest(h, v, i) == Digest(h, w, j)
    decreases |v| - |p|
  {
    hide WellFormed, Live, SameNamespace, Lookup, Digest, ChildrenOf, Reached;
    var i, j := ReachBoth(v, w, p);
    ReachedShape(v, i);
    ReachedShape(w, j);
    if v[i].Directory? {
      forall n | n in v[i].entries || n in w[j].entries
        ensures n in v[i].entries && n in w[j].entries && ChildrenOf(h, v, i)[n] == ChildrenOf(h, w, j)[n]
      {
        StepBoth(v, w, p, n);
        SameDigests(h, v, w, p + [n]);
        ChildrenAt(h, v, i, n);
        ChildrenAt(h, w, j, n);
      }
      assert ChildrenOf(h, v, i) == ChildrenOf(h, w, j);
    }
    SameNodeDigest(h, v, i, w, j);
  }

  lemma ChildrenAt(h: Hash, v: Volume, d: Ino, n: Name)
    requires WellFormed(v) && Reached(v, d) && v[d].Directory? && n in v[d].entries
    ensures var c := v[d].entries[n]; Reached(v, c) && ChildrenOf(h, v, d)[n] == Digest(h, v, c)
  {
    hide NodePreimage;
    ChildReached(v, d, n);
    assert Children(h, v, d)[n] == ChildDigest(h, v, d, n);
  }

  lemma LeafChildren(h: Hash, v: Volume, i: Ino)
    requires WellFormed(v) && Reached(v, i)
    ensures !v[i].Directory? ==> ChildrenOf(h, v, i) == map[]
  {
  }

  lemma SameNodeDigest(h: Hash, v: Volume, i: Ino, w: Volume, j: Ino)
    requires WellFormed(v) && WellFormed(w) && Reached(v, i) && Reached(w, j) && SameContent(v[i], w[j])
    requires v[i].Directory? ==> v[i].entries.Keys == w[j].entries.Keys && ChildrenOf(h, v, i) == ChildrenOf(h, w, j)
    ensures Digest(h, v, i) == Digest(h, w, j)
  {
    hide WellFormed, Live, Preimage, ChildrenOf, NamesOf;
    LeafChildren(h, v, i);
    LeafChildren(h, w, j);
    if v[i].Directory? { SameNames(v[i], w[j]); }
    SamePreimage(v[i], w[j], NamesOf(v[i]), ChildrenOf(h, v, i));
  }

  lemma ReachBoth(v: Volume, w: Volume, p: Path) returns (i: Ino, j: Ino)
    requires WellFormed(v) && WellFormed(w) && SameNamespace(v, w) && Lookup(v, ROOT, p).Some?
    ensures Lookup(v, ROOT, p) == Some(i) && Lookup(w, ROOT, p) == Some(j)
    ensures Reached(v, i) && Reached(w, j) && SameContent(v[i], w[j])
    ensures v[i].Directory? ==> |p| < |v|
  {
    i, j := Lookup(v, ROOT, p).value, Lookup(w, ROOT, p).value;
    LookupReached(v, p);
    LookupReached(w, p);
    LookupBack(v, p);
    if v[i].Directory? {
      NamesLookup(v, i);
      LiveShallow(v, i);
    }
  }

  /** One more name leads on in one volume exactly when it does in the other. */
  lemma StepBoth(v: Volume, w: Volume, p: Path, n: Name)
    requires WellFormed(v) && WellFormed(w) && SameNamespace(v, w)
    requires Lookup(v, ROOT, p).Some? && Lookup(w, ROOT, p).Some?
    requires v[Lookup(v, ROOT, p).value].Directory? && w[Lookup(w, ROOT, p).value].Directory?
    ensures var d, e := Lookup(v, ROOT, p).value, Lookup(w, ROOT, p).value;
            && (n in v[d].entries <==> n in w[e].entries)
            && (n in v[d].entries ==> Lookup(v, ROOT, p + [n]) == Some(v[d].entries[n])
                                      && Lookup(w, ROOT, p + [n]) == Some(w[e].entries[n]))
  {
    var d, e := Lookup(v, ROOT, p).value, Lookup(w, ROOT, p).value;
    LookupReached(v, p);
    LookupReached(w, p);
    LookupSnoc(v, ROOT, p, n);
    LookupSnoc(w, ROOT, p, n);
    if n in v[d].entries { ChildReached(v, d, n); }
    if n in w[e].entries { ChildReached(w, e, n); }
  }

  lemma SameNames(a: Node, b: Node)
    requires a.Directory? && b.Directory? && a.entries.Keys == b.entries.Keys
    ensures NamesOf(a) == NamesOf(b)
  {
    LexOrders(a.entries.Keys);
    AscendingUnique(LexLess, a.entries.Keys, SortedNames(a), SortedNames(b));
  }

  lemma SamePreimage(a: Node, b: Node, names: seq<Name>, child: map<Name, bytes>)
    requires SameContent(a, b) && forall n :: n in names ==> n in child
    ensures Preimage(a, names, child) == Preimage(b, names, child)
  {
  }

  lemma SameGroup(v: Volume, w: Volume, f: Ino)
    requires WellFormed(v) && WellFormed(w) && SameNamespace(v, w) && MultiplyLinked(v, f)
    ensures Group(v, f) in Groups(w)
  {
    var l0, l1 := v[f].links[0], v[f].links[1];
    assert l0 in v[f].links && l1 in v[f].links && l0 != l1;
    hide WellFormed, SameNamespace, FilePaths, LinkPath, Lookup, Group;
    LinkLookup(v, f, l0);
    LinkLookup(v, f, l1);
    var p0, p1 := LinkPath(v, l0), LinkPath(v, l1);
    NamespaceAt(v, w, p0, p1);
    var g := Lookup(w, ROOT, p0).value;
    SameKind(v, w, p0);
    FilePathsInto(v, w, f, g, p0);
    FilePathsInto(w, v, g, f, p0);
    assert Lookup(w, ROOT, p1) == Some(g);
    if p0 == p1 { LinkPathInjective(v, l0, l1); }
    TwoPathsTwoLinks(w, g, p0, p1);
    SamePathsSameGroup(v, w, f, g);
    assert Group(w, g) in Groups(w);
  }

  lemma NamespaceAt(v: Volume, w: Volume, p: Path, q: Path)
    requires SameNamespace(v, w) && Lookup(v, ROOT, p).Some? && Lookup(v, ROOT, q).Some?
    ensures Lookup(w, ROOT, p).Some? && Lookup(w, ROOT, q).Some?
    ensures Lookup(v, ROOT, p) == Lookup(v, ROOT, q) <==> Lookup(w, ROOT, p) == Lookup(w, ROOT, q)
  {
    hide Lookup, SameContent;
  }

  lemma SameKind(v: Volume, w: Volume, p: Path)
    requires SameNamespace(v, w) && Lookup(v, ROOT, p).Some? && Lookup(w, ROOT, p).Some?
    ensures v[Lookup(v, ROOT, p).value].Directory? <==> w[Lookup(w, ROOT, p).value].Directory?
  {
    assert SameContent(v[Lookup(v, ROOT, p).value], w[Lookup(w, ROOT, p).value]);
  }

  lemma SamePathsSameGroup(v: Volume, w: Volume, f: Ino, g: Ino)
    requires MultiplyLinked(v, f) && MultiplyLinked(w, g) && WellFormed(v) && WellFormed(w)
    requires FilePaths(v, f) == FilePaths(w, g)
    ensures Group(v, f) == Group(w, g)
  {
    hide WellFormed, FilePaths;
    LexOrders(FilePaths(v, f));
    AscendingUnique(LexLess, FilePaths(v, f), Group(v, f), Group(w, g));
  }

  /** A file that two paths lead to has two links. */
  lemma TwoPathsTwoLinks(w: Volume, g: Ino, p: Path, q: Path)
    requires WellFormed(w) && Lookup(w, ROOT, p) == Some(g) && Lookup(w, ROOT, q) == Some(g) && p != q
    requires g in w && !w[g].Directory?
    ensures MultiplyLinked(w, g)
  {
    hide WellFormed, LinkPath, Lookup, Live;
    LookupBack(w, p);
    LookupBack(w, q);
    var l :| l in w[g].links && Live(w, l.parent) && p == LinkPath(w, l);
    var m :| m in w[g].links && Live(w, m.parent) && q == LinkPath(w, m);
    var a :| 0 <= a < |w[g].links| && w[g].links[a] == l;
    var b :| 0 <= b < |w[g].links| && w[g].links[b] == m;
    assert a != b;
  }

  lemma FilePathsInto(v: Volume, w: Volume, f: Ino, g: Ino, p: Path)
    requires WellFormed(v) && WellFormed(w) && SameNamespace(v, w)
    requires f in v && !v[f].Directory? && g in w && !w[g].Directory?
    requires Lookup(v, ROOT, p) == Some(f) && Lookup(w, ROOT, p) == Some(g)
    ensures FilePaths(v, f) <= FilePaths(w, g)
  {
    forall b | b in FilePaths(v, f) ensures b in FilePaths(w, g) {
      var l :| l in v[f].links && LinkOk(v, f, l) && b == PathBytes(LinkPath(v, l));
      LinkLookup(v, f, l);
      var q := LinkPath(v, l);
      assert Lookup(w, ROOT, q) == Some(g);
      LookupBack(w, q);
    }
  }

  lemma SameNamespaceSymmetric(v: Volume, w: Volume)
    requires SameNamespace(v, w)
    ensures SameNamespace(w, v)
  {
    forall p, q | Lookup(w, ROOT, p).Some? && Lookup(w, ROOT, q).Some?
      ensures Lookup(w, ROOT, p) == Lookup(w, ROOT, q) <==> Lookup(v, ROOT, p) == Lookup(v, ROOT, q)
    {
      assert Lookup(v, ROOT, p).Some? && Lookup(v, ROOT, q).Some?;
    }
  }

  /** The identity does not depend on anything but the namespace. */
  lemma SameIdentity(h: Hash, v: Volume, w: Volume)
    requires WellFormed(v) && WellFormed(w) && SameNamespace(v, w)
    ensures Identity(h, v) == Identity(h, w)
  {
    hide NodePreimage, Group, FilePaths;
    RootLive(v);
    RootLive(w);
    assert Lookup(v, ROOT, []) == Some(ROOT) && Lookup(w, ROOT, []) == Some(ROOT);
    SameDigests(h, v, w, []);
    SameNamespaceSymmetric(v, w);
    forall f | f in v && MultiplyLinked(v, f) ensures Group(v, f) in Groups(w) {
      SameGroup(v, w, f);
    }
    forall f | f in w && MultiplyLinked(w, f) ensures Group(w, f) in Groups(v) {
      SameGroup(w, v, f);
    }
    assert Groups(v) == Groups(w);
    GroupsOrdered(v);
    AscendingUnique(GroupLess, Groups(v), SortedGroups(v), SortedGroups(w));
  }

  /** Main result: short of a collision among the hashed byte strings, the identity identifies the namespace. */
  lemma IdentityIsNamespace(h: Hash, v: Volume, w: Volume)
    requires WellFormed(v) && WellFormed(w) && Fits(v) && Fits(w)
    ensures SameNamespace(v, w) ==> Identity(h, v) == Identity(h, w)
    ensures Identity(h, v) == Identity(h, w) && !SameNamespace(v, w) ==>
              exists x, y :: Hashed(h, v, x) && Hashed(h, w, y) && x != y && h(x) == h(y)
  {
    hide WellFormed, Fits, SameNamespace, Identity, Hashed;
    if SameNamespace(v, w) {
      SameIdentity(h, v, w);
    } else if Identity(h, v) == Identity(h, w) && NoCollision(h, v, w) {
      IdentityTells(h, v, w);
    }
  }

  // ---------------------------------------------------------------- renumbering

  function RenumberNode(f: map<Ino, Ino>, node: Node): Node
    requires node.Directory? ==> node.parent in f && forall n :: n in node.entries ==> node.entries[n] in f
    requires !node.Directory? ==> forall l :: l in node.links ==> l.parent in f
  {
    match node
    case Directory(parent, name, entries, m) => Directory(f[parent], name, map n | n in entries :: f[entries[n]], m)
    case File(links, data, m) =>
      File(seq(|links|, i requires 0 <= i < |links| => Link(f[links[i].parent], links[i].name)), data, m)
    case Symlink(links, target, m) =>
      Symlink(seq(|links|, i requires 0 <= i < |links| => Link(f[links[i].parent], links[i].name)), target, m)
  }

  /**
   * `w` is `v` with every inode number changed by an injective map that keeps the root; numbers of inodes that are gone
   * may be named by detached directories and are mapped too.
   */
  ghost predicate Renumbered(v: Volume, w: Volume, f: map<Ino, Ino>) {
    && v.Keys <= f.Keys && ROOT in f && f[ROOT] == ROOT
    && (forall i :: i in f ==> (i in v <==> f[i] in w))
    && (forall i, j :: i in f && j in f && f[i] == f[j] ==> i == j)
    && (forall i :: i in v ==>
          && (v[i].Directory? ==> v[i].parent in f && forall n :: n in v[i].entries ==> v[i].entries[n] in f)
          && (!v[i].Directory? ==> forall l :: l in v[i].links ==> l.parent in f)
          && f[i] in w && w[f[i]] == RenumberNode(f, v[i]))
  }

  lemma {:induction false} RenumberedLookup(v: Volume, w: Volume, f: map<Ino, Ino>, d: Ino, p: Path)
    requires Renumbered(v, w, f) && d in v
    ensures Lookup(w, f[d], p).Some? <==> Lookup(v, d, p).Some?
    ensures Lookup(v, d, p).Some? ==> Lookup(w, f[d], p).value == f[Lookup(v, d, p).value]
    decreases |p|
  {
    if p != [] && v[d].Directory? && p[0] in v[d].entries {
      var c := v[d].entries[p[0]];
      assert c in v <==> f[c] in w;
      if c in v { RenumberedLookup(v, w, f, c, p[1..]); }
    }
  }

  ghost predicate MatchedAt(v: Volume, w: Volume, f: map<Ino, Ino>, i: Ino, j: Ino) {
    i in v && i in f && j in w && f[i] == j && SameContent(v[i], w[j])
  }

  lemma RenumberedSame(v: Volume, w: Volume, f: map<Ino, Ino>)
    requires ROOT in v && Renumbered(v, w, f)
    ensures SameNamespace(v, w)
  {
    hide Lookup;
    forall p
      ensures Lookup(w, ROOT, p).Some? <==> Lookup(v, ROOT, p).Some?
      ensures Lookup(v, ROOT, p).Some? ==>
                MatchedAt(v, w, f, Lookup(v, ROOT, p).value, Lookup(w, ROOT, p).value)
    {
      RenumberedAt(v, w, f, p);
    }
  }

  lemma RenumberedAt(v: Volume, w: Volume, f: map<Ino, Ino>, p: Path)
    requires ROOT in v && Renumbered(v, w, f)
    ensures Lookup(w, ROOT, p).Some? <==> Lookup(v, ROOT, p).Some?
    ensures Lookup(v, ROOT, p).Some? ==>
              MatchedAt(v, w, f, Lookup(v, ROOT, p).value, Lookup(w, ROOT, p).value)
  {
    RenumberedLookup(v, w, f, ROOT, p);
    hide Lookup;
    if Lookup(v, ROOT, p).Some? { RenumberedNode(v, w, f, Lookup(v, ROOT, p).value); }
  }

  lemma RenumberedNode(v: Volume, w: Volume, f: map<Ino, Ino>, i: Ino)
    requires Renumbered(v, w, f) && i in v
    ensures i in f && MatchedAt(v, w, f, i, f[i])
  {
  }

  /** Inode numbers do not enter the identity. */
  lemma RenumberingKeepsIdentity(h: Hash, v: Volume, w: Volume, f: map<Ino, Ino>)
    requires WellFormed(v) && WellFormed(w) && Renumbered(v, w, f)
    ensures Identity(h, v) == Identity(h, w)
  {
    RenumberedSame(v, w, f);
    SameIdentity(h, v, w);
  }
}
