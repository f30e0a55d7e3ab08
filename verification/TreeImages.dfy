/**
 * The records written for a well-formed volume are accepted and restore to it: every inode, name, link, metadata and
 * payload a path reaches.
 */
module TreeImages {
  import opened Basics
  import opened CanonicalBase64
  import opened Forest
  import opened Volumes
  import opened Assembly
  import opened TreeMeter
  import opened TreeReader
  import opened TreeGraph
  import opened TreeMeaning
  import opened TreeVolume
  import opened TreeWriter

  /** Volumes whose inode numbers a tree image can hold, and whose symbolic links hold no NUL. */
  predicate Storable(v: Volume) {
    forall i :: i in v ==> ROOT <= i && (v[i].Symlink? ==> 0 !in v[i].target)
  }

  function Wires(v: Volume, inos: seq<Ino>): (r: seq<Wire>)
    requires forall i :: i in inos ==> i in v
    ensures |r| == |inos|
  {
    seq(|inos|, k requires 0 <= k < |inos| => assert inos[k] in inos; WireOf(inos[k], v[inos[k]]))
  }

  /** Snapshot records: every node at its first revision. */
  function Records(ws: seq<Wire>): (r: seq<Record>)
    ensures |r| == |ws| && forall k :: 0 <= k < |r| ==> r[k] == Record(ws[k], 1)
  {
    seq(|ws|, k requires 0 <= k < |ws| => Record(ws[k], 1))
  }

  /** The records of the nodes a path reaches. */
  ghost predicate RecordsOf(v: Volume, inos: seq<Ino>, rs: seq<Record>) {
    && WellFormed(v) && Storable(v) && TreeInos(v, inos) && |rs| == |inos|
    && (forall k :: 0 <= k < |inos| ==> inos[k] in v && rs[k] == Record(WireOf(inos[k], v[inos[k]]), 1))
  }

  /** What a path reaches, and nothing else. */
  ghost function Restrict(v: Volume): Volume {
    map i | i in v && Reached(v, i) :: v[i]
  }

  lemma IndexOf(v: Volume, inos: seq<Ino>, rs: seq<Record>, i: Ino) returns (k: nat)
    requires RecordsOf(v, inos, rs) && Reached(v, i)
    ensures k < |rs| && k < |inos| && inos[k] == i && i in v && rs[k] == Record(WireOf(i, v[i]), 1)
  {
    hide WellFormed, Reached, WireOf;
    k :| 0 <= k < |inos| && inos[k] == i;
  }

  lemma AtIndex(v: Volume, inos: seq<Ino>, rs: seq<Record>, k: nat)
    requires RecordsOf(v, inos, rs) && k < |rs|
    ensures k < |inos| && inos[k] in v && Reached(v, inos[k]) && rs[k] == Record(WireOf(inos[k], v[inos[k]]), 1)
    ensures k == 0 <==> inos[k] == ROOT
    ensures forall j :: 0 <= j < k ==> inos[j] < inos[k]
  {
    assert inos[k] in inos;
    RootLive(v);
    hide WellFormed, Live, WireOf;
    assert Reached(v, ROOT);
    var r :| 0 <= r < |inos| && inos[r] == ROOT;
    assert inos[0] in inos && Reached(v, inos[0]);
    if r > 0 { assert inos[0] < inos[r]; }
    if 0 < k { assert inos[0] < inos[k]; }
  }

  // ---------------------------------------------------------------- the records are accepted

  /** The names of a written record are the links of its node. */
  lemma WrittenName(v: Volume, inos: seq<Ino>, rs: seq<Record>, k: nat, p: nat)
    requires RecordsOf(v, inos, rs) && k < |rs| && p < |NamesAdded(rs[k].node, k)|
    ensures k < |inos| && inos[k] in v
    ensures var x, i := NamesAdded(rs[k].node, k)[p], inos[k];
            && Live(v, x.parent) && x.parent in v && v[x.parent].Directory?
            && x.name in v[x.parent].entries && v[x.parent].entries[x.name] == i && IsName(x.name)
            && (v[i].Directory? ==> k > 0 && p == 0 && |NamesAdded(rs[k].node, k)| == 1)
            && (!v[i].Directory? ==> p < |v[i].links| && v[i].links[p] == Link(x.parent, x.name))
  {
    AtIndex(v, inos, rs, k);
    var i := inos[k];
    var x := NamesAdded(rs[k].node, k)[p];
    if v[i].Directory? {
      LiveParent(v, i);
      assert EntryOk(v, v[i].parent, v[i].name, i);
      hide WellFormed, Live, ToBytes, ToText, IsName;
    } else {
      var l := v[i].links[p];
      assert l in v[i].links && LinkOk(v, i, l) && EntryOk(v, l.parent, l.name, i);
      hide WellFormed, Live, ToBytes, ToText, IsName;
    }
  }

  lemma WrittenAccepted(v: Volume, inos: seq<Ino>, rs: seq<Record>, k: nat)
    requires RecordsOf(v, inos, rs) && k < |rs|
    ensures Refusal(None, Previous(rs[..k]), rs[k], k).None?
  {
    WrittenPlace(v, inos, rs, k);
    AtIndex(v, inos, rs, k);
    var i := inos[k];
    if v[i].Directory? {
      WrittenDirectory(v, inos, rs, k);
    } else {
      WrittenLeaf(v, inos, rs, k);
    }
    hide RecordsOf, WellFormed, LeafRefusal, PlaceRefusal, BadName, IsRoot, Reached;
  }

  lemma WrittenPlace(v: Volume, inos: seq<Ino>, rs: seq<Record>, k: nat)
    requires RecordsOf(v, inos, rs) && k < |rs|
    ensures PlaceRefusal(None, Previous(rs[..k]), rs[k], k).None?
  {
    hide *;
    AtIndex(v, inos, rs, k);
    WireIno(inos[k], v[inos[k]]);
    if k > 0 {
      AtIndex(v, inos, rs, k - 1);
      WireIno(inos[k - 1], v[inos[k - 1]]);
      PreviousAt(rs, k);
    } else {
      WrittenRoot(v, inos, rs);
    }
    PlaceFits(Previous(rs[..k]), rs[k], k);
  }

  lemma PreviousAt(rs: seq<Record>, k: nat)
    requires 0 < k <= |rs|
    ensures Previous(rs[..k]) == rs[k - 1].node.ino
  {
  }

  lemma PlaceFits(previous: nat, r: Record, k: nat)
    requires if k == 0 then IsRoot(r.node) else previous < r.node.ino
    ensures PlaceRefusal(None, previous, r, k).None?
  {
  }

  lemma WrittenRoot(v: Volume, inos: seq<Ino>, rs: seq<Record>)
    requires RecordsOf(v, inos, rs) && rs != []
    ensures IsRoot(rs[0].node)
  {
    AtIndex(v, inos, rs, 0);
    assert ToText([]) == "" by { assert Encode([]) == ""; }
  }

  lemma WrittenLeaf(v: Volume, inos: seq<Ino>, rs: seq<Record>, k: nat)
    requires RecordsOf(v, inos, rs) && k < |rs| && k < |inos| && inos[k] in v && !v[inos[k]].Directory?
    ensures !rs[k].node.WireDirectory? && LeafRefusal(None, rs[k].node, k).None?
  {
    AtIndex(v, inos, rs, k);
    var i := inos[k];
    var node := v[i];
    assert node.links != [];
    if node.Symlink? { StorableTarget(v, inos, rs, i); }
    hide WellFormed, Live, RecordsOf, ToBytes, ToText, IsName, FirstBadLink, WireLinks;
    GoodLinks(v, i);
    LeafFits(node, i, k);
  }

  lemma GoodLinks(v: Volume, i: Ino)
    requires WellFormed(v) && i in v && !v[i].Directory?
    ensures FirstBadLink(WireLinks(v[i].links), 0).None?
  {
    hide WellFormed, ToBytes, ToText, IsName;
    var links := v[i].links;
    forall p | 0 <= p < |links| ensures !BadName(WireLinks(links)[p].name) { LinkIsName(v, i, p); }
  }

  lemma LeafFits(node: Node, i: Ino, k: nat)
    requires !node.Directory? && node.links != [] && FirstBadLink(WireLinks(node.links), 0).None?
    requires node.Symlink? ==> 0 !in node.target
    ensures !WireOf(i, node).WireDirectory? && LeafRefusal(None, WireOf(i, node), k).None?
  {
    hide ToBytes, ToText, FirstBadLink;
  }

  lemma StorableTarget(v: Volume, inos: seq<Ino>, rs: seq<Record>, i: Ino)
    requires RecordsOf(v, inos, rs) && i in v && v[i].Symlink?
    ensures 0 !in v[i].target
  {
    hide WellFormed;
  }

  lemma LinkIsName(v: Volume, i: Ino, p: nat)
    requires WellFormed(v) && i in v && !v[i].Directory? && p < |v[i].links|
    ensures IsName(v[i].links[p].name)
  {
    var l := v[i].links[p];
    assert l in v[i].links && LinkOk(v, i, l) && EntryOk(v, l.parent, l.name, i);
  }

  lemma WrittenDirectory(v: Volume, inos: seq<Ino>, rs: seq<Record>, k: nat)
    requires RecordsOf(v, inos, rs) && k < |rs| && inos[k] in v && v[inos[k]].Directory?
    ensures var w := rs[k].node; w.WireDirectory? && (k > 0 ==> !BadName(w.name))
  {
    AtIndex(v, inos, rs, k);
    var i := inos[k];
    if k > 0 {
      LiveParent(v, i);
      assert EntryOk(v, v[i].parent, v[i].name, i);
    }
  }

  lemma WrittenOk(v: Volume, inos: seq<Ino>, rs: seq<Record>)
    requires RecordsOf(v, inos, rs)
    ensures RecordsOk(None, rs) && AllInline(rs) && rs != [] && inos != []
  {
    hide RecordsOf, Refusal;
    forall k | 0 <= k < |rs| ensures Refusal(None, Previous(rs[..k]), rs[k], k).None? { WrittenAccepted(v, inos, rs, k); }
    OkInline(None, rs);
    HoldsRoot(v, inos, rs);
  }

  lemma HoldsRoot(v: Volume, inos: seq<Ino>, rs: seq<Record>)
    requires RecordsOf(v, inos, rs)
    ensures rs != [] && inos != []
  {
    RootLive(v);
    var k := IndexOf(v, inos, rs, ROOT);
  }

  lemma WrittenNamesOnce(v: Volume, inos: seq<Ino>, rs: seq<Record>)
    requires RecordsOf(v, inos, rs)
    ensures NamesOnce(AllNames(rs))
  {
    hide *;
    var names := AllNames(rs);
    forall j, k | 0 <= j < k < |names| ensures !SameName(names[j], names[k]) {
      var a, p := NameFrom(rs, j);
      var b, q := NameFrom(rs, k);
      WrittenName(v, inos, rs, a, p);
      WrittenName(v, inos, rs, b, q);
      WrittenApart(v, inos, rs, a, p, b, q);
    }
    OnceIntro(names);
  }

  lemma OnceIntro(names: seq<Named>)
    requires forall j, k :: 0 <= j < k < |names| ==> !SameName(names[j], names[k])
    ensures NamesOnce(names)
  {
  }

  lemma WrittenApart(v: Volume, inos: seq<Ino>, rs: seq<Record>, a: nat, p: nat, b: nat, q: nat)
    requires RecordsOf(v, inos, rs) && a < |rs| && p < |NamesAdded(rs[a].node, a)| && b < |rs| && q < |NamesAdded(rs[b].node, b)|
    requires |AllNames(rs[..a])| + p < |AllNames(rs[..b])| + q
    ensures !SameName(NamesAdded(rs[a].node, a)[p], NamesAdded(rs[b].node, b)[q])
  {
    WrittenName(v, inos, rs, a, p);
    WrittenName(v, inos, rs, b, q);
    if a != b {
      if a < b { AtIndex(v, inos, rs, b); } else { AtIndex(v, inos, rs, a); }
      assert inos[a] != inos[b];
    } else if !v[inos[a]].Directory? {
      var links := v[inos[a]].links;
      assert NoRepeats(links);
      assert p < q && links[p] != links[q];
    }
  }

  lemma WrittenHang(v: Volume, inos: seq<Ino>, rs: seq<Record>, t: Tree)
    requires RecordsOf(v, inos, rs) && DirectoryFields(rs, t) && t.names == AllNames(rs)
    ensures NamesHang(t.names, t.parents)
    ensures forall d :: d in t.parents <==> Live(v, d)
    ensures forall d :: d in t.parents ==> d in v && v[d].Directory? && t.parents[d] == v[d].parent
  {
    forall d ensures d in t.parents <==> Live(v, d) { LiveRecord(v, inos, rs, t, d); }
    forall d | d in t.parents ensures d in v && v[d].Directory? && t.parents[d] == v[d].parent { LiveRecord(v, inos, rs, t, d); }
    hide RecordsOf, DirectoryFields, Live, NamesAdded, AllNames;
    forall k | 0 <= k < |t.names| ensures t.names[k].parent in t.parents {
      var i, p := NameFrom(rs, k);
      WrittenName(v, inos, rs, i, p);
    }
  }

  lemma LiveRecord(v: Volume, inos: seq<Ino>, rs: seq<Record>, t: Tree, d: Ino)
    requires RecordsOf(v, inos, rs) && DirectoryFields(rs, t)
    ensures d in t.parents <==> Live(v, d)
    ensures d in t.parents ==> d in v && v[d].Directory? && t.parents[d] == v[d].parent
  {
    if Live(v, d) {
      assert d in v && v[d].Directory? && Reached(v, d);
      var k := IndexOf(v, inos, rs, d);
    }
    hide WellFormed, Live, ToText;
    if d in t.parents {
      var k :| 0 <= k < |rs| && rs[k].node.WireDirectory? && rs[k].node.ino == d;
      AtIndex(v, inos, rs, k);
    }
  }

  /** Reaching the root in the volume is reaching it through the written parents. */
  lemma {:induction false} WrittenClimbs(v: Volume, parents: Parents, d: Ino, k: nat)
    requires WellFormed(v) && Climbs(Up(v), d, k)
    requires forall m :: m in parents <==> Live(v, m)
    requires forall m :: m in parents ==> m in v && v[m].Directory? && parents[m] == v[m].parent
    ensures Climbs(parents, d, k)
    decreases k
  {
    hide WellFormed;
    assert Live(v, d);
    if k > 0 { WrittenClimbs(v, parents, v[d].parent, k - 1); }
  }

  lemma WrittenGraph(v: Volume, inos: seq<Ino>, rs: seq<Record>)
    requires RecordsOf(v, inos, rs)
    ensures Accepted(None, rs)
  {
    WrittenOk(v, inos, rs);
    TreeDirectories(None, rs);
    TreeNames(false, rs);
    WrittenNamesOnce(v, inos, rs);
    var t := TreeOf(false, rs);
    hide TreeOf, RecordsOk, AllNames;
    WrittenHang(v, inos, rs, t);
    hide DirectoryFields;
    forall d | d in t.parents ensures Attached(t.parents, d) {
      assert Live(v, d);
      var k: nat :| Climbs(Up(v), d, k);
      WrittenClimbs(v, t.parents, d, k);
    }
  }

  // ---------------------------------------------------------------- and restore to the volume

  /** The specification of a node that a path reaches. */
  lemma WrittenSpec(v: Volume, inos: seq<Ino>, rs: seq<Record>, c: Ino)
    requires RecordsOf(v, inos, rs) && Accepted(None, rs)
    ensures c in Specs(None, rs) <==> Reached(v, c)
    ensures c in Specs(None, rs) ==> c in v && Specs(None, rs)[c] == SpecRead(WireOf(c, v[c]))
  {
    TreeSpecs(None, rs);
    hide WellFormed, RecordsOk, GraphOk, SpecRead, TreeOf, SpecMap, Reached, WireOf;
    if c in Specs(None, rs) {
      var k := RecordFor(None, rs, c);
      AtIndex(v, inos, rs, k);
      WireIno(inos[k], v[inos[k]]);
    }
    if Reached(v, c) {
      var k := IndexOf(v, inos, rs, c);
      WireIno(c, v[c]);
    }
  }

  lemma WireIno(i: Ino, node: Node)
    ensures WireOf(i, node).ino == i && !Retained(false, WireOf(i, node))
    ensures WireOf(i, node).WireFile? ==> WireOf(i, node).content.Inline?
  {
  }

  lemma LinksBack(links: seq<Link>)
    ensures Links(WireLinks(links)) == links
  {
    hide ToBytes, ToText;
  }

  /** A node claims a name exactly when the volume lists it there. */
  lemma WrittenClaims(v: Volume, inos: seq<Ino>, rs: seq<Record>, d: Ino, n: Name, c: Ino)
    requires RecordsOf(v, inos, rs) && Accepted(None, rs) && Live(v, d)
    ensures d in v && v[d].Directory?
    ensures c in Specs(None, rs) && n in NamesIn(Specs(None, rs), c, d) <==> n in v[d].entries && v[d].entries[n] == c
  {
    WrittenSpec(v, inos, rs, c);
    var specs := Specs(None, rs);
    if c in specs && n in NamesIn(specs, c, d) { ClaimedListed(v, inos, rs, d, n, c); }
    if n in v[d].entries && v[d].entries[n] == c {
      ChildReached(v, d, n);
      assert EntryOk(v, d, n, c);
      hide WellFormed, Live, Accepted, TreeOf, ToBytes, ToText, Specs;
      if !v[c].Directory? {
        LinksBack(v[c].links);
        assert Link(d, n) in v[c].links;
      }
    }
  }

  lemma ClaimedListed(v: Volume, inos: seq<Ino>, rs: seq<Record>, d: Ino, n: Name, c: Ino)
    requires RecordsOf(v, inos, rs) && Accepted(None, rs) && Live(v, d)
    requires c in Specs(None, rs) && n in NamesIn(Specs(None, rs), c, d)
    ensures d in v && v[d].Directory? && n in v[d].entries && v[d].entries[n] == c
  {
    var i, p := ClaimPlace(None, rs, c, d, n);
    WrittenName(v, inos, rs, i, p);
    AtIndex(v, inos, rs, i);
    WireIno(inos[i], v[inos[i]]);
  }

  lemma WrittenNode(v: Volume, inos: seq<Ino>, rs: seq<Record>, c: Ino)
    requires RecordsOf(v, inos, rs) && Accepted(None, rs)
    ensures c in Image(None, rs) <==> Reached(v, c)
    ensures Reached(v, c) ==> c in v && Image(None, rs)[c] == v[c]
  {
    WrittenSpec(v, inos, rs, c);
    ImageNode(None, rs, c);
    if Reached(v, c) {
      if v[c].Directory? {
        WrittenEntries(v, inos, rs, c);
        hide WellFormed, Accepted, Image, Specs, NoNameTwice, EntriesIn, ToBytes, ToText, Reached;
      } else {
        LinksBack(v[c].links);
        hide WellFormed, Accepted, Image, Specs, NoNameTwice, EntriesIn, ToBytes, ToText, Reached, Links, WireLinks;
      }
    }
  }

  lemma WrittenEntries(v: Volume, inos: seq<Ino>, rs: seq<Record>, d: Ino)
    requires RecordsOf(v, inos, rs) && Accepted(None, rs) && Live(v, d) && d in v && v[d].Directory?
    ensures NoNameTwice(Specs(None, rs)) && EntriesIn(Specs(None, rs), d) == v[d].entries
  {
    ImageNoNameTwice(None, rs);
    var specs := Specs(None, rs);
    hide RecordsOf, Accepted, Specs, NamesIn, NoNameTwice, Live;
    var m := EntriesIn(specs, d);
    forall n ensures n in m <==> n in v[d].entries {
      if n in m { WrittenClaims(v, inos, rs, d, n, m[n]); }
      if n in v[d].entries { WrittenClaims(v, inos, rs, d, n, v[d].entries[n]); }
    }
    forall n | n in m && n in v[d].entries ensures m[n] == v[d].entries[n] { WrittenClaims(v, inos, rs, d, n, m[n]); }
  }

  /** Main result: reading what was written for a volume restores everything a path reaches in it. */
  lemma WrittenRestores(v: Volume, inos: seq<Ino>, rs: seq<Record>)
    requires RecordsOf(v, inos, rs)
    ensures Accepted(None, rs) && Image(None, rs) == Restrict(v)
  {
    WrittenGraph(v, inos, rs);
    hide RecordsOf, Accepted, Image, Reached;
    forall c ensures c in Image(None, rs) <==> Reached(v, c) { WrittenNode(v, inos, rs, c); }
    forall c | Reached(v, c) ensures c in v && Image(None, rs)[c] == v[c] { WrittenNode(v, inos, rs, c); }
  }
}
