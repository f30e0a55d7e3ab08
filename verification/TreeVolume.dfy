/** The volume an accepted tree image restores to is well formed, and a path leads to every node of it. */
module TreeVolume {
  import opened Basics
  import opened Forest
  import opened Volumes
  import opened Assembly
  import opened TreeMeter
  import opened TreeReader
  import opened TreeGraph
  import opened TreeMeaning

  /** An image the reader accepts to the end. */
  ghost predicate Accepted(runtime: Option<Runtime>, rs: seq<Record>) {
    && rs != [] && RecordsOk(runtime, rs) && AllInline(rs)
    && GraphOk(TreeOf(runtime.Some?, rs).names, TreeOf(runtime.Some?, rs).parents)
  }

  ghost function Specs(runtime: Option<Runtime>, rs: seq<Record>): map<Ino, Spec>
    requires AllInline(rs)
  {
    SpecMap(TreeOf(runtime.Some?, rs).items)
  }

  lemma AcceptedRecords(runtime: Option<Runtime>, rs: seq<Record>)
    requires Accepted(runtime, rs)
    ensures rs != [] && RecordsOk(runtime, rs) && AllInline(rs)
  {
  }

  /** The record a node came from. */
  lemma RecordFor(runtime: Option<Runtime>, rs: seq<Record>, c: Ino) returns (i: nat)
    requires RecordsOk(runtime, rs) && AllInline(rs) && c in Specs(runtime, rs)
    ensures i < |rs| && rs[i].node.ino == c && !Retained(runtime.Some?, rs[i].node)
    ensures Specs(runtime, rs)[c] == SpecRead(rs[i].node) && RecordFacts(runtime.Some?, rs[i].node, i)
    ensures i == 0 <==> c == ROOT
  {
    hide RecordsOk, SpecRead, RecordFacts;
    TreeSpecs(runtime, rs);
    i :| 0 <= i < |rs| && !Retained(runtime.Some?, rs[i].node) && rs[i].node.ino == c;
    RecordHolds(runtime, rs, i);
    RootRecord(runtime, rs, i);
  }

  lemma RootRecord(runtime: Option<Runtime>, rs: seq<Record>, i: nat)
    requires RecordsOk(runtime, rs) && i < |rs|
    ensures IsRoot(rs[0].node) && (i == 0 <==> rs[i].node.ino == ROOT)
  {
    hide RecordsOk;
    RecordHolds(runtime, rs, i);
    RecordHolds(runtime, rs, 0);
  }

  /** A claimed name is one of the names of the claiming record. */
  lemma ClaimPlace(runtime: Option<Runtime>, rs: seq<Record>, c: Ino, d: Ino, n: Name) returns (i: nat, p: nat)
    requires RecordsOk(runtime, rs) && AllInline(rs) && c in Specs(runtime, rs)
    requires n in NamesIn(Specs(runtime, rs), c, d)
    ensures i < |rs| && rs[i].node.ino == c && p < |NamesAdded(rs[i].node, i)|
    ensures NamesAdded(rs[i].node, i)[p].parent == d && NamesAdded(rs[i].node, i)[p].name == n && IsName(n) && c != ROOT
  {
    hide *;
    i := RecordFor(runtime, rs, c);
    p := ClaimIn(runtime.Some?, Specs(runtime, rs), c, d, n, rs[i].node, i);
  }

  lemma ClaimIn(live: bool, specs: map<Ino, Spec>, c: Ino, d: Ino, n: Name, w: Wire, i: nat) returns (p: nat)
    requires c in specs && w.ino == c && RecordFacts(live, w, i) && specs[c] == SpecRead(w)
    requires n in NamesIn(specs, c, d) && (i == 0 <==> c == ROOT)
    ensures p < |NamesAdded(w, i)| && NamesAdded(w, i)[p].parent == d && NamesAdded(w, i)[p].name == n && IsName(n) && c != ROOT
  {
    hide ToBytes, IsName;
    if w.WireDirectory? {
      p := 0;
    } else {
      var l :| l in Links(w.links) && l.parent == d && l.name == n;
      p :| 0 <= p < |Links(w.links)| && Links(w.links)[p] == l;
    }
  }

  /** A name of a record is claimed by its node. */
  lemma PlaceClaims(runtime: Option<Runtime>, rs: seq<Record>, i: nat, p: nat)
    requires RecordsOk(runtime, rs) && AllInline(rs) && i < |rs| && p < |NamesAdded(rs[i].node, i)|
    ensures var c, x := rs[i].node.ino, NamesAdded(rs[i].node, i)[p];
            c in Specs(runtime, rs) && x.name in NamesIn(Specs(runtime, rs), c, x.parent)
  {
    hide *;
    RootRecord(runtime, rs, i);
    NamedSpec(runtime, rs, i, p);
    ClaimOut(Specs(runtime, rs), rs[i].node, i, p);
  }

  /** A record that adds a name is not a retained file. */
  lemma NamedSpec(runtime: Option<Runtime>, rs: seq<Record>, i: nat, p: nat)
    requires RecordsOk(runtime, rs) && AllInline(rs) && i < |rs| && p < |NamesAdded(rs[i].node, i)|
    ensures var c := rs[i].node.ino;
            && (rs[i].node.WireFile? ==> rs[i].node.content.Inline?)
            && c in Specs(runtime, rs) && Specs(runtime, rs)[c] == SpecRead(rs[i].node)
  {
    TreeSpecs(runtime, rs);
    hide RecordsOk, ToBytes, TreeOf, SpecMap, SpecRead;
    assert !Retained(runtime.Some?, rs[i].node);
  }

  lemma ClaimOut(specs: map<Ino, Spec>, w: Wire, i: nat, p: nat)
    requires p < |NamesAdded(w, i)| && (i == 0 <==> w.ino == ROOT) && (w.WireFile? ==> w.content.Inline?)
    requires w.ino in specs && specs[w.ino] == SpecRead(w)
    ensures var x := NamesAdded(w, i)[p]; x.name in NamesIn(specs, w.ino, x.parent)
  {
    hide ToBytes;
    if !w.WireDirectory? {
      var x := NamesAdded(w, i)[p];
      assert Links(w.links)[p] in Links(w.links);
      assert Links(w.links)[p] == Link(x.parent, x.name);
    }
  }

  /** Two nodes never claim the same name, and a node never claims it twice. */
  lemma SameClaim(runtime: Option<Runtime>, rs: seq<Record>, i: nat, p: nat, j: nat, q: nat)
    requires Accepted(runtime, rs)
    requires i < |rs| && p < |NamesAdded(rs[i].node, i)| && j < |rs| && q < |NamesAdded(rs[j].node, j)|
    requires SameName(NamesAdded(rs[i].node, i)[p], NamesAdded(rs[j].node, j)[q])
    ensures i == j && p == q
  {
    TreeNames(runtime.Some?, rs);
    hide RecordsOk, NamesAdded, TreeOf, AllNames;
    NameAt(rs, i, p);
    NameAt(rs, j, q);
    var k, m := |AllNames(rs[..i])| + p, |AllNames(rs[..j])| + q;
    assert !(k < m) && !(m < k);
    NamePlaces(rs, i, p, j, q);
  }

  lemma ImageNoNameTwice(runtime: Option<Runtime>, rs: seq<Record>)
    requires Accepted(runtime, rs)
    ensures NoNameTwice(Specs(runtime, rs))
  {
    hide RecordsOk, AllInline, Specs, GraphOk, NamesIn, NamesAdded;
    var specs := Specs(runtime, rs);
    forall c, e, d, n | c in specs && e in specs && n in NamesIn(specs, c, d) && n in NamesIn(specs, e, d) ensures c == e {
      var i, p := ClaimPlace(runtime, rs, c, d, n);
      var j, q := ClaimPlace(runtime, rs, e, d, n);
      SameClaim(runtime, rs, i, p, j, q);
    }
  }

  /** The volume the image restores to. */
  ghost function Image(runtime: Option<Runtime>, rs: seq<Record>): Volume
    requires Accepted(runtime, rs)
  {
    ImageNoNameTwice(runtime, rs);
    Assemble(Specs(runtime, rs))
  }

  lemma ImageNode(runtime: Option<Runtime>, rs: seq<Record>, c: Ino)
    requires Accepted(runtime, rs)
    ensures c in Image(runtime, rs) <==> c in Specs(runtime, rs)
    ensures c in Image(runtime, rs) ==> NoNameTwice(Specs(runtime, rs)) && Image(runtime, rs)[c] == AssembleNode(Specs(runtime, rs), c)
  {
    ImageNoNameTwice(runtime, rs);
    hide Accepted, AssembleNode, NoNameTwice, Specs;
  }

  /** A directory record is a directory of the volume. */
  lemma ImageDirectory(runtime: Option<Runtime>, rs: seq<Record>, d: Ino)
    requires Accepted(runtime, rs)
    ensures d in Image(runtime, rs) && Image(runtime, rs)[d].Directory? <==> d in TreeOf(runtime.Some?, rs).parents
    ensures d in TreeOf(runtime.Some?, rs).parents ==> Image(runtime, rs)[d].parent == TreeOf(runtime.Some?, rs).parents[d]
  {
    hide *;
    AcceptedRecords(runtime, rs);
    ImageNode(runtime, rs, d);
    TreeDirectories(runtime, rs);
    TreeSpecs(runtime, rs);
    if d in Image(runtime, rs) && Image(runtime, rs)[d].Directory? {
      var i := RecordFor(runtime, rs, d);
      DirectoryNode(Specs(runtime, rs), d, rs[i].node);
      FieldAt(rs, TreeOf(runtime.Some?, rs), i);
    }
    if d in TreeOf(runtime.Some?, rs).parents {
      var i := FieldFrom(rs, TreeOf(runtime.Some?, rs), d);
      SpecAt(runtime, rs, i);
      DirectoryNode(Specs(runtime, rs), d, rs[i].node);
    }
  }

  lemma DirectoryNode(specs: map<Ino, Spec>, c: Ino, w: Wire)
    requires NoNameTwice(specs) && c in specs && (w.WireFile? ==> w.content.Inline?) && specs[c] == SpecRead(w)
    ensures AssembleNode(specs, c).Directory? <==> w.WireDirectory?
    ensures w.WireDirectory? ==> AssembleNode(specs, c).parent == w.parent
  {
    hide NoNameTwice, EntriesIn, ToBytes, Links;
  }

  lemma FieldAt(rs: seq<Record>, t: Tree, i: nat)
    requires DirectoryFields(rs, t) && i < |rs|
    ensures rs[i].node.WireDirectory? ==> rs[i].node.ino in t.parents && t.parents[rs[i].node.ino] == rs[i].node.parent
  {
  }

  lemma FieldFrom(rs: seq<Record>, t: Tree, d: Ino) returns (i: nat)
    requires DirectoryFields(rs, t) && d in t.parents
    ensures i < |rs| && rs[i].node.WireDirectory? && rs[i].node.ino == d && t.parents[d] == rs[i].node.parent
  {
    i :| 0 <= i < |rs| && rs[i].node.WireDirectory? && rs[i].node.ino == d;
  }

  lemma SpecAt(runtime: Option<Runtime>, rs: seq<Record>, i: nat)
    requires RecordsOk(runtime, rs) && AllInline(rs) && i < |rs| && rs[i].node.WireDirectory?
    ensures rs[i].node.ino in Specs(runtime, rs) && Specs(runtime, rs)[rs[i].node.ino] == SpecRead(rs[i].node)
  {
    TreeSpecs(runtime, rs);
    hide RecordsOk, SpecMap, TreeOf, SpecRead;
  }

  /** The entries of a directory are the claims on it. */
  lemma ImageEntry(runtime: Option<Runtime>, rs: seq<Record>, d: Ino, n: Name, c: Ino)
    requires Accepted(runtime, rs)
    requires d in Image(runtime, rs) && Image(runtime, rs)[d].Directory?
    ensures n in Image(runtime, rs)[d].entries && Image(runtime, rs)[d].entries[n] == c
            <==> c in Specs(runtime, rs) && n in NamesIn(Specs(runtime, rs), c, d)
  {
    ImageNode(runtime, rs, d);
    hide Accepted, Image, Specs, NamesIn, NoNameTwice;
    var specs := Specs(runtime, rs);
    var m := EntriesIn(specs, d);
    assert Image(runtime, rs)[d].entries == m;
  }

  lemma PlaceListed(runtime: Option<Runtime>, rs: seq<Record>, i: nat, p: nat)
    requires Accepted(runtime, rs) && i < |rs| && p < |NamesAdded(rs[i].node, i)|
    ensures var x, v := NamesAdded(rs[i].node, i)[p], Image(runtime, rs);
            x.parent in v && v[x.parent].Directory? && x.parent in TreeOf(runtime.Some?, rs).parents
            && x.name in v[x.parent].entries && v[x.parent].entries[x.name] == rs[i].node.ino
  {
    NameAt(rs, i, p);
    TreeNames(runtime.Some?, rs);
    var x := NamesAdded(rs[i].node, i)[p];
    assert x.parent in TreeOf(runtime.Some?, rs).parents;
    PlaceClaims(runtime, rs, i, p);
    ImageDirectory(runtime, rs, x.parent);
    hide Accepted, Image, Specs, NamesIn, TreeOf, NamesAdded;
    ImageEntry(runtime, rs, x.parent, x.name, rs[i].node.ino);
  }

  /** Every directory but the root is listed by its parent under its own name. */
  lemma ImageHooked(runtime: Option<Runtime>, rs: seq<Record>, d: Ino)
    requires Accepted(runtime, rs) && d in TreeOf(runtime.Some?, rs).parents && d != ROOT
    ensures Hooked(Image(runtime, rs), d)
  {
    ImageDirectory(runtime, rs, d);
    ImageNode(runtime, rs, d);
    var i := RecordFor(runtime, rs, d);
    var w := rs[i].node;
    hide RecordsOk, GraphOk, Image, Specs, TreeOf, NoNameTwice, ToBytes, SpecMap, NamesIn, EntriesIn;
    assert w.WireDirectory?;
    assert NamesAdded(w, i) == [Named(w.parent, ToBytes(w.name), AtNode(i), Some(d))];
    PlaceListed(runtime, rs, i, 0);
  }

  lemma ImageUp(runtime: Option<Runtime>, rs: seq<Record>, parents: Parents)
    requires Accepted(runtime, rs) && parents == TreeOf(runtime.Some?, rs).parents
    ensures forall d :: d in parents && d != ROOT ==> d in Up(Image(runtime, rs)) && Up(Image(runtime, rs))[d] == parents[d]
  {
    hide Accepted, Image, TreeOf;
    forall d | d in parents && d != ROOT ensures d in Up(Image(runtime, rs)) && Up(Image(runtime, rs))[d] == parents[d] {
      ImageHooked(runtime, rs, d);
      ImageDirectory(runtime, rs, d);
    }
  }

  /** Reaching the root through a map is reaching it through any map that extends it. */
  lemma {:induction false} ClimbsAlong(parents: Parents, up: Parents, d: Ino, k: nat)
    requires forall m :: m in parents && m != ROOT ==> m in up && up[m] == parents[m]
    requires Climbs(parents, d, k)
    ensures Climbs(up, d, k)
    decreases k
  {
    if k > 0 { ClimbsAlong(parents, up, parents[d], k - 1); }
  }

  lemma ImageLive(runtime: Option<Runtime>, rs: seq<Record>, d: Ino)
    requires Accepted(runtime, rs)
    ensures Live(Image(runtime, rs), d) <==> d in TreeOf(runtime.Some?, rs).parents
  {
    var v, parents := Image(runtime, rs), TreeOf(runtime.Some?, rs).parents;
    if d in parents {
      assert Attached(parents, d);
      var k: nat :| Climbs(parents, d, k);
      ImageUp(runtime, rs, parents);
      ClimbsAlong(parents, Up(v), d, k);
    }
    if Live(v, d) {
      ImageDirectory(runtime, rs, d);
      ImageRoot(runtime, rs);
      hide Accepted, Image, TreeOf;
      assert d == ROOT || d in Up(v);
    }
  }

  lemma ImageRoot(runtime: Option<Runtime>, rs: seq<Record>)
    requires Accepted(runtime, rs)
    ensures var v := Image(runtime, rs);
            ROOT in v && v[ROOT].Directory? && v[ROOT].parent == ROOT && v[ROOT].name == []
    ensures ROOT in TreeOf(runtime.Some?, rs).parents
  {
    RootRecord(runtime, rs, 0);
    TreeDirectories(runtime, rs);
    TreeSpecs(runtime, rs);
    ImageNode(runtime, rs, ROOT);
    ImageDirectory(runtime, rs, ROOT);
    hide RecordsOk, GraphOk, Image, TreeOf, NoNameTwice, SpecMap, EntriesIn;
    assert ToBytes("") == [];
    assert !Retained(runtime.Some?, rs[0].node);
    assert Specs(runtime, rs)[ROOT] == SpecRead(rs[0].node);
  }

  lemma ImageEntryOk(runtime: Option<Runtime>, rs: seq<Record>, d: Ino, n: Name)
    requires Accepted(runtime, rs)
    requires var v := Image(runtime, rs); d in v && v[d].Directory? && n in v[d].entries
    ensures var v := Image(runtime, rs); EntryOk(v, d, n, v[d].entries[n])
  {
    hide *;
    AcceptedRecords(runtime, rs);
    var v := Image(runtime, rs);
    var c := v[d].entries[n];
    ImageEntry(runtime, rs, d, n, c);
    var i, p := ClaimPlace(runtime, rs, c, d, n);
    ImageNode(runtime, rs, c);
    NodeClaims(Specs(runtime, rs), c, d, n);
    EntryOkIntro(v, d, n, c);
  }

  /** A node that claims a name says so itself. */
  lemma NodeClaims(specs: map<Ino, Spec>, c: Ino, d: Ino, n: Name)
    requires NoNameTwice(specs) && c in specs && n in NamesIn(specs, c, d)
    ensures var node := AssembleNode(specs, c);
            if node.Directory? then node.parent == d && node.name == n else Link(d, n) in node.links
  {
    hide NoNameTwice, EntriesIn;
  }

  lemma EntryOkIntro(v: Volume, d: Ino, n: Name, c: Ino)
    requires c in v && IsName(n) && c != ROOT
    requires if v[c].Directory? then v[c].parent == d && v[c].name == n else Link(d, n) in v[c].links
    ensures EntryOk(v, d, n, c)
  {
  }

  lemma ImageLinkOk(runtime: Option<Runtime>, rs: seq<Record>, f: Ino, l: Link)
    requires Accepted(runtime, rs)
    requires var v := Image(runtime, rs); f in v && !v[f].Directory? && l in v[f].links
    ensures LinkOk(Image(runtime, rs), f, l)
  {
    hide *;
    AcceptedRecords(runtime, rs);
    ImageNode(runtime, rs, f);
    var i := RecordFor(runtime, rs, f);
    var p := LinkPlace(Specs(runtime, rs), f, rs[i].node, i, l);
    PlaceListed(runtime, rs, i, p);
    ImageLive(runtime, rs, l.parent);
    LinkOkIntro(Image(runtime, rs), f, l);
  }

  /** The links of a file's node are the names of its record. */
  lemma LinkPlace(specs: map<Ino, Spec>, f: Ino, w: Wire, i: nat, l: Link) returns (p: nat)
    requires NoNameTwice(specs) && f in specs && (w.WireFile? ==> w.content.Inline?) && specs[f] == SpecRead(w)
    requires !AssembleNode(specs, f).Directory? && l in AssembleNode(specs, f).links
    ensures p < |NamesAdded(w, i)| && NamesAdded(w, i)[p].parent == l.parent && NamesAdded(w, i)[p].name == l.name
  {
    hide NoNameTwice, EntriesIn, ToBytes;
    p :| 0 <= p < |Links(w.links)| && Links(w.links)[p] == l;
  }

  lemma LinkOkIntro(v: Volume, f: Ino, l: Link)
    requires Live(v, l.parent) && l.parent in v && v[l.parent].Directory? && l.name in v[l.parent].entries
    requires v[l.parent].entries[l.name] == f
    ensures LinkOk(v, f, l)
  {
  }

  lemma ImageLinksDistinct(runtime: Option<Runtime>, rs: seq<Record>, f: Ino)
    requires Accepted(runtime, rs)
    requires var v := Image(runtime, rs); f in v && !v[f].Directory?
    ensures var v := Image(runtime, rs); NoRepeats(v[f].links) && v[f].links != []
    ensures var v := Image(runtime, rs); v[f].Symlink? ==> 0 !in v[f].target
  {
    ImageNode(runtime, rs, f);
    var i := RecordFor(runtime, rs, f);
    var w := rs[i].node;
    hide RecordsOk, GraphOk, Image, Specs, NoNameTwice, EntriesIn, ToBytes, TreeOf, Accepted;
    var links := Links(w.links);
    forall p, q | 0 <= p < q < |links| ensures links[p] != links[q] {
      if links[p] == links[q] {
        SameClaim(runtime, rs, i, p, i, q);
      }
    }
  }

  /** Main result: what the reader accepts restores to a well-formed volume, all of it reached from the root. */
  lemma AcceptedIsWellFormed(runtime: Option<Runtime>, rs: seq<Record>)
    requires Accepted(runtime, rs)
    ensures WellFormed(Image(runtime, rs))
    ensures forall i :: i in Image(runtime, rs) ==> Reached(Image(runtime, rs), i)
    ensures forall i :: i in Image(runtime, rs) && Image(runtime, rs)[i].Symlink? ==> 0 !in Image(runtime, rs)[i].target
  {
    hide Accepted, Image, TreeOf, EntryOk, LinkOk, Live, NoRepeats;
    var v := Image(runtime, rs);
    ImageRoot(runtime, rs);
    forall d ensures Live(v, d) <==> d in v && v[d].Directory? {
      ImageLive(runtime, rs, d);
      ImageDirectory(runtime, rs, d);
    }
    forall d, n | Live(v, d) && n in v[d].entries ensures EntryOk(v, d, n, v[d].entries[n]) {
      ImageEntryOk(runtime, rs, d, n);
    }
    forall f, l | f in v && !v[f].Directory? && l in v[f].links ensures LinkOk(v, f, l) { ImageLinkOk(runtime, rs, f, l); }
    forall f | f in v && !v[f].Directory? ensures NoRepeats(v[f].links) && v[f].links != [] {
      ImageLinksDistinct(runtime, rs, f);
    }
    forall f | f in v && v[f].Symlink? ensures 0 !in v[f].target { ImageLinksDistinct(runtime, rs, f); }
  }
}
