/**
 * The second half of `fromFixture`: every declared path becomes a name in its parent, and the named nodes are assembled
 * into a volume whose lookups are exactly the declarations.
 */
module FixtureTrees {
  import opened Basics
  import opened Forest
  import opened Volumes
  import opened Assembly
  import opened Walks
  import opened Fixtures

  type Table = map<Path, Declared>

  function Front(p: Path): Path
    requires p != []
  {
    p[..|p| - 1]
  }

  function Last(p: Path): Name
    requires p != []
  {
    p[|p| - 1]
  }

  /** A table of declared paths whose hard links are resolved: equal inode numbers mean the same node. */
  ghost predicate TableOk(d: Table) {
    && [] in d && d[[]].ino == ROOT && d[[]].kind == DirectoryKind
    && (forall p, q :: p in d && q in d && d[p].ino == d[q].ino ==> d[p] == d[q])
    && (forall p, q :: p in d && q in d && d[p].ino == d[q].ino && d[p].kind == DirectoryKind ==> p == q)
  }

  /** The parent of `p` is a declared directory. */
  predicate Hung(d: Table, p: Path) {
    p != [] && Front(p) in d && d[Front(p)].kind == DirectoryKind
  }

  function LinkAt(d: Table, p: Path): Link
    requires Hung(d, p)
  {
    Link(d[Front(p)].ino, Last(p))
  }

  // ---------------------------------------------------------------- names

  type NameTable = map<Ino, seq<Link>>

  function LinksOf(names: NameTable, i: Ino): seq<Link> {
    if i in names then names[i] else []
  }

  /** The names collected from the paths in `order`. */
  ghost predicate Named(d: Table, order: seq<Path>, names: NameTable) {
    && (forall p :: p in order ==> p in d && Hung(d, p) && LinkAt(d, p) in LinksOf(names, d[p].ino))
    && (forall i, l :: l in LinksOf(names, i) ==> exists p :: p in order && p in d && Hung(d, p) && d[p].ino == i && LinkAt(d, p) == l)
  }

  lemma NameStep(d: Table, order: seq<Path>, names: NameTable, p: Path)
    requires Named(d, order, names) && p in d && Hung(d, p)
    ensures Named(d, order + [p], names[d[p].ino := LinksOf(names, d[p].ino) + [LinkAt(d, p)]])
  {
    hide Hung;
    var next := names[d[p].ino := LinksOf(names, d[p].ino) + [LinkAt(d, p)]];
    forall q | q in order + [p] ensures q in d && Hung(d, q) && LinkAt(d, q) in LinksOf(next, d[q].ino) {
      if q in order {
        assert LinkAt(d, q) in LinksOf(names, d[q].ino);
      } else {
        assert q == p && LinksOf(next, d[p].ino)[|LinksOf(names, d[p].ino)|] == LinkAt(d, p);
      }
    }
    forall i, l | l in LinksOf(next, i)
      ensures exists q :: q in order + [p] && q in d && Hung(d, q) && d[q].ino == i && LinkAt(d, q) == l
    {
      if l in LinksOf(names, i) {
        var q :| q in order && q in d && Hung(d, q) && d[q].ino == i && LinkAt(d, q) == l;
        assert q in order + [p];
      } else {
        assert i == d[p].ino && l == LinkAt(d, p) && (order + [p])[|order|] == p;
      }
    }
  }

  /** The naming pass. */
  method NamePaths(d: Table, order: seq<Path>) returns (r: Result<NameTable, Failure>)
    requires forall p :: p in order ==> p in d && p != []
    ensures r.Ok? <==> forall p :: p in order ==> Hung(d, p)
    ensures r.Ok? ==> Named(d, order, r.value)
    ensures r.Err? ==> r.error == Failure(InvalidStructure, "parent")
  {
    hide Named;
    var names: NameTable := map[];
    NoNames(d);
    for k := 0 to |order|
      invariant Named(d, order[..k], names) && forall j :: 0 <= j < k ==> Hung(d, order[j])
    {
      var path := order[k];
      assert path in order && order[..k + 1] == order[..k] + [path];
      var parent := path[..|path| - 1];
      if parent !in d || d[parent].kind != DirectoryKind { return Err(BAD_PARENT); }
      NameStep(d, order[..k], names, path);
      var child := d[path].ino;
      names := names[child := LinksOf(names, child) + [Link(d[parent].ino, path[|path| - 1])]];
    }
    assert order[..|order|] == order;
    return Ok(names);
  }

  lemma NoNames(d: Table)
    ensures Named(d, [], map[])
  {
  }

  // ---------------------------------------------------------------- node specifications

  function SpecOf(names: NameTable, n: Declared): Spec {
    var links := LinksOf(names, n.ino);
    match n.kind
    case DirectoryKind =>
      var link := if links == [] then Link(ROOT, []) else links[0];
      DirectorySpec(link.parent, link.name, n.metadata)
    case FileKind => FileSpec(links, n.payload, n.metadata)
    case SymlinkKind => SymlinkSpec(links, n.payload, n.metadata)
  }

  function SpecsOf(d: Table, names: NameTable): map<Ino, Spec>
    requires TableOk(d)
  {
    map p | p in d :: d[p].ino := SpecOf(names, d[p])
  }

  /** All paths of the table but the root's have been named. */
  ghost predicate AllNamed(d: Table, names: NameTable) {
    && (forall p :: p in d && p != [] ==> Hung(d, p) && LinkAt(d, p) in LinksOf(names, d[p].ino))
    && (forall i, l :: l in LinksOf(names, i) ==> exists p :: p in d && Hung(d, p) && d[p].ino == i && LinkAt(d, p) == l)
  }

  /** A directory has one name. */
  lemma OneLink(d: Table, names: NameTable, p: Path, l: Link)
    requires TableOk(d) && AllNamed(d, names)
    requires p in d && d[p].kind == DirectoryKind && l in LinksOf(names, d[p].ino)
    ensures Hung(d, p) && l == LinkAt(d, p)
  {
    hide Hung;
    var q :| q in d && Hung(d, q) && d[q].ino == d[p].ino && LinkAt(d, q) == l;
    assert q == p;
  }

  /** The names a node's specification claims are its links. */
  lemma SpecClaims(d: Table, names: NameTable, x: Path, i: Ino, n: Name)
    requires TableOk(d) && AllNamed(d, names) && x in d
    ensures d[x].ino in SpecsOf(d, names)
    ensures n in NamesIn(SpecsOf(d, names), d[x].ino, i) <==> Link(i, n) in LinksOf(names, d[x].ino)
  {
    var specs, c := SpecsOf(d, names), d[x].ino;
    assert c in specs && specs[c] == SpecOf(names, d[x]);
    var links, l := LinksOf(names, c), Link(i, n);
    if d[x].kind == DirectoryKind {
      DirectoryClaims(d, names, x, l);
      hide TableOk, AllNamed, SpecsOf, Hung;
    } else {
      assert c != ROOT;
      hide TableOk, AllNamed, SpecsOf;
      assert n in NamesIn(specs, c, i) <==> exists m :: m in links && m.parent == i && m.name == n;
    }
  }

  /** A directory's links: none for the root, one for any other. */
  lemma DirectoryClaims(d: Table, names: NameTable, x: Path, l: Link)
    requires TableOk(d) && AllNamed(d, names) && x in d && d[x].kind == DirectoryKind
    ensures var links := LinksOf(names, d[x].ino);
            && (d[x].ino == ROOT <==> x == [])
            && (x == [] ==> l !in links)
            && (x != [] ==> links != [] && (l in links <==> l == links[0]))
  {
    hide Hung;
    var links := LinksOf(names, d[x].ino);
    if l in links { OneLink(d, names, x, l); }
    if x == [] {
      RootNotHung(d);
    } else {
      assert LinkAt(d, x) in links;
      OneLink(d, names, x, links[0]);
    }
  }

  lemma RootNotHung(d: Table)
    ensures !Hung(d, [])
  {
  }

  /** A node claims the name `n` in the directory at `p` exactly when it is declared at `p + [n]`. */
  lemma ClaimsAre(d: Table, names: NameTable, p: Path, n: Name, c: Ino)
    requires TableOk(d) && AllNamed(d, names)
    requires p in d && d[p].kind == DirectoryKind
    ensures c in SpecsOf(d, names) && n in NamesIn(SpecsOf(d, names), c, d[p].ino)
            <==> p + [n] in d && d[p + [n]].ino == c
  {
    hide Hung, NamesIn, SpecOf;
    var specs, q, i := SpecsOf(d, names), p + [n], d[p].ino;
    assert Front(q) == p && Last(q) == n;
    if q in d && d[q].ino == c {
      assert Hung(d, q) && LinkAt(d, q) == Link(i, n);
      SpecClaims(d, names, q, i, n);
    }
    if c in specs && n in NamesIn(specs, c, i) {
      var x :| x in d && d[x].ino == c;
      SpecClaims(d, names, x, i, n);
      var y :| y in d && Hung(d, y) && d[y].ino == c && LinkAt(d, y) == Link(i, n);
      HungFront(d, y);
      assert Front(y) == p;
      assert y == q;
    }
  }

  lemma HungFront(d: Table, p: Path)
    requires Hung(d, p)
    ensures Front(p) in d && d[Front(p)].kind == DirectoryKind && p == Front(p) + [Last(p)]
  {
  }

  lemma ClaimsInDirectories(d: Table, names: NameTable, c: Ino, i: Ino, n: Name) returns (p: Path)
    requires TableOk(d) && AllNamed(d, names)
    requires c in SpecsOf(d, names) && n in NamesIn(SpecsOf(d, names), c, i)
    ensures p in d && d[p].kind == DirectoryKind && d[p].ino == i
  {
    hide Hung, NamesIn, SpecOf;
    var x :| x in d && d[x].ino == c;
    SpecClaims(d, names, x, i, n);
    var y :| y in d && Hung(d, y) && d[y].ino == c && LinkAt(d, y) == Link(i, n);
    HungFront(d, y);
    p := Front(y);
  }

  lemma SpecsNoNameTwice(d: Table, names: NameTable)
    requires TableOk(d) && AllNamed(d, names)
    ensures NoNameTwice(SpecsOf(d, names))
  {
    hide AllNamed, TableOk, NamesIn;
    var specs := SpecsOf(d, names);
    forall c, e, i, n | c in specs && e in specs && n in NamesIn(specs, c, i) && n in NamesIn(specs, e, i) ensures c == e {
      var p := ClaimsInDirectories(d, names, c, i, n);
      ClaimsAre(d, names, p, n, c);
      ClaimsAre(d, names, p, n, e);
    }
  }

  // ---------------------------------------------------------------- the assembled volume

  /** A node holds what was declared. */
  predicate NodeIs(node: Node, n: Declared) {
    && node.metadata == n.metadata
    && match n.kind
       case DirectoryKind => node.Directory?
       case FileKind => node.File? && node.data == n.payload
       case SymlinkKind => node.Symlink? && node.target == n.payload
  }

  lemma AssembledNode(d: Table, names: NameTable, p: Path)
    requires TableOk(d) && AllNamed(d, names) && p in d
    ensures NoNameTwice(SpecsOf(d, names))
    ensures var v := Assemble(SpecsOf(d, names)); d[p].ino in v && NodeIs(v[d[p].ino], d[p])
  {
    SpecsNoNameTwice(d, names);
    assert d[p].ino in SpecsOf(d, names) && SpecsOf(d, names)[d[p].ino] == SpecOf(names, d[p]);
    hide *;
    AssembledIs(SpecsOf(d, names), d[p].ino, names, d[p]);
  }

  lemma AssembledIs(specs: map<Ino, Spec>, c: Ino, names: NameTable, n: Declared)
    requires NoNameTwice(specs) && c in specs && specs[c] == SpecOf(names, n)
    ensures c in Assemble(specs) && NodeIs(Assemble(specs)[c], n)
  {
    hide NoNameTwice, EntriesIn;
    assert Assemble(specs)[c] == AssembleNode(specs, c);
  }

  /** The entries of the directory assembled for `p`. */
  lemma AssembledEntry(d: Table, names: NameTable, p: Path, n: Name)
    requires TableOk(d) && AllNamed(d, names) && NoNameTwice(SpecsOf(d, names))
    requires p in d && d[p].kind == DirectoryKind
    ensures var v, i := Assemble(SpecsOf(d, names)), d[p].ino;
            && i in v && v[i].Directory?
            && (n in v[i].entries <==> p + [n] in d)
            && (n in v[i].entries ==> v[i].entries[n] == d[p + [n]].ino && d[p + [n]].ino in v)
  {
    AssembledNode(d, names, p);
    var specs := SpecsOf(d, names);
    assert specs[d[p].ino] == SpecOf(names, d[p]);
    assert specs[d[p].ino].DirectorySpec?;
    hide AllNamed, TableOk, NamesIn, NoNameTwice, Assemble, SpecsOf;
    AssembledStep(specs, d[p].ino, n);
    if p + [n] in d { ClaimsAre(d, names, p, n, d[p + [n]].ino); AssembledNode(d, names, p + [n]); }
    if n in Assemble(specs)[d[p].ino].entries {
      var c :| c in specs && n in NamesIn(specs, c, d[p].ino);
      ClaimsAre(d, names, p, n, c);
    }
  }

  lemma NamedParent(d: Table, names: NameTable, p: Path)
    requires TableOk(d) && AllNamed(d, names)
    ensures [] in d && d[[]].ino == ROOT
    ensures p in d && p != [] ==> Front(p) in d && d[Front(p)].kind == DirectoryKind
  {
  }

  /** Lookups in the assembled volume are the declarations. */
  lemma {:induction false} AssembledLookup(d: Table, names: NameTable, p: Path)
    requires TableOk(d) && AllNamed(d, names) && NoNameTwice(SpecsOf(d, names))
    ensures Lookup(Assemble(SpecsOf(d, names)), ROOT, p) == if p in d then Some(d[p].ino) else None
    decreases |p|
  {
    hide AllNamed, TableOk, NamesIn, NoNameTwice, Assemble, SpecsOf;
    var v := Assemble(SpecsOf(d, names));
    NamedParent(d, names, p);
    AssembledNode(d, names, []);
    if p != [] {
      var q, n := Front(p), Last(p);
      assert p == q + [n];
      AssembledLookup(d, names, q);
      hide Lookup;
      LookupSnoc(v, ROOT, q, n);
      if q in d {
        AssembledNode(d, names, q);
        if d[q].kind == DirectoryKind { AssembledEntry(d, names, q, n); }
      }
    }
  }

  // ---------------------------------------------------------------- building a volume

  /** Every declared path below the root has a directory above it. */
  ghost predicate Rooted(pass: Pass) {
    forall p :: p in pass.order ==> p != [] && Hung(pass.declared, p)
  }

  ghost predicate Linked(pass: Pass) {
    forall p :: p in pass.aliases ==> GoodLink(pass, p)
  }

  /** The paths of the volume are the paths of the entries, and each stands for what was declared for it. */
  ghost predicate Holds(pass: Pass, v: Volume) {
    && (forall p :: Lookup(v, ROOT, p) == if Grounded(pass, p) then Some(pass.declared[Real(pass, p)].ino) else None)
    && (forall p :: p in pass.declared ==> pass.declared[p].ino in v && NodeIs(v[pass.declared[p].ino], pass.declared[p]))
  }

  lemma ResolvedTable(rootMetadata: Metadata, entries: seq<Entry>, pass: Pass, d: Table)
    requires PassOk(rootMetadata, entries, pass) && Resolved(pass, pass.aliases.Keys, d)
    ensures TableOk(d)
    ensures forall p :: p in d ==> Grounded(pass, p) && d[p] == pass.declared[Real(pass, p)]
    ensures forall p :: p in pass.order ==> p in d
    ensures forall p :: p in d && p != [] ==> p in pass.order
    ensures forall p :: Grounded(pass, p) ==> p in d
  {
    hide LeadsTo, Real, Recorded;
    forall p | p in pass.declared ensures Grounded(pass, p) && Real(pass, p) == p { RealDeclared(pass, p); }
    forall p | p in d ensures Grounded(pass, p) && d[p] == pass.declared[Real(pass, p)] { }
    forall p | p in pass.order ensures p in d {
      var k :| 0 <= k < |pass.order| && pass.order[k] == p;
      OrderKnown(rootMetadata, entries, pass, k);
    }
    forall p | Grounded(pass, p) ensures p in d { GroundedKnown(pass, p); }
  }

  lemma OrderKnown(rootMetadata: Metadata, entries: seq<Entry>, pass: Pass, k: nat)
    requires PassOk(rootMetadata, entries, pass) && k < |pass.order|
    ensures pass.order[k] in pass.declared || pass.order[k] in pass.aliases
  {
    assert Recorded(pass, entries[k], pass.order[k]);
  }

  lemma GroundedKnown(pass: Pass, p: Path)
    requires Grounded(pass, p)
    ensures p in pass.declared || p in pass.aliases
  {
  }

  lemma HungSame(rootMetadata: Metadata, entries: seq<Entry>, pass: Pass, d: Table)
    requires PassOk(rootMetadata, entries, pass) && Resolved(pass, pass.aliases.Keys, d)
    ensures Rooted(pass) <==> forall p :: p in pass.order ==> Hung(d, p)
    ensures forall p :: p in pass.order ==> p != []
  {
    hide LeadsTo, Real, Recorded;
    forall p ensures Hung(pass.declared, p) <==> Hung(d, p) { }
  }

  /** `fromFixture` from its entries to the volume it publishes. */
  method Build(rootMetadata: Metadata, entries: seq<Entry>) returns (r: Result<Volume, Failure>)
    ensures r.Ok? ==> Declarable(entries)
    ensures Declarable(entries) ==>
              AllGood(entries) &&
              var pass := PassOf(rootMetadata, entries);
              && (r.Ok? <==> Linked(pass) && Rooted(pass))
              && (r.Ok? ==> Holds(pass, r.value))
              && (r.Err? ==> r.error == Failure(InvalidStructure, if Linked(pass) then "parent" else "hardLink"))
    ensures !Declarable(entries) ==> r.Err? && FirstFault(entries, r.error)
  {
    hide PassOk, Declarable, FirstFault, Hung, NodeIs, Resolved, Real, Grounded, TableOk, PassOf, AllGood;
    var first := DeclareEntries(rootMetadata, entries);
    if first.Err? { return Err(first.error); }
    ghost var pass := PassOf(rootMetadata, entries);
    AliasesApart(rootMetadata, entries, pass);
    var table := ResolveLinks(first.value);
    if table.Err? { return Err(table.error); }
    var d: Table := table.value;
    ResolvedTable(rootMetadata, entries, pass, d);
    HungSame(rootMetadata, entries, pass, d);
    var names := NamePaths(d, first.value.order);
    if names.Err? { return Err(names.error); }
    NamedAll(d, pass.order, names.value);
    SpecsNoNameTwice(d, names.value);
    var v := Assemble(SpecsOf(d, names.value));
    BuiltHolds(rootMetadata, entries, pass, d, names.value);
    return Ok(v);
  }

  lemma AliasesApart(rootMetadata: Metadata, entries: seq<Entry>, pass: Pass)
    requires PassOk(rootMetadata, entries, pass)
    ensures forall p :: p in pass.aliases ==> p !in pass.declared
  {
  }

  lemma NamedAll(d: Table, order: seq<Path>, names: NameTable)
    requires Named(d, order, names) && forall p :: p in d && p != [] ==> p in order
    ensures AllNamed(d, names)
  {
    hide Hung;
  }

  lemma BuiltHolds(rootMetadata: Metadata, entries: seq<Entry>, pass: Pass, d: Table, names: NameTable)
    requires PassOk(rootMetadata, entries, pass) && Resolved(pass, pass.aliases.Keys, d)
    requires TableOk(d) && AllNamed(d, names) && NoNameTwice(SpecsOf(d, names))
    ensures Holds(pass, Assemble(SpecsOf(d, names)))
  {
    hide *;
    var v := Assemble(SpecsOf(d, names));
    forall p ensures Lookup(v, ROOT, p) == if Grounded(pass, p) then Some(pass.declared[Real(pass, p)].ino) else None {
      ResolvedAt(rootMetadata, entries, pass, d, p);
      AssembledLookup(d, names, p);
    }
    forall p | p in pass.declared ensures pass.declared[p].ino in v && NodeIs(v[pass.declared[p].ino], pass.declared[p]) {
      ResolvedAt(rootMetadata, entries, pass, d, p);
      AssembledNode(d, names, p);
    }
    HoldsIntro(pass, v);
  }

  lemma HoldsIntro(pass: Pass, v: Volume)
    requires forall p :: Lookup(v, ROOT, p) == if Grounded(pass, p) then Some(pass.declared[Real(pass, p)].ino) else None
    requires forall p :: p in pass.declared ==> pass.declared[p].ino in v && NodeIs(v[pass.declared[p].ino], pass.declared[p])
    ensures Holds(pass, v)
  {
  }

  lemma ResolvedAt(rootMetadata: Metadata, entries: seq<Entry>, pass: Pass, d: Table, p: Path)
    requires PassOk(rootMetadata, entries, pass) && Resolved(pass, pass.aliases.Keys, d)
    ensures p in d <==> Grounded(pass, p)
    ensures p in d ==> d[p] == pass.declared[Real(pass, p)]
    ensures p in pass.declared ==> p in d && d[p] == pass.declared[p]
  {
    ResolvedTable(rootMetadata, entries, pass, d);
    hide TableOk, Real, Grounded, PassOk;
  }
}
