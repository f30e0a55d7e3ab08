/** Reading the records of a tree image one at a time (`makeReader` in `internal/tree.ts`). */
module TreeReader {
  import opened Basics
  import opened CanonicalBase64
  import opened Forest
  import opened Volumes
  import opened Assembly
  import opened TreeMeter

  /** A decoded line: its node and its revision, which is 1 in a snapshot. */
  datatype Record = Record(node: Wire, revision: int)

  /** What a live image's header adds. */
  datatype Runtime = Runtime(
    nextInode: nat, revision: int, maxEntries: Option<nat>, maxBytes: Option<nat>, maxFileBytes: Option<nat>,
    maxPathBytes: Option<nat>, usedEntries: nat, usedBytes: nat)

  datatype Place = AtNode(index: nat) | AtLink(index: nat, position: nat)

  /** A name met while reading: where it hangs, and the directory it names, if it names one. */
  datatype Named = Named(parent: Ino, name: Name, place: Place, directory: Option<Ino>)

  datatype Item = Item(ino: Ino, spec: Spec, revision: int)

  /** The reader's state between lines. */
  datatype Tree = Tree(
    items: seq<Item>, names: seq<Named>, directories: seq<Ino>, parents: Parents, positions: map<Ino, nat>,
    count: nat, previous: nat, usedBytes: nat)

  const EMPTY_TREE := Tree([], [], [], map[], map[], 0, 0, 0)

  // ---------------------------------------------------------------- failures

  function Numeral(n: nat): string {
    if n < 10 then [(48 + n) as char] else Numeral(n / 10) + [(48 + n % 10) as char]
  }

  function PlaceText(place: Place): string {
    match place
    case AtNode(index) => "nodes." + Numeral(index)
    case AtLink(index, position) => "nodes." + Numeral(index) + ".links." + Numeral(position)
  }

  function Broken(place: Place, leaf: string): Failure {
    Failure(InvalidStructure, PlaceText(place) + leaf)
  }

  // ---------------------------------------------------------------- one record

  predicate Retained(live: bool, w: Wire) { live && w.WireFile? && w.links == [] }

  function Links(links: seq<WireLink>): (r: seq<Link>)
    ensures |r| == |links|
  {
    seq(|links|, p requires 0 <= p < |links| => Link(links[p].parent, ToBytes(links[p].name)))
  }

  /** The names a record adds, the root's empty name excepted. */
  function NamesAdded(w: Wire, index: nat): seq<Named> {
    match w
    case WireDirectory(ino, parent, name, _) =>
      if index == 0 then [] else [Named(parent, ToBytes(name), AtNode(index), Some(ino))]
    case WireFile(_, links, _, _) => LinkNames(links, index)
    case WireSymlink(_, links, _, _) => LinkNames(links, index)
  }

  function LinkNames(links: seq<WireLink>, index: nat): (r: seq<Named>)
    ensures |r| == |links|
  {
    seq(|links|, p requires 0 <= p < |links| =>
      Named(links[p].parent, ToBytes(links[p].name), AtLink(index, p), None))
  }

  lemma TakeOne<T>(s: seq<T>, p: nat)
    requires p < |s|
    ensures s[..p + 1] == s[..p] + [s[p]]
  {
  }

  lemma NextLink(links: seq<WireLink>, index: nat, p: nat)
    requires p < |links|
    ensures Links(links)[..p + 1] == Links(links)[..p] + [Link(links[p].parent, ToBytes(links[p].name))]
    ensures LinkNames(links, index)[..p + 1] == LinkNames(links, index)[..p] + [LinkNames(links, index)[p]]
    ensures LinkNames(links, index)[p] == Named(links[p].parent, ToBytes(links[p].name), AtLink(index, p), None)
  {
    hide ToBytes;
    TakeOne(Links(links), p);
    TakeOne(LinkNames(links, index), p);
  }

  predicate BadName(c: Canonical) { !IsName(ToBytes(c)) }

  /** The position of the first link whose name is refused. */
  function FirstBadLink(links: seq<WireLink>, from: nat): (r: Option<nat>)
    requires from <= |links|
    ensures r.None? <==> forall p :: from <= p < |links| ==> !BadName(links[p].name)
    ensures r.Some? ==> from <= r.value < |links| && BadName(links[r.value].name)
    decreases |links| - from
  {
    if from == |links| then None
    else if BadName(links[from].name) then Some(from)
    else FirstBadLink(links, from + 1)
  }

  function PayloadSize(w: Wire): nat {
    match w
    case WireDirectory(_, _, _, _) => 0
    case WireFile(_, _, content, _) => if content.Inline? then |ToBytes(content.data)| else 0
    case WireSymlink(_, _, target, _) => |ToBytes(target)|
  }

  function SpecRead(w: Wire): Spec
    requires w.WireFile? ==> w.content.Inline?
  {
    match w
    case WireDirectory(ino, parent, name, m) => DirectorySpec(parent, ToBytes(name), m)
    case WireFile(_, links, content, m) => FileSpec(Links(links), ToBytes(content.data), m)
    case WireSymlink(_, links, target, m) => SymlinkSpec(Links(links), ToBytes(target), m)
  }

  predicate IsRoot(w: Wire) {
    w.WireDirectory? && w.ino == ROOT && w.parent == ROOT && w.name == ""
  }

  /** Why a file or symbolic link is refused for its own fields. */
  function LeafRefusal(runtime: Option<Runtime>, w: Wire, index: nat): Option<Failure>
    requires !w.WireDirectory?
  {
    if w.links == [] && !Retained(runtime.Some?, w) then Some(Broken(AtNode(index), ".links"))
    else if FirstBadLink(w.links, 0).Some? then Some(Broken(AtLink(index, FirstBadLink(w.links, 0).value), ".name"))
    else if w.WireSymlink? then
      if 0 in ToBytes(w.target) then Some(Broken(AtNode(index), ".target")) else None
    else if w.content.Ref? then Some(Failure(UnsupportedVersion, "nodes." + Numeral(index) + ".content"))
    else if runtime.Some? && runtime.value.maxFileBytes.Some? && PayloadSize(w) > runtime.value.maxFileBytes.value then
      Some(Broken(AtNode(index), ".content"))
    else None
  }

  /** Why a record is refused for its place in the image: the root rule, the order, the allocator, the counter. */
  function PlaceRefusal(runtime: Option<Runtime>, previous: nat, r: Record, index: nat): Option<Failure> {
    var w := r.node;
    if index == 0 && !IsRoot(w) then Some(Broken(AtNode(0), ""))
    else if index > 0 && w.ino <= previous then Some(Broken(AtNode(index), ".ino"))
    else if runtime.Some? && w.ino >= runtime.value.nextInode then Some(Broken(AtNode(index), ".ino"))
    else if runtime.Some? && (r.revision < 1 || r.revision > runtime.value.revision) then Some(Broken(AtNode(index), ".rev"))
    else None
  }

  /** Why a record is refused, in the order the source checks. */
  function Refusal(runtime: Option<Runtime>, previous: nat, r: Record, index: nat): Option<Failure> {
    var w := r.node;
    if PlaceRefusal(runtime, previous, r, index).Some? then PlaceRefusal(runtime, previous, r, index)
    else if w.WireDirectory? then
      if index > 0 && BadName(w.name) then Some(Broken(AtNode(index), ".name")) else None
    else LeafRefusal(runtime, w, index)
  }

  /** The state after an accepted record. */
  function Extend(live: bool, t: Tree, r: Record, index: nat): Tree
    requires r.node.WireFile? ==> r.node.content.Inline?
  {
    var w := r.node;
    Tree(
      if Retained(live, w) then t.items else t.items + [Item(w.ino, SpecRead(w), r.revision)],
      t.names + NamesAdded(w, index),
      if w.WireDirectory? then t.directories + [w.ino] else t.directories,
      if w.WireDirectory? then t.parents[w.ino := w.parent] else t.parents,
      if w.WireDirectory? then t.positions[w.ino := index] else t.positions,
      t.count + 1, w.ino, t.usedBytes + PayloadSize(w))
  }

  lemma AcceptedInline(runtime: Option<Runtime>, previous: nat, r: Record, index: nat)
    requires Refusal(runtime, previous, r, index).None?
    ensures r.node.WireFile? ==> r.node.content.Inline?
  {
  }

  /** `read`: a record is refused, or the state grows by what it says. */
  function ReadRecord(runtime: Option<Runtime>, t: Tree, r: Record, index: nat): Result<Tree, Failure> {
    match Refusal(runtime, t.previous, r, index)
    case Some(e) => Err(e)
    case None =>
      AcceptedInline(runtime, t.previous, r, index);
      Ok(Extend(runtime.Some?, t, r, index))
  }

  // ---------------------------------------------------------------- the reader as the source keeps it

  lemma RootOnly(runtime: Option<Runtime>, previous: nat, r: Record, index: nat)
    requires PlaceRefusal(runtime, previous, r, index).None?
    ensures index == 0 ==> IsRoot(r.node) && r.node.WireDirectory?
    ensures r.node.WireDirectory? ==> PayloadSize(r.node) == 0
  {
  }

  lemma ReadMisplaced(runtime: Option<Runtime>, t: Tree, r: Record, index: nat)
    requires PlaceRefusal(runtime, t.previous, r, index).Some?
    ensures ReadRecord(runtime, t, r, index) == Err(PlaceRefusal(runtime, t.previous, r, index).value)
  {
    hide PlaceRefusal;
  }

  /** A directory in its place: its fields are noted, and its name if it has one. */
  lemma ReadDirectoryIs(runtime: Option<Runtime>, t: Tree, r: Record, index: nat, after: Tree, refused: Option<Failure>)
    requires PlaceRefusal(runtime, t.previous, r, index).None? && r.node.WireDirectory?
    requires refused == (if index > 0 && BadName(r.node.name) then Some(Broken(AtNode(index), ".name")) else None)
    requires refused.None? ==>
               after == Tree(t.items + [Item(r.node.ino, SpecRead(r.node), r.revision)], t.names + NamesAdded(r.node, index),
                             t.directories + [r.node.ino], t.parents[r.node.ino := r.node.parent],
                             t.positions[r.node.ino := index], t.count + 1, r.node.ino, t.usedBytes)
    ensures ReadRecord(runtime, t, r, index) == if refused.Some? then Err(refused.value) else Ok(after)
  {
    hide PlaceRefusal, LeafRefusal, Broken, SpecRead, NamesAdded, BadName;
  }

  /** A file or symbolic link in its place. */
  lemma ReadLeafIs(runtime: Option<Runtime>, t: Tree, r: Record, index: nat, after: Tree, refused: Option<Failure>)
    requires PlaceRefusal(runtime, t.previous, r, index).None? && !r.node.WireDirectory?
    requires refused == LeafRefusal(runtime, r.node, index)
    requires refused.None? ==>
               && (r.node.WireFile? ==> r.node.content.Inline?)
               && after == Tree(
                    if Retained(runtime.Some?, r.node) then t.items else t.items + [Item(r.node.ino, SpecRead(r.node), r.revision)],
                    t.names + NamesAdded(r.node, index), t.directories, t.parents, t.positions, t.count + 1, r.node.ino,
                    t.usedBytes + PayloadSize(r.node))
    ensures ReadRecord(runtime, t, r, index) == if refused.Some? then Err(refused.value) else Ok(after)
  {
    hide PlaceRefusal, LeafRefusal, Broken, SpecRead, NamesAdded, BadName, PayloadSize;
  }

  class Reader {
    const runtime: Option<Runtime>
    var items: seq<Item>
    var names: seq<Named>
    var directories: seq<Ino>
    var parents: Parents
    var positions: map<Ino, nat>
    var count: nat
    var previous: nat
    var usedBytes: nat

    function State(): Tree reads this {
      Tree(items, names, directories, parents, positions, count, previous, usedBytes)
    }

    constructor (runtime: Option<Runtime>)
      ensures this.runtime == runtime && State() == EMPTY_TREE
    {
      this.runtime := runtime;
      items, names, directories, parents, positions := [], [], [], map[], map[];
      count, previous, usedBytes := 0, 0, 0;
    }

    /** Note a name, unless it is not a name. The length is checked before the base64 is decoded. */
    method Note(parent: Ino, name: Canonical, place: Place, directory: Option<Ino>) returns (r: Result<Name, Failure>)
      modifies this`names
      ensures r == if BadName(name) then Err(Broken(place, ".name")) else Ok(ToBytes(name))
      ensures names == if BadName(name) then old(names) else old(names) + [Named(parent, ToBytes(name), place, directory)]
    {
      var length := DecodedLength(name);
      assert length == |ToBytes(name)|;
      if length < 1 || length > MAX_NAME_BYTES { return Err(Broken(place, ".name")); }
      var raw := ToBytes(name);
      if !IsName(raw) { return Err(Broken(place, ".name")); }
      names := names + [Named(parent, raw, place, directory)];
      return Ok(raw);
    }

    /** Note the name of every link in order, and stop at the first that is not a name. */
    method NoteLinks(wires: seq<WireLink>, index: nat) returns (r: Result<seq<Link>, Failure>)
      modifies this`names
      ensures var bad := FirstBadLink(wires, 0);
              if bad.Some? then r == Err(Broken(AtLink(index, bad.value), ".name"))
              else r == Ok(Links(wires)) && names == old(names) + LinkNames(wires, index)
    {
      hide ToBytes, BadName, Numeral, Links, LinkNames;
      var links: seq<Link> := [];
      assert names + LinkNames(wires, index)[..0] == names;
      for position := 0 to |wires|
        invariant links == Links(wires)[..position] && names == old(names) + LinkNames(wires, index)[..position]
        invariant FirstBadLink(wires, 0) == FirstBadLink(wires, position)
      {
        var name := Note(wires[position].parent, wires[position].name, AtLink(index, position), None);
        if name.Err? { return Err(name.error); }
        links := links + [Link(wires[position].parent, name.value)];
        NextLink(wires, index, position);
        assert old(names) + LinkNames(wires, index)[..position] + [LinkNames(wires, index)[position]] ==
               old(names) + LinkNames(wires, index)[..position + 1];
      }
      assert Links(wires)[..|wires|] == Links(wires) && LinkNames(wires, index)[..|wires|] == LinkNames(wires, index);
      return Ok(links);
    }

    method Read(record: Record, index: nat) returns (r: Result<(), Failure>)
      modifies this
      ensures var read := ReadRecord(runtime, old(State()), record, index);
              if r.Ok? then read == Ok(State()) else read == Err(r.error)
    {
      hide *;
      var node := record.node;
      ghost var before := State();
      StateIs();
      var misplaced := Misplaced(record, index);
      if misplaced.Some? {
        ReadMisplaced(runtime, before, record, index);
        return Err(misplaced.value);
      }
      RootOnly(runtime, previous, record, index);
      previous := node.ino;
      count := count + 1;
      if node.WireDirectory? {
        r := ReadDirectory(node, record.revision, index);
        StateIs();
        ReadDirectoryIs(runtime, before, record, index, State(), if r.Err? then Some(r.error) else None);
      } else {
        r := ReadLeaf(node, record.revision, index);
        StateIs();
        ReadLeafIs(runtime, before, record, index, State(), if r.Err? then Some(r.error) else None);
      }
    }

    lemma StateIs()
      ensures State() == Tree(items, names, directories, parents, positions, count, previous, usedBytes)
    {
    }

    method Misplaced(record: Record, index: nat) returns (refused: Option<Failure>)
      ensures refused == PlaceRefusal(runtime, previous, record, index)
    {
      hide ToBytes, BadName, Broken;
      var node, revision := record.node, record.revision;
      if index == 0 {
        if !node.WireDirectory? || node.ino != ROOT || node.parent != ROOT || node.name != "" {
          return Some(Broken(AtNode(0), ""));
        }
      } else if node.ino <= previous {
        return Some(Broken(AtNode(index), ".ino"));
      }
      if runtime.Some? && node.ino >= runtime.value.nextInode { return Some(Broken(AtNode(index), ".ino")); }
      if runtime.Some? && (revision < 1 || revision > runtime.value.revision) {
        return Some(Broken(AtNode(index), ".rev"));
      }
      return None;
    }

    method ReadLeaf(node: Wire, revision: int, index: nat) returns (r: Result<(), Failure>)
      requires !node.WireDirectory?
      modifies this`items, this`names, this`usedBytes
      ensures r == (match LeafRefusal(runtime, node, index) case Some(e) => Err(e) case None => Ok(()))
      ensures r.Ok? ==> (node.WireFile? ==> node.content.Inline?) && names == old(names) + NamesAdded(node, index)
      ensures r.Ok? ==> usedBytes == old(usedBytes) + PayloadSize(node)
      ensures r.Ok? ==> items == if Retained(runtime.Some?, node) then old(items)
                                 else old(items) + [Item(node.ino, SpecRead(node), revision)]
    {
      hide ToBytes, BadName, Numeral, FirstBadLink, Links, LinkNames;
      var retained := runtime.Some? && node.WireFile? && node.links == [];
      if node.links == [] && !retained { return Err(Broken(AtNode(index), ".links")); }
      var links := NoteLinks(node.links, index);
      if links.Err? { return Err(links.error); }
      if node.WireSymlink? {
        var target := ToBytes(node.target);
        if 0 in target { return Err(Broken(AtNode(index), ".target")); }
        usedBytes := usedBytes + |target|;
        items := items + [Item(node.ino, SymlinkSpec(links.value, target, node.metadata), revision)];
        return Ok(());
      }
      if node.content.Ref? { return Err(Failure(UnsupportedVersion, "nodes." + Numeral(index) + ".content")); }
      var data := ToBytes(node.content.data);
      usedBytes := usedBytes + |data|;
      if runtime.Some? && runtime.value.maxFileBytes.Some? && |data| > runtime.value.maxFileBytes.value {
        return Err(Broken(AtNode(index), ".content"));
      }
      if !retained { items := items + [Item(node.ino, FileSpec(links.value, data, node.metadata), revision)]; }
      return Ok(());
    }

    method ReadDirectory(node: Wire, revision: int, index: nat) returns (r: Result<(), Failure>)
      requires node.WireDirectory? && (index == 0 ==> IsRoot(node))
      modifies this
      ensures count == old(count) && previous == old(previous) && usedBytes == old(usedBytes)
      ensures parents == old(parents)[node.ino := node.parent] && positions == old(positions)[node.ino := index]
      ensures directories == old(directories) + [node.ino]
      ensures r == if index > 0 && BadName(node.name) then Err(Broken(AtNode(index), ".name")) else Ok(())
      ensures r.Ok? ==> names == old(names) + NamesAdded(node, index)
      ensures r.Ok? ==> items == old(items) + [Item(node.ino, SpecRead(node), revision)]
    {
      hide BadName, Numeral;
      parents := parents[node.ino := node.parent];
      positions := positions[node.ino := index];
      directories := directories + [node.ino];
      var name: Name := [];
      if index == 0 {
        assert ToBytes(node.name) == [];
      } else {
        var key := Note(node.parent, node.name, AtNode(index), Some(node.ino));
        if key.Err? { return Err(key.error); }
        name := key.value;
      }
      items := items + [Item(node.ino, DirectorySpec(node.parent, name, node.metadata), revision)];
      return Ok(());
    }
  }
}
