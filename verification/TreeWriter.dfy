/**
 * Writing a tree image (`treeNode`, `treeNodes` and `writeTree` in `internal/tree.ts`): one line for every node a path
 * reaches, in inode order, framed in chunks on demand. JSON is a codec the writer is given.
 */
module TreeWriter {
  import opened Basics
  import opened Forest
  import opened Sorting
  import opened Volumes
  import opened Lines
  import opened TreeMeter
  import opened TreeReader

  /** `text` and `header` write lines; `parse` undoes UTF-8 and JSON; the decoders check a value's shape. */
  datatype Codec<!V> = Codec(
    parse: bytes -> Option<V>,
    decodeHeader: V -> Option<Failure>,
    decodeNode: V -> Result<Record, Failure>,
    header: bytes,
    text: Wire -> bytes
  )

  // ---------------------------------------------------------------- nodes as records

  function WireLinks(links: seq<Link>): (r: seq<WireLink>)
    ensures |r| == |links|
  {
    seq(|links|, p requires 0 <= p < |links| => WireLink(links[p].parent, ToText(links[p].name)))
  }

  /** `treeNode`. */
  function WireOf(i: Ino, node: Node): Wire {
    match node
    case Directory(parent, name, _, m) => WireDirectory(i, parent, ToText(name), m)
    case File(links, data, m) => WireFile(i, WireLinks(links), Inline(ToText(data)), m)
    case Symlink(links, target, m) => WireSymlink(i, WireLinks(links), ToText(target), m)
  }

  ghost predicate InoOrder(inos: seq<Ino>) {
    forall j, k :: 0 <= j < k < |inos| ==> inos[j] < inos[k]
  }

  /** The nodes a path reaches, in inode order. */
  ghost predicate TreeInos(v: Volume, inos: seq<Ino>) {
    && InoOrder(inos) && (forall i :: i in inos <==> Reached(v, i))
  }

  // ---------------------------------------------------------------- the reachable nodes

  /** The nodes found so far, each once, and none unreached. */
  ghost predicate FoundOk(v: Volume, found: seq<Ino>, seen: set<Ino>) {
    && NoRepeats(found) && Elements(found) == seen && ROOT in seen && (forall i :: i in found ==> Reached(v, i))
  }

  /** The children of `d` among `names` have been found. */
  ghost predicate ChildrenFound(v: Volume, d: Ino, names: set<Name>, seen: set<Ino>) {
    d in v && v[d].Directory? ==> forall n :: n in names && n in v[d].entries ==> v[d].entries[n] in seen
  }

  lemma FindMore(v: Volume, found: seq<Ino>, seen: set<Ino>, i: Ino)
    requires FoundOk(v, found, seen) && i !in seen && Reached(v, i)
    ensures FoundOk(v, found + [i], seen + {i})
  {
    hide Reached;
    assert i !in Elements(found);
    assert Elements(found + [i]) == Elements(found) + {i};
  }

  lemma FoundBounded(v: Volume, found: seq<Ino>, seen: set<Ino>)
    requires FoundOk(v, found, seen)
    ensures |found| <= |v|
  {
    forall i | i in Elements(found) ensures i in v { }
    DistinctCount(found);
    Smaller(Elements(found), v.Keys);
  }

  lemma {:induction false} LiveFound(v: Volume, found: seq<Ino>, seen: set<Ino>, d: Ino)
    requires WellFormed(v) && FoundOk(v, found, seen) && Live(v, d)
    requires forall k :: 0 <= k < |found| && found[k] in v && v[found[k]].Directory? ==>
               ChildrenFound(v, found[k], v[found[k]].entries.Keys, seen)
    ensures d in seen
    decreases Depth(Up(v), d)
  {
    if d != ROOT {
      LiveParent(v, d);
      var p := v[d].parent;
      LiveFound(v, found, seen, p);
      hide WellFormed, Live, Reached;
      assert p in Elements(found);
      var k :| 0 <= k < |found| && found[k] == p;
      assert ChildrenFound(v, found[k], v[found[k]].entries.Keys, seen);
    }
  }

  lemma AllFound(v: Volume, found: seq<Ino>, seen: set<Ino>)
    requires WellFormed(v) && FoundOk(v, found, seen)
    requires forall k :: 0 <= k < |found| && found[k] in v && v[found[k]].Directory? ==>
               ChildrenFound(v, found[k], v[found[k]].entries.Keys, seen)
    ensures forall i :: Reached(v, i) <==> i in found
  {
    hide Live;
    forall i | Reached(v, i) ensures i in Elements(found) {
      if v[i].Directory? {
        LiveFound(v, found, seen, i);
      } else {
        var l := v[i].links[0];
        assert LinkOk(v, i, l);
        LiveFound(v, found, seen, l.parent);
        assert l.parent in Elements(found);
        var k :| 0 <= k < |found| && found[k] == l.parent;
        assert ChildrenFound(v, found[k], v[found[k]].entries.Keys, seen);
      }
    }
  }

  /** Queue the children of one directory. */
  method FindBelow(v: Volume, d: Ino, found: seq<Ino>, seen: set<Ino>) returns (next: seq<Ino>, all: set<Ino>)
    requires WellFormed(v) && d in v && v[d].Directory? && Live(v, d) && FoundOk(v, found, seen)
    ensures FoundOk(v, next, all) && seen <= all && found <= next && ChildrenFound(v, d, v[d].entries.Keys, all)
  {
    hide WellFormed, Reached, Live, FoundOk;
    next, all := found, seen;
    var left := v[d].entries.Keys;
    while left != {}
      invariant left <= v[d].entries.Keys && FoundOk(v, next, all) && seen <= all && found <= next
      invariant ChildrenFound(v, d, v[d].entries.Keys - left, all)
      decreases left
    {
      var n :| n in left;
      var child := v[d].entries[n];
      left := left - {n};
      if child !in all {
        ChildReached(v, d, n);
        FindMore(v, next, all, child);
        next, all := next + [child], all + {child};
      }
    }
  }

  lemma StartFound(v: Volume)
    requires WellFormed(v)
    ensures FoundOk(v, [ROOT], {ROOT})
  {
    RootLive(v);
    assert Elements([ROOT]) == {ROOT};
  }

  lemma FoundAt(v: Volume, found: seq<Ino>, seen: set<Ino>, k: nat)
    requires FoundOk(v, found, seen) && k < |found|
    ensures Reached(v, found[k]) && found[k] in v && (v[found[k]].Directory? ==> Live(v, found[k]))
  {
    assert found[k] in found;
  }

  ghost predicate SweptTo(v: Volume, found: seq<Ino>, seen: set<Ino>, index: nat) {
    forall k :: 0 <= k < |found| && k < index && found[k] in v && v[found[k]].Directory? ==>
      ChildrenFound(v, found[k], v[found[k]].entries.Keys, seen)
  }

  lemma SweptMore(v: Volume, found: seq<Ino>, seen: set<Ino>, next: seq<Ino>, all: set<Ino>, index: nat)
    requires SweptTo(v, found, seen, index) && found <= next && seen <= all && index < |found|
    requires found[index] in v && v[found[index]].Directory? ==> ChildrenFound(v, found[index], v[found[index]].entries.Keys, all)
    ensures SweptTo(v, next, all, index + 1)
  {
    forall k | 0 <= k < |next| && k < index + 1 && next[k] in v && v[next[k]].Directory?
      ensures ChildrenFound(v, next[k], v[next[k]].entries.Keys, all)
    {
      assert next[k] == found[k];
    }
  }

  /** `treeNodes`: a breadth-first walk from the root, sorted by inode number. */
  method TreeNodes(v: Volume) returns (inos: seq<Ino>)
    requires WellFormed(v)
    ensures TreeInos(v, inos)
  {
    hide WellFormed, Reached, Live, FoundOk, SweptTo, ChildrenFound;
    var nodes, seen := [ROOT], {ROOT};
    StartFound(v);
    FoundBounded(v, nodes, seen);
    var index := 0;
    assert SweptTo(v, nodes, seen, 0) by { NoneSwept(v, nodes, seen); }
    while index < |nodes|
      invariant FoundOk(v, nodes, seen) && index <= |nodes| <= |v| && SweptTo(v, nodes, seen, index)
      decreases |v| - index
    {
      FoundAt(v, nodes, seen, index);
      var node := v[nodes[index]];
      if node.Directory? {
        var next, all := FindBelow(v, nodes[index], nodes, seen);
        SweptMore(v, nodes, seen, next, all, index);
        nodes, seen := next, all;
        FoundBounded(v, nodes, seen);
      } else {
        SweptMore(v, nodes, seen, nodes, seen, index);
      }
      index := index + 1;
    }
    inos := SortBy((a: Ino, b: Ino) => a < b, nodes);
    SortedFound(v, nodes, seen, inos);
  }

  lemma NoneSwept(v: Volume, found: seq<Ino>, seen: set<Ino>)
    ensures SweptTo(v, found, seen, 0)
  {
  }

  lemma SortedFound(v: Volume, found: seq<Ino>, seen: set<Ino>, inos: seq<Ino>)
    requires WellFormed(v) && FoundOk(v, found, seen) && SweptTo(v, found, seen, |found|)
    requires inos == SortBy((a: Ino, b: Ino) => a < b, found)
    ensures TreeInos(v, inos)
  {
    AllFound(v, found, seen);
    hide WellFormed, Reached, SortBy, SweptTo;
    var lt := (a: Ino, b: Ino) => a < b;
    SortAscending(lt, Elements(found), found);
    assert forall i :: i in inos <==> i in Elements(inos);
    assert forall i :: i in found <==> i in Elements(found);
  }

  // ---------------------------------------------------------------- charging

  /** Charge one written node: its line, then its contents. */
  function ChargeRecord<V>(codec: Codec<V>, b: Budget, s: Spent, w: Wire): Result<Spent, Failure> {
    match ChargeLine(b, s, |codec.text(w)|, true)
    case Err(e) => Err(e)
    case Ok(charged) => ChargeNode(b, charged, w)
  }

  function ChargeAll<V>(codec: Codec<V>, b: Budget, s: Spent, ws: seq<Wire>): Result<Spent, Failure>
    decreases |ws|
  {
    if ws == [] then Ok(s)
    else match ChargeRecord(codec, b, s, ws[0])
      case Err(e) => Err(e)
      case Ok(next) => ChargeAll(codec, b, next, ws[1..])
  }

  /** Charge a whole document: the header line, then every record. */
  function ChargeDocument<V>(codec: Codec<V>, b: Budget, ws: seq<Wire>): Result<Spent, Failure> {
    match ChargeLine(b, Spent(0, 0, 0, 0), |codec.header|, true)
    case Err(e) => Err(e)
    case Ok(s) => ChargeAll(codec, b, s, ws)
  }

  lemma ChargeStep<V>(codec: Codec<V>, b: Budget, s: Spent, ws: seq<Wire>, index: nat)
    requires index < |ws|
    ensures ChargeAll(codec, b, s, ws[index..]) ==
            match ChargeRecord(codec, b, s, ws[index]) case Err(e) => Err(e) case Ok(t) => ChargeAll(codec, b, t, ws[index + 1..])
  {
    hide ChargeRecord;
    assert ws[index..][0] == ws[index] && ws[index..][1..] == ws[index + 1..];
  }

  // ---------------------------------------------------------------- chunks

  const ENCODED_CHUNK_BYTES := 65536

  function Texts<V>(codec: Codec<V>, ws: seq<Wire>): (r: seq<bytes>)
    ensures |r| == |ws|
  {
    seq(|ws|, k requires 0 <= k < |ws| => codec.text(ws[k]))
  }

  /** The lines of a document. */
  function Document<V>(codec: Codec<V>, ws: seq<Wire>): seq<bytes> {
    [codec.header] + Texts(codec, ws)
  }

  /** A chunk holds whole lines, not too many, and only one of them when they pass the byte cap. */
  ghost predicate ChunkOf(chunk: bytes, lines: seq<bytes>) {
    && chunk == FrameLines(lines) && 1 <= |lines| <= 128
    && (|chunk| <= 65536 || |lines| == 1)
  }

  ghost predicate IsChunk(chunk: bytes) {
    exists lines :: ChunkOf(chunk, lines)
  }

  datatype Next = Next(index: nat, carried: Option<bytes>)

  /** The texts a chunk starting at `next` continues from: the carried line is the one before `index`. */
  ghost predicate NextOk<V>(codec: Codec<V>, ws: seq<Wire>, next: Next) {
    && next.index <= |ws| && (next.carried.Some? ==> next.index > 0 && next.carried.value == codec.text(ws[next.index - 1]))
  }

  function Start(next: Next): int { if next.carried.Some? then next.index - 1 else next.index }

  class Writer<V> {
    const codec: Codec<V>
    const nodes: seq<Wire>
    const meter: Meter?

    constructor (codec: Codec<V>, nodes: seq<Wire>, meter: Meter?)
      ensures this.codec == codec && this.nodes == nodes && this.meter == meter
    {
      this.codec, this.nodes, this.meter := codec, nodes, meter;
    }

    /** `encode`: the text of a node, charged. */
    method Encode(w: Wire) returns (r: Result<bytes, Failure>)
      modifies if meter == null then {} else {meter}
      ensures r.Ok? ==> r.value == codec.text(w)
      ensures meter == null ==> r.Ok?
      ensures meter != null ==>
                ChargeRecord(codec, meter.budget, old(meter.Counted()), w) ==
                if r.Ok? then Ok(meter.Counted()) else Err(r.error)
    {
      var line := codec.text(w);
      if meter != null {
        var lineCharged := meter.Line(|line|, true);
        if lineCharged.Err? { return Err(lineCharged.error); }
        var nodeCharged := meter.Node(w);
        if nodeCharged.Err? { return Err(nodeCharged.error); }
      }
      return Ok(line);
    }

    /**
     * `chunk`: the next chunk and where to go on from, or nothing left. A node whose line does not fit is carried over,
     * already charged.
     */
    method Chunk(next: Next) returns (r: Result<Option<(bytes, Next)>, Failure>, ghost lines: seq<bytes>)
      requires NextOk(codec, nodes, next)
      modifies if meter == null then {} else {meter}
      ensures r.Ok? && r.value.None? ==> Start(next) == |nodes| && next.carried.None? && next.index == |nodes|
      ensures r.Ok? && r.value.Some? ==>
                var (chunk, after) := r.value.value;
                && NextOk(codec, nodes, after) && ChunkOf(chunk, lines) && Start(next) < Start(after)
                && lines == Texts(codec, nodes)[Start(next)..Start(after)] && next.index <= after.index
                && (Start(after) == |nodes| || |lines| == 128
                    || |chunk| + |codec.text(nodes[Start(after)])| + 1 > 65536)
      ensures meter == null ==> r.Ok?
      ensures meter != null ==>
                ChargeAll(codec, meter.budget, old(meter.Counted()), nodes[next.index..]) ==
                if r.Err? then Err(r.error)
                else ChargeAll(codec, meter.budget, meter.Counted(),
                               nodes[if r.value.None? then |nodes| else r.value.value.1.index..])
    {
      hide ChargeRecord, ChargeAll, FrameLines, NextOk, HeldOk, ChunkOf, Texts, Flatten;
      NextBounds(codec, nodes, next);
      var held: seq<bytes> := if next.carried.Some? then [next.carried.value] else [];
      var total: nat := if next.carried.Some? then |next.carried.value| + 1 else 0;
      var index := next.index;
      StartHeld(codec, nodes, next, held, total);
      while |held| < WALK_YIELD_INTERVAL && index < |nodes|
        invariant next.index <= index <= |nodes| && HeldOk(codec, nodes, Start(next), index, held, total)
        invariant meter != null ==>
                    ChargeAll(codec, meter.budget, old(meter.Counted()), nodes[next.index..]) ==
                    ChargeAll(codec, meter.budget, meter.Counted(), nodes[index..])
        decreases |nodes| - index
      {
        var source := nodes[index];
        if meter != null { ChargeStep(codec, meter.budget, meter.Counted(), nodes, index); }
        index := index + 1;
        var line := Encode(source);
        if line.Err? { return Err(line.error), []; }
        if held != [] && total + |line.value| + 1 > ENCODED_CHUNK_BYTES {
          var framed := Frame(held);
          CarryOver(codec, nodes, Start(next), index, held, total, line.value);
          return Ok(Some((framed[..], Next(index, Some(line.value))))), held;
        }
        assert held == [] || total + |line.value| + 1 <= ENCODED_CHUNK_BYTES;
        HoldMore(codec, nodes, Start(next), index - 1, held, total, line.value);
        held := held + [line.value];
        total := total + |line.value| + 1;
      }
      if held == [] {
        NothingHeld(codec, nodes, next, index, total);
        return Ok(None), [];
      }
      var framed := Frame(held);
      AllHeld(codec, nodes, Start(next), index, held, total);
      return Ok(Some((framed[..], Next(index, None)))), held;
    }

    /** The stream: the header's frame, then chunks until nothing is left or a charge fails. */
    method WriteTree() returns (chunks: seq<bytes>, failure: Option<Failure>)
      requires meter != null ==> meter.Counted() == Spent(0, 0, 0, 0)
      modifies if meter == null then {} else {meter}
      ensures meter == null ==> failure.None?
      ensures meter != null ==>
                failure == (match ChargeDocument(codec, meter.budget, nodes) case Err(e) => Some(e) case Ok(_) => None)
      ensures failure.None? ==> Flatten(chunks) == FrameLines(Document(codec, nodes))
      ensures exists n: nat :: n <= |Document(codec, nodes)| && Flatten(chunks) == FrameLines(Document(codec, nodes)[..n])
      ensures forall k :: 0 <= k < |chunks| ==> IsChunk(chunks[k])
    {
      hide ChargeRecord, ChargeAll, FrameLines, NextOk, IsChunk;
      chunks := [];
      NoChunks(codec, nodes);
      if meter != null {
        var charged := meter.Line(|codec.header|, true);
        if charged.Err? { return [], Some(charged.error); }
      }
      var framed := Frame([codec.header]);
      chunks := [framed[..]];
      HeaderChunk(codec, nodes, framed[..]);
      var next := Next(0, None);
      ghost var spent := if meter != null then meter.Counted() else Spent(0, 0, 0, 0);
      while true
        invariant NextOk(codec, nodes, next) && next.index <= |nodes| && Written(codec, nodes, chunks, next)
        invariant forall k :: 0 <= k < |chunks| ==> IsChunk(chunks[k])
        invariant meter != null ==>
                    ChargeAll(codec, meter.budget, spent, nodes) == ChargeAll(codec, meter.budget, meter.Counted(), nodes[next.index..])
        decreases |nodes| - Start(next)
      {
        NextBounds(codec, nodes, next);
        var produced, lines := Chunk(next);
        if produced.Err? {
          WrittenPrefix(codec, nodes, chunks, next);
          return chunks, Some(produced.error);
        }
        if produced.value.None? {
          ChargeNone(codec, nodes);
          WrittenPrefix(codec, nodes, chunks, next);
          WrittenAll(codec, nodes, chunks, next);
          return chunks, None;
        }
        var (chunk, after) := produced.value.value;
        NextBounds(codec, nodes, after);
        WrittenMore(codec, nodes, chunks, next, chunk, after, lines);
        chunks := chunks + [chunk];
        next := after;
      }
    }
  }

  // ---------------------------------------------------------------- what the writer holds

  ghost predicate HeldOk<V>(codec: Codec<V>, ws: seq<Wire>, start: int, index: nat, held: seq<bytes>, total: nat) {
    && 0 <= start <= index <= |ws| && held == Texts(codec, ws)[start..index] && total == |FrameLines(held)|
    && |held| <= WALK_YIELD_INTERVAL && (total <= ENCODED_CHUNK_BYTES || |held| <= 1)
  }

  lemma StartHeld<V>(codec: Codec<V>, ws: seq<Wire>, next: Next, held: seq<bytes>, total: nat)
    requires NextOk(codec, ws, next)
    requires held == if next.carried.Some? then [next.carried.value] else []
    requires total == if next.carried.Some? then |next.carried.value| + 1 else 0
    ensures next.index <= |ws| && HeldOk(codec, ws, Start(next), next.index, held, total)
  {
    if next.carried.Some? {
      assert [next.carried.value][1..] == [];
      assert FrameLines(held) == held[0] + [NEWLINE] + FrameLines(held[1..]);
    }
  }

  lemma HoldMore<V>(codec: Codec<V>, ws: seq<Wire>, start: int, index: nat, held: seq<bytes>, total: nat, line: bytes)
    requires HeldOk(codec, ws, start, index, held, total) && index < |ws| && line == codec.text(ws[index])
    requires |held| < WALK_YIELD_INTERVAL && (held == [] || total + |line| + 1 <= ENCODED_CHUNK_BYTES)
    ensures HeldOk(codec, ws, start, index + 1, held + [line], total + |line| + 1)
  {
    FrameSnoc(held, line);
    assert Texts(codec, ws)[start..index + 1] == held + [line];
  }

  lemma CarryOver<V>(codec: Codec<V>, ws: seq<Wire>, start: int, index: nat, held: seq<bytes>, total: nat, line: bytes)
    requires 0 < index && HeldOk(codec, ws, start, index - 1, held, total) && held != [] && index <= |ws|
    requires line == codec.text(ws[index - 1])
    ensures NextOk(codec, ws, Next(index, Some(line))) && ChunkOf(FrameLines(held), held) && total == |FrameLines(held)|
    ensures start < Start(Next(index, Some(line))) && held == Texts(codec, ws)[start..Start(Next(index, Some(line)))]
  {
  }

  lemma AllHeld<V>(codec: Codec<V>, ws: seq<Wire>, start: int, index: nat, held: seq<bytes>, total: nat)
    requires HeldOk(codec, ws, start, index, held, total) && held != []
    ensures NextOk(codec, ws, Next(index, None)) && ChunkOf(FrameLines(held), held)
    ensures start < Start(Next(index, None)) && held == Texts(codec, ws)[start..Start(Next(index, None))]
  {
  }

  lemma NothingHeld<V>(codec: Codec<V>, ws: seq<Wire>, next: Next, index: nat, total: nat)
    requires NextOk(codec, ws, next) && HeldOk(codec, ws, Start(next), index, [], total) && next.index <= index == |ws|
    ensures Start(next) == |ws| && next.carried.None? && next.index == |ws|
  {
  }

  /** The chunks so far frame the header and the texts before `Start(next)`. */
  ghost predicate Written<V>(codec: Codec<V>, ws: seq<Wire>, chunks: seq<bytes>, next: Next) {
    && 0 <= Start(next) <= |ws| && Flatten(chunks) == FrameLines([codec.header] + Texts(codec, ws)[..Start(next)])
  }

  lemma NoChunks<V>(codec: Codec<V>, ws: seq<Wire>)
    ensures Flatten<byte>([]) == FrameLines(Document(codec, ws)[..0])
  {
    assert Document(codec, ws)[..0] == [];
  }

  lemma HeaderChunk<V>(codec: Codec<V>, ws: seq<Wire>, chunk: bytes)
    requires chunk == FrameLines([codec.header])
    ensures NextOk(codec, ws, Next(0, None)) && Written(codec, ws, [chunk], Next(0, None)) && ws[0..] == ws
    ensures IsChunk(chunk)
  {
    assert ChunkOf(chunk, [codec.header]);
    assert Texts(codec, ws)[..0] == [] && [codec.header] + [] == [codec.header];
    FlattenSnoc([], chunk);
    assert [] + [chunk] == [chunk];
  }

  lemma NextBounds<V>(codec: Codec<V>, ws: seq<Wire>, next: Next)
    requires NextOk(codec, ws, next)
    ensures 0 <= Start(next) <= next.index <= |ws|
  {
  }

  lemma WrittenPrefix<V>(codec: Codec<V>, ws: seq<Wire>, chunks: seq<bytes>, next: Next)
    requires Written(codec, ws, chunks, next)
    ensures exists n: nat :: n <= |Document(codec, ws)| && Flatten(chunks) == FrameLines(Document(codec, ws)[..n])
  {
    var n := Start(next) + 1;
    assert Document(codec, ws)[..n] == [codec.header] + Texts(codec, ws)[..Start(next)];
  }

  lemma WrittenAll<V>(codec: Codec<V>, ws: seq<Wire>, chunks: seq<bytes>, next: Next)
    requires Written(codec, ws, chunks, next) && Start(next) == |ws|
    ensures Flatten(chunks) == FrameLines(Document(codec, ws))
  {
    assert Texts(codec, ws)[..|ws|] == Texts(codec, ws);
  }

  lemma WrittenMore<V>(codec: Codec<V>, ws: seq<Wire>, chunks: seq<bytes>, next: Next, chunk: bytes, after: Next, lines: seq<bytes>)
    requires Written(codec, ws, chunks, next) && ChunkOf(chunk, lines) && Start(next) <= Start(after) <= |ws|
    requires lines == Texts(codec, ws)[Start(next)..Start(after)]
    ensures Written(codec, ws, chunks + [chunk], after) && IsChunk(chunk)
  {
    hide FrameLines, Flatten;
    FlattenSnoc(chunks, chunk);
    var texts := Texts(codec, ws);
    FrameLinesAppend([codec.header] + texts[..Start(next)], lines);
    assert [codec.header] + texts[..Start(next)] + lines == [codec.header] + texts[..Start(after)];
  }

  lemma ChargeNone<V>(codec: Codec<V>, ws: seq<Wire>)
    ensures forall b, s :: ChargeAll(codec, b, s, ws[|ws|..]) == Ok(s)
  {
  }
}
