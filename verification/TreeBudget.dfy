/**
 * When writing or reading a tree image runs out of its budget (`meter` in `internal/tree.ts`): said by the size of the
 * volume and of its document, not by how the meter counts.
 */
module TreeBudget {
  import opened Basics
  import opened Forest
  import opened Sorting
  import opened Volumes
  import opened Assembly
  import opened Lines
  import opened TreeMeter
  import opened TreeWriter
  import opened TreeImages
  import opened TreeReader
  import opened TreeMeaning
  import opened TreeVolume
  import opened TreeRoundTrip

  // ---------------------------------------------------------------- sums over sets

  ghost function Sum<T(!new)>(s: set<T>, w: T -> nat): nat {
    if s == {} then 0
    else
      var x :| x in s;
      w(x) + Sum(s - {x}, w)
  }

  lemma {:induction false} SumTake<T(!new)>(s: set<T>, w: T -> nat, x: T)
    requires x in s
    ensures Sum(s, w) == w(x) + Sum(s - {x}, w)
    decreases s
  {
    var y :| y in s && Sum(s, w) == w(y) + Sum(s - {y}, w);
    if x != y {
      SumTake(s - {y}, w, x);
      assert s - {y} - {x} == s - {x} - {y};
      SumTake(s - {x}, w, y);
    }
  }

  lemma {:induction false} SumUnion<T(!new)>(a: set<T>, b: set<T>, w: T -> nat)
    requires a !! b
    ensures Sum(a + b, w) == Sum(a, w) + Sum(b, w) && |a + b| == |a| + |b|
    decreases a
  {
    if a == {} {
      assert a + b == b;
    } else {
      var x :| x in a;
      SumTake(a, w, x);
      SumTake(a + b, w, x);
      assert a + b - {x} == (a - {x}) + b;
      SumUnion(a - {x}, b, w);
    }
  }

  lemma SumOne<T(!new)>(x: T, w: T -> nat)
    ensures Sum({x}, w) == w(x) && |{x}| == 1
  {
    SumTake({x}, w, x);
    assert {x} - {x} == {};
  }

  // ---------------------------------------------------------------- the size of a volume

  ghost function NameBytes(): Link -> nat {
    (l: Link) => |l.name|
  }

  ghost function PayloadBytes(v: Volume): Ino -> nat {
    (i: Ino) => if i !in v || v[i].Directory? then 0 else if v[i].File? then |v[i].data| else |v[i].target|
  }

  /** The bytes of every entry's name and of the content of every file and symbolic link that a path reaches. */
  ghost function HeldBytes(v: Volume): nat {
    Sum(AllEntries(v), NameBytes()) + Sum(Restrict(v).Keys, PayloadBytes(v))
  }

  /** A byte bound past the largest safe integer bounds nothing. */
  predicate Within(n: nat, bound: nat) {
    n <= bound || bound > 9007199254740991
  }

  /** No line is too long. */
  ghost predicate LinesWithin(lines: seq<bytes>, bound: nat) {
    forall k :: 0 <= k < |lines| ==> Within(|lines[k]|, bound)
  }

  /** A bound that is passed, by the field that names it. */
  ghost predicate Passed(b: Budget, lines: seq<bytes>, records: nat, entries: nat, held: nat, field: string) {
    || (field == "lineBytes" && !LinesWithin(lines, b.lineBytes))
    || (field == "encodedBytes" && !Within(|FrameLines(lines)|, b.encodedBytes))
    || (field == "records" && records > b.records)
    || (field == "entries" && entries > b.entries)
    || (field == "bytes" && !Within(held, b.decodedBytes))
  }

  /** Every bound holds. */
  ghost predicate AllWithin(b: Budget, lines: seq<bytes>, records: nat, entries: nat, held: nat) {
    && LinesWithin(lines, b.lineBytes) && Within(|FrameLines(lines)|, b.encodedBytes)
    && records <= b.records && entries <= b.entries && Within(held, b.decodedBytes)
  }

  // ---------------------------------------------------------------- charging a run of records

  function EntryTotal(ws: seq<Wire>): nat {
    if ws == [] then 0 else EntriesOf(ws[0]) + EntryTotal(ws[1..])
  }

  function HeldTotal(ws: seq<Wire>): nat {
    if ws == [] then 0 else DecodedOf(ws[0]) + HeldTotal(ws[1..])
  }

  /** Every bound holds once the records are charged on top of what is spent. */
  ghost predicate Affords<V>(codec: Codec<V>, b: Budget, s: Spent, ws: seq<Wire>) {
    && LinesWithin(Texts(codec, ws), b.lineBytes)
    && Within(s.encoded + |FrameLines(Texts(codec, ws))|, b.encodedBytes)
    && s.records + |ws| <= b.records && s.entries + EntryTotal(ws) <= b.entries
    && Within(s.decoded + HeldTotal(ws), b.decodedBytes)
  }

  ghost predicate Exceeds<V>(codec: Codec<V>, b: Budget, s: Spent, ws: seq<Wire>, field: string) {
    || (field == "lineBytes" && !LinesWithin(Texts(codec, ws), b.lineBytes))
    || (field == "encodedBytes" && !Within(s.encoded + |FrameLines(Texts(codec, ws))|, b.encodedBytes))
    || (field == "records" && s.records + |ws| > b.records)
    || (field == "entries" && s.entries + EntryTotal(ws) > b.entries)
    || (field == "bytes" && !Within(s.decoded + HeldTotal(ws), b.decodedBytes))
  }

  /** Nothing is overspent so far. */
  predicate InBudget(b: Budget, s: Spent) {
    Within(s.encoded, b.encodedBytes) && s.records <= b.records && s.entries <= b.entries && Within(s.decoded, b.decodedBytes)
  }

  lemma LineCharged(b: Budget, s: Spent, n: nat)
    requires InBudget(b, s)
    ensures var r := ChargeLine(b, s, n, true);
            && (r.Ok? <==> Within(n, b.lineBytes) && Within(s.encoded + n + 1, b.encodedBytes))
            && (r.Ok? ==> r.value == s.(encoded := s.encoded + n + 1))
            && (r.Err? ==> r.error.code == LimitExceeded
                           && ((r.error.field == "lineBytes" && !Within(n, b.lineBytes))
                               || (r.error.field == "encodedBytes" && !Within(s.encoded + n + 1, b.encodedBytes))))
  {
  }

  lemma NodeCharged(b: Budget, s: Spent, w: Wire)
    requires InBudget(b, s)
    ensures var r := ChargeNode(b, s, w);
            var next := Spent(s.encoded, s.records + 1, s.entries + EntriesOf(w), s.decoded + DecodedOf(w));
            && (r.Ok? <==> InBudget(b, next)) && (r.Ok? ==> r.value == next)
            && (r.Err? ==> r.error.code == LimitExceeded
                           && ((r.error.field == "records" && next.records > b.records)
                               || (r.error.field == "entries" && next.entries > b.entries)
                               || (r.error.field == "bytes" && !Within(next.decoded, b.decodedBytes))))
  {
    hide EntriesOf, DecodedOf;
  }

  lemma TextsSplit<V>(codec: Codec<V>, ws: seq<Wire>)
    requires ws != []
    ensures Texts(codec, ws) == [codec.text(ws[0])] + Texts(codec, ws[1..])
    ensures |FrameLines(Texts(codec, ws))| == |codec.text(ws[0])| + 1 + |FrameLines(Texts(codec, ws[1..]))|
    ensures forall bound :: LinesWithin(Texts(codec, ws), bound) <==>
                              Within(|codec.text(ws[0])|, bound) && LinesWithin(Texts(codec, ws[1..]), bound)
  {
    var all, rest := Texts(codec, ws), Texts(codec, ws[1..]);
    assert all[1..] == rest;
    forall bound ensures LinesWithin(all, bound) <==> Within(|all[0]|, bound) && LinesWithin(rest, bound) {
      if LinesWithin(all, bound) { assert forall k :: 0 <= k < |rest| ==> rest[k] == all[k + 1]; }
    }
  }

  /** Charging records in turn succeeds exactly when the whole fits, and a failure names a bound that is passed. */
  lemma {:induction false} ChargedAll<V>(codec: Codec<V>, b: Budget, s: Spent, ws: seq<Wire>)
    requires InBudget(b, s)
    ensures var r := ChargeAll(codec, b, s, ws);
            && (r.Ok? <==> Affords(codec, b, s, ws))
            && (r.Err? ==> r.error.code == LimitExceeded && Exceeds(codec, b, s, ws, r.error.field))
    decreases |ws|
  {
    hide ChargeLine, ChargeNode, EntriesOf, DecodedOf, Texts, FrameLines, LinesWithin;
    if ws == [] {
      NothingToCharge(codec, b);
    } else {
      TextsSplit(codec, ws);
      LineCharged(b, s, |codec.text(ws[0])|);
      var line := ChargeLine(b, s, |codec.text(ws[0])|, true);
      if line.Ok? {
        NodeCharged(b, line.value, ws[0]);
        var node := ChargeNode(b, line.value, ws[0]);
        if node.Ok? { ChargedAll(codec, b, node.value, ws[1..]); }
      }
    }
  }

  lemma NothingToCharge<V>(codec: Codec<V>, b: Budget)
    ensures LinesWithin(Texts(codec, []), b.lineBytes) && |FrameLines(Texts(codec, []))| == 0
  {
  }

  // ---------------------------------------------------------------- the records of a volume

  /** The entries that lead to one of the given inodes. */
  ghost function Into(v: Volume, s: set<Ino>): set<Link>
    requires WellFormed(v)
  {
    set l | l in AllEntries(v) && Target(v, l) in s
  }

  ghost function Target(v: Volume, l: Link): Ino
    requires l in AllEntries(v)
  {
    v[l.parent].entries[l.name]
  }

  lemma IntoMore(v: Volume, c: Ino, s: set<Ino>)
    requires WellFormed(v) && c !in s
    ensures Into(v, {c} + s) == Into(v, {c}) + Into(v, s) && Into(v, {c}) !! Into(v, s)
  {
    hide WellFormed, AllEntries, Target;
  }

  lemma IntoDirectory(v: Volume, c: Ino)
    requires WellFormed(v) && Live(v, c) && c in v && v[c].Directory?
    ensures Into(v, {c}) == if c == ROOT then {} else {Link(v[c].parent, v[c].name)}
  {
    var l := Link(v[c].parent, v[c].name);
    if c != ROOT {
      LiveParent(v, c);
      assert l in AllEntries(v) && Target(v, l) == c;
    }
    forall m | m in Into(v, {c}) ensures c != ROOT && m == l {
      assert EntryOk(v, m.parent, m.name, c);
    }
  }

  lemma IntoLeaf(v: Volume, c: Ino)
    requires WellFormed(v) && c in v && !v[c].Directory?
    ensures Into(v, {c}) == Elements(v[c].links)
  {
    forall m | m in Into(v, {c}) ensures m in v[c].links {
      assert EntryOk(v, m.parent, m.name, c);
    }
    forall m | m in v[c].links ensures m in Into(v, {c}) {
      assert LinkOk(v, c, m);
      assert m == Link(m.parent, m.name);
    }
  }

  lemma {:induction false} LinksMeasured(links: seq<Link>)
    requires NoRepeats(links)
    ensures Sum(Elements(links), NameBytes()) == NamesLength(WireLinks(links))
    decreases |links|
  {
    hide ToBytes, ToText;
    if links == [] {
      assert Elements(links) == {};
    } else {
      var last := links[|links| - 1];
      var rest := links[..|links| - 1];
      assert links == rest + [last];
      assert WireLinks(links)[..|links| - 1] == WireLinks(rest);
      assert last !in rest;
      assert Elements(links) - {last} == Elements(rest);
      SumTake(Elements(links), NameBytes(), last);
      LinksMeasured(rest);
    }
  }

  /** One record charges the entries that lead to its node, their names, and the node's content. */
  lemma RecordMeasured(v: Volume, c: Ino)
    requires WellFormed(v) && Reached(v, c)
    ensures c in v && EntriesOf(WireOf(c, v[c])) == |Into(v, {c})|
    ensures DecodedOf(WireOf(c, v[c])) == Sum(Into(v, {c}), NameBytes()) + PayloadBytes(v)(c)
  {
    if v[c].Directory? {
      IntoDirectory(v, c);
      SumOne(Link(v[c].parent, v[c].name), NameBytes());
    } else {
      IntoLeaf(v, c);
      DistinctCount(v[c].links);
      LinksMeasured(v[c].links);
    }
    hide WellFormed, Into, ToBytes, ToText, Live;
  }

  lemma {:induction false} RecordsMeasured(v: Volume, inos: seq<Ino>)
    requires WellFormed(v) && InoOrder(inos) && forall i :: i in inos ==> i in v && Reached(v, i)
    ensures EntryTotal(Wires(v, inos)) == |Into(v, Elements(inos))|
    ensures HeldTotal(Wires(v, inos)) ==
            Sum(Into(v, Elements(inos)), NameBytes()) + Sum(Elements(inos), PayloadBytes(v))
    decreases |inos|
  {
    hide WellFormed, Reached, EntriesOf, DecodedOf, WireOf, AllEntries, Target, NameBytes, PayloadBytes;
    if inos == [] {
      assert Elements(inos) == {} && Into(v, Elements(inos)) == {};
    } else {
      var c, rest := inos[0], inos[1..];
      assert c in inos && inos == [c] + rest;
      assert Wires(v, inos)[1..] == Wires(v, rest) && Wires(v, inos)[0] == WireOf(c, v[c]);
      assert c !in Elements(rest);
      assert Elements(inos) == {c} + Elements(rest);
      RecordMeasured(v, c);
      RecordsMeasured(v, rest);
      IntoMore(v, c, Elements(rest));
      SumUnion(Into(v, {c}), Into(v, Elements(rest)), NameBytes());
      SumUnion({c}, Elements(rest), PayloadBytes(v));
      SumOne(c, PayloadBytes(v));
    }
  }

  lemma VolumeMeasured(v: Volume, inos: seq<Ino>)
    requires WellFormed(v) && TreeInos(v, inos) && forall i :: i in inos ==> i in v
    ensures |inos| == |Restrict(v)|
    ensures EntryTotal(Wires(v, inos)) == |AllEntries(v)| && HeldTotal(Wires(v, inos)) == HeldBytes(v)
  {
    RecordsMeasured(v, inos);
    DistinctCount(inos);
    assert Elements(inos) == Restrict(v).Keys;
    forall l | l in AllEntries(v) ensures Target(v, l) in Elements(inos) { ChildReached(v, l.parent, l.name); }
    assert Into(v, Elements(inos)) == AllEntries(v);
  }

  // ---------------------------------------------------------------- the main results

  /**
   * Main result. Charging the document of a volume succeeds exactly when no line is too long, the document fits, and
   * the nodes, entries and held bytes that paths reach fit; a failure names a bound that is really passed.
   */
  lemma DocumentFits<V>(codec: Codec<V>, b: Budget, v: Volume, inos: seq<Ino>)
    requires WellFormed(v) && TreeInos(v, inos) && forall i :: i in inos ==> i in v
    ensures var lines := Document(codec, Wires(v, inos));
            var charged := ChargeDocument(codec, b, Wires(v, inos));
            && (charged.Ok? <==> AllWithin(b, lines, |Restrict(v)|, |AllEntries(v)|, HeldBytes(v)))
            && (charged.Err? ==> charged.error.code == LimitExceeded
                                 && Passed(b, lines, |Restrict(v)|, |AllEntries(v)|, HeldBytes(v), charged.error.field))
  {
    VolumeMeasured(v, inos);
    hide WellFormed, TreeInos, ChargeAll, ChargeLine, LinesWithin, FrameLines, Texts, EntryTotal, HeldTotal, HeldBytes;
    var ws := Wires(v, inos);
    var none := Spent(0, 0, 0, 0);
    LineCharged(b, none, |codec.header|);
    HeaderSplit(codec, ws);
    var header := ChargeLine(b, none, |codec.header|, true);
    if header.Ok? { ChargedAll(codec, b, header.value, ws); }
  }

  lemma HeaderSplit<V>(codec: Codec<V>, ws: seq<Wire>)
    ensures |FrameLines(Document(codec, ws))| == |codec.header| + 1 + |FrameLines(Texts(codec, ws))|
    ensures forall bound :: LinesWithin(Document(codec, ws), bound) <==>
                              Within(|codec.header|, bound) && LinesWithin(Texts(codec, ws), bound)
  {
    var all, rest := Document(codec, ws), Texts(codec, ws);
    assert all[1..] == rest;
    forall bound ensures LinesWithin(all, bound) <==> Within(|all[0]|, bound) && LinesWithin(rest, bound) {
      if LinesWithin(all, bound) { assert forall k :: 0 <= k < |rest| ==> rest[k] == all[k + 1]; }
    }
  }

  /** Main result: what was written for a volume reads back, cut in any way, exactly when the volume fits the budget. */
  lemma ReadsWhenItFits<V(!new)>(codec: Codec<V>, b: Budget, v: Volume, inos: seq<Ino>, chunks: seq<bytes>)
    requires WellFormed(v) && Storable(v) && TreeInos(v, inos) && forall i :: i in inos ==> i in v
    requires Faithful(codec, Wires(v, inos)) && Flatten(chunks) == FrameLines(Document(codec, Wires(v, inos)))
    ensures var lines := Document(codec, Wires(v, inos));
            var read := Run(SnapshotFraming(codec, b), NOTHING_READ, chunks);
            if AllWithin(b, lines, |Restrict(v)|, |AllEntries(v)|, HeldBytes(v)) then
              read.Ok? && NoNameTwice(SpecMap(read.value)) && Assemble(SpecMap(read.value)) == Restrict(v)
            else
              read.Err? && read.error.code == LimitExceeded
              && Passed(b, lines, |Restrict(v)|, |AllEntries(v)|, HeldBytes(v), read.error.field)
  {
    WriteThenRead(codec, b, v, inos, chunks);
    DocumentFits(codec, b, v, inos);
    hide *;
  }
}
