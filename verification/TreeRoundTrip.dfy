/**
 * Writing a tree image and reading it back. The reader gets the written bytes cut in any way; it fails on a budget
 * exactly when the writer does under the same budget, naming the same field, and otherwise restores the volume.
 */
module TreeRoundTrip {
  import opened Basics
  import opened Forest
  import opened Volumes
  import opened Assembly
  import opened Lines
  import opened TreeMeter
  import opened TreeReader
  import opened TreeGraph
  import opened TreeMeaning
  import opened TreeVolume
  import opened TreeEnd
  import opened TreeWriter
  import opened TreeImages

  // ---------------------------------------------------------------- the snapshot reader as a line fold

  /** `headed` once the header has been read. */
  datatype Session = Session(spent: Spent, headed: bool, tree: Tree)

  const NOTHING_READ := Session(Spent(0, 0, 0, 0), false, EMPTY_TREE)
  const NO_HEADER := Failure(InvalidStructure, "document")

  function MeterSession(b: Budget, s: Session, n: nat, ended: bool): Result<Session, Failure> {
    match ChargeLine(b, s.spent, n, ended)
    case Err(e) => Err(e)
    case Ok(spent) => Ok(s.(spent := spent))
  }

  function FoldSession<V>(codec: Codec<V>, b: Budget, s: Session, value: V, index: nat): Result<Session, Failure> {
    if index == 0 then
      match codec.decodeHeader(value)
      case Some(e) => Err(e)
      case None => Ok(s.(headed := true))
    else
      match codec.decodeNode(value)
      case Err(e) => Err(e)
      case Ok(r) =>
        match ChargeNode(b, s.spent, r.node)
        case Err(e) => Err(e)
        case Ok(spent) =>
          match ReadRecord(None, s.tree, r, index - 1)
          case Err(e) => Err(e)
          case Ok(tree) => Ok(Session(spent, s.headed, tree))
  }

  ghost function FinishSession(s: Session): Result<seq<Item>, Failure> {
    if !s.headed then Err(NO_HEADER)
    else if s.tree.count == 0 then Err(NO_ROOT)
    else if forall d :: d in s.tree.directories ==> d in s.tree.positions then
      match GraphIssue(s.tree)
      case Some(e) => Err(e)
      case None => Ok(s.tree.items)
    else Err(NO_ROOT)
  }

  ghost function SnapshotFraming<V>(codec: Codec<V>, b: Budget): Framing<Session, V, seq<Item>> {
    Framing(
      (s: Session, n: nat, ended: bool) => MeterSession(b, s, n, ended),
      codec.parse,
      (s: Session, value: V, index: nat) => FoldSession(codec, b, s, value, index),
      (s: Session) => FinishSession(s))
  }

  ghost function Solvent(b: Budget): Session -> bool {
    (s: Session) => MeterOk(b, s.spent)
  }

  /** The meter keeps the laws the line reader needs, so chunk boundaries never show. */
  lemma SnapshotLawful<V(!new)>(codec: Codec<V>, b: Budget)
    ensures Lawful(SnapshotFraming(codec, b), Solvent(b))
  {
    var f, inv := SnapshotFraming(codec, b), Solvent(b);
    forall s: Session | inv(s) ensures f.meterLine(s, 0, false).Ok? { ChargeLineLawful(b, s.spent, 0, 0, false); }
    forall s: Session, n: nat | inv(s) && f.meterLine(s, n, false).Ok? ensures f.meterLine(s, n, false).value == s {
      ChargeLineLawful(b, s.spent, n, n, false);
    }
    forall s: Session, n: nat, m: nat, ended | inv(s) && n <= m && f.meterLine(s, n, false).Err?
      ensures f.meterLine(s, m, ended) == f.meterLine(s, n, false)
    {
      ChargeLineLawful(b, s.spent, n, m, ended);
    }
    forall s: Session, n: nat | inv(s) && f.meterLine(s, n, true).Ok? ensures inv(f.meterLine(s, n, true).value) {
      ChargeLineLawful(b, s.spent, n, n, true);
    }
    forall s: Session, v: V, k: nat | inv(s) && f.foldLine(s, v, k).Ok? ensures inv(f.foldLine(s, v, k).value) {
      FoldKeepsMeter(codec, b, s, v, k);
    }
  }

  lemma FoldKeepsMeter<V>(codec: Codec<V>, b: Budget, s: Session, v: V, k: nat)
    requires FoldSession(codec, b, s, v, k).Ok?
    ensures FoldSession(codec, b, s, v, k).value.spent.encoded == s.spent.encoded
  {
    hide ReadRecord;
  }

  // ---------------------------------------------------------------- what is asked of the codec

  /** A line that frames back: not empty, no newline in it, no carriage return at its end. */
  predicate Framable(line: bytes) {
    line != [] && NEWLINE !in line && line[|line| - 1] != CARRIAGE_RETURN
  }

  /** The codec parses back the lines it wrote. */
  ghost predicate Faithful<V(!new)>(codec: Codec<V>, ws: seq<Wire>) {
    && Framable(codec.header) && codec.parse(codec.header).Some?
    && codec.decodeHeader(codec.parse(codec.header).value).None?
    && (forall w :: w in ws ==>
          && Framable(codec.text(w)) && codec.parse(codec.text(w)).Some?
          && codec.decodeNode(codec.parse(codec.text(w)).value) == Ok(Record(w, 1)))
  }

  // ---------------------------------------------------------------- reading the lines of a document

  /** Closing the lines of acceptable records charges them as the writer did and reads them. */
  lemma {:induction false} CloseRecords<V(!new)>(codec: Codec<V>, b: Budget, ws: seq<Wire>, k: nat, s: Session)
    requires Faithful(codec, ws) && k <= |ws| && RecordsOk(None, Records(ws)) && AllInline(Records(ws))
    requires AllInline(Records(ws)[..k]) && s.headed && s.tree == TreeOf(false, Records(ws)[..k])
    ensures CloseAll(SnapshotFraming(codec, b), Reading([], k + 1, s), Texts(codec, ws)[k..]) ==
            match ChargeAll(codec, b, s.spent, ws[k..])
            case Err(e) => Failed(e)
            case Ok(spent) => Reading([], |ws| + 1, Session(spent, true, TreeOf(false, Records(ws))))
    decreases |ws| - k
  {
    var f, texts, rs := SnapshotFraming(codec, b), Texts(codec, ws), Records(ws);
    if k == |ws| {
      assert texts[k..] == [] && ws[k..] == [] && rs[..k] == rs;
    } else {
      var w := ws[k];
      assert texts[k..][0] == codec.text(w) && texts[k..][1..] == texts[k + 1..];
      CloseRecord(codec, b, ws, k, s);
      ChargeStep(codec, b, s.spent, ws, k);
      hide Faithful, RecordsOk, AllInline, Extend, ChargeRecord;
      var closed := CloseLine(f, codec.text(w), k + 1, s);
      assert CloseAll(f, Reading([], k + 1, s), texts[k..]) == CloseAll(f, closed, texts[k + 1..]);
      if closed.Reading? { CloseRecords(codec, b, ws, k + 1, closed.fold); }
    }
  }

  /** One record's line. */
  lemma CloseRecord<V(!new)>(codec: Codec<V>, b: Budget, ws: seq<Wire>, k: nat, s: Session)
    requires Faithful(codec, ws) && k < |ws| && RecordsOk(None, Records(ws))
    requires AllInline(Records(ws)[..k]) && s.headed && s.tree == TreeOf(false, Records(ws)[..k])
    ensures AllInline(Records(ws)[..k + 1])
    ensures CloseLine(SnapshotFraming(codec, b), codec.text(ws[k]), k + 1, s) ==
            match ChargeRecord(codec, b, s.spent, ws[k])
            case Err(e) => Failed(e)
            case Ok(spent) => Reading([], k + 2, Session(spent, true, TreeOf(false, Records(ws)[..k + 1])))
  {
    var rs, w := Records(ws), ws[k];
    assert w in ws;
    FaithfulAt(codec, ws, w);
    hide *;
    assert rs[k] == Record(w, 1);
    ReadNext(rs, k);
    CloseOne(codec, b, w, k, s, TreeOf(false, rs[..k + 1]));
  }

  lemma FaithfulAt<V(!new)>(codec: Codec<V>, ws: seq<Wire>, w: Wire)
    requires Faithful(codec, ws) && w in ws
    ensures Framable(codec.text(w)) && codec.parse(codec.text(w)).Some?
    ensures codec.decodeNode(codec.parse(codec.text(w)).value) == Ok(Record(w, 1))
  {
    hide Framable;
  }

  lemma CloseOne<V>(codec: Codec<V>, b: Budget, w: Wire, k: nat, s: Session, next: Tree)
    requires Framable(codec.text(w)) && codec.parse(codec.text(w)).Some? && s.headed
    requires codec.decodeNode(codec.parse(codec.text(w)).value) == Ok(Record(w, 1))
    requires ReadRecord(None, s.tree, Record(w, 1), k) == Ok(next)
    ensures CloseLine(SnapshotFraming(codec, b), codec.text(w), k + 1, s) ==
            match ChargeRecord(codec, b, s.spent, w)
            case Err(e) => Failed(e)
            case Ok(spent) => Reading([], k + 2, Session(spent, true, next))
  {
    hide ReadRecord, ChargeLine, ChargeNode;
    assert Parse(SnapshotFraming(codec, b), codec.text(w)) == Ok(codec.parse(codec.text(w)).value);
  }

  lemma ReadNext(rs: seq<Record>, k: nat)
    requires RecordsOk(None, rs) && k < |rs| && AllInline(rs[..k])
    ensures AllInline(rs[..k + 1])
    ensures ReadRecord(None, TreeOf(false, rs[..k]), rs[k], k) == Ok(TreeOf(false, rs[..k + 1]))
  {
    OkCut(rs, k);
    OkCut(rs, k + 1);
    OkInline(None, rs[..k + 1]);
    ReadAllMeans(None, rs[..k]);
    assert rs[..k + 1][..k] == rs[..k];
    hide Extend;
    assert Refusal(None, Previous(rs[..k]), rs[k], k).None?;
  }

  lemma OkCut(rs: seq<Record>, k: nat)
    requires RecordsOk(None, rs) && k <= |rs|
    ensures RecordsOk(None, rs[..k])
  {
    hide Refusal, Previous;
    assert forall i :: 0 <= i < k ==> rs[..k][i] == rs[i] && rs[..k][..i] == rs[..i];
  }

  /** What reading a document amounts to before the end check. */
  lemma CloseDocument<V(!new)>(codec: Codec<V>, b: Budget, ws: seq<Wire>)
    requires Faithful(codec, ws) && RecordsOk(None, Records(ws)) && AllInline(Records(ws))
    ensures CloseAll(SnapshotFraming(codec, b), Reading([], 0, NOTHING_READ), Document(codec, ws)) ==
            match ChargeDocument(codec, b, ws)
            case Err(e) => Failed(e)
            case Ok(spent) => Reading([], |ws| + 1, Session(spent, true, TreeOf(false, Records(ws))))
  {
    var f, lines := SnapshotFraming(codec, b), Document(codec, ws);
    assert lines[0] == codec.header && lines[1..] == Texts(codec, ws);
    NothingOpen(codec, b);
    DocumentCharge(codec, b, ws);
    hide *;
    CloseHeader(codec, b, ws);
    var closed := CloseLine(f, codec.header, 0, NOTHING_READ);
    CloseFirst(f, Reading([], 0, NOTHING_READ), lines);
    assert Texts(codec, ws)[0..] == Texts(codec, ws) && ws[0..] == ws && Records(ws)[..0] == [];
    if closed.Reading? {
      NoRecords(None);
      CloseRecords(codec, b, ws, 0, closed.fold);
    } else {
      CloseFailed(f, closed, lines[1..]);
    }
  }

  lemma NothingOpen<V(!new)>(codec: Codec<V>, b: Budget)
    ensures TreeOf(false, []) == EMPTY_TREE && NOTHING_READ == Session(Spent(0, 0, 0, 0), false, EMPTY_TREE)
  {
  }

  lemma DocumentCharge<V(!new)>(codec: Codec<V>, b: Budget, ws: seq<Wire>)
    ensures var first := ChargeLine(b, Spent(0, 0, 0, 0), |codec.header|, true);
            ChargeDocument(codec, b, ws) == if first.Err? then Err(first.error) else ChargeAll(codec, b, first.value, ws)
  {
  }

  lemma CloseFirst<S, V, A>(f: Framing<S, V, A>, r: Lines.Reader<S>, lines: seq<bytes>)
    requires lines != [] && r.Reading?
    ensures CloseAll(f, r, lines) == CloseAll(f, CloseLine(f, lines[0], r.lines, r.fold), lines[1..])
  {
    hide CloseLine;
  }

  lemma CloseFailed<S, V, A>(f: Framing<S, V, A>, r: Lines.Reader<S>, lines: seq<bytes>)
    requires r.Failed?
    ensures CloseAll(f, r, lines) == r
  {
  }

  lemma CloseHeader<V(!new)>(codec: Codec<V>, b: Budget, ws: seq<Wire>)
    requires Faithful(codec, ws)
    ensures CloseLine(SnapshotFraming(codec, b), codec.header, 0, NOTHING_READ) ==
            match ChargeLine(b, Spent(0, 0, 0, 0), |codec.header|, true)
            case Err(e) => Failed(e)
            case Ok(spent) => Reading([], 1, Session(spent, true, EMPTY_TREE))
  {
    hide ChargeLine;
    assert Parse(SnapshotFraming(codec, b), codec.header) == Ok(codec.parse(codec.header).value);
  }

  /** However the document is cut, reading it is closing its lines and ending. */
  lemma ReadDocument<V(!new)>(codec: Codec<V>, b: Budget, ws: seq<Wire>, chunks: seq<bytes>)
    requires Faithful(codec, ws) && RecordsOk(None, Records(ws)) && AllInline(Records(ws))
    requires Flatten(chunks) == FrameLines(Document(codec, ws))
    ensures Run(SnapshotFraming(codec, b), NOTHING_READ, chunks) ==
            match ChargeDocument(codec, b, ws)
            case Err(e) => Err(e)
            case Ok(spent) => FinishSession(Session(spent, true, TreeOf(false, Records(ws))))
  {
    var f, inv, start := SnapshotFraming(codec, b), Solvent(b), Reading([], 0, NOTHING_READ);
    SnapshotLawful(codec, b);
    NoNewlines(codec, ws);
    CloseDocument(codec, b, ws);
    hide Lawful, Faithful, RecordsOk, CloseAll, FeedAll, Drive, ChargeDocument, FinishSession, MeterSession;
    assert inv(NOTHING_READ);
    GoodStart(codec, b);
    ChunkingIrrelevant(f, inv, NOTHING_READ, chunks, chunks);
    FeedFrame(f, inv, start, Document(codec, ws));
  }

  lemma GoodStart<V(!new)>(codec: Codec<V>, b: Budget)
    ensures Good(SnapshotFraming(codec, b), Solvent(b), Reading([], 0, NOTHING_READ))
  {
  }

  lemma NoNewlines<V(!new)>(codec: Codec<V>, ws: seq<Wire>)
    requires Faithful(codec, ws)
    ensures var lines := Document(codec, ws);
            forall i, k :: 0 <= i < |lines| && 0 <= k < |lines[i]| ==> lines[i][k] != NEWLINE
  {
    var lines := Document(codec, ws);
    forall i, k | 0 <= i < |lines| && 0 <= k < |lines[i]| ensures lines[i][k] != NEWLINE {
      if i > 0 { assert ws[i - 1] in ws && lines[i] == codec.text(ws[i - 1]); }
      assert lines[i][k] in lines[i];
    }
  }

  // ---------------------------------------------------------------- reading any bytes

  /** What a reader has taken in so far: a header, then acceptable records. */
  ghost predicate Taken(r: Lines.Reader<Session>, rs: seq<Record>) {
    r.Reading? ==>
      && RecordsOk(None, rs) && AllInline(rs) && r.fold.tree == TreeOf(false, rs)
      && (r.fold.headed <==> r.lines > 0) && r.lines == if r.fold.headed then |rs| + 1 else |rs|
  }

  lemma TakeLine<V>(codec: Codec<V>, b: Budget, r: Lines.Reader<Session>, rs: seq<Record>) returns (next: seq<Record>)
    requires Taken(r, rs) && r.Reading?
    ensures Taken(CloseLine(SnapshotFraming(codec, b), r.held, r.lines, r.fold), next)
  {
    next := rs;
    var f := SnapshotFraming(codec, b);
    var closed := CloseLine(f, r.held, r.lines, r.fold);
    if closed.Reading? && r.lines > 0 {
      var value := Parse(f, r.held).value;
      var record := codec.decodeNode(value).value;
      next := rs + [record];
      assert next[..|rs|] == rs;
      OkPrefix(None, next);
      AppendOk(rs, record);
      hide RecordsOk, Refusal, AllInline, Extend, ChargeLine, ChargeNode;
    } else {
      hide RecordsOk, ReadRecord, AllInline, ChargeLine, ChargeNode;
    }
  }

  lemma AppendOk(rs: seq<Record>, r: Record)
    requires RecordsOk(None, rs) && AllInline(rs)
    ensures TreeOf(false, rs).previous == Previous(rs)
    ensures ReadRecord(None, TreeOf(false, rs), r, |rs|).Ok? ==>
              && RecordsOk(None, rs + [r]) && AllInline(rs + [r])
              && ReadRecord(None, TreeOf(false, rs), r, |rs|).value == TreeOf(false, rs + [r])
  {
    ReadAllMeans(None, rs);
    var next := rs + [r];
    assert next[..|rs|] == rs;
    OkPrefix(None, next);
    if ReadRecord(None, TreeOf(false, rs), r, |rs|).Ok? { OkInline(None, next); }
  }

  lemma {:induction false} TakeBytes<V>(codec: Codec<V>, b: Budget, r: Lines.Reader<Session>, rs: seq<Record>, input: bytes)
    returns (all: seq<Record>)
    requires Taken(r, rs)
    ensures Taken(Drive(SnapshotFraming(codec, b), r, input), all)
    decreases |input|
  {
    all := rs;
    if input != [] {
      var f := SnapshotFraming(codec, b);
      var next := rs;
      if r.Reading? && input[0] == NEWLINE { next := TakeLine(codec, b, r, rs); }
      hide RecordsOk, AllInline, CloseLine, ChargeLine;
      assert Taken(Step(f, r, input[0]), next);
      all := TakeBytes(codec, b, Step(f, r, input[0]), next, input[1..]);
    }
  }

  lemma NothingTaken()
    ensures Taken(Reading([], 0, NOTHING_READ), [])
  {
  }

  /** Main result: whatever the bytes and however cut, what the snapshot reader accepts restores to a well-formed volume. */
  lemma AnyAcceptedIsWellFormed<V(!new)>(codec: Codec<V>, b: Budget, chunks: seq<bytes>)
    requires Run(SnapshotFraming(codec, b), NOTHING_READ, chunks).Ok?
    ensures var items := Run(SnapshotFraming(codec, b), NOTHING_READ, chunks).value;
            NoNameTwice(SpecMap(items)) && WellFormed(Assemble(SpecMap(items)))
  {
    SnapshotLawful(codec, b);
    var f, inv := SnapshotFraming(codec, b), Solvent(b);
    assert inv(NOTHING_READ);
    NothingTaken();
    hide Lawful, FeedAll, Drive, Taken, WellFormed, Assemble, NoNameTwice, FinishSession;
    ChunkingIrrelevant(f, inv, NOTHING_READ, chunks, chunks);
    var rs := TakeBytes(codec, b, Reading([], 0, NOTHING_READ), [], Flatten(chunks));
    var r := Drive(f, Reading([], 0, NOTHING_READ), Flatten(chunks));
    FinishedAccepted(r, rs);
    ImageNoNameTwice(None, rs);
    AcceptedIsWellFormed(None, rs);
  }

  lemma FinishedAccepted(r: Lines.Reader<Session>, rs: seq<Record>)
    requires Taken(r, rs) && r.Reading? && FinishSession(r.fold).Ok?
    ensures Accepted(None, rs) && FinishSession(r.fold).value == TreeOf(false, rs).items
  {
    CountOf(false, rs);
    ReadDirectoriesKnown(None, rs);
    GraphIssueMeans(TreeOf(false, rs));
    hide TreeOf, GraphOk, GraphIssue, RecordsOk;
  }

  // ---------------------------------------------------------------- the round trip

  /** The wires of a volume are its records. */
  lemma WiresAreRecords(v: Volume, inos: seq<Ino>)
    requires WellFormed(v) && Storable(v) && TreeInos(v, inos)
    ensures (forall i :: i in inos ==> i in v) && RecordsOf(v, inos, Records(Wires(v, inos)))
  {
    hide WellFormed;
    forall i | i in inos ensures i in v { assert Reached(v, i); }
    assert forall k :: 0 <= k < |inos| ==> inos[k] in inos;
  }

  /** An accepted snapshot passes the end check. */
  lemma AcceptedFinishes(rs: seq<Record>, spent: Spent)
    requires Accepted(None, rs)
    ensures FinishSession(Session(spent, true, TreeOf(false, rs))) == Ok(TreeOf(false, rs).items)
  {
    CountOf(false, rs);
    ReadDirectoriesKnown(None, rs);
    GraphIssueMeans(TreeOf(false, rs));
    hide TreeOf, GraphOk, GraphIssue, RecordsOk;
  }

  /**
   * Main result. Writing a well-formed volume and reading the bytes back, cut in any way and under any budget, fails
   * with the field the writer fails with under that budget, or restores exactly what a path reaches.
   */
  lemma WriteThenRead<V(!new)>(codec: Codec<V>, b: Budget, v: Volume, inos: seq<Ino>, chunks: seq<bytes>)
    requires WellFormed(v) && Storable(v) && TreeInos(v, inos) && forall i :: i in inos ==> i in v
    requires Faithful(codec, Wires(v, inos)) && Flatten(chunks) == FrameLines(Document(codec, Wires(v, inos)))
    ensures var read := Run(SnapshotFraming(codec, b), NOTHING_READ, chunks);
            match ChargeDocument(codec, b, Wires(v, inos))
            case Err(e) => read == Err(e)
            case Ok(_) => read.Ok? && NoNameTwice(SpecMap(read.value)) && Assemble(SpecMap(read.value)) == Restrict(v)
  {
    var ws := Wires(v, inos);
    WiresAreRecords(v, inos);
    var rs := Records(ws);
    WrittenRestores(v, inos, rs);
    hide WellFormed, RecordsOf, TreeInos, Run, ChargeDocument, FinishSession, Faithful, TreeOf, Reached, Assemble, NoNameTwice;
    ReadDocument(codec, b, ws, chunks);
    if ChargeDocument(codec, b, ws).Ok? {
      AcceptedFinishes(rs, ChargeDocument(codec, b, ws).value);
      ImageNoNameTwice(None, rs);
    }
  }

  /** `encode` then `decode`: write with a meter, and read what an unmetered writer would have written. */
  method EncodeSnapshot<V(!new)>(codec: Codec<V>, b: Budget, v: Volume) returns (chunks: seq<bytes>, failure: Option<Failure>)
    requires WellFormed(v) && Storable(v)
    requires forall inos: seq<Ino> :: TreeInos(v, inos) && (forall i :: i in inos ==> i in v) ==> Faithful(codec, Wires(v, inos))
    ensures exists inos: seq<Ino> ::
              && TreeInos(v, inos) && (forall i :: i in inos ==> i in v)
              && (failure.None? ==> Flatten(chunks) == FrameLines(Document(codec, Wires(v, inos))))
              && (forall cut: seq<bytes> :: Flatten(cut) == FrameLines(Document(codec, Wires(v, inos))) ==>
                    ReadBack(codec, b, v, cut, failure))
  {
    var inos := TreeNodes(v);
    WiresAreRecords(v, inos);
    hide WellFormed, TreeInos, ChargeDocument, Faithful, FrameLines, Reached;
    var meter := new Meter(b);
    var writer := new Writer(codec, Wires(v, inos), meter);
    chunks, failure := writer.WriteTree();
    forall cut: seq<bytes> | Flatten(cut) == FrameLines(Document(codec, Wires(v, inos)))
      ensures ReadBack(codec, b, v, cut, failure)
    {
      WriteThenRead(codec, b, v, inos, cut);
    }
  }

  /** Reading `cut` under the writer's budget fails as the writer did, or restores the volume. */
  ghost predicate ReadBack<V(!new)>(codec: Codec<V>, b: Budget, v: Volume, cut: seq<bytes>, failure: Option<Failure>) {
    var read := Run(SnapshotFraming(codec, b), NOTHING_READ, cut);
    if failure.Some? then read == Err(failure.value)
    else read.Ok? && NoNameTwice(SpecMap(read.value)) && Assemble(SpecMap(read.value)) == Restrict(v)
  }
}
