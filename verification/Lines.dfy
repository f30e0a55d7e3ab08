/**
 * The bounded line reader of `internal/lines.ts`: newline-framed input arrives in arbitrary chunks, each line is
 * metered before it is parsed, and every complete line is folded into a caller-owned state.
 *
 * `Feed` follows the scan loop over one chunk. `Drive` is the reference: a reader that takes one byte at a time and
 * meters every prefix of a line. They agree for every lawful meter, so results do not depend on chunk boundaries.
 */
module Lines {
  import opened Basics

  const NEWLINE: byte := 10
  const CARRIAGE_RETURN: byte := 13
  const WALK_YIELD_INTERVAL := 128

  /** The failure of a malformed line and of a chunk whose buffer is detached. */
  const BAD_TEXT := Failure(InvalidEncoding, "text")
  const BAD_INPUT := Failure(InvalidEncoding, "input")

  /**
   * What a reader is given. `meterLine(s, n, ended)` charges a line of `n` bytes so far, `parse` abstracts UTF-8
   * decoding and JSON parsing, `foldLine` takes a parsed line and its index, `finish` closes the fold.
   */
  datatype Framing<!S, !V, !A> = Framing(
    meterLine: (S, nat, bool) -> Result<S, Failure>,
    parse: bytes -> Option<V>,
    foldLine: (S, V, nat) -> Result<S, Failure>,
    finish: S -> Result<A, Failure>
  )

  /** `held` is the unfinished line, `lines` the number of lines folded so far. */
  datatype Reader<+S> = Reading(held: bytes, lines: nat, fold: S) | Failed(error: Failure)

  /**
   * The laws a line meter must keep: only an ended line changes it, and once an unfinished line is refused, every
   * longer version of it, ended or not, is refused for the same reason.
   */
  ghost predicate Lawful<S(!new), V(!new), A>(f: Framing<S, V, A>, inv: S -> bool) {
    && (forall s :: inv(s) ==> f.meterLine(s, 0, false).Ok?)
    && (forall s, n: nat :: inv(s) && f.meterLine(s, n, false).Ok? ==> f.meterLine(s, n, false).value == s)
    && (forall s, n: nat, m: nat, ended ::
          inv(s) && n <= m && f.meterLine(s, n, false).Err? ==> f.meterLine(s, m, ended) == f.meterLine(s, n, false))
    && (forall s, n: nat :: inv(s) && f.meterLine(s, n, true).Ok? ==> inv(f.meterLine(s, n, true).value))
    && (forall s, v, k: nat :: inv(s) && f.foldLine(s, v, k).Ok? ==> inv(f.foldLine(s, v, k).value))
  }

  ghost predicate Good<S(!new), V(!new), A>(f: Framing<S, V, A>, inv: S -> bool, r: Reader<S>) {
    r.Reading? ==> inv(r.fold) && f.meterLine(r.fold, |r.held|, false).Ok?
  }

  /** An empty line, a carriage return at the end and undecodable text are all refused. */
  function Parse<S, V, A>(f: Framing<S, V, A>, line: bytes): Result<V, Failure> {
    if line == [] || line[|line| - 1] == CARRIAGE_RETURN then Err(BAD_TEXT)
    else match f.parse(line)
      case None => Err(BAD_TEXT)
      case Some(v) => Ok(v)
  }

  /** A complete line: charge it, parse it, fold it. */
  function CloseLine<S, V, A>(f: Framing<S, V, A>, line: bytes, lines: nat, fold: S): Reader<S> {
    match f.meterLine(fold, |line|, true)
    case Err(e) => Failed(e)
    case Ok(charged) =>
      match Parse(f, line)
      case Err(e) => Failed(e)
      case Ok(v) =>
        match f.foldLine(charged, v, lines)
        case Err(e) => Failed(e)
        case Ok(next) => Reading([], lines + 1, next)
  }

  /** The position of the first newline at or after `from`, or the length when there is none. */
  function NextNewline(chunk: bytes, from: nat): (k: nat)
    requires from <= |chunk|
    ensures from <= k <= |chunk|
    ensures forall i :: from <= i < k ==> chunk[i] != NEWLINE
    ensures k < |chunk| ==> chunk[k] == NEWLINE
    decreases |chunk| - from
  {
    if from == |chunk| || chunk[from] == NEWLINE then from else NextNewline(chunk, from + 1)
  }

  /** What the reader does with the rest of a chunk from `from` on. */
  function FeedFrom<S, V, A>(f: Framing<S, V, A>, r: Reader<S>, chunk: bytes, from: nat): Reader<S>
    requires from <= |chunk|
    decreases |chunk| - from
  {
    if r.Failed? || from == |chunk| then r
    else
      var stop := NextNewline(chunk, from);
      var line := r.held + chunk[from..stop];
      if stop == |chunk| then
        match f.meterLine(r.fold, |line|, false)
        case Err(e) => Failed(e)
        case Ok(s) => Reading(line, r.lines, s)
      else FeedFrom(f, CloseLine(f, line, r.lines, r.fold), chunk, stop + 1)
  }

  lemma FeedStep<S, V, A>(f: Framing<S, V, A>, r: Reader<S>, chunk: bytes, from: nat)
    requires from < |chunk| && r.Reading?
    ensures var stop := NextNewline(chunk, from);
            var line := r.held + chunk[from..stop];
            && from <= stop <= |chunk|
            && FeedFrom(f, r, chunk, from) ==
               if stop < |chunk| then FeedFrom(f, CloseLine(f, line, r.lines, r.fold), chunk, stop + 1)
               else match f.meterLine(r.fold, |line|, false) case Err(e) => Failed(e) case Ok(s) => Reading(line, r.lines, s)
  {
  }

  lemma FeedEnd<S, V, A>(f: Framing<S, V, A>, r: Reader<S>, chunk: bytes, from: nat)
    requires from <= |chunk| && (r.Failed? || from == |chunk|)
    ensures FeedFrom(f, r, chunk, from) == r
  {
  }

  lemma CloseUnpaid<S, V, A>(f: Framing<S, V, A>, line: bytes, lines: nat, fold: S)
    requires f.meterLine(fold, |line|, true).Err?
    ensures CloseLine(f, line, lines, fold) == Failed(f.meterLine(fold, |line|, true).error)
  {
  }

  function Feed<S, V, A>(f: Framing<S, V, A>, r: Reader<S>, chunk: bytes): Reader<S> {
    FeedFrom(f, r, chunk, 0)
  }

  function FeedAll<S, V, A>(f: Framing<S, V, A>, r: Reader<S>, chunks: seq<bytes>): Reader<S>
    decreases |chunks|
  {
    if chunks == [] then r else FeedAll(f, Feed(f, r, chunks[0]), chunks[1..])
  }

  function End<S, V, A>(f: Framing<S, V, A>, r: Reader<S>): Result<A, Failure> {
    match r
    case Failed(e) => Err(e)
    case Reading(held, _, fold) => if held != [] then Err(BAD_TEXT) else f.finish(fold)
  }

  /** The sink: feed every chunk, then end. */
  function Run<S, V, A>(f: Framing<S, V, A>, start: S, chunks: seq<bytes>): Result<A, Failure> {
    End(f, FeedAll(f, Reading([], 0, start), chunks))
  }

  // ---------------------------------------------------------------- the reference: one byte at a time

  function Step<S, V, A>(f: Framing<S, V, A>, r: Reader<S>, b: byte): Reader<S> {
    if r.Failed? then r
    else if b == NEWLINE then CloseLine(f, r.held, r.lines, r.fold)
    else
      match f.meterLine(r.fold, |r.held| + 1, false)
      case Err(e) => Failed(e)
      case Ok(s) => Reading(r.held + [b], r.lines, s)
  }

  function Drive<S, V, A>(f: Framing<S, V, A>, r: Reader<S>, input: bytes): Reader<S>
    decreases |input|
  {
    if input == [] then r else Drive(f, Step(f, r, input[0]), input[1..])
  }

  lemma {:induction false} DriveAppend<S, V, A>(f: Framing<S, V, A>, r: Reader<S>, a: bytes, b: bytes)
    ensures Drive(f, r, a + b) == Drive(f, Drive(f, r, a), b)
    decreases |a|
  {
    if a == [] {
      assert a + b == b;
    } else {
      assert (a + b)[1..] == a[1..] + b;
      DriveAppend(f, Step(f, r, a[0]), a[1..], b);
    }
  }

  lemma {:induction false} DriveFailed<S, V, A>(f: Framing<S, V, A>, r: Reader<S>, input: bytes)
    requires r.Failed?
    ensures Drive(f, r, input) == r
    decreases |input|
  {
    if input != [] { DriveFailed(f, r, input[1..]); }
  }

  /** Metering every prefix of a newline-free piece gives the same verdict as metering the whole piece. */
  lemma {:induction false} DrivePiece<S(!new), V(!new), A>(f: Framing<S, V, A>, inv: S -> bool, r: Reader<S>, piece: bytes)
    requires Lawful(f, inv) && Good(f, inv, r) && r.Reading?
    requires forall i :: 0 <= i < |piece| ==> piece[i] != NEWLINE
    ensures
      var whole := f.meterLine(r.fold, |r.held| + |piece|, false);
      Drive(f, r, piece) == if whole.Ok? then Reading(r.held + piece, r.lines, r.fold) else Failed(whole.error)
    decreases |piece|
  {
    if piece == [] {
      assert r.held + piece == r.held;
    } else {
      var next := Step(f, r, piece[0]);
      if next.Failed? {
        DriveFailed(f, next, piece[1..]);
      } else {
        DrivePiece(f, inv, next, piece[1..]);
        assert next.held + piece[1..] == r.held + piece;
      }
    }
  }

  lemma CloseLineGood<S(!new), V(!new), A>(f: Framing<S, V, A>, inv: S -> bool, line: bytes, lines: nat, fold: S)
    requires Lawful(f, inv) && inv(fold)
    ensures Good(f, inv, CloseLine(f, line, lines, fold))
  {
  }

  lemma LineAndRest(chunk: bytes, from: nat, stop: nat)
    requires from <= stop < |chunk| && chunk[stop] == NEWLINE
    ensures chunk[from..] == chunk[from..stop] + ([NEWLINE] + chunk[stop + 1..])
    ensures ([NEWLINE] + chunk[stop + 1..])[1..] == chunk[stop + 1..] && ([NEWLINE] + chunk[stop + 1..])[0] == NEWLINE
  {
  }

  /** The chunked scan and the byte-at-a-time reader agree, and keep the reader good. */
  lemma {:induction false} FeedFromIsDrive<S(!new), V(!new), A>(
    f: Framing<S, V, A>, inv: S -> bool, r: Reader<S>, chunk: bytes, from: nat)
    requires Lawful(f, inv) && Good(f, inv, r) && from <= |chunk|
    ensures FeedFrom(f, r, chunk, from) == Drive(f, r, chunk[from..])
    ensures Good(f, inv, FeedFrom(f, r, chunk, from))
    decreases |chunk| - from
  {
    hide FeedFrom, NextNewline;
    if r.Failed? {
      FeedEnd(f, r, chunk, from);
      DriveFailed(f, r, chunk[from..]);
    } else if from == |chunk| {
      FeedEnd(f, r, chunk, from);
    } else {
      FeedStep(f, r, chunk, from);
      var stop := NextNewline(chunk, from);
      var piece := chunk[from..stop];
      DrivePiece(f, inv, r, piece);
      var line := r.held + piece;
      if stop == |chunk| {
        assert piece == chunk[from..];
      } else {
        var rest := chunk[stop + 1..];
        LineAndRest(chunk, from, stop);
        DriveAppend(f, r, piece, [NEWLINE] + rest);
        var closed := CloseLine(f, line, r.lines, r.fold);
        CloseLineGood(f, inv, line, r.lines, r.fold);
        FeedFromIsDrive(f, inv, closed, chunk, stop + 1);
        var middle := Drive(f, r, piece);
        if middle.Failed? {
          // The prefix was already refused, so the ended line is refused for the same reason.
          DriveFailed(f, middle, [NEWLINE] + rest);
          assert closed == middle;
          DriveFailed(f, closed, rest);
        } else {
          assert Step(f, middle, NEWLINE) == closed;
        }
      }
    }
  }

  lemma {:induction false} FeedAllIsDrive<S(!new), V(!new), A>(
    f: Framing<S, V, A>, inv: S -> bool, r: Reader<S>, chunks: seq<bytes>)
    requires Lawful(f, inv) && Good(f, inv, r)
    ensures FeedAll(f, r, chunks) == Drive(f, r, Flatten(chunks))
    decreases |chunks|
  {
    if chunks != [] {
      FeedFromIsDrive(f, inv, r, chunks[0], 0);
      assert chunks[0][0..] == chunks[0];
      FeedAllIsDrive(f, inv, Feed(f, r, chunks[0]), chunks[1..]);
      DriveAppend(f, r, chunks[0], Flatten(chunks[1..]));
    }
  }

  /** Main result: two ways of cutting the same bytes give the same value or the same failure. */
  lemma ChunkingIrrelevant<S(!new), V(!new), A>(
    f: Framing<S, V, A>, inv: S -> bool, start: S, cut: seq<bytes>, otherCut: seq<bytes>)
    requires Lawful(f, inv) && inv(start)
    requires Flatten(cut) == Flatten(otherCut)
    ensures Run(f, start, cut) == Run(f, start, otherCut)
    ensures Run(f, start, cut) == End(f, Drive(f, Reading([], 0, start), Flatten(cut)))
  {
    FeedAllIsDrive(f, inv, Reading([], 0, start), cut);
    FeedAllIsDrive(f, inv, Reading([], 0, start), otherCut);
  }

  // ---------------------------------------------------------------- framing whole lines

  /** The writer's frame: every line followed by a newline. */
  function FrameLines(lines: seq<bytes>): bytes {
    if lines == [] then [] else lines[0] + [NEWLINE] + FrameLines(lines[1..])
  }

  lemma {:induction false} FrameLinesAppend(left: seq<bytes>, right: seq<bytes>)
    ensures FrameLines(left + right) == FrameLines(left) + FrameLines(right)
    decreases |left|
  {
    if left == [] {
      assert left + right == right;
    } else {
      assert (left + right)[1..] == left[1..] + right;
      FrameLinesAppend(left[1..], right);
    }
  }

  function FrameLength(lines: seq<bytes>): nat {
    if lines == [] then 0 else |lines[0]| + 1 + FrameLength(lines[1..])
  }

  lemma FrameLengthMatches(lines: seq<bytes>)
    ensures |FrameLines(lines)| == FrameLength(lines)
  {
  }

  lemma FrameSnoc(lines: seq<bytes>, line: bytes)
    ensures FrameLines(lines + [line]) == FrameLines(lines) + line + [NEWLINE]
    ensures FrameLength(lines + [line]) == FrameLength(lines) + |line| + 1
  {
    FrameLinesAppend(lines, [line]);
    assert FrameLines([line]) == line + [NEWLINE] + FrameLines([line][1..]);
    FrameLengthMatches(lines);
    FrameLengthMatches(lines + [line]);
  }

  /** The frame is written at a moving offset into a buffer whose length is computed first. */
  method Frame(lines: seq<bytes>) returns (out: array<byte>)
    ensures fresh(out) && out[..] == FrameLines(lines)
  {
    var total := 0;
    for i := 0 to |lines|
      invariant total == FrameLength(lines[..i])
    {
      assert lines[..i + 1] == lines[..i] + [lines[i]];
      FrameSnoc(lines[..i], lines[i]);
      total := total + |lines[i]| + 1;
    }
    assert lines[..|lines|] == lines;
    FrameLengthMatches(lines);
    out := new byte[total](_ => 0);
    var offset := 0;
    for i := 0 to |lines|
      invariant offset == FrameLength(lines[..i]) <= total
      invariant out[..offset] == FrameLines(lines[..i])
    {
      var line := lines[i];
      assert lines[..i + 1] == lines[..i] + [line];
      FrameSnoc(lines[..i], line);
      FrameLengthMatches(lines[..i]);
      FrameLengthMatches(lines[..i + 1]);
      assert lines == lines[..i + 1] + lines[i + 1..];
      FrameLinesAppend(lines[..i + 1], lines[i + 1..]);
      Put(out, offset, line);
      Put(out, offset + |line|, [NEWLINE]);
      offset := offset + |line| + 1;
    }
  }

  /** Closing every line in turn: what reading a frame amounts to. */
  function CloseAll<S, V, A>(f: Framing<S, V, A>, r: Reader<S>, lines: seq<bytes>): Reader<S>
    decreases |lines|
  {
    if lines == [] || r.Failed? then r
    else CloseAll(f, CloseLine(f, lines[0], r.lines, r.fold), lines[1..])
  }

  lemma {:induction false} FeedFrame<S(!new), V(!new), A>(f: Framing<S, V, A>, inv: S -> bool, r: Reader<S>, lines: seq<bytes>)
    requires Lawful(f, inv) && Good(f, inv, r)
    requires r.Reading? ==> r.held == []
    requires forall i, k :: 0 <= i < |lines| && 0 <= k < |lines[i]| ==> lines[i][k] != NEWLINE
    ensures Drive(f, r, FrameLines(lines)) == CloseAll(f, r, lines)
    ensures Good(f, inv, CloseAll(f, r, lines))
    decreases |lines|
  {
    if r.Failed? {
      DriveFailed(f, r, FrameLines(lines));
    } else if lines != [] {
      var line := lines[0];
      var rest := FrameLines(lines[1..]);
      assert FrameLines(lines) == line + ([NEWLINE] + rest);
      DriveAppend(f, r, line, [NEWLINE] + rest);
      DrivePiece(f, inv, r, line);
      assert r.held + line == line;
      var middle := Drive(f, r, line);
      var closed := CloseLine(f, line, r.lines, r.fold);
      CloseLineGood(f, inv, line, r.lines, r.fold);
      assert ([NEWLINE] + rest)[1..] == rest;
      if middle.Failed? {
        DriveFailed(f, middle, [NEWLINE] + rest);
        assert closed == middle;
      }
      FeedFrame(f, inv, closed, lines[1..]);
    }
  }

  // ---------------------------------------------------------------- what a reader accepts

  /** A line that can be read: not empty, without a line feed, no carriage return at its end, and it parses. */
  ghost predicate Readable<S, V, A>(f: Framing<S, V, A>, line: bytes) {
    line != [] && 10 !in line && line[|line| - 1] != 13 && f.parse(line).Some?
  }

  /** Charging and folding the lines one after another, the first one with index `k`, leads from `s` to `t`. */
  ghost predicate Folds<S(!new), V, A>(f: Framing<S, V, A>, s: S, lines: seq<bytes>, k: nat, t: S)
    decreases |lines|
  {
    if lines == [] then s == t
    else
      && Readable(f, lines[0]) && f.meterLine(s, |lines[0]|, true).Ok?
      && var folded := f.foldLine(f.meterLine(s, |lines[0]|, true).value, f.parse(lines[0]).value, k);
         folded.Ok? && Folds(f, folded.value, lines[1..], k + 1, t)
  }

  /** Reading terminated lines folds them. */
  lemma {:induction false} DriveFolds<S(!new), V(!new), A>(
    f: Framing<S, V, A>, inv: S -> bool, s: S, lines: seq<bytes>, k: nat, t: S)
    requires Lawful(f, inv) && inv(s) && Folds(f, s, lines, k, t)
    ensures Drive(f, Reading([], k, s), FrameLines(lines)) == Reading([], k + |lines|, t) && inv(t)
    decreases |lines|
  {
    if lines != [] {
      var line := lines[0];
      assert forall i :: 0 <= i < |line| ==> line[i] != NEWLINE;
      assert FrameLines(lines) == FrameLines([line]) + FrameLines(lines[1..]) by {
        FrameLinesAppend([line], lines[1..]);
        assert lines == [line] + lines[1..];
      }
      FeedFrame(f, inv, Reading([], k, s), [line]);
      var closed := CloseLine(f, line, k, s);
      assert CloseAll(f, Reading([], k, s), [line]) == CloseAll(f, closed, [line][1..]);
      DriveAppend(f, Reading([], k, s), FrameLines([line]), FrameLines(lines[1..]));
      DriveFolds(f, inv, closed.fold, lines[1..], k + 1, t);
    }
  }

  lemma NoLines()
    ensures FrameLines([]) == []
  {
  }

  lemma FirstLine(line: bytes, more: seq<bytes>, input: bytes, rest: bytes)
    requires input != [] && input[0] == NEWLINE && [] + input[1..] == FrameLines(more) + rest
    ensures line + input == FrameLines([line] + more) + rest && ([line] + more)[1..] == more
  {
    assert ([line] + more)[1..] == more;
    assert input == [NEWLINE] + (FrameLines(more) + rest);
  }

  /** What a reader that has not failed has read: lines it folded, and the unfinished line it holds. */
  lemma {:induction false} DriveReads<S(!new), V(!new), A>(f: Framing<S, V, A>, inv: S -> bool, r: Reader<S>, input: bytes)
    returns (lines: seq<bytes>)
    requires Lawful(f, inv) && Good(f, inv, r) && r.Reading? && 10 !in r.held
    requires Drive(f, r, input).Reading?
    ensures var last := Drive(f, r, input);
            r.held + input == FrameLines(lines) + last.held && 10 !in last.held && Folds(f, r.fold, lines, r.lines, last.fold)
    decreases |input|
  {
    hide FrameLines;
    if input == [] {
      lines := [];
      NoLines();
      assert r.held + input == FrameLines(lines) + r.held;
    } else {
      var next := Step(f, r, input[0]);
      if next.Failed? { DriveFailed(f, next, input[1..]); }
      if input[0] == NEWLINE {
        CloseLineGood(f, inv, r.held, r.lines, r.fold);
        var more := DriveReads(f, inv, next, input[1..]);
        lines := [r.held] + more;
        FirstLine(r.held, more, input, Drive(f, r, input).held);
      } else {
        lines := DriveReads(f, inv, next, input[1..]);
        assert r.held + input == next.held + input[1..];
      }
    }
  }

  /**
   * Main result: a run accepts exactly the inputs that are readable lines, each with a line feed behind it, that charge
   * and fold one after another to a state that finishes.
   */
  lemma RunAccepts<S(!new), V(!new), A(!new)>(f: Framing<S, V, A>, inv: S -> bool, start: S, chunks: seq<bytes>, result: A)
    requires Lawful(f, inv) && inv(start)
    ensures Run(f, start, chunks) == Ok(result) <==>
            exists lines, t :: Flatten(chunks) == FrameLines(lines) && Folds(f, start, lines, 0, t) && f.finish(t) == Ok(result)
  {
    hide Lawful, Drive, FrameLines, Folds, FeedAll;
    ChunkingIrrelevant(f, inv, start, chunks, chunks);
    StartGood(f, inv, start);
    var input := Flatten(chunks);
    var last := Drive(f, Reading([], 0, start), input);
    if Run(f, start, chunks) == Ok(result) {
      var lines := DriveReads(f, inv, Reading([], 0, start), input);
      assert [] + input == input && FrameLines(lines) + [] == FrameLines(lines);
    }
    if lines, t :| input == FrameLines(lines) && Folds(f, start, lines, 0, t) && f.finish(t) == Ok(result) {
      DriveFolds(f, inv, start, lines, 0, t);
    }
  }

  lemma StartGood<S(!new), V(!new), A>(f: Framing<S, V, A>, inv: S -> bool, start: S)
    requires Lawful(f, inv) && inv(start)
    ensures Good(f, inv, Reading([], 0, start))
  {
  }

  /** Input that does not end with a line feed is refused as malformed text once everything before it was folded. */
  lemma UnfinishedRefused<S(!new), V(!new), A>(
    f: Framing<S, V, A>, inv: S -> bool, start: S, chunks: seq<bytes>, lines: seq<bytes>, t: S, last: bytes)
    requires Lawful(f, inv) && inv(start) && Flatten(chunks) == FrameLines(lines) + last
    requires Folds(f, start, lines, 0, t) && last != [] && 10 !in last && f.meterLine(t, |last|, false).Ok?
    ensures Run(f, start, chunks) == Err(Failure(InvalidEncoding, "text"))
  {
    ChunkingIrrelevant(f, inv, start, chunks, chunks);
    DriveFolds(f, inv, start, lines, 0, t);
    DriveAppend(f, Reading([], 0, start), FrameLines(lines), last);
    StartGood(f, inv, t);
    hide Lawful, Drive, FrameLines, FeedAll;
    DrivePiece(f, inv, Reading([], |lines|, t), last);
    assert [] + last == last;
  }

  /** An empty line, one that ends with a carriage return and one that does not parse are refused as malformed text. */
  lemma UnreadableRefused<S(!new), V(!new), A>(
    f: Framing<S, V, A>, inv: S -> bool, start: S, chunks: seq<bytes>, lines: seq<bytes>, t: S, line: bytes, rest: bytes)
    requires Lawful(f, inv) && inv(start) && Flatten(chunks) == FrameLines(lines + [line]) + rest
    requires Folds(f, start, lines, 0, t) && 10 !in line && !Readable(f, line) && f.meterLine(t, |line|, true).Ok?
    ensures Run(f, start, chunks) == Err(Failure(InvalidEncoding, "text"))
  {
    hide Drive, FeedAll, FrameLines;
    var reader := Reading([], 0, start);
    var at := Reading([], |lines|, t);
    ChunkingIrrelevant(f, inv, start, chunks, chunks);
    DriveFolds(f, inv, start, lines, 0, t);
    FrameLinesAppend(lines, [line]);
    assert FrameLines(lines + [line]) + rest == FrameLines(lines) + (FrameLines([line]) + rest);
    DriveAppend(f, reader, FrameLines(lines), FrameLines([line]) + rest);
    DriveAppend(f, at, FrameLines([line]), rest);
    FeedFrame(f, inv, at, [line]);
    assert CloseAll(f, at, [line]) == CloseAll(f, CloseLine(f, line, |lines|, t), [line][1..]);
    DriveFailed(f, CloseLine(f, line, |lines|, t), rest);
  }

  // ---------------------------------------------------------------- the reader as the source keeps it

  /** A chunk from the caller; its buffer may have been detached. */
  datatype Chunk = Attached(data: bytes) | Detached

  /** The mutable reader: an owned growing buffer for the unfinished line, a line counter and the fold. */
  class LineReader<S, V, A> {
    const framing: Framing<S, V, A>
    var pending: array<byte>
    var pendingBytes: nat
    var lines: nat
    var fold: S

    ghost predicate Valid() reads this {
      pendingBytes <= pending.Length
    }

    ghost function State(): Reader<S>
      reads this, pending
      requires Valid()
    {
      Reading(pending[..pendingBytes], lines, fold)
    }

    constructor (framing: Framing<S, V, A>, start: S)
      ensures Valid() && fresh(pending) && this.framing == framing
      ensures State() == Reading([], 0, start)
    {
      this.framing := framing;
      pending := new byte[0];
      pendingBytes, lines, fold := 0, 0, start;
    }

    /** Append a piece to the unfinished line, at least doubling the buffer when it must grow. */
    method Hold(piece: bytes)
      requires Valid()
      modifies this`pending, this`pendingBytes, pending
      ensures Valid() && (pending == old(pending) || fresh(pending))
      ensures pendingBytes == old(pendingBytes) + |piece|
      ensures pending[..pendingBytes] == old(pending[..pendingBytes]) + piece
    {
      var length := pendingBytes + |piece|;
      if length > pending.Length {
        var capacity := if length > pending.Length * 2 then length else pending.Length * 2;
        var grown := new byte[capacity](_ => 0);
        Put(grown, 0, pending[..pendingBytes]);
        pending := grown;
      }
      Put(pending, pendingBytes, piece);
      pendingBytes := length;
    }

    /** The unfinished line ends with `piece` and has been charged: parse it and fold it. */
    method Complete(piece: bytes, charged: S) returns (r: Result<(), Failure>)
      requires Valid() && framing.meterLine(fold, pendingBytes + |piece|, true) == Ok(charged)
      modifies this`pending, this`pendingBytes, this`lines, this`fold, pending
      ensures Valid() && (pending == old(pending) || fresh(pending))
      ensures CloseLine(framing, old(pending[..pendingBytes]) + piece, old(lines), old(fold)) ==
              if r.Err? then Failed(r.error) else State()
    {
      var line := piece;
      if pendingBytes > 0 {
        Hold(piece);
        line := pending[..pendingBytes];
        pending := new byte[0];
        pendingBytes := 0;
      }
      fold := charged;
      assert line == old(pending[..pendingBytes]) + piece;
      var parsed := Parse(framing, line);
      if parsed.Err? { return Err(parsed.error); }
      var folded := framing.foldLine(fold, parsed.value, lines);
      if folded.Err? { return Err(folded.error); }
      fold, lines := folded.value, lines + 1;
      return Ok(());
    }

    /**
     * Scan at most `WALK_YIELD_INTERVAL` lines from `from`. The caller resumes at the returned position after
     * yielding; it is the chunk's length once the chunk is consumed. A failure is the one `FeedFrom` gives.
     */
    method Scan(chunk: bytes, from: nat) returns (r: Result<nat, Failure>)
      requires Valid() && from <= |chunk|
      modifies this`pending, this`pendingBytes, this`lines, this`fold, pending
      ensures Valid() && (pending == old(pending) || fresh(pending))
      ensures r.Err? ==> FeedFrom(framing, old(State()), chunk, from) == Failed(r.error)
      ensures r.Ok? ==> from <= r.value <= |chunk| && (from < |chunk| ==> from < r.value)
      ensures r.Ok? ==> FeedFrom(framing, State(), chunk, r.value) == FeedFrom(framing, old(State()), chunk, from)
    {
      hide FeedFrom, CloseLine, NextNewline;
      var start, batch := from, 0;
      while start < |chunk|
        invariant from <= start <= |chunk| && (start == from ==> batch == 0)
        invariant Valid() && (pending == old(pending) || fresh(pending))
        invariant FeedFrom(framing, State(), chunk, start) == FeedFrom(framing, old(State()), chunk, from)
        decreases |chunk| - start
      {
        if batch == WALK_YIELD_INTERVAL { return Ok(start); }
        var stop := NextNewline(chunk, start);
        FeedStep(framing, State(), chunk, start);
        var length := pendingBytes + stop - start;
        ghost var line := pending[..pendingBytes] + chunk[start..stop];
        var bounded := framing.meterLine(fold, length, stop < |chunk|);
        if bounded.Err? {
          if stop < |chunk| {
            CloseUnpaid(framing, line, lines, fold);
            FeedEnd(framing, Failed(bounded.error), chunk, stop + 1);
          }
          return Err(bounded.error);
        }
        if stop == |chunk| {
          fold := bounded.value;
          Hold(chunk[start..stop]);
          FeedEnd(framing, State(), chunk, |chunk|);
          return Ok(|chunk|);
        }
        var completed := Complete(chunk[start..stop], bounded.value);
        if completed.Err? {
          FeedEnd(framing, Failed(completed.error), chunk, stop + 1);
          return Err(completed.error);
        }
        start, batch := stop + 1, batch + 1;
      }
      return Ok(|chunk|);
    }

    /** Take one chunk, scanning it in batches. */
    method Push(chunk: Chunk) returns (r: Result<(), Failure>)
      requires Valid()
      modifies this`pending, this`pendingBytes, this`lines, this`fold, pending
      ensures Valid() && (pending == old(pending) || fresh(pending))
      ensures chunk.Detached? ==> r == Err(Failure(InvalidEncoding, "input"))
      ensures chunk.Attached? ==>
                Feed(framing, old(State()), chunk.data) == if r.Err? then Failed(r.error) else State()
    {
      if chunk.Detached? { return Err(BAD_INPUT); }
      var data := chunk.data;
      var scanned := Scan(data, 0);
      if scanned.Err? { return Err(scanned.error); }
      var start := scanned.value;
      while start < |data|
        invariant 0 <= start <= |data|
        invariant Valid() && (pending == old(pending) || fresh(pending))
        invariant FeedFrom(framing, State(), data, start) == Feed(framing, old(State()), data)
        decreases |data| - start
      {
        scanned := Scan(data, start);
        if scanned.Err? { return Err(scanned.error); }
        start := scanned.value;
      }
      return Ok(());
    }

    /** End of input: an unfinished line is refused. */
    method Finish() returns (r: Result<A, Failure>)
      requires Valid()
      ensures r == End(framing, State())
      ensures r == if pendingBytes > 0 then Err(Failure(InvalidEncoding, "text")) else framing.finish(fold)
    {
      if pendingBytes > 0 { return Err(BAD_TEXT); }
      r := framing.finish(fold);
    }
  }
}
