/**
 * Content search over a sequence of files (`evaluate` in `internal/searchContent.ts`): lines are split, matched and
 * reported in one of three modes, under budgets. The reference gives the rows of every mode outright; pulls report a
 * prefix of them, and the modes agree.
 */
module ContentSearch {
  import opened Basics
  import opened Utf8

  const LF: byte := 10
  const CR: byte := 13

  // ---------------------------------------------------------------- lines

  /** The position of the line feed that ends the line, or the length of the data. */
  function FeedAt(data: bytes, from: nat): (k: nat)
    requires from <= |data|
    ensures from <= k <= |data| && (forall i :: from <= i < k ==> data[i] != LF) && (k < |data| ==> data[k] == LF)
    decreases |data| - from
  {
    if from == |data| || data[from] == LF then from else FeedAt(data, from + 1)
  }

  /** Where the line's text ends and where the next line starts. */
  datatype Line = Line(end: nat, next: nat)

  function LineAt(data: bytes, start: nat): (l: Line)
    requires start < |data|
    ensures start <= l.end <= l.next <= |data| && start < l.next
  {
    var feed := FeedAt(data, start);
    if feed == |data| then Line(feed, feed)
    else Line(if feed > start && data[feed - 1] == CR then feed - 1 else feed, feed + 1)
  }

  /** A line has no feed in it and ends with a feed, with a return and a feed, or with the data. */
  lemma LineShape(data: bytes, start: nat)
    requires start < |data|
    ensures var l := LineAt(data, start);
            && LF !in data[start..l.end]
            && (data[l.end..l.next] == [LF] || data[l.end..l.next] == [CR, LF] || (data[l.end..l.next] == [] && l.next == |data|))
            && (data[l.end..l.next] == [LF] && l.end > start ==> data[l.end - 1] != CR)
  {
  }

  /** The lines of the data from `start`, terminators included. */
  function Pieces(data: bytes, start: nat): seq<bytes>
    requires start <= |data|
    decreases |data| - start
  {
    if start == |data| then [] else [data[start..LineAt(data, start).next]] + Pieces(data, LineAt(data, start).next)
  }

  /** The splitter loses nothing. */
  lemma {:induction false} PiecesPartition(data: bytes, start: nat)
    requires start <= |data|
    ensures Flatten(Pieces(data, start)) == data[start..]
    decreases |data| - start
  {
    if start < |data| {
      var l := LineAt(data, start);
      PiecesPartition(data, l.next);
      FlattenCons(data[start..l.next], Pieces(data, l.next));
      assert data[start..] == data[start..l.next] + data[l.next..];
    }
  }

  /** The lines of text are text, so decoding them never fails. */
  lemma LineIsText(data: bytes, start: nat)
    requires start < |data| && WellFormed(data[start..])
    ensures var l := LineAt(data, start); WellFormed(data[start..l.end]) && WellFormed(data[l.next..])
  {
    hide WellFormed;
    var l := LineAt(data, start);
    var line, rest := data[start..l.end], data[l.next..];
    EmptyWellFormed();
    LineShape(data, start);
    var mark := data[l.end..l.next];
    assert data[start..] == line + mark + rest;
    if mark == [LF] {
      CutAscii(line, LF, rest);
    } else if mark == [CR, LF] {
      assert line + mark + rest == (line + [CR]) + [LF] + rest;
      CutAscii(line + [CR], LF, rest);
      assert line + [CR] == line + [CR] + [];
      CutAscii(line, CR, []);
    } else {
      assert line + mark + rest == line;
    }
  }

  // ---------------------------------------------------------------- matching

  /** A match, in UTF-16 units of the decoded line. */
  datatype Match = Match(from: nat, to: nat)

  type Matcher = bytes -> Option<Match>

  ghost predicate AtCharacter(chars: seq<bytes>, i: nat, unit: nat) {
    AllChars(chars) && i <= |chars| && AllChars(chars[..i]) && |Units(chars[..i])| == unit
  }

  ghost predicate MatchesFrom(chars: seq<bytes>, i: nat, j: nat, m: Match) {
    i <= j && AtCharacter(chars, i, m.from) && AtCharacter(chars, j, m.to)
  }

  /** A Unicode pattern matches whole characters. */
  ghost predicate Aligned(f: Matcher) {
    forall line :: WellFormed(line) && f(line).Some? ==> exists i: nat, j: nat :: MatchesFrom(Chars(line), i, j, f(line).value)
  }

  /** How many of the characters fit the limit. */
  ghost function Fitting(chars: seq<bytes>, n: nat, limit: nat): (k: nat)
    requires n <= |chars|
    ensures n <= k <= |chars|
    decreases |chars| - n
  {
    if n < |chars| && |Flatten(chars[..n + 1])| <= limit then Fitting(chars, n + 1, limit) else n
  }

  lemma {:induction false} FittingIs(chars: seq<bytes>, n: nat, limit: nat, k: nat)
    requires AllChars(chars) && n <= k <= |chars| && |Flatten(chars[..k])| <= limit
    requires forall m: nat :: k < m <= |chars| ==> |Flatten(chars[..m])| > limit
    ensures Fitting(chars, n, limit) == k
    decreases |chars| - n
  {
    hide Flatten, IsChar;
    if n < k {
      if n + 1 < k { UnitsMonotone(chars, n + 1, k); }
      FittingIs(chars, n + 1, limit, k);
    } else if n < |chars| {
      assert |Flatten(chars[..n + 1])| > limit;
    }
  }

  // ---------------------------------------------------------------- the rows of every mode

  datatype Mode = Lines | Files | CountLines

  datatype File = File(path: string, data: bytes)

  datatype Row =
    | LineRow(path: string, lineNumber: nat, rangeStart: nat, rangeEnd: nat, excerptEnd: nat, truncated: bool)
    | FileRow(path: string)
    | CountRow(path: string, count: nat)

  datatype Limits = Limits(
    maxResults: nat, maxResultBytes: nat, maxScannedBytes: nat, maxFileBytes: nat, maxLineEvaluations: nat, maxExcerptBytes: nat)

  ghost predicate IsText(data: bytes) { WellFormed(data) && 0 !in data }

  ghost predicate RowIs(row: Row, path: string, data: bytes, start: nat, end: nat, number: nat, m: Match, limit: nat) {
    start <= end <= |data| && WellFormed(data[start..end]) &&
    var chars := Chars(data[start..end]);
    exists i: nat, j: nat :: MatchesFrom(chars, i, j, m) && row == RowAt(path, start, end, number, chars, i, j, limit)
  }

  ghost function RowAt(path: string, start: nat, end: nat, number: nat, chars: seq<bytes>, i: nat, j: nat, limit: nat): Row
    requires i <= j <= |chars|
  {
    var a, b := |Flatten(chars[..i])|, |Flatten(chars[..j])|;
    var tail := chars[i..];
    var shown := |Flatten(tail[..Fitting(tail, 0, limit)])|;
    LineRow(path, number, start + a, start + b, start + a + shown, a > 0 || start + a + shown < end)
  }

  /** The row of a matched line. */
  ghost function RowFor(path: string, data: bytes, start: nat, end: nat, number: nat, m: Match, limit: nat): (row: Row)
    requires start <= end <= |data| && WellFormed(data[start..end])
    requires exists i: nat, j: nat :: MatchesFrom(Chars(data[start..end]), i, j, m)
    ensures RowIs(row, path, data, start, end, number, m, limit) && row.LineRow? && row.path == path
  {
    var chars := Chars(data[start..end]);
    var i: nat, j: nat :| MatchesFrom(chars, i, j, m);
    RowAt(path, start, end, number, chars, i, j, limit)
  }

  lemma RowUnique(row: Row, path: string, data: bytes, start: nat, end: nat, number: nat, m: Match, limit: nat, i: nat, j: nat)
    requires start <= end <= |data| && WellFormed(data[start..end]) && MatchesFrom(Chars(data[start..end]), i, j, m)
    ensures RowFor(path, data, start, end, number, m, limit) == RowAt(path, start, end, number, Chars(data[start..end]), i, j, limit)
  {
    var chars := Chars(data[start..end]);
    var row := RowFor(path, data, start, end, number, m, limit);
    var k: nat, l: nat :| MatchesFrom(chars, k, l, m) && row == RowAt(path, start, end, number, chars, k, l, limit);
    assert AtCharacter(chars, i, m.from) && AtCharacter(chars, j, m.to);
    assert AtCharacter(chars, k, m.from) && AtCharacter(chars, l, m.to);
    SameUnits(chars, i, k);
    SameUnits(chars, j, l);
  }

  /** The rows a file gives from the line at `offset` on, `count` matches having been seen. */
  ghost function RowsFrom(mode: Mode, f: Matcher, limit: nat, file: File, offset: nat, number: nat, count: nat): seq<Row>
    requires Aligned(f) && offset <= |file.data| && WellFormed(file.data[offset..])
    decreases |file.data| - offset
  {
    if offset == |file.data| then
      if mode == CountLines && count > 0 then [CountRow(file.path, count)] else []
    else
      var l := LineAt(file.data, offset);
      LineIsText(file.data, offset);
      var line := file.data[offset..l.end];
      if f(line).None? then RowsFrom(mode, f, limit, file, l.next, number + 1, count)
      else if mode == CountLines then RowsFrom(mode, f, limit, file, l.next, number + 1, count + 1)
      else if mode == Files then [FileRow(file.path)]
      else
        [RowFor(file.path, file.data, offset, l.end, number + 1, f(line).value, limit)]
        + RowsFrom(mode, f, limit, file, l.next, number + 1, count + 1)
  }

  /** What one line contributes. */
  lemma RowsStep(mode: Mode, f: Matcher, limit: nat, file: File, offset: nat, number: nat, count: nat)
    requires Aligned(f) && offset < |file.data| && WellFormed(file.data[offset..])
    ensures var l := LineAt(file.data, offset);
            var line := file.data[offset..l.end];
            var matched := f(line).Some?;
            && WellFormed(line) && WellFormed(file.data[l.next..])
            && (matched ==> exists i: nat, j: nat :: MatchesFrom(Chars(line), i, j, f(line).value))
            && RowsFrom(mode, f, limit, file, offset, number, count) ==
               if matched && mode == Files then [FileRow(file.path)]
               else if matched && mode == Lines then
                 [RowFor(file.path, file.data, offset, l.end, number + 1, f(line).value, limit)]
                 + RowsFrom(mode, f, limit, file, l.next, number + 1, count + 1)
               else RowsFrom(mode, f, limit, file, l.next, number + 1, if matched then count + 1 else count)
  {
    hide WellFormed, RowFor;
    LineIsText(file.data, offset);
  }

  lemma RowsEnd(mode: Mode, f: Matcher, limit: nat, file: File, number: nat, count: nat)
    requires Aligned(f) && WellFormed(file.data[|file.data|..])
    ensures RowsFrom(mode, f, limit, file, |file.data|, number, count) ==
            if mode == CountLines && count > 0 then [CountRow(file.path, count)] else []
  {
    hide WellFormed, RowFor, Aligned;
  }

  /** Oversized files and files that are not text give no rows. */
  ghost function FileRows(mode: Mode, f: Matcher, limits: Limits, file: File): seq<Row>
    requires Aligned(f)
  {
    if |file.data| > limits.maxFileBytes || !IsText(file.data) then []
    else
      assert file.data[0..] == file.data;
      RowsFrom(mode, f, limits.maxExcerptBytes, file, 0, 0, 0)
  }

  ghost function AllRows(mode: Mode, f: Matcher, limits: Limits, files: seq<File>): seq<Row>
    requires Aligned(f)
  {
    if files == [] then [] else FileRows(mode, f, limits, files[0]) + AllRows(mode, f, limits, files[1..])
  }

  // ---------------------------------------------------------------- the modes agree

  /** Counting from a line on is counting the rows that `lines` gives from there. */
  lemma {:induction false} CountsAreRows(f: Matcher, limit: nat, file: File, offset: nat, number: nat, count: nat)
    requires Aligned(f) && offset <= |file.data| && WellFormed(file.data[offset..])
    ensures var rows := RowsFrom(Lines, f, limit, file, offset, number, count);
            && (forall k :: 0 <= k < |rows| ==> rows[k].LineRow? && rows[k].path == file.path)
            && RowsFrom(CountLines, f, limit, file, offset, number, count) ==
               (if count + |rows| > 0 then [CountRow(file.path, count + |rows|)] else [])
            && RowsFrom(Files, f, limit, file, offset, number, count) == (if |rows| > 0 then [FileRow(file.path)] else [])
    decreases |file.data| - offset
  {
    hide *;
    if offset == |file.data| {
      RowsEnd(Lines, f, limit, file, number, count);
      RowsEnd(CountLines, f, limit, file, number, count);
      RowsEnd(Files, f, limit, file, number, count);
    } else {
      RowsStep(Lines, f, limit, file, offset, number, count);
      RowsStep(CountLines, f, limit, file, offset, number, count);
      RowsStep(Files, f, limit, file, offset, number, count);
      var l := LineAt(file.data, offset);
      var line := file.data[offset..l.end];
      CountsAreRows(f, limit, file, l.next, number + 1, if f(line).Some? then count + 1 else count);
    }
  }

  /** How many rows of `lines` a path has. */
  ghost function Tally(rows: seq<Row>, path: string): nat {
    if rows == [] then 0
    else (if rows[0].LineRow? && rows[0].path == path then 1 else 0) + Tally(rows[1..], path)
  }

  lemma {:induction false} TallyAppend(a: seq<Row>, b: seq<Row>, path: string)
    ensures Tally(a + b, path) == Tally(a, path) + Tally(b, path)
    decreases |a|
  {
    if a == [] {
      assert a + b == b;
    } else {
      assert (a + b)[1..] == a[1..] + b;
      TallyAppend(a[1..], b, path);
    }
  }

  lemma {:induction false} TallyAll(rows: seq<Row>, owner: string, path: string)
    requires forall k :: 0 <= k < |rows| ==> rows[k].LineRow? && rows[k].path == owner
    ensures Tally(rows, path) == if owner == path then |rows| else 0
    decreases |rows|
  {
    if rows != [] { TallyAll(rows[1..], owner, path); }
  }

  predicate OncePerPath(files: seq<File>) {
    forall j, k :: 0 <= j < k < |files| ==> files[j].path != files[k].path
  }

  /** Files and counts name the same paths in the same order. */
  lemma {:induction false} FilesAreCounts(f: Matcher, limits: Limits, files: seq<File>)
    requires Aligned(f)
    ensures var counts, paths := AllRows(CountLines, f, limits, files), AllRows(Files, f, limits, files);
            && |counts| == |paths|
            && forall k :: 0 <= k < |counts| ==> counts[k].CountRow? && counts[k].count >= 1 && paths[k] == FileRow(counts[k].path)
    decreases |files|
  {
    hide WellFormed, Aligned, RowsFrom;
    if files != [] {
      FilesAreCounts(f, limits, files[1..]);
      OneFile(f, limits, files[0]);
      hide FileRows;
    }
  }

  lemma OneFile(f: Matcher, limits: Limits, file: File)
    requires Aligned(f)
    ensures var rows := FileRows(Lines, f, limits, file);
            && (forall k :: 0 <= k < |rows| ==> rows[k].LineRow? && rows[k].path == file.path)
            && FileRows(CountLines, f, limits, file) == (if |rows| > 0 then [CountRow(file.path, |rows|)] else [])
            && FileRows(Files, f, limits, file) == (if |rows| > 0 then [FileRow(file.path)] else [])
  {
    hide WellFormed, RowsFrom, Aligned;
    assert file.data[0..] == file.data;
    if |file.data| <= limits.maxFileBytes && IsText(file.data) { CountsAreRows(f, limits.maxExcerptBytes, file, 0, 0, 0); }
  }

  /** Main result: `countLines` reports a path with `n` exactly when `lines` reports `n` rows for it, `n` at least one. */
  lemma {:induction false} CountsAreTallies(f: Matcher, limits: Limits, files: seq<File>, path: string, n: nat)
    requires Aligned(f) && OncePerPath(files)
    ensures CountRow(path, n) in AllRows(CountLines, f, limits, files)
            <==> n >= 1 && n == Tally(AllRows(Lines, f, limits, files), path)
    ensures (forall k :: 0 <= k < |files| ==> files[k].path != path) ==> Tally(AllRows(Lines, f, limits, files), path) == 0
    decreases |files|
  {
    hide WellFormed, Aligned, RowsFrom;
    if files != [] {
      var file, rest := files[0], files[1..];
      assert OncePerPath(rest);
      CountsAreTallies(f, limits, rest, path, n);
      OneFile(f, limits, file);
      hide FileRows;
      var rows, more := FileRows(Lines, f, limits, file), AllRows(Lines, f, limits, rest);
      TallyAppend(rows, more, path);
      TallyAll(rows, file.path, path);
      if file.path == path {
        forall k | 0 <= k < |rest| ensures rest[k].path != path { assert rest[k] == files[k + 1]; }
      }
      InRows(FileRows(CountLines, f, limits, file), AllRows(CountLines, f, limits, rest), CountRow(path, n));
      if forall k :: 0 <= k < |files| ==> files[k].path != path {
        forall k | 0 <= k < |rest| ensures rest[k].path != path { assert rest[k] == files[k + 1]; }
      }
    }
  }

  lemma InRows(a: seq<Row>, b: seq<Row>, row: Row)
    ensures row in a + b <==> row in a || row in b
  {
  }

  // ---------------------------------------------------------------- what a search costs

  /** The bytes of a path, as the visitor counts them. */
  type PathWidth = string -> nat

  /** What a row reserves. */
  function RowCost(width: PathWidth, row: Row): nat {
    match row
    case LineRow(path, _, from, _, stop, _) => width(path) + 16 + (if from <= stop then stop - from else 0)
    case FileRow(path) => width(path)
    case CountRow(path, _) => width(path) + 8
  }

  function RowsCost(width: PathWidth, rows: seq<Row>): nat {
    if rows == [] then 0 else RowsCost(width, rows[..|rows| - 1]) + RowCost(width, rows[|rows| - 1])
  }

  lemma RowsCostSnoc(width: PathWidth, rows: seq<Row>, row: Row)
    ensures RowsCost(width, rows + [row]) == RowsCost(width, rows) + RowCost(width, row)
  {
    assert (rows + [row])[..|rows|] == rows;
  }

  /** The bytes scanned: those of every file that is not too large. */
  function Scanned(limits: Limits, files: seq<File>): nat {
    if files == [] then 0
    else
      var (rest, last) := (files[..|files| - 1], files[|files| - 1]);
      Scanned(limits, rest) + (if |last.data| <= limits.maxFileBytes then |last.data| else 0)
  }

  /** The lines a mode evaluates from `offset` on: `files` stops at the first that matches. */
  ghost function LinesFrom(mode: Mode, f: Matcher, data: bytes, offset: nat): nat
    requires offset <= |data|
    decreases |data| - offset
  {
    if offset == |data| then 0
    else
      var l := LineAt(data, offset);
      1 + if mode == Files && f(data[offset..l.end]).Some? then 0 else LinesFrom(mode, f, data, l.next)
  }

  ghost function FileLines(mode: Mode, f: Matcher, limits: Limits, data: bytes): nat {
    if |data| <= limits.maxFileBytes && IsText(data) then LinesFrom(mode, f, data, 0) else 0
  }

  /** The lines a mode evaluates: those of every text file that is not too large. */
  ghost function LineTotal(mode: Mode, f: Matcher, limits: Limits, files: seq<File>): nat {
    if files == [] then 0
    else LineTotal(mode, f, limits, files[..|files| - 1]) + FileLines(mode, f, limits, files[|files| - 1].data)
  }

  lemma OneMoreFile(mode: Mode, f: Matcher, limits: Limits, files: seq<File>, index: nat)
    requires index < |files|
    ensures var (data, more) := (files[index].data, files[..index + 1]);
            && Scanned(limits, more) ==
               Scanned(limits, files[..index]) + (if |data| <= limits.maxFileBytes then |data| else 0)
            && LineTotal(mode, f, limits, more) == LineTotal(mode, f, limits, files[..index]) + FileLines(mode, f, limits, data)
  {
    var more := files[..index + 1];
    assert more[..|more| - 1] == files[..index] && more[|more| - 1] == files[index];
    hide FileLines;
  }

  lemma {:induction false} TotalsGrow(mode: Mode, f: Matcher, limits: Limits, files: seq<File>, index: nat)
    requires index <= |files|
    ensures Scanned(limits, files[..index]) <= Scanned(limits, files)
    ensures LineTotal(mode, f, limits, files[..index]) <= LineTotal(mode, f, limits, files)
    decreases |files| - index
  {
    if index == |files| {
      assert files[..index] == files;
    } else {
      OneMoreFile(mode, f, limits, files, index);
      TotalsGrow(mode, f, limits, files, index + 1);
    }
  }

  lemma {:induction false} RowsCostGrows(width: PathWidth, rows: seq<Row>, n: nat)
    requires n <= |rows|
    ensures RowsCost(width, rows[..n]) <= RowsCost(width, rows)
    decreases |rows| - n
  {
    if n == |rows| {
      assert rows[..n] == rows;
    } else {
      assert rows[..n + 1] == rows[..n] + [rows[n]];
      RowsCostSnoc(width, rows[..n], rows[n]);
      RowsCostGrows(width, rows, n + 1);
    }
  }

  // ---------------------------------------------------------------- pulling rows

  datatype Exceeded = MaxResults | MaxResultBytes | MaxScannedBytes | MaxLineEvaluations | VisitorExceeded

  /** The file being searched. */
  datatype Cursor = Cursor(file: File, offset: nat, lineNumber: nat, count: nat)

  class Evaluation {
    const mode: Mode
    const matcher: Matcher
    const width: PathWidth
    const limits: Limits
    const files: seq<File>
    /** Whether the visitor runs out of its own budget after these files. */
    const visitorFails: bool
    var index: nat
    var current: Option<Cursor>
    var rows: nat
    var resultBytes: nat
    var scannedBytes: nat
    var lineEvaluations: nat
    var stopped: bool

    ghost predicate Valid() reads this {
      && Aligned(matcher) && index <= |files|
      && (current.Some? ==> CursorOk(current.value))
      && rows <= limits.maxResults && (stopped <==> rows == limits.maxResults)
      && resultBytes <= limits.maxResultBytes && scannedBytes <= limits.maxScannedBytes
      && lineEvaluations <= limits.maxLineEvaluations
    }

    ghost predicate CursorOk(c: Cursor) {
      c.offset <= |c.file.data| && WellFormed(c.file.data[c.offset..])
    }

    /** The lines of the current file still to be evaluated. */
    ghost function Unread(c: Option<Cursor>): nat {
      if c.Some? && c.value.offset <= |c.value.file.data| then LinesFrom(mode, matcher, c.value.file.data, c.value.offset) else 0
    }

    /** The rows still to come when no budget stops the search. */
    ghost function Remaining(): seq<Row>
      requires Valid()
      reads this
    {
      (if current.Some? then
         RowsFrom(mode, matcher, limits.maxExcerptBytes, current.value.file, current.value.offset, current.value.lineNumber, current.value.count)
       else [])
      + AllRows(mode, matcher, limits, files[index..])
    }

    /** Exactly the files opened so far were scanned, and their lines evaluated but for those still unread. */
    ghost predicate Exact() reads this {
      && index <= |files| && scannedBytes == Scanned(limits, files[..index])
      && lineEvaluations + Unread(current) == LineTotal(mode, matcher, limits, files[..index])
    }

    /** The lines of the files opened so far have all been evaluated that the mode evaluates. */
    ghost predicate Searched() reads this {
      && index <= |files| && scannedBytes == Scanned(limits, files[..index])
      && lineEvaluations == LineTotal(mode, matcher, limits, files[..index])
    }

    /** The next row does not fit the result bytes that are left after `spent`. */
    ghost predicate Blocked(coming: seq<Row>, spent: nat) {
      coming != [] && spent + RowCost(width, coming[0]) > limits.maxResultBytes
    }

    constructor (mode: Mode, matcher: Matcher, width: PathWidth, limits: Limits, files: seq<File>, visitorFails: bool)
      requires Aligned(matcher)
      ensures Valid() && Exact() && Remaining() == AllRows(mode, matcher, limits, files)
      ensures this.mode == mode && this.matcher == matcher && this.width == width && this.limits == limits
      ensures this.files == files && this.visitorFails == visitorFails && rows == 0 && resultBytes == 0
    {
      this.mode, this.matcher, this.width, this.limits := mode, matcher, width, limits;
      this.files, this.visitorFails := files, visitorFails;
      index, current := 0, None;
      rows, resultBytes, scannedBytes, lineEvaluations := 0, 0, 0, 0;
      stopped := limits.maxResults == 0;
      new;
      hide Aligned;
      assert files[0..] == files && [] + AllRows(mode, matcher, limits, files) == AllRows(mode, matcher, limits, files);
    }

    /** `reserve`: take result bytes for one row. */
    method Reserve(size: nat) returns (r: Result<(), Exceeded>)
      requires resultBytes <= limits.maxResultBytes && !stopped && rows < limits.maxResults
      modifies this`resultBytes, this`rows, this`stopped
      ensures r.Err? <==> size > limits.maxResultBytes - old(resultBytes)
      ensures r.Err? ==> r.error == MaxResultBytes && resultBytes == old(resultBytes) && rows == old(rows) && !stopped
      ensures r.Ok? ==> resultBytes == old(resultBytes) + size <= limits.maxResultBytes && rows == old(rows) + 1
      ensures r.Ok? ==> (stopped <==> rows == limits.maxResults)
    {
      if size > limits.maxResultBytes - resultBytes { return Err(MaxResultBytes); }
      resultBytes := resultBytes + size;
      rows := rows + 1;
      if rows == limits.maxResults { stopped := true; }
      return Ok(());
    }

    /** Open the next file, skipping those that are too large or not text. */
    method OpenNext() returns (r: Result<bool, Exceeded>)
      requires Valid() && current.None?
      modifies this`index, this`current, this`scannedBytes
      ensures Valid()
      ensures r.Ok? ==> Remaining() == old(Remaining()) && (old(Exact()) ==> Exact())
      ensures r.Ok? && !r.value ==> index == |files| && current.None? && !visitorFails
      ensures r.Ok? && r.value ==> old(index) < index
      ensures r == Ok(true) ==>
                && index == old(index) + 1 <= |files|
                && (var file := files[old(index)];
                    current == if |file.data| <= limits.maxFileBytes && WellFormed(file.data) && 0 !in file.data then
                      Some(Cursor(file, 0, 0, 0))
                    else None)
      ensures r == Ok(true) ==>
                var size := |files[old(index)].data|;
                scannedBytes == old(scannedBytes) + if size <= limits.maxFileBytes then size else 0
      ensures r.Err? ==> (r.error == VisitorExceeded && visitorFails)
                         || (r.error == MaxScannedBytes && (old(Exact()) ==> Scanned(limits, files[..index]) > limits.maxScannedBytes))
    {
      hide WellFormed, Aligned, RowsFrom, LinesFrom, Scanned, LineTotal;
      if index == |files| { return if visitorFails then Err(VisitorExceeded) else Ok(false); }
      var file := files[index];
      OneMoreFile(mode, matcher, limits, files, index);
      assert files[index..][0] == file && files[index..][1..] == files[index + 1..];
      ghost var later := AllRows(mode, matcher, limits, files[index + 1..]);
      index := index + 1;
      if |file.data| > limits.maxFileBytes {
        assert [] + later == later;
        return Ok(true);
      }
      if |file.data| > limits.maxScannedBytes - scannedBytes { return Err(MaxScannedBytes); }
      scannedBytes := scannedBytes + |file.data|;
      var class_ := Classify(file.data);
      if class_ != Text {
        assert [] + later == later;
        return Ok(true);
      }
      assert file.data[0..] == file.data;
      current := Some(Cursor(file, 0, 0, 0));
      assert [] + (FileRows(mode, matcher, limits, file) + later) == FileRows(mode, matcher, limits, file) + later;
      return Ok(true);
    }

    /** The row of a match on the line from `start` to `end`. */
    method MakeRow(file: File, start: nat, end: nat, number: nat, m: Match) returns (row: Row)
      requires start <= end <= |file.data| && WellFormed(file.data[start..end])
      requires exists i: nat, j: nat :: MatchesFrom(Chars(file.data[start..end]), i, j, m)
      ensures row == RowFor(file.path, file.data, start, end, number, m, limits.maxExcerptBytes)
    {
      hide IsChar, Units, Flatten, WellFormed, Chars;
      ghost var chars := Chars(file.data[start..end]);
      ghost var i: nat, j: nat :| MatchesFrom(chars, i, j, m);
      LineChars(file.data, start, end, chars, i);
      LineChars(file.data, start, end, chars, j);
      var rangeStart, rangeEnd := Offsets(file.data, start, m.from, m.to, chars, i, j);
      var stop; ghost var n;
      stop, n := ExcerptEnd(file.data, rangeStart, end, limits.maxExcerptBytes, chars[i..]);
      FittingIs(chars[i..], 0, limits.maxExcerptBytes, n);
      row := LineRow(file.path, number, rangeStart, rangeEnd, stop, rangeStart > start || stop < end);
      RowUnique(row, file.path, file.data, start, end, number, m, limits.maxExcerptBytes, i, j);
    }

    lemma LineChars(data: bytes, start: nat, end: nat, chars: seq<bytes>, i: nat)
      requires start <= end <= |data| && AllChars(chars) && Flatten(chars) == data[start..end] && i <= |chars|
      ensures start + |Flatten(chars)| == end && data[start..start + |Flatten(chars)|] == Flatten(chars)
      ensures AllChars(chars[..i]) && AllChars(chars[i..]) && start + |Flatten(chars[..i])| <= end
      ensures Flatten(chars[i..]) == data[start + |Flatten(chars[..i])|..end]
    {
      CutChars(chars, i);
      hide IsChar, Flatten;
      var a := |Flatten(chars[..i])|;
      assert data[start..end][a..] == data[start + a..end];
    }

    /** Search one line, which gives a row, or moves on, or runs out of a budget. */
    method SearchLine() returns (r: Result<Option<Row>, Exceeded>)
      requires Valid() && !stopped && current.Some? && current.value.offset < |current.value.file.data|
      modifies this`current, this`lineEvaluations, this`resultBytes, this`rows, this`stopped
      ensures Valid() && Told(r, old(Remaining()), old(resultBytes), old(rows), old(Exact()))
      ensures r.Ok? && r.value.None? ==> current.Some? && old(current).value.offset < current.value.offset
      ensures r.Ok? && r.value.None? ==> current.value.file == old(current).value.file
    {
      hide WellFormed, Aligned, RowFor, AllRows, RowsFrom, MatchesFrom, Chars, LineAt, FeedAt, LinesFrom, Scanned, LineTotal;
      var c := current.value;
      var data, start := c.file.data, c.offset;
      var l := LineAt(data, start);
      OneLine(data, start);
      if lineEvaluations == limits.maxLineEvaluations { return Err(MaxLineEvaluations); }
      RowsStep(mode, matcher, limits.maxExcerptBytes, c.file, start, c.lineNumber, c.count);
      var line := data[start..l.end];
      var matched := matcher(line);
      var after := Cursor(c.file, l.next, c.lineNumber + 1, if matched.Some? then c.count + 1 else c.count);
      current, lineEvaluations := Some(after), lineEvaluations + 1;
      if matched.None? || mode == CountLines { return Ok(None); }
      if mode == Files {
        r := EmitFile(c.file);
        return;
      }
      var row := MakeRow(c.file, start, l.end, c.lineNumber + 1, matched.value);
      ExcerptSpan(c.file, start, l.end, c.lineNumber + 1, matched.value, row);
      r := EmitLine(row);
    }

    /** What a pull that may report a row tells: the row that was due, nothing, or the budget that it exceeds. */
    ghost predicate Told(r: Result<Option<Row>, Exceeded>, due: seq<Row>, spent: nat, before: nat, exact: bool)
      requires Valid()
      reads this
    {
      match r
      case Ok(None) => Remaining() == due && resultBytes == spent && rows == before && (exact ==> Exact())
      case Ok(Some(row)) =>
        && due == [row] + Remaining() && resultBytes == spent + RowCost(width, row) && rows == before + 1
        && (exact ==> Exact())
      case Err(e) =>
        || (e == MaxResultBytes && Blocked(due, spent))
        || (e == MaxLineEvaluations && (exact ==> LineTotal(mode, matcher, limits, files[..index]) > limits.maxLineEvaluations))
    }

    lemma NoLines(data: bytes)
      ensures LinesFrom(mode, matcher, data, |data|) == 0
    {
    }

    lemma OneLine(data: bytes, start: nat)
      requires start < |data|
      ensures var l := LineAt(data, start);
              LinesFrom(mode, matcher, data, start) ==
              1 + if mode == Files && matcher(data[start..l.end]).Some? then 0 else LinesFrom(mode, matcher, data, l.next)
    {
    }

    /** Report a file once; the rest of it is not searched. */
    method EmitFile(file: File) returns (r: Result<Option<Row>, Exceeded>)
      requires Valid() && !stopped
      modifies this`resultBytes, this`rows, this`stopped, this`current
      ensures Valid() && (r.Ok? ==> r.value.Some?)
      ensures Told(r, [FileRow(file.path)] + AllRows(mode, matcher, limits, files[index..]), old(resultBytes), old(rows), old(Searched()))
    {
      hide WellFormed, Aligned, AllRows, RowsFrom, LinesFrom, Scanned, LineTotal;
      var reserved := Reserve(width(file.path));
      if reserved.Err? { return Err(reserved.error); }
      current := None;
      assert [] + AllRows(mode, matcher, limits, files[index..]) == AllRows(mode, matcher, limits, files[index..]);
      return Ok(Some(FileRow(file.path)));
    }

    /** Report a matching line; the cursor has moved past it. */
    method EmitLine(row: Row) returns (r: Result<Option<Row>, Exceeded>)
      requires Valid() && !stopped && current.Some? && row.LineRow? && row.rangeStart <= row.excerptEnd
      modifies this`resultBytes, this`rows, this`stopped
      ensures Valid() && (r.Ok? ==> r.value.Some?) && Told(r, [row] + Remaining(), old(resultBytes), old(rows), old(Exact()))
    {
      hide WellFormed, Aligned, AllRows, RowsFrom, LinesFrom, Scanned, LineTotal;
      var reserved := Reserve(width(row.path) + 16 + (row.excerptEnd - row.rangeStart));
      if reserved.Err? { return Err(reserved.error); }
      return Ok(Some(row));
    }

    lemma ExcerptSpan(file: File, start: nat, end: nat, number: nat, m: Match, row: Row)
      requires start <= end <= |file.data| && WellFormed(file.data[start..end])
      requires exists i: nat, j: nat :: MatchesFrom(Chars(file.data[start..end]), i, j, m)
      requires row == RowFor(file.path, file.data, start, end, number, m, limits.maxExcerptBytes)
      ensures row.LineRow? && row.rangeStart <= row.excerptEnd && row.path == file.path
    {
    }

    /** Close the current file; counting reports it if it matched. */
    method CloseFile() returns (r: Result<Option<Row>, Exceeded>)
      requires Valid() && !stopped && current.Some? && current.value.offset == |current.value.file.data|
      modifies this`current, this`resultBytes, this`rows, this`stopped
      ensures Valid() && current.None? && Told(r, old(Remaining()), old(resultBytes), old(rows), old(Exact()))
    {
      hide WellFormed, Aligned, AllRows, LinesFrom, Scanned, LineTotal;
      NoLines(current.value.file.data);
      var c := current.value;
      ghost var later := AllRows(mode, matcher, limits, files[index..]);
      current := None;
      assert [] + later == later;
      if mode == CountLines && c.count > 0 {
        var reserved := Reserve(width(c.file.path) + 8);
        if reserved.Err? { return Err(reserved.error); }
        return Ok(Some(CountRow(c.file.path, c.count)));
      }
      return Ok(None);
    }

    /** `next`: the next row in order, the end, or the budget that stopped the search. */
    method Next() returns (r: Result<Option<Row>, Exceeded>)
      requires Valid()
      modifies this
      ensures Valid()
      ensures r == Err(MaxResults) <==> old(stopped)
      ensures r.Ok? && r.value.Some? ==> Told(r, old(Remaining()), old(resultBytes), old(rows), old(Exact()))
      ensures r.Ok? && r.value.None? ==> old(Remaining()) == [] && index == |files| && !visitorFails && (old(Exact()) ==> Exact())
      ensures r.Ok? && r.value.None? ==> current.None? && !stopped && rows == old(rows) && resultBytes == old(resultBytes)
      ensures r == Err(MaxResultBytes) ==> Blocked(old(Remaining()), old(resultBytes))
      ensures r == Err(MaxLineEvaluations) && old(Exact()) ==>
                LineTotal(mode, matcher, limits, files[..index]) > limits.maxLineEvaluations
      ensures r == Err(MaxScannedBytes) && old(Exact()) ==> Scanned(limits, files[..index]) > limits.maxScannedBytes
      ensures r == Err(VisitorExceeded) ==> visitorFails
    {
      hide WellFormed, Aligned, RowsFrom, AllRows, LinesFrom, Scanned, LineTotal;
      if stopped { return Err(MaxResults); }
      while true
        invariant Valid() && !stopped && Remaining() == old(Remaining())
        invariant resultBytes == old(resultBytes) && rows == old(rows) && (old(Exact()) ==> Exact())
        decreases |files| - index, if current.Some? then 1 + |current.value.file.data| - current.value.offset else 0
      {
        if current.None? {
          var opened_ := OpenNext();
          if opened_.Err? { return Err(opened_.error); }
          if !opened_.value {
            NoneLeft();
            return Ok(None);
          }
        } else if current.value.offset == |current.value.file.data| {
          r := CloseFile();
          if r.Err? || r.value.Some? { return; }
        } else {
          r := SearchLine();
          if r.Err? || r.value.Some? { return; }
        }
      }
    }

    lemma NoneLeft()
      requires Valid() && index == |files| && current.None?
      ensures Remaining() == []
    {
      assert files[|files|..] == [];
    }
  }

  /** The budgets hold the whole search: its rows, its files and the lines it evaluates. */
  ghost predicate Within(all: seq<Row>, mode: Mode, f: Matcher, width: PathWidth, limits: Limits, files: seq<File>, visitorFails: bool) {
    && |all| < limits.maxResults && RowsCost(width, all) <= limits.maxResultBytes
    && Scanned(limits, files) <= limits.maxScannedBytes && LineTotal(mode, f, limits, files) <= limits.maxLineEvaluations
    && !visitorFails
  }

  /** The budget that stopped a search after `rows` is one that the whole search exceeds. */
  ghost predicate Justified(exceeded: Exceeded, rows: seq<Row>, all: seq<Row>, mode: Mode, f: Matcher, width: PathWidth,
                            limits: Limits, files: seq<File>, visitorFails: bool) {
    match exceeded
    case MaxResults => |rows| == limits.maxResults
    case MaxResultBytes => |rows| < |all| && RowsCost(width, all[..|rows| + 1]) > limits.maxResultBytes
    case MaxScannedBytes => Scanned(limits, files) > limits.maxScannedBytes
    case MaxLineEvaluations => LineTotal(mode, f, limits, files) > limits.maxLineEvaluations
    case VisitorExceeded => visitorFails
  }

  lemma JustifiedIsOutside(exceeded: Exceeded, rows: seq<Row>, all: seq<Row>, mode: Mode, f: Matcher, width: PathWidth,
                           limits: Limits, files: seq<File>, visitorFails: bool)
    requires Justified(exceeded, rows, all, mode, f, width, limits, files, visitorFails) && rows <= all
    ensures !Within(all, mode, f, width, limits, files, visitorFails)
  {
    if exceeded == MaxResultBytes { RowsCostGrows(width, all, |rows| + 1); }
  }

  /**
   * Main result: pulling to the end gives all rows of the mode exactly when the budgets hold the whole search; else a
   * prefix of them, and a budget that the whole search exceeds.
   */
  method Collect(mode: Mode, matcher: Matcher, width: PathWidth, limits: Limits, files: seq<File>, visitorFails: bool)
    returns (rows: seq<Row>, exceeded: Option<Exceeded>)
    requires Aligned(matcher)
    ensures rows <= AllRows(mode, matcher, limits, files)
    ensures |rows| <= limits.maxResults && RowsCost(width, rows) <= limits.maxResultBytes
    ensures exceeded == Some(MaxResults) <==> |rows| == limits.maxResults
    ensures exceeded.None? ==> rows == AllRows(mode, matcher, limits, files)
    ensures exceeded.None? <==>
              Within(AllRows(mode, matcher, limits, files), mode, matcher, width, limits, files, visitorFails)
    ensures exceeded.Some? ==>
              Justified(exceeded.value, rows, AllRows(mode, matcher, limits, files), mode, matcher, width, limits, files, visitorFails)
  {
    hide Aligned, RowsFrom, AllRows, Scanned, LineTotal, LinesFrom, RowsCost;
    var e := new Evaluation(mode, matcher, width, limits, files, visitorFails);
    rows := [];
    ghost var all := AllRows(mode, matcher, limits, files);
    NoCost(width);
    while true
      invariant fresh(e) && e.Valid() && e.Exact() && rows + e.Remaining() == all
      invariant |rows| == e.rows && RowsCost(width, rows) == e.resultBytes
      decreases |all| - |rows|
    {
      ghost var coming := e.Remaining();
      var next := e.Next();
      TotalsGrow(mode, matcher, limits, files, e.index);
      if next.Err? {
        if next.error == MaxResultBytes {
          assert all[..|rows| + 1] == rows + [coming[0]];
          RowsCostSnoc(width, rows, coming[0]);
        }
        JustifiedIsOutside(next.error, rows, all, mode, matcher, width, limits, files, visitorFails);
        return rows, Some(next.error);
      }
      if next.value.None? {
        assert files[..e.index] == files;
        return rows, None;
      }
      RowsCostSnoc(width, rows, next.value.value);
      assert rows + ([next.value.value] + e.Remaining()) == (rows + [next.value.value]) + e.Remaining();
      rows := rows + [next.value.value];
    }
  }

  lemma NoCost(width: PathWidth)
    ensures RowsCost(width, []) == 0
  {
  }
}
