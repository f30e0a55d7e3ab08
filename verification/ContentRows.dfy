/**
 * Which rows a content search gives, said by the files alone: where a line starts and ends, which files are searched,
 * and what a row tells about the line it stands for. Nothing here mentions how the search goes through them.
 */
module ContentRows {
  import opened Basics
  import opened Sorting
  import opened Utf8
  import opened ContentSearch

  // ---------------------------------------------------------------- lines and rows

  /** A line starts at the start of the data and behind every line feed but one at the end. */
  predicate LineStarts(data: bytes, s: nat) {
    s < |data| && (s == 0 || data[s - 1] == 10)
  }

  /** A line's text goes from `s` to `e`: up to a line feed, to a carriage return before one, or to the end. */
  predicate IsLine(data: bytes, s: nat, e: nat) {
    && LineStarts(data, s) && s <= e <= |data|
    && (forall i :: s <= i < e ==> data[i] != 10)
    && (|| e == |data|
        || (data[e] == 10 && (e > s ==> data[e - 1] != 13))
        || (data[e] == 13 && e + 1 < |data| && data[e + 1] == 10))
  }

  /** Files that are not too large and hold UTF-8 text without a NUL. */
  ghost predicate Searchable(limits: Limits, file: File) {
    |file.data| <= limits.maxFileBytes && WellFormed(file.data) && 0 !in file.data
  }

  /** How many UTF-16 units text decodes to. */
  ghost function UnitsIn(text: bytes): nat
    requires WellFormed(text)
  {
    |Units(Chars(text))|
  }

  /** The match starts and ends in the line where the pattern says, in UTF-16 units. */
  ghost predicate RangeOf(row: Row, data: bytes, s: nat, e: nat, m: Match)
    requires row.LineRow? && s <= e <= |data|
  {
    && s <= row.rangeStart <= row.rangeEnd <= e
    && WellFormed(data[s..row.rangeStart]) && UnitsIn(data[s..row.rangeStart]) == m.from
    && WellFormed(data[s..row.rangeEnd]) && UnitsIn(data[s..row.rangeEnd]) == m.to
  }

  /** The excerpt is the longest text from the match on that stays within the line and the limit. */
  ghost predicate ExcerptOf(row: Row, data: bytes, s: nat, e: nat, limit: nat)
    requires row.LineRow? && s <= e <= |data|
  {
    && row.rangeStart <= row.excerptEnd <= e && row.excerptEnd - row.rangeStart <= limit
    && WellFormed(data[row.rangeStart..row.excerptEnd])
    && forall t :: row.excerptEnd < t <= e && WellFormed(data[row.rangeStart..t]) ==> t - row.rangeStart > limit
  }

  /** The row tells of the line from `s` to `e`; line numbers count the feeds before the line, from one. */
  ghost predicate Describes(row: Row, file: File, s: nat, e: nat, m: Match, limit: nat)
    requires s <= e <= |file.data|
  {
    && row.LineRow? && row.path == file.path && row.lineNumber == 1 + multiset(file.data[..s])[10]
    && RangeOf(row, file.data, s, e, m) && ExcerptOf(row, file.data, s, e, limit)
    && (row.truncated <==> !(row.rangeStart == s && row.excerptEnd == e))
  }

  /** A line of one of the files. */
  datatype Place = Place(file: nat, start: nat, end: nat)

  /** A line that matches, in a file that is searched. */
  ghost predicate Matching(f: Matcher, limits: Limits, files: seq<File>, p: Place) {
    && p.file < |files| && Searchable(limits, files[p.file]) && IsLine(files[p.file].data, p.start, p.end)
    && f(files[p.file].data[p.start..p.end]).Some?
  }

  predicate Before(p: Place, q: Place) {
    p.file < q.file || (p.file == q.file && p.start < q.start)
  }

  /** The rows tell of exactly the matching lines, file by file and line by line. */
  ghost predicate RowsOf(f: Matcher, limits: Limits, files: seq<File>, places: seq<Place>, rows: seq<Row>) {
    && |rows| == |places| && Ascending(Before, places)
    && (forall p :: p in places <==> Matching(f, limits, files, p))
    && (forall i :: 0 <= i < |places| ==>
          && Matching(f, limits, files, places[i])
          && Describes(rows[i], files[places[i].file], places[i].start, places[i].end,
                       f(files[places[i].file].data[places[i].start..places[i].end]).value, limits.maxExcerptBytes))
  }

  // ---------------------------------------------------------------- one line

  /** `offset` is where a line starts, the next one if it has number `number` plus one, or the end. */
  ghost predicate AtLine(data: bytes, offset: nat, number: nat) {
    offset <= |data| && (offset < |data| ==> LineStarts(data, offset) && number == multiset(data[..offset])[10])
  }

  lemma FeedsBefore(data: bytes, s: nat, t: nat)
    requires s < t <= |data| && data[t - 1] == 10 && forall i :: s <= i < t - 1 ==> data[i] != 10
    ensures multiset(data[..t])[10] == multiset(data[..s])[10] + 1
  {
    var line := data[s..t - 1];
    assert data[..t] == data[..s] + line + [data[t - 1]];
    assert 10 !in line;
    assert multiset(line)[10] == 0;
  }

  /** The line at `offset` ends at `end`, and the next one can only start at `next`. */
  ghost predicate LineThere(data: bytes, offset: nat, end: nat, next: nat) {
    && IsLine(data, offset, end) && offset < next <= |data|
    && (forall e: nat :: IsLine(data, offset, e) ==> e == end)
    && (forall s: nat :: LineStarts(data, s) && s > offset ==> s >= next)
  }

  lemma LineIs(data: bytes, offset: nat, number: nat)
    requires AtLine(data, offset, number) && offset < |data|
    ensures var l := LineAt(data, offset);
            LineThere(data, offset, l.end, l.next) && AtLine(data, l.next, number + 1)
  {
    LineShape(data, offset);
    var l := LineAt(data, offset);
    var feed := FeedAt(data, offset);
    if feed < |data| { FeedsBefore(data, offset, feed + 1); }
  }

  // ---------------------------------------------------------------- one row

  /** Text in front of other text is some of its characters. */
  lemma {:induction false} FrontChars(chars: seq<bytes>, text: bytes) returns (m: nat)
    requires AllChars(chars) && WellFormed(text) && text <= Flatten(chars)
    ensures m <= |chars| && text == Flatten(chars[..m])
    decreases |chars|
  {
    hide IsChar;
    if text == [] {
      m := 0;
      NothingBefore(chars);
    } else {
      var width := ScalarWidth(text[0]);
      assert chars != [];
      CharWidth(chars[0], Flatten(chars[1..]));
      assert Flatten(chars)[0] == chars[0][0] && Flatten(chars)[width..] == Flatten(chars[1..]);
      WellFormedStep(text);
      assert text[..width] == Flatten(chars)[..width] == chars[0];
      assert text[width..] <= Flatten(chars[1..]);
      assert AllChars(chars[1..]);
      var n := FrontChars(chars[1..], text[width..]);
      m := n + 1;
      assert chars[..m] == [chars[0]] + chars[1..][..n];
      FlattenCons(chars[0], chars[1..][..n]);
      assert text == text[..width] + text[width..];
    }
  }

  /** Fewer characters than `Fitting` fit the limit, more do not. */
  lemma {:induction false} FittingMost(chars: seq<bytes>, n: nat, limit: nat, m: nat)
    requires AllChars(chars) && n <= |chars| && |Flatten(chars[..n])| <= limit && m <= |chars|
    ensures |Flatten(chars[..Fitting(chars, n, limit)])| <= limit
    ensures m > Fitting(chars, n, limit) ==> |Flatten(chars[..m])| > limit
    decreases |chars| - n
  {
    hide IsChar, Flatten;
    if n < |chars| {
      if |Flatten(chars[..n + 1])| <= limit {
        FittingMost(chars, n + 1, limit, m);
      } else if m > n + 1 {
        UnitsMonotone(chars, n + 1, m);
      }
    }
  }

  /** The characters up to the `i`-th take the bytes up to `a` and are the text there. */
  lemma CharsBefore(data: bytes, s: nat, e: nat, chars: seq<bytes>, i: nat)
    requires s <= e <= |data| && AllChars(chars) && Flatten(chars) == data[s..e] && i <= |chars|
    ensures AllChars(chars[..i]) && AllChars(chars[i..])
    ensures var a := s + |Flatten(chars[..i])|;
            && s <= a <= e && WellFormed(data[s..a]) && UnitsIn(data[s..a]) == |Units(chars[..i])|
            && Flatten(chars[i..]) == data[a..e]
  {
    CutChars(chars, i);
    CharsUnique(chars[..i]);
    hide IsChar, Flatten, Units, WellFormed;
    var a := |Flatten(chars[..i])|;
    assert data[s..e][..a] == data[s..s + a] && data[s..e][a..] == data[s + a..e];
  }

  lemma ExcerptIs(data: bytes, from: nat, e: nat, tail: seq<bytes>, limit: nat)
    requires from <= e <= |data| && AllChars(tail) && Flatten(tail) == data[from..e]
    ensures var stop := from + |Flatten(tail[..Fitting(tail, 0, limit)])|;
            && from <= stop <= e && stop - from <= limit && WellFormed(data[from..stop])
            && forall t :: stop < t <= e && WellFormed(data[from..t]) ==> t - from > limit
  {
    hide IsChar, Units, WellFormed, Fitting;
    NothingBefore(tail);
    var n := Fitting(tail, 0, limit);
    FittingMost(tail, 0, limit, n);
    CharsBefore(data, from, e, tail, n);
    var stop := from + |Flatten(tail[..n])|;
    forall t | stop < t <= e && WellFormed(data[from..t]) ensures t - from > limit {
      assert data[from..t] == data[from..e][..t - from];
      var m := FrontChars(tail, data[from..t]);
      if m < n { UnitsMonotone(tail, m, n); }
      FittingMost(tail, 0, limit, m);
    }
  }

  lemma RowDescribes(file: File, s: nat, e: nat, number: nat, m: Match, limit: nat)
    requires s <= e <= |file.data| && WellFormed(file.data[s..e])
    requires exists i: nat, j: nat :: MatchesFrom(Chars(file.data[s..e]), i, j, m)
    requires number == 1 + multiset(file.data[..s])[10]
    ensures Describes(RowFor(file.path, file.data, s, e, number, m, limit), file, s, e, m, limit)
  {
    hide IsChar, Units, WellFormed, Flatten, Fitting, Chars;
    var chars := Chars(file.data[s..e]);
    var i: nat, j: nat :| MatchesFrom(chars, i, j, m);
    RowUnique(RowFor(file.path, file.data, s, e, number, m, limit), file.path, file.data, s, e, number, m, limit, i, j);
    RangeIsMatch(chars, i, j);
    CharsBefore(file.data, s, e, chars, i);
    CharsBefore(file.data, s, e, chars, j);
    ExcerptIs(file.data, s + |Flatten(chars[..i])|, e, chars[i..], limit);
    hide RowFor;
  }

  // ---------------------------------------------------------------- one file

  /** The matching lines of a file from a line on. */
  ghost function PlacesFrom(f: Matcher, file: File, k: nat, offset: nat): seq<Place>
    requires offset <= |file.data|
    decreases |file.data| - offset
  {
    if offset == |file.data| then []
    else
      var l := LineAt(file.data, offset);
      (if f(file.data[offset..l.end]).Some? then [Place(k, offset, l.end)] else []) + PlacesFrom(f, file, k, l.next)
  }

  /** The matching lines of one file from `offset` on, in order, each with its row. */
  ghost predicate RowsBehind(f: Matcher, limit: nat, file: File, k: nat, offset: nat, places: seq<Place>, rows: seq<Row>) {
    && |rows| == |places| && Ascending(Before, places)
    && (forall p :: p in places <==>
          && p.file == k && p.start >= offset && IsLine(file.data, p.start, p.end)
          && f(file.data[p.start..p.end]).Some?)
    && (forall i :: 0 <= i < |places| ==> Told(f, limit, file, k, offset, places[i], rows[i]))
  }

  ghost predicate Told(f: Matcher, limit: nat, file: File, k: nat, offset: nat, p: Place, row: Row) {
    && p.file == k && p.start >= offset && IsLine(file.data, p.start, p.end) && f(file.data[p.start..p.end]).Some?
    && Describes(row, file, p.start, p.end, f(file.data[p.start..p.end]).value, limit)
  }

  lemma InsideLines(data: bytes)
    ensures forall s: nat, e: nat :: IsLine(data, s, e) ==> LineStarts(data, s) && s < |data| && s <= e <= |data|
  {
  }

  lemma SkipLine(f: Matcher, limit: nat, file: File, k: nat, offset: nat, end: nat, next: nat, places: seq<Place>, rows: seq<Row>)
    requires LineThere(file.data, offset, end, next) && f(file.data[offset..end]).None?
    requires RowsBehind(f, limit, file, k, next, places, rows)
    ensures RowsBehind(f, limit, file, k, offset, places, rows)
  {
    hide IsLine, Describes;
    InsideLines(file.data);
    forall i | 0 <= i < |places| ensures Told(f, limit, file, k, offset, places[i], rows[i]) {
      assert Told(f, limit, file, k, next, places[i], rows[i]);
    }
  }

  lemma TakeLine(f: Matcher, limit: nat, file: File, k: nat, offset: nat, end: nat, next: nat,
                 places: seq<Place>, rows: seq<Row>, row: Row)
    requires LineThere(file.data, offset, end, next) && f(file.data[offset..end]).Some?
    requires RowsBehind(f, limit, file, k, next, places, rows)
    requires Describes(row, file, offset, end, f(file.data[offset..end]).value, limit)
    ensures RowsBehind(f, limit, file, k, offset, [Place(k, offset, end)] + places, [row] + rows)
  {
    hide IsLine, Describes;
    InsideLines(file.data);
    var first := Place(k, offset, end);
    var all, told := [first] + places, [row] + rows;
    forall i | 0 <= i < |all| ensures Told(f, limit, file, k, offset, all[i], told[i]) {
      if i > 0 { assert Told(f, limit, file, k, next, places[i - 1], rows[i - 1]); }
    }
    AfterFirst(first, places);
  }

  lemma AfterFirst(first: Place, places: seq<Place>)
    requires Ascending(Before, places) && forall p :: p in places ==> Before(first, p)
    ensures Ascending(Before, [first] + places) && forall p :: p in [first] + places <==> p == first || p in places
  {
  }

  /** A file's rows from a line on tell of exactly its matching lines from there on. */
  lemma {:induction false} FileLinesAre(f: Matcher, limit: nat, file: File, k: nat, offset: nat, number: nat, count: nat)
    requires Aligned(f) && AtLine(file.data, offset, number) && WellFormed(file.data[offset..])
    ensures RowsBehind(f, limit, file, k, offset, PlacesFrom(f, file, k, offset), RowsFrom(Lines, f, limit, file, offset, number, count))
    decreases |file.data| - offset
  {
    hide WellFormed, Aligned, RowFor, MatchesFrom, Chars, RowsFrom, Describes, LineAt, IsLine, RowsBehind;
    if offset == |file.data| {
      RowsEnd(Lines, f, limit, file, number, count);
      NoLineThere(f, limit, file, k);
    } else {
      RowsStep(Lines, f, limit, file, offset, number, count);
      LineIs(file.data, offset, number);
      var l := LineAt(file.data, offset);
      var matched := f(file.data[offset..l.end]);
      FileLinesAre(f, limit, file, k, l.next, number + 1, if matched.Some? then count + 1 else count);
      var places := PlacesFrom(f, file, k, l.next);
      var rows := RowsFrom(Lines, f, limit, file, l.next, number + 1, if matched.Some? then count + 1 else count);
      if matched.Some? {
        RowDescribes(file, offset, l.end, number + 1, matched.value, limit);
        var row := RowFor(file.path, file.data, offset, l.end, number + 1, matched.value, limit);
        TakeLine(f, limit, file, k, offset, l.end, l.next, places, rows, row);
      } else {
        SkipLine(f, limit, file, k, offset, l.end, l.next, places, rows);
        assert [] + places == places;
      }
    }
  }

  lemma NoLineThere(f: Matcher, limit: nat, file: File, k: nat)
    ensures RowsBehind(f, limit, file, k, |file.data|, [], [])
  {
  }

  // ---------------------------------------------------------------- all files

  ghost function AllPlaces(f: Matcher, limits: Limits, files: seq<File>, k: nat): seq<Place>
    requires k <= |files|
    decreases |files| - k
  {
    if k == |files| then []
    else (if Searchable(limits, files[k]) then PlacesFrom(f, files[k], k, 0) else []) + AllPlaces(f, limits, files, k + 1)
  }

  ghost predicate RowsFromFile(f: Matcher, limits: Limits, files: seq<File>, k: nat, places: seq<Place>, rows: seq<Row>) {
    && |rows| == |places| && Ascending(Before, places)
    && (forall p :: p in places <==> p.file >= k && Matching(f, limits, files, p))
    && (forall i :: 0 <= i < |places| ==> Reported(f, limits, files, places[i], rows[i]))
  }

  ghost predicate Reported(f: Matcher, limits: Limits, files: seq<File>, p: Place, row: Row) {
    && Matching(f, limits, files, p)
    && Describes(row, files[p.file], p.start, p.end, f(files[p.file].data[p.start..p.end]).value, limits.maxExcerptBytes)
  }

  lemma SearchedFile(f: Matcher, limits: Limits, files: seq<File>, k: nat, own: seq<Place>, told: seq<Row>, places: seq<Place>, rows: seq<Row>)
    requires k < |files| && Searchable(limits, files[k])
    requires RowsBehind(f, limits.maxExcerptBytes, files[k], k, 0, own, told)
    requires RowsFromFile(f, limits, files, k + 1, places, rows)
    ensures RowsFromFile(f, limits, files, k, own + places, told + rows)
  {
    hide Searchable, IsLine, Describes;
    var all, listed := own + places, told + rows;
    forall i | 0 <= i < |all| ensures Reported(f, limits, files, all[i], listed[i]) {
      if i < |own| {
        assert Told(f, limits.maxExcerptBytes, files[k], k, 0, own[i], told[i]);
      } else {
        assert Reported(f, limits, files, places[i - |own|], rows[i - |own|]);
      }
    }
    forall i, j | 0 <= i < j < |all| ensures Before(all[i], all[j]) {
      if i < |own| { assert all[i] == own[i] && own[i] in own; }
      if j >= |own| { assert all[j] == places[j - |own|] && all[j] in places; }
    }
    forall p ensures p in all <==> p in own || p in places { }
  }

  lemma SkippedFile(f: Matcher, limits: Limits, files: seq<File>, k: nat, places: seq<Place>, rows: seq<Row>)
    requires k < |files| && !Searchable(limits, files[k]) && RowsFromFile(f, limits, files, k + 1, places, rows)
    ensures RowsFromFile(f, limits, files, k, places, rows)
  {
    hide Searchable, IsLine, Describes;
  }

  lemma {:induction false} AllLinesAre(f: Matcher, limits: Limits, files: seq<File>, k: nat)
    requires Aligned(f) && k <= |files|
    ensures RowsFromFile(f, limits, files, k, AllPlaces(f, limits, files, k), AllRows(Lines, f, limits, files[k..]))
    decreases |files| - k
  {
    hide WellFormed, Aligned, RowsFrom, PlacesFrom, RowsFromFile, RowsBehind;
    if k == |files| {
      NoFiles(f, limits, files);
    } else {
      AllLinesAre(f, limits, files, k + 1);
      var places, rows := AllPlaces(f, limits, files, k + 1), AllRows(Lines, f, limits, files[k + 1..]);
      var file := files[k];
      assert files[k..][0] == file && files[k..][1..] == files[k + 1..];
      if Searchable(limits, file) {
        assert file.data[0..] == file.data && file.data[..0] == [];
        FileLinesAre(f, limits.maxExcerptBytes, file, k, 0, 0, 0);
        SearchedFile(f, limits, files, k, PlacesFrom(f, file, k, 0), RowsFrom(Lines, f, limits.maxExcerptBytes, file, 0, 0, 0), places, rows);
      } else {
        SkippedFile(f, limits, files, k, places, rows);
        assert [] + places == places && [] + rows == rows;
      }
    }
  }

  lemma NoFiles(f: Matcher, limits: Limits, files: seq<File>)
    requires Aligned(f)
    ensures RowsFromFile(f, limits, files, |files|, [], AllRows(Lines, f, limits, files[|files|..]))
  {
    assert files[|files|..] == [];
  }

  // ---------------------------------------------------------------- the main results

  /**
   * Main result: the rows of `lines` tell of exactly the lines that match in files that are not too large and hold
   * text without a NUL, each once, file by file and line by line.
   */
  lemma LineRowsMean(f: Matcher, limits: Limits, files: seq<File>)
    requires Aligned(f)
    ensures exists places: seq<Place> :: RowsOf(f, limits, files, places, AllRows(Lines, f, limits, files))
  {
    AllLinesAre(f, limits, files, 0);
    assert files[0..] == files;
    hide Aligned, AllRows, AllPlaces, Describes, Matching;
    var places, rows := AllPlaces(f, limits, files, 0), AllRows(Lines, f, limits, files);
    forall i | 0 <= i < |places| ensures Reported(f, limits, files, places[i], rows[i]) { }
    assert RowsOf(f, limits, files, places, rows);
  }

  // ---------------------------------------------------------------- files and counts

  ghost predicate LineMatches(f: Matcher, data: bytes, s: nat) {
    exists e: nat :: IsLine(data, s, e) && f(data[s..e]).Some?
  }

  /** Where the matching lines of a file start, if the file is searched. */
  ghost function MatchedLines(f: Matcher, limits: Limits, file: File): set<nat> {
    if Searchable(limits, file) then set s: nat | 0 <= s < |file.data| && LineMatches(f, file.data, s) else {}
  }

  lemma StartsAre(f: Matcher, file: File, places: seq<Place>, starts: seq<nat>)
    requires Ascending(Before, places) && |starts| == |places|
    requires forall i :: 0 <= i < |places| ==> starts[i] == places[i].start
    requires forall p :: p in places <==> p.file == 0 && IsLine(file.data, p.start, p.end) && f(file.data[p.start..p.end]).Some?
    ensures Elements(starts) == set s: nat | 0 <= s < |file.data| && LineMatches(f, file.data, s)
    ensures |Elements(starts)| == |places|
  {
    hide IsLine;
    InsideLines(file.data);
    forall i, j | 0 <= i < j < |places| ensures starts[i] != starts[j] {
      assert places[i] in places && places[j] in places && Before(places[i], places[j]);
    }
    DistinctCount(starts);
    forall s | s in starts ensures s < |file.data| && LineMatches(f, file.data, s) {
      var i :| 0 <= i < |starts| && starts[i] == s;
      assert places[i] in places;
    }
    forall s: nat | LineMatches(f, file.data, s) ensures s in starts {
      var e: nat :| IsLine(file.data, s, e) && f(file.data[s..e]).Some?;
      assert Place(0, s, e) in places;
      var i :| 0 <= i < |places| && places[i] == Place(0, s, e);
      assert starts[i] == s;
    }
  }

  /** There is a row of `lines` for every matching line. */
  lemma RowsCounted(f: Matcher, limits: Limits, file: File)
    requires Aligned(f)
    ensures |FileRows(Lines, f, limits, file)| == |MatchedLines(f, limits, file)|
  {
    if Searchable(limits, file) {
      var places := PlacesFrom(f, file, 0, 0);
      assert file.data[0..] == file.data && file.data[..0] == [];
      FileLinesAre(f, limits.maxExcerptBytes, file, 0, 0, 0, 0);
      hide WellFormed, Aligned, RowsFrom, PlacesFrom, Told, LineMatches;
      StartsAre(f, file, places, seq(|places|, i requires 0 <= i < |places| => places[i].start));
    }
  }

  /** Main result: `files` names exactly the files that have a matching line, and `countLines` how many each has. */
  lemma {:induction false} FileRowsMean(f: Matcher, limits: Limits, files: seq<File>, path: string, n: nat)
    requires Aligned(f)
    ensures FileRow(path) in AllRows(Files, f, limits, files) <==>
            exists k :: 0 <= k < |files| && files[k].path == path && MatchedLines(f, limits, files[k]) != {}
    ensures CountRow(path, n) in AllRows(CountLines, f, limits, files) <==>
            exists k :: 0 <= k < |files| && files[k].path == path && n == |MatchedLines(f, limits, files[k])| && n > 0
    decreases |files|
  {
    hide WellFormed, Aligned, FileRows, MatchedLines;
    if files != [] {
      var file, rest := files[0], files[1..];
      FileRowsMean(f, limits, rest, path, n);
      OneFile(f, limits, file);
      RowsCounted(f, limits, file);
      InRows(FileRows(Files, f, limits, file), AllRows(Files, f, limits, rest), FileRow(path));
      InRows(FileRows(CountLines, f, limits, file), AllRows(CountLines, f, limits, rest), CountRow(path, n));
      assert files == [file] + rest;
      assert forall k :: 0 < k < |files| ==> files[k] == rest[k - 1];
      assert forall k :: 0 <= k < |rest| ==> rest[k] == files[k + 1];
    }
  }

  // ---------------------------------------------------------------- what is evaluated and reserved

  /** Where the lines start that are evaluated from `from` on: in `files`, none after the first that matches. */
  ghost function EvaluatedLines(mode: Mode, f: Matcher, data: bytes, from: nat): set<nat> {
    set s: nat | from <= s < |data| && LineStarts(data, s)
                 && (mode == Files ==> forall t: nat :: from <= t < s ==> !LineMatches(f, data, t))
  }

  lemma OneLineEvaluated(mode: Mode, f: Matcher, data: bytes, offset: nat, end: nat, next: nat)
    requires LineThere(data, offset, end, next)
    ensures EvaluatedLines(mode, f, data, offset) ==
            {offset} + (if mode == Files && f(data[offset..end]).Some? then {} else EvaluatedLines(mode, f, data, next))
    ensures offset !in EvaluatedLines(mode, f, data, next)
  {
    hide IsLine;
    InsideLines(data);
    var here := EvaluatedLines(mode, f, data, offset);
    var later := if mode == Files && f(data[offset..end]).Some? then {} else EvaluatedLines(mode, f, data, next);
    assert LineMatches(f, data, offset) <==> f(data[offset..end]).Some?;
    assert forall s: nat :: offset < s < next ==> !LineStarts(data, s) && !LineMatches(f, data, s);
    hide LineMatches, LineStarts;
    forall s ensures s in here <==> s in {offset} + later { }
  }

  lemma {:induction false} LinesCounted(mode: Mode, f: Matcher, data: bytes, offset: nat, number: nat)
    requires AtLine(data, offset, number)
    ensures LinesFrom(mode, f, data, offset) == |EvaluatedLines(mode, f, data, offset)|
    decreases |data| - offset
  {
    if offset == |data| {
      assert EvaluatedLines(mode, f, data, offset) == {};
    } else {
      var l := LineAt(data, offset);
      LineIs(data, offset, number);
      OneLineEvaluated(mode, f, data, offset, l.end, l.next);
      hide LineAt, IsLine, EvaluatedLines, AtLine;
      LinesCounted(mode, f, data, l.next, number + 1);
    }
  }

  /** The lines evaluated in a file: all of a searched file's, in `files` up to the first that matches; else none. */
  lemma FileLinesMean(mode: Mode, f: Matcher, limits: Limits, file: File)
    ensures FileLines(mode, f, limits, file.data) ==
            if Searchable(limits, file) then |EvaluatedLines(mode, f, file.data, 0)| else 0
  {
    hide WellFormed, EvaluatedLines;
    assert file.data[..0] == [];
    LinesCounted(mode, f, file.data, 0, 0);
  }

  /** A row reserves its path and its excerpt, its path, or its path and eight bytes. */
  lemma RowReserves(width: PathWidth, row: Row)
    ensures row.LineRow? && row.rangeStart <= row.excerptEnd ==>
              RowCost(width, row) + row.rangeStart == width(row.path) + 16 + row.excerptEnd
    ensures row.FileRow? ==> RowCost(width, row) == width(row.path)
    ensures row.CountRow? ==> RowCost(width, row) == width(row.path) + 8
  {
  }
}
