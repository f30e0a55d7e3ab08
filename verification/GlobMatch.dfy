/**
 * The metered matcher of `internal/glob.ts`: one dynamic program over the scalars of a path segment, another over the
 * segments of a path. Each fills rows of a table; a row says which prefixes the pattern so far matches.
 */
module GlobMatch {
  import opened Basics

  datatype Atom = Atom(low: nat, high: nat)

  datatype Token =
    | Literal(value: char)
    | Star
    | AnyScalar
    | Class(atoms: seq<Atom>, negate: bool)

  datatype Segment = Globstar | Tokens(tokens: seq<Token>)

  datatype Pattern = Pattern(segments: seq<Segment>, directory: bool)

  // ---------------------------------------------------------------- the meaning

  predicate InClass(atoms: seq<Atom>, point: int) {
    exists k :: 0 <= k < |atoms| && atoms[k].low <= point <= atoms[k].high
  }

  /** What a token other than a star says about one scalar. */
  predicate Accepts(token: Token, c: char) {
    match token
    case Literal(value) => value == c
    case Star => false
    case AnyScalar => true
    case Class(atoms, negate) => InClass(atoms, c as int) != negate
  }

  /**
   * A list of steps matches a list of items: a wild step takes any stretch of items, any other step takes one item
   * that it accepts.
   */
  ghost predicate Means<P, T>(wild: P -> bool, ok: (P, T) -> bool, steps: seq<P>, items: seq<T>)
    decreases |steps|
  {
    if steps == [] then items == []
    else if wild(steps[0]) then exists k :: 0 <= k <= |items| && Means(wild, ok, steps[1..], items[k..])
    else items != [] && ok(steps[0], items[0]) && Means(wild, ok, steps[1..], items[1..])
  }

  ghost predicate SegmentMeans(tokens: seq<Token>, text: string) {
    Means((t: Token) => t.Star?, Accepts, tokens, text)
  }

  ghost predicate SegmentTakes(segment: Segment, part: string) {
    segment.Tokens? && SegmentMeans(segment.tokens, part)
  }

  ghost predicate PathMeans(segments: seq<Segment>, parts: seq<string>) {
    Means((s: Segment) => s.Globstar?, SegmentTakes, segments, parts)
  }

  ghost predicate PatternMeans(p: Pattern, parts: seq<string>, isDirectory: bool) {
    (p.directory ==> isDirectory) && PathMeans(p.segments, parts)
  }

  ghost predicate AnyMeans(patterns: seq<Pattern>, parts: seq<string>, isDirectory: bool) {
    exists k :: 0 <= k < |patterns| && PatternMeans(patterns[k], parts, isDirectory)
  }

  // ---------------------------------------------------------------- one more step at the end

  /** Whether one more step extends a match. */
  ghost predicate Extends<P, T>(wild: P -> bool, ok: (P, T) -> bool, steps: seq<P>, step: P, items: seq<T>) {
    if wild(step) then exists k :: 0 <= k <= |items| && Means(wild, ok, steps, items[..k])
    else items != [] && ok(step, items[|items| - 1]) && Means(wild, ok, steps, items[..|items| - 1])
  }

  lemma MeansWild<P, T>(wild: P -> bool, ok: (P, T) -> bool, steps: seq<P>, items: seq<T>, k: nat)
    requires steps != [] && wild(steps[0]) && k <= |items| && Means(wild, ok, steps[1..], items[k..])
    ensures Means(wild, ok, steps, items)
  {
  }

  lemma ExtendsWild<P, T>(wild: P -> bool, ok: (P, T) -> bool, steps: seq<P>, step: P, items: seq<T>, k: nat)
    requires wild(step) && k <= |items| && Means(wild, ok, steps, items[..k])
    ensures Extends(wild, ok, steps, step, items)
  {
  }

  /** Reading the steps from the front, as the meaning does, agrees with adding them at the end, as the rows do. */
  lemma {:induction false} MeansSnoc<P, T>(wild: P -> bool, ok: (P, T) -> bool, steps: seq<P>, step: P, items: seq<T>)
    ensures Means(wild, ok, steps + [step], items) <==> Extends(wild, ok, steps, step, items)
    decreases |steps|
  {
    var all := steps + [step];
    if steps == [] {
      assert all[1..] == [] && all[0] == step;
      if wild(step) {
        if Means(wild, ok, all, items) { ExtendsWild(wild, ok, steps, step, items, 0); }
        if Extends(wild, ok, steps, step, items) {
          assert items[|items|..] == [];
          MeansWild(wild, ok, all, items, |items|);
        }
      } else if items != [] {
        assert items == items[..|items| - 1] + [items[|items| - 1]];
        assert items[1..] == [] <==> |items| == 1;
        assert items[..|items| - 1] == [] <==> |items| == 1;
      }
    } else {
      assert all[1..] == steps[1..] + [step] && all[0] == steps[0];
      if wild(steps[0]) {
        SnocAfterWild(wild, ok, steps, step, items);
      } else if items != [] && ok(steps[0], items[0]) {
        MeansSnoc(wild, ok, steps[1..], step, items[1..]);
        SnocAfterOne(wild, ok, steps, step, items);
      } else {
        assert !Means(wild, ok, all, items);
        forall k | 0 <= k <= |items| ensures !Means(wild, ok, steps, items[..k]) {
          if k > 0 { assert items[..k][0] == items[0]; }
        }
      }
    }
  }

  lemma {:induction false} SnocAfterWild<P, T>(wild: P -> bool, ok: (P, T) -> bool, steps: seq<P>, step: P, items: seq<T>)
    requires steps != [] && wild(steps[0])
    ensures Means(wild, ok, steps + [step], items) <==> Extends(wild, ok, steps, step, items)
    decreases |steps|, 0
  {
    hide Means, Extends;
    var all, rest := steps + [step], steps[1..];
    assert all[1..] == rest + [step];
    if Means(wild, ok, all, items) {
      var k := WildCut(wild, ok, all, items);
      MeansSnoc(wild, ok, rest, step, items[k..]);
      var m := ExtendCut(wild, ok, rest, step, items[k..]);
      assert items[..k + m][k..] == items[k..][..m];
      MeansWild(wild, ok, steps, items[..k + m], k);
      if !wild(step) { assert items[k..][|items[k..]| - 1] == items[|items| - 1]; }
      ExtendsBack(wild, ok, steps, step, items, k + m);
    }
    if Extends(wild, ok, steps, step, items) {
      var m := ExtendCut(wild, ok, steps, step, items);
      var k := WildCut(wild, ok, steps, items[..m]);
      assert items[..m][k..] == items[k..][..m - k];
      if !wild(step) { assert items[k..][|items[k..]| - 1] == items[|items| - 1]; }
      ExtendsBack(wild, ok, rest, step, items[k..], m - k);
      MeansSnoc(wild, ok, rest, step, items[k..]);
      MeansWild(wild, ok, all, items, k);
    }
  }

  lemma WildCut<P, T>(wild: P -> bool, ok: (P, T) -> bool, steps: seq<P>, items: seq<T>) returns (k: nat)
    requires steps != [] && wild(steps[0]) && Means(wild, ok, steps, items)
    ensures k <= |items| && Means(wild, ok, steps[1..], items[k..])
  {
    k :| 0 <= k <= |items| && Means(wild, ok, steps[1..], items[k..]);
  }

  /** How many items the steps before the last one take. */
  lemma ExtendCut<P, T>(wild: P -> bool, ok: (P, T) -> bool, steps: seq<P>, step: P, items: seq<T>) returns (m: nat)
    requires Extends(wild, ok, steps, step, items)
    ensures m <= |items| && Means(wild, ok, steps, items[..m])
    ensures !wild(step) ==> m == |items| - 1 && ok(step, items[|items| - 1])
  {
    if wild(step) {
      m :| 0 <= m <= |items| && Means(wild, ok, steps, items[..m]);
    } else {
      m := |items| - 1;
    }
  }

  lemma ExtendsBack<P, T>(wild: P -> bool, ok: (P, T) -> bool, steps: seq<P>, step: P, items: seq<T>, m: nat)
    requires m <= |items| && Means(wild, ok, steps, items[..m])
    requires !wild(step) ==> m == |items| - 1 && ok(step, items[|items| - 1])
    ensures Extends(wild, ok, steps, step, items)
  {
  }

  lemma SnocAfterOne<P, T>(wild: P -> bool, ok: (P, T) -> bool, steps: seq<P>, step: P, items: seq<T>)
    requires steps != [] && !wild(steps[0]) && items != [] && ok(steps[0], items[0])
    requires Means(wild, ok, steps[1..] + [step], items[1..]) <==> Extends(wild, ok, steps[1..], step, items[1..])
    ensures Means(wild, ok, steps + [step], items) <==> Extends(wild, ok, steps, step, items)
  {
    var rest, tail := steps[1..], items[1..];
    assert (steps + [step])[1..] == rest + [step];
    forall k | 0 <= k <= |tail| ensures Means(wild, ok, steps, items[..k + 1]) <==> Means(wild, ok, rest, tail[..k]) {
      assert items[..k + 1][1..] == tail[..k] && items[..k + 1][0] == items[0];
    }
    AfterOneExtends(wild, ok, steps, step, items);
    hide Extends;
  }

  /** The first step takes the first item, so the rest of the steps extend over the rest of the items. */
  lemma AfterOneExtends<P, T>(wild: P -> bool, ok: (P, T) -> bool, steps: seq<P>, step: P, items: seq<T>)
    requires steps != [] && !wild(steps[0]) && items != [] && ok(steps[0], items[0])
    requires forall k :: 0 <= k <= |items[1..]| ==>
               (Means(wild, ok, steps, items[..k + 1]) <==> Means(wild, ok, steps[1..], items[1..][..k]))
    ensures Extends(wild, ok, steps, step, items) <==> Extends(wild, ok, steps[1..], step, items[1..])
  {
    var rest, tail := steps[1..], items[1..];
    if wild(step) {
      if Extends(wild, ok, rest, step, tail) {
        var k :| 0 <= k <= |tail| && Means(wild, ok, rest, tail[..k]);
        ExtendsWild(wild, ok, steps, step, items, k + 1);
      }
      if Extends(wild, ok, steps, step, items) {
        var k :| 0 <= k <= |items| && Means(wild, ok, steps, items[..k]);
        assert Means(wild, ok, rest, tail[..k - 1]);
        ExtendsWild(wild, ok, rest, step, tail, k - 1);
      }
    } else if tail != [] {
      assert tail[|tail| - 1] == items[|items| - 1];
      assert items[..|items| - 1] == items[..|tail| - 1 + 1];
    } else {
      assert items[..|items| - 1] == [];
    }
  }

  // ---------------------------------------------------------------- rows

  /** The row after some steps: which prefixes of the items they match. */
  ghost predicate RowOk<P, T>(wild: P -> bool, ok: (P, T) -> bool, steps: seq<P>, items: seq<T>, row: seq<bool>) {
    |row| == |items| + 1 && forall i :: 0 <= i <= |items| ==> (row[i] <==> Means(wild, ok, steps, items[..i]))
  }

  lemma WildCell<P, T>(wild: P -> bool, ok: (P, T) -> bool, steps: seq<P>, step: P, items: seq<T>, i: nat)
    requires wild(step) && i <= |items|
    ensures Means(wild, ok, steps + [step], items[..i]) <==>
            Means(wild, ok, steps, items[..i]) || (i > 0 && Means(wild, ok, steps + [step], items[..i - 1]))
  {
    var now := items[..i];
    MeansSnoc(wild, ok, steps, step, now);
    assert now[..|now|] == now;
    if i > 0 {
      var before := items[..i - 1];
      MeansSnoc(wild, ok, steps, step, before);
      forall k | 0 <= k < i ensures now[..k] == before[..k] { }
    }
    if Means(wild, ok, steps, now) { ExtendsWild(wild, ok, steps, step, now, i); }
    if i > 0 && Extends(wild, ok, steps, step, items[..i - 1]) {
      var k :| 0 <= k <= i - 1 && Means(wild, ok, steps, items[..i - 1][..k]);
      ExtendsWild(wild, ok, steps, step, now, k);
    }
  }

  lemma OneCell<P, T>(wild: P -> bool, ok: (P, T) -> bool, steps: seq<P>, step: P, items: seq<T>, i: nat)
    requires !wild(step) && i <= |items|
    ensures Means(wild, ok, steps + [step], items[..i]) <==>
            i > 0 && Means(wild, ok, steps, items[..i - 1]) && ok(step, items[i - 1])
  {
    var now := items[..i];
    MeansSnoc(wild, ok, steps, step, now);
    if i > 0 { assert now[..|now| - 1] == items[..i - 1] && now[|now| - 1] == items[i - 1]; }
  }

  // ---------------------------------------------------------------- the metered loops

  /** Counted matching work. */
  class WorkMeter {
    var matchingWork: nat
    const maxMatchingWork: nat

    constructor (maxMatchingWork: nat)
      ensures matchingWork == 0 && this.maxMatchingWork == maxMatchingWork
    {
      this.maxMatchingWork := maxMatchingWork;
      matchingWork := 0;
    }

    /** Count one unit of work, or refuse when none is left. */
    method Tick() returns (ok: bool)
      requires matchingWork <= maxMatchingWork
      modifies this
      ensures ok <==> old(matchingWork) < maxMatchingWork
      ensures matchingWork == if ok then old(matchingWork) + 1 else old(matchingWork)
    {
      if matchingWork >= maxMatchingWork { return false; }
      matchingWork := matchingWork + 1;
      return true;
    }
  }

  /** The units of work a loop takes, when nothing stops it. */
  function ClassWork(atoms: seq<Atom>, point: int, k: nat): nat
    requires k <= |atoms|
    decreases |atoms| - k
  {
    if k == |atoms| then 0
    else if atoms[k].low <= point <= atoms[k].high then 1
    else 1 + ClassWork(atoms, point, k + 1)
  }

  /** A cell takes one unit, and one for every atom tried when a class is asked about a scalar. */
  function CellWork(token: Token, text: string, previous: seq<bool>, i: nat): nat
    requires i <= |text| && |previous| == |text| + 1
  {
    1 + if token.Class? && i > 0 && previous[i - 1] then ClassWork(token.atoms, text[i - 1] as int, 0) else 0
  }

  /** The cells from `i` on. */
  function TokenWork(token: Token, text: string, previous: seq<bool>, i: nat): nat
    requires i <= |text| + 1 && |previous| == |text| + 1
    decreases |text| + 1 - i
  {
    if i == |text| + 1 then 0 else CellWork(token, text, previous, i) + TokenWork(token, text, previous, i + 1)
  }

  /** The row that says which prefixes the steps match. */
  ghost function RowOf<P, T>(wild: P -> bool, ok: (P, T) -> bool, steps: seq<P>, items: seq<T>): (row: seq<bool>)
    ensures |row| == |items| + 1
  {
    seq(|items| + 1, j requires 0 <= j <= |items| => Means(wild, ok, steps, items[..j]))
  }

  lemma RowIs<P, T>(wild: P -> bool, ok: (P, T) -> bool, steps: seq<P>, items: seq<T>, row: seq<bool>)
    requires RowOk(wild, ok, steps, items, row)
    ensures row == RowOf(wild, ok, steps, items)
  {
    hide Means;
  }

  /** The tokens from `t` on. */
  ghost function SegmentWork(tokens: seq<Token>, t: nat, text: string): nat
    requires t <= |tokens|
    decreases |tokens| - t
  {
    if t == |tokens| then 0
    else
      TokenWork(tokens[t], text, RowOf((x: Token) => x.Star?, Accepts, tokens[..t], text), 0) + SegmentWork(tokens, t + 1, text)
  }

  /** A segment asks only about parts that come after a matched prefix. */
  ghost function PartWork(segment: Segment, parts: seq<string>, previous: seq<bool>, i: nat): nat
    requires i <= |parts| && |previous| == |parts| + 1
  {
    1 + if segment.Tokens? && i > 0 && previous[i - 1] then SegmentWork(segment.tokens, 0, parts[i - 1]) else 0
  }

  ghost function RowWork(segment: Segment, parts: seq<string>, previous: seq<bool>, i: nat): nat
    requires i <= |parts| + 1 && |previous| == |parts| + 1
    decreases |parts| + 1 - i
  {
    if i == |parts| + 1 then 0 else PartWork(segment, parts, previous, i) + RowWork(segment, parts, previous, i + 1)
  }

  ghost function PathWork(segments: seq<Segment>, s: nat, parts: seq<string>): nat
    requires s <= |segments|
    decreases |segments| - s
  {
    if s == |segments| then 0
    else
      RowWork(segments[s], parts, RowOf((x: Segment) => x.Globstar?, SegmentTakes, segments[..s], parts), 0)
      + PathWork(segments, s + 1, parts)
  }

  /** The patterns from `k` on, up to the first that matches. */
  ghost function AnyWork(patterns: seq<Pattern>, k: nat, parts: seq<string>, isDirectory: bool): nat
    requires k <= |patterns|
    decreases |patterns| - k
  {
    if k == |patterns| then 0
    else
      1 + (if patterns[k].directory && !isDirectory then 0 else PathWork(patterns[k].segments, 0, parts))
      + (if PatternMeans(patterns[k], parts, isDirectory) then 0 else AnyWork(patterns, k + 1, parts, isDirectory))
  }

  /** The includes are asked only about paths that are not excluded. */
  ghost function MatchWork(includes: seq<Pattern>, excludes: seq<Pattern>, parts: seq<string>, isDirectory: bool): nat {
    AnyWork(excludes, 0, parts, isDirectory)
    + if AnyMeans(excludes, parts, isDirectory) then 0 else AnyWork(includes, 0, parts, isDirectory)
  }

  /** The work was done and counted exactly, or the budget does not hold it and is used up. */
  ghost predicate Billed(before: nat, meter: WorkMeter, work: nat, done: bool)
    reads meter
  {
    && (done <==> before + work <= meter.maxMatchingWork)
    && meter.matchingWork == if done then before + work else meter.maxMatchingWork
  }

  method ClassMatches(atoms: seq<Atom>, point: int, meter: WorkMeter) returns (r: Option<bool>)
    requires meter.matchingWork <= meter.maxMatchingWork
    modifies meter
    ensures Billed(old(meter.matchingWork), meter, ClassWork(atoms, point, 0), r.Some?)
    ensures r.Some? ==> r.value == InClass(atoms, point)
  {
    for k := 0 to |atoms|
      invariant forall j :: 0 <= j < k ==> !(atoms[j].low <= point <= atoms[j].high)
      invariant meter.matchingWork <= meter.maxMatchingWork
      invariant meter.matchingWork + ClassWork(atoms, point, k) == old(meter.matchingWork) + ClassWork(atoms, point, 0)
    {
      var ok := meter.Tick();
      if !ok { return None; }
      if atoms[k].low <= point <= atoms[k].high { return Some(true); }
    }
    return Some(false);
  }

  /** One cell of the scalar table. */
  method Cell(token: Token, text: string, previous: seq<bool>, left: bool, i: nat, meter: WorkMeter) returns (r: Option<bool>)
    requires i <= |text| && |previous| == |text| + 1 && meter.matchingWork <= meter.maxMatchingWork
    modifies meter
    ensures Billed(old(meter.matchingWork), meter, CellWork(token, text, previous, i), r.Some?)
    ensures r.Some? ==>
              r.value == if token.Star? then previous[i] || (i > 0 && left)
                         else i > 0 && previous[i - 1] && Accepts(token, text[i - 1])
  {
    var ok := meter.Tick();
    if !ok { return None; }
    if token.Star? { return Some(previous[i] || (i > 0 && left)); }
    if i == 0 || !previous[i - 1] { return Some(false); }
    if token.AnyScalar? { return Some(true); }
    if token.Literal? { return Some(token.value == text[i - 1]); }
    var found := ClassMatches(token.atoms, text[i - 1] as int, meter);
    if found.None? { return None; }
    return Some(if token.negate then !found.value else found.value);
  }

  /** Fill the next row for one token. */
  method TokenRow(tokens: seq<Token>, t: nat, text: string, previous: seq<bool>, meter: WorkMeter) returns (r: Option<seq<bool>>)
    requires t < |tokens| && meter.matchingWork <= meter.maxMatchingWork
    requires RowOk((x: Token) => x.Star?, Accepts, tokens[..t], text, previous)
    modifies meter
    ensures Billed(old(meter.matchingWork), meter, TokenWork(tokens[t], text, previous, 0), r.Some?)
    ensures r.Some? ==> RowOk((x: Token) => x.Star?, Accepts, tokens[..t + 1], text, r.value)
  {
    ghost var wild := (x: Token) => x.Star?;
    hide Accepts, CellWork;
    var token, next := tokens[t], new bool[|text| + 1](_ => false);
    assert tokens[..t + 1] == tokens[..t] + [token];
    for i := 0 to |text| + 1
      invariant next.Length == |text| + 1
      invariant forall j :: 0 <= j < i ==> (next[j] <==> Means(wild, Accepts, tokens[..t + 1], text[..j]))
      invariant meter.matchingWork <= meter.maxMatchingWork
      invariant meter.matchingWork + TokenWork(token, text, previous, i) ==
                old(meter.matchingWork) + TokenWork(token, text, previous, 0)
    {
      var cell := Cell(token, text, previous, if i > 0 then next[i - 1] else false, i, meter);
      if cell.None? { return None; }
      if token.Star? {
        WildCell(wild, Accepts, tokens[..t], token, text, i);
      } else {
        OneCell(wild, Accepts, tokens[..t], token, text, i);
      }
      next[i] := cell.value;
    }
    return Some(next[..]);
  }

  lemma FirstRow<P, T>(wild: P -> bool, ok: (P, T) -> bool, items: seq<T>, row: seq<bool>)
    requires |row| == |items| + 1 && row[0] && forall i :: 0 < i < |row| ==> !row[i]
    ensures RowOk(wild, ok, [], items, row)
  {
  }

  /** `segmentMatches`: the exact verdict for exactly the work it takes, or the budget does not hold that. */
  method SegmentMatches(tokens: seq<Token>, text: string, meter: WorkMeter) returns (r: Option<bool>)
    requires meter.matchingWork <= meter.maxMatchingWork
    modifies meter
    ensures Billed(old(meter.matchingWork), meter, SegmentWork(tokens, 0, text), r.Some?)
    ensures r.Some? ==> r.value == SegmentMeans(tokens, text)
  {
    hide TokenWork, RowOf;
    ghost var wild := (x: Token) => x.Star?;
    var previous := [true] + seq(|text|, _ => false);
    FirstRow(wild, Accepts, text, previous);
    assert tokens[..0] == [];
    for t := 0 to |tokens|
      invariant RowOk(wild, Accepts, tokens[..t], text, previous)
      invariant meter.matchingWork <= meter.maxMatchingWork
      invariant meter.matchingWork + SegmentWork(tokens, t, text) == old(meter.matchingWork) + SegmentWork(tokens, 0, text)
    {
      RowIs(wild, Accepts, tokens[..t], text, previous);
      var next := TokenRow(tokens, t, text, previous, meter);
      if next.None? { return None; }
      previous := next.value;
    }
    assert tokens[..|tokens|] == tokens && text[..|text|] == text;
    return Some(previous[|text|]);
  }

  /** Fill the next row of the path table for one segment. */
  method SegmentRow(segments: seq<Segment>, s: nat, parts: seq<string>, previous: seq<bool>, meter: WorkMeter)
    returns (r: Option<seq<bool>>)
    requires s < |segments| && meter.matchingWork <= meter.maxMatchingWork
    requires RowOk((x: Segment) => x.Globstar?, SegmentTakes, segments[..s], parts, previous)
    modifies meter
    ensures Billed(old(meter.matchingWork), meter, RowWork(segments[s], parts, previous, 0), r.Some?)
    ensures r.Some? ==> RowOk((x: Segment) => x.Globstar?, SegmentTakes, segments[..s + 1], parts, r.value)
  {
    hide SegmentMeans, SegmentWork, SegmentTakes, PartWork;
    ghost var wild := (x: Segment) => x.Globstar?;
    var segment, next := segments[s], new bool[|parts| + 1](_ => false);
    assert segments[..s + 1] == segments[..s] + [segment];
    for i := 0 to |parts| + 1
      invariant next.Length == |parts| + 1
      invariant forall j :: 0 <= j < i ==> (next[j] <==> Means(wild, SegmentTakes, segments[..s + 1], parts[..j]))
      invariant meter.matchingWork <= meter.maxMatchingWork
      invariant meter.matchingWork + RowWork(segment, parts, previous, i) ==
                old(meter.matchingWork) + RowWork(segment, parts, previous, 0)
    {
      var cell := Part(segment, parts, previous, if i > 0 then next[i - 1] else false, i, meter);
      if cell.None? { return None; }
      if segment.Globstar? {
        WildCell(wild, SegmentTakes, segments[..s], segment, parts, i);
      } else {
        OneCell(wild, SegmentTakes, segments[..s], segment, parts, i);
      }
      next[i] := cell.value;
    }
    return Some(next[..]);
  }

  /** One cell of the path table. */
  method Part(segment: Segment, parts: seq<string>, previous: seq<bool>, left: bool, i: nat, meter: WorkMeter)
    returns (r: Option<bool>)
    requires i <= |parts| && |previous| == |parts| + 1 && meter.matchingWork <= meter.maxMatchingWork
    modifies meter
    ensures Billed(old(meter.matchingWork), meter, PartWork(segment, parts, previous, i), r.Some?)
    ensures r.Some? ==>
              r.value == if segment.Globstar? then previous[i] || (i > 0 && left)
                         else i > 0 && previous[i - 1] && SegmentTakes(segment, parts[i - 1])
  {
    hide SegmentMeans, SegmentWork;
    var ok := meter.Tick();
    if !ok { return None; }
    if segment.Globstar? { return Some(previous[i] || (i > 0 && left)); }
    if i == 0 || !previous[i - 1] { return Some(false); }
    r := SegmentMatches(segment.tokens, parts[i - 1], meter);
  }

  method PathMatches(segments: seq<Segment>, parts: seq<string>, meter: WorkMeter) returns (r: Option<bool>)
    requires meter.matchingWork <= meter.maxMatchingWork
    modifies meter
    ensures Billed(old(meter.matchingWork), meter, PathWork(segments, 0, parts), r.Some?)
    ensures r.Some? ==> r.value == PathMeans(segments, parts)
  {
    hide RowWork, RowOf, SegmentTakes;
    ghost var wild := (x: Segment) => x.Globstar?;
    var previous := [true] + seq(|parts|, _ => false);
    FirstRow(wild, SegmentTakes, parts, previous);
    assert segments[..0] == [];
    for s := 0 to |segments|
      invariant RowOk(wild, SegmentTakes, segments[..s], parts, previous)
      invariant meter.matchingWork <= meter.maxMatchingWork
      invariant meter.matchingWork + PathWork(segments, s, parts) == old(meter.matchingWork) + PathWork(segments, 0, parts)
    {
      RowIs(wild, SegmentTakes, segments[..s], parts, previous);
      var next := SegmentRow(segments, s, parts, previous, meter);
      if next.None? { return None; }
      previous := next.value;
    }
    assert segments[..|segments|] == segments && parts[..|parts|] == parts;
    return Some(previous[|parts|]);
  }

  /** `any`: whether some pattern matches the path. */
  method MatchesAny(patterns: seq<Pattern>, parts: seq<string>, isDirectory: bool, meter: WorkMeter) returns (r: Option<bool>)
    requires meter.matchingWork <= meter.maxMatchingWork
    modifies meter
    ensures Billed(old(meter.matchingWork), meter, AnyWork(patterns, 0, parts, isDirectory), r.Some?)
    ensures r.Some? ==> r.value == AnyMeans(patterns, parts, isDirectory)
  {
    hide PathWork, PathMeans;
    for k := 0 to |patterns|
      invariant forall j :: 0 <= j < k ==> !PatternMeans(patterns[j], parts, isDirectory)
      invariant meter.matchingWork <= meter.maxMatchingWork
      invariant meter.matchingWork + AnyWork(patterns, k, parts, isDirectory) ==
                old(meter.matchingWork) + AnyWork(patterns, 0, parts, isDirectory)
    {
      var ok := meter.Tick();
      if !ok { return None; }
      if !patterns[k].directory || isDirectory {
        var matched := PathMatches(patterns[k].segments, parts, meter);
        if matched.None? { return None; }
        if matched.value { return Some(true); }
      }
    }
    return Some(false);
  }

  datatype Verdict = Verdict(excluded: bool, included: bool)

  /**
   * `matches`: exclusion first; an excluded path is never included. The run fails exactly when the work it takes is
   * more than the budget has left.
   */
  method Matches(includes: seq<Pattern>, excludes: seq<Pattern>, parts: seq<string>, isDirectory: bool, meter: WorkMeter)
    returns (r: Option<Verdict>)
    requires meter.matchingWork <= meter.maxMatchingWork
    modifies meter
    ensures Billed(old(meter.matchingWork), meter, MatchWork(includes, excludes, parts, isDirectory), r.Some?)
    ensures r.Some? ==>
              && r.value.excluded == AnyMeans(excludes, parts, isDirectory)
              && r.value.included == (!AnyMeans(excludes, parts, isDirectory) && AnyMeans(includes, parts, isDirectory))
  {
    hide AnyWork, AnyMeans;
    var excluded := MatchesAny(excludes, parts, isDirectory, meter);
    if excluded.None? { return None; }
    if excluded.value { return Some(Verdict(true, false)); }
    var included := MatchesAny(includes, parts, isDirectory, meter);
    if included.None? { return None; }
    return Some(Verdict(false, included.value));
  }
}
