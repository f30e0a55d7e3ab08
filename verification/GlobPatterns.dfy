/**
 * What a compiled pattern matches, said by how a path is cut up: every token or segment of the pattern stands for a
 * stretch of the text or path, one behind another. The recursive meaning that the matcher is proved against says the
 * same.
 */
module GlobPatterns {
  import opened Basics
  import opened GlobMatch

  // ---------------------------------------------------------------- cutting up

  /** The items cut into one stretch for every step. */
  ghost predicate Cut<P, T>(steps: seq<P>, items: seq<T>, cuts: seq<seq<T>>) {
    |cuts| == |steps| && Flatten(cuts) == items
  }

  /** A wild step stands for any stretch, another step for a single item that it accepts. */
  ghost predicate Stands<P, T>(wild: P -> bool, ok: (P, T) -> bool, steps: seq<P>, cuts: seq<seq<T>>) {
    |cuts| == |steps| && forall i :: 0 <= i < |steps| ==> wild(steps[i]) || (|cuts[i]| == 1 && ok(steps[i], cuts[i][0]))
  }

  lemma {:induction false} MeansCuts<P, T>(wild: P -> bool, ok: (P, T) -> bool, steps: seq<P>, items: seq<T>)
    returns (cuts: seq<seq<T>>)
    requires Means(wild, ok, steps, items)
    ensures Cut(steps, items, cuts) && Stands(wild, ok, steps, cuts)
    decreases |steps|
  {
    if steps == [] {
      cuts := [];
    } else {
      var k: nat := 1;
      if wild(steps[0]) { k :| 0 <= k <= |items| && Means(wild, ok, steps[1..], items[k..]); }
      var rest := MeansCuts(wild, ok, steps[1..], items[k..]);
      cuts := [items[..k]] + rest;
      assert cuts[1..] == rest && items == items[..k] + items[k..];
    }
  }

  lemma {:induction false} CutsMean<P, T>(wild: P -> bool, ok: (P, T) -> bool, steps: seq<P>, items: seq<T>, cuts: seq<seq<T>>)
    requires Cut(steps, items, cuts) && Stands(wild, ok, steps, cuts)
    ensures Means(wild, ok, steps, items)
    decreases |steps|
  {
    if steps != [] {
      var first, rest := cuts[0], Flatten(cuts[1..]);
      assert items[..|first|] == first && items[|first|..] == rest;
      CutsMean(wild, ok, steps[1..], rest, cuts[1..]);
      if wild(steps[0]) {
        MeansWild(wild, ok, steps, items, |first|);
      } else {
        assert items[0] == first[0];
      }
    }
  }

  // ---------------------------------------------------------------- segments

  /** A star stands for any text, a question mark for one scalar, a literal for itself, a class for what it lists. */
  ghost predicate TokenStands(token: Token, text: string) {
    match token
    case Star => true
    case AnyScalar => |text| == 1
    case Literal(value) => text == [value]
    case Class(atoms, negate) =>
      |text| == 1 && (negate <==> !exists k :: 0 <= k < |atoms| && atoms[k].low <= text[0] as int <= atoms[k].high)
  }

  /** The text is what the tokens stand for, one behind another. */
  ghost predicate TextOf(tokens: seq<Token>, text: string) {
    exists cuts: seq<string> ::
      |cuts| == |tokens| && Flatten(cuts) == text && forall i :: 0 <= i < |tokens| ==> TokenStands(tokens[i], cuts[i])
  }

  lemma TokenAccepts(token: Token, cut: string)
    ensures TokenStands(token, cut) <==> token.Star? || (|cut| == 1 && Accepts(token, cut[0]))
  {
  }

  /** Main result: the matcher's meaning of a segment is that the text can be cut up so. */
  lemma SegmentMeansCut(tokens: seq<Token>, text: string)
    ensures SegmentMeans(tokens, text) <==> TextOf(tokens, text)
  {
    var wild := (t: Token) => t.Star?;
    forall token, cut ensures TokenStands(token, cut) <==> token.Star? || (|cut| == 1 && Accepts(token, cut[0])) {
      TokenAccepts(token, cut);
    }
    hide TokenStands, Accepts, Means, Flatten;
    if SegmentMeans(tokens, text) {
      var cuts := MeansCuts(wild, Accepts, tokens, text);
      assert forall i :: 0 <= i < |tokens| ==> TokenStands(tokens[i], cuts[i]);
    }
    if TextOf(tokens, text) {
      var cuts: seq<string> :| |cuts| == |tokens| && Flatten(cuts) == text
                               && forall i :: 0 <= i < |tokens| ==> TokenStands(tokens[i], cuts[i]);
      CutsMean(wild, Accepts, tokens, text, cuts);
    }
  }

  // ---------------------------------------------------------------- paths

  /** A globstar stands for any run of names, none included, any other segment for one name. */
  ghost predicate SegmentStands(segment: Segment, parts: seq<string>) {
    match segment
    case Globstar => true
    case Tokens(tokens) => |parts| == 1 && TextOf(tokens, parts[0])
  }

  /** The path is what the segments stand for; a pattern that ends with a slash takes directories only. */
  ghost predicate PathOf(p: Pattern, parts: seq<string>, isDirectory: bool) {
    && (p.directory ==> isDirectory)
    && exists cuts: seq<seq<string>> ::
         && |cuts| == |p.segments| && Flatten(cuts) == parts
         && forall i :: 0 <= i < |p.segments| ==> SegmentStands(p.segments[i], cuts[i])
  }

  lemma SegmentAccepts(segment: Segment, cut: seq<string>)
    ensures SegmentStands(segment, cut) <==> segment.Globstar? || (|cut| == 1 && SegmentTakes(segment, cut[0]))
  {
    if segment.Tokens? && |cut| == 1 { SegmentMeansCut(segment.tokens, cut[0]); }
  }

  /** Main result: the matcher's meaning of a pattern is that the path can be cut up so. */
  lemma PatternMeansCut(p: Pattern, parts: seq<string>, isDirectory: bool)
    ensures PatternMeans(p, parts, isDirectory) <==> PathOf(p, parts, isDirectory)
  {
    var wild, steps := (s: Segment) => s.Globstar?, p.segments;
    forall segment, cut ensures SegmentStands(segment, cut) <==> segment.Globstar? || (|cut| == 1 && SegmentTakes(segment, cut[0])) {
      SegmentAccepts(segment, cut);
    }
    hide SegmentStands, SegmentTakes, Means, Flatten;
    if PathMeans(steps, parts) {
      var cuts := MeansCuts(wild, SegmentTakes, steps, parts);
      assert forall i :: 0 <= i < |steps| ==> SegmentStands(steps[i], cuts[i]);
    }
    if cuts: seq<seq<string>> :| |cuts| == |steps| && Flatten(cuts) == parts
                                 && forall i :: 0 <= i < |steps| ==> SegmentStands(steps[i], cuts[i]) {
      CutsMean(wild, SegmentTakes, steps, parts, cuts);
    }
  }

  // ---------------------------------------------------------------- the work

  predicate InRange(atom: Atom, point: int) { atom.low <= point <= atom.high }

  /** A class takes one unit for every range tried: up to the first that holds the scalar, at `j`, or all of them. */
  lemma {:induction false} ClassWorkMeans(atoms: seq<Atom>, point: int, k: nat, j: nat)
    requires k <= j <= |atoms| && (j < |atoms| ==> InRange(atoms[j], point))
    requires forall m :: k <= m < j ==> !InRange(atoms[m], point)
    ensures ClassWork(atoms, point, k) == j - k + if j < |atoms| then 1 else 0
    decreases j - k
  {
    if k < j { ClassWorkMeans(atoms, point, k + 1, j); }
  }

  /** The sum of `f` from `k` to `n`. */
  ghost function SumFrom(k: nat, n: nat, f: nat -> nat): nat
    decreases n - k
  {
    if k >= n then 0 else f(k) + SumFrom(k + 1, n, f)
  }

  /** A class is asked about a scalar exactly when the tokens before it match what stands before the scalar. */
  ghost function Tried(tokens: seq<Token>, text: string, t: nat, i: nat): nat {
    if t < |tokens| && i < |text| && tokens[t].Class? && SegmentMeans(tokens[..t], text[..i])
    then ClassWork(tokens[t].atoms, text[i] as int, 0)
    else 0
  }

  ghost function TriedBy(tokens: seq<Token>, text: string, t: nat): nat {
    SumFrom(0, |text|, i => Tried(tokens, text, t, i))
  }

  /** The other prefixes of the text, the empty one too, take a unit each. */
  lemma {:induction false} TokenWorkSum(token: Token, text: string, previous: seq<bool>, i: nat, f: nat -> nat)
    requires 1 <= i <= |text| + 1 && |previous| == |text| + 1
    requires forall j :: 0 <= j < |text| ==>
                           f(j) == if token.Class? && previous[j] then ClassWork(token.atoms, text[j] as int, 0) else 0
    ensures TokenWork(token, text, previous, i) == |text| + 1 - i + SumFrom(i - 1, |text|, f)
    decreases |text| + 1 - i
  {
    hide ClassWork;
    if i <= |text| {
      TokenWorkSum(token, text, previous, i + 1, f);
      assert CellWork(token, text, previous, i) == 1 + f(i - 1);
    }
  }

  lemma {:induction false} SegmentWorkSum(tokens: seq<Token>, t: nat, text: string)
    requires t <= |tokens|
    ensures SegmentWork(tokens, t, text) ==
            (|tokens| - t) * (|text| + 1) + SumFrom(t, |tokens|, k => TriedBy(tokens, text, k))
    decreases |tokens| - t
  {
    if t < |tokens| {
      var row, f := RowOf((x: Token) => x.Star?, Accepts, tokens[..t], text), (i: nat) => Tried(tokens, text, t, i);
      assert TokenWork(tokens[t], text, row, 0) == 1 + TokenWork(tokens[t], text, row, 1);
      TokenWorkSum(tokens[t], text, row, 1, f);
      hide TokenWork, RowOf, Means, ClassWork, Tried;
      SegmentWorkSum(tokens, t + 1, text);
      assert (|tokens| - t) * (|text| + 1) == (|text| + 1) + (|tokens| - (t + 1)) * (|text| + 1);
    }
  }

  /**
   * Main result: a segment takes one unit for each cell of its table, and besides one for every range that a class
   * tries on a scalar that comes after a matched prefix.
   */
  lemma SegmentWorkMeans(tokens: seq<Token>, text: string)
    ensures SegmentWork(tokens, 0, text) ==
            |tokens| * (|text| + 1) + SumFrom(0, |tokens|, t => SumFrom(0, |text|, i => Tried(tokens, text, t, i)))
  {
    SegmentWorkSum(tokens, 0, text);
    SumSame(0, |tokens|, t => TriedBy(tokens, text, t), t => SumFrom(0, |text|, i => Tried(tokens, text, t, i)));
  }

  lemma {:induction false} SumSame(k: nat, n: nat, f: nat -> nat, g: nat -> nat)
    requires forall j :: k <= j < n ==> f(j) == g(j)
    ensures SumFrom(k, n, f) == SumFrom(k, n, g)
    decreases n - k
  {
    if k < n { SumSame(k + 1, n, f, g); }
  }

  /** A segment is asked about a part exactly when the segments before it match what stands before the part. */
  ghost function AskedOf(segments: seq<Segment>, parts: seq<string>, s: nat, i: nat): nat {
    if s < |segments| && i < |parts| && segments[s].Tokens? && PathMeans(segments[..s], parts[..i])
    then SegmentWork(segments[s].tokens, 0, parts[i])
    else 0
  }

  ghost function AskedBy(segments: seq<Segment>, parts: seq<string>, s: nat): nat {
    SumFrom(0, |parts|, i => AskedOf(segments, parts, s, i))
  }

  lemma {:induction false} RowWorkSum(segment: Segment, parts: seq<string>, previous: seq<bool>, i: nat, f: nat -> nat)
    requires 1 <= i <= |parts| + 1 && |previous| == |parts| + 1
    requires forall j :: 0 <= j < |parts| ==>
                           f(j) == if segment.Tokens? && previous[j] then SegmentWork(segment.tokens, 0, parts[j]) else 0
    ensures RowWork(segment, parts, previous, i) == |parts| + 1 - i + SumFrom(i - 1, |parts|, f)
    decreases |parts| + 1 - i
  {
    hide SegmentWork;
    if i <= |parts| {
      RowWorkSum(segment, parts, previous, i + 1, f);
      assert PartWork(segment, parts, previous, i) == 1 + f(i - 1);
    }
  }

  lemma {:induction false} PathWorkSum(segments: seq<Segment>, s: nat, parts: seq<string>)
    requires s <= |segments|
    ensures PathWork(segments, s, parts) ==
            (|segments| - s) * (|parts| + 1) + SumFrom(s, |segments|, k => AskedBy(segments, parts, k))
    decreases |segments| - s
  {
    if s < |segments| {
      var row, f := RowOf((x: Segment) => x.Globstar?, SegmentTakes, segments[..s], parts), (i: nat) => AskedOf(segments, parts, s, i);
      assert RowWork(segments[s], parts, row, 0) == 1 + RowWork(segments[s], parts, row, 1);
      RowWorkSum(segments[s], parts, row, 1, f);
      hide RowWork, RowOf, Means, SegmentWork, AskedOf;
      PathWorkSum(segments, s + 1, parts);
      assert (|segments| - s) * (|parts| + 1) == (|parts| + 1) + (|segments| - (s + 1)) * (|parts| + 1);
    }
  }

  /**
   * Main result: a path takes one unit for each cell of the path table, and besides the work of every segment asked
   * about a part that comes after a matched prefix.
   */
  lemma PathWorkMeans(segments: seq<Segment>, parts: seq<string>)
    ensures PathWork(segments, 0, parts) ==
            |segments| * (|parts| + 1)
            + SumFrom(0, |segments|, s => SumFrom(0, |parts|, i => AskedOf(segments, parts, s, i)))
  {
    PathWorkSum(segments, 0, parts);
    SumSame(0, |segments|, s => AskedBy(segments, parts, s), s => SumFrom(0, |parts|, i => AskedOf(segments, parts, s, i)));
  }

  /** A pattern takes one unit, and the work of its path unless it takes directories only and is asked about something else. */
  ghost function PatternWork(patterns: seq<Pattern>, parts: seq<string>, isDirectory: bool, k: nat): nat {
    if k < |patterns| && (patterns[k].directory ==> isDirectory)
    then 1 + PathWork(patterns[k].segments, 0, parts)
    else 1
  }

  lemma {:induction false} AnyWorkFrom(patterns: seq<Pattern>, k: nat, n: nat, parts: seq<string>, isDirectory: bool)
    requires k <= n <= |patterns|
    requires forall j :: k <= j < n - 1 ==> !PatternMeans(patterns[j], parts, isDirectory)
    requires k < n ==> n == |patterns| || PatternMeans(patterns[n - 1], parts, isDirectory)
    requires k == n ==> n == |patterns|
    ensures AnyWork(patterns, k, parts, isDirectory) == SumFrom(k, n, j => PatternWork(patterns, parts, isDirectory, j))
    decreases n - k
  {
    hide PathWork, PatternMeans;
    if k < n && !PatternMeans(patterns[k], parts, isDirectory) {
      AnyWorkFrom(patterns, k + 1, n, parts, isDirectory);
    }
  }

  /** Main result: the patterns up to the first that matches are asked, and no others. */
  lemma AnyWorkMeans(patterns: seq<Pattern>, n: nat, parts: seq<string>, isDirectory: bool)
    requires n <= |patterns| && forall j :: 0 <= j < n - 1 ==> !PatternMeans(patterns[j], parts, isDirectory)
    requires n == |patterns| || (n > 0 && PatternMeans(patterns[n - 1], parts, isDirectory))
    ensures AnyWork(patterns, 0, parts, isDirectory) == SumFrom(0, n, k => PatternWork(patterns, parts, isDirectory, k))
  {
    AnyWorkFrom(patterns, 0, n, parts, isDirectory);
  }

  /** An excluded path takes the work of the excludes, any other that of both. */
  lemma MatchWorkMeans(includes: seq<Pattern>, excludes: seq<Pattern>, parts: seq<string>, isDirectory: bool)
    ensures (exists k :: 0 <= k < |excludes| && PathOf(excludes[k], parts, isDirectory)) ==>
              MatchWork(includes, excludes, parts, isDirectory) == AnyWork(excludes, 0, parts, isDirectory)
    ensures (forall k :: 0 <= k < |excludes| ==> !PathOf(excludes[k], parts, isDirectory)) ==>
              MatchWork(includes, excludes, parts, isDirectory) ==
              AnyWork(excludes, 0, parts, isDirectory) + AnyWork(includes, 0, parts, isDirectory)
  {
    hide PathOf, AnyWork, PatternMeans;
    forall p <- excludes ensures PatternMeans(p, parts, isDirectory) <==> PathOf(p, parts, isDirectory) {
      PatternMeansCut(p, parts, isDirectory);
    }
  }

  /** An empty list of patterns takes no path. */
  lemma AnyMeansCut(patterns: seq<Pattern>, parts: seq<string>, isDirectory: bool)
    ensures AnyMeans(patterns, parts, isDirectory) <==> exists p <- patterns :: PathOf(p, parts, isDirectory)
  {
    hide PathOf, PatternMeans;
    forall p <- patterns ensures PatternMeans(p, parts, isDirectory) <==> PathOf(p, parts, isDirectory) {
      PatternMeansCut(p, parts, isDirectory);
    }
  }
}
