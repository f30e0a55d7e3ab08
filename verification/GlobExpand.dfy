/**
 * The brace worklist of `internal/glob.ts`: pop a value, expand its first choice, push the alternatives back. It emits
 * exactly the strings the nesting stands for, in order, and refuses a source exactly when they are too many.
 */
module GlobExpand {
  import opened Basics
  import opened GlobBraces
  import opened GlobScan

  // ---------------------------------------------------------------- the text of the alternatives

  function Bounds(ch: Choice): seq<nat> {
    [ch.start] + ch.commas + [ch.end]
  }

  /** `x` is the text with everything from position `s` to `e` replaced by what lies between `from` and `to`. */
  ghost predicate CutOut(t: seq<Tok>, s: nat, e: nat, from: nat, to: nat, x: seq<Tok>) {
    && s <= from < to <= e < |t|
    && t[s].role != Plain && t[e].role != Plain && t[from].role != Plain && t[to].role != Plain
    && x == t[..s] + t[from + 1..to] + t[e + 1..]
  }

  /** `x` is the text around the choice with its `k`-th alternative in place; `i` is where the text starts. */
  ghost predicate IsAlternative(t: seq<Tok>, i: nat, ch: Choice, k: nat, x: seq<Tok>)
    requires k <= |ch.commas|
  {
    var from, to := Bounds(ch)[k], Bounds(ch)[k + 1];
    && i <= ch.start <= from < to <= ch.end
    && CutOut(t, ch.start - i, ch.end - i, from - i, to - i, x)
  }

  ghost predicate AreAlternatives(t: seq<Tok>, i: nat, ch: Choice, ts: seq<Items>) {
    |ts| == |ch.commas| + 1 && forall k :: 0 <= k < |ts| ==> IsAlternative(t, i, ch, k, Text(ts[k]))
  }

  /** Text on both sides of a choice goes along with every alternative. */
  lemma Around(a: seq<Tok>, t: seq<Tok>, c: seq<Tok>, i: nat, ch: Choice, ts: seq<Items>, us: seq<Items>)
    requires AreAlternatives(t, i + |a|, ch, ts) && |us| == |ts|
    requires forall k :: 0 <= k < |ts| ==> Text(us[k]) == a + Text(ts[k]) + c
    ensures AreAlternatives(a + t + c, i, ch, us)
  {
    forall k | 0 <= k < |us| ensures IsAlternative(a + t + c, i, ch, k, Text(us[k])) {
      AroundOne(a, t, c, i, ch, k, Text(ts[k]));
    }
  }

  lemma AroundOne(a: seq<Tok>, t: seq<Tok>, c: seq<Tok>, i: nat, ch: Choice, k: nat, x: seq<Tok>)
    requires k <= |ch.commas| && IsAlternative(t, i + |a|, ch, k, x)
    ensures IsAlternative(a + t + c, i, ch, k, a + x + c)
  {
    var from, to, j := Bounds(ch)[k], Bounds(ch)[k + 1], i + |a|;
    hide CutOut;
    CutAround(a, t, c, ch.start - j, ch.end - j, from - j, to - j, x);
  }

  lemma CutAround(a: seq<Tok>, t: seq<Tok>, c: seq<Tok>, s: nat, e: nat, from: nat, to: nat, x: seq<Tok>)
    requires CutOut(t, s, e, from, to, x)
    ensures CutOut(a + t + c, |a| + s, |a| + e, |a| + from, |a| + to, a + x + c)
  {
    SlicesAround(a, t, c, s, s);
    SlicesAround(a, t, c, e, e + 1);
    SlicesAround(a, t, c, from, to);
    SlicesAround(a, t, c, from + 1, to);
    JoinAround(a, t[..s], t[from + 1..to], t[e + 1..], c);
  }

  lemma SlicesAround(a: seq<Tok>, t: seq<Tok>, c: seq<Tok>, x: nat, y: nat)
    requires x <= y <= |t|
    ensures var w := a + t + c;
            && w[..|a| + x] == a + t[..x] && w[|a| + x..|a| + y] == t[x..y] && w[|a| + y..] == t[y..] + c
            && (x < |t| ==> w[|a| + x] == t[x]) && (y < |t| ==> w[|a| + y] == t[y])
  {
  }

  lemma JoinAround(a: seq<Tok>, x: seq<Tok>, y: seq<Tok>, z: seq<Tok>, c: seq<Tok>)
    ensures a + (x + y + z) + c == (a + x) + y + (z + c)
  {
  }

  /** Where the `k`-th alternative starts and ends, when the first one starts at `i`. */
  function StartOf(a: Alts, i: nat, k: nat): nat
    requires k < |AltList(a)|
    decreases k
  {
    if k == 0 then i else StartOf(a.others, i + |Text(a.body)| + 1, k - 1)
  }

  function EndOf(a: Alts, i: nat, k: nat): nat
    requires k < |AltList(a)|
    decreases k
  {
    if k == 0 then i + |Text(a.body)| else EndOf(a.others, i + |Text(a.body)| + 1, k - 1)
  }

  lemma AltsCut(a: Alts)
    requires a.More?
    ensures var t, n := AltsText(a), |Text(a.body)|; n < |t| && t[..n] == Text(a.body) && t[n] == COMMA && t[n + 1..] == AltsText(a.others)
  {
  }

  lemma SliceShift(t: seq<Tok>, m: nat, x: nat, y: nat)
    requires m <= |t| && x <= y <= |t| - m
    ensures t[m..][x..y] == t[m + x..m + y]
  {
  }

  /** The alternatives of a brace lie between its commas. */
  lemma {:induction false} AltPieces(a: Alts, i: nat, k: nat)
    requires k < |AltList(a)|
    ensures var t := AltsText(a);
            && i <= StartOf(a, i, k) <= EndOf(a, i, k) <= i + |t|
            && Text(AltList(a)[k]) == t[StartOf(a, i, k) - i..EndOf(a, i, k) - i]
    decreases k
  {
    hide *;
    if a.Last? {
      OnlyPiece(a, i, k);
    } else {
      var t, n := AltsText(a), |Text(a.body)|;
      AltsCut(a);
      AltsStep(a, i, k);
      if k > 0 {
        AltPieces(a.others, i + n + 1, k - 1);
        SliceShift(t, n + 1, StartOf(a, i, k) - (i + n + 1), EndOf(a, i, k) - (i + n + 1));
      } else {
        assert t[0..n] == t[..n];
      }
    }
  }

  lemma OnlyPiece(a: Alts, i: nat, k: nat)
    requires k < |AltList(a)| && a.Last?
    ensures var t := AltsText(a);
            i == StartOf(a, i, k) && EndOf(a, i, k) == i + |t| && Text(AltList(a)[k]) == t[StartOf(a, i, k) - i..EndOf(a, i, k) - i]
  {
    assert AltsText(a)[0..|AltsText(a)|] == AltsText(a);
    hide Text;
  }

  lemma AltsStep(a: Alts, i: nat, k: nat)
    requires k < |AltList(a)| && a.More?
    ensures k == 0 ==> AltList(a)[k] == a.body && StartOf(a, i, k) == i && EndOf(a, i, k) == i + |Text(a.body)|
    ensures k > 0 ==>
              var j := i + |Text(a.body)| + 1;
              && k - 1 < |AltList(a.others)| && AltList(a)[k] == AltList(a.others)[k - 1]
              && StartOf(a, i, k) == StartOf(a.others, j, k - 1) && EndOf(a, i, k) == EndOf(a.others, j, k - 1)
  {
    hide Text;
  }

  lemma {:induction false} CommaPlaces(a: Alts, i: nat, k: nat)
    requires k < |AltList(a)|
    ensures |AltList(a)| == |CommasOf(a, i)| + 1
    ensures k < |CommasOf(a, i)| ==> CommasOf(a, i)[k] == EndOf(a, i, k) < i + |AltsText(a)|
                                     && i <= EndOf(a, i, k) && AltsText(a)[EndOf(a, i, k) - i] == COMMA
                                     && StartOf(a, i, k + 1) == EndOf(a, i, k) + 1
    ensures k == |CommasOf(a, i)| ==> EndOf(a, i, k) == i + |AltsText(a)|
    decreases a
  {
    if a.More? {
      AltsCut(a);
      var n, t := |Text(a.body)|, AltsText(a);
      assert CommasOf(a, i) == [i + n] + CommasOf(a.others, i + n + 1);
      assert |t| == n + 1 + |AltsText(a.others)|;
      hide AltsText, Text;
      CommaPlaces(a.others, i + n + 1, if k > 0 then k - 1 else 0);
      if 0 < k < |CommasOf(a, i)| {
        var e := EndOf(a.others, i + n + 1, k - 1);
        assert t[n + 1..][e - (i + n + 1)] == t[e - i];
      }
    }
  }

  lemma {:induction false} MapAppendAt(ts: seq<Items>, rest: Items, k: nat)
    requires k < |ts|
    ensures Text(MapAppend(ts, rest)[k]) == Text(ts[k]) + Text(rest)
    decreases |ts|
  {
    if k == 0 { AppendText(ts[0], rest); } else { MapAppendAt(ts[1..], rest, k - 1); }
  }

  lemma OuterChoice(alts: Alts, rest: Items, i: nat)
    requires alts.More?
    ensures AreAlternatives(Text(Brace(alts, rest)), i, FirstChoice(Brace(alts, rest), i).value, MapAppend(AltList(alts), rest))
  {
    var p := Brace(alts, rest);
    var ch, t, n := FirstChoice(p, i).value, Text(p), |AltsText(alts)|;
    CommaPlaces(alts, i + 1, 0);
    TextOfBrace(alts, rest);
    hide Text, AltsText, IsAlternative;
    assert ch == Choice(i, i + 1 + n, CommasOf(alts, i + 1));
    forall k | 0 <= k < |AltList(alts)| ensures IsAlternative(t, i, ch, k, Text(MapAppend(AltList(alts), rest)[k])) {
      AltPieces(alts, i + 1, k);
      MapAppendAt(AltList(alts), rest, k);
      OuterPiece(alts, rest, i, k);
    }
  }

  lemma OuterPiece(alts: Alts, rest: Items, i: nat, k: nat)
    requires alts.More? && k < |AltList(alts)|
    ensures |AltList(alts)| == |CommasOf(alts, i + 1)| + 1
    ensures IsAlternative(Text(Brace(alts, rest)), i, Choice(i, i + 1 + |AltsText(alts)|, CommasOf(alts, i + 1)), k,
                          Text(AltList(alts)[k]) + Text(rest))
  {
    hide Text, AltsText, CommasOf, StartOf, EndOf, IsAlternative, AltList;
    AltPieces(alts, i + 1, k);
    CommaPlaces(alts, i + 1, k);
    if k > 0 { CommaPlaces(alts, i + 1, k - 1); }
    FirstStart(alts, i + 1);
    TextOfBrace(alts, rest);
    var t, from, to := AltsText(alts), StartOf(alts, i + 1, k), EndOf(alts, i + 1, k);
    PieceIsAlternative(t, Text(rest), i, CommasOf(alts, i + 1), k, from, to);
    assert Text(AltList(alts)[k]) == t[from - (i + 1)..to - (i + 1)];
  }

  lemma FirstStart(a: Alts, i: nat)
    ensures StartOf(a, i, 0) == i
  {
  }

  lemma PieceIsAlternative(t: seq<Tok>, rest: seq<Tok>, i: nat, commas: seq<nat>, k: nat, from: nat, to: nat)
    requires k <= |commas| && i + 1 <= from <= to <= i + 1 + |t|
    requires if k == 0 then from == i + 1
             else from == commas[k - 1] + 1 && commas[k - 1] - (i + 1) >= 0 && t[commas[k - 1] - (i + 1)] == COMMA
    requires if k == |commas| then to == i + 1 + |t|
             else to == commas[k] < i + 1 + |t| && t[to - (i + 1)] == COMMA
    ensures IsAlternative([OPEN] + (t + ([CLOSE] + rest)), i, Choice(i, i + 1 + |t|, commas), k,
                          t[from - (i + 1)..to - (i + 1)] + rest)
  {
    var w := [OPEN] + (t + ([CLOSE] + rest));
    var ch := Choice(i, i + 1 + |t|, commas);
    assert Bounds(ch)[k] == if k == 0 then i else commas[k - 1];
    assert Bounds(ch)[k + 1] == if k == |commas| then i + 1 + |t| else commas[k];
    BracePiece(t, rest, i, from, to);
    if k > 0 { assert w[from - 1 - i] == t[from - 1 - (i + 1)]; }
    if k < |commas| { assert w[to - i] == t[to - (i + 1)]; }
  }

  lemma BracePiece(t: seq<Tok>, rest: seq<Tok>, i: nat, from: nat, to: nat)
    requires i + 1 <= from <= to <= i + 1 + |t|
    ensures var w := [OPEN] + (t + ([CLOSE] + rest));
            && w[0] == OPEN && w[1 + |t|] == CLOSE
            && t[from - (i + 1)..to - (i + 1)] + rest == w[..0] + w[from - i..to - i] + w[|t| + 2..]
  {
    BraceSlices([OPEN], t, [CLOSE], rest, from - i - 1, to - i - 1);
  }

  lemma BraceSlices(a: seq<Tok>, t: seq<Tok>, b: seq<Tok>, rest: seq<Tok>, x: nat, y: nat)
    requires |a| == 1 && |b| == 1 && x <= y <= |t|
    ensures var w := a + (t + (b + rest));
            && w[0] == a[0] && w[1 + |t|] == b[0] && w[..0] == [] && w[x + 1..y + 1] == t[x..y] && w[|t| + 2..] == rest
            && t[x..y] + rest == w[..0] + w[x + 1..y + 1] + w[|t| + 2..]
  {
    var w := a + (t + (b + rest));
    assert w[x + 1..y + 1] == t[x..y];
    assert w[|t| + 2..] == rest;
    assert w[..0] + t[x..y] == t[x..y];
  }

  lemma {:induction false} MapCharAt(tok: Tok, ts: seq<Items>, k: nat)
    requires k < |ts|
    ensures Text(MapChar(tok, ts)[k]) == [tok] + Text(ts[k])
    decreases |ts|
  {
    if k > 0 { MapCharAt(tok, ts[1..], k - 1); }
  }

  lemma {:induction false} MapBodyAt(ts: seq<Items>, rest: Items, k: nat)
    requires k < |ts|
    ensures Text(MapBody(ts, rest)[k]) == [OPEN] + Text(ts[k]) + ([CLOSE] + Text(rest))
    decreases |ts|
  {
    if k > 0 { MapBodyAt(ts[1..], rest, k - 1); } else { TextOfBrace(Last(ts[0]), rest); }
  }

  lemma {:induction false} MapRestAt(alts: Alts, ts: seq<Items>, k: nat)
    requires k < |ts|
    ensures Text(MapRest(alts, ts)[k]) == [OPEN] + AltsText(alts) + [CLOSE] + Text(ts[k])
    decreases |ts|
  {
    if k > 0 { MapRestAt(alts, ts[1..], k - 1); }
  }

  /** The parts `Split` makes have the texts the source cuts out of the value. */
  lemma {:induction false} SplitTexts(p: Items, i: nat)
    requires HasChoice(p)
    ensures AreAlternatives(Text(p), i, FirstChoice(p, i).value, Split(p))
  {
    hide AreAlternatives, AltsText;
    match p
    case Char(tok, rest) =>
      SplitTexts(rest, i + 1);
      forall k | 0 <= k < |Split(rest)| ensures Text(Split(p)[k]) == [tok] + Text(Split(rest)[k]) + [] {
        MapCharAt(tok, Split(rest), k);
      }
      Around([tok], Text(rest), [], i, FirstChoice(rest, i + 1).value, Split(rest), Split(p));
      assert [tok] + Text(rest) + [] == Text(p);
    case Brace(More(_, _), rest) =>
      OuterChoice(p.alts, rest, i);
    case Brace(Last(body), rest) =>
      TextOfBrace(p.alts, rest);
      LastText(body);
      if HasChoice(body) {
        SplitTexts(body, i + 1);
        forall k | 0 <= k < |Split(body)| ensures Text(Split(p)[k]) == [OPEN] + Text(Split(body)[k]) + ([CLOSE] + Text(rest)) {
          MapBodyAt(Split(body), rest, k);
        }
        Around([OPEN], Text(body), [CLOSE] + Text(rest), i, FirstChoice(body, i + 1).value, Split(body), Split(p));
        assert [OPEN] + Text(body) + ([CLOSE] + Text(rest)) == Text(p);
      } else {
        SplitTexts(rest, i + 2 + |Text(body)|);
        var before := [OPEN] + Text(body) + [CLOSE];
        forall k | 0 <= k < |Split(rest)| ensures Text(Split(p)[k]) == before + Text(Split(rest)[k]) + [] {
          MapRestAt(p.alts, Split(rest), k);
        }
        Around(before, Text(rest), [], i, FirstChoice(rest, i + 2 + |Text(body)|).value, Split(rest), Split(p));
        assert before + Text(rest) + [] == Text(p);
      }
  }

  lemma LastText(body: Items)
    ensures AltsText(Last(body)) == Text(body)
  {
  }

  lemma {:induction false} SplitNested(p: Items, deep: bool, k: nat)
    requires HasChoice(p) && Nested(p, deep) && k < |Split(p)|
    ensures Nested(Split(p)[k], deep)
    decreases p
  {
    match p
    case Char(tok, rest) =>
      SplitNested(rest, deep, k);
      assert MapChar(tok, Split(rest))[k] == Char(tok, Split(rest)[k]) by { MapCharIs(tok, Split(rest), k); }
    case Brace(More(_, _), rest) =>
      AltListNested(p.alts, k);
      MapAppendIs(AltList(p.alts), rest, k);
      AppendText(AltList(p.alts)[k], rest);
    case Brace(Last(body), rest) =>
      if HasChoice(body) {
        SplitNested(body, true, k);
        MapBodyIs(Split(body), rest, k);
      } else {
        SplitNested(rest, deep, k);
        MapRestIs(p.alts, Split(rest), k);
      }
  }

  lemma {:induction false} AltListNested(a: Alts, k: nat)
    requires NestedAlts(a) && k < |AltList(a)|
    ensures Nested(AltList(a)[k], true)
    decreases a
  {
    if k > 0 { AltListNested(a.others, k - 1); }
  }

  lemma {:induction false} MapCharIs(tok: Tok, ts: seq<Items>, k: nat)
    requires k < |ts|
    ensures MapChar(tok, ts)[k] == Char(tok, ts[k])
    decreases |ts|
  {
    if k > 0 { MapCharIs(tok, ts[1..], k - 1); }
  }

  lemma {:induction false} MapAppendIs(ts: seq<Items>, rest: Items, k: nat)
    requires k < |ts|
    ensures MapAppend(ts, rest)[k] == Append(ts[k], rest)
    decreases |ts|
  {
    if k > 0 { MapAppendIs(ts[1..], rest, k - 1); }
  }

  lemma {:induction false} MapBodyIs(ts: seq<Items>, rest: Items, k: nat)
    requires k < |ts|
    ensures MapBody(ts, rest)[k] == Brace(Last(ts[k]), rest)
    decreases |ts|
  {
    if k > 0 { MapBodyIs(ts[1..], rest, k - 1); }
  }

  lemma {:induction false} MapRestIs(alts: Alts, ts: seq<Items>, k: nat)
    requires k < |ts|
    ensures MapRest(alts, ts)[k] == Brace(alts, ts[k])
    decreases |ts|
  {
    if k > 0 { MapRestIs(alts, ts[1..], k - 1); }
  }

  /** What the source pushes for an alternative is labelled as the alternative is. */
  lemma AlternativeLabel(value: string, ch: Choice, k: nat, x: seq<Tok>)
    requires k <= |ch.commas| && IsAlternative(Label(value), 0, ch, k, x)
    ensures Label(value[..ch.start] + value[Bounds(ch)[k] + 1..Bounds(ch)[k + 1]] + value[ch.end + 1..]) == x
  {
    hide LabelFrom, EndMode;
    var from, to := Bounds(ch)[k], Bounds(ch)[k + 1];
    var a, b, c := value[..ch.start], value[from + 1..to], value[ch.end + 1..];
    CleanStretch(value, 0, ch.start);
    CleanStretch(value, from + 1, to);
    CleanStretch(value, ch.end + 1, |value|);
    assert value[0..ch.start] == a && value[ch.end + 1..|value|] == c;
    LabelAppend(CLEAN, a, b);
    LabelAppend(CLEAN, a + b, c);
    assert Label(value)[0..ch.start] == Label(value)[..ch.start];
    assert Label(value)[ch.end + 1..|value|] == Label(value)[ch.end + 1..];
  }

  // ---------------------------------------------------------------- the worklist

  /** `t` is the nesting of `value`. */
  ghost predicate NestingOf(value: string, p: Items) {
    Nested(p, false) && Text(p) == Label(value)
  }

  /** The nestings of the pending values, and what they all stand for, the last value first. */
  ghost predicate Nestings(values: seq<string>, ps: seq<Items>) {
    |values| == |ps| && forall i :: 0 <= i < |values| ==> NestingOf(values[i], ps[i])
  }

  ghost function Pending(ps: seq<Items>): (r: seq<string>)
    ensures |r| >= |ps|
  {
    if ps == [] then [] else Expand(ps[|ps| - 1]) + Pending(ps[..|ps| - 1])
  }

  lemma PendingPush(ps: seq<Items>, p: Items)
    ensures Pending(ps + [p]) == Expand(p) + Pending(ps)
  {
    assert (ps + [p])[..|ps|] == ps;
  }

  lemma NestingIsExpanded(value: string, p: Items)
    requires NestingOf(value, p) && !HasChoice(p)
    ensures Expand(p) == [value]
  {
    ExpandLiteral(p);
    CharsLabel(CLEAN, value);
  }

  /** The alternatives pushed so far, last one first. */
  lemma PushedPending(ps: seq<Items>, ts: seq<Items>, i: nat)
    requires i < |ts|
    ensures ExpandAll(ts[i..]) == Expand(ts[i]) + ExpandAll(ts[i + 1..])
  {
    assert ts[i..][1..] == ts[i + 1..];
  }

  lemma ExpandNone()
    ensures ExpandAll([]) == []
  {
  }

  /** What the source pushes for the `i`-th alternative is a value with the nesting of that alternative. */
  lemma PushedValue(value: string, p: Items, choice: Choice, i: nat)
    requires NestingOf(value, p) && FirstChoice(p, 0) == Some(choice) && i <= |choice.commas|
    ensures |Split(p)| == |choice.commas| + 1
    ensures choice.start <= Bounds(choice)[i] < Bounds(choice)[i + 1] <= choice.end < |value|
    ensures NestingOf(value[..choice.start] + value[Bounds(choice)[i] + 1..Bounds(choice)[i + 1]] + value[choice.end + 1..],
                      Split(p)[i])
  {
    hide Expand, Split, FirstChoice, Text, Nested, Label;
    SplitTexts(p, 0);
    assert IsAlternative(Label(value), 0, choice, i, Text(Split(p)[i]));
    AlternativeLabel(value, choice, i, Text(Split(p)[i]));
    SplitNested(p, false, i);
  }

  /** Push the alternatives of a choice, last one first, so that the first one is popped next. */
  method PushAlternatives(value: string, choice: Choice, rest: seq<string>, ghost p: Items, ghost below: seq<Items>)
    returns (pending: seq<string>, ghost ps: seq<Items>)
    requires NestingOf(value, p) && FirstChoice(p, 0) == Some(choice) && Nestings(rest, below)
    ensures Nestings(pending, ps) && |ps| == |below| + |choice.commas| + 1
    ensures Pending(ps) == Expand(p) + Pending(below)
  {
    hide *;
    BoundsCount(choice);
    PushedValue(value, p, choice, 0);
    SplitExpand(p);
    ExpandNone();
    ghost var ts := Split(p);
    var boundaries := Bounds(choice);
    pending, ps := rest, below;
    var i := |boundaries| - 1;
    assert ts[i..] == [] && [] + Pending(below) == Pending(below);
    while i > 0
      invariant 0 <= i <= |ts| == |boundaries| - 1
      invariant Nestings(pending, ps) && |ps| == |below| + |ts| - i
      invariant Pending(ps) == ExpandAll(ts[i..]) + Pending(below)
    {
      i := i - 1;
      PushedValue(value, p, choice, i);
      var part := value[..choice.start] + value[boundaries[i] + 1..boundaries[i + 1]] + value[choice.end + 1..];
      PendingPush(ps, ts[i]);
      PushedPending(ps, ts, i);
      PushNesting(pending, ps, part, ts[i]);
      assert Pending(ps + [ts[i]]) == ExpandAll(ts[i..]) + Pending(below) by {
        RegroupStrings(Expand(ts[i]), ExpandAll(ts[i + 1..]), Pending(below));
      }
      pending, ps := pending + [part], ps + [ts[i]];
    }
    assert ts[0..] == ts;
  }

  lemma BoundsCount(choice: Choice)
    ensures |Bounds(choice)| == |choice.commas| + 2
  {
  }

  lemma PushNesting(pending: seq<string>, ps: seq<Items>, part: string, p: Items)
    requires Nestings(pending, ps) && NestingOf(part, p)
    ensures Nestings(pending + [part], ps + [p])
  {
    hide NestingOf;
  }

  lemma RegroupStrings(a: seq<string>, b: seq<string>, c: seq<string>)
    ensures a + (b + c) == a + b + c
  {
  }

  datatype ExpandError = Unmatched(error: BraceError) | TooMany

  /**
   * Expand the braces of one source. `used` counts the strings emitted for earlier sources. A source whose braces do
   * not match is refused for that; any other is refused exactly when the strings it stands for are too many.
   */
  method ExpandSource(source: string, used: nat, maxExpansions: nat) returns (r: Result<seq<string>, ExpandError>, expansions: nat)
    requires used <= maxExpansions
    ensures Parse(source).Err? ==> r == Err(Unmatched(Parse(source).error))
    ensures Parse(source).Ok? ==>
              r == if used + |Expand(Parse(source).value)| > maxExpansions then Err(TooMany)
                   else Ok(Expand(Parse(source).value))
    ensures r.Ok? ==> expansions == used + |r.value|
  {
    hide Expand, FirstChoice, Text, Nested, ScanFrom, Parse;
    expansions := used;
    ParseFacts(source);
    if Parse(source).Err? {
      var first := Scan(source);
      assert first == Err(Parse(source).error);
      return Err(Unmatched(first.error)), expansions;
    }
    ghost var whole := Parse(source).value;
    var pending, expanded: seq<string> := [source], [];
    ghost var ps := [whole];
    PendingPush([], whole);
    assert [] + [whole] == ps;
    while |pending| > 0
      invariant Nestings(pending, ps) && expanded + Pending(ps) == Expand(whole)
      invariant expansions == used + |expanded| <= maxExpansions
      decreases 2 * |Pending(ps)| - |ps|
    {
      var value := pending[|pending| - 1];
      ghost var p, below := ps[|ps| - 1], ps[..|ps| - 1];
      assert Pending(ps) == Expand(p) + Pending(below);
      assert NestingOf(value, p);
      pending := pending[..|pending| - 1];
      var scanned := Scan(value);
      ScanFindsFirst(value, p);
      if scanned.value.None? {
        NestingIsExpanded(value, p);
        expansions := expansions + 1;
        if expansions > maxExpansions { return Err(TooMany), expansions; }
        expanded := expanded + [value];
        ps := below;
      } else {
        var choice := scanned.value.value;
        if expansions + |pending| + |Bounds(choice)| - 1 > maxExpansions {
          SplitExpand(p);
          SplitTexts(p, 0);
          return Err(TooMany), expansions;
        }
        pending, ps := PushAlternatives(value, choice, pending, p, below);
        SplitTexts(p, 0);
      }
    }
    assert ps == [] && Pending(ps) == [] && expanded + [] == expanded;
    return Ok(expanded), expansions;
  }
}
