/**
 * Brace patterns of `internal/glob.ts`: which characters of a source are braces and commas, the nesting they form,
 * what a nested choice means, and how one scan finds the choice to expand next.
 */
module GlobBraces {
  import opened Basics

  // ---------------------------------------------------------------- roles of characters

  datatype Role = Plain | Open | Comma | Close

  datatype Tok = Tok(c: char, role: Role)

  /** Where a scan stands: inside a character class or not, after a backslash or not. */
  datatype Mode = Mode(inClass: bool, escaped: bool)

  const CLEAN := Mode(false, false)

  function After(m: Mode, c: char): Mode {
    if m.escaped then m.(escaped := false)
    else if c == '\\' then m.(escaped := true)
    else if c == '[' then m.(inClass := true)
    else if c == ']' then m.(inClass := false)
    else m
  }

  /** Braces and commas count outside classes and escapes only. */
  function RoleOf(m: Mode, c: char): Role {
    if m.escaped || m.inClass then Plain
    else if c == '{' then Open
    else if c == ',' then Comma
    else if c == '}' then Close
    else Plain
  }

  function LabelFrom(m: Mode, s: string): (t: seq<Tok>)
    ensures |t| == |s|
    decreases |s|
  {
    if s == "" then [] else [Tok(s[0], RoleOf(m, s[0]))] + LabelFrom(After(m, s[0]), s[1..])
  }

  function Label(s: string): (t: seq<Tok>)
    ensures |t| == |s|
  {
    LabelFrom(CLEAN, s)
  }

  function EndMode(m: Mode, s: string): Mode
    decreases |s|
  {
    if s == "" then m else EndMode(After(m, s[0]), s[1..])
  }

  function Chars(t: seq<Tok>): (s: string)
    ensures |s| == |t|
    ensures forall i :: 0 <= i < |t| ==> s[i] == t[i].c
  {
    if t == [] then "" else [t[0].c] + Chars(t[1..])
  }

  lemma {:induction false} CharsLabel(m: Mode, s: string)
    ensures Chars(LabelFrom(m, s)) == s
    decreases |s|
  {
    if s != "" { CharsLabel(After(m, s[0]), s[1..]); }
  }

  lemma {:induction false} LabelAppend(m: Mode, a: string, b: string)
    ensures LabelFrom(m, a + b) == LabelFrom(m, a) + LabelFrom(EndMode(m, a), b)
    ensures EndMode(m, a + b) == EndMode(EndMode(m, a), b)
    decreases |a|
  {
    if a == "" {
      assert a + b == b;
    } else {
      assert (a + b)[1..] == a[1..] + b;
      LabelAppend(After(m, a[0]), a[1..], b);
    }
  }

  lemma LabelAt(m: Mode, s: string, i: nat)
    requires i < |s|
    ensures LabelFrom(m, s)[i] == Tok(s[i], RoleOf(EndMode(m, s[..i]), s[i]))
    ensures EndMode(m, s[..i + 1]) == After(EndMode(m, s[..i]), s[i])
    ensures LabelFrom(m, s)[i + 1..] == LabelFrom(EndMode(m, s[..i + 1]), s[i + 1..])
  {
    assert s == s[..i] + s[i..];
    LabelAppend(m, s[..i], s[i..]);
    assert s[..i + 1] == s[..i] + [s[i]];
    LabelAppend(m, s[..i], [s[i]]);
    assert s == s[..i + 1] + s[i + 1..];
    LabelAppend(m, s[..i + 1], s[i + 1..]);
  }

  /** How many backslashes stand right before a position. */
  function Backslashes(s: string, i: nat): nat
    requires i <= |s|
  {
    if i == 0 || s[i - 1] != '\\' then 0 else 1 + Backslashes(s, i - 1)
  }

  /** A character behind an odd run of backslashes stands for itself. */
  predicate IsEscaped(s: string, i: nat)
    requires i <= |s|
  {
    Backslashes(s, i) % 2 == 1
  }

  /** An opening bracket before the position has no closing one behind it yet. */
  ghost predicate IsInClass(s: string, i: nat)
    requires i <= |s|
  {
    exists j :: 0 <= j < i && s[j] == '[' && !IsEscaped(s, j) && forall k :: j < k < i && s[k] == ']' ==> IsEscaped(s, k)
  }

  lemma {:induction false} ModeMeans(s: string, i: nat)
    requires i <= |s|
    ensures EndMode(CLEAN, s[..i]).escaped <==> IsEscaped(s, i)
    ensures EndMode(CLEAN, s[..i]).inClass <==> IsInClass(s, i)
    decreases i
  {
    if i == 0 {
      assert s[..0] == "";
    } else {
      ModeMeans(s, i - 1);
      LabelAt(CLEAN, s, i - 1);
      hide EndMode, LabelFrom, RoleOf;
      ClassStep(s, i - 1);
    }
  }

  lemma ClassStep(s: string, i: nat)
    requires i < |s|
    ensures IsEscaped(s, i) || (s[i] != '[' && s[i] != ']') ==> (IsInClass(s, i + 1) <==> IsInClass(s, i))
    ensures !IsEscaped(s, i) && s[i] == '[' ==> IsInClass(s, i + 1)
    ensures !IsEscaped(s, i) && s[i] == ']' ==> !IsInClass(s, i + 1)
  {
    hide IsEscaped;
  }

  /** Main result: exactly the braces and commas that are neither escaped nor in a class count as such. */
  lemma LabelMeans(s: string, i: nat)
    requires i < |s|
    ensures var plain := IsEscaped(s, i) || IsInClass(s, i);
            Label(s)[i] == Tok(s[i], if !plain && s[i] == '{' then Open
                                     else if !plain && s[i] == ',' then Comma
                                     else if !plain && s[i] == '}' then Close else Plain)
  {
    LabelAt(CLEAN, s, i);
    ModeMeans(s, i);
    hide EndMode, LabelFrom, IsInClass, IsEscaped;
  }

  /** A stretch of a labelled source between two brace characters, or between one and an end. */
  lemma CleanStretch(s: string, from: nat, to: nat)
    requires from <= to <= |s|
    requires from == 0 || Label(s)[from - 1].role != Plain
    requires to == |s| || Label(s)[to].role != Plain
    ensures Label(s[from..to]) == Label(s)[from..to]
    ensures to < |s| ==> EndMode(CLEAN, s[from..to]) == CLEAN
  {
    if from > 0 { LabelAt(CLEAN, s, from - 1); }
    if to < |s| { LabelAt(CLEAN, s, to); }
    assert EndMode(CLEAN, s[..from]) == CLEAN by {
      if from == 0 { assert s[..0] == ""; }
    }
    assert s[..to] == s[..from] + s[from..to];
    LabelAppend(CLEAN, s[..from], s[from..to]);
    assert s == s[..to] + s[to..];
    LabelAppend(CLEAN, s[..to], s[to..]);
    assert Label(s)[..to] == LabelFrom(CLEAN, s[..to]);
    assert Label(s)[from..to] == Label(s)[..to][from..];
  }

  // ---------------------------------------------------------------- nesting

  /** A brace pattern: characters and braces; a brace holds one or more alternatives. */
  datatype Items = Nil | Char(tok: Tok, rest: Items) | Brace(alts: Alts, rest: Items)

  datatype Alts = Last(body: Items) | More(body: Items, others: Alts)

  const OPEN := Tok('{', Open)
  const COMMA := Tok(',', Comma)
  const CLOSE := Tok('}', Close)

  function Text(t: Items): seq<Tok> {
    match t
    case Nil => []
    case Char(tok, rest) => [tok] + Text(rest)
    case Brace(alts, rest) => [OPEN] + AltsText(alts) + [CLOSE] + Text(rest)
  }

  function AltsText(a: Alts): seq<Tok> {
    match a
    case Last(body) => Text(body)
    case More(body, others) => Text(body) + [COMMA] + AltsText(others)
  }

  /** Braces are balanced, and commas inside a brace separate its alternatives. */
  predicate Nested(t: Items, inBrace: bool) {
    match t
    case Nil => true
    case Char(tok, rest) =>
      (tok.role == Plain || (tok.role == Comma && !inBrace)) && Nested(rest, inBrace)
    case Brace(alts, rest) => NestedAlts(alts) && Nested(rest, inBrace)
  }

  predicate NestedAlts(a: Alts) {
    match a
    case Last(body) => Nested(body, true)
    case More(body, others) => Nested(body, true) && NestedAlts(others)
  }

  function Append(a: Items, b: Items): Items {
    match a
    case Nil => b
    case Char(tok, rest) => Char(tok, Append(rest, b))
    case Brace(alts, rest) => Brace(alts, Append(rest, b))
  }

  lemma {:induction false} AppendText(a: Items, b: Items)
    ensures Text(Append(a, b)) == Text(a) + Text(b)
    ensures forall deep :: Nested(a, true) && Nested(b, deep) ==> Nested(Append(a, b), deep)
  {
    match a
    case Nil =>
    case Char(_, rest) => AppendText(rest, b);
    case Brace(_, rest) => AppendText(rest, b);
  }

  // ---------------------------------------------------------------- meaning

  /** Every string of `a` followed by every string of `b`; the strings of `a` vary slowest. */
  function Cross(a: seq<string>, b: seq<string>): (r: seq<string>)
    ensures |r| == |a| * |b|
  {
    if a == [] then [] else Each(a[0], b) + Cross(a[1..], b)
  }

  function Each(x: string, b: seq<string>): (r: seq<string>)
    ensures |r| == |b|
  {
    if b == [] then [] else [x + b[0]] + Each(x, b[1..])
  }

  /** The strings a pattern stands for. A brace without a comma is literal; one with commas is a choice. */
  function Expand(t: Items): (r: seq<string>)
    ensures |r| >= 1
    decreases t, 0
  {
    match t
    case Nil => [""]
    case Char(tok, rest) => Cross([[tok.c]], Expand(rest))
    case Brace(alts, rest) => Cross(ExpandBrace(alts), Expand(rest))
  }

  function ExpandBrace(a: Alts): (r: seq<string>)
    ensures |r| >= 1
    decreases a, 1
  {
    match a
    case Last(body) => Cross(["{"], Cross(Expand(body), ["}"]))
    case More(body, others) => ExpandAlts(a)
  }

  function ExpandAlts(a: Alts): (r: seq<string>)
    ensures |r| >= 1
    decreases a, 0
  {
    match a
    case Last(body) => Expand(body)
    case More(body, others) => Expand(body) + ExpandAlts(others)
  }

  predicate HasChoice(t: Items) {
    match t
    case Nil => false
    case Char(_, rest) => HasChoice(rest)
    case Brace(alts, rest) => alts.More? || HasChoice(alts.body) || HasChoice(rest)
  }

  function AltList(a: Alts): (r: seq<Items>)
    ensures |r| >= 1 && (a.More? ==> |r| >= 2)
  {
    match a
    case Last(body) => [body]
    case More(body, others) => [body] + AltList(others)
  }

  /** The alternatives of the first choice, each in the place of the choice. */
  function Split(t: Items): (r: seq<Items>)
    requires HasChoice(t)
    ensures |r| >= 2
  {
    match t
    case Char(tok, rest) => MapChar(tok, Split(rest))
    case Brace(More(_, _), rest) => MapAppend(AltList(t.alts), rest)
    case Brace(Last(body), rest) =>
      if HasChoice(body) then MapBody(Split(body), rest) else MapRest(t.alts, Split(rest))
  }

  function MapChar(tok: Tok, ts: seq<Items>): (r: seq<Items>) ensures |r| == |ts| {
    if ts == [] then [] else [Char(tok, ts[0])] + MapChar(tok, ts[1..])
  }

  function MapAppend(ts: seq<Items>, rest: Items): (r: seq<Items>) ensures |r| == |ts| {
    if ts == [] then [] else [Append(ts[0], rest)] + MapAppend(ts[1..], rest)
  }

  function MapBody(ts: seq<Items>, rest: Items): (r: seq<Items>) ensures |r| == |ts| {
    if ts == [] then [] else [Brace(Last(ts[0]), rest)] + MapBody(ts[1..], rest)
  }

  function MapRest(alts: Alts, ts: seq<Items>): (r: seq<Items>) ensures |r| == |ts| {
    if ts == [] then [] else [Brace(alts, ts[0])] + MapRest(alts, ts[1..])
  }

  function ExpandAll(ts: seq<Items>): (r: seq<string>)
    ensures |r| >= |ts|
  {
    if ts == [] then [] else Expand(ts[0]) + ExpandAll(ts[1..])
  }

  lemma {:induction false} EachAppend(x: string, b: seq<string>, c: seq<string>)
    ensures Each(x, b + c) == Each(x, b) + Each(x, c)
    decreases |b|
  {
    if b == [] {
      assert b + c == c;
    } else {
      assert (b + c)[1..] == b[1..] + c;
      EachAppend(x, b[1..], c);
    }
  }

  lemma {:induction false} CrossLeft(a: seq<string>, b: seq<string>, c: seq<string>)
    ensures Cross(a + b, c) == Cross(a, c) + Cross(b, c)
    decreases |a|
  {
    if a == [] {
      assert a + b == b;
    } else {
      assert (a + b)[1..] == a[1..] + b;
      CrossLeft(a[1..], b, c);
    }
  }

  lemma {:induction false} EachAt(x: string, b: seq<string>, j: nat)
    requires j < |b|
    ensures Each(x, b)[j] == x + b[j]
    decreases |b|
  {
    if j > 0 { EachAt(x, b[1..], j - 1); }
  }

  /** Each string of the first part in turn, with every string of the second part behind it. */
  ghost predicate RowsOf(a: seq<string>, b: seq<string>, rows: seq<seq<string>>) {
    |rows| == |a| && forall i :: 0 <= i < |a| ==> |rows[i]| == |b| && forall j :: 0 <= j < |b| ==> rows[i][j] == a[i] + b[j]
  }

  lemma {:induction false} CrossIs(a: seq<string>, b: seq<string>, rows: seq<seq<string>>)
    requires RowsOf(a, b, rows)
    ensures Cross(a, b) == Flatten(rows)
    decreases |a|
  {
    if a != [] {
      forall j | 0 <= j < |b| ensures Each(a[0], b)[j] == rows[0][j] { EachAt(a[0], b, j); }
      assert Each(a[0], b) == rows[0];
      CrossIs(a[1..], b, rows[1..]);
    }
  }

  /** A character goes in front of everything behind it. */
  lemma ExpandChar(tok: Tok, rest: Items, n: nat)
    requires n < |Expand(rest)|
    ensures |Expand(Char(tok, rest))| == |Expand(rest)| && Expand(Char(tok, rest))[n] == [tok.c] + Expand(rest)[n]
  {
    EachAt([tok.c], Expand(rest), n);
    CrossOne([tok.c], Expand(rest), []);
  }

  /** A choice stands for all strings of its first alternative, then of the next, each with everything behind it. */
  lemma ExpandChoice(alts: Alts, rest: Items)
    requires alts.More?
    ensures Expand(Brace(alts, rest)) == Cross(ExpandAll(AltList(alts)), Expand(rest))
  {
    AllAlternatives(alts);
    assert ExpandBrace(alts) == ExpandAlts(alts);
  }

  /** A brace without a comma keeps its braces around each string of its body. */
  lemma ExpandLiteralBrace(body: Items, rest: Items, kept: seq<string>)
    requires |kept| == |Expand(body)| && forall i :: 0 <= i < |kept| ==> kept[i] == "{" + Expand(body)[i] + "}"
    ensures Expand(Brace(Last(body), rest)) == Cross(kept, Expand(rest))
  {
    var closed := Cross(Expand(body), ["}"]);
    var rows := seq(|kept|, i requires 0 <= i < |kept| => [Expand(body)[i] + "}"]);
    CrossIs(Expand(body), ["}"], rows);
    SingleRows(rows);
    CrossOne("{", closed, []);
    forall i | 0 <= i < |kept| ensures Cross(["{"], closed)[i] == kept[i] {
      assert closed[i] == rows[i][0];
      EachAt("{", closed, i);
      assert "{" + (Expand(body)[i] + "}") == "{" + Expand(body)[i] + "}";
    }
    assert Cross(["{"], closed) == kept;
  }

  lemma {:induction false} SingleRows(rows: seq<seq<string>>)
    requires forall i :: 0 <= i < |rows| ==> |rows[i]| == 1
    ensures |Flatten(rows)| == |rows| && forall i :: 0 <= i < |rows| ==> Flatten(rows)[i] == rows[i][0]
    decreases |rows|
  {
    if rows != [] { SingleRows(rows[1..]); }
  }

  lemma {:induction false} AllAlternatives(a: Alts)
    ensures ExpandAlts(a) == ExpandAll(AltList(a))
  {
    match a
    case Last(body) => assert ExpandAll([body]) == Expand(body) + ExpandAll([body][1..]);
    case More(body, others) =>
      AllAlternatives(others);
      assert ([body] + AltList(others))[1..] == AltList(others);
  }

  lemma CrossOne(x: string, b: seq<string>, c: seq<string>)
    ensures Cross([x], b) == Each(x, b)
    ensures Cross([x], b + c) == Cross([x], b) + Cross([x], c)
  {
    EachAppend(x, b, c);
    assert Cross([x], b) == Each(x, b) + Cross([x][1..], b);
    assert Cross([x], c) == Each(x, c) + Cross([x][1..], c);
    assert Cross([x], b + c) == Each(x, b + c) + Cross([x][1..], b + c);
  }

  lemma {:induction false} EachEach(x: string, y: string, b: seq<string>)
    ensures Each(x, Each(y, b)) == Each(x + y, b)
    decreases |b|
  {
    if b != [] {
      EachEach(x, y, b[1..]);
      assert x + (y + b[0]) == (x + y) + b[0];
    }
  }

  lemma {:induction false} EachCross(x: string, a: seq<string>, b: seq<string>)
    ensures Each(x, Cross(a, b)) == Cross(Each(x, a), b)
    decreases |a|
  {
    if a != [] {
      EachAppend(x, Each(a[0], b), Cross(a[1..], b));
      EachEach(x, a[0], b);
      EachCross(x, a[1..], b);
    }
  }

  lemma {:induction false} CrossAssoc(a: seq<string>, b: seq<string>, c: seq<string>)
    ensures Cross(Cross(a, b), c) == Cross(a, Cross(b, c))
    decreases |a|
  {
    if a != [] {
      CrossLeft(Each(a[0], b), Cross(a[1..], b), c);
      EachCross(a[0], b, c);
      CrossAssoc(a[1..], b, c);
    }
  }

  lemma {:induction false} CrossUnit(b: seq<string>)
    ensures Cross([""], b) == b
    decreases |b|
  {
    CrossOne("", b, []);
    if b != [] {
      CrossUnit(b[1..]);
      CrossOne("", b[1..], []);
      assert "" + b[0] == b[0];
    }
  }

  lemma {:induction false} ExpandAppend(a: Items, b: Items)
    ensures Expand(Append(a, b)) == Cross(Expand(a), Expand(b))
  {
    match a
    case Nil => CrossUnit(Expand(b));
    case Char(tok, rest) =>
      ExpandAppend(rest, b);
      CrossAssoc([[tok.c]], Expand(rest), Expand(b));
    case Brace(alts, rest) =>
      ExpandAppend(rest, b);
      CrossAssoc(ExpandBrace(alts), Expand(rest), Expand(b));
  }

  lemma {:induction false} CharsAppend(a: seq<Tok>, b: seq<Tok>)
    ensures Chars(a + b) == Chars(a) + Chars(b)
    decreases |a|
  {
    if a == [] {
      assert a + b == b;
    } else {
      assert (a + b)[1..] == a[1..] + b;
      CharsAppend(a[1..], b);
    }
  }

  lemma LiteralBraceChars(body: seq<Tok>, rest: seq<Tok>)
    ensures Chars([OPEN] + body + [CLOSE] + rest) == "{" + (Chars(body) + "}") + Chars(rest)
  {
    CharsAppend([OPEN] + body + [CLOSE], rest);
    CharsAppend([OPEN] + body, [CLOSE]);
    CharsAppend([OPEN], body);
    assert Chars([OPEN]) == "{" && Chars([CLOSE]) == "}";
  }

  /** A pattern without a choice stands for its own text. */
  lemma {:induction false} ExpandLiteral(t: Items)
    requires !HasChoice(t)
    ensures Expand(t) == [Chars(Text(t))]
  {
    hide Expand, Cross;
    ExpandShapes(t);
    match t
    case Nil =>
    case Char(tok, rest) =>
      ExpandLiteral(rest);
      CrossSingles([tok.c], Chars(Text(rest)));
      CharsAppend([tok], Text(rest));
      assert Chars([tok]) == [tok.c];
    case Brace(alts, rest) =>
      hide Chars;
      var body := alts.body;
      ExpandLiteral(body);
      ExpandLiteral(rest);
      CrossSingles(Chars(Text(body)), "}");
      CrossSingles("{", Chars(Text(body)) + "}");
      CrossSingles("{" + (Chars(Text(body)) + "}"), Chars(Text(rest)));
      LiteralBraceChars(AltsText(alts), Text(rest));
  }

  lemma ExpandShapes(t: Items)
    ensures t.Nil? ==> Expand(t) == [""]
    ensures t.Char? ==> Expand(t) == Cross([[t.tok.c]], Expand(t.rest))
    ensures t.Brace? ==> Expand(t) == Cross(ExpandBrace(t.alts), Expand(t.rest))
  {
  }

  lemma CrossSingles(x: string, y: string)
    ensures Cross([x], [y]) == [x + y]
  {
    CrossOne(x, [y], []);
    assert Each(x, [y]) == [x + y] + Each(x, [y][1..]);
  }

  lemma {:induction false} MapCharExpand(tok: Tok, ts: seq<Items>)
    ensures ExpandAll(MapChar(tok, ts)) == Cross([[tok.c]], ExpandAll(ts))
    decreases |ts|
  {
    hide Cross;
    if ts == [] {
      CrossOne([tok.c], [], []);
    } else {
      MapCharExpand(tok, ts[1..]);
      CrossOne([tok.c], Expand(ts[0]), ExpandAll(ts[1..]));
    }
  }

  lemma {:induction false} MapRestExpand(alts: Alts, ts: seq<Items>)
    requires alts.Last? && !HasChoice(alts.body)
    ensures ExpandAll(MapRest(alts, ts)) == Cross(ExpandBrace(alts), ExpandAll(ts))
    decreases |ts|
  {
    ExpandLiteral(alts.body);
    var x := Chars(Text(alts.body));
    CrossSingles(x, "}");
    CrossSingles("{", x + "}");
    hide Cross;
    if ts == [] {
      CrossOne("{" + (x + "}"), [], []);
    } else {
      MapRestExpand(alts, ts[1..]);
      CrossOne("{" + (x + "}"), Expand(ts[0]), ExpandAll(ts[1..]));
    }
  }

  lemma {:induction false} MapBodyExpand(ts: seq<Items>, rest: Items)
    ensures ExpandAll(MapBody(ts, rest)) == Cross(Cross(["{"], Cross(ExpandAll(ts), ["}"])), Expand(rest))
    decreases |ts|
  {
    if ts == [] {
      CrossOne("{", [], []);
    } else {
      MapBodyExpand(ts[1..], rest);
      hide Cross;
      var one, others := Expand(ts[0]), ExpandAll(ts[1..]);
      CrossLeft(one, others, ["}"]);
      CrossOne("{", Cross(one, ["}"]), Cross(others, ["}"]));
      CrossLeft(Cross(["{"], Cross(one, ["}"])), Cross(["{"], Cross(others, ["}"])), Expand(rest));
      ExpandShapes(Brace(Last(ts[0]), rest));
    }
  }

  lemma {:induction false} MapAppendExpand(ts: seq<Items>, rest: Items)
    ensures ExpandAll(MapAppend(ts, rest)) == Cross(ExpandAll(ts), Expand(rest))
    decreases |ts|
  {
    if ts != [] {
      MapAppendExpand(ts[1..], rest);
      hide Cross;
      ExpandAppend(ts[0], rest);
      CrossLeft(Expand(ts[0]), ExpandAll(ts[1..]), Expand(rest));
    }
  }

  lemma {:induction false} AltListExpand(a: Alts)
    ensures ExpandAll(AltList(a)) == ExpandAlts(a)
  {
    match a
    case Last(body) =>
      assert ExpandAll([body]) == Expand(body) + ExpandAll([body][1..]);
    case More(body, others) =>
      AltListExpand(others);
      assert AltList(a)[1..] == AltList(others);
  }

  /** Expanding the first choice loses and reorders nothing. */
  lemma {:induction false} SplitExpand(t: Items)
    requires HasChoice(t)
    ensures ExpandAll(Split(t)) == Expand(t)
  {
    match t
    case Char(tok, rest) =>
      SplitExpand(rest);
      MapCharExpand(tok, Split(rest));
    case Brace(More(_, _), rest) =>
      AltListExpand(t.alts);
      MapAppendExpand(AltList(t.alts), rest);
    case Brace(Last(body), rest) =>
      if HasChoice(body) {
        SplitExpand(body);
        MapBodyExpand(Split(body), rest);
      } else {
        SplitExpand(rest);
        MapRestExpand(t.alts, Split(rest));
      }
  }
}
