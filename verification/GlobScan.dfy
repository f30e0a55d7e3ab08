/**
 * The brace scan of `internal/glob.ts`: one pass with a stack of open braces finds the leftmost choice, or the brace
 * that has no partner. It agrees with a recursive parser of the nesting, errors included.
 */
module GlobScan {
  import opened Basics
  import opened GlobBraces

  datatype Opening = Opening(start: nat, commas: seq<nat>)

  datatype Choice = Choice(start: nat, end: nat, commas: seq<nat>)

  datatype BraceError = UnmatchedClose | UnclosedBrace

  function AddComma(stack: seq<Opening>, i: nat): seq<Opening>
    requires stack != []
  {
    var top := stack[|stack| - 1];
    stack[..|stack| - 1] + [Opening(top.start, top.commas + [i])]
  }

  /** Outer choices are expanded first: a choice replaces one that starts later. */
  function Prefer(open: Opening, end: nat, choice: Option<Choice>): Option<Choice> {
    if |open.commas| > 0 && (choice.None? || open.start < choice.value.start)
    then Some(Choice(open.start, end, open.commas)) else choice
  }

  function ScanFrom(t: seq<Tok>, i: nat, stack: seq<Opening>, choice: Option<Choice>): Result<Option<Choice>, BraceError>
    requires i <= |t|
    decreases |t| - i
  {
    if i == |t| then if stack != [] then Err(UnclosedBrace) else Ok(choice)
    else
      match t[i].role
      case Plain => ScanFrom(t, i + 1, stack, choice)
      case Open => ScanFrom(t, i + 1, stack + [Opening(i, [])], choice)
      case Comma => ScanFrom(t, i + 1, if stack == [] then stack else AddComma(stack, i), choice)
      case Close =>
        if stack == [] then Err(UnmatchedClose)
        else ScanFrom(t, i + 1, stack[..|stack| - 1], Prefer(stack[|stack| - 1], i, choice))
  }

  // ---------------------------------------------------------------- where the first choice is

  function CommasOf(a: Alts, i: nat): (r: seq<nat>)
    ensures a.More? ==> r != []
    ensures a.Last? ==> r == []
  {
    match a
    case Last(_) => []
    case More(body, others) => [i + |Text(body)|] + CommasOf(others, i + |Text(body)| + 1)
  }

  /** The first choice of a pattern whose text starts at `i`. */
  function FirstChoice(t: Items, i: nat): (r: Option<Choice>)
    ensures r.Some? <==> HasChoice(t)
    ensures r.Some? ==> r.value.start >= i
  {
    match t
    case Nil => None
    case Char(_, rest) => FirstChoice(rest, i + 1)
    case Brace(alts, rest) =>
      if alts.More? then Some(Choice(i, i + 1 + |AltsText(alts)|, CommasOf(alts, i + 1)))
      else if HasChoice(alts.body) then FirstChoice(alts.body, i + 1)
      else FirstChoice(rest, i + 2 + |AltsText(alts)|)
  }

  function FirstInAlts(a: Alts, i: nat): (r: Option<Choice>)
    ensures r.Some? ==> r.value.start >= i
  {
    match a
    case Last(body) => FirstChoice(body, i)
    case More(body, others) =>
      if HasChoice(body) then FirstChoice(body, i) else FirstInAlts(others, i + |Text(body)| + 1)
  }

  function Or(a: Option<Choice>, b: Option<Choice>): Option<Choice> {
    if a.Some? then a else b
  }

  ghost predicate Holds(t: seq<Tok>, i: nat, piece: seq<Tok>) {
    i + |piece| <= |t| && t[i..i + |piece|] == piece
  }

  lemma HoldsParts(t: seq<Tok>, i: nat, a: seq<Tok>, b: seq<Tok>)
    requires Holds(t, i, a + b)
    ensures Holds(t, i, a) && Holds(t, i + |a|, b)
  {
    assert a == (a + b)[..|a|] && b == (a + b)[|a|..];
  }

  lemma HoldsOne(t: seq<Tok>, i: nat, tok: Tok, rest: seq<Tok>)
    requires Holds(t, i, [tok] + rest)
    ensures i < |t| && t[i] == tok && Holds(t, i + 1, rest)
  {
    HoldsParts(t, i, [tok], rest);
    assert t[i] == t[i..i + 1][0];
  }

  /** One step of the scan. */
  lemma ScanStep(t: seq<Tok>, i: nat, stack: seq<Opening>, choice: Option<Choice>)
    requires i < |t|
    ensures t[i].role == Plain ==> ScanFrom(t, i, stack, choice) == ScanFrom(t, i + 1, stack, choice)
    ensures t[i].role == Open ==> ScanFrom(t, i, stack, choice) == ScanFrom(t, i + 1, stack + [Opening(i, [])], choice)
    ensures t[i].role == Comma && stack == [] ==> ScanFrom(t, i, stack, choice) == ScanFrom(t, i + 1, stack, choice)
  {
  }

  lemma ScanComma(t: seq<Tok>, i: nat, stack: seq<Opening>, open: Opening, choice: Option<Choice>)
    requires i < |t| && t[i].role == Comma
    ensures ScanFrom(t, i, stack + [open], choice) ==
            ScanFrom(t, i + 1, stack + [Opening(open.start, open.commas + [i])], choice)
  {
    assert (stack + [open])[..|stack|] == stack;
  }

  lemma ScanClose(t: seq<Tok>, i: nat, stack: seq<Opening>, open: Opening, choice: Option<Choice>)
    requires i < |t| && t[i].role == Close
    ensures ScanFrom(t, i, stack + [open], choice) == ScanFrom(t, i + 1, stack, Prefer(open, i, choice))
  {
    assert (stack + [open])[..|stack|] == stack;
  }

  lemma TextOfBrace(alts: Alts, rest: Items)
    ensures Text(Brace(alts, rest)) == [OPEN] + (AltsText(alts) + ([CLOSE] + Text(rest)))
  {
    Regroup([OPEN], AltsText(alts), [CLOSE], Text(rest));
  }

  lemma Regroup<T>(a: seq<T>, b: seq<T>, c: seq<T>, d: seq<T>)
    ensures a + b + c + d == a + (b + (c + d)) && a + (b + c) + d == a + (b + (c + d))
  {
  }

  /** Where the parts of a brace lie. */
  lemma BraceHolds(t: seq<Tok>, i: nat, alts: Alts, rest: Items)
    requires Holds(t, i, Text(Brace(alts, rest)))
    ensures var n := |AltsText(alts)|;
            && i + 1 + n < |t| && t[i] == OPEN && Holds(t, i + 1, AltsText(alts)) && t[i + 1 + n] == CLOSE
            && Holds(t, i + 2 + n, Text(rest)) && |Text(Brace(alts, rest))| == 2 + n + |Text(rest)|
  {
    var n := |AltsText(alts)|;
    TextOfBrace(alts, rest);
    hide Text, AltsText;
    HoldsOne(t, i, OPEN, AltsText(alts) + ([CLOSE] + Text(rest)));
    HoldsParts(t, i + 1, AltsText(alts), [CLOSE] + Text(rest));
    HoldsOne(t, i + 1 + n, CLOSE, Text(rest));
  }

  lemma MoreHolds(t: seq<Tok>, i: nat, body: Items, others: Alts)
    requires Holds(t, i, AltsText(More(body, others)))
    ensures var n := |Text(body)|;
            && Holds(t, i, Text(body)) && i + n < |t| && t[i + n] == COMMA && Holds(t, i + n + 1, AltsText(others))
            && |AltsText(More(body, others))| == n + 1 + |AltsText(others)|
  {
    var n := |Text(body)|;
    assert AltsText(More(body, others)) == Text(body) + ([COMMA] + AltsText(others));
    hide Text, AltsText;
    HoldsParts(t, i, Text(body), [COMMA] + AltsText(others));
    HoldsOne(t, i + n, COMMA, AltsText(others));
  }

  /** Closing a brace whose alternatives were scanned: its own choice wins over any inside it. */
  lemma PreferFirst(alts: Alts, rest: Items, i: nat, choice: Option<Choice>)
    requires choice.Some? ==> choice.value.start < i
    ensures var top := Opening(i, CommasOf(alts, i + 1));
            var end := i + 1 + |AltsText(alts)|;
            var next := Prefer(top, end, Or(choice, FirstInAlts(alts, i + 1)));
            && Or(next, FirstChoice(rest, end + 1)) == Or(choice, FirstChoice(Brace(alts, rest), i))
            && (next.Some? ==> next.value.start < end + 1)
  {
    AltsWithin(alts, i + 1);
    hide AltsText, CommasOf;
  }

  /** The choice known once a brace starting at `i` has been scanned. */
  ghost function AfterBrace(i: nat, choice: Option<Choice>, alts: Alts): Option<Choice> {
    Prefer(Opening(i, CommasOf(alts, i + 1)), i + 1 + |AltsText(alts)|, Or(choice, FirstInAlts(alts, i + 1)))
  }

  lemma PreferWithin(open: Opening, end: nat, choice: Option<Choice>, first: Option<Choice>)
    requires open.start < end && (choice.Some? ==> choice.value.start < end) && (first.Some? ==> first.value.start < end)
    ensures Prefer(open, end, Or(choice, first)).Some? ==> Prefer(open, end, Or(choice, first)).value.start < end
  {
  }

  /** Scanning one brace, from its opening to past its close. */
  lemma {:induction false} ScanBraceText(t: seq<Tok>, i: nat, stack: seq<Opening>, choice: Option<Choice>, alts: Alts)
    requires NestedAlts(alts) && i < |t| && t[i].role == Open && Holds(t, i + 1, AltsText(alts))
    requires i + 1 + |AltsText(alts)| < |t| && t[i + 1 + |AltsText(alts)|].role == Close
    requires choice.Some? ==> choice.value.start < i
    ensures ScanFrom(t, i, stack, choice) == ScanFrom(t, i + 2 + |AltsText(alts)|, stack, AfterBrace(i, choice, alts))
    ensures AfterBrace(i, choice, alts).Some? ==> AfterBrace(i, choice, alts).value.start < i + 2 + |AltsText(alts)|
    decreases alts, 1
  {
    hide ScanFrom, AltsText, CommasOf, FirstInAlts, Prefer, Or, NestedAlts, Holds;
    var n, commas, first := |AltsText(alts)|, CommasOf(alts, i + 1), FirstInAlts(alts, i + 1);
    ScanStep(t, i, stack, choice);
    ScanAlts(t, i + 1, stack, Opening(i, []), choice, alts);
    assert [] + commas == commas;
    ScanClose(t, i + 1 + n, stack, Opening(i, commas), Or(choice, first));
    AltsWithin(alts, i + 1);
    PreferWithin(Opening(i, commas), i + 1 + n, choice, first);
  }

  /** Scanning a pattern finds its first choice and leaves the stack alone. */
  lemma {:induction false} ScanItems(t: seq<Tok>, i: nat, stack: seq<Opening>, choice: Option<Choice>, p: Items)
    requires Nested(p, stack != []) && Holds(t, i, Text(p))
    requires choice.Some? ==> choice.value.start < i
    ensures ScanFrom(t, i, stack, choice) == ScanFrom(t, i + |Text(p)|, stack, Or(choice, FirstChoice(p, i)))
    decreases p, 1
  {
    hide ScanFrom, AltsText, CommasOf, FirstInAlts, Prefer;
    match p
    case Nil =>
    case Char(tok, rest) =>
      HoldsOne(t, i, tok, Text(rest));
      ScanStep(t, i, stack, choice);
      ScanItems(t, i + 1, stack, choice, rest);
    case Brace(alts, rest) =>
      hide Text, FirstChoice;
      BraceHolds(t, i, alts, rest);
      ScanBraceText(t, i, stack, choice, alts);
      PreferFirst(alts, rest, i, choice);
      ScanItems(t, i + 2 + |AltsText(alts)|, stack, AfterBrace(i, choice, alts), rest);
  }

  lemma {:induction false} ScanAlts(t: seq<Tok>, i: nat, stack: seq<Opening>, open: Opening, choice: Option<Choice>, a: Alts)
    requires NestedAlts(a) && Holds(t, i, AltsText(a)) && open.start < i
    requires choice.Some? ==> choice.value.start < i
    ensures ScanFrom(t, i, stack + [open], choice) ==
            ScanFrom(t, i + |AltsText(a)|, stack + [Opening(open.start, open.commas + CommasOf(a, i))],
                     Or(choice, FirstInAlts(a, i)))
    decreases a, 0
  {
    hide ScanFrom, Text, FirstChoice;
    match a
    case Last(body) =>
      ScanItems(t, i, stack + [open], choice, body);
      assert open.commas + [] == open.commas;
    case More(body, others) =>
      hide AltsText;
      var n := |Text(body)|;
      MoreHolds(t, i, body, others);
      ScanItems(t, i, stack + [open], choice, body);
      var found := Or(choice, FirstChoice(body, i));
      ScanComma(t, i + n, stack, open, found);
      ChoiceWithin(body, i);
      ScanAlts(t, i + n + 1, stack, Opening(open.start, open.commas + [i + n]), found, others);
      assert open.commas + [i + n] + CommasOf(others, i + n + 1) == open.commas + CommasOf(a, i);
  }

  /** The first choice starts inside its pattern. */
  lemma {:induction false} ChoiceWithin(p: Items, i: nat)
    ensures FirstChoice(p, i).Some? ==> FirstChoice(p, i).value.start < i + |Text(p)|
  {
    match p
    case Nil =>
    case Char(_, rest) => ChoiceWithin(rest, i + 1);
    case Brace(alts, rest) =>
      if alts.Last? { ChoiceWithin(alts.body, i + 1); }
      ChoiceWithin(rest, i + 2 + |AltsText(alts)|);
  }

  // ---------------------------------------------------------------- the nesting of a source

  ghost predicate Labelled(t: seq<Tok>) {
    forall i :: 0 <= i < |t| ==>
                  (t[i].role == Open ==> t[i] == OPEN) && (t[i].role == Comma ==> t[i] == COMMA)
                  && (t[i].role == Close ==> t[i] == CLOSE)
  }

  lemma {:induction false} LabelIsLabelled(m: Mode, s: string)
    ensures Labelled(LabelFrom(m, s))
    decreases |s|
  {
    if s != "" { LabelIsLabelled(After(m, s[0]), s[1..]); }
  }

  /** A recursive-descent reading of the braces, up to the end or to the delimiter that ends an alternative. */
  function ParseItems(t: seq<Tok>, i: nat, inBrace: bool): (r: Result<(Items, nat), BraceError>)
    requires i <= |t|
    ensures r.Ok? ==> i <= r.value.1 <= |t| && (inBrace ==> r.value.1 < |t|)
    decreases |t| - i, 0
  {
    if i == |t| then if inBrace then Err(UnclosedBrace) else Ok((Nil, i))
    else if t[i].role == Close && !inBrace then Err(UnmatchedClose)
    else if inBrace && (t[i].role == Close || t[i].role == Comma) then Ok((Nil, i))
    else if t[i].role == Open then
      match ParseAlts(t, i + 1)
      case Err(e) => Err(e)
      case Ok((alts, j)) =>
        match ParseItems(t, j, inBrace)
        case Err(e) => Err(e)
        case Ok((rest, k)) => Ok((Brace(alts, rest), k))
    else
      match ParseItems(t, i + 1, inBrace)
      case Err(e) => Err(e)
      case Ok((rest, k)) => Ok((Char(t[i], rest), k))
  }

  /** The alternatives of a brace, up to and including its closing brace. */
  function ParseAlts(t: seq<Tok>, i: nat): (r: Result<(Alts, nat), BraceError>)
    requires i <= |t|
    ensures r.Ok? ==> i < r.value.1 <= |t|
    decreases |t| - i, 1
  {
    match ParseItems(t, i, true)
    case Err(e) => Err(e)
    case Ok((body, j)) =>
      if t[j].role == Comma then
        match ParseAlts(t, j + 1)
        case Err(e) => Err(e)
        case Ok((others, k)) => Ok((More(body, others), k))
      else Ok((Last(body), j + 1))
  }

  lemma CutThree(t: seq<Tok>, i: nat, j: nat, k: nat)
    requires i < j <= k <= |t|
    ensures t[i..k] == [t[i]] + t[i + 1..j] + t[j..k]
  {
  }

  lemma {:induction false} ParsedItems(t: seq<Tok>, i: nat, inBrace: bool)
    requires i <= |t| && Labelled(t) && ParseItems(t, i, inBrace).Ok?
    ensures var (p, k) := ParseItems(t, i, inBrace).value;
            && t[i..k] == Text(p) && Nested(p, inBrace)
            && (if inBrace then t[k].role == Comma || t[k].role == Close else k == |t|)
    decreases |t| - i, 0
  {
    if i < |t| && !(t[i].role == Close && !inBrace) && !(inBrace && (t[i].role == Close || t[i].role == Comma)) {
      var (p, k) := ParseItems(t, i, inBrace).value;
      if t[i].role == Open {
        ParsedAlts(t, i + 1);
        var (alts, j) := ParseAlts(t, i + 1).value;
        ParsedItems(t, j, inBrace);
        var (rest, m) := ParseItems(t, j, inBrace).value;
        assert p == Brace(alts, rest) && k == m;
        hide ParseItems, ParseAlts;
        hide Text, AltsText;
        TextOfBrace(alts, rest);
        Regroup([OPEN], AltsText(alts), [CLOSE], Text(rest));
        CutThree(t, i, j, k);
      } else {
        ParsedItems(t, i + 1, inBrace);
        assert t[i..k] == [t[i]] + t[i + 1..k];
      }
    }
  }

  lemma {:induction false} ParsedAlts(t: seq<Tok>, i: nat)
    requires i <= |t| && Labelled(t) && ParseAlts(t, i).Ok?
    ensures var (a, k) := ParseAlts(t, i).value; t[i..k] == AltsText(a) + [CLOSE] && NestedAlts(a)
    decreases |t| - i, 1
  {
    ParsedItems(t, i, true);
    var (body, j) := ParseItems(t, i, true).value;
    hide Text;
    if t[j].role == Comma {
      ParsedAlts(t, j + 1);
      var (others, k) := ParseAlts(t, j + 1).value;
      CutAround(t, i, j, k);
    } else {
      CutAround(t, i, j, j + 1);
      assert t[j + 1..j + 1] == [];
    }
  }

  lemma CutAround(t: seq<Tok>, i: nat, j: nat, k: nat)
    requires i <= j < k <= |t|
    ensures t[i..k] == t[i..j] + [t[j]] + t[j + 1..k]
  {
  }

  /** The scan fails where the parser fails, for the same reason. */
  lemma {:induction false} ScanItemsFails(t: seq<Tok>, i: nat, stack: seq<Opening>, choice: Option<Choice>)
    requires i <= |t| && Labelled(t) && ParseItems(t, i, stack != []).Err?
    requires choice.Some? ==> choice.value.start < i
    ensures ScanFrom(t, i, stack, choice) == Err(ParseItems(t, i, stack != []).error)
    decreases |t| - i, 0
  {
    hide AltsText, CommasOf, FirstInAlts, Prefer;
    if i < |t| && !(t[i].role == Close && stack == []) {
      hide ScanFrom;
      ScanStep(t, i, stack, choice);
      if t[i].role == Open {
        if ParseAlts(t, i + 1).Err? {
          ScanAltsFails(t, i + 1, stack, Opening(i, []), choice);
        } else {
          var (alts, j) := ParseAlts(t, i + 1).value;
          ScanBrace(t, i, stack, choice, alts, j);
          ScanItemsFails(t, j, stack, AfterBrace(i, choice, alts));
        }
      } else {
        ScanItemsFails(t, i + 1, stack, choice);
      }
    }
  }

  lemma ClosedAlts(t: seq<Tok>, i: nat, text: seq<Tok>, j: nat)
    requires i <= j <= |t| && t[i..j] == text + [CLOSE]
    ensures j == i + |text| + 1 && Holds(t, i, text) && t[i + |text|] == CLOSE
  {
    assert |t[i..j]| == |text| + 1;
    assert t[i..i + |text|] == t[i..j][..|text|];
    assert t[i + |text|] == t[i..j][|text|];
  }

  lemma ScanBrace(t: seq<Tok>, i: nat, stack: seq<Opening>, choice: Option<Choice>, alts: Alts, j: nat)
    requires i < |t| && Labelled(t) && t[i].role == Open && ParseAlts(t, i + 1) == Ok((alts, j))
    requires choice.Some? ==> choice.value.start < i
    ensures ScanFrom(t, i, stack, choice) == ScanFrom(t, j, stack, AfterBrace(i, choice, alts))
    ensures AfterBrace(i, choice, alts).Some? ==> AfterBrace(i, choice, alts).value.start < j
  {
    hide *;
    ParsedAlts(t, i + 1);
    ClosedAlts(t, i + 1, AltsText(alts), j);
    CloseRole();
    ScanBraceText(t, i, stack, choice, alts);
  }

  lemma CloseRole()
    ensures CLOSE.role == Close
  {
  }

  lemma {:induction false} AltsWithin(a: Alts, i: nat)
    ensures FirstInAlts(a, i).Some? ==> FirstInAlts(a, i).value.start < i + |AltsText(a)|
  {
    match a
    case Last(body) => ChoiceWithin(body, i);
    case More(body, others) =>
      ChoiceWithin(body, i);
      AltsWithin(others, i + |Text(body)| + 1);
  }

  lemma {:induction false} ScanAltsFails(t: seq<Tok>, i: nat, stack: seq<Opening>, open: Opening, choice: Option<Choice>)
    requires i <= |t| && Labelled(t) && ParseAlts(t, i).Err? && open.start < i
    requires choice.Some? ==> choice.value.start < i
    ensures ScanFrom(t, i, stack + [open], choice) == Err(ParseAlts(t, i).error)
    decreases |t| - i, 1
  {
    if ParseItems(t, i, true).Err? {
      ScanItemsFails(t, i, stack + [open], choice);
    } else {
      ParsedItems(t, i, true);
      var (body, j) := ParseItems(t, i, true).value;
      assert Holds(t, i, Text(body)) && j == i + |Text(body)|;
      ScanItems(t, i, stack + [open], choice, body);
      var found := Or(choice, FirstChoice(body, i));
      var grown := Opening(open.start, open.commas + [j]);
      ScanComma(t, j, stack, open, found);
      ChoiceWithin(body, i);
      ScanAltsFails(t, j + 1, stack, grown, found);
    }
  }

  /** The nesting of a whole source. */
  function Parse(source: string): Result<Items, BraceError> {
    match ParseItems(Label(source), 0, false)
    case Err(e) => Err(e)
    case Ok((p, _)) => Ok(p)
  }

  lemma ParseFacts(source: string)
    ensures Parse(source).Ok? ==> Text(Parse(source).value) == Label(source) && Nested(Parse(source).value, false)
    ensures Parse(source).Err? ==> ScanFrom(Label(source), 0, [], None) == Err(Parse(source).error)
  {
    var t := Label(source);
    LabelIsLabelled(CLEAN, source);
    if Parse(source).Ok? {
      ParsedItems(t, 0, false);
      assert t[0..|t|] == t;
    } else {
      ScanItemsFails(t, 0, [], None);
    }
  }

  /** On a source with a nesting, the scan returns the first choice of the nesting. */
  lemma ScanFindsFirst(value: string, p: Items)
    requires Nested(p, false) && Text(p) == Label(value)
    ensures ScanFrom(Label(value), 0, [], None) == Ok(FirstChoice(p, 0))
  {
    var t := Label(value);
    assert t[0..|t|] == t;
    ScanItems(t, 0, [], None, p);
  }

  /** The parser accepts exactly the sources whose braces are matched. */
  lemma ParsesWhenNested(source: string)
    ensures Parse(source).Ok? <==> exists p :: Nested(p, false) && Text(p) == Label(source)
  {
    ParseFacts(source);
    hide Parse, Nested, Text, Label, ScanFrom;
    if p :| Nested(p, false) && Text(p) == Label(source) { ScanFindsFirst(source, p); }
  }

  // ---------------------------------------------------------------- the loop

  /** The scan as the source runs it over the characters of a value. */
  method Scan(value: string) returns (r: Result<Option<Choice>, BraceError>)
    ensures r == ScanFrom(Label(value), 0, [], None)
  {
    var stack: seq<Opening>, choice: Option<Choice>, inClass := [], None, false;
    var i := 0;
    ghost var t := Label(value);
    assert value[..0] == "";
    while i < |value|
      invariant 0 <= i <= |value| + 1
      invariant i <= |value| ==> EndMode(CLEAN, value[..i]) == Mode(inClass, false)
      invariant ScanFrom(t, Min(i, |value|), stack, choice) == ScanFrom(t, 0, [], None)
    {
      var c := value[i];
      LabelAt(CLEAN, value, i);
      if c == '\\' {
        if i + 1 < |value| { LabelAt(CLEAN, value, i + 1); }
        i := i + 2;
        continue;
      }
      if c == '[' { inClass := true; }
      if c == ']' { inClass := false; }
      if !inClass {
        if c == '{' {
          stack := stack + [Opening(i, [])];
        } else if c == ',' && |stack| > 0 {
          stack := AddComma(stack, i);
        } else if c == '}' {
          if stack == [] { return Err(UnmatchedClose); }
          var open := stack[|stack| - 1];
          stack := stack[..|stack| - 1];
          choice := Prefer(open, i, choice);
        }
      }
      i := i + 1;
    }
    if |stack| > 0 { return Err(UnclosedBrace); }
    return Ok(choice);
  }
}
