/**
 * Snapshot path lookup (`resolve` in `internal/image.ts`, `preparePath` in `internal/engine.ts`). The source rewrites
 * the path and starts over at every symbolic link; the reference resolves each link's target on its own and goes on
 * from the node it names. They agree, and the only use of the traversal limit is to stop.
 */
module Resolve {
  import opened Basics
  import opened Forest
  import opened Volumes

  const MAX_SYMLINK_TRAVERSALS := 40

  datatype FsCode = NotFound | NotDirectory | SymlinkLoop | PathTooLong | InvalidArgument

  // ---------------------------------------------------------------- prepared paths

  /** `suffixes[i]` is what follows component `i`, slash included. */
  datatype Prepared = Prepared(absolute: bool, trailingSlash: bool, components: seq<Name>, suffixes: seq<bytes>)

  /** Where the component starting at `from` ends. */
  function SlashAt(b: bytes, from: nat): (k: nat)
    requires from <= |b|
    ensures from <= k <= |b| && (forall i :: from <= i < k ==> b[i] != SLASH) && (k < |b| ==> b[k] == SLASH)
    decreases |b| - from
  {
    if from == |b| || b[from] == SLASH then from else SlashAt(b, from + 1)
  }

  /** The nonempty stretches between slashes. */
  function Components(b: bytes): seq<Name>
    decreases |b|
  {
    if b == [] then []
    else if b[0] == SLASH then Components(b[1..])
    else [b[..SlashAt(b, 0)]] + Components(b[SlashAt(b, 0)..])
  }

  function Suffixes(b: bytes): seq<bytes>
    decreases |b|
  {
    if b == [] then []
    else if b[0] == SLASH then Suffixes(b[1..])
    else [b[SlashAt(b, 0)..]] + Suffixes(b[SlashAt(b, 0)..])
  }

  predicate TrailingSlash(b: bytes) { b != [] && b[|b| - 1] == SLASH }

  predicate AllShort(names: seq<Name>) { forall i :: 0 <= i < |names| ==> |names[i]| <= MAX_NAME_BYTES }

  function Prepare(b: bytes): Result<Prepared, FsCode> {
    if b == [] then Err(NotFound)
    else if 0 in b then Err(InvalidArgument)
    else if !AllShort(Components(b)) then Err(PathTooLong)
    else Ok(Prepared(b[0] == SLASH, TrailingSlash(b), Components(b), Suffixes(b)))
  }

  lemma {:induction false} SameLength(b: bytes)
    ensures |Suffixes(b)| == |Components(b)|
    decreases |b|
  {
    if b != [] {
      if b[0] == SLASH { SameLength(b[1..]); } else { SameLength(b[SlashAt(b, 0)..]); }
    }
  }

  /** What follows a component: nothing after the last one unless the path ends with a slash, else the other ones. */
  lemma {:induction false} SuffixMeans(b: bytes, i: nat)
    requires i < |Components(b)|
    ensures |Suffixes(b)| == |Components(b)|
    ensures var s := Suffixes(b)[i];
            && Components(s) == Components(b)[i + 1..]
            && (s == [] || s[0] == SLASH)
            && (s == [] <==> i == |Components(b)| - 1 && !TrailingSlash(b))
            && (s != [] ==> TrailingSlash(s) == TrailingSlash(b))
            && (0 !in b ==> 0 !in s)
    decreases |b|
  {
    SameLength(b);
    if b[0] == SLASH {
      SuffixMeans(b[1..], i);
    } else {
      var k := SlashAt(b, 0);
      var rest := b[k..];
      if i > 0 {
        SuffixMeans(rest, i - 1);
        assert Components(b)[i + 1..] == Components(rest)[i..];
      } else {
        assert Components(b)[1..] == Components(rest);
        if rest != [] { RestHasMore(rest); }
      }
    }
  }

  /** After a slash there are more components, or the path ends with a slash. */
  lemma {:induction false} RestHasMore(rest: bytes)
    requires rest != [] && rest[0] == SLASH
    ensures Components(rest) != [] || TrailingSlash(rest)
    decreases |rest|
  {
    if |rest| > 1 && rest[1] == SLASH { RestHasMore(rest[1..]); }
  }

  /** Appending a suffix to a link target appends its components. */
  lemma {:induction false} ComponentsAppend(target: bytes, suffix: bytes)
    requires suffix == [] || suffix[0] == SLASH
    ensures Components(target + suffix) == Components(target) + Components(suffix)
    decreases |target|
  {
    if target == [] {
      assert target + suffix == suffix;
    } else if target[0] == SLASH {
      assert (target + suffix)[1..] == target[1..] + suffix;
      ComponentsAppend(target[1..], suffix);
    } else {
      var k, all := SlashAt(target, 0), target + suffix;
      SlashSame(target, suffix, 0);
      assert all[..k] == target[..k] && all[k..] == target[k..] + suffix;
      ComponentsAppend(target[k..], suffix);
    }
  }

  lemma {:induction false} SlashSame(target: bytes, suffix: bytes, from: nat)
    requires (suffix == [] || suffix[0] == SLASH) && from <= |target|
    ensures SlashAt(target + suffix, from) == SlashAt(target, from)
    decreases |target| - from
  {
    if from < |target| && target[from] != SLASH { SlashSame(target, suffix, from + 1); }
  }

  /** The loop of `preparePath`. */
  method PreparePath(b: bytes) returns (r: Result<Prepared, FsCode>)
    ensures r == Prepare(b)
  {
    hide Components, Suffixes;
    if b == [] { return Err(NotFound); }
    if 0 in b { return Err(InvalidArgument); }
    NoMore(b);
    var components: seq<Name>, suffixes: seq<bytes>, start, index := [], [], 0, 0;
    assert b[0..] == b;
    while index <= |b|
      invariant 0 <= start <= index <= |b| + 1 && start <= |b| + 1 && (index == |b| + 1 ==> start == index)
      invariant AllShort(components) && b != [] && 0 !in b
      invariant forall k :: start <= k < index && k < |b| ==> b[k] != SLASH
      invariant start <= |b| ==> components + Components(b[start..]) == Components(b)
                                 && suffixes + Suffixes(b[start..]) == Suffixes(b)
      invariant start == |b| + 1 ==> components == Components(b) && suffixes == Suffixes(b)
    {
      if index == |b| || b[index] == SLASH {
        if index > start {
          var name := b[start..index];
          FirstComponent(b, start, index);
          if |name| > MAX_NAME_BYTES {
            assert Components(b)[|components|] == name;
            return Err(PathTooLong);
          }
          components, suffixes := components + [name], suffixes + [b[index..]];
        }
        if index < |b| { SkipSlash(b, index); }
        start := index + 1;
      }
      index := index + 1;
    }
    return Ok(Prepared(b[0] == SLASH, TrailingSlash(b), components, suffixes));
  }

  lemma NoMore(b: bytes)
    ensures Components(b[|b|..]) == [] && Suffixes(b[|b|..]) == []
  {
  }

  lemma SkipSlash(b: bytes, index: nat)
    requires index < |b| && b[index] == SLASH
    ensures Components(b[index..]) == Components(b[index + 1..]) && Suffixes(b[index..]) == Suffixes(b[index + 1..])
  {
    assert b[index..][1..] == b[index + 1..];
  }

  lemma FirstComponent(b: bytes, start: nat, index: nat)
    requires start < index <= |b| && (index == |b| || b[index] == SLASH)
    requires forall k :: start <= k < index ==> b[k] != SLASH
    ensures Components(b[start..]) == [b[start..index]] + Components(b[index..])
    ensures Suffixes(b[start..]) == [b[index..]] + Suffixes(b[index..])
  {
    var s := b[start..];
    SlashUnique(s, 0, index - start);
    assert s[..index - start] == b[start..index] && s[index - start..] == b[index..];
  }

  lemma {:induction false} SlashUnique(b: bytes, from: nat, k: nat)
    requires from <= k <= |b| && (forall i :: from <= i < k ==> b[i] != SLASH) && (k < |b| ==> b[k] == SLASH)
    ensures SlashAt(b, from) == k
    decreases k - from
  {
    if from < k { SlashUnique(b, from + 1, k); }
  }

  // ---------------------------------------------------------------- the two readings of a path

  /** Where a lookup from the root can stand: detached directories are out of its reach. */
  ghost predicate Standing(v: Volume, i: Ino) {
    i in v && (v[i].Directory? ==> Live(v, i))
  }

  /** What one component leads to, before links are considered. */
  function Enter(v: Volume, current: Ino, name: Name): (r: Result<Ino, FsCode>)
    requires current in v && v[current].Directory? ==> v[current].parent in v
    ensures r.Ok? && current in v ==> r.value in v
  {
    if current !in v || !v[current].Directory? then Err(NotDirectory)
    else if name == [DOT] then Ok(current)
    else if name == [DOT, DOT] then Ok(v[current].parent)
    else if name in v[current].entries && v[current].entries[name] in v then Ok(v[current].entries[name])
    else Err(NotFound)
  }

  /** A lookup goes on from where it can stand. */
  lemma EnterStands(v: Volume, current: Ino, name: Name)
    requires WellFormed(v) && Standing(v, current)
    ensures current in v && (v[current].Directory? ==> v[current].parent in v)
    ensures Enter(v, current, name).Ok? ==> Standing(v, Enter(v, current, name).value)
  {
    if v[current].Directory? {
      if current != ROOT { LiveParent(v, current); }
      if name in v[current].entries { ChildLive(v, current, name); }
    }
  }

  lemma RootStands(v: Volume)
    requires WellFormed(v)
    ensures ROOT in v && v[ROOT].Directory? && Standing(v, ROOT)
  {
    RootLive(v);
  }

  /** A component that names a symbolic link the lookup has to follow. */
  predicate Follows(v: Volume, current: Ino, name: Name, last: bool, follow: bool) {
    && current in v && v[current].Directory? && name != [DOT] && name != [DOT, DOT]
    && name in v[current].entries && v[current].entries[name] in v && v[v[current].entries[name]].Symlink?
    && (!last || follow)
  }

  function TargetOf(v: Volume, current: Ino, name: Name): bytes
    requires Follows(v, current, name, false, true)
  {
    v[v[current].entries[name]].target
  }

  /** The end of a path: a trailing slash asks for a directory. */
  function Arrive(v: Volume, node: Ino, trailing: bool): Result<Ino, FsCode> {
    if trailing && !(node in v && v[node].Directory?) then Err(NotDirectory) else Ok(node)
  }

  /**
   * The source's reading: at a link, splice the target's components in front of the remaining ones and go on from the
   * link's directory or the root. `budget` expansions are left.
   */
  function Splice(v: Volume, current: Ino, rest: seq<Name>, trailing: bool, follow: bool, budget: nat): Result<Ino, FsCode>
    requires WellFormed(v) && Standing(v, current)
    decreases budget, |rest|
  {
    RootStands(v);
    if rest == [] then Arrive(v, current, trailing)
    else if Follows(v, current, rest[0], |rest| == 1 && !trailing, follow) then
      var target := TargetOf(v, current, rest[0]);
      if target == [] then Err(NotFound)
      else if budget == 0 then Err(SymlinkLoop)
      else
        match Prepare(target)
        case Err(e) => Err(e)
        case Ok(path) =>
          Splice(v, if path.absolute then ROOT else current, path.components + rest[1..],
                 if |rest| == 1 && !trailing then path.trailingSlash else trailing, follow, budget - 1)
    else
      EnterStands(v, current, rest[0]);
      match Enter(v, current, rest[0])
      case Err(e) => Err(e)
      case Ok(next) => Splice(v, next, rest[1..], trailing, follow, budget)
  }

  /**
   * The reference: resolve the link's target by itself, following every link in it, and continue from the node it
   * names with the expansions it left.
   */
  function Nest(v: Volume, current: Ino, rest: seq<Name>, trailing: bool, follow: bool, budget: nat)
    : (r: Result<(Ino, nat), FsCode>)
    requires WellFormed(v) && Standing(v, current)
    ensures r.Ok? ==> Standing(v, r.value.0) && r.value.1 <= budget
    decreases budget, |rest|
  {
    RootStands(v);
    if rest == [] then (match Arrive(v, current, trailing) case Err(e) => Err(e) case Ok(node) => Ok((node, budget)))
    else if Follows(v, current, rest[0], |rest| == 1 && !trailing, follow) then
      var target := TargetOf(v, current, rest[0]);
      if target == [] then Err(NotFound)
      else if budget == 0 then Err(SymlinkLoop)
      else
        match Prepare(target)
        case Err(e) => Err(e)
        case Ok(path) =>
          match Nest(v, if path.absolute then ROOT else current, path.components, path.trailingSlash, true, budget - 1)
          case Err(e) => Err(e)
          case Ok((node, left)) => Nest(v, node, rest[1..], trailing, follow, left)
    else
      EnterStands(v, current, rest[0]);
      match Enter(v, current, rest[0])
      case Err(e) => Err(e)
      case Ok(next) => Nest(v, next, rest[1..], trailing, follow, budget)
  }

  lemma SpliceEnters(v: Volume, current: Ino, rest: seq<Name>, trailing: bool, follow: bool, budget: nat)
    requires WellFormed(v) && Standing(v, current) && rest != []
    requires !Follows(v, current, rest[0], |rest| == 1 && !trailing, follow)
    ensures var next := Enter(v, current, rest[0]); next.Ok? ==> Standing(v, next.value)
    ensures var entered := Enter(v, current, rest[0]);
            Splice(v, current, rest, trailing, follow, budget) ==
            if entered.Err? then Err(entered.error) else Splice(v, entered.value, rest[1..], trailing, follow, budget)
  {
    EnterStands(v, current, rest[0]);
  }

  lemma SpliceFollows(v: Volume, current: Ino, rest: seq<Name>, trailing: bool, follow: bool, budget: nat)
    requires WellFormed(v) && Standing(v, current) && rest != []
    requires Follows(v, current, rest[0], |rest| == 1 && !trailing, follow)
    ensures Standing(v, ROOT)
    ensures var target := TargetOf(v, current, rest[0]);
            Splice(v, current, rest, trailing, follow, budget) ==
            if target == [] then Err(NotFound)
            else if budget == 0 then Err(SymlinkLoop)
            else
              match Prepare(target)
              case Err(e) => Err(e)
              case Ok(path) =>
                Splice(v, if path.absolute then ROOT else current, path.components + rest[1..],
                       if |rest| == 1 && !trailing then path.trailingSlash else trailing, follow, budget - 1)
  {
    RootStands(v);
  }

  lemma SpliceArrives(v: Volume, current: Ino, trailing: bool, follow: bool, budget: nat)
    requires WellFormed(v) && Standing(v, current)
    ensures current in v
    ensures Splice(v, current, [], trailing, follow, budget) ==
            if trailing && !v[current].Directory? then Err(NotDirectory) else Ok(current)
  {
  }

  lemma NestEnters(v: Volume, current: Ino, rest: seq<Name>, trailing: bool, follow: bool, budget: nat)
    requires WellFormed(v) && Standing(v, current) && rest != []
    requires !Follows(v, current, rest[0], |rest| == 1 && !trailing, follow)
    ensures var next := Enter(v, current, rest[0]); next.Ok? ==> Standing(v, next.value)
    ensures var entered := Enter(v, current, rest[0]);
            Nest(v, current, rest, trailing, follow, budget) ==
            if entered.Err? then Err(entered.error) else Nest(v, entered.value, rest[1..], trailing, follow, budget)
  {
    EnterStands(v, current, rest[0]);
  }

  lemma NestFollows(v: Volume, current: Ino, rest: seq<Name>, trailing: bool, follow: bool, budget: nat)
    requires WellFormed(v) && Standing(v, current) && rest != []
    requires Follows(v, current, rest[0], |rest| == 1 && !trailing, follow)
    ensures Standing(v, ROOT)
    ensures var target := TargetOf(v, current, rest[0]);
            Nest(v, current, rest, trailing, follow, budget) ==
            if target == [] then Err(NotFound)
            else if budget == 0 then Err(SymlinkLoop)
            else if Prepare(target).Err? then Err(Prepare(target).error)
            else
              var path := Prepare(target).value;
              var inner := Nest(v, if path.absolute then ROOT else current, path.components, path.trailingSlash, true, budget - 1);
              if inner.Err? then Err(inner.error) else Nest(v, inner.value.0, rest[1..], trailing, follow, inner.value.1)
  {
    RootStands(v);
  }

  lemma NestEmpty(v: Volume, current: Ino, trailing: bool, follow: bool, budget: nat)
    requires WellFormed(v) && Standing(v, current)
    ensures Nest(v, current, [], trailing, follow, budget) ==
            if Arrive(v, current, trailing).Err? then Err(Arrive(v, current, trailing).error) else Ok((current, budget))
  {
  }

  /** Following a non-final or a followed stretch first, then the rest. */
  lemma {:induction false} SpliceSplits(
    v: Volume, current: Ino, first: seq<Name>, own: bool, rest: seq<Name>, trailing: bool, follow: bool, budget: nat)
    requires WellFormed(v) && Standing(v, current)
    requires rest != [] || (follow && trailing == own) || trailing
    ensures Splice(v, current, first + rest, trailing, follow, budget) ==
            match Nest(v, current, first, own, true, budget)
            case Err(e) => Err(e)
            case Ok((node, left)) => Splice(v, node, rest, trailing, follow, left)
    decreases budget, |first|, 1
  {
    RootStands(v);
    InVolume(v, current);
    hide Splice, Nest, WellFormed, Standing, Prepare;
    if first == [] {
      assert first + rest == rest;
      NestEmpty(v, current, own, true, budget);
      if own && !v[current].Directory? {
        if rest == [] {
          SpliceArrives(v, current, trailing, follow, budget);
        } else {
          SpliceEnters(v, current, rest, trailing, follow, budget);
        }
      }
    } else {
      var all := first + rest;
      assert all[0] == first[0] && all[1..] == first[1..] + rest;
      var last, ownLast := |all| == 1 && !trailing, |first| == 1 && !own;
      assert Follows(v, current, first[0], last, follow) == Follows(v, current, first[0], ownLast, true);
      if Follows(v, current, first[0], last, follow) {
        SplitsFollow(v, current, first, own, rest, trailing, follow, budget);
      } else {
        SpliceEnters(v, current, all, trailing, follow, budget);
        NestEnters(v, current, first, own, true, budget);
        EnterStands(v, current, first[0]);
        hide Follows, Enter;
        var next := Enter(v, current, first[0]);
        if next.Ok? { SpliceSplits(v, next.value, first[1..], own, rest, trailing, follow, budget); }
      }
    }
  }

  /** The case of a link at the front. */
  lemma {:induction false} SplitsFollow(
    v: Volume, current: Ino, first: seq<Name>, own: bool, rest: seq<Name>, trailing: bool, follow: bool, budget: nat)
    requires WellFormed(v) && Standing(v, current)
    requires rest != [] || (follow && trailing == own) || trailing
    requires first != [] && Follows(v, current, first[0], |first| == 1 && !own, true)
    requires Follows(v, current, first[0], |first + rest| == 1 && !trailing, follow)
    ensures Splice(v, current, first + rest, trailing, follow, budget) ==
            match Nest(v, current, first, own, true, budget)
            case Err(e) => Err(e)
            case Ok((node, left)) => Splice(v, node, rest, trailing, follow, left)
    decreases budget, |first|, 0
  {
    RootStands(v);
    hide Splice, Nest, WellFormed, Standing, Prepare;
    var all := first + rest;
    assert all[0] == first[0] && all[1..] == first[1..] + rest;
    SpliceFollows(v, current, all, trailing, follow, budget);
    NestFollows(v, current, first, own, true, budget);
    var target := TargetOf(v, current, first[0]);
    hide Follows, TargetOf;
    if target != [] && budget > 0 && Prepare(target).Ok? {
      var path := Prepare(target).value;
      var base := if path.absolute then ROOT else current;
      var last := |all| == 1 && !trailing;
      var spliced := if last then path.trailingSlash else trailing;
      SpliceSplits(v, base, path.components, path.trailingSlash, first[1..] + rest, spliced, follow, budget - 1);
      var inner := Nest(v, base, path.components, path.trailingSlash, true, budget - 1);
      if inner.Ok? {
        var node, left := inner.value.0, inner.value.1;
        NestArrives(v, base, path.components, path.trailingSlash, true, budget - 1);
        InVolume(v, node);
        LastTarget(v, node, first[1..] + rest, spliced, trailing, follow, left, last, path);
        SpliceSplits(v, node, first[1..], own, rest, trailing, follow, left);
      }
    }
  }

  /** After the last component's target was resolved, its own trailing slash has been honoured. */
  lemma LastTarget(
    v: Volume, node: Ino, rest: seq<Name>, spliced: bool, trailing: bool, follow: bool, left: nat, last: bool, path: Prepared)
    requires WellFormed(v) && Standing(v, node)
    requires spliced == if last then path.trailingSlash else trailing
    requires last ==> rest == [] && !trailing && (path.trailingSlash ==> v[node].Directory?)
    ensures Splice(v, node, rest, spliced, follow, left) == Splice(v, node, rest, trailing, follow, left)
  {
  }

  /** Rewriting the path and resolving each link on its own give the same node or the same failure. */
  lemma {:induction false} SpliceIsNest(
    v: Volume, current: Ino, rest: seq<Name>, trailing: bool, follow: bool, budget: nat)
    requires WellFormed(v) && Standing(v, current)
    ensures Splice(v, current, rest, trailing, follow, budget) ==
            match Nest(v, current, rest, trailing, follow, budget) case Err(e) => Err(e) case Ok((node, _)) => Ok(node)
    decreases budget, |rest|
  {
    RootStands(v);
    hide WellFormed, Live;
    if rest != [] {
      var last := |rest| == 1 && !trailing;
      if Follows(v, current, rest[0], last, follow) {
        var target := TargetOf(v, current, rest[0]);
        if target != [] && budget > 0 && Prepare(target).Ok? {
          var path := Prepare(target).value;
          var base := if path.absolute then ROOT else current;
          var spliced := if last then path.trailingSlash else trailing;
          SpliceSplits(v, base, path.components, path.trailingSlash, rest[1..], spliced, follow, budget - 1);
          match Nest(v, base, path.components, path.trailingSlash, true, budget - 1) {
            case Err(e) =>
            case Ok((node, left)) =>
              NestArrives(v, base, path.components, path.trailingSlash, true, budget - 1);
              LastTarget(v, node, rest[1..], spliced, trailing, follow, left, last, path);
              SpliceIsNest(v, node, rest[1..], trailing, follow, left);
          }
        }
      } else {
        EnterStands(v, current, rest[0]);
        var next := Enter(v, current, rest[0]);
        if next.Ok? { SpliceIsNest(v, next.value, rest[1..], trailing, follow, budget); }
      }
    }
  }

  lemma {:induction false} NestArrives(v: Volume, current: Ino, rest: seq<Name>, trailing: bool, follow: bool, budget: nat)
    requires WellFormed(v) && Standing(v, current) && Nest(v, current, rest, trailing, follow, budget).Ok?
    ensures trailing ==> v[Nest(v, current, rest, trailing, follow, budget).value.0].Directory?
    decreases budget, |rest|
  {
    RootStands(v);
    hide WellFormed, Live;
    if rest != [] {
      if Follows(v, current, rest[0], |rest| == 1 && !trailing, follow) {
        var path := Prepare(TargetOf(v, current, rest[0])).value;
        var base := if path.absolute then ROOT else current;
        var (node, left) := Nest(v, base, path.components, path.trailingSlash, true, budget - 1).value;
        NestArrives(v, node, rest[1..], trailing, follow, left);
      } else {
        EnterStands(v, current, rest[0]);
        NestArrives(v, Enter(v, current, rest[0]).value, rest[1..], trailing, follow, budget);
      }
    }
  }

  /** More budget changes nothing unless the lookup ran out of it. */
  lemma {:induction false} BudgetOnlyStops(
    v: Volume, current: Ino, rest: seq<Name>, trailing: bool, follow: bool, budget: nat, more: nat)
    requires WellFormed(v) && Standing(v, current) && budget <= more
    ensures Splice(v, current, rest, trailing, follow, budget) != Err(SymlinkLoop) ==>
              Splice(v, current, rest, trailing, follow, more) == Splice(v, current, rest, trailing, follow, budget)
    decreases budget, |rest|
  {
    RootStands(v);
    hide WellFormed, Live;
    if rest != [] {
      if Follows(v, current, rest[0], |rest| == 1 && !trailing, follow) {
        var target := TargetOf(v, current, rest[0]);
        if target != [] && budget > 0 && Prepare(target).Ok? {
          var path := Prepare(target).value;
          BudgetOnlyStops(v, if path.absolute then ROOT else current, path.components + rest[1..],
                          if |rest| == 1 && !trailing then path.trailingSlash else trailing, follow, budget - 1, more - 1);
        }
      } else {
        EnterStands(v, current, rest[0]);
        var next := Enter(v, current, rest[0]);
        if next.Ok? { BudgetOnlyStops(v, next.value, rest[1..], trailing, follow, budget, more); }
      }
    }
  }

  /** A prepared path, looked up from the root within `n` link expansions. */
  ghost function Found(v: Volume, path: Prepared, follow: bool, n: nat): Result<Ino, FsCode>
    requires WellFormed(v)
  {
    RootStands(v);
    Splice(v, ROOT, path.components, path.trailingSlash, follow, n)
  }

  /** The lookup finishes within `n` link expansions. */
  ghost predicate FinishesWithin(v: Volume, path: Prepared, follow: bool, n: nat)
    requires WellFormed(v)
  {
    Found(v, path, follow, n) != Err(SymlinkLoop)
  }

  /** `SymlinkLoop` is the answer exactly when no lookup within the limit finishes. */
  lemma LoopExactlyWhen(v: Volume, path: Prepared, follow: bool)
    requires WellFormed(v)
    ensures Found(v, path, follow, 40) == Err(SymlinkLoop) <==>
            forall n: nat :: FinishesWithin(v, path, follow, n) ==> n > 40
  {
    RootStands(v);
    hide WellFormed, Standing;
    assert FinishesWithin(v, path, follow, MAX_SYMLINK_TRAVERSALS) <==>
           Found(v, path, follow, MAX_SYMLINK_TRAVERSALS) != Err(SymlinkLoop);
    forall n: nat | n <= MAX_SYMLINK_TRAVERSALS && FinishesWithin(v, path, follow, n)
      ensures FinishesWithin(v, path, follow, MAX_SYMLINK_TRAVERSALS)
    {
      BudgetOnlyStops(v, ROOT, path.components, path.trailingSlash, follow, n, MAX_SYMLINK_TRAVERSALS);
    }
  }

  // ---------------------------------------------------------------- the source's loop

  /** A target spliced in front of a suffix prepares to the spliced components. */
  lemma SplicedPath(b: bytes, i: nat, target: bytes)
    requires Prepare(b).Ok? && i < |Components(b)| && target != []
    ensures |Suffixes(b)| == |Components(b)|
    ensures var spliced := Prepare(target + Suffixes(b)[i]);
            match Prepare(target)
            case Err(e) => spliced == Err(e)
            case Ok(path) =>
              && spliced.Ok?
              && spliced.value.absolute == path.absolute
              && spliced.value.components == path.components + Components(b)[i + 1..]
              && spliced.value.trailingSlash ==
                 (if i == |Components(b)| - 1 && !TrailingSlash(b) then path.trailingSlash else TrailingSlash(b))
  {
    SuffixMeans(b, i);
    var s := Suffixes(b)[i];
    ComponentsAppend(target, s);
    assert 0 in target + s <==> 0 in target;
    var all := Components(target) + Components(b)[i + 1..];
    assert AllShort(all) <==> AllShort(Components(target)) by {
      if AllShort(all) {
        forall k | 0 <= k < |Components(target)| ensures |Components(target)[k]| <= MAX_NAME_BYTES {
          assert all[k] == Components(target)[k];
        }
      }
    }
    if s == [] { assert target + s == target; }
  }

  /** The loop stands at `current` before component `index` of `work`, and what is left leads to `answer`. */
  ghost predicate Going(
    v: Volume, current: Ino, b: bytes, work: Prepared, index: nat, follow: bool, left: nat, answer: Result<Ino, FsCode>)
    requires WellFormed(v)
  {
    && Standing(v, current) && Prepare(b) == Ok(work) && index <= |work.components|
    && Splice(v, current, work.components[index..], work.trailingSlash, follow, left) == answer
  }

  lemma Starts(v: Volume, b: bytes, work: Prepared, follow: bool, left: nat)
    requires WellFormed(v) && Prepare(b) == Ok(work)
    ensures Going(v, ROOT, b, work, 0, follow, left, Found(v, work, follow, left))
  {
    RootStands(v);
    assert work.components[0..] == work.components;
  }

  lemma Ends(
    v: Volume, current: Ino, b: bytes, work: Prepared, index: nat, follow: bool, left: nat, answer: Result<Ino, FsCode>)
    requires WellFormed(v) && Going(v, current, b, work, index, follow, left, answer) && index >= |work.components|
    ensures current in v
    ensures answer == if work.trailingSlash && !v[current].Directory? then Err(NotDirectory) else Ok(current)
  {
    assert work.components[index..] == [];
    SpliceArrives(v, current, work.trailingSlash, follow, left);
  }

  /** One component that is not followed. */
  lemma EnterStep(
    v: Volume, current: Ino, b: bytes, work: Prepared, index: nat, follow: bool, left: nat, answer: Result<Ino, FsCode>)
    requires WellFormed(v) && Going(v, current, b, work, index, follow, left, answer) && index < |work.components|
    requires !Follows(v, current, work.components[index], |work.components[index..]| == 1 && !work.trailingSlash, follow)
    ensures Standing(v, current)
    ensures var next := Enter(v, current, work.components[index]);
            if next.Err? then answer == Err(next.error) else Going(v, next.value, b, work, index + 1, follow, left, answer)
  {
    var rest := work.components[index..];
    assert rest[0] == work.components[index] && rest[1..] == work.components[index + 1..];
    SpliceEnters(v, current, rest, work.trailingSlash, follow, left);
  }

  /** One expansion. */
  lemma FollowStep(
    v: Volume, current: Ino, b: bytes, work: Prepared, index: nat, follow: bool, left: nat, answer: Result<Ino, FsCode>)
    requires WellFormed(v) && Going(v, current, b, work, index, follow, left, answer) && index < |work.components|
    requires Follows(v, current, work.components[index], |work.components[index..]| == 1 && !work.trailingSlash, follow)
    ensures index < |work.suffixes|
    ensures var target := TargetOf(v, current, work.components[index]);
            var expansion := target + work.suffixes[index];
            if target == [] then answer == Err(NotFound)
            else if left == 0 then answer == Err(SymlinkLoop)
            else if Prepare(expansion).Err? then answer == Err(Prepare(expansion).error)
            else
              var next := Prepare(expansion).value;
              Going(v, if next.absolute then ROOT else current, expansion, next, 0, follow, left - 1, answer)
  {
    var rest := work.components[index..];
    assert rest[0] == work.components[index] && rest[1..] == work.components[index + 1..];
    var target := TargetOf(v, current, work.components[index]);
    SpliceFollows(v, current, rest, work.trailingSlash, follow, left);
    PreparedParts(b, work);
    hide Follows, TargetOf, Splice, Prepare, Components, Suffixes, TrailingSlash, WellFormed, Standing;
    if target != [] {
      SplicedPath(b, index, target);
      var expanded := Prepare(target + work.suffixes[index]);
      if expanded.Ok? { assert expanded.value.components[0..] == expanded.value.components; }
    }
  }

  /** The lookup loop: `work` is rewritten and `index` starts over at every link. */
  method ResolvePath(v: Volume, input: bytes, follow: bool) returns (r: Result<Ino, FsCode>)
    requires WellFormed(v)
    ensures Prepare(input).Err? ==> r == Err(Prepare(input).error)
    ensures Prepare(input).Ok? ==> r == Found(v, Prepare(input).value, follow, 40)
  {
    hide WellFormed, Going, Standing, Splice, Components, Suffixes, Enter, Follows, Prepare, TrailingSlash, Found, TargetOf;
    var prepared := PreparePath(input);
    if prepared.Err? { return Err(prepared.error); }
    var work, bytesOfWork, current, traversals, index := prepared.value, input, ROOT, 0, 0;
    ghost var answer := Found(v, work, follow, MAX_SYMLINK_TRAVERSALS);
    Starts(v, input, work, follow, MAX_SYMLINK_TRAVERSALS);
    while index < |work.components|
      invariant traversals <= MAX_SYMLINK_TRAVERSALS
      invariant Going(v, current, bytesOfWork, work, index, follow, MAX_SYMLINK_TRAVERSALS - traversals, answer)
      decreases MAX_SYMLINK_TRAVERSALS - traversals, |work.components| - index
    {
      GoingStands(v, current, bytesOfWork, work, index, follow, MAX_SYMLINK_TRAVERSALS - traversals, answer);
      var followed, entered, target := EnterOne(v, current, work, index, follow);
      if !followed {
        EnterStep(v, current, bytesOfWork, work, index, follow, MAX_SYMLINK_TRAVERSALS - traversals, answer);
        if entered.Err? { return Err(entered.error); }
        current, index := entered.value, index + 1;
        continue;
      }
      FollowStep(v, current, bytesOfWork, work, index, follow, MAX_SYMLINK_TRAVERSALS - traversals, answer);
      if |target| == 0 { return Err(NotFound); }
      traversals := traversals + 1;
      if traversals > MAX_SYMLINK_TRAVERSALS { return Err(SymlinkLoop); }
      var expansion := target + work.suffixes[index];
      var expanded := PreparePath(expansion);
      if expanded.Err? { return Err(expanded.error); }
      work, bytesOfWork, index := expanded.value, expansion, 0;
      if work.absolute { current := ROOT; }
    }
    Ends(v, current, bytesOfWork, work, index, follow, MAX_SYMLINK_TRAVERSALS - traversals, answer);
    return if work.trailingSlash && !v[current].Directory? then Err(NotDirectory) else Ok(current);
  }

  lemma GoingStands(
    v: Volume, current: Ino, b: bytes, work: Prepared, index: nat, follow: bool, left: nat, answer: Result<Ino, FsCode>)
    requires WellFormed(v) && Going(v, current, b, work, index, follow, left, answer)
    ensures Standing(v, current)
  {
  }

  lemma PreparedParts(b: bytes, path: Prepared)
    requires Prepare(b) == Ok(path)
    ensures path.components == Components(b) && path.suffixes == Suffixes(b) && |path.suffixes| == |path.components|
    ensures path.trailingSlash == TrailingSlash(b)
  {
    SameLength(b);
  }

  lemma InVolume(v: Volume, i: Ino)
    requires Standing(v, i)
    ensures i in v
  {
  }

  /** One component: the node it leads to, and whether that is a link the lookup follows. */
  method EnterOne(v: Volume, current: Ino, work: Prepared, index: nat, follow: bool)
    returns (followed: bool, next: Result<Ino, FsCode>, target: bytes)
    requires WellFormed(v) && Standing(v, current) && index < |work.components|
    ensures followed ==
            Follows(v, current, work.components[index], |work.components[index..]| == 1 && !work.trailingSlash, follow)
    ensures next == Enter(v, current, work.components[index])
    ensures next.Ok? ==> Standing(v, next.value)
    ensures followed ==> target == TargetOf(v, current, work.components[index])
  {
    var component := work.components[index];
    EnterStands(v, current, component);
    if !v[current].Directory? { return false, Err(NotDirectory), []; }
    if component == [DOT] { return false, Ok(current), []; }
    if component == [DOT, DOT] { return false, Ok(v[current].parent), []; }
    if component !in v[current].entries || v[current].entries[component] !in v { return false, Err(NotFound), []; }
    var child := v[current].entries[component];
    if !v[child].Symlink? || (index == |work.components| - 1 && !work.trailingSlash && !follow) {
      return false, Ok(child), [];
    }
    return true, Ok(child), v[child].target;
  }
}
