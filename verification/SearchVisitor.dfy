/**
 * The search visitor (`makeVisitor` in `internal/search.ts`): an explicit stack of directories, pulled one row at a
 * time, that delays a directory's children to the next pull and reserves prepared siblings against the entry budget.
 * The reference is the recursive pre-order in byte order of names, less pruned and undecodable subtrees.
 */
module SearchVisitor {
  import opened Basics
  import opened Forest
  import opened Sorting
  import opened Volumes
  import Walks

  datatype Selection = Selection(selected: bool, prune: bool)

  /** What a search is given: which names are text, and what its selectors say of an entry. */
  datatype Search = Search(decodes: Name -> bool, choose: (Path, Ino) -> Selection)

  /** One child met on the way; only those whose names decode are offered to the selectors. */
  datatype Visit = Visit(path: Path, ino: Ino, decodable: bool)

  // ---------------------------------------------------------------- the recursive pre-order

  ghost predicate Walkable(v: Volume, d: Ino) {
    d in v && v[d].Directory? && Live(v, d)
  }

  predicate Descends(v: Volume, s: Search, path: Path, c: Ino) {
    c in v && v[c].Directory? && path != [] && s.decodes(path[|path| - 1]) && !s.choose(path, c).prune
  }

  /** Every child met below `d`, whose path is `at`. */
  ghost function Tour(v: Volume, s: Search, d: Ino, at: Path): seq<Visit>
    requires WellFormed(v) && Walkable(v, d)
    decreases Height(v, d), 1, 0
  {
    assert forall n :: n in SortedNames(v[d]) ==> n in Elements(SortedNames(v[d]));
    TourOf(v, s, d, at, SortedNames(v[d]))
  }

  /** The part of the tour that the children in `names` start. */
  ghost function TourOf(v: Volume, s: Search, d: Ino, at: Path, names: seq<Name>): seq<Visit>
    requires WellFormed(v) && Walkable(v, d) && forall n :: n in names ==> n in v[d].entries
    decreases Height(v, d), 0, |names|
  {
    if names == [] then []
    else
      var n := names[0];
      var c := v[d].entries[n];
      ChildLower(v, d, n);
      [Visit(at + [n], c, s.decodes(n))]
      + (if Descends(v, s, at + [n], c) then Tour(v, s, c, at + [n]) else [])
      + TourOf(v, s, d, at, names[1..])
  }

  /** The entries a search reports, in order. */
  function Reported(s: Search, visits: seq<Visit>): seq<Visit> {
    if visits == [] then []
    else
      (if visits[0].decodable && s.choose(visits[0].path, visits[0].ino).selected then [visits[0]] else [])
      + Reported(s, visits[1..])
  }

  lemma ReportedStep(s: Search, x: Visit, rest: seq<Visit>)
    ensures Reported(s, [x] + rest) ==
            (if x.decodable && s.choose(x.path, x.ino).selected then [x] else []) + Reported(s, rest)
  {
    assert ([x] + rest)[1..] == rest;
  }

  lemma TourStep(v: Volume, s: Search, d: Ino, at: Path, names: seq<Name>)
    requires WellFormed(v) && Walkable(v, d) && names != [] && forall n :: n in names ==> n in v[d].entries
    ensures var n := names[0];
            && n in v[d].entries && v[d].entries[n] in v && (v[v[d].entries[n]].Directory? ==> Walkable(v, v[d].entries[n]))
    ensures var n := names[0];
            var c := v[d].entries[n];
            TourOf(v, s, d, at, names) ==
            [Visit(at + [n], c, s.decodes(n))]
            + (if Descends(v, s, at + [n], c) then Tour(v, s, c, at + [n]) else [])
            + TourOf(v, s, d, at, names[1..])
  {
    ChildLower(v, d, names[0]);
  }

  lemma TourStart(v: Volume, s: Search, d: Ino, at: Path)
    requires WellFormed(v) && Walkable(v, d)
    ensures forall n :: n in SortedNames(v[d]) <==> n in v[d].entries
    ensures Tour(v, s, d, at) == TourOf(v, s, d, at, SortedNames(v[d]))
    ensures |SortedNames(v[d])| == |v[d].entries|
  {
    var names := SortedNames(v[d]);
    LexOrders(v[d].entries.Keys);
    AscendingDistinct(LexLess, v[d].entries.Keys, names);
    assert forall n :: n in names <==> n in Elements(names);
  }

  lemma {:induction false} TourAtLeast(v: Volume, s: Search, d: Ino, at: Path, names: seq<Name>)
    requires WellFormed(v) && Walkable(v, d) && forall n :: n in names ==> n in v[d].entries
    ensures |TourOf(v, s, d, at, names)| >= |names|
    decreases |names|
  {
    hide WellFormed, Walkable, Tour, TourOf, Descends;
    if names == [] {
    } else {
      TourStep(v, s, d, at, names);
      TourAtLeast(v, s, d, at, names[1..]);
    }
  }

  // ---------------------------------------------------------------- against the snapshot walk

  /** The visits of a walk as visits of a search. */
  function Met(l: seq<Walks.Visit>): (r: seq<Visit>)
    ensures |r| == |l|
  {
    seq(|l|, k requires 0 <= k < |l| => Visit(l[k].path, l[k].ino, true))
  }

  lemma MetAppend(a: seq<Walks.Visit>, b: seq<Walks.Visit>)
    ensures Met(a + b) == Met(a) + Met(b)
  {
  }

  lemma MetOne(ino: Ino, path: Path)
    ensures Met([Walks.Visit(ino, path)]) == [Visit(path, ino, true)]
  {
  }

  /** Selectors that never prune, in a tree whose names all decode. */
  ghost predicate Open(s: Search) {
    (forall n :: s.decodes(n)) && (forall p, i :: !s.choose(p, i).prune)
  }

  /** With nothing pruned or undecodable, the tour is the snapshot walk without its root. */
  lemma {:induction false} OpenTourIsWalk(v: Volume, s: Search, d: Ino, at: Path)
    requires WellFormed(v) && Walkable(v, d) && Open(s)
    ensures Walks.Walkable(v, d) && Met(Walks.Visits(v, d, at)) == [Visit(at, d, true)] + Tour(v, s, d, at)
    decreases Height(v, d), 1, 0
  {
    assert Walks.Walkable(v, d) && d in v && v[d].Directory?;
    hide *;
    Walks.VisitsStep(v, d, at);
    TourStart(v, s, d, at);
    OpenTourIsBelow(v, s, d, at, SortedNames(v[d]));
    MetOne(d, at);
    MetAppend([Walks.Visit(d, at)], Walks.Below(v, d, at, SortedNames(v[d])));
  }

  lemma {:induction false} OpenTourIsBelow(v: Volume, s: Search, d: Ino, at: Path, names: seq<Name>)
    requires WellFormed(v) && Walkable(v, d) && Open(s) && forall n :: n in names ==> n in v[d].entries
    ensures Met(Walks.Below(v, d, at, names)) == TourOf(v, s, d, at, names)
    decreases Height(v, d), 0, |names|
  {
    WalkableEither(v, d);
    hide *;
    if names == [] {
      NoneBelow(v, s, d, at);
    } else {
      var n := names[0];
      assert n in names;
      var c := v[d].entries[n];
      Walks.BelowStep(v, d, at, names);
      TourStep(v, s, d, at, names);
      OpenTourIsBelow(v, s, d, at, names[1..]);
      if v[c].Directory? { OpenTourIsWalk(v, s, c, at + [n]); } else { Walks.VisitsStep(v, c, at + [n]); }
      OpenDescends(v, s, at + [n], c);
      MetOne(c, at + [n]);
      MetAppend(Walks.Visits(v, c, at + [n]), Walks.Below(v, d, at, names[1..]));
    }
  }

  lemma WalkableEither(v: Volume, d: Ino)
    requires Walkable(v, d)
    ensures Walks.Walkable(v, d) && d in v && v[d].Directory?
  {
  }

  lemma NoneBelow(v: Volume, s: Search, d: Ino, at: Path)
    requires WellFormed(v) && Walkable(v, d)
    ensures Walks.Walkable(v, d) && v[d].Directory? && Met(Walks.Below(v, d, at, [])) == TourOf(v, s, d, at, [])
  {
  }

  lemma OpenDescends(v: Volume, s: Search, path: Path, c: Ino)
    requires Open(s) && c in v && path != []
    ensures (Descends(v, s, path, c) <==> v[c].Directory?) && s.decodes(path[|path| - 1])
  {
  }

  // ---------------------------------------------------------------- the visitor

  /** A directory on the way: its path, the length of that path in bytes, and its depth. */
  datatype Place = Place(ino: Ino, path: Path, pathBytes: nat)

  datatype Frame = Frame(place: Place, children: seq<Name>, index: nat)

  datatype Limits = Limits(maxEntries: nat, maxDepth: nat, maxPathBytes: nat)

  datatype Exceeded = MaxEntries | MaxDepth | MaxPathBytes

  function PathSize(path: Path): nat {
    if path == [] then 0
    else PathSize(path[..|path| - 1]) + (if |path| == 1 then 0 else 1) + |path[|path| - 1]|
  }

  lemma PathSizeSnoc(path: Path, n: Name)
    ensures PathSize(path + [n]) == PathSize(path) + (if path == [] then 0 else 1) + |n|
  {
    assert (path + [n])[..|path|] == path;
  }

  /** The child is neither too deep nor too long a path. */
  predicate Fits(limits: Limits, x: Visit) {
    |x.path| <= limits.maxDepth && PathSize(x.path) <= limits.maxPathBytes
  }

  predicate AllFit(limits: Limits, visits: seq<Visit>) {
    forall x :: x in visits ==> Fits(limits, x)
  }

  /** The children whose names are not text. */
  function Undecodable(visits: seq<Visit>): nat {
    if visits == [] then 0
    else Undecodable(visits[..|visits| - 1]) + (if visits[|visits| - 1].decodable then 0 else 1)
  }

  lemma {:induction false} ReportedAppend(s: Search, a: seq<Visit>, b: seq<Visit>)
    ensures Reported(s, a + b) == Reported(s, a) + Reported(s, b)
    decreases |a|
  {
    if a == [] {
      assert a + b == b;
    } else {
      assert (a + b)[1..] == a[1..] + b;
      ReportedAppend(s, a[1..], b);
    }
  }

  /** Meeting one more child. */
  lemma MetOneMore(s: Search, limits: Limits, met: seq<Visit>, x: Visit)
    ensures Reported(s, met + [x]) ==
            Reported(s, met) + (if x.decodable && s.choose(x.path, x.ino).selected then [x] else [])
    ensures Undecodable(met + [x]) == Undecodable(met) + (if x.decodable then 0 else 1)
    ensures AllFit(limits, met + [x]) <==> AllFit(limits, met) && Fits(limits, x)
  {
    ReportedAppend(s, met, [x]);
    ReportedStep(s, x, []);
    assert [x] + [] == [x] && (met + [x])[..|met|] == met;
    assert x in met + [x] && forall y :: y in met + [x] <==> y in met || y == x;
    hide Fits, Reported;
  }

  ghost predicate PlaceOk(v: Volume, p: Place) {
    Walkable(v, p.ino) && p.pathBytes == PathSize(p.path)
  }

  ghost predicate FrameOk(v: Volume, f: Frame) {
    PlaceOk(v, f.place) && f.children == SortedNames(v[f.place.ino]) && f.index <= |f.children|
  }

  ghost predicate FramesOk(v: Volume, frames: seq<Frame>) {
    forall k :: 0 <= k < |frames| ==> FrameOk(v, frames[k])
  }

  /** How many prepared children have not been met yet. */
  function Queued(frames: seq<Frame>): int {
    if frames == [] then 0
    else Queued(frames[..|frames| - 1]) + |frames[|frames| - 1].children| - frames[|frames| - 1].index
  }

  ghost function FrameTour(v: Volume, s: Search, f: Frame): seq<Visit>
    requires WellFormed(v) && FrameOk(v, f)
  {
    TourStart(v, s, f.place.ino, f.place.path);
    TourOf(v, s, f.place.ino, f.place.path, f.children[f.index..])
  }

  /** What the stack still has to meet, its last frame first. */
  ghost function StackTour(v: Volume, s: Search, frames: seq<Frame>): seq<Visit>
    requires WellFormed(v) && FramesOk(v, frames)
    decreases |frames|
  {
    if frames == [] then []
    else FrameTour(v, s, frames[|frames| - 1]) + StackTour(v, s, frames[..|frames| - 1])
  }

  lemma StackPop(v: Volume, s: Search, frames: seq<Frame>)
    requires WellFormed(v) && FramesOk(v, frames) && frames != []
    ensures var top := |frames| - 1;
            && FrameOk(v, frames[top]) && FramesOk(v, frames[..top])
            && StackTour(v, s, frames) == FrameTour(v, s, frames[top]) + StackTour(v, s, frames[..top])
            && Queued(frames) == Queued(frames[..top]) + |frames[top].children| - frames[top].index
  {
  }

  lemma StackPush(v: Volume, s: Search, frames: seq<Frame>, f: Frame)
    requires WellFormed(v) && FramesOk(v, frames) && FrameOk(v, f)
    ensures FramesOk(v, frames + [f])
    ensures StackTour(v, s, frames + [f]) == FrameTour(v, s, f) + StackTour(v, s, frames)
    ensures Queued(frames + [f]) == Queued(frames) + |f.children| - f.index
  {
    hide WellFormed, FrameOk, FrameTour;
    assert (frames + [f])[..|frames|] == frames;
  }

  lemma {:induction false} QueuedSmall(v: Volume, s: Search, frames: seq<Frame>)
    requires WellFormed(v) && FramesOk(v, frames)
    ensures 0 <= Queued(frames) <= |StackTour(v, s, frames)|
    decreases |frames|
  {
    if frames == [] {
    } else {
      StackPop(v, s, frames);
      QueuedSmall(v, s, frames[..|frames| - 1]);
      var f := frames[|frames| - 1];
      FrameNames(v, s, f);
      TourAtLeast(v, s, f.place.ino, f.place.path, f.children[f.index..]);
    }
  }

  lemma FrameNames(v: Volume, s: Search, f: Frame)
    requires WellFormed(v) && FrameOk(v, f)
    ensures Walkable(v, f.place.ino) && f.place.ino in v && v[f.place.ino].Directory? && f.index <= |f.children|
    ensures forall n :: n in f.children[f.index..] ==> n in v[f.place.ino].entries
    ensures FrameTour(v, s, f) == TourOf(v, s, f.place.ino, f.place.path, f.children[f.index..])
  {
    TourStart(v, s, f.place.ino, f.place.path);
    hide WellFormed, Live, SortedNames;
  }

  /** An exhausted frame has nothing left. */
  lemma FrameDone(v: Volume, s: Search, f: Frame)
    requires WellFormed(v) && FrameOk(v, f) && f.index == |f.children|
    ensures FrameTour(v, s, f) == []
  {
    FrameNames(v, s, f);
    assert f.children[f.index..] == [];
  }

  /** Meeting the next child of a frame. */
  lemma FrameNext(v: Volume, s: Search, f: Frame)
    requires WellFormed(v) && FrameOk(v, f) && f.index < |f.children|
    ensures var n := f.children[f.index];
            && f.place.ino in v && v[f.place.ino].Directory? && n in v[f.place.ino].entries
            && v[f.place.ino].entries[n] in v
    ensures var n, next := f.children[f.index], f.(index := f.index + 1);
            var c := v[f.place.ino].entries[n];
            var path := f.place.path + [n];
            && FrameOk(v, next) && (v[c].Directory? ==> Walkable(v, c))
            && FrameTour(v, s, f) ==
               [Visit(path, c, s.decodes(n))] + (if Descends(v, s, path, c) then Tour(v, s, c, path) else []) + FrameTour(v, s, next)
  {
    var next := f.(index := f.index + 1);
    FrameNames(v, s, f);
    assert FrameOk(v, next);
    FrameNames(v, s, next);
    hide WellFormed, FrameOk, Tour, FrameTour;
    assert f.children[f.index..][1..] == next.children[next.index..];
    TourStep(v, s, f.place.ino, f.place.path, f.children[f.index..]);
  }

  class Visitor {
    const volume: Volume
    const search: Search
    const limits: Limits
    var frames: seq<Frame>
    var deferred: Option<Place>
    var pending: nat
    var entries: nat
    var invalidNames: nat
    var invalidNameSubtrees: nat

    /** Queued children count against the entry budget before they are met. */
    ghost predicate Valid() reads this {
      && WellFormed(volume) && FramesOk(volume, frames)
      && (deferred.Some? ==> PlaceOk(volume, deferred.value))
      && pending == Queued(frames) && entries + pending <= limits.maxEntries
    }

    /** What is still to be met. */
    ghost function Ahead(): seq<Visit>
      requires Valid()
      reads this
    {
      (if deferred.Some? then Tour(volume, search, deferred.value.ino, deferred.value.path) else [])
      + StackTour(volume, search, frames)
    }

    constructor (volume: Volume, search: Search, limits: Limits, root: Ino)
      requires WellFormed(volume) && Walkable(volume, root)
      ensures Valid() && Ahead() == Tour(volume, search, root, []) && entries == 0 && pending == 0
      ensures this.volume == volume && this.search == search && this.limits == limits
    {
      this.volume, this.search, this.limits := volume, search, limits;
      frames, deferred := [], Some(Place(root, [], 0));
      pending, entries, invalidNames, invalidNameSubtrees := 0, 0, 0, 0;
      new;
      assert Tour(volume, search, root, []) + [] == Tour(volume, search, root, []);
    }

    /** `prepare`: reserve a directory's children and queue them, unless the budget cannot hold them all. */
    method Prepare(place: Place) returns (r: Result<(), Exceeded>)
      requires Valid() && deferred.None? && PlaceOk(volume, place)
      modifies this`frames, this`pending
      ensures Valid()
      ensures r.Ok? ==> Ahead() == Tour(volume, search, place.ino, place.path) + old(Ahead())
      ensures r.Err? ==> r.error == MaxEntries && frames == old(frames) && pending == old(pending)
      ensures r.Err? <==> |volume[place.ino].entries| > limits.maxEntries - entries - old(pending)
    {
      hide WellFormed, PlaceOk, Walkable, Tour, FrameOk, FrameTour;
      assert place.ino in volume && volume[place.ino].Directory? && Walkable(volume, place.ino) by { PlaceDirectory(volume, place); }
      TourStart(volume, search, place.ino, place.path);
      var node := volume[place.ino];
      var width := |node.entries|;
      if width > limits.maxEntries - entries - pending { return Err(MaxEntries); }
      if width == 0 {
        EmptyTour(volume, search, place.ino, place.path);
        assert [] + Ahead() == Ahead();
        return Ok(());
      }
      var children := ListNames(node);
      var frame := Frame(place, children, 0);
      NewFrame(volume, search, place, frame);
      StackPush(volume, search, frames, frame);
      assert [] + StackTour(volume, search, frames) == StackTour(volume, search, frames);
      frames := frames + [frame];
      pending := pending + width;
      return Ok(());
    }

    /** Prepare the directory put off by the previous pull, if any. */
    method PrepareDeferred() returns (r: Result<(), Exceeded>)
      requires Valid()
      modifies this`frames, this`pending, this`deferred
      ensures Valid() && deferred.None?
      ensures r.Ok? ==> Ahead() == old(Ahead())
      ensures r.Err? ==> r.error == MaxEntries && entries + |old(Ahead())| > limits.maxEntries
    {
      hide WellFormed, FrameOk, FrameTour, Tour, StackTour, FramesOk, PlaceOk, Queued, Walkable;
      if deferred.None? { return Ok(()); }
      var place := deferred.value;
      DeferredWidth(volume, search, place);
      QueuedSmall(volume, search, frames);
      deferred := None;
      assert [] + StackTour(volume, search, frames) == StackTour(volume, search, frames);
      r := Prepare(place);
    }

    /** Drop the frames whose children have all been met. */
    method PopExhausted()
      requires Valid() && deferred.None?
      modifies this`frames
      ensures Valid() && Ahead() == old(Ahead())
      ensures frames != [] ==> frames[|frames| - 1].index < |frames[|frames| - 1].children|
    {
      hide WellFormed, FrameOk, FrameTour;
      while frames != [] && frames[|frames| - 1].index == |frames[|frames| - 1].children|
        invariant Valid() && Ahead() == old(Ahead())
        decreases |frames|
      {
        StackPop(volume, search, frames);
        FrameDone(volume, search, frames[|frames| - 1]);
        assert [] + StackTour(volume, search, frames[..|frames| - 1]) == StackTour(volume, search, frames[..|frames| - 1]);
        frames := frames[..|frames| - 1];
      }
      if frames != [] { StackPop(volume, search, frames); TopInside(volume, frames[|frames| - 1]); }
    }

    /**
     * Meet one child: take it from its frame, offer it to the selectors, and put its children off to the next pull.
     * `visit` is the child, and `reported` says whether it is a row.
     */
    method Meet() returns (r: Result<bool, Exceeded>, visit: Visit)
      requires Valid() && deferred.None? && frames != [] && frames[|frames| - 1].index < |frames[|frames| - 1].children|
      modifies this
      ensures Valid()
      ensures r.Ok? ==> old(Ahead()) == [visit] + Ahead() && entries == old(entries) + 1
      ensures r.Ok? ==> (r.value <==> visit.decodable && search.choose(visit.path, visit.ino).selected)
      ensures r.Ok? ==> invalidNames == old(invalidNames) + (if visit.decodable then 0 else 1)
      ensures r.Ok? ==>
                invalidNameSubtrees ==
                old(invalidNameSubtrees)
                + (if !visit.decodable && visit.ino in volume && volume[visit.ino].Directory? then 1 else 0)
      ensures r.Ok? <==> Fits(limits, visit)
      ensures r.Ok? <==> |visit.path| <= limits.maxDepth && PathSize(visit.path) <= limits.maxPathBytes
      ensures r.Err? ==> old(Ahead()) != [] && visit == old(Ahead())[0]
      ensures r.Err? ==> r.error == if |visit.path| > limits.maxDepth then MaxDepth else MaxPathBytes
    {
      hide WellFormed, FrameOk, FrameTour, Tour, PathSize, Walkable, StackTour, FramesOk, Queued;
      var top := |frames| - 1;
      var frame := frames[top];
      TopOk(volume, frames, top);
      StackPop(volume, search, frames);
      FrameNext(volume, search, frame);
      var name := frame.children[frame.index];
      var ino := volume[frame.place.ino].entries[name];
      var next := frame.(index := frame.index + 1);
      ghost var below := frames[..top];
      ghost var before := StackTour(volume, search, below);
      StackPush(volume, search, below, next);
      QueuedSmall(volume, search, below + [next]);
      frames := frames[..top] + [next];
      pending := pending - 1;
      entries := entries + 1;
      var path := frame.place.path + [name];
      visit := Visit(path, ino, search.decodes(name));
      var pathBytes := frame.place.pathBytes + (if frame.place.path == [] then 0 else 1) + |name|;
      PathSizeSnoc(frame.place.path, name);
      FramePath(volume, frame);
      if |path| > limits.maxDepth { return Err(MaxDepth), visit; }
      if pathBytes > limits.maxPathBytes { return Err(MaxPathBytes), visit; }
      ghost var inner := if Descends(volume, search, path, ino) then Tour(volume, search, ino, path) else [];
      assert [visit] + inner + FrameTour(volume, search, next) + before == [visit] + (inner + (FrameTour(volume, search, next) + before));
      if !visit.decodable {
        invalidNames := invalidNames + 1;
        if volume[ino].Directory? { invalidNameSubtrees := invalidNameSubtrees + 1; }
        return Ok(false), visit;
      }
      var selection := search.choose(path, ino);
      if volume[ino].Directory? && !selection.prune { deferred := Some(Place(ino, path, pathBytes)); }
      return Ok(selection.selected), visit;
    }

    /**
     * `next`: the next row of the pre-order, the end once all of it has been met, or the budget that stopped the visit.
     * `met` are the children taken, of which only the last can be a row. The entry budget stops the visit only when
     * the whole of it would need more entries than it allows, the others at the first child that exceeds them.
     */
    method Next() returns (r: Result<Option<Visit>, Exceeded>, ghost met: seq<Visit>)
      requires Valid()
      modifies this
      ensures Valid() && AllFit(limits, met) && entries + pending <= limits.maxEntries
      ensures r.Ok? ==> old(Ahead()) == met + Ahead() && entries == old(entries) + |met|
      ensures r.Ok? ==> invalidNames == old(invalidNames) + Undecodable(met)
      ensures Reported(search, met) == if r.Ok? && r.value.Some? then [r.value.value] else []
      ensures r.Ok? && r.value.Some? ==> met != []
      ensures r.Ok? && r.value.None? ==> Ahead() == []
      ensures r == Err(MaxEntries) ==> old(entries) + |old(Ahead())| > limits.maxEntries
      ensures r.Err? && r.error != MaxEntries ==>
                && |met| < |old(Ahead())| && met == old(Ahead())[..|met|] && !Fits(limits, old(Ahead())[|met|])
                && r.error == if |old(Ahead())[|met|].path| > limits.maxDepth then MaxDepth else MaxPathBytes
    {
      hide WellFormed, FrameOk, FrameTour, Tour, Reported, StackTour, FramesOk, PlaceOk, AllFit, Fits, Undecodable, Queued,
           Walkable, PathSize;
      met := [];
      NoneMet(search, limits);
      ghost var all := Ahead();
      while true
        invariant Valid() && AllFit(limits, met) && Reported(search, met) == []
        invariant all == met + Ahead() && entries == old(entries) + |met|
        invariant invalidNames == old(invalidNames) + Undecodable(met)
        decreases |Ahead()|
      {
        var prepared := PrepareDeferred();
        if prepared.Err? { return Err(prepared.error), met; }
        PopExhausted();
        if frames == [] {
          StackEmpty(volume, search);
          assert Ahead() == [];
          return Ok(None), met;
        }
        var found, visit := Meet();
        if found.Err? { return Err(found.error), met; }
        MetOneMore(search, limits, met, visit);
        assert met + ([visit] + Ahead()) == (met + [visit]) + Ahead();
        met := met + [visit];
        assert [] + [visit] == [visit];
        if found.value { return Ok(Some(visit)), met; }
      }
    }
  }

  /**
   * Main result: pulling until the end or a failure gives every selected entry of the tree, in order, exactly when the
   * whole visit stays within the budgets; otherwise the rows so far.
   */
  method VisitAll(v: Volume, s: Search, limits: Limits, root: Ino) returns (rows: seq<Visit>, exceeded: Option<Exceeded>)
    requires WellFormed(v) && Walkable(v, root)
    ensures exceeded.None? <==> |Tour(v, s, root, [])| <= limits.maxEntries && AllFit(limits, Tour(v, s, root, []))
    ensures exceeded.None? ==> rows == Reported(s, Tour(v, s, root, []))
    ensures rows <= Reported(s, Tour(v, s, root, []))
  {
    hide *;
    var visitor := new Visitor(v, s, limits, root);
    rows := [];
    ghost var all, done: seq<Visit> := Tour(v, s, root, []), [];
    NoneMet(s, limits);
    while true
      invariant fresh(visitor) && visitor.Valid() && visitor.limits == limits && visitor.search == s
      invariant all == done + visitor.Ahead() && visitor.entries == |done|
      invariant rows == Reported(s, done) && AllFit(limits, done)
      decreases |all| - |done|
    {
      ghost var ahead := visitor.Ahead();
      var next; ghost var met;
      next, met := visitor.Next();
      RowsSoFar(s, rows, done, ahead, met);
      if next.Err? {
        if next.error != MaxEntries { Misfit(limits, all, |done| + |met|); }
        return rows, Some(next.error);
      }
      FitTogether(limits, done, met);
      assert done + (met + visitor.Ahead()) == (done + met) + visitor.Ahead();
      done := done + met;
      if next.value.None? {
        assert done + [] == done && rows + [] == rows;
        return rows, None;
      }
      rows := rows + [next.value.value];
    }
  }

  lemma RowsSoFar(s: Search, rows: seq<Visit>, done: seq<Visit>, ahead: seq<Visit>, met: seq<Visit>)
    requires rows == Reported(s, done)
    ensures rows <= Reported(s, done + ahead) && Reported(s, done + met) == rows + Reported(s, met)
  {
    ReportedAppend(s, done, ahead);
    ReportedAppend(s, done, met);
  }

  lemma Misfit(limits: Limits, all: seq<Visit>, k: nat)
    requires k < |all| && !Fits(limits, all[k])
    ensures !AllFit(limits, all)
  {
    assert all[k] in all;
  }

  lemma FitTogether(limits: Limits, a: seq<Visit>, b: seq<Visit>)
    ensures AllFit(limits, a + b) <==> AllFit(limits, a) && AllFit(limits, b)
  {
    assert forall x :: x in a + b <==> x in a || x in b;
  }

  lemma NoneMet(s: Search, limits: Limits)
    ensures Reported(s, []) == [] && Undecodable([]) == 0 && AllFit(limits, [])
  {
  }

  lemma TopOk(v: Volume, frames: seq<Frame>, k: nat)
    requires FramesOk(v, frames) && k < |frames|
    ensures FrameOk(v, frames[k])
  {
  }

  lemma PlaceDirectory(v: Volume, p: Place)
    requires PlaceOk(v, p)
    ensures Walkable(v, p.ino) && p.ino in v && v[p.ino].Directory?
  {
  }

  lemma EmptyTour(v: Volume, s: Search, d: Ino, at: Path)
    requires WellFormed(v) && Walkable(v, d) && |v[d].entries| == 0
    ensures Tour(v, s, d, at) == []
  {
    TourStart(v, s, d, at);
  }

  lemma NewFrame(v: Volume, s: Search, p: Place, f: Frame)
    requires WellFormed(v) && PlaceOk(v, p) && f == Frame(p, SortedNames(v[p.ino]), 0)
    ensures FrameOk(v, f) && FrameTour(v, s, f) == Tour(v, s, p.ino, p.path)
  {
    FrameNames(v, s, f);
    TourStart(v, s, p.ino, p.path);
    assert f.children[0..] == f.children;
  }

  lemma TopInside(v: Volume, f: Frame)
    requires FrameOk(v, f)
    ensures f.index <= |f.children|
  {
  }

  lemma FramePath(v: Volume, f: Frame)
    requires FrameOk(v, f)
    ensures f.place.pathBytes == PathSize(f.place.path)
  {
  }

  lemma DeferredWidth(v: Volume, s: Search, p: Place)
    requires WellFormed(v) && PlaceOk(v, p)
    ensures p.ino in v && v[p.ino].Directory? && Walkable(v, p.ino) && |v[p.ino].entries| <= |Tour(v, s, p.ino, p.path)|
  {
    TourStart(v, s, p.ino, p.path);
    TourAtLeast(v, s, p.ino, p.path, SortedNames(v[p.ino]));
  }

  lemma StackEmpty(v: Volume, s: Search)
    requires WellFormed(v)
    ensures FramesOk(v, []) && StackTour(v, s, []) == []
  {
  }
}
