/**
 * The path limit of a live image (`pathIssue` in `internal/tree.ts`): a breadth-first walk measures every path of an
 * accepted tree once, and refuses exactly when some absolute path is too long.
 */
module TreePaths {
  import opened Basics
  import opened Forest
  import opened Sorting
  import opened Volumes
  import opened TreeReader
  import opened TreeGraph

  /** The names of an image are the entries of its volume. */
  ghost predicate NamesAre(v: Volume, names: seq<Named>) {
    && (forall k :: 0 <= k < |names| ==> NameIs(v, names[k]))
    && (forall d, n :: Live(v, d) && d in v && v[d].Directory? && n in v[d].entries ==>
          exists k :: 0 <= k < |names| && names[k].parent == d && names[k].name == n)
  }

  ghost predicate NameIs(v: Volume, x: Named) {
    && Live(v, x.parent) && x.parent in v && v[x.parent].Directory? && x.name in v[x.parent].entries
    && v[x.parent].entries[x.name] in v
    && x.directory == if v[v[x.parent].entries[x.name]].Directory? then Some(v[x.parent].entries[x.name]) else None
  }

  ghost predicate AllFit(v: Volume, limit: nat) {
    forall p :: Lookup(v, ROOT, p).Some? ==> |PathBytes(p)| <= limit
  }

  /** The issue is a name whose path does not fit. */
  ghost predicate Overlong(v: Volume, limit: nat, names: seq<Named>, issue: Failure)
    requires WellFormed(v)
  {
    exists x :: x in names && NameIs(v, x) && |PathBytes(Names(v, x.parent) + [x.name])| > limit && issue == Broken(x.place, ".name")
  }

  // ---------------------------------------------------------------- the names below each directory

  type Below = map<Ino, seq<Named>>

  function Listed(below: Below, d: Ino): seq<Named> { if d in below then below[d] else [] }

  ghost predicate EachNameOnce(listed: seq<Named>) {
    forall j, k :: 0 <= j < k < |listed| ==> listed[j].name != listed[k].name
  }

  ghost predicate BelowOk(names: seq<Named>, below: Below) {
    && (forall x :: x in names ==> x in Listed(below, x.parent))
    && (forall d, x :: x in Listed(below, d) ==> x in names && x.parent == d)
    && (forall d :: EachNameOnce(Listed(below, d)))
  }

  lemma BelowStep(names: seq<Named>, below: Below, x: Named)
    requires BelowOk(names, below) && forall y :: y in names ==> !SameName(y, x)
    ensures BelowOk(names + [x], below[x.parent := Listed(below, x.parent) + [x]])
  {
    var next := below[x.parent := Listed(below, x.parent) + [x]];
    forall d ensures ListedNext(names, below, x, d) {
      assert Listed(next, d) == if d == x.parent then Listed(below, d) + [x] else Listed(below, d);
      NextListed(names, below, x, d);
    }
    hide SameName, EachNameOnce;
    forall y | y in names + [x] ensures y in Listed(next, y.parent) { assert ListedNext(names, below, x, y.parent); }
    forall d, y | y in Listed(next, d) ensures y in names + [x] && y.parent == d { assert ListedNext(names, below, x, d); }
    forall d ensures EachNameOnce(Listed(next, d)) { assert ListedNext(names, below, x, d); }
  }

  /** What the directory `d` lists once `x` has been added. */
  ghost predicate ListedNext(names: seq<Named>, below: Below, x: Named, d: Ino) {
    var listed := Listed(below[x.parent := Listed(below, x.parent) + [x]], d);
    && (forall y :: y in listed ==> y in names + [x] && y.parent == d)
    && (forall y :: y in names + [x] && y.parent == d ==> y in listed)
    && EachNameOnce(listed)
  }

  lemma NextListed(names: seq<Named>, below: Below, x: Named, d: Ino)
    requires BelowOk(names, below) && forall y :: y in names ==> !SameName(y, x)
    ensures ListedNext(names, below, x, d)
  {
    var known := Listed(below, d);
    if d == x.parent {
      forall j | 0 <= j < |known| ensures known[j].name != x.name { assert known[j] in known && !SameName(known[j], x); }
      assert EachNameOnce(known);
      assert (known + [x])[|known|] == x;
    }
  }

  method GroupByParent(names: seq<Named>) returns (below: Below)
    requires NamesOnce(names)
    ensures BelowOk(names, below)
  {
    below := map[];
    NoneBelow();
    hide BelowOk;
    for k := 0 to |names|
      invariant BelowOk(names[..k], below)
    {
      var x := names[k];
      assert names[..k + 1] == names[..k] + [x];
      NotBefore(names, k);
      BelowStep(names[..k], below, x);
      assert [] + [x] == [x];
      below := below[x.parent := if x.parent in below then below[x.parent] + [x] else [x]];
    }
    assert names[..|names|] == names;
  }

  lemma NoneBelow()
    ensures BelowOk([], map[])
  {
  }

  lemma NotBefore(names: seq<Named>, k: nat)
    requires NamesOnce(names) && k < |names|
    ensures forall y :: y in names[..k] ==> !SameName(y, names[k])
  {
    hide SameName;
    forall y | y in names[..k] ensures !SameName(y, names[k]) {
      var j :| 0 <= j < k && names[j] == y;
    }
  }

  // ---------------------------------------------------------------- the queue

  datatype Measured = Measured(directory: Ino, length: nat)

  ghost function Length(v: Volume, d: Ino): nat
    requires WellFormed(v) && Live(v, d)
  {
    |PathBytes(Names(v, d))|
  }

  /** The queue holds live directories, each once, with the lengths of their paths. */
  ghost predicate QueueOk(v: Volume, pending: seq<Measured>, order: seq<Ino>)
    requires WellFormed(v)
  {
    && |pending| == |order| && order != [] && order[0] == ROOT && NoRepeats(order)
    && (forall d :: d in order ==> Live(v, d))
    && (forall m :: 0 <= m < |pending| ==> order[m] in order && pending[m] == Measured(order[m], Length(v, order[m])))
  }

  /** A name below `d` fits, and if it is a directory's the directory is queued. */
  ghost predicate Handled(limit: nat, order: seq<Ino>, length: nat, d: Ino, x: Named) {
    && length + |x.name| + (if d == ROOT then 0 else 1) <= limit
    && (x.directory.Some? ==> x.directory.value in order)
  }

  ghost predicate Settled(v: Volume, limit: nat, below: Below, order: seq<Ino>, d: Ino)
    requires WellFormed(v)
  {
    Live(v, d) && forall x :: x in Listed(below, d) ==> Handled(limit, order, Length(v, d), d, x)
  }

  /** Every queued directory but the root was queued from its parent: one dealt with, or the one being dealt with. */
  ghost predicate Sourced(v: Volume, order: seq<Ino>, done: seq<Ino>, d: Ino, seen: seq<Named>) {
    forall c :: c in order && c != ROOT && c in v && v[c].Directory? ==>
      v[c].parent in done || (v[c].parent == d && exists x :: x in seen && x.name == v[c].name)
  }

  lemma NamesNotRoot(v: Volume, d: Ino)
    requires WellFormed(v) && Live(v, d)
    ensures d == ROOT <==> Names(v, d) == []
  {
  }

  lemma ChildNames(v: Volume, d: Ino, n: Name)
    requires WellFormed(v) && Live(v, d) && d in v && v[d].Directory? && n in v[d].entries
    requires v[d].entries[n] in v && v[v[d].entries[n]].Directory?
    ensures var c := v[d].entries[n];
            c != ROOT && v[c].parent == d && v[c].name == n && Live(v, c) && Names(v, c) == Names(v, d) + [n]
  {
    var c := v[d].entries[n];
    assert EntryOk(v, d, n, c);
    ChildLive(v, d, n);
    LiveParent(v, c);
  }

  lemma JoinedLength(v: Volume, d: Ino, n: Name)
    requires WellFormed(v) && Live(v, d)
    ensures |PathBytes(Names(v, d) + [n])| == Length(v, d) + |n| + if d == ROOT then 0 else 1
  {
    NamesLookup(v, d);
    LookupGood(v, Names(v, d));
    hide WellFormed, Live, Names, Lookup, GoodPath;
    NamesNotRoot(v, d);
    PathBytesShape(Names(v, d));
    PathBytesSnoc(Names(v, d), n);
  }

  lemma NameLength(v: Volume, x: Named)
    requires WellFormed(v) && NameIs(v, x)
    ensures var p := Names(v, x.parent) + [x.name];
            && Lookup(v, ROOT, p) == Some(v[x.parent].entries[x.name])
            && |PathBytes(p)| == Length(v, x.parent) + |x.name| + if x.parent == ROOT then 0 else 1
    ensures x.directory.Some? ==>
              var c := x.directory.value;
              && c in v && v[c].Directory? && c != ROOT && Live(v, c) && v[c].parent == x.parent && v[c].name == x.name
              && Length(v, c) == Length(v, x.parent) + |x.name| + if x.parent == ROOT then 0 else 1
  {
    hide WellFormed, Live, Names, PathBytes;
    NamesLookup(v, x.parent);
    LookupSnoc(v, ROOT, Names(v, x.parent), x.name);
    JoinedLength(v, x.parent, x.name);
    if x.directory.Some? { ChildNames(v, x.parent, x.name); }
  }

  /** Once every queued directory is settled, every directory has been queued and every path fits. */
  lemma {:induction false} AllQueued(v: Volume, limit: nat, names: seq<Named>, below: Below, order: seq<Ino>, d: Ino)
    requires WellFormed(v) && NamesAre(v, names) && BelowOk(names, below) && ROOT in order && Live(v, d)
    requires forall m :: m in order ==> Settled(v, limit, below, order, m)
    ensures d in order
    decreases Depth(Up(v), d)
  {
    if d != ROOT {
      LiveParent(v, d);
      var p := v[d].parent;
      AllQueued(v, limit, names, below, order, p);
      hide WellFormed, Live, Length;
      var k :| 0 <= k < |names| && names[k].parent == p && names[k].name == v[d].name;
      assert NameIs(v, names[k]) && names[k] in Listed(below, p);
      assert Settled(v, limit, below, order, p);
    }
  }

  lemma PathFits(v: Volume, limit: nat, names: seq<Named>, below: Below, order: seq<Ino>, p: Path)
    requires WellFormed(v) && NamesAre(v, names) && BelowOk(names, below) && ROOT in order && limit >= 1
    requires forall m :: m in order ==> Settled(v, limit, below, order, m)
    requires Lookup(v, ROOT, p).Some?
    ensures |PathBytes(p)| <= limit
  {
    hide WellFormed, Live, Length, Lookup, Names, NameIs, Settled;
    if p != [] {
      var front, n := p[..|p| - 1], p[|p| - 1];
      assert p == front + [n];
      LookupSnoc(v, ROOT, front, n);
      LookupBack(v, front);
      var d := Lookup(v, ROOT, front).value;
      AllQueued(v, limit, names, below, order, d);
      var k :| 0 <= k < |names| && names[k].parent == d && names[k].name == n;
      assert NameIs(v, names[k]) && names[k] in Listed(below, d);
      hide PathBytes;
      NameLength(v, names[k]);
      SettledName(v, limit, below, order, d, names[k]);
    }
  }

  lemma SettledName(v: Volume, limit: nat, below: Below, order: seq<Ino>, d: Ino, x: Named)
    requires WellFormed(v) && Settled(v, limit, below, order, d) && x in Listed(below, d)
    ensures Live(v, d) && Length(v, d) + |x.name| + (if d == ROOT then 0 else 1) <= limit
  {
    hide WellFormed, Live, Length;
  }

  lemma TooLong(v: Volume, limit: nat, names: seq<Named>, x: Named)
    requires WellFormed(v) && NameIs(v, x) && x in names
    requires Length(v, x.parent) + |x.name| + (if x.parent == ROOT then 0 else 1) > limit
    ensures !AllFit(v, limit) && Overlong(v, limit, names, Broken(x.place, ".name"))
  {
    NameLength(v, x);
  }

  /** A directory met for the first time is not queued yet. */
  lemma FirstMet(v: Volume, names: seq<Named>, below: Below, order: seq<Ino>, done: seq<Ino>, d: Ino, k: nat)
    requires WellFormed(v) && NamesAre(v, names) && BelowOk(names, below) && k < |Listed(below, d)|
    requires Sourced(v, order, done, d, Listed(below, d)[..k]) && d !in done
    requires Listed(below, d)[k].directory.Some?
    ensures NameIs(v, Listed(below, d)[k]) && Listed(below, d)[k].parent == d
    ensures Listed(below, d)[k].directory.value !in order
  {
    var listed := Listed(below, d);
    var x := listed[k];
    assert x in listed;
    NameLength(v, x);
    hide WellFormed, Live, Length, PathBytes, Lookup;
    var c := x.directory.value;
    assert EachNameOnce(listed);
    forall y | y in listed[..k] ensures y.name != v[c].name {
      var j :| 0 <= j < k && listed[j] == y;
    }
  }

  /** Queue the directory `x` names. */
  lemma PushQueue(v: Volume, pending: seq<Measured>, order: seq<Ino>, x: Named, done: seq<Ino>, d: Ino, seen: seq<Named>)
    requires WellFormed(v) && QueueOk(v, pending, order) && NameIs(v, x) && x.directory.Some? && x.parent == d
    requires x.directory.value !in order && Sourced(v, order, done, d, seen)
    ensures Live(v, x.directory.value)
    ensures QueueOk(v, pending + [Measured(x.directory.value, Length(v, x.directory.value))], order + [x.directory.value])
    ensures Sourced(v, order + [x.directory.value], done, d, seen + [x])
  {
    NameLength(v, x);
    hide WellFormed, Live, Length, PathBytes, Lookup;
    var c := x.directory.value;
    assert (seen + [x])[|seen|] == x;
    forall y | y in seen ensures y in seen + [x] { }
  }

  lemma QueueBounded(v: Volume, pending: seq<Measured>, order: seq<Ino>)
    requires WellFormed(v) && QueueOk(v, pending, order)
    ensures |pending| <= |v|
  {
    forall d | d in order ensures d in v { assert Live(v, d); }
    DistinctCount(order);
    Smaller(Elements(order), v.Keys);
  }

  lemma StartQueue(v: Volume)
    requires WellFormed(v)
    ensures QueueOk(v, [Measured(ROOT, 1)], [ROOT]) && Sourced(v, [ROOT], [], ROOT, [])
  {
    RootLive(v);
  }

  /** Settled directories stay settled as the queue grows. */
  lemma SettledGrows(v: Volume, limit: nat, below: Below, order: seq<Ino>, longer: seq<Ino>, d: Ino)
    requires WellFormed(v) && Settled(v, limit, below, order, d) && order <= longer
    ensures Settled(v, limit, below, longer, d)
  {
    hide WellFormed, Live, Length;
    assert forall c :: c in order ==> c in longer;
  }

  lemma SourcedDone(v: Volume, order: seq<Ino>, done: seq<Ino>, d: Ino, seen: seq<Named>, next: Ino)
    requires Sourced(v, order, done, d, seen)
    ensures Sourced(v, order, done + [d], next, [])
  {
    assert forall c :: c in done ==> c in done + [d];
    assert (done + [d])[|done|] == d;
  }

  lemma QueueAt(v: Volume, pending: seq<Measured>, order: seq<Ino>, index: nat)
    requires WellFormed(v) && QueueOk(v, pending, order) && index < |pending|
    ensures Live(v, order[index]) && pending[index] == Measured(order[index], Length(v, order[index]))
    ensures order[index] !in order[..index]
  {
    hide WellFormed, Live, Length;
    assert order[index] in order;
  }

  /** One directory of the walk: check its names and queue the directories among them. */
  method MeasureBelow(limit: nat, names: seq<Named>, below: Below, pending: seq<Measured>, index: nat,
                      ghost v: Volume, ghost order: seq<Ino>)
    returns (issue: Option<Failure>, queue: seq<Measured>, ghost queued: seq<Ino>)
    requires WellFormed(v) && NamesAre(v, names) && BelowOk(names, below) && QueueOk(v, pending, order)
    requires index < |pending| && |pending| == |order| && Sourced(v, order, order[..index], order[index], [])
    ensures issue.Some? ==> !AllFit(v, limit) && Overlong(v, limit, names, issue.value)
    ensures issue.None? ==> order <= queued && QueueOk(v, queue, queued) && Settled(v, limit, below, queued, order[index])
    ensures issue.None? ==> forall next :: Sourced(v, queued, order[..index] + [order[index]], next, [])
  {
    hide *;
    QueueAt(v, pending, order, index);
    queue, queued := pending, order;
    var parent, parentBytes := pending[index].directory, pending[index].length;
    var listed := Listed(below, parent);
    ghost var done := order[..index];
    for k := 0 to |listed|
      invariant order <= queued && QueueOk(v, queue, queued) && Sourced(v, queued, done, parent, listed[..k])
      invariant forall j :: 0 <= j < k ==> Handled(limit, queued, parentBytes, parent, listed[j])
    {
      var x := listed[k];
      ListedName(v, names, below, parent, k);
      var length := (if parent == ROOT then parentBytes else parentBytes + 1) + |x.name|;
      NameLength(v, x);
      if length > limit {
        TooLong(v, limit, names, x);
        return Some(Broken(x.place, ".name")), queue, queued;
      }
      assert listed[..k + 1] == listed[..k] + [x];
      ghost var before := queued;
      if x.directory.Some? {
        FirstMet(v, names, below, queued, done, parent, k);
        PushQueue(v, queue, queued, x, done, parent, listed[..k]);
        queue := queue + [Measured(x.directory.value, length)];
        queued := queued + [x.directory.value];
      } else {
        SourcedMore(v, queued, done, parent, listed[..k], x);
      }
      HandledStep(limit, before, queued, parentBytes, parent, listed, k);
    }
    assert listed[..|listed|] == listed;
    SettledNow(v, limit, below, queued, parent, parentBytes);
    forall next ensures Sourced(v, queued, done + [parent], next, []) {
      SourcedDone(v, queued, done, parent, listed, next);
    }
    return None, queue, queued;
  }

  lemma ListedName(v: Volume, names: seq<Named>, below: Below, d: Ino, k: nat)
    requires NamesAre(v, names) && BelowOk(names, below) && k < |Listed(below, d)|
    ensures NameIs(v, Listed(below, d)[k]) && Listed(below, d)[k].parent == d && Listed(below, d)[k] in names
  {
    hide NameIs;
    var x := Listed(below, d)[k];
    assert x in Listed(below, d);
    var j :| 0 <= j < |names| && names[j] == x;
  }

  lemma SourcedMore(v: Volume, order: seq<Ino>, done: seq<Ino>, d: Ino, seen: seq<Named>, x: Named)
    requires Sourced(v, order, done, d, seen)
    ensures Sourced(v, order, done, d, seen + [x])
  {
    forall y | y in seen ensures y in seen + [x] { }
  }

  lemma HandledStep(limit: nat, before: seq<Ino>, queued: seq<Ino>, length: nat, d: Ino, listed: seq<Named>, k: nat)
    requires k < |listed| && forall j :: 0 <= j < k ==> Handled(limit, before, length, d, listed[j])
    requires length + |listed[k].name| + (if d == ROOT then 0 else 1) <= limit
    requires queued == if listed[k].directory.Some? then before + [listed[k].directory.value] else before
    ensures forall j :: 0 <= j < k + 1 ==> Handled(limit, queued, length, d, listed[j])
  {
    forall c | c in before ensures c in queued { }
    if listed[k].directory.Some? { assert queued[|before|] == listed[k].directory.value; }
  }

  lemma SettledNow(v: Volume, limit: nat, below: Below, order: seq<Ino>, d: Ino, length: nat)
    requires WellFormed(v) && Live(v, d) && length == Length(v, d)
    requires forall j :: 0 <= j < |Listed(below, d)| ==> Handled(limit, order, length, d, Listed(below, d)[j])
    ensures Settled(v, limit, below, order, d)
  {
    hide WellFormed, Live, Length, Handled;
  }

  /** `pathIssue`: nothing to report exactly when every absolute path fits the limit. */
  method PathIssue(names: seq<Named>, limit: nat, ghost v: Volume) returns (issue: Option<Failure>)
    requires WellFormed(v) && NamesAre(v, names) && NamesOnce(names) && limit >= 1
    ensures issue.None? <==> AllFit(v, limit)
    ensures issue.Some? ==> Overlong(v, limit, names, issue.value)
  {
    hide *;
    var below := GroupByParent(names);
    var pending := [Measured(ROOT, 1)];
    ghost var order := [ROOT];
    StartQueue(v);
    var index := 0;
    assert order[..0] == [];
    RootFirst(v, pending, order);
    while index < |pending|
      invariant QueueOk(v, pending, order) && |pending| == |order| && index <= |pending| && ROOT in order
      invariant forall j :: 0 <= j < index ==> Settled(v, limit, below, order, order[j])
      invariant index < |order| ==> Sourced(v, order, order[..index], order[index], [])
      invariant |pending| <= |v|
      decreases |v| - index
    {
      ghost var before := order;
      var found, queue;
      found, queue, order := MeasureBelow(limit, names, below, pending, index, v, order);
      if found.Some? { return found; }
      assert order[..index + 1] == before[..index] + [before[index]];
      forall j | 0 <= j < index ensures Settled(v, limit, below, order, order[j]) {
        assert order[j] == before[j];
        SettledGrows(v, limit, below, before, order, before[j]);
      }
      assert order[index] == before[index];
      pending := queue;
      QueueBounded(v, pending, order);
      RootFirst(v, pending, order);
      index := index + 1;
    }
    AllPathsFit(v, limit, names, below, order);
    return None;
  }

  lemma RootFirst(v: Volume, pending: seq<Measured>, order: seq<Ino>)
    requires WellFormed(v) && QueueOk(v, pending, order)
    ensures ROOT in order && |pending| == |order| && |pending| <= |v|
  {
    QueueBounded(v, pending, order);
  }

  lemma AllPathsFit(v: Volume, limit: nat, names: seq<Named>, below: Below, order: seq<Ino>)
    requires WellFormed(v) && NamesAre(v, names) && BelowOk(names, below) && ROOT in order && limit >= 1
    requires forall j :: 0 <= j < |order| ==> Settled(v, limit, below, order, order[j])
    ensures AllFit(v, limit)
  {
    forall m | m in order ensures Settled(v, limit, below, order, m) { }
    hide WellFormed, NamesAre, BelowOk, Settled, Lookup, PathBytes;
    forall p | Lookup(v, ROOT, p).Some? ensures |PathBytes(p)| <= limit { PathFits(v, limit, names, below, order, p); }
  }
}
