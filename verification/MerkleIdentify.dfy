/**
 * `identify`: the budgeted computation of a volume's identity, and its agreement with the identity of the namespace.
 */
module MerkleIdentify {
  import opened Basics
  import opened Forest
  import opened Sorting
  import opened Volumes
  import opened MerkleFraming
  import opened MerkleIdentity
  import opened MerkleWalk

  datatype PayloadBudget = PayloadBudget(limit: nat, field: string)

  datatype WalkBudget = WalkBudget(
    records: nat, recordsField: string, entries: nat, identityBytes: nat, payload: Option<PayloadBudget>)

  datatype Identified = Identified(
    digest: bytes, digests: map<Ino, bytes>, groups: map<Ino, seq<bytes>>, records: nat, payloadBytes: nat, nodeBytes: nat)

  const ENTRIES_EXCEEDED := Failure(LimitExceeded, "entries")
  const HASH_EXCEEDED := Failure(LimitExceeded, "identityBytes")

  function RecordsExceeded(budget: WalkBudget): Failure { Failure(LimitExceeded, budget.recordsField) }

  // ---------------------------------------------------------------- the breadth-first walk

  datatype Found = Found(order: seq<Ino>, named: map<Ino, seq<bytes>>)

  ghost predicate ParentsSwept(w: Walk, k: nat)
    requires k <= |w.order|
  {
    forall l :: l in w.visited ==> l.parent in w.order[..k]
  }

  lemma SeenSmall(v: Volume, w: Walk)
    requires WellFormed(v) && WalkOk(v, w)
    ensures |w.order| <= |v| && |w.order| <= |ReachedSet(v)|
    ensures w.visited <= AllEntries(v) && |w.visited| <= |AllEntries(v)|
    ensures forall i :: 0 <= i < |w.order| ==> w.order[i] in w.seen && w.order[i] in v
    ensures forall d :: d in w.seen && d in v && v[d].Directory? ==> d in w.paths && Live(v, d)
  {
    hide WellFormed, NamedOk, ParentsFirst;
    DistinctCount(w.order);
    assert w.seen <= ReachedSet(v);
    Smaller(w.seen, ReachedSet(v));
    assert forall i :: i in ReachedSet(v) ==> i in v.Keys;
    Smaller(ReachedSet(v), v.Keys);
    Smaller(w.visited, AllEntries(v));
    forall i | 0 <= i < |w.order| ensures w.order[i] in w.seen { assert w.order[i] in Elements(w.order); }
  }

  /** Every entry of the directory at `index` except those in `left` has been looked at. */
  ghost predicate Midway(v: Volume, w: Walk, index: nat, left: set<Name>)
    requires index < |w.order| && w.order[index] in v && v[w.order[index]].Directory?
  {
    && left <= v[w.order[index]].entries.Keys
    && (forall n :: n in v[w.order[index]].entries ==> (n in left <==> Link(w.order[index], n) !in w.visited))
  }

  lemma StartMidway(v: Volume, w: Walk, index: nat)
    requires index < |w.order| && NoRepeats(w.order) && ParentsSwept(w, index)
    requires w.order[index] in v && v[w.order[index]].Directory?
    ensures Midway(v, w, index, v[w.order[index]].entries.Keys)
  {
  }

  /** Looking at one more entry of the directory at `index`, whatever else the walk records. */
  lemma VisitMidway(v: Volume, w: Walk, index: nat, left: set<Name>, n: Name, next: Walk)
    requires index < |w.order| && Swept(v, w, index) && w.order[index] in v && v[w.order[index]].Directory?
    requires Midway(v, w, index, left) && n in left && ParentsSwept(w, index + 1)
    requires w.order <= next.order && next.visited == w.visited + {Link(w.order[index], n)}
    ensures Midway(v, next, index, left - {n}) && Swept(v, next, index) && ParentsSwept(next, index + 1)
  {
    assert next.order[..index + 1] == w.order[..index + 1];
    assert w.order[index] == w.order[..index + 1][index];
  }

  lemma FinishMidway(v: Volume, w: Walk, index: nat)
    requires index < |w.order| && Swept(v, w, index)
    requires w.order[index] in v ==> v[w.order[index]].Directory? ==> Midway(v, w, index, {})
    ensures Swept(v, w, index + 1)
  {
  }

  lemma SweptMore(w: Walk, k: nat)
    requires k < |w.order| && ParentsSwept(w, k)
    ensures ParentsSwept(w, k + 1)
  {
    assert w.order[..k + 1] == w.order[..k] + [w.order[k]];
  }

  /** Walk from the root. Refuses when, and only when, there are more records or entries than the budget allows. */
  method BreadthFirst(v: Volume, budget: WalkBudget) returns (r: Result<Found, Failure>, ghost w: Walk)
    requires WellFormed(v)
    ensures r.Ok? ==> WalkOk(v, w) && Swept(v, w, |w.order|) && r.value == Found(w.order, w.named)
    ensures r.Ok? <==> |ReachedSet(v)| <= budget.records && |AllEntries(v)| <= budget.entries
    ensures r.Err? ==>
              || (r.error == RecordsExceeded(budget) && |ReachedSet(v)| > budget.records)
              || (r.error == ENTRIES_EXCEEDED && |AllEntries(v)| > budget.entries)
  {
    hide WellFormed, PathsOk, VisitedOk, NamedOk, ParentsFirst;
    StartOk(v);
    w := START;
    SeenSmall(v, w);
    var order, seen, paths, named := [ROOT], {ROOT}, START.paths, START.named;
    if |order| > budget.records { return Err(RecordsExceeded(budget)), w; }
    var index, entries := 0, 0;
    while index < |order|
      invariant order == w.order && seen == w.seen && paths == w.paths && named == w.named
      invariant 0 <= index <= |order| && WalkOk(v, w) && Swept(v, w, index) && ParentsSwept(w, index)
      invariant entries == |w.visited| <= budget.entries && |order| <= budget.records
      decreases |v| - index
    {
      SeenSmall(v, w);
      var d := order[index];
      SweptMore(w, index);
      if v[d].Directory? {
        StartMidway(v, w, index);
        var left := v[d].entries.Keys;
        while left != {}
          invariant order == w.order && seen == w.seen && paths == w.paths && named == w.named
          invariant index < |order| && d == w.order[index] && WalkOk(v, w) && d in paths
          invariant Swept(v, w, index) && ParentsSwept(w, index + 1) && Midway(v, w, index, left)
          invariant entries == |w.visited| <= budget.entries && |order| <= budget.records
          decreases left
        {
          var n :| n in left;
          VisitOk(v, w, d, n);
          ghost var next := Visit(v, w, d, n);
          VisitMidway(v, w, index, left, n, next);
          SeenSmall(v, next);
          entries := entries + 1;
          assert |next.visited| == entries;
          if entries > budget.entries { return Err(ENTRIES_EXCEEDED), next; }
          var c := v[d].entries[n];
          var childPath := JoinPath(paths[d], n);
          if v[c].Directory? {
            paths := paths[c := childPath];
          } else if |v[c].links| > 1 {
            named := named[c := if c in named then named[c] + [childPath] else [childPath]];
          }
          if c !in seen {
            seen := seen + {c};
            order := order + [c];
            if |order| > budget.records { return Err(RecordsExceeded(budget)), next; }
          }
          w := next;
          left := left - {n};
        }
      }
      FinishMidway(v, w, index);
      index := index + 1;
      SeenSmall(v, w);
    }
    SeenIsReached(v, w);
    VisitedIsAll(v, w);
    return Ok(Found(order, named)), w;
  }

  // ---------------------------------------------------------------- hashing

  /** The running total of hashed bytes. */
  class HashMeter {
    var hashed: nat
    const limit: nat

    constructor (limit: nat)
      ensures hashed == 0 && this.limit == limit
    {
      this.limit := limit;
      hashed := 0;
    }

    method Charge(n: nat) returns (r: Result<(), Failure>)
      modifies this
      ensures hashed == old(hashed) + n
      ensures r == if hashed > limit then Err(HASH_EXCEEDED) else Ok(())
    {
      hashed := hashed + n;
      return if hashed > limit then Err(HASH_EXCEEDED) else Ok(());
    }
  }

  method EntryNames(node: Node) returns (names: seq<Name>)
    ensures names == NamesOf(node)
  {
    if !node.Directory? { return []; }
    names := ListNames(node);
  }

  ghost predicate ChildrenDigested(h: Hash, v: Volume, i: Ino, digests: map<Ino, bytes>)
    requires WellFormed(v) && Reached(v, i)
  {
    v[i].Directory? ==>
      forall n :: n in v[i].entries ==>
                    Reached(v, v[i].entries[n]) && v[i].entries[n] in digests
                    && digests[v[i].entries[n]] == Digest(h, v, v[i].entries[n])
  }

  /** `nodeDigest`: charge the planned length, then hash the node; every child digest must be there already. */
  method NodeDigest(h: Hash, v: Volume, i: Ino, digests: map<Ino, bytes>, meter: HashMeter)
    returns (r: Result<bytes, Failure>)
    requires WellFormed(v) && Reached(v, i) && ChildrenDigested(h, v, i, digests)
    modifies meter
    ensures meter.hashed == old(meter.hashed) + Weigh(v, Planned, i)
    ensures r == if meter.hashed > meter.limit then Err(HASH_EXCEEDED) else Ok(Digest(h, v, i))
  {
    hide WellFormed, Live, Preimage, PlannedLength, NamesOf, ChildrenOf;
    var names := EntryNames(v[i]);
    var charged := meter.Charge(PlannedLength(v[i], names));
    if charged.Err? { return Err(charged.error); }
    var child: map<Name, bytes> :=
      if v[i].Directory? then map n | n in v[i].entries :: digests[v[i].entries[n]] else map[];
    ChildrenAgree(h, v, i, child);
    var out := WritePreimage(v[i], names, child);
    return Ok(h(out[..]));
  }

  lemma ChildrenAgree(h: Hash, v: Volume, i: Ino, child: map<Name, bytes>)
    requires WellFormed(v) && Reached(v, i)
    requires if v[i].Directory? then
               child.Keys == v[i].entries.Keys
               && forall n :: n in v[i].entries ==> Reached(v, v[i].entries[n]) && child[n] == Digest(h, v, v[i].entries[n])
             else child == map[]
    ensures child == ChildrenOf(h, v, i)
  {
    hide WellFormed, Live, Digest, ChildrenOf, Reached;
    ReachedShape(v, i);
    if v[i].Directory? {
      forall n | n in v[i].entries ensures child[n] == ChildrenOf(h, v, i)[n] { ChildrenAt(h, v, i, n); }
    } else {
      LeafChildren(h, v, i);
    }
  }

  /** What holds of the digests, the hashed total and the payload total after hashing the nodes in `done`. */
  ghost predicate Digested(h: Hash, v: Volume, done: set<Ino>, digests: map<Ino, bytes>, hashed: nat, payload: nat)
    requires WellFormed(v)
  {
    && done <= ReachedSet(v) && done <= v.Keys && digests.Keys == done
    && (forall i :: i in done ==> Reached(v, i) && digests[i] == Digest(h, v, i))
    && hashed == Total(v, Planned, done) && payload == Total(v, MerkleWalk.Payload, done)
  }

  ghost predicate PayloadFits(budget: WalkBudget, payload: nat) {
    budget.payload.Some? ==> payload <= budget.payload.value.limit
  }

  /** Hash one more node: its payload is charged first, then its preimage. */
  method DigestNode(h: Hash, v: Volume, budget: WalkBudget, i: Ino, digests: map<Ino, bytes>, meter: HashMeter, payload: nat)
    returns (r: Result<(map<Ino, bytes>, nat), Failure>)
    requires WellFormed(v) && Reached(v, i) && ChildrenDigested(h, v, i, digests) && i !in digests
    requires Digested(h, v, digests.Keys, digests, meter.hashed, payload)
    requires meter.hashed <= meter.limit && PayloadFits(budget, payload)
    modifies meter
    ensures r.Ok? ==> meter.hashed <= meter.limit && PayloadFits(budget, r.value.1)
                      && r.value.0.Keys == digests.Keys + {i}
                      && Digested(h, v, digests.Keys + {i}, r.value.0, meter.hashed, r.value.1)
    ensures r.Err? ==> Overspent(v, budget, meter.limit, digests.Keys + {i}, r.error)
  {
    hide WellFormed, Live, Digest, PlannedLength, NamesOf, Total, Reached, ChildrenDigested;
    ReachedShape(v, i);
    var spent := payload;
    TotalAdd(v, Planned, digests.Keys, i);
    TotalAdd(v, MerkleWalk.Payload, digests.Keys, i);
    match PayloadOf(v[i]) {
      case Some(body) =>
        spent := spent + |body|;
        if budget.payload.Some? && spent > budget.payload.value.limit {
          return Err(Failure(LimitExceeded, budget.payload.value.field));
        }
      case None =>
    }
    var hashed := NodeDigest(h, v, i, digests, meter);
    if hashed.Err? { return Err(hashed.error); }
    return Ok((digests[i := hashed.value], spent));
  }

  /** A failure that names a budget the nodes in `s` exceed. */
  ghost predicate Overspent(v: Volume, budget: WalkBudget, hashLimit: nat, s: set<Ino>, error: Failure) {
    s <= v.Keys &&
    ((error == HASH_EXCEEDED && Total(v, Planned, s) > hashLimit)
     || (budget.payload.Some? && error == Failure(LimitExceeded, budget.payload.value.field)
         && Total(v, MerkleWalk.Payload, s) > budget.payload.value.limit))
  }

  lemma OverspentGrows(v: Volume, budget: WalkBudget, hashLimit: nat, s: set<Ino>, t: set<Ino>, error: Failure)
    requires Overspent(v, budget, hashLimit, s, error) && s <= t <= v.Keys
    ensures Overspent(v, budget, hashLimit, t, error)
  {
    TotalMonotone(v, Planned, s, t);
    TotalMonotone(v, MerkleWalk.Payload, s, t);
  }

  /** The files among the first `k` of the walk, and the directories from `k` on. */
  ghost function FilesBefore(v: Volume, order: seq<Ino>, k: nat): set<Ino>
    requires k <= |order|
  {
    set j | 0 <= j < k && order[j] in v && !v[order[j]].Directory? :: order[j]
  }

  ghost function DirectoriesFrom(v: Volume, order: seq<Ino>, k: nat): set<Ino>
    requires k <= |order|
  {
    set j | k <= j < |order| && order[j] in v && v[order[j]].Directory? :: order[j]
  }

  ghost predicate GoodOrder(v: Volume, order: seq<Ino>) {
    NoRepeats(order) && Elements(order) == ReachedSet(v) && ParentsFirst(v, order)
  }

  /** A directory's children are files, or directories later in the walk. */
  lemma ChildrenLater(h: Hash, v: Volume, order: seq<Ino>, k: nat, digests: map<Ino, bytes>)
    requires WellFormed(v) && GoodOrder(v, order) && k < |order| && order[k] in v && v[order[k]].Directory?
    requires Reached(v, order[k])
    requires digests.Keys == FilesBefore(v, order, |order|) + DirectoriesFrom(v, order, k + 1)
    requires forall i :: i in digests ==> Reached(v, i) && digests[i] == Digest(h, v, i)
    ensures ChildrenDigested(h, v, order[k], digests)
  {
    hide Digest;
    var d := order[k];
    forall n | n in v[d].entries
      ensures Reached(v, v[d].entries[n]) && v[d].entries[n] in digests
    {
      EdgeOf(v, d, n);
      hide WellFormed, Live;
      var c := v[d].entries[n];
      assert c in ReachedSet(v) && c in Elements(order);
      var j :| 0 <= j < |order| && order[j] == c;
      if v[c].Directory? {
        assert v[order[j]].parent in order[..j];
        var m :| 0 <= m < j && order[m] == d;
        assert m == k;
        assert c in DirectoriesFrom(v, order, k + 1);
      } else {
        assert c in FilesBefore(v, order, |order|);
      }
    }
  }

  lemma OrderFacts(v: Volume, order: seq<Ino>)
    requires GoodOrder(v, order)
    ensures FilesBefore(v, order, |order|) + DirectoriesFrom(v, order, 0) == ReachedSet(v) <= v.Keys
    ensures FilesBefore(v, order, 0) == {} && DirectoriesFrom(v, order, |order|) == {}
    ensures FilesBefore(v, order, |order|) + DirectoriesFrom(v, order, |order|) == FilesBefore(v, order, |order|)
  {
    hide Reached;
    forall i | i in ReachedSet(v) ensures i in FilesBefore(v, order, |order|) + DirectoriesFrom(v, order, 0) {
      assert i in Elements(order);
      var j :| 0 <= j < |order| && order[j] == i;
    }
    forall k | 0 <= k < |order| ensures order[k] in ReachedSet(v) { assert order[k] in Elements(order); }
  }

  lemma OrderAt(v: Volume, order: seq<Ino>, k: nat)
    requires GoodOrder(v, order) && k < |order|
    ensures Reached(v, order[k]) && order[k] in v && order[k] in ReachedSet(v) && NoRepeats(order)
    ensures FilesBefore(v, order, k) <= ReachedSet(v)
    ensures FilesBefore(v, order, |order|) + DirectoriesFrom(v, order, k + 1) <= ReachedSet(v)
  {
    hide Reached;
    forall j | 0 <= j < |order| ensures order[j] in ReachedSet(v) { assert order[j] in Elements(order); }
  }

  lemma FilesStep(v: Volume, order: seq<Ino>, k: nat)
    requires NoRepeats(order) && k < |order| && order[k] in v
    ensures !v[order[k]].Directory? ==>
              && FilesBefore(v, order, k + 1) == FilesBefore(v, order, k) + {order[k]}
              && order[k] !in FilesBefore(v, order, k)
              && DirectoriesFrom(v, order, k) == DirectoriesFrom(v, order, k + 1)
    ensures v[order[k]].Directory? ==>
              && FilesBefore(v, order, k + 1) == FilesBefore(v, order, k)
              && FilesBefore(v, order, |order|) + DirectoriesFrom(v, order, k) ==
                 FilesBefore(v, order, |order|) + DirectoriesFrom(v, order, k + 1) + {order[k]}
              && order[k] !in FilesBefore(v, order, |order|) + DirectoriesFrom(v, order, k + 1)
  {
  }

  /** The digests so far, within budget. */
  ghost predicate Going(h: Hash, v: Volume, budget: WalkBudget, s: set<Ino>, digests: map<Ino, bytes>, meter: HashMeter, payload: nat)
    requires WellFormed(v)
    reads meter
  {
    digests.Keys == s && Digested(h, v, s, digests, meter.hashed, payload)
    && meter.hashed <= meter.limit && PayloadFits(budget, payload)
  }

  method DigestFiles(h: Hash, v: Volume, budget: WalkBudget, order: seq<Ino>, meter: HashMeter)
    returns (r: Result<(map<Ino, bytes>, nat), Failure>)
    requires WellFormed(v) && GoodOrder(v, order) && meter.hashed == 0
    modifies meter
    ensures r.Ok? ==> Going(h, v, budget, FilesBefore(v, order, |order|), r.value.0, meter, r.value.1)
    ensures r.Err? ==> Overspent(v, budget, meter.limit, ReachedSet(v), r.error)
  {
    hide WellFormed, Live, Digest, Reached, ChildrenDigested, GoodOrder, Total, FilesBefore, Digested,
         Overspent, PayloadFits, ReachedSet;
    StartDigested(h, v, budget);
    OrderFacts(v, order);
    var digests: map<Ino, bytes>, payload: nat := map[], 0;
    var k := 0;
    while k < |order|
      invariant 0 <= k <= |order| && Going(h, v, budget, FilesBefore(v, order, k), digests, meter, payload)
    {
      OrderAt(v, order, k);
      FilesStep(v, order, k);
      var i := order[k];
      if !v[i].Directory? {
        NothingBelow(h, v, i, digests);
        var step := DigestNode(h, v, budget, i, digests, meter, payload);
        if step.Err? {
          SpentInReach(v, budget, meter.limit, order, digests.Keys + {i}, step.error);
          return Err(step.error);
        }
        digests, payload := step.value.0, step.value.1;
      }
      k := k + 1;
    }
    return Ok((digests, payload));
  }

  method DigestDirectories(
    h: Hash, v: Volume, budget: WalkBudget, order: seq<Ino>, meter: HashMeter, files: map<Ino, bytes>, spent: nat)
    returns (r: Result<(map<Ino, bytes>, nat), Failure>)
    requires WellFormed(v) && GoodOrder(v, order)
    requires Going(h, v, budget, FilesBefore(v, order, |order|), files, meter, spent)
    modifies meter
    ensures r.Ok? ==> Going(h, v, budget, ReachedSet(v), r.value.0, meter, r.value.1)
    ensures r.Err? ==> Overspent(v, budget, meter.limit, ReachedSet(v), r.error)
  {
    hide WellFormed, Live, Digest, Reached, ChildrenDigested, GoodOrder, Total, FilesBefore, DirectoriesFrom,
         Overspent, PayloadFits, ReachedSet;
    OrderFacts(v, order);
    var digests, payload := files, spent;
    var k := |order|;
    while k > 0
      invariant 0 <= k <= |order|
      invariant Going(h, v, budget, FilesBefore(v, order, |order|) + DirectoriesFrom(v, order, k), digests, meter, payload)
    {
      k := k - 1;
      OrderAt(v, order, k);
      FilesStep(v, order, k);
      var i := order[k];
      if v[i].Directory? {
        ChildrenLater(h, v, order, k, digests);
        var step := DigestNode(h, v, budget, i, digests, meter, payload);
        if step.Err? {
          SpentInReach(v, budget, meter.limit, order, digests.Keys + {i}, step.error);
          return Err(step.error);
        }
        digests, payload := step.value.0, step.value.1;
      }
    }
    return Ok((digests, payload));
  }

  /** Hash every node of the walk: files in walk order, then directories in reverse walk order. */
  method DigestAll(h: Hash, v: Volume, budget: WalkBudget, order: seq<Ino>, meter: HashMeter)
    returns (r: Result<(map<Ino, bytes>, nat), Failure>)
    requires WellFormed(v) && GoodOrder(v, order) && meter.hashed == 0
    modifies meter
    ensures r.Ok? ==> meter.hashed <= meter.limit && PayloadFits(budget, r.value.1)
                      && Digested(h, v, ReachedSet(v), r.value.0, meter.hashed, r.value.1)
    ensures r.Err? ==> Overspent(v, budget, meter.limit, ReachedSet(v), r.error)
  {
    hide WellFormed, GoodOrder, Digested, Overspent, PayloadFits, ReachedSet, FilesBefore;
    var files := DigestFiles(h, v, budget, order, meter);
    if files.Err? { return files; }
    r := DigestDirectories(h, v, budget, order, meter, files.value.0, files.value.1);
  }

  lemma NothingBelow(h: Hash, v: Volume, i: Ino, digests: map<Ino, bytes>)
    requires WellFormed(v) && Reached(v, i) && !v[i].Directory?
    ensures ChildrenDigested(h, v, i, digests)
  {
  }

  lemma StartDigested(h: Hash, v: Volume, budget: WalkBudget)
    requires WellFormed(v)
    ensures Digested(h, v, {}, map[], 0, 0) && PayloadFits(budget, 0)
  {
  }

  lemma SpentInReach(v: Volume, budget: WalkBudget, hashLimit: nat, order: seq<Ino>, s: set<Ino>, error: Failure)
    requires GoodOrder(v, order) && s <= ReachedSet(v) && Overspent(v, budget, hashLimit, s, error)
    ensures Overspent(v, budget, hashLimit, ReachedSet(v), error)
  {
    OrderFacts(v, order);
    OverspentGrows(v, budget, hashLimit, s, ReachedSet(v), error);
  }

  // ---------------------------------------------------------------- the identity

  function GroupRowsLength(gs: seq<seq<bytes>>): nat {
    if gs == [] then 0 else U64_BYTES + FrameAllLength(gs[0]) + GroupRowsLength(gs[1..])
  }

  lemma {:induction false} GroupRowsMeasured(gs: seq<seq<bytes>>)
    ensures |GroupRows(gs)| == GroupRowsLength(gs)
    decreases |gs|
  {
    hide FrameAll, FrameAllLength;
    if gs != [] {
      FramesMeasured(gs[0]);
      GroupRowsMeasured(gs[1..]);
    }
  }

  lemma {:induction false} GroupRowsSnoc(gs: seq<seq<bytes>>, g: seq<bytes>)
    ensures GroupRows(gs + [g]) == GroupRows(gs) + GroupBytes(g)
    ensures GroupRowsLength(gs + [g]) == GroupRowsLength(gs) + U64_BYTES + FrameAllLength(g)
    decreases |gs|
  {
    hide GroupBytes, FrameAllLength;
    if gs == [] {
      assert gs + [g] == [g] && [g][1..] == [];
    } else {
      assert (gs + [g])[1..] == gs[1..] + [g];
      GroupRowsSnoc(gs[1..], g);
    }
  }

  lemma {:induction false} GroupRowsPrefix(gs: seq<seq<bytes>>, i: nat)
    requires i <= |gs|
    ensures GroupRowsLength(gs[..i]) <= GroupRowsLength(gs)
    ensures i < |gs| ==> GroupRowsLength(gs[..i]) + U64_BYTES + FrameAllLength(gs[i]) <= GroupRowsLength(gs)
    decreases |gs| - i
  {
    hide FrameAllLength;
    if i == |gs| {
      assert gs[..i] == gs;
    } else {
      assert gs[..i + 1] == gs[..i] + [gs[i]];
      GroupRowsSnoc(gs[..i], gs[i]);
      GroupRowsPrefix(gs, i + 1);
    }
  }

  function IdentityLength(gs: seq<seq<bytes>>): nat {
    |PREFIX| + DIGEST_BYTES + U64_BYTES + GroupRowsLength(gs)
  }

  lemma IdentityMeasured(root: bytes, gs: seq<seq<bytes>>)
    requires |root| == DIGEST_BYTES
    ensures |IdentityBytes(root, gs)| == IdentityLength(gs)
  {
    GroupRowsMeasured(gs);
  }

  /** One group: how many paths it has, then each of them framed. */
  method PutGroup(out: array<byte>, offset: nat, g: seq<bytes>) returns (next: nat)
    requires offset + U64_BYTES + FrameAllLength(g) <= out.Length
    modifies out
    ensures next == offset + U64_BYTES + FrameAllLength(g)
    ensures out[..next] == old(out[..offset]) + GroupBytes(g)
  {
    hide U64, FrameAll, FrameAllLength;
    next := PutU64(out, offset, |g|);
    next := PutFrames(out, next, g);
  }

  /** Write the identity's byte string into a buffer of the planned length. */
  method WriteIdentity(root: bytes, gs: seq<seq<bytes>>) returns (out: array<byte>)
    requires |root| == DIGEST_BYTES
    ensures fresh(out) && out[..] == IdentityBytes(root, gs) && out.Length == IdentityLength(gs)
    ensures IdentityLaidOut(out[..], root, gs)
  {
    hide IdentityLaidOut, U64, FrameAll, FrameAllLength, GroupRows, GroupRowsLength, GroupBytes, PREFIX;
    var empty: seq<seq<bytes>> := [];
    assert GroupRowsLength(empty) == 0 && GroupRows(empty) == [] by { NoGroups(); }
    out := new byte[IdentityLength(gs)](_ => 0);
    Put(out, 0, PREFIX);
    Put(out, |PREFIX|, root);
    var offset := PutU64(out, |PREFIX| + DIGEST_BYTES, |gs|);
    ghost var head := PREFIX + (root + U64(|gs|));
    assert out[..offset] == head;
    assert gs[..0] == empty;
    for i := 0 to |gs|
      invariant offset == |head| + GroupRowsLength(gs[..i]) <= out.Length
      invariant out[..offset] == head + GroupRows(gs[..i])
    {
      GroupRowsPrefix(gs, i);
      assert gs[..i + 1] == gs[..i] + [gs[i]];
      GroupRowsSnoc(gs[..i], gs[i]);
      offset := PutGroup(out, offset, gs[i]);
    }
    assert gs[..|gs|] == gs;
    assert out[..offset] == out[..];
    assert head + GroupRows(gs) == IdentityBytes(root, gs);
    IdentityBytesLaidOut(root, gs);
  }

  lemma NoGroups()
    ensures GroupRowsLength([]) == 0 && GroupRows([]) == []
  {
  }

  /** Sort the groups, charge the identity's length, hash it. */
  method IdentityDigest(h: Hash, root: bytes, groups: seq<seq<bytes>>, meter: HashMeter) returns (r: Result<bytes, Failure>)
    requires |root| == DIGEST_BYTES
    modifies meter
    ensures meter.hashed == old(meter.hashed) + IdentityLength(SortBy(GroupLess, groups))
    ensures r == if meter.hashed > meter.limit then Err(HASH_EXCEEDED)
                 else Ok(h(IdentityBytes(root, SortBy(GroupLess, groups))))
  {
    var sorted := SortBy(GroupLess, groups);
    var charged := meter.Charge(IdentityLength(sorted));
    if charged.Err? { return Err(charged.error); }
    var out := WriteIdentity(root, sorted);
    return Ok(h(out[..]));
  }

  /** Sort the recorded paths of every file that more than one path reaches. */
  method CollectGroups(v: Volume, named: map<Ino, seq<bytes>>) returns (groups: map<Ino, seq<bytes>>, listed: seq<seq<bytes>>)
    requires WellFormed(v) && named.Keys == set f | f in v && MultiplyLinked(v, f)
    requires forall f :: f in named ==>
                           f in v && !v[f].Directory? && Elements(named[f]) == FilePaths(v, f) && NoRepeats(named[f])
    ensures groups.Keys == named.Keys && forall f :: f in groups ==> MultiplyLinked(v, f) && groups[f] == Group(v, f)
    ensures SortBy(GroupLess, listed) == SortedGroups(v)
  {
    hide WellFormed, FilePaths, Group, SortBy;
    groups, listed := map[], [];
    var left := named.Keys;
    while left != {}
      invariant left <= named.Keys && groups.Keys == named.Keys - left
      invariant forall f :: f in groups ==> MultiplyLinked(v, f) && groups[f] == Group(v, f)
      invariant Elements(listed) == set f | f in groups :: groups[f]
      invariant NoRepeats(listed)
      decreases left
    {
      var f :| f in left;
      SortedGroup(v, f, named[f]);
      var sorted := SortBy(LexLess, named[f]);
      if |named[f]| > 1 {
        forall g | g in groups ensures groups[g] != sorted { GroupsDiffer(v, f, g); }
        assert sorted !in Elements(listed);
        assert Elements(listed + [sorted]) == Elements(listed) + {sorted};
        groups, listed := groups[f := sorted], listed + [sorted];
      }
      left := left - {f};
    }
    AllGroups(v, groups, listed);
  }

  lemma AllGroups(v: Volume, groups: map<Ino, seq<bytes>>, listed: seq<seq<bytes>>)
    requires WellFormed(v) && groups.Keys == set f | f in v && MultiplyLinked(v, f)
    requires forall f :: f in groups ==> MultiplyLinked(v, f) && groups[f] == Group(v, f)
    requires (Elements(listed) == set f | f in groups :: groups[f]) && NoRepeats(listed)
    ensures SortBy(GroupLess, listed) == SortedGroups(v)
  {
    hide WellFormed, Group;
    assert Elements(listed) == Groups(v);
    GroupsOrdered(v);
    SortAscending(GroupLess, Groups(v), listed);
    AscendingUnique(GroupLess, Groups(v), SortBy(GroupLess, listed), SortedGroups(v));
  }

  lemma SortedGroup(v: Volume, f: Ino, paths: seq<bytes>)
    requires WellFormed(v) && MultiplyLinked(v, f) && Elements(paths) == FilePaths(v, f) && NoRepeats(paths)
    ensures SortBy(LexLess, paths) == Group(v, f) && |paths| > 1
  {
    SeveralPaths(v, f, paths);
    hide WellFormed, FilePaths, SortBy;
    LexOrders(FilePaths(v, f));
    SortAscending(LexLess, FilePaths(v, f), paths);
    AscendingUnique(LexLess, FilePaths(v, f), SortBy(LexLess, paths), Group(v, f));
  }

  lemma SeveralPaths(v: Volume, f: Ino, paths: seq<bytes>)
    requires WellFormed(v) && MultiplyLinked(v, f) && Elements(paths) == FilePaths(v, f)
    ensures |paths| > 1
  {
    TwoLinks(v, f);
    var l, m := v[f].links[0], v[f].links[1];
    hide *;
    OtherPath(v, f, l, m);
    PathListed(v, f, l);
    PathListed(v, f, m);
    TwoElements(paths, PathBytes(LinkPath(v, l)), PathBytes(LinkPath(v, m)));
  }

  lemma TwoLinks(v: Volume, f: Ino)
    requires WellFormed(v) && MultiplyLinked(v, f)
    ensures var l, m := v[f].links[0], v[f].links[1]; l in v[f].links && m in v[f].links && l != m
    ensures f in v && !v[f].Directory?
  {
  }

  lemma TwoElements<T>(s: seq<T>, x: T, y: T)
    requires x in Elements(s) && y in Elements(s) && x != y
    ensures |s| > 1
  {
  }

  lemma PathListed(v: Volume, f: Ino, l: Link)
    requires WellFormed(v) && MultiplyLinked(v, f) && l in v[f].links
    ensures Live(v, l.parent) && PathBytes(LinkPath(v, l)) in FilePaths(v, f)
  {
    assert LinkOk(v, f, l);
  }

  lemma GroupsDiffer(v: Volume, f: Ino, g: Ino)
    requires WellFormed(v) && MultiplyLinked(v, f) && MultiplyLinked(v, g) && f != g
    ensures Group(v, f) != Group(v, g)
  {
    if Group(v, f) == Group(v, g) {
      var p := Group(v, f)[0];
      assert p in Elements(Group(v, f)) && p in Elements(Group(v, g));
      SharedPath(v, f, g, p);
    }
  }

  /** The bytes an identification hashes: every node's planned length and the identity's own. */
  ghost function HashedTotal(v: Volume): nat
    requires WellFormed(v)
  {
    NodesTotal(v, Planned) + IdentityLength(SortedGroups(v))
  }

  ghost function NodesTotal(v: Volume, w: Weight): nat {
    assert forall i :: i in ReachedSet(v) ==> i in v.Keys;
    Total(v, w, ReachedSet(v))
  }

  /** Exactly when an identification succeeds. */
  ghost predicate Affordable(v: Volume, budget: WalkBudget)
    requires WellFormed(v)
  {
    && |ReachedSet(v)| <= budget.records && |AllEntries(v)| <= budget.entries
    && PayloadFits(budget, NodesTotal(v, MerkleWalk.Payload)) && HashedTotal(v) <= budget.identityBytes
  }

  /** The failure names a budget that the volume exceeds. */
  ghost predicate Blames(v: Volume, budget: WalkBudget, error: Failure)
    requires WellFormed(v)
  {
    || (error == Failure(LimitExceeded, budget.recordsField) && |ReachedSet(v)| > budget.records)
    || (error == Failure(LimitExceeded, "entries") && |AllEntries(v)| > budget.entries)
    || (error == Failure(LimitExceeded, "identityBytes") && HashedTotal(v) > budget.identityBytes)
    || (budget.payload.Some? && error == Failure(LimitExceeded, budget.payload.value.field)
        && NodesTotal(v, MerkleWalk.Payload) > budget.payload.value.limit)
  }

  const NO_ROOT := Failure(InvalidStructure, "root")

  /**
   * `identify`. It succeeds exactly when every budget suffices, and then returns the identity of the namespace with
   * the digest of every reached node and every hard-link group.
   */
  method Identify(h: Hash, v: Volume, budget: WalkBudget) returns (r: Result<Identified, Failure>)
    requires ROOT in v && v[ROOT].Directory? ==> WellFormed(v)
    ensures !(ROOT in v && v[ROOT].Directory?) ==> r == Err(Failure(InvalidStructure, "root"))
    ensures ROOT in v && v[ROOT].Directory? ==> (r.Ok? <==> Affordable(v, budget))
    ensures ROOT in v && v[ROOT].Directory? && r.Err? ==> Blames(v, budget, r.error)
    ensures r.Ok? ==>
              && r.value.digest == Identity(h, v)
              && r.value.digests.Keys == ReachedSet(v)
              && (forall i :: i in r.value.digests ==> Reached(v, i) && r.value.digests[i] == Digest(h, v, i))
              && (r.value.groups.Keys == set f | f in v && MultiplyLinked(v, f))
              && (forall f :: f in r.value.groups ==> MultiplyLinked(v, f) && r.value.groups[f] == Group(v, f))
              && r.value.records == |ReachedSet(v)| && r.value.nodeBytes == NodesTotal(v, Planned)
              && r.value.payloadBytes == NodesTotal(v, MerkleWalk.Payload)
  {
    if ROOT !in v || !v[ROOT].Directory? { return Err(NO_ROOT); }
    hide WellFormed, Live, Digest, Total, ReachedSet, AllEntries, SortedGroups, Group, IdentityBytes, IdentityLength,
         WalkOk, Swept, Reached;
    RootIsReached(v);
    var found, w := BreadthFirst(v, budget);
    if found.Err? { return Err(found.error); }
    var order := found.value.order;
    FinishedWalk(v, w);
    var meter := new HashMeter(budget.identityBytes);
    var all := DigestAll(h, v, budget, order, meter);
    if all.Err? { return Err(all.error); }
    var digests, payload := all.value.0, all.value.1;
    var nodeBytes := meter.hashed;
    var groups, listed := CollectGroups(v, found.value.named);
    var digest := IdentityDigest(h, digests[ROOT], listed, meter);
    if digest.Err? { return Err(digest.error); }
    return Ok(Identified(digest.value, digests, groups, |order|, payload, nodeBytes));
  }

  lemma RootIsReached(v: Volume)
    requires WellFormed(v)
    ensures Reached(v, ROOT) && ROOT in ReachedSet(v) && Live(v, ROOT)
  {
    RootLive(v);
  }

  lemma FinishedWalk(v: Volume, w: Walk)
    requires WellFormed(v) && WalkOk(v, w) && Swept(v, w, |w.order|)
    ensures GoodOrder(v, w.order) && |w.order| == |ReachedSet(v)|
    ensures w.named.Keys == set f | f in v && MultiplyLinked(v, f)
    ensures forall f :: f in w.named ==>
                          f in v && !v[f].Directory? && Elements(w.named[f]) == FilePaths(v, f) && NoRepeats(w.named[f])
  {
    SeenIsReached(v, w);
    NamedIsGroups(v, w);
  }
}
