/**
 * What an accepted tree image means: its records describe a well-formed volume in which every node is reached, and no
 * other sequence of records is accepted.
 */
module TreeMeaning {
  import opened Basics
  import opened Forest
  import opened Volumes
  import opened Assembly
  import opened TreeMeter
  import opened TreeReader

  // ---------------------------------------------------------------- reading several records

  /** Reading the records in order from the start. */
  function ReadAll(runtime: Option<Runtime>, rs: seq<Record>): Result<Tree, Failure>
    decreases |rs|
  {
    if rs == [] then Ok(EMPTY_TREE)
    else
      var n := |rs| - 1;
      match ReadAll(runtime, rs[..n])
      case Err(e) => Err(e)
      case Ok(t) => ReadRecord(runtime, t, rs[n], n)
  }

  function Previous(rs: seq<Record>): nat { if rs == [] then 0 else rs[|rs| - 1].node.ino }

  /** Every record is accepted after the ones before it. */
  ghost predicate RecordsOk(runtime: Option<Runtime>, rs: seq<Record>) {
    forall i :: 0 <= i < |rs| ==> Refusal(runtime, Previous(rs[..i]), rs[i], i).None?
  }

  predicate AllInline(rs: seq<Record>) {
    forall i :: 0 <= i < |rs| && rs[i].node.WireFile? ==> rs[i].node.content.Inline?
  }

  /** The state after the records. */
  function TreeOf(live: bool, rs: seq<Record>): Tree
    requires AllInline(rs)
    decreases |rs|
  {
    if rs == [] then EMPTY_TREE
    else
      var n := |rs| - 1;
      Extend(live, TreeOf(live, rs[..n]), rs[n], n)
  }

  lemma OkInline(runtime: Option<Runtime>, rs: seq<Record>)
    requires RecordsOk(runtime, rs)
    ensures AllInline(rs)
  {
    forall i | 0 <= i < |rs| && rs[i].node.WireFile? ensures rs[i].node.content.Inline? {
      AcceptedInline(runtime, Previous(rs[..i]), rs[i], i);
    }
  }

  lemma OkPrefix(runtime: Option<Runtime>, rs: seq<Record>)
    requires rs != []
    ensures var n := |rs| - 1;
            RecordsOk(runtime, rs) <==> RecordsOk(runtime, rs[..n]) && Refusal(runtime, Previous(rs[..n]), rs[n], n).None?
  {
    hide Refusal, Previous;
    var front := rs[..|rs| - 1];
    assert forall i :: 0 <= i < |front| ==> front[i] == rs[i] && front[..i] == rs[..i];
  }

  /** Reading succeeds exactly when every record is acceptable after its predecessor. */
  lemma {:induction false} ReadAllMeans(runtime: Option<Runtime>, rs: seq<Record>)
    ensures ReadAll(runtime, rs).Ok? <==> RecordsOk(runtime, rs)
    ensures RecordsOk(runtime, rs) ==> AllInline(rs) && ReadAll(runtime, rs).value == TreeOf(runtime.Some?, rs)
    ensures RecordsOk(runtime, rs) ==> TreeOf(runtime.Some?, rs).previous == Previous(rs)
    decreases |rs|
  {
    hide Refusal, RecordsOk, AllInline;
    if rs == [] {
      NoRecords(runtime);
    } else {
      ReadAllMeans(runtime, rs[..|rs| - 1]);
      OkPrefix(runtime, rs);
      if RecordsOk(runtime, rs) { OkInline(runtime, rs); }
    }
  }

  lemma NoRecords(runtime: Option<Runtime>)
    ensures RecordsOk(runtime, []) && AllInline([])
  {
  }

  // ---------------------------------------------------------------- facts about accepted records

  /** Inode numbers ascend from the root's. */
  lemma {:induction false} Ascend(runtime: Option<Runtime>, rs: seq<Record>, i: nat, j: nat)
    requires RecordsOk(runtime, rs) && i < j < |rs|
    ensures rs[i].node.ino < rs[j].node.ino
    decreases j
  {
    assert Refusal(runtime, Previous(rs[..j]), rs[j], j).None?;
    assert Previous(rs[..j]) == rs[j - 1].node.ino;
    if i < j - 1 { Ascend(runtime, rs, i, j - 1); }
  }

  /** What each accepted record satisfies. */
  ghost predicate RecordFacts(live: bool, w: Wire, i: nat) {
    && (i == 0 ==> IsRoot(w))
    && (w.WireDirectory? ==> i > 0 ==> IsName(ToBytes(w.name)))
    && (!w.WireDirectory? ==> (w.links != [] || Retained(live, w)) && forall p :: 0 <= p < |w.links| ==> IsName(ToBytes(w.links[p].name)))
    && (w.WireSymlink? ==> 0 !in ToBytes(w.target))
    && (w.WireFile? ==> w.content.Inline?)
  }

  lemma RecordHolds(runtime: Option<Runtime>, rs: seq<Record>, i: nat)
    requires RecordsOk(runtime, rs) && i < |rs|
    ensures RecordFacts(runtime.Some?, rs[i].node, i) && (i > 0 ==> rs[i].node.ino > ROOT)
  {
    assert Refusal(runtime, Previous(rs[..i]), rs[i], i).None?;
    if i > 0 {
      Ascend(runtime, rs, 0, i);
      assert Refusal(runtime, Previous(rs[..0]), rs[0], 0).None?;
    }
  }

  /** One to 255 bytes without a NUL or a slash, and neither "." nor "..". */
  predicate GoodName(name: bytes) {
    1 <= |name| <= 255 && 0 !in name && 47 !in name && name != [46] && name != [46, 46]
  }

  /** What the image asks of the record at a place, of its fields, its predecessor and the header. */
  ghost predicate RecordFits(runtime: Option<Runtime>, rs: seq<Record>, i: nat)
    requires i < |rs|
  {
    var w := rs[i].node;
    && (if i == 0 then w.WireDirectory? && w.ino == 1 && w.parent == 1 && |w.name| == 0 else rs[i - 1].node.ino < w.ino)
    && (runtime.Some? ==> w.ino < runtime.value.nextInode && 1 <= rs[i].revision <= runtime.value.revision)
    && (w.WireDirectory? && i > 0 ==> GoodName(ToBytes(w.name)))
    && (!w.WireDirectory? ==>
          && (w.links == [] ==> runtime.Some? && w.WireFile?)
          && (forall p :: 0 <= p < |w.links| ==> GoodName(ToBytes(w.links[p].name))))
    && (w.WireSymlink? ==> 0 !in ToBytes(w.target))
    && (w.WireFile? ==>
          && w.content.Inline?
          && (runtime.Some? && runtime.value.maxFileBytes.Some? ==> |ToBytes(w.content.data)| <= runtime.value.maxFileBytes.value))
  }

  lemma FitsAt(runtime: Option<Runtime>, rs: seq<Record>, i: nat)
    requires i < |rs|
    ensures Refusal(runtime, Previous(rs[..i]), rs[i], i).None? <==> RecordFits(runtime, rs, i)
  {
    hide ToBytes, Numeral, FirstBadLink;
    if i > 0 { assert rs[..i][|rs[..i]| - 1] == rs[i - 1]; }
  }

  /**
   * Main result: records are accepted exactly when the first is the root, inode numbers ascend and stay below the
   * allocator, revisions stay within the counter, names and targets are good, and every file is inline and fits.
   */
  lemma RecordsMean(runtime: Option<Runtime>, rs: seq<Record>)
    ensures ReadAll(runtime, rs).Ok? <==> forall i :: 0 <= i < |rs| ==> RecordFits(runtime, rs, i)
  {
    ReadAllMeans(runtime, rs);
    hide ReadAll, RecordFits, Refusal;
    forall i | 0 <= i < |rs|
      ensures Refusal(runtime, Previous(rs[..i]), rs[i], i).None? <==> RecordFits(runtime, rs, i)
    {
      FitsAt(runtime, rs, i);
    }
  }

  // ---------------------------------------------------------------- the fields of the state

  /** The names, in reading order. */
  function AllNames(rs: seq<Record>): seq<Named>
    decreases |rs|
  {
    if rs == [] then [] else AllNames(rs[..|rs| - 1]) + NamesAdded(rs[|rs| - 1].node, |rs| - 1)
  }

  lemma {:induction false} TreeNames(live: bool, rs: seq<Record>)
    requires AllInline(rs)
    ensures TreeOf(live, rs).names == AllNames(rs)
    decreases |rs|
  {
    if rs != [] { TreeNames(live, rs[..|rs| - 1]); }
  }

  /** Where the names of the record `i` start. */
  lemma {:induction false} NameAt(rs: seq<Record>, i: nat, p: nat)
    requires i < |rs| && p < |NamesAdded(rs[i].node, i)|
    ensures var k := |AllNames(rs[..i])| + p; k < |AllNames(rs)| && AllNames(rs)[k] == NamesAdded(rs[i].node, i)[p]
    ensures i + 1 <= |rs| && |AllNames(rs[..i + 1])| == |AllNames(rs[..i])| + |NamesAdded(rs[i].node, i)| <= |AllNames(rs)|
    decreases |rs|
  {
    hide NamesAdded;
    var n := |rs| - 1;
    assert rs[..i + 1][..i] == rs[..i] && rs[..i + 1][i] == rs[i];
    if i < n {
      NameAt(rs[..n], i, p);
      assert rs[..n][..i] == rs[..i] && rs[..n][..i + 1] == rs[..i + 1];
    } else {
      assert rs[..i + 1] == rs;
    }
  }

  /** Every name comes from a record. */
  lemma {:induction false} NameFrom(rs: seq<Record>, k: nat) returns (i: nat, p: nat)
    requires k < |AllNames(rs)|
    ensures i < |rs| && p < |NamesAdded(rs[i].node, i)| && NamesAdded(rs[i].node, i)[p] == AllNames(rs)[k]
    ensures k == |AllNames(rs[..i])| + p
    decreases |rs|
  {
    hide NamesAdded;
    var n := |rs| - 1;
    var front := AllNames(rs[..n]);
    if k < |front| {
      i, p := NameFrom(rs[..n], k);
      assert rs[..n][..i] == rs[..i];
    } else {
      i, p := n, k - |front|;
    }
  }

  lemma {:induction false} NamesGrow(rs: seq<Record>, i: nat, j: nat)
    requires i <= j <= |rs|
    ensures |AllNames(rs[..i])| <= |AllNames(rs[..j])|
    decreases j
  {
    if i < j {
      NamesGrow(rs, i, j - 1);
      assert rs[..j][..j - 1] == rs[..j - 1];
    }
  }

  /** Different names come from different places. */
  lemma NamePlaces(rs: seq<Record>, i: nat, p: nat, j: nat, q: nat)
    requires i < |rs| && p < |NamesAdded(rs[i].node, i)| && j < |rs| && q < |NamesAdded(rs[j].node, j)|
    requires |AllNames(rs[..i])| + p == |AllNames(rs[..j])| + q
    ensures i == j && p == q
  {
    hide NamesAdded, AllNames;
    NameAt(rs, i, p);
    NameAt(rs, j, q);
    if i < j { NamesGrow(rs, i + 1, j); }
    if j < i { NamesGrow(rs, j + 1, i); }
  }

  /** `parents`, `directories` and `positions` say what the directory records say. */
  ghost predicate DirectoryFields(rs: seq<Record>, t: Tree) {
    && (forall d :: d in t.parents <==> exists i :: 0 <= i < |rs| && rs[i].node.WireDirectory? && rs[i].node.ino == d)
    && (forall d :: d in t.positions <==> d in t.parents) && (forall d :: d in t.directories <==> d in t.parents)
    && (forall i :: 0 <= i < |rs| && rs[i].node.WireDirectory? ==>
          rs[i].node.ino in t.parents && t.parents[rs[i].node.ino] == rs[i].node.parent && t.positions[rs[i].node.ino] == i)
  }

  lemma {:induction false} TreeDirectories(runtime: Option<Runtime>, rs: seq<Record>)
    requires RecordsOk(runtime, rs) && AllInline(rs)
    ensures DirectoryFields(rs, TreeOf(runtime.Some?, rs))
    decreases |rs|
  {
    if rs != [] {
      var n := |rs| - 1;
      OkPrefix(runtime, rs);
      TreeDirectories(runtime, rs[..n]);
      var w := rs[n].node;
      forall i | 0 <= i < n ensures rs[i].node.ino != w.ino { Ascend(runtime, rs, i, n); }
      hide RecordsOk, NamesAdded;
      NextDirectories(rs, TreeOf(runtime.Some?, rs[..n]), TreeOf(runtime.Some?, rs));
    }
  }

  lemma NextDirectories(rs: seq<Record>, t: Tree, next: Tree)
    requires rs != [] && DirectoryFields(rs[..|rs| - 1], t)
    requires forall i :: 0 <= i < |rs| - 1 ==> rs[i].node.ino != rs[|rs| - 1].node.ino
    requires var w := rs[|rs| - 1].node;
             if w.WireDirectory? then
               && next.parents == t.parents[w.ino := w.parent] && next.positions == t.positions[w.ino := |rs| - 1]
               && next.directories == t.directories + [w.ino]
             else next.parents == t.parents && next.positions == t.positions && next.directories == t.directories
    ensures DirectoryFields(rs, next)
  {
    var n := |rs| - 1;
    var w := rs[n].node;
    forall d | d in t.parents ensures exists i :: 0 <= i < |rs| && rs[i].node.WireDirectory? && rs[i].node.ino == d {
      var i :| 0 <= i < n && rs[..n][i].node.WireDirectory? && rs[..n][i].node.ino == d;
      assert rs[i] == rs[..n][i];
    }
    forall i | 0 <= i < |rs| && rs[i].node.WireDirectory?
      ensures rs[i].node.ino in next.parents && next.parents[rs[i].node.ino] == rs[i].node.parent
      ensures next.positions[rs[i].node.ino] == i
    {
      if i < n { assert rs[..n][i] == rs[i]; }
    }
  }

  // ---------------------------------------------------------------- the specifications the image holds

  /** The nodes handed to `assemble`, by inode number. */
  function SpecMap(items: seq<Item>): map<Ino, Spec>
    decreases |items|
  {
    if items == [] then map[]
    else SpecMap(items[..|items| - 1])[items[|items| - 1].ino := items[|items| - 1].spec]
  }

  ghost predicate SpecsAre(live: bool, rs: seq<Record>, specs: map<Ino, Spec>)
    requires AllInline(rs)
  {
    && (forall i :: 0 <= i < |rs| && !Retained(live, rs[i].node) ==>
          rs[i].node.ino in specs && specs[rs[i].node.ino] == SpecRead(rs[i].node))
    && (forall c :: c in specs ==> exists i :: 0 <= i < |rs| && !Retained(live, rs[i].node) && rs[i].node.ino == c)
  }

  lemma {:induction false} TreeSpecs(runtime: Option<Runtime>, rs: seq<Record>)
    requires RecordsOk(runtime, rs) && AllInline(rs)
    ensures SpecsAre(runtime.Some?, rs, SpecMap(TreeOf(runtime.Some?, rs).items))
    decreases |rs|
  {
    if rs != [] {
      var n, live := |rs| - 1, runtime.Some?;
      OkPrefix(runtime, rs);
      TreeSpecs(runtime, rs[..n]);
      forall i | 0 <= i < n ensures rs[i].node.ino != rs[n].node.ino { Ascend(runtime, rs, i, n); }
      hide RecordsOk, NamesAdded, SpecRead;
      var t, next := TreeOf(live, rs[..n]), TreeOf(live, rs);
      if !Retained(live, rs[n].node) { assert next.items[..|next.items| - 1] == t.items; }
      NextSpecs(live, rs, SpecMap(t.items), SpecMap(next.items));
    }
  }

  lemma NextSpecs(live: bool, rs: seq<Record>, specs: map<Ino, Spec>, next: map<Ino, Spec>)
    requires rs != [] && AllInline(rs) && AllInline(rs[..|rs| - 1]) && SpecsAre(live, rs[..|rs| - 1], specs)
    requires forall i :: 0 <= i < |rs| - 1 ==> rs[i].node.ino != rs[|rs| - 1].node.ino
    requires var w := rs[|rs| - 1].node; next == if Retained(live, w) then specs else specs[w.ino := SpecRead(w)]
    ensures SpecsAre(live, rs, next)
  {
    hide SpecRead, Retained;
    var n := |rs| - 1;
    forall c | c in next ensures exists i :: 0 <= i < |rs| && !Retained(live, rs[i].node) && rs[i].node.ino == c {
      if c in specs {
        var i :| 0 <= i < n && !Retained(live, rs[..n][i].node) && rs[..n][i].node.ino == c;
        assert rs[i] == rs[..n][i];
      }
    }
    forall i | 0 <= i < |rs| && !Retained(live, rs[i].node)
      ensures rs[i].node.ino in next && next[rs[i].node.ino] == SpecRead(rs[i].node)
    {
      if i < n { assert rs[..n][i] == rs[i]; }
    }
  }
}
