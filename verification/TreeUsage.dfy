/**
 * The usage a live image's header promises (`runtimeIssue` in `internal/tree.ts`), measured on the restored volume and
 * the records: how many entries there are, and how many bytes are stored.
 */
module TreeUsage {
  import opened Basics
  import opened Forest
  import opened Sorting
  import opened Volumes
  import opened Assembly
  import opened MerkleFraming
  import opened TreeMeter
  import opened TreeReader
  import opened TreeGraph
  import opened TreeMeaning
  import opened TreeVolume
  import opened TreePaths
  import opened TreeEnd

  /** The content bytes of the records; files without a name count, too. */
  function StoredBytes(rs: seq<Record>): nat {
    if rs == [] then 0
    else
      (match rs[0].node
       case WireDirectory(_, _, _, _) => 0
       case WireFile(_, _, content, _) => if content.Inline? then |ToBytes(content.data)| else 0
       case WireSymlink(_, _, target, _) => |ToBytes(target)|)
      + StoredBytes(rs[1..])
  }

  lemma {:induction false} StoredSnoc(rs: seq<Record>, r: Record)
    ensures StoredBytes(rs + [r]) == StoredBytes(rs) + PayloadSize(r.node)
    decreases |rs|
  {
    hide ToBytes;
    if rs == [] {
      assert rs + [r] == [r] && [r][1..] == [];
    } else {
      assert (rs + [r])[0] == rs[0] && (rs + [r])[1..] == rs[1..] + [r];
      StoredSnoc(rs[1..], r);
    }
  }

  lemma ExtendStores(live: bool, t: Tree, r: Record, index: nat)
    requires r.node.WireFile? ==> r.node.content.Inline?
    ensures Extend(live, t, r, index).usedBytes == t.usedBytes + PayloadSize(r.node)
  {
    hide NamesAdded, SpecRead, PayloadSize;
  }

  lemma {:induction false} TreeStores(live: bool, rs: seq<Record>)
    requires AllInline(rs)
    ensures TreeOf(live, rs).usedBytes == StoredBytes(rs)
    decreases |rs|
  {
    hide PayloadSize, Extend, StoredBytes;
    if rs == [] {
      NothingStored();
    } else {
      var front, last := rs[..|rs| - 1], rs[|rs| - 1];
      assert AllInline(front);
      TreeStores(live, front);
      ExtendStores(live, TreeOf(live, front), last, |front|);
      StoredSnoc(front, last);
      assert rs == front + [last];
    }
  }

  lemma NothingStored()
    ensures StoredBytes([]) == 0
  {
  }

  /** Where a name hangs. */
  function HangsAt(x: Named): Link { Link(x.parent, x.name) }

  /** Names that are the entries of a volume, each once, are as many as the entries. */
  lemma NamesCounted(v: Volume, names: seq<Named>)
    requires NamesAre(v, names) && NamesOnce(names)
    ensures |names| == |AllEntries(v)|
  {
    hide Live;
    var links := seq(|names|, k requires 0 <= k < |names| => HangsAt(names[k]));
    forall j, k | 0 <= j < k < |links| ensures links[j] != links[k] { assert !SameName(names[j], names[k]); }
    DistinctCount(links);
    forall l ensures l in Elements(links) <==> l in AllEntries(v) {
      if l in links {
        var k :| 0 <= k < |links| && links[k] == l;
        assert NameIs(v, names[k]);
      }
      if l in AllEntries(v) {
        var k :| 0 <= k < |names| && names[k].parent == l.parent && names[k].name == l.name;
        assert links[k] == l;
      }
    }
    assert Elements(links) == AllEntries(v);
  }

  lemma AcceptedOnce(runtime: Option<Runtime>, rs: seq<Record>)
    requires Accepted(runtime, rs)
    ensures AllInline(rs) && NamesOnce(TreeOf(runtime.Some?, rs).names)
  {
    hide TreeOf, RecordsOk, NamesHang, AllAttached, NamesOnce;
  }

  /** As many names are read as the restored volume has entries. */
  lemma NamesAreEntries(runtime: Option<Runtime>, rs: seq<Record>)
    requires Accepted(runtime, rs)
    ensures AllInline(rs) && |TreeOf(runtime.Some?, rs).names| == |AllEntries(Image(runtime, rs))|
  {
    hide *;
    ImageNames(runtime, rs);
    AcceptedOnce(runtime, rs);
    NamesCounted(Image(runtime, rs), TreeOf(runtime.Some?, rs).names);
  }

  ghost predicate AtMostIf(n: nat, limit: Option<nat>) { limit.None? || n <= limit.value }

  /** What a header may say of a volume with so many bytes stored: both counts right, and every limit kept. */
  ghost predicate HeaderFits(h: Runtime, v: Volume, stored: nat) {
    && h.usedEntries == |AllEntries(v)| && h.usedBytes == stored
    && AtMostIf(|AllEntries(v)|, h.maxEntries) && AtMostIf(stored, h.maxBytes)
    && (h.maxPathBytes.Some? ==>
          h.maxPathBytes.value >= 1 && forall p :: Lookup(v, ROOT, p).Some? ==> |PathBytes(p)| <= h.maxPathBytes.value)
  }

  lemma RuntimeOkIs(h: Runtime, t: Tree, v: Volume, stored: nat)
    requires |t.names| == |AllEntries(v)| && t.usedBytes == stored
    ensures RuntimeOk(h, t, v) <==> HeaderFits(h, v, stored)
  {
    hide Lookup, PathBytes, AllEntries;
  }

  /**
   * Main result: an accepted tree makes a live image exactly when the header counts the entries of the restored volume
   * and the bytes of the records, and both and every absolute path fit the header's limits.
   */
  lemma LiveImageMeans(runtime: Runtime, rs: seq<Record>)
    requires Accepted(Some(runtime), rs)
    ensures AllInline(rs)
    ensures RuntimeOk(runtime, TreeOf(true, rs), Image(Some(runtime), rs)) <==>
            HeaderFits(runtime, Image(Some(runtime), rs), StoredBytes(rs))
  {
    hide *;
    AcceptedOnce(Some(runtime), rs);
    TreeStores(true, rs);
    NamesAreEntries(Some(runtime), rs);
    RuntimeOkIs(runtime, TreeOf(true, rs), Image(Some(runtime), rs), StoredBytes(rs));
  }

  /** The numbers in a failure's field are decimal digits, as those of the time stamps are. */
  lemma {:induction false} NumeralIsDecimal(n: nat)
    ensures |Numeral(n)| == |Digits(n)| && forall i :: 0 <= i < |Numeral(n)| ==> Numeral(n)[i] as int == Digits(n)[i]
    decreases n
  {
    if n >= 10 { NumeralIsDecimal(n / 10); }
  }

  /** The fields that a header's first fault names: both counts are checked before any limit, entries before bytes. */
  lemma CountFaultSpelled(h: Runtime, entries: nat, usedBytes: nat)
    ensures var counted := entries == h.usedEntries && usedBytes == h.usedBytes;
            var small := counted && AtMostIf(entries, h.maxEntries);
            forall e: Failure ::
              CountFault(h, entries, usedBytes) == Some(e) <==>
              || (entries != h.usedEntries && e == Failure(InvalidStructure, "runtime.usage.entries"))
              || (entries == h.usedEntries && !counted && e == Failure(InvalidStructure, "runtime.usage.usedBytes"))
              || (counted && !small && e == Failure(InvalidStructure, "runtime.limits.maxEntries"))
              || (small && !AtMostIf(usedBytes, h.maxBytes) && e == Failure(InvalidStructure, "runtime.limits.maxBytes"))
              || (small && AtMostIf(usedBytes, h.maxBytes) && h.maxPathBytes == Some(0)
                  && e == Failure(InvalidStructure, "runtime.limits.maxPathBytes"))
  {
    assert "runtime." + "usage.entries" == "runtime.usage.entries";
    assert "runtime." + "usage.usedBytes" == "runtime.usage.usedBytes";
    assert "runtime." + "limits.maxEntries" == "runtime.limits.maxEntries";
    assert "runtime." + "limits.maxBytes" == "runtime.limits.maxBytes";
    assert "runtime." + "limits.maxPathBytes" == "runtime.limits.maxPathBytes";
  }

  /** Where a failure is found is told by the record's place in the document, and the link's within the record. */
  lemma PlacesSpelled(index: nat, position: nat, leaf: string)
    ensures Broken(AtNode(index), leaf) == Failure(InvalidStructure, "nodes." + Numeral(index) + leaf)
    ensures Broken(AtLink(index, position), leaf) ==
            Failure(InvalidStructure, "nodes." + Numeral(index) + ".links." + Numeral(position) + leaf)
    ensures NO_ROOT == Failure(InvalidStructure, "nodes.0")
  {
    assert Numeral(0) == "0";
    assert "nodes." + "0" + "" == "nodes.0";
  }
}
