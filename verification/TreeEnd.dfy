/** The end of a tree image (`end` and `runtimeIssue` in `internal/tree.ts`): when everything read so far is accepted. */
module TreeEnd {
  import opened Basics
  import opened Forest
  import opened Volumes
  import opened Assembly
  import opened TreeMeter
  import opened TreeReader
  import opened TreeGraph
  import opened TreeMeaning
  import opened TreeVolume
  import opened TreePaths

  const NO_ROOT := Broken(AtNode(0), "")

  function RuntimeBroken(field: string): Failure { Failure(InvalidStructure, "runtime." + field) }

  predicate FitsIn(n: nat, limit: Option<nat>) { limit.Some? ==> n <= limit.value }

  /** What a live header promises about the nodes after it. */
  ghost predicate RuntimeOk(runtime: Runtime, t: Tree, v: Volume) {
    && |t.names| == runtime.usedEntries && t.usedBytes == runtime.usedBytes
    && FitsIn(|t.names|, runtime.maxEntries) && FitsIn(t.usedBytes, runtime.maxBytes)
    && (runtime.maxPathBytes.Some? ==> runtime.maxPathBytes.value >= 1 && AllFit(v, runtime.maxPathBytes.value))
  }

  /** The first count or limit that the header gets wrong. */
  function CountFault(h: Runtime, entries: nat, usedBytes: nat): Option<Failure> {
    if entries != h.usedEntries then Some(RuntimeBroken("usage.entries"))
    else if usedBytes != h.usedBytes then Some(RuntimeBroken("usage.usedBytes"))
    else if !FitsIn(entries, h.maxEntries) then Some(RuntimeBroken("limits.maxEntries"))
    else if !FitsIn(usedBytes, h.maxBytes) then Some(RuntimeBroken("limits.maxBytes"))
    else if h.maxPathBytes.Some? && h.maxPathBytes.value < 1 then Some(RuntimeBroken("limits.maxPathBytes"))
    else None
  }

  /** The reader knows the directories of the image before it checks the graph. */
  lemma ReadDirectoriesKnown(runtime: Option<Runtime>, rs: seq<Record>)
    requires rs != [] && RecordsOk(runtime, rs) && AllInline(rs)
    ensures DirectoriesKnown(TreeOf(runtime.Some?, rs))
  {
    TreeDirectories(runtime, rs);
    TreeNames(runtime.Some?, rs);
    RootRecord(runtime, rs, 0);
    hide *;
    FieldsKnown(rs, TreeOf(runtime.Some?, rs));
  }

  lemma FieldsKnown(rs: seq<Record>, t: Tree)
    requires rs != [] && IsRoot(rs[0].node) && DirectoryFields(rs, t) && t.names == AllNames(rs)
    ensures DirectoriesKnown(t)
  {
    hide AllNames, ToBytes, NamesAdded;
    assert rs[0].node.ino in t.parents;
    forall d | d in t.parents && d != ROOT ensures exists k :: 0 <= k < |t.names| && t.names[k].parent == t.parents[d] {
      var k := ParentNamed(rs, t, d);
    }
  }

  lemma ParentNamed(rs: seq<Record>, t: Tree, d: Ino) returns (k: nat)
    requires rs != [] && IsRoot(rs[0].node) && DirectoryFields(rs, t) && t.names == AllNames(rs) && d in t.parents && d != ROOT
    ensures k < |t.names| && t.names[k].parent == t.parents[d]
  {
    hide AllNames, ToBytes, NamesAdded;
    var i :| 0 <= i < |rs| && rs[i].node.WireDirectory? && rs[i].node.ino == d;
    DirectoryNamed(rs, i);
    NameAt(rs, i, 0);
    k := |AllNames(rs[..i])|;
  }

  lemma DirectoryNamed(rs: seq<Record>, i: nat)
    requires 0 < i < |rs| && rs[i].node.WireDirectory?
    ensures |NamesAdded(rs[i].node, i)| == 1 && NamesAdded(rs[i].node, i)[0].parent == rs[i].node.parent
  {
  }

  /** The names read are the entries of the volume. */
  lemma ImageNames(runtime: Option<Runtime>, rs: seq<Record>)
    requires Accepted(runtime, rs)
    ensures NamesAre(Image(runtime, rs), TreeOf(runtime.Some?, rs).names)
  {
    var v, t := Image(runtime, rs), TreeOf(runtime.Some?, rs);
    TreeNames(runtime.Some?, rs);
    hide Accepted, Image, NamesAdded, AllNames, TreeOf;
    forall k | 0 <= k < |t.names| ensures NameIs(v, t.names[k]) {
      var i, p := NameFrom(rs, k);
      NameOfRecord(runtime, rs, i, p);
    }
    forall d, n | Live(v, d) && d in v && v[d].Directory? && n in v[d].entries
      ensures exists k :: 0 <= k < |t.names| && t.names[k].parent == d && t.names[k].name == n
    {
      var k := EntryNamed(runtime, rs, d, n);
    }
  }

  lemma EntryNamed(runtime: Option<Runtime>, rs: seq<Record>, d: Ino, n: Name) returns (k: nat)
    requires Accepted(runtime, rs)
    requires var v := Image(runtime, rs); d in v && v[d].Directory? && n in v[d].entries
    ensures k < |AllNames(rs)| && AllNames(rs)[k].parent == d && AllNames(rs)[k].name == n
  {
    hide *;
    AcceptedRecords(runtime, rs);
    var v := Image(runtime, rs);
    ImageEntry(runtime, rs, d, n, v[d].entries[n]);
    var i, p := ClaimPlace(runtime, rs, v[d].entries[n], d, n);
    NameAt(rs, i, p);
    k := |AllNames(rs[..i])| + p;
  }

  lemma NameOfRecord(runtime: Option<Runtime>, rs: seq<Record>, i: nat, p: nat)
    requires Accepted(runtime, rs) && i < |rs| && p < |NamesAdded(rs[i].node, i)|
    ensures NameIs(Image(runtime, rs), NamesAdded(rs[i].node, i)[p])
  {
    var x, v, c := NamesAdded(rs[i].node, i)[p], Image(runtime, rs), rs[i].node.ino;
    PlaceListed(runtime, rs, i, p);
    ImageLive(runtime, rs, x.parent);
    PlaceClaims(runtime, rs, i, p);
    ImageNode(runtime, rs, c);
    TreeSpecs(runtime, rs);
    hide *;
    KindOfRecord(Specs(runtime, rs), rs[i].node, i, p);
    NameIsIntro(v, x, c);
  }

  lemma NameIsIntro(v: Volume, x: Named, c: Ino)
    requires Live(v, x.parent) && x.parent in v && v[x.parent].Directory? && x.name in v[x.parent].entries
    requires v[x.parent].entries[x.name] == c && c in v
    requires x.directory == if v[c].Directory? then Some(c) else None
    ensures NameIs(v, x)
  {
  }

  lemma KindOfRecord(specs: map<Ino, Spec>, w: Wire, i: nat, p: nat)
    requires NoNameTwice(specs) && w.ino in specs && p < |NamesAdded(w, i)| && (w.WireFile? ==> w.content.Inline?)
    requires specs[w.ino] == SpecRead(w)
    ensures NamesAdded(w, i)[p].directory == if AssembleNode(specs, w.ino).Directory? then Some(w.ino) else None
  {
    hide NoNameTwice, NamesIn, EntriesIn;
  }

  /** `end`: accept, or the first issue. */
  method End(runtime: Option<Runtime>, t: Tree, ghost rs: seq<Record>) returns (issue: Option<Failure>)
    requires RecordsOk(runtime, rs) && AllInline(rs) && t == TreeOf(runtime.Some?, rs)
    ensures rs == [] ==> issue == Some(NO_ROOT)
    ensures rs != [] && runtime.None? ==>
              (forall d :: d in t.directories ==> d in t.positions) && issue == GraphIssue(t)
    ensures issue.None? <==> Accepted(runtime, rs) && (runtime.Some? ==> RuntimeOk(runtime.value, t, Image(runtime, rs)))
  {
    CountOf(runtime.Some?, rs);
    if t.count == 0 { return Some(NO_ROOT); }
    ReadDirectoriesKnown(runtime, rs);
    hide RecordsOk, AllInline, TreeOf, Image, GraphIssue, AllFit;
    issue := CheckGraph(t);
    if issue.Some? || runtime.None? { return; }
    issue := RuntimeIssue(runtime.value, t, runtime, rs);
  }

  lemma {:induction false} CountOf(live: bool, rs: seq<Record>)
    requires AllInline(rs)
    ensures TreeOf(live, rs).count == |rs|
    decreases |rs|
  {
    if rs != [] { CountOf(live, rs[..|rs| - 1]); }
  }

  method RuntimeIssue(header: Runtime, t: Tree, ghost runtime: Option<Runtime>, ghost rs: seq<Record>) returns (issue: Option<Failure>)
    requires Accepted(runtime, rs) && t == TreeOf(runtime.Some?, rs)
    ensures issue.None? <==> RuntimeOk(header, t, Image(runtime, rs))
    ensures WellFormed(Image(runtime, rs))
    ensures issue.Some? ==>
              if CountFault(header, |t.names|, t.usedBytes).Some? then issue == CountFault(header, |t.names|, t.usedBytes)
              else header.maxPathBytes.Some? && Overlong(Image(runtime, rs), header.maxPathBytes.value, t.names, issue.value)
  {
    ImageNames(runtime, rs);
    AcceptedIsWellFormed(runtime, rs);
    hide Image, TreeOf, AllFit, WellFormed, NamesAre, Overlong;
    if |t.names| != header.usedEntries { return Some(RuntimeBroken("usage.entries")); }
    if t.usedBytes != header.usedBytes { return Some(RuntimeBroken("usage.usedBytes")); }
    if header.maxEntries.Some? && |t.names| > header.maxEntries.value { return Some(RuntimeBroken("limits.maxEntries")); }
    if header.maxBytes.Some? && t.usedBytes > header.maxBytes.value { return Some(RuntimeBroken("limits.maxBytes")); }
    if header.maxPathBytes.Some? {
      if header.maxPathBytes.value < 1 { return Some(RuntimeBroken("limits.maxPathBytes")); }
      issue := PathIssue(t.names, header.maxPathBytes.value, Image(runtime, rs));
      return;
    }
    return None;
  }
}
