/**
 * The summary of an overlay (`internal/overlayDiff.ts`): what changed between two observations of a tree, with renames
 * recognised by lineage. The summary is stated on path tables, so it cannot depend on the order of the observations.
 */
module Overlay {
  import opened Basics
  import opened Sorting
  import opened Volumes

  datatype Kind = DirectoryKind | FileKind | SymlinkKind

  datatype Observed = Observed(path: bytes, lineage: Option<string>, kind: Kind, content: Option<bytes>, metadata: Metadata)

  datatype Difference = Content | Mode | Uid | Gid | AtimeNs | MtimeNs | CtimeNs | BirthtimeNs

  datatype Change =
    | Added(path: bytes, kind: Kind)
    | Removed(path: bytes, kind: Kind)
    | Replaced(path: bytes, beforeKind: Kind, afterKind: Kind, differences: seq<Difference>)
    | Renamed(from: bytes, to: bytes, kind: Kind, differences: seq<Difference>)
    | Updated(path: bytes, kind: Kind, differences: seq<Difference>)

  function Source(c: Change): bytes { if c.Renamed? then c.from else c.path }

  function Tag(c: Change): nat {
    match c
    case Added(_, _) => 0
    case Removed(_, _) => 1
    case Replaced(_, _, _, _) => 2
    case Renamed(_, _, _, _) => 3
    case Updated(_, _, _) => 4
  }

  /** `changeOrder`. */
  predicate Before(a: Change, b: Change) {
    LexLess(Source(a), Source(b)) || (Source(a) == Source(b) && Tag(a) < Tag(b))
  }

  // ---------------------------------------------------------------- differences

  const DIFFERENCE_ORDER := [Content, Mode, Uid, Gid, AtimeNs, MtimeNs, CtimeNs, BirthtimeNs]

  predicate IsTime(d: Difference) { d in [AtimeNs, MtimeNs, CtimeNs, BirthtimeNs] }

  function Field(m: Metadata, d: Difference): int {
    match d
    case Content => 0
    case Mode => m.mode
    case Uid => m.uid
    case Gid => m.gid
    case AtimeNs => m.atimeNs
    case MtimeNs => m.mtimeNs
    case CtimeNs => m.ctimeNs
    case BirthtimeNs => m.birthtimeNs
  }

  /** A kind change always counts as a content change. */
  predicate Differs(before: Observed, after: Observed, times: bool, d: Difference) {
    if !times && IsTime(d) then false
    else if d == Content then before.kind != after.kind || before.content != after.content
    else Field(before.metadata, d) != Field(after.metadata, d)
  }

  function DifferencesFrom(before: Observed, after: Observed, times: bool, k: nat): seq<Difference>
    requires k <= |DIFFERENCE_ORDER|
    decreases |DIFFERENCE_ORDER| - k
  {
    if k == |DIFFERENCE_ORDER| then []
    else
      (if Differs(before, after, times, DIFFERENCE_ORDER[k]) then [DIFFERENCE_ORDER[k]] else [])
      + DifferencesFrom(before, after, times, k + 1)
  }

  function Differences(before: Observed, after: Observed, times: bool): seq<Difference> {
    DifferencesFrom(before, after, times, 0)
  }

  /** The same kind, content and compared metadata. */
  predicate SameFields(before: Observed, after: Observed, times: bool) {
    && before.kind == after.kind && before.content == after.content
    && var (m, n) := (before.metadata, after.metadata);
       && m.mode == n.mode && m.uid == n.uid && m.gid == n.gid
       && (times ==> m.atimeNs == n.atimeNs && m.mtimeNs == n.mtimeNs && m.ctimeNs == n.ctimeNs && m.birthtimeNs == n.birthtimeNs)
  }

  lemma {:induction false} DifferencesMeans(before: Observed, after: Observed, times: bool, k: nat)
    requires k <= |DIFFERENCE_ORDER|
    ensures DifferencesFrom(before, after, times, k) == []
            <==> forall j :: k <= j < |DIFFERENCE_ORDER| ==> !Differs(before, after, times, DIFFERENCE_ORDER[j])
    decreases |DIFFERENCE_ORDER| - k
  {
    if k < |DIFFERENCE_ORDER| { DifferencesMeans(before, after, times, k + 1); }
  }

  lemma PlaceInOrder(d: Difference) returns (j: nat)
    ensures j < |DIFFERENCE_ORDER| && DIFFERENCE_ORDER[j] == d
  {
    j := match d
      case Content => 0 case Mode => 1 case Uid => 2 case Gid => 3
      case AtimeNs => 4 case MtimeNs => 5 case CtimeNs => 6 case BirthtimeNs => 7;
  }

  /** The fields are the same when no difference is there to be found. */
  lemma SameIsNone(before: Observed, after: Observed, times: bool)
    ensures SameFields(before, after, times) <==> forall d :: !Differs(before, after, times, d)
  {
    assert SameFields(before, after, times) <==>
           && !Differs(before, after, times, Content) && !Differs(before, after, times, Mode)
           && !Differs(before, after, times, Uid) && !Differs(before, after, times, Gid)
           && !Differs(before, after, times, AtimeNs) && !Differs(before, after, times, MtimeNs)
           && !Differs(before, after, times, CtimeNs) && !Differs(before, after, times, BirthtimeNs);
  }

  lemma NoDifferences(before: Observed, after: Observed, times: bool)
    ensures Differences(before, after, times) == [] <==> SameFields(before, after, times)
  {
    hide DifferencesFrom, Differs, SameFields;
    DifferencesMeans(before, after, times, 0);
    SameIsNone(before, after, times);
    if Differences(before, after, times) == [] {
      forall d ensures !Differs(before, after, times, d) { var j := PlaceInOrder(d); }
    }
  }

  /** A kind change counts as a content change; time stamps count only when they are compared. */
  predicate IsDifferent(before: Observed, after: Observed, times: bool, d: Difference) {
    var (m, n) := (before.metadata, after.metadata);
    match d
    case Content => before.kind != after.kind || before.content != after.content
    case Mode => m.mode != n.mode
    case Uid => m.uid != n.uid
    case Gid => m.gid != n.gid
    case AtimeNs => times && m.atimeNs != n.atimeNs
    case MtimeNs => times && m.mtimeNs != n.mtimeNs
    case CtimeNs => times && m.ctimeNs != n.ctimeNs
    case BirthtimeNs => times && m.birthtimeNs != n.birthtimeNs
  }

  function Rank(d: Difference): nat {
    match d
    case Content => 0 case Mode => 1 case Uid => 2 case Gid => 3
    case AtimeNs => 4 case MtimeNs => 5 case CtimeNs => 6 case BirthtimeNs => 7
  }

  ghost predicate Ranked(ds: seq<Difference>, k: nat) {
    && (forall i :: 0 <= i < |ds| ==> k <= Rank(ds[i]))
    && (forall i, j :: 0 <= i < j < |ds| ==> Rank(ds[i]) < Rank(ds[j]))
  }

  lemma DifferAgree(before: Observed, after: Observed, times: bool, d: Difference)
    ensures Differs(before, after, times, d) <==> IsDifferent(before, after, times, d)
  {
  }

  lemma OrderRanks(d: Difference, k: nat)
    requires k < |DIFFERENCE_ORDER|
    ensures Rank(DIFFERENCE_ORDER[k]) == k && (Rank(d) == k ==> d == DIFFERENCE_ORDER[k]) && Rank(d) < |DIFFERENCE_ORDER|
  {
  }

  lemma {:induction false} DifferencesFromAre(before: Observed, after: Observed, times: bool, k: nat, d: Difference)
    requires k <= |DIFFERENCE_ORDER|
    ensures d in DifferencesFrom(before, after, times, k) <==> Rank(d) >= k && IsDifferent(before, after, times, d)
    ensures Ranked(DifferencesFrom(before, after, times, k), k)
    decreases |DIFFERENCE_ORDER| - k
  {
    hide Differs, IsDifferent, Rank;
    if k < |DIFFERENCE_ORDER| {
      DifferencesFromAre(before, after, times, k + 1, d);
      DifferAgree(before, after, times, d);
      OrderRanks(d, k);
    } else {
      OrderRanks(d, 0);
    }
  }

  /** Main result: the differences are exactly the compared fields that differ, each once, in the one fixed order. */
  lemma DifferencesAre(before: Observed, after: Observed, times: bool)
    ensures forall d :: d in Differences(before, after, times) <==> IsDifferent(before, after, times, d)
    ensures var ds := Differences(before, after, times); forall i, j :: 0 <= i < j < |ds| ==> Rank(ds[i]) < Rank(ds[j])
  {
    hide DifferencesFrom, IsDifferent, Rank;
    DifferencesFromAre(before, after, times, 0, Content);
    forall d ensures d in Differences(before, after, times) <==> IsDifferent(before, after, times, d) {
      DifferencesFromAre(before, after, times, 0, d);
    }
  }

  /** Changes of one path come in the order added, removed, replaced, renamed, updated; else the paths decide. */
  lemma ChangeOrder(x: Change, y: Change)
    ensures Source(x) != Source(y) ==> (Before(x, y) <==> LexLess(Source(x), Source(y)))
    ensures Source(x) == Source(y) ==>
              (Before(x, y) <==>
                 || (x.Added? && !y.Added?)
                 || (x.Removed? && !y.Added? && !y.Removed?)
                 || (x.Replaced? && (y.Renamed? || y.Updated?))
                 || (x.Renamed? && y.Updated?))
  {
    LexTotal(Source(x), Source(y));
  }

  // ---------------------------------------------------------------- tables

  type Table = map<bytes, Observed>

  ghost predicate OnePerPath(entries: seq<Observed>) {
    forall j, k :: 0 <= j < k < |entries| ==> entries[j].path != entries[k].path
  }

  /** The entries of an observation by path; each path is observed once. */
  ghost predicate TableOf(entries: seq<Observed>, t: Table) {
    && (forall e :: e in entries ==> e.path in t && t[e.path] == e)
    && (forall p :: p in t ==> t[p] in entries && t[p].path == p)
  }

  /** An observation by path. */
  ghost function Tabled(entries: seq<Observed>): (t: Table)
    requires OnePerPath(entries)
    ensures TableOf(entries, t)
  {
    map e | e in entries :: e.path := e
  }

  predicate InLineage(t: Table, p: bytes, l: string) { p in t && t[p].lineage == Some(l) }

  /** The paths the lineage `l` has in `b` and not in `c`. */
  function Gone(b: Table, c: Table, l: string): set<bytes> {
    set p | p in b && InLineage(b, p, l) && !InLineage(c, p, l)
  }

  /** The one path a lineage lost is now the one path it gained. */
  predicate Moves(b: Table, c: Table, p: bytes, q: bytes) {
    && p in b && q in c && b[p].lineage.Some?
    && Gone(b, c, b[p].lineage.value) == {p} && Gone(c, b, b[p].lineage.value) == {q}
  }

  function Sources(b: Table, c: Table): set<bytes> { set p, q | p in b && q in c && Moves(b, c, p, q) :: p }

  function Targets(b: Table, c: Table): set<bytes> { set p, q | p in b && q in c && Moves(b, c, p, q) :: q }

  function RenameOf(b: Table, c: Table, times: bool, p: bytes, q: bytes): Change
    requires p in b && q in c
  {
    Renamed(p, q, c[q].kind, Differences(b[p], c[q], times))
  }

  function Renames(b: Table, c: Table, times: bool): set<Change> {
    set p, q | p in b && q in c && Moves(b, c, p, q) :: RenameOf(b, c, times, p, q)
  }

  /** What the summary says of a base path that was not renamed. */
  function BaseChange(b: Table, c: Table, times: bool, p: bytes): Option<Change>
    requires p in b
  {
    if p in Sources(b, c) then None
    else if p !in c || p in Targets(b, c) then Some(Removed(p, b[p].kind))
    else if b[p].lineage.None? || b[p].lineage != c[p].lineage then
      Some(Replaced(p, b[p].kind, c[p].kind, Differences(b[p], c[p], times)))
    else if Differences(b[p], c[p], times) != [] then Some(Updated(p, c[p].kind, Differences(b[p], c[p], times)))
    else None
  }

  function BaseChanges(b: Table, c: Table, times: bool): set<Change> {
    set p | p in b && BaseChange(b, c, times, p).Some? :: BaseChange(b, c, times, p).value
  }

  predicate Appears(b: Table, c: Table, q: bytes) {
    q in c && q !in Targets(b, c) && (q !in b || q in Sources(b, c))
  }

  function Additions(b: Table, c: Table): set<Change> {
    set q | q in c && Appears(b, c, q) :: Added(q, c[q].kind)
  }

  function Summary(b: Table, c: Table, times: bool): set<Change> {
    Renames(b, c, times) + BaseChanges(b, c, times) + Additions(b, c)
  }

  // ---------------------------------------------------------------- what a summary means

  /** A path moves to one place, and a place is moved to from one path. */
  lemma MovesOnce(b: Table, c: Table, p: bytes, q: bytes, r: bytes, s: bytes)
    requires Moves(b, c, p, q) && Moves(b, c, r, s)
    ensures p == r <==> q == s
  {
    assert p in Gone(b, c, b[p].lineage.value) && q in Gone(c, b, b[p].lineage.value);
    assert r in Gone(b, c, b[r].lineage.value) && s in Gone(c, b, b[r].lineage.value);
    if p == r { assert q in {s}; }
    if q == s {
      assert b[p].lineage == c[q].lineage == b[r].lineage;
      assert p in {r};
    }
  }

  lemma InSummary(b: Table, c: Table, times: bool, x: Change)
    ensures x in Summary(b, c, times) <==>
            || (x.Renamed? && x.from in b && x.to in c && Moves(b, c, x.from, x.to) && x == RenameOf(b, c, times, x.from, x.to))
            || (!x.Renamed? && x.path in b && BaseChange(b, c, times, x.path) == Some(x))
            || (x.Added? && x.path in c && Appears(b, c, x.path) && x == Added(x.path, c[x.path].kind))
  {
    hide Moves, Sources, Targets, Differences, Appears;
    if x.Renamed? && x.from in b && x.to in c && Moves(b, c, x.from, x.to) && x == RenameOf(b, c, times, x.from, x.to) {
      assert x in Renames(b, c, times);
    }
    if !x.Renamed? && x.path in b && BaseChange(b, c, times, x.path) == Some(x) { assert x in BaseChanges(b, c, times); }
    if x.Added? && x.path in c && Appears(b, c, x.path) && x == Added(x.path, c[x.path].kind) { assert x in Additions(b, c); }
  }

  /** `p` is the only path that a lineage lost and `q` the only one that it gained. */
  ghost predicate Moved(b: Table, c: Table, p: bytes, q: bytes) {
    && p in b && q in c && b[p].lineage.Some?
    && (forall r :: r in b && b[r].lineage == b[p].lineage && !(r in c && c[r].lineage == b[p].lineage) <==> r == p)
    && (forall r :: r in c && c[r].lineage == b[p].lineage && !(r in b && b[r].lineage == b[p].lineage) <==> r == q)
  }

  lemma MovedIsMoves(b: Table, c: Table, p: bytes, q: bytes)
    ensures Moved(b, c, p, q) <==> Moves(b, c, p, q)
  {
    if p in b && q in c && b[p].lineage.Some? {
      var l := b[p].lineage.value;
      assert forall r :: r in Gone(b, c, l) <==> r in b && b[r].lineage == b[p].lineage && !(r in c && c[r].lineage == b[p].lineage);
      assert forall r :: r in Gone(c, b, l) <==> r in c && c[r].lineage == b[p].lineage && !(r in b && b[r].lineage == b[p].lineage);
      hide Gone;
      if Moved(b, c, p, q) {
        assert Gone(b, c, l) == {p} && Gone(c, b, l) == {q};
      }
    }
  }

  ghost predicate MovedAway(b: Table, c: Table, p: bytes) { exists q :: Moved(b, c, p, q) }

  ghost predicate MovedHere(b: Table, c: Table, q: bytes) { exists p :: Moved(b, c, p, q) }

  lemma EndsAre(b: Table, c: Table, p: bytes)
    ensures p in Sources(b, c) <==> MovedAway(b, c, p)
    ensures p in Targets(b, c) <==> MovedHere(b, c, p)
  {
    forall p, q ensures Moved(b, c, p, q) <==> Moves(b, c, p, q) { MovedIsMoves(b, c, p, q); }
    hide Moves;
    assert forall q :: Moved(b, c, p, q) ==> p in b && q in c;
    assert forall q :: Moved(b, c, q, p) ==> q in b && p in c;
    hide Moved;
  }

  /** Exactly when a summary tells of a path under each of its tags, and with what. */
  ghost predicate Tells(b: Table, c: Table, times: bool, x: Change) {
    match x
    case Renamed(p, q, kind, differences) =>
      Moved(b, c, p, q) && kind == c[q].kind && differences == Differences(b[p], c[q], times)
    case Removed(p, kind) =>
      p in b && !MovedAway(b, c, p) && (p !in c || MovedHere(b, c, p)) && kind == b[p].kind
    case Replaced(p, beforeKind, afterKind, differences) =>
      && p in b && p in c && !MovedAway(b, c, p) && !MovedHere(b, c, p)
      && (b[p].lineage.None? || c[p].lineage.None? || b[p].lineage != c[p].lineage)
      && beforeKind == b[p].kind && afterKind == c[p].kind && differences == Differences(b[p], c[p], times)
    case Updated(p, kind, differences) =>
      && p in b && p in c && !MovedAway(b, c, p) && !MovedHere(b, c, p)
      && b[p].lineage.Some? && b[p].lineage == c[p].lineage && !SameFields(b[p], c[p], times)
      && kind == c[p].kind && differences == Differences(b[p], c[p], times)
    case Added(q, kind) =>
      q in c && !MovedHere(b, c, q) && (q !in b || MovedAway(b, c, q)) && kind == c[q].kind
  }

  /** Main result: what a summary tells, and nothing else, is what the lineages and fields of the two tables say. */
  lemma SummaryTells(b: Table, c: Table, times: bool, x: Change)
    ensures x in Summary(b, c, times) <==> Tells(b, c, times, x)
  {
    InSummary(b, c, times, x);
    hide Summary, Moves, Moved, Sources, Targets, MovedAway, MovedHere, Differences, SameFields;
    if x.Renamed? {
      MovedIsMoves(b, c, x.from, x.to);
      MovedBothEnds(b, c, x.from, x.to);
    } else {
      EndsAre(b, c, x.path);
      if x.path in b && x.path in c { NoDifferences(b[x.path], c[x.path], times); }
    }
  }

  lemma MovedBothEnds(b: Table, c: Table, p: bytes, q: bytes)
    ensures Moved(b, c, p, q) ==> p in b && q in c
  {
  }

  /** Each source path and tag occurs once, so the sorted summary is one sequence. */
  lemma SummaryKeys(b: Table, c: Table, times: bool, x: Change, y: Change)
    requires x in Summary(b, c, times) && y in Summary(b, c, times) && Source(x) == Source(y) && Tag(x) == Tag(y)
    ensures x == y
  {
    InSummary(b, c, times, x);
    InSummary(b, c, times, y);
    hide Summary, Sources, Targets, Differences, Appears;
    if x.Renamed? { MovesOnce(b, c, x.from, x.to, y.from, y.to); }
  }

  lemma SummaryOrdered(b: Table, c: Table, times: bool)
    ensures Orders(Before, Summary(b, c, times))
  {
    hide Summary, LexLess;
    var s := Summary(b, c, times);
    forall x, y | x in s && y in s ensures x == y || Before(x, y) || Before(y, x) {
      LexTotal(Source(x), Source(y));
      if Source(x) == Source(y) && Tag(x) == Tag(y) { SummaryKeys(b, c, times, x, y); }
    }
    forall x | x in s ensures !Before(x, x) { LexTotal(Source(x), Source(x)); }
    forall x, y, z | x in s && y in s && z in s && Before(x, y) && Before(y, z) ensures Before(x, z) {
      if LexLess(Source(x), Source(y)) && LexLess(Source(y), Source(z)) { LexTransitive(Source(x), Source(y), Source(z)); }
    }
  }

  /** The paths a summary takes away and the paths it brings, all at once. */
  function Leaves(changes: set<Change>): set<bytes> {
    (set x | x in changes && x.Removed? :: x.path) + (set x | x in changes && x.Renamed? :: x.from)
  }

  function Arrives(changes: set<Change>): set<bytes> {
    (set x | x in changes && x.Added? :: x.path) + (set x | x in changes && x.Renamed? :: x.to)
  }

  lemma LeavesAre(b: Table, c: Table, times: bool, p: bytes)
    ensures p in Leaves(Summary(b, c, times)) <==> p in b && (p in Sources(b, c) || p !in c || p in Targets(b, c))
  {
    var changes := Summary(b, c, times);
    hide Summary, Moves, Differences, Appears;
    if p in Leaves(changes) {
      var x :| x in changes && ((x.Removed? && x.path == p) || (x.Renamed? && x.from == p));
      InSummary(b, c, times, x);
    }
    if p in Sources(b, c) {
      var q :| q in c && p in b && Moves(b, c, p, q);
      InSummary(b, c, times, RenameOf(b, c, times, p, q));
    } else if p in b && (p !in c || p in Targets(b, c)) {
      InSummary(b, c, times, Removed(p, b[p].kind));
      assert Removed(p, b[p].kind) in changes;
    }
  }

  lemma ArrivesAre(b: Table, c: Table, times: bool, q: bytes)
    ensures q in Arrives(Summary(b, c, times)) <==> q in c && (q in Targets(b, c) || q !in b || q in Sources(b, c))
  {
    var changes := Summary(b, c, times);
    hide Summary, Moves, Differences;
    if q in Arrives(changes) {
      var x :| x in changes && ((x.Added? && x.path == q) || (x.Renamed? && x.to == q));
      InSummary(b, c, times, x);
    }
    if q in Targets(b, c) {
      var p :| p in b && q in c && Moves(b, c, p, q);
      InSummary(b, c, times, RenameOf(b, c, times, p, q));
    } else if Appears(b, c, q) {
      InSummary(b, c, times, Added(q, c[q].kind));
      assert Added(q, c[q].kind) in changes;
    }
  }

  /** Main result: read as edits made at once, a summary turns the base paths into the current paths. */
  lemma EditsExplainPaths(b: Table, c: Table, times: bool)
    ensures (b.Keys - Leaves(Summary(b, c, times))) + Arrives(Summary(b, c, times)) == c.Keys
    ensures Leaves(Summary(b, c, times)) <= b.Keys
  {
    hide Summary, Leaves, Arrives;
    forall p ensures p in (b.Keys - Leaves(Summary(b, c, times))) + Arrives(Summary(b, c, times)) <==> p in c.Keys {
      LeavesAre(b, c, times, p);
      ArrivesAre(b, c, times, p);
    }
    forall p | p in Leaves(Summary(b, c, times)) ensures p in b.Keys { LeavesAre(b, c, times, p); }
  }

  /** A base path no change starts from is still there, of the same lineage, with the same compared fields. */
  lemma UnmentionedUnchanged(b: Table, c: Table, times: bool, p: bytes)
    requires p in b && forall x :: x in Summary(b, c, times) && Source(x) == p ==> x.Added?
    ensures p in c && b[p].lineage.Some? && b[p].lineage == c[p].lineage && SameFields(b[p], c[p], times)
  {
    hide Summary, Moves, Differences, Appears, SameFields;
    if p in Sources(b, c) {
      var q :| q in c && Moves(b, c, p, q);
      InSummary(b, c, times, RenameOf(b, c, times, p, q));
    }
    if BaseChange(b, c, times, p).Some? { InSummary(b, c, times, BaseChange(b, c, times, p).value); }
    if p in c { NoDifferences(b[p], c[p], times); }
  }

  /** Every path keeps its defined lineage and its compared fields. */
  predicate Unchanged(b: Table, c: Table, times: bool) {
    && b.Keys == c.Keys
    && forall p :: p in b ==> b[p].lineage.Some? && b[p].lineage == c[p].lineage && SameFields(b[p], c[p], times)
  }

  /** Main result: a summary is empty exactly when nothing changed. */
  lemma EmptyMeansUnchanged(b: Table, c: Table, times: bool)
    ensures Summary(b, c, times) == {} <==> Unchanged(b, c, times)
  {
    if Summary(b, c, times) == {} {
      EditsExplainPaths(b, c, times);
      hide Summary, SameFields;
      forall p | p in b ensures p in c && b[p].lineage.Some? && b[p].lineage == c[p].lineage && SameFields(b[p], c[p], times) {
        UnmentionedUnchanged(b, c, times, p);
      }
    }
    if Unchanged(b, c, times) { UnchangedIsEmpty(b, c, times); }
  }

  lemma UnchangedIsEmpty(b: Table, c: Table, times: bool)
    requires Unchanged(b, c, times)
    ensures Summary(b, c, times) == {}
  {
    hide SameFields, Differences;
    forall l ensures Gone(b, c, l) == {} { }
    assert Sources(b, c) == {} && Targets(b, c) == {};
    forall p | p in b ensures BaseChange(b, c, times, p).None? { NoDifferences(b[p], c[p], times); }
    assert BaseChanges(b, c, times) == {};
    assert Additions(b, c) == {};
    assert Renames(b, c, times) == {};
  }

  // ---------------------------------------------------------------- the comparison

  /** `new Map(entries.map(...))`. */
  method ByPath(entries: seq<Observed>) returns (t: Table)
    requires OnePerPath(entries)
    ensures t == Tabled(entries)
  {
    t := map[];
    for k := 0 to |entries|
      invariant TableOf(entries[..k], t)
    {
      assert entries[..k + 1] == entries[..k] + [entries[k]];
      forall e | e in entries[..k] ensures e.path != entries[k].path { var j :| 0 <= j < k && entries[j] == e; }
      t := t[entries[k].path := entries[k]];
    }
    assert entries[..|entries|] == entries;
    OrderIrrelevant(entries, entries, t, Tabled(entries));
  }

  type Lineages = map<string, Table>

  /** The groups of a table: every entry with a lineage is in its lineage's group. */
  ghost predicate Grouped(t: Table, g: Lineages) {
    && (forall l, p :: l in g && p in g[l] ==> InLineage(t, p, l) && g[l][p] == t[p])
    && (forall p :: p in t && t[p].lineage.Some? ==> t[p].lineage.value in g && p in g[t[p].lineage.value])
  }

  method ByLineage(entries: seq<Observed>, ghost t: Table) returns (g: Lineages)
    requires TableOf(entries, t)
    ensures Grouped(t, g)
  {
    g := map[];
    for k := 0 to |entries|
      invariant forall l, p :: l in g && p in g[l] ==> InLineage(t, p, l) && g[l][p] == t[p]
      invariant forall j :: 0 <= j < k && entries[j].lineage.Some? ==>
                  entries[j].lineage.value in g && entries[j].path in g[entries[j].lineage.value]
    {
      var e := entries[k];
      assert e in entries;
      if e.lineage.Some? {
        var l := e.lineage.value;
        var group: Table := if l in g then g[l] else map[];
        g := g[l := group[e.path := e]];
      }
    }
    forall p | p in t && t[p].lineage.Some? ensures t[p].lineage.value in g && p in g[t[p].lineage.value] {
      var j :| 0 <= j < |entries| && entries[j] == t[p];
    }
  }

  /** The changes so far: each once, and exactly those of `s`. */
  ghost predicate Collected(changes: seq<Change>, s: set<Change>) {
    NoRepeats(changes) && Elements(changes) == s
  }

  lemma CollectMore(changes: seq<Change>, s: set<Change>, x: Change)
    requires Collected(changes, s) && x !in s
    ensures Collected(changes + [x], s + {x})
  {
    assert forall k :: 0 <= k < |changes| ==> changes[k] in Elements(changes);
    assert Elements(changes + [x]) == Elements(changes) + {x};
  }

  /** A rename found among the lineages in `done`. */
  ghost predicate RenameIn(b: Table, c: Table, times: bool, done: set<string>, x: Change) {
    && x.Renamed? && x.from in b && x.to in c && Moves(b, c, x.from, x.to)
    && b[x.from].lineage.value in done && x == RenameOf(b, c, times, x.from, x.to)
  }

  function Froms(s: set<Change>): set<bytes> { set x | x in s && x.Renamed? :: x.from }

  function Tos(s: set<Change>): set<bytes> { set x | x in s && x.Renamed? :: x.to }

  ghost predicate RenamesOf(b: Table, c: Table, times: bool, done: set<string>, s: set<Change>, from: set<bytes>, to: set<bytes>) {
    (forall x :: x in s <==> RenameIn(b, c, times, done, x)) && from == Froms(s) && to == Tos(s)
  }

  lemma EndsGrow(s: set<Change>, x: Change)
    requires x.Renamed?
    ensures Froms(s + {x}) == Froms(s) + {x.from} && Tos(s + {x}) == Tos(s) + {x.to}
  {
  }

  lemma RenameNext(b: Table, c: Table, times: bool, done: set<string>, l: string, x: Change)
    requires l !in done
    ensures RenameIn(b, c, times, done + {l}, x) <==>
            || RenameIn(b, c, times, done, x)
            || (x.Renamed? && x.from in b && x.to in c && Gone(b, c, l) == {x.from} && Gone(c, b, l) == {x.to}
                && x == RenameOf(b, c, times, x.from, x.to))
  {
    hide Differences;
    if x.Renamed? && x.from in b && x.to in c {
      if Gone(b, c, l) == {x.from} && Gone(c, b, l) == {x.to} {
        assert x.from in Gone(b, c, l);
      }
      if Moves(b, c, x.from, x.to) && b[x.from].lineage.value == l { MovesInLineage(b, c, x.from, x.to, l); }
    }
  }

  /** A lineage that moved one path adds one rename. */
  lemma FoundRename(
    b: Table, c: Table, times: bool, done: set<string>, s: set<Change>, from: set<bytes>, to: set<bytes>, l: string, p: bytes, q: bytes)
    requires RenamesOf(b, c, times, done, s, from, to) && l !in done && Gone(b, c, l) == {p} && Gone(c, b, l) == {q}
    ensures p in b && q in c && RenameOf(b, c, times, p, q) !in s
    ensures RenamesOf(b, c, times, done + {l}, s + {RenameOf(b, c, times, p, q)}, from + {p}, to + {q})
  {
    assert p in Gone(b, c, l) && q in Gone(c, b, l) && b[p].lineage == Some(l);
    var x := RenameOf(b, c, times, p, q);
    assert x.Renamed? && x.from == p && x.to == q;
    assert !RenameIn(b, c, times, done, x);
    hide RenameIn, Gone, RenameOf, Froms, Tos;
    EndsGrow(s, x);
    forall y ensures y in s + {x} <==> RenameIn(b, c, times, done + {l}, y) {
      RenameNext(b, c, times, done, l, y);
      SingletonIs(p, y);
      SingletonIs(q, y);
    }
  }

  lemma SingletonIs(p: bytes, y: Change)
    ensures y.Renamed? ==> ({p} == {y.from} <==> p == y.from) && ({p} == {y.to} <==> p == y.to)
  {
    if y.Renamed? {
      assert p in {p} && y.from in {y.from} && y.to in {y.to};
    }
  }

  lemma MovesInLineage(b: Table, c: Table, p: bytes, q: bytes, l: string)
    requires Moves(b, c, p, q) && b[p].lineage.value == l
    ensures Gone(b, c, l) == {p} && Gone(c, b, l) == {q} && p in Gone(b, c, l) && q in Gone(c, b, l)
  {
  }

  /** A lineage that did not adds none. */
  lemma FoundNone(b: Table, c: Table, times: bool, done: set<string>, s: set<Change>, from: set<bytes>, to: set<bytes>, l: string)
    requires RenamesOf(b, c, times, done, s, from, to) && l !in done
    requires forall p, q :: Gone(b, c, l) != {p} || Gone(c, b, l) != {q}
    ensures RenamesOf(b, c, times, done + {l}, s, from, to)
  {
    hide RenameIn, Gone, RenameOf, Froms, Tos;
    forall y ensures y in s <==> RenameIn(b, c, times, done + {l}, y) { RenameNext(b, c, times, done, l, y); }
  }

  lemma AllRenames(b: Table, c: Table, times: bool, done: set<string>, s: set<Change>, from: set<bytes>, to: set<bytes>)
    requires RenamesOf(b, c, times, done, s, from, to)
    requires forall p :: p in b && b[p].lineage.Some? ==> b[p].lineage.value in done
    ensures s == Renames(b, c, times) && from == Sources(b, c) && to == Targets(b, c)
  {
    hide Moves, Differences;
    forall p, q | p in b && q in c && Moves(b, c, p, q) ensures RenameOf(b, c, times, p, q) in s {
      MovesLineage(b, c, p, q);
      assert RenameIn(b, c, times, done, RenameOf(b, c, times, p, q));
    }
    forall x | x in s ensures x in Renames(b, c, times) { assert RenameIn(b, c, times, done, x); }
    forall p | p in Sources(b, c) ensures p in from {
      var q :| q in c && p in b && Moves(b, c, p, q);
      assert RenameOf(b, c, times, p, q) in s;
    }
    forall q | q in Targets(b, c) ensures q in to {
      var p :| p in b && q in c && Moves(b, c, p, q);
      assert RenameOf(b, c, times, p, q) in s;
    }
    forall p | p in from ensures p in Sources(b, c) { var x :| x in s && x.Renamed? && x.from == p; }
    forall q | q in to ensures q in Targets(b, c) { var x :| x in s && x.Renamed? && x.to == q; }
  }

  lemma MovesLineage(b: Table, c: Table, p: bytes, q: bytes)
    requires Moves(b, c, p, q)
    ensures p in b && b[p].lineage.Some?
  {
  }

  /** The paths of one group that the other group lacks. */
  function Missing(here: Table, there: Table): set<bytes> { here.Keys - there.Keys }

  lemma MissingIsGone(b: Table, c: Table, g: Lineages, h: Lineages, l: string)
    requires Grouped(b, g) && Grouped(c, h) && l in g
    ensures (if l in h then Missing(g[l], h[l]) else g[l].Keys) == Gone(b, c, l)
    ensures (if l in h then Missing(h[l], g[l]) else {}) == Gone(c, b, l)
  {
    var m: Table := if l in h then h[l] else map[];
    forall p ensures p in m <==> InLineage(c, p, l) { }
    forall p ensures p in g[l] <==> InLineage(b, p, l) { }
  }

  /** One lineage: a rename if it lost one path and gained one. */
  method TryRename(b: Table, c: Table, before: Table, after: Table, times: bool, changes: seq<Change>, from: set<bytes>, to: set<bytes>,
                   ghost l: string, ghost done: set<string>, ghost s: set<Change>)
    returns (more: seq<Change>, sources: set<bytes>, targets: set<bytes>, ghost all: set<Change>)
    requires RenamesOf(b, c, times, done, s, from, to) && Collected(changes, s) && l !in done
    requires Missing(before, after) == Gone(b, c, l) && Missing(after, before) == Gone(c, b, l)
    ensures RenamesOf(b, c, times, done + {l}, all, sources, targets) && Collected(more, all)
  {
    hide *;
    var removed, added := Missing(before, after), Missing(after, before);
    if |removed| != 1 || |added| != 1 {
      NotSingles(removed, added);
      FoundNone(b, c, times, done, s, from, to, l);
      return changes, from, to, s;
    }
    var p :| p in removed;
    var q :| q in added;
    OnlyOne(removed, p);
    OnlyOne(added, q);
    FoundRename(b, c, times, done, s, from, to, l, p, q);
    var x := RenameOf(b, c, times, p, q);
    CollectMore(changes, s, x);
    return changes + [x], from + {p}, to + {q}, s + {x};
  }

  /** The rename pass. */
  method FindRenames(b: Table, c: Table, g: Lineages, h: Lineages, times: bool)
    returns (changes: seq<Change>, from: set<bytes>, to: set<bytes>)
    requires Grouped(b, g) && Grouped(c, h)
    ensures Collected(changes, Renames(b, c, times)) && from == Sources(b, c) && to == Targets(b, c)
  {
    hide *;
    changes, from, to := [], {}, {};
    var left: set<string> := g.Keys;
    ghost var done: set<string> := {};
    ghost var s: set<Change> := {};
    NoRenames(b, c, times);
    while left != {}
      invariant left + done == g.Keys && left !! done
      invariant RenamesOf(b, c, times, done, s, from, to) && Collected(changes, s)
      decreases left
    {
      var l :| l in left;
      MissingIsGone(b, c, g, h, l);
      if l in h {
        changes, from, to, s := TryRename(b, c, g[l], h[l], times, changes, from, to, l, done, s);
      } else {
        NoneGained(b, c, l);
        FoundNone(b, c, times, done, s, from, to, l);
      }
      left, done := left - {l}, done + {l};
    }
    AllLineages(b, g, done);
    AllRenames(b, c, times, done, s, from, to);
  }

  lemma NoneGained(b: Table, c: Table, l: string)
    requires Gone(c, b, l) == {}
    ensures forall p, q :: Gone(b, c, l) != {p} || Gone(c, b, l) != {q}
  {
    forall p: bytes, q: bytes ensures Gone(b, c, l) != {p} || Gone(c, b, l) != {q} {
      assert q in {q};
    }
  }

  lemma NoRenames(b: Table, c: Table, times: bool)
    ensures RenamesOf(b, c, times, {}, {}, {}, {}) && Collected([], {})
  {
  }

  lemma AllLineages(b: Table, g: Lineages, done: set<string>)
    requires Grouped(b, g) && done == g.Keys
    ensures forall p :: p in b && b[p].lineage.Some? ==> b[p].lineage.value in done
  {
  }

  lemma OnlyOne(s: set<bytes>, p: bytes)
    requires p in s && |s| == 1
    ensures s == {p}
  {
    forall q | q in s ensures q == p {
      if q != p { Smaller2(s, p, q); }
    }
  }

  lemma Smaller2(s: set<bytes>, p: bytes, q: bytes)
    requires p in s && q in s && p != q
    ensures |s| >= 2
  {
    var t := s - {p};
    assert q in t && |t| == |s| - 1;
    assert |t| > 0;
  }

  lemma NotSingles(a: set<bytes>, b: set<bytes>)
    requires |a| != 1 || |b| != 1
    ensures forall p, q :: a != {p} || b != {q}
  {
    forall p, q ensures a != {p} || b != {q} {
      assert |{p}| == 1 && |{q}| == 1;
    }
  }

  /** The pass over the base. */
  method CompareBase(base: seq<Observed>, b: Table, c: Table, from: set<bytes>, to: set<bytes>, times: bool, renames: seq<Change>)
    returns (changes: seq<Change>)
    requires OnePerPath(base) && TableOf(base, b) && from == Sources(b, c) && to == Targets(b, c)
    requires Collected(renames, Renames(b, c, times))
    ensures Collected(changes, Renames(b, c, times) + BaseChanges(b, c, times))
  {
    hide Sources, Targets, Moves, Differences, Collected, TableOf;
    changes := renames;
    ghost var s := Renames(b, c, times);
    for k := 0 to |base|
      invariant Collected(changes, s)
      invariant forall x :: x in s <==> x in Renames(b, c, times) || BaseChangeBefore(base, b, c, times, k, x)
    {
      var before := base[k];
      EntryAt(base, b, k);
      var p := before.path;
      var change: Option<Change> := None;
      if p !in from {
        if p !in c || p in to {
          change := Some(Removed(p, before.kind));
        } else {
          var after := c[p];
          var changed := Differences(before, after, times);
          if before.lineage.None? || before.lineage != after.lineage {
            change := Some(Replaced(p, before.kind, after.kind, changed));
          } else if changed != [] {
            change := Some(Updated(p, after.kind, changed));
          }
        }
      }
      assert change == BaseChange(b, c, times, p);
      NextBase(base, b, c, times, k);
      if change.Some? {
        CollectMore(changes, s, change.value);
        changes := changes + [change.value];
        s := s + {change.value};
      }
    }
    AllBase(base, b, c, times);
    assert s == Renames(b, c, times) + BaseChanges(b, c, times);
  }

  lemma EntryAt(entries: seq<Observed>, t: Table, k: nat)
    requires TableOf(entries, t) && k < |entries|
    ensures entries[k].path in t && t[entries[k].path] == entries[k]
  {
  }

  ghost predicate BaseChangeBefore(base: seq<Observed>, b: Table, c: Table, times: bool, k: nat, x: Change) {
    exists j :: 0 <= j < k && j < |base| && base[j].path in b && BaseChange(b, c, times, base[j].path) == Some(x)
  }

  lemma NextBase(base: seq<Observed>, b: Table, c: Table, times: bool, k: nat)
    requires OnePerPath(base) && TableOf(base, b) && k < |base|
    ensures base[k].path in b
    ensures var change := BaseChange(b, c, times, base[k].path);
            && (change.Some? ==> change.value !in Renames(b, c, times) && !BaseChangeBefore(base, b, c, times, k, change.value))
            && forall x :: BaseChangeBefore(base, b, c, times, k + 1, x) <==>
                           BaseChangeBefore(base, b, c, times, k, x) || change == Some(x)
  {
    EntryAt(base, b, k);
    var change := BaseChange(b, c, times, base[k].path);
    BaseChangeTells(b, c, times, base[k].path);
    forall j | 0 <= j < k && base[j].path in b && BaseChange(b, c, times, base[j].path).Some?
      ensures BaseChange(b, c, times, base[j].path) != change
    {
      BaseChangeTells(b, c, times, base[j].path);
      assert base[j].path != base[k].path;
    }
    hide BaseChange, Renames, TableOf, OnePerPath;
    forall x ensures BaseChangeBefore(base, b, c, times, k + 1, x) <==> BaseChangeBefore(base, b, c, times, k, x) || change == Some(x) {
      if BaseChangeBefore(base, b, c, times, k, x) {
        var j :| 0 <= j < k && j < |base| && base[j].path in b && BaseChange(b, c, times, base[j].path) == Some(x);
        assert j < k + 1;
      }
    }
  }

  lemma BaseChangeTells(b: Table, c: Table, times: bool, p: bytes)
    requires p in b
    ensures var change := BaseChange(b, c, times, p);
            change.Some? ==> change.value.path == p && change.value !in Renames(b, c, times)
  {
    hide Sources, Targets, Moves, Differences;
  }

  lemma AllBase(base: seq<Observed>, b: Table, c: Table, times: bool)
    requires TableOf(base, b)
    ensures forall x :: BaseChangeBefore(base, b, c, times, |base|, x) <==> x in BaseChanges(b, c, times)
  {
    hide BaseChange;
    forall x ensures BaseChangeBefore(base, b, c, times, |base|, x) <==> x in BaseChanges(b, c, times) {
      if x in BaseChanges(b, c, times) {
        var p :| p in b && BaseChange(b, c, times, p) == Some(x);
        var j :| 0 <= j < |base| && base[j] == b[p];
      }
    }
  }

  /** The pass over the current observation. */
  method CompareCurrent(current: seq<Observed>, b: Table, c: Table, from: set<bytes>, to: set<bytes>, ghost times: bool,
                        found: seq<Change>)
    returns (changes: seq<Change>)
    requires OnePerPath(current) && TableOf(current, c) && from == Sources(b, c) && to == Targets(b, c)
    requires Collected(found, Renames(b, c, times) + BaseChanges(b, c, times))
    ensures Collected(changes, Summary(b, c, times))
  {
    hide Sources, Targets, Moves, Differences, Collected, TableOf, Renames;
    changes := found;
    ghost var earlier := Renames(b, c, times) + BaseChanges(b, c, times);
    ghost var s := earlier;
    for k := 0 to |current|
      invariant Collected(changes, s)
      invariant forall x :: x in s <==> x in earlier || AddedBefore(current, b, c, k, x)
    {
      var after := current[k];
      EntryAt(current, c, k);
      NextAdded(current, b, c, times, k);
      if after.path !in to && (after.path !in b || after.path in from) {
        var x := Added(after.path, after.kind);
        CollectMore(changes, s, x);
        changes := changes + [x];
        s := s + {x};
      }
    }
    AllAdded(current, b, c);
    assert s == Summary(b, c, times);
  }

  ghost predicate AddedBefore(current: seq<Observed>, b: Table, c: Table, k: nat, x: Change) {
    exists j :: 0 <= j < k && j < |current| && Appears(b, c, current[j].path) && x == Added(current[j].path, current[j].kind)
  }

  lemma NextAdded(current: seq<Observed>, b: Table, c: Table, times: bool, k: nat)
    requires OnePerPath(current) && TableOf(current, c) && k < |current|
    ensures var x := Added(current[k].path, current[k].kind);
            && x !in Renames(b, c, times) + BaseChanges(b, c, times) && !AddedBefore(current, b, c, k, x)
            && forall y :: AddedBefore(current, b, c, k + 1, y) <==>
                           AddedBefore(current, b, c, k, y) || (Appears(b, c, current[k].path) && y == x)
  {
    hide Sources, Targets, Moves, Differences, TableOf, Appears;
    var x := Added(current[k].path, current[k].kind);
    forall j | 0 <= j < k ensures current[j].path != x.path { }
    forall y ensures AddedBefore(current, b, c, k + 1, y) <==>
                     AddedBefore(current, b, c, k, y) || (Appears(b, c, current[k].path) && y == x) {
      if AddedBefore(current, b, c, k, y) {
        var j :| 0 <= j < k && j < |current| && Appears(b, c, current[j].path) && y == Added(current[j].path, current[j].kind);
        assert j < k + 1;
      }
    }
  }

  lemma AllAdded(current: seq<Observed>, b: Table, c: Table)
    requires TableOf(current, c)
    ensures forall x :: AddedBefore(current, b, c, |current|, x) <==> x in Additions(b, c)
  {
    hide Appears;
    forall x ensures AddedBefore(current, b, c, |current|, x) <==> x in Additions(b, c) {
      if AddedBefore(current, b, c, |current|, x) {
        var j :| 0 <= j < |current| && Appears(b, c, current[j].path) && x == Added(current[j].path, current[j].kind);
        EntryAt(current, c, j);
      }
      if x in Additions(b, c) {
        var q :| q in c && Appears(b, c, q) && x == Added(q, c[q].kind);
        var j :| 0 <= j < |current| && current[j] == c[q];
      }
    }
  }

  /**
   * `compareOverlay`: the one sorted listing of the summary of the two observations, whatever order they came in.
   */
  method CompareOverlay(base: seq<Observed>, current: seq<Observed>, times: bool) returns (changes: seq<Change>)
    requires OnePerPath(base) && OnePerPath(current)
    ensures Orders(Before, Summary(Tabled(base), Tabled(current), times))
    ensures changes == Listing(Before, Summary(Tabled(base), Tabled(current), times))
  {
    hide Summary, TableOf, OnePerPath, Grouped, SortBy, Tabled;
    var basePaths := ByPath(base);
    var currentPaths := ByPath(current);
    ghost var b, c := basePaths, currentPaths;
    var baseLineages := ByLineage(base, b);
    var currentLineages := ByLineage(current, c);
    var found, from, to := FindRenames(basePaths, currentPaths, baseLineages, currentLineages, times);
    found := CompareBase(base, basePaths, currentPaths, from, to, times, found);
    found := CompareCurrent(current, basePaths, currentPaths, from, to, times, found);
    SummaryOrdered(b, c, times);
    SortAscending(Before, Summary(b, c, times), found);
    ListingIs(Before, SortBy(Before, found), Summary(b, c, times));
    changes := SortBy(Before, found);
  }

  /** Observations that hold the same entries have the same table, so they give the same summary. */
  lemma OrderIrrelevant(entries: seq<Observed>, other: seq<Observed>, t: Table, u: Table)
    requires Elements(entries) == Elements(other) && TableOf(entries, t) && TableOf(other, u)
    ensures t == u
  {
    forall p | p in t ensures p in u && u[p] == t[p] { assert t[p] in Elements(entries); }
    forall p | p in u ensures p in t { assert u[p] in Elements(other); }
  }
}
