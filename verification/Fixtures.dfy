/** The passes over fixture entries (`internal/fixture.ts`): paths, declarations and hard links. */
module Fixtures {
  import opened Basics
  import opened Forest
  import opened Volumes
  import opened Resolve
  import opened Walks

  // ---------------------------------------------------------------- paths of entries

  predicate IsDot(name: Name) { name == [DOT] || name == [DOT, DOT] }

  /** `fixturePath`: an absolute path to something below the root, without dot components. */
  function FixturePath(input: bytes): Option<Path> {
    match Prepare(input)
    case Err(_) => None
    case Ok(path) =>
      if !path.absolute || path.components == [] || (exists n :: n in path.components && IsDot(n)) then None
      else Some(path.components)
  }

  lemma NameComponents(n: Name)
    requires IsName(n)
    ensures Components([SLASH] + n) == [n]
  {
    var b := [SLASH] + n;
    assert b[1..] == n && Components(b) == Components(n);
    assert forall i :: 0 <= i < |n| ==> n[i] in n;
    SlashUnique(n, 0, |n|);
    assert n[..|n|] == n && n[|n|..] == [];
    assert Components(n[|n|..]) == [];
  }

  /** The components of a byte path are the names it was joined from. */
  lemma {:induction false} PathComponents(p: Path)
    requires GoodPath(p)
    ensures Components(PathBytes(p)) == p
    ensures 0 !in PathBytes(p) && PathBytes(p) != [] && PathBytes(p)[0] == SLASH
    decreases |p|
  {
    hide Components;
    if p == [] {
      RootComponents();
    } else {
      var front, n := p[..|p| - 1], p[|p| - 1];
      assert IsName(n);
      PathComponents(front);
      PathBytesShape(front);
      NameComponents(n);
      if front == [] {
        assert PathBytes(p) == [SLASH] + n;
        assert p == [n];
      } else {
        assert PathBytes(p) == PathBytes(front) + ([SLASH] + n);
        ComponentsAppend(PathBytes(front), [SLASH] + n);
        assert p == front + [n];
      }
    }
  }

  lemma RootComponents()
    ensures Components([SLASH]) == []
  {
    assert [SLASH][1..] == [];
  }

  /** An entry's path starts with a slash, holds no NUL, and names something: no name too long, none a dot or two. */
  lemma FixturePathMeans(input: bytes, p: Path)
    ensures FixturePath(input) == Some(p) <==>
            && input != [] && input[0] == 47 && 0 !in input && p == Components(input) && p != []
            && forall k :: 0 <= k < |p| ==> |p[k]| <= 255 && p[k] != [46] && p[k] != [46, 46]
  {
    hide Components;
    var names := Components(input);
    assert (exists n :: n in names && IsDot(n)) <==> (exists k :: 0 <= k < |names| && IsDot(names[k])) by {
      if n :| n in names && IsDot(n) {
        var k :| 0 <= k < |names| && names[k] == n;
        assert IsDot(names[k]);
      }
    }
    if FixturePath(input) == Some(p) {
      forall k | 0 <= k < |p| ensures |p[k]| <= 255 && p[k] != [46] && p[k] != [46, 46] { assert !IsDot(names[k]); }
    }
    if p == names && forall k :: 0 <= k < |p| ==> |p[k]| <= 255 && p[k] != [46] && p[k] != [46, 46] {
      forall k | 0 <= k < |names| ensures !IsDot(names[k]) && |names[k]| <= MAX_NAME_BYTES { assert p[k] == names[k]; }
    }
  }

  /** A walk's path comes back as the names it was made of. */
  lemma FixturePathBack(p: Path)
    requires GoodPath(p) && p != []
    ensures FixturePath(PathBytes(p)) == Some(p)
  {
    PathComponents(p);
    assert forall i :: 0 <= i < |p| ==> IsName(p[i]);
    hide Components;
  }

  // ---------------------------------------------------------------- declarations

  datatype Kind = DirectoryKind | FileKind | SymlinkKind

  datatype Declared = Declared(kind: Kind, ino: Ino, metadata: Metadata, payload: bytes)

  const NO_PAYLOAD: bytes := []

  /** What an entry other than a hard link declares. */
  function Declaration(entry: Entry, ino: Ino): Declared
    requires !entry.HardLink?
  {
    match entry
    case DirectoryEntry(_, m) => Declared(DirectoryKind, ino, m, NO_PAYLOAD)
    case FileEntry(_, data, m) => Declared(FileKind, ino, m, data)
    case SymlinkEntry(_, target, m) => Declared(SymlinkKind, ino, m, target)
  }

  /** `declarations` before hard links are resolved, `aliases`, and the keys of `paths` in order. */
  datatype Pass = Pass(declared: map<Path, Declared>, aliases: map<Path, Path>, order: seq<Path>)

  const BAD_PATH := Failure(InvalidStructure, "path")
  const DUPLICATE := Failure(InvalidStructure, "duplicate")
  const BAD_TARGET := Failure(InvalidStructure, "target")
  const BAD_LINK := Failure(InvalidStructure, "hardLink")
  const BAD_PARENT := Failure(InvalidStructure, "parent")

  /** An entry whose paths parse and whose link target holds no NUL. */
  predicate GoodEntry(entry: Entry) {
    && FixturePath(entry.path).Some?
    && (entry.HardLink? ==> FixturePath(entry.target).Some?)
    && (entry.SymlinkEntry? ==> 0 !in entry.target)
  }

  function PathOf(entry: Entry): Path
    requires GoodEntry(entry)
  {
    FixturePath(entry.path).value
  }

  /** Entries a volume can be declared from: good ones, no two at the same path. */
  ghost predicate Declarable(entries: seq<Entry>) {
    && (forall k :: 0 <= k < |entries| ==> GoodEntry(entries[k]))
    && (forall j, k :: 0 <= j < k < |entries| ==> PathOf(entries[j]) != PathOf(entries[k]))
  }

  /** The pass has recorded `entry` under its path. */
  ghost predicate Recorded(pass: Pass, entry: Entry, p: Path) {
    && GoodEntry(entry) && p == PathOf(entry)
    && if entry.HardLink? then p in pass.aliases && pass.aliases[p] == FixturePath(entry.target).value
       else p in pass.declared && pass.declared[p] == Declaration(entry, pass.declared[p].ino)
  }

  /** What the first pass leaves behind. */
  ghost predicate PassOk(rootMetadata: Metadata, entries: seq<Entry>, pass: Pass) {
    && |pass.order| == |entries| && NoRepeats(pass.order)
    && (forall k :: 0 <= k < |entries| ==> pass.order[k] != [] && Recorded(pass, entries[k], pass.order[k]))
    && [] in pass.declared && pass.declared[[]] == Declared(DirectoryKind, ROOT, rootMetadata, NO_PAYLOAD)
    && (forall p :: p in pass.declared ==> (p == [] || p in pass.order) && p !in pass.aliases)
    && (forall p :: p in pass.aliases ==> p in pass.order)
    && (forall p, q :: p in pass.declared && q in pass.declared && pass.declared[p].ino == pass.declared[q].ino ==> p == q)
  }

  lemma PassDeclarable(rootMetadata: Metadata, entries: seq<Entry>, pass: Pass)
    requires PassOk(rootMetadata, entries, pass)
    ensures Declarable(entries)
    ensures forall k :: 0 <= k < |entries| ==> pass.order[k] == PathOf(entries[k])
  {
    forall j, k | 0 <= j < k < |entries| ensures PathOf(entries[j]) != PathOf(entries[k]) {
      assert pass.order[j] != pass.order[k];
    }
  }

  /** The pass after one more entry. */
  function Record(pass: Pass, entry: Entry, ino: Ino): Pass
    requires GoodEntry(entry)
  {
    var p := PathOf(entry);
    if entry.HardLink? then Pass(pass.declared, pass.aliases[p := FixturePath(entry.target).value], pass.order + [p])
    else Pass(pass.declared[p := Declaration(entry, ino)], pass.aliases, pass.order + [p])
  }

  /** How far inode numbers have been given out. */
  function LastIno(entries: seq<Entry>): (i: Ino)
    ensures i >= ROOT
  {
    if entries == [] then ROOT
    else LastIno(entries[..|entries| - 1]) + (if entries[|entries| - 1].HardLink? then 0 else 1)
  }

  predicate AllGood(entries: seq<Entry>) { forall k :: 0 <= k < |entries| ==> GoodEntry(entries[k]) }

  /** The first pass over entries it accepts: inode numbers in declaration order. */
  ghost function PassOf(rootMetadata: Metadata, entries: seq<Entry>): Pass
    requires AllGood(entries)
  {
    if entries == [] then Pass(map[[] := Declared(DirectoryKind, ROOT, rootMetadata, NO_PAYLOAD)], map[], [])
    else Record(PassOf(rootMetadata, entries[..|entries| - 1]), entries[|entries| - 1], LastIno(entries))
  }

  lemma PassOfMore(rootMetadata: Metadata, entries: seq<Entry>, entry: Entry)
    requires AllGood(entries) && GoodEntry(entry)
    ensures AllGood(entries + [entry])
    ensures LastIno(entries + [entry]) == LastIno(entries) + (if entry.HardLink? then 0 else 1)
    ensures PassOf(rootMetadata, entries + [entry]) ==
            Record(PassOf(rootMetadata, entries), entry, LastIno(entries + [entry]))
  {
    assert (entries + [entry])[..|entries|] == entries;
    hide GoodEntry, Record;
  }

  lemma RecordOk(rootMetadata: Metadata, entries: seq<Entry>, pass: Pass, entry: Entry, ino: Ino)
    requires PassOk(rootMetadata, entries, pass) && GoodEntry(entry) && PathOf(entry) !in pass.order
    requires forall p :: p in pass.declared ==> pass.declared[p].ino < ino
    ensures PassOk(rootMetadata, entries + [entry], Record(pass, entry, ino))
  {
    PathNotEmpty(entry.path);
    RecordedNow(pass, entry, ino);
    hide FixturePath, GoodEntry, PathOf;
    var next := Record(pass, entry, ino);
    forall k | 0 <= k < |entries + [entry]|
      ensures next.order[k] != [] && Recorded(next, (entries + [entry])[k], next.order[k])
    {
      if k < |entries| {
        assert Recorded(pass, entries[k], pass.order[k]) && pass.order[k] in pass.order;
        RecordedStill(pass, entry, ino, entries[k], pass.order[k]);
      }
    }
    hide Recorded, Declaration;
  }

  lemma RecordedNow(pass: Pass, entry: Entry, ino: Ino)
    requires GoodEntry(entry)
    ensures Recorded(Record(pass, entry, ino), entry, PathOf(entry))
  {
    hide FixturePath;
  }

  lemma RecordedStill(pass: Pass, entry: Entry, ino: Ino, other: Entry, p: Path)
    requires GoodEntry(entry) && Recorded(pass, other, p) && p != PathOf(entry)
    ensures Recorded(Record(pass, entry, ino), other, p)
  {
    hide FixturePath;
  }

  /** The pass over declarable entries records each of them. */
  lemma {:induction false} PassOfOk(rootMetadata: Metadata, entries: seq<Entry>)
    requires Declarable(entries)
    ensures AllGood(entries) && PassOk(rootMetadata, entries, PassOf(rootMetadata, entries))
    ensures var pass := PassOf(rootMetadata, entries);
            forall p :: p in pass.declared ==> pass.declared[p].ino <= LastIno(entries)
    decreases |entries|
  {
    hide FixturePath, GoodEntry, PassOk, Recorded;
    if entries == [] {
      StartPass(rootMetadata, map[[] := Declared(DirectoryKind, ROOT, rootMetadata, NO_PAYLOAD)]);
    } else {
      var front, entry := entries[..|entries| - 1], entries[|entries| - 1];
      assert entries == front + [entry];
      PassOfOk(rootMetadata, front);
      var pass := PassOf(rootMetadata, front);
      PassDeclarable(rootMetadata, front, pass);
      OrderSize(rootMetadata, front, pass);
      forall p | p in pass.order ensures p != PathOf(entry) {
        var k :| 0 <= k < |pass.order| && pass.order[k] == p;
        assert p == PathOf(entries[k]);
      }
      PassOfMore(rootMetadata, front, entry);
      RecordOk(rootMetadata, front, pass, entry, if entry.HardLink? then LastIno(entries) + 1 else LastIno(entries));
    }
  }

  lemma OrderSize(rootMetadata: Metadata, entries: seq<Entry>, pass: Pass)
    requires PassOk(rootMetadata, entries, pass)
    ensures |pass.order| == |entries|
  {
  }

  /** Why the first pass stops at an entry, if it does. */
  lemma Undeclarable(entries: seq<Entry>, k: nat, pass: Pass, rootMetadata: Metadata)
    requires k < |entries| && PassOk(rootMetadata, entries[..k], pass)
    requires !GoodEntry(entries[k]) || PathOf(entries[k]) in pass.order
    ensures !Declarable(entries)
  {
    hide FixturePath;
    if GoodEntry(entries[k]) {
      var j :| 0 <= j < |pass.order| && pass.order[j] == PathOf(entries[k]);
      assert Recorded(pass, entries[..k][j], pass.order[j]) && entries[..k][j] == entries[j];
      assert PathOf(entries[j]) == PathOf(entries[k]);
    }
  }

  /** What is wrong with an entry that comes after the ones in `before`, in the order of the checks. */
  ghost function Fault(before: seq<Entry>, entry: Entry): Option<Failure> {
    if FixturePath(entry.path).None? then Some(Failure(InvalidStructure, "path"))
    else if exists j :: 0 <= j < |before| && FixturePath(before[j].path) == FixturePath(entry.path)
    then Some(Failure(InvalidStructure, "duplicate"))
    else if !GoodEntry(entry) then Some(Failure(InvalidStructure, "target"))
    else None
  }

  /** The failure is that of the first entry at fault. */
  ghost predicate FirstFault(entries: seq<Entry>, e: Failure) {
    exists k :: 0 <= k < |entries| && Declarable(entries[..k]) && Fault(entries[..k], entries[k]) == Some(e)
  }

  lemma FaultFound(entries: seq<Entry>, k: nat, pass: Pass, rootMetadata: Metadata, e: Failure)
    requires k < |entries| && PassOk(rootMetadata, entries[..k], pass)
    requires var path := FixturePath(entries[k].path);
             if path.None? then e == BAD_PATH
             else if path.value in pass.order then e == DUPLICATE
             else !GoodEntry(entries[k]) && e == BAD_TARGET
    ensures !Declarable(entries) && FirstFault(entries, e)
  {
    PassDeclarable(rootMetadata, entries[..k], pass);
    Undeclarable(entries, k, pass, rootMetadata);
    var path := FixturePath(entries[k].path);
    if path.Some? && path.value in pass.order {
      var j :| 0 <= j < |pass.order| && pass.order[j] == path.value;
      assert Recorded(pass, entries[..k][j], pass.order[j]);
      assert FixturePath(entries[..k][j].path) == path;
    } else if path.Some? {
      forall j | 0 <= j < k ensures FixturePath(entries[..k][j].path) != path {
        assert Recorded(pass, entries[..k][j], pass.order[j]) && pass.order[j] in pass.order;
      }
    }
    hide FixturePath, PassOk, Declarable;
    assert Fault(entries[..k], entries[k]) == Some(e);
  }

  /** The declaration pass: number the declared nodes in order and set hard links aside. */
  method DeclareEntries(rootMetadata: Metadata, entries: seq<Entry>) returns (r: Result<Pass, Failure>)
    ensures r.Ok? <==> Declarable(entries)
    ensures r.Ok? ==> AllGood(entries) && r.value == PassOf(rootMetadata, entries) && PassOk(rootMetadata, entries, r.value)
    ensures r.Err? ==> FirstFault(entries, r.error)
  {
    hide FixturePath, PassOk, Declarable, FirstFault, PassOf, LastIno, AllGood;
    var declared: map<Path, Declared> := map[[] := Declared(DirectoryKind, ROOT, rootMetadata, NO_PAYLOAD)];
    var aliases: map<Path, Path>, order: seq<Path>, nextInode := map[], [], ROOT;
    StartPass(rootMetadata, declared);
    for k := 0 to |entries|
      invariant AllGood(entries[..k]) && nextInode == LastIno(entries[..k])
      invariant Pass(declared, aliases, order) == PassOf(rootMetadata, entries[..k])
      invariant PassOk(rootMetadata, entries[..k], Pass(declared, aliases, order))
      invariant forall p :: p in declared ==> declared[p].ino <= nextInode
    {
      var entry := entries[k];
      assert entries[..k + 1] == entries[..k] + [entry];
      ghost var pass := Pass(declared, aliases, order);
      var path := FixturePath(entry.path);
      if path.None? {
        FaultFound(entries, k, pass, rootMetadata, BAD_PATH);
        return Err(BAD_PATH);
      }
      var key := path.value;
      if key in order {
        FaultFound(entries, k, pass, rootMetadata, DUPLICATE);
        return Err(DUPLICATE);
      }
      match entry {
        case HardLink(_, target) =>
          var parsed := FixturePath(target);
          if parsed.None? {
            FaultFound(entries, k, pass, rootMetadata, BAD_TARGET);
            return Err(BAD_TARGET);
          }
          aliases := aliases[key := parsed.value];
        case DirectoryEntry(_, metadata) =>
          nextInode := nextInode + 1;
          declared := declared[key := Declared(DirectoryKind, nextInode, metadata, NO_PAYLOAD)];
        case FileEntry(_, data, metadata) =>
          nextInode := nextInode + 1;
          declared := declared[key := Declared(FileKind, nextInode, metadata, data)];
        case SymlinkEntry(_, target, metadata) =>
          if 0 in target {
            FaultFound(entries, k, pass, rootMetadata, BAD_TARGET);
            return Err(BAD_TARGET);
          }
          nextInode := nextInode + 1;
          declared := declared[key := Declared(SymlinkKind, nextInode, metadata, target)];
      }
      order := order + [key];
      PassOfMore(rootMetadata, entries[..k], entry);
      RecordOk(rootMetadata, entries[..k], pass, entry, if entry.HardLink? then nextInode + 1 else nextInode);
    }
    assert entries[..|entries|] == entries;
    PassDeclarable(rootMetadata, entries, Pass(declared, aliases, order));
    return Ok(Pass(declared, aliases, order));
  }

  lemma StartPass(rootMetadata: Metadata, declared: map<Path, Declared>)
    requires declared == map[[] := Declared(DirectoryKind, ROOT, rootMetadata, NO_PAYLOAD)]
    ensures PassOk(rootMetadata, [], Pass(declared, map[], []))
    ensures AllGood([]) && PassOf(rootMetadata, []) == Pass(declared, map[], []) && LastIno([]) == ROOT
  {
  }

  lemma PathNotEmpty(input: bytes)
    requires FixturePath(input).Some?
    ensures FixturePath(input).value != []
  {
  }

  // ---------------------------------------------------------------- hard links

  /** Following hard links from `p` for `k` steps arrives at the declared path `q`. */
  ghost predicate LeadsTo(pass: Pass, p: Path, q: Path, k: nat)
    decreases k
  {
    if p in pass.declared then p == q && k == 0
    else k > 0 && p in pass.aliases && LeadsTo(pass, pass.aliases[p], q, k - 1)
  }

  ghost predicate Grounded(pass: Pass, p: Path) {
    exists q, k: nat :: LeadsTo(pass, p, q, k)
  }

  lemma {:induction false} LeadsToOne(pass: Pass, p: Path, q: Path, j: nat, r: Path, k: nat)
    requires LeadsTo(pass, p, q, j) && LeadsTo(pass, p, r, k)
    ensures q == r && j == k && q in pass.declared
    decreases j
  {
    if p !in pass.declared { LeadsToOne(pass, pass.aliases[p], q, j - 1, r, k - 1); }
  }

  /** The declared path a path stands for. */
  ghost function Real(pass: Pass, p: Path): (q: Path)
    requires Grounded(pass, p)
    ensures q in pass.declared
  {
    var q, k: nat :| LeadsTo(pass, p, q, k);
    LeadsToOne(pass, p, q, k, q, k);
    q
  }

  lemma RealIs(pass: Pass, p: Path, q: Path, k: nat)
    requires LeadsTo(pass, p, q, k)
    ensures Grounded(pass, p) && Real(pass, p) == q
  {
    var r, j: nat :| LeadsTo(pass, p, r, j) && Real(pass, p) == r;
    LeadsToOne(pass, p, q, k, r, j);
  }

  lemma RealDeclared(pass: Pass, p: Path)
    requires p in pass.declared
    ensures Grounded(pass, p) && Real(pass, p) == p
  {
    assert LeadsTo(pass, p, p, 0);
    RealIs(pass, p, p, 0);
  }

  lemma RealStep(pass: Pass, p: Path)
    requires p !in pass.declared && p in pass.aliases
    ensures Grounded(pass, p) <==> Grounded(pass, pass.aliases[p])
    ensures Grounded(pass, p) ==> Real(pass, p) == Real(pass, pass.aliases[p])
  {
    if Grounded(pass, p) {
      var q, k: nat :| LeadsTo(pass, p, q, k);
      RealIs(pass, p, q, k);
      RealIs(pass, pass.aliases[p], q, k - 1);
    }
    if Grounded(pass, pass.aliases[p]) {
      var q, k: nat :| LeadsTo(pass, pass.aliases[p], q, k);
      assert LeadsTo(pass, p, q, k + 1);
    }
  }

  /** A loop of hard links leads nowhere. */
  lemma {:induction false} LoopLeadsNowhere(pass: Pass, loop: set<Path>, p: Path, q: Path, k: nat)
    requires p in loop && forall x :: x in loop ==> x !in pass.declared && x in pass.aliases && pass.aliases[x] in loop
    ensures !LeadsTo(pass, p, q, k)
    decreases k
  {
    if k > 0 { LoopLeadsNowhere(pass, loop, pass.aliases[p], q, k - 1); }
  }

  /** Hard links that lead to files or symbolic links. */
  ghost predicate GoodLink(pass: Pass, p: Path) {
    Grounded(pass, p) && pass.declared[Real(pass, p)].kind != DirectoryKind
  }

  /** The declarations once the hard links in `done` are resolved. */
  ghost predicate Resolved(pass: Pass, done: set<Path>, d: map<Path, Declared>) {
    && (forall p :: p in pass.declared ==> p in d && d[p] == pass.declared[p])
    && (forall p :: p in done ==> p in d)
    && (forall p :: p in d && p !in pass.declared ==>
          p in pass.aliases && GoodLink(pass, p) && d[p] == pass.declared[Real(pass, p)])
  }

  /** The paths passed on the way from `key` to `target`, none of them resolved yet. */
  ghost predicate ChaseOk(pass: Pass, d: map<Path, Declared>, seen: set<Path>, key: Path, target: Path) {
    && seen <= pass.aliases.Keys && (target == key || key in seen)
    && (forall x :: x in seen ==> x !in d && (pass.aliases[x] in seen || pass.aliases[x] == target))
    && (forall x :: x in seen ==> (Grounded(pass, x) <==> Grounded(pass, target)))
    && (forall x :: x in seen && Grounded(pass, x) ==> Real(pass, x) == Real(pass, target))
  }

  lemma ChaseStep(pass: Pass, d: map<Path, Declared>, seen: set<Path>, key: Path, target: Path)
    requires ChaseOk(pass, d, seen, key, target) && target !in d && target in pass.aliases && target !in pass.declared
    ensures ChaseOk(pass, d, seen + {target}, key, pass.aliases[target])
  {
    RealStep(pass, target);
    hide Grounded, Real;
  }

  /** Coming back to a path already passed, a hard link leads nowhere. */
  lemma ChaseLoops(pass: Pass, d: map<Path, Declared>, seen: set<Path>, key: Path, target: Path)
    requires ChaseOk(pass, d, seen, key, target) && target in seen && forall p :: p in pass.declared ==> p in d
    ensures key in seen && !GoodLink(pass, key)
  {
    forall q, k: nat ensures !LeadsTo(pass, key, q, k) { LoopLeadsNowhere(pass, seen, key, q, k); }
  }

  lemma ChaseFails(pass: Pass, d: map<Path, Declared>, seen: set<Path>, key: Path, target: Path)
    requires ChaseOk(pass, d, seen, key, target) && !GoodLink(pass, target)
    ensures !GoodLink(pass, key)
  {
    hide Grounded, Real;
  }

  /** What a resolved path holds. */
  lemma ResolvedAt(pass: Pass, done: set<Path>, d: map<Path, Declared>, p: Path)
    requires Resolved(pass, done, d) && p in d
    ensures Grounded(pass, p) && d[p] == pass.declared[Real(pass, p)]
  {
    hide Real;
    if p in pass.declared { RealDeclared(pass, p); }
  }

  /** The whole chase is resolved at once. */
  lemma ChaseEnds(pass: Pass, done: set<Path>, d: map<Path, Declared>, seen: set<Path>, key: Path, target: Path, next: map<Path, Declared>)
    requires Resolved(pass, done, d) && ChaseOk(pass, d, seen, key, target) && target in d && d[target].kind != DirectoryKind
    requires next == map p | p in d.Keys + seen :: if p in seen then d[target] else d[p]
    requires forall p :: p in pass.aliases ==> p !in pass.declared
    ensures Resolved(pass, done + {key}, next)
  {
    ResolvedAt(pass, done, d, target);
    hide Grounded, Real;
    forall p | p in seen ensures GoodLink(pass, p) && next[p] == pass.declared[Real(pass, p)] { }
  }

  /** Resolve every hard link through chains of hard links. */
  method ResolveLinks(pass: Pass) returns (r: Result<map<Path, Declared>, Failure>)
    requires forall p :: p in pass.aliases ==> p !in pass.declared
    ensures r.Ok? <==> forall p :: p in pass.aliases ==> GoodLink(pass, p)
    ensures r.Ok? ==> Resolved(pass, pass.aliases.Keys, r.value)
    ensures r.Err? ==> r.error == Failure(InvalidStructure, "hardLink")
  {
    hide LeadsTo, Grounded, Real, GoodLink, ChaseOk, Resolved;
    var d: map<Path, Declared>, left: set<Path> := pass.declared, pass.aliases.Keys;
    StartResolving(pass);
    while left != {}
      invariant left <= pass.aliases.Keys && Resolved(pass, pass.aliases.Keys - left, d)
      decreases left
    {
      var key :| key in left;
      ResolvedKeeps(pass, pass.aliases.Keys - left, d);
      var target, seen: set<Path> := key, {};
      StartChase(pass, d, key);
      while target !in d
        invariant seen <= pass.aliases.Keys && ChaseOk(pass, d, seen, key, target)
        decreases pass.aliases.Keys - seen
      {
        if target in seen {
          ChaseLoops(pass, d, seen, key, target);
          return Err(BAD_LINK);
        }
        if target !in pass.aliases {
          NotDeclared(pass, target);
          ChaseFails(pass, d, seen, key, target);
          return Err(BAD_LINK);
        }
        ChaseStep(pass, d, seen, key, target);
        seen := seen + {target};
        target := pass.aliases[target];
      }
      var node := d[target];
      if node.kind == DirectoryKind {
        LeadsToDirectory(pass, pass.aliases.Keys - left, d, target);
        ChaseFails(pass, d, seen, key, target);
        return Err(BAD_LINK);
      }
      ghost var before := d;
      d := map p | p in d.Keys + seen :: if p in seen then node else d[p];
      ChaseEnds(pass, pass.aliases.Keys - left, before, seen, key, target, d);
      assert pass.aliases.Keys - left + {key} == pass.aliases.Keys - (left - {key});
      left := left - {key};
    }
    assert pass.aliases.Keys - {} == pass.aliases.Keys;
    AllLinksGood(pass, d);
    return Ok(d);
  }

  lemma StartResolving(pass: Pass)
    ensures Resolved(pass, pass.aliases.Keys - pass.aliases.Keys, pass.declared)
  {
  }

  lemma StartChase(pass: Pass, d: map<Path, Declared>, key: Path)
    ensures ChaseOk(pass, d, {}, key, key)
  {
  }

  lemma ResolvedKeeps(pass: Pass, done: set<Path>, d: map<Path, Declared>)
    requires Resolved(pass, done, d)
    ensures forall p :: p in pass.declared ==> p in d
  {
    hide Grounded, Real, GoodLink;
  }

  lemma LeadsToDirectory(pass: Pass, done: set<Path>, d: map<Path, Declared>, target: Path)
    requires Resolved(pass, done, d) && target in d && d[target].kind == DirectoryKind
    ensures !GoodLink(pass, target)
  {
    ResolvedAt(pass, done, d, target);
    hide Grounded, Real;
  }

  lemma AllLinksGood(pass: Pass, d: map<Path, Declared>)
    requires Resolved(pass, pass.aliases.Keys, d) && forall p :: p in pass.aliases ==> p !in pass.declared
    ensures forall p :: p in pass.aliases ==> GoodLink(pass, p)
  {
    hide Grounded, Real, GoodLink;
  }

  lemma NotDeclared(pass: Pass, p: Path)
    requires p !in pass.declared && p !in pass.aliases
    ensures !Grounded(pass, p) && !GoodLink(pass, p)
  {
  }
}
