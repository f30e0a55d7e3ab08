/** Parent maps whose chains end at the root: the shape every directory graph of a volume must have. */
module Forest {

  type Ino = nat

  const ROOT: Ino := 1

  type Parents = map<Ino, Ino>

  /** Following `up` from `d`, the root is met for the first time after exactly `k` steps. */
  ghost predicate Climbs(up: Parents, d: Ino, k: nat)
    decreases k
  {
    if k == 0 then d == ROOT else d != ROOT && d in up && Climbs(up, up[d], k - 1)
  }

  ghost predicate Attached(up: Parents, d: Ino) {
    exists k: nat :: Climbs(up, d, k)
  }

  lemma {:induction false} ClimbUnique(up: Parents, d: Ino, j: nat, k: nat)
    requires Climbs(up, d, j) && Climbs(up, d, k)
    ensures j == k
    decreases j
  {
    if j > 0 && k > 0 { ClimbUnique(up, up[d], j - 1, k - 1); }
  }

  ghost function Depth(up: Parents, d: Ino): (k: nat)
    requires Attached(up, d)
    ensures Climbs(up, d, k)
  {
    var k: nat :| Climbs(up, d, k);
    k
  }

  lemma RootAttached(up: Parents)
    ensures Attached(up, ROOT) && Depth(up, ROOT) == 0
  {
    assert Climbs(up, ROOT, 0);
    ClimbUnique(up, ROOT, 0, Depth(up, ROOT));
  }

  /** A directory hangs one step below its parent. */
  lemma ParentAttached(up: Parents, d: Ino)
    requires Attached(up, d) && d != ROOT
    ensures d in up && Attached(up, up[d]) && Depth(up, d) == Depth(up, up[d]) + 1
  {
    var k := Depth(up, d);
    assert Climbs(up, up[d], k - 1);
    ClimbUnique(up, up[d], k - 1, Depth(up, up[d]));
  }

  lemma ChildAttached(up: Parents, d: Ino)
    requires d != ROOT && d in up && Attached(up, up[d])
    ensures Attached(up, d) && Depth(up, d) == Depth(up, up[d]) + 1
  {
    var k := Depth(up, up[d]);
    assert Climbs(up, d, k + 1);
    ClimbUnique(up, d, k + 1, Depth(up, d));
  }

  /** The directories on the way from `d` to the root, both included. */
  ghost function Chain(up: Parents, d: Ino): (s: set<Ino>)
    requires Attached(up, d)
    ensures forall m :: m in s ==> Attached(up, m) && Depth(up, m) <= Depth(up, d)
    ensures forall m :: m in s ==> m == ROOT || m in up
    ensures d in s && ROOT in s && |s| == Depth(up, d) + 1
    decreases Depth(up, d)
  {
    if d == ROOT then
      RootAttached(up);
      {ROOT}
    else
      ParentAttached(up, d);
      Chain(up, up[d]) + {d}
  }

  /** No directory is deeper than there are directories. */
  lemma DepthBounded(up: Parents, d: Ino, dirs: set<Ino>)
    requires Attached(up, d)
    requires up.Keys <= dirs && ROOT in dirs
    ensures Depth(up, d) < |dirs|
  {
    Smaller(Chain(up, d), dirs);
  }

  lemma {:induction false} Smaller<T>(a: set<T>, b: set<T>)
    requires a <= b
    ensures |a| <= |b|
    decreases a
  {
    if a != {} {
      var x :| x in a;
      Smaller(a - {x}, b - {x});
    }
  }

  /** A set of directories that follows `up` and avoids the root cannot reach it. */
  lemma {:induction false} TrappedBelow(up: Parents, trap: set<Ino>, d: Ino, k: nat)
    requires ROOT !in trap
    requires forall m :: m in trap && m in up ==> up[m] in trap
    requires d in trap
    ensures !Climbs(up, d, k)
    decreases k
  {
    if k > 0 && d in up { TrappedBelow(up, trap, up[d], k - 1); }
  }
}
