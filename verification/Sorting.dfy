/** Ascending listings: byte order, and the one ascending listing a set of ordered elements has. */
module Sorting {
  import opened Basics

  /** `bytesOrder`: byte by byte, a proper prefix first. Hex names compare the same way. */
  predicate LexLess(a: bytes, b: bytes) {
    if b == [] then false
    else if a == [] then true
    else if a[0] != b[0] then a[0] < b[0]
    else LexLess(a[1..], b[1..])
  }

  lemma {:induction false} LexTotal(a: bytes, b: bytes)
    ensures !LexLess(a, a)
    ensures a == b || LexLess(a, b) || LexLess(b, a)
    ensures !(LexLess(a, b) && LexLess(b, a))
    decreases |a|, |b|
  {
    if a != [] { LexTotal(a[1..], a[1..]); }
    if a != [] && b != [] && a[0] == b[0] {
      LexTotal(a[1..], b[1..]);
      assert a == [a[0]] + a[1..] && b == [b[0]] + b[1..];
    }
  }

  lemma {:induction false} LexTransitive(a: bytes, b: bytes, c: bytes)
    requires LexLess(a, b) && LexLess(b, c)
    ensures LexLess(a, c)
    decreases |a|
  {
    if a != [] && a[0] == b[0] == c[0] { LexTransitive(a[1..], b[1..], c[1..]); }
  }

  /** The first byte in which two byte strings differ decides; without one, the shorter string comes first. */
  lemma {:induction false} LexMeans(a: bytes, b: bytes)
    ensures LexLess(a, b) <==>
            exists i :: 0 <= i <= |a| && i < |b| && a[..i] == b[..i] && (i == |a| || a[i] < b[i])
    decreases |a|
  {
    if a == [] {
      assert b != [] ==> a[..0] == b[..0];
    } else if b != [] {
      LexMeans(a[1..], b[1..]);
      if LexLess(a, b) {
        if a[0] == b[0] {
          var i :| 0 <= i <= |a[1..]| && i < |b[1..]| && a[1..][..i] == b[1..][..i]
                   && (i == |a[1..]| || a[1..][i] < b[1..][i]);
          assert a[..i + 1] == [a[0]] + a[1..][..i] && b[..i + 1] == [b[0]] + b[1..][..i];
        } else {
          assert a[..0] == b[..0];
        }
      }
      if i :| 0 <= i <= |a| && i < |b| && a[..i] == b[..i] && (i == |a| || a[i] < b[i]) {
        if i > 0 {
          assert a[0] == a[..i][0] && b[0] == b[..i][0];
          assert a[1..][..i - 1] == a[..i][1..] && b[1..][..i - 1] == b[..i][1..];
        }
      }
    }
  }

  // ---------------------------------------------------------------- listings

  type Less<!T> = (T, T) -> bool

  ghost predicate Orders<T(!new)>(lt: Less<T>, s: set<T>) {
    && (forall x :: x in s ==> !lt(x, x))
    && (forall x, y :: x in s && y in s ==> x == y || lt(x, y) || lt(y, x))
    && (forall x, y, z :: x in s && y in s && z in s && lt(x, y) && lt(y, z) ==> lt(x, z))
  }

  ghost predicate Ascending<T>(lt: Less<T>, q: seq<T>) {
    forall i, j :: 0 <= i < j < |q| ==> lt(q[i], q[j])
  }

  function Elements<T>(q: seq<T>): set<T> {
    set x | x in q
  }

  lemma ElementsEmpty<T>(q: seq<T>)
    ensures Elements(q) == {} <==> q == []
  {
    if q != [] { assert q[0] in Elements(q); }
  }

  lemma FirstLeast<T>(lt: Less<T>, q: seq<T>)
    requires Ascending(lt, q) && q != []
    ensures forall x :: x in q ==> x == q[0] || lt(q[0], x)
  {
  }

  /** Two ascending listings of the same elements are the same listing. */
  lemma {:induction false} AscendingUnique<T(!new)>(lt: Less<T>, s: set<T>, q: seq<T>, r: seq<T>)
    requires Orders(lt, s) && Elements(q) == Elements(r) && Elements(q) <= s
    requires Ascending(lt, q) && Ascending(lt, r)
    ensures q == r
    decreases |q|
  {
    if q == [] {
      ElementsEmpty(q);
      ElementsEmpty(r);
    } else {
      ElementsEmpty(r);
      assert q[0] in Elements(q) && q[0] in Elements(r);
      assert r[0] in Elements(r) && r[0] in Elements(q);
      FirstLeast(lt, q);
      FirstLeast(lt, r);
      assert q[0] == r[0];
      assert forall x :: x in Elements(q[1..]) <==> x in Elements(q) && x != q[0] by {
        forall x | x in Elements(q) && x != q[0] ensures x in q[1..] {
          var k :| 0 <= k < |q| && q[k] == x;
          assert q[1..][k - 1] == x;
        }
        forall x | x in q[1..] ensures x != q[0] && x in q {
          var k :| 0 <= k < |q[1..]| && q[1..][k] == x;
          assert lt(q[0], q[k + 1]);
        }
      }
      assert forall x :: x in Elements(r[1..]) <==> x in Elements(r) && x != r[0] by {
        forall x | x in Elements(r) && x != r[0] ensures x in r[1..] {
          var k :| 0 <= k < |r| && r[k] == x;
          assert r[1..][k - 1] == x;
        }
        forall x | x in r[1..] ensures x != r[0] && x in r {
          var k :| 0 <= k < |r[1..]| && r[1..][k] == x;
          assert lt(r[0], r[k + 1]);
        }
      }
      AscendingUnique(lt, s, q[1..], r[1..]);
      assert q == [q[0]] + q[1..] && r == [r[0]] + r[1..];
    }
  }

  function Insert<T>(lt: Less<T>, x: T, q: seq<T>): (r: seq<T>)
    ensures multiset(r) == multiset(q) + multiset{x}
  {
    if q == [] then [x]
    else if lt(q[0], x) then
      assert q == [q[0]] + q[1..];
      [q[0]] + Insert(lt, x, q[1..])
    else [x] + q
  }

  /** `Array.prototype.sort` with the comparison `lt`. */
  function SortBy<T>(lt: Less<T>, q: seq<T>): (r: seq<T>)
    ensures multiset(r) == multiset(q)
  {
    if q == [] then []
    else
      assert q == [q[0]] + q[1..];
      Insert(lt, q[0], SortBy(lt, q[1..]))
  }

  lemma SameElements<T>(q: seq<T>, r: seq<T>)
    requires multiset(q) == multiset(r)
    ensures Elements(q) == Elements(r) && |q| == |r|
  {
    forall x ensures x in q <==> x in r {
      assert x in q <==> x in multiset(q);
      assert x in r <==> x in multiset(r);
    }
    assert |multiset(q)| == |q| && |multiset(r)| == |r|;
  }

  lemma {:induction false} InsertAscending<T(!new)>(lt: Less<T>, s: set<T>, x: T, q: seq<T>)
    requires Orders(lt, s) && x in s && Elements(q) <= s && x !in q && Ascending(lt, q)
    ensures Ascending(lt, Insert(lt, x, q))
    decreases |q|
  {
    if q != [] {
      assert q[0] in Elements(q);
      var tail := q[1..];
      assert Elements(tail) <= Elements(q);
      var r := Insert(lt, x, tail);
      if lt(q[0], x) {
        InsertAscending(lt, s, x, tail);
        forall i | 0 <= i < |r| ensures lt(q[0], r[i]) {
          assert r[i] in multiset(r);
          if r[i] != x {
            assert r[i] in multiset(tail);
            var k :| 0 <= k < |tail| && tail[k] == r[i];
            assert q[k + 1] == r[i];
          }
        }
      } else {
        forall i | 0 <= i < |q| ensures lt(x, q[i]) {
          assert q[i] in Elements(q);
          assert i > 0 ==> lt(q[0], q[i]);
        }
      }
    }
  }

  /** Sorting distinct elements gives an ascending listing of them. */
  lemma {:induction false} SortAscending<T(!new)>(lt: Less<T>, s: set<T>, q: seq<T>)
    requires Orders(lt, s) && Elements(q) <= s
    requires forall i, j :: 0 <= i < j < |q| ==> q[i] != q[j]
    ensures Ascending(lt, SortBy(lt, q)) && Elements(SortBy(lt, q)) == Elements(q)
    decreases |q|
  {
    SameElements(q, SortBy(lt, q));
    if q != [] {
      assert q[0] in Elements(q) && Elements(q[1..]) <= Elements(q);
      SortAscending(lt, s, q[1..]);
      assert q[0] !in q[1..];
      SameElements(q[1..], SortBy(lt, q[1..]));
      assert q[0] !in Elements(SortBy(lt, q[1..]));
      InsertAscending(lt, s, q[0], SortBy(lt, q[1..]));
    }
  }

  /** Some listing of a set without repetition. */
  lemma {:induction false} ListingExists<T>(s: set<T>) returns (q: seq<T>)
    ensures Elements(q) == s && |q| == |s| && forall i, j :: 0 <= i < j < |q| ==> q[i] != q[j]
    decreases s
  {
    if s == {} {
      q := [];
    } else {
      var x :| x in s;
      var rest := ListingExists(s - {x});
      q := rest + [x];
      assert forall i :: 0 <= i < |rest| ==> rest[i] in Elements(rest);
      assert Elements(q) == Elements(rest) + {x};
    }
  }

  /** The ascending listing of a set. */
  ghost function Listing<T(!new)>(lt: Less<T>, s: set<T>): (q: seq<T>)
    requires Orders(lt, s)
    ensures Ascending(lt, q) && Elements(q) == s
  {
    assert exists q :: Ascending(lt, q) && Elements(q) == s by {
      var some := ListingExists(s);
      SortAscending(lt, s, some);
    }
    var q :| Ascending(lt, q) && Elements(q) == s;
    q
  }

  lemma ListingIs<T(!new)>(lt: Less<T>, q: seq<T>, s: set<T>)
    requires Orders(lt, s) && Ascending(lt, q) && Elements(q) == s
    ensures Listing(lt, s) == q
  {
    AscendingUnique(lt, s, Listing(lt, s), q);
  }

  lemma LexOrders(s: set<bytes>)
    ensures Orders(LexLess, s)
  {
    forall x, y | x in s && y in s
      ensures !LexLess(x, x) && (x == y || LexLess(x, y) || LexLess(y, x))
    {
      LexTotal(x, y);
    }
    forall x, y, z | x in s && y in s && z in s && LexLess(x, y) && LexLess(y, z) ensures LexLess(x, z) {
      LexTransitive(x, y, z);
    }
  }

  lemma AscendingDistinct<T(!new)>(lt: Less<T>, s: set<T>, q: seq<T>)
    requires Orders(lt, s) && Elements(q) <= s && Ascending(lt, q)
    ensures forall i, j :: 0 <= i < j < |q| ==> q[i] != q[j]
    ensures |q| == |Elements(q)|
    decreases |q|
  {
    forall i, j | 0 <= i < j < |q| ensures q[i] != q[j] {
      assert q[i] in Elements(q);
    }
    DistinctCount(q);
  }

  lemma {:induction false} DistinctCount<T>(q: seq<T>)
    requires forall i, j :: 0 <= i < j < |q| ==> q[i] != q[j]
    ensures |q| == |Elements(q)|
    decreases |q|
  {
    if q != [] {
      var front := q[..|q| - 1];
      DistinctCount(front);
      assert q == front + [q[|q| - 1]];
      assert Elements(q) == Elements(front) + {q[|q| - 1]};
    }
  }
}
