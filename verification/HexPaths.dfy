/**
 * Ancestor tests and rebasing on hex strings (`directoryPath`, `below` and `rebase` in `internal/callerWatch.ts`).
 * Paths are kept as the lowercase hex of their bytes; a prefix test on those strings decides whether one directory
 * lies in another, and cutting the prefix off is a path again.
 */
module HexPaths {
  import opened Basics
  import opened Forest
  import opened Volumes
  import opened Resolve
  import opened Fixtures

  // ---------------------------------------------------------------- hex

  function HexDigit(n: int): char
    requires 0 <= n < 16
  {
    if n < 10 then (48 + n) as char else (87 + n) as char
  }

  function HexValue(c: char): int { if c < 'a' then c as int - 48 else c as int - 87 }

  lemma HexDigitBack(n: int)
    requires 0 <= n < 16
    ensures HexValue(HexDigit(n)) == n
  {
  }

  function Hex(b: bytes): (s: string)
    ensures |s| == 2 * |b|
  {
    if b == [] then "" else [HexDigit(b[0] / 16), HexDigit(b[0] % 16)] + Hex(b[1..])
  }

  /** `nameBytes`: the bytes a hex string stands for. */
  function UnHex(s: string): bytes {
    if |s| < 2 then []
    else
      var n := HexValue(s[0]) * 16 + HexValue(s[1]);
      [if 0 <= n < 256 then n else 0] + UnHex(s[2..])
  }

  lemma {:induction false} UnHexHex(b: bytes)
    ensures UnHex(Hex(b)) == b
    decreases |b|
  {
    if b != [] {
      HexDigitBack(b[0] / 16);
      HexDigitBack(b[0] % 16);
      assert Hex(b)[2..] == Hex(b[1..]);
      UnHexHex(b[1..]);
      hide HexDigit, HexValue;
      assert [b[0]] + b[1..] == b;
    }
  }

  lemma {:induction false} HexAppend(a: bytes, b: bytes)
    ensures Hex(a + b) == Hex(a) + Hex(b)
    decreases |a|
  {
    hide HexDigit;
    if a == [] {
      assert a + b == b;
    } else {
      assert (a + b)[1..] == a[1..] + b;
      HexAppend(a[1..], b);
    }
  }

  lemma HexInjective(a: bytes, b: bytes)
    requires Hex(a) == Hex(b)
    ensures a == b
  {
    UnHexHex(a);
    UnHexHex(b);
  }

  const HEX_DIGITS := "0123456789abcdef"

  /** Every byte is two lowercase digits, the high half first. */
  lemma {:induction false} HexSpelled(b: bytes, i: nat)
    requires i < |b|
    ensures Hex(b)[2 * i] == HEX_DIGITS[b[i] / 16] && Hex(b)[2 * i + 1] == HEX_DIGITS[b[i] % 16]
    decreases |b|
  {
    if i > 0 { HexSpelled(b[1..], i - 1); }
  }

  /** Prefixes of hex strings of bytes are the hex of prefixes: nothing starts in the middle of a byte. */
  lemma HexPrefix(a: bytes, b: bytes)
    ensures Hex(a) <= Hex(b) <==> a <= b
  {
    if a <= b {
      HexAppend(a, b[|a|..]);
      assert b == a + b[|a|..];
    }
    if Hex(a) <= Hex(b) {
      HexAppend(b[..|a|], b[|a|..]);
      assert b == b[..|a|] + b[|a|..];
      assert Hex(a) == Hex(b)[..2 * |a|] == Hex(b[..|a|]);
      HexInjective(a, b[..|a|]);
    }
  }

  const SLASH_HEX: string := "2f"

  lemma SlashHex()
    ensures SLASH_HEX == Hex([SLASH])
  {
    assert [SLASH][1..] == [];
    assert Hex([SLASH]) == [HexDigit(2), HexDigit(15)] + Hex([]);
  }

  /** The string a path is compared by. */
  function HexPath(p: Path): string { Hex(PathBytes(p)) }

  // ---------------------------------------------------------------- the source's tests

  predicate Below(path: string, root: string) {
    root == SLASH_HEX || path == root || root + SLASH_HEX <= path
  }

  function Rebase(path: string, root: string): string
    requires root == SLASH_HEX || |root| <= |path|
  {
    if root == SLASH_HEX then path else if path == root then SLASH_HEX else path[|root|..]
  }

  /** What `Rebase` took away, put back. */
  function Restore(path: string, root: string): string {
    if root == SLASH_HEX then path else if path == SLASH_HEX then root else root + path
  }

  // ---------------------------------------------------------------- what they decide

  lemma GoodParts(p: Path, q: Path)
    ensures GoodPath(p + q) <==> GoodPath(p) && GoodPath(q)
  {
    if GoodPath(p + q) {
      forall i | 0 <= i < |p| ensures IsName(p[i]) { assert p[i] == (p + q)[i]; }
      forall i | 0 <= i < |q| ensures IsName(q[i]) { assert q[i] == (p + q)[|p| + i]; }
    }
  }

  /** A path below a directory other than the root is the directory's path and the rest's, end to end. */
  lemma {:induction false} PathBytesSplit(p: Path, rest: Path)
    requires GoodPath(p + rest) && p != [] && rest != []
    ensures PathBytes(p + rest) == PathBytes(p) + PathBytes(rest)
    decreases |rest|
  {
    hide PathBytes, GoodPath;
    GoodParts(p, rest);
    var front, n := rest[..|rest| - 1], rest[|rest| - 1];
    assert rest == front + [n] && p + rest == (p + front) + [n];
    GoodParts(p + front, [n]);
    GoodParts(front, [n]);
    PathBytesAfter(p + front, n);
    PathBytesAfter(front, n);
    if front == [] {
      assert p + front == p && [] + n == n;
      RootPathBytes();
    } else {
      PathBytesSplit(p, front);
      assert PathBytes(p) + PathBytes(front) + ([SLASH] + n) == PathBytes(p) + (PathBytes(front) + ([SLASH] + n));
    }
  }

  lemma RootPathBytes()
    ensures PathBytes([]) == [SLASH]
  {
  }

  /** One more name after a path: the slash is there already after the root. */
  lemma PathBytesAfter(p: Path, n: Name)
    requires GoodPath(p)
    ensures PathBytes(p + [n]) == (if p == [] then [] else PathBytes(p)) + ([SLASH] + n)
  {
    PathBytesSnoc(p, n);
    PathBytesShape(p);
    if p != [] { assert PathBytes(p) + [SLASH] + n == PathBytes(p) + ([SLASH] + n); }
  }

  lemma StartsWithSlash(p: Path)
    requires GoodPath(p)
    ensures PathBytes(p) != [] && PathBytes(p)[0] == SLASH
  {
    PathComponents(p);
  }

  /** The byte path of `q` starts with that of `p` and a slash exactly when `q` lies properly below `p`. */
  lemma PathPrefix(p: Path, q: Path)
    requires GoodPath(p) && GoodPath(q) && p != []
    ensures PathBytes(p) + [SLASH] <= PathBytes(q) <==> p < q
  {
    hide *;
    if p < q { PrefixPath(p, q); }
    if PathBytes(p) + [SLASH] <= PathBytes(q) { PathFromPrefix(p, q); }
  }

  lemma PrefixPath(p: Path, q: Path)
    requires GoodPath(p) && GoodPath(q) && p != [] && p < q
    ensures PathBytes(p) + [SLASH] <= PathBytes(q)
  {
    var rest := q[|p|..];
    assert q == p + rest;
    GoodParts(p, rest);
    hide GoodPath, PathBytes;
    PathBytesSplit(p, rest);
    StartsWithSlash(rest);
    StartsWith(PathBytes(p), PathBytes(rest));
  }

  lemma StartsWith(a: bytes, b: bytes)
    requires b != [] && b[0] == SLASH
    ensures a + [SLASH] <= a + b
  {
  }

  lemma PathFromPrefix(p: Path, q: Path)
    requires GoodPath(p) && GoodPath(q) && PathBytes(p) + [SLASH] <= PathBytes(q)
    ensures p < q
  {
    hide GoodPath, PathBytes, Components;
    var a, b := PathBytes(p), PathBytes(q);
    var rest := b[|a|..];
    assert b == a + rest && rest[0] == SLASH;
    ComponentsAppend(a, rest);
    PathComponents(p);
    PathComponents(q);
    assert p == (p + Components(rest))[..|p|];
    assert |p| == |q| ==> p == q;
  }

  /** Main result: the string test holds exactly when one path is a prefix of the other. */
  lemma BelowIsPrefix(p: Path, q: Path)
    requires GoodPath(p) && GoodPath(q)
    ensures Below(HexPath(q), HexPath(p)) <==> p <= q
    ensures HexPath(p) == SLASH_HEX <==> p == []
    ensures HexPath(p) == HexPath(q) <==> p == q
  {
    SlashHex();
    assert PathBytes([]) == [SLASH];
    if HexPath(p) == HexPath(q) {
      HexInjective(PathBytes(p), PathBytes(q));
      PathBytesInjective(p, q);
    }
    if HexPath(p) == SLASH_HEX {
      HexInjective(PathBytes(p), [SLASH]);
      PathBytesInjective(p, []);
    }
    HexAppend(PathBytes(p), [SLASH]);
    HexPrefix(PathBytes(p) + [SLASH], PathBytes(q));
    if p != [] { PathPrefix(p, q); }
    hide Hex, PathBytes, GoodPath;
    if p <= q && |p| == |q| { assert p == q; }
  }

  /** Main result: rebasing a path below a root gives the rest of the path under `/`, and loses nothing. */
  lemma RebaseIsRest(p: Path, rest: Path)
    requires GoodPath(p + rest)
    ensures HexPath(p) == SLASH_HEX || |HexPath(p)| <= |HexPath(p + rest)|
    ensures Rebase(HexPath(p + rest), HexPath(p)) == HexPath(rest)
    ensures Restore(HexPath(rest), HexPath(p)) == HexPath(p + rest)
  {
    GoodParts(p, rest);
    BelowIsPrefix(p, p + rest);
    BelowIsPrefix(p + rest, p);
    BelowIsPrefix(rest, []);
    assert PathBytes([]) == [SLASH];
    SlashHex();
    if p == [] {
      assert p + rest == rest;
    } else if rest == [] {
      assert p + rest == p;
    } else {
      PathBytesSplit(p, rest);
      HexAppend(PathBytes(p), PathBytes(rest));
      assert p + rest != p;
    }
    hide Hex, PathBytes, GoodPath, Below;
  }

  // ---------------------------------------------------------------- directories

  /** `r` is `d` or one of the directories on its way to the root. */
  ghost predicate Encloses(v: Volume, r: Ino, d: Ino)
    requires Live(v, d)
  {
    r in Chain(Up(v), d)
  }

  lemma NamesGood(v: Volume, d: Ino)
    requires WellFormed(v) && Live(v, d)
    ensures GoodPath(Names(v, d))
  {
    NamesLookup(v, d);
    LookupGood(v, Names(v, d));
  }

  /** The directories on the way to the root are the ones whose paths are prefixes. */
  lemma {:induction false} EnclosesIsPrefix(v: Volume, r: Ino, d: Ino)
    requires WellFormed(v) && Live(v, d) && Live(v, r)
    ensures Encloses(v, r, d) <==> Names(v, r) <= Names(v, d)
    decreases Depth(Up(v), d)
  {
    if d == ROOT {
      RootOnlyEnclosed(v, r);
    } else {
      LiveParent(v, d);
      var p := v[d].parent;
      EnclosesIsPrefix(v, r, p);
      assert Chain(Up(v), d) == Chain(Up(v), p) + {d};
      assert Names(v, d) == Names(v, p) + [v[d].name];
      SameNames(v, r, d);
      hide WellFormed, Live, Chain, Names, Lookup;
      PrefixOfSnoc(Names(v, r), Names(v, p), v[d].name);
    }
  }

  lemma RootOnlyEnclosed(v: Volume, r: Ino)
    requires WellFormed(v) && Live(v, r) && Live(v, ROOT)
    ensures Encloses(v, r, ROOT) <==> Names(v, r) <= Names(v, ROOT)
  {
    NamesLookup(v, r);
    RootAttached(Up(v));
    assert Names(v, ROOT) == [] && Chain(Up(v), ROOT) == {ROOT};
    hide WellFormed, Live, Chain, Names;
  }

  /** Different directories have different paths. */
  lemma SameNames(v: Volume, r: Ino, d: Ino)
    requires WellFormed(v) && Live(v, r) && Live(v, d)
    ensures Names(v, r) == Names(v, d) <==> r == d
  {
    hide WellFormed, Names, Lookup;
    NamesLookup(v, r);
    NamesLookup(v, d);
  }

  lemma PrefixOfSnoc(a: Path, b: Path, n: Name)
    ensures a <= b + [n] <==> a <= b || a == b + [n]
  {
    if a <= b + [n] && |a| <= |b| { assert a == (b + [n])[..|a|] == b[..|a|]; }
    if a <= b + [n] && |a| > |b| { assert a == (b + [n])[..|a|] == b + [n]; }
  }

  /** Main result: in a well-formed volume the prefix test on hex paths is the ancestor test. */
  lemma BelowIsEnclosed(v: Volume, r: Ino, d: Ino)
    requires WellFormed(v) && Live(v, d) && Live(v, r)
    ensures Below(HexPath(Names(v, d)), HexPath(Names(v, r))) <==> Encloses(v, r, d)
  {
    NamesGood(v, d);
    NamesGood(v, r);
    BelowIsPrefix(Names(v, r), Names(v, d));
    EnclosesIsPrefix(v, r, d);
  }
}
