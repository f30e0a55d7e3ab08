/**
 * The length-prefixed framing of `internal/merkle.ts`: eight-byte lengths, decimal time stamps, and the byte string
 * hashed for one node. Every field can be read back, so equal byte strings come from equal fields.
 */
module MerkleFraming {
  import opened Basics
  import opened Volumes

  const DIGEST_BYTES := 32
  const U64_BYTES := 8
  const WORD: int := 0x1_0000_0000_0000_0000

  // ---------------------------------------------------------------- integers

  function Pow256(k: nat): nat {
    if k == 0 then 1 else 256 * Pow256(k - 1)
  }

  /** The low `k` bytes of `n`, most significant first. */
  function BigEndian(n: nat, k: nat): (b: bytes)
    ensures |b| == k
    decreases k
  {
    if k == 0 then [] else BigEndian(n / 256, k - 1) + [n % 256]
  }

  lemma {:induction false} BigEndianInjective(n: nat, m: nat, k: nat)
    requires n < Pow256(k) && m < Pow256(k) && BigEndian(n, k) == BigEndian(m, k)
    ensures n == m
    decreases k
  {
    if k > 0 {
      SplitEqual(BigEndian(n / 256, k - 1), [n % 256], BigEndian(m / 256, k - 1), [m % 256]);
      assert [n % 256][0] == [m % 256][0];
      BigEndianInjective(n / 256, m / 256, k - 1);
    }
  }

  /** `setBigUint64`: the value modulo two to the sixty-fourth, big endian. */
  function U64(n: nat): (b: bytes)
    ensures |b| == U64_BYTES
  {
    BigEndian(n, U64_BYTES)
  }

  lemma U64Injective(n: nat, m: nat)
    requires n < WORD && m < WORD && U64(n) == U64(m)
    ensures n == m
  {
    assert Pow256(8) == WORD by {
      assert Pow256(4) == 0x1_0000_0000;
    }
    BigEndianInjective(n, m, 8);
  }

  /** The bytes at a position spell a number in eight bytes, the most significant byte first. */
  predicate NumberAt(b: bytes, at: nat, n: nat) {
    && at + 8 <= |b|
    && b[at..at + 8] == [n / 0x100_0000_0000_0000 % 256, n / 0x1_0000_0000_0000 % 256, n / 0x100_0000_0000 % 256,
                         n / 0x1_0000_0000 % 256, n / 0x100_0000 % 256, n / 0x1_0000 % 256, n / 0x100 % 256, n % 256]
  }

  lemma U64Spells(n: nat)
    ensures NumberAt(U64(n), 0, n)
  {
    var two, four, six := n / 0x1_0000, n / 0x1_0000_0000, n / 0x1_0000_0000_0000;
    assert n / 256 / 256 == two && two / 256 / 256 == four && four / 256 / 256 == six;
    assert n / 0x100_0000 == two / 256 && n / 0x100_0000_0000 == four / 256 && n / 0x100_0000_0000_0000 == six / 256;
    assert BigEndian(six, 2) == [six / 256 % 256, six % 256] by {
      assert BigEndian(six / 256 / 256, 0) == [];
      assert BigEndian(six / 256, 1) == [six / 256 % 256];
    }
    BigEndianPair(four, 2);
    BigEndianPair(two, 4);
    BigEndianPair(n, 6);
    assert U64(n)[0..8] == U64(n);
  }

  lemma BigEndianPair(n: nat, k: nat)
    ensures BigEndian(n, k + 2) == BigEndian(n / 256 / 256, k) + [n / 256 % 256, n % 256]
  {
    assert BigEndian(n / 256, k + 1) == BigEndian(n / 256 / 256, k) + [n / 256 % 256];
  }

  function Digits(n: nat): (d: bytes)
    ensures |d| >= 1 && forall i :: 0 <= i < |d| ==> 48 <= d[i] < 58
  {
    if n < 10 then [48 + n] else Digits(n / 10) + [48 + n % 10]
  }

  function DigitsValue(d: bytes): int {
    if d == [] then 0 else DigitsValue(d[..|d| - 1]) * 10 + d[|d| - 1] - 48
  }

  lemma {:induction false} DigitsBack(n: nat)
    ensures DigitsValue(Digits(n)) == n
    decreases n
  {
    var d := Digits(n);
    if n < 10 {
      assert d[..|d| - 1] == [];
    } else {
      assert d[..|d| - 1] == Digits(n / 10);
      DigitsBack(n / 10);
    }
  }

  /** `String(value)` of a big integer. */
  function Decimal(n: int): bytes {
    if n < 0 then [45] + Digits(-n) else Digits(n)
  }

  lemma DecimalInjective(n: int, m: int)
    requires Decimal(n) == Decimal(m)
    ensures n == m
  {
    DigitsBack(if n < 0 then -n else n);
    DigitsBack(if m < 0 then -m else m);
    assert Decimal(n)[0] == 45 <==> n < 0;
    assert Decimal(m)[0] == 45 <==> m < 0;
    if n < 0 { assert Digits(-n) == Decimal(n)[1..] && Digits(-m) == Decimal(m)[1..]; }
  }

  function Pow10(k: nat): (p: nat)
    ensures p > 0
  {
    if k == 0 then 1 else 10 * Pow10(k - 1)
  }

  /** ASCII digits without a leading zero; the digit `k` places from the right stands for ten to the `k`. */
  ghost predicate Spells(d: bytes, n: nat) {
    && d != [] && (d[0] == 48 ==> |d| == 1) && n < Pow10(|d|)
    && forall k :: 0 <= k < |d| ==> d[|d| - 1 - k] == 48 + n / Pow10(k) % 10
  }

  lemma TensDivide(n: nat, p: nat)
    requires p > 0
    ensures n / 10 / p == n / (10 * p)
  {
    var q := n / 10;
    assert q == q / p * p + q % p;
    QuotientIs(n, 10 * p, q / p, q % p * 10 + n % 10);
  }

  /** One more digit behind the digits of a tenth. */
  lemma DigitBehind(e: bytes, n: nat)
    requires Spells(e, n / 10) && n >= 10
    ensures Spells(e + [48 + n % 10], n)
  {
    hide Pow10;
    var d := e + [48 + n % 10];
    Tens(0);
    assert e[|e| - 1 - 0] == 48 + n / 10 / Pow10(0) % 10;
    Tens(|e|);
    forall k | 0 <= k < |d| ensures d[|d| - 1 - k] == 48 + n / Pow10(k) % 10 {
      if k > 0 {
        assert d[|d| - 1 - k] == e[|e| - 1 - (k - 1)];
        Tens(k - 1);
        TensDivide(n, Pow10(k - 1));
      }
    }
  }

  lemma Tens(k: nat)
    ensures Pow10(0) == 1 && Pow10(k + 1) == 10 * Pow10(k)
  {
  }

  lemma {:induction false} DigitsSpell(n: nat)
    ensures Spells(Digits(n), n)
    decreases n
  {
    if n < 10 {
      Tens(0);
    } else {
      DigitsSpell(n / 10);
      DigitBehind(Digits(n / 10), n);
    }
  }

  /** A time stamp is written as a minus sign, if it is negative, and its decimal digits. */
  lemma DecimalSpells(n: int)
    ensures n >= 0 ==> Spells(Decimal(n), n)
    ensures n < 0 ==> |Decimal(n)| > 1 && Decimal(n)[0] == 45 && Spells(Decimal(n)[1..], -n)
  {
    DigitsSpell(if n < 0 then -n else n);
    if n < 0 { assert Decimal(n)[1..] == Digits(-n); }
  }

  // ---------------------------------------------------------------- frames

  function Frame(b: bytes): bytes {
    U64(|b|) + b
  }

  lemma FrameInjective(a: bytes, r: bytes, b: bytes, s: bytes)
    requires |a| < WORD && |b| < WORD && Frame(a) + r == Frame(b) + s
    ensures a == b && r == s
  {
    hide U64;
    assert Frame(a) + r == U64(|a|) + (a + r) && Frame(b) + s == U64(|b|) + (b + s);
    SplitEqual(U64(|a|), a + r, U64(|b|), b + s);
    U64Injective(|a|, |b|);
    SplitEqual(a, r, b, s);
  }

  function FrameAll(pieces: seq<bytes>): bytes {
    if pieces == [] then [] else Frame(pieces[0]) + FrameAll(pieces[1..])
  }

  ghost predicate Short(pieces: seq<bytes>) {
    forall i :: 0 <= i < |pieces| ==> |pieces[i]| < WORD
  }

  lemma {:induction false} FrameAllInjective(a: seq<bytes>, r: bytes, b: seq<bytes>, s: bytes)
    requires Short(a) && Short(b) && |a| == |b| && FrameAll(a) + r == FrameAll(b) + s
    ensures a == b && r == s
    decreases |a|
  {
    hide U64;
    if a == [] {
      assert [] + r == r && [] + s == s;
    } else {
      assert FrameAll(a) + r == Frame(a[0]) + (FrameAll(a[1..]) + r);
      assert FrameAll(b) + s == Frame(b[0]) + (FrameAll(b[1..]) + s);
      FrameInjective(a[0], FrameAll(a[1..]) + r, b[0], FrameAll(b[1..]) + s);
      FrameAllInjective(a[1..], r, b[1..], s);
      assert a == [a[0]] + a[1..] && b == [b[0]] + b[1..];
    }
  }

  function FrameAllLength(pieces: seq<bytes>): nat {
    if pieces == [] then 0 else U64_BYTES + |pieces[0]| + FrameAllLength(pieces[1..])
  }

  // ---------------------------------------------------------------- one node

  function KindByte(node: Node): byte {
    match node
    case Directory(_, _, _, _) => 0
    case File(_, _, _) => 1
    case Symlink(_, _, _) => 2
  }

  function Stamps(m: Metadata): seq<bytes> {
    [Decimal(m.atimeNs), Decimal(m.mtimeNs), Decimal(m.ctimeNs), Decimal(m.birthtimeNs)]
  }

  function Header(node: Node): bytes {
    [KindByte(node)] + (U64(node.metadata.uid) + (U64(node.metadata.gid) + U64(node.metadata.mode)))
  }

  /** The rows of a directory: each framed name followed by the digest of its child. */
  function Rows(names: seq<Name>, child: map<Name, bytes>): bytes
    requires forall n :: n in names ==> n in child
  {
    if names == [] then [] else Frame(names[0]) + child[names[0]] + Rows(names[1..], child)
  }

  function Body(node: Node, names: seq<Name>, child: map<Name, bytes>): bytes
    requires forall n :: n in names ==> n in child
  {
    match PayloadOf(node)
    case Some(payload) => Frame(payload)
    case None => U64(|names|) + Rows(names, child)
  }

  /** The byte string hashed for a node whose sorted entry names and child digests are given. */
  function Preimage(node: Node, names: seq<Name>, child: map<Name, bytes>): bytes
    requires forall n :: n in names ==> n in child
  {
    Header(node) + (FrameAll(Stamps(node.metadata)) + Body(node, names, child))
  }

  /** Every number and length the digest writes for this node fits its eight bytes. */
  ghost predicate Representable(node: Node) {
    && node.metadata.uid < WORD && node.metadata.gid < WORD && node.metadata.mode < WORD
    && Short(Stamps(node.metadata))
    && match PayloadOf(node)
       case Some(payload) => |payload| < WORD
       case None => |node.entries| < WORD
  }

  lemma {:induction false} RowsInjective(
    a: seq<Name>, c: map<Name, bytes>, b: seq<Name>, d: map<Name, bytes>)
    requires |a| == |b|
    requires forall n :: n in a ==> n in c && |n| < WORD && |c[n]| == DIGEST_BYTES
    requires forall n :: n in b ==> n in d && |n| < WORD && |d[n]| == DIGEST_BYTES
    requires Rows(a, c) == Rows(b, d)
    ensures a == b && forall n :: n in a ==> c[n] == d[n]
    decreases |a|
  {
    hide U64;
    if a != [] {
      assert a[0] in a && b[0] in b;
      var ra, rb := Rows(a[1..], c), Rows(b[1..], d);
      assert Rows(a, c) == Frame(a[0]) + (c[a[0]] + ra);
      assert Rows(b, d) == Frame(b[0]) + (d[b[0]] + rb);
      FrameInjective(a[0], c[a[0]] + ra, b[0], d[b[0]] + rb);
      SplitEqual(c[a[0]], ra, d[b[0]], rb);
      RowsInjective(a[1..], c, b[1..], d);
      assert a == [a[0]] + a[1..] && b == [b[0]] + b[1..];
    }
  }

  lemma HeaderInjective(a: Node, b: Node)
    requires Representable(a) && Representable(b) && Header(a) == Header(b)
    ensures KindByte(a) == KindByte(b)
    ensures a.metadata.uid == b.metadata.uid && a.metadata.gid == b.metadata.gid && a.metadata.mode == b.metadata.mode
  {
    hide U64;
    var ma, mb := a.metadata, b.metadata;
    SplitEqual([KindByte(a)], U64(ma.uid) + (U64(ma.gid) + U64(ma.mode)), [KindByte(b)], U64(mb.uid) + (U64(mb.gid) + U64(mb.mode)));
    assert [KindByte(a)][0] == [KindByte(b)][0];
    SplitEqual(U64(ma.uid), U64(ma.gid) + U64(ma.mode), U64(mb.uid), U64(mb.gid) + U64(mb.mode));
    SplitEqual(U64(ma.gid), U64(ma.mode), U64(mb.gid), U64(mb.mode));
    U64Injective(ma.uid, mb.uid);
    U64Injective(ma.gid, mb.gid);
    U64Injective(ma.mode, mb.mode);
  }

  lemma StampsInjective(a: Metadata, b: Metadata)
    requires Stamps(a) == Stamps(b) && a.uid == b.uid && a.gid == b.gid && a.mode == b.mode
    ensures a == b
  {
    assert Stamps(a)[0] == Stamps(b)[0] && Stamps(a)[1] == Stamps(b)[1];
    assert Stamps(a)[2] == Stamps(b)[2] && Stamps(a)[3] == Stamps(b)[3];
    DecimalInjective(a.atimeNs, b.atimeNs);
    DecimalInjective(a.mtimeNs, b.mtimeNs);
    DecimalInjective(a.ctimeNs, b.ctimeNs);
    DecimalInjective(a.birthtimeNs, b.birthtimeNs);
  }

  /** Equal preimages come from the same content, the same names and the same child digests. */
  lemma PreimageInjective(
    a: Node, names: seq<Name>, child: map<Name, bytes>, b: Node, otherNames: seq<Name>, otherChild: map<Name, bytes>)
    requires Representable(a) && Representable(b)
    requires forall n :: n in names ==> n in child && |n| < WORD && |child[n]| == DIGEST_BYTES
    requires forall n :: n in otherNames ==> n in otherChild && |n| < WORD && |otherChild[n]| == DIGEST_BYTES
    requires |names| < WORD && |otherNames| < WORD
    requires Preimage(a, names, child) == Preimage(b, otherNames, otherChild)
    ensures SameContent(a, b)
    ensures a.Directory? ==> names == otherNames && forall n :: n in names ==> child[n] == otherChild[n]
  {
    hide U64;
    var sa, sb := Stamps(a.metadata), Stamps(b.metadata);
    var ba, bb := Body(a, names, child), Body(b, otherNames, otherChild);
    SplitEqual(Header(a), FrameAll(sa) + ba, Header(b), FrameAll(sb) + bb);
    HeaderInjective(a, b);
    FrameAllInjective(sa, ba, sb, bb);
    StampsInjective(a.metadata, b.metadata);
    if a.Directory? {
      SplitEqual(U64(|names|), Rows(names, child), U64(|otherNames|), Rows(otherNames, otherChild));
      U64Injective(|names|, |otherNames|);
      RowsInjective(names, child, otherNames, otherChild);
    } else {
      var pa, pb := PayloadOf(a).value, PayloadOf(b).value;
      assert Frame(pa) + [] == Frame(pa) && Frame(pb) + [] == Frame(pb);
      FrameInjective(pa, [], pb, []);
    }
  }

  // ---------------------------------------------------------------- the layout, by position

  /** A length in eight bytes and, right behind it, the bytes. */
  predicate FramedAt(b: bytes, at: nat, piece: bytes) {
    NumberAt(b, at, |piece|) && at + 8 + |piece| <= |b| && b[at + 8..at + 8 + |piece|] == piece
  }

  /** Each name framed, with the 32 bytes of its child's digest behind it, to the end of the bytes. */
  predicate RowsAt(b: bytes, at: nat, names: seq<Name>, child: map<Name, bytes>)
    requires forall n :: n in names ==> n in child
    decreases |names|
  {
    if names == [] then at == |b|
    else
      var next := at + 8 + |names[0]|;
      && FramedAt(b, at, names[0])
      && next + 32 <= |b| && b[next..next + 32] == child[names[0]]
      && RowsAt(b, next + 32, names[1..], child)
  }

  /** Where the bytes of a node stand: kind, owner, group and mode, the four time stamps, then its content. */
  ghost predicate NodeLaidOut(b: bytes, node: Node, names: seq<Name>, child: map<Name, bytes>)
    requires forall n :: n in names ==> n in child
  {
    var m := node.metadata;
    var modified := 25 + 8 + |Decimal(m.atimeNs)|;
    var changed := modified + 8 + |Decimal(m.mtimeNs)|;
    var born := changed + 8 + |Decimal(m.ctimeNs)|;
    var content := born + 8 + |Decimal(m.birthtimeNs)|;
    && b != [] && b[0] == (if node.Directory? then 0 else if node.File? then 1 else 2)
    && NumberAt(b, 1, m.uid) && NumberAt(b, 9, m.gid) && NumberAt(b, 17, m.mode)
    && FramedAt(b, 25, Decimal(m.atimeNs)) && FramedAt(b, modified, Decimal(m.mtimeNs))
    && FramedAt(b, changed, Decimal(m.ctimeNs)) && FramedAt(b, born, Decimal(m.birthtimeNs))
    && match node
       case File(_, data, _) => FramedAt(b, content, data) && |b| == content + 8 + |data|
       case Symlink(_, target, _) => FramedAt(b, content, target) && |b| == content + 8 + |target|
       case Directory(_, _, _, _) => NumberAt(b, content, |names|) && RowsAt(b, content + 8, names, child)
  }

  lemma NumberBehind(before: bytes, n: nat, rest: bytes)
    ensures NumberAt(before + (U64(n) + rest), |before|, n)
  {
    hide U64;
    U64Spells(n);
    assert (before + (U64(n) + rest))[|before|..|before| + 8] == U64(n) == U64(n)[0..8];
  }

  lemma FrameBehind(before: bytes, piece: bytes, rest: bytes)
    ensures FramedAt(before + (Frame(piece) + rest), |before|, piece)
  {
    hide U64, NumberAt;
    var b := before + (Frame(piece) + rest);
    assert b == before + (U64(|piece|) + (piece + rest));
    NumberBehind(before, |piece|, piece + rest);
    assert b[|before| + 8..|before| + 8 + |piece|] == piece;
  }

  lemma {:induction false} RowsBehind(before: bytes, names: seq<Name>, child: map<Name, bytes>)
    requires forall n :: n in names ==> n in child && |child[n]| == DIGEST_BYTES
    ensures RowsAt(before + Rows(names, child), |before|, names, child)
    decreases |names|
  {
    hide FramedAt, Frame;
    var b := before + Rows(names, child);
    if names != [] {
      assert names[0] in names;
      var frame, digest, rest := Frame(names[0]), child[names[0]], Rows(names[1..], child);
      assert b == before + (frame + (digest + rest)) && b == (before + frame + digest) + rest;
      FrameBehind(before, names[0], digest + rest);
      FrameLength(names[0]);
      assert b[|before + frame|..|before + frame| + 32] == digest;
      RowsBehind(before + frame + digest, names[1..], child);
    }
  }

  lemma FrameLength(piece: bytes)
    ensures |Frame(piece)| == 8 + |piece|
  {
  }

  lemma FourFrames(a: bytes, b: bytes, c: bytes, d: bytes)
    ensures FrameAll([a, b, c, d]) == Frame(a) + (Frame(b) + (Frame(c) + Frame(d)))
  {
    hide Frame;
    assert [a, b, c, d][1..] == [b, c, d] && [b, c, d][1..] == [c, d] && [c, d][1..] == [d] && [d][1..] == [];
    assert FrameAll([d]) == Frame(d) + FrameAll([]) == Frame(d);
    assert FrameAll([c, d]) == Frame(c) + Frame(d);
  }

  lemma HeaderLaidOut(node: Node, rest: bytes)
    ensures var b := Header(node) + rest;
            && |Header(node)| == 25 && b != []
            && b[0] == (if node.Directory? then 0 else if node.File? then 1 else 2)
            && NumberAt(b, 1, node.metadata.uid) && NumberAt(b, 9, node.metadata.gid)
            && NumberAt(b, 17, node.metadata.mode)
  {
    hide U64, NumberAt;
    var kind, uid, gid, mode :=
      [KindByte(node)], U64(node.metadata.uid), U64(node.metadata.gid), U64(node.metadata.mode);
    var b := Header(node) + rest;
    assert b == kind + (uid + (gid + mode + rest));
    assert b == (kind + uid) + (gid + (mode + rest));
    assert b == (kind + uid + gid) + (mode + rest);
    NumberBehind(kind, node.metadata.uid, gid + mode + rest);
    NumberBehind(kind + uid, node.metadata.gid, mode + rest);
    NumberBehind(kind + uid + gid, node.metadata.mode, rest);
  }

  lemma StampsLaidOut(before: bytes, m: Metadata, rest: bytes)
    ensures var b := before + (FrameAll(Stamps(m)) + rest);
            var modified := |before| + 8 + |Decimal(m.atimeNs)|;
            var changed := modified + 8 + |Decimal(m.mtimeNs)|;
            var born := changed + 8 + |Decimal(m.ctimeNs)|;
            && FramedAt(b, |before|, Decimal(m.atimeNs)) && FramedAt(b, modified, Decimal(m.mtimeNs))
            && FramedAt(b, changed, Decimal(m.ctimeNs)) && FramedAt(b, born, Decimal(m.birthtimeNs))
            && |FrameAll(Stamps(m))| == born + 8 + |Decimal(m.birthtimeNs)| - |before|
  {
    hide Frame, FramedAt, Decimal;
    var w, x, y, z := Decimal(m.atimeNs), Decimal(m.mtimeNs), Decimal(m.ctimeNs), Decimal(m.birthtimeNs);
    FourFrames(w, x, y, z);
    FrameLength(w);
    FrameLength(x);
    FrameLength(y);
    FrameLength(z);
    var b := before + (FrameAll(Stamps(m)) + rest);
    var f, g, h := before + Frame(w), before + Frame(w) + Frame(x), before + Frame(w) + Frame(x) + Frame(y);
    assert b == before + (Frame(w) + (Frame(x) + Frame(y) + Frame(z) + rest));
    assert b == f + (Frame(x) + (Frame(y) + Frame(z) + rest));
    assert b == g + (Frame(y) + (Frame(z) + rest));
    assert b == h + (Frame(z) + rest);
    FrameBehind(before, w, Frame(x) + Frame(y) + Frame(z) + rest);
    FrameBehind(f, x, Frame(y) + Frame(z) + rest);
    FrameBehind(g, y, Frame(z) + rest);
    FrameBehind(h, z, rest);
  }

  /** The bytes hashed for a node stand where the persisted contract puts them. */
  lemma PreimageLaidOut(node: Node, names: seq<Name>, child: map<Name, bytes>)
    requires forall n :: n in names ==> n in child && |child[n]| == DIGEST_BYTES
    ensures NodeLaidOut(Preimage(node, names, child), node, names, child)
  {
    hide U64, NumberAt, FramedAt, Frame, FrameAll, Stamps, Decimal, Rows, RowsAt, Header;
    var b, head, stamps, body :=
      Preimage(node, names, child), Header(node), FrameAll(Stamps(node.metadata)), Body(node, names, child);
    HeaderLaidOut(node, stamps + body);
    StampsLaidOut(head, node.metadata, body);
    var before := head + stamps;
    assert b == before + body;
    match node
    case File(_, data, _) =>
      FrameBehind(before, data, []);
      FrameLength(data);
      assert b == before + (Frame(data) + []);
    case Symlink(_, target, _) =>
      FrameBehind(before, target, []);
      FrameLength(target);
      assert b == before + (Frame(target) + []);
    case Directory(_, _, _, _) =>
      NumberBehind(before, |names|, Rows(names, child));
      RowsBehind(before + U64(|names|), names, child);
      assert b == (before + U64(|names|)) + Rows(names, child);
  }

  // ---------------------------------------------------------------- planned lengths

  function RowsLength(names: seq<Name>): nat {
    if names == [] then 0 else U64_BYTES + |names[0]| + DIGEST_BYTES + RowsLength(names[1..])
  }

  function BodyLength(node: Node, names: seq<Name>): nat {
    match PayloadOf(node)
    case Some(payload) => U64_BYTES + |payload|
    case None => U64_BYTES + RowsLength(names)
  }

  /** `layout(node).length`: what the writer allocates. */
  function PlannedLength(node: Node, names: seq<Name>): nat {
    1 + 3 * U64_BYTES + FrameAllLength(Stamps(node.metadata)) + BodyLength(node, names)
  }

  lemma {:induction false} RowsMeasured(names: seq<Name>, child: map<Name, bytes>)
    requires forall n :: n in names ==> n in child && |child[n]| == DIGEST_BYTES
    ensures |Rows(names, child)| == RowsLength(names)
    decreases |names|
  {
    if names != [] {
      assert names[0] in names;
      RowsMeasured(names[1..], child);
    }
  }

  lemma {:induction false} FramesMeasured(pieces: seq<bytes>)
    ensures |FrameAll(pieces)| == FrameAllLength(pieces)
    decreases |pieces|
  {
    if pieces != [] { FramesMeasured(pieces[1..]); }
  }

  /** The planned length is exactly the number of bytes written. */
  lemma PlannedIsWritten(node: Node, names: seq<Name>, child: map<Name, bytes>)
    requires forall n :: n in names ==> n in child && |child[n]| == DIGEST_BYTES
    ensures |Preimage(node, names, child)| == PlannedLength(node, names)
  {
    FramesMeasured(Stamps(node.metadata));
    RowsMeasured(names, child);
  }

  // ---------------------------------------------------------------- the writers

  method PutU64(out: array<byte>, offset: nat, n: nat) returns (next: nat)
    requires offset + U64_BYTES <= out.Length
    modifies out
    ensures next == offset + U64_BYTES
    ensures out[..next] == old(out[..offset]) + U64(n)
  {
    hide U64;
    Put(out, offset, U64(n));
    return offset + U64_BYTES;
  }

  method PutFrame(out: array<byte>, offset: nat, b: bytes) returns (next: nat)
    requires offset + U64_BYTES + |b| <= out.Length
    modifies out
    ensures next == offset + U64_BYTES + |b|
    ensures out[..next] == old(out[..offset]) + Frame(b)
  {
    hide U64;
    var at := PutU64(out, offset, |b|);
    Put(out, at, b);
    return at + |b|;
  }

  lemma {:induction false} FrameAllSnoc(pieces: seq<bytes>, last: bytes)
    ensures FrameAll(pieces + [last]) == FrameAll(pieces) + Frame(last)
    ensures FrameAllLength(pieces + [last]) == FrameAllLength(pieces) + U64_BYTES + |last|
    decreases |pieces|
  {
    hide U64;
    if pieces == [] {
      assert pieces + [last] == [last] && [last][1..] == [];
    } else {
      assert (pieces + [last])[1..] == pieces[1..] + [last];
      FrameAllSnoc(pieces[1..], last);
    }
  }

  lemma {:induction false} FrameAllPrefix(pieces: seq<bytes>, i: nat)
    requires i <= |pieces|
    ensures FrameAllLength(pieces[..i]) <= FrameAllLength(pieces)
    ensures i < |pieces| ==> FrameAllLength(pieces[..i]) + U64_BYTES + |pieces[i]| <= FrameAllLength(pieces)
    decreases |pieces| - i
  {
    if i == |pieces| {
      assert pieces[..i] == pieces;
    } else {
      assert pieces[..i + 1] == pieces[..i] + [pieces[i]];
      FrameAllSnoc(pieces[..i], pieces[i]);
      FrameAllPrefix(pieces, i + 1);
    }
  }

  /** Frame each piece in turn at a moving offset. */
  method PutFrames(out: array<byte>, offset: nat, pieces: seq<bytes>) returns (next: nat)
    requires offset + FrameAllLength(pieces) <= out.Length
    modifies out
    ensures next == offset + FrameAllLength(pieces)
    ensures out[..next] == old(out[..offset]) + FrameAll(pieces)
  {
    hide U64;
    next := offset;
    for i := 0 to |pieces|
      invariant next == offset + FrameAllLength(pieces[..i]) <= out.Length
      invariant out[..next] == old(out[..offset]) + FrameAll(pieces[..i])
    {
      FrameAllPrefix(pieces, i);
      assert pieces[..i + 1] == pieces[..i] + [pieces[i]];
      FrameAllSnoc(pieces[..i], pieces[i]);
      next := PutFrame(out, next, pieces[i]);
    }
    assert pieces[..|pieces|] == pieces;
  }

  lemma {:induction false} RowsSnoc(names: seq<Name>, last: Name, child: map<Name, bytes>)
    requires forall n :: n in names + [last] ==> n in child
    ensures Rows(names + [last], child) == Rows(names, child) + Frame(last) + child[last]
    ensures RowsLength(names + [last]) == RowsLength(names) + U64_BYTES + |last| + DIGEST_BYTES
    decreases |names|
  {
    hide U64, Frame;
    if names == [] {
      assert names + [last] == [last] && [last][1..] == [];
    } else {
      assert (names + [last])[1..] == names[1..] + [last];
      RowsSnoc(names[1..], last, child);
      RowsRegroup(Frame(names[0]) + child[names[0]], Rows(names[1..], child), Frame(last), child[last]);
    }
  }

  lemma RowsRegroup(a: bytes, b: bytes, c: bytes, d: bytes)
    ensures a + (b + c + d) == (a + b) + c + d
  {
  }

  lemma {:induction false} RowsPrefix(names: seq<Name>, i: nat)
    requires i <= |names|
    ensures RowsLength(names[..i]) <= RowsLength(names)
    ensures i < |names| ==> RowsLength(names[..i]) + U64_BYTES + |names[i]| + DIGEST_BYTES <= RowsLength(names)
    decreases |names| - i
  {
    if i == |names| {
      assert names[..i] == names;
    } else {
      assert names[..i + 1] == names[..i] + [names[i]];
      RowsSnoc(names[..i], names[i], map n | n in names :: n);
      RowsPrefix(names, i + 1);
    }
  }

  lemma NoRows(child: map<Name, bytes>)
    ensures Rows([], child) == [] && RowsLength([]) == 0
  {
  }

  method PutRows(out: array<byte>, offset: nat, names: seq<Name>, child: map<Name, bytes>) returns (next: nat)
    requires offset + RowsLength(names) <= out.Length
    requires forall n :: n in names ==> n in child && |child[n]| == DIGEST_BYTES
    modifies out
    ensures next == offset + RowsLength(names)
    ensures out[..next] == old(out[..offset]) + Rows(names, child)
  {
    hide U64, Frame, Rows, RowsLength;
    next := offset;
    ghost var before := out[..offset];
    NoRows(child);
    for i := 0 to |names|
      invariant next == offset + RowsLength(names[..i]) <= out.Length
      invariant out[..next] == before + Rows(names[..i], child)
    {
      RowsPrefix(names, i);
      assert names[..i + 1] == names[..i] + [names[i]];
      RowsSnoc(names[..i], names[i], child);
      RowsRegroup(before, Rows(names[..i], child), Frame(names[i]), child[names[i]]);
      next := PutFrame(out, next, names[i]);
      Put(out, next, child[names[i]]);
      next := next + DIGEST_BYTES;
    }
    assert names[..|names|] == names;
  }

  method PutHeader(out: array<byte>, node: Node) returns (next: nat)
    requires out.Length >= 1 + 3 * U64_BYTES
    modifies out
    ensures next == 1 + 3 * U64_BYTES && out[..next] == Header(node)
  {
    hide U64;
    Put(out, 0, [KindByte(node)]);
    assert out[..1] == [KindByte(node)];
    var m := node.metadata;
    next := PutU64(out, 1, m.uid);
    next := PutU64(out, next, m.gid);
    next := PutU64(out, next, m.mode);
  }

  method PutBody(out: array<byte>, offset: nat, node: Node, names: seq<Name>, child: map<Name, bytes>) returns (next: nat)
    requires offset + BodyLength(node, names) <= out.Length
    requires forall n :: n in names ==> n in child && |child[n]| == DIGEST_BYTES
    modifies out
    ensures next == offset + BodyLength(node, names)
    ensures out[..next] == old(out[..offset]) + Body(node, names, child)
  {
    hide U64, Rows, RowsLength;
    match PayloadOf(node)
    case Some(payload) =>
      next := PutFrame(out, offset, payload);
    case None =>
      next := PutU64(out, offset, |names|);
      next := PutRows(out, next, names, child);
  }

  /** `preimage`: write a node into a buffer of the planned length. */
  method WritePreimage(node: Node, names: seq<Name>, child: map<Name, bytes>) returns (out: array<byte>)
    requires forall n :: n in names ==> n in child && |child[n]| == DIGEST_BYTES
    ensures fresh(out) && out[..] == Preimage(node, names, child) && out.Length == PlannedLength(node, names)
    ensures NodeLaidOut(out[..], node, names, child)
  {
    hide NodeLaidOut;
    hide Header, FrameAll, FrameAllLength, Body, RowsLength, Stamps;
    out := new byte[PlannedLength(node, names)](_ => 0);
    assert PlannedLength(node, names) ==
           1 + 3 * U64_BYTES + FrameAllLength(Stamps(node.metadata)) + BodyLength(node, names);
    var offset := PutHeader(out, node);
    offset := PutFrames(out, offset, Stamps(node.metadata));
    offset := PutBody(out, offset, node, names, child);
    assert out[..offset] == out[..];
    PreimageLaidOut(node, names, child);
  }
}
