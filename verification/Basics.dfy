/** Bytes, results and the image failures shared by every module. */
module Basics {

  type byte = b: int | 0 <= b < 256

  type bytes = seq<byte>

  datatype Option<+T> = None | Some(value: T)

  datatype Result<+T, +E> = Ok(value: T) | Err(error: E)

  /** The codes of `ImageFailure` that the codecs produce. */
  datatype Code = InvalidEncoding | InvalidStructure | LimitExceeded | UnsupportedVersion

  /** An image failure: its code and the field it names. */
  datatype Failure = Failure(code: Code, field: string)

  function Min(a: int, b: int): int { if a <= b then a else b }

  function Max(a: int, b: int): int { if a <= b then b else a }

  lemma QuotientIs(n: nat, d: nat, q: nat, r: nat)
    requires n == q * d + r && r < d
    ensures n / d == q && n % d == r
  {
    var k := n / d;
    assert n == k * d + n % d;
    assert k < q ==> (k + 1) * d <= q * d;
    assert q < k ==> (q + 1) * d <= k * d;
  }

  /** Concatenation of a sequence of pieces, in order. */
  function Flatten<T>(pieces: seq<seq<T>>): seq<T> {
    if pieces == [] then [] else pieces[0] + Flatten(pieces[1..])
  }

  lemma FlattenAppend<T>(left: seq<seq<T>>, right: seq<seq<T>>)
    ensures Flatten(left + right) == Flatten(left) + Flatten(right)
  {
    if left == [] {
      assert left + right == right;
    } else {
      assert (left + right)[1..] == left[1..] + right;
      FlattenAppend(left[1..], right);
    }
  }

  lemma FlattenSnoc<T>(pieces: seq<seq<T>>, last: seq<T>)
    ensures Flatten(pieces + [last]) == Flatten(pieces) + last
  {
    FlattenAppend(pieces, [last]);
    assert Flatten([last]) == last + Flatten([last][1..]);
  }

  /** Equal concatenations whose first parts have equal length agree part by part. */
  lemma SplitEqual<T>(a: seq<T>, b: seq<T>, c: seq<T>, d: seq<T>)
    requires a + b == c + d && |a| == |c|
    ensures a == c && b == d
  {
    assert a == (a + b)[..|a|] && c == (c + d)[..|c|];
    assert b == (a + b)[|a|..] && d == (c + d)[|c|..];
  }

  /** `out.set(piece, offset)`: overwrite a stretch of a buffer and leave the rest alone. */
  method Put(out: array<byte>, offset: nat, piece: bytes)
    requires offset + |piece| <= out.Length
    modifies out
    ensures out[..offset] == old(out[..offset])
    ensures out[..offset + |piece|] == old(out[..offset]) + piece
    ensures out[offset + |piece|..] == old(out[offset + |piece|..])
  {
    forall k | 0 <= k < |piece| { out[offset + k] := piece[k]; }
  }
}
