/**
 * The byte layout of RFC 4506, position by position: what `Xdr.Encode` writes is what the standard lays out, and a
 * message decodes to a value exactly when it is laid out for that value. Nothing here mentions how the codecs compute.
 */
module XdrLayout {
  import opened Basics
  import opened Xdr

  /** Four bytes, the most significant first (section 4.2 of RFC 4506). */
  predicate WordAt(b: bytes, at: nat, n: nat) {
    && at + 4 <= |b|
    && b[at] == n / 0x100_0000 % 256 && b[at + 1] == n / 0x1_0000 % 256
    && b[at + 2] == n / 0x100 % 256 && b[at + 3] == n % 256
  }

  /** Data up to the end of the bytes, padded with fewer than four zero bytes to a multiple of four. */
  predicate PaddedAt(b: bytes, at: nat, data: bytes) {
    && at + |data| <= |b| < at + |data| + 4 && (|b| - at) % 4 == 0
    && b[at..at + |data|] == data
    && forall i :: at + |data| <= i < |b| ==> b[i] == 0
  }

  /** The bytes hold the value as sections 4.1 to 4.14 of RFC 4506 lay it out, within the writer's own bounds. */
  ghost predicate LaidOut(s: Schema, v: Value, b: bytes)
    requires Typed(s, v)
    decreases s, 0
  {
    match s
    case UInt32 => 0 <= v.n < 0x1_0000_0000 && |b| == 4 && WordAt(b, 0, v.n)
    case Int32 =>
      -0x8000_0000 <= v.n < 0x8000_0000 && |b| == 4 && WordAt(b, 0, if v.n >= 0 then v.n else v.n + 0x1_0000_0000)
    case UInt64 =>
      && 0 <= v.n < 0x1_0000_0000_0000_0000 && |b| == 8
      && WordAt(b, 0, v.n / 0x1_0000_0000) && WordAt(b, 4, v.n % 0x1_0000_0000)
    case Boolean => b == if v.b then [0, 0, 0, 1] else [0, 0, 0, 0]
    case FixedOpaque(length) => length <= 9007199254740991 && |v.data| == length && PaddedAt(b, 0, v.data)
    case Opaque(limit) =>
      && (limit.Some? ==> |v.data| <= limit.value <= 9007199254740991)
      && |v.data| < 0x1_0000_0000 && WordAt(b, 0, |v.data|) && PaddedAt(b, 4, v.data)
    case FixedArray(item, count) =>
      count <= 9007199254740991 && |v.items| == count && ItemsLaidOut(item, v.items, b)
    case Array(item, most) =>
      && (most.Some? ==> |v.items| <= most.value <= 9007199254740991)
      && |v.items| < 0x1_0000_0000 && WordAt(b, 0, |v.items|) && ItemsLaidOut(item, v.items, b[4..])
    case Struct(fields) => FieldsLaidOut(fields, v.items, b)
  }

  /** The items one behind another, the first one first, with nothing between or after them. */
  ghost predicate ItemsLaidOut(item: Schema, values: seq<Value>, b: bytes)
    requires forall i :: 0 <= i < |values| ==> Typed(item, values[i])
    decreases item, |values| + 1
  {
    if values == [] then b == []
    else exists k :: 0 <= k <= |b| && LaidOut(item, values[0], b[..k]) && ItemsLaidOut(item, values[1..], b[k..])
  }

  /** The fields one behind another, in the order in which the structure declares them. */
  ghost predicate FieldsLaidOut(fields: Fields, values: seq<Value>, b: bytes)
    requires TypedFields(fields, values)
    decreases fields, 0
  {
    match fields
    case End => b == []
    case Field(_, schema, rest) =>
      exists k :: 0 <= k <= |b| && LaidOut(schema, values[0], b[..k]) && FieldsLaidOut(rest, values[1..], b[k..])
  }

  lemma WordSpelled(n: uint32, b: bytes)
    ensures |b| == 4 && WordAt(b, 0, n) <==> b == BigEndian(n)
  {
    assert n / 0x100_0000 % 256 == n / 0x100_0000;
  }

  lemma WordInFront(n: uint32, b: bytes)
    ensures WordAt(b, 0, n) <==> |b| >= 4 && b == BigEndian(n) + b[4..]
  {
    hide BigEndian;
    if |b| >= 4 {
      WordSpelled(n, b[..4]);
      assert b == b[..4] + b[4..];
      if b == BigEndian(n) + b[4..] { assert b[..4] == BigEndian(n); }
    }
  }

  lemma PaddedIs(b: bytes, at: nat, data: bytes)
    requires at <= |b|
    ensures PaddedAt(b, at, data) <==> b[at..] == data + Zeros(Padding(|data|))
  {
    var rest, end := b[at..], at + |data|;
    if PaddedAt(b, at, data) {
      assert |b| - end == Padding(|data|);
      assert rest == b[at..end] + b[end..];
      assert b[end..] == Zeros(Padding(|data|));
    }
    if rest == data + Zeros(Padding(|data|)) {
      assert b[at..end] == rest[..|data|] == data;
      forall i | end <= i < |b| ensures b[i] == 0 {
        assert b[i] == rest[i - at] == Zeros(Padding(|data|))[i - end];
      }
    }
  }

  lemma HyperSpelled(n: nat, b: bytes)
    requires n < TWO_32 * TWO_32
    ensures |b| == 8 && WordAt(b, 0, n / TWO_32) && WordAt(b, 4, n % TWO_32)
            <==> b == BigEndian(n / TWO_32) + BigEndian(n % TWO_32)
  {
    hide BigEndian;
    var high, low := BigEndian(n / TWO_32), BigEndian(n % TWO_32);
    if |b| == 8 {
      WordSpelled(n / TWO_32, b[..4]);
      WordSpelled(n % TWO_32, b[4..]);
      assert b == b[..4] + b[4..];
    }
    if b == high + low {
      assert b[..4] == high && b[4..] == low;
    }
  }

  lemma OpaqueSpelled(data: bytes, b: bytes)
    ensures |data| < TWO_32 && WordAt(b, 0, |data|) && PaddedAt(b, 4, data) <==> EncodeOpaque(data) == Ok(b)
  {
    hide BigEndian, WordAt, PaddedAt, Zeros;
    if |data| < TWO_32 {
      var encoded := BigEndian(|data|) + data + Zeros(Padding(|data|));
      assert encoded == BigEndian(|data|) + (data + Zeros(Padding(|data|)));
      WordInFront(|data|, b);
      if |b| >= 4 {
        PaddedIs(b, 4, data);
        if b == encoded { assert b[4..] == data + Zeros(Padding(|data|)); }
      }
    }
  }

  lemma LeafSpelled(s: Schema, v: Value, b: bytes)
    requires Typed(s, v) && IsLeaf(s)
    ensures Encode(s, v) == Ok(b) <==> LaidOut(s, v, b)
  {
    hide BigEndian, WordAt, PaddedAt, Zeros, EncodeOpaque;
    match s
    case UInt32 =>
      if 0 <= v.n < TWO_32 { WordSpelled(v.n, b); }
    case Int32 =>
      if -TWO_31 <= v.n < TWO_31 { WordSpelled(Wrapped(v.n), b); }
    case UInt64 =>
      if 0 <= v.n < TWO_32 * TWO_32 { HyperSpelled(v.n, b); }
    case Boolean =>
      assert BigEndian(0) == [0, 0, 0, 0] && BigEndian(1) == [0, 0, 0, 1] by { SmallWords(); }
    case FixedOpaque(_) =>
      PaddedIs(b, 0, v.data);
      assert b[0..] == b;
    case Opaque(_) =>
      OpaqueSpelled(v.data, b);
  }

  lemma SmallWords()
    ensures BigEndian(0) == [0, 0, 0, 0] && BigEndian(1) == [0, 0, 0, 1]
  {
  }

  lemma CountSpelled(count: uint32, body: Result<bytes, Error>, b: bytes)
    ensures |b| >= 4 && WordAt(b, 0, count) && body == Ok(b[4..])
            <==> body.Ok? && b == BigEndian(count) + body.value
  {
    hide BigEndian, WordAt;
    WordInFront(count, b);
    if body.Ok? && b == BigEndian(count) + body.value { assert b[4..] == body.value; }
  }

  /** Main result: the encoding of a value is the one byte string that the standard lays out for it, if there is one. */
  lemma {:induction false} EncodeLaidOut(s: Schema, v: Value, b: bytes)
    requires Typed(s, v)
    ensures Encode(s, v) == Ok(b) <==> LaidOut(s, v, b)
    decreases s, 0
  {
    if IsLeaf(s) {
      LeafSpelled(s, v, b);
    } else {
      hide BigEndian, WordAt, EncodeItems, EncodeFields, ItemsLaidOut, FieldsLaidOut;
      match s
      case FixedArray(item, _) => ItemsSpelled(item, v.items, b);
      case Array(item, _) =>
        if |v.items| < TWO_32 { CountSpelled(|v.items|, EncodeItems(item, v.items), b); }
        if |b| >= 4 { ItemsSpelled(item, v.items, b[4..]); } else { WordNeedsFour(b, |v.items|); }
      case Struct(fields) => FieldsSpelled(fields, v.items, b);
    }
  }

  lemma WordNeedsFour(b: bytes, n: nat)
    ensures WordAt(b, 0, n) ==> |b| >= 4
  {
  }

  lemma {:induction false} ItemsSpelled(item: Schema, values: seq<Value>, b: bytes)
    requires forall i :: 0 <= i < |values| ==> Typed(item, values[i])
    ensures EncodeItems(item, values) == Ok(b) <==> ItemsLaidOut(item, values, b)
    decreases item, |values| + 1
  {
    hide Encode, Typed, LaidOut;
    if values != [] {
      if EncodeItems(item, values) == Ok(b) {
        var first := Encode(item, values[0]).value;
        var k := |first|;
        assert b[..k] == first && b[k..] == EncodeItems(item, values[1..]).value;
        EncodeLaidOut(item, values[0], b[..k]);
        ItemsSpelled(item, values[1..], b[k..]);
      }
      if ItemsLaidOut(item, values, b) {
        var k :| 0 <= k <= |b| && LaidOut(item, values[0], b[..k]) && ItemsLaidOut(item, values[1..], b[k..]);
        EncodeLaidOut(item, values[0], b[..k]);
        ItemsSpelled(item, values[1..], b[k..]);
        assert b == b[..k] + b[k..];
      }
    }
  }

  lemma {:induction false} FieldsSpelled(fields: Fields, values: seq<Value>, b: bytes)
    requires TypedFields(fields, values)
    ensures EncodeFields(fields, values) == Ok(b) <==> FieldsLaidOut(fields, values, b)
    decreases fields, 0
  {
    hide Encode, Typed, LaidOut;
    match fields
    case End =>
    case Field(_, schema, rest) =>
      if EncodeFields(fields, values) == Ok(b) {
        var first := Encode(schema, values[0]).value;
        var k := |first|;
        assert b[..k] == first && b[k..] == EncodeFields(rest, values[1..]).value;
        EncodeLaidOut(schema, values[0], b[..k]);
        FieldsSpelled(rest, values[1..], b[k..]);
      }
      if FieldsLaidOut(fields, values, b) {
        var k :| 0 <= k <= |b| && LaidOut(schema, values[0], b[..k]) && FieldsLaidOut(rest, values[1..], b[k..]);
        EncodeLaidOut(schema, values[0], b[..k]);
        FieldsSpelled(rest, values[1..], b[k..]);
        assert b == b[..k] + b[k..];
      }
  }

  /** Main result: a message decodes to a value exactly when it is laid out for the value and the limits admit it. */
  lemma DecodeLaidOut(s: Schema, limits: Limits, message: bytes, v: Value)
    ensures Decode(s, limits, message) == Ok(v) <==>
            LimitsOk(limits) && Typed(s, v) && Admits(s, limits, v) && LaidOut(s, v, message)
  {
    hide Encode, Parse, Admits, Typed, LaidOut;
    if Decode(s, limits, message) == Ok(v) {
      EncodeParse(s, limits, message);
      assert message[..|message|] == message;
      EncodeLaidOut(s, v, message);
    }
    if LimitsOk(limits) && Typed(s, v) && Admits(s, limits, v) && LaidOut(s, v, message) {
      EncodeLaidOut(s, v, message);
      ParseEncode(s, limits, v, []);
      assert message + [] == message;
    }
  }
}
