/**
 * XDR codecs (`xdr-effect-proposal.ts`) against RFC 4506: integers (4.1, 4.2, 4.5), booleans (4.4), opaque data (4.9,
 * 4.10), arrays (4.12, 4.13) and structures (4.14). `Encode` lays the standard's format out and `Parse` reads it; each
 * undoes the other. A codec is a schema that both interpret.
 */
module Xdr {
  import opened Basics

  /** A codec; `Opaque` and `Array` may bring their own maximum. */
  datatype Schema =
    | UInt32 | Int32 | UInt64 | Boolean
    | FixedOpaque(length: int)
    | Opaque(limit: Option<int>)
    | FixedArray(item: Schema, count: int)
    | Array(item: Schema, most: Option<int>)
    | Struct(fields: Fields)

  datatype Fields = End | Field(name: string, schema: Schema, rest: Fields)

  /** What a codec reads and writes. A structure holds its fields' values in order. */
  datatype Value = Number(n: int) | Truth(b: bool) | Data(data: bytes) | Items(items: seq<Value>)

  datatype Limits = Limits(maxOpaqueBytes: int, maxStringBytes: int, maxArrayElements: int)

  datatype Error =
    | InvalidOpaqueLimit | InvalidStringLimit | InvalidArrayLimit | Truncated | InvalidFixedOpaqueLength | NonZeroPadding
    | OpaqueTooLong | TrailingBytes | InvalidBoolean | InvalidFixedArrayLength | ArrayTooLong
    | OutOfRange | LengthMismatch

  const MAX_SAFE_INTEGER := 9007199254740991
  const TWO_32 := 0x1_0000_0000
  const TWO_31 := 0x8000_0000

  predicate ValidSize(n: int) { 0 <= n <= MAX_SAFE_INTEGER }

  function Padding(n: nat): nat { (4 - n % 4) % 4 }

  // ---------------------------------------------------------------- big-endian integers

  type uint32 = n: int | 0 <= n < TWO_32

  function BigEndian(n: uint32): (r: bytes)
    ensures |r| == 4
  {
    [n / 0x100_0000, n / 0x1_0000 % 0x100, n / 0x100 % 0x100, n % 0x100]
  }

  function Unsigned(b: bytes): (n: uint32)
    requires |b| == 4
  {
    ((b[0] as int * 256 + b[1] as int) * 256 + b[2] as int) * 256 + b[3] as int
  }

  lemma BigEndianBack(n: uint32)
    ensures Unsigned(BigEndian(n)) == n
  {
    var high := n / 0x1_0000;
    assert n / 0x100_0000 == high / 256 && high == high / 256 * 256 + high % 256;
    var upper := n / 0x100;
    assert high == upper / 256 && upper == high * 256 + upper % 256;
    assert n == upper * 256 + n % 256;
  }

  lemma UnsignedBack(b: bytes)
    requires |b| == 4
    ensures BigEndian(Unsigned(b)) == b
  {
    var top: int := b[0] as int;
    var high: int := top * 256 + b[1] as int;
    var upper: int := high * 256 + b[2] as int;
    var n: int := upper * 256 + b[3] as int;
    assert n / 256 == upper && n % 256 == b[3] as int;
    assert upper / 256 == high && upper % 256 == b[2] as int;
    assert high / 256 == top && high % 256 == b[1] as int;
    assert n / 0x1_0000 == high && n / 0x100_0000 == top;
  }

  /** `getInt32`: two's complement. */
  function Signed(n: uint32): int { if n < TWO_31 then n else n - TWO_32 }

  /** `value >>> 0`. */
  function Wrapped(n: int): uint32 { n % TWO_32 }

  lemma SignedWraps(n: int)
    ensures -TWO_31 <= n < TWO_31 ==> Signed(Wrapped(n)) == n
    ensures 0 <= n < TWO_32 ==> Wrapped(Signed(n)) == n && -TWO_31 <= Signed(n) < TWO_31
  {
  }

  function Zeros(n: nat): (r: bytes)
    ensures |r| == n && forall i :: 0 <= i < n ==> r[i] == 0
  {
    seq(n, _ => 0)
  }

  predicate AllZero(b: bytes) { forall i :: 0 <= i < |b| ==> b[i] == 0 }

  // ---------------------------------------------------------------- writing

  /** The values a codec's type admits. */
  predicate Typed(s: Schema, v: Value)
    decreases s, 0
  {
    match s
    case UInt32 => v.Number?
    case Int32 => v.Number?
    case UInt64 => v.Number?
    case Boolean => v.Truth?
    case FixedOpaque(_) => v.Data?
    case Opaque(_) => v.Data?
    case FixedArray(item, _) => v.Items? && forall i :: 0 <= i < |v.items| ==> Typed(item, v.items[i])
    case Array(item, _) => v.Items? && forall i :: 0 <= i < |v.items| ==> Typed(item, v.items[i])
    case Struct(fields) => v.Items? && TypedFields(fields, v.items)
  }

  predicate TypedFields(fields: Fields, values: seq<Value>)
    decreases fields, 0
  {
    match fields
    case End => values == []
    case Field(_, schema, rest) => values != [] && Typed(schema, values[0]) && TypedFields(rest, values[1..])
  }

  function EncodeOpaque(data: bytes): Result<bytes, Error> {
    if |data| >= TWO_32 then Err(OutOfRange)
    else Ok(BigEndian(|data|) + data + Zeros(Padding(|data|)))
  }

  /** The bytes of a value, as RFC 4506 lays them out, or why the writer refuses it. */
  function Encode(s: Schema, v: Value): Result<bytes, Error>
    requires Typed(s, v)
    decreases s, 0
  {
    match s
    case UInt32 => if 0 <= v.n < TWO_32 then Ok(BigEndian(v.n)) else Err(OutOfRange)
    case Int32 => if -TWO_31 <= v.n < TWO_31 then Ok(BigEndian(Wrapped(v.n))) else Err(OutOfRange)
    case UInt64 => if 0 <= v.n < TWO_32 * TWO_32 then Ok(BigEndian(v.n / TWO_32) + BigEndian(v.n % TWO_32)) else Err(OutOfRange)
    case Boolean => Ok(BigEndian(if v.b then 1 else 0))
    case FixedOpaque(length) =>
      if !ValidSize(length) || |v.data| != length then Err(LengthMismatch)
      else Ok(v.data + Zeros(Padding(|v.data|)))
    case Opaque(limit) =>
      if limit.Some? && !ValidSize(limit.value) then Err(InvalidOpaqueLimit)
      else if limit.Some? && |v.data| > limit.value then Err(OpaqueTooLong)
      else EncodeOpaque(v.data)
    case FixedArray(item, count) =>
      if !ValidSize(count) || |v.items| != count then Err(LengthMismatch) else EncodeItems(item, v.items)
    case Array(item, most) =>
      if most.Some? && (!ValidSize(most.value) || |v.items| > most.value) then Err(ArrayTooLong)
      else if |v.items| >= TWO_32 then Err(OutOfRange)
      else
        (match EncodeItems(item, v.items)
         case Err(e) => Err(e)
         case Ok(rest) => Ok(BigEndian(|v.items|) + rest))
    case Struct(fields) => EncodeFields(fields, v.items)
  }

  function EncodeItems(item: Schema, values: seq<Value>): Result<bytes, Error>
    requires forall i :: 0 <= i < |values| ==> Typed(item, values[i])
    decreases item, |values| + 1
  {
    if values == [] then Ok([])
    else
      match Encode(item, values[0])
      case Err(e) => Err(e)
      case Ok(first) =>
        match EncodeItems(item, values[1..])
        case Err(e) => Err(e)
        case Ok(rest) => Ok(first + rest)
  }

  function EncodeFields(fields: Fields, values: seq<Value>): Result<bytes, Error>
    requires TypedFields(fields, values)
    decreases fields, 0
  {
    match fields
    case End => Ok([])
    case Field(_, schema, rest) =>
      match Encode(schema, values[0])
      case Err(e) => Err(e)
      case Ok(first) =>
        match EncodeFields(rest, values[1..])
        case Err(e) => Err(e)
        case Ok(more) => Ok(first + more)
  }

  // ---------------------------------------------------------------- reading

  /** A value and how many bytes it took. */
  datatype Took = Took(value: Value, width: nat)

  function TakeWord(input: bytes): Result<uint32, Error> {
    if |input| < 4 then Err(Truncated) else Ok(Unsigned(input[..4]))
  }

  function ParseFixed(length: int, input: bytes): Result<Took, Error> {
    if !ValidSize(length) then Err(InvalidFixedOpaqueLength)
    else if !ValidSize(length + Padding(length)) || length + Padding(length) > |input| then Err(Truncated)
    else if !AllZero(input[length..length + Padding(length)]) then Err(NonZeroPadding)
    else Ok(Took(Data(input[..length]), length + Padding(length)))
  }

  function ParseOpaque(limits: Limits, limit: int, input: bytes): Result<Took, Error> {
    if !ValidSize(limit) then Err(InvalidOpaqueLimit)
    else if |input| < 4 then Err(Truncated)
    else
      var length := Unsigned(input[..4]);
      var width := 4 + length + Padding(length);
      if length > limit || length > limits.maxOpaqueBytes then Err(OpaqueTooLong)
      else if width > |input| then Err(Truncated)
      else if !AllZero(input[4 + length..width]) then Err(NonZeroPadding)
      else Ok(Took(Data(input[4..4 + length]), width))
  }

  /** Read one value from the front of the input. */
  function Parse(s: Schema, limits: Limits, input: bytes): (r: Result<Took, Error>)
    ensures r.Ok? ==> r.value.width <= |input|
    decreases s, 0
  {
    match s
    case UInt32 =>
      (match TakeWord(input) case Err(e) => Err(e) case Ok(n) => Ok(Took(Number(n), 4)))
    case Int32 =>
      (match TakeWord(input) case Err(e) => Err(e) case Ok(n) => Ok(Took(Number(Signed(n)), 4)))
    case UInt64 =>
      if |input| < 8 then Err(Truncated)
      else Ok(Took(Number(Unsigned(input[..4]) * TWO_32 + Unsigned(input[4..8])), 8))
    case Boolean =>
      (match TakeWord(input)
       case Err(e) => Err(e)
       case Ok(n) => if n > 1 then Err(InvalidBoolean) else Ok(Took(Truth(n == 1), 4)))
    case FixedOpaque(length) => ParseFixed(length, input)
    case Opaque(limit) => ParseOpaque(limits, if limit.Some? then limit.value else limits.maxOpaqueBytes, input)
    case FixedArray(item, count) =>
      if !ValidSize(count) || count > limits.maxArrayElements then Err(InvalidFixedArrayLength)
      else ParseItems(item, count, limits, input)
    case Array(item, most) =>
      var limit := if most.Some? then most.value else limits.maxArrayElements;
      if !ValidSize(limit) then Err(InvalidArrayLimit)
      else
        (match TakeWord(input)
         case Err(e) => Err(e)
         case Ok(count) =>
           if count > limit || count > limits.maxArrayElements then Err(ArrayTooLong)
           else
             match ParseItems(item, count, limits, input[4..])
             case Err(e) => Err(e)
             case Ok(r) => Ok(Took(r.value, 4 + r.width)))
    case Struct(fields) => ParseFields(fields, limits, input)
  }

  function ParseItems(item: Schema, count: nat, limits: Limits, input: bytes): (r: Result<Took, Error>)
    ensures r.Ok? ==> r.value.width <= |input| && r.value.value.Items? && |r.value.value.items| == count
    decreases item, count + 1
  {
    if count == 0 then Ok(Took(Items([]), 0))
    else
      match Parse(item, limits, input)
      case Err(e) => Err(e)
      case Ok(first) =>
        match ParseItems(item, count - 1, limits, input[first.width..])
        case Err(e) => Err(e)
        case Ok(rest) => Ok(Took(Items([first.value] + rest.value.items), first.width + rest.width))
  }

  function ParseFields(fields: Fields, limits: Limits, input: bytes): (r: Result<Took, Error>)
    ensures r.Ok? ==> r.value.width <= |input| && r.value.value.Items?
    decreases fields, 0
  {
    match fields
    case End => Ok(Took(Items([]), 0))
    case Field(_, schema, rest) =>
      match Parse(schema, limits, input)
      case Err(e) => Err(e)
      case Ok(first) =>
        match ParseFields(rest, limits, input[first.width..])
        case Err(e) => Err(e)
        case Ok(more) => Ok(Took(Items([first.value] + more.value.items), first.width + more.width))
  }

  predicate LimitsOk(limits: Limits) {
    ValidSize(limits.maxOpaqueBytes) && ValidSize(limits.maxStringBytes) && ValidSize(limits.maxArrayElements)
  }

  function LimitsError(limits: Limits): Option<Error> {
    if !ValidSize(limits.maxOpaqueBytes) then Some(InvalidOpaqueLimit)
    else if !ValidSize(limits.maxStringBytes) then Some(InvalidStringLimit)
    else if !ValidSize(limits.maxArrayElements) then Some(InvalidArrayLimit)
    else None
  }

  /** `decode`: the whole input must be one value. */
  function Decode(s: Schema, limits: Limits, input: bytes): Result<Value, Error> {
    if LimitsError(limits).Some? then Err(LimitsError(limits).value)
    else
      match Parse(s, limits, input)
      case Err(e) => Err(e)
      case Ok(r) => if r.width == |input| then Ok(r.value) else Err(TrailingBytes)
  }

  // ---------------------------------------------------------------- what the decode limits admit

  /** The lengths in a value that a reader with these limits lets through. */
  predicate Admits(s: Schema, limits: Limits, v: Value)
    requires Typed(s, v)
    decreases s, 0
  {
    match s
    case UInt32 => true
    case Int32 => true
    case UInt64 => true
    case Boolean => true
    case FixedOpaque(length) => ValidSize(length + Padding(|v.data|))
    case Opaque(_) => |v.data| <= limits.maxOpaqueBytes
    case FixedArray(item, count) =>
      count <= limits.maxArrayElements && forall i :: 0 <= i < |v.items| ==> Admits(item, limits, v.items[i])
    case Array(item, _) =>
      |v.items| <= limits.maxArrayElements && forall i :: 0 <= i < |v.items| ==> Admits(item, limits, v.items[i])
    case Struct(fields) => AdmitsFields(fields, limits, v.items)
  }

  predicate AdmitsFields(fields: Fields, limits: Limits, values: seq<Value>)
    requires TypedFields(fields, values)
    decreases fields, 0
  {
    match fields
    case End => true
    case Field(_, schema, rest) => Admits(schema, limits, values[0]) && AdmitsFields(rest, limits, values[1..])
  }

  // ---------------------------------------------------------------- reading what was written

  lemma WordBack(n: uint32, rest: bytes)
    ensures TakeWord(BigEndian(n) + rest) == Ok(n) && (BigEndian(n) + rest)[4..] == rest
  {
    BigEndianBack(n);
    assert (BigEndian(n) + rest)[..4] == BigEndian(n);
  }

  lemma OpaqueBack(limits: Limits, limit: int, data: bytes, rest: bytes)
    requires ValidSize(limit) && EncodeOpaque(data).Ok? && |data| <= limit && |data| <= limits.maxOpaqueBytes
    ensures ParseOpaque(limits, limit, EncodeOpaque(data).value + rest) == Ok(Took(Data(data), |EncodeOpaque(data).value|))
  {
    var n, pad := |data|, Zeros(Padding(|data|));
    var input := EncodeOpaque(data).value + rest;
    assert input == BigEndian(n) + (data + pad + rest);
    WordBack(n, data + pad + rest);
    assert input[4..4 + n] == data && input[4 + n..4 + n + |pad|] == pad;
  }

  lemma FixedBack(length: int, data: bytes, rest: bytes)
    requires ValidSize(length + Padding(|data|)) && |data| == length
    ensures ParseFixed(length, data + Zeros(Padding(length)) + rest) == Ok(Took(Data(data), length + Padding(length)))
  {
    var pad := Zeros(Padding(length));
    var input := data + pad + rest;
    assert input[..length] == data && input[length..length + |pad|] == pad;
  }

  lemma HyperBack(n: int, rest: bytes)
    requires 0 <= n < TWO_32 * TWO_32
    ensures Parse(UInt64, Limits(0, 0, 0), BigEndian(n / TWO_32) + BigEndian(n % TWO_32) + rest) == Ok(Took(Number(n), 8))
  {
    var a, b := BigEndian(n / TWO_32), BigEndian(n % TWO_32);
    BigEndianBack(n / TWO_32);
    BigEndianBack(n % TWO_32);
    assert (a + b + rest)[..4] == a && (a + b + rest)[4..8] == b;
    hide BigEndian, Unsigned;
  }

  predicate IsLeaf(s: Schema) { !s.FixedArray? && !s.Array? && !s.Struct? }

  lemma LeafBack(s: Schema, limits: Limits, v: Value, rest: bytes)
    requires LimitsOk(limits) && Typed(s, v) && Encode(s, v).Ok? && Admits(s, limits, v) && IsLeaf(s)
    ensures Parse(s, limits, Encode(s, v).value + rest) == Ok(Took(v, |Encode(s, v).value|))
  {
    hide BigEndian, Unsigned, Zeros, AllZero, EncodeOpaque, ParseOpaque, ParseFixed, TakeWord;
    match s
    case UInt32 => WordBack(v.n, rest);
    case Int32 => WordBack(Wrapped(v.n), rest); SignedWraps(v.n);
    case UInt64 => HyperBack(v.n, rest);
    case Boolean => WordBack(if v.b then 1 else 0, rest);
    case FixedOpaque(length) => FixedBack(length, v.data, rest);
    case Opaque(limit) => OpaqueBack(limits, if limit.Some? then limit.value else limits.maxOpaqueBytes, v.data, rest);
  }

  lemma CountedBack(item: Schema, most: Option<int>, limits: Limits, values: seq<Value>, body: bytes, rest: bytes)
    requires LimitsOk(limits) && |values| < TWO_32 && |values| <= limits.maxArrayElements
    requires most.Some? ==> ValidSize(most.value) && |values| <= most.value
    requires ParseItems(item, |values|, limits, body + rest) == Ok(Took(Items(values), |body|))
    ensures Parse(Array(item, most), limits, BigEndian(|values|) + body + rest) == Ok(Took(Items(values), 4 + |body|))
  {
    hide BigEndian, TakeWord, ParseItems;
    WordBack(|values|, body + rest);
    assert BigEndian(|values|) + body + rest == BigEndian(|values|) + (body + rest);
  }

  /** Main result, one way: a written value reads back, whatever follows it, when the limits admit it. */
  lemma {:induction false} ParseEncode(s: Schema, limits: Limits, v: Value, rest: bytes)
    requires LimitsOk(limits) && Typed(s, v) && Encode(s, v).Ok? && Admits(s, limits, v)
    ensures Parse(s, limits, Encode(s, v).value + rest) == Ok(Took(v, |Encode(s, v).value|))
    decreases s, 0
  {
    if IsLeaf(s) {
      LeafBack(s, limits, v, rest);
    } else {
      hide BigEndian, EncodeItems, ParseItems, EncodeFields, ParseFields;
      match s
      case FixedArray(item, count) => ItemsBack(item, limits, v.items, rest);
      case Array(item, most) =>
        ItemsBack(item, limits, v.items, rest);
        CountedBack(item, most, limits, v.items, EncodeItems(item, v.items).value, rest);
      case Struct(fields) => FieldsBack(fields, limits, v.items, rest);
    }
  }

  lemma {:induction false} ItemsBack(item: Schema, limits: Limits, values: seq<Value>, rest: bytes)
    requires LimitsOk(limits) && forall i :: 0 <= i < |values| ==> Typed(item, values[i]) && Admits(item, limits, values[i])
    requires EncodeItems(item, values).Ok?
    ensures ParseItems(item, |values|, limits, EncodeItems(item, values).value + rest) ==
            Ok(Took(Items(values), |EncodeItems(item, values).value|))
    decreases item, |values| + 1
  {
    hide *;
    if values == [] {
      NoItems(item, limits, rest);
    } else {
      ItemsHead(item, limits, values);
      var first, more := Encode(item, values[0]).value, EncodeItems(item, values[1..]).value;
      ParseEncode(item, limits, values[0], more + rest);
      ItemsBack(item, limits, values[1..], rest);
      ItemsGlue(item, |values|, limits, values[0], values[1..], first, more, rest);
      assert [values[0]] + values[1..] == values;
    }
  }

  lemma NoItems(item: Schema, limits: Limits, rest: bytes)
    ensures EncodeItems(item, []) == Ok([]) && ParseItems(item, 0, limits, [] + rest) == Ok(Took(Items([]), 0))
  {
  }

  /** A run of items is its first item and the rest. */
  lemma ItemsHead(item: Schema, limits: Limits, values: seq<Value>)
    requires values != [] && forall i :: 0 <= i < |values| ==> Typed(item, values[i]) && Admits(item, limits, values[i])
    requires EncodeItems(item, values).Ok?
    ensures forall i :: 0 <= i < |values[1..]| ==> Typed(item, values[1..][i]) && Admits(item, limits, values[1..][i])
    ensures Typed(item, values[0]) && Admits(item, limits, values[0])
    ensures Encode(item, values[0]).Ok? && EncodeItems(item, values[1..]).Ok?
    ensures EncodeItems(item, values).value == Encode(item, values[0]).value + EncodeItems(item, values[1..]).value
  {
    hide Encode, Typed, Admits;
    assert forall i :: 0 <= i < |values[1..]| ==> values[1..][i] == values[i + 1];
  }

  lemma ItemsGlue(item: Schema, count: nat, limits: Limits, value: Value, values: seq<Value>, first: bytes, more: bytes, rest: bytes)
    requires count == |values| + 1 && Parse(item, limits, first + (more + rest)) == Ok(Took(value, |first|))
    requires ParseItems(item, count - 1, limits, more + rest) == Ok(Took(Items(values), |more|))
    ensures ParseItems(item, count, limits, first + more + rest) == Ok(Took(Items([value] + values), |first + more|))
  {
    hide Parse;
    Glued(first, more, rest);
  }

  lemma Glued(first: bytes, more: bytes, rest: bytes)
    ensures first + more + rest == first + (more + rest)
    ensures (first + more + rest)[|first|..] == more + rest
  {
  }

  lemma {:induction false} FieldsBack(fields: Fields, limits: Limits, values: seq<Value>, rest: bytes)
    requires LimitsOk(limits) && TypedFields(fields, values) && AdmitsFields(fields, limits, values)
    requires EncodeFields(fields, values).Ok?
    ensures ParseFields(fields, limits, EncodeFields(fields, values).value + rest) ==
            Ok(Took(Items(values), |EncodeFields(fields, values).value|))
    decreases fields, 0
  {
    hide Encode, Parse, Typed, Admits;
    match fields
    case End =>
    case Field(_, schema, next) =>
      var first, more := Encode(schema, values[0]).value, EncodeFields(next, values[1..]).value;
      ParseEncode(schema, limits, values[0], more + rest);
      FieldsBack(next, limits, values[1..], rest);
      Glued(first, more, rest);
      assert [values[0]] + values[1..] == values;
  }

  // ---------------------------------------------------------------- writing what was read

  lemma WordAgain(input: bytes)
    requires |input| >= 4
    ensures BigEndian(Unsigned(input[..4])) == input[..4]
  {
    UnsignedBack(input[..4]);
  }

  lemma PadAgain(input: bytes, from: nat, to: nat)
    requires from <= to <= |input| && AllZero(input[from..to])
    ensures Zeros(to - from) == input[from..to]
  {
  }

  lemma OpaqueAgain(limits: Limits, limit: int, input: bytes)
    requires ParseOpaque(limits, limit, input).Ok?
    ensures var r := ParseOpaque(limits, limit, input).value;
            && r.width <= |input| && r.value.Data? && EncodeOpaque(r.value.data) == Ok(input[..r.width])
            && |r.value.data| <= limit && |r.value.data| <= limits.maxOpaqueBytes && ValidSize(limit)
  {
    var length := Unsigned(input[..4]);
    var width := 4 + length + Padding(length);
    WordAgain(input);
    PadAgain(input, 4 + length, width);
    hide BigEndian, Unsigned, AllZero, Zeros;
    assert input[..width] == input[..4] + input[4..4 + length] + input[4 + length..width];
  }

  lemma FixedAgain(length: int, input: bytes)
    requires ParseFixed(length, input).Ok?
    ensures var r := ParseFixed(length, input).value;
            && ValidSize(length) && ValidSize(length + Padding(length)) && r.width <= |input| && r.value.Data? && |r.value.data| == length
            && r.value.data + Zeros(Padding(length)) == input[..r.width]
  {
    var width := length + Padding(length);
    PadAgain(input, length, width);
    assert input[..width] == input[..length] + input[length..width];
  }

  lemma HyperAgain(input: bytes)
    requires |input| >= 8
    ensures var n := Unsigned(input[..4]) * TWO_32 + Unsigned(input[4..8]);
            0 <= n < TWO_32 * TWO_32 && BigEndian(n / TWO_32) + BigEndian(n % TWO_32) == input[..8]
  {
    var a, b := Unsigned(input[..4]), Unsigned(input[4..8]);
    UnsignedBack(input[..4]);
    UnsignedBack(input[4..8]);
    hide BigEndian, Unsigned;
    assert (a * TWO_32 + b) / TWO_32 == a && (a * TWO_32 + b) % TWO_32 == b;
    assert input[..8] == input[..4] + input[4..8];
  }

  lemma LeafAgain(s: Schema, limits: Limits, input: bytes)
    requires LimitsOk(limits) && Parse(s, limits, input).Ok? && IsLeaf(s)
    ensures var r := Parse(s, limits, input).value;
            Typed(s, r.value) && Encode(s, r.value) == Ok(input[..r.width]) && Admits(s, limits, r.value)
  {
    hide BigEndian, Unsigned, Zeros, AllZero, EncodeOpaque, ParseOpaque, ParseFixed;
    match s
    case UInt32 => WordAgain(input);
    case Int32 => WordAgain(input); SignedWraps(Unsigned(input[..4]));
    case UInt64 => HyperAgain(input);
    case Boolean => WordAgain(input);
    case FixedOpaque(length) => FixedAgain(length, input);
    case Opaque(limit) => OpaqueAgain(limits, if limit.Some? then limit.value else limits.maxOpaqueBytes, input);
  }

  lemma CountedAgain(item: Schema, most: Option<int>, limits: Limits, input: bytes)
    requires LimitsOk(limits) && Parse(Array(item, most), limits, input).Ok?
    requires var count := Unsigned(input[..4]);
             && ParseItems(item, count, limits, input[4..]).Ok?
             && var r := ParseItems(item, count, limits, input[4..]).value;
                && (forall i :: 0 <= i < count ==> Typed(item, r.value.items[i]) && Admits(item, limits, r.value.items[i]))
                && EncodeItems(item, r.value.items) == Ok(input[4..][..r.width])
    ensures var r := Parse(Array(item, most), limits, input).value;
            && Typed(Array(item, most), r.value) && Encode(Array(item, most), r.value) == Ok(input[..r.width])
            && Admits(Array(item, most), limits, r.value)
  {
    hide BigEndian, Unsigned, EncodeItems, ParseItems;
    WordAgain(input);
    var r := ParseItems(item, Unsigned(input[..4]), limits, input[4..]).value;
    assert input[..4 + r.width] == input[..4] + input[4..][..r.width];
  }

  /** Main result, the other way: writing what was read gives the bytes it was read from. */
  lemma {:induction false} EncodeParse(s: Schema, limits: Limits, input: bytes)
    requires LimitsOk(limits) && Parse(s, limits, input).Ok?
    ensures var r := Parse(s, limits, input).value;
            Typed(s, r.value) && Encode(s, r.value) == Ok(input[..r.width]) && Admits(s, limits, r.value)
    decreases s, 0
  {
    if IsLeaf(s) {
      LeafAgain(s, limits, input);
    } else {
      hide BigEndian, Unsigned, EncodeItems, ParseItems, EncodeFields, ParseFields;
      match s
      case FixedArray(item, count) => ItemsAgain(item, count, limits, input);
      case Array(item, most) =>
        ItemsAgain(item, Unsigned(input[..4]), limits, input[4..]);
        CountedAgain(item, most, limits, input);
      case Struct(fields) => FieldsAgain(fields, limits, input);
    }
  }

  lemma {:induction false} ItemsAgain(item: Schema, count: nat, limits: Limits, input: bytes)
    requires LimitsOk(limits) && ParseItems(item, count, limits, input).Ok?
    ensures var r := ParseItems(item, count, limits, input).value;
            && (forall i :: 0 <= i < count ==> Typed(item, r.value.items[i]) && Admits(item, limits, r.value.items[i]))
            && EncodeItems(item, r.value.items) == Ok(input[..r.width])
    decreases item, count + 1
  {
    hide Encode, Parse, Typed, Admits;
    if count > 0 {
      var first := Parse(item, limits, input).value;
      var rest := ParseItems(item, count - 1, limits, input[first.width..]).value;
      EncodeParse(item, limits, input);
      ItemsAgain(item, count - 1, limits, input[first.width..]);
      var all := [first.value] + rest.value.items;
      assert all[1..] == rest.value.items;
      assert input[..first.width + rest.width] == input[..first.width] + input[first.width..][..rest.width];
      assert ParseItems(item, count, limits, input) == Ok(Took(Items(all), first.width + rest.width));
      forall i | 0 <= i < count ensures Typed(item, all[i]) && Admits(item, limits, all[i]) {
        if i > 0 { assert all[i] == rest.value.items[i - 1]; }
      }
    }
  }

  lemma {:induction false} FieldsAgain(fields: Fields, limits: Limits, input: bytes)
    requires LimitsOk(limits) && ParseFields(fields, limits, input).Ok?
    ensures var r := ParseFields(fields, limits, input).value;
            && TypedFields(fields, r.value.items) && AdmitsFields(fields, limits, r.value.items)
            && EncodeFields(fields, r.value.items) == Ok(input[..r.width])
    decreases fields, 0
  {
    hide Encode, Parse, Typed, Admits;
    match fields
    case End =>
    case Field(_, schema, next) =>
      var first := Parse(schema, limits, input).value;
      var more := ParseFields(next, limits, input[first.width..]).value;
      EncodeParse(schema, limits, input);
      FieldsAgain(next, limits, input[first.width..]);
      var all := [first.value] + more.value.items;
      assert all[0] == first.value && all[1..] == more.value.items;
      assert input[..first.width + more.width] == input[..first.width] + input[first.width..][..more.width];
  }

  // ---------------------------------------------------------------- whole messages

  /** Different values never have the same bytes. */
  lemma EncodeInjective(s: Schema, v: Value, u: Value, limits: Limits)
    requires LimitsOk(limits) && Typed(s, v) && Typed(s, u) && Admits(s, limits, v) && Admits(s, limits, u)
    requires Encode(s, v).Ok? && Encode(s, v) == Encode(s, u)
    ensures v == u
  {
    ParseEncode(s, limits, v, []);
    ParseEncode(s, limits, u, []);
  }

  /** The same value under wider limits. */
  lemma {:induction false} AdmitsWider(s: Schema, limits: Limits, wide: Limits, v: Value)
    requires Typed(s, v) && Admits(s, limits, v)
    requires limits.maxOpaqueBytes <= wide.maxOpaqueBytes && limits.maxArrayElements <= wide.maxArrayElements
    ensures Admits(s, wide, v)
    decreases s, 0
  {
    match s
    case FixedArray(item, _) =>
      forall i | 0 <= i < |v.items| ensures Admits(item, wide, v.items[i]) { AdmitsWider(item, limits, wide, v.items[i]); }
    case Array(item, _) =>
      forall i | 0 <= i < |v.items| ensures Admits(item, wide, v.items[i]) { AdmitsWider(item, limits, wide, v.items[i]); }
    case Struct(fields) => AdmitsFieldsWider(fields, limits, wide, v.items);
    case _ =>
  }

  lemma {:induction false} AdmitsFieldsWider(fields: Fields, limits: Limits, wide: Limits, values: seq<Value>)
    requires TypedFields(fields, values) && AdmitsFields(fields, limits, values)
    requires limits.maxOpaqueBytes <= wide.maxOpaqueBytes && limits.maxArrayElements <= wide.maxArrayElements
    ensures AdmitsFields(fields, wide, values)
    decreases fields, 0
  {
    match fields
    case End =>
    case Field(_, schema, rest) =>
      AdmitsWider(schema, limits, wide, values[0]);
      AdmitsFieldsWider(rest, limits, wide, values[1..]);
  }

  const WIDEST := Limits(MAX_SAFE_INTEGER, MAX_SAFE_INTEGER, MAX_SAFE_INTEGER)

  /** The widest limits admit every value a writer accepts, fixed opaques near the largest safe integer excepted. */
  lemma {:induction false} WidestAdmits(s: Schema, v: Value)
    requires Typed(s, v) && Encode(s, v).Ok? && Paddable(s)
    ensures Admits(s, WIDEST, v)
    decreases s, 0
  {
    match s
    case FixedArray(item, _) => WidestItems(item, v.items);
    case Array(item, _) => WidestItems(item, v.items);
    case Struct(fields) => WidestFields(fields, v.items);
    case _ =>
  }

  lemma {:induction false} WidestItems(item: Schema, values: seq<Value>)
    requires (forall i :: 0 <= i < |values| ==> Typed(item, values[i])) && EncodeItems(item, values).Ok? && Paddable(item)
    ensures forall i :: 0 <= i < |values| ==> Admits(item, WIDEST, values[i])
    decreases item, |values| + 1
  {
    if values != [] {
      WidestAdmits(item, values[0]);
      WidestItems(item, values[1..]);
      hide Encode, Admits, Typed;
      forall i | 0 <= i < |values| ensures Admits(item, WIDEST, values[i]) {
        if i > 0 { assert values[i] == values[1..][i - 1]; }
      }
    }
  }

  lemma {:induction false} WidestFields(fields: Fields, values: seq<Value>)
    requires TypedFields(fields, values) && EncodeFields(fields, values).Ok? && PaddableFields(fields)
    ensures AdmitsFields(fields, WIDEST, values)
    decreases fields, 0
  {
    match fields
    case End =>
    case Field(_, schema, rest) =>
      WidestAdmits(schema, values[0]);
      WidestFields(rest, values[1..]);
  }

  /** Fixed opaques whose padded length is still a safe integer; no JavaScript array is longer. */
  predicate Paddable(s: Schema)
    decreases s, 0
  {
    match s
    case FixedOpaque(length) => length + 3 <= MAX_SAFE_INTEGER
    case FixedArray(item, _) => Paddable(item)
    case Array(item, _) => Paddable(item)
    case Struct(fields) => PaddableFields(fields)
    case _ => true
  }

  predicate PaddableFields(fields: Fields)
    decreases fields, 0
  {
    match fields
    case End => true
    case Field(_, schema, rest) => Paddable(schema) && PaddableFields(rest)
  }

  /** Main result: decoding an encoded value gives it back exactly when the limits admit it, else fails. */
  lemma RoundTrip(s: Schema, limits: Limits, v: Value)
    requires LimitsOk(limits) && Paddable(s) && Typed(s, v) && Encode(s, v).Ok?
    ensures Decode(s, limits, Encode(s, v).value).Ok? <==> Admits(s, limits, v)
    ensures Admits(s, limits, v) ==> Decode(s, limits, Encode(s, v).value) == Ok(v)
  {
    var sent := Encode(s, v).value;
    assert sent + [] == sent;
    if Admits(s, limits, v) { ParseEncode(s, limits, v, []); }
    if Decode(s, limits, sent).Ok? {
      EncodeParse(s, limits, sent);
      var u := Decode(s, limits, sent).value;
      assert sent[..|sent|] == sent;
      WidestAdmits(s, v);
      AdmitsWider(s, limits, WIDEST, u);
      EncodeInjective(s, v, u, WIDEST);
    }
  }

  /** Main result: an accepted message is the encoding of the value it was decoded to. */
  lemma Canonical(s: Schema, limits: Limits, message: bytes)
    requires Decode(s, limits, message).Ok?
    ensures Typed(s, Decode(s, limits, message).value)
    ensures Encode(s, Decode(s, limits, message).value) == Ok(message)
  {
    EncodeParse(s, limits, message);
    assert message[..|message|] == message;
  }

  // ---------------------------------------------------------------- the read kernel

  /** What the rest of a run of items gives once `values` have been read from the first `width` bytes. */
  ghost function After(values: seq<Value>, width: nat, rest: Result<Took, Error>): Result<Took, Error>
    requires rest.Ok? ==> rest.value.value.Items?
  {
    match rest
    case Err(e) => Err(e)
    case Ok(r) => Ok(Took(Items(values + r.value.items), width + r.width))
  }

  lemma ItemsStep(item: Schema, count: nat, limits: Limits, input: bytes)
    requires count > 0
    ensures ParseItems(item, count, limits, input) ==
            match Parse(item, limits, input)
            case Err(e) => Err(e)
            case Ok(first) => After([first.value], first.width, ParseItems(item, count - 1, limits, input[first.width..]))
  {
    hide Parse;
  }

  lemma ItemsDone(item: Schema, limits: Limits, input: bytes)
    ensures ParseItems(item, 0, limits, input) == Ok(Took(Items([]), 0))
  {
  }

  lemma NothingYet(rest: Result<Took, Error>)
    requires rest.Ok? ==> rest.value.value.Items?
    ensures After([], 0, rest) == rest
  {
    if rest.Ok? { assert [] + rest.value.value.items == rest.value.value.items; }
  }

  lemma AfterOne(values: seq<Value>, width: nat, value: Value, more: nat, rest: Result<Took, Error>)
    requires rest.Ok? ==> rest.value.value.Items?
    ensures After(values, width, After([value], more, rest)) == After(values + [value], width + more, rest)
  {
    if rest.Ok? {
      assert values + ([value] + rest.value.value.items) == (values + [value]) + rest.value.value.items;
    }
  }

  class ReadKernel {
    const input: bytes
    const limits: Limits
    var offset: nat

    ghost predicate Valid() reads this { offset <= |input| && LimitsOk(limits) }

    constructor (input: bytes, limits: Limits)
      requires LimitsOk(limits)
      ensures Valid() && this.input == input && this.limits == limits && offset == 0
    {
      this.input, this.limits, offset := input, limits, 0;
    }

    /** A read that moves past what `Parse` takes, or fails as `Parse` does; a failure may leave the offset anywhere. */
    ghost predicate Moved(s: Schema, before: nat, r: Result<Value, Error>)
      requires before <= |input|
      reads this
    {
      match Parse(s, limits, input[before..])
      case Err(e) => r == Err(e)
      case Ok(read) => r == Ok(read.value) && offset == before + read.width
    }

    method TakeUInt32() returns (r: Result<uint32, Error>)
      requires Valid()
      modifies this`offset
      ensures Valid() && r == TakeWord(input[old(offset)..])
      ensures offset == if r.Ok? then old(offset) + 4 else old(offset)
    {
      if 4 > |input| - offset { return Err(Truncated); }
      var start := offset;
      offset := start + 4;
      assert input[start..][..4] == input[start..start + 4];
      return Ok(Unsigned(input[start..start + 4]));
    }

    method TakeUInt64() returns (r: Result<Value, Error>)
      requires Valid()
      modifies this`offset
      ensures Valid() && Moved(UInt64, old(offset), r)
    {
      if 8 > |input| - offset { return Err(Truncated); }
      var start := offset;
      offset := start + 8;
      assert input[start..][..4] == input[start..start + 4] && input[start..][4..8] == input[start + 4..start + 8];
      return Ok(Number(Unsigned(input[start..start + 4]) * TWO_32 + Unsigned(input[start + 4..start + 8])));
    }

    method TakeFixedOpaque(length: int) returns (r: Result<Value, Error>)
      requires Valid()
      modifies this`offset
      ensures Valid() && Moved(FixedOpaque(length), old(offset), r)
    {
      if !ValidSize(length) { return Err(InvalidFixedOpaqueLength); }
      var width := length + Padding(length);
      if !ValidSize(width) || width > |input| - offset { return Err(Truncated); }
      var start := offset;
      offset := start + width;
      var end := start + length;
      assert input[start..][length..width] == input[end..start + width] && input[start..][..length] == input[start..end];
      if !AllZero(input[end..end + Padding(length)]) {
        offset := start;
        return Err(NonZeroPadding);
      }
      return Ok(Data(input[start..end]));
    }

    method TakeOpaque(limit: Option<int>) returns (r: Result<Value, Error>)
      requires Valid()
      modifies this`offset
      ensures Valid() && Moved(Opaque(limit), old(offset), r)
    {
      var maximum := if limit.Some? then limit.value else limits.maxOpaqueBytes;
      if !ValidSize(maximum) { return Err(InvalidOpaqueLimit); }
      if |input| - offset < 4 { return Err(Truncated); }
      var start := offset;
      assert input[start..][..4] == input[start..start + 4];
      var length := Unsigned(input[start..start + 4]);
      if length > maximum || length > limits.maxOpaqueBytes { return Err(OpaqueTooLong); }
      var width := 4 + length + Padding(length);
      if width > |input| - offset { return Err(Truncated); }
      var end := start + 4 + length;
      assert input[start..][4 + length..width] == input[end..start + width];
      assert input[start..][4..4 + length] == input[start + 4..end];
      if !AllZero(input[end..start + width]) { return Err(NonZeroPadding); }
      offset := start + width;
      return Ok(Data(input[start + 4..end]));
    }

    /** A codec's `read`. */
    method Read(s: Schema) returns (r: Result<Value, Error>)
      requires Valid()
      modifies this`offset
      ensures Valid() && Moved(s, old(offset), r)
      decreases s, 0
    {
      match s {
        case UInt32 =>
          var word := TakeUInt32();
          if word.Err? { return Err(word.error); }
          return Ok(Number(word.value));
        case Int32 =>
          var word := TakeUInt32();
          if word.Err? { return Err(word.error); }
          return Ok(Number(Signed(word.value)));
        case UInt64 =>
          r := TakeUInt64();
        case Boolean =>
          var word := TakeUInt32();
          if word.Err? { return Err(word.error); }
          if word.value > 1 { return Err(InvalidBoolean); }
          return Ok(Truth(word.value == 1));
        case FixedOpaque(length) =>
          r := TakeFixedOpaque(length);
        case Opaque(limit) =>
          r := TakeOpaque(limit);
        case FixedArray(item, count) =>
          if !ValidSize(count) || count > limits.maxArrayElements { return Err(InvalidFixedArrayLength); }
          r := ReadItems(item, count);
        case Array(item, most) =>
          var limit := if most.Some? then most.value else limits.maxArrayElements;
          if !ValidSize(limit) { return Err(InvalidArrayLimit); }
          ghost var start := offset;
          var count := TakeUInt32();
          if count.Err? { return Err(count.error); }
          if count.value > limit || count.value > limits.maxArrayElements { return Err(ArrayTooLong); }
          assert input[start..][4..] == input[start + 4..];
          r := ReadItems(item, count.value);
        case Struct(fields) =>
          r := ReadFields(fields);
      }
    }

    /** `reduce` over `count` reads of one item: the first failure stands. */
    method ReadItems(item: Schema, count: nat) returns (r: Result<Value, Error>)
      requires Valid()
      modifies this`offset
      ensures Valid()
      ensures match ParseItems(item, count, limits, input[old(offset)..])
              case Err(e) => r == Err(e)
              case Ok(read) => r == Ok(read.value) && offset == old(offset) + read.width
      decreases item, count + 1
    {
      hide Parse, ParseItems;
      var values: seq<Value> := [];
      ghost var start := offset;
      var left := count;
      NothingYet(ParseItems(item, count, limits, input[start..]));
      while left > 0
        invariant Valid() && start <= offset && 0 <= left <= count
        invariant ParseItems(item, count, limits, input[start..]) ==
                  After(values, offset - start, ParseItems(item, left, limits, input[offset..]))
        decreases left
      {
        ghost var before := offset;
        ItemsStep(item, left, limits, input[before..]);
        var value := Read(item);
        if value.Err? { return Err(value.error); }
        assert input[before..][offset - before..] == input[offset..];
        AfterOne(values, before - start, value.value, offset - before, ParseItems(item, left - 1, limits, input[offset..]));
        values := values + [value.value];
        left := left - 1;
      }
      ItemsDone(item, limits, input[offset..]);
      assert values + [] == values;
      return Ok(Items(values));
    }

    /** A structure's fields in order; the source folds over them, so the first failure stands. */
    method ReadFields(fields: Fields) returns (r: Result<Value, Error>)
      requires Valid()
      modifies this`offset
      ensures Valid()
      ensures match ParseFields(fields, limits, input[old(offset)..])
              case Err(e) => r == Err(e)
              case Ok(read) => r == Ok(read.value) && offset == old(offset) + read.width
      decreases fields, 0
    {
      match fields {
        case End =>
          return Ok(Items([]));
        case Field(_, schema, rest) =>
          ghost var start := offset;
          var first := Read(schema);
          if first.Err? { return Err(first.error); }
          assert input[start..][offset - start..] == input[offset..];
          var more := ReadFields(rest);
          if more.Err? { return Err(more.error); }
          return Ok(Items([first.value] + more.value.items));
      }
    }

    /** A session's `read`: a failure leaves the position where it was. */
    method SessionRead(s: Schema) returns (r: Result<Value, Error>)
      requires Valid()
      modifies this`offset
      ensures Valid() && Moved(s, old(offset), r)
      ensures r.Err? ==> offset == old(offset)
    {
      var start := offset;
      r := Read(s);
      if r.Err? { offset := start; }
    }

    method Finish() returns (r: Result<(), Error>)
      requires Valid()
      ensures r == if offset == |input| then Ok(()) else Err(TrailingBytes)
    {
      return if |input| - offset == 0 then Ok(()) else Err(TrailingBytes);
    }
  }

  /** `decode`. */
  method DecodeMessage(s: Schema, limits: Limits, input: bytes) returns (r: Result<Value, Error>)
    ensures r == Decode(s, limits, input)
  {
    hide Parse;
    if LimitsError(limits).Some? { return Err(LimitsError(limits).value); }
    var reader := new ReadKernel(input, limits);
    assert input[0..] == input;
    var value := reader.Read(s);
    if value.Err? { return value; }
    var finished := reader.Finish();
    if finished.Err? { return Err(finished.error); }
    return value;
  }

  // ---------------------------------------------------------------- the write kernel

  lemma TailZeros(b: bytes, from: nat)
    requires AllZero(b) && from <= |b|
    ensures b[from..] == Zeros(|b| - from)
  {
  }

  class WriteKernel {
    var chunks: seq<bytes>
    var length: nat

    ghost predicate Valid() reads this { length == |Flatten(chunks)| }

    constructor ()
      ensures Valid() && chunks == []
    {
      chunks, length := [], 0;
    }

    /** A write that appends what `Encode` gives, or fails as it does. */
    ghost predicate Wrote(before: bytes, encoded: Result<bytes, Error>, r: Result<(), Error>)
      reads this
    {
      match encoded
      case Err(e) => r == Err(e)
      case Ok(b) => r == Ok(()) && Flatten(chunks) == before + b
    }

    method Append(part: bytes)
      requires Valid()
      modifies this
      ensures Valid() && Flatten(chunks) == old(Flatten(chunks)) + part
    {
      FlattenSnoc(chunks, part);
      chunks := chunks + [part];
      length := length + |part|;
    }

    method PutUInt32(n: int) returns (r: Result<(), Error>)
      requires Valid()
      modifies this
      ensures Valid() && Wrote(old(Flatten(chunks)), Encode(UInt32, Number(n)), r)
    {
      hide Flatten;
      if n < 0 || n > 0xffff_ffff { return Err(OutOfRange); }
      Append(BigEndian(n));
      return Ok(());
    }

    method PutInt32(n: int) returns (r: Result<(), Error>)
      requires Valid()
      modifies this
      ensures Valid() && Wrote(old(Flatten(chunks)), Encode(Int32, Number(n)), r)
    {
      hide Flatten, BigEndian;
      if n < -0x8000_0000 || n > 0x7fff_ffff { return Err(OutOfRange); }
      r := PutUInt32(Wrapped(n));
    }

    method PutUInt64(n: int) returns (r: Result<(), Error>)
      requires Valid()
      modifies this
      ensures Valid() && Wrote(old(Flatten(chunks)), Encode(UInt64, Number(n)), r)
    {
      hide Flatten, BigEndian;
      if n < 0 || n > 0xffff_ffff_ffff_ffff { return Err(OutOfRange); }
      Append(BigEndian(n / TWO_32) + BigEndian(n % TWO_32));
      return Ok(());
    }

    /** A fresh zeroed buffer holding `prefix` and `data`, so the padding is zero. */
    method PutPadded(prefix: bytes, data: bytes)
      requires Valid()
      modifies this
      ensures Valid() && Flatten(chunks) == old(Flatten(chunks)) + (prefix + data + Zeros(Padding(|data|)))
    {
      hide Flatten;
      var pad := Padding(|data|);
      var part := new byte[|prefix| + |data| + pad](_ => 0);
      assert AllZero(part[..]);
      TailZeros(part[..], |prefix| + |data|);
      Put(part, 0, prefix);
      Put(part, |prefix|, data);
      assert part[..] == part[..|prefix| + |data|] + part[|prefix| + |data|..];
      assert part[..] == prefix + data + Zeros(pad);
      Append(part[..]);
    }

    method PutFixedOpaque(data: bytes, expected: int) returns (r: Result<(), Error>)
      requires Valid()
      modifies this
      ensures Valid() && Wrote(old(Flatten(chunks)), Encode(FixedOpaque(expected), Data(data)), r)
    {
      hide Flatten, Zeros;
      if !ValidSize(expected) || |data| != expected { return Err(LengthMismatch); }
      PutPadded([], data);
      assert [] + data == data;
      return Ok(());
    }

    method PutOpaque(data: bytes) returns (r: Result<(), Error>)
      requires Valid()
      modifies this
      ensures Valid() && Wrote(old(Flatten(chunks)), EncodeOpaque(data), r)
    {
      hide Flatten, Zeros, BigEndian;
      if |data| > 0xffff_ffff { return Err(OutOfRange); }
      PutPadded(BigEndian(|data|), data);
      return Ok(());
    }

    /** A codec's `write`. */
    method Write(s: Schema, v: Value) returns (r: Result<(), Error>)
      requires Valid() && Typed(s, v)
      modifies this
      ensures Valid() && Wrote(old(Flatten(chunks)), Encode(s, v), r)
      decreases s, 0
    {
      hide Flatten, BigEndian, EncodeItems, EncodeFields, EncodeOpaque;
      match s {
        case UInt32 => r := PutUInt32(v.n);
        case Int32 => r := PutInt32(v.n);
        case UInt64 => r := PutUInt64(v.n);
        case Boolean => r := PutUInt32(if v.b then 1 else 0);
        case FixedOpaque(expected) => r := PutFixedOpaque(v.data, expected);
        case Opaque(limit) =>
          if limit.Some? && !ValidSize(limit.value) { return Err(InvalidOpaqueLimit); }
          if limit.Some? && |v.data| > limit.value { return Err(OpaqueTooLong); }
          r := PutOpaque(v.data);
        case FixedArray(item, count) =>
          if !ValidSize(count) || |v.items| != count { return Err(LengthMismatch); }
          r := WriteItems(item, v.items);
        case Array(item, most) =>
          if most.Some? && (!ValidSize(most.value) || |v.items| > most.value) { return Err(ArrayTooLong); }
          ghost var before := Flatten(chunks);
          r := PutUInt32(|v.items|);
          if r.Err? { return; }
          r := WriteItems(item, v.items);
          if r.Ok? {
            assert before + BigEndian(|v.items|) + EncodeItems(item, v.items).value ==
                   before + (BigEndian(|v.items|) + EncodeItems(item, v.items).value);
          }
        case Struct(fields) => r := WriteFields(fields, v.items);
      }
    }

    method WriteItems(item: Schema, values: seq<Value>) returns (r: Result<(), Error>)
      requires Valid() && forall i :: 0 <= i < |values| ==> Typed(item, values[i])
      modifies this
      ensures Valid() && Wrote(old(Flatten(chunks)), EncodeItems(item, values), r)
      decreases item, |values| + 1
    {
      hide Flatten, Encode, Typed;
      ghost var start := Flatten(chunks);
      ghost var written: bytes := [];
      assert values[0..] == values && start + written == start;
      EncodedNothing(EncodeItems(item, values));
      for k := 0 to |values|
        invariant Valid() && Flatten(chunks) == start + written
        invariant EncodeItems(item, values) == Behind(written, EncodeItems(item, values[k..]))
      {
        assert values[k..][0] == values[k] && values[k..][1..] == values[k + 1..];
        r := Write(item, values[k]);
        if r.Err? { return; }
        ghost var part := Encode(item, values[k]).value;
        EncodedOne(written, part, EncodeItems(item, values[k + 1..]));
        assert start + written + part == start + (written + part);
        written := written + part;
      }
      assert values[|values|..] == [] && written + [] == written;
      return Ok(());
    }

    method WriteFields(fields: Fields, values: seq<Value>) returns (r: Result<(), Error>)
      requires Valid() && TypedFields(fields, values)
      modifies this
      ensures Valid() && Wrote(old(Flatten(chunks)), EncodeFields(fields, values), r)
      decreases fields, 0
    {
      hide Flatten, Encode, Typed;
      match fields {
        case End =>
          assert Flatten(chunks) + [] == Flatten(chunks);
          return Ok(());
        case Field(_, schema, rest) =>
          ghost var before := Flatten(chunks);
          r := Write(schema, values[0]);
          if r.Err? { return; }
          r := WriteFields(rest, values[1..]);
          if r.Ok? {
            ghost var first, more := Encode(schema, values[0]).value, EncodeFields(rest, values[1..]).value;
            assert before + first + more == before + (first + more);
          }
      }
    }

    /** The chunks, copied one after another into a buffer of the counted length. */
    method Bytes() returns (out: bytes)
      requires Valid()
      ensures out == Flatten(chunks)
    {
      var output := new byte[length](_ => 0);
      var position := 0;
      for k := 0 to |chunks|
        invariant position == |Flatten(chunks[..k])| <= length && output[..position] == Flatten(chunks[..k])
      {
        assert chunks[..k + 1] == chunks[..k] + [chunks[k]] && chunks == chunks[..k + 1] + chunks[k + 1..];
        FlattenSnoc(chunks[..k], chunks[k]);
        FlattenAppend(chunks[..k + 1], chunks[k + 1..]);
        Put(output, position, chunks[k]);
        position := position + |chunks[k]|;
      }
      assert chunks[..|chunks|] == chunks && output[..length] == output[..];
      return output[..];
    }
  }

  /** The encoding of the rest of a run of items behind what is already written. */
  function Behind(written: bytes, rest: Result<bytes, Error>): Result<bytes, Error> {
    match rest
    case Err(e) => Err(e)
    case Ok(b) => Ok(written + b)
  }

  lemma EncodedNothing(rest: Result<bytes, Error>)
    ensures Behind([], rest) == rest
  {
    if rest.Ok? { assert [] + rest.value == rest.value; }
  }

  lemma EncodedOne(written: bytes, part: bytes, rest: Result<bytes, Error>)
    ensures Behind(written, Behind(part, rest)) == Behind(written + part, rest)
  {
    if rest.Ok? { assert written + (part + rest.value) == written + part + rest.value; }
  }

  /** `encode`. */
  method EncodeMessage(s: Schema, v: Value) returns (r: Result<bytes, Error>)
    requires Typed(s, v)
    ensures r == Encode(s, v)
  {
    hide Encode, Typed;
    var writer := new WriteKernel();
    assert Flatten(writer.chunks) == [];
    var written := writer.Write(s, v);
    if written.Err? { return Err(written.error); }
    var out := writer.Bytes();
    assert [] + Encode(s, v).value == Encode(s, v).value;
    return Ok(out);
  }
}
