/**
 * Canonical padded base64 (`internal/canonicalBase64.ts`), the alphabet and padding of RFC 4648, section 4, with the
 * zero pad bits that section 3.5 of RFC 4648 asks of canonical encodings.
 */
module CanonicalBase64 {
  import opened Basics

  type sextet = v: int | 0 <= v < 64

  function Digit(v: sextet): char {
    if v < 26 then (v + 65) as char
    else if v < 52 then (v + 71) as char
    else if v < 62 then (v - 4) as char
    else if v == 62 then '+' else '/'
  }

  predicate IsDigit(c: char) {
    'A' <= c <= 'Z' || 'a' <= c <= 'z' || '0' <= c <= '9' || c == '+' || c == '/'
  }

  function Value(c: char): (v: sextet)
    requires IsDigit(c)
    ensures Digit(v) == c
  {
    if 'A' <= c <= 'Z' then c as int - 65
    else if 'a' <= c <= 'z' then c as int - 71
    else if '0' <= c <= '9' then c as int + 4
    else if c == '+' then 62 else 63
  }

  lemma DigitValue(v: sextet)
    ensures IsDigit(Digit(v)) && Value(Digit(v)) == v && Digit(v) != '='
  {
  }

  /** One to three bytes as four characters, padded. */
  function EncodeGroup(g: bytes): (q: string)
    requires 1 <= |g| <= 3
    ensures |q| == 4
  {
    var a := Digit(g[0] / 4);
    if |g| == 1 then [a, Digit(g[0] % 4 * 16), '=', '=']
    else
      var b := Digit(g[0] % 4 * 16 + g[1] / 16);
      if |g| == 2 then [a, b, Digit(g[1] % 16 * 4), '=']
      else [a, b, Digit(g[1] % 16 * 4 + g[2] / 64), Digit(g[2] % 64)]
  }

  /** Base64 as RFC 4648 section 4 lays it out: groups of three bytes, the last one padded. */
  function Encode(input: bytes): string {
    if |input| == 0 then ""
    else if |input| <= 3 then EncodeGroup(input)
    else EncodeGroup(input[..3]) + Encode(input[3..])
  }

  /** Four characters of text as bytes; only the last group may hold padding. */
  function DecodeGroup(q: string): Option<bytes>
    requires |q| == 4
  {
    if !IsDigit(q[0]) || !IsDigit(q[1]) then None
    else
      var a, b := Value(q[0]), Value(q[1]);
      if q[2] == '=' && q[3] == '=' then Some([a * 4 + b / 16])
      else if !IsDigit(q[2]) then None
      else
        var c := Value(q[2]);
        if q[3] == '=' then Some([a * 4 + b / 16, b % 16 * 16 + c / 4])
        else if !IsDigit(q[3]) then None
        else Some([a * 4 + b / 16, b % 16 * 16 + c / 4, c % 4 * 64 + Value(q[3])])
  }

  function Decode(text: string): Option<bytes> {
    if text == "" then Some([])
    else if |text| < 4 then None
    else
      match DecodeGroup(text[..4])
      case None => None
      case Some(group) =>
        if |text| == 4 then Some(group)
        else if |group| != 3 then None
        else
          match Decode(text[4..])
          case None => None
          case Some(rest) => Some(group + rest)
  }

  // ---------------------------------------------------------------- the source's check

  /** The last group of a canonical text: empty, four digits, or padded with zero pad bits. */
  predicate CanonicalTail(tail: string) {
    || tail == ""
    || (|tail| == 4 && IsDigit(tail[0]) && IsDigit(tail[1]) && IsDigit(tail[2]) && IsDigit(tail[3]))
    || (|tail| == 4 && IsDigit(tail[0]) && tail[1] in "AQgw" && tail[2] == '=' && tail[3] == '=')
    || (|tail| == 4 && IsDigit(tail[0]) && IsDigit(tail[1]) && tail[2] in "AEIMQUYcgkosw048" && tail[3] == '=')
  }

  /** The position `slice(0, -4)` and `slice(-4)` cut at. */
  function TailStart(value: string): nat {
    if |value| < 4 then 0 else |value| - 4
  }

  predicate IsCanonical(value: string) {
    && |value| % 4 == 0
    && (forall i :: 0 <= i < TailStart(value) ==> IsDigit(value[i]))
    && CanonicalTail(value[TailStart(value)..])
  }

  function DecodedLength(value: string): int {
    |value| / 4 * 3 -
    (if |value| >= 2 && value[|value| - 2] == '=' && value[|value| - 1] == '=' then 2
     else if |value| >= 1 && value[|value| - 1] == '=' then 1 else 0)
  }

  /** Dropping the first of several groups leaves the check and the measured length in step. */
  lemma CanonicalStep(value: string)
    requires |value| > 4 && |value| % 4 == 0
    ensures IsCanonical(value) <==>
            IsDigit(value[0]) && IsDigit(value[1]) && IsDigit(value[2]) && IsDigit(value[3]) && IsCanonical(value[4..])
    ensures DecodedLength(value) == 3 + DecodedLength(value[4..])
  {
    var rest := value[4..];
    assert |rest| >= 4 && TailStart(rest) == TailStart(value) - 4;
    assert rest[TailStart(rest)..] == value[TailStart(value)..];
    if IsCanonical(rest) && IsDigit(value[0]) && IsDigit(value[1]) && IsDigit(value[2]) && IsDigit(value[3]) {
      forall i | 0 <= i < TailStart(value) ensures IsDigit(value[i]) {
        if i >= 4 { assert value[i] == rest[i - 4]; }
      }
    }
    if IsCanonical(value) {
      forall i | 0 <= i < TailStart(rest) ensures IsDigit(rest[i]) {
        assert rest[i] == value[i + 4];
      }
    }
  }

  lemma PadTwoDigits(c: char)
    ensures c in "AQgw" <==> IsDigit(c) && Value(c) % 16 == 0
  {
    assert "AQgw" == ['A', 'Q', 'g', 'w'];
    if IsDigit(c) && Value(c) % 16 == 0 {
      var v := Value(c);
      assert v == 0 || v == 16 || v == 32 || v == 48;
      assert c == Digit(v);
    }
  }

  const ONE_PAD := ['A', 'E', 'I', 'M', 'Q', 'U', 'Y', 'c', 'g', 'k', 'o', 's', 'w', '0', '4', '8']

  lemma LowPad(v: sextet)
    requires v % 4 == 0 && v < 32
    ensures Digit(v) in ONE_PAD
  {
    assert v == 0 || v == 4 || v == 8 || v == 12 || v == 16 || v == 20 || v == 24 || v == 28;
    assert ONE_PAD[v / 4] == Digit(v);
  }

  lemma HighPad(v: sextet)
    requires v % 4 == 0 && v >= 32
    ensures Digit(v) in ONE_PAD
  {
    assert v == 32 || v == 36 || v == 40 || v == 44 || v == 48 || v == 52 || v == 56 || v == 60;
    assert ONE_PAD[v / 4] == Digit(v);
  }

  lemma PadsAreDigits(c: char)
    requires c in ONE_PAD
    ensures IsDigit(c) && Value(c) % 4 == 0
  {
    var i :| 0 <= i < |ONE_PAD| && ONE_PAD[i] == c;
    if i < 8 {
      assert c in ['A', 'E', 'I', 'M', 'Q', 'U', 'Y', 'c'];
    } else {
      assert c in ['g', 'k', 'o', 's', 'w', '0', '4', '8'];
    }
  }

  lemma PadOneDigit(c: char)
    ensures c in "AEIMQUYcgkosw048" <==> IsDigit(c) && Value(c) % 4 == 0
  {
    assert "AEIMQUYcgkosw048" == ONE_PAD;
    hide ONE_PAD;
    if c in ONE_PAD { PadsAreDigits(c); }
    if IsDigit(c) && Value(c) % 4 == 0 {
      var v := Value(c);
      assert Digit(v) == c;
      if v < 32 { LowPad(v); } else { HighPad(v); }
    }
  }

  lemma PadDigits(c: char)
    ensures c in "AQgw" <==> IsDigit(c) && Value(c) % 16 == 0
    ensures c in "AEIMQUYcgkosw048" <==> IsDigit(c) && Value(c) % 4 == 0
  {
    hide IsDigit, Value;
    PadTwoDigits(c);
    PadOneDigit(c);
  }

  /** What a canonical group of four characters looks like. */
  lemma CanonicalGroup(q: string)
    requires |q| == 4
    ensures IsCanonical(q) <==>
            && IsDigit(q[0]) && IsDigit(q[1])
            && (|| (IsDigit(q[2]) && IsDigit(q[3]))
                || (q[2] == '=' && q[3] == '=' && Value(q[1]) % 16 == 0)
                || (q[3] == '=' && IsDigit(q[2]) && Value(q[2]) % 4 == 0))
    ensures IsCanonical(q) ==>
              DecodedLength(q) == if q[2] == '=' then 1 else if q[3] == '=' then 2 else 3
  {
    assert q[0..] == q;
    PadDigits(q[1]);
    PadDigits(q[2]);
  }

  lemma GroupThereShort(g: bytes)
    requires 1 <= |g| <= 2
    ensures var q := EncodeGroup(g); IsCanonical(q) && DecodeGroup(q) == Some(g) && DecodedLength(q) == |g|
  {
    CanonicalGroup(EncodeGroup(g));
    DigitValue(g[0] / 4);
    var b: sextet := if |g| == 1 then g[0] % 4 * 16 else g[0] % 4 * 16 + g[1] / 16;
    DigitValue(b);
    if |g| == 2 {
      DigitValue(g[1] % 16 * 4);
      assert b % 16 == g[1] / 16 && b / 16 == g[0] % 4;
      assert g == [g[0], g[1]];
    } else {
      assert g == [g[0]];
    }
  }

  lemma GroupThereFull(g: bytes)
    requires |g| == 3
    ensures var q := EncodeGroup(g);
            IsCanonical(q) && DecodeGroup(q) == Some(g) && DecodedLength(q) == 3 && IsDigit(q[2]) && IsDigit(q[3])
  {
    var a: sextet, b: sextet := g[0] / 4, g[0] % 4 * 16 + g[1] / 16;
    var c: sextet, d: sextet := g[1] % 16 * 4 + g[2] / 64, g[2] % 64;
    assert b / 16 == g[0] % 4 && b % 16 == g[1] / 16 && c / 4 == g[1] % 16 && c % 4 == g[2] / 64;
    CanonicalGroup(EncodeGroup(g));
    DigitValue(a);
    DigitValue(b);
    DigitValue(c);
    DigitValue(d);
    assert g == [g[0], g[1], g[2]];
  }

  lemma GroupBack(q: string)
    requires |q| == 4 && IsCanonical(q)
    ensures DecodeGroup(q).Some? && 1 <= |DecodeGroup(q).value| <= 3
    ensures EncodeGroup(DecodeGroup(q).value) == q && |DecodeGroup(q).value| == DecodedLength(q)
  {
    CanonicalGroup(q);
    hide IsCanonical;
    var g := DecodeGroup(q).value;
    var a, b := Value(q[0]), Value(q[1]);
    assert g[0] / 4 == a && g[0] % 4 == b / 16;
    if q[2] != '=' {
      var c := Value(q[2]);
      assert g[1] / 16 == b % 16 && g[1] % 16 == c / 4;
      if q[3] != '=' {
        var d := Value(q[3]);
        assert g[2] / 64 == c % 4 && g[2] % 64 == d;
      }
    }
  }

  /** How the recursions of `Encode` and `Decode` take off one full group. */
  lemma EncodeStep(g: bytes, rest: bytes)
    requires |g| == 3
    ensures Encode(g + rest) == EncodeGroup(g) + Encode(rest)
  {
    assert (g + rest)[..3] == g && (g + rest)[3..] == rest;
    if rest == [] { assert g + rest == g; }
  }

  lemma DecodeStep(q: string, rest: string)
    requires |q| == 4 && rest != "" && DecodeGroup(q).Some? && |DecodeGroup(q).value| == 3
    ensures Decode(q + rest) ==
            if Decode(rest).Some? then Some(DecodeGroup(q).value + Decode(rest).value) else None
  {
    assert (q + rest)[..4] == q && (q + rest)[4..] == rest;
  }

  /** Encoded text is canonical, measures as the input's length, and decodes to the input. */
  lemma {:induction false} EncodeRoundTrip(input: bytes)
    ensures IsCanonical(Encode(input)) && Decode(Encode(input)) == Some(input)
    ensures DecodedLength(Encode(input)) == |input|
    decreases |input|
  {
    if |input| == 0 {
    } else if |input| <= 3 {
      if |input| == 3 { GroupThereFull(input); } else { GroupThereShort(input); }
      DecodeOneGroup(EncodeGroup(input));
    } else {
      var g, tail := input[..3], input[3..];
      var rest := Encode(tail);
      assert g + tail == input;
      EncodeStep(g, tail);
      EncodeRoundTrip(tail);
      GroupThereFull(g);
      Glue(EncodeGroup(g), rest);
      DecodeStep(EncodeGroup(g), rest);
    }
  }

  lemma DecodeOneGroup(q: string)
    requires |q| == 4
    ensures Decode(q) == DecodeGroup(q)
  {
    assert q[..4] == q;
  }

  lemma Glue(q: string, rest: string)
    requires |q| == 4 && IsDigit(q[0]) && IsDigit(q[1]) && IsDigit(q[2]) && IsDigit(q[3])
    requires rest != "" && |rest| % 4 == 0
    ensures IsCanonical(q + rest) <==> IsCanonical(rest)
    ensures DecodedLength(q + rest) == 3 + DecodedLength(rest)
  {
    assert (q + rest)[4..] == rest;
    CanonicalStep(q + rest);
  }

  /** Canonical text is the only text that decodes to its bytes: encoding them gives it back. */
  lemma {:induction false} CanonicalRoundTrip(value: string)
    requires IsCanonical(value)
    ensures Decode(value).Some?
    ensures Encode(Decode(value).value) == value && |Decode(value).value| == DecodedLength(value)
    decreases |value|
  {
    if |value| == 4 {
      GroupBack(value);
      DecodeOneGroup(value);
    } else if |value| > 4 {
      CanonicalStep(value);
      var first, rest := value[..4], value[4..];
      CanonicalGroup(first);
      CanonicalRoundTrip(rest);
      GroupBack(first);
      assert value == first + rest;
      Glue(first, rest);
      DecodeStep(first, rest);
      EncodeStep(DecodeGroup(first).value, Decode(rest).value);
    }
  }

  lemma EncodeEmpty()
    ensures Encode([]) == ""
  {
  }

  lemma {:induction false} EncodeAppend(left: bytes, right: bytes)
    requires |left| % 3 == 0
    ensures Encode(left + right) == Encode(left) + Encode(right)
    decreases |left|
  {
    hide Encode, EncodeGroup;
    if left == [] {
      assert left + right == right;
      EncodeEmpty();
    } else {
      var g, tail := left[..3], left[3..];
      assert left == g + tail && left + right == g + (tail + right);
      EncodeStep(g, tail);
      EncodeStep(g, tail + right);
      EncodeAppend(tail, right);
    }
  }

  // ---------------------------------------------------------------- the text, by position

  /** The alphabet of table 1 of RFC 4648: capitals, small letters, digits, plus and slash. */
  function Symbol(v: sextet): char {
    if v < 26 then ('A' as int + v) as char
    else if v < 52 then ('a' as int + v - 26) as char
    else "0123456789+/"[v - 52]
  }

  /** A byte of the input, or zero bits behind its end. */
  function BitsAt(input: bytes, i: nat): byte {
    if i < |input| then input[i] else 0
  }

  /** Three bytes from `at` on as one number, the first byte in the highest bits. */
  function Group24(input: bytes, at: nat): nat {
    BitsAt(input, at) * 65536 + BitsAt(input, at + 1) * 256 + BitsAt(input, at + 2)
  }

  /** The character that section 4 of RFC 4648 puts at a position: six bits of a group, the highest first, or padding. */
  function CharacterAt(input: bytes, p: nat): char {
    var at, bits := p / 4 * 3, Group24(input, p / 4 * 3);
    if at + p % 4 > |input| then '='
    else if p % 4 == 0 then Symbol(bits / 262144 % 64)
    else if p % 4 == 1 then Symbol(bits / 4096 % 64)
    else if p % 4 == 2 then Symbol(bits / 64 % 64)
    else Symbol(bits % 64)
  }

  lemma DigitIsSymbol(v: sextet)
    ensures Digit(v) == Symbol(v)
  {
  }

  lemma SixBits(a: byte, b: byte, c: byte)
    ensures var n := a * 65536 + b * 256 + c;
            && n / 262144 % 64 == a / 4 && n / 4096 % 64 == a % 4 * 16 + b / 16
            && n / 64 % 64 == b % 16 * 4 + c / 64 && n % 64 == c % 64
  {
    var n := a * 65536 + b * 256 + c;
    QuotientIs(n, 262144, a / 4, a % 4 * 65536 + b * 256 + c);
    QuotientIs(n, 4096, a * 16 + b / 16, b % 16 * 256 + c);
    QuotientIs(a * 16 + b / 16, 64, a / 4, a % 4 * 16 + b / 16);
    QuotientIs(n, 64, a * 1024 + b * 4 + c / 64, c % 64);
    QuotientIs(a * 1024 + b * 4 + c / 64, 64, a * 16 + b / 16, b % 16 * 4 + c / 64);
  }

  lemma GroupSpelled(g: bytes, p: nat)
    requires 1 <= |g| <= 3 && p < 4
    ensures EncodeGroup(g)[p] == CharacterAt(g, p)
  {
    hide Symbol, Digit;
    var a, b, c := BitsAt(g, 0), BitsAt(g, 1), BitsAt(g, 2);
    SixBits(a, b, c);
    DigitIsSymbol(a / 4);
    DigitIsSymbol(a % 4 * 16 + b / 16);
    DigitIsSymbol(b % 16 * 4 + c / 64);
    DigitIsSymbol(c % 64);
  }

  /** Main result: every position of an encoding holds the character that the standard puts there. */
  lemma {:induction false} EncodeSpelled(input: bytes, p: nat)
    requires p < |Encode(input)|
    ensures |Encode(input)| == (|input| + 2) / 3 * 4 && Encode(input)[p] == CharacterAt(input, p)
    decreases |input|
  {
    hide EncodeGroup, Symbol;
    if |input| <= 3 {
      GroupSpelled(input, p);
    } else {
      var g, rest := input[..3], input[3..];
      EncodeLength(rest);
      if p < 4 {
        GroupSpelled(g, p);
      } else {
        EncodeSpelled(rest, p - 4);
        assert Group24(rest, (p - 4) / 4 * 3) == Group24(input, p / 4 * 3);
      }
    }
  }

  lemma {:induction false} EncodeLength(input: bytes)
    ensures |Encode(input)| == (|input| + 2) / 3 * 4
    decreases |input|
  {
    hide EncodeGroup;
    if |input| > 3 { EncodeLength(input[3..]); }
  }

  const CHUNK_BYTES := 12288

  /** The chunked encoder. Chunk lengths are multiples of three, so only the last chunk pads. */
  method EncodeChunked(input: bytes) returns (text: string)
    ensures text == Encode(input)
  {
    hide Encode;
    EncodeEmpty();
    var chunks: seq<string> := [];
    var offset := 0;
    while offset < |input|
      invariant 0 <= offset && (offset < |input| ==> offset % 3 == 0)
      invariant Flatten(chunks) == Encode(input[..Min(offset, |input|)])
      decreases |input| - offset
    {
      var stop := Min(offset + CHUNK_BYTES, |input|);
      var chunk := input[offset..stop];
      FlattenSnoc(chunks, Encode(chunk));
      EncodeAppend(input[..offset], chunk);
      assert input[..stop] == input[..offset] + chunk;
      chunks := chunks + [Encode(chunk)];
      offset := offset + CHUNK_BYTES;
    }
    assert input[..|input|] == input;
    return Flatten(chunks);
  }
}
