/**
 * Text classification and offsets of content search (`internal/searchContent.ts`) against the UTF-8 grammar of
 * RFC 3629, section 4, and the UTF-16 units a decoded line counts in.
 */
module Utf8 {
  import opened Basics

  // ---------------------------------------------------------------- the grammar

  predicate Tail(b: byte) { 0x80 <= b <= 0xBF }

  /** `UTF8-char` of RFC 3629, section 4, alternative by alternative. */
  predicate IsChar(c: bytes) {
    || (|c| == 1 && c[0] <= 0x7F)
    || (|c| == 2 && 0xC2 <= c[0] <= 0xDF && Tail(c[1]))
    || (|c| == 3 && c[0] == 0xE0 && 0xA0 <= c[1] <= 0xBF && Tail(c[2]))
    || (|c| == 3 && 0xE1 <= c[0] <= 0xEC && Tail(c[1]) && Tail(c[2]))
    || (|c| == 3 && c[0] == 0xED && 0x80 <= c[1] <= 0x9F && Tail(c[2]))
    || (|c| == 3 && 0xEE <= c[0] <= 0xEF && Tail(c[1]) && Tail(c[2]))
    || (|c| == 4 && c[0] == 0xF0 && 0x90 <= c[1] <= 0xBF && Tail(c[2]) && Tail(c[3]))
    || (|c| == 4 && 0xF1 <= c[0] <= 0xF3 && Tail(c[1]) && Tail(c[2]) && Tail(c[3]))
    || (|c| == 4 && c[0] == 0xF4 && 0x80 <= c[1] <= 0x8F && Tail(c[2]) && Tail(c[3]))
  }

  predicate AllChars(chars: seq<bytes>) { forall i :: 0 <= i < |chars| ==> IsChar(chars[i]) }

  /** `UTF8-octets`: some sequence of characters, one after the other. */
  ghost predicate WellFormed(data: bytes) {
    exists chars: seq<bytes> :: AllChars(chars) && Flatten(chars) == data
  }

  // ---------------------------------------------------------------- the scan

  /** The width a leading byte announces. */
  function ScalarWidth(b: byte): nat {
    if b < 0x80 then 1 else if b < 0xE0 then 2 else if b < 0xF0 then 3 else 4
  }

  /** The character at the front, if there is one. */
  function Front(data: bytes): Option<bytes>
    requires data != []
  {
    var width := ScalarWidth(data[0]);
    if width <= |data| && IsChar(data[..width]) then Some(data[..width]) else None
  }

  /** A character shows its width in its first byte. */
  lemma CharWidth(c: bytes, rest: bytes)
    requires IsChar(c)
    ensures c != [] && ScalarWidth(c[0]) == |c| && Front(c + rest) == Some(c)
  {
    assert (c + rest)[..|c|] == c;
  }

  lemma FlattenCons(first: bytes, chars: seq<bytes>)
    ensures Flatten([first] + chars) == first + Flatten(chars)
  {
    assert ([first] + chars)[1..] == chars;
  }

  /** Well-formed data starts with a character and goes on well formed. */
  lemma WellFormedStep(data: bytes)
    requires data != []
    ensures WellFormed(data) <==> Front(data).Some? && WellFormed(data[ScalarWidth(data[0])..])
  {
    var width := ScalarWidth(data[0]);
    if WellFormed(data) {
      var chars: seq<bytes> :| AllChars(chars) && Flatten(chars) == data;
      assert chars != [];
      CharWidth(chars[0], Flatten(chars[1..]));
      assert data[width..] == Flatten(chars[1..]);
      assert AllChars(chars[1..]);
    }
    if Front(data).Some? && WellFormed(data[width..]) {
      var chars: seq<bytes> :| AllChars(chars) && Flatten(chars) == data[width..];
      FlattenCons(data[..width], chars);
      assert data == data[..width] + data[width..];
      assert AllChars([data[..width]] + chars);
    }
  }

  lemma EmptyWellFormed()
    ensures WellFormed([])
  {
    assert AllChars([]) && Flatten<byte>([]) == [];
  }

  /** The characters of well-formed data; there is one way to read them. */
  ghost function Chars(data: bytes): (chars: seq<bytes>)
    requires WellFormed(data)
    ensures AllChars(chars) && Flatten(chars) == data
    decreases |data|
  {
    if data == [] then []
    else
      WellFormedStep(data);
      var width := ScalarWidth(data[0]);
      FlattenCons(data[..width], Chars(data[width..]));
      [data[..width]] + Chars(data[width..])
  }

  lemma {:induction false} CharsUnique(chars: seq<bytes>)
    requires AllChars(chars)
    ensures WellFormed(Flatten(chars)) && Chars(Flatten(chars)) == chars
    decreases |chars|
  {
    assert WellFormed(Flatten(chars));
    if chars != [] {
      var rest := chars[1..];
      assert AllChars(rest);
      CharsUnique(rest);
      CharWidth(chars[0], Flatten(rest));
      assert Flatten(chars)[|chars[0]|..] == Flatten(rest);
      assert chars == [chars[0]] + rest;
    }
  }

  datatype Class = Text | Binary | Invalid

  /** The checks of the scan, in its order, are the grammar. */
  lemma ScanIsGrammar(data: bytes, index: nat)
    requires index < |data|
    ensures var first, width := data[index], ScalarWidth(data[index]);
            Front(data[index..]).Some? <==>
            || first < 0x80
            || (&& 0xC2 <= first <= 0xF4 && index + width <= |data|
                && 0x80 <= data[index + 1] <= 0xBF
                && !(first == 0xE0 && data[index + 1] < 0xA0) && !(first == 0xED && data[index + 1] > 0x9F)
                && !(first == 0xF0 && data[index + 1] < 0x90) && !(first == 0xF4 && data[index + 1] > 0x8F)
                && (forall k :: index + 2 <= k < index + width ==> Tail(data[k])))
  {
    var rest := data[index..];
    var width := ScalarWidth(rest[0]);
    assert forall k :: 0 <= k < |rest| ==> rest[k] == data[index + k];
    if index + width <= |data| {
      var c := rest[..width];
      assert forall k :: 0 <= k < width ==> c[k] == data[index + k];
      if rest[0] >= 0x80 {
        assert c[1] == data[index + 1];
        if width >= 3 { assert c[2] == data[index + 2]; }
        if width >= 4 { assert c[3] == data[index + 3]; }
      }
    }
  }

  /** `classify`: text is exactly the well-formed data without a NUL. */
  method Classify(data: bytes) returns (r: Class)
    ensures r == Text <==> WellFormed(data) && 0 !in data
    ensures r == Binary <==> WellFormed(data) && 0 in data
  {
    hide WellFormed, IsChar;
    EmptyWellFormed();
    var binary, index := false, 0;
    assert data[0..] == data;
    while index < |data|
      invariant index <= |data| && (binary <==> 0 in data[..index])
      invariant WellFormed(data) <==> WellFormed(data[index..])
      decreases |data| - index
    {
      WellFormedStep(data[index..]);
      ScanIsGrammar(data, index);
      var first := data[index];
      var width := ScalarWidth(first);
      if first == 0 { binary := true; }
      if first < 0x80 {
        assert data[..index + 1] == data[..index] + [first] && data[index..][1..] == data[index + 1..];
        index := index + 1;
      } else {
        if first < 0xC2 || first > 0xF4 || index + width > |data| { return Invalid; }
        var second := data[index + 1];
        if second < 0x80 || second > 0xBF { return Invalid; }
        if (first == 0xE0 && second < 0xA0) || (first == 0xED && second > 0x9F) { return Invalid; }
        if (first == 0xF0 && second < 0x90) || (first == 0xF4 && second > 0x8F) { return Invalid; }
        for offset := 2 to width
          invariant forall k :: index + 2 <= k < index + offset ==> Tail(data[k])
        {
          if data[index + offset] < 0x80 || data[index + offset] > 0xBF { return Invalid; }
        }
        NoZero(data, index, width);
        assert data[index..][width..] == data[index + width..];
        index := index + width;
      }
    }
    assert data[..|data|] == data && data[|data|..] == [];
    return if binary then Binary else Text;
  }

  lemma NoZero(data: bytes, index: nat, width: nat)
    requires index + width <= |data| && forall k :: index <= k < index + width ==> data[k] != 0
    ensures 0 in data[..index + width] <==> 0 in data[..index]
  {
    var a, b := data[..index + width], data[..index];
    if 0 in a {
      var k :| 0 <= k < |a| && a[k] == 0;
      assert data[k] == 0;
      assert b[k] == 0;
    }
    if 0 in b {
      var k :| 0 <= k < |b| && b[k] == 0;
      assert a[k] == 0;
    }
  }

  // ---------------------------------------------------------------- cutting text

  /** Text before and after an ASCII byte is text. */
  lemma {:induction false} CutAscii(a: bytes, b: byte, rest: bytes)
    requires b < 0x80
    ensures WellFormed(a + [b] + rest) <==> WellFormed(a) && WellFormed(rest)
    decreases |a|
  {
    hide WellFormed, IsChar;
    var data := a + [b] + rest;
    WellFormedStep(data);
    if a == [] {
      EmptyWellFormed();
      AsciiFront(data);
      assert data[1..] == rest;
    } else {
      WellFormedStep(a);
      var width := ScalarWidth(a[0]);
      FrontBeforeAscii(a, b, rest);
      if width <= |a| {
        assert data[width..] == a[width..] + [b] + rest;
        CutAscii(a[width..], b, rest);
      }
    }
  }

  lemma AsciiFront(data: bytes)
    requires data != [] && data[0] < 0x80
    ensures Front(data).Some? && ScalarWidth(data[0]) == 1
  {
  }

  /** A character does not run over an ASCII byte. */
  lemma FrontBeforeAscii(a: bytes, b: byte, rest: bytes)
    requires b < 0x80 && a != []
    ensures Front(a + [b] + rest).Some? <==> Front(a).Some?
  {
    var data, width := a + [b] + rest, ScalarWidth(a[0]);
    if width <= |a| {
      assert data[..width] == a[..width];
    } else if width <= |data| {
      assert data[..width][|a|] == b;
    }
  }

  // ---------------------------------------------------------------- UTF-16

  /** The code point of a character (section 3 of RFC 3629). */
  function Scalar(c: bytes): int
    requires IsChar(c)
  {
    if |c| == 1 then c[0]
    else if |c| == 2 then (c[0] as int - 0xC0) * 64 + (c[1] as int - 0x80)
    else if |c| == 3 then ((c[0] as int - 0xE0) * 64 + (c[1] as int - 0x80)) * 64 + (c[2] as int - 0x80)
    else (((c[0] as int - 0xF0) * 64 + (c[1] as int - 0x80)) * 64 + (c[2] as int - 0x80)) * 64 + (c[3] as int - 0x80)
  }

  /** The UTF-16 units of a code point: a surrogate pair past the basic plane. */
  function UnitsOf(scalar: int): seq<int> {
    if scalar < 0x10000 then [scalar]
    else [0xD800 + (scalar - 0x10000) / 0x400, 0xDC00 + (scalar - 0x10000) % 0x400]
  }

  lemma UnitCount(c: bytes)
    requires IsChar(c)
    ensures |UnitsOf(Scalar(c))| == if |c| == 4 then 2 else 1
  {
  }

  /** A decoded line: the UTF-16 units of its characters. */
  function Units(chars: seq<bytes>): seq<int>
    requires AllChars(chars)
  {
    if chars == [] then [] else UnitsOf(Scalar(chars[0])) + Units(chars[1..])
  }

  lemma {:induction false} UnitsAppend(a: seq<bytes>, b: seq<bytes>)
    requires AllChars(a) && AllChars(b)
    ensures AllChars(a + b) && Units(a + b) == Units(a) + Units(b)
    decreases |a|
  {
    hide UnitsOf, Scalar, IsChar;
    if a == [] {
      assert a + b == b;
    } else {
      assert (a + b)[1..] == a[1..] + b;
      UnitsAppend(a[1..], b);
    }
  }

  lemma CutChars(chars: seq<bytes>, i: nat)
    requires AllChars(chars) && i <= |chars|
    ensures AllChars(chars[..i]) && AllChars(chars[i..])
    ensures Flatten(chars) == Flatten(chars[..i]) + Flatten(chars[i..]) && Units(chars) == Units(chars[..i]) + Units(chars[i..])
  {
    hide IsChar, Units, Flatten;
    assert chars == chars[..i] + chars[i..];
    FlattenAppend(chars[..i], chars[i..]);
    UnitsAppend(chars[..i], chars[i..]);
  }

  /** Moving one character on. */
  lemma NextChar(chars: seq<bytes>, i: nat)
    requires AllChars(chars) && i < |chars|
    ensures AllChars(chars[..i]) && AllChars(chars[..i + 1])
    ensures |Flatten(chars[..i + 1])| == |Flatten(chars[..i])| + |chars[i]| <= |Flatten(chars)|
    ensures |Units(chars[..i + 1])| == |Units(chars[..i])| + (if |chars[i]| == 4 then 2 else 1)
    ensures Flatten(chars)[|Flatten(chars[..i])|..|Flatten(chars[..i + 1])|] == chars[i]
    ensures chars[i] != [] && ScalarWidth(chars[i][0]) == |chars[i]|
    ensures Flatten(chars)[|Flatten(chars[..i])|] == chars[i][0]
  {
    CharWidth(chars[i], []);
    UnitCount(chars[i]);
    CutChars(chars, i);
    CutChars(chars, i + 1);
    hide IsChar, UnitsOf, Scalar;
    assert chars[..i + 1] == chars[..i] + [chars[i]];
    FlattenSnoc(chars[..i], chars[i]);
    assert AllChars([chars[i]]);
    UnitsAppend(chars[..i], [chars[i]]);
    assert Units([chars[i]]) == UnitsOf(Scalar(chars[i])) + Units([chars[i]][1..]);
  }

  lemma {:induction false} UnitsMonotone(chars: seq<bytes>, i: nat, j: nat)
    requires AllChars(chars) && i < j <= |chars|
    ensures AllChars(chars[..i]) && AllChars(chars[..j]) && |Units(chars[..i])| < |Units(chars[..j])|
    ensures |Flatten(chars[..i])| < |Flatten(chars[..j])|
    decreases j
  {
    hide IsChar, Units, Flatten;
    NextChar(chars, j - 1);
    if i < j - 1 { UnitsMonotone(chars, i, j - 1); }
  }

  /**
   * `offsets`: a match from UTF-16 unit `matchStart` to `matchEnd` of a line that starts at byte `start`, as bytes. The
   * match starts at the `i`-th character and ends before the `j`-th, as matches of Unicode patterns do.
   */
  method Offsets(data: bytes, start: nat, matchStart: nat, matchEnd: nat, ghost chars: seq<bytes>, ghost i: nat, ghost j: nat)
    returns (rangeStart: nat, rangeEnd: nat)
    requires AllChars(chars) && start + |Flatten(chars)| <= |data| && data[start..start + |Flatten(chars)|] == Flatten(chars)
    requires i <= j <= |chars| && AllChars(chars[..i]) && AllChars(chars[..j])
    requires matchStart == |Units(chars[..i])| && matchEnd == |Units(chars[..j])|
    ensures rangeStart == start + |Flatten(chars[..i])| && rangeEnd == start + |Flatten(chars[..j])|
  {
    hide IsChar, Units, Flatten;
    NothingBefore(chars);
    var index, units := start, 0;
    rangeStart := start;
    ghost var k := 0;
    while units < matchEnd
      invariant k <= |chars| && AllChars(chars[..k]) && units == |Units(chars[..k])| && index == start + |Flatten(chars[..k])|
      invariant k <= j && (k > i ==> rangeStart == start + |Flatten(chars[..i])|)
      decreases |chars| - k
    {
      assert k < j;
      NextChar(chars, k);
      assert data[index] == Flatten(chars)[|Flatten(chars[..k])|];
      if units == matchStart {
        SameUnits(chars, k, i);
        rangeStart := index;
      } else if k < i {
        UnitsMonotone(chars, k, i);
      }
      var width := ScalarWidth(data[index]);
      units := units + if width == 4 then 2 else 1;
      index := index + width;
      k := k + 1;
    }
    if k < j { UnitsMonotone(chars, k, j); }
    if matchStart == matchEnd {
      SameUnits(chars, i, j);
      rangeStart := index;
    }
    return rangeStart, index;
  }

  lemma NothingBefore(chars: seq<bytes>)
    ensures AllChars(chars[..0]) && Units(chars[..0]) == [] && Flatten(chars[..0]) == []
  {
    assert chars[..0] == [];
  }

  lemma SameUnits(chars: seq<bytes>, i: nat, j: nat)
    requires AllChars(chars) && i <= |chars| && j <= |chars| && AllChars(chars[..i]) && AllChars(chars[..j])
    requires |Units(chars[..i])| == |Units(chars[..j])|
    ensures i == j
  {
    if i < j { UnitsMonotone(chars, i, j); }
    if j < i { UnitsMonotone(chars, j, i); }
  }

  /** The byte range of a match holds exactly the matched units. */
  lemma RangeIsMatch(chars: seq<bytes>, i: nat, j: nat)
    requires AllChars(chars) && i <= j <= |chars|
    ensures AllChars(chars[..i]) && AllChars(chars[..j]) && AllChars(chars[i..j])
    ensures var (a, b) := (|Flatten(chars[..i])|, |Flatten(chars[..j])|);
            a <= b <= |Flatten(chars)| && Flatten(chars)[a..b] == Flatten(chars[i..j])
    ensures var (a, b) := (|Units(chars[..i])|, |Units(chars[..j])|);
            a <= b <= |Units(chars)| && Units(chars)[a..b] == Units(chars[i..j])
  {
    CutChars(chars, j);
    CutChars(chars[..j], i);
    assert chars[..j][..i] == chars[..i] && chars[..j][i..] == chars[i..j];
    hide IsChar, Units, Flatten;
  }

  // ---------------------------------------------------------------- excerpts

  /**
   * The excerpt loop: the longest run of whole characters from `from` to at most `end` that fits the limit. `chars`
   * are the characters from the match's start to the line's end.
   */
  method ExcerptEnd(data: bytes, from: nat, end: nat, limit: nat, ghost chars: seq<bytes>) returns (stop: nat, ghost n: nat)
    requires from <= end <= |data| && AllChars(chars) && Flatten(chars) == data[from..end]
    ensures n <= |chars| && stop == from + |Flatten(chars[..n])| <= end && data[from..stop] == Flatten(chars[..n])
    ensures stop - from <= limit
    ensures forall m: nat :: n < m <= |chars| ==> |Flatten(chars[..m])| > limit
    ensures stop == end <==> n == |chars|
  {
    hide IsChar, Flatten;
    NothingBefore(chars);
    assert chars[..|chars|] == chars;
    stop, n := from, 0;
    while stop < end
      invariant n <= |chars| && stop == from + |Flatten(chars[..n])| <= end && stop - from <= limit
      decreases |chars| - n
    {
      assert n < |chars|;
      NextChar(chars, n);
      assert data[stop] == data[from..end][|Flatten(chars[..n])|];
      var width := ScalarWidth(data[stop]);
      if stop + width - from > limit {
        forall m: nat | n < m <= |chars| ensures |Flatten(chars[..m])| > limit {
          if n + 1 < m { UnitsMonotone(chars, n + 1, m); }
        }
        PrefixBytes(data, from, end, chars, n);
        return stop, n;
      }
      stop := stop + width;
      n := n + 1;
    }
    if n < |chars| { UnitsMonotone(chars, n, |chars|); }
    PrefixBytes(data, from, end, chars, n);
  }

  lemma PrefixBytes(data: bytes, from: nat, end: nat, chars: seq<bytes>, n: nat)
    requires from <= end <= |data| && AllChars(chars) && Flatten(chars) == data[from..end] && n <= |chars|
    ensures from + |Flatten(chars[..n])| <= end && data[from..from + |Flatten(chars[..n])|] == Flatten(chars[..n])
    ensures from + |Flatten(chars[..n])| == end ==> n == |chars|
  {
    CutChars(chars, n);
    hide IsChar, Flatten;
    var k := |Flatten(chars[..n])|;
    assert data[from..end][..k] == data[from..from + k];
    assert chars[..|chars|] == chars;
    if n < |chars| { UnitsMonotone(chars, n, |chars|); }
  }
}
