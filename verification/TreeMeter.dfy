/**
 * The records of a tree image and the meter both its reader and its writer charge (`internal/tree.ts`). Base64 fields
 * are canonical strings, as the schema demands; file content by reference is reserved and refused by the reader.
 */
module TreeMeter {
  import opened Basics
  import opened CanonicalBase64
  import opened Forest
  import opened Volumes

  type Canonical = s: string | IsCanonical(s) witness ""

  /** The bytes a canonical field stands for; there is exactly one field for every byte string. */
  function ToBytes(c: Canonical): (b: bytes)
    ensures |b| == DecodedLength(c) && Encode(b) == c
  {
    CanonicalRoundTrip(c);
    Decode(c).value
  }

  function ToText(b: bytes): (c: Canonical)
    ensures ToBytes(c) == b && DecodedLength(c) == |b|
  {
    EncodeRoundTrip(b);
    Encode(b)
  }

  datatype WireLink = WireLink(parent: Ino, name: Canonical)

  datatype Content = Inline(data: Canonical) | Ref(hash: string, size: nat)

  datatype Wire =
    | WireDirectory(ino: Ino, parent: Ino, name: Canonical, metadata: Metadata)
    | WireFile(ino: Ino, links: seq<WireLink>, content: Content, metadata: Metadata)
    | WireSymlink(ino: Ino, links: seq<WireLink>, target: Canonical, metadata: Metadata)

  // ---------------------------------------------------------------- budgets

  const MAX_SAFE_INTEGER := 9007199254740991

  datatype Limit = AtMost(n: nat) | Unbounded

  /** `byteLimit`: a size past the exactly representable integers does not bound anything. */
  function ByteLimit(size: nat): Limit {
    if size > MAX_SAFE_INTEGER then Unbounded else AtMost(size)
  }

  predicate Past(n: int, limit: Limit) { limit.AtMost? && n > limit.n }

  datatype Budget = Budget(encodedBytes: nat, lineBytes: nat, decodedBytes: nat, records: nat, entries: nat)

  /** What a meter has counted. */
  datatype Spent = Spent(encoded: nat, records: nat, entries: nat, decoded: nat)

  function Over(field: string): Failure { Failure(LimitExceeded, field) }

  /** At how many bytes of the current line a bound is crossed, if it is. */
  function CrossedAt(limit: Limit, before: nat, n: nat): Option<int> {
    if Past(before + n, limit) then Some(limit.n - before + 1) else None
  }

  /** Charge a line of `n` bytes so far: the bound that a shorter prefix crosses first is the one reported. */
  function ChargeLine(b: Budget, s: Spent, n: nat, ended: bool): Result<Spent, Failure> {
    var read := n + if ended then 1 else 0;
    var pastLine := CrossedAt(ByteLimit(b.lineBytes), 0, n);
    var pastInput := CrossedAt(ByteLimit(b.encodedBytes), s.encoded, read);
    if pastInput.Some? && (pastLine.None? || pastInput.value <= pastLine.value) then Err(Over("encodedBytes"))
    else if pastLine.Some? then Err(Over("lineBytes"))
    else Ok(if ended then s.(encoded := s.encoded + read) else s)
  }

  predicate MeterOk(b: Budget, s: Spent) { !Past(s.encoded, ByteLimit(b.encodedBytes)) }

  /** The laws the line reader asks of a meter. */
  lemma ChargeLineLawful(b: Budget, s: Spent, n: nat, m: nat, ended: bool)
    requires MeterOk(b, s) && n <= m
    ensures ChargeLine(b, s, 0, false) == Ok(s)
    ensures ChargeLine(b, s, n, false).Ok? ==> ChargeLine(b, s, n, false).value == s
    ensures ChargeLine(b, s, n, false).Err? ==> ChargeLine(b, s, m, ended) == ChargeLine(b, s, n, false)
    ensures ChargeLine(b, s, n, true).Ok? ==> MeterOk(b, ChargeLine(b, s, n, true).value)
  {
  }

  /** A line is refused exactly when it, or the input with it, is too long; the first bound a prefix crosses is named. */
  lemma LineRefused(b: Budget, s: Spent, n: nat, ended: bool, m: nat)
    requires MeterOk(b, s) && m <= n
    ensures ChargeLine(b, s, n, ended).Err? <==>
            Past(n, ByteLimit(b.lineBytes)) || Past(s.encoded + n + (if ended then 1 else 0), ByteLimit(b.encodedBytes))
    ensures Past(m, ByteLimit(b.lineBytes)) && !Past(s.encoded + m, ByteLimit(b.encodedBytes)) ==>
              ChargeLine(b, s, n, ended) == Err(Over("lineBytes"))
    ensures Past(s.encoded + m, ByteLimit(b.encodedBytes)) && !Past(m - 1, ByteLimit(b.lineBytes)) ==>
              ChargeLine(b, s, n, ended) == Err(Over("encodedBytes"))
  {
  }

  function NamesLength(links: seq<WireLink>): nat {
    if links == [] then 0 else NamesLength(links[..|links| - 1]) + |ToBytes(links[|links| - 1].name)|
  }

  /** How many names a record adds. */
  function EntriesOf(w: Wire): nat {
    if w.WireDirectory? then if w.ino == ROOT then 0 else 1 else |w.links|
  }

  /** How many payload and name bytes a record holds once decoded. */
  function DecodedOf(w: Wire): nat {
    match w
    case WireDirectory(ino, _, name, _) => if ino == ROOT then 0 else |ToBytes(name)|
    case WireFile(_, links, content, _) => NamesLength(links) + if content.Inline? then |ToBytes(content.data)| else 0
    case WireSymlink(_, links, target, _) => NamesLength(links) + |ToBytes(target)|
  }

  function ChargeNode(b: Budget, s: Spent, w: Wire): Result<Spent, Failure> {
    var next := Spent(s.encoded, s.records + 1, s.entries + EntriesOf(w), s.decoded + DecodedOf(w));
    if next.records > b.records then Err(Over("records"))
    else if next.entries > b.entries then Err(Over("entries"))
    else if Past(next.decoded, ByteLimit(b.decodedBytes)) then Err(Over("bytes"))
    else Ok(next)
  }

  /** `meter`: the counters one document charges. */
  class Meter {
    const budget: Budget
    var encoded: nat
    var records: nat
    var entries: nat
    var decoded: nat

    function Counted(): Spent reads this { Spent(encoded, records, entries, decoded) }

    constructor (budget: Budget)
      ensures this.budget == budget && Counted() == Spent(0, 0, 0, 0)
    {
      this.budget := budget;
      encoded, records, entries, decoded := 0, 0, 0, 0;
    }

    method Line(n: nat, ended: bool) returns (r: Result<(), Failure>)
      modifies this
      ensures var charged := ChargeLine(budget, old(Counted()), n, ended);
              if r.Ok? then charged == Ok(Counted()) else charged == Err(r.error) && Counted() == old(Counted())
    {
      var read := encoded + n + if ended then 1 else 0;
      var lineBytes, encodedBytes := ByteLimit(budget.lineBytes), ByteLimit(budget.encodedBytes);
      var pastLine: Option<int> := if Past(n, lineBytes) then Some(lineBytes.n + 1) else None;
      var pastInput: Option<int> := if Past(read, encodedBytes) then Some(encodedBytes.n - encoded + 1) else None;
      if pastInput.Some? && (pastLine.None? || pastInput.value <= pastLine.value) { return Err(Over("encodedBytes")); }
      if pastLine.Some? { return Err(Over("lineBytes")); }
      if ended { encoded := read; }
      return Ok(());
    }

    method Node(w: Wire) returns (r: Result<(), Failure>)
      modifies this
      ensures var charged := ChargeNode(budget, old(Counted()), w);
              if r.Ok? then charged == Ok(Counted()) else charged == Err(r.error)
    {
      hide ToBytes, Encode, Decode, IsCanonical, DecodedLength, NamesLength;
      records := records + 1;
      if records > budget.records { return Err(Over("records")); }
      match w {
        case WireDirectory(ino, _, name, _) =>
          if ino != ROOT {
            entries := entries + 1;
            decoded := decoded + |ToBytes(name)|;
          }
        case WireFile(_, links, content, _) =>
          entries := entries + |links|;
          ChargeNames(links);
          if content.Inline? { decoded := decoded + |ToBytes(content.data)|; }
        case WireSymlink(_, links, target, _) =>
          entries := entries + |links|;
          ChargeNames(links);
          decoded := decoded + |ToBytes(target)|;
      }
      if entries > budget.entries { return Err(Over("entries")); }
      if Past(decoded, ByteLimit(budget.decodedBytes)) { return Err(Over("bytes")); }
      return Ok(());
    }

    method ChargeNames(links: seq<WireLink>)
      modifies this`decoded
      ensures decoded == old(decoded) + NamesLength(links)
    {
      for i := 0 to |links|
        invariant decoded == old(decoded) + NamesLength(links[..i])
      {
        assert links[..i + 1][..i] == links[..i];
        decoded := decoded + |ToBytes(links[i].name)|;
      }
      assert links[..|links|] == links;
    }
  }
}
