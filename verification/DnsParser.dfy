/** The parser of DNS packets (dns.c; sections 4.1.1 to 4.1.4 of RFC 1035). */
module DnsParser {
  import opened Bytes
  import opened DnsPacket

  datatype Error = BadNamePointer | BadSize | BadClass | BadArgument

  datatype Outcome<T> = Ok(value: T) | Err(error: Error)

  // A value and the number of bytes it took in the packet.
  datatype Parsed<T> = Parsed(item: T, length: nat)

  // A packet and what lies behind it: the parser looks at some bytes before it checks their position,
  // so bytes past the end are readable, but nothing is known of them.
  datatype Memory = Memory(packet: seq<byte>, beyond: nat -> byte) {
    function At(i: nat): byte { if i < |packet| then packet[i] else beyond(i) }

    function Read(i: nat, n: nat): (s: seq<byte>)
      ensures |s| == n && forall k :: 0 <= k < n ==> s[k] == At(i + k)
    {
      seq<byte>(n, k requires 0 <= k < n => At(i + k))
    }

    function At16(i: nat): uint16 { Get16(At(i), At(i + 1)) }

    function At32(i: nat): uint32 { Get32(At(i), At(i + 1), At(i + 2), At(i + 3)) }

    lemma ReadInside(i: nat, n: nat)
      requires i + n <= |packet|
      ensures Read(i, n) == packet[i..i + n]
    {
    }
  }

  // ----- names -----

  const MAX_DEPTH := 10
  const COMPRESSION := 0xc0

  // The 14-bit offset of a compression pointer.
  function Offset(high: byte, low: byte): nat
    requires high >= COMPRESSION
  {
    (high - COMPRESSION) * 0x100 + low
  }

  // What get_name_len returns: how many bytes the name takes at its place, how many bytes its text has.
  datatype Extent = Extent(parsed: nat, length: nat)

  function Extend(parsed: nat, length: nat, rest: Outcome<Extent>): Outcome<Extent> {
    match rest
    case Ok(x) => Ok(Extent(parsed + x.parsed, length + x.length))
    case Err(e) => Err(e)
  }

  // One label and, unless it is the last, the dot after it.
  function LabelLength(m: Memory, p: nat): nat {
    m.At(p) + if m.At(p + m.At(p) + 1) != 0 then 1 else 0
  }

  function Measure(m: Memory, depth: nat, p: nat): Outcome<Extent>
    decreases MAX_DEPTH + 1 - depth, |m.packet| - p
  {
    if depth > MAX_DEPTH then Err(BadNamePointer)
    else if m.At(p) == 0 then Ok(Extent(1, 0))
    else if m.At(p) >= COMPRESSION then
      var offset := Offset(m.At(p), m.At(p + 1));
      if offset >= |m.packet| then Err(BadNamePointer)
      else match Measure(m, depth + 1, offset)
           case Ok(x) => Ok(Extent(2, x.length))
           case Err(e) => Err(e)
    else
      var next := p + m.At(p) + 1;
      if m.At(p) > |m.packet| then Err(BadNamePointer)
      else if next >= |m.packet| then Err(BadSize)
      else Extend(m.At(p) + 1, LabelLength(m, p), Measure(m, depth, next))
  }

  function Prefixed(head: Name, rest: Outcome<Name>): Outcome<Name> {
    match rest
    case Ok(name) => Ok(head + name)
    case Err(e) => Err(e)
  }

  function LabelText(m: Memory, p: nat): (text: Name)
    ensures |text| == LabelLength(m, p)
  {
    m.Read(p + 1, m.At(p)) + if m.At(p + m.At(p) + 1) != 0 then [DOT] else []
  }

  // What get_name appends to the name.
  function Spelled(m: Memory, depth: nat, p: nat): Outcome<Name>
    decreases MAX_DEPTH + 1 - depth, |m.packet| - p
  {
    if depth > MAX_DEPTH then Err(BadNamePointer)
    else if m.At(p) == 0 then Ok([])
    else if m.At(p) >= COMPRESSION then
      var offset := Offset(m.At(p), m.At(p + 1));
      if offset >= |m.packet| then Err(BadNamePointer) else Spelled(m, depth + 1, offset)
    else
      var next := p + m.At(p) + 1;
      if m.At(p) > |m.packet| then Err(BadNamePointer)
      else if next >= |m.packet| then Err(BadSize)
      else Prefixed(LabelText(m, p), Spelled(m, depth, next))
  }

  // The measuring pass and the copying pass agree on every packet: they fail alike, and when they
  // succeed the text copied has exactly the length measured.
  lemma {:induction false} PassesAgree(m: Memory, depth: nat, p: nat)
    ensures match Measure(m, depth, p)
            case Ok(x) => Spelled(m, depth, p).Ok? && |Spelled(m, depth, p).value| == x.length
            case Err(e) => Spelled(m, depth, p) == Err(e)
    decreases MAX_DEPTH + 1 - depth, |m.packet| - p
  {
    hide Offset, LabelText, LabelLength;
    if depth > MAX_DEPTH || m.At(p) == 0 {
    } else if m.At(p) >= COMPRESSION {
      var offset := Offset(m.At(p), m.At(p + 1));
      if offset < |m.packet| { PassesAgree(m, depth + 1, offset); }
    } else {
      var next := p + m.At(p) + 1;
      if m.At(p) <= |m.packet| && next < |m.packet| { PassesAgree(m, depth, next); }
    }
  }

  // A pointer that leads back to itself is refused.
  lemma {:induction false} CycleRefused(m: Memory, depth: nat, p: nat)
    requires p < |m.packet| && m.At(p) >= COMPRESSION && Offset(m.At(p), m.At(p + 1)) == p
    ensures Measure(m, depth, p) == Err(BadNamePointer)
    decreases MAX_DEPTH + 1 - depth
  {
    if depth <= MAX_DEPTH { CycleRefused(m, depth + 1, p); }
  }

  // get_name_len
  method GetNameLen(m: Memory, depth: nat, start: nat) returns (r: Outcome<Extent>)
    ensures r == Measure(m, depth, start)
    decreases MAX_DEPTH + 1 - depth
  {
    hide Offset, LabelLength;
    if depth > MAX_DEPTH { return Err(BadNamePointer); }
    var p, parsed: nat, length: nat := start, 0, 0;
    while m.At(p) != 0
      invariant Measure(m, depth, start) == Extend(parsed, length, Measure(m, depth, p))
      decreases |m.packet| - p
    {
      if m.At(p) >= COMPRESSION {
        var offset := Offset(m.At(p), m.At(p + 1));
        if offset >= |m.packet| { return Err(BadNamePointer); }
        var target := GetNameLen(m, depth + 1, offset);
        if target.Err? { return target; }
        return Ok(Extent(parsed + 2, length + target.value.length));
      }
      var n := m.At(p);
      if n > |m.packet| { return Err(BadNamePointer); }
      parsed, length := parsed + n + 1, length + LabelLength(m, p);
      p := p + n + 1;
      if p >= |m.packet| { return Err(BadSize); }
    }
    return Ok(Extent(parsed + 1, length));
  }

  lemma AtEnd(m: Memory, depth: nat, p: nat)
    requires Measure(m, depth, p).Ok? && m.At(p) == 0
    ensures Measure(m, depth, p).value.length == 0 && Spelled(m, depth, p) == Ok([])
  {
  }

  lemma AtPointer(m: Memory, depth: nat, p: nat)
    requires Measure(m, depth, p).Ok? && m.At(p) >= COMPRESSION
    ensures var offset := Offset(m.At(p), m.At(p + 1));
            && depth < MAX_DEPTH && offset < |m.packet|
            && Measure(m, depth + 1, offset).Ok?
            && Measure(m, depth + 1, offset).value.length == Measure(m, depth, p).value.length
            && Spelled(m, depth, p) == Spelled(m, depth + 1, offset)
  {
    hide Offset;
  }

  lemma AtLabel(m: Memory, depth: nat, p: nat)
    requires Measure(m, depth, p).Ok? && 0 < m.At(p) < COMPRESSION
    ensures var next := p + m.At(p) + 1;
            && m.At(p) <= |m.packet| && next < |m.packet|
            && Measure(m, depth, next).Ok?
            && Measure(m, depth, p).value.length == LabelLength(m, p) + Measure(m, depth, next).value.length
            && Spelled(m, depth, p) == Prefixed(LabelText(m, p), Spelled(m, depth, next))
  {
    hide LabelLength, LabelText;
  }

  // get_name, called after get_name_len has succeeded at the same place: none of its own checks fails,
  // every label it copies lies inside the packet, and it writes exactly the bytes measured.
  method GetName(m: Memory, depth: nat, start: nat, name: array<byte>, slen: nat) returns (end: nat)
    requires Measure(m, depth, start).Ok?
    requires slen + Measure(m, depth, start).value.length <= name.Length
    modifies name
    ensures end == slen + Measure(m, depth, start).value.length
    ensures Spelled(m, depth, start) == Ok(name[slen..end])
    ensures name[..slen] == old(name[..slen]) && name[end..] == old(name[end..])
    decreases MAX_DEPTH + 1 - depth
  {
    hide Offset, LabelLength, LabelText, Measure, Spelled;
    ghost var was := name[..];
    ghost var length := Measure(m, depth, start).value.length;
    var p := start;
    end := slen;
    PrefixedByNothing(Spelled(m, depth, start));
    assert name[slen..end] == [];
    while m.At(p) != 0
      invariant slen <= end
      invariant Measure(m, depth, p).Ok? && end + Measure(m, depth, p).value.length == slen + length
      invariant Spelled(m, depth, start) == Prefixed(name[slen..end], Spelled(m, depth, p))
      invariant forall k :: 0 <= k < name.Length && !(slen <= k < end) ==> name[k] == was[k]
      decreases |m.packet| - p
    {
      if m.At(p) >= COMPRESSION {
        AtPointer(m, depth, p);
        var offset := Offset(m.At(p), m.At(p + 1));
        ghost var done := name[slen..end];
        var last := GetName(m, depth + 1, offset, name, end);
        assert name[slen..last] == done + name[end..last];
        end := last;
        return;
      }
      AtLabel(m, depth, p);
      ghost var done, rest := name[slen..end], Spelled(m, depth, p + m.At(p) + 1);
      var next := PutLabel(m, p, name, end);
      assert name[slen..next] == done + LabelText(m, p);
      PrefixedTwice(done, LabelText(m, p), rest);
      end := next;
      p := p + m.At(p) + 1;
    }
    AtEnd(m, depth, p);
    assert name[slen..end] + [] == name[slen..end];
  }

  lemma PrefixedByNothing(rest: Outcome<Name>)
    ensures Prefixed([], rest) == rest
  {
    if rest.Ok? { assert [] + rest.value == rest.value; }
  }

  lemma PrefixedTwice(a: Name, b: Name, rest: Outcome<Name>)
    ensures Prefixed(a, Prefixed(b, rest)) == Prefixed(a + b, rest)
  {
    if rest.Ok? { assert a + (b + rest.value) == (a + b) + rest.value; }
  }

  method PutLabel(m: Memory, p: nat, name: array<byte>, slen: nat) returns (end: nat)
    requires p + m.At(p) + 1 < |m.packet|
    requires slen + LabelLength(m, p) <= name.Length
    modifies name
    ensures end == slen + LabelLength(m, p) && name[slen..end] == LabelText(m, p)
    ensures name[..slen] == old(name[..slen]) && name[end..] == old(name[end..])
  {
    var n := m.At(p);
    m.ReadInside(p + 1, n);
    var text := m.packet[p + 1..p + 1 + n];
    forall k | 0 <= k < n { name[slen + k] := text[k]; }
    end := slen + n;
    if m.At(p + n + 1) != 0 {
      name[end] := DOT;
      end := end + 1;
    }
  }

  // ----- records -----

  function NameAt(m: Memory, p: nat): Outcome<Parsed<Name>> {
    match Measure(m, 0, p)
    case Err(e) => Err(e)
    case Ok(x) =>
      match Spelled(m, 0, p)
      case Err(e) => Err(e)
      case Ok(name) => Ok(Parsed(name, x.parsed))
  }

  // The type and class after the name are read without a check that the packet holds them.
  function QueryAt(m: Memory, p: nat): Outcome<Parsed<Query>> {
    match NameAt(m, p)
    case Err(e) => Err(e)
    case Ok(name) =>
      var q := p + name.length;
      Ok(Parsed(Query(name.item, m.At16(q), m.At16(q + 2)), name.length + 4))
  }

  predicate KnownType(rtype: uint16) {
    rtype == TYPE_A || rtype == TYPE_AAAA || HoldsName(rtype) || rtype == TYPE_SRV
  }

  // Addresses and names are taken from the data whatever its stated length is.
  function RdataAt(m: Memory, rtype: uint16, rdlength: nat, p: nat): Outcome<Parsed<Rdata>> {
    if rtype == TYPE_A then Ok(Parsed(Address(m.Read(p, 4)), 4))
    else if rtype == TYPE_AAAA then Ok(Parsed(Address6(m.Read(p, 16)), 16))
    else if HoldsName(rtype) then
      match NameAt(m, p)
      case Err(e) => Err(e)
      case Ok(name) => Ok(Parsed(Alias(name.item), name.length))
    else if rtype == TYPE_SRV then
      match NameAt(m, p + 6)
      case Err(e) => Err(e)
      case Ok(name) =>
        Ok(Parsed(Service(m.At16(p), m.At16(p + 2), m.At16(p + 4), name.item), name.length + 6))
    else Ok(Parsed(Raw(m.Read(p, rdlength)), rdlength))
  }

  // The record whose name has been read and whose other fields start at p.
  function FieldsAt(m: Memory, name: Name, p: nat): Outcome<Parsed<Record>> {
    var rtype, rclass, ttl, rdlength := m.At16(p), m.At16(p + 2), m.At32(p + 4), m.At16(p + 8);
    if p + 10 > |m.packet| then Err(BadSize)
    else if rclass != CLASS_IN && KnownType(rtype) then Err(BadClass)
    else if p + 10 + rdlength > |m.packet| then Err(BadSize)
    else
      match RdataAt(m, rtype, rdlength, p + 10)
      case Err(e) => Err(e)
      case Ok(rdata) => Ok(Parsed(Record(name, rtype, rclass, ttl, rdata.item), 10 + rdata.length))
  }

  function RecordAt(m: Memory, p: nat): Outcome<Parsed<Record>> {
    match NameAt(m, p)
    case Err(e) => Err(e)
    case Ok(name) => Longer(name.length, FieldsAt(m, name.item, p + name.length))
  }

  function Longer<T>(length: nat, r: Outcome<Parsed<T>>): Outcome<Parsed<T>> {
    match r
    case Err(e) => Err(e)
    case Ok(x) => Ok(Parsed(x.item, length + x.length))
  }

  // n records in a row.
  function QueriesAt(m: Memory, n: nat, p: nat): Outcome<Parsed<seq<Query>>> {
    if n == 0 then Ok(Parsed([], 0))
    else
      match QueryAt(m, p)
      case Err(e) => Err(e)
      case Ok(q) => Preceded([q.item], q.length, QueriesAt(m, n - 1, p + q.length))
  }

  function RecordsAt(m: Memory, n: nat, p: nat): Outcome<Parsed<seq<Record>>> {
    if n == 0 then Ok(Parsed([], 0))
    else
      match RecordAt(m, p)
      case Err(e) => Err(e)
      case Ok(r) => Preceded([r.item], r.length, RecordsAt(m, n - 1, p + r.length))
  }

  function Preceded<T>(items: seq<T>, length: nat, rest: Outcome<Parsed<seq<T>>>): Outcome<Parsed<seq<T>>> {
    match rest
    case Err(e) => Err(e)
    case Ok(x) => Ok(Parsed(items + x.item, length + x.length))
  }

  // The packet in a memory that holds it.
  function PacketAt(m: Memory): Outcome<Packet> {
    if |m.packet| == 0 then Err(BadArgument)
    else if |m.packet| < HEADER_SIZE then Err(BadSize)
    else
      match QueriesAt(m, m.At16(4), HEADER_SIZE)
      case Err(e) => Err(e)
      case Ok(qd) =>
        var p := HEADER_SIZE + qd.length;
        match RecordsAt(m, m.At16(6), p)
        case Err(e) => Err(e)
        case Ok(an) =>
          match RecordsAt(m, m.At16(8), p + an.length)
          case Err(e) => Err(e)
          case Ok(ns) =>
            match RecordsAt(m, m.At16(10), p + an.length + ns.length)
            case Err(e) => Err(e)
            case Ok(ar) => Ok(Packet(m.At16(0), m.At16(2), qd.item, an.item, ns.item, ar.item))
  }

  // ----- the parsing functions -----

  // A name is measured, memory of the measured size is allocated, and the name is copied into it.
  method ParseName(m: Memory, start: nat, spare: nat) returns (r: Outcome<Parsed<Name>>)
    ensures r == NameAt(m, start)
  {
    hide Measure, Spelled;
    var extent := GetNameLen(m, 0, start);
    if extent.Err? { return Err(extent.error); }
    var name := new byte[extent.value.length + spare];
    var end := GetName(m, 0, start, name, 0);
    return Ok(Parsed(name[..end], extent.value.parsed));
  }

  method ParseQuery(m: Memory, start: nat) returns (r: Outcome<Parsed<Query>>)
    ensures r == QueryAt(m, start)
  {
    hide NameAt;
    var name := ParseName(m, start, 4);
    if name.Err? { return Err(name.error); }
    var p := start + name.value.length;
    return Ok(Parsed(Query(name.value.item, m.At16(p), m.At16(p + 2)), name.value.length + 4));
  }

  method ParseRdata(m: Memory, rtype: uint16, rdlength: nat, p: nat) returns (r: Outcome<Parsed<Rdata>>)
    ensures r == RdataAt(m, rtype, rdlength, p)
  {
    hide NameAt;
    if rtype == TYPE_A {
      return Ok(Parsed(Address(m.Read(p, 4)), 4));
    } else if rtype == TYPE_AAAA {
      return Ok(Parsed(Address6(m.Read(p, 16)), 16));
    } else if HoldsName(rtype) {
      var name := ParseName(m, p, 0);
      if name.Err? { return Err(name.error); }
      return Ok(Parsed(Alias(name.value.item), name.value.length));
    } else if rtype == TYPE_SRV {
      var name := ParseName(m, p + 6, 0);
      if name.Err? { return Err(name.error); }
      return Ok(Parsed(Service(m.At16(p), m.At16(p + 2), m.At16(p + 4), name.value.item), name.value.length + 6));
    } else {
      return Ok(Parsed(Raw(m.Read(p, rdlength)), rdlength));
    }
  }

  method ParseRecord(m: Memory, start: nat) returns (r: Outcome<Parsed<Record>>)
    ensures r == RecordAt(m, start)
  {
    hide NameAt, RdataAt;
    var name := ParseName(m, start, 4);
    if name.Err? { return Err(name.error); }
    var p := start + name.value.length;
    if p + 10 > |m.packet| { return Err(BadSize); }
    var rtype, rclass := m.At16(p), m.At16(p + 2);
    if rclass != CLASS_IN && KnownType(rtype) { return Err(BadClass); }
    var ttl, rdlength := m.At32(p + 4), m.At16(p + 8);
    if p + 10 + rdlength > |m.packet| { return Err(BadSize); }
    var rdata := ParseRdata(m, rtype, rdlength, p + 10);
    if rdata.Err? { return Err(rdata.error); }
    return Ok(Parsed(Record(name.value.item, rtype, rclass, ttl, rdata.value.item),
                     name.value.length + 10 + rdata.value.length));
  }

  method ParseQueries(m: Memory, n: nat, start: nat) returns (r: Outcome<Parsed<seq<Query>>>)
    ensures r == QueriesAt(m, n, start)
  {
    hide QueryAt;
    var items, p := [], start;
    PrecededByNothing(QueriesAt(m, n, start));
    for i := 0 to n
      invariant p >= start
      invariant QueriesAt(m, n, start) == Preceded(items, p - start, QueriesAt(m, n - i, p))
    {
      var q := ParseQuery(m, p);
      if q.Err? { return Err(q.error); }
      PrecededTwice(items, p - start, [q.value.item], q.value.length, QueriesAt(m, n - i - 1, p + q.value.length));
      items, p := items + [q.value.item], p + q.value.length;
    }
    assert items + [] == items;
    return Ok(Parsed(items, p - start));
  }

  method ParseRecords(m: Memory, n: nat, start: nat) returns (r: Outcome<Parsed<seq<Record>>>)
    ensures r == RecordsAt(m, n, start)
  {
    hide RecordAt;
    var items, p := [], start;
    PrecededByNothing(RecordsAt(m, n, start));
    for i := 0 to n
      invariant p >= start
      invariant RecordsAt(m, n, start) == Preceded(items, p - start, RecordsAt(m, n - i, p))
    {
      var x := ParseRecord(m, p);
      if x.Err? { return Err(x.error); }
      PrecededTwice(items, p - start, [x.value.item], x.value.length, RecordsAt(m, n - i - 1, p + x.value.length));
      items, p := items + [x.value.item], p + x.value.length;
    }
    assert items + [] == items;
    return Ok(Parsed(items, p - start));
  }

  lemma PrecededByNothing<T>(rest: Outcome<Parsed<seq<T>>>)
    ensures Preceded([], 0, rest) == rest
  {
    if rest.Ok? { assert [] + rest.value.item == rest.value.item; }
  }

  lemma PrecededTwice<T>(a: seq<T>, k: nat, b: seq<T>, l: nat, rest: Outcome<Parsed<seq<T>>>)
    ensures Preceded(a, k, Preceded(b, l, rest)) == Preceded(a + b, k + l, rest)
  {
    if rest.Ok? { assert a + (b + rest.value.item) == (a + b) + rest.value.item; }
  }

  // pj_dns_parse_packet
  method ParsePacket(m: Memory) returns (r: Outcome<Packet>)
    ensures r == PacketAt(m)
  {
    hide QueriesAt, RecordsAt;
    if |m.packet| == 0 { return Err(BadArgument); }
    if |m.packet| < HEADER_SIZE { return Err(BadSize); }
    var start := HEADER_SIZE;
    var qd := ParseQueries(m, m.At16(4), start);
    if qd.Err? { return Err(qd.error); }
    start := start + qd.value.length;
    var an := ParseRecords(m, m.At16(6), start);
    if an.Err? { return Err(an.error); }
    start := start + an.value.length;
    var ns := ParseRecords(m, m.At16(8), start);
    if ns.Err? { return Err(ns.error); }
    start := start + ns.value.length;
    var ar := ParseRecords(m, m.At16(10), start);
    if ar.Err? { return Err(ar.error); }
    return Ok(Packet(m.At16(0), m.At16(2), qd.value.item, an.value.item, ns.value.item, ar.value.item));
  }
}
