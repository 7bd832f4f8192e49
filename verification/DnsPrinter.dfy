/** The packet printer of the DNS server (dns_server.c; section 4.1 of RFC 1035). */
module DnsPrinter {
  import opened Bytes
  import opened DnsPacket

  // ----- names on the wire -----

  // Where the first label of a name ends.
  function LabelEnd(name: Name): (k: nat)
    ensures k <= |name| && (k < |name| ==> name[k] == DOT)
    ensures forall i :: 0 <= i < k ==> name[i] != DOT
  {
    if name == [] || name[0] == DOT then 0 else 1 + LabelEnd(name[1..])
  }

  function AfterLabel(name: Name): (rest: Name)
    requires name != []
    ensures |rest| < |name|
  {
    var k := LabelEnd(name);
    if k < |name| then name[k + 1..] else []
  }

  function LengthByte(n: nat): byte { n % 0x100 }

  // A label with its length before it; the length is one byte.
  function LabelBytes(name: Name): (s: seq<byte>)
    requires name != []
  {
    [LengthByte(LabelEnd(name))] + name[..LabelEnd(name)]
  }

  // A name spelled out.
  function Wire(name: Name): (s: seq<byte>)
    ensures |s| > |name|
    decreases |name|
  {
    if name == [] then [0] else LabelBytes(name) + Wire(AfterLabel(name))
  }

  // The spelled-out name without the first length byte, cut to the length of the text: this is what the
  // label table compares names with.  Dots have become length bytes.
  function Body(name: Name): (s: seq<byte>)
    ensures |s| == |name|
  {
    Wire(name)[1..1 + |name|]
  }

  // ----- the label table -----

  const MAX_LABEL := 32

  // A name spelled out at a position of the packet.
  datatype Entry = Entry(pos: nat, name: Name)

  // The index of the first entry found for a name, or the size of the table.
  function Lookup(table: seq<Entry>, name: Name): (i: nat)
    ensures i <= |table|
  {
    if table == [] || Body(table[0].name) == name then 0 else 1 + Lookup(table[1..], name)
  }

  function Inserted(table: seq<Entry>, pos: nat, name: Name): seq<Entry> {
    if |table| < MAX_LABEL then table + [Entry(pos, name)] else table
  }

  // A compression pointer has room for the low 14 bits of the position.
  function PointerTo(pos: nat): (s: seq<byte>)
    ensures |s| == 2
  {
    [0xc0 + pos / 0x100 % 0x40, pos % 0x100]
  }

  // ----- what is printed -----

  datatype Printed = Printed(bytes: seq<byte>, table: seq<Entry>)

  function PrintedName(pos: nat, table: seq<Entry>, name: Name): Printed {
    var i := Lookup(table, name);
    if i < |table| then Printed(PointerTo(table[i].pos), table)
    else Printed(Wire(name), Inserted(table, pos, name))
  }

  // The type of a record says what its data are.
  predicate WellTyped(r: Record) {
    if r.rtype == TYPE_A then r.rdata.Address? && |r.rdata.address| == 4
    else if r.rtype == TYPE_AAAA then r.rdata.Address6? && |r.rdata.address6| == 16
    else if HoldsName(r.rtype) then r.rdata.Alias?
    else if r.rtype == TYPE_SRV then r.rdata.Service?
    else r.rdata.Raw?
  }

  predicate Printable(d: Rdata) { d.Address? || d.Alias? || d.Service? }

  // The data of a record with their length before them; nothing for the types that are not supported.
  function PrintedRdata(pos: nat, table: seq<Entry>, d: Rdata): Printed {
    match d
    case Address(a) => Printed(Put16(4) + a, table)
    case Alias(name) =>
      var t := PrintedName(pos + 2, table, name);
      Printed(Put16(|t.bytes| % TWO_16) + t.bytes, t.table)
    case Service(priority, weight, port, target) =>
      var t := PrintedName(pos + 8, table, target);
      Printed(Put16((|t.bytes| + 6) % TWO_16) + Put16(priority) + Put16(weight) + Put16(port) + t.bytes, t.table)
    case _ => Printed([], table)
  }

  function FixedFields(r: Record): (s: seq<byte>)
    ensures |s| == 8
  {
    Put16(r.rtype) + Put16(r.rclass) + Put32(r.ttl)
  }

  function PrintedRecord(pos: nat, table: seq<Entry>, r: Record): Printed {
    var owner := PrintedName(pos, table, r.name);
    var data := PrintedRdata(pos + |owner.bytes| + 8, owner.table, r.rdata);
    Printed(owner.bytes + FixedFields(r) + data.bytes, data.table)
  }

  function PrintedQuery(pos: nat, table: seq<Entry>, q: Query): Printed {
    var name := PrintedName(pos, table, q.name);
    Printed(name.bytes + Put16(q.qtype) + Put16(q.qclass), name.table)
  }

  function PrintedQueries(pos: nat, table: seq<Entry>, qs: seq<Query>): Printed
    decreases |qs|
  {
    if qs == [] then Printed([], table)
    else
      var first := PrintedQuery(pos, table, qs[0]);
      var rest := PrintedQueries(pos + |first.bytes|, first.table, qs[1..]);
      Printed(first.bytes + rest.bytes, rest.table)
  }

  function PrintedRecords(pos: nat, table: seq<Entry>, rs: seq<Record>): Printed
    decreases |rs|
  {
    if rs == [] then Printed([], table)
    else
      var first := PrintedRecord(pos, table, rs[0]);
      var rest := PrintedRecords(pos + |first.bytes|, first.table, rs[1..]);
      Printed(first.bytes + rest.bytes, rest.table)
  }

  predicate CountsFit(p: Packet) {
    |p.queries| < TWO_16 && |p.answers| < TWO_16 && |p.authorities| < TWO_16 && |p.additional| < TWO_16
  }

  function Header(p: Packet): (s: seq<byte>)
    requires CountsFit(p)
    ensures |s| == HEADER_SIZE
  {
    Put16(p.id) + Put16(p.flags)
    + Put16(|p.queries|) + Put16(|p.answers|) + Put16(|p.authorities|) + Put16(|p.additional|)
  }

  // All records, in the order they are printed.
  function AllRecords(p: Packet): seq<Record> { p.answers + p.authorities + p.additional }

  function PrintedPacket(p: Packet): (s: seq<byte>)
    requires CountsFit(p)
  {
    var qd := PrintedQueries(HEADER_SIZE, [], p.queries);
    Header(p) + qd.bytes + PrintedRecords(HEADER_SIZE + |qd.bytes|, qd.table, AllRecords(p)).bytes
  }
}
