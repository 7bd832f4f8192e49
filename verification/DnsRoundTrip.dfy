/** Printing a packet and parsing the bytes (section 4.1 of RFC 1035). */
module DnsRoundTrip {
  import opened Bytes
  import opened Buffers
  import opened DnsPacket
  import opened DnsPrinter
  import opened DnsSizes
  import opened DnsServer
  import opened DnsParser

  // ----- names -----

  // Dot-separated labels that are not empty and whose length byte is not taken for a pointer.
  predicate ValidName(name: Name)
    decreases |name|
  {
    name == []
    || (0 < LabelEnd(name) < COMPRESSION && LabelEnd(name) + 1 != |name| && ValidName(AfterLabel(name)))
  }

  lemma ReadEnd(m: Memory, depth: nat, p: nat)
    requires depth <= MAX_DEPTH && m.At(p) == 0
    ensures Measure(m, depth, p) == Ok(Extent(1, 0)) && Spelled(m, depth, p) == Ok([])
  {
  }

  lemma ReadLabel(m: Memory, depth: nat, p: nat)
    requires depth <= MAX_DEPTH && 0 < m.At(p) < COMPRESSION && p + m.At(p) + 1 < |m.packet|
    ensures var next := p + m.At(p) + 1;
            && Measure(m, depth, p) == Extend(m.At(p) + 1, LabelLength(m, p), Measure(m, depth, next))
            && Spelled(m, depth, p) == Prefixed(LabelText(m, p), Spelled(m, depth, next))
  {
    hide LabelLength, LabelText;
  }

  // A name that is spelled out in the packet is read back, at whatever depth.
  lemma {:induction false} SpelledOutRead(m: Memory, depth: nat, p: nat, name: Name)
    requires ValidName(name) && Holds(m.packet, p, Wire(name)) && depth <= MAX_DEPTH
    ensures Measure(m, depth, p) == Ok(Extent(|Wire(name)|, |name|))
    ensures Spelled(m, depth, p) == Ok(name)
    decreases |name|
  {
    hide Wire, LabelEnd, LabelBytes, AfterLabel, Measure, Spelled, Holds, LabelText, LabelLength;
    if name == [] {
      WireNothing();
      HoldsByte(m.packet, p, [0], 0);
      ReadEnd(m, depth, p);
    } else {
      var n, rest := LabelEnd(name), AfterLabel(name);
      var next := p + n + 1;
      WireSplit(name);
      HoldsParts(m.packet, p, LabelBytes(name), Wire(rest));
      LabelRead(m, p, name);
      HoldsInside(m.packet, next, Wire(rest));
      ReadLabel(m, depth, p);
      SpelledOutRead(m, depth, next, rest);
    }
  }

  lemma WireSplit(name: Name)
    requires name != []
    ensures Wire(name) == LabelBytes(name) + Wire(AfterLabel(name)) && |LabelBytes(name)| == LabelEnd(name) + 1
  {
  }

  // The label at p with the dot after it.
  lemma LabelRead(m: Memory, p: nat, name: Name)
    requires name != [] && ValidName(name)
    requires Holds(m.packet, p, LabelBytes(name)) && Holds(m.packet, p + LabelEnd(name) + 1, Wire(AfterLabel(name)))
    ensures m.At(p) == LabelEnd(name)
    ensures name == LabelText(m, p) + AfterLabel(name)
    ensures |LabelText(m, p)| == LabelLength(m, p)
  {
    hide Wire, LabelEnd, Holds, AfterLabel, ValidName;
    var n, rest := LabelEnd(name), AfterLabel(name);
    ValidParts(name);
    HoldsByte(m.packet, p, LabelBytes(name), 0);
    assert LabelBytes(name)[0] == n;
    FirstByte(rest);
    HoldsByte(m.packet, p + n + 1, Wire(rest), 0);
    HoldsParts(m.packet, p, [LengthByte(n)], name[..n]);
    TextRead(m, p + 1, name[..n]);
    assert LabelText(m, p) == name[..n] + if rest != [] then [DOT] else [];
    NameSplit(name);
  }

  lemma ValidParts(name: Name)
    requires name != [] && ValidName(name)
    ensures 0 < LabelEnd(name) < COMPRESSION && LabelEnd(name) + 1 != |name| && ValidName(AfterLabel(name))
  {
  }

  lemma TextRead(m: Memory, p: nat, s: seq<byte>)
    requires Holds(m.packet, p, s)
    ensures m.Read(p, |s|) == s
  {
    m.ReadInside(p, |s|);
  }

  lemma NameSplit(name: Name)
    requires name != [] && LabelEnd(name) + 1 != |name|
    ensures var n := LabelEnd(name);
            name == (name[..n] + if AfterLabel(name) != [] then [DOT] else []) + AfterLabel(name)
  {
    hide LabelEnd;
    var n := LabelEnd(name);
    if n < |name| {
      SplitAtDot(name, n);
      assert AfterLabel(name) == name[n + 1..] && |name[n + 1..]| > 0;
    } else {
      assert AfterLabel(name) == [];
      assert name == (name[..n] + []) + [];
    }
  }

  lemma SplitAtDot(name: Name, n: nat)
    requires n < |name| && name[n] == DOT
    ensures name == (name[..n] + [DOT]) + name[n + 1..]
  {
  }

  // The byte after a label is zero exactly when it was the last label.
  lemma FirstByte(name: Name)
    requires ValidName(name)
    ensures Wire(name)[0] == 0 <==> name == []
  {
    hide LabelEnd;
  }

  const MAX_OFFSET := 0x4000

  lemma OffsetOfPointer(pos: nat)
    requires pos < MAX_OFFSET
    ensures var s := PointerTo(pos); s[0] >= COMPRESSION && Offset(s[0], s[1]) == pos
  {
  }

  // Every entry of the label table is spelled out in the packet, within reach of a pointer.
  ghost predicate TableIn(m: Memory, table: seq<Entry>) {
    forall e :: e in table ==> ValidName(e.name) && Holds(m.packet, e.pos, Wire(e.name)) && e.pos < MAX_OFFSET
  }

  lemma ReadPointer(m: Memory, p: nat)
    requires m.At(p) >= COMPRESSION && Offset(m.At(p), m.At(p + 1)) < |m.packet|
    ensures var target := Offset(m.At(p), m.At(p + 1));
            Measure(m, 1, target).Ok? ==>
              && Measure(m, 0, p) == Ok(Extent(2, Measure(m, 1, target).value.length))
              && Spelled(m, 0, p) == Spelled(m, 1, target)
  {
    hide Offset;
  }

  // The name that a printed name is read back as: when the table holds a name whose body equals it,
  // that name.
  function Shown(table: seq<Entry>, name: Name): Name {
    var i := Lookup(table, name);
    if i < |table| then table[i].name else name
  }

  // Every pointer targets a spelled-out name, so reading a printed name follows at most one pointer.
  lemma NameRead(m: Memory, p: nat, table: seq<Entry>, name: Name)
    requires TableIn(m, table) && ValidName(name) && |m.packet| <= MAX_OFFSET
    requires Holds(m.packet, p, PrintedName(p, table, name).bytes)
    ensures NameAt(m, p) == Ok(Parsed(Shown(table, name), |PrintedName(p, table, name).bytes|))
    ensures TableIn(m, PrintedName(p, table, name).table)
  {
    hide Wire, ValidName, Measure, Spelled, PointerTo, Offset, Lookup, Holds;
    var i := Lookup(table, name);
    if i < |table| {
      var e := table[i];
      assert e in table;
      OffsetOfPointer(e.pos);
      HoldsByte(m.packet, p, PointerTo(e.pos), 0);
      HoldsByte(m.packet, p, PointerTo(e.pos), 1);
      SpelledOutRead(m, 1, e.pos, e.name);
      HoldsInside(m.packet, e.pos, Wire(e.name));
      ReadPointer(m, p);
    } else {
      HoldsInside(m.packet, p, Wire(name));
      SpelledOutRead(m, 0, p, name);
    }
  }

  // ----- records -----

  lemma Holds16(m: Memory, p: nat, v: uint16)
    requires Holds(m.packet, p, Put16(v))
    ensures m.At16(p) == v
  {
    hide Holds, Put16, Get16;
    HoldsByte(m.packet, p, Put16(v), 0);
    HoldsByte(m.packet, p, Put16(v), 1);
    Get16OfPut16(v);
  }

  lemma Holds32(m: Memory, p: nat, v: uint32)
    requires Holds(m.packet, p, Put32(v))
    ensures m.At32(p) == v
  {
    hide Holds, Put32, Get32;
    HoldsByte(m.packet, p, Put32(v), 0);
    HoldsByte(m.packet, p, Put32(v), 1);
    HoldsByte(m.packet, p, Put32(v), 2);
    HoldsByte(m.packet, p, Put32(v), 3);
    Get32OfPut32(v);
  }

  predicate ValidRdata(d: Rdata) {
    match d
    case Alias(name) => ValidName(name)
    case Service(_, _, _, target) => ValidName(target)
    case _ => true
  }

  predicate ValidRecord(r: Record) {
    WellTyped(r) && Printable(r.rdata) && r.rclass == CLASS_IN && ValidName(r.name) && ValidRdata(r.rdata)
  }

  function ShownRdata(table: seq<Entry>, d: Rdata): Rdata {
    match d
    case Alias(name) => Alias(Shown(table, name))
    case Service(priority, weight, port, target) => Service(priority, weight, port, Shown(table, target))
    case _ => d
  }

  // The data after the two bytes of their length.
  function DataBytes(pos: nat, table: seq<Entry>, d: Rdata): seq<byte> {
    match d
    case Address(a) => a
    case Alias(name) => PrintedName(pos, table, name).bytes
    case Service(priority, weight, port, target) =>
      Put16(priority) + Put16(weight) + Put16(port) + PrintedName(pos + 6, table, target).bytes
    case _ => []
  }

  lemma RdataSplit(pos: nat, table: seq<Entry>, d: Rdata)
    requires Printable(d) && (d.Address? ==> |d.address| == 4)
    requires |PrintedRdata(pos, table, d).bytes| < TWO_16
    ensures var s := DataBytes(pos + 2, table, d);
            |s| < TWO_16 && PrintedRdata(pos, table, d).bytes == Put16(|s|) + s
  {
    hide PrintedName, Put16;
    match d
    case Address(_) =>
    case Alias(_) =>
    case Service(priority, weight, port, target) =>
      var t := PrintedName(pos + 8, table, target).bytes;
      assert Put16(|t| + 6) + Put16(priority) + Put16(weight) + Put16(port) + t
          == Put16(|t| + 6) + (Put16(priority) + Put16(weight) + Put16(port) + t);
  }

  // The data of a record are read back.
  lemma RdataRead(m: Memory, p: nat, table: seq<Entry>, r: Record)
    requires TableIn(m, table) && ValidRecord(r) && |m.packet| <= MAX_OFFSET && p >= 2
    requires Holds(m.packet, p, DataBytes(p, table, r.rdata))
    ensures RdataAt(m, r.rtype, |DataBytes(p, table, r.rdata)|, p)
         == Ok(Parsed(ShownRdata(table, r.rdata), |DataBytes(p, table, r.rdata)|))
    ensures TableIn(m, PrintedRdata(p - 2, table, r.rdata).table)
  {
    hide PrintedName, ValidName, TableIn, Holds, NameAt, Put16, Shown;
    match r.rdata
    case Address(a) => TextRead(m, p, a);
    case Alias(name) => NameRead(m, p, table, name);
    case Service(priority, weight, port, target) =>
      var t := PrintedName(p + 6, table, target).bytes;
      HoldsParts(m.packet, p, Put16(priority) + Put16(weight) + Put16(port), t);
      HoldsParts(m.packet, p, Put16(priority) + Put16(weight), Put16(port));
      HoldsParts(m.packet, p, Put16(priority), Put16(weight));
      Holds16(m, p, priority);
      Holds16(m, p + 2, weight);
      Holds16(m, p + 4, port);
      NameRead(m, p + 6, table, target);
  }

  function ShownRecord(pos: nat, table: seq<Entry>, r: Record): Record {
    var owner := PrintedName(pos, table, r.name);
    Record(Shown(table, r.name), r.rtype, r.rclass, r.ttl, ShownRdata(owner.table, r.rdata))
  }

  // The fields after the name of a record.
  lemma FieldsRead(m: Memory, name: Name, p: nat, table: seq<Entry>, r: Record)
    requires TableIn(m, table) && ValidRecord(r) && |m.packet| <= MAX_OFFSET
    requires Holds(m.packet, p, FixedFields(r)) && Holds(m.packet, p + 8, PrintedRdata(p + 8, table, r.rdata).bytes)
    ensures FieldsAt(m, name, p) == Ok(Parsed(Record(name, r.rtype, r.rclass, r.ttl, ShownRdata(table, r.rdata)),
                                              8 + |PrintedRdata(p + 8, table, r.rdata).bytes|))
    ensures TableIn(m, PrintedRdata(p + 8, table, r.rdata).table)
  {
    hide PrintedRdata, DataBytes, ValidName, TableIn, Holds, RdataAt, Put16, Put32, ShownRdata;
    HoldsParts(m.packet, p, Put16(r.rtype) + Put16(r.rclass), Put32(r.ttl));
    HoldsParts(m.packet, p, Put16(r.rtype), Put16(r.rclass));
    Holds16(m, p, r.rtype);
    Holds16(m, p + 2, r.rclass);
    Holds32(m, p + 4, r.ttl);
    HoldsInside(m.packet, p + 8, PrintedRdata(p + 8, table, r.rdata).bytes);
    RdataSplit(p + 8, table, r.rdata);
    var s := DataBytes(p + 10, table, r.rdata);
    HoldsParts(m.packet, p + 8, Put16(|s|), s);
    HoldsInside(m.packet, p + 10, s);
    Holds16(m, p + 8, |s|);
    RdataRead(m, p + 10, table, r);
  }

  // A printed record is read back.
  lemma RecordRead(m: Memory, p: nat, table: seq<Entry>, r: Record)
    requires TableIn(m, table) && ValidRecord(r) && |m.packet| <= MAX_OFFSET
    requires Holds(m.packet, p, PrintedRecord(p, table, r).bytes)
    ensures RecordAt(m, p) == Ok(Parsed(ShownRecord(p, table, r), |PrintedRecord(p, table, r).bytes|))
    ensures TableIn(m, PrintedRecord(p, table, r).table)
  {
    hide PrintedName, PrintedRdata, ValidName, TableIn, Holds, NameAt, FieldsAt, FixedFields, ShownRdata, Shown;
    var owner := PrintedName(p, table, r.name);
    var data := PrintedRdata(p + |owner.bytes| + 8, owner.table, r.rdata);
    HoldsParts(m.packet, p, owner.bytes + FixedFields(r), data.bytes);
    HoldsParts(m.packet, p, owner.bytes, FixedFields(r));
    NameRead(m, p, table, r.name);
    FieldsRead(m, Shown(table, r.name), p + |owner.bytes|, owner.table, r);
  }

  function ShownRecords(pos: nat, table: seq<Entry>, rs: seq<Record>): (shown: seq<Record>)
    ensures |shown| == |rs|
    decreases |rs|
  {
    if rs == [] then []
    else
      var first := PrintedRecord(pos, table, rs[0]);
      [ShownRecord(pos, table, rs[0])] + ShownRecords(pos + |first.bytes|, first.table, rs[1..])
  }

  lemma {:induction false} RecordsRead(m: Memory, p: nat, table: seq<Entry>, rs: seq<Record>)
    requires TableIn(m, table) && (forall r :: r in rs ==> ValidRecord(r)) && |m.packet| <= MAX_OFFSET
    requires Holds(m.packet, p, PrintedRecords(p, table, rs).bytes)
    ensures RecordsAt(m, |rs|, p) == Ok(Parsed(ShownRecords(p, table, rs), |PrintedRecords(p, table, rs).bytes|))
    ensures TableIn(m, PrintedRecords(p, table, rs).table)
    decreases |rs|
  {
    hide PrintedRecord, ShownRecord, ValidRecord, TableIn, Holds, RecordAt;
    if rs != [] {
      var first := PrintedRecord(p, table, rs[0]);
      var next := p + |first.bytes|;
      HoldsParts(m.packet, p, first.bytes, PrintedRecords(next, first.table, rs[1..]).bytes);
      RecordRead(m, p, table, rs[0]);
      RecordsRead(m, next, first.table, rs[1..]);
    }
  }

  // ----- queries -----

  function ShownQueries(pos: nat, table: seq<Entry>, qs: seq<Query>): (shown: seq<Query>)
    ensures |shown| == |qs|
    decreases |qs|
  {
    if qs == [] then []
    else
      var first := PrintedQuery(pos, table, qs[0]);
      [Query(Shown(table, qs[0].name), qs[0].qtype, qs[0].qclass)]
      + ShownQueries(pos + |first.bytes|, first.table, qs[1..])
  }

  lemma QueryRead(m: Memory, p: nat, table: seq<Entry>, q: Query)
    requires TableIn(m, table) && ValidName(q.name) && |m.packet| <= MAX_OFFSET
    requires Holds(m.packet, p, PrintedQuery(p, table, q).bytes)
    ensures QueryAt(m, p)
         == Ok(Parsed(Query(Shown(table, q.name), q.qtype, q.qclass), |PrintedQuery(p, table, q).bytes|))
    ensures TableIn(m, PrintedQuery(p, table, q).table)
  {
    hide PrintedName, ValidName, TableIn, Holds, NameAt, Put16, Shown;
    var name := PrintedName(p, table, q.name).bytes;
    HoldsParts(m.packet, p, name + Put16(q.qtype), Put16(q.qclass));
    HoldsParts(m.packet, p, name, Put16(q.qtype));
    NameRead(m, p, table, q.name);
    Holds16(m, p + |name|, q.qtype);
    Holds16(m, p + |name| + 2, q.qclass);
  }

  lemma {:induction false} QueriesRead(m: Memory, p: nat, table: seq<Entry>, qs: seq<Query>)
    requires TableIn(m, table) && (forall q :: q in qs ==> ValidName(q.name)) && |m.packet| <= MAX_OFFSET
    requires Holds(m.packet, p, PrintedQueries(p, table, qs).bytes)
    ensures QueriesAt(m, |qs|, p) == Ok(Parsed(ShownQueries(p, table, qs), |PrintedQueries(p, table, qs).bytes|))
    ensures TableIn(m, PrintedQueries(p, table, qs).table)
    decreases |qs|
  {
    hide PrintedQuery, Shown, ValidName, TableIn, Holds, QueryAt;
    if qs != [] {
      var first := PrintedQuery(p, table, qs[0]);
      var next := p + |first.bytes|;
      HoldsParts(m.packet, p, first.bytes, PrintedQueries(next, first.table, qs[1..]).bytes);
      QueryRead(m, p, table, qs[0]);
      QueriesRead(m, next, first.table, qs[1..]);
    }
  }

  // ----- packets -----

  predicate ValidPacket(p: Packet) {
    && CountsFit(p)
    && (forall q :: q in p.queries ==> ValidName(q.name))
    && (forall r :: r in p.answers ==> ValidRecord(r))
    && (forall r :: r in p.authorities ==> ValidRecord(r))
    && (forall r :: r in p.additional ==> ValidRecord(r))
  }

  // The packet with every name replaced by the one it is read back as.
  function ShownPacket(p: Packet): Packet {
    var qd := PrintedQueries(HEADER_SIZE, [], p.queries);
    var a := HEADER_SIZE + |qd.bytes|;
    var an := PrintedRecords(a, qd.table, p.answers);
    var b := a + |an.bytes|;
    var ns := PrintedRecords(b, an.table, p.authorities);
    Packet(p.id, p.flags,
           ShownQueries(HEADER_SIZE, [], p.queries),
           ShownRecords(a, qd.table, p.answers),
           ShownRecords(b, an.table, p.authorities),
           ShownRecords(b + |ns.bytes|, ns.table, p.additional))
  }

  lemma HeaderRead(m: Memory, p: Packet)
    requires CountsFit(p) && Holds(m.packet, 0, Header(p))
    ensures m.At16(0) == p.id && m.At16(2) == p.flags && m.At16(4) == |p.queries|
    ensures m.At16(6) == |p.answers| && m.At16(8) == |p.authorities| && m.At16(10) == |p.additional|
  {
    hide Holds, Put16;
    var a, b, c := Put16(p.id), Put16(p.flags), Put16(|p.queries|);
    var d, e, f := Put16(|p.answers|), Put16(|p.authorities|), Put16(|p.additional|);
    HoldsParts(m.packet, 0, a + b + c + d + e, f);
    HoldsParts(m.packet, 0, a + b + c + d, e);
    HoldsParts(m.packet, 0, a + b + c, d);
    HoldsParts(m.packet, 0, a + b, c);
    HoldsParts(m.packet, 0, a, b);
    Holds16(m, 0, p.id);
    Holds16(m, 2, p.flags);
    Holds16(m, 4, |p.queries|);
    Holds16(m, 6, |p.answers|);
    Holds16(m, 8, |p.authorities|);
    Holds16(m, 10, |p.additional|);
  }

  // The printed records of the three sections, one section after the other.
  lemma SectionsSplit(pos: nat, table: seq<Entry>, p: Packet)
    ensures var an := PrintedRecords(pos, table, p.answers);
            var ns := PrintedRecords(pos + |an.bytes|, an.table, p.authorities);
            var ar := PrintedRecords(pos + |an.bytes| + |ns.bytes|, ns.table, p.additional);
            PrintedRecords(pos, table, AllRecords(p)).bytes == an.bytes + ns.bytes + ar.bytes
  {
    hide PrintedRecords, RecordsFit;
    SectionsAppend(0, pos, table, p);
  }

  // For every packet of supported records whose bytes lie within the reach of pointers: parsing what was
  // printed gives back the packet, with each name as the label table shows it.
  lemma PacketRead(p: Packet, beyond: nat -> byte)
    requires ValidPacket(p) && |PrintedPacket(p)| <= MAX_OFFSET
    ensures PacketAt(Memory(PrintedPacket(p), beyond)) == Ok(ShownPacket(p))
  {
    hide PrintedQueries, PrintedRecords, AllRecords, ShownQueries, ShownRecords, Header, Holds, QueriesAt, RecordsAt, ValidName, ValidRecord;
    var m := Memory(PrintedPacket(p), beyond);
    var qd := PrintedQueries(HEADER_SIZE, [], p.queries);
    var a := HEADER_SIZE + |qd.bytes|;
    var an := PrintedRecords(a, qd.table, p.answers);
    var b := a + |an.bytes|;
    var ns := PrintedRecords(b, an.table, p.authorities);
    var c := b + |ns.bytes|;
    var ar := PrintedRecords(c, ns.table, p.additional);
    SectionsSplit(a, qd.table, p);
    HoldsAll(m, Header(p) + qd.bytes + (an.bytes + ns.bytes + ar.bytes));
    HoldsParts(m.packet, 0, Header(p) + qd.bytes, an.bytes + ns.bytes + ar.bytes);
    HoldsParts(m.packet, 0, Header(p), qd.bytes);
    HoldsParts(m.packet, a, an.bytes + ns.bytes, ar.bytes);
    HoldsParts(m.packet, a, an.bytes, ns.bytes);
    HeaderRead(m, p);
    QueriesRead(m, HEADER_SIZE, [], p.queries);
    RecordsRead(m, a, qd.table, p.answers);
    RecordsRead(m, b, an.table, p.authorities);
    RecordsRead(m, c, ns.table, p.additional);
  }

  lemma HoldsAll(m: Memory, s: seq<byte>)
    requires m.packet == s
    ensures Holds(m.packet, 0, s)
  {
    assert m.packet[0..0 + |s|] == s;
  }
}
