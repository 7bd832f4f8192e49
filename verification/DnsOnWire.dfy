/** What the packet printer writes lies on the wire as section 4.1 of RFC 1035 asks for it. */
module DnsOnWire {
  import opened Bytes
  import opened Buffers
  import opened DnsPacket
  import opened DnsPrinter
  import opened DnsParser
  import opened DnsRoundTrip
  import W = DnsWire

  // A name spelled out: its labels, without a pointer.
  lemma {:induction false} NameSpelledOut(name: Name) returns (l: W.Layout)
    requires ValidName(name)
    ensures W.Readable(l) && l.Pointers() == 0 && (forall packet :: l.Linked(packet))
    ensures l.Bytes() == Wire(name) && W.Dotted(l.Labels()) == name && (name == [] ==> l.Root?) && (name != [] ==> l.Label?)
    decreases |name|
  {
    if name == [] { return W.Root; }
    hide LabelEnd, AfterLabel, Wire, LabelBytes, W.Dotted;
    ValidParts(name);
    var n := LabelEnd(name);
    var rest := NameSpelledOut(AfterLabel(name));
    l := W.Label(name[..n], rest);
    WireSplit(name);
    LabelSpelledOut(name);
    NameSplit(name);
    LabelsOf(name[..n], rest);
    DottedOf(name[..n], rest.Labels());
    if AfterLabel(name) == [] { assert name == name[..n] + [] + []; }
  }

  lemma DottedOf(text: Name, rest: seq<Name>)
    ensures W.Dotted([text] + rest) == text + (if rest == [] then [] else [DOT]) + W.Dotted(rest)
  {
    assert ([text] + rest)[1..] == rest;
    assert text + [] + [] == text;
  }

  lemma LabelSpelledOut(name: Name)
    requires name != [] && LabelEnd(name) < 192
    ensures LabelBytes(name) == [LabelEnd(name)] + name[..LabelEnd(name)]
  {
    hide LabelEnd;
  }

  lemma LabelsOf(text: Name, rest: W.Layout)
    ensures var l := W.Label(text, rest);
            l.Labels() == [text] + rest.Labels() && l.Labels()[1..] == rest.Labels()
  {
  }

  // A printed name, which may be a pointer to one that is spelled out.
  lemma NamePrinted(m: Memory, p: nat, table: seq<Entry>, name: Name) returns (l: W.Layout)
    requires TableIn(m, table) && ValidName(name)
    ensures W.Readable(l) && l.Linked(m.packet) && l.Bytes() == PrintedName(p, table, name).bytes
    ensures W.Dotted(l.Labels()) == Shown(table, name)
  {
    hide ValidName, Wire, Lookup, W.Dotted;
    var i := Lookup(table, name);
    if i < |table| {
      var e := table[i];
      assert e in table;
      l := NameSpelledOut(e.name);
      l := W.Pointer(e.pos, l);
    } else {
      l := NameSpelledOut(name);
    }
  }

  lemma DataPrinted(m: Memory, p: nat, table: seq<Entry>, r: Record) returns (d: W.Data)
    requires TableIn(m, table) && ValidRecord(r)
    ensures d.Valid() && d.Linked(m.packet) && !d.Other? && d.Type() == r.rtype
    ensures d.Bytes() == DataBytes(p, table, r.rdata) && d.Meaning() == ShownRdata(table, r.rdata)
  {
    hide TableIn, ValidName, PrintedName, W.Readable, Shown, W.Dotted;
    match r.rdata
    case Address(a) => d := W.A(a);
    case Alias(name) =>
      var l := NamePrinted(m, p, table, name);
      d := if r.rtype == 2 then W.Ns(l) else if r.rtype == 5 then W.Cname(l) else W.Ptr(l);
    case Service(priority, weight, port, target) =>
      var l := NamePrinted(m, p + 6, table, target);
      d := W.Srv(priority, weight, port, l);
  }

  lemma Put32IsFour(v: uint32)
    ensures Put32(v) == W.Four(v)
  {
  }

  // The length of the data stands right before them.
  lemma DataSplit(pos: nat, q: nat, table: seq<Entry>, d: Rdata)
    requires Printable(d) && (d.Address? ==> |d.address| == 4) && q == pos + 2
    requires |PrintedRdata(pos, table, d).bytes| < TWO_16
    ensures var s := DataBytes(q, table, d); |s| < 65536 && PrintedRdata(pos, table, d).bytes == Put16(|s|) + s
  {
    hide PrintedRdata, DataBytes, Put16;
    RdataSplit(pos, table, d);
  }

  // Where the parts of a printed record stand.
  lemma RecordStands(m: Memory, p: nat, table: seq<Entry>, r: Record)
    requires TableIn(m, table) && ValidRecord(r) && |m.packet| <= MAX_OFFSET
    requires Holds(m.packet, p, PrintedRecord(p, table, r).bytes)
    ensures var owner := PrintedName(p, table, r.name); var q := p + |owner.bytes|;
            var s := DataBytes(q + 10, owner.table, r.rdata);
            && TableIn(m, owner.table) && |s| < 65536
            && PrintedRecord(p, table, r).bytes == owner.bytes + FixedFields(r) + (Put16(|s|) + s)
  {
    hide TableIn, ValidName, ValidRdata, PrintedName, PrintedRdata, DataBytes, FixedFields, Put16, Holds;
    var owner := PrintedName(p, table, r.name);
    var data := PrintedRdata(p + |owner.bytes| + 8, owner.table, r.rdata);
    HoldsInside(m.packet, p, PrintedRecord(p, table, r).bytes);
    DataSplit(p + |owner.bytes| + 8, p + |owner.bytes| + 10, owner.table, r.rdata);
    HoldsParts(m.packet, p, owner.bytes + FixedFields(r), data.bytes);
    HoldsParts(m.packet, p, owner.bytes, FixedFields(r));
    NameRead(m, p, table, r.name);
  }

  // A printed record: the length before its data is the number of bytes of its data.
  lemma RecordPrinted(m: Memory, p: nat, table: seq<Entry>, r: Record) returns (e: W.Entry)
    requires TableIn(m, table) && ValidRecord(r) && |m.packet| <= MAX_OFFSET
    requires Holds(m.packet, p, PrintedRecord(p, table, r).bytes)
    ensures e.Valid() && e.Linked(m.packet) && W.EntryBytes(e) == PrintedRecord(p, table, r).bytes
    ensures e.Meaning() == ShownRecord(p, table, r) && e.rclass == 1
    ensures TableIn(m, PrintedRecord(p, table, r).table)
  {
    hide TableIn, ValidName, PrintedName, PrintedRecord, ShownRdata, DataBytes, FixedFields, W.EntryBytes, W.Readable, Shown;
    hide W.Dotted, Holds;
    RecordRead(m, p, table, r);
    RecordStands(m, p, table, r);
    var owner := PrintedName(p, table, r.name);
    var q := p + |owner.bytes|;
    var name := NamePrinted(m, p, table, r.name);
    var d := DataPrinted(m, q + 10, owner.table, r);
    e := W.Entry(name, r.rclass, r.ttl, d);
    EntryPrinted(e, r, owner.bytes, DataBytes(q + 10, owner.table, r.rdata));
  }

  lemma EntryPrinted(e: W.Entry, r: Record, owner: seq<byte>, data: seq<byte>)
    requires e.Valid() && e.name.Bytes() == owner && e.data.Bytes() == data && |data| < 65536
    requires e.data.Type() == r.rtype && e.rclass == r.rclass && e.ttl == r.ttl
    ensures W.EntryBytes(e) == owner + FixedFields(r) + (Put16(|data|) + data)
  {
    hide W.Readable, W.Four, Put32;
    Put32IsFour(r.ttl);
    var a, b, c, n := Put16(r.rtype), Put16(r.rclass), Put32(r.ttl), Put16(|data|);
    assert owner + (a + b + c) + (n + data) == owner + (a + (b + (c + (n + data))));
  }

  lemma {:induction false} RecordsPrinted(m: Memory, p: nat, table: seq<Entry>, rs: seq<Record>) returns (es: seq<W.Entry>)
    requires TableIn(m, table) && (forall r :: r in rs ==> ValidRecord(r)) && |m.packet| <= MAX_OFFSET
    requires Holds(m.packet, p, PrintedRecords(p, table, rs).bytes)
    ensures W.ValidEntries(es) && W.LinkedEntries(m.packet, es) && W.ClassesRead(es) && |es| == |rs|
    ensures W.EntriesBytes(es) == PrintedRecords(p, table, rs).bytes && W.EntryMeanings(es) == ShownRecords(p, table, rs)
    decreases |rs|
  {
    hide PrintedRecord, ShownRecord, ValidRecord, TableIn, Holds, W.EntryBytes;
    if rs == [] { return []; }
    var first := PrintedRecord(p, table, rs[0]);
    var next := p + |first.bytes|;
    HoldsParts(m.packet, p, first.bytes, PrintedRecords(next, first.table, rs[1..]).bytes);
    var e := RecordPrinted(m, p, table, rs[0]);
    var rest := RecordsPrinted(m, next, first.table, rs[1..]);
    es := [e] + rest;
    assert es[1..] == rest;
  }

  lemma QueryPrinted(m: Memory, p: nat, table: seq<Entry>, q: Query) returns (x: W.Question)
    requires TableIn(m, table) && ValidName(q.name)
    ensures x.Valid() && x.name.Linked(m.packet) && x.Bytes() == PrintedQuery(p, table, q).bytes
    ensures x.Meaning() == Query(Shown(table, q.name), q.qtype, q.qclass)
  {
    hide TableIn, ValidName, PrintedName, W.Readable, Shown, W.Dotted;
    var name := NamePrinted(m, p, table, q.name);
    x := W.Question(name, q.qtype, q.qclass);
    var s := PrintedName(p, table, q.name).bytes;
    assert s + Put16(q.qtype) + Put16(q.qclass) == s + (Put16(q.qtype) + Put16(q.qclass));
  }

  lemma {:induction false} QueriesPrinted(m: Memory, p: nat, table: seq<Entry>, qs: seq<Query>) returns (xs: seq<W.Question>)
    requires TableIn(m, table) && (forall q :: q in qs ==> ValidName(q.name)) && |m.packet| <= MAX_OFFSET
    requires Holds(m.packet, p, PrintedQueries(p, table, qs).bytes)
    ensures W.ValidQuestions(xs) && W.LinkedQuestions(m.packet, xs) && |xs| == |qs|
    ensures W.QuestionsBytes(xs) == PrintedQueries(p, table, qs).bytes && W.QuestionMeanings(xs) == ShownQueries(p, table, qs)
    decreases |qs|
  {
    hide PrintedQuery, Shown, ValidName, TableIn, Holds;
    if qs == [] { return []; }
    var first := PrintedQuery(p, table, qs[0]);
    var next := p + |first.bytes|;
    HoldsParts(m.packet, p, first.bytes, PrintedQueries(next, first.table, qs[1..]).bytes);
    QueryRead(m, p, table, qs[0]);
    var x := QueryPrinted(m, p, table, qs[0]);
    var rest := QueriesPrinted(m, next, first.table, qs[1..]);
    xs := [x] + rest;
    assert xs[1..] == rest;
  }

  // The sections of a packet as they are printed, and where.
  datatype Sections = Sections(qd: Printed, a: nat, an: Printed, b: nat, ns: Printed, c: nat, ar: Printed)

  predicate SectionsOf(p: Packet, s: Sections) {
    && s.qd == PrintedQueries(HEADER_SIZE, [], p.queries) && s.a == HEADER_SIZE + |s.qd.bytes|
    && s.an == PrintedRecords(s.a, s.qd.table, p.answers) && s.b == s.a + |s.an.bytes|
    && s.ns == PrintedRecords(s.b, s.an.table, p.authorities) && s.c == s.b + |s.ns.bytes|
    && s.ar == PrintedRecords(s.c, s.ns.table, p.additional)
  }

  // The sections stand in the packet one behind the other, each printed with the label table of the one before.
  lemma SectionsStand(m: Memory, p: Packet) returns (s: Sections)
    requires ValidPacket(p) && m.packet == PrintedPacket(p)
    ensures SectionsOf(p, s)
    ensures m.packet == Header(p) + (s.qd.bytes + (s.an.bytes + (s.ns.bytes + s.ar.bytes)))
    ensures Holds(m.packet, HEADER_SIZE, s.qd.bytes) && Holds(m.packet, s.a, s.an.bytes)
    ensures Holds(m.packet, s.b, s.ns.bytes) && Holds(m.packet, s.c, s.ar.bytes)
  {
    hide PrintedQueries, PrintedRecords, AllRecords, Header, Holds;
    var qd := PrintedQueries(HEADER_SIZE, [], p.queries);
    var a := HEADER_SIZE + |qd.bytes|;
    var an := PrintedRecords(a, qd.table, p.answers);
    var b := a + |an.bytes|;
    var ns := PrintedRecords(b, an.table, p.authorities);
    var c := b + |ns.bytes|;
    s := Sections(qd, a, an, b, ns, c, PrintedRecords(c, ns.table, p.additional));
    SectionsSplit(a, qd.table, p);
    Grouped(Header(p), qd.bytes, an.bytes, ns.bytes, s.ar.bytes);
    HoldsAll(m, Header(p) + (qd.bytes + (an.bytes + (ns.bytes + s.ar.bytes))));
    HoldsParts(m.packet, 0, Header(p), qd.bytes + (an.bytes + (ns.bytes + s.ar.bytes)));
    HoldsParts(m.packet, HEADER_SIZE, qd.bytes, an.bytes + (ns.bytes + s.ar.bytes));
    HoldsParts(m.packet, a, an.bytes, ns.bytes + s.ar.bytes);
    HoldsParts(m.packet, b, ns.bytes, s.ar.bytes);
  }

  lemma EmptyTable(m: Memory)
    ensures TableIn(m, [])
  {
  }

  lemma ShownSections(p: Packet, s: Sections)
    requires SectionsOf(p, s)
    ensures ShownPacket(p)
            == Packet(p.id, p.flags, ShownQueries(HEADER_SIZE, [], p.queries), ShownRecords(s.a, s.qd.table, p.answers),
                      ShownRecords(s.b, s.an.table, p.authorities), ShownRecords(s.c, s.ns.table, p.additional))
  {
    hide PrintedQueries, PrintedRecords, ShownQueries, ShownRecords;
    var qd := PrintedQueries(HEADER_SIZE, [], p.queries);
    assert qd == s.qd && HEADER_SIZE + |qd.bytes| == s.a;
    var an := PrintedRecords(s.a, qd.table, p.answers);
    assert an == s.an && s.a + |an.bytes| == s.b;
    var ns := PrintedRecords(s.b, an.table, p.authorities);
    assert ns == s.ns && s.b + |ns.bytes| == s.c;
  }

  // For every packet of supported records whose bytes lie within the reach of pointers, what is printed is such a
  // message: each length is that of what follows it, each pointer leads to the rest of the name.
  lemma PacketPrinted(p: Packet) returns (x: W.Message)
    requires ValidPacket(p) && |PrintedPacket(p)| <= MAX_OFFSET
    ensures x.Valid() && x.Linked(PrintedPacket(p)) && x.Bytes() == PrintedPacket(p) && x.Meaning() == ShownPacket(p)
  {
    hide PrintedPacket, PrintedQueries, PrintedRecords, ShownPacket, ShownQueries, ShownRecords, Header, Holds;
    hide TableIn, ValidName, ValidRecord;
    hide W.QuestionsBytes, W.EntriesBytes, W.ValidQuestions, W.ValidEntries, W.LinkedQuestions, W.LinkedEntries;
    var m := Memory(PrintedPacket(p), _ => 0);
    var s := SectionsStand(m, p);
    EmptyTable(m);
    QueriesRead(m, HEADER_SIZE, [], p.queries);
    RecordsRead(m, s.a, s.qd.table, p.answers);
    RecordsRead(m, s.b, s.an.table, p.authorities);
    var queries := QueriesPrinted(m, HEADER_SIZE, [], p.queries);
    var answers := RecordsPrinted(m, s.a, s.qd.table, p.answers);
    var authorities := RecordsPrinted(m, s.b, s.an.table, p.authorities);
    var additional := RecordsPrinted(m, s.c, s.ns.table, p.additional);
    x := W.Message(p.id, p.flags, queries, answers, authorities, additional);
    HeaderPrinted(p, x);
    ShownSections(p, s);
  }

  lemma HeaderPrinted(p: Packet, x: W.Message)
    requires CountsFit(p) && x.Valid() && x.id == p.id && x.flags == p.flags
    requires |x.questions| == |p.queries| && |x.answers| == |p.answers|
    requires |x.authorities| == |p.authorities| && |x.additional| == |p.additional|
    ensures x.Header() == Header(p)
  {
    hide W.ValidEntries, W.ValidQuestions;
  }

  lemma Grouped(h: seq<byte>, a: seq<byte>, b: seq<byte>, c: seq<byte>, d: seq<byte>)
    ensures h + a + (b + c + d) == h + (a + (b + (c + d)))
  {
  }

  // So the printer's bytes are an instance of what the parser reads.
  lemma PrintedIsOnWire(p: Packet)
    requires ValidPacket(p) && |PrintedPacket(p)| <= MAX_OFFSET
    ensures exists x: W.Message :: x.Valid() && x.Linked(PrintedPacket(p)) && x.Bytes() == PrintedPacket(p)
                                   && x.Meaning() == ShownPacket(p)
  {
    hide ValidPacket, PrintedPacket, ShownPacket;
    var x := PacketPrinted(p);
  }

  // ----- which names are compressed -----

  lemma {:induction false} AddedIsFound(table: seq<Entry>, e: Entry, name: Name)
    requires Lookup(table, name) == |table| && Body(e.name) == name
    ensures Lookup(table + [e], name) == |table|
    decreases |table|
  {
    hide Body;
    if table != [] {
      assert (table + [e])[1..] == table[1..] + [e];
      AddedIsFound(table[1..], e, name);
    }
  }

  lemma OneLabelBody(name: Name)
    requires '.' as byte !in name
    ensures Body(name) == name
  {
    if name != [] {
      hide LabelEnd;
      assert LabelEnd(name) == |name|;
      assert AfterLabel(name) == [];
    }
  }

  // A name of one label that is not in the table is spelled out and, while the table holds less than 32 names, is
  // printed from then on as a pointer to where it stands.
  lemma RepeatedName(pos: nat, q: nat, table: seq<Entry>, name: Name)
    requires '.' as byte !in name && Lookup(table, name) == |table| && pos < 16384
    ensures var first := PrintedName(pos, table, name); var again := PrintedName(q, first.table, name);
            && first.bytes == Wire(name)
            && if |table| < 32 then again.bytes == [192 + pos / 256, pos % 256] && again.table == first.table
               else again == first && first.table == table
  {
    hide Wire, Lookup;
    OneLabelBody(name);
    AddedIsFound(table, Entry(pos, name), name);
  }
}
