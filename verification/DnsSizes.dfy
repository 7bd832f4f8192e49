/** The size checks of the DNS packet printer (dns_server.c): when a packet is printed, and what is written
    beyond the size. */
module DnsSizes {
  import opened Bytes
  import opened DnsPacket
  import opened DnsPrinter

  // ----- when it is printed -----

  // The size checks: the room left is compared before each part.  A pointer is written unchecked, and
  // the four bytes after the name of a query are not subtracted from the room.
  predicate NameFits(size: int, table: seq<Entry>, name: Name) {
    Lookup(table, name) < |table| || |Wire(name)| <= size
  }

  predicate RdataFits(size: int, table: seq<Entry>, d: Rdata) {
    match d
    case Address(_) => size >= 6
    case Alias(name) => size >= 4 && NameFits(size - 2, table, name)
    case Service(_, _, _, target) => size >= 10 && NameFits(size - 8, table, target)
    case _ => false
  }

  predicate RecordFits(size: int, pos: nat, table: seq<Entry>, r: Record) {
    var owner := PrintedName(pos, table, r.name);
    && NameFits(size, table, r.name)
    && size - |owner.bytes| >= 8
    && RdataFits(size - |owner.bytes| - 8, owner.table, r.rdata)
  }

  predicate RecordsFit(size: int, pos: nat, table: seq<Entry>, rs: seq<Record>)
    decreases |rs|
  {
    rs == []
    || var first := PrintedRecord(pos, table, rs[0]);
       && RecordFits(size, pos, table, rs[0])
       && RecordsFit(size - |first.bytes|, pos + |first.bytes|, first.table, rs[1..])
  }

  predicate QueryFits(size: int, pos: nat, table: seq<Entry>, q: Query) {
    NameFits(size, table, q.name) && size - (|PrintedQuery(pos, table, q).bytes| - 4) >= 4
  }

  predicate QueriesFit(size: int, pos: nat, table: seq<Entry>, qs: seq<Query>)
    decreases |qs|
  {
    qs == []
    || var first := PrintedQuery(pos, table, qs[0]);
       && QueryFits(size, pos, table, qs[0])
       && QueriesFit(size - (|first.bytes| - 4), pos + |first.bytes|, first.table, qs[1..])
  }

  predicate PacketFits(size: int, p: Packet) {
    var qd := PrintedQueries(HEADER_SIZE, [], p.queries);
    && size >= HEADER_SIZE
    && QueriesFit(size - HEADER_SIZE, HEADER_SIZE, [], p.queries)
    && RecordsFit(size - HEADER_SIZE - |qd.bytes| + 4 * |p.queries|, HEADER_SIZE + |qd.bytes|, qd.table, AllRecords(p))
  }

  // ----- room -----

  lemma NameHasRoom(size: int, pos: nat, table: seq<Entry>, name: Name)
    requires |PrintedName(pos, table, name).bytes| <= size
    ensures NameFits(size, table, name)
  {
  }

  // A record that fits with one byte to spare passes every check.
  lemma RecordHasRoom(size: int, pos: nat, table: seq<Entry>, r: Record)
    requires Printable(r.rdata) && WellTyped(r)
    requires |PrintedRecord(pos, table, r).bytes| < size
    ensures RecordFits(size, pos, table, r)
  {
    hide PrintedName, NameFits;
    var owner := PrintedName(pos, table, r.name);
    NameHasRoom(size, pos, table, r.name);
    var at := pos + |owner.bytes| + 8;
    match r.rdata
    case Address(_) =>
    case Alias(name) =>
      PrintedNotEmpty(at + 2, owner.table, name);
      NameHasRoom(size - |owner.bytes| - 10, at + 2, owner.table, name);
    case Service(_, _, _, target) =>
      PrintedNotEmpty(at + 8, owner.table, target);
      NameHasRoom(size - |owner.bytes| - 16, at + 8, owner.table, target);
  }

  lemma PrintedNotEmpty(pos: nat, table: seq<Entry>, name: Name)
    ensures |PrintedName(pos, table, name).bytes| >= 1
  {
  }

  lemma {:induction false} RecordsHaveRoom(size: int, pos: nat, table: seq<Entry>, rs: seq<Record>)
    requires forall r :: r in rs ==> Printable(r.rdata) && WellTyped(r)
    requires |PrintedRecords(pos, table, rs).bytes| < size
    ensures RecordsFit(size, pos, table, rs)
    decreases |rs|
  {
    hide PrintedRecord, RecordFits, WellTyped;
    if rs != [] {
      RecordHasRoom(size, pos, table, rs[0]);
      var first := PrintedRecord(pos, table, rs[0]);
      RecordsHaveRoom(size - |first.bytes|, pos + |first.bytes|, first.table, rs[1..]);
    }
  }

  lemma {:induction false} QueriesHaveRoom(size: int, pos: nat, table: seq<Entry>, qs: seq<Query>)
    requires |PrintedQueries(pos, table, qs).bytes| < size
    ensures QueriesFit(size, pos, table, qs)
    ensures |PrintedQueries(pos, table, qs).bytes| >= 4 * |qs|
    decreases |qs|
  {
    hide PrintedName, NameFits;
    if qs != [] {
      var first := PrintedQuery(pos, table, qs[0]);
      NameHasRoom(size, pos, table, qs[0].name);
      QueriesHaveRoom(size - (|first.bytes| - 4), pos + |first.bytes|, first.table, qs[1..]);
    }
  }

  // One byte more than the packet takes is always enough.  (The checks for a name in the data of a
  // record ask for two bytes, and the name of the root takes only one.)
  lemma PacketHasRoom(size: int, p: Packet)
    requires CountsFit(p)
    requires forall r :: r in AllRecords(p) ==> Printable(r.rdata) && WellTyped(r)
    requires |PrintedPacket(p)| < size
    ensures PacketFits(size, p)
  {
    hide WellTyped, Printable, PrintedQueries, PrintedRecords, QueriesFit, RecordsFit, AllRecords, Header;
    var qd := PrintedQueries(HEADER_SIZE, [], p.queries);
    QueriesHaveRoom(size - HEADER_SIZE, HEADER_SIZE, [], p.queries);
    RecordsHaveRoom(size - HEADER_SIZE - |qd.bytes| + 4 * |p.queries|, HEADER_SIZE + |qd.bytes|, qd.table, AllRecords(p));
  }

  // ----- exactly how much room is asked for -----

  // The checks for a name in the data of a record ask for two bytes; the name of the root, spelled out, takes one.
  function DataMargin(pos: nat, table: seq<Entry>, d: Rdata): nat {
    match d
    case Alias(name) => if |PrintedName(pos + 2, table, name).bytes| == 1 then 1 else 0
    case Service(_, _, _, target) => if |PrintedName(pos + 8, table, target).bytes| == 1 then 1 else 0
    case _ => 0
  }

  function RecordMargin(pos: nat, table: seq<Entry>, r: Record): nat {
    var owner := PrintedName(pos, table, r.name);
    DataMargin(pos + |owner.bytes| + 8, owner.table, r.rdata)
  }

  lemma NameFitsExactly(size: int, pos: nat, table: seq<Entry>, name: Name)
    ensures size >= 2 ==> (NameFits(size, table, name) <==> size >= |PrintedName(pos, table, name).bytes|)
    ensures size >= |PrintedName(pos, table, name).bytes| ==> NameFits(size, table, name)
    ensures |PrintedName(pos, table, name).bytes| >= 1
  {
  }

  lemma DataFitsExactly(size: int, pos: nat, table: seq<Entry>, d: Rdata)
    requires Printable(d) && (d.Address? ==> |d.address| == 4)
    ensures RdataFits(size, table, d) <==> size >= |PrintedRdata(pos, table, d).bytes| + DataMargin(pos, table, d)
    ensures |PrintedRdata(pos, table, d).bytes| >= 3
  {
    hide PrintedName, NameFits;
    match d
    case Address(_) =>
    case Alias(name) => NameFitsExactly(size - 2, pos + 2, table, name);
    case Service(_, _, _, target) => NameFitsExactly(size - 8, pos + 8, table, target);
  }

  lemma RecordFitsExactly(size: int, pos: nat, table: seq<Entry>, r: Record)
    requires Printable(r.rdata) && WellTyped(r)
    ensures RecordFits(size, pos, table, r) <==> size >= |PrintedRecord(pos, table, r).bytes| + RecordMargin(pos, table, r)
    ensures |PrintedRecord(pos, table, r).bytes| >= 12
  {
    hide PrintedName, NameFits, PrintedRdata, RdataFits, DataMargin;
    var owner := PrintedName(pos, table, r.name);
    NameFitsExactly(size, pos, table, r.name);
    DataFitsExactly(size - |owner.bytes| - 8, pos + |owner.bytes| + 8, owner.table, r.rdata);
  }

  function LastMargin(pos: nat, table: seq<Entry>, rs: seq<Record>): nat
    requires rs != []
    decreases |rs|
  {
    if rs[1..] == [] then RecordMargin(pos, table, rs[0])
    else
      var first := PrintedRecord(pos, table, rs[0]);
      LastMargin(pos + |first.bytes|, first.table, rs[1..])
  }

  lemma {:induction false} RecordsFitExactly(size: int, pos: nat, table: seq<Entry>, rs: seq<Record>)
    requires rs != [] && forall r :: r in rs ==> Printable(r.rdata) && WellTyped(r)
    ensures RecordsFit(size, pos, table, rs) <==> size >= |PrintedRecords(pos, table, rs).bytes| + LastMargin(pos, table, rs)
    ensures |PrintedRecords(pos, table, rs).bytes| >= 12
    decreases |rs|
  {
    hide PrintedRecord, RecordFits, WellTyped, RecordMargin;
    RecordFitsExactly(size, pos, table, rs[0]);
    var first := PrintedRecord(pos, table, rs[0]);
    MarginBound(pos, table, rs[0]);
    if rs[1..] == [] {
      NoRecords(size - |first.bytes|, pos + |first.bytes|, first.table);
    } else {
      RecordsFitExactly(size - |first.bytes|, pos + |first.bytes|, first.table, rs[1..]);
    }
  }

  lemma MarginBound(pos: nat, table: seq<Entry>, r: Record)
    ensures RecordMargin(pos, table, r) <= 1
  {
    hide PrintedName;
  }

  lemma NoRecords(size: int, pos: nat, table: seq<Entry>)
    ensures RecordsFit(size, pos, table, []) && PrintedRecords(pos, table, []).bytes == []
    ensures QueriesFit(size, pos, table, []) && PrintedQueries(pos, table, []).bytes == []
  {
  }

  lemma {:induction false} QueriesFitExactly(size: int, pos: nat, table: seq<Entry>, qs: seq<Query>)
    requires qs != []
    ensures QueriesFit(size, pos, table, qs) <==> size >= |PrintedQueries(pos, table, qs).bytes| - 4 * (|qs| - 1)
    ensures |PrintedQueries(pos, table, qs).bytes| >= 5 * |qs|
    decreases |qs|
  {
    hide PrintedName, NameFits;
    var q, rest := qs[0], qs[1..];
    var first := PrintedQuery(pos, table, q);
    NameFitsExactly(size, pos, table, q.name);
    if rest == [] {
      NoRecords(size - (|first.bytes| - 4), pos + |first.bytes|, first.table);
    } else {
      QueriesFitExactly(size - (|first.bytes| - 4), pos + |first.bytes|, first.table, rest);
    }
  }

  // The room a packet asks for: with records, its bytes without four for each query, and one more when the last name is
  // that of the root, spelled out; without records, its bytes without four for each query but one.
  function RoomFor(p: Packet): int
    requires CountsFit(p)
  {
    var qd := PrintedQueries(HEADER_SIZE, [], p.queries);
    var n := |PrintedPacket(p)| - 4 * |p.queries|;
    if AllRecords(p) != [] then n + LastMargin(HEADER_SIZE + |qd.bytes|, qd.table, AllRecords(p))
    else if p.queries != [] then n + 4
    else n
  }

  // A packet of supported records is printed if and only if that much room is stated.
  lemma FitsExactly(size: int, p: Packet)
    requires CountsFit(p) && forall r :: r in AllRecords(p) ==> Printable(r.rdata) && WellTyped(r)
    ensures PacketFits(size, p) <==> size >= RoomFor(p)
  {
    hide WellTyped, Printable, PrintedQueries, PrintedRecords, QueriesFit, RecordsFit, AllRecords, Header, LastMargin;
    var qd := PrintedQueries(HEADER_SIZE, [], p.queries);
    var left, at := size - HEADER_SIZE - |qd.bytes| + 4 * |p.queries|, HEADER_SIZE + |qd.bytes|;
    NoRecords(left, at, qd.table);
    NoRecords(size - HEADER_SIZE, HEADER_SIZE, []);
    if p.queries != [] { QueriesFitExactly(size - HEADER_SIZE, HEADER_SIZE, [], p.queries); }
    if AllRecords(p) != [] { RecordsFitExactly(left, at, qd.table, AllRecords(p)); }
  }

  // ----- how far the printer gets -----

  // The bytes written for a spelled-out name: the labels that fit, and the zero byte after all of them.
  function WireReach(size: int, name: Name): (n: nat)
    ensures 0 <= size ==> n <= size
    ensures |Wire(name)| <= size ==> n == |Wire(name)|
    decreases |name|
  {
    if name == [] then if size == 0 then 0 else 1
    else
      var n := LabelEnd(name) + 1;
      if size < n then 0 else n + WireReach(size - n, AfterLabel(name))
  }

  function NameReach(size: int, table: seq<Entry>, name: Name): nat {
    if Lookup(table, name) < |table| then 2 else WireReach(size, name)
  }

  // The place of the length before a name counts when there is room for it, also when the name fails.
  function RdataReach(size: int, table: seq<Entry>, d: Rdata): nat {
    match d
    case Address(_) => if size < 6 then 0 else 6
    case Alias(name) => if size < 4 then 0 else 2 + NameReach(size - 2, table, name)
    case Service(_, _, _, target) => if size < 10 then 0 else 8 + NameReach(size - 8, table, target)
    case _ => 0
  }

  function RecordReach(size: int, pos: nat, table: seq<Entry>, r: Record): nat {
    var owner := PrintedName(pos, table, r.name);
    var n := |owner.bytes|;
    if !NameFits(size, table, r.name) then NameReach(size, table, r.name)
    else if size - n < 8 then n
    else n + 8 + RdataReach(size - n - 8, owner.table, r.rdata)
  }

  function RecordsReach(size: int, pos: nat, table: seq<Entry>, rs: seq<Record>): nat
    decreases |rs|
  {
    if rs == [] then 0
    else
      var first := PrintedRecord(pos, table, rs[0]);
      var n := |first.bytes|;
      if !RecordFits(size, pos, table, rs[0]) then RecordReach(size, pos, table, rs[0])
      else n + RecordsReach(size - n, pos + n, first.table, rs[1..])
  }

  function QueryReach(size: int, pos: nat, table: seq<Entry>, q: Query): nat {
    var n := |PrintedName(pos, table, q.name).bytes|;
    if !NameFits(size, table, q.name) then NameReach(size, table, q.name)
    else if size - n < 4 then n
    else n + 4
  }

  function QueriesReach(size: int, pos: nat, table: seq<Entry>, qs: seq<Query>): nat
    decreases |qs|
  {
    if qs == [] then 0
    else
      var first := PrintedQuery(pos, table, qs[0]);
      var n := |first.bytes|;
      if !QueryFits(size, pos, table, qs[0]) then QueryReach(size, pos, table, qs[0])
      else n + QueriesReach(size - (n - 4), pos + n, first.table, qs[1..])
  }

  // The end of the memory that print_packet works on, whether it succeeds or not.
  function PacketReach(size: int, p: Packet): nat {
    var qd := PrintedQueries(HEADER_SIZE, [], p.queries);
    if size < HEADER_SIZE then 0
    else if !QueriesFit(size - HEADER_SIZE, HEADER_SIZE, [], p.queries) then
      HEADER_SIZE + QueriesReach(size - HEADER_SIZE, HEADER_SIZE, [], p.queries)
    else
      HEADER_SIZE + |qd.bytes|
      + RecordsReach(size - HEADER_SIZE - |qd.bytes| + 4 * |p.queries|, HEADER_SIZE + |qd.bytes|, qd.table, AllRecords(p))
  }

  lemma NameReachFits(size: int, pos: nat, table: seq<Entry>, name: Name)
    requires NameFits(size, table, name)
    ensures NameReach(size, table, name) == |PrintedName(pos, table, name).bytes|
    ensures Lookup(table, name) == |table| ==> |PrintedName(pos, table, name).bytes| <= size
  {
    hide Lookup, Wire;
  }

  lemma RdataReachFits(size: int, pos: nat, table: seq<Entry>, r: Record)
    requires WellTyped(r) && RdataFits(size, table, r.rdata)
    ensures RdataReach(size, table, r.rdata) == |PrintedRdata(pos, table, r.rdata).bytes| <= size
  {
    hide NameFits, NameReach, PrintedName;
    match r.rdata
    case Address(_) =>
    case Alias(name) =>
      NameReachFits(size - 2, pos + 2, table, name);
      PointerIsTwo(pos + 2, table, name);
    case Service(_, _, _, target) =>
      NameReachFits(size - 8, pos + 8, table, target);
      PointerIsTwo(pos + 8, table, target);
    case _ =>
  }

  lemma PointerIsTwo(pos: nat, table: seq<Entry>, name: Name)
    ensures Lookup(table, name) < |table| ==> |PrintedName(pos, table, name).bytes| == 2
    ensures Lookup(table, name) <= |table|
  {
    hide Lookup, Wire;
  }

  // A record that is printed lies within the room, and is all that is written.
  lemma RecordReachFits(size: int, pos: nat, table: seq<Entry>, r: Record)
    requires WellTyped(r) && RecordFits(size, pos, table, r)
    ensures RecordReach(size, pos, table, r) == |PrintedRecord(pos, table, r).bytes| <= size
  {
    hide NameFits, NameReach, PrintedName, RdataFits, RdataReach, PrintedRdata, WellTyped;
    var owner := PrintedName(pos, table, r.name);
    var n := |owner.bytes|;
    NameReachFits(size, pos, table, r.name);
    RdataReachFits(size - n - 8, pos + n + 8, owner.table, r);
  }

  lemma {:induction false} RecordsReachFits(size: int, pos: nat, table: seq<Entry>, rs: seq<Record>)
    requires 0 <= size && (forall r :: r in rs ==> WellTyped(r)) && RecordsFit(size, pos, table, rs)
    ensures RecordsReach(size, pos, table, rs) == |PrintedRecords(pos, table, rs).bytes| <= size
    decreases |rs|
  {
    hide RecordFits, RecordReach, PrintedRecord, WellTyped;
    if rs != [] {
      var first := PrintedRecord(pos, table, rs[0]);
      assert rs[0] in rs;
      RecordReachFits(size, pos, table, rs[0]);
      RecordsReachFits(size - |first.bytes|, pos + |first.bytes|, first.table, rs[1..]);
    }
  }

  // The queries that are printed: the room left behind them is four bytes too large for each of them.
  lemma {:induction false} QueriesReachFits(size: int, pos: nat, table: seq<Entry>, qs: seq<Query>)
    requires 0 <= size && QueriesFit(size, pos, table, qs)
    ensures QueriesReach(size, pos, table, qs) == |PrintedQueries(pos, table, qs).bytes|
    ensures qs != [] ==> |PrintedQueries(pos, table, qs).bytes| <= size + 4 * (|qs| - 1)
    decreases |qs|
  {
    hide QueryFits, QueryReach, PrintedQuery;
    if qs != [] {
      var first := PrintedQuery(pos, table, qs[0]);
      QueryReachFits(size, pos, table, qs[0]);
      QueriesReachFits(size - (|first.bytes| - 4), pos + |first.bytes|, first.table, qs[1..]);
    }
  }

  lemma QueryReachFits(size: int, pos: nat, table: seq<Entry>, q: Query)
    requires QueryFits(size, pos, table, q)
    ensures QueryReach(size, pos, table, q) == 4 + |PrintedName(pos, table, q.name).bytes|
            == |PrintedQuery(pos, table, q).bytes| <= size
  {
    hide NameFits, NameReach, PrintedName;
  }

  // How far a packet that is printed may exceed the stated size: by four bytes for every query, and the last
  // query only when records follow it.
  lemma PrintedBound(size: int, p: Packet)
    requires CountsFit(p) && (forall r :: r in AllRecords(p) ==> WellTyped(r)) && PacketFits(size, p)
    ensures PacketReach(size, p) == |PrintedPacket(p)|
    ensures |PrintedPacket(p)| <= size + 4 * |p.queries|
    ensures p.queries != [] && AllRecords(p) == [] ==> |PrintedPacket(p)| <= size + 4 * (|p.queries| - 1)
  {
    hide WellTyped, PrintedQueries, PrintedRecords, QueriesFit, RecordsFit, QueriesReach, RecordsReach, AllRecords, Header;
    var qd := PrintedQueries(HEADER_SIZE, [], p.queries);
    QueriesReachFits(size - HEADER_SIZE, HEADER_SIZE, [], p.queries);
    NoBytes(HEADER_SIZE, []);
    NoRecordBytes(HEADER_SIZE + |qd.bytes|, qd.table);
    RecordsReachFits(size - HEADER_SIZE - |qd.bytes| + 4 * |p.queries|, HEADER_SIZE + |qd.bytes|, qd.table, AllRecords(p));
  }

  lemma NoBytes(pos: nat, table: seq<Entry>)
    ensures PrintedQueries(pos, table, []) == Printed([], table)
  {
  }

  lemma NoRecordBytes(pos: nat, table: seq<Entry>)
    ensures PrintedRecords(pos, table, []) == Printed([], table)
  {
  }

  // A packet smaller than the stated size is printed, and nothing is written beyond it.
  lemma SmallerIsKept(size: int, p: Packet)
    requires CountsFit(p) && forall r :: r in AllRecords(p) ==> Printable(r.rdata) && WellTyped(r)
    requires |PrintedPacket(p)| < size
    ensures PacketFits(size, p) && PacketReach(size, p) < size
  {
    hide WellTyped, Printable, PrintedPacket, PacketFits, AllRecords, PacketReach;
    PacketHasRoom(size, p);
    PrintedBound(size, p);
  }

  // Otherwise one byte less than the packet takes is enough to print it all the same.
  lemma PrintedBeyond(p: Packet)
    requires CountsFit(p) && forall r :: r in AllRecords(p) ==> Printable(r.rdata) && WellTyped(r)
    requires p.queries != [] && (AllRecords(p) != [] || |p.queries| > 1)
    ensures PacketFits(|PrintedPacket(p)| - 1, p)
  {
    hide WellTyped, Printable, PrintedQueries, PrintedRecords, QueriesFit, RecordsFit, AllRecords, Header;
    var qd := PrintedQueries(HEADER_SIZE, [], p.queries);
    var rs := AllRecords(p);
    var n := |PrintedRecords(HEADER_SIZE + |qd.bytes|, qd.table, rs).bytes|;
    if rs == [] {
      NoRecordBytes(HEADER_SIZE + |qd.bytes|, qd.table);
      QueriesFitTightly(HEADER_SIZE, [], p.queries);
      NothingFits(|qd.bytes| - 1 - |qd.bytes| + 4 * |p.queries|, HEADER_SIZE + |qd.bytes|, qd.table);
    } else {
      RecordsNotEmpty(HEADER_SIZE + |qd.bytes|, qd.table, rs);
      QueriesHaveRoom(|qd.bytes| + n - 1, HEADER_SIZE, [], p.queries);
      RecordsHaveRoom(n - 1 + 4 * |p.queries|, HEADER_SIZE + |qd.bytes|, qd.table, rs);
    }
  }

  lemma NothingFits(size: int, pos: nat, table: seq<Entry>)
    ensures RecordsFit(size, pos, table, [])
  {
  }

  lemma RecordsNotEmpty(pos: nat, table: seq<Entry>, rs: seq<Record>)
    requires rs != []
    ensures |PrintedRecords(pos, table, rs).bytes| >= 8
  {
    hide PrintedName, PrintedRdata;
  }

  lemma QueriesFitTightly(pos: nat, table: seq<Entry>, qs: seq<Query>)
    requires |qs| > 1
    ensures QueriesFit(|PrintedQueries(pos, table, qs).bytes| - 1, pos, table, qs)
    ensures |PrintedQueries(pos, table, qs).bytes| > 1
  {
    hide PrintedName, NameFits;
    var first := PrintedQuery(pos, table, qs[0]);
    var n := |PrintedQueries(pos, table, qs).bytes| - 1;
    var rest := PrintedQueries(pos + |first.bytes|, first.table, qs[1..]);
    QueriesHaveRoom(|rest.bytes| + 3, pos + |first.bytes|, first.table, qs[1..]);
    NameHasRoom(n, pos, table, qs[0].name);
  }

  // Exactly when print_packet keeps the promise never to return more than the stated size.  An answer of the
  // server has one query, so that every answer with a record may exceed the size.
  lemma SizeKeptExactly(p: Packet)
    requires CountsFit(p) && forall r :: r in AllRecords(p) ==> Printable(r.rdata) && WellTyped(r)
    ensures (forall size: int :: PacketFits(size, p) ==> |PrintedPacket(p)| <= size)
            <==> p.queries == [] || (|p.queries| == 1 && AllRecords(p) == [])
  {
    hide WellTyped, Printable, PrintedPacket, PacketFits, AllRecords;
    if p.queries == [] || (|p.queries| == 1 && AllRecords(p) == []) {
      forall size: int | PacketFits(size, p) ensures |PrintedPacket(p)| <= size { PrintedBound(size, p); }
    } else {
      PrintedBeyond(p);
      assert !(|PrintedPacket(p)| <= |PrintedPacket(p)| - 1);
    }
  }

  // An answer of the server: thirty-five bytes are printed where thirty-four were said to be.
  lemma AnswerBeyond(id: uint16, flags: uint16, ttl: uint32, address: seq<byte>)
    requires |address| == 4
    ensures var name := ['a' as byte];
            var answer := Record(name, TYPE_A, CLASS_IN, ttl, Address(address));
            var p := Packet(id, flags, [Query(name, TYPE_A, CLASS_IN)], [answer], [], []);
            CountsFit(p) && PacketFits(34, p) && |PrintedPacket(p)| == 35
  {
    hide PrintedRecords, PrintedQueries, PacketFits, Wire, Body;
    var name := ['a' as byte];
    var answer := Record(name, TYPE_A, CLASS_IN, ttl, Address(address));
    var p := Packet(id, flags, [Query(name, TYPE_A, CLASS_IN)], [answer], [], []);
    OneLabel(name);
    assert AllRecords(p) == [answer];
    OneQuery(p.queries[0]);
    OneAddress(HEADER_SIZE + 7, Entry(HEADER_SIZE, name), answer);
    PrintedBeyond(p);
  }

  lemma OneLabel(name: Name)
    requires |name| == 1 && name[0] != DOT
    ensures |Wire(name)| == 3 && Body(name)[0] == name[0] && Body(name) == name
  {
    assert name[1..] == [];
    assert LabelEnd(name) == 1;
    assert Wire(name) == LabelBytes(name) + [0];
  }

  lemma OneQuery(q: Query)
    requires |Wire(q.name)| == 3
    ensures var s := PrintedQueries(HEADER_SIZE, [], [q]); |s.bytes| == 7 && s.table == [Entry(HEADER_SIZE, q.name)]
  {
    hide Wire;
  }

  // The name of the record is a pointer to that of the query.
  lemma OneAddress(pos: nat, e: Entry, r: Record)
    requires e.name == r.name && Body(r.name) == r.name && r.rdata.Address? && |r.rdata.address| == 4
    ensures |PrintedRecords(pos, [e], [r]).bytes| == 16
  {
    hide Wire, Body;
  }

  // ----- every run -----

  lemma RecordReachBound(size: int, pos: nat, table: seq<Entry>, r: Record)
    requires 0 <= size
    ensures RecordReach(size, pos, table, r) <= size + 2
  {
    hide Wire, Lookup, WireReach;
  }

  lemma {:induction false} RecordsReachBound(size: int, pos: nat, table: seq<Entry>, rs: seq<Record>)
    requires 0 <= size && forall r :: r in rs ==> WellTyped(r)
    ensures RecordsReach(size, pos, table, rs) <= size + 2
    decreases |rs|
  {
    hide RecordFits, RecordReach, PrintedRecord, WellTyped;
    if rs != [] {
      var first := PrintedRecord(pos, table, rs[0]);
      assert rs[0] in rs;
      RecordReachBound(size, pos, table, rs[0]);
      if RecordFits(size, pos, table, rs[0]) {
        RecordReachFits(size, pos, table, rs[0]);
        RecordsReachBound(size - |first.bytes|, pos + |first.bytes|, first.table, rs[1..]);
      }
    }
  }

  lemma QueryReachBound(size: int, pos: nat, table: seq<Entry>, q: Query)
    requires 0 <= size
    ensures QueryReach(size, pos, table, q) <= size + 2
  {
    hide Wire, Lookup, WireReach;
  }

  lemma {:induction false} QueriesReachBound(size: int, pos: nat, table: seq<Entry>, qs: seq<Query>)
    requires 0 <= size
    ensures QueriesReach(size, pos, table, qs) <= size + 4 * |qs| + 2
    decreases |qs|
  {
    hide QueryFits, QueryReach, PrintedQuery;
    if qs != [] {
      var first := PrintedQuery(pos, table, qs[0]);
      QueryReachBound(size, pos, table, qs[0]);
      if QueryFits(size, pos, table, qs[0]) {
        QueryReachFits(size, pos, table, qs[0]);
        QueriesReachBound(size - (|first.bytes| - 4), pos + |first.bytes|, first.table, qs[1..]);
      }
    }
  }

  // No run gets further beyond the size than four bytes for every query and two for an unchecked pointer.
  lemma ReachBound(size: int, p: Packet)
    requires forall r :: r in AllRecords(p) ==> WellTyped(r)
    ensures PacketReach(size, p) <= if size < HEADER_SIZE then 0 else size + 4 * |p.queries| + 2
  {
    hide WellTyped, PrintedQueries, QueriesFit, RecordsReach, QueriesReach, AllRecords;
    if size >= HEADER_SIZE {
      var room := size - HEADER_SIZE;
      var qd := PrintedQueries(HEADER_SIZE, [], p.queries);
      QueriesReachBound(room, HEADER_SIZE, [], p.queries);
      if QueriesFit(room, HEADER_SIZE, [], p.queries) {
        QueriesReachFits(room, HEADER_SIZE, [], p.queries);
        NoBytes(HEADER_SIZE, []);
        RecordsReachBound(room - |qd.bytes| + 4 * |p.queries|, HEADER_SIZE + |qd.bytes|, qd.table, AllRecords(p));
      }
    }
  }

  // No name of a record is found in the label table when its turn comes.
  predicate OwnersNew(pos: nat, table: seq<Entry>, rs: seq<Record>)
    decreases |rs|
  {
    rs == []
    || var first := PrintedRecord(pos, table, rs[0]);
       Lookup(table, rs[0].name) == |table| && OwnersNew(pos + |first.bytes|, first.table, rs[1..])
  }

  lemma NewOwnerStays(size: int, pos: nat, table: seq<Entry>, r: Record)
    requires 0 <= size && Lookup(table, r.name) == |table|
    ensures RecordReach(size, pos, table, r) <= size
  {
    hide Wire, Lookup, WireReach;
  }

  lemma {:induction false} NewOwnersStay(size: int, pos: nat, table: seq<Entry>, rs: seq<Record>)
    requires 0 <= size && (forall r :: r in rs ==> WellTyped(r)) && OwnersNew(pos, table, rs)
    ensures RecordsReach(size, pos, table, rs) <= size
    decreases |rs|
  {
    hide RecordFits, RecordReach, PrintedRecord, WellTyped, Lookup;
    if rs != [] {
      var first := PrintedRecord(pos, table, rs[0]);
      assert rs[0] in rs;
      NewOwnerStays(size, pos, table, rs[0]);
      if RecordFits(size, pos, table, rs[0]) {
        RecordReachFits(size, pos, table, rs[0]);
        NewOwnersStay(size - |first.bytes|, pos + |first.bytes|, first.table, rs[1..]);
      }
    }
  }

  lemma KnownOwnerBeyond(pos: nat, table: seq<Entry>, r: Record)
    requires Lookup(table, r.name) < |table|
    ensures !RecordFits(1, pos, table, r) && RecordReach(1, pos, table, r) == 2
  {
    hide Wire, Lookup;
  }

  // The first name that is found is written as a pointer over the last byte of some room.
  lemma {:induction false} OwnerBeyond(pos: nat, table: seq<Entry>, rs: seq<Record>) returns (size: nat)
    requires (forall r :: r in rs ==> Printable(r.rdata) && WellTyped(r)) && !OwnersNew(pos, table, rs)
    ensures size > 0 && RecordsReach(size, pos, table, rs) > size
    decreases |rs|
  {
    hide RecordFits, RecordReach, PrintedRecord, WellTyped, Printable, Lookup;
    assert rs[0] in rs;
    if Lookup(table, rs[0].name) < |table| {
      KnownOwnerBeyond(pos, table, rs[0]);
      size := 1;
    } else {
      var first := PrintedRecord(pos, table, rs[0]);
      LookupBound(table, rs[0].name);
      size := OwnerBeyond(pos + |first.bytes|, first.table, rs[1..]);
      size := size + |first.bytes|;
      RecordHasRoom(size, pos, table, rs[0]);
    }
  }

  lemma LookupBound(table: seq<Entry>, name: Name)
    ensures Lookup(table, name) <= |table|
  {
  }

  lemma OneQueryStays(size: int, pos: nat, q: Query)
    requires 0 <= size
    ensures QueriesReach(size, pos, [], [q]) <= size
  {
    hide Wire, WireReach;
    assert [q][1..] == [];
  }

  // The run stays within the stated size.
  predicate StaysWithin(size: int, p: Packet) { PacketReach(size, p) <= if size < 0 then 0 else size }

  // The packets that no run takes beyond any size: one query without a record, or records without a query
  // whose names are never printed as pointers.
  predicate AlwaysWithin(p: Packet) {
    || (|p.queries| == 1 && AllRecords(p) == [])
    || (p.queries == [] && OwnersNew(HEADER_SIZE, [], AllRecords(p)))
  }

  lemma WithinStays(size: int, p: Packet)
    requires (forall r :: r in AllRecords(p) ==> WellTyped(r)) && AlwaysWithin(p)
    ensures StaysWithin(size, p)
  {
    hide WellTyped, PrintedQueries, QueriesFit, RecordsReach, QueriesReach, AllRecords, OwnersNew;
    if size >= HEADER_SIZE {
      var room := size - HEADER_SIZE;
      NoBytes(HEADER_SIZE, []);
      if p.queries == [] {
        NoQueriesReach(room, HEADER_SIZE, []);
        NewOwnersStay(room, HEADER_SIZE, [], AllRecords(p));
      } else {
        var qd := PrintedQueries(HEADER_SIZE, [], p.queries);
        assert p.queries == [p.queries[0]];
        OneQueryStays(room, HEADER_SIZE, p.queries[0]);
        if QueriesFit(room, HEADER_SIZE, [], p.queries) {
          QueriesReachFits(room, HEADER_SIZE, [], p.queries);
          NoRecordsReach(room - |qd.bytes| + 4, HEADER_SIZE + |qd.bytes|, qd.table);
        }
      }
    }
  }

  lemma NoQueriesReach(size: int, pos: nat, table: seq<Entry>)
    ensures QueriesFit(size, pos, table, []) && QueriesReach(size, pos, table, []) == 0
  {
  }

  lemma NoRecordsReach(size: int, pos: nat, table: seq<Entry>)
    ensures RecordsReach(size, pos, table, []) == 0
  {
  }

  // Exactly the packets that no run, successful or not, takes beyond any size.
  lemma NeverBeyondExactly(p: Packet)
    requires CountsFit(p) && forall r :: r in AllRecords(p) ==> Printable(r.rdata) && WellTyped(r)
    ensures (forall size: int :: StaysWithin(size, p)) <==> AlwaysWithin(p)
  {
    hide WellTyped, Printable, AllRecords, OwnersNew, PacketFits, PrintedPacket;
    if AlwaysWithin(p) {
      forall size: int ensures StaysWithin(size, p) { WithinStays(size, p); }
    } else if p.queries == [] {
      var size := BeyondWithoutQuery(p);
      assert !StaysWithin(size, p);
    } else {
      PrintedBeyond(p);
      var size := |PrintedPacket(p)| - 1;
      PrintedBound(size, p);
      HeaderFirst(p);
      assert !StaysWithin(size, p);
    }
  }

  lemma HeaderFirst(p: Packet)
    requires CountsFit(p)
    ensures |PrintedPacket(p)| >= HEADER_SIZE
  {
    hide Header, PrintedQueries, PrintedRecords;
  }

  lemma BeyondWithoutQuery(p: Packet) returns (size: int)
    requires forall r :: r in AllRecords(p) ==> Printable(r.rdata) && WellTyped(r)
    requires p.queries == [] && !OwnersNew(HEADER_SIZE, [], AllRecords(p))
    ensures !StaysWithin(size, p)
  {
    hide WellTyped, Printable, AllRecords, OwnersNew, RecordsReach, QueriesFit, PrintedQueries, QueriesReach;
    var room := OwnerBeyond(HEADER_SIZE, [], AllRecords(p));
    NoBytes(HEADER_SIZE, []);
    NoQueriesReach(room, HEADER_SIZE, []);
    size := room + HEADER_SIZE;
  }

  // Two addresses of one name, without a query: the name of the second is written over the end, and the run
  // fails.  Behind a query for that name the bound on all runs is met.
  lemma PointerBeyond(id: uint16, flags: uint16, ttl: uint32, address: seq<byte>)
    requires |address| == 4
    ensures var name := ['a' as byte];
            var r := Record(name, TYPE_A, CLASS_IN, ttl, Address(address));
            var p := Packet(id, flags, [], [r, r], [], []);
            var q := Packet(id, flags, [Query(name, TYPE_A, CLASS_IN)], [r, r], [], []);
            && PacketReach(29, p) == 31 && !PacketFits(29, p)
            && PacketReach(30, p) == 31 && !PacketFits(30, p)
            && PacketReach(31, q) == 31 + 4 * |q.queries| + 2 && !PacketFits(31, q)
  {
    hide PrintedRecords, PrintedQueries, RecordsReach, RecordsFit, QueriesFit, QueriesReach, Wire, Body;
    var name := ['a' as byte];
    var r := Record(name, TYPE_A, CLASS_IN, ttl, Address(address));
    var p := Packet(id, flags, [], [r, r], [], []);
    var q := Packet(id, flags, [Query(name, TYPE_A, CLASS_IN)], [r, r], [], []);
    OneLabel(name);
    assert AllRecords(p) == [r, r] && AllRecords(q) == [r, r];
    NoBytes(HEADER_SIZE, []);
    NoQueriesReach(17, HEADER_SIZE, []);
    NoQueriesReach(18, HEADER_SIZE, []);
    TwoAddresses(17, HEADER_SIZE, r);
    TwoAddresses(18, HEADER_SIZE, r);
    OneQuery(q.queries[0]);
    OneQueryFits(19, q.queries[0]);
    TwoPointers(HEADER_SIZE + 7, Entry(HEADER_SIZE, name), r);
  }

  lemma OneQueryFits(size: int, q: Query)
    requires |Wire(q.name)| == 3 && size >= 7
    ensures QueriesFit(size, HEADER_SIZE, [], [q])
  {
    hide Wire;
    assert [q][1..] == [];
  }

  // The name is spelled out in the first record, and found by the second.
  lemma TwoAddresses(size: int, pos: nat, r: Record)
    requires r.rdata.Address? && |r.rdata.address| == 4 && |Wire(r.name)| == 3 && Body(r.name) == r.name
    requires 17 <= size <= 18
    ensures RecordsReach(size, pos, [], [r, r]) == 19 && !RecordsFit(size, pos, [], [r, r])
  {
    hide Wire, Body, WireReach;
    assert [r, r][1..] == [r];
  }

  lemma TwoPointers(pos: nat, e: Entry, r: Record)
    requires r.rdata.Address? && |r.rdata.address| == 4 && e.name == r.name && Body(r.name) == r.name
    ensures RecordsReach(16, pos, [e], [r, r]) == 18 && !RecordsFit(16, pos, [e], [r, r])
  {
    hide Wire, Body;
    assert [r, r][1..] == [r];
  }
}
