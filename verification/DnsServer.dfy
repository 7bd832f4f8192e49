/** The printing functions of the DNS server (dns_server.c), which write into a packet buffer. */
module DnsServer {
  import opened Bytes
  import opened Buffers
  import opened DnsPacket
  import opened DnsPrinter
  import opened DnsSizes

  // An entry of the label table: the place in the packet where the text of a name is compared.
  datatype Slot = Slot(pos: nat, slen: nat)

  predicate SpelledAt(packet: seq<byte>, e: Entry) {
    e.pos + |Wire(e.name)| <= |packet| && packet[e.pos..e.pos + |Wire(e.name)|] == Wire(e.name)
  }

  // Every name of the table is spelled out in the packet, so that no pointer leads to a pointer.
  predicate AllSpelled(packet: seq<byte>, table: seq<Entry>) {
    forall i :: 0 <= i < |table| ==> SpelledAt(packet, table[i])
  }

  lemma StillSpelled(a: seq<byte>, b: seq<byte>, table: seq<Entry>)
    requires AllSpelled(a, table) && a <= b
    ensures AllSpelled(b, table)
  {
    hide Wire;
    forall i | 0 <= i < |table| ensures SpelledAt(b, table[i]) {
      var e := table[i];
      assert SpelledAt(a, e);
      assert b[e.pos..e.pos + |Wire(e.name)|] == a[e.pos..e.pos + |Wire(e.name)|];
    }
  }

  lemma BodyAt(packet: seq<byte>, e: Entry)
    requires SpelledAt(packet, e)
    ensures e.pos + 1 + |e.name| <= |packet| && packet[e.pos + 1..e.pos + 1 + |e.name|] == Body(e.name)
  {
    hide Wire;
    var w, n := Wire(e.name), 1 + |e.name|;
    Subslice(packet, e.pos, e.pos + |w|, 1, n);
    assert w[1..n] == packet[e.pos + 1..e.pos + n];
  }

  class LabelTable {
    var slots: seq<Slot>
    ghost var table: seq<Entry>

    ghost predicate Valid()
      reads this
    {
      && |slots| == |table| <= MAX_LABEL
      && forall i :: 0 <= i < |slots| ==> slots[i] == Slot(table[i].pos, |table[i].name|)
    }

    constructor ()
      ensures Valid() && table == []
    {
      slots, table := [], [];
    }

    // Is the name in the table?
    method Find(pkt: array<byte>, ghost pos: nat, name: Name) returns (i: nat)
      requires Valid() && pos <= pkt.Length && AllSpelled(pkt[..pos], table)
      ensures i == Lookup(table, name)
    {
      hide Wire, Body, SpelledAt;
      i := 0;
      assert table[0..] == table;
      while i < |slots|
        invariant i <= |slots|
        invariant Lookup(table, name) == i + Lookup(table[i..], name)
      {
        ghost var e := table[i];
        assert SpelledAt(pkt[..pos], e);
        BodyAt(pkt[..pos], e);
        assert pkt[e.pos + 1..e.pos + 1 + |e.name|] == pkt[..pos][e.pos + 1..e.pos + 1 + |e.name|];
        assert table[i..][1..] == table[i + 1..];
        if pkt[slots[i].pos + 1..slots[i].pos + 1 + slots[i].slen] == name {
          return;
        }
        i := i + 1;
      }
    }

    // Add an entry, if there is room.
    method Insert(pos: nat, name: Name)
      requires Valid()
      modifies this
      ensures Valid() && table == Inserted(old(table), pos, name)
    {
      if |slots| < MAX_LABEL {
        slots := slots + [Slot(pos, |name|)];
        table := table + [Entry(pos, name)];
      }
    }
  }

  // ----- writing -----

  // Every printing function writes behind what has been written so far: its contract says what the packet
  // is up to the new end.

  method Write16(pkt: array<byte>, p: nat, v: uint16)
    requires p + 2 <= pkt.Length
    modifies pkt
    ensures pkt[..p + 2] == old(pkt[..p]) + Put16(v)
  {
    pkt[p], pkt[p + 1] := v / 0x100, v % 0x100;
  }

  method Write32(pkt: array<byte>, p: nat, v: uint32)
    requires p + 4 <= pkt.Length
    modifies pkt
    ensures pkt[..p + 4] == old(pkt[..p]) + Put32(v)
  {
    hide Put16;
    Appended(pkt[..p], Put16(v / 0x1_0000), Put16(v % 0x1_0000));
    Write16(pkt, p, v / 0x1_0000);
    Write16(pkt, p + 2, v % 0x1_0000);
  }

  method WriteThree(pkt: array<byte>, p: nat, a: uint16, b: uint16, c: uint16)
    requires p + 6 <= pkt.Length
    modifies pkt
    ensures pkt[..p + 6] == old(pkt[..p]) + (Put16(a) + Put16(b) + Put16(c))
  {
    hide Put16;
    Appended(pkt[..p], Put16(a), Put16(b));
    Appended(pkt[..p], Put16(a) + Put16(b), Put16(c));
    Write16(pkt, p, a);
    Write16(pkt, p + 2, b);
    Write16(pkt, p + 4, c);
  }

  // The length of the data of a record is filled in when the data have been written.
  method FillIn16(pkt: array<byte>, p: nat, v: uint16, ghost before: seq<byte>, ghost gap: seq<byte>, ghost data: seq<byte>)
    requires |before| == p && |gap| == 2 && p + 2 + |data| <= pkt.Length
    requires pkt[..p + 2 + |data|] == (before + gap) + data
    modifies pkt
    ensures pkt[..p + 2 + |data|] == before + (Put16(v) + data)
  {
    ghost var was := pkt[..p + 2 + |data|];
    pkt[p], pkt[p + 1] := v / 0x100, v % 0x100;
    forall k | 0 <= k < p + 2 + |data| ensures pkt[k] == (before + (Put16(v) + data))[k] {
      assert was[k] == ((before + gap) + data)[k];
    }
  }

  // The scan for the end of a label.
  method FindLabelEnd(name: Name, start: nat) returns (end: nat)
    requires start <= |name|
    ensures start <= end <= |name| && end == start + LabelEnd(name[start..])
    ensures end < |name| ==> name[end] == DOT
  {
    end := start;
    while end != |name| && name[end] != DOT
      invariant start <= end <= |name|
      invariant start + LabelEnd(name[start..]) == end + LabelEnd(name[end..])
    {
      assert name[end..][1..] == name[end + 1..];
      end := end + 1;
    }
  }

  lemma WireStep(name: Name, start: nat, end: nat)
    requires start < |name| && end == start + LabelEnd(name[start..])
    ensures end <= |name|
    ensures var next := if end < |name| then end + 1 else end;
            Wire(name[start..]) == ([LengthByte(end - start)] + name[start..end]) + Wire(name[next..])
  {
    var rest := name[start..];
    var next := if end < |name| then end + 1 else end;
    assert rest[..end - start] == name[start..end];
    assert AfterLabel(rest) == name[next..];
  }

  // The labels of a name, one after the other, then the zero byte; fails when the room runs out.
  method WriteLabels(pkt: array<byte>, size: int, pos: nat, name: Name) returns (len: int)
    requires 0 <= size && pos + WireReach(size, name) <= pkt.Length
    modifies pkt
    ensures len == if |Wire(name)| <= size then |Wire(name)| else -1
    ensures len >= 0 ==> pkt[..pos + len] == old(pkt[..pos]) + Wire(name)
  {
    hide Wire, WireReach, LabelEnd, LengthByte, Splits;
    ghost var before := pkt[..pos];
    ghost var done: seq<byte> := [];
    var p, left, start := pos, size, 0;
    assert name[0..] == name;
    SplitStart(before, Wire(name));
    while start != |name|
      invariant start <= |name| && p == pos + |done| <= pkt.Length && 0 <= left == size - |done|
      invariant Splits(pkt[..p], before, done)
      invariant Splits(Wire(name), done, Wire(name[start..]))
      invariant |done| + WireReach(left, name[start..]) == WireReach(size, name)
    {
      var end := FindLabelEnd(name, start);
      var n := end - start;
      WireStep(name, start, end);
      ReachStep(left, name, start, end);
      if left < n + 1 {
        SplitSize(Wire(name), done, Wire(name[start..]));
        return -1;
      }
      var part := [LengthByte(n)] + name[start..end];
      start := if end != |name| && name[end] == DOT then end + 1 else end;
      SplitStep(pkt[..p], before, done, part, Wire(name[start..]), Wire(name));
      Write(pkt, p, part);
      done := done + part;
      left, p := left - (n + 1), p + (n + 1);
    }
    assert name[start..] == [];
    WireNothing();
    ReachNothing(left);
    SplitSize(Wire(name), done, [0]);
    if left == 0 { return -1; }
    SplitEnd(pkt[..p], before, done, Wire(name));
    Write(pkt, p, [0]);
    len := p + 1 - pos;
  }

  // What is done and what is left of a text.
  predicate Splits(whole: seq<byte>, done: seq<byte>, rest: seq<byte>) { whole == done + rest }

  lemma SplitStart(before: seq<byte>, whole: seq<byte>)
    ensures Splits(before, before, []) && Splits(whole, [], whole)
  {
  }

  lemma SplitSize(whole: seq<byte>, done: seq<byte>, rest: seq<byte>)
    requires Splits(whole, done, rest)
    ensures |whole| == |done| + |rest|
  {
  }

  lemma SplitStep(memory: seq<byte>, before: seq<byte>, done: seq<byte>, part: seq<byte>, rest: seq<byte>, whole: seq<byte>)
    requires Splits(memory, before, done) && Splits(whole, done, part + rest)
    ensures Splits(memory + part, before, done + part) && Splits(whole, done + part, rest)
  {
  }

  lemma SplitEnd(memory: seq<byte>, before: seq<byte>, done: seq<byte>, whole: seq<byte>)
    requires Splits(memory, before, done) && Splits(whole, done, [0])
    ensures memory + [0] == before + whole
  {
  }

  lemma WireNothing()
    ensures Wire([]) == [0]
  {
  }

  lemma ReachNothing(left: int)
    ensures WireReach(left, []) == if left == 0 then 0 else 1
  {
  }

  lemma ReachStep(left: int, name: Name, start: nat, end: nat)
    requires start < |name| && end == start + LabelEnd(name[start..])
    ensures end <= |name|
    ensures var n, next := end - start + 1, if end < |name| then end + 1 else end;
            left >= n ==> WireReach(left, name[start..]) == n + WireReach(left - n, name[next..])
  {
    hide WireReach, Wire, LabelEnd, AfterLabel;
    AfterLabelAt(name, start, end);
    if left >= end - start + 1 { ReachSplit(left, name[start..]); }
  }

  lemma AfterLabelAt(name: Name, start: nat, end: nat)
    requires start < |name| && end == start + LabelEnd(name[start..])
    ensures end <= |name| && AfterLabel(name[start..]) == name[if end < |name| then end + 1 else end..]
  {
    hide LabelEnd;
  }

  lemma ReachSplit(left: int, name: Name)
    requires name != [] && left >= LabelEnd(name) + 1
    ensures WireReach(left, name) == LabelEnd(name) + 1 + WireReach(left - (LabelEnd(name) + 1), AfterLabel(name))
  {
    hide LabelEnd, AfterLabel, Wire;
  }

  // print_name
  method PrintName(pkt: array<byte>, size: int, pos: nat, name: Name, tab: LabelTable) returns (len: int)
    requires tab.Valid()
    requires 0 <= size && pos + NameReach(size, tab.table, name) <= pkt.Length && AllSpelled(pkt[..pos], tab.table)
    modifies pkt, tab
    ensures tab.Valid()
    ensures var s := PrintedName(pos, old(tab.table), name);
            && len == (if NameFits(size, old(tab.table), name) then |s.bytes| else -1)
            && (len >= 0 ==>
                  pos + len <= pkt.Length && pkt[..pos + len] == old(pkt[..pos]) + s.bytes && tab.table == s.table
                  && AllSpelled(pkt[..pos + len], tab.table))
  {
    hide Wire, WireReach, Lookup, AllSpelled, SpelledAt, PointerTo;
    ghost var before, was := pkt[..pos], tab.table;
    var i := tab.Find(pkt, pos, name);
    if i != |tab.slots| {
      WritePointer(pkt, pos, tab.slots[i].pos);
      StillSpelled(before, pkt[..pos + 2], was);
      return 2;
    }
    tab.Insert(pos, name);
    len := WriteLabels(pkt, size, pos, name);
    if len >= 0 {
      StillSpelled(before, pkt[..pos + len], was);
      NewlySpelled(pkt[..pos + len], was, before, name);
    }
  }

  method WritePointer(pkt: array<byte>, p: nat, target: nat)
    requires p + 2 <= pkt.Length
    modifies pkt
    ensures pkt[..p + 2] == old(pkt[..p]) + PointerTo(target)
  {
    pkt[p], pkt[p + 1] := 0xc0 + target / 0x100 % 0x40, target % 0x100;
  }

  lemma NewlySpelled(packet: seq<byte>, table: seq<Entry>, before: seq<byte>, name: Name)
    requires AllSpelled(packet, table) && packet == before + Wire(name)
    ensures AllSpelled(packet, Inserted(table, |before|, name))
  {
    hide Wire;
    assert SpelledAt(packet, Entry(|before|, name));
  }

  // The table is still right once the fields before a name have been written.
  lemma PrintedSpelled(packet: seq<byte>, before: seq<byte>, table: seq<Entry>, start: seq<byte>, name: Name)
    requires AllSpelled(before, table) && before <= packet
    requires packet == start + PrintedName(|start|, table, name).bytes
    ensures AllSpelled(packet, PrintedName(|start|, table, name).table)
  {
    hide Wire, AllSpelled, SpelledAt, Lookup, PointerTo;
    StillSpelled(before, packet, table);
    if Lookup(table, name) == |table| { NewlySpelled(packet, table, start, name); }
  }

  // A name with its length before it.
  method PrintAlias(pkt: array<byte>, size: int, pos: nat, name: Name, tab: LabelTable) returns (len: int)
    requires tab.Valid()
    requires 0 <= size && pos + RdataReach(size, tab.table, Alias(name)) <= pkt.Length && AllSpelled(pkt[..pos], tab.table)
    modifies pkt, tab
    ensures tab.Valid()
    ensures var s := PrintedRdata(pos, old(tab.table), Alias(name));
            && len == (if RdataFits(size, old(tab.table), Alias(name)) then |s.bytes| else -1)
            && (len >= 0 ==>
                  pos + len <= pkt.Length && pkt[..pos + len] == old(pkt[..pos]) + s.bytes && tab.table == s.table
                  && AllSpelled(pkt[..pos + len], tab.table))
  {
    hide PrintedName, NameFits, NameReach, AllSpelled, Put16;
    if size < 4 { return -1; }
    ghost var before, gap, was := pkt[..pos], pkt[pos..pos + 2], tab.table;
    assert pkt[..pos + 2] == before + gap;
    StillSpelled(before, pkt[..pos + 2], was);
    len := PrintName(pkt, size - 2, pos + 2, name, tab);
    if len < 0 { return -1; }
    ghost var bytes := PrintedName(pos + 2, was, name).bytes;
    FillIn16(pkt, pos, len % TWO_16, before, gap, bytes);
    Appended(before, Put16(len % TWO_16), bytes);
    PrintedSpelled(pkt[..pos + 2 + len], before, was, before + Put16(len % TWO_16), name);
    len := len + 2;
  }

  method PrintService(pkt: array<byte>, size: int, pos: nat, d: Rdata, tab: LabelTable) returns (len: int)
    requires tab.Valid() && d.Service?
    requires 0 <= size && pos + RdataReach(size, tab.table, d) <= pkt.Length && AllSpelled(pkt[..pos], tab.table)
    modifies pkt, tab
    ensures tab.Valid()
    ensures var s := PrintedRdata(pos, old(tab.table), d);
            && len == (if RdataFits(size, old(tab.table), d) then |s.bytes| else -1)
            && (len >= 0 ==>
                  pos + len <= pkt.Length && pkt[..pos + len] == old(pkt[..pos]) + s.bytes && tab.table == s.table
                  && AllSpelled(pkt[..pos + len], tab.table))
  {
    hide PrintedName, NameFits, NameReach, AllSpelled, Put16;
    if size < 10 { return -1; }
    ghost var before, gap, was := pkt[..pos], pkt[pos..pos + 2], tab.table;
    ghost var fields := Put16(d.priority) + Put16(d.weight) + Put16(d.port);
    assert pkt[..pos + 2] == before + gap;
    WriteThree(pkt, pos + 2, d.priority, d.weight, d.port);
    StartsWith(before, gap, fields);
    StillSpelled(before, pkt[..pos + 8], was);
    len := PrintName(pkt, size - 8, pos + 8, d.target, tab);
    if len < 0 { return -1; }
    ghost var bytes := PrintedName(pos + 8, was, d.target).bytes;
    var length: uint16 := (len + 6) % TWO_16;
    Appended(before + gap, fields, bytes);
    FillIn16(pkt, pos, length, before, gap, fields + bytes);
    ServiceBytes(before, Put16(length), d, bytes);
    PrintedSpelled(pkt[..pos + 8 + len], before, was, before + (Put16(length) + fields), d.target);
    len := len + 8;
  }

  lemma StartsWith(a: seq<byte>, b: seq<byte>, c: seq<byte>)
    ensures a <= (a + b) + c
  {
  }

  lemma ServiceBytes(before: seq<byte>, length: seq<byte>, d: Rdata, bytes: seq<byte>)
    requires d.Service?
    ensures var fields := Put16(d.priority) + Put16(d.weight) + Put16(d.port);
            && length + (fields + bytes) == length + Put16(d.priority) + Put16(d.weight) + Put16(d.port) + bytes
            && before + (length + (fields + bytes)) == (before + (length + fields)) + bytes
            && before <= before + (length + (fields + bytes))
  {
    hide Put16;
  }

  // The data of a record; its type says which they are, and the other types are not supported.
  method PrintRdata(pkt: array<byte>, size: int, pos: nat, r: Record, tab: LabelTable) returns (len: int)
    requires tab.Valid() && WellTyped(r)
    requires 0 <= size && pos + RdataReach(size, tab.table, r.rdata) <= pkt.Length && AllSpelled(pkt[..pos], tab.table)
    modifies pkt, tab
    ensures tab.Valid()
    ensures var s := PrintedRdata(pos, old(tab.table), r.rdata);
            && len == (if RdataFits(size, old(tab.table), r.rdata) then |s.bytes| else -1)
            && (len >= 0 ==>
                  pos + len <= pkt.Length && pkt[..pos + len] == old(pkt[..pos]) + s.bytes && tab.table == s.table
                  && AllSpelled(pkt[..pos + len], tab.table))
  {
    hide PrintedName, NameFits, NameReach, AllSpelled, Put16;
    if r.rtype == TYPE_A {
      if size < 6 { return -1; }
      ghost var before := pkt[..pos];
      Write16(pkt, pos, 4);
      Write(pkt, pos + 2, r.rdata.address);
      Appended(before, Put16(4), r.rdata.address);
      StillSpelled(before, pkt[..pos + 6], tab.table);
      len := 6;
    } else if HoldsName(r.rtype) {
      len := PrintAlias(pkt, size, pos, r.rdata.name, tab);
    } else if r.rtype == TYPE_SRV {
      len := PrintService(pkt, size, pos, r.rdata, tab);
    } else {
      len := -1;
    }
  }

  method WriteFixedFields(pkt: array<byte>, p: nat, r: Record)
    requires p + 8 <= pkt.Length
    modifies pkt
    ensures pkt[..p + 8] == old(pkt[..p]) + FixedFields(r)
  {
    hide Put16, Put32;
    Appended(pkt[..p], Put16(r.rtype), Put16(r.rclass));
    Appended(pkt[..p], Put16(r.rtype) + Put16(r.rclass), Put32(r.ttl));
    Write16(pkt, p, r.rtype);
    Write16(pkt, p + 2, r.rclass);
    Write32(pkt, p + 4, r.ttl);
  }

  lemma NameReachFitsIf(size: int, pos: nat, table: seq<Entry>, name: Name)
    ensures NameFits(size, table, name) ==> NameReach(size, table, name) == |PrintedName(pos, table, name).bytes|
  {
    hide NameFits, NameReach, PrintedName;
    if NameFits(size, table, name) { NameReachFits(size, pos, table, name); }
  }

  lemma RecordReachFitsIf(size: int, pos: nat, table: seq<Entry>, r: Record)
    requires WellTyped(r)
    ensures RecordFits(size, pos, table, r) ==>
              RecordReach(size, pos, table, r) == |PrintedRecord(pos, table, r).bytes| <= size
  {
    hide RecordFits, RecordReach, PrintedRecord, WellTyped;
    if RecordFits(size, pos, table, r) { RecordReachFits(size, pos, table, r); }
  }

  // print_rr
  method PrintRecord(pkt: array<byte>, size: int, pos: nat, r: Record, tab: LabelTable) returns (len: int)
    requires tab.Valid() && WellTyped(r)
    requires 0 <= size && pos + RecordReach(size, pos, tab.table, r) <= pkt.Length && AllSpelled(pkt[..pos], tab.table)
    modifies pkt, tab
    ensures tab.Valid()
    ensures var s := PrintedRecord(pos, old(tab.table), r);
            && len == (if RecordFits(size, pos, old(tab.table), r) then |s.bytes| else -1)
            && (len >= 0 ==>
                  len <= size && pos + len <= pkt.Length && pkt[..pos + len] == old(pkt[..pos]) + s.bytes && tab.table == s.table
                  && AllSpelled(pkt[..pos + len], tab.table))
  {
    hide PrintedName, NameFits, NameReach, PrintedRdata, RdataFits, RdataReach, AllSpelled, FixedFields, WellTyped;
    ghost var before, owner := pkt[..pos], PrintedName(pos, tab.table, r.name);
    ghost var was := tab.table;
    NameReachFitsIf(size, pos, was, r.name);
    RecordReachFitsIf(size, pos, was, r);
    var n := PrintName(pkt, size, pos, r.name, tab);
    if n < 0 { return -1; }
    var p, left := pos + n, size - n;
    if left < 8 { return -1; }
    ghost var named := pkt[..p];
    WriteFixedFields(pkt, p, r);
    StillSpelled(named, pkt[..p + 8], tab.table);
    ghost var data := PrintedRdata(p + 8, tab.table, r.rdata);
    var m := PrintRdata(pkt, left - 8, p + 8, r, tab);
    if m < 0 { return -1; }
    Appended(before, owner.bytes, FixedFields(r));
    Appended(before, owner.bytes + FixedFields(r), data.bytes);
    len := n + 8 + m;
  }

  // What was printed from pos to p, followed by the rest of a list.
  function After(done: seq<byte>, rest: Printed): Printed { Printed(done + rest.bytes, rest.table) }

  lemma AfterTwice(a: seq<byte>, b: seq<byte>, rest: Printed)
    ensures After(a, After(b, rest)) == After(a + b, rest)
  {
    assert a + (b + rest.bytes) == (a + b) + rest.bytes;
  }

  lemma AfterNothing(rest: Printed)
    ensures After([], rest) == rest
  {
    assert [] + rest.bytes == rest.bytes;
  }

  lemma RecordsStep(size: int, pos: nat, table: seq<Entry>, rs: seq<Record>, i: nat)
    requires i < |rs|
    ensures var first := PrintedRecord(pos, table, rs[i]);
            && PrintedRecords(pos, table, rs[i..])
               == After(first.bytes, PrintedRecords(pos + |first.bytes|, first.table, rs[i + 1..]))
            && RecordsFit(size, pos, table, rs[i..])
               == (RecordFits(size, pos, table, rs[i])
                   && RecordsFit(size - |first.bytes|, pos + |first.bytes|, first.table, rs[i + 1..]))
            && RecordsReach(size, pos, table, rs[i..])
               == (if RecordFits(size, pos, table, rs[i])
                   then |first.bytes| + RecordsReach(size - |first.bytes|, pos + |first.bytes|, first.table, rs[i + 1..])
                   else RecordReach(size, pos, table, rs[i]))
            && (WellTyped(rs[i]) ==>
                  RecordReach(size, pos, table, rs[i]) <= RecordsReach(size, pos, table, rs[i..]))
  {
    hide PrintedRecord, RecordFits, RecordReach, WellTyped;
    if WellTyped(rs[i]) { RecordReachFitsIf(size, pos, table, rs[i]); }
    assert rs[i..][1..] == rs[i + 1..];
  }

  // One section of records.
  method PrintRecords(pkt: array<byte>, size: int, pos: nat, rs: seq<Record>, tab: LabelTable) returns (len: int)
    requires tab.Valid() && forall r :: r in rs ==> WellTyped(r)
    requires 0 <= size && pos + RecordsReach(size, pos, tab.table, rs) <= pkt.Length && AllSpelled(pkt[..pos], tab.table)
    modifies pkt, tab
    ensures tab.Valid()
    ensures var s := PrintedRecords(pos, old(tab.table), rs);
            && len == (if RecordsFit(size, pos, old(tab.table), rs) then |s.bytes| else -1)
            && (len >= 0 ==>
                  len <= size && pos + len <= pkt.Length && pkt[..pos + len] == old(pkt[..pos]) + s.bytes && tab.table == s.table
                  && AllSpelled(pkt[..pos + len], tab.table))
  {
    hide PrintedRecord, RecordFits, RecordReach, PrintedRecords, RecordsFit, RecordsReach, AllSpelled, WellTyped;
    ghost var before, was := pkt[..pos], tab.table;
    ghost var done: seq<byte> := [];
    var p, left := pos, size;
    assert rs[0..] == rs && before + done == before;
    AfterNothing(PrintedRecords(pos, was, rs));
    for i := 0 to |rs|
      invariant tab.Valid() && p == pos + |done| <= pkt.Length && 0 <= left == size - |done|
      invariant AllSpelled(pkt[..p], tab.table) && pkt[..p] == before + done
      invariant PrintedRecords(pos, was, rs) == After(done, PrintedRecords(p, tab.table, rs[i..]))
      invariant RecordsFit(size, pos, was, rs) == RecordsFit(left, p, tab.table, rs[i..])
      invariant RecordsReach(size, pos, was, rs) == |done| + RecordsReach(left, p, tab.table, rs[i..])
    {
      RecordsStep(left, p, tab.table, rs, i);
      assert WellTyped(rs[i]);
      ghost var first := PrintedRecord(p, tab.table, rs[i]);
      var n := PrintRecord(pkt, left, p, rs[i], tab);
      if n < 0 { return -1; }
      AfterTwice(done, first.bytes, PrintedRecords(p + n, tab.table, rs[i + 1..]));
      Appended(before, done, first.bytes);
      done := done + first.bytes;
      p, left := p + n, left - n;
    }
    assert rs[|rs|..] == [] && done + [] == done;
    NoRecords(left, p, tab.table);
    len := p - pos;
  }

  lemma NoRecords(size: int, pos: nat, table: seq<Entry>)
    ensures PrintedRecords(pos, table, []) == Printed([], table) && RecordsFit(size, pos, table, [])
  {
  }

  // One query; the room for its type and class is checked after its name has been written.
  method PrintQuery(pkt: array<byte>, size: int, pos: nat, q: Query, tab: LabelTable) returns (len: int)
    requires tab.Valid()
    requires 0 <= size && pos + QueryReach(size, pos, tab.table, q) <= pkt.Length && AllSpelled(pkt[..pos], tab.table)
    modifies pkt, tab
    ensures tab.Valid()
    ensures var s := PrintedQuery(pos, old(tab.table), q);
            && len == (if QueryFits(size, pos, old(tab.table), q) then |s.bytes| else -1)
            && (len >= 0 ==>
                  4 <= len <= size && pos + len <= pkt.Length && pkt[..pos + len] == old(pkt[..pos]) + s.bytes && tab.table == s.table
                  && AllSpelled(pkt[..pos + len], tab.table))
  {
    hide PrintedName, NameFits, NameReach, AllSpelled, Put16;
    ghost var before, name := pkt[..pos], PrintedName(pos, tab.table, q.name);
    NameReachFitsIf(size, pos, tab.table, q.name);
    var n := PrintName(pkt, size, pos, q.name, tab);
    if n < 0 { return -1; }
    if size - n < 4 { return -1; }
    var p := pos + n;
    ghost var named := pkt[..p];
    Write16(pkt, p, q.qtype);
    Write16(pkt, p + 2, q.qclass);
    StartsWith(named, Put16(q.qtype), Put16(q.qclass));
    StillSpelled(named, pkt[..p + 4], tab.table);
    Appended(before, name.bytes, Put16(q.qtype));
    Appended(before, name.bytes + Put16(q.qtype), Put16(q.qclass));
    len := n + 4;
  }

  lemma QueriesStep(size: int, pos: nat, table: seq<Entry>, qs: seq<Query>, i: nat)
    requires i < |qs|
    ensures var first := PrintedQuery(pos, table, qs[i]);
            && PrintedQueries(pos, table, qs[i..])
               == After(first.bytes, PrintedQueries(pos + |first.bytes|, first.table, qs[i + 1..]))
            && QueriesFit(size, pos, table, qs[i..])
               == (QueryFits(size, pos, table, qs[i])
                   && QueriesFit(size - (|first.bytes| - 4), pos + |first.bytes|, first.table, qs[i + 1..]))
            && QueriesReach(size, pos, table, qs[i..])
               == (if QueryFits(size, pos, table, qs[i])
                   then |first.bytes| + QueriesReach(size - (|first.bytes| - 4), pos + |first.bytes|, first.table, qs[i + 1..])
                   else QueryReach(size, pos, table, qs[i]))
            && QueryReach(size, pos, table, qs[i]) <= QueriesReach(size, pos, table, qs[i..])
  {
    hide PrintedQuery, QueryFits, QueryReach;
    if QueryFits(size, pos, table, qs[i]) { QueryReachFits(size, pos, table, qs[i]); }
    assert qs[i..][1..] == qs[i + 1..];
  }

  // The query section.  The four bytes after each name are not taken off the room left.
  method PrintQueries(pkt: array<byte>, size: int, pos: nat, qs: seq<Query>, tab: LabelTable)
    returns (len: int, left: int)
    requires tab.Valid()
    requires 0 <= size && pos + QueriesReach(size, pos, tab.table, qs) <= pkt.Length && AllSpelled(pkt[..pos], tab.table)
    modifies pkt, tab
    ensures tab.Valid()
    ensures var s := PrintedQueries(pos, old(tab.table), qs);
            && len == (if QueriesFit(size, pos, old(tab.table), qs) then |s.bytes| else -1)
            && (len >= 0 ==>
                  0 <= left == size - (len - 4 * |qs|)
                  && pos + len <= pkt.Length && pkt[..pos + len] == old(pkt[..pos]) + s.bytes && tab.table == s.table
                  && AllSpelled(pkt[..pos + len], tab.table))
  {
    hide PrintedQuery, QueryFits, QueryReach, PrintedQueries, QueriesFit, QueriesReach, AllSpelled;
    ghost var before, was := pkt[..pos], tab.table;
    ghost var done: seq<byte> := [];
    var p := pos;
    left := size;
    assert qs[0..] == qs && before + done == before;
    AfterNothing(PrintedQueries(pos, was, qs));
    for i := 0 to |qs|
      invariant tab.Valid() && p == pos + |done| <= pkt.Length && 0 <= left == size - (|done| - 4 * i)
      invariant AllSpelled(pkt[..p], tab.table) && pkt[..p] == before + done
      invariant PrintedQueries(pos, was, qs) == After(done, PrintedQueries(p, tab.table, qs[i..]))
      invariant QueriesFit(size, pos, was, qs) == QueriesFit(left, p, tab.table, qs[i..])
      invariant QueriesReach(size, pos, was, qs) == |done| + QueriesReach(left, p, tab.table, qs[i..])
    {
      QueriesStep(left, p, tab.table, qs, i);
      ghost var first := PrintedQuery(p, tab.table, qs[i]);
      var n := PrintQuery(pkt, left, p, qs[i], tab);
      if n < 0 { return -1, left; }
      AfterTwice(done, first.bytes, PrintedQueries(p + n, tab.table, qs[i + 1..]));
      Appended(before, done, first.bytes);
      done := done + first.bytes;
      p, left := p + n, left - (n - 4);
    }
    assert qs[|qs|..] == [] && done + [] == done;
    NoQueries(left, p, tab.table);
    len := p - pos;
  }

  lemma NoQueries(size: int, pos: nat, table: seq<Entry>)
    ensures PrintedQueries(pos, table, []) == Printed([], table) && QueriesFit(size, pos, table, [])
  {
  }

  lemma {:induction false} RecordsAppend(size: int, pos: nat, table: seq<Entry>, a: seq<Record>, b: seq<Record>)
    ensures var x := PrintedRecords(pos, table, a);
            && PrintedRecords(pos, table, a + b) == After(x.bytes, PrintedRecords(pos + |x.bytes|, x.table, b))
            && RecordsFit(size, pos, table, a + b)
               == (RecordsFit(size, pos, table, a) && RecordsFit(size - |x.bytes|, pos + |x.bytes|, x.table, b))
            && RecordsReach(size, pos, table, a + b)
               == if RecordsFit(size, pos, table, a)
                  then |x.bytes| + RecordsReach(size - |x.bytes|, pos + |x.bytes|, x.table, b)
                  else RecordsReach(size, pos, table, a)
    decreases |a|
  {
    hide PrintedRecord, RecordFits, RecordReach;
    if a == [] {
      assert a + b == b;
      AfterNothing(PrintedRecords(pos, table, b));
    } else {
      assert (a + b)[1..] == a[1..] + b;
      var first := PrintedRecord(pos, table, a[0]);
      var x := PrintedRecords(pos + |first.bytes|, first.table, a[1..]);
      RecordsAppend(size - |first.bytes|, pos + |first.bytes|, first.table, a[1..], b);
      AfterTwice(first.bytes, x.bytes, PrintedRecords(pos + |first.bytes| + |x.bytes|, x.table, b));
    }
  }

  method WriteHeader(pkt: array<byte>, p: Packet)
    requires CountsFit(p) && HEADER_SIZE <= pkt.Length
    modifies pkt
    ensures pkt[..HEADER_SIZE] == Header(p)
  {
    hide Put16;
    WriteThree(pkt, 0, p.id, p.flags, |p.queries|);
    WriteThree(pkt, 6, |p.answers|, |p.authorities|, |p.additional|);
    HeaderBytes(p);
  }

  lemma HeaderBytes(p: Packet)
    requires CountsFit(p)
    ensures Header(p) == ([] + (Put16(p.id) + Put16(p.flags) + Put16(|p.queries|)))
                         + (Put16(|p.answers|) + Put16(|p.authorities|) + Put16(|p.additional|))
  {
    hide Put16;
  }

  // The three record sections, one after the other.
  method PrintSections(pkt: array<byte>, size: int, pos: nat, p: Packet, tab: LabelTable) returns (len: int)
    requires tab.Valid() && forall r :: r in AllRecords(p) ==> WellTyped(r)
    requires 0 <= size && pos + RecordsReach(size, pos, tab.table, AllRecords(p)) <= pkt.Length && AllSpelled(pkt[..pos], tab.table)
    modifies pkt, tab
    ensures var s := PrintedRecords(pos, old(tab.table), AllRecords(p));
            && len == (if RecordsFit(size, pos, old(tab.table), AllRecords(p)) then |s.bytes| else -1)
            && (len >= 0 ==> len <= size && pos + len <= pkt.Length && pkt[..pos + len] == old(pkt[..pos]) + s.bytes)
  {
    hide PrintedRecords, RecordsFit, RecordsReach, AllSpelled, WellTyped, After;
    ghost var before, was := pkt[..pos], tab.table;
    ghost var x := PrintedRecords(pos, was, p.answers);
    ghost var y := PrintedRecords(pos + |x.bytes|, x.table, p.authorities);
    ghost var z := PrintedRecords(pos + |x.bytes| + |y.bytes|, y.table, p.additional);
    SectionsReach(size, pos, was, p);
    var a := PrintRecords(pkt, size, pos, p.answers, tab);
    if a < 0 { return -1; }
    var b := PrintRecords(pkt, size - a, pos + a, p.authorities, tab);
    if b < 0 { return -1; }
    var c := PrintRecords(pkt, size - a - b, pos + a + b, p.additional, tab);
    if c < 0 { return -1; }
    Appended(before, x.bytes, y.bytes);
    Appended(before, x.bytes + y.bytes, z.bytes);
    len := a + b + c;
  }

  // The printed records of the three sections, and when they fit.
  lemma SectionsAppend(size: int, pos: nat, table: seq<Entry>, p: Packet)
    ensures var x := PrintedRecords(pos, table, p.answers);
            var y := PrintedRecords(pos + |x.bytes|, x.table, p.authorities);
            var z := PrintedRecords(pos + |x.bytes| + |y.bytes|, y.table, p.additional);
            && PrintedRecords(pos, table, AllRecords(p)).bytes == x.bytes + y.bytes + z.bytes
            && RecordsFit(size, pos, table, AllRecords(p))
               == (RecordsFit(size, pos, table, p.answers)
                   && RecordsFit(size - |x.bytes|, pos + |x.bytes|, x.table, p.authorities)
                   && RecordsFit(size - |x.bytes| - |y.bytes|, pos + |x.bytes| + |y.bytes|, y.table, p.additional))
            && RecordsReach(size, pos, table, AllRecords(p))
               == if !RecordsFit(size, pos, table, p.answers) then RecordsReach(size, pos, table, p.answers)
                  else |x.bytes|
                       + if !RecordsFit(size - |x.bytes|, pos + |x.bytes|, x.table, p.authorities)
                         then RecordsReach(size - |x.bytes|, pos + |x.bytes|, x.table, p.authorities)
                         else |y.bytes| + RecordsReach(size - |x.bytes| - |y.bytes|, pos + |x.bytes| + |y.bytes|, y.table,
                                                       p.additional)
  {
    hide PrintedRecords, RecordsFit, RecordsReach;
    RecordsAppend(size, pos, table, p.answers + p.authorities, p.additional);
    RecordsAppend(size, pos, table, p.answers, p.authorities);
  }

  lemma QueriesReachWithin(size: int, p: Packet)
    requires size >= HEADER_SIZE
    ensures HEADER_SIZE + QueriesReach(size - HEADER_SIZE, HEADER_SIZE, [], p.queries) <= PacketReach(size, p)
  {
    hide PrintedQueries, QueriesFit, QueriesReach, RecordsReach, AllRecords;
    if QueriesFit(size - HEADER_SIZE, HEADER_SIZE, [], p.queries) {
      QueriesReachFits(size - HEADER_SIZE, HEADER_SIZE, [], p.queries);
    }
  }

  // print_packet.  The caller has size bytes; only when the printer goes beyond them must there be more memory.
  method PrintPacket(p: Packet, pkt: array<byte>, size: int) returns (len: int)
    requires CountsFit(p) && forall r :: r in AllRecords(p) ==> WellTyped(r)
    requires size <= pkt.Length && PacketReach(size, p) <= pkt.Length
    modifies pkt
    ensures len == if PacketFits(size, p) then |PrintedPacket(p)| else -1
    ensures len >= 0 ==> len <= pkt.Length && pkt[..len] == PrintedPacket(p)
  {
    hide PrintedQueries, QueriesFit, QueriesReach, PrintedRecords, RecordsFit, RecordsReach, AllSpelled, WellTyped, Header, AllRecords;
    var tab := new LabelTable();
    if size < HEADER_SIZE { return -1; }
    WriteHeader(pkt, p);
    NothingSpelled(pkt[..HEADER_SIZE]);
    QueriesReachWithin(size, p);
    var a, left := PrintQueries(pkt, size - HEADER_SIZE, HEADER_SIZE, p.queries, tab);
    if a < 0 { return -1; }
    var b := PrintSections(pkt, left, HEADER_SIZE + a, p, tab);
    if b < 0 { return -1; }
    len := HEADER_SIZE + a + b;
  }

  // Each section lies within what the three sections together need.
  lemma SectionsReach(size: int, pos: nat, table: seq<Entry>, p: Packet)
    requires 0 <= size && forall r :: r in AllRecords(p) ==> WellTyped(r)
    ensures var x := PrintedRecords(pos, table, p.answers);
            var y := PrintedRecords(pos + |x.bytes|, x.table, p.authorities);
            var z := PrintedRecords(pos + |x.bytes| + |y.bytes|, y.table, p.additional);
            var n, b, c := RecordsReach(size, pos, table, AllRecords(p)), size - |x.bytes|, size - |x.bytes| - |y.bytes|;
            && PrintedRecords(pos, table, AllRecords(p)).bytes == x.bytes + y.bytes + z.bytes
            && RecordsFit(size, pos, table, AllRecords(p))
               == (RecordsFit(size, pos, table, p.answers) && RecordsFit(b, pos + |x.bytes|, x.table, p.authorities)
                   && RecordsFit(c, pos + |x.bytes| + |y.bytes|, y.table, p.additional))
            && RecordsReach(size, pos, table, p.answers) <= n
            && (RecordsFit(size, pos, table, p.answers) ==>
                  b >= 0 && |x.bytes| + RecordsReach(b, pos + |x.bytes|, x.table, p.authorities) <= n
                  && (RecordsFit(b, pos + |x.bytes|, x.table, p.authorities) ==>
                        c >= 0 && |x.bytes| + |y.bytes|
                                  + RecordsReach(c, pos + |x.bytes| + |y.bytes|, y.table, p.additional) <= n))
  {
    hide PrintedRecords, RecordsFit, RecordsReach, WellTyped;
    SectionsAppend(size, pos, table, p);
    var x := PrintedRecords(pos, table, p.answers);
    if RecordsFit(size, pos, table, p.answers) {
      RecordsReachFits(size, pos, table, p.answers);
      if RecordsFit(size - |x.bytes|, pos + |x.bytes|, x.table, p.authorities) {
        RecordsReachFits(size - |x.bytes|, pos + |x.bytes|, x.table, p.authorities);
      }
    }
  }

  lemma NothingSpelled(packet: seq<byte>)
    ensures AllSpelled(packet, [])
  {
  }
}
