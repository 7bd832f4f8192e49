/** When the label table never confuses two names, and what that means for the round trip. */
module DnsNames {
  import opened Bytes
  import opened DnsPacket
  import opened DnsPrinter
  import opened DnsParser
  import opened DnsServer
  import opened DnsRoundTrip

  // ----- the names of a packet, in the order they are printed -----

  function RdataNames(d: Rdata): seq<Name> {
    match d
    case Alias(name) => [name]
    case Service(_, _, _, target) => [target]
    case _ => []
  }

  function RecordNames(r: Record): seq<Name> { [r.name] + RdataNames(r.rdata) }

  function NamesOfRecords(rs: seq<Record>): seq<Name> {
    if rs == [] then [] else RecordNames(rs[0]) + NamesOfRecords(rs[1..])
  }

  function NamesOfQueries(qs: seq<Query>): seq<Name> {
    if qs == [] then [] else [qs[0].name] + NamesOfQueries(qs[1..])
  }

  function PacketNames(p: Packet): seq<Name> {
    NamesOfQueries(p.queries)
    + (NamesOfRecords(p.answers) + (NamesOfRecords(p.authorities) + NamesOfRecords(p.additional)))
  }

  // ----- the label table, without positions -----

  function Known(table: seq<Entry>): (known: seq<Name>)
    ensures |known| == |table| && forall i :: 0 <= i < |table| ==> known[i] == table[i].name
  {
    if table == [] then [] else [table[0].name] + Known(table[1..])
  }

  function Place(known: seq<Name>, name: Name): (i: nat)
    ensures i <= |known|
  {
    if known == [] || Body(known[0]) == name then 0 else 1 + Place(known[1..], name)
  }

  function Learned(known: seq<Name>, name: Name): seq<Name> {
    if Place(known, name) < |known| || |known| >= MAX_LABEL then known else known + [name]
  }

  function LearnedAll(known: seq<Name>, names: seq<Name>): seq<Name>
    decreases |names|
  {
    if names == [] then known else LearnedAll(Learned(known, names[0]), names[1..])
  }

  // The first known name whose body equals the next name is that very name, all along the list.
  predicate Recognised(known: seq<Name>, names: seq<Name>)
    decreases |names|
  {
    names == []
    || ((Place(known, names[0]) < |known| ==> known[Place(known, names[0])] == names[0])
        && Recognised(Learned(known, names[0]), names[1..]))
  }

  lemma {:induction false} PlaceIsLookup(table: seq<Entry>, name: Name)
    ensures Lookup(table, name) == Place(Known(table), name)
  {
    hide Body;
    if table != [] { PlaceIsLookup(table[1..], name); }
  }

  lemma NameKnown(pos: nat, table: seq<Entry>, name: Name)
    ensures Known(PrintedName(pos, table, name).table) == Learned(Known(table), name)
    ensures Recognised(Known(table), [name]) == (Shown(table, name) == name)
    ensures LearnedAll(Known(table), [name]) == Learned(Known(table), name)
  {
    hide Body, Place, Lookup, Wire;
    PlaceIsLookup(table, name);
    assert [name][1..] == [];
    assert LearnedAll(Learned(Known(table), name), []) == Learned(Known(table), name);
    assert Recognised(Learned(Known(table), name), []);
  }

  lemma {:induction false} RecognisedAppend(known: seq<Name>, a: seq<Name>, b: seq<Name>)
    ensures Recognised(known, a + b) == (Recognised(known, a) && Recognised(LearnedAll(known, a), b))
    ensures LearnedAll(known, a + b) == LearnedAll(LearnedAll(known, a), b)
    decreases |a|
  {
    hide Place, Learned;
    if a == [] {
      assert a + b == b;
    } else {
      assert (a + b)[1..] == a[1..] + b;
      RecognisedAppend(Learned(known, a[0]), a[1..], b);
    }
  }

  lemma RdataKnown(pos: nat, table: seq<Entry>, d: Rdata)
    ensures Known(PrintedRdata(pos, table, d).table) == LearnedAll(Known(table), RdataNames(d))
    ensures Recognised(Known(table), RdataNames(d)) == (ShownRdata(table, d) == d)
  {
    hide PrintedName, Known, Learned, Shown, Put16;
    match d
    case Alias(name) => NameKnown(pos + 2, table, name);
    case Service(_, _, _, target) => NameKnown(pos + 8, table, target);
    case _ =>
  }

  lemma RecordKnown(pos: nat, table: seq<Entry>, r: Record)
    ensures Known(PrintedRecord(pos, table, r).table) == LearnedAll(Known(table), RecordNames(r))
    ensures Recognised(Known(table), RecordNames(r)) == (ShownRecord(pos, table, r) == r)
  {
    hide PrintedName, PrintedRdata, Known, Learned, LearnedAll, Recognised, Shown, ShownRdata, RdataNames, FixedFields;
    var owner := PrintedName(pos, table, r.name);
    NameKnown(pos, table, r.name);
    RdataKnown(pos + |owner.bytes| + 8, owner.table, r.rdata);
    RecognisedAppend(Known(table), [r.name], RdataNames(r.rdata));
  }

  lemma {:induction false} RecordsKnown(pos: nat, table: seq<Entry>, rs: seq<Record>)
    ensures Known(PrintedRecords(pos, table, rs).table) == LearnedAll(Known(table), NamesOfRecords(rs))
    ensures Recognised(Known(table), NamesOfRecords(rs)) == (ShownRecords(pos, table, rs) == rs)
    decreases |rs|
  {
    hide PrintedRecord, ShownRecord, RecordNames, Known, Recognised, LearnedAll, Learned;
    NothingKnown(Known(table));
    if rs != [] {
      var first := PrintedRecord(pos, table, rs[0]);
      RecordKnown(pos, table, rs[0]);
      RecordsKnown(pos + |first.bytes|, first.table, rs[1..]);
      RecognisedAppend(Known(table), RecordNames(rs[0]), NamesOfRecords(rs[1..]));
      SameHead(ShownRecord(pos, table, rs[0]), ShownRecords(pos + |first.bytes|, first.table, rs[1..]), rs);
    }
  }

  lemma NothingKnown(known: seq<Name>)
    ensures Recognised(known, []) && LearnedAll(known, []) == known
  {
  }

  lemma SameHead<T>(x: T, xs: seq<T>, s: seq<T>)
    requires s != []
    ensures [x] + xs == s <==> x == s[0] && xs == s[1..]
  {
    if [x] + xs == s { assert ([x] + xs)[1..] == xs; }
    if x == s[0] && xs == s[1..] { assert s == [s[0]] + s[1..]; }
  }

  lemma {:induction false} QueriesKnown(pos: nat, table: seq<Entry>, qs: seq<Query>)
    ensures Known(PrintedQueries(pos, table, qs).table) == LearnedAll(Known(table), NamesOfQueries(qs))
    ensures Recognised(Known(table), NamesOfQueries(qs)) == (ShownQueries(pos, table, qs) == qs)
    decreases |qs|
  {
    hide PrintedName, Shown, Known, Put16, Recognised, LearnedAll, Learned;
    NothingKnown(Known(table));
    if qs != [] {
      var first := PrintedQuery(pos, table, qs[0]);
      NameKnown(pos, table, qs[0].name);
      QueriesKnown(pos + |first.bytes|, first.table, qs[1..]);
      RecognisedAppend(Known(table), [qs[0].name], NamesOfQueries(qs[1..]));
      SameHead(Query(Shown(table, qs[0].name), qs[0].qtype, qs[0].qclass),
               ShownQueries(pos + |first.bytes|, first.table, qs[1..]), qs);
    }
  }

  lemma PacketKnown(p: Packet)
    ensures Recognised([], PacketNames(p)) <==> ShownPacket(p) == p
  {
    hide PrintedQueries, PrintedRecords, ShownQueries, ShownRecords, Recognised, LearnedAll, NamesOfQueries, NamesOfRecords;
    var qd := PrintedQueries(HEADER_SIZE, [], p.queries);
    var a := HEADER_SIZE + |qd.bytes|;
    var an := PrintedRecords(a, qd.table, p.answers);
    var b := a + |an.bytes|;
    var ns := PrintedRecords(b, an.table, p.authorities);
    var x, y, z := NamesOfRecords(p.answers), NamesOfRecords(p.authorities), NamesOfRecords(p.additional);
    QueriesKnown(HEADER_SIZE, [], p.queries);
    RecordsKnown(a, qd.table, p.answers);
    RecordsKnown(b, an.table, p.authorities);
    RecordsKnown(b + |ns.bytes|, ns.table, p.additional);
    RecognisedAppend([], NamesOfQueries(p.queries), x + (y + z));
    RecognisedAppend(Known(qd.table), x, y + z);
    RecognisedAppend(Known(an.table), y, z);
    assert Known([]) == [];
  }

  // Parsing a printed packet gives back that packet exactly when every name that is compressed was
  // compared with its own spelling.
  lemma RoundTripExactly(p: Packet, beyond: nat -> byte)
    requires ValidPacket(p) && |PrintedPacket(p)| <= MAX_OFFSET
    ensures PacketAt(Memory(PrintedPacket(p), beyond)) == Ok(p) <==> Recognised([], PacketNames(p))
  {
    hide PrintedPacket, PacketAt, ShownPacket, Recognised, PacketNames, ValidPacket;
    PacketRead(p, beyond);
    PacketKnown(p);
  }

  // ----- names that are never confused -----

  ghost predicate Distinguishable(names: seq<Name>) {
    forall a, b :: a in names && b in names && Body(a) == b ==> a == b
  }

  lemma {:induction false} PlaceFound(known: seq<Name>, name: Name)
    ensures Place(known, name) < |known| ==> Body(known[Place(known, name)]) == name
  {
    hide Body;
    if known != [] && Body(known[0]) != name { PlaceFound(known[1..], name); }
  }

  lemma {:induction false} DistinguishableRecognised(all: seq<Name>, known: seq<Name>, names: seq<Name>)
    requires Distinguishable(all) && (forall n :: n in known ==> n in all) && (forall n :: n in names ==> n in all)
    ensures Recognised(known, names)
    decreases |names|
  {
    hide Body, Place;
    if names != [] {
      var i := Place(known, names[0]);
      PlaceFound(known, names[0]);
      assert names[0] in names && (i < |known| ==> known[i] in known);
      assert forall n :: n in names[1..] ==> n in names;
      DistinguishableRecognised(all, Learned(known, names[0]), names[1..]);
    }
  }

  // Labels under 45 bytes, every byte above 44: no byte of a name can be taken for a length.
  predicate ShortLabels(name: Name)
    decreases |name|
  {
    name == [] || (LabelEnd(name) < 45 && ShortLabels(AfterLabel(name)))
  }

  predicate HostName(name: Name) {
    ValidName(name) && ShortLabels(name) && forall c :: c in name ==> c > 44
  }

  lemma BodyOfHostName(a: Name, b: Name)
    requires HostName(a) && HostName(b) && Body(a) == b
    ensures a == b
  {
    hide Wire, LabelEnd;
    if a != [] {
      var n, rest := LabelEnd(a), AfterLabel(a);
      WireSplit(a);
      if n == |a| {
        assert Wire(a)[1..1 + |a|] == a;
      } else {
        assert b[n] in b && b[n] == Wire(a)[1 + n] == Wire(rest)[0];
        SecondLabel(rest);
        assert false;
      }
    }
  }

  lemma SecondLabel(name: Name)
    requires name != [] && ShortLabels(name)
    ensures Wire(name)[0] <= 44
  {
    hide LabelEnd;
  }

  // Host names survive printing and parsing.
  lemma RoundTrip(p: Packet, beyond: nat -> byte)
    requires ValidPacket(p) && |PrintedPacket(p)| <= MAX_OFFSET
    requires forall name :: name in PacketNames(p) ==> HostName(name)
    ensures PacketAt(Memory(PrintedPacket(p), beyond)) == Ok(p)
  {
    hide PrintedPacket, PacketAt, Recognised, PacketNames, HostName, ValidPacket, Body;
    var names := PacketNames(p);
    forall a, b | a in names && b in names && Body(a) == b ensures a == b { BodyOfHostName(a, b); }
    DistinguishableRecognised(names, [], names);
    RoundTripExactly(p, beyond);
  }

  // Without the bounds it fails: a label of 45 bytes makes its length byte look like a hyphen, and the
  // second name is printed as a pointer to the first.
  lemma ConfusedNames(tail: Name)
    requires |tail| == 45 && forall c :: c in tail ==> c != DOT
    ensures var x, y := ['x' as byte] + [DOT] + tail, ['x' as byte] + ['-' as byte] + tail;
            ValidName(x) && ValidName(y) && !Recognised([], [x, y])
  {
    hide Wire, LabelEnd;
    var x, y := ['x' as byte] + [DOT] + tail, ['x' as byte] + ['-' as byte] + tail;
    FirstDot(x, 1);
    NoDot(tail);
    forall c | c in y ensures c != DOT { assert c == 'x' as byte || c == '-' as byte || c in tail; }
    NoDot(y);
    assert AfterLabel(x) == tail && AfterLabel(tail) == [] && AfterLabel(y) == [];
    WireNothing();
    WireSplit(x);
    WireSplit(tail);
    assert LabelBytes(x) == [1] + ['x' as byte] by { assert x[..1] == ['x' as byte]; }
    assert LabelBytes(tail) == [45] + tail by { assert tail[..45] == tail; }
    assert ValidName(tail) && ValidName(x) && ValidName(y) by { assert ValidName([]); }
    assert Body(x) == y;
    assert Learned([], x) == [x] && Place([x], y) == 0;
    assert x[1] != y[1];
    assert [x, y][1..] == [y];
  }

  lemma {:induction false} FirstDot(name: Name, k: nat)
    requires k < |name| && name[k] == DOT && forall i :: 0 <= i < k ==> name[i] != DOT
    ensures LabelEnd(name) == k
  {
    if k > 0 { FirstDot(name[1..], k - 1); }
  }

  lemma {:induction false} NoDot(name: Name)
    requires forall c :: c in name ==> c != DOT
    ensures LabelEnd(name) == |name|
  {
    if name != [] {
      assert name[0] in name;
      forall c | c in name[1..] ensures c != DOT { assert c in name; }
      NoDot(name[1..]);
    }
  }
}
