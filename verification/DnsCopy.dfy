/** Duplicating a parsed packet (dns.c): equal names share one copy. */
module DnsCopy {
  import opened Bytes
  import opened DnsPacket
  import opened Strings

  const MAX_NAMES := 16

  // ----- the name table -----

  function Position(table: seq<Name>, name: Name): (i: nat)
    ensures i <= |table| && (i < |table| ==> Matches(table[i], name))
  {
    if table == [] || Matches(table[0], name) then 0 else 1 + Position(table[1..], name)
  }

  // A copy and the table after it.
  datatype Copied<T> = Copied(item: T, table: seq<Name>)

  function CopiedName(table: seq<Name>, name: Name): Copied<Name> {
    var i := Position(table, name);
    if i < |table| then Copied(table[i], table)
    else Copied(name, if |table| < MAX_NAMES then table + [name] else table)
  }

  function CopiedQuery(table: seq<Name>, q: Query): Copied<Query> {
    var name := CopiedName(table, q.name);
    Copied(q.(name := name.item), name.table)
  }

  function CopiedRdata(table: seq<Name>, d: Rdata): Copied<Rdata> {
    match d
    case Service(_, _, _, target) =>
      var name := CopiedName(table, target);
      Copied(d.(target := name.item), name.table)
    case _ => Copied(d, table)
  }

  function CopiedRecord(table: seq<Name>, r: Record): Copied<Record> {
    var name := CopiedName(table, r.name);
    var rdata := CopiedRdata(name.table, r.rdata);
    Copied(r.(name := name.item, rdata := rdata.item), rdata.table)
  }

  function CopiedQueries(table: seq<Name>, qs: seq<Query>): Copied<seq<Query>>
    decreases |qs|
  {
    if qs == [] then Copied([], table)
    else
      var first := CopiedQuery(table, qs[0]);
      var rest := CopiedQueries(first.table, qs[1..]);
      Copied([first.item] + rest.item, rest.table)
  }

  function CopiedRecords(table: seq<Name>, rs: seq<Record>): Copied<seq<Record>>
    decreases |rs|
  {
    if rs == [] then Copied([], table)
    else
      var first := CopiedRecord(table, rs[0]);
      var rest := CopiedRecords(first.table, rs[1..]);
      Copied([first.item] + rest.item, rest.table)
  }

  // The sections to leave out of a copy.
  datatype Options = Options(noQueries: bool, noAnswers: bool, noAuthorities: bool, noAdditional: bool)

  function Kept<T>(omit: bool, s: seq<T>): seq<T> { if omit then [] else s }

  function Selected(p: Packet, o: Options): Packet {
    Packet(p.id, p.flags, Kept(o.noQueries, p.queries), Kept(o.noAnswers, p.answers),
           Kept(o.noAuthorities, p.authorities), Kept(o.noAdditional, p.additional))
  }

  function CopiedPacket(p: Packet, o: Options): Packet {
    var s := Selected(p, o);
    var qd := CopiedQueries([], s.queries);
    var an := CopiedRecords(qd.table, s.answers);
    var ns := CopiedRecords(an.table, s.authorities);
    var ar := CopiedRecords(ns.table, s.additional);
    Packet(p.id, p.flags, qd.item, an.item, ns.item, ar.item)
  }

  // ----- what a copy keeps -----

  predicate SameQuery(a: Query, b: Query) {
    SameUpToCase(a.name, b.name) && a.qtype == b.qtype && a.qclass == b.qclass
  }

  predicate SameRdata(a: Rdata, b: Rdata) {
    if b.Service? then
      a.Service? && a.priority == b.priority && a.weight == b.weight && a.port == b.port
      && SameUpToCase(a.target, b.target)
    else a == b
  }

  predicate SameRecord(a: Record, b: Record) {
    && SameUpToCase(a.name, b.name)
    && a.rtype == b.rtype && a.rclass == b.rclass && a.ttl == b.ttl
    && SameRdata(a.rdata, b.rdata)
  }

  predicate SameQueries(a: seq<Query>, b: seq<Query>) {
    |a| == |b| && forall i :: 0 <= i < |a| ==> SameQuery(a[i], b[i])
  }

  predicate SameRecords(a: seq<Record>, b: seq<Record>) {
    |a| == |b| && forall i :: 0 <= i < |a| ==> SameRecord(a[i], b[i])
  }

  predicate SamePacket(a: Packet, b: Packet) {
    && a.id == b.id && a.flags == b.flags
    && SameQueries(a.queries, b.queries) && SameRecords(a.answers, b.answers)
    && SameRecords(a.authorities, b.authorities) && SameRecords(a.additional, b.additional)
  }

  // The names that go through the table, in order: the target of a service record, but not that of an alias.
  function RecordTableNames(r: Record): seq<Name> {
    [r.name] + if r.rdata.Service? then [r.rdata.target] else []
  }

  function QueryTableNames(qs: seq<Query>): seq<Name> {
    if qs == [] then [] else [qs[0].name] + QueryTableNames(qs[1..])
  }

  function RecordsTableNames(rs: seq<Record>): seq<Name> {
    if rs == [] then [] else RecordTableNames(rs[0]) + RecordsTableNames(rs[1..])
  }

  function TableNames(p: Packet): seq<Name> {
    QueryTableNames(p.queries)
    + (RecordsTableNames(p.answers) + (RecordsTableNames(p.authorities) + RecordsTableNames(p.additional)))
  }

  // The first name of the table that pj_stricmp takes for the next name is that name up to letter case, all
  // along the list.
  predicate NeverMistaken(table: seq<Name>, names: seq<Name>)
    decreases |names|
  {
    names == []
    || (SameUpToCase(CopiedName(table, names[0]).item, names[0])
        && NeverMistaken(CopiedName(table, names[0]).table, names[1..]))
  }

  function TableAfter(table: seq<Name>, names: seq<Name>): seq<Name>
    decreases |names|
  {
    if names == [] then table else TableAfter(CopiedName(table, names[0]).table, names[1..])
  }

  lemma {:induction false} NamesAppend(table: seq<Name>, a: seq<Name>, b: seq<Name>)
    ensures NeverMistaken(table, a + b) == (NeverMistaken(table, a) && NeverMistaken(TableAfter(table, a), b))
    ensures TableAfter(table, a + b) == TableAfter(TableAfter(table, a), b)
    decreases |a|
  {
    hide CopiedName, SameUpToCase;
    if a == [] {
      assert a + b == b;
    } else {
      assert (a + b)[1..] == a[1..] + b;
      NamesAppend(CopiedName(table, a[0]).table, a[1..], b);
    }
  }

  lemma OneName(table: seq<Name>, name: Name)
    ensures NeverMistaken(table, [name]) == SameUpToCase(CopiedName(table, name).item, name)
    ensures TableAfter(table, [name]) == CopiedName(table, name).table
  {
    hide CopiedName, SameUpToCase;
    assert [name][1..] == [];
  }

  lemma NoNames(table: seq<Name>)
    ensures NeverMistaken(table, []) && TableAfter(table, []) == table
  {
  }

  lemma RecordKeptExactly(table: seq<Name>, r: Record)
    ensures SameRecord(CopiedRecord(table, r).item, r) <==> NeverMistaken(table, RecordTableNames(r))
    ensures CopiedRecord(table, r).table == TableAfter(table, RecordTableNames(r))
  {
    hide CopiedName, SameUpToCase, NeverMistaken, TableAfter;
    var rest := if r.rdata.Service? then [r.rdata.target] else [];
    var named := CopiedName(table, r.name).table;
    NamesAppend(table, [r.name], rest);
    OneName(table, r.name);
    if r.rdata.Service? { OneName(named, r.rdata.target); } else { NoNames(named); }
  }

  lemma {:induction false} QueriesKeptExactly(table: seq<Name>, qs: seq<Query>)
    ensures SameQueries(CopiedQueries(table, qs).item, qs) <==> NeverMistaken(table, QueryTableNames(qs))
    ensures CopiedQueries(table, qs).table == TableAfter(table, QueryTableNames(qs))
    decreases |qs|
  {
    hide CopiedName, SameUpToCase, NeverMistaken, TableAfter, SameQueries;
    if qs == [] {
      NoNames(table);
      NothingSame();
    } else {
      var first := CopiedQuery(table, qs[0]);
      NamesAppend(table, [qs[0].name], QueryTableNames(qs[1..]));
      OneName(table, qs[0].name);
      QueriesKeptExactly(first.table, qs[1..]);
      QueriesFirst(first.item, CopiedQueries(first.table, qs[1..]).item, qs);
    }
  }

  lemma NothingSame()
    ensures SameQueries([], []) && SameRecords([], [])
  {
  }

  lemma QueriesFirst(q: Query, rest: seq<Query>, qs: seq<Query>)
    requires qs != []
    ensures SameQueries([q] + rest, qs) <==> SameQuery(q, qs[0]) && SameQueries(rest, qs[1..])
  {
    hide SameQuery;
    if SameQueries([q] + rest, qs) {
      assert ([q] + rest)[0] == q;
      forall i | 0 <= i < |rest| ensures SameQuery(rest[i], qs[1..][i]) { assert ([q] + rest)[i + 1] == rest[i]; }
    }
  }

  lemma RecordsFirst(r: Record, rest: seq<Record>, rs: seq<Record>)
    requires rs != []
    ensures SameRecords([r] + rest, rs) <==> SameRecord(r, rs[0]) && SameRecords(rest, rs[1..])
  {
    hide SameRecord;
    if SameRecords([r] + rest, rs) {
      assert ([r] + rest)[0] == r;
      forall i | 0 <= i < |rest| ensures SameRecord(rest[i], rs[1..][i]) { assert ([r] + rest)[i + 1] == rest[i]; }
    }
  }

  lemma {:induction false} RecordsKeptExactly(table: seq<Name>, rs: seq<Record>)
    ensures SameRecords(CopiedRecords(table, rs).item, rs) <==> NeverMistaken(table, RecordsTableNames(rs))
    ensures CopiedRecords(table, rs).table == TableAfter(table, RecordsTableNames(rs))
    decreases |rs|
  {
    hide CopiedRecord, SameRecord, RecordTableNames, NeverMistaken, TableAfter, SameRecords;
    if rs == [] {
      NoNames(table);
      NothingSame();
    } else {
      var first := CopiedRecord(table, rs[0]);
      NamesAppend(table, RecordTableNames(rs[0]), RecordsTableNames(rs[1..]));
      RecordKeptExactly(table, rs[0]);
      RecordsKeptExactly(first.table, rs[1..]);
      RecordsFirst(first.item, CopiedRecords(first.table, rs[1..]).item, rs);
    }
  }

  // A copy is the packet without the sections left out, equal up to letter case in its names, exactly when no
  // name is mistaken for one in the table before it.
  lemma CopyKeepsExactly(p: Packet, o: Options)
    ensures SamePacket(CopiedPacket(p, o), Selected(p, o)) <==> NeverMistaken([], TableNames(Selected(p, o)))
  {
    hide CopiedQueries, CopiedRecords, SameQueries, SameRecords, QueryTableNames, RecordsTableNames, NeverMistaken, TableAfter;
    var s := Selected(p, o);
    var qd := CopiedQueries([], s.queries);
    var an := CopiedRecords(qd.table, s.answers);
    var ns := CopiedRecords(an.table, s.authorities);
    var x, y, z := RecordsTableNames(s.answers), RecordsTableNames(s.authorities), RecordsTableNames(s.additional);
    QueriesKeptExactly([], s.queries);
    RecordsKeptExactly(qd.table, s.answers);
    RecordsKeptExactly(an.table, s.authorities);
    RecordsKeptExactly(ns.table, s.additional);
    NamesAppend([], QueryTableNames(s.queries), x + (y + z));
    NamesAppend(qd.table, x, y + z);
    NamesAppend(an.table, y, z);
  }

  lemma {:induction false} CleanNames(table: seq<Name>, names: seq<Name>)
    requires forall n :: n in names ==> NoZeroInside(n)
    ensures NeverMistaken(table, names)
    decreases |names|
  {
    hide NoZeroInside, SameUpToCase;
    if names != [] {
      assert names[0] in names;
      NameKept(table, names[0]);
      CleanNames(CopiedName(table, names[0]).table, names[1..]);
    }
  }

  lemma NameKept(table: seq<Name>, name: Name)
    requires NoZeroInside(name)
    ensures SameUpToCase(CopiedName(table, name).item, name)
  {
    hide NoZeroInside, Matches, Position;
    var i := Position(table, name);
    if i < |table| { MatchWithoutZero(table[i], name); }
  }

  // So it is when no name has a zero byte before its last.
  lemma CopyKeeps(p: Packet, o: Options)
    requires forall n :: n in TableNames(Selected(p, o)) ==> NoZeroInside(n)
    ensures SamePacket(CopiedPacket(p, o), Selected(p, o))
  {
    hide CopiedPacket, Selected, SamePacket, TableNames, NoZeroInside, NeverMistaken;
    CopyKeepsExactly(p, o);
    CleanNames([], TableNames(Selected(p, o)));
  }

  // Two names that differ only behind a zero byte: the second is copied as the first.
  lemma MistakenName(head: Name, tail: Name, other: Name, p: Packet, o: Options)
    requires |tail| == |other| && !SameUpToCase(tail, other)
    requires !o.noQueries && |p.queries| == 2
    requires p.queries[0].name == head + [0] + tail && p.queries[1].name == head + [0] + other
    ensures CopiedPacket(p, o).queries == [p.queries[0], p.queries[1].(name := p.queries[0].name)]
    ensures !SamePacket(CopiedPacket(p, o), Selected(p, o))
  {
    hide CopiedRecords, SameRecords, CopiedQueries;
    var a, b := p.queries[0].name, p.queries[1].name;
    assert a[|head|] == 0 && b[|head|] == 0 && a[..|head| + 1] == head + [0] == b[..|head| + 1];
    SamePrefix(a, b, |head|);
    TwoQueries(p.queries);
    if SameUpToCase(a, b) { SameTails(head + [0], tail, other); }
  }

  lemma SameTails(head: seq<byte>, a: seq<byte>, b: seq<byte>)
    requires SameUpToCase(head + a, head + b)
    ensures SameUpToCase(a, b)
  {
    forall i | 0 <= i < |a| ensures Lower(a[i]) == Lower(b[i]) {
      assert (head + a)[|head| + i] == a[i] && (head + b)[|head| + i] == b[i];
    }
  }

  lemma TwoQueries(qs: seq<Query>)
    requires |qs| == 2 && Matches(qs[0].name, qs[1].name)
    ensures CopiedQueries([], qs).item == [qs[0], qs[1].(name := qs[0].name)]
  {
    hide Matches;
    assert qs[1..] == [qs[1]];
    assert CopiedName([], qs[0].name) == Copied(qs[0].name, [qs[0].name]);
    assert Position([qs[0].name], qs[1].name) == 0;
    assert CopiedQueries([qs[0].name], [qs[1]]).item == [qs[1].(name := qs[0].name)];
  }

  // ----- which names are mistaken -----

  // No two of the names are taken for each other although they differ.
  ghost predicate PairsKept(names: seq<Name>) {
    forall a, b :: a in names && b in names && Matches(a, b) ==> SameUpToCase(a, b)
  }

  ghost predicate NoneMatch(table: seq<Name>) {
    forall i, j :: 0 <= i < j < |table| ==> !Matches(table[i], table[j])
  }

  // Of a name matched by one in the table, all others that match are the same up to letter case.
  lemma MatchedKept(table: seq<Name>, t: Name, name: Name, rest: seq<Name>)
    requires t in table && Matches(t, name) && SameUpToCase(t, name) && PairsKept(table + rest)
    requires NoneMatch(table)
    ensures PairsKept(table + ([name] + rest))
  {
    hide SameUpToCase, Matches;
    forall a, b | a in table + ([name] + rest) && b in table + ([name] + rest) && Matches(a, b) ensures SameUpToCase(a, b) {
      var a', b' := if a == name then t else a, if b == name then t else b;
      MatchesSymmetric(t, name);
      MatchesTransitive(a', a, b) by { if a != name { MatchesSelf(a); } }
      MatchesTransitive(a', b, b') by { if b != name { MatchesSelf(b); } }
      assert a' in table + rest && b' in table + rest;
      SameAround(a, a', b', b) by { SameSelf(a); SameSelf(b); SameBack(t, name); }
    }
  }

  lemma {:induction false} MatchesSelf(a: Name)
    ensures Matches(a, a)
  {
    if a != [] { MatchesSelf(a[1..]); }
  }

  lemma SameSelf(a: Name)
    ensures SameUpToCase(a, a)
  {
  }

  lemma SameBack(a: Name, b: Name)
    requires SameUpToCase(a, b)
    ensures SameUpToCase(b, a)
  {
  }

  lemma SameAround(a: Name, b: Name, c: Name, d: Name)
    requires SameUpToCase(a, b) && SameUpToCase(b, c) && SameUpToCase(c, d)
    ensures SameUpToCase(a, d)
  {
    hide Lower;
  }

  lemma PositionNone(table: seq<Name>, name: Name)
    requires Position(table, name) == |table|
    ensures forall t :: t in table ==> !Matches(t, name)
  {
    hide Matches;
    if table != [] && !Matches(table[0], name) { PositionNone(table[1..], name); }
  }

  // As long as the table holds less than sixteen names: a name is mistaken exactly when two of the names are equal up to
  // letter case as far as a zero byte, and differ behind it.
  lemma {:induction false} MistakenExactly(table: seq<Name>, names: seq<Name>)
    requires |table| + |names| <= 16 && NoneMatch(table) && PairsKept(table)
    ensures NeverMistaken(table, names) <==> PairsKept(table + names)
    decreases |names|
  {
    hide Matches, SameUpToCase;
    if names == [] {
      assert table + names == table;
    } else {
      var name, rest := names[0], names[1..];
      assert names == [name] + rest;
      var i := Position(table, name);
      if i < |table| {
        var t := table[i];
        assert t in table + names && name in table + names;
        if SameUpToCase(t, name) {
          MistakenExactly(table, rest);
          if PairsKept(table + rest) { MatchedKept(table, t, name, rest); }
          assert forall n :: n in table + rest ==> n in table + names;
        }
      } else {
        PositionNone(table, name);
        SameSelf(name);
        Extended(table, name);
        MistakenExactly(table + [name], rest);
        assert table + [name] + rest == table + names;
      }
    }
  }

  lemma Extended(table: seq<Name>, name: Name)
    requires NoneMatch(table) && PairsKept(table) && forall t :: t in table ==> !Matches(t, name)
    ensures NoneMatch(table + [name]) && PairsKept(table + [name])
  {
    hide Matches, SameUpToCase;
    forall t | t in table ensures !Matches(name, t) { if Matches(name, t) { MatchesSymmetric(name, t); } }
    SameSelf(name);
  }

  // The table holds sixteen names and no more.
  lemma TableIsFull(table: seq<Name>, name: Name)
    requires forall t :: t in table ==> !Matches(t, name)
    ensures CopiedName(table, name).item == name
    ensures CopiedName(table, name).table == if |table| < 16 then table + [name] else table
  {
    hide Matches;
    assert forall i :: 0 <= i < |table| ==> table[i] in table;
  }

  // ----- the copying functions -----

  class NameTable {
    var names: seq<Name>

    constructor ()
      ensures names == []
    {
      names := [];
    }

    // apply_name_table
    method Apply(src: Name) returns (dst: Name)
      modifies this
      ensures Copied(dst, names) == CopiedName(old(names), src)
    {
      hide Matches;
      var i := 0;
      assert names[0..] == names;
      while i < |names| && !Matches(names[i], src)
        invariant i <= |names|
        invariant Position(names, src) == i + Position(names[i..], src)
      {
        assert names[i..][1..] == names[i + 1..];
        i := i + 1;
      }
      if i != |names| { return names[i]; }
      dst := src;
      if |names| < MAX_NAMES { names := names + [dst]; }
    }
  }

  // copy_rr
  method CopyRecord(src: Record, table: NameTable) returns (dst: Record)
    modifies table
    ensures Copied(dst, table.names) == CopiedRecord(old(table.names), src)
  {
    hide CopiedName;
    dst := src;
    var name := table.Apply(src.name);
    dst := dst.(name := name);
    if src.rdata.Service? {
      var target := table.Apply(src.rdata.target);
      dst := dst.(rdata := src.rdata.(target := target));
    }
  }

  method CopyQueries(src: seq<Query>, table: NameTable) returns (dst: seq<Query>)
    modifies table
    ensures Copied(dst, table.names) == CopiedQueries(old(table.names), src)
  {
    hide CopiedName;
    dst := [];
    assert src[0..] == src;
    for i := 0 to |src|
      invariant CopiedQueries(old(table.names), src).item == dst + CopiedQueries(table.names, src[i..]).item
      invariant CopiedQueries(old(table.names), src).table == CopiedQueries(table.names, src[i..]).table
    {
      assert src[i..][1..] == src[i + 1..];
      ghost var before := table.names;
      var name := table.Apply(src[i].name);
      var q := src[i].(name := name);
      assert CopiedQuery(before, src[i]) == Copied(q, table.names);
      assert dst + ([q] + CopiedQueries(table.names, src[i + 1..]).item)
          == (dst + [q]) + CopiedQueries(table.names, src[i + 1..]).item;
      dst := dst + [q];
    }
    assert src[|src|..] == [] && dst + [] == dst;
  }

  method CopyRecords(src: seq<Record>, table: NameTable) returns (dst: seq<Record>)
    modifies table
    ensures Copied(dst, table.names) == CopiedRecords(old(table.names), src)
  {
    hide CopiedRecord;
    dst := [];
    assert src[0..] == src;
    for i := 0 to |src|
      invariant CopiedRecords(old(table.names), src).item == dst + CopiedRecords(table.names, src[i..]).item
      invariant CopiedRecords(old(table.names), src).table == CopiedRecords(table.names, src[i..]).table
    {
      assert src[i..][1..] == src[i + 1..];
      var r := CopyRecord(src[i], table);
      assert dst + ([r] + CopiedRecords(table.names, src[i + 1..]).item)
          == (dst + [r]) + CopiedRecords(table.names, src[i + 1..]).item;
      dst := dst + [r];
    }
    assert src[|src|..] == [] && dst + [] == dst;
  }

  // pj_dns_packet_dup
  method CopyPacket(p: Packet, o: Options) returns (dst: Packet)
    ensures dst == CopiedPacket(p, o)
  {
    hide CopiedQueries, CopiedRecords;
    var table := new NameTable();
    dst := Packet(p.id, p.flags, [], [], [], []);
    NothingCopied(table.names);
    if !o.noQueries {
      var qd := CopyQueries(p.queries, table);
      dst := dst.(queries := qd);
    }
    NothingCopied(table.names);
    if !o.noAnswers {
      var an := CopyRecords(p.answers, table);
      dst := dst.(answers := an);
    }
    NothingCopied(table.names);
    if !o.noAuthorities {
      var ns := CopyRecords(p.authorities, table);
      dst := dst.(authorities := ns);
    }
    NothingCopied(table.names);
    if !o.noAdditional {
      var ar := CopyRecords(p.additional, table);
      dst := dst.(additional := ar);
    }
  }

  lemma NothingCopied(table: seq<Name>)
    ensures CopiedQueries(table, []) == Copied([], table) && CopiedRecords(table, []) == Copied([], table)
  {
  }
}
