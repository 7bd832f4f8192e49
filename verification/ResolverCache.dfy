/** The response cache of the DNS resolver (resolver.c). */
module ResolverCache {
  import opened Bytes
  import opened DnsPacket
  import opened DnsCopy
  import opened Strings

  // ----- keys -----

  const MAX_HOSTNAME: nat := 128

  datatype Key = Key(qtype: uint16, name: seq<byte>)

  function Folded(name: Name): (s: seq<byte>)
    ensures |s| == |name| && forall i :: 0 <= i < |s| ==> s[i] == Lower(name[i])
  {
    seq<byte>(|name|, i requires 0 <= i < |name| => Lower(name[i]))
  }

  // The type with the name in lower case, cut to the size of the field and padded with zeros.
  function KeyOf(qtype: int, name: Name): (k: Key)
    ensures |k.name| == MAX_HOSTNAME
  {
    var text := if |name| > MAX_HOSTNAME then name[..MAX_HOSTNAME] else name;
    Key(qtype % TWO_16, Folded(text) + Zeros(MAX_HOSTNAME - |text|))
  }

  // init_res_key
  method InitKey(qtype: int, name: Name) returns (key: Key)
    ensures key == KeyOf(qtype, name)
  {
    var dst := new byte[MAX_HOSTNAME](_ => 0);
    var len := if |name| > MAX_HOSTNAME then MAX_HOSTNAME else |name|;
    for i := 0 to len
      invariant forall k :: 0 <= k < MAX_HOSTNAME ==> dst[k] == if k < i then Lower(name[k]) else 0
    {
      dst[i] := Lower(name[i]);
    }
    key := Key(qtype % TWO_16, dst[..]);
    assert key.name == KeyOf(qtype, name).name;
  }

  // What start_query accepts.
  predicate ValidQuestion(qtype: int, name: Name) {
    0 < |name| < MAX_HOSTNAME && 0 < qtype < 0xFFFF
  }

  predicate NoZero(name: Name) { forall i :: 0 <= i < |name| ==> name[i] != 0 }

  // Two questions have the same key exactly when their types are equal and their names equal up to case.
  lemma KeysAgree(t1: int, n1: Name, t2: int, n2: Name)
    requires ValidQuestion(t1, n1) && ValidQuestion(t2, n2) && NoZero(n1) && NoZero(n2)
    ensures KeyOf(t1, n1) == KeyOf(t2, n2) <==> t1 == t2 && SameUpToCase(n1, n2)
  {
    var a, b := KeyOf(t1, n1).name, KeyOf(t2, n2).name;
    if |n1| > |n2| { LongerDiffers(n1, n2); }
    if |n2| > |n1| { LongerDiffers(n2, n1); }
    if a == b {
      forall i | 0 <= i < |n1| ensures Lower(n1[i]) == Lower(n2[i]) { assert a[i] == b[i]; }
    }
    if SameUpToCase(n1, n2) { assert Folded(n1) == Folded(n2); }
  }

  lemma LongerDiffers(n1: Name, n2: Name)
    requires |n2| < |n1| < MAX_HOSTNAME && NoZero(n1)
    ensures KeyOf(1, n1).name != KeyOf(1, n2).name
  {
    assert KeyOf(1, n1).name[|n2|] == Lower(n1[|n2|]) != 0;
    assert KeyOf(1, n2).name[|n2|] == 0;
  }

  // ----- time to live -----

  const INVALID_TTL: uint32 := 60
  const MAX_UINT32: uint32 := 0xFFFF_FFFF

  // Times are in milliseconds.
  const NEVER: int := 0x7FFF_FFFF * 1000

  function MinTtl(answers: seq<Record>): (ttl: uint32)
    ensures forall r :: r in answers ==> ttl <= r.ttl
    ensures ttl == MAX_UINT32 || exists r :: r in answers && r.ttl == ttl
  {
    if answers == [] then MAX_UINT32
    else
      var n := |answers| - 1;
      var rest := MinTtl(answers[..n]);
      assert forall r :: r in answers ==> r in answers[..n] || r == answers[n];
      if answers[n].ttl < rest then answers[n].ttl else rest
  }

  function CacheTtl(status: int, setExpiry: bool, p: Packet, maxTtl: uint32): (ttl: uint32)
    ensures ttl <= maxTtl
  {
    var ttl :=
      if !setExpiry then MAX_UINT32
      else if p.answers == [] || status != 0 then INVALID_TTL
      else MinTtl(p.answers);
    if ttl > maxTtl then maxTtl else ttl
  }

  // ----- entries -----

  type EntryRef = nat
  type Thread = nat

  datatype Entry = Entry(key: Key, packet: Packet, expiry: int, refCnt: nat)

  // A callback of start_query that is using an entry, with the packet the entry held when it was found.
  datatype Hit = Hit(entry: EntryRef, packet: Packet)

  // The last response stored under a key.
  datatype Stored = Stored(packet: Packet, time: int, ttl: uint32, ends: bool)

  // Entries live from their allocation to their release.  The callbacks in progress and the responses
  // last stored are not in the resolver's memory: they say what the entries should hold.
  datatype Cache = Cache(table: map<Key, EntryRef>, entries: map<EntryRef, Entry>, nextEntry: nat,
                         hits: map<Thread, Hit>, stored: map<Key, Stored>)

  // The copy that is kept: the name server and additional sections are left out.
  const KEPT_SECTIONS := Options(false, false, true, true)

  function KeptCopy(p: Packet): Packet { CopiedPacket(p, KEPT_SECTIONS) }

  // What is kept of a response: its identifier and flags, its queries and its answers, equal up to letter case in
  // names exactly when no name of these two sections is mistaken for one before it; and nothing of the others.
  predicate QueriesAndAnswersOf(kept: Packet, p: Packet) {
    && kept.id == p.id && kept.flags == p.flags
    && |kept.queries| == |p.queries| && |kept.answers| == |p.answers|
    && kept.authorities == [] && kept.additional == []
    && (SameQueries(kept.queries, p.queries) && SameRecords(kept.answers, p.answers)
        <==> NeverMistaken([], QueryTableNames(p.queries) + RecordsTableNames(p.answers)))
  }

  lemma KeptExactly(p: Packet)
    ensures QueriesAndAnswersOf(KeptCopy(p), p)
  {
    hide CopiedQueries, CopiedRecords, SameQueries, SameRecords, QueryTableNames, RecordsTableNames, NeverMistaken, TableAfter;
    var qd := CopiedQueries([], p.queries);
    var an := CopiedRecords(qd.table, p.answers);
    CopiedNothing(an.table);
    CopiedLengths(p, qd.table);
    QueriesKeptExactly([], p.queries);
    RecordsKeptExactly(qd.table, p.answers);
    NamesAppend([], QueryTableNames(p.queries), RecordsTableNames(p.answers));
  }

  lemma CopiedNothing(table: seq<Name>)
    ensures CopiedRecords(table, []) == Copied([], table)
  {
  }

  lemma CopiedLengths(p: Packet, table: seq<Name>)
    ensures |CopiedQueries([], p.queries).item| == |p.queries|
    ensures |CopiedRecords(table, p.answers).item| == |p.answers|
  {
    QueryCount([], p.queries);
    RecordCount(table, p.answers);
  }

  lemma {:induction false} QueryCount(table: seq<Name>, qs: seq<Query>)
    ensures |CopiedQueries(table, qs).item| == |qs|
    decreases |qs|
  {
    hide CopiedQuery;
    if qs != [] { QueryCount(CopiedQuery(table, qs[0]).table, qs[1..]); }
  }

  lemma {:induction false} RecordCount(table: seq<Name>, rs: seq<Record>)
    ensures |CopiedRecords(table, rs).item| == |rs|
    decreases |rs|
  {
    hide CopiedRecord;
    if rs != [] { RecordCount(CopiedRecord(table, rs[0]).table, rs[1..]); }
  }

  function ExpiryOf(s: Stored): int { if s.ends then s.time + s.ttl * 1000 else NEVER }

  predicate InTable(c: Cache, e: EntryRef) {
    e in c.entries && c.entries[e].key in c.table && c.table[c.entries[e].key] == e
  }

  function Users(hits: map<Thread, Hit>, e: EntryRef): set<Thread> {
    set h | h in hits && hits[h].entry == e
  }

  // Whoever holds an entry: the table and the callbacks using it.
  function Holders(c: Cache, e: EntryRef): nat {
    (if InTable(c, e) then 1 else 0) + |Users(c.hits, e)|
  }

  ghost predicate EntriesCounted(c: Cache) {
    forall e :: e in c.entries ==> 0 < c.entries[e].refCnt == Holders(c, e)
  }

  ghost predicate TableHolds(c: Cache) {
    forall k :: k in c.table ==>
      && c.table[k] in c.entries && c.entries[c.table[k]].key == k
      && k in c.stored
      && c.entries[c.table[k]].packet == KeptCopy(c.stored[k].packet)
      && c.entries[c.table[k]].expiry == ExpiryOf(c.stored[k])
  }

  ghost predicate HitsHold(c: Cache) {
    forall h :: h in c.hits ==>
      c.hits[h].entry in c.entries && c.entries[c.hits[h].entry].packet == c.hits[h].packet
  }

  ghost predicate CacheInv(c: Cache) {
    && EntriesCounted(c) && TableHolds(c) && HitsHold(c)
    && (forall e :: e in c.entries ==> e < c.nextEntry)
  }

  // ----- steps -----

  // Give up one reference; the entry is released at the last one.
  function Released(c: Cache, e: EntryRef): Cache
    requires e in c.entries && c.entries[e].refCnt > 0
  {
    var x := c.entries[e];
    if x.refCnt == 1 then c.(entries := c.entries - {e})
    else c.(entries := c.entries[e := x.(refCnt := x.refCnt - 1)])
  }

  // The entry of the key, if there is one, is live.
  predicate Discardable(c: Cache, k: Key) {
    k in c.table ==> c.table[k] in c.entries && c.entries[c.table[k]].refCnt > 0
  }

  // Take an entry out of the table.
  function Discarded(c: Cache, k: Key): Cache
    requires Discardable(c, k)
  {
    if k !in c.table then c
    else Released(c.(table := c.table - {k}, stored := c.stored - {k}), c.table[k])
  }

  // Put a response into the table, in the old entry when nobody else uses that.
  function Put(c: Cache, k: Key, s: Stored): Cache
    requires k in c.table ==> c.table[k] in c.entries
  {
    var packet, expiry := KeptCopy(s.packet), ExpiryOf(s);
    if k in c.table && c.entries[c.table[k]].refCnt <= 1 then
      var x := c.entries[c.table[k]];
      c.(entries := c.entries[c.table[k] := Entry(k, packet, expiry, x.refCnt)], stored := c.stored[k := s])
    else
      var entries :=
        if k in c.table then
          var x := c.entries[c.table[k]];
          c.entries[c.table[k] := x.(refCnt := x.refCnt - 1)]
        else c.entries;
      c.(table := c.table[k := c.nextEntry],
         entries := entries[c.nextEntry := Entry(k, packet, expiry, 1)],
         nextEntry := c.nextEntry + 1,
         stored := c.stored[k := s])
  }

  // The lookup of start_query finds a response that has not expired.
  predicate Found(c: Cache, k: Key, now: int) {
    k in c.table && c.table[k] in c.entries && c.entries[c.table[k]].expiry > now
  }

  // A callback begins to use the entry found for a key.
  function Begun(c: Cache, k: Key, h: Thread): Cache
    requires k in c.table && c.table[k] in c.entries && h !in c.hits
  {
    var e := c.table[k];
    var x := c.entries[e];
    c.(entries := c.entries[e := x.(refCnt := x.refCnt + 1)], hits := c.hits[h := Hit(e, x.packet)])
  }

  // The entry that the callback uses is live.
  predicate Endable(c: Cache, h: Thread) {
    h in c.hits && c.hits[h].entry in c.entries && c.entries[c.hits[h].entry].refCnt > 0
  }

  function Ended(c: Cache, h: Thread): Cache
    requires Endable(c, h)
  {
    Released(c.(hits := c.hits - {h}), c.hits[h].entry)
  }

  // ----- the invariant -----

  lemma UsersAdded(hits: map<Thread, Hit>, h: Thread, hit: Hit, e: EntryRef)
    requires h !in hits
    ensures |Users(hits[h := hit], e)| == |Users(hits, e)| + if hit.entry == e then 1 else 0
  {
    var after := Users(hits[h := hit], e);
    if hit.entry == e {
      assert after == Users(hits, e) + {h};
    } else {
      assert after == Users(hits, e);
    }
  }

  lemma UsersRemoved(hits: map<Thread, Hit>, h: Thread, e: EntryRef)
    requires h in hits
    ensures |Users(hits - {h}, e)| == |Users(hits, e)| - if hits[h].entry == e then 1 else 0
  {
    var after := Users(hits - {h}, e);
    if hits[h].entry == e {
      assert Users(hits, e) == after + {h};
    } else {
      assert after == Users(hits, e);
    }
  }

  lemma UsedByHit(hits: map<Thread, Hit>, h: Thread)
    requires h in hits
    ensures |Users(hits, hits[h].entry)| > 0
  {
    assert h in Users(hits, hits[h].entry);
  }

  // A step that gives up one reference to an entry, and with it one holder, keeps the invariant.
  lemma ReleaseKeeps(c: Cache, e: EntryRef)
    requires e in c.entries && c.entries[e].refCnt == Holders(c, e) + 1
    requires forall x :: x in c.entries && x != e ==> 0 < c.entries[x].refCnt == Holders(c, x)
    requires TableHolds(c) && HitsHold(c) && forall x :: x in c.entries ==> x < c.nextEntry
    ensures CacheInv(Released(c, e))
    ensures e in Released(c, e).entries <==> Holders(c, e) > 0
  {
    hide KeptCopy, ExpiryOf, Users;
    var d := Released(c, e);
    if c.entries[e].refCnt == 1 {
      forall h | h in c.hits ensures c.hits[h].entry != e { UsedByHit(c.hits, h); }
      forall k | k in c.table ensures c.table[k] != e { assert c.entries[c.table[k]].key == k; }
    }
    forall x | x in d.entries ensures 0 < d.entries[x].refCnt == Holders(d, x) {
      assert InTable(d, x) == InTable(c, x);
    }
  }

  lemma DiscardKeeps(c: Cache, k: Key)
    requires CacheInv(c)
    ensures Discardable(c, k) && CacheInv(Discarded(c, k))
  {
    hide KeptCopy, ExpiryOf, Users;
    if k in c.table {
      var e := c.table[k];
      var d := c.(table := c.table - {k}, stored := c.stored - {k});
      assert InTable(c, e) && !InTable(d, e);
      forall x | x in d.entries && x != e ensures 0 < d.entries[x].refCnt == Holders(d, x) {
        assert InTable(d, x) == InTable(c, x) by {
          if c.entries[x].key == k { assert c.table[k] != x; }
        }
      }
      ReleaseKeeps(d, e);
    }
  }

  lemma EndKeeps(c: Cache, h: Thread)
    requires CacheInv(c) && h in c.hits
    ensures Endable(c, h) && CacheInv(Ended(c, h))
    // the entry is released with the last holder
    ensures var e := c.hits[h].entry; e in Ended(c, h).entries <==> Holders(c, e) > 1
  {
    hide KeptCopy, ExpiryOf, Users;
    var e := c.hits[h].entry;
    var d := c.(hits := c.hits - {h});
    forall x ensures Holders(d, x) == Holders(c, x) - if x == e then 1 else 0 {
      UsersRemoved(c.hits, h, x);
      assert InTable(d, x) == InTable(c, x);
    }
    ReleaseKeeps(d, e);
  }

  lemma BeginKeeps(c: Cache, k: Key, h: Thread)
    requires CacheInv(c) && k in c.table && h !in c.hits
    ensures c.table[k] in c.entries && CacheInv(Begun(c, k, h))
  {
    hide KeptCopy, ExpiryOf, Users;
    var d := Begun(c, k, h);
    forall x | x in d.entries ensures 0 < d.entries[x].refCnt == Holders(d, x) {
      UsersAdded(c.hits, h, d.hits[h], x);
      assert InTable(d, x) == InTable(c, x);
    }
  }

  lemma ReuseKeeps(c: Cache, k: Key, s: Stored)
    requires CacheInv(c) && k in c.table && c.table[k] in c.entries && c.entries[c.table[k]].refCnt <= 1
    ensures CacheInv(Put(c, k, s))
  {
    hide KeptCopy, ExpiryOf, Users;
    var d, e := Put(c, k, s), c.table[k];
    assert InTable(c, e);
    forall x | x in d.entries ensures 0 < d.entries[x].refCnt == Holders(d, x) {
      assert InTable(d, x) == InTable(c, x);
    }
    // the table is the only holder
    forall h | h in c.hits ensures c.hits[h].entry != e { UsedByHit(c.hits, h); }
  }

  lemma ReplaceKeeps(c: Cache, k: Key, s: Stored)
    requires CacheInv(c) && (k in c.table ==> c.table[k] in c.entries && c.entries[c.table[k]].refCnt > 1)
    ensures CacheInv(Put(c, k, s))
  {
    hide KeptCopy, ExpiryOf, Users;
    var d, added := Put(c, k, s), c.nextEntry;
    NoUsers(c, added);
    forall x | x in d.entries ensures 0 < d.entries[x].refCnt == Holders(d, x) {
      if x == added {
        assert InTable(d, x);
      } else if c.entries[x].key == k {
        assert !InTable(d, x);
      } else {
        assert InTable(d, x) == InTable(c, x);
      }
    }
  }

  lemma PutKeeps(c: Cache, k: Key, s: Stored)
    requires CacheInv(c)
    ensures (k in c.table ==> c.table[k] in c.entries) && CacheInv(Put(c, k, s))
  {
    hide KeptCopy, ExpiryOf, Users, Put, HitsHold, EntriesCounted;
    if k in c.table && c.entries[c.table[k]].refCnt <= 1 {
      ReuseKeeps(c, k, s);
    } else {
      ReplaceKeeps(c, k, s);
    }
  }

  lemma NoUsers(c: Cache, e: EntryRef)
    requires HitsHold(c) && e !in c.entries
    ensures Users(c.hits, e) == {}
  {
  }

  // ----- update_res_cache -----

  function Stamp(status: int, setExpiry: bool, p: Packet, now: int, maxTtl: uint32): Stored {
    Stored(p, now, CacheTtl(status, setExpiry, p, maxTtl), setExpiry)
  }

  function Updated(c: Cache, k: Key, status: int, setExpiry: bool, p: Packet, now: int, maxTtl: uint32): Cache
    requires Discardable(c, k)
  {
    var d := if status != 0 then Discarded(c, k) else c;
    if CacheTtl(status, setExpiry, p, maxTtl) == 0 then Discarded(d, k)
    else Put(d, k, Stamp(status, setExpiry, p, now, maxTtl))
  }

  lemma UpdateKeeps(c: Cache, k: Key, status: int, setExpiry: bool, p: Packet, now: int, maxTtl: uint32)
    requires CacheInv(c)
    ensures Discardable(c, k) && CacheInv(Updated(c, k, status, setExpiry, p, now, maxTtl))
    // the response is now the one stored last, unless it may not be kept at all
    ensures var d := Updated(c, k, status, setExpiry, p, now, maxTtl);
            if CacheTtl(status, setExpiry, p, maxTtl) == 0 then k !in d.table
            else k in d.table && d.stored[k] == Stamp(status, setExpiry, p, now, maxTtl)
    ensures var d := Updated(c, k, status, setExpiry, p, now, maxTtl);
            forall x :: x != k ==>
              (x in d.table <==> x in c.table) && (x in d.stored <==> x in c.stored)
              && (x in d.stored ==> d.stored[x] == c.stored[x])
    ensures Updated(c, k, status, setExpiry, p, now, maxTtl).hits == c.hits
  {
    hide KeptCopy, ExpiryOf, CacheInv, CacheTtl, Stamp;
    DiscardKeeps(c, k);
    var d := if status != 0 then Discarded(c, k) else c;
    DiscardKeeps(d, k);
    PutKeeps(d, k, Stamp(status, setExpiry, p, now, maxTtl));
  }

  // ----- what the invariant means -----

  // An entry is live exactly while the table or some callback holds it.
  lemma LiveExactlyWhileHeld(c: Cache, e: EntryRef)
    requires CacheInv(c)
    ensures e in c.entries
            <==> (exists k :: k in c.table && c.table[k] == e) || (exists h :: h in c.hits && c.hits[h].entry == e)
  {
    hide KeptCopy, ExpiryOf;
    if e in c.entries && !InTable(c, e) {
      var h :| h in Users(c.hits, e);
    }
  }

  // A lookup finds a response exactly when one is stored under the key and less time has passed since than the time to
  // live, or, when it was stored without an expiry, before the last second of a 31-bit clock.
  lemma FoundExactly(c: Cache, k: Key, now: int)
    requires CacheInv(c)
    ensures Found(c, k, now)
            <==> k in c.table && k in c.stored
                 && (if c.stored[k].ends then now - c.stored[k].time < c.stored[k].ttl * 1000 else now < 2147483647000)
  {
    hide EntriesCounted, HitsHold, KeptCopy;
  }

  // What a lookup finds is the response last stored under the key: its queries and answers.
  lemma HitIsLastStored(c: Cache, k: Key, now: int)
    requires CacheInv(c) && Found(c, k, now)
    ensures k in c.stored && c.entries[c.table[k]].packet == KeptCopy(c.stored[k].packet)
    ensures QueriesAndAnswersOf(c.entries[c.table[k]].packet, c.stored[k].packet)
    ensures c.stored[k].ends ==> now - c.stored[k].time < c.stored[k].ttl * 1000
  {
    hide CacheTtl, CopiedPacket, QueriesAndAnswersOf;
    KeptExactly(c.stored[k].packet);
  }

  // How long a response is kept, in seconds: as long as the answer that lives shortest, or a minute when it has none
  // to use, or as long as can be when it is to have no expiry; and never longer than the configured maximum.
  predicate LivesFor(ttl: int, status: int, setExpiry: bool, p: Packet, maxTtl: uint32) {
    && ttl <= maxTtl
    && (setExpiry && p.answers != [] && status == 0 ==>
          (forall r :: r in p.answers ==> ttl <= r.ttl) && (ttl == maxTtl || exists r :: r in p.answers && r.ttl == ttl))
    && (setExpiry && (p.answers == [] || status != 0) ==> ttl <= 60 && (ttl == maxTtl || ttl == 60))
    && (!setExpiry ==> ttl == maxTtl)
  }

  lemma TtlOfResponse(status: int, setExpiry: bool, p: Packet, maxTtl: uint32)
    ensures LivesFor(CacheTtl(status, setExpiry, p, maxTtl), status, setExpiry, p, maxTtl)
  {
    if setExpiry && p.answers != [] && status == 0 {
      assert p.answers[0] in p.answers;
    }
  }

  // ----- the cache in memory -----

  class ResponseCache {
    var table: map<Key, EntryRef>
    var entries: map<EntryRef, Entry>
    var nextEntry: nat
    ghost var hits: map<Thread, Hit>
    ghost var stored: map<Key, Stored>

    ghost function State(): Cache
      reads this
    {
      Cache(table, entries, nextEntry, hits, stored)
    }

    ghost predicate Valid()
      reads this
    {
      CacheInv(State())
    }

    constructor ()
      ensures Valid() && State() == Cache(map[], map[], 0, map[], map[])
    {
      table, entries, nextEntry, hits, stored := map[], map[], 0, map[], map[];
    }

    // alloc_entry
    method AllocEntry(key: Key, packet: Packet, expiry: int) returns (e: EntryRef)
      modifies this
      ensures e == old(nextEntry)
      ensures State() == old(State()).(entries := old(entries)[e := Entry(key, packet, expiry, 1)], nextEntry := e + 1)
    {
      e := nextEntry;
      entries := entries[e := Entry(key, packet, expiry, 1)];
      nextEntry := nextEntry + 1;
    }

    // Drop one reference, and free the entry when none is left.
    method Release(e: EntryRef)
      requires e in entries && entries[e].refCnt > 0
      modifies this
      ensures State() == Released(old(State()), e)
    {
      var x := entries[e];
      entries := entries[e := x.(refCnt := x.refCnt - 1)];
      if entries[e].refCnt == 0 {
        entries := entries - {e};
        assert entries == old(entries) - {e};
      }
    }

    // Remove a key from the table, and free its entry unless a callback uses it.
    method Discard(key: Key)
      requires Valid()
      modifies this
      ensures Discardable(old(State()), key) && State() == Discarded(old(State()), key)
      ensures Valid()
    {
      hide CacheInv;
      DiscardKeeps(State(), key);
      if key in table {
        var e := table[key];
        table, stored := table - {key}, stored - {key};
        Release(e);
      }
    }

    // Is there a response for the key that has not expired?  One that has is removed.
    method Lookup(key: Key, now: int, ghost h: Thread) returns (found: bool, packet: Packet)
      requires Valid() && h !in hits
      modifies this
      ensures Valid()
      ensures found <==> Found(old(State()), key, now)
      ensures found ==> State() == Begun(old(State()), key, h) && packet == old(entries)[old(table)[key]].packet
      ensures !found ==> Discardable(old(State()), key) && State() == Discarded(old(State()), key)
    {
      hide KeptCopy, ExpiryOf, HitsHold, EntriesCounted;
      packet := Packet(0, 0, [], [], [], []);
      found := false;
      if key in table && entries[table[key]].expiry > now {
        BeginKeeps(State(), key, h);
        var e := table[key];
        var x := entries[e];
        found, packet := true, x.packet;
        entries := entries[e := x.(refCnt := x.refCnt + 1)];
        hits := hits[h := Hit(e, x.packet)];
      } else {
        Discard(key);
      }
    }

    // The callback that used an entry has returned.
    method EndHit(ghost h: Thread, e: EntryRef)
      requires Valid() && h in hits && hits[h].entry == e
      modifies this
      ensures Valid()
      ensures Endable(old(State()), h) && State() == Ended(old(State()), h)
    {
      hide CacheInv;
      EndKeeps(State(), h);
      hits := hits - {h};
      Release(e);
    }

    method ResponseTtl(status: int, setExpiry: bool, p: Packet, maxTtl: uint32) returns (ttl: uint32)
      ensures ttl == CacheTtl(status, setExpiry, p, maxTtl)
    {
      if setExpiry {
        if p.answers == [] || status != 0 {
          ttl := INVALID_TTL;
        } else {
          ttl := MAX_UINT32;
          for i := 0 to |p.answers|
            invariant ttl == MinTtl(p.answers[..i])
          {
            assert p.answers[..i + 1][..i] == p.answers[..i];
            if p.answers[i].ttl < ttl { ttl := p.answers[i].ttl; }
          }
          assert p.answers[..|p.answers|] == p.answers;
        }
      } else {
        ttl := MAX_UINT32;
      }
      if ttl > maxTtl { ttl := maxTtl; }
    }

    // Enter a response, using the old entry again unless a callback is using it.
    method Store(key: Key, s: Stored)
      requires Valid()
      modifies this
      ensures (key in old(table) ==> old(table)[key] in old(entries)) && State() == Put(old(State()), key, s)
      ensures Valid()
    {
      hide CacheInv, CopiedPacket;
      PutKeeps(State(), key, s);
      var packet := CopyPacket(s.packet, KEPT_SECTIONS);
      var expiry := if s.ends then s.time + s.ttl * 1000 else NEVER;
      if key !in table {
        var e := AllocEntry(key, packet, expiry);
        table := table[key := e];
      } else if entries[table[key]].refCnt > 1 {
        var x := entries[table[key]];
        entries := entries[table[key] := x.(refCnt := x.refCnt - 1)];
        var e := AllocEntry(key, packet, expiry);
        table := table[key := e];
      } else {
        var e := table[key];
        table := table - {key};
        entries := entries[e := Entry(key, packet, expiry, entries[e].refCnt)];
        table := table[key := e];
        assert table == old(table);
      }
      stored := stored[key := s];
    }

    // update_res_cache
    method Update(key: Key, status: int, setExpiry: bool, p: Packet, now: int, maxTtl: uint32)
      requires Valid()
      modifies this
      ensures Valid() && Discardable(old(State()), key)
      ensures State() == Updated(old(State()), key, status, setExpiry, p, now, maxTtl)
    {
      hide CacheInv, CacheTtl, Put, Discarded;
      UpdateKeeps(State(), key, status, setExpiry, p, now, maxTtl);
      if status != 0 { Discard(key); }
      var ttl := ResponseTtl(status, setExpiry, p, maxTtl);
      if ttl == 0 {
        Discard(key);
        return;
      }
      Store(key, Stored(p, now, ttl, setExpiry));
    }
  }
}
