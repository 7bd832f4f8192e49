/** The table of pending queries of the DNS resolver (resolver.c), in memory. */
module ResolverTable {
  import opened Bytes
  import opened Wrappers
  import opened ResolverCache
  import opened ResolverQueries

  // ----- whole steps keep the invariant -----

  ghost predicate Good(q: Queries, retries: nat) { QueriesInv(q, retries) && NoneDetached(q) }

  lemma PendingByKey(q: Queries, key: Key, retries: nat)
    requires QueriesInv(q, retries) && key in q.byKey
    ensures q.byKey[key] in q.nodes && IsPending(q, q.byKey[key])
  {
    hide PlacesAgree, FreeAgree, ChildrenAgree, TimersAgree, TransmitsBounded, CallsAgree, FatesAgree, NotifiedOnce;
  }

  lemma ChildKeeps(q: Queries, key: Key, cb: Option<Token>, retries: nat)
    requires Good(q, retries) && key in q.byKey && NewToken(q, cb)
    ensures q.byKey[key] in q.nodes && Good(ChildAdded(q, key, cb), retries)
  {
    hide QueriesInv, NextNode;
    var n, r := NextNode(q), Allocated(q, cb);
    PendingByKey(q, key, retries);
    AllocateKeeps(q, cb, retries);
    assert CanLink(r, n, q.byKey[key]);
    LinkKeeps(r, n, q.byKey[key], retries);
  }

  lemma NamedKeeps(q: Queries, key: Key, cb: Option<Token>, retries: nat)
    requires Good(q, retries) && IdUnused(q)
    ensures var n, r := NextNode(q), Named(Allocated(q, cb), NextNode(q), key);
            && QueriesInv(r, retries) && IsDetached(r, n) && Unused(r, q.lastId, n)
            && r.nodes[n] == Node(q.lastId, key, 0, cb, [])
            && r.place == q.place[n := Detached]
  {
    hide QueriesInv, NextNode, Unused, IdUnused;
    AllocateKeeps(q, cb, retries);
    assert TablesAgree(q) by { Tables(q, retries); }
    AllocateUnused(q, cb);
    NameKeeps(Allocated(q, cb), NextNode(q), key, retries);
  }

  lemma Tables(q: Queries, retries: nat)
    requires QueriesInv(q, retries)
    ensures TablesAgree(q)
  {
    hide TablesAgree, PlacesAgree, FreeAgree, ChildrenAgree, TimersAgree, TransmitsBounded, CallsAgree, FatesAgree, NotifiedOnce;
  }

  lemma FailedKeeps(q: Queries, key: Key, cb: Option<Token>, retries: nat)
    requires Good(q, retries) && IdUnused(q)
    ensures Good(QueryFailed(q, key, cb), retries)
  {
    hide QueriesInv, NextNode, Unused, IdUnused;
    NamedKeeps(q, key, cb, retries);
    GiveBackKeeps(Named(Allocated(q, cb), NextNode(q), key), NextNode(q), retries);
  }

  lemma StartedKeeps(q: Queries, key: Key, cb: Option<Token>, retries: nat)
    requires Good(q, retries) && IdUnused(q) && key !in q.byKey && NewToken(q, cb)
    ensures Good(QueryStarted(q, key, cb), retries)
  {
    hide QueriesInv, NextNode, Unused, IdUnused;
    NamedKeeps(q, key, cb, retries);
    var n, r := NextNode(q), Named(Allocated(q, cb), NextNode(q), key);
    assert MayTransmit(r, n, retries) by { UnusedId(r, q.lastId, n); }
    TransmitKeeps(r, n, retries);
    StillUnused(r, q.lastId, n);
    assert CanEnter(Transmitted(r, n), n);
    EnterKeeps(Transmitted(r, n), n, retries);
  }

  lemma UnusedId(q: Queries, id: uint16, n: NodeRef)
    requires Unused(q, id, n)
    ensures id !in q.byId
  {
  }

  lemma StillUnused(q: Queries, id: uint16, n: NodeRef)
    requires n in q.nodes && Unused(q, id, n)
    ensures Unused(Transmitted(q, n), id, n)
  {
  }

  // An outstanding timer either belongs to the pending query that has its identifier or is stale.
  lemma TimerOwner(q: Queries, n: NodeRef, retries: nat)
    requires QueriesInv(q, retries) && (n in q.popped || n in q.armed)
    ensures n in q.nodes
    ensures q.nodes[n].id in q.byId <==> IsPending(q, n)
  {
    hide PlacesAgree, FreeAgree, ChildrenAgree, TransmitsBounded, CallsAgree, FatesAgree, NotifiedOnce;
  }

  lemma TimeoutKeeps(q: Queries, n: NodeRef, attempt: Attempt, retries: nat)
    requires Good(q, retries) && n in q.popped
    ensures n in q.nodes && Good(TimedOut(q, n, attempt, retries), retries)
  {
    hide QueriesInv, Max;
    TimerOwner(q, n, retries);
    if !IsPending(q, n) {
      PoppedDone(q, n, retries);
    } else if q.nodes[n].transmitCnt < retries && Transmits(q, n, attempt) {
      MayRetransmit(q, n, retries);
      TransmitKeeps(q, n, retries);
      PoppedDone(Transmitted(q, n), n, retries);
      assert Timed(Transmitted(q, n), q.armed + {n}, q.popped - multiset{n}) == TimedOut(q, n, attempt, retries);
    } else {
      RemoveKeeps(q, n, retries);
      PoppedDone(Removed(q, n), n, retries);
      assert Timed(Removed(q, n), q.armed, q.popped - multiset{n}) == TimedOut(q, n, attempt, retries);
    }
  }

  lemma MayRetransmit(q: Queries, n: NodeRef, retries: nat)
    requires QueriesInv(q, retries) && n in q.popped && n in q.nodes && q.nodes[n].transmitCnt < retries
    ensures MayTransmit(q, n, retries)
  {
    hide TablesAgree, PlacesAgree, FreeAgree, ChildrenAgree, TransmitsBounded, CallsAgree, FatesAgree, NotifiedOnce;
  }

  lemma AnswerKeeps(q: Queries, id: uint16, retries: nat)
    requires Good(q, retries) && id in q.byId
    ensures q.byId[id] in q.nodes && Good(Answered(q, id), retries)
  {
    hide QueriesInv;
    Tables(q, retries);
    var n := q.byId[id];
    assert IsPending(q, n) && n in q.nodes;
    hide TablesAgree;
    RemoveKeeps(q, n, retries);
    DisarmKeeps(Removed(q, n), n, retries);
    assert Timed(Removed(q, n), q.armed - {n}, q.popped) == Answered(q, id);
  }

  lemma CallingKeeps(q: Queries, n: NodeRef, retries: nat)
    requires Good(q, retries) && n in q.notifying && q.notifying[n] != []
    ensures CanCall(q, n) && Good(NextCalled(q, n), retries)
  {
    CallReady(q, n, retries);
    CallKeeps(q, n, retries);
    hide QueriesInv;
  }

  lemma CallReady(q: Queries, n: NodeRef, retries: nat)
    requires QueriesInv(q, retries) && n in q.notifying && q.notifying[n] != []
    ensures CanCall(q, n)
  {
    hide TablesAgree, FreeAgree, TimersAgree, TransmitsBounded, FatesAgree, NotifiedOnce;
    assert n in q.place && q.place[n] == Notifying;
    FamilyDistinct(q, n);
    var s := Family(q, n);
    assert q.notifying[n][0] == s[|s| - |q.notifying[n]|];
    assert q.notifying[n][0] in s;
  }

  lemma RecyclingKeeps(q: Queries, n: NodeRef, retries: nat)
    requires Good(q, retries) && n in q.notifying && q.notifying[n] == []
    ensures CanRecycle(q, n) && Good(Recycled(q, n), retries)
  {
    RecycleReady(q, n, retries);
    RecycleKeeps(q, n, retries);
    hide QueriesInv;
  }

  lemma RecycleReady(q: Queries, n: NodeRef, retries: nat)
    requires QueriesInv(q, retries) && n in q.notifying && q.notifying[n] == []
    ensures CanRecycle(q, n)
  {
    hide TablesAgree, FreeAgree, ChildrenAgree, TimersAgree, TransmitsBounded, FatesAgree, NotifiedOnce;
  }

  // ----- what the invariant means -----

  // Both tables hold the same pending queries, at most one for an identifier and one for a key.
  lemma TablesHoldPending(q: Queries, retries: nat)
    requires QueriesInv(q, retries)
    ensures q.byId.Values == q.byKey.Values == set n | n in q.place && IsPending(q, n)
    ensures forall a, b :: a in q.byId && b in q.byId && q.byId[a] == q.byId[b] ==> a == b
    ensures forall a, b :: a in q.byKey && b in q.byKey && q.byKey[a] == q.byKey[b] ==> a == b
  {
    hide PlacesAgree, FreeAgree, ChildrenAgree, TimersAgree, TransmitsBounded, CallsAgree, FatesAgree, NotifiedOnce;
    forall n | n in q.place && IsPending(q, n) ensures n in q.byId.Values && n in q.byKey.Values {
      assert q.byId[q.nodes[n].id] == n && q.byKey[q.nodes[n].key] == n;
    }
  }

  predicate IsChild(q: Queries, n: NodeRef) {
    exists p :: p in q.nodes && IsRoot(q, p) && n in q.nodes[p].children
  }

  function Count(b: bool): nat { if b then 1 else 0 }

  // Every node is in exactly one of four places: pending, the child of one query that is pending or being
  // completed, being completed, or free.
  lemma EveryNodeInOnePlace(q: Queries, n: NodeRef, retries: nat)
    requires Good(q, retries) && n in q.nodes
    ensures Count(n in q.byId.Values) + Count(IsChild(q, n)) + Count(n in q.notifying) + Count(n in q.free) == 1
    ensures forall p, r ::
              (p in q.nodes && IsRoot(q, p) && n in q.nodes[p].children
               && r in q.nodes && IsRoot(q, r) && n in q.nodes[r].children) ==> p == r
  {
    TablesHoldPending(q, retries);
    hide TablesAgree, TimersAgree, TransmitsBounded, CallsAgree, FatesAgree, NotifiedOnce;
    assert n in q.place;
    if q.place[n].ChildOf? { assert IsChild(q, n); }
    if IsChild(q, n) {
      var p :| p in q.nodes && IsRoot(q, p) && n in q.nodes[p].children;
      assert q.place[n] == ChildOf(p);
    }
    assert n in q.byId.Values <==> IsPending(q, n);
  }

  // No pending query is without a timer, and none has been transmitted more often than allowed.
  lemma PendingIsTimed(q: Queries, n: NodeRef, retries: nat)
    requires QueriesInv(q, retries) && n in q.byId.Values
    ensures n in q.armed || n in q.popped
    ensures n in q.nodes && 1 <= q.nodes[n].transmitCnt <= Max(1, retries)
  {
    hide PlacesAgree, FreeAgree, ChildrenAgree, CallsAgree, FatesAgree, NotifiedOnce;
    var id :| id in q.byId && q.byId[id] == n;
  }

  lemma NamedTransmits(q: Queries, n: NodeRef, key: Key, cb: Option<Token>, attempt: Attempt)
    requires n == NextNode(q)
    ensures Transmits(Named(Allocated(q, cb), n, key), n, attempt) == Transmits(q, n, attempt)
  {
    hide NextNode;
  }

  // ----- the table in memory -----

  class QueryTable {
    var nodes: map<NodeRef, Node>
    var nextNode: nat
    var free: seq<NodeRef>
    var byId: map<uint16, NodeRef>
    var byKey: map<Key, NodeRef>
    var lastId: uint16
    var armed: set<NodeRef>
    ghost var popped: multiset<NodeRef>
    ghost var notifying: map<NodeRef, seq<NodeRef>>
    ghost var place: map<NodeRef, Place>
    ghost var fate: map<Token, Fate>
    ghost var notified: multiset<Token>

    ghost function State(): Queries
      reads this
    {
      Queries(nodes, nextNode, free, byId, byKey, lastId, armed, popped, notifying, place, fate, notified)
    }

    constructor ()
      ensures State() == Queries(map[], 0, [], map[], map[], 1, {}, multiset{}, map[], map[], map[], multiset{})
    {
      nodes, nextNode, free, byId, byKey, lastId, armed := map[], 0, [], map[], map[], 1, {};
      popped, notifying, place, fate, notified := multiset{}, map[], map[], map[], multiset{};
    }

    // alloc_qnode
    method AllocNode(cb: Option<Token>) returns (n: NodeRef)
      modifies this
      ensures n == NextNode(old(State())) && n in nodes && State() == Allocated(old(State()), cb)
    {
      if free != [] {
        n := free[0];
        free := free[1..];
      } else {
        n := nextNode;
        nextNode := nextNode + 1;
      }
      nodes := nodes[n := Node(0, NO_KEY, 0, cb, [])];
      place := place[n := Detached];
    }

    // transmit_query: the timer is started before anything is sent, and fails if it is still running.
    method TransmitQuery(n: NodeRef, attempt: Attempt) returns (ok: bool)
      requires n in nodes
      modifies this
      ensures ok == Transmits(old(State()), n, attempt)
      ensures State() == if ok then Transmitted(old(State()), n) else old(State())
    {
      if attempt == NoServer { return false; }
      if n in armed { return false; }
      armed := armed + {n};
      if attempt == SocketBusy {
        nodes := nodes[n := nodes[n].(transmitCnt := nodes[n].transmitCnt + 1)];
        return true;
      }
      if attempt == BadQuery {
        armed := armed - {n};
        assert armed == old(armed);
        return false;
      }
      nodes := nodes[n := nodes[n].(transmitCnt := nodes[n].transmitCnt + 1)];
      return true;
    }

    // A query for a key that is pending already.
    method AddChild(key: Key, cb: Option<Token>)
      requires key in byKey && byKey[key] in nodes
      modifies this
      ensures State() == ChildAdded(old(State()), key, cb)
    {
      var parent := byKey[key];
      var n := AllocNode(cb);
      nodes := nodes[parent := nodes[parent].(children := nodes[parent].children + [n])];
      place := place[n := ChildOf(parent)];
      fate := WaitingAt(fate, nodes[n].cb, n);
    }

    method TakeId(n: NodeRef, key: Key)
      requires n in nodes
      modifies this
      ensures State() == Named(old(State()), n, key)
    {
      var id := lastId;
      lastId := NextId(lastId);
      nodes := nodes[n := nodes[n].(id := id, key := key)];
    }

    method Enter(n: NodeRef)
      requires n in nodes
      modifies this
      ensures State() == Entered(old(State()), n)
    {
      byId := byId[nodes[n].id := n];
      byKey := byKey[nodes[n].key := n];
      place := place[n := Pending];
      fate := WaitingAt(fate, nodes[n].cb, n);
    }

    method GiveBack(n: NodeRef)
      modifies this
      ensures State() == GivenBack(old(State()), n)
    {
      free := free + [n];
      place := place[n := Free];
    }

    // A query for a key that is not.
    method StartNew(key: Key, cb: Option<Token>, attempt: Attempt) returns (n: NodeRef, ok: bool)
      modifies this
      ensures n == NextNode(old(State())) && ok == Transmits(old(State()), n, attempt)
      ensures State() == if ok then QueryStarted(old(State()), key, cb) else QueryFailed(old(State()), key, cb)
    {
      hide NextNode, NextId, Transmits, Entered;
      n := AllocNode(cb);
      TakeId(n, key);
      NamedTransmits(old(State()), n, key, cb, attempt);
      ok := TransmitQuery(n, attempt);
      if ok { Enter(n); } else { GiveBack(n); }
    }

    ghost method Record(cb: Option<Token>)
      modifies this`fate, this`notified
      ensures State() == Called(old(State()), cb)
    {
      if cb.Some? {
        fate := fate[cb.value := Notified];
        notified := notified + multiset{cb.value};
      }
    }

    // A cached response has been found for the callback.
    ghost method Use(cb: Option<Token>, h: Thread)
      modifies this`fate
      ensures State() == old(State()).(fate := if cb.Some? then old(fate)[cb.value := Using(h)] else old(fate))
    {
      if cb.Some? { fate := fate[cb.value := Using(h)]; }
    }

    // pj_dns_resolver_cancel_query
    method CancelQuery(n: NodeRef, notify: bool) returns (cb: Option<Token>)
      requires n in nodes && nodes[n].cb.Some?
      modifies this
      ensures cb == old(nodes)[n].cb && State() == Cancelled(old(State()), n, notify)
    {
      cb := nodes[n].cb;
      nodes := nodes[n := nodes[n].(cb := None)];
      if notify {
        Record(cb);
      } else {
        fate := fate[cb.value := Silenced];
      }
    }

    // The timer heap takes an elapsed timer out; its on_timeout has yet to get the mutex.
    method PopTimer(n: NodeRef)
      requires n in armed
      modifies this
      ensures State() == TimerPopped(old(State()), n)
    {
      armed := armed - {n};
      popped := popped + multiset{n};
    }

    // Clear the entries of both tables.
    method Remove(n: NodeRef)
      requires n in nodes
      modifies this
      ensures State() == Removed(old(State()), n)
    {
      byId := byId - {nodes[n].id};
      byKey := byKey - {nodes[n].key};
      place := place[n := Notifying];
      notifying := notifying[n := [n] + nodes[n].children];
    }

    // on_timeout, up to the callbacks
    method OnTimeout(n: NodeRef, attempt: Attempt, retries: nat) returns (expired: bool)
      requires n in nodes
      modifies this
      ensures State() == TimedOut(old(State()), n, attempt, retries)
      ensures expired ==> n in notifying && notifying[n] == [n] + nodes[n].children
    {
      popped := popped - multiset{n};
      if nodes[n].id !in byId { return false; }
      if nodes[n].transmitCnt < retries {
        var ok := TransmitQuery(n, attempt);
        if ok { return false; }
      }
      Remove(n);
      return true;
    }

    // on_read_complete, up to the callbacks
    method OnResponse(id: uint16) returns (found: bool, n: NodeRef)
      requires id in byId ==> byId[id] in nodes
      modifies this
      ensures found == (id in old(byId))
      ensures State() == if found then Answered(old(State()), id) else old(State())
      ensures found ==> n == old(byId)[id] && n in notifying && notifying[n] == [n] + nodes[n].children
    {
      n := 0;
      if id !in byId { return false, n; }
      n := byId[id];
      armed := armed - {n};
      Remove(n);
      return true, n;
    }

    // The callback of the next member of a family: the query first, then its children in order.
    method CallNext(n: NodeRef, member: NodeRef) returns (cb: Option<Token>)
      requires n in notifying && notifying[n] != [] && notifying[n][0] == member && member in nodes
      modifies this
      ensures cb == old(nodes)[member].cb && State() == NextCalled(old(State()), n)
    {
      cb := nodes[member].cb;
      notifying := notifying[n := notifying[n][1..]];
      Record(cb);
    }

    // Put the children and then the query into the free list.
    method Recycle(n: NodeRef)
      requires n in nodes
      modifies this
      ensures State() == Recycled(old(State()), n)
    {
      var children := nodes[n].children;
      for i := 0 to |children|
        invariant free == old(free) + children[..i]
        invariant State() == old(State()).(free := free)
      {
        free := free + [children[i]];
        assert children[..i + 1] == children[..i] + [children[i]];
      }
      assert children[..|children|] == children;
      free := free + [n];
      assert free == old(free) + (children + [n]);
      place := Freed(place, children + [n]);
      notifying := notifying - {n};
    }
  }
}
