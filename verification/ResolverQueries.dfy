/** The pending queries of the DNS resolver (resolver.c).

    Each step is a section of code that runs with the mutex held, or one callback to the application
    made without it. */
module ResolverQueries {
  import opened Bytes
  import opened Wrappers
  import opened ResolverCache

  type NodeRef = nat

  // One call of start_query that asked for a callback.
  type Token = nat

  datatype Node = Node(id: uint16, key: Key, transmitCnt: nat, cb: Option<Token>, children: seq<NodeRef>)

  // Where a query node is, and what became of a callback; both only serve to state what the resolver
  // keeps.  A node is detached between its allocation and its entry into the tables.
  datatype Place = Pending | ChildOf(parent: NodeRef) | Notifying | Free | Detached

  datatype Fate = Waiting(node: NodeRef) | Using(thread: Thread) | Notified | Silenced

  // popped: timers that have elapsed, whose on_timeout has not got the mutex yet.
  // notifying: nodes taken out of the tables, with the nodes whose callbacks are still to be called.
  datatype Queries = Queries(
    nodes: map<NodeRef, Node>, nextNode: nat, free: seq<NodeRef>,
    byId: map<uint16, NodeRef>, byKey: map<Key, NodeRef>, lastId: uint16,
    armed: set<NodeRef>, popped: multiset<NodeRef>, notifying: map<NodeRef, seq<NodeRef>>,
    place: map<NodeRef, Place>, fate: map<Token, Fate>, notified: multiset<Token>)

  // How an attempt to transmit goes, apart from the timer.
  datatype Attempt = NoServer | SocketBusy | BadQuery | Sent

  // ----- single changes -----

  const NO_KEY := Key(0, [])

  function NextNode(q: Queries): NodeRef { if q.free != [] then q.free[0] else q.nextNode }

  // alloc_qnode
  function Allocated(q: Queries, cb: Option<Token>): Queries {
    var n := NextNode(q);
    q.(nodes := q.nodes[n := Node(0, NO_KEY, 0, cb, [])],
       free := if q.free != [] then q.free[1..] else [],
       nextNode := if q.free != [] then q.nextNode else q.nextNode + 1,
       place := q.place[n := Detached])
  }

  // The callback of a query that has been accepted waits at a node.
  function WaitingAt(fate: map<Token, Fate>, cb: Option<Token>, n: NodeRef): map<Token, Fate> {
    if cb.Some? then fate[cb.value := Waiting(n)] else fate
  }

  function Linked(q: Queries, n: NodeRef, p: NodeRef): Queries
    requires n in q.nodes && p in q.nodes
  {
    q.(nodes := q.nodes[p := q.nodes[p].(children := q.nodes[p].children + [n])],
       place := q.place[n := ChildOf(p)],
       fate := WaitingAt(q.fate, q.nodes[n].cb, n))
  }

  function NextId(id: uint16): (next: uint16)
    ensures next != 0
  {
    var next := (id + 1) % TWO_16;
    if next == 0 then 1 else next
  }

  function Named(q: Queries, n: NodeRef, key: Key): Queries
    requires n in q.nodes
  {
    q.(nodes := q.nodes[n := q.nodes[n].(id := q.lastId, key := key)], lastId := NextId(q.lastId))
  }

  predicate Transmits(q: Queries, n: NodeRef, attempt: Attempt) {
    n !in q.armed && (attempt == SocketBusy || attempt == Sent)
  }

  function Transmitted(q: Queries, n: NodeRef): Queries
    requires n in q.nodes
  {
    q.(armed := q.armed + {n}, nodes := q.nodes[n := q.nodes[n].(transmitCnt := q.nodes[n].transmitCnt + 1)])
  }

  function Entered(q: Queries, n: NodeRef): Queries
    requires n in q.nodes
  {
    var x := q.nodes[n];
    q.(byId := q.byId[x.id := n], byKey := q.byKey[x.key := n], place := q.place[n := Pending],
       fate := WaitingAt(q.fate, x.cb, n))
  }

  function GivenBack(q: Queries, n: NodeRef): Queries {
    q.(free := q.free + [n], place := q.place[n := Free])
  }

  // ----- steps -----

  // A query for a key that is pending becomes a child of that query.
  function ChildAdded(q: Queries, key: Key, cb: Option<Token>): Queries
    requires key in q.byKey && q.byKey[key] in q.nodes
  {
    Linked(Allocated(q, cb), NextNode(q), q.byKey[key])
  }

  // A new query whose transmission fails is given up.
  function QueryFailed(q: Queries, key: Key, cb: Option<Token>): Queries {
    GivenBack(Named(Allocated(q, cb), NextNode(q), key), NextNode(q))
  }

  function QueryStarted(q: Queries, key: Key, cb: Option<Token>): Queries {
    Entered(Transmitted(Named(Allocated(q, cb), NextNode(q), key), NextNode(q)), NextNode(q))
  }

  predicate IsPending(q: Queries, n: NodeRef) { n in q.place && q.place[n] == Pending }

  function Called(q: Queries, cb: Option<Token>): Queries {
    if cb.Some? then q.(fate := q.fate[cb.value := Notified], notified := q.notified + multiset{cb.value}) else q
  }

  function Cancelled(q: Queries, n: NodeRef, notify: bool): Queries
    requires n in q.nodes && q.nodes[n].cb.Some?
  {
    var cb := q.nodes[n].cb;
    var r := q.(nodes := q.nodes[n := q.nodes[n].(cb := None)]);
    if notify then Called(r, cb) else r.(fate := r.fate[cb.value := Silenced])
  }

  function TimerPopped(q: Queries, n: NodeRef): Queries {
    q.(armed := q.armed - {n}, popped := q.popped + multiset{n})
  }

  // Take a query out of both tables; its callbacks will be called without the mutex.
  function Removed(q: Queries, n: NodeRef): Queries
    requires n in q.nodes
  {
    var x := q.nodes[n];
    q.(byId := q.byId - {x.id}, byKey := q.byKey - {x.key},
       place := q.place[n := Notifying], notifying := q.notifying[n := [n] + x.children])
  }

  // on_timeout up to the callbacks
  function TimedOut(q: Queries, n: NodeRef, attempt: Attempt, retries: nat): Queries
    requires n in q.nodes
  {
    var r := q.(popped := q.popped - multiset{n});
    if q.nodes[n].id !in q.byId then r
    else if q.nodes[n].transmitCnt < retries && Transmits(q, n, attempt) then Transmitted(r, n)
    else Removed(r, n)
  }

  // on_read_complete up to the callbacks
  function Answered(q: Queries, id: uint16): Queries
    requires id in q.byId && q.byId[id] in q.nodes
  {
    var n := q.byId[id];
    Removed(q.(armed := q.armed - {n}), n)
  }

  // The next callback of a query that was taken out of the tables.
  function NextCalled(q: Queries, n: NodeRef): Queries
    requires n in q.notifying && q.notifying[n] != [] && q.notifying[n][0] in q.nodes
  {
    Called(q.(notifying := q.notifying[n := q.notifying[n][1..]]), q.nodes[q.notifying[n][0]].cb)
  }

  function Freed(place: map<NodeRef, Place>, ns: seq<NodeRef>): map<NodeRef, Place> {
    map n | n in place :: if n in ns then Free else place[n]
  }

  // All callbacks have been called: the nodes are put into the free list.
  function Recycled(q: Queries, n: NodeRef): Queries
    requires n in q.nodes
  {
    var ns := q.nodes[n].children + [n];
    q.(notifying := q.notifying - {n}, free := q.free + ns, place := Freed(q.place, ns))
  }

  // ----- the invariant -----

  // Both tables hold the pending queries.
  ghost predicate TablesAgree(q: Queries) {
    && 0 !in q.byId && q.lastId != 0
    && (forall n :: IsPending(q, n) ==>
          && n in q.nodes
          && q.nodes[n].id in q.byId && q.byId[q.nodes[n].id] == n
          && q.nodes[n].key in q.byKey && q.byKey[q.nodes[n].key] == n)
    && (forall id :: id in q.byId ==>
          IsPending(q, q.byId[id]) && q.byId[id] in q.nodes && q.nodes[q.byId[id]].id == id)
    && (forall k :: k in q.byKey ==>
          IsPending(q, q.byKey[k]) && q.byKey[k] in q.nodes && q.nodes[q.byKey[k]].key == k)
  }

  predicate Distinct(s: seq<NodeRef>) { forall i, j :: 0 <= i < j < |s| ==> s[i] != s[j] }

  predicate IsRoot(q: Queries, n: NodeRef) { n in q.place && (q.place[n] == Pending || q.place[n] == Notifying) }

  // Where every node is.
  ghost predicate PlacesAgree(q: Queries) {
    && q.place.Keys == q.nodes.Keys
    && (forall n :: n in q.place ==> n < q.nextNode)
    && (forall n :: n in q.notifying <==> n in q.place && q.place[n] == Notifying)
  }

  ghost predicate FreeAgree(q: Queries) {
    Distinct(q.free) && forall n :: n in q.free <==> n in q.place && q.place[n] == Free
  }

  ghost predicate ChildrenAgree(q: Queries) {
    && (forall n :: n in q.place && q.place[n].ChildOf? ==>
          && q.place[n].parent in q.nodes && IsRoot(q, q.place[n].parent)
          && n in q.nodes[q.place[n].parent].children)
    && (forall p :: p in q.nodes && IsRoot(q, p) ==>
          && Distinct(q.nodes[p].children)
          && forall c :: c in q.nodes[p].children ==> c in q.place && q.place[c] == ChildOf(p))
  }

  // The timers of pending queries, and the stale ones that must not be taken for them.
  ghost predicate TimersAgree(q: Queries) {
    && (forall n :: n in q.armed || n in q.popped ==>
          n in q.nodes && (q.nodes[n].id in q.byId ==> q.byId[q.nodes[n].id] == n))
    && (forall n :: IsPending(q, n) ==> n in q.armed || n in q.popped)
  }

  function Max(a: nat, b: nat): nat { if a > b then a else b }

  ghost predicate TransmitsBounded(q: Queries, retries: nat) {
    forall n :: n in q.nodes ==>
      q.nodes[n].transmitCnt <= Max(1, retries) && (IsPending(q, n) ==> q.nodes[n].transmitCnt > 0)
  }

  function Family(q: Queries, n: NodeRef): seq<NodeRef>
    requires n in q.nodes
  {
    [n] + q.nodes[n].children
  }

  predicate IsTail(s: seq<NodeRef>, all: seq<NodeRef>) { |s| <= |all| && s == all[|all| - |s|..] }

  // The callbacks still to be called are those of the last nodes of the family.
  ghost predicate CallsAgree(q: Queries) {
    forall n :: n in q.notifying ==> n in q.nodes && IsTail(q.notifying[n], Family(q, n))
  }

  // The callback of the node has not been called yet.
  predicate Unnotified(q: Queries, n: NodeRef) {
    n in q.place
    && match q.place[n]
       case Pending => true
       case Notifying => n in q.notifying && n in q.notifying[n]
       case ChildOf(p) => IsPending(q, p) || (p in q.notifying && n in q.notifying[p])
       case _ => false
  }

  ghost predicate FatesAgree(q: Queries) {
    && (forall n :: n in q.nodes && Unnotified(q, n) && q.nodes[n].cb.Some? ==>
          q.nodes[n].cb.value in q.fate && q.fate[q.nodes[n].cb.value] == Waiting(n))
    && (forall t :: t in q.fate && q.fate[t].Waiting? ==>
          && q.fate[t].node in q.nodes && Unnotified(q, q.fate[t].node)
          && q.nodes[q.fate[t].node].cb == Some(t))
  }

  ghost predicate NotifiedOnce(q: Queries) {
    forall t :: q.notified[t] == if t in q.fate && q.fate[t] == Notified then 1 else 0
  }

  ghost predicate QueriesInv(q: Queries, retries: nat) {
    && TablesAgree(q) && PlacesAgree(q) && FreeAgree(q) && ChildrenAgree(q) && TimersAgree(q)
    && TransmitsBounded(q, retries) && CallsAgree(q) && FatesAgree(q) && NotifiedOnce(q)
  }

  // Between steps no node is detached.
  ghost predicate NoneDetached(q: Queries) { forall n :: n in q.place ==> q.place[n] != Detached }

  // ----- what is asked of the callers -----

  // A call of start_query is not confused with an earlier one.
  predicate NewToken(q: Queries, cb: Option<Token>) { cb.Some? ==> cb.value !in q.fate }

  // The 16-bit identifier has not wrapped round to one that a pending query or an outstanding timer has.
  ghost predicate IdUnused(q: Queries) {
    q.lastId !in q.byId && forall n :: n in q.nodes && (n in q.armed || n in q.popped) ==> q.nodes[n].id != q.lastId
  }

  // ----- the single changes keep the invariant -----

  lemma TailMembers(s: seq<NodeRef>)
    requires Distinct(s) && s != []
    ensures Distinct(s[1..]) && forall m :: m in s[1..] <==> m in s && m != s[0]
  {
  }

  lemma AppendMembers(s: seq<NodeRef>, n: NodeRef)
    requires Distinct(s) && n !in s
    ensures Distinct(s + [n]) && forall m :: m in s + [n] <==> m in s || m == n
  {
  }

  // An idle node, one that is new, free or detached, is in no table and no family.
  predicate Idle(q: Queries, n: NodeRef) { n in q.place ==> q.place[n] == Free || q.place[n] == Detached }

  lemma NextIsIdle(q: Queries)
    requires FreeAgree(q) && PlacesAgree(q)
    ensures var n := NextNode(q); (n in q.place ==> q.place[n] == Free) && (q.free == [] ==> n !in q.place)
  {
    if q.free != [] { assert q.free[0] in q.free; }
  }

  lemma AllocateFree(q: Queries, cb: Option<Token>)
    requires FreeAgree(q) && PlacesAgree(q)
    ensures FreeAgree(Allocated(q, cb))
  {
    NextIsIdle(q);
    hide PlacesAgree;
    var r := Allocated(q, cb);
    if q.free != [] {
      TailMembers(q.free);
      assert r.free == q.free[1..];
      hide Distinct;
    } else {
      assert r.free == [];
    }
  }

  lemma AllocatePlaces(q: Queries, cb: Option<Token>)
    requires FreeAgree(q) && PlacesAgree(q)
    ensures PlacesAgree(Allocated(q, cb))
  {
    NextIsIdle(q);
    hide FreeAgree;
  }

  lemma AllocateTables(q: Queries, cb: Option<Token>)
    requires Idle(q, NextNode(q)) && TablesAgree(q)
    ensures TablesAgree(Allocated(q, cb))
  {
    hide NextNode;
  }

  lemma AllocateChildren(q: Queries, cb: Option<Token>)
    requires Idle(q, NextNode(q)) && ChildrenAgree(q)
    ensures ChildrenAgree(Allocated(q, cb))
  {
    hide NextNode, Distinct;
  }

  lemma AllocateTimers(q: Queries, cb: Option<Token>)
    requires Idle(q, NextNode(q)) && TablesAgree(q) && TimersAgree(q)
    ensures TimersAgree(Allocated(q, cb))
  {
    hide NextNode;
  }

  lemma AllocateCalls(q: Queries, cb: Option<Token>)
    requires Idle(q, NextNode(q)) && PlacesAgree(q) && CallsAgree(q)
    ensures CallsAgree(Allocated(q, cb))
  {
    hide NextNode;
  }

  lemma AllocateFates(q: Queries, cb: Option<Token>)
    requires Idle(q, NextNode(q)) && FatesAgree(q) && ChildrenAgree(q)
    ensures FatesAgree(Allocated(q, cb))
  {
    hide NextNode, Distinct;
  }

  lemma AllocateKeeps(q: Queries, cb: Option<Token>, retries: nat)
    requires QueriesInv(q, retries)
    ensures QueriesInv(Allocated(q, cb), retries) && Idle(q, NextNode(q))
  {
    NextIsIdle(q);
    AllocateFree(q, cb);
    AllocatePlaces(q, cb);
    AllocateTables(q, cb);
    AllocateChildren(q, cb);
    AllocateTimers(q, cb);
    AllocateCalls(q, cb);
    AllocateFates(q, cb);
    AllocateBounded(q, cb, retries);
    hide TablesAgree, PlacesAgree, FreeAgree, ChildrenAgree, TimersAgree, CallsAgree, FatesAgree, NotifiedOnce, TransmitsBounded, Allocated, NextNode;
  }

  lemma AllocateBounded(q: Queries, cb: Option<Token>, retries: nat)
    requires TransmitsBounded(q, retries) && NotifiedOnce(q)
    ensures var r := Allocated(q, cb); TransmitsBounded(r, retries) && NotifiedOnce(r)
  {
    hide NextNode;
  }

  predicate IsDetached(q: Queries, n: NodeRef) { n in q.place && n in q.nodes && q.place[n] == Detached }

  // ----- linking a child -----

  predicate CanLink(q: Queries, n: NodeRef, p: NodeRef) {
    IsDetached(q, n) && IsPending(q, p) && p in q.nodes && NewToken(q, q.nodes[n].cb)
  }

  lemma LinkTables(q: Queries, n: NodeRef, p: NodeRef)
    requires CanLink(q, n, p) && TablesAgree(q)
    ensures TablesAgree(Linked(q, n, p))
  {
  }

  lemma LinkPlaces(q: Queries, n: NodeRef, p: NodeRef)
    requires CanLink(q, n, p) && PlacesAgree(q) && FreeAgree(q)
    ensures var r := Linked(q, n, p); PlacesAgree(r) && FreeAgree(r)
  {
    hide Distinct;
  }

  lemma LinkChildren(q: Queries, n: NodeRef, p: NodeRef)
    requires CanLink(q, n, p) && ChildrenAgree(q)
    ensures ChildrenAgree(Linked(q, n, p))
  {
    AppendMembers(q.nodes[p].children, n);
    hide Distinct;
  }

  lemma LinkTimers(q: Queries, n: NodeRef, p: NodeRef, retries: nat)
    requires CanLink(q, n, p) && TimersAgree(q) && TransmitsBounded(q, retries)
    ensures var r := Linked(q, n, p); TimersAgree(r) && TransmitsBounded(r, retries)
  {
  }

  lemma LinkCalls(q: Queries, n: NodeRef, p: NodeRef)
    requires CanLink(q, n, p) && PlacesAgree(q) && CallsAgree(q)
    ensures CallsAgree(Linked(q, n, p))
  {
  }

  lemma LinkFates(q: Queries, n: NodeRef, p: NodeRef)
    requires CanLink(q, n, p) && FatesAgree(q) && NotifiedOnce(q)
    ensures var r := Linked(q, n, p); FatesAgree(r) && NotifiedOnce(r)
  {
  }

  lemma LinkKeeps(q: Queries, n: NodeRef, p: NodeRef, retries: nat)
    requires CanLink(q, n, p) && QueriesInv(q, retries)
    ensures QueriesInv(Linked(q, n, p), retries)
  {
    LinkTables(q, n, p);
    LinkPlaces(q, n, p);
    LinkChildren(q, n, p);
    LinkTimers(q, n, p, retries);
    LinkCalls(q, n, p);
    LinkFates(q, n, p);
    hide TablesAgree, PlacesAgree, FreeAgree, ChildrenAgree, TimersAgree, CallsAgree, FatesAgree, NotifiedOnce, TransmitsBounded, Linked;
  }

  // ----- a new query -----

  // Nobody else has the identifier.
  ghost predicate Unused(q: Queries, id: uint16, n: NodeRef) {
    id != 0 && id !in q.byId
    && forall m :: m in q.nodes && (m in q.armed || m in q.popped) && m != n ==> q.nodes[m].id != id
  }

  lemma AllocateUnused(q: Queries, cb: Option<Token>)
    requires IdUnused(q) && TablesAgree(q)
    ensures Unused(Allocated(q, cb), q.lastId, NextNode(q))
  {
    hide NextNode;
  }

  lemma NameTables(q: Queries, n: NodeRef, key: Key)
    requires IsDetached(q, n) && TablesAgree(q) && PlacesAgree(q) && FreeAgree(q)
    ensures var r := Named(q, n, key); TablesAgree(r) && PlacesAgree(r) && FreeAgree(r)
  {
    hide Distinct;
  }

  lemma NameTimers(q: Queries, n: NodeRef, key: Key, retries: nat)
    requires IsDetached(q, n) && TimersAgree(q) && TransmitsBounded(q, retries) && Unused(q, q.lastId, n)
    ensures var r := Named(q, n, key); TimersAgree(r) && TransmitsBounded(r, retries) && Unused(r, q.lastId, n)
  {
    hide NextId;
  }

  lemma NameFamilies(q: Queries, n: NodeRef, key: Key)
    requires IsDetached(q, n) && ChildrenAgree(q) && CallsAgree(q) && PlacesAgree(q)
    ensures var r := Named(q, n, key); ChildrenAgree(r) && CallsAgree(r)
  {
    hide Distinct, NextId;
  }

  lemma NameFates(q: Queries, n: NodeRef, key: Key)
    requires IsDetached(q, n) && FatesAgree(q) && NotifiedOnce(q)
    ensures var r := Named(q, n, key); FatesAgree(r) && NotifiedOnce(r)
  {
    hide NextId;
  }

  lemma NameKeeps(q: Queries, n: NodeRef, key: Key, retries: nat)
    requires IsDetached(q, n) && QueriesInv(q, retries) && Unused(q, q.lastId, n)
    ensures QueriesInv(Named(q, n, key), retries) && Unused(Named(q, n, key), q.lastId, n)
  {
    NameTables(q, n, key);
    NameTimers(q, n, key, retries);
    NameFamilies(q, n, key);
    NameFates(q, n, key);
    hide TablesAgree, PlacesAgree, FreeAgree, ChildrenAgree, TimersAgree, CallsAgree, FatesAgree, NotifiedOnce, TransmitsBounded, Named, Unused;
  }

  predicate MayTransmit(q: Queries, n: NodeRef, retries: nat) {
    n in q.nodes && q.nodes[n].transmitCnt < Max(1, retries)
    && (q.nodes[n].id in q.byId ==> q.byId[q.nodes[n].id] == n)
  }

  lemma TransmitTables(q: Queries, n: NodeRef)
    requires n in q.nodes && TablesAgree(q) && PlacesAgree(q) && FreeAgree(q)
    ensures var r := Transmitted(q, n); TablesAgree(r) && PlacesAgree(r) && FreeAgree(r)
  {
    hide Distinct;
  }

  lemma TransmitTimers(q: Queries, n: NodeRef, retries: nat)
    requires MayTransmit(q, n, retries) && TimersAgree(q) && TransmitsBounded(q, retries)
    ensures var r := Transmitted(q, n); TimersAgree(r) && TransmitsBounded(r, retries)
  {
    hide Max;
  }

  lemma TransmitFamilies(q: Queries, n: NodeRef)
    requires n in q.nodes && ChildrenAgree(q) && CallsAgree(q)
    ensures var r := Transmitted(q, n); ChildrenAgree(r) && CallsAgree(r)
  {
    hide Distinct;
  }

  lemma TransmitFates(q: Queries, n: NodeRef)
    requires n in q.nodes && FatesAgree(q) && NotifiedOnce(q)
    ensures var r := Transmitted(q, n); FatesAgree(r) && NotifiedOnce(r)
  {
  }

  lemma TransmitKeeps(q: Queries, n: NodeRef, retries: nat)
    requires MayTransmit(q, n, retries) && QueriesInv(q, retries)
    ensures QueriesInv(Transmitted(q, n), retries)
  {
    TransmitTables(q, n);
    TransmitTimers(q, n, retries);
    TransmitFamilies(q, n);
    TransmitFates(q, n);
    hide TablesAgree, PlacesAgree, FreeAgree, ChildrenAgree, TimersAgree, CallsAgree, FatesAgree, NotifiedOnce, TransmitsBounded, Transmitted;
  }

  predicate CanEnter(q: Queries, n: NodeRef) {
    && IsDetached(q, n) && n in q.armed && q.nodes[n].children == [] && q.nodes[n].transmitCnt > 0
    && q.nodes[n].key !in q.byKey && NewToken(q, q.nodes[n].cb)
  }

  lemma EnterTables(q: Queries, n: NodeRef)
    requires CanEnter(q, n) && TablesAgree(q) && Unused(q, q.nodes[n].id, n)
    ensures TablesAgree(Entered(q, n))
  {
  }

  lemma EnterPlaces(q: Queries, n: NodeRef, retries: nat)
    requires CanEnter(q, n) && PlacesAgree(q) && FreeAgree(q) && TransmitsBounded(q, retries)
    ensures var r := Entered(q, n); PlacesAgree(r) && FreeAgree(r) && TransmitsBounded(r, retries)
  {
    hide Distinct;
  }

  lemma EnterTimers(q: Queries, n: NodeRef)
    requires CanEnter(q, n) && TimersAgree(q) && Unused(q, q.nodes[n].id, n)
    ensures TimersAgree(Entered(q, n))
  {
  }

  lemma EnterChildren(q: Queries, n: NodeRef)
    requires CanEnter(q, n) && ChildrenAgree(q)
    ensures ChildrenAgree(Entered(q, n))
  {
    assert Distinct(q.nodes[n].children);
    hide Distinct;
  }

  lemma EnterCalls(q: Queries, n: NodeRef)
    requires CanEnter(q, n) && CallsAgree(q)
    ensures CallsAgree(Entered(q, n))
  {
  }

  lemma EnterFates(q: Queries, n: NodeRef)
    requires CanEnter(q, n) && ChildrenAgree(q) && FatesAgree(q)
    ensures FatesAgree(Entered(q, n))
  {
    hide Distinct;
    var r := Entered(q, n);
    forall m | m in q.nodes ensures Unnotified(r, m) <==> Unnotified(q, m) || m == n {
      hide FatesAgree;
    }
    hide Unnotified, ChildrenAgree;
  }

  lemma EnterNotified(q: Queries, n: NodeRef)
    requires CanEnter(q, n) && NotifiedOnce(q)
    ensures NotifiedOnce(Entered(q, n))
  {
  }

  lemma EnterKeeps(q: Queries, n: NodeRef, retries: nat)
    requires CanEnter(q, n) && Unused(q, q.nodes[n].id, n) && QueriesInv(q, retries)
    ensures QueriesInv(Entered(q, n), retries)
  {
    EnterTables(q, n);
    EnterPlaces(q, n, retries);
    EnterTimers(q, n);
    EnterChildren(q, n);
    EnterCalls(q, n);
    EnterFates(q, n);
    EnterNotified(q, n);
    hide TablesAgree, PlacesAgree, FreeAgree, ChildrenAgree, TimersAgree, CallsAgree, FatesAgree, NotifiedOnce, TransmitsBounded, Entered, Unused;
  }

  lemma GiveBackPlaces(q: Queries, n: NodeRef)
    requires IsDetached(q, n) && PlacesAgree(q) && FreeAgree(q)
    ensures var r := GivenBack(q, n); PlacesAgree(r) && FreeAgree(r)
  {
    AppendMembers(q.free, n);
    hide Distinct;
  }

  lemma GiveBackTables(q: Queries, n: NodeRef)
    requires IsDetached(q, n) && TablesAgree(q)
    ensures TablesAgree(GivenBack(q, n))
  {
  }

  lemma GiveBackRest(q: Queries, n: NodeRef, retries: nat)
    requires IsDetached(q, n) && TimersAgree(q) && TransmitsBounded(q, retries) && CallsAgree(q)
    ensures var r := GivenBack(q, n); TimersAgree(r) && TransmitsBounded(r, retries) && CallsAgree(r)
  {
    hide Max;
  }

  lemma GiveBackChildren(q: Queries, n: NodeRef)
    requires IsDetached(q, n) && ChildrenAgree(q)
    ensures ChildrenAgree(GivenBack(q, n))
  {
    hide Distinct;
  }

  lemma GiveBackFates(q: Queries, n: NodeRef)
    requires IsDetached(q, n) && ChildrenAgree(q) && FatesAgree(q) && NotifiedOnce(q)
    ensures var r := GivenBack(q, n); FatesAgree(r) && NotifiedOnce(r)
  {
    hide Distinct;
    var r := GivenBack(q, n);
    forall m ensures Unnotified(r, m) == Unnotified(q, m) { hide FatesAgree, NotifiedOnce; }
    hide Unnotified, ChildrenAgree;
  }

  lemma GiveBackKeeps(q: Queries, n: NodeRef, retries: nat)
    requires IsDetached(q, n) && QueriesInv(q, retries)
    ensures QueriesInv(GivenBack(q, n), retries)
  {
    GiveBackPlaces(q, n);
    GiveBackTables(q, n);
    GiveBackRest(q, n, retries);
    GiveBackChildren(q, n);
    GiveBackFates(q, n);
    hide TablesAgree, PlacesAgree, FreeAgree, ChildrenAgree, TimersAgree, CallsAgree, FatesAgree, NotifiedOnce, TransmitsBounded, GivenBack;
  }

  // ----- cancelling -----

  lemma CancelChanges(q: Queries, n: NodeRef, notify: bool)
    requires n in q.nodes && q.nodes[n].cb.Some?
    ensures var r := Cancelled(q, n, notify);
            r == q.(nodes := q.nodes[n := q.nodes[n].(cb := None)], fate := r.fate, notified := r.notified)
  {
  }

  lemma CancelTables(q: Queries, n: NodeRef, notify: bool)
    requires n in q.nodes && q.nodes[n].cb.Some? && TablesAgree(q) && PlacesAgree(q) && FreeAgree(q)
    ensures var r := Cancelled(q, n, notify); TablesAgree(r) && PlacesAgree(r) && FreeAgree(r)
  {
    CancelChanges(q, n, notify);
    hide Cancelled, Distinct;
  }

  lemma CancelTimers(q: Queries, n: NodeRef, notify: bool, retries: nat)
    requires n in q.nodes && q.nodes[n].cb.Some? && TimersAgree(q) && TransmitsBounded(q, retries)
    ensures var r := Cancelled(q, n, notify); TimersAgree(r) && TransmitsBounded(r, retries)
  {
    CancelChanges(q, n, notify);
    hide Cancelled, Max;
  }

  lemma CancelFamilies(q: Queries, n: NodeRef, notify: bool)
    requires n in q.nodes && q.nodes[n].cb.Some? && ChildrenAgree(q) && CallsAgree(q)
    ensures var r := Cancelled(q, n, notify); ChildrenAgree(r) && CallsAgree(r)
  {
    CancelChanges(q, n, notify);
    hide Cancelled, Distinct;
    var r := Cancelled(q, n, notify);
    assert forall m :: m in q.nodes ==> m in r.nodes && Family(r, m) == Family(q, m);
  }

  lemma CancelFates(q: Queries, n: NodeRef, notify: bool)
    requires n in q.nodes && q.nodes[n].cb.Some? && IsPending(q, n) && FatesAgree(q) && NotifiedOnce(q)
    ensures var r := Cancelled(q, n, notify); FatesAgree(r) && NotifiedOnce(r)
  {
    var r := Cancelled(q, n, notify);
    var t := q.nodes[n].cb.value;
    assert Unnotified(q, n);
    forall m ensures Unnotified(r, m) == Unnotified(q, m) { hide FatesAgree, NotifiedOnce; }
    hide Unnotified;
    assert q.fate[t] == Waiting(n);
  }

  // Only a pending query may be cancelled, and only once.
  predicate MayCancel(q: Queries, n: NodeRef) { n in q.nodes && IsPending(q, n) && q.nodes[n].cb.Some? }

  lemma CancelKeeps(q: Queries, n: NodeRef, notify: bool, retries: nat)
    requires MayCancel(q, n) && QueriesInv(q, retries)
    ensures QueriesInv(Cancelled(q, n, notify), retries)
  {
    CancelTables(q, n, notify);
    CancelTimers(q, n, notify, retries);
    CancelFamilies(q, n, notify);
    CancelFates(q, n, notify);
    hide TablesAgree, PlacesAgree, FreeAgree, ChildrenAgree, TimersAgree, CallsAgree, FatesAgree, NotifiedOnce, TransmitsBounded, Cancelled;
  }

  // ----- timers -----

  // The rest of the invariant does not speak of timers.
  function Timed(q: Queries, armed: set<NodeRef>, popped: multiset<NodeRef>): Queries {
    q.(armed := armed, popped := popped)
  }

  lemma TimedTables(q: Queries, armed: set<NodeRef>, popped: multiset<NodeRef>)
    requires TablesAgree(q) && PlacesAgree(q) && FreeAgree(q)
    ensures var r := Timed(q, armed, popped); TablesAgree(r) && PlacesAgree(r) && FreeAgree(r)
  {
    hide Distinct;
  }

  lemma TimedFamilies(q: Queries, armed: set<NodeRef>, popped: multiset<NodeRef>, retries: nat)
    requires ChildrenAgree(q) && CallsAgree(q) && TransmitsBounded(q, retries)
    ensures var r := Timed(q, armed, popped); ChildrenAgree(r) && CallsAgree(r) && TransmitsBounded(r, retries)
  {
    hide Distinct, Max;
  }

  lemma TimedFates(q: Queries, armed: set<NodeRef>, popped: multiset<NodeRef>)
    requires FatesAgree(q) && NotifiedOnce(q)
    ensures var r := Timed(q, armed, popped); FatesAgree(r) && NotifiedOnce(r)
  {
  }

  lemma TimedKeeps(q: Queries, armed: set<NodeRef>, popped: multiset<NodeRef>, retries: nat)
    requires QueriesInv(q, retries) && TimersAgree(Timed(q, armed, popped))
    ensures QueriesInv(Timed(q, armed, popped), retries)
  {
    TimedTables(q, armed, popped);
    TimedFamilies(q, armed, popped, retries);
    TimedFates(q, armed, popped);
    hide TablesAgree, PlacesAgree, FreeAgree, ChildrenAgree, TimersAgree, CallsAgree, FatesAgree, NotifiedOnce, TransmitsBounded, Timed;
  }

  lemma PopKeeps(q: Queries, n: NodeRef, retries: nat)
    requires n in q.armed && QueriesInv(q, retries)
    ensures QueriesInv(TimerPopped(q, n), retries)
  {
    PopTimers(q, n);
    TimedKeeps(q, q.armed - {n}, q.popped + multiset{n}, retries);
  }

  lemma PopTimers(q: Queries, n: NodeRef)
    requires n in q.armed && TimersAgree(q)
    ensures TimersAgree(Timed(q, q.armed - {n}, q.popped + multiset{n}))
  {
  }

  // An on_timeout that has got the mutex is no longer outstanding.
  lemma PoppedDone(q: Queries, n: NodeRef, retries: nat)
    requires QueriesInv(q, retries) && (IsPending(q, n) ==> n in q.armed)
    ensures QueriesInv(Timed(q, q.armed, q.popped - multiset{n}), retries)
  {
    PoppedTimers(q, n);
    TimedKeeps(q, q.armed, q.popped - multiset{n}, retries);
  }

  lemma PoppedTimers(q: Queries, n: NodeRef)
    requires TimersAgree(q) && (IsPending(q, n) ==> n in q.armed)
    ensures TimersAgree(Timed(q, q.armed, q.popped - multiset{n}))
  {
  }

  lemma DisarmKeeps(q: Queries, n: NodeRef, retries: nat)
    requires QueriesInv(q, retries) && !IsPending(q, n)
    ensures QueriesInv(Timed(q, q.armed - {n}, q.popped), retries)
  {
    DisarmTimers(q, n);
    TimedKeeps(q, q.armed - {n}, q.popped, retries);
  }

  lemma DisarmTimers(q: Queries, n: NodeRef)
    requires TimersAgree(q) && !IsPending(q, n)
    ensures TimersAgree(Timed(q, q.armed - {n}, q.popped))
  {
  }

  // ----- completing -----

  lemma RemoveTables(q: Queries, n: NodeRef)
    requires n in q.nodes && IsPending(q, n) && TablesAgree(q)
    ensures TablesAgree(Removed(q, n))
  {
  }

  lemma RemovePlaces(q: Queries, n: NodeRef)
    requires n in q.nodes && IsPending(q, n) && PlacesAgree(q) && FreeAgree(q)
    ensures var r := Removed(q, n); PlacesAgree(r) && FreeAgree(r)
  {
    hide Distinct;
  }

  lemma RemoveTimers(q: Queries, n: NodeRef, retries: nat)
    requires n in q.nodes && IsPending(q, n) && TimersAgree(q) && TransmitsBounded(q, retries)
    ensures var r := Removed(q, n); TimersAgree(r) && TransmitsBounded(r, retries)
  {
    hide Max;
  }

  lemma RemoveFamilies(q: Queries, n: NodeRef)
    requires n in q.nodes && IsPending(q, n) && ChildrenAgree(q) && CallsAgree(q)
    ensures var r := Removed(q, n); ChildrenAgree(r) && CallsAgree(r)
  {
    hide Distinct;
  }

  lemma RemoveFates(q: Queries, n: NodeRef)
    requires n in q.nodes && IsPending(q, n) && PlacesAgree(q) && ChildrenAgree(q) && FatesAgree(q) && NotifiedOnce(q)
    ensures var r := Removed(q, n); FatesAgree(r) && NotifiedOnce(r)
  {
    hide Distinct;
    var r := Removed(q, n);
    forall m ensures Unnotified(r, m) == Unnotified(q, m) { hide FatesAgree, NotifiedOnce; }
    hide Unnotified, ChildrenAgree, PlacesAgree;
  }

  lemma RemoveKeeps(q: Queries, n: NodeRef, retries: nat)
    requires n in q.nodes && IsPending(q, n) && QueriesInv(q, retries)
    ensures QueriesInv(Removed(q, n), retries) && !IsPending(Removed(q, n), n)
  {
    RemoveTables(q, n);
    RemovePlaces(q, n);
    RemoveTimers(q, n, retries);
    RemoveFamilies(q, n);
    RemoveFates(q, n);
    hide TablesAgree, PlacesAgree, FreeAgree, ChildrenAgree, TimersAgree, CallsAgree, FatesAgree, NotifiedOnce, TransmitsBounded;
  }

  // ----- calling back -----

  lemma FamilyDistinct(q: Queries, n: NodeRef)
    requires n in q.nodes && n in q.place && q.place[n] == Notifying && ChildrenAgree(q)
    ensures Distinct(Family(q, n))
    ensures forall m :: m in Family(q, n) ==> m in q.place && (m == n || q.place[m] == ChildOf(n))
  {
    var cs := q.nodes[n].children;
    assert IsRoot(q, n);
    assert forall i :: 0 <= i < |cs| ==> cs[i] in cs;
  }

  lemma SuffixDistinct(s: seq<NodeRef>, k: nat)
    requires Distinct(s) && k <= |s|
    ensures Distinct(s[k..]) && forall m :: m in s[k..] ==> m in s
  {
  }

  ghost predicate CanCall(q: Queries, n: NodeRef) {
    n in q.notifying && q.notifying[n] != [] && q.notifying[n][0] in q.nodes && n in q.nodes && n in q.place
  }

  // The nodes still to be called are distinct members of the family.
  lemma CallsDistinct(q: Queries, n: NodeRef)
    requires CanCall(q, n) && PlacesAgree(q) && ChildrenAgree(q) && CallsAgree(q)
    ensures Distinct(q.notifying[n])
    ensures forall m :: m in q.notifying[n] ==> m in q.place && (m == n || q.place[m] == ChildOf(n))
    ensures q.place[n] == Notifying
  {
    FamilyDistinct(q, n);
    var s := Family(q, n);
    SuffixDistinct(s, |s| - |q.notifying[n]|);
    hide ChildrenAgree, Distinct, Family;
  }

  lemma CallTables(q: Queries, n: NodeRef)
    requires CanCall(q, n) && TablesAgree(q) && PlacesAgree(q) && FreeAgree(q)
    ensures var r := NextCalled(q, n); TablesAgree(r) && PlacesAgree(r) && FreeAgree(r)
  {
    hide Distinct;
  }

  lemma CallRest(q: Queries, n: NodeRef, retries: nat)
    requires CanCall(q, n) && ChildrenAgree(q) && TimersAgree(q) && TransmitsBounded(q, retries)
    ensures var r := NextCalled(q, n); ChildrenAgree(r) && TimersAgree(r) && TransmitsBounded(r, retries)
  {
    hide Distinct, Max;
  }

  // A callback changes nothing but what is still to be called.
  lemma CallChanges(q: Queries, n: NodeRef)
    requires CanCall(q, n)
    ensures var r := NextCalled(q, n);
            r.nodes == q.nodes && r.place == q.place && r.notifying == q.notifying[n := q.notifying[n][1..]]
  {
  }

  lemma CallCalls(q: Queries, n: NodeRef)
    requires CanCall(q, n) && CallsAgree(q)
    ensures CallsAgree(NextCalled(q, n))
  {
    CallChanges(q, n);
    TailOfTail(q.notifying[n], Family(q, n));
    hide NextCalled, IsTail;
    var r := NextCalled(q, n);
    forall m | m in r.notifying ensures m in r.nodes && IsTail(r.notifying[m], Family(r, m)) {
      assert m in q.notifying && Family(r, m) == Family(q, m);
    }
  }

  lemma TailOfTail(s: seq<NodeRef>, all: seq<NodeRef>)
    requires IsTail(s, all) && s != []
    ensures IsTail(s[1..], all)
  {
    var k := |all| - |s|;
    assert all[k..][1..] == all[k + 1..];
  }

  lemma RestUnnotified(q: Queries, r: Queries, n: NodeRef, m: NodeRef)
    requires n in q.notifying && n in q.place && q.place[n] == Notifying && q.notifying[n] != []
    requires r.place == q.place && r.notifying == q.notifying[n := q.notifying[n][1..]]
    requires forall x :: x in q.notifying[n] ==> x in q.place && (x == n || q.place[x] == ChildOf(n))
    requires forall x :: x in q.notifying[n][1..] <==> x in q.notifying[n] && x != q.notifying[n][0]
    ensures Unnotified(r, m) <==> Unnotified(q, m) && m != q.notifying[n][0]
  {
    assert q.notifying[n][0] in q.notifying[n];
  }

  lemma CallUnnotified(q: Queries, n: NodeRef, m: NodeRef)
    requires CanCall(q, n) && PlacesAgree(q) && ChildrenAgree(q) && CallsAgree(q)
    ensures Unnotified(q, q.notifying[n][0])
    ensures Unnotified(NextCalled(q, n), m) <==> Unnotified(q, m) && m != q.notifying[n][0]
  {
    CallsDistinct(q, n);
    TailMembers(q.notifying[n]);
    CallChanges(q, n);
    hide PlacesAgree, ChildrenAgree, CallsAgree, Distinct, NextCalled;
    RestUnnotified(q, NextCalled(q, n), n, m);
    assert q.notifying[n][0] in q.notifying[n];
  }

  lemma CallFates(q: Queries, n: NodeRef)
    requires CanCall(q, n) && PlacesAgree(q) && ChildrenAgree(q) && CallsAgree(q) && FatesAgree(q) && NotifiedOnce(q)
    ensures var r := NextCalled(q, n); FatesAgree(r) && NotifiedOnce(r)
  {
    hide ChildrenAgree, CallsAgree, Distinct, Unnotified, PlacesAgree;
    var r, first := NextCalled(q, n), q.notifying[n][0];
    forall m ensures Unnotified(r, m) <==> Unnotified(q, m) && m != first { CallUnnotified(q, n, m); }
    CallUnnotified(q, n, first);
  }

  lemma CallKeeps(q: Queries, n: NodeRef, retries: nat)
    requires CanCall(q, n) && QueriesInv(q, retries)
    ensures QueriesInv(NextCalled(q, n), retries)
  {
    CallTables(q, n);
    CallRest(q, n, retries);
    CallCalls(q, n);
    CallFates(q, n);
    hide TablesAgree, PlacesAgree, FreeAgree, ChildrenAgree, TimersAgree, CallsAgree, FatesAgree, NotifiedOnce, TransmitsBounded, NextCalled, CanCall;
  }

  // ----- recycling -----

  ghost predicate CanRecycle(q: Queries, n: NodeRef) {
    n in q.notifying && q.notifying[n] == [] && n in q.nodes && n in q.place && q.place[n] == Notifying
  }

  lemma RecycledMembers(q: Queries, n: NodeRef)
    requires CanRecycle(q, n) && ChildrenAgree(q)
    ensures var ns := q.nodes[n].children + [n];
            && Distinct(ns)
            && forall m :: m in ns <==> m in q.place && (m == n || q.place[m] == ChildOf(n))
  {
    FamilyDistinct(q, n);
    var cs := q.nodes[n].children;
    assert forall m :: m in cs + [n] <==> m in Family(q, n);
    assert IsRoot(q, n) && n !in cs by { assert q.place[n] != ChildOf(n); }
    AppendMembers(cs, n);
    hide Distinct;
  }

  lemma ConcatDistinct(a: seq<NodeRef>, b: seq<NodeRef>)
    requires Distinct(a) && Distinct(b) && forall m :: m in a ==> m !in b
    ensures Distinct(a + b) && forall m :: m in a + b <==> m in a || m in b
  {
    forall i, j | 0 <= i < j < |a + b| ensures (a + b)[i] != (a + b)[j] {
      if i < |a| <= j { assert a[i] in a && b[j - |a|] in b; }
    }
  }

  lemma RecyclePlaces(q: Queries, n: NodeRef)
    requires CanRecycle(q, n) && ChildrenAgree(q) && PlacesAgree(q) && FreeAgree(q)
    ensures var r := Recycled(q, n); PlacesAgree(r) && FreeAgree(r)
  {
    RecycledMembers(q, n);
    ConcatDistinct(q.free, q.nodes[n].children + [n]);
    hide Distinct, ChildrenAgree;
  }

  lemma RecycleTables(q: Queries, n: NodeRef)
    requires CanRecycle(q, n) && ChildrenAgree(q) && TablesAgree(q)
    ensures TablesAgree(Recycled(q, n))
  {
    RecycledMembers(q, n);
    hide Distinct, ChildrenAgree;
  }

  lemma RecycleChildren(q: Queries, n: NodeRef)
    requires CanRecycle(q, n) && ChildrenAgree(q)
    ensures ChildrenAgree(Recycled(q, n))
  {
    RecycledMembers(q, n);
    hide Distinct;
  }

  lemma RecycleRest(q: Queries, n: NodeRef, retries: nat)
    requires CanRecycle(q, n) && ChildrenAgree(q) && TimersAgree(q) && TransmitsBounded(q, retries) && CallsAgree(q)
    ensures var r := Recycled(q, n); TimersAgree(r) && TransmitsBounded(r, retries) && CallsAgree(r)
  {
    RecycledMembers(q, n);
    hide Distinct, ChildrenAgree, Max;
  }

  lemma RecycleFates(q: Queries, n: NodeRef)
    requires CanRecycle(q, n) && ChildrenAgree(q) && FatesAgree(q) && NotifiedOnce(q)
    ensures var r := Recycled(q, n); FatesAgree(r) && NotifiedOnce(r)
  {
    RecycledMembers(q, n);
    var r := Recycled(q, n);
    hide Distinct, ChildrenAgree;
    forall m ensures Unnotified(r, m) == Unnotified(q, m) { hide FatesAgree, NotifiedOnce; }
    hide Unnotified;
  }

  lemma RecycleKeeps(q: Queries, n: NodeRef, retries: nat)
    requires CanRecycle(q, n) && QueriesInv(q, retries)
    ensures QueriesInv(Recycled(q, n), retries)
  {
    RecycleTables(q, n);
    RecyclePlaces(q, n);
    RecycleChildren(q, n);
    RecycleRest(q, n, retries);
    RecycleFates(q, n);
    hide TablesAgree, PlacesAgree, FreeAgree, ChildrenAgree, TimersAgree, CallsAgree, FatesAgree, NotifiedOnce, TransmitsBounded, Recycled, CanRecycle;
  }
}
