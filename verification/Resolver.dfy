/** The DNS resolver as a protocol of steps taken with the mutex held (resolver.c), under any interleaving
    of queries, responses, timeouts and cancellations. */
module Resolver {
  import opened Bytes
  import opened Wrappers
  import opened DnsPacket
  import opened DnsCopy
  import opened ResolverCache
  import opened ResolverQueries
  import opened ResolverTable

  datatype Settings = Settings(retries: nat, maxTtl: uint32)

  // callers: the callback of each start_query that found a cached response, until it has been called.
  // answers: the status of each response whose callbacks are being called.
  datatype State = State(queries: Queries, cache: Cache, callers: map<Thread, Option<Token>>, answers: map<NodeRef, int>)

  const INITIAL_QUERIES := Queries(map[], 0, [], map[], map[], 1, {}, multiset{}, map[], map[], map[], multiset{})

  function Initial(): State {
    State(INITIAL_QUERIES, Cache(map[], map[], 0, map[], map[]), map[], map[])
  }

  datatype Step =
    | BeginHit(key: Key, now: int, cb: Option<Token>, thread: Thread)
    | CallHit(thread: Thread)
    | EndHit(thread: Thread)
    | Start(key: Key, now: int, cb: Option<Token>, attempt: Attempt)
    | Cancel(node: NodeRef, notify: bool)
    | PopTimer(node: NodeRef)
    | Timeout(node: NodeRef, attempt: Attempt)
    | Respond(id: uint16, status: int)
    | CallBack(node: NodeRef)
    | FinishTimeout(node: NodeRef)
    | FinishResponse(node: NodeRef, packet: Packet, now: int)
    | AddEntry(key: Key, packet: Packet, setTtl: bool, now: int)

  // What has happened so far allows the step, and the callers keep to what is asked of them.
  ghost predicate Enabled(s: State, step: Step) {
    match step
    case BeginHit(key, now, cb, h) => Found(s.cache, key, now) && h !in s.cache.hits && NewToken(s.queries, cb)
    case CallHit(h) => h in s.callers && s.callers[h].Some?
    case EndHit(h) => h in s.callers && h in s.cache.hits && s.callers[h] == None
    case Start(key, now, cb, _) =>
      !Found(s.cache, key, now) && NewToken(s.queries, cb) && (key !in s.queries.byKey ==> IdUnused(s.queries))
    case Cancel(n, _) => MayCancel(s.queries, n)
    case PopTimer(n) => n in s.queries.armed
    case Timeout(n, _) => n in s.queries.popped
    case Respond(id, _) => id in s.queries.byId
    case CallBack(n) => n in s.queries.notifying && s.queries.notifying[n] != []
    case FinishTimeout(n) => n in s.queries.notifying && s.queries.notifying[n] == [] && n !in s.answers
    case FinishResponse(n, _, _) => n in s.queries.notifying && s.queries.notifying[n] == [] && n in s.answers
    case AddEntry(_, _, _, _) => true
  }

  // The step refers only to nodes that exist and to cache entries that have not been released.
  predicate Safe(s: State, step: Step) {
    match step
    case BeginHit(key, _, _, h) => key in s.cache.table && s.cache.table[key] in s.cache.entries && h !in s.cache.hits
    case CallHit(h) => h in s.callers
    case EndHit(h) => Endable(s.cache, h) && h in s.callers
    case Start(key, _, _, _) =>
      Discardable(s.cache, key) && (key in s.queries.byKey ==> s.queries.byKey[key] in s.queries.nodes)
    case Cancel(n, _) => n in s.queries.nodes && s.queries.nodes[n].cb.Some?
    case PopTimer(_) => true
    case Timeout(n, _) => n in s.queries.nodes
    case Respond(id, _) => id in s.queries.byId && s.queries.byId[id] in s.queries.nodes
    case CallBack(n) =>
      n in s.queries.notifying && s.queries.notifying[n] != [] && s.queries.notifying[n][0] in s.queries.nodes
    case FinishTimeout(n) => n in s.queries.nodes
    case FinishResponse(n, _, _) =>
      n in s.queries.nodes && n in s.answers && Discardable(s.cache, s.queries.nodes[n].key)
    case AddEntry(key, _, _, _) => Discardable(s.cache, key)
  }

  function Used(q: Queries, cb: Option<Token>, h: Thread): Queries {
    if cb.Some? then q.(fate := q.fate[cb.value := Using(h)]) else q
  }

  function Started(q: Queries, key: Key, cb: Option<Token>, attempt: Attempt): Queries
    requires key in q.byKey ==> q.byKey[key] in q.nodes
  {
    if key in q.byKey then ChildAdded(q, key, cb)
    else if Transmits(q, NextNode(q), attempt) then QueryStarted(q, key, cb)
    else QueryFailed(q, key, cb)
  }

  function Next(s: State, step: Step, st: Settings): State
    requires Safe(s, step)
  {
    match step
    case BeginHit(key, _, cb, h) =>
      s.(cache := Begun(s.cache, key, h), callers := s.callers[h := cb], queries := Used(s.queries, cb, h))
    case CallHit(h) => s.(callers := s.callers[h := None], queries := Called(s.queries, s.callers[h]))
    case EndHit(h) => s.(cache := Ended(s.cache, h), callers := s.callers - {h})
    case Start(key, _, cb, attempt) =>
      s.(cache := Discarded(s.cache, key), queries := Started(s.queries, key, cb, attempt))
    case Cancel(n, notify) => s.(queries := Cancelled(s.queries, n, notify))
    case PopTimer(n) => s.(queries := TimerPopped(s.queries, n))
    case Timeout(n, attempt) => s.(queries := TimedOut(s.queries, n, attempt, st.retries))
    case Respond(id, status) =>
      s.(queries := Answered(s.queries, id), answers := s.answers[s.queries.byId[id] := status])
    case CallBack(n) => s.(queries := NextCalled(s.queries, n))
    case FinishTimeout(n) => s.(queries := Recycled(s.queries, n))
    case FinishResponse(n, p, now) =>
      s.(cache := Updated(s.cache, s.queries.nodes[n].key, s.answers[n], true, p, now, st.maxTtl),
         queries := Recycled(s.queries, n),
         answers := s.answers - {n})
    case AddEntry(key, p, setTtl, now) => s.(cache := Updated(s.cache, key, 0, setTtl, p, now, st.maxTtl))
  }

  // ----- the invariant -----

  // The callbacks of hits that are still to be called.
  ghost predicate CallersAgree(s: State) {
    && s.callers.Keys == s.cache.hits.Keys
    && (forall h :: h in s.callers && s.callers[h].Some? ==>
          s.callers[h].value in s.queries.fate && s.queries.fate[s.callers[h].value] == Using(h))
    && (forall t :: t in s.queries.fate && s.queries.fate[t].Using? ==>
          s.queries.fate[t].thread in s.callers && s.callers[s.queries.fate[t].thread] == Some(t))
  }

  ghost predicate StateInv(s: State, st: Settings) {
    Good(s.queries, st.retries) && CacheInv(s.cache) && CallersAgree(s)
  }

  // What became of a callback: nothing is forgotten, and what is settled stays settled.
  ghost predicate FatesMove(q: Queries, r: Queries) {
    && (forall t :: t in q.fate ==> t in r.fate && (!q.fate[t].Waiting? ==> r.fate[t] == q.fate[t]))
    && (forall t :: t in r.fate && r.fate[t].Using? ==> t in q.fate && q.fate[t] == r.fate[t])
  }

  lemma ChildMoves(q: Queries, key: Key, cb: Option<Token>)
    requires key in q.byKey && q.byKey[key] in q.nodes && NewToken(q, cb)
    ensures FatesMove(q, ChildAdded(q, key, cb))
  {
    hide NextNode;
  }

  lemma StartMoves(q: Queries, key: Key, cb: Option<Token>)
    requires NewToken(q, cb)
    ensures FatesMove(q, QueryStarted(q, key, cb)) && FatesMove(q, QueryFailed(q, key, cb))
  {
    hide NextNode, NextId;
  }

  lemma WaitingFate(q: Queries, n: NodeRef, retries: nat)
    requires QueriesInv(q, retries) && n in q.nodes && Unnotified(q, n) && q.nodes[n].cb.Some?
    ensures q.nodes[n].cb.value in q.fate && q.fate[q.nodes[n].cb.value] == Waiting(n)
  {
    hide TablesAgree, PlacesAgree, FreeAgree, ChildrenAgree, TimersAgree, TransmitsBounded, CallsAgree, NotifiedOnce, Unnotified;
  }

  lemma CancelMoves(q: Queries, n: NodeRef, notify: bool, retries: nat)
    requires QueriesInv(q, retries) && MayCancel(q, n)
    ensures FatesMove(q, Cancelled(q, n, notify))
  {
    hide QueriesInv;
    assert Unnotified(q, n);
    WaitingFate(q, n, retries);
  }

  lemma CallMoves(q: Queries, n: NodeRef, retries: nat)
    requires QueriesInv(q, retries) && CanCall(q, n)
    ensures FatesMove(q, NextCalled(q, n))
  {
    hide QueriesInv, Unnotified;
    FirstUnnotified(q, n, retries);
    var first := q.notifying[n][0];
    if q.nodes[first].cb.Some? { WaitingFate(q, first, retries); }
  }

  lemma FirstUnnotified(q: Queries, n: NodeRef, retries: nat)
    requires QueriesInv(q, retries) && CanCall(q, n)
    ensures Unnotified(q, q.notifying[n][0])
  {
    CallUnnotified(q, n, n);
    hide *;
  }

  lemma StillCallers(s: State, q: Queries)
    requires CallersAgree(s) && FatesMove(s.queries, q)
    ensures CallersAgree(s.(queries := q))
  {
  }

  // ----- hits -----

  lemma UsedKeeps(q: Queries, cb: Option<Token>, h: Thread, retries: nat)
    requires Good(q, retries) && NewToken(q, cb)
    ensures Good(Used(q, cb, h), retries)
  {
    if cb.Some? { FateKeeps(q, q.fate[cb.value := Using(h)], q.notified, retries); }
  }

  // A callback that waits at no node is settled otherwise.
  lemma FateKeeps(q: Queries, fate: map<Token, Fate>, notified: multiset<Token>, retries: nat)
    requires Good(q, retries)
    requires forall t :: t in q.fate ==> t in fate && (q.fate[t].Waiting? ==> fate[t] == q.fate[t])
    requires forall t :: t in fate && fate[t].Waiting? ==> t in q.fate && fate[t] == q.fate[t]
    requires forall t :: notified[t] == if t in fate && fate[t] == Notified then 1 else 0
    ensures Good(q.(fate := fate, notified := notified), retries)
  {
    var r := q.(fate := fate, notified := notified);
    FateTables(q, r);
    FateFamilies(q, r, retries);
    FateFates(q, r);
    hide TablesAgree, PlacesAgree, FreeAgree, ChildrenAgree, TimersAgree, TransmitsBounded, CallsAgree, FatesAgree;
  }

  lemma FateTables(q: Queries, r: Queries)
    requires r == q.(fate := r.fate, notified := r.notified)
    requires TablesAgree(q) && PlacesAgree(q) && FreeAgree(q)
    ensures TablesAgree(r) && PlacesAgree(r) && FreeAgree(r)
  {
    hide Distinct;
  }

  lemma FateFamilies(q: Queries, r: Queries, retries: nat)
    requires r == q.(fate := r.fate, notified := r.notified)
    requires ChildrenAgree(q) && TimersAgree(q) && TransmitsBounded(q, retries) && CallsAgree(q)
    ensures ChildrenAgree(r) && TimersAgree(r) && TransmitsBounded(r, retries) && CallsAgree(r)
  {
    hide Distinct, Max, IsTail;
  }

  lemma FateFates(q: Queries, r: Queries)
    requires r == q.(fate := r.fate, notified := r.notified) && FatesAgree(q)
    requires forall t :: t in q.fate ==> t in r.fate && (q.fate[t].Waiting? ==> r.fate[t] == q.fate[t])
    requires forall t :: t in r.fate && r.fate[t].Waiting? ==> t in q.fate && r.fate[t] == q.fate[t]
    ensures FatesAgree(r)
  {
    forall n ensures Unnotified(r, n) == Unnotified(q, n) { hide FatesAgree; }
    hide Unnotified;
  }

  lemma CalledKeeps(q: Queries, cb: Option<Token>, retries: nat)
    requires Good(q, retries) && (cb.Some? ==> cb.value in q.fate && q.fate[cb.value].Using?)
    ensures Good(Called(q, cb), retries)
  {
    hide Good, QueriesInv;
    if cb.Some? {
      Once(q, retries);
      FateKeeps(q, q.fate[cb.value := Notified], q.notified + multiset{cb.value}, retries);
    }
  }

  lemma Once(q: Queries, retries: nat)
    requires Good(q, retries)
    ensures NotifiedOnce(q)
  {
    hide TablesAgree, PlacesAgree, FreeAgree, ChildrenAgree, TimersAgree, TransmitsBounded, CallsAgree, FatesAgree, NotifiedOnce;
  }

  // ----- every step -----

  // In every reachable state an enabled step is safe: no released entry is used.
  lemma EnabledIsSafe(s: State, step: Step, st: Settings)
    requires StateInv(s, st) && Enabled(s, step)
    ensures Safe(s, step)
  {
    hide CacheInv, QueriesInv, NoneDetached, IdUnused, Found;
    var q := s.queries;
    match step
    case BeginHit(key, now, _, _) => FoundIsLive(s.cache, key, now);
    case CallHit(_) =>
    case EndHit(h) => EndKeeps(s.cache, h);
    case Start(key, _, _, _) =>
      DiscardKeeps(s.cache, key);
      if key in q.byKey { PendingByKey(q, key, st.retries); }
    case Cancel(_, _) =>
    case PopTimer(_) =>
    case Timeout(n, _) => TimerOwner(q, n, st.retries);
    case Respond(id, _) => AnswerKeeps(q, id, st.retries);
    case CallBack(n) => CallReady(q, n, st.retries);
    case FinishTimeout(n) => RecycleReady(q, n, st.retries);
    case FinishResponse(n, _, _) =>
      RecycleReady(q, n, st.retries);
      DiscardKeeps(s.cache, q.nodes[n].key);
    case AddEntry(key, _, _, _) => DiscardKeeps(s.cache, key);
  }

  lemma FoundIsLive(c: Cache, key: Key, now: int)
    requires Found(c, key, now)
    ensures key in c.table && c.table[key] in c.entries
  {
  }

  lemma HitCallers(s: State, key: Key, cb: Option<Token>, h: Thread)
    requires CallersAgree(s) && Safe(s, BeginHit(key, 0, cb, h)) && NewToken(s.queries, cb)
    ensures CallersAgree(State(Used(s.queries, cb, h), Begun(s.cache, key, h), s.callers[h := cb], s.answers))
  {
    var c := Begun(s.cache, key, h);
    assert c.hits.Keys == s.cache.hits.Keys + {h};
    hide Begun, Found;
  }

  lemma HitKeeps(s: State, key: Key, cb: Option<Token>, h: Thread, st: Settings)
    requires StateInv(s, st) && Safe(s, BeginHit(key, 0, cb, h)) && NewToken(s.queries, cb)
    ensures StateInv(Next(s, BeginHit(key, 0, cb, h), st), st)
  {
    hide CacheInv, Good, CallersAgree, Used, Begun, NewToken;
    BeginKeeps(s.cache, key, h);
    UsedKeeps(s.queries, cb, h, st.retries);
    HitCallers(s, key, cb, h);
  }

  lemma CallHitCallers(s: State, h: Thread)
    requires CallersAgree(s) && h in s.callers
    ensures CallersAgree(s.(callers := s.callers[h := None], queries := Called(s.queries, s.callers[h])))
  {
  }

  lemma CallerUses(s: State, h: Thread)
    requires CallersAgree(s) && h in s.callers
    ensures s.callers[h].Some? ==>
              s.callers[h].value in s.queries.fate && s.queries.fate[s.callers[h].value].Using?
  {
  }

  lemma CallHitKeeps(s: State, h: Thread, st: Settings)
    requires StateInv(s, st) && h in s.callers
    ensures StateInv(Next(s, CallHit(h), st), st)
  {
    hide CacheInv, Good, CallersAgree, Called;
    CallerUses(s, h);
    CalledKeeps(s.queries, s.callers[h], st.retries);
    CallHitCallers(s, h);
  }

  lemma EndHitCallers(s: State, h: Thread)
    requires CallersAgree(s) && Endable(s.cache, h) && h in s.callers && s.callers[h] == None
    ensures CallersAgree(s.(cache := Ended(s.cache, h), callers := s.callers - {h}))
  {
    assert Ended(s.cache, h).hits.Keys == s.cache.hits.Keys - {h};
    hide Ended, Endable;
  }

  lemma EndHitKeeps(s: State, h: Thread, st: Settings)
    requires StateInv(s, st) && Safe(s, EndHit(h)) && s.callers[h] == None
    ensures StateInv(Next(s, EndHit(h), st), st)
  {
    hide CacheInv, Good, CallersAgree, Ended;
    EndKeeps(s.cache, h);
    EndHitCallers(s, h);
  }

  // The steps that only concern the queries.
  lemma QueriesStepKeeps(s: State, q: Queries, st: Settings)
    requires StateInv(s, st) && Good(q, st.retries) && FatesMove(s.queries, q)
    ensures StateInv(s.(queries := q), st)
  {
    StillCallers(s, q);
    hide CacheInv, Good, CallersAgree;
  }

  lemma StartStepKeeps(s: State, key: Key, cb: Option<Token>, attempt: Attempt, st: Settings)
    requires StateInv(s, st) && Safe(s, Start(key, 0, cb, attempt)) && NewToken(s.queries, cb)
    requires key !in s.queries.byKey ==> IdUnused(s.queries)
    ensures StateInv(Next(s, Start(key, 0, cb, attempt), st), st)
  {
    hide CacheInv, Good, IdUnused, ChildAdded, QueryStarted, QueryFailed, FatesMove;
    var q, r := s.queries, Started(s.queries, key, cb, attempt);
    if key in q.byKey {
      ChildKeeps(q, key, cb, st.retries);
      ChildMoves(q, key, cb);
    } else {
      StartMoves(q, key, cb);
      if Transmits(q, NextNode(q), attempt) { StartedKeeps(q, key, cb, st.retries); }
      else { FailedKeeps(q, key, cb, st.retries); }
    }
    QueriesStepKeeps(s, r, st);
    DiscardKeeps(s.cache, key);
    SameHits(s.cache, key);
  }

  lemma SameHits(c: Cache, key: Key)
    requires Discardable(c, key)
    ensures Discarded(c, key).hits == c.hits
  {
  }

  lemma SameFates(q: Queries, r: Queries)
    requires q.fate == r.fate
    ensures FatesMove(q, r)
  {
  }

  // Every step keeps the invariant.
  lemma NextKeeps(s: State, step: Step, st: Settings)
    requires StateInv(s, st) && Enabled(s, step) && Safe(s, step)
    ensures StateInv(Next(s, step, st), st)
  {
    hide CacheInv, QueriesInv, NoneDetached, CallersAgree, IdUnused, Found, FatesMove, Discarded, Begun, Ended, Updated,
         TimedOut, Answered, Cancelled, TimerPopped, Recycled, NextCalled, Used, Called, Started;
    var q := s.queries;
    match step
    case BeginHit(key, _, cb, h) => HitKeeps(s, key, cb, h, st);
    case CallHit(h) => CallHitKeeps(s, h, st);
    case EndHit(h) => EndHitKeeps(s, h, st);
    case Start(key, _, cb, attempt) => StartStepKeeps(s, key, cb, attempt, st);
    case Cancel(n, notify) =>
      CancelKeeps(q, n, notify, st.retries);
      CancelMoves(q, n, notify, st.retries);
      SamePlaces(q, n, notify);
      QueriesStepKeeps(s, Cancelled(q, n, notify), st);
    case PopTimer(n) => PopStepKeeps(s, n, st);
    case Timeout(n, attempt) =>
      TimeoutKeeps(q, n, attempt, st.retries);
      TimeoutMoves(q, n, attempt, st.retries);
      QueriesStepKeeps(s, TimedOut(q, n, attempt, st.retries), st);
    case Respond(id, status) =>
      RespondStepKeeps(s, id, st);
      AnswersAside(s.(queries := Answered(q, id)), s.answers[q.byId[id] := status], st);
    case CallBack(n) =>
      CallingKeeps(q, n, st.retries);
      CallMoves(q, n, st.retries);
      QueriesStepKeeps(s, NextCalled(q, n), st);
    case FinishTimeout(n) => FinishKeeps(s, n, st);
    case FinishResponse(n, p, now) =>
      FinishKeeps(s, n, st);
      var r := s.(queries := Recycled(q, n));
      UpdateStepKeeps(r, q.nodes[n].key, s.answers[n], true, p, now, st);
      AnswersAside(r.(cache := Updated(s.cache, q.nodes[n].key, s.answers[n], true, p, now, st.maxTtl)), s.answers - {n}, st);
    case AddEntry(key, p, setTtl, now) => UpdateStepKeeps(s, key, 0, setTtl, p, now, st);
  }

  lemma AnswersAside(s: State, answers: map<NodeRef, int>, st: Settings)
    requires StateInv(s, st)
    ensures StateInv(s.(answers := answers), st)
  {
    hide Good, CacheInv;
  }

  lemma SamePlaces(q: Queries, n: NodeRef, notify: bool)
    requires n in q.nodes && q.nodes[n].cb.Some?
    ensures NoneDetached(q) ==> NoneDetached(Cancelled(q, n, notify))
  {
  }

  lemma PopStepKeeps(s: State, n: NodeRef, st: Settings)
    requires StateInv(s, st) && n in s.queries.armed
    ensures StateInv(s.(queries := TimerPopped(s.queries, n)), st)
  {
    hide QueriesInv, CacheInv, CallersAgree;
    PopKeeps(s.queries, n, st.retries);
    SameFates(s.queries, TimerPopped(s.queries, n));
    QueriesStepKeeps(s, TimerPopped(s.queries, n), st);
  }

  lemma TimeoutMoves(q: Queries, n: NodeRef, attempt: Attempt, retries: nat)
    requires n in q.nodes
    ensures FatesMove(q, TimedOut(q, n, attempt, retries))
  {
    SameFates(q, TimedOut(q, n, attempt, retries));
  }

  lemma RespondStepKeeps(s: State, id: uint16, st: Settings)
    requires StateInv(s, st) && id in s.queries.byId && s.queries.byId[id] in s.queries.nodes
    ensures StateInv(s.(queries := Answered(s.queries, id)), st)
  {
    hide Good, CacheInv, CallersAgree;
    AnswerKeeps(s.queries, id, st.retries);
    SameFates(s.queries, Answered(s.queries, id));
    QueriesStepKeeps(s, Answered(s.queries, id), st);
  }

  lemma FinishKeeps(s: State, n: NodeRef, st: Settings)
    requires StateInv(s, st) && n in s.queries.notifying && s.queries.notifying[n] == [] && n in s.queries.nodes
    ensures StateInv(s.(queries := Recycled(s.queries, n)), st)
  {
    hide Good, CacheInv, CallersAgree;
    RecyclingKeeps(s.queries, n, st.retries);
    SameFates(s.queries, Recycled(s.queries, n));
    QueriesStepKeeps(s, Recycled(s.queries, n), st);
  }

  lemma UpdateStepKeeps(s: State, key: Key, status: int, setExpiry: bool, p: Packet, now: int, st: Settings)
    requires StateInv(s, st) && Discardable(s.cache, key)
    ensures StateInv(s.(cache := Updated(s.cache, key, status, setExpiry, p, now, st.maxTtl)), st)
  {
    hide CacheInv, Good, Updated, CacheTtl, Stamp, Discardable;
    UpdateKeeps(s.cache, key, status, setExpiry, p, now, st.maxTtl);
  }

  // ----- runs -----

  // The steps lead from s to t.
  ghost predicate Runs(s: State, steps: seq<Step>, t: State, st: Settings)
    decreases |steps|
  {
    if steps == [] then t == s
    else Enabled(s, steps[0]) && Safe(s, steps[0]) && Runs(Next(s, steps[0], st), steps[1..], t, st)
  }

  lemma InitialHolds(st: Settings)
    ensures StateInv(Initial(), st)
  {
    assert Users(map[], 0) == {};
  }

  lemma {:induction false} RunKeeps(s: State, steps: seq<Step>, t: State, st: Settings)
    requires StateInv(s, st) && Runs(s, steps, t, st)
    ensures StateInv(t, st)
    decreases |steps|
  {
    hide StateInv, Enabled, Safe, Next;
    if steps != [] {
      NextKeeps(s, steps[0], st);
      RunKeeps(Next(s, steps[0], st), steps[1..], t, st);
    }
  }

  // After any run: no callback has been called twice, and one that has been called is not waiting.
  lemma NeverTwice(steps: seq<Step>, s: State, st: Settings, token: Token)
    requires Runs(Initial(), steps, s, st)
    ensures s.queries.notified[token] <= 1
    ensures s.queries.notified[token] == 1 <==> token in s.queries.fate && s.queries.fate[token] == Notified
  {
    hide Runs, StateInv;
    InitialHolds(st);
    RunKeeps(Initial(), steps, s, st);
    assert NotifiedOnce(s.queries) by { InvOnce(s, st); }
  }

  lemma InvOnce(s: State, st: Settings)
    requires StateInv(s, st)
    ensures NotifiedOnce(s.queries)
  {
    hide CacheInv, CallersAgree, Good;
    Once(s.queries, st.retries);
  }

  // Nothing is pending, being completed, or being answered from the cache.
  predicate Quiet(s: State) {
    s.queries.byId.Values == {} && s.queries.notifying.Keys == {} && s.callers.Keys == {}
  }

  // Once everything has come to rest, every query that was accepted has been notified exactly once, by a
  // cached response, a response, a timeout or its cancellation, unless it was cancelled silently.
  lemma ExactlyOnce(steps: seq<Step>, s: State, st: Settings, token: Token)
    requires Runs(Initial(), steps, s, st) && Quiet(s) && token in s.queries.fate
    ensures s.queries.notified[token] == 1 || (s.queries.fate[token] == Silenced && s.queries.notified[token] == 0)
  {
    hide Runs, StateInv, Quiet;
    InitialHolds(st);
    RunKeeps(Initial(), steps, s, st);
    InvOnce(s, st);
    NothingWaits(s, st, token);
  }

  lemma NothingUnnotified(q: Queries, n: NodeRef)
    requires (forall m :: m in q.place ==> !IsPending(q, m)) && q.notifying.Keys == {}
    ensures !Unnotified(q, n)
  {
  }

  lemma NothingWaits(s: State, st: Settings, token: Token)
    requires StateInv(s, st) && Quiet(s) && token in s.queries.fate
    ensures s.queries.fate[token] == Notified || s.queries.fate[token] == Silenced
  {
    hide CacheInv;
    TablesHoldPending(s.queries, st.retries);
    forall m | m in s.queries.place ensures !IsPending(s.queries, m) { hide QueriesInv; }
    hide TablesAgree, PlacesAgree, FreeAgree, TimersAgree, TransmitsBounded, CallsAgree, NotifiedOnce;
    forall n ensures !Unnotified(s.queries, n) { NothingUnnotified(s.queries, n); }
    hide Unnotified;
  }

  // Steps forget no callback, and do not take back a notification.
  lemma FatesKept(s: State, step: Step, st: Settings, token: Token)
    requires StateInv(s, st) && Enabled(s, step) && Safe(s, step) && token in s.queries.fate
    ensures token in Next(s, step, st).queries.fate
    ensures s.queries.fate[token] == Notified ==> Next(s, step, st).queries.fate[token] == Notified
    ensures s.queries.notified[token] <= Next(s, step, st).queries.notified[token]
  {
    var r := Next(s, step, st);
    EnabledMoves(s, step, st);
    NextKeeps(s, step, st);
    InvOnce(s, st);
    InvOnce(r, st);
    hide Next, StateInv, Enabled, Safe;
    assert token in r.queries.fate;
  }

  ghost predicate Grows(q: Queries, r: Queries) {
    forall t :: t in q.fate ==> t in r.fate && (q.fate[t] == Notified ==> r.fate[t] == Notified)
  }

  lemma EnabledMoves(s: State, step: Step, st: Settings)
    requires StateInv(s, st) && Enabled(s, step) && Safe(s, step)
    ensures Grows(s.queries, Next(s, step, st).queries)
  {
    hide CacheInv, QueriesInv, NoneDetached, IdUnused, Found, Discarded, Begun, Ended, Updated,
         TimedOut, Answered, Cancelled, TimerPopped, Recycled, NextCalled, ChildAdded, QueryStarted, QueryFailed;
    var q := s.queries;
    match step
    case BeginHit(_, _, _, _) =>
    case CallHit(_) =>
    case EndHit(_) =>
    case Start(key, _, cb, _) =>
      if key in q.byKey { ChildMoves(q, key, cb); } else { StartMoves(q, key, cb); }
    case Cancel(n, notify) => CancelMoves(q, n, notify, st.retries);
    case PopTimer(n) => PopMoves(q, n);
    case Timeout(n, attempt) => TimeoutMoves(q, n, attempt, st.retries);
    case Respond(id, _) => RespondMoves(q, id);
    case CallBack(n) =>
      CallReady(q, n, st.retries);
      CallMoves(q, n, st.retries);
    case FinishTimeout(n) => RecycleMoves(q, n);
    case FinishResponse(n, _, _) => RecycleMoves(q, n);
    case AddEntry(_, _, _, _) =>
  }

  lemma PopMoves(q: Queries, n: NodeRef)
    ensures FatesMove(q, TimerPopped(q, n))
  {
    SameFates(q, TimerPopped(q, n));
  }

  lemma RespondMoves(q: Queries, id: uint16)
    requires id in q.byId && q.byId[id] in q.nodes
    ensures FatesMove(q, Answered(q, id))
  {
    SameFates(q, Answered(q, id));
  }

  lemma RecycleMoves(q: Queries, n: NodeRef)
    requires n in q.nodes
    ensures FatesMove(q, Recycled(q, n))
  {
    SameFates(q, Recycled(q, n));
  }

  // A query that start_query accepts is recorded; one that it could not send is not.
  lemma AcceptedIsRecorded(s: State, key: Key, now: int, token: Token, attempt: Attempt, st: Settings)
    requires Enabled(s, Start(key, now, Some(token), attempt)) && Safe(s, Start(key, now, Some(token), attempt))
    ensures token in Next(s, Start(key, now, Some(token), attempt), st).queries.fate
            <==> key in s.queries.byKey || Transmits(s.queries, NextNode(s.queries), attempt)
  {
    hide NextNode, NextId, Discarded, Found, IdUnused;
  }

  // The resolver's tables, nodes, timers and cache entries after any run.
  lemma AlwaysConsistent(steps: seq<Step>, s: State, st: Settings)
    requires Runs(Initial(), steps, s, st)
    ensures s.queries.byId.Values == s.queries.byKey.Values
    ensures forall n :: n in s.queries.nodes ==>
              Count(n in s.queries.byId.Values) + Count(IsChild(s.queries, n))
              + Count(n in s.queries.notifying) + Count(n in s.queries.free) == 1
    ensures forall n :: n in s.queries.byId.Values ==>
              && (n in s.queries.armed || n in s.queries.popped)
              && n in s.queries.nodes && 1 <= s.queries.nodes[n].transmitCnt <= Max(1, st.retries)
    ensures forall e :: e in s.cache.entries ==> 0 < s.cache.entries[e].refCnt == Holders(s.cache, e)
  {
    InitialHolds(st);
    RunKeeps(Initial(), steps, s, st);
    hide Runs, CallersAgree, QueriesInv, NoneDetached, Holders, Max, IsChild, TableHolds, HitsHold;
    TablesHoldPending(s.queries, st.retries);
    forall n | n in s.queries.nodes
      ensures Count(n in s.queries.byId.Values) + Count(IsChild(s.queries, n))
              + Count(n in s.queries.notifying) + Count(n in s.queries.free) == 1
    {
      EveryNodeInOnePlace(s.queries, n, st.retries);
    }
    forall n | n in s.queries.byId.Values
      ensures n in s.queries.armed || n in s.queries.popped
      ensures n in s.queries.nodes && 1 <= s.queries.nodes[n].transmitCnt <= Max(1, st.retries)
    {
      PendingIsTimed(s.queries, n, st.retries);
    }
  }

  // ----- what a cached response is -----

  // What a step that ends a query or adds an entry gives to the cache.
  datatype Update = Update(status: int, ends: bool, packet: Packet, time: int)

  function StampOf(u: Update, st: Settings): Stored { Stamp(u.status, u.ends, u.packet, u.time, st.maxTtl) }

  // A response that may not be kept at all: the configured maximum is zero, or an answer does not live.
  predicate Keepable(u: Update, maxTtl: uint32) {
    maxTtl > 0 && (u.ends && u.status == 0 ==> forall r :: r in u.packet.answers ==> r.ttl > 0)
  }

  lemma KeepableLives(u: Update, maxTtl: uint32)
    ensures Keepable(u, maxTtl) <==> CacheTtl(u.status, u.ends, u.packet, maxTtl) != 0
  {
    TtlOfResponse(u.status, u.ends, u.packet, maxTtl);
    hide CacheTtl;
  }

  // The last of these for a key, step by step: a response that may not be kept clears the key, and so does a
  // lookup that finds none or an expired one.
  function Given(u: Update, st: Settings): Option<Update> {
    if Keepable(u, st.maxTtl) then Some(u) else None
  }

  function AfterStep(s: State, step: Step, st: Settings, k: Key, last: Option<Update>): Option<Update>
    requires Safe(s, step)
  {
    match step
    case Start(key, _, _, _) => if key == k then None else last
    case FinishResponse(n, p, now) =>
      if s.queries.nodes[n].key == k then Given(Update(s.answers[n], true, p, now), st) else last
    case AddEntry(key, p, setTtl, now) => if key == k then Given(Update(0, setTtl, p, now), st) else last
    case _ => last
  }

  // The last response given to a key along a run.
  ghost function LastUpdate(s: State, steps: seq<Step>, st: Settings, k: Key, last: Option<Update>): Option<Update>
    decreases |steps|
  {
    if steps == [] || !Safe(s, steps[0]) then last
    else LastUpdate(Next(s, steps[0], st), steps[1..], st, k, AfterStep(s, steps[0], st, k, last))
  }

  ghost predicate LastGiven(c: Cache, k: Key, last: Option<Update>, st: Settings) {
    && (k in c.table <==> last.Some?)
    && (last.Some? ==> k in c.stored && c.stored[k] == StampOf(last.value, st))
  }

  lemma DiscardHolds(c: Cache, key: Key, k: Key, last: Option<Update>, st: Settings)
    requires Discardable(c, key) && LastGiven(c, k, last, st)
    ensures LastGiven(Discarded(c, key), k, if key == k then None else last, st)
  {
  }

  lemma UpdateHolds(c: Cache, key: Key, u: Update, k: Key, last: Option<Update>, st: Settings)
    requires CacheInv(c) && Discardable(c, key) && LastGiven(c, k, last, st)
    ensures LastGiven(Updated(c, key, u.status, u.ends, u.packet, u.time, st.maxTtl), k,
                  if key == k then Given(u, st) else last, st)
  {
    UpdateKeeps(c, key, u.status, u.ends, u.packet, u.time, st.maxTtl);
    KeepableLives(u, st.maxTtl);
    hide CacheInv, Updated, CacheTtl, Stamp, Keepable;
  }

  lemma StepHolds(s: State, step: Step, st: Settings, k: Key, last: Option<Update>)
    requires StateInv(s, st) && Safe(s, step) && LastGiven(s.cache, k, last, st)
    ensures LastGiven(Next(s, step, st).cache, k, AfterStep(s, step, st, k, last), st)
  {
    hide CacheInv, Good, CallersAgree, Started, TimedOut, Answered, NextCalled, Called, Cancelled, TimerPopped, Recycled,
         Used, Discarded, Updated, Given, LastGiven, Discardable;
    match step
    case Start(key, _, _, _) => DiscardHolds(s.cache, key, k, last, st);
    case FinishResponse(n, p, now) =>
      UpdateHolds(s.cache, s.queries.nodes[n].key, Update(s.answers[n], true, p, now), k, last, st);
    case AddEntry(key, p, setTtl, now) => UpdateHolds(s.cache, key, Update(0, setTtl, p, now), k, last, st);
    case BeginHit(key, _, _, h) => SameTable(s.cache, Begun(s.cache, key, h), k, last, st);
    case EndHit(h) => SameTable(s.cache, Ended(s.cache, h), k, last, st);
    case _ =>
  }

  lemma SameTable(c: Cache, d: Cache, k: Key, last: Option<Update>, st: Settings)
    requires LastGiven(c, k, last, st) && d.table == c.table && d.stored == c.stored
    ensures LastGiven(d, k, last, st)
  {
  }

  // The cache holds, for every key, the response that the last step of the run concerned with it has given.
  lemma {:induction false} CacheHoldsLastUpdate(s: State, steps: seq<Step>, t: State, st: Settings, k: Key, last: Option<Update>)
    requires StateInv(s, st) && Runs(s, steps, t, st) && LastGiven(s.cache, k, last, st)
    ensures LastGiven(t.cache, k, LastUpdate(s, steps, st, k, last), st)
    decreases |steps|
  {
    hide StateInv, Enabled, Safe, Next, LastGiven, AfterStep;
    if steps != [] {
      NextKeeps(s, steps[0], st);
      StepHolds(s, steps[0], st, k, last);
      CacheHoldsLastUpdate(Next(s, steps[0], st), steps[1..], t, st, k, AfterStep(s, steps[0], st, k, last));
    }
  }

  // How long a response may be delivered, in milliseconds.
  predicate Fresh(u: Update, age: int, maxTtl: uint32) {
    && age < maxTtl * 1000
    && (u.status == 0 && u.packet.answers != [] ==> forall r :: r in u.packet.answers ==> age < r.ttl * 1000)
    && (u.status != 0 || u.packet.answers == [] ==> age < 60 * 1000)
  }

  lemma YoungIsFresh(u: Update, age: int, maxTtl: uint32)
    requires u.ends
    ensures age < CacheTtl(u.status, u.ends, u.packet, maxTtl) * 1000 <==> Fresh(u, age, maxTtl)
  {
    TtlOfResponse(u.status, u.ends, u.packet, maxTtl);
    hide CacheTtl;
  }

  // After any run, a lookup succeeds exactly when the run has given a response to the key and it may still be
  // delivered: less time has passed since than any answer lives, or than a minute when there is no answer to use, and
  // than the configured maximum; or, when it was given without an expiry, the 31-bit clock is not in its last second.
  lemma FoundAfterRun(steps: seq<Step>, s: State, st: Settings, key: Key, now: int)
    requires Runs(Initial(), steps, s, st)
    ensures var last := LastUpdate(Initial(), steps, st, key, None);
            Found(s.cache, key, now)
            <==> last.Some? && (if last.value.ends then Fresh(last.value, now - last.value.time, st.maxTtl)
                                else now < 2147483647000)
  {
    hide Runs, Found, Fresh, CacheTtl, LastUpdate, CacheInv, Good, CallersAgree;
    InitialHolds(st);
    RunKeeps(Initial(), steps, s, st);
    NothingGiven(key, st);
    CacheHoldsLastUpdate(Initial(), steps, s, st, key, None);
    FoundExactly(s.cache, key, now);
    var last := LastUpdate(Initial(), steps, st, key, None);
    if last.Some? && last.value.ends { YoungIsFresh(last.value, now - last.value.time, st.maxTtl); }
  }

  // After any run, a lookup that succeeds delivers the response that the run has given last to the key; when
  // it was given with an expiry, less time has passed since than any answer lives, or than a minute when there
  // is no answer to use, and than the configured maximum.
  lemma HitDeliversLastUpdate(steps: seq<Step>, s: State, st: Settings, key: Key, now: int, cb: Option<Token>, h: Thread)
    requires Runs(Initial(), steps, s, st) && Enabled(s, BeginHit(key, now, cb, h))
    ensures Safe(s, BeginHit(key, now, cb, h)) && LastUpdate(Initial(), steps, st, key, None).Some?
    ensures var last, after := LastUpdate(Initial(), steps, st, key, None).value, Next(s, BeginHit(key, now, cb, h), st).cache;
            && h in after.hits && after.hits[h].packet == KeptCopy(last.packet)
            && QueriesAndAnswersOf(after.hits[h].packet, last.packet)
            && (last.ends ==> Fresh(last, now - last.time, st.maxTtl))
  {
    hide Runs, StateInv, Enabled, Safe, Next, KeptCopy, Fresh, CacheTtl, LastUpdate, QueriesAndAnswersOf, LastGiven;
    InitialHolds(st);
    RunKeeps(Initial(), steps, s, st);
    EnabledIsSafe(s, BeginHit(key, now, cb, h), st);
    NothingGiven(key, st);
    CacheHoldsLastUpdate(Initial(), steps, s, st, key, None);
    HitDelivers(s, key, now, cb, h, LastUpdate(Initial(), steps, st, key, None), st);
  }

  lemma NothingGiven(k: Key, st: Settings)
    ensures LastGiven(Initial().cache, k, None, st)
  {
  }

  lemma HitDelivers(s: State, key: Key, now: int, cb: Option<Token>, h: Thread, last: Option<Update>, st: Settings)
    requires StateInv(s, st) && Enabled(s, BeginHit(key, now, cb, h)) && Safe(s, BeginHit(key, now, cb, h))
    requires LastGiven(s.cache, key, last, st)
    ensures last.Some?
    ensures var after := Next(s, BeginHit(key, now, cb, h), st).cache;
            && h in after.hits && after.hits[h].packet == KeptCopy(last.value.packet)
            && QueriesAndAnswersOf(after.hits[h].packet, last.value.packet)
            && (last.value.ends ==> Fresh(last.value, now - last.value.time, st.maxTtl))
  {
    hide CacheInv, Good, CallersAgree, KeptCopy, Fresh, CacheTtl, QueriesAndAnswersOf, Used, NewToken;
    HitIsLastStored(s.cache, key, now);
    if last.value.ends { YoungIsFresh(last.value, now - last.value.time, st.maxTtl); }
  }

  // However long its callback takes, the entry stays live and keeps the packet that was found.
  lemma PacketStaysDuringCallback(steps: seq<Step>, s: State, st: Settings, h: Thread)
    requires Runs(Initial(), steps, s, st) && h in s.cache.hits
    ensures s.cache.hits[h].entry in s.cache.entries
    ensures s.cache.entries[s.cache.hits[h].entry].packet == s.cache.hits[h].packet
  {
    InitialHolds(st);
    RunKeeps(Initial(), steps, s, st);
    hide Runs, Good, CallersAgree, EntriesCounted, TableHolds;
  }

  lemma HitsUnchanged(s: State, step: Step, st: Settings, h: Thread)
    requires Safe(s, step) && h in s.cache.hits && h in Next(s, step, st).cache.hits
    ensures Next(s, step, st).cache.hits[h] == s.cache.hits[h]
  {
    hide KeptCopy, CacheTtl, Recycled, Started, TimedOut, Answered, NextCalled, Called, Cancelled, TimerPopped;
  }

  // ----- the resolver in memory -----

  datatype StartResult = Refused | Cached(packet: Packet) | Merged | Asked(node: NodeRef) | NotSent

  class DnsResolver {
    const settings: Settings
    const cache: ResponseCache
    const table: QueryTable
    ghost var callers: map<Thread, Option<Token>>
    ghost var answers: map<NodeRef, int>

    ghost function View(): State
      reads this, cache, table
    {
      State(table.State(), cache.State(), callers, answers)
    }

    ghost predicate Valid()
      reads this, cache, table
    {
      StateInv(View(), settings)
    }

    constructor (settings: Settings)
      ensures Valid() && fresh(cache) && fresh(table) && this.settings == settings && View() == Initial()
    {
      this.settings := settings;
      cache := new ResponseCache();
      table := new QueryTable();
      callers, answers := map[], map[];
      new;
      InitialHolds(settings);
    }

    // What a step does to the state, given that it is enabled.
    ghost predicate Took(before: State, step: Step)
      reads this, cache, table
    {
      Safe(before, step) && View() == Next(before, step, settings)
    }

    // pj_dns_resolver_start_query, up to the callback when a cached response is found.
    method StartQuery(qtype: int, name: Name, cb: Option<Token>, now: int, attempt: Attempt, ghost h: Thread)
      returns (result: StartResult)
      requires Valid() && NewToken(table.State(), cb) && h !in cache.hits
      requires (ValidQuestion(qtype, name) && !Found(cache.State(), KeyOf(qtype, name), now)
                && KeyOf(qtype, name) !in table.byKey) ==> IdUnused(table.State())
      modifies this, cache, table
      ensures Valid()
      ensures result.Refused? <==> name == [] || |name| >= 128 || qtype <= 0 || qtype >= 0xFFFF
      ensures result.Refused? ==> View() == old(View())
      ensures result.Cached? ==>
                Found(old(cache.State()), KeyOf(qtype, name), now)
                && Took(old(View()), BeginHit(KeyOf(qtype, name), now, cb, h))
                && result.packet == cache.hits[h].packet
      ensures !result.Cached? && !result.Refused? ==>
                !Found(old(cache.State()), KeyOf(qtype, name), now)
                && Took(old(View()), Start(KeyOf(qtype, name), now, cb, attempt))
    {
      hide CacheInv, Good, CallersAgree, Found, IdUnused, NewToken, KeyOf;
      if !ValidQuestion(qtype, name) { return Refused; }
      var key := InitKey(qtype, name);
      ghost var before := View();
      var found, packet := cache.Lookup(key, now, h);
      if found {
        EnabledIsSafe(before, BeginHit(key, now, cb, h), settings);
        NextKeeps(before, BeginHit(key, now, cb, h), settings);
        callers := callers[h := cb];
        table.Use(cb, h);
        return Cached(packet);
      }
      EnabledIsSafe(before, Start(key, now, cb, attempt), settings);
      NextKeeps(before, Start(key, now, cb, attempt), settings);
      if key in table.byKey {
        table.AddChild(key, cb);
        return Merged;
      }
      var n, ok := table.StartNew(key, cb, attempt);
      return if ok then Asked(n) else NotSent;
    }

    // The callback with a cached response has returned.
    method FinishHit(ghost h: Thread, e: EntryRef)
      requires Valid() && h in cache.hits && cache.hits[h].entry == e && h in callers && callers[h] == None
      modifies this, cache
      ensures Valid() && Took(old(View()), EndHit(h))
    {
      hide CacheInv, Good, CallersAgree;
      EnabledIsSafe(View(), EndHit(h), settings);
      NextKeeps(View(), EndHit(h), settings);
      cache.EndHit(h, e);
      callers := callers - {h};
    }

    // pj_dns_resolver_cancel_query
    method CancelQuery(n: NodeRef, notify: bool) returns (cb: Option<Token>)
      requires Valid() && MayCancel(table.State(), n)
      modifies table
      ensures Valid() && Took(old(View()), Cancel(n, notify)) && cb == old(table.nodes)[n].cb
    {
      hide CacheInv, Good, CallersAgree, Cancelled;
      EnabledIsSafe(View(), Cancel(n, notify), settings);
      NextKeeps(View(), Cancel(n, notify), settings);
      cb := table.CancelQuery(n, notify);
    }

    // on_timeout, up to the callbacks
    method OnTimeout(n: NodeRef, attempt: Attempt) returns (expired: bool)
      requires Valid() && n in table.popped
      modifies table
      ensures Valid() && Took(old(View()), Timeout(n, attempt))
      ensures expired ==> n in table.notifying
    {
      hide CacheInv, Good, CallersAgree, TimedOut;
      EnabledIsSafe(View(), Timeout(n, attempt), settings);
      NextKeeps(View(), Timeout(n, attempt), settings);
      expired := table.OnTimeout(n, attempt, settings.retries);
    }

    // on_read_complete, up to the callbacks; a response that no query waits for is discarded.
    method OnReadComplete(id: uint16, status: int) returns (found: bool, n: NodeRef)
      requires Valid()
      modifies this, table
      ensures Valid() && found == (id in old(table.byId))
      ensures if found then Took(old(View()), Respond(id, status)) && n == old(table.byId)[id] else View() == old(View())
    {
      hide CacheInv, Good, CallersAgree, Answered;
      if id in table.byId {
        EnabledIsSafe(View(), Respond(id, status), settings);
        NextKeeps(View(), Respond(id, status), settings);
      }
      found, n := table.OnResponse(id);
      if found { answers := answers[n := status]; }
    }

    // One callback, without the mutex.
    method Notify(n: NodeRef, member: NodeRef) returns (cb: Option<Token>)
      requires Valid() && n in table.notifying && table.notifying[n] != [] && table.notifying[n][0] == member
      modifies table
      ensures Valid() && Took(old(View()), CallBack(n))
      ensures member in old(table.nodes) && cb == old(table.nodes)[member].cb
    {
      hide CacheInv, Good, CallersAgree, NextCalled;
      EnabledIsSafe(View(), CallBack(n), settings);
      NextKeeps(View(), CallBack(n), settings);
      cb := table.CallNext(n, member);
    }

    // The end of on_timeout
    method EndTimeout(n: NodeRef)
      requires Valid() && n in table.notifying && table.notifying[n] == [] && n !in answers
      modifies table
      ensures Valid() && Took(old(View()), FinishTimeout(n))
    {
      hide CacheInv, Good, CallersAgree, Recycled;
      EnabledIsSafe(View(), FinishTimeout(n), settings);
      NextKeeps(View(), FinishTimeout(n), settings);
      table.Recycle(n);
    }

    // The end of on_read_complete: the response, as the callbacks left it, goes into the cache.
    method EndResponse(n: NodeRef, status: int, p: Packet, now: int)
      requires Valid() && n in table.notifying && table.notifying[n] == [] && n in answers && answers[n] == status
      modifies this, cache, table
      ensures Valid() && Took(old(View()), FinishResponse(n, p, now))
    {
      hide Good, CallersAgree, Recycled, Updated, CacheInv;
      EnabledIsSafe(View(), FinishResponse(n, p, now), settings);
      NextKeeps(View(), FinishResponse(n, p, now), settings);
      cache.Update(table.nodes[n].key, status, true, p, now, settings.maxTtl);
      table.Recycle(n);
      answers := answers - {n};
    }
  }
}
