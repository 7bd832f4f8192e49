/** What goes wrong when the 16-bit identifiers of the resolver wrap (resolver.c), and runs that come to it. */
module ResolverWrap {
  import opened Bytes
  import opened Wrappers
  import opened DnsPacket
  import opened ResolverCache
  import opened ResolverQueries
  import opened ResolverTable
  import opened Resolver
  import opened ResolverProgress

  // ----- what is lost -----

  // The assumption on identifiers is needed: if a new query takes the identifier of a pending one, the
  // response removes the new query only, and no timeout will ever complete the old one.
  lemma WrappedIdLosesQuery(q: Queries, n: NodeRef, key: Key, cb: Option<Token>, attempt: Attempt, retries: nat)
    requires Good(q, retries) && n in q.nodes && IsPending(q, n)
    requires q.lastId == q.nodes[n].id && key !in q.byKey
    ensures var r := QueryStarted(q, key, cb);
            && q.lastId in r.byId && r.byId[q.lastId] != n && r.byId[q.lastId] in r.nodes
            && var a := Answered(r, q.lastId);
               && q.nodes[n].key in a.byKey && a.byKey[q.nodes[n].key] == n && n in a.nodes
               && TimedOut(a, n, attempt, retries) == a.(popped := a.popped - multiset{n})
  {
    PendingKey(q, n, retries);
    NextIsNot(q, n, retries);
    hide Good, IsPending;
    Overwritten(q, n, key, cb, attempt, retries);
  }

  lemma Overwritten(q: Queries, n: NodeRef, key: Key, cb: Option<Token>, attempt: Attempt, retries: nat)
    requires n in q.nodes && q.nodes[n].key in q.byKey && q.byKey[q.nodes[n].key] == n && NextNode(q) != n
    requires q.lastId == q.nodes[n].id && key !in q.byKey && q.lastId != 0
    ensures var r := QueryStarted(q, key, cb);
            && q.lastId in r.byId && r.byId[q.lastId] == NextNode(q) && NextNode(q) in r.nodes
            && r.nodes[NextNode(q)].id == q.lastId && r.nodes[NextNode(q)].key == key
            && r.byKey == q.byKey[key := NextNode(q)] && n in r.nodes && r.nodes[n] == q.nodes[n]
            && var a := Answered(r, q.lastId);
               && q.nodes[n].key in a.byKey && a.byKey[q.nodes[n].key] == n && n in a.nodes
               && TimedOut(a, n, attempt, retries) == a.(popped := a.popped - multiset{n})
  {
    hide NextNode, NextId;
  }

  lemma PendingKey(q: Queries, n: NodeRef, retries: nat)
    requires QueriesInv(q, retries) && IsPending(q, n)
    ensures n in q.nodes && q.nodes[n].key in q.byKey && q.byKey[q.nodes[n].key] == n && q.lastId != 0
  {
    hide PlacesAgree, FreeAgree, ChildrenAgree, TimersAgree, TransmitsBounded, CallsAgree, FatesAgree, NotifiedOnce;
  }

  lemma NextIsNot(q: Queries, n: NodeRef, retries: nat)
    requires QueriesInv(q, retries) && IsPending(q, n)
    ensures NextNode(q) != n
  {
    hide TablesAgree, ChildrenAgree, TimersAgree, TransmitsBounded, CallsAgree, FatesAgree, NotifiedOnce;
    NextIsIdle(q);
  }

  // A timer that is still outstanding must not have the identifier either: when it elapses, the new query is
  // taken out of the table by identifier, where neither a response nor its own timeout will find it.
  lemma StaleTimerLosesQuery(q: Queries, n: NodeRef, key: Key, cb: Option<Token>, a: Attempt, b: Attempt, retries: nat)
    requires Good(q, retries) && n in q.popped && n in q.nodes && !IsPending(q, n) && n != NextNode(q)
    requires q.nodes[n].id == q.lastId && q.nodes[n].key != key && key !in q.byKey
    requires q.nodes[n].transmitCnt >= retries || !Transmits(q, n, a)
    ensures var m, r := NextNode(q), QueryStarted(q, key, cb);
            && n in r.nodes
            && var t := TimedOut(r, n, a, retries);
               && IsPending(t, m) && key in t.byKey && t.byKey[key] == m && m in t.nodes && t.nodes[m].id == q.lastId
               && q.lastId !in t.byId
               && TimedOut(t, m, b, retries) == t.(popped := t.popped - multiset{m})
  {
    hide Good, NextNode, NextId;
  }

  // ----- how it comes to that -----

  // The identifiers that follow the first one.
  const OTHER_IDS: nat := 0xFFFE

  // The state after i queries for key k that could not be sent, all with the same node.
  function Spun(b: State, k: Key, i: nat): State
    requires i <= OTHER_IDS
  {
    if i == 0 then b
    else
      var q, m := b.queries, b.queries.nextNode;
      b.(queries := q.(nodes := q.nodes[m := Node(1 + i, k, 0, None, [])], nextNode := m + 1, free := [m],
                       place := q.place[m := Free], lastId := if i == OTHER_IDS then 1 else 2 + i))
  }

  // The first query has taken the first identifier, and nobody else has one.
  ghost predicate OneIdTaken(b: State, k: Key) {
    var q := b.queries;
    && q.free == [] && q.lastId == 2 && q.nextNode == 1
    && k !in q.byKey && k !in b.cache.table
    && (forall id :: id in q.byId ==> id == 1)
    && (forall n :: n in q.armed || n in q.popped ==> n == 0)
    && q.nodes.Keys == {0} && q.nodes[0].id == 1 && q.place.Keys == {0}
  }

  function Unsent(k: Key): Step { Start(k, 0, None, NoServer) }

  lemma SpinAllowed(b: State, k: Key, i: nat)
    requires OneIdTaken(b, k) && i < OTHER_IDS
    ensures Enabled(Spun(b, k, i), Unsent(k)) && Safe(Spun(b, k, i), Unsent(k))
  {
  }

  // A query that cannot be sent leaves its node in the free list, with its identifier.
  lemma FailedNode(q: Queries, k: Key, m: NodeRef)
    requires (q.free == [] && m == q.nextNode) || q.free == [m]
    ensures QueryFailed(q, k, None)
            == q.(nodes := q.nodes[m := Node(q.lastId, k, 0, None, [])], free := [m], place := q.place[m := Free],
                  nextNode := if q.free == [] then m + 1 else q.nextNode, lastId := NextId(q.lastId))
  {
    hide NextId;
    var f := QueryFailed(q, k, None);
    assert NextNode(q) == m && [] + [m] == f.free;
    assert f.nodes == q.nodes[m := Node(q.lastId, k, 0, None, [])];
    assert f.place == q.place[m := Free];
  }

  lemma SpinNext(b: State, k: Key, i: nat)
    requires OneIdTaken(b, k) && i < OTHER_IDS
    ensures QueryFailed(Spun(b, k, i).queries, k, None) == Spun(b, k, i + 1).queries
  {
    hide QueryFailed;
    var s, t := Spun(b, k, i).queries, Spun(b, k, i + 1).queries;
    FailedNode(s, k, 1);
    assert t.nodes == s.nodes[1 := Node(s.lastId, k, 0, None, [])];
    assert t.place == s.place[1 := Free];
  }

  lemma SpinStep(b: State, k: Key, i: nat, st: Settings)
    requires OneIdTaken(b, k) && i < OTHER_IDS
    ensures Enabled(Spun(b, k, i), Unsent(k)) && Safe(Spun(b, k, i), Unsent(k))
    ensures Next(Spun(b, k, i), Unsent(k), st) == Spun(b, k, i + 1)
  {
    hide Enabled, Safe, QueryFailed;
    SpinAllowed(b, k, i);
    SpinNext(b, k, i);
  }

  lemma {:induction false} SpinRun(b: State, k: Key, i: nat, st: Settings) returns (steps: seq<Step>)
    requires OneIdTaken(b, k) && i <= OTHER_IDS
    ensures Runs(b, steps, Spun(b, k, i), st)
  {
    hide Enabled, Safe, Next, Spun, OneIdTaken;
    if i == 0 {
      SpunNothing(b, k);
      steps := [];
    } else {
      steps := SpinRun(b, k, i - 1, st);
      SpinStep(b, k, i - 1, st);
      LastStep(Spun(b, k, i - 1), Unsent(k), st);
      RunsAppend(b, steps, Spun(b, k, i - 1), [Unsent(k)], Spun(b, k, i), st);
      steps := steps + [Unsent(k)];
    }
  }

  lemma SpunNothing(b: State, k: Key)
    ensures Spun(b, k, 0) == b
  {
  }

  lemma LastStep(s: State, step: Step, st: Settings)
    requires Enabled(s, step) && Safe(s, step)
    ensures Runs(s, [step], Next(s, step, st), st)
  {
    hide Enabled, Safe, Next;
    assert [step][1..] == [];
  }

  // One query with a callback has been sent.
  function FirstAsked(k: Key, token: Token): Step { Start(k, 0, Some(token), Sent) }

  function Asked(k: Key, token: Token): State {
    var q := Queries(map[0 := Node(1, k, 1, Some(token), [])], 1, [], map[1 := 0], map[k := 0], 2, {0}, multiset{},
                     map[], map[0 := Pending], map[token := Waiting(0)], multiset{});
    State(q, Initial().cache, map[], map[])
  }

  lemma AskedFirst(k: Key, token: Token, st: Settings)
    ensures Enabled(Initial(), FirstAsked(k, token)) && Safe(Initial(), FirstAsked(k, token))
    ensures Next(Initial(), FirstAsked(k, token), st) == Asked(k, token)
  {
    var q := QueryStarted(INITIAL_QUERIES, k, Some(token));
    assert q.nodes == Asked(k, token).queries.nodes && q.place == Asked(k, token).queries.place;
  }

  // A run to a state in which a new query takes the identifier of a pending one: one query that is not answered,
  // and as many queries that cannot be sent as there are other identifiers.
  lemma WrapIsReached(a: Key, b: Key, token: Token, st: Settings) returns (steps: seq<Step>, s: State)
    requires a != b
    ensures Runs(Initial(), steps, s, st) && Good(s.queries, st.retries)
    ensures IsPending(s.queries, 0) && 0 in s.queries.nodes && s.queries.nodes[0].cb == Some(token)
    ensures s.queries.lastId == s.queries.nodes[0].id && b !in s.queries.byKey
  {
    hide Enabled, Safe, Next, StateInv, Runs;
    AskedFirst(a, token, st);
    var t := Asked(a, token);
    var spin := SpinRun(t, b, OTHER_IDS, st);
    s := Spun(t, b, OTHER_IDS);
    OneStep(Initial(), FirstAsked(a, token), spin, s, st);
    steps := [FirstAsked(a, token)] + spin;
    ReachedIsGood(steps, s, st);
  }

  lemma ReachedIsGood(steps: seq<Step>, s: State, st: Settings)
    requires Runs(Initial(), steps, s, st)
    ensures Good(s.queries, st.retries)
  {
    hide Runs, CacheInv, CallersAgree, Good;
    InitialHolds(st);
    RunKeeps(Initial(), steps, s, st);
  }

  // The timer of the first query has elapsed, and then its response has come; its callback takes long.
  function Lingering(k: Key, token: Token): State {
    var s := Asked(k, token);
    s.(queries := s.queries.(armed := {}, popped := multiset{0}, byId := map[], byKey := map[],
                             place := map[0 := Notifying], notifying := map[0 := [0]]),
       answers := map[0 := 0])
  }

  function Elapsed(k: Key, token: Token): State {
    var s := Asked(k, token);
    s.(queries := s.queries.(armed := {}, popped := multiset{0}))
  }

  lemma ElapsesAfter(k: Key, token: Token, st: Settings)
    ensures Enabled(Asked(k, token), PopTimer(0)) && Safe(Asked(k, token), PopTimer(0))
    ensures Next(Asked(k, token), PopTimer(0), st) == Elapsed(k, token)
  {
    var s: set<NodeRef> := {0};
    assert s - {0} == {};
    var empty: multiset<NodeRef> := multiset{};
    assert empty + multiset{0} == multiset{0};
  }

  lemma RespondsAfter(k: Key, token: Token, st: Settings)
    ensures Enabled(Elapsed(k, token), Respond(1, 0)) && Safe(Elapsed(k, token), Respond(1, 0))
    ensures Next(Elapsed(k, token), Respond(1, 0), st) == Lingering(k, token)
  {
    var q, r := Elapsed(k, token).queries, Lingering(k, token).queries;
    var calls: seq<NodeRef> := [0];
    assert [0] + q.nodes[0].children == calls;
    var a := Answered(q, 1);
    assert a.byId == r.byId && a.byKey == r.byKey && a.armed == r.armed;
    assert a.place == r.place && a.notifying == r.notifying;
    assert Next(Elapsed(k, token), Respond(1, 0), st).answers == Lingering(k, token).answers;
  }

  lemma LingersAfter(k: Key, token: Token, st: Settings)
    ensures Runs(Asked(k, token), [PopTimer(0), Respond(1, 0)], Lingering(k, token), st)
  {
    hide Enabled, Safe, Next, Lingering, Elapsed, Asked;
    ElapsesAfter(k, token, st);
    RespondsAfter(k, token, st);
    LastStep(Elapsed(k, token), Respond(1, 0), st);
    OneStep(Asked(k, token), PopTimer(0), [Respond(1, 0)], Lingering(k, token), st);
    assert [PopTimer(0)] + [Respond(1, 0)] == [PopTimer(0), Respond(1, 0)];
  }

  // A run to a state in which a new query takes the identifier of an outstanding timer.
  lemma StaleWrapIsReached(a: Key, b: Key, token: Token, st: Settings) returns (steps: seq<Step>, s: State)
    requires a != b
    ensures Runs(Initial(), steps, s, st) && Good(s.queries, st.retries)
    ensures 0 in s.queries.popped && 0 in s.queries.nodes && !IsPending(s.queries, 0) && NextNode(s.queries) != 0
    ensures s.queries.nodes[0].id == s.queries.lastId && s.queries.nodes[0].key != b && b !in s.queries.byKey
    ensures !Transmits(s.queries, 0, NoServer)
  {
    hide Enabled, Safe, Next, StateInv, Runs;
    AskedFirst(a, token, st);
    LingersAfter(a, token, st);
    var t := Lingering(a, token);
    var spin := SpinRun(t, b, OTHER_IDS, st);
    s := Spun(t, b, OTHER_IDS);
    var linger := [PopTimer(0), Respond(1, 0)];
    RunsAppend(Asked(a, token), linger, t, spin, s, st);
    OneStep(Initial(), FirstAsked(a, token), linger + spin, s, st);
    steps := [FirstAsked(a, token)] + (linger + spin);
    ReachedIsGood(steps, s, st);
  }
}
