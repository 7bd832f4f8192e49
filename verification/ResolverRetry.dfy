/** Retransmission by the DNS resolver (resolver.c): what a timeout does, and how often a query has been sent when
    it is given up. */
module ResolverRetry {
  import opened Bytes
  import opened Wrappers
  import opened ResolverCache
  import opened ResolverQueries
  import opened ResolverTable
  import opened Resolver
  import opened ResolverProgress

  // ----- one timeout -----

  // The attempt gets the query out, or is to be repeated when the socket is free again.
  predicate Goes(attempt: Attempt) { attempt == Sent || attempt == SocketBusy }

  // The query is under its own identifier and key in both tables.
  predicate InTables(q: Queries, n: NodeRef) {
    n in q.nodes && q.nodes[n].id in q.byId && q.byId[q.nodes[n].id] == n
    && q.nodes[n].key in q.byKey && q.byKey[q.nodes[n].key] == n
  }

  // Nothing but the node and its timers changes, and nobody is told anything.
  ghost predicate OnlyNode(q: Queries, r: Queries, n: NodeRef) {
    && r.fate == q.fate && r.notified == q.notified && r.notifying == q.notifying && r.place == q.place
    && r.byId == q.byId && r.byKey == q.byKey && r.free == q.free
    && r.nodes.Keys == q.nodes.Keys && (forall m :: m in q.nodes && m != n ==> r.nodes[m] == q.nodes[m])
    && (forall m :: m != n ==> (m in r.armed <==> m in q.armed) && r.popped[m] == q.popped[m])
  }

  lemma PendingInTables(q: Queries, n: NodeRef, retries: nat)
    requires QueriesInv(q, retries) && IsPending(q, n)
    ensures InTables(q, n) && n !in q.notifying
  {
    hide FreeAgree, ChildrenAgree, TimersAgree, TransmitsBounded, CallsAgree, FatesAgree, NotifiedOnce;
  }

  lemma RetransmissionMoves(q: Queries, n: NodeRef, attempt: Attempt, retries: nat)
    requires n in q.popped && InTables(q, n) && IsPending(q, n) && n !in q.armed
    requires q.nodes[n].transmitCnt < retries && Goes(attempt)
    ensures var r := TimedOut(q, n, attempt, retries);
            && OnlyNode(q, r, n) && InTables(r, n) && IsPending(r, n)
            && n in r.armed && r.popped[n] == q.popped[n] - 1
            && r.nodes[n] == q.nodes[n].(transmitCnt := q.nodes[n].transmitCnt + 1)
  {
  }

  lemma GivingUpMoves(q: Queries, n: NodeRef, attempt: Attempt, retries: nat)
    requires n in q.popped && InTables(q, n) && n !in q.notifying
    requires q.nodes[n].transmitCnt >= retries || n in q.armed || !Goes(attempt)
    ensures var r := TimedOut(q, n, attempt, retries);
            && r.nodes == q.nodes && r.fate == q.fate && r.notified == q.notified && r.armed == q.armed
            && (forall id :: id in r.byId <==> id in q.byId && id != q.nodes[n].id)
            && (forall k :: k in r.byKey <==> k in q.byKey && k != q.nodes[n].key)
            && n in r.notifying && r.notifying[n] == [n] + q.nodes[n].children
            && (forall m :: m != n && m in q.notifying ==> m in r.notifying && r.notifying[m] == q.notifying[m])
  {
  }

  lemma TimeoutStep(s: State, n: NodeRef, attempt: Attempt, st: Settings)
    requires n in s.queries.nodes
    ensures Safe(s, Timeout(n, attempt))
    ensures Next(s, Timeout(n, attempt), st) == s.(queries := TimedOut(s.queries, n, attempt, st.retries))
  {
    hide TimedOut;
  }

  // A query that has been transmitted fewer times than is configured is transmitted again when its timer has
  // elapsed: it stays where it is, with its timer running again, and nobody is told.
  lemma TimeoutRetransmits(s: State, n: NodeRef, attempt: Attempt, st: Settings)
    requires StateInv(s, st) && n in s.queries.popped && IsPending(s.queries, n) && n !in s.queries.armed
    requires n in s.queries.nodes && s.queries.nodes[n].transmitCnt < st.retries && Goes(attempt)
    ensures Safe(s, Timeout(n, attempt))
    ensures var q, r := s.queries, Next(s, Timeout(n, attempt), st).queries;
            && OnlyNode(q, r, n) && InTables(r, n) && IsPending(r, n)
            && n in r.armed && r.popped[n] == q.popped[n] - 1
            && r.nodes[n] == q.nodes[n].(transmitCnt := q.nodes[n].transmitCnt + 1)
    ensures Next(s, Timeout(n, attempt), st) == s.(queries := Next(s, Timeout(n, attempt), st).queries)
  {
    hide CacheInv, CallersAgree, QueriesInv, NoneDetached, InTables, OnlyNode, IsPending, TimedOut, Next, Safe;
    PendingInTables(s.queries, n, st.retries);
    TimeoutStep(s, n, attempt, st);
    RetransmissionMoves(s.queries, n, attempt, st.retries);
  }

  // Any other query whose timer has elapsed is taken out of both tables, and the callbacks of its family are
  // to be called.
  lemma TimeoutGivesUp(s: State, n: NodeRef, attempt: Attempt, st: Settings)
    requires StateInv(s, st) && n in s.queries.popped && IsPending(s.queries, n) && n in s.queries.nodes
    requires s.queries.nodes[n].transmitCnt >= st.retries || n in s.queries.armed || !Goes(attempt)
    ensures Safe(s, Timeout(n, attempt))
    ensures var q, r := s.queries, Next(s, Timeout(n, attempt), st).queries;
            && r.nodes == q.nodes && r.fate == q.fate && r.notified == q.notified && r.armed == q.armed
            && (forall id :: id in r.byId <==> id in q.byId && id != q.nodes[n].id)
            && (forall k :: k in r.byKey <==> k in q.byKey && k != q.nodes[n].key)
            && n in r.notifying && r.notifying[n] == [n] + q.nodes[n].children
            && (forall m :: m != n && m in q.notifying ==> m in r.notifying && r.notifying[m] == q.notifying[m])
  {
    hide CacheInv, CallersAgree, QueriesInv, NoneDetached, InTables, IsPending, TimedOut, Next, Safe;
    PendingInTables(s.queries, n, st.retries);
    TimeoutStep(s, n, attempt, st);
    GivingUpMoves(s.queries, n, attempt, st.retries);
  }

  // The timer of a query that is done is forgotten.
  lemma StaleTimeoutIgnored(s: State, n: NodeRef, attempt: Attempt, st: Settings)
    requires StateInv(s, st) && n in s.queries.popped && !IsPending(s.queries, n)
    ensures Safe(s, Timeout(n, attempt))
    ensures Next(s, Timeout(n, attempt), st)
            == s.(queries := s.queries.(popped := s.queries.popped - multiset{n}))
  {
    hide CacheInv, CallersAgree, QueriesInv, NoneDetached, Next, Safe;
    TimerOwner(s.queries, n, st.retries);
    TimeoutStep(s, n, attempt, st);
  }

  // ----- over runs -----

  // A step transmits the query of a node when it starts the timer.
  predicate Transmission(s: State, t: State, n: NodeRef) { n !in s.queries.armed && n in t.queries.armed }

  // How often the pending query of a node has been transmitted after a step.
  function SentAfter(s: State, t: State, n: NodeRef, sent: nat): nat {
    if !IsPending(t.queries, n) then 0 else sent + if Transmission(s, t, n) then 1 else 0
  }

  // And after a run, since it became pending.
  ghost function TimesSent(s: State, steps: seq<Step>, st: Settings, n: NodeRef, sent: nat): nat
    decreases |steps|
  {
    if steps == [] || !Safe(s, steps[0]) then sent
    else
      var t := Next(s, steps[0], st);
      TimesSent(t, steps[1..], st, n, SentAfter(s, t, n, sent))
  }

  // The count kept in the node.
  predicate Counted(s: State, n: NodeRef, sent: nat) {
    if IsPending(s.queries, n) then n in s.queries.nodes && s.queries.nodes[n].transmitCnt == sent else sent == 0
  }

  // The queries change as follows at most: a count goes up with a timer, and starts at one.
  predicate CountsMove(q: Queries, r: Queries, n: NodeRef) {
    IsPending(r, n) ==>
      n in r.nodes
      && r.nodes[n].transmitCnt
         == (if IsPending(q, n) && n in q.nodes then q.nodes[n].transmitCnt else 0)
            + if n !in q.armed && n in r.armed then 1 else 0
  }

  lemma NextIdle(q: Queries, retries: nat)
    requires Good(q, retries)
    ensures !IsPending(q, NextNode(q))
  {
    hide TablesAgree, ChildrenAgree, TimersAgree, TransmitsBounded, CallsAgree, FatesAgree, NotifiedOnce;
    NextIsIdle(q);
  }

  predicate Known(q: Queries, n: NodeRef) { IsPending(q, n) ==> n in q.nodes }

  lemma NewMovesCount(q: Queries, key: Key, cb: Option<Token>, n: NodeRef)
    requires !IsPending(q, NextNode(q)) && Known(q, n) && NextNode(q) !in q.armed
    ensures CountsMove(q, QueryStarted(q, key, cb), n)
  {
    hide NextNode, NextId;
  }

  lemma FailedMovesCount(q: Queries, key: Key, cb: Option<Token>, n: NodeRef)
    requires !IsPending(q, NextNode(q)) && Known(q, n)
    ensures CountsMove(q, QueryFailed(q, key, cb), n)
  {
    hide NextNode, NextId;
  }

  lemma ChildMovesCount(q: Queries, key: Key, cb: Option<Token>, n: NodeRef)
    requires !IsPending(q, NextNode(q)) && Known(q, n) && key in q.byKey && q.byKey[key] in q.nodes
    ensures CountsMove(q, ChildAdded(q, key, cb), n)
  {
    hide NextNode;
  }

  lemma StartMovesCount(q: Queries, key: Key, cb: Option<Token>, attempt: Attempt, n: NodeRef)
    requires !IsPending(q, NextNode(q)) && Known(q, n) && (key in q.byKey ==> q.byKey[key] in q.nodes)
    ensures CountsMove(q, Started(q, key, cb, attempt), n)
  {
    hide NextNode, CountsMove, ChildAdded, QueryStarted, QueryFailed;
    if key in q.byKey {
      ChildMovesCount(q, key, cb, n);
    } else if Transmits(q, NextNode(q), attempt) {
      NewMovesCount(q, key, cb, n);
    } else {
      FailedMovesCount(q, key, cb, n);
    }
  }

  lemma TimeoutMovesCount(q: Queries, m: NodeRef, attempt: Attempt, n: NodeRef, retries: nat)
    requires Known(q, n) && m in q.nodes
    ensures CountsMove(q, TimedOut(q, m, attempt, retries), n)
  {
  }

  // The step starts no timer, makes no node pending and changes no count.
  predicate Calm(q: Queries, r: Queries, n: NodeRef) {
    && (IsPending(r, n) ==> IsPending(q, n)) && (n in r.armed ==> n in q.armed)
    && (n in q.nodes ==> n in r.nodes && r.nodes[n].transmitCnt == q.nodes[n].transmitCnt)
  }

  lemma CalmMovesCount(q: Queries, r: Queries, n: NodeRef)
    requires Known(q, n) && Calm(q, r, n)
    ensures CountsMove(q, r, n)
  {
  }

  lemma OthersAreCalm(s: State, step: Step, st: Settings, n: NodeRef)
    requires Safe(s, step) && !step.Start? && !step.Timeout?
    ensures Calm(s.queries, Next(s, step, st).queries, n)
  {
    hide Discarded, Begun, Ended, Updated, Discardable, Endable;
  }

  lemma StepCounts(s: State, step: Step, st: Settings, n: NodeRef, sent: nat)
    requires StateInv(s, st) && Enabled(s, step) && Safe(s, step) && Counted(s, n, sent)
    ensures Counted(Next(s, step, st), n, SentAfter(s, Next(s, step, st), n, sent))
  {
    hide StateInv, Enabled, CountsMove, Started, TimedOut, Calm;
    StepMovesCount(s, step, st, n);
    hide Next;
    CountGoesOn(s, Next(s, step, st), n, sent);
  }

  lemma StepMovesCount(s: State, step: Step, st: Settings, n: NodeRef)
    requires StateInv(s, st) && Safe(s, step)
    ensures CountsMove(s.queries, Next(s, step, st).queries, n)
  {
    hide CacheInv, CallersAgree, Good, CountsMove, Started, TimedOut, Calm, Known, IsPending;
    var q := s.queries;
    NextIdle(q, st.retries);
    NodeKnown(q, n, st.retries);
    match step
    case Start(key, _, cb, attempt) => StartMovesCount(q, key, cb, attempt, n);
    case Timeout(m, attempt) => TimeoutMovesCount(q, m, attempt, n, st.retries);
    case _ =>
      OthersAreCalm(s, step, st, n);
      CalmMovesCount(q, Next(s, step, st).queries, n);
  }

  lemma NodeKnown(q: Queries, n: NodeRef, retries: nat)
    requires Good(q, retries)
    ensures Known(q, n)
  {
    hide QueriesInv;
    if IsPending(q, n) { PendingInTables(q, n, retries); }
  }

  lemma CountGoesOn(s: State, t: State, n: NodeRef, sent: nat)
    requires Counted(s, n, sent) && CountsMove(s.queries, t.queries, n)
    ensures Counted(t, n, SentAfter(s, t, n, sent))
  {
  }

  // The count in the node of a pending query is the number of its transmissions in the run.
  lemma {:induction false} RunCounts(s: State, steps: seq<Step>, t: State, st: Settings, n: NodeRef, sent: nat)
    requires StateInv(s, st) && Runs(s, steps, t, st) && Counted(s, n, sent)
    ensures Counted(t, n, TimesSent(s, steps, st, n, sent))
    decreases |steps|
  {
    hide StateInv, Enabled, Safe, Next, Counted, SentAfter;
    if steps != [] {
      StepCounts(s, steps[0], st, n, sent);
      NextKeeps(s, steps[0], st);
      RunCounts(Next(s, steps[0], st), steps[1..], t, st, n, SentAfter(s, Next(s, steps[0], st), n, sent));
    }
  }

  // A query that a timeout completes in any run has been transmitted at least as often as is configured, and at
  // least once, unless its last attempt failed; and never more often.
  lemma GivenUpAfterAll(steps: seq<Step>, s: State, st: Settings, n: NodeRef, attempt: Attempt)
    requires Runs(Initial(), steps, s, st) && Enabled(s, Timeout(n, attempt)) && Safe(s, Timeout(n, attempt))
    requires IsPending(s.queries, n) && !IsPending(Next(s, Timeout(n, attempt), st).queries, n)
    ensures var sent := TimesSent(Initial(), steps, st, n, 0);
            && sent <= Max(1, st.retries)
            && (sent == Max(1, st.retries) || n in s.queries.armed || !Goes(attempt))
  {
    hide Runs, TimesSent, Enabled, Safe, StateInv, Next, IsPending;
    InitialHolds(st);
    RunKeeps(Initial(), steps, s, st);
    assert Counted(Initial(), n, 0) by { NothingPending(n); }
    RunCounts(Initial(), steps, s, st, n, 0);
    AtLeastOnce(s, st, n);
    TimerElapsed(s, n, attempt);
    if s.queries.nodes[n].transmitCnt < st.retries && n !in s.queries.armed && Goes(attempt) {
      TimeoutRetransmits(s, n, attempt, st);
    }
  }

  lemma TimerElapsed(s: State, n: NodeRef, attempt: Attempt)
    requires Enabled(s, Timeout(n, attempt))
    ensures n in s.queries.popped
  {
  }

  lemma NothingPending(n: NodeRef)
    ensures Counted(Initial(), n, 0)
  {
  }

  lemma AtLeastOnce(s: State, st: Settings, n: NodeRef)
    requires StateInv(s, st) && IsPending(s.queries, n)
    ensures n in s.queries.nodes && 1 <= s.queries.nodes[n].transmitCnt <= Max(1, st.retries)
  {
    hide CacheInv, CallersAgree, Max;
    PendingInTables(s.queries, n, st.retries);
    hide QueriesInv;
    PendingIsTimed(s.queries, n, st.retries);
  }
}
