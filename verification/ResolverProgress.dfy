/** How the resolver comes to rest (resolver.c). */
module ResolverProgress {
  import opened Bytes
  import opened Wrappers
  import opened DnsPacket
  import opened ResolverCache
  import opened ResolverQueries
  import opened ResolverTable
  import opened Resolver

  // ----- nothing is accepted in vain -----

  // The step accepts a query with this callback: a cached response is found, a pending query is joined, or the
  // new query is sent.
  predicate Accepts(s: State, step: Step, token: Token) {
    match step
    case BeginHit(_, _, cb, _) => cb == Some(token)
    case Start(key, _, cb, attempt) =>
      cb == Some(token) && (key in s.queries.byKey || Transmits(s.queries, NextNode(s.queries), attempt))
    case _ => false
  }

  lemma AcceptedNow(s: State, step: Step, st: Settings, token: Token)
    requires Enabled(s, step) && Safe(s, step) && Accepts(s, step, token)
    ensures token in Next(s, step, st).queries.fate
  {
    hide NextNode, NextId, Discarded, Found, IdUnused, Begun;
  }

  lemma {:induction false} FateStays(s: State, steps: seq<Step>, t: State, st: Settings, token: Token)
    requires StateInv(s, st) && Runs(s, steps, t, st) && token in s.queries.fate
    ensures token in t.queries.fate
    decreases |steps|
  {
    hide StateInv, Enabled, Safe, Next;
    if steps != [] {
      FatesKept(s, steps[0], st, token);
      NextKeeps(s, steps[0], st);
      FateStays(Next(s, steps[0], st), steps[1..], t, st, token);
    }
  }

  lemma {:induction false} RunsAppend(s: State, a: seq<Step>, m: State, b: seq<Step>, t: State, st: Settings)
    requires Runs(s, a, m, st) && Runs(m, b, t, st)
    ensures Runs(s, a + b, t, st)
    decreases |a|
  {
    hide Enabled, Safe, Next;
    if a == [] {
      assert a + b == b;
    } else {
      assert (a + b)[0] == a[0] && (a + b)[1..] == a[1..] + b;
      RunsAppend(Next(s, a[0], st), a[1..], m, b, t, st);
    }
  }

  // Whatever query a step of a run accepts has been notified exactly once when the run comes to rest, unless it
  // was cancelled silently.
  lemma AcceptedIsNotified(before: seq<Step>, s: State, step: Step, after: seq<Step>, t: State, st: Settings, token: Token)
    requires Runs(Initial(), before, s, st) && Enabled(s, step) && Safe(s, step) && Accepts(s, step, token)
    requires Runs(Next(s, step, st), after, t, st) && Quiet(t)
    ensures t.queries.notified[token] == 1
            || (token in t.queries.fate && t.queries.fate[token] == Silenced && t.queries.notified[token] == 0)
  {
    hide StateInv, Enabled, Safe, Next, Quiet, Accepts, Runs;
    InitialHolds(st);
    RunKeeps(Initial(), before, s, st);
    AcceptedNow(s, step, st, token);
    NextKeeps(s, step, st);
    FateStays(Next(s, step, st), after, t, st, token);
    OneStep(s, step, after, t, st);
    RunsAppend(Initial(), before, s, [step] + after, t, st);
    ExactlyOnce(before + ([step] + after), t, st, token);
  }

  lemma OneStep(s: State, step: Step, after: seq<Step>, t: State, st: Settings)
    requires Enabled(s, step) && Safe(s, step) && Runs(Next(s, step, st), after, t, st)
    ensures Runs(s, [step] + after, t, st)
  {
    hide Enabled, Safe, Next;
    assert ([step] + after)[1..] == after;
  }

  // ----- the resolver comes to rest -----

  // A step that brings no new work: a timer, a response, a callback, the end of a query, a cancellation.
  predicate Working(step: Step) { !step.Start? && !step.BeginHit? && !step.AddEntry? }

  // A state in which something is not finished allows such a step.
  lemma UnfinishedMoves(s: State, st: Settings) returns (step: Step)
    requires StateInv(s, st) && !Quiet(s)
    ensures Working(step) && Enabled(s, step)
  {
    hide CacheInv, QueriesInv, NoneDetached;
    var q := s.queries;
    if n :| n in q.notifying {
      step := if q.notifying[n] != [] then CallBack(n)
              else if n in s.answers then FinishResponse(n, Packet0(), 0)
              else FinishTimeout(n);
    } else if h :| h in s.callers {
      step := if s.callers[h].Some? then CallHit(h) else EndHit(h);
    } else {
      var n :| n in q.byId.Values;
      PendingTimer(q, n, st.retries);
      step := if n in q.armed then PopTimer(n) else Timeout(n, NoServer);
    }
  }

  function Packet0(): Packet { Packet(0, 0, [], [], [], []) }

  lemma PendingTimer(q: Queries, n: NodeRef, retries: nat)
    requires QueriesInv(q, retries) && n in q.byId.Values
    ensures n in q.armed || n in q.popped
  {
    hide QueriesInv;
    PendingIsTimed(q, n, retries);
  }

  // ----- and does so after finitely many steps -----

  // The work left at a node: its timers, its transmissions, the callbacks of its family, and a cancellation.
  function Weight(q: Queries, n: NodeRef, bound: nat): nat {
    q.popped[n] + (if n in q.armed then 2 else 0) + OpenWork(q, n, bound)
    + (if n in q.notifying then |q.notifying[n]| + 1 else 0)
    + (if n in q.nodes && q.nodes[n].cb.Some? then 1 else 0)
  }

  function OpenWork(q: Queries, n: NodeRef, bound: nat): nat {
    if IsPending(q, n) && n in q.nodes && q.nodes[n].transmitCnt <= bound
    then 4 * (bound - q.nodes[n].transmitCnt) + |q.nodes[n].children| + 4
    else 0
  }

  function Total(q: Queries, k: nat, bound: nat): nat {
    if k == 0 then 0 else Total(q, k - 1, bound) + Weight(q, k - 1, bound)
  }

  // One node has less to do, and no other has more.
  ghost predicate Falls(q: Queries, r: Queries, n: NodeRef, bound: nat) {
    r.nextNode == q.nextNode && n < q.nextNode && Weight(r, n, bound) < Weight(q, n, bound)
    && forall m :: m != n ==> Weight(r, m, bound) <= Weight(q, m, bound)
  }

  lemma {:induction false} TotalFalls(q: Queries, r: Queries, n: NodeRef, k: nat, bound: nat)
    requires Falls(q, r, n, bound)
    ensures Total(r, k, bound) + (if n < k then 1 else 0) <= Total(q, k, bound)
  {
    hide Weight;
    if k > 0 { TotalFalls(q, r, n, k - 1, bound); }
  }

  lemma {:induction false} TotalStays(q: Queries, r: Queries, k: nat, bound: nat)
    requires forall m :: Weight(r, m, bound) <= Weight(q, m, bound)
    ensures Total(r, k, bound) <= Total(q, k, bound)
  {
    hide Weight;
    if k > 0 { TotalStays(q, r, k - 1, bound); }
  }

  // The callers with a callback still to be called.
  function Uncalled(callers: map<Thread, Option<Token>>): set<Thread> {
    set h | h in callers && callers[h].Some?
  }

  function Measure(s: State, st: Settings): nat {
    Total(s.queries, s.queries.nextNode, Max(1, st.retries)) + |s.callers| + |Uncalled(s.callers)|
  }

  lemma CallerCalled(callers: map<Thread, Option<Token>>, h: Thread)
    requires h in callers && callers[h].Some?
    ensures |callers[h := None]| == |callers| && |Uncalled(callers[h := None])| < |Uncalled(callers)|
  {
    assert callers[h := None].Keys == callers.Keys;
    assert |callers[h := None].Keys| == |callers.Keys|;
    assert Uncalled(callers) == Uncalled(callers[h := None]) + {h};
  }

  lemma CallerEnds(callers: map<Thread, Option<Token>>, h: Thread)
    requires h in callers && callers[h] == None
    ensures |callers - {h}| < |callers| && Uncalled(callers - {h}) == Uncalled(callers)
  {
    assert callers.Keys == (callers - {h}).Keys + {h};
    assert |(callers - {h}).Keys| == |callers - {h}| && |callers.Keys| == |callers|;
  }

  lemma NodeBelow(q: Queries, n: NodeRef, retries: nat)
    requires QueriesInv(q, retries) && n in q.nodes
    ensures n < q.nextNode && q.nodes[n].transmitCnt <= Max(1, retries)
  {
    hide TablesAgree, FreeAgree, ChildrenAgree, TimersAgree, CallsAgree, FatesAgree, NotifiedOnce, Max;
  }

  lemma RemovedFalls(q: Queries, n: NodeRef, bound: nat)
    requires n in q.nodes && IsPending(q, n) && n !in q.notifying && n < q.nextNode && q.nodes[n].transmitCnt <= bound
    ensures Falls(q, Removed(q, n), n, bound)
  {
  }

  // Fewer timers mean no more work.
  ghost predicate NoMore(q: Queries, r: Queries, bound: nat) {
    r.nextNode == q.nextNode && forall m :: Weight(r, m, bound) <= Weight(q, m, bound)
  }

  lemma FewerTimers(q: Queries, armed: set<NodeRef>, popped: multiset<NodeRef>, bound: nat)
    requires armed <= q.armed && popped <= q.popped
    ensures NoMore(q, q.(armed := armed, popped := popped), bound)
  {
    var r := q.(armed := armed, popped := popped);
    forall m ensures Weight(r, m, bound) <= Weight(q, m, bound) { assert OpenWork(r, m, bound) == OpenWork(q, m, bound); }
  }

  lemma FallsFurther(q: Queries, r: Queries, t: Queries, n: NodeRef, bound: nat)
    requires NoMore(q, r, bound) && Falls(r, t, n, bound)
    ensures Falls(q, t, n, bound)
  {
    hide Weight;
  }

  lemma AnsweredFalls(q: Queries, id: uint16, retries: nat)
    requires QueriesInv(q, retries) && id in q.byId && q.byId[id] in q.nodes
    ensures Falls(q, Answered(q, id), q.byId[id], Max(1, retries))
  {
    var n, bound := q.byId[id], Max(1, retries);
    PendingNode(q, id, retries);
    NodeBelow(q, n, retries);
    hide QueriesInv, Max, Falls, NoMore;
    var r := q.(armed := q.armed - {n}, popped := q.popped);
    FewerTimers(q, r.armed, r.popped, bound);
    RemovedFalls(r, n, bound);
    FallsFurther(q, r, Removed(r, n), n, bound);
  }

  lemma PendingNode(q: Queries, id: uint16, retries: nat)
    requires QueriesInv(q, retries) && id in q.byId
    ensures var n := q.byId[id]; IsPending(q, n) && n in q.nodes && n !in q.notifying
  {
    hide FreeAgree, ChildrenAgree, TimersAgree, TransmitsBounded, CallsAgree, FatesAgree, NotifiedOnce;
  }

  lemma TimedOutFalls(q: Queries, n: NodeRef, attempt: Attempt, retries: nat)
    requires QueriesInv(q, retries) && n in q.popped && n in q.nodes
    ensures Falls(q, TimedOut(q, n, attempt, retries), n, Max(1, retries))
  {
    var bound, r := Max(1, retries), q.(armed := q.armed, popped := q.popped - multiset{n});
    NodeBelow(q, n, retries);
    TimerOwner(q, n, retries);
    if q.nodes[n].id in q.byId { NotNotifying(q, n, retries); }
    hide QueriesInv, Falls, NoMore;
    if q.nodes[n].id !in q.byId {
      StaleFalls(q, n, bound);
    } else if q.nodes[n].transmitCnt < retries && Transmits(q, n, attempt) {
      RetransmittedFalls(q, n, bound);
    } else {
      hide Max;
      FewerTimers(q, r.armed, r.popped, bound);
      RemovedFalls(r, n, bound);
      FallsFurther(q, r, Removed(r, n), n, bound);
    }
  }

  lemma StaleFalls(q: Queries, n: NodeRef, bound: nat)
    requires n in q.popped && n < q.nextNode
    ensures Falls(q, q.(popped := q.popped - multiset{n}), n, bound)
  {
  }

  lemma RetransmittedFalls(q: Queries, n: NodeRef, bound: nat)
    requires n in q.popped && n in q.nodes && n !in q.armed && IsPending(q, n) && n < q.nextNode
    requires q.nodes[n].transmitCnt < bound
    ensures Falls(q, Transmitted(q.(popped := q.popped - multiset{n}), n), n, bound)
  {
  }

  lemma NotNotifying(q: Queries, n: NodeRef, retries: nat)
    requires QueriesInv(q, retries) && IsPending(q, n)
    ensures n !in q.notifying
  {
    hide TablesAgree, FreeAgree, ChildrenAgree, TimersAgree, TransmitsBounded, CallsAgree, FatesAgree, NotifiedOnce;
  }

  lemma PoppedFalls(q: Queries, n: NodeRef, bound: nat)
    requires n in q.armed && n < q.nextNode
    ensures Falls(q, TimerPopped(q, n), n, bound)
  {
  }

  lemma CancelledFalls(q: Queries, n: NodeRef, notify: bool, bound: nat)
    requires n in q.nodes && q.nodes[n].cb.Some? && n < q.nextNode
    ensures Falls(q, Cancelled(q, n, notify), n, bound)
  {
  }

  lemma CalledFalls(q: Queries, n: NodeRef, bound: nat)
    requires n in q.notifying && q.notifying[n] != [] && q.notifying[n][0] in q.nodes && n < q.nextNode
    ensures Falls(q, NextCalled(q, n), n, bound)
  {
  }

  lemma RecycledFalls(q: Queries, n: NodeRef, bound: nat)
    requires n in q.nodes && n in q.notifying && n < q.nextNode
    ensures Falls(q, Recycled(q, n), n, bound)
  {
  }

  // The node that the step is about.
  function NodeOf(s: State, step: Step): NodeRef
    requires Working(step) && !step.CallHit? && !step.EndHit? && Safe(s, step)
  {
    match step
    case Cancel(n, _) => n
    case PopTimer(n) => n
    case Timeout(n, _) => n
    case Respond(id, _) => s.queries.byId[id]
    case CallBack(n) => n
    case FinishTimeout(n) => n
    case FinishResponse(n, _, _) => n
  }

  lemma QueriesFall(s: State, step: Step, st: Settings)
    requires StateInv(s, st) && Working(step) && !step.CallHit? && !step.EndHit? && Enabled(s, step) && Safe(s, step)
    ensures Falls(s.queries, Next(s, step, st).queries, NodeOf(s, step), Max(1, st.retries))
    ensures Next(s, step, st).callers == s.callers
  {
    hide CacheInv, CallersAgree, QueriesInv, NoneDetached, Falls, Max, TimedOut, Answered, Cancelled, TimerPopped, Recycled,
         NextCalled, Updated;
    var q, bound := s.queries, Max(1, st.retries);
    match step
    case Cancel(n, notify) => NodeBelow(q, n, st.retries); CancelledFalls(q, n, notify, bound);
    case PopTimer(n) => TimerOwner(q, n, st.retries); NodeBelow(q, n, st.retries); PoppedFalls(q, n, bound);
    case Timeout(n, attempt) => TimedOutFalls(q, n, attempt, st.retries);
    case Respond(id, _) => AnsweredFalls(q, id, st.retries);
    case CallBack(n) => CallReady(q, n, st.retries); NodeBelow(q, n, st.retries); CalledFalls(q, n, bound);
    case FinishTimeout(n) => NodeBelow(q, n, st.retries); RecycledFalls(q, n, bound);
    case FinishResponse(n, _, _) => NodeBelow(q, n, st.retries); RecycledFalls(q, n, bound);
  }

  // Every such step leaves less to do.
  lemma WorkingFalls(s: State, step: Step, st: Settings)
    requires StateInv(s, st) && Working(step) && Enabled(s, step) && Safe(s, step)
    ensures Measure(Next(s, step, st), st) < Measure(s, st)
  {
    hide CacheInv, CallersAgree, QueriesInv, Uncalled, Weight, Max, Recycled, TimedOut, Answered, Cancelled, TimerPopped,
         NextCalled, Updated, Ended, Endable;
    var q, bound := s.queries, Max(1, st.retries);
    if step.CallHit? {
      CallerCalled(s.callers, step.thread);
      SameWeights(q, s.callers[step.thread], bound);
      TotalStays(q, Called(q, s.callers[step.thread]), q.nextNode, bound);
    } else if step.EndHit? {
      CallerEnds(s.callers, step.thread);
    } else {
      QueriesFall(s, step, st);
      TotalFalls(q, Next(s, step, st).queries, NodeOf(s, step), q.nextNode, bound);
    }
  }

  lemma SameWeights(q: Queries, cb: Option<Token>, bound: nat)
    ensures forall m :: Weight(Called(q, cb), m, bound) == Weight(q, m, bound)
    ensures Called(q, cb).nextNode == q.nextNode
  {
  }

  // Without new queries a run cannot go on for ever.
  lemma {:induction false} RunsEnd(s: State, steps: seq<Step>, t: State, st: Settings)
    requires StateInv(s, st) && Runs(s, steps, t, st) && forall step :: step in steps ==> Working(step)
    ensures |steps| + Measure(t, st) <= Measure(s, st)
    decreases |steps|
  {
    hide StateInv, Enabled, Safe, Next, Measure, Working;
    if steps != [] {
      assert steps[0] in steps;
      WorkingFalls(s, steps[0], st);
      NextKeeps(s, steps[0], st);
      RunsEnd(Next(s, steps[0], st), steps[1..], t, st);
    }
  }

  // From every reachable state the resolver can come to rest.
  lemma {:induction false} ComesToRest(s: State, st: Settings) returns (steps: seq<Step>, t: State)
    requires StateInv(s, st)
    ensures Runs(s, steps, t, st) && Quiet(t) && forall step :: step in steps ==> Working(step)
    decreases Measure(s, st)
  {
    hide StateInv, Enabled, Safe, Next, Measure, Working, Quiet;
    if Quiet(s) {
      steps, t := [], s;
    } else {
      var step := UnfinishedMoves(s, st);
      EnabledIsSafe(s, step, st);
      WorkingFalls(s, step, st);
      NextKeeps(s, step, st);
      var rest, last := ComesToRest(Next(s, step, st), st);
      OneStep(s, step, rest, last, st);
      steps, t := [step] + rest, last;
    }
  }
}
