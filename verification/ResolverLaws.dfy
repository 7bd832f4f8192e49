/** Who is called along a run of the DNS resolver, in which order and with which status (resolver.c). */
module ResolverLaws {
  import opened Bytes
  import opened Wrappers
  import opened DnsPacket
  import opened ResolverCache
  import opened ResolverQueries
  import opened ResolverTable
  import opened Resolver
  import opened ResolverProgress

  // ----- the callbacks that a run calls -----

  // The callback that a step calls: of a cached response, of a query that is cancelled with notice, or the next of a
  // query that is done.
  function CalledBy(s: State, step: Step): Option<Token>
    requires Safe(s, step)
  {
    match step
    case CallHit(h) => s.callers[h]
    case Cancel(n, notify) => if notify then s.queries.nodes[n].cb else None
    case CallBack(n) => s.queries.nodes[s.queries.notifying[n][0]].cb
    case _ => None
  }

  // The callback of a query that is cancelled without notice.
  function SilencedBy(s: State, step: Step): Option<Token>
    requires Safe(s, step)
  {
    match step
    case Cancel(n, notify) => if notify then None else s.queries.nodes[n].cb
    case _ => None
  }

  function Listed(t: Option<Token>): seq<Token> { if t.Some? then [t.value] else [] }

  ghost function CallsOf(s: State, steps: seq<Step>, st: Settings): seq<Token>
    decreases |steps|
  {
    if steps == [] || !Safe(s, steps[0]) then []
    else Listed(CalledBy(s, steps[0])) + CallsOf(Next(s, steps[0], st), steps[1..], st)
  }

  ghost function SilencesOf(s: State, steps: seq<Step>, st: Settings): seq<Token>
    decreases |steps|
  {
    if steps == [] || !Safe(s, steps[0]) then []
    else Listed(SilencedBy(s, steps[0])) + SilencesOf(Next(s, steps[0], st), steps[1..], st)
  }

  // The queries change their records of what was called as follows.
  ghost predicate RecordsMove(q: Queries, r: Queries, called: Option<Token>, silenced: Option<Token>) {
    && r.notified == q.notified + multiset(Listed(called))
    && (forall t :: t in r.fate && r.fate[t] == Silenced <==> (t in q.fate && q.fate[t] == Silenced) || silenced == Some(t))
  }

  lemma QuietStep(q: Queries, r: Queries)
    requires r.notified == q.notified
    requires forall t :: t in r.fate && r.fate[t] == Silenced <==> t in q.fate && q.fate[t] == Silenced
    ensures RecordsMove(q, r, None, None)
  {
    assert multiset(Listed(None)) == multiset{};
  }

  lemma StartRecords(q: Queries, key: Key, cb: Option<Token>, attempt: Attempt)
    requires (key in q.byKey ==> q.byKey[key] in q.nodes) && NewToken(q, cb)
    ensures RecordsMove(q, Started(q, key, cb, attempt), None, None)
  {
    hide NextNode, RecordsMove, ChildAdded, QueryStarted, QueryFailed;
    if key in q.byKey {
      JoinRecords(q, key, cb);
    } else {
      NewRecords(q, key, cb);
    }
    QuietStep(q, Started(q, key, cb, attempt));
  }

  lemma JoinRecords(q: Queries, key: Key, cb: Option<Token>)
    requires key in q.byKey && q.byKey[key] in q.nodes && NewToken(q, cb)
    ensures var r := ChildAdded(q, key, cb);
            r.notified == q.notified
            && forall t :: t in r.fate && r.fate[t] == Silenced <==> t in q.fate && q.fate[t] == Silenced
  {
    hide NextNode;
  }

  lemma NewRecords(q: Queries, key: Key, cb: Option<Token>)
    requires NewToken(q, cb)
    ensures var r := QueryStarted(q, key, cb);
            r.notified == q.notified
            && forall t :: t in r.fate && r.fate[t] == Silenced <==> t in q.fate && q.fate[t] == Silenced
    ensures var r := QueryFailed(q, key, cb); r.notified == q.notified && r.fate == q.fate
  {
    hide NextNode, NextId;
  }

  // The token has not been settled.
  predicate Open(q: Queries, cb: Option<Token>) {
    cb.Some? ==> cb.value in q.fate && (q.fate[cb.value].Waiting? || q.fate[cb.value].Using?)
  }

  lemma CallRecords(q: Queries, cb: Option<Token>)
    requires Open(q, cb)
    ensures RecordsMove(q, Called(q, cb), cb, None)
  {
    if cb.Some? {
      assert multiset(Listed(cb)) == multiset{cb.value};
    } else {
      assert multiset(Listed(cb)) == multiset{};
    }
  }

  lemma CancelRecords(q: Queries, n: NodeRef, notify: bool)
    requires n in q.nodes && q.nodes[n].cb.Some? && Open(q, q.nodes[n].cb)
    ensures var cb := q.nodes[n].cb;
            RecordsMove(q, Cancelled(q, n, notify), if notify then cb else None, if notify then None else cb)
  {
    var cb := q.nodes[n].cb;
    if notify {
      CallRecords(q.(nodes := q.nodes[n := q.nodes[n].(cb := None)]), cb);
    } else {
      assert multiset(Listed(None)) == multiset{};
    }
  }

  lemma NextCallRecords(q: Queries, n: NodeRef, retries: nat)
    requires QueriesInv(q, retries) && CanCall(q, n)
    ensures RecordsMove(q, NextCalled(q, n), q.nodes[q.notifying[n][0]].cb, None)
  {
    hide QueriesInv, Unnotified, Called, RecordsMove;
    var first := q.notifying[n][0];
    FirstUnnotified(q, n, retries);
    if q.nodes[first].cb.Some? { WaitingFate(q, first, retries); }
    var r := q.(notifying := q.notifying[n := q.notifying[n][1..]]);
    CallRecords(r, q.nodes[first].cb);
    SameRecords(q, r, NextCalled(q, n), q.nodes[first].cb);
  }

  lemma SameRecords(q: Queries, q2: Queries, r: Queries, called: Option<Token>)
    requires q2.fate == q.fate && q2.notified == q.notified && RecordsMove(q2, r, called, None)
    ensures RecordsMove(q, r, called, None)
  {
  }

  lemma HitRecords(q: Queries, cb: Option<Token>, h: Thread)
    requires NewToken(q, cb)
    ensures RecordsMove(q, Used(q, cb, h), None, None)
  {
    QuietStep(q, Used(q, cb, h));
  }

  lemma StepRecords(s: State, step: Step, st: Settings)
    requires StateInv(s, st) && Enabled(s, step) && Safe(s, step)
    ensures RecordsMove(s.queries, Next(s, step, st).queries, CalledBy(s, step), SilencedBy(s, step))
  {
    hide CacheInv, Good, CallersAgree, Found, IdUnused, RecordsMove, Started, Called, Cancelled, NextCalled, Used, Discarded, Begun,
         Ended, Updated, Unnotified;
    var q := s.queries;
    match step
    case BeginHit(_, _, cb, h) => HitRecords(q, cb, h);
    case CallHit(h) =>
      CallerUses(s, h);
      CallRecords(q, s.callers[h]);
    case Start(key, _, cb, attempt) => StartRecords(q, key, cb, attempt);
    case Cancel(n, notify) =>
      PendingWaits(q, n, st.retries);
      CancelRecords(q, n, notify);
    case CallBack(n) =>
      GoodInv(q, st.retries);
      CallReady(q, n, st.retries);
      NextCallRecords(q, n, st.retries);
    case _ => QuietStep(q, Next(s, step, st).queries);
  }

  lemma GoodInv(q: Queries, retries: nat)
    requires Good(q, retries)
    ensures QueriesInv(q, retries)
  {
    hide QueriesInv;
  }

  lemma PendingWaits(q: Queries, n: NodeRef, retries: nat)
    requires Good(q, retries) && MayCancel(q, n)
    ensures Open(q, q.nodes[n].cb)
  {
    hide QueriesInv;
    assert Unnotified(q, n);
    WaitingFate(q, n, retries);
  }

  // And over several steps.
  ghost predicate RecordsMoved(q: Queries, r: Queries, calls: seq<Token>, silences: seq<Token>) {
    && r.notified == q.notified + multiset(calls)
    && (forall t :: t in r.fate && r.fate[t] == Silenced <==> (t in q.fate && q.fate[t] == Silenced) || t in silences)
  }

  lemma MovedOn(q: Queries, r: Queries, t: Queries, called: Option<Token>, silenced: Option<Token>,
                calls: seq<Token>, silences: seq<Token>)
    requires RecordsMove(q, r, called, silenced) && RecordsMoved(r, t, calls, silences)
    ensures RecordsMoved(q, t, Listed(called) + calls, Listed(silenced) + silences)
  {
    assert multiset(Listed(called) + calls) == multiset(Listed(called)) + multiset(calls);
  }

  // Exactly those callbacks are recorded as called, and those as silenced, that the steps of the run call and cancel.
  lemma {:induction false} RunRecords(s: State, steps: seq<Step>, t: State, st: Settings)
    requires StateInv(s, st) && Runs(s, steps, t, st)
    ensures RecordsMoved(s.queries, t.queries, CallsOf(s, steps, st), SilencesOf(s, steps, st))
    decreases |steps|
  {
    hide StateInv, Enabled, Safe, Next, CalledBy, SilencedBy, RecordsMove, RecordsMoved, Listed;
    if steps == [] {
      NotMoved(s.queries);
    } else {
      var r := Next(s, steps[0], st);
      StepRecords(s, steps[0], st);
      NextKeeps(s, steps[0], st);
      RunRecords(r, steps[1..], t, st);
      MovedOn(s.queries, r.queries, t.queries, CalledBy(s, steps[0]), SilencedBy(s, steps[0]),
              CallsOf(r, steps[1..], st), SilencesOf(r, steps[1..], st));
    }
  }

  lemma NotMoved(q: Queries)
    ensures RecordsMoved(q, q, [], [])
  {
  }

  // So no callback is called twice in a run, and a query that has been cancelled without notice is not called.
  lemma CalledOnceInRun(steps: seq<Step>, s: State, st: Settings, token: Token)
    requires Runs(Initial(), steps, s, st)
    ensures multiset(CallsOf(Initial(), steps, st))[token] <= 1
    ensures !(token in CallsOf(Initial(), steps, st) && token in SilencesOf(Initial(), steps, st))
  {
    hide Runs, CallsOf, SilencesOf, StateInv;
    InitialHolds(st);
    RunRecords(Initial(), steps, s, st);
    NeverTwice(steps, s, st, token);
    NoneCalledBefore();
    assert multiset(CallsOf(Initial(), steps, st)) == s.queries.notified;
    assert token in CallsOf(Initial(), steps, st) ==> s.queries.notified[token] > 0;
  }

  lemma NoneCalledBefore()
    ensures Initial().queries.notified == multiset{}
  {
  }

  // ----- the order of the callbacks of one query -----

  // The callbacks of nodes, where there are some.
  function CallbacksOf(q: Queries, ns: seq<NodeRef>): (cbs: seq<Option<Token>>)
    ensures |cbs| == |ns|
  {
    seq(|ns|, i requires 0 <= i < |ns| => if ns[i] in q.nodes then q.nodes[ns[i]].cb else None)
  }

  // What is still to be called for the query of a node: its own callback and then those of the queries that have
  // joined it, in the order of their calls of start_query.
  function DueAfter(s: State, step: Step, t: State, n: NodeRef, due: seq<Option<Token>>): seq<Option<Token>> {
    if !IsRoot(t.queries, n) then []
    else if !IsRoot(s.queries, n) then (if step.Start? then [step.cb] else [])
    else match step
         case Start(key, _, cb, _) => if key in s.queries.byKey && s.queries.byKey[key] == n then due + [cb] else due
         case Cancel(m, _) => if m == n && due != [] then [None] + due[1..] else due
         case CallBack(m) => if m == n && due != [] then due[1..] else due
         case _ => due
  }

  ghost function DueInRun(s: State, steps: seq<Step>, st: Settings, n: NodeRef, due: seq<Option<Token>>): seq<Option<Token>>
    decreases |steps|
  {
    if steps == [] || !Safe(s, steps[0]) then due
    else
      var t := Next(s, steps[0], st);
      DueInRun(t, steps[1..], st, n, DueAfter(s, steps[0], t, n, due))
  }

  // The nodes hold what is due.
  ghost predicate DueHeld(q: Queries, n: NodeRef, due: seq<Option<Token>>) {
    if IsPending(q, n) then n in q.nodes && due == CallbacksOf(q, Family(q, n))
    else if n in q.notifying then due == CallbacksOf(q, q.notifying[n])
    else due == []
  }

  // The nodes of the family of a root, none of them idle, each with its place.
  ghost predicate FamilyKnown(q: Queries, n: NodeRef) {
    n in q.nodes && n !in q.nodes[n].children
    && (forall m :: m in q.nodes[n].children ==> m in q.nodes && m in q.place && q.place[m] == ChildOf(n))
    && (n in q.notifying ==> forall m :: m in q.notifying[n] ==> m in Family(q, n))
    && n in q.place && (n in q.notifying <==> q.place[n] == Notifying)
  }

  lemma RootFamily(q: Queries, n: NodeRef, retries: nat)
    requires QueriesInv(q, retries) && IsRoot(q, n)
    ensures FamilyKnown(q, n)
  {
    hide TablesAgree, FreeAgree, TimersAgree, TransmitsBounded, FatesAgree, NotifiedOnce, Distinct;
  }

  // The step leaves the query of the node as it is.
  ghost predicate SameDue(q: Queries, r: Queries, n: NodeRef)
    requires n in q.nodes
  {
    && n in r.nodes && r.nodes[n].children == q.nodes[n].children
    && (IsPending(r, n) <==> IsPending(q, n)) && (n in r.notifying <==> n in q.notifying)
    && (n in q.notifying && n in r.notifying ==> r.notifying[n] == q.notifying[n])
    && (forall m :: m in Family(q, n) && m in q.nodes ==> m in r.nodes && r.nodes[m].cb == q.nodes[m].cb)
  }

  lemma DueStays(q: Queries, r: Queries, n: NodeRef, due: seq<Option<Token>>)
    requires FamilyKnown(q, n) && SameDue(q, r, n) && DueHeld(q, n, due)
    ensures DueHeld(r, n, due)
  {
    if IsPending(q, n) {
      assert CallbacksOf(q, Family(q, n)) == CallbacksOf(r, Family(q, n));
    } else if n in q.notifying {
      assert CallbacksOf(q, q.notifying[n]) == CallbacksOf(r, q.notifying[n]);
    }
  }

  lemma NothingDue(q: Queries, n: NodeRef, retries: nat)
    requires QueriesInv(q, retries) && !IsRoot(q, n)
    ensures DueHeld(q, n, [])
  {
    hide TablesAgree, FreeAgree, ChildrenAgree, TimersAgree, TransmitsBounded, CallsAgree, FatesAgree, NotifiedOnce;
  }

  // The node that a query takes is in no family.
  lemma TakenNode(q: Queries, n: NodeRef, retries: nat)
    requires QueriesInv(q, retries)
    ensures !IsRoot(q, NextNode(q))
    ensures IsRoot(q, n) ==> n in q.nodes && NextNode(q) !in Family(q, n)
  {
    NextIsIdle(q);
    if IsRoot(q, n) { RootFamily(q, n, retries); }
    hide TablesAgree, FreeAgree, ChildrenAgree, TimersAgree, TransmitsBounded, CallsAgree, FatesAgree, NotifiedOnce, NextNode;
  }

  lemma JoinDue(q: Queries, key: Key, cb: Option<Token>, n: NodeRef, due: seq<Option<Token>>)
    requires key in q.byKey && q.byKey[key] in q.nodes && FamilyKnown(q, n) && DueHeld(q, n, due) && n != NextNode(q)
    requires NextNode(q) !in Family(q, n) && NextNode(q) != q.byKey[key] && IsPending(q, q.byKey[key])
    ensures DueHeld(ChildAdded(q, key, cb), n, if q.byKey[key] == n then due + [cb] else due)
  {
    hide NextNode;
    var c, r := NextNode(q), ChildAdded(q, key, cb);
    if q.byKey[key] == n {
      assert Family(r, n) == Family(q, n) + [c];
      assert CallbacksOf(r, Family(r, n)) == CallbacksOf(q, Family(q, n)) + [cb];
    } else {
      DueStays(q, r, n, due);
    }
  }

  lemma NewDue(q: Queries, key: Key, cb: Option<Token>, n: NodeRef, due: seq<Option<Token>>)
    requires FamilyKnown(q, n) && DueHeld(q, n, due) && n != NextNode(q) && NextNode(q) !in Family(q, n)
    ensures DueHeld(QueryStarted(q, key, cb), n, due) && DueHeld(QueryFailed(q, key, cb), n, due)
  {
    hide NextNode, NextId;
    DueStays(q, QueryStarted(q, key, cb), n, due);
    DueStays(q, QueryFailed(q, key, cb), n, due);
  }

  lemma FirstDue(q: Queries, key: Key, cb: Option<Token>)
    ensures DueHeld(QueryStarted(q, key, cb), NextNode(q), [cb])
  {
    hide NextNode, NextId;
    var n, r := NextNode(q), QueryStarted(q, key, cb);
    assert Family(r, n) == [n];
    assert CallbacksOf(r, [n]) == [cb];
  }

  lemma CancelDue(q: Queries, m: NodeRef, notify: bool, n: NodeRef, due: seq<Option<Token>>)
    requires MayCancel(q, m) && FamilyKnown(q, n) && DueHeld(q, n, due)
    ensures DueHeld(Cancelled(q, m, notify), n, if m == n && due != [] then [None] + due[1..] else due)
  {
    var r := Cancelled(q, m, notify);
    if m == n {
      var rest := q.nodes[n].children;
      assert CallbacksOf(r, Family(r, n)) == [None] + CallbacksOf(q, Family(q, n))[1..] by {
        forall i | 0 < i <= |rest| ensures Family(q, n)[i] != n { assert Family(q, n)[i] == rest[i - 1]; }
      }
    } else {
      assert m !in Family(q, n);
      DueStays(q, r, n, due);
    }
  }

  lemma CallDue(q: Queries, m: NodeRef, n: NodeRef, due: seq<Option<Token>>)
    requires CanCall(q, m) && FamilyKnown(q, n) && DueHeld(q, n, due)
    ensures DueHeld(NextCalled(q, m), n, if m == n && due != [] then due[1..] else due)
  {
    var r := NextCalled(q, m);
    assert r.nodes == q.nodes && r.place == q.place;
    if m == n {
      assert CallbacksOf(r, r.notifying[n]) == CallbacksOf(q, q.notifying[n])[1..];
    } else {
      DueStays(q, r, n, due);
    }
  }

  lemma RemoveDue(q: Queries, m: NodeRef, n: NodeRef, due: seq<Option<Token>>)
    requires m in q.nodes && IsPending(q, m) && FamilyKnown(q, n) && DueHeld(q, n, due)
    ensures DueHeld(Removed(q, m), n, due)
  {
    var r := Removed(q, m);
    if m == n {
      assert r.notifying[n] == Family(q, n);
      assert CallbacksOf(r, r.notifying[n]) == CallbacksOf(q, Family(q, n));
    } else {
      DueStays(q, r, n, due);
    }
  }

  lemma TransmitDue(q: Queries, m: NodeRef, n: NodeRef, due: seq<Option<Token>>)
    requires m in q.nodes && FamilyKnown(q, n) && DueHeld(q, n, due)
    ensures DueHeld(Transmitted(q, m), n, due)
  {
    DueStays(q, Transmitted(q, m), n, due);
  }

  // Timers do not matter.
  lemma TimersAside(q: Queries, r: Queries, n: NodeRef, due: seq<Option<Token>>)
    requires r == q.(armed := r.armed, popped := r.popped) && DueHeld(q, n, due)
    ensures DueHeld(r, n, due) && (FamilyKnown(q, n) ==> FamilyKnown(r, n))
  {
    assert n in q.nodes ==> Family(r, n) == Family(q, n);
    if n in q.nodes { assert CallbacksOf(r, Family(q, n)) == CallbacksOf(q, Family(q, n)); }
    if n in q.notifying { assert CallbacksOf(r, q.notifying[n]) == CallbacksOf(q, q.notifying[n]); }
  }

  lemma TimeoutDue(q: Queries, m: NodeRef, attempt: Attempt, n: NodeRef, due: seq<Option<Token>>, retries: nat)
    requires QueriesInv(q, retries) && m in q.popped && FamilyKnown(q, n) && DueHeld(q, n, due)
    ensures m in q.nodes && DueHeld(TimedOut(q, m, attempt, retries), n, due)
  {
    hide QueriesInv, FamilyKnown, DueHeld, Transmitted, Removed;
    TimerOwner(q, m, retries);
    var r := q.(popped := q.popped - multiset{m});
    TimersAside(q, r, n, due);
    if q.nodes[m].id in q.byId {
      TransmitDue(r, m, n, due);
      RemoveDue(r, m, n, due);
    }
  }

  lemma RecycleDue(q: Queries, m: NodeRef, n: NodeRef, due: seq<Option<Token>>, retries: nat)
    requires QueriesInv(q, retries) && m in q.notifying && m in q.nodes && FamilyKnown(q, m)
    requires FamilyKnown(q, n) && DueHeld(q, n, due) && m != n && IsRoot(q, n)
    ensures DueHeld(Recycled(q, m), n, due)
  {
    hide QueriesInv;
    DueStays(q, Recycled(q, m), n, due);
  }

  lemma StartDue(q: Queries, key: Key, cb: Option<Token>, attempt: Attempt, n: NodeRef, due: seq<Option<Token>>, retries: nat)
    requires QueriesInv(q, retries) && IsRoot(q, n) && DueHeld(q, n, due)
    ensures key in q.byKey ==> q.byKey[key] in q.nodes
    ensures DueHeld(Started(q, key, cb, attempt), n, if key in q.byKey && q.byKey[key] == n then due + [cb] else due)
  {
    hide QueriesInv, DueHeld, FamilyKnown, NextNode, ChildAdded, QueryStarted, QueryFailed;
    RootFamily(q, n, retries);
    TakenNode(q, n, retries);
    if key in q.byKey {
      PendingByKey(q, key, retries);
      JoinDue(q, key, cb, n, due);
    } else {
      NewDue(q, key, cb, n, due);
    }
  }

  // The query that becomes a root in a step is that of the node taken by start_query.
  lemma NewRoot(q: Queries, key: Key, cb: Option<Token>, attempt: Attempt, n: NodeRef)
    requires (key in q.byKey ==> q.byKey[key] in q.nodes) && !IsRoot(q, n) && IsRoot(Started(q, key, cb, attempt), n)
    ensures DueHeld(Started(q, key, cb, attempt), n, [cb])
  {
    hide NextNode, NextId, DueHeld;
    FirstDue(q, key, cb);
  }

  lemma NoOtherRoot(s: State, step: Step, st: Settings, n: NodeRef)
    requires Safe(s, step) && !step.Start? && !IsRoot(s.queries, n)
    requires step.Timeout? ==> (s.queries.nodes[step.node].id in s.queries.byId <==> IsPending(s.queries, step.node))
    requires step.Respond? ==> IsPending(s.queries, s.queries.byId[step.id])
    ensures !IsRoot(Next(s, step, st).queries, n)
  {
    hide Discarded, Begun, Ended, Updated, Discardable, Endable;
  }

  lemma RootGoesOn(s: State, step: Step, st: Settings, n: NodeRef, due: seq<Option<Token>>)
    requires StateInv(s, st) && Enabled(s, step) && Safe(s, step)
    requires IsRoot(s.queries, n) && IsRoot(Next(s, step, st).queries, n) && DueHeld(s.queries, n, due)
    ensures DueHeld(Next(s, step, st).queries, n, DueAfter(s, step, Next(s, step, st), n, due))
  {
    hide CacheInv, CallersAgree, QueriesInv, NoneDetached, FamilyKnown, Found, IdUnused, NewToken, Started, TimedOut, Cancelled,
         NextCalled, Removed, Recycled, Discarded, Begun, Ended, Updated;
    var q := s.queries;
    RootFamily(q, n, st.retries);
    match step
    case Start(key, _, cb, attempt) => StartDue(q, key, cb, attempt, n, due, st.retries);
    case Cancel(m, notify) => CancelDue(q, m, notify, n, due);
    case Timeout(m, attempt) => TimeoutDue(q, m, attempt, n, due, st.retries);
    case Respond(id, _) => AnsweredDue(q, id, n, due, st.retries);
    case CallBack(m) =>
      CallReady(q, m, st.retries);
      CallDue(q, m, n, due);
    case FinishTimeout(m) => FinishedDue(q, m, n, due, st.retries);
    case FinishResponse(m, _, _) => FinishedDue(q, m, n, due, st.retries);
    case PopTimer(m) => TimersAside(q, TimerPopped(q, m), n, due);
    case BeginHit(_, _, cb, h) => HitAside(q, Used(q, cb, h), n, due);
    case CallHit(h) => HitAside(q, Called(q, s.callers[h]), n, due);
    case _ =>
  }

  lemma AnsweredDue(q: Queries, id: uint16, n: NodeRef, due: seq<Option<Token>>, retries: nat)
    requires QueriesInv(q, retries) && id in q.byId && FamilyKnown(q, n) && DueHeld(q, n, due)
    ensures q.byId[id] in q.nodes && DueHeld(Answered(q, id), n, due)
  {
    hide QueriesInv, FamilyKnown, DueHeld, Removed;
    Tables(q, retries);
    var m := q.byId[id];
    var r := q.(armed := q.armed - {m});
    TimersAside(q, r, n, due);
    RemoveDue(r, m, n, due);
  }

  lemma FinishedDue(q: Queries, m: NodeRef, n: NodeRef, due: seq<Option<Token>>, retries: nat)
    requires QueriesInv(q, retries) && m in q.notifying && m in q.nodes && IsRoot(q, n) && IsRoot(Recycled(q, m), n)
    requires DueHeld(q, n, due)
    ensures DueHeld(Recycled(q, m), n, due)
  {
    hide QueriesInv, DueHeld;
    RootFamily(q, n, retries);
    NotifyingRoot(q, m, retries);
    RootFamily(q, m, retries);
    RecycleDue(q, m, n, due, retries);
  }

  lemma NotifyingRoot(q: Queries, m: NodeRef, retries: nat)
    requires QueriesInv(q, retries) && m in q.notifying
    ensures IsRoot(q, m)
  {
    hide TablesAgree, FreeAgree, ChildrenAgree, TimersAgree, TransmitsBounded, CallsAgree, FatesAgree, NotifiedOnce;
  }

  lemma HitAside(q: Queries, r: Queries, n: NodeRef, due: seq<Option<Token>>)
    requires r == q.(fate := r.fate, notified := r.notified) && DueHeld(q, n, due)
    ensures DueHeld(r, n, due)
  {
    if n in q.nodes {
      assert Family(r, n) == Family(q, n);
      assert CallbacksOf(r, Family(q, n)) == CallbacksOf(q, Family(q, n));
    }
    if n in q.notifying { assert CallbacksOf(r, q.notifying[n]) == CallbacksOf(q, q.notifying[n]); }
  }

  lemma StepDue(s: State, step: Step, st: Settings, n: NodeRef, due: seq<Option<Token>>)
    requires StateInv(s, st) && Enabled(s, step) && Safe(s, step) && DueHeld(s.queries, n, due)
    ensures DueHeld(Next(s, step, st).queries, n, DueAfter(s, step, Next(s, step, st), n, due))
  {
    hide CacheInv, CallersAgree, QueriesInv, NoneDetached, DueHeld, Next, IsRoot, Enabled, Safe;
    var t := Next(s, step, st);
    NextKeeps(s, step, st);
    if !IsRoot(t.queries, n) {
      NothingDue(t.queries, n, st.retries);
    } else if IsRoot(s.queries, n) {
      RootGoesOn(s, step, st, n, due);
    } else {
      BecomesRoot(s, step, st, n);
    }
  }

  lemma BecomesRoot(s: State, step: Step, st: Settings, n: NodeRef)
    requires StateInv(s, st) && Enabled(s, step) && Safe(s, step)
    requires !IsRoot(s.queries, n) && IsRoot(Next(s, step, st).queries, n)
    ensures step.Start? && DueHeld(Next(s, step, st).queries, n, [step.cb])
  {
    hide CacheInv, CallersAgree, QueriesInv, NoneDetached, DueHeld, IsRoot, Started, Found, IdUnused;
    if step.Start? {
      StartedNext(s, step, st);
      NewRoot(s.queries, step.key, step.cb, step.attempt, n);
    } else {
      if step.Timeout? { TimerOwner(s.queries, step.node, st.retries); }
      if step.Respond? { Tables(s.queries, st.retries); }
      NoOtherRoot(s, step, st, n);
      assert false;
    }
  }

  lemma StartedNext(s: State, step: Step, st: Settings)
    requires Safe(s, step) && step.Start?
    ensures Next(s, step, st).queries == Started(s.queries, step.key, step.cb, step.attempt)
  {
    hide Started, Discarded;
  }

  // What is due for a query is what its nodes hold, after any run.
  lemma {:induction false} RunDue(s: State, steps: seq<Step>, t: State, st: Settings, n: NodeRef, due: seq<Option<Token>>)
    requires StateInv(s, st) && Runs(s, steps, t, st) && DueHeld(s.queries, n, due)
    ensures DueHeld(t.queries, n, DueInRun(s, steps, st, n, due))
    decreases |steps|
  {
    hide StateInv, Enabled, Safe, Next, DueHeld, DueAfter;
    if steps != [] {
      var r := Next(s, steps[0], st);
      StepDue(s, steps[0], st, n, due);
      NextKeeps(s, steps[0], st);
      RunDue(r, steps[1..], t, st, n, DueAfter(s, steps[0], r, n, due));
    }
  }

  // In any run, the callbacks of a query and of those that joined it are called in the order of their calls of
  // start_query, one after the other, and the nodes are not put away before the last.
  lemma CalledInOrder(steps: seq<Step>, s: State, st: Settings, n: NodeRef)
    requires Runs(Initial(), steps, s, st)
    ensures var due := DueInRun(Initial(), steps, st, n, []);
            && (Enabled(s, CallBack(n)) && Safe(s, CallBack(n)) ==> due != [] && CalledBy(s, CallBack(n)) == due[0])
            && (Enabled(s, FinishTimeout(n)) ==> due == [])
            && (forall p, now :: Enabled(s, FinishResponse(n, p, now)) ==> due == [])
  {
    hide Runs, DueInRun, StateInv;
    InitialHolds(st);
    RunKeeps(Initial(), steps, s, st);
    RunDue(Initial(), steps, s, st, n, []);
    if n in s.queries.notifying { NotifyingIs(s, st, n); }
  }

  lemma NotifyingIs(s: State, st: Settings, n: NodeRef)
    requires StateInv(s, st) && n in s.queries.notifying
    ensures !IsPending(s.queries, n)
  {
    hide CacheInv, CallersAgree, TablesAgree, FreeAgree, ChildrenAgree, TimersAgree, TransmitsBounded, CallsAgree, FatesAgree,
         NotifiedOnce;
  }

  // ----- the status of a response -----

  // The status with which the query of a node was answered, until its nodes are put away.
  function StatusAfter(s: State, step: Step, n: NodeRef, status: Option<int>): Option<int> {
    match step
    case Respond(id, given) => if id in s.queries.byId && s.queries.byId[id] == n then Some(given) else status
    case FinishResponse(m, _, _) => if m == n then None else status
    case _ => status
  }

  ghost function StatusInRun(s: State, steps: seq<Step>, st: Settings, n: NodeRef, status: Option<int>): Option<int>
    decreases |steps|
  {
    if steps == [] || !Safe(s, steps[0]) then status
    else StatusInRun(Next(s, steps[0], st), steps[1..], st, n, StatusAfter(s, steps[0], n, status))
  }

  predicate StatusHeld(s: State, n: NodeRef, status: Option<int>) {
    if status.Some? then n in s.answers && s.answers[n] == status.value else n !in s.answers
  }

  lemma StepStatus(s: State, step: Step, st: Settings, n: NodeRef, status: Option<int>)
    requires Safe(s, step) && StatusHeld(s, n, status)
    ensures StatusHeld(Next(s, step, st), n, StatusAfter(s, step, n, status))
  {
    hide Started, TimedOut, Answered, Cancelled, NextCalled, Recycled, Used, Called, Discarded, Begun, Ended, Updated;
  }

  // What goes into the cache when a query has been answered is the response with the status it came with.
  lemma {:induction false} RunStatus(s: State, steps: seq<Step>, t: State, st: Settings, n: NodeRef, status: Option<int>)
    requires Runs(s, steps, t, st) && StatusHeld(s, n, status)
    ensures StatusHeld(t, n, StatusInRun(s, steps, st, n, status))
    decreases |steps|
  {
    hide Enabled, Safe, Next, StatusAfter, StatusHeld;
    if steps != [] {
      StepStatus(s, steps[0], st, n, status);
      RunStatus(Next(s, steps[0], st), steps[1..], t, st, n, StatusAfter(s, steps[0], n, status));
    }
  }

  // ----- which queries are pending -----

  lemma StartedAs(q: Queries, key: Key, cb: Option<Token>, n: NodeRef)
    requires n == NextNode(q)
    ensures var r := QueryStarted(q, key, cb);
            && r.lastId == NextId(q.lastId) && r.nodes == q.nodes[n := Node(q.lastId, key, 1, cb, [])]
            && r.byId == q.byId[q.lastId := n] && r.byKey == q.byKey[key := n] && r.armed == q.armed + {n}
            && r.fate == WaitingAt(q.fate, cb, n)
  {
    hide NextNode, NextId;
  }

  lemma FailedAs(q: Queries, key: Key, cb: Option<Token>, n: NodeRef)
    requires n == NextNode(q)
    ensures var r := QueryFailed(q, key, cb);
            && r.lastId == NextId(q.lastId) && r.byId == q.byId && r.byKey == q.byKey && r.armed == q.armed && r.fate == q.fate
            && r.free == (if q.free == [] then [] else q.free[1..]) + [n]
  {
    hide NextNode, NextId;
  }

  lemma JoinedAs(q: Queries, key: Key, cb: Option<Token>)
    requires key in q.byKey && q.byKey[key] in q.nodes
    ensures ChildAdded(q, key, cb).byKey == q.byKey
  {
    hide NextNode;
  }

  lemma StartedKeys(q: Queries, k: Key, cb: Option<Token>, attempt: Attempt)
    requires k in q.byKey ==> q.byKey[k] in q.nodes
    ensures var r := Started(q, k, cb, attempt);
            r.byKey == q.byKey || (k !in q.byKey && r.byKey == q.byKey[k := NextNode(q)])
  {
    hide NextNode, ChildAdded, QueryStarted, QueryFailed;
    if k in q.byKey { JoinedAs(q, k, cb); }
    StartedAs(q, k, cb, NextNode(q));
    FailedAs(q, k, cb, NextNode(q));
  }

  lemma RemovedKeys(q: Queries, m: NodeRef, key: Key)
    requires TablesAgree(q) && m in q.nodes && IsPending(q, m)
    ensures var r := Removed(q, m);
            && (key in r.byKey <==> key in q.byKey && q.byKey[key] != m)
            && (key in r.byKey ==> r.byKey[key] == q.byKey[key])
  {
  }

  lemma TimedOutKeys(q: Queries, m: NodeRef, attempt: Attempt, retries: nat, key: Key)
    requires TablesAgree(q) && m in q.nodes && (q.nodes[m].id in q.byId <==> IsPending(q, m))
    ensures var r := TimedOut(q, m, attempt, retries);
            && (key in r.byKey ==> key in q.byKey && r.byKey[key] == q.byKey[key])
            && (key in q.byKey && key !in r.byKey ==> q.byKey[key] == m)
  {
    hide TablesAgree, Removed, IsPending;
    if q.nodes[m].id in q.byId { RemovedKeys(q, m, key); }
    PoppedRemoved(q, m);
  }

  lemma PoppedRemoved(q: Queries, m: NodeRef)
    requires m in q.nodes
    ensures var popped := q.popped - multiset{m};
            Removed(q.(popped := popped), m).byKey == Removed(q, m).byKey
  {
  }

  lemma AnsweredKeys(q: Queries, id: uint16, key: Key)
    requires TablesAgree(q) && id in q.byId
    ensures q.byId[id] in q.nodes
    ensures var r := Answered(q, id);
            && (key in r.byKey <==> key in q.byKey && q.byKey[key] != q.byId[id])
            && (key in r.byKey ==> r.byKey[key] == q.byKey[key])
  {
    RemovedKeys(q, q.byId[id], key);
    hide TablesAgree;
  }

  // A query becomes pending by a call of start_query for its key, and ceases to be by a response with its identifier or
  // by its own timer; a response ends it in any case.
  lemma PendingBetween(s: State, step: Step, st: Settings, key: Key)
    requires StateInv(s, st) && Enabled(s, step) && Safe(s, step)
    ensures var q, r := s.queries, Next(s, step, st).queries;
            && (key in r.byKey && key !in q.byKey ==> step.Start? && step.key == key)
            && (key in q.byKey && key in r.byKey ==> r.byKey[key] == q.byKey[key])
            && (key in q.byKey && key !in r.byKey ==>
                  || (step.Respond? && q.byId[step.id] == q.byKey[key])
                  || (step.Timeout? && step.node == q.byKey[key]))
            && (step.Respond? && key in q.byKey && q.byId[step.id] == q.byKey[key] ==> key !in r.byKey)
  {
    hide CacheInv, CallersAgree, QueriesInv, NoneDetached, TablesAgree, Found, IdUnused, NewToken, Started, TimedOut, Answered,
         Recycled, Discarded, Begun, Ended, Updated, Discardable, Endable;
    var q := s.queries;
    Tables(q, st.retries);
    match step
    case Start(k, _, cb, attempt) => StartedKeys(q, k, cb, attempt);
    case Timeout(m, attempt) =>
      TimerOwner(q, m, st.retries);
      TimedOutKeys(q, m, attempt, st.retries, key);
    case Respond(id, _) => AnsweredKeys(q, id, key);
    case FinishTimeout(m) => RecycledKeys(q, m);
    case FinishResponse(m, _, _) => RecycledKeys(q, m);
    case _ =>
  }

  lemma RecycledKeys(q: Queries, m: NodeRef)
    requires m in q.nodes
    ensures Recycled(q, m).byKey == q.byKey
  {
  }

  // A query for a key that is not pending takes the first free node, or a new one, and the next identifier, which is
  // never zero; when it can be sent it is pending from then on, sent once and with its timer running; otherwise its
  // node is the last of the free ones.
  lemma StartSends(s: State, key: Key, now: int, cb: Option<Token>, attempt: Attempt, st: Settings)
    requires Enabled(s, Start(key, now, cb, attempt)) && Safe(s, Start(key, now, cb, attempt)) && key !in s.queries.byKey
    ensures var q, r := s.queries, Next(s, Start(key, now, cb, attempt), st).queries;
            var n := if q.free == [] then q.nextNode else q.free[0];
            && r.lastId == (if q.lastId == 65535 then 1 else q.lastId + 1)
            && if n !in q.armed && (attempt == Sent || attempt == SocketBusy)
               then && r.nodes == q.nodes[n := Node(q.lastId, key, 1, cb, [])]
                    && r.byId == q.byId[q.lastId := n] && r.byKey == q.byKey[key := n] && r.armed == q.armed + {n}
                    && r.fate == if cb.Some? then q.fate[cb.value := Waiting(n)] else q.fate
               else && r.byId == q.byId && r.byKey == q.byKey && r.armed == q.armed && r.fate == q.fate
                    && r.free == (if q.free == [] then [] else q.free[1..]) + [n]
  {
    hide Discarded, Found, IdUnused, NewToken, QueryStarted, QueryFailed;
    var q := s.queries;
    var n := NextNode(q);
    StartedAs(q, key, cb, n);
    FailedAs(q, key, cb, n);
  }

  // A cached response goes to the callback of the query that finds it.
  lemma HitIsForCaller(s: State, key: Key, now: int, cb: Option<Token>, h: Thread, st: Settings)
    requires Enabled(s, BeginHit(key, now, cb, h)) && Safe(s, BeginHit(key, now, cb, h))
    ensures var t := Next(s, BeginHit(key, now, cb, h), st);
            && h in t.callers && t.callers[h] == cb && (cb.Some? ==> cb.value in t.queries.fate)
            && Safe(t, CallHit(h)) && CalledBy(t, CallHit(h)) == cb
            && Next(t, CallHit(h), st).callers[h] == None
  {
    hide Begun, Found, NewToken;
  }

  // When the last callback of a query has returned, its nodes are put behind the free ones, the query last.
  lemma FinishFrees(s: State, step: Step, st: Settings)
    requires Safe(s, step) && (step.FinishTimeout? || step.FinishResponse?)
    ensures Next(s, step, st).queries.free == s.queries.free + (s.queries.nodes[step.node].children + [step.node])
  {
    hide Updated, Discardable, Freed;
  }
}
