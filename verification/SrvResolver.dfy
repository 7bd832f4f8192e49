/** Ordering of SRV targets (srv_resolver.c).

    The records of an answer become an array of at most eight targets, which is sorted by priority in
    place; then each position in turn is given one of the targets of its priority, drawn by weight (the
    weight selection rule of RFC 2782). */
module SrvResolver {
  import opened Bytes

  const TYPE_SRV: uint16 := 33
  const MAX_ADDR := 8         // PJ_DNS_SRV_MAX_ADDR
  const MAX_HOSTNAME := 128   // PJ_MAX_HOSTNAME

  datatype Server = Server(name: seq<byte>, port: uint16, priority: uint16, weight: uint16)

  datatype AnswerRecord = AnswerRecord(rtype: uint16, server: Server)

  // One element of the query's array of targets.
  datatype Target = Target(server: Server, sum: uint32)

  // ----- which records are taken -----

  predicate Acceptable(r: AnswerRecord) {
    r.rtype == TYPE_SRV && |r.server.name| <= MAX_HOSTNAME
  }

  function Accepted(answers: seq<AnswerRecord>): seq<Server> {
    if answers == [] then []
    else (if Acceptable(answers[0]) then [answers[0].server] else []) + Accepted(answers[1..])
  }

  lemma {:induction false} AcceptedAppend(a: seq<AnswerRecord>, b: seq<AnswerRecord>)
    ensures Accepted(a + b) == Accepted(a) + Accepted(b)
  {
    hide Acceptable;
    if a == [] {
      assert a + b == b;
    } else {
      assert (a + b)[1..] == a[1..] + b;
      AcceptedAppend(a[1..], b);
      var head := if Acceptable(a[0]) then [a[0].server] else [];
      assert head + (Accepted(a[1..]) + Accepted(b)) == (head + Accepted(a[1..])) + Accepted(b);
    }
  }

  function Taken(answers: seq<AnswerRecord>): (s: seq<Server>)
    ensures |s| <= MAX_ADDR && s <= Accepted(answers)
  {
    var all := Accepted(answers);
    if |all| <= MAX_ADDR then all else all[..MAX_ADDR]
  }

  // ----- what the two passes mean -----

  ghost predicate ByPriority(s: seq<Server>) {
    forall j, k :: 0 <= j < k < |s| ==> s[j].priority <= s[k].priority
  }

  function SwapAt<T>(s: seq<T>, i: nat, j: nat): seq<T>
    requires i < |s| && j < |s|
  {
    s[i := s[j]][j := s[i]]
  }

  // The weight of s[i..j).
  function Weight(s: seq<Server>, i: nat, j: nat): nat
    requires i <= j <= |s|
  {
    if i == j then 0 else Weight(s, i, j - 1) + s[j - 1].weight
  }

  // The end of the run of servers with the priority of s[i], looking from `j` on.
  function GroupEnd(s: seq<Server>, i: nat, j: nat): (e: nat)
    requires i < j <= |s|
    ensures j <= e <= |s|
    ensures forall k :: j <= k < e ==> s[k].priority == s[i].priority
    ensures e < |s| ==> s[e].priority != s[i].priority
    decreases |s| - j
  {
    if j == |s| || s[j].priority != s[i].priority then j else GroupEnd(s, i, j + 1)
  }

  // The first server from `j` on whose running weight sum reaches r.
  function FirstReaching(s: seq<Server>, i: nat, j: nat, r: nat): (k: nat)
    requires i <= j < |s|
    ensures j <= k < |s|
    decreases |s| - j
  {
    if j + 1 == |s| || Weight(s, i, j + 1) >= r then j else FirstReaching(s, i, j + 1, r)
  }

  // Position i is given a server of its priority, drawn with the random number `rand`.
  function Choice(s: seq<Server>, i: nat, rand: nat): (k: nat)
    requires i < |s|
    ensures i <= k < |s|
  {
    var e := GroupEnd(s, i, i + 1);
    FirstReaching(s[..e], i, i, rand % (Weight(s, i, e) + 1))
  }

  // Position i after its draw.
  function DrawnOne(s: seq<Server>, i: nat, rand: nat): (t: seq<Server>)
    requires i < |s|
    ensures |t| == |s|
  {
    SwapAt(s, i, Choice(s, i, rand))
  }

  function Drawn(s: seq<Server>, i: nat, rand: seq<nat>): (t: seq<Server>)
    requires i <= |s| == |rand|
    ensures |t| == |s|
    decreases |s| - i
  {
    if i == |s| then s else Drawn(DrawnOne(s, i, rand[i]), i + 1, rand)
  }

  // ----- properties of a draw -----

  lemma {:induction false} WeightGrows(s: seq<Server>, i: nat, j: nat, k: nat)
    requires i <= j <= k <= |s|
    ensures Weight(s, i, j) <= Weight(s, i, k)
  {
    if j < k { WeightGrows(s, i, j, k - 1); }
  }

  lemma {:induction false} WeightOfPrefix(s: seq<Server>, e: nat, i: nat, j: nat)
    requires i <= j <= e <= |s|
    ensures Weight(s[..e], i, j) == Weight(s, i, j)
  {
    if i < j { WeightOfPrefix(s, e, i, j - 1); }
  }

  lemma {:induction false} FirstReachingReaches(s: seq<Server>, i: nat, j: nat, r: nat)
    requires i <= j < |s| && r <= Weight(s, i, |s|)
    requires j == i || Weight(s, i, j) < r
    ensures var k := FirstReaching(s, i, j, r);
            Weight(s, i, k + 1) >= r && (k > i ==> Weight(s, i, k) < r)
    decreases |s| - j
  {
    if j + 1 < |s| && Weight(s, i, j + 1) < r {
      FirstReachingReaches(s, i, j + 1, r);
    }
  }

  // The weight selection rule.  Server k of the group is drawn exactly when the random number falls in
  // its own stretch of the running sums, so the number of residues that draw it is its weight (one
  // more for the server in front); and some server of the group is always drawn.
  lemma ChoiceByWeight(s: seq<Server>, i: nat, rand: nat, k: nat)
    requires i < |s|
    ensures var e := GroupEnd(s, i, i + 1);
            var r := rand % (Weight(s, i, e) + 1);
            && i <= Choice(s, i, rand) < e
            && (Choice(s, i, rand) == k <==>
                  i <= k < e && r <= Weight(s, i, k + 1) && (k == i || Weight(s, i, k) < r))
  {
    var e := GroupEnd(s, i, i + 1);
    var r := rand % (Weight(s, i, e) + 1);
    var c := Choice(s, i, rand);
    WeightOfPrefix(s, e, i, e);
    FirstReachingReaches(s[..e], i, i, r);
    WeightOfPrefix(s, e, i, c);
    WeightOfPrefix(s, e, i, c + 1);
    if i <= k < e {
      if c < k {
        WeightGrows(s, i, c + 1, k);
      } else if k < c {
        WeightGrows(s, i, k + 1, c);
      }
    }
  }

  // The weights of some servers together.
  function Total(s: seq<Server>): nat { if s == [] then 0 else s[0].weight + Total(s[1..]) }

  lemma {:induction false} TotalAppend(s: seq<Server>, x: Server)
    ensures Total(s + [x]) == Total(s) + x.weight
  {
    if s == [] {
      assert ([] + [x])[1..] == [];
    } else {
      assert (s + [x])[1..] == s[1..] + [x];
      TotalAppend(s[1..], x);
    }
  }

  lemma {:induction false} WeightIsTotal(s: seq<Server>, i: nat, j: nat)
    requires i <= j <= |s|
    ensures Weight(s, i, j) == Total(s[i..j])
    decreases j
  {
    if i < j {
      WeightIsTotal(s, i, j - 1);
      assert s[i..j] == s[i..j - 1] + [s[j - 1]];
      TotalAppend(s[i..j - 1], s[j - 1]);
    }
  }

  // How many of the numbers below n draw server k.
  function Draws(s: seq<Server>, i: nat, k: nat, n: nat): nat
    requires i < |s|
  {
    if n == 0 then 0 else Draws(s, i, k, n - 1) + if Choice(s, i, n - 1) == k then 1 else 0
  }

  // A number that draws server k lies in its stretch of the running sums.
  lemma DrawnBetween(s: seq<Server>, i: nat, e: nat, k: nat, r: nat, low: nat, high: nat)
    requires i <= k < e <= |s| && GroupEnd(s, i, i + 1) == e && r <= Weight(s, i, e)
    requires low == (if k == i then 0 else Weight(s, i, k) + 1) && high == Weight(s, i, k + 1)
    ensures Choice(s, i, r) == k <==> low <= r <= high
  {
    hide Choice, Weight;
    ChoiceByWeight(s, i, r, k);
    Small(r, Weight(s, i, e) + 1);
  }

  lemma Small(r: nat, n: nat)
    requires r < n
    ensures r % n == r
  {
  }

  lemma {:induction false} DrawsBelow(s: seq<Server>, i: nat, e: nat, k: nat, n: nat, low: nat, high: nat)
    requires i <= k < e <= |s| && GroupEnd(s, i, i + 1) == e && n <= Weight(s, i, e) + 1
    requires low == (if k == i then 0 else Weight(s, i, k) + 1) && high == Weight(s, i, k + 1) && low <= high + 1
    ensures Draws(s, i, k, n) == if n <= low then 0 else if n <= high + 1 then n - low else high + 1 - low
    decreases n
  {
    hide Choice, Weight;
    if n > 0 {
      DrawsBelow(s, i, e, k, n - 1, low, high);
      DrawnBetween(s, i, e, k, n - 1, low, high);
    }
  }

  // Of the numbers from zero to the total weight of the servers of one priority that are left, as many draw a server
  // as its weight is, and one more draws the server in front.
  lemma DrawnInProportion(s: seq<Server>, i: nat, e: nat, k: nat)
    requires i <= k < e <= |s| && (forall j :: i <= j < e ==> s[j].priority == s[i].priority)
    requires e < |s| ==> s[e].priority != s[i].priority
    ensures Draws(s, i, k, Total(s[i..e]) + 1) == s[k].weight + if k == i then 1 else 0
  {
    hide Choice, Total, Draws;
    GroupIs(s, i, e);
    WeightIsTotal(s, i, e);
    WeightGrows(s, i, k + 1, e);
    var low := if k == i then 0 else Weight(s, i, k) + 1;
    DrawsBelow(s, i, e, k, Total(s[i..e]) + 1, low, Weight(s, i, k + 1));
  }

  lemma GroupIs(s: seq<Server>, i: nat, e: nat)
    requires i < e <= |s| && (forall j :: i <= j < e ==> s[j].priority == s[i].priority)
    requires e < |s| ==> s[e].priority != s[i].priority
    ensures GroupEnd(s, i, i + 1) == e
  {
  }

  lemma SwapKeepsElements<T>(s: seq<T>, i: nat, k: nat)
    requires i <= k < |s|
    ensures multiset(SwapAt(s, i, k)) == multiset(s)
    ensures SwapAt(s, i, k)[..i] == s[..i]
  {
  }

  lemma SwapKeepsOrder(s: seq<Server>, i: nat, k: nat)
    requires i <= k < |s| && ByPriority(s) && s[i].priority == s[k].priority
    ensures ByPriority(SwapAt(s, i, k))
  {
    var t := SwapAt(s, i, k);
    assert forall j :: 0 <= j < |s| ==> t[j].priority == s[j].priority;
  }

  lemma DrawnOneKeepsOrder(s: seq<Server>, i: nat, rand: nat)
    requires i < |s| && ByPriority(s)
    ensures var t := DrawnOne(s, i, rand);
            && |t| == |s| && ByPriority(t) && multiset(t) == multiset(s) && t[..i] == s[..i]
            && t[i] == s[Choice(s, i, rand)]
  {
    hide *;
    var k := Choice(s, i, rand);
    assert i <= k < |s| && s[k].priority == s[i].priority by { ChoiceInGroup(s, i, rand); }
    SwapKeepsElements(s, i, k);
    SwapKeepsOrder(s, i, k);
    DrawnOneIsSwap(s, i, rand);
  }

  lemma ChoiceInGroup(s: seq<Server>, i: nat, rand: nat)
    requires i < |s|
    ensures i <= Choice(s, i, rand) < |s| && s[Choice(s, i, rand)].priority == s[i].priority
  {
    ChoiceByWeight(s, i, rand, i);
  }

  lemma DrawnOneIsSwap(s: seq<Server>, i: nat, rand: nat)
    requires i < |s|
    ensures DrawnOne(s, i, rand) == SwapAt(s, i, Choice(s, i, rand))
    ensures |DrawnOne(s, i, rand)| == |s| && DrawnOne(s, i, rand)[i] == s[Choice(s, i, rand)]
  {
    hide Choice;
  }

  lemma {:induction false} DrawnKeepsOrder(s: seq<Server>, i: nat, rand: seq<nat>)
    requires i <= |s| == |rand| && ByPriority(s)
    ensures ByPriority(Drawn(s, i, rand))
    ensures multiset(Drawn(s, i, rand)) == multiset(s)
    ensures Drawn(s, i, rand)[..i] == s[..i]
    decreases |s| - i
  {
    hide ByPriority, DrawnOne;
    if i < |s| {
      var t := DrawnOne(s, i, rand[i]);
      DrawnOneKeepsOrder(s, i, rand[i]);
      DrawnKeepsOrder(t, i + 1, rand);
      assert Drawn(t, i + 1, rand)[..i] == Drawn(t, i + 1, rand)[..i + 1][..i];
      assert t[..i] == t[..i + 1][..i];
    }
  }

  // What each position gets: the server drawn from what was left of its priority.
  lemma {:induction false} DrawnAt(s: seq<Server>, i: nat, rand: seq<nat>, p: nat) returns (left: seq<Server>)
    requires i <= p < |s| == |rand| && ByPriority(s)
    ensures |left| == |s| && ByPriority(left) && multiset(left) == multiset(s)
    ensures left[..p] == Drawn(s, i, rand)[..p]
    ensures Drawn(s, i, rand)[p] == left[Choice(left, p, rand[p])]
    decreases |s| - i
  {
    hide ByPriority, DrawnOne, Choice;
    var t := DrawnOne(s, i, rand[i]);
    DrawnOneKeepsOrder(s, i, rand[i]);
    if i == p {
      left := s;
      DrawnKeepsOrder(t, i + 1, rand);
      DrawnKeepsOrder(s, i, rand);
      assert Drawn(s, i, rand)[i] == Drawn(s, i, rand)[..i + 1][i] == t[..i + 1][i];
    } else {
      left := DrawnAt(t, i + 1, rand, p);
    }
  }

  // ----- the query's array of targets -----

  // The prefix is sorted and no later server has a smaller priority.
  ghost predicate SortedUpTo(s: seq<Server>, i: nat)
    requires i <= |s|
  {
    forall j, k :: 0 <= j < i && j < k < |s| ==> s[j].priority <= s[k].priority
  }

  ghost predicate LeastFrom(s: seq<Server>, i: nat, min: nat, j: nat)
    requires i <= min < |s| && j <= |s|
  {
    forall k :: i <= k < j ==> s[min].priority <= s[k].priority
  }

  lemma LeastIsNext(s: seq<Server>, i: nat, min: nat)
    requires i <= min < |s| && SortedUpTo(s, i) && LeastFrom(s, i, min, |s|)
    ensures SortedUpTo(SwapAt(s, i, min), i + 1)
  {
  }

  lemma SortedUpToLast(s: seq<Server>, i: nat)
    requires i <= |s| <= i + 1 && SortedUpTo(s, i)
    ensures ByPriority(s)
  {
  }

  class SrvQuery {
    const srv: array<Target>
    var srvCnt: nat

    ghost predicate Valid()
      reads this
    {
      srv.Length == MAX_ADDR && srvCnt <= MAX_ADDR
    }

    ghost function Servers(): (s: seq<Server>)
      requires Valid()
      reads this, srv
      ensures |s| == srvCnt
    {
      seq(srvCnt, i requires 0 <= i < srvCnt reads this, srv requires Valid() => srv[i].server)
    }

    constructor ()
      ensures Valid() && fresh(srv) && srvCnt == 0
    {
      srv := new Target[MAX_ADDR](_ => Target(Server([], 0, 0, 0), 0));
      srvCnt := 0;
    }

    method SwapTargets(i: nat, j: nat)
      requires Valid() && i < srvCnt && j < srvCnt
      modifies srv
      ensures Servers() == SwapAt(old(Servers()), i, j)
    {
      if i != j {
        var tmp := srv[i];
        srv[i] := srv[j];
        srv[j] := tmp;
      }
    }

    // Save the resource records of the answer into the targets.
    method SaveRecords(answers: seq<AnswerRecord>)
      requires Valid()
      modifies `srvCnt, srv
      ensures Valid() && Servers() == Taken(answers)
    {
      srvCnt := 0;
      var i := 0;
      assert answers[..0] == [];
      while i < |answers| && srvCnt < MAX_ADDR
        invariant Valid() && 0 <= i <= |answers|
        invariant Servers() == Accepted(answers[..i])
      {
        ghost var before := Servers();
        assert answers[..i + 1] == answers[..i] + [answers[i]];
        AcceptedAppend(answers[..i], [answers[i]]);
        AcceptedOne(answers[i]);
        if Acceptable(answers[i]) {
          srv[srvCnt] := Target(answers[i].server, 0);
          srvCnt := srvCnt + 1;
          assert Servers() == before + [answers[i].server];
        } else {
          assert Servers() == before;
        }
        i := i + 1;
      }
      AcceptedAppend(answers[..i], answers[i..]);
      assert answers == answers[..i] + answers[i..];
    }

    // First pass: order the entries by priority.
    method SortByPriority()
      requires Valid() && srvCnt > 0
      modifies srv
      ensures ByPriority(Servers()) && multiset(Servers()) == multiset(old(Servers()))
    {
      for i := 0 to srvCnt - 1
        invariant SortedUpTo(Servers(), i) && multiset(Servers()) == multiset(old(Servers()))
      {
        ghost var s := Servers();
        var min := i;
        for j := i + 1 to srvCnt
          invariant i <= min < srvCnt && Servers() == s && LeastFrom(s, i, min, j)
        {
          if srv[j].server.priority < srv[min].server.priority {
            min := j;
          }
        }
        LeastIsNext(s, i, min);
        SwapKeepsElements(s, i, min);
        SwapTargets(i, min);
      }
      SortedUpToLast(Servers(), srvCnt - 1);
    }

    // The sums stored at positions [i, end) are the running weights from i.
    ghost predicate SumsStored(s: seq<Server>, i: nat, end: nat)
      requires srv.Length == MAX_ADDR && i <= end <= |s| <= MAX_ADDR
      reads srv
    {
      forall k :: i <= k < end ==> srv[k].sum == Weight(s, i, k + 1)
    }

    method StoreSum(ghost s: seq<Server>, i: nat, k: nat, sum: uint32)
      requires Valid() && i <= k < srvCnt && Servers() == s
      requires SumsStored(s, i, k) && sum == Weight(s, i, k + 1)
      modifies srv
      ensures Servers() == s && SumsStored(s, i, k + 1)
    {
      srv[k] := srv[k].(sum := sum);
      assert Servers() == s;
    }

    // Running sums for the servers with the priority of position i.
    method RunningSums(i: nat, ghost s: seq<Server>) returns (end: nat, sum: uint32)
      requires Valid() && i < srvCnt && Servers() == s
      modifies srv
      ensures Servers() == s
      ensures end == GroupEnd(s, i, i + 1) && sum == Weight(s, i, end) && sum + 1 < TWO_32
      ensures SumsStored(s, i, end)
    {
      hide Weight;
      WeightOne(s, i);
      sum := srv[i].server.weight;
      StoreSum(s, i, i, sum);
      end := i + 1;
      while end < srvCnt && srv[end].server.priority == srv[i].server.priority
        invariant i < end <= srvCnt && Servers() == s
        invariant GroupEnd(s, i, end) == GroupEnd(s, i, i + 1)
        invariant sum == Weight(s, i, end)
        invariant SumsStored(s, i, end)
      {
        assert srv[end].server == s[end] && srv[i].server == s[i];
        WeightNext(s, i, end);
        WeightBounded(s, i, end + 1);
        sum := sum + srv[end].server.weight;
        StoreSum(s, i, end, sum);
        end := end + 1;
      }
      assert end < srvCnt ==> srv[end].server == s[end] && srv[i].server == s[i];
      WeightBounded(s, i, end);
    }

    // The first entry of [i, end) whose running sum is at least r.
    method FindReaching(i: nat, end: nat, r: nat, ghost s: seq<Server>) returns (j: nat)
      requires Valid() && i < end <= srvCnt && Servers() == s
      requires SumsStored(s, i, end) && r <= Weight(s, i, end)
      ensures i <= j < end && srv[j].sum >= r
      ensures j == FirstReaching(s[..end], i, i, r)
    {
      hide Weight;
      ghost var group := s[..end];
      WeightOfPrefix(s, end, i, end);
      FirstReachingReaches(group, i, i, r);
      j := i;
      while j + 1 < end && srv[j].sum < r
        invariant i <= j < end
        invariant FirstReaching(group, i, j, r) == FirstReaching(group, i, i, r)
      {
        WeightOfPrefix(s, end, i, j + 1);
        j := j + 1;
      }
      WeightOfPrefix(s, end, i, j + 1);
    }

    // Elect a server for position i; `rand` is what pj_rand returns.
    method DrawServer(i: nat, rand: nat)
      requires Valid() && i < srvCnt
      modifies srv
      ensures Servers() == DrawnOne(old(Servers()), i, rand)
    {
      hide Weight, FirstReaching, GroupEnd;
      ghost var s := Servers();
      var end, sum := RunningSums(i, s);
      if end - i > 1 {
        // Elect one random number between zero and the total sum of weight (inclusive).
        var r := rand % (sum + 1);
        var j := FindReaching(i, end, r, s);
        assert j == Choice(s, i, rand);
        SwapTargets(i, j);
      } else {
        ChoiceByWeight(s, i, rand, i);
      }
    }

    // build_server_entries, up to the use of the additional records.  `rand[i]` is the random number
    // drawn at position i, used when more than one server has that position's priority.
    method BuildServerEntries(answers: seq<AnswerRecord>, rand: seq<nat>) returns (ghost sorted: seq<Server>)
      requires Valid() && |rand| == MAX_ADDR
      modifies `srvCnt, srv
      ensures Valid()
      ensures ByPriority(sorted) && multiset(sorted) == multiset(Taken(answers)) && |sorted| == srvCnt
      ensures Servers() == Drawn(sorted, 0, rand[..srvCnt])
      ensures ByPriority(Servers()) && multiset(Servers()) == multiset(Taken(answers))
    {
      SaveRecords(answers);
      sorted := Servers();
      if srvCnt == 0 {
        return;
      }
      SortByPriority();
      sorted := Servers();
      ghost var rands := rand[..srvCnt];
      for i := 0 to srvCnt
        invariant Valid() && |sorted| == srvCnt == |rands|
        invariant Drawn(Servers(), i, rands) == Drawn(sorted, 0, rands)
      {
        DrawServer(i, rand[i]);
      }
      DrawnKeepsOrder(sorted, 0, rands);
    }
  }

  lemma WeightOne(s: seq<Server>, i: nat)
    requires i < |s|
    ensures Weight(s, i, i + 1) == s[i].weight
  {
    assert Weight(s, i, i) == 0;
  }

  lemma WeightNext(s: seq<Server>, i: nat, j: nat)
    requires i <= j < |s|
    ensures Weight(s, i, j + 1) == Weight(s, i, j) + s[j].weight
  {
  }

  lemma {:induction false} WeightBounded(s: seq<Server>, i: nat, j: nat)
    requires i <= j <= |s|
    ensures Weight(s, i, j) <= (j - i) * (TWO_16 - 1)
  {
    if i < j { WeightBounded(s, i, j - 1); }
  }

  lemma AcceptedOne(r: AnswerRecord)
    ensures Accepted([r]) == if Acceptable(r) then [r.server] else []
  {
    assert [r][1..] == [];
  }

  // Exactly the SRV records whose name fits are taken, in their order.
  lemma {:induction false} AcceptedExactly(answers: seq<AnswerRecord>, server: Server)
    ensures server in Accepted(answers) <==> exists r :: r in answers && r.rtype == 33 && |r.server.name| <= 128 && r.server == server
  {
    if answers != [] {
      AcceptedExactly(answers[1..], server);
      AcceptedAppend(answers[..1], answers[1..]);
      assert forall r :: r in answers <==> r == answers[0] || r in answers[1..];
    }
  }

  // And of those, the first eight.
  lemma TakenExactly(answers: seq<AnswerRecord>)
    ensures Taken(answers) <= Accepted(answers)
    ensures |Taken(answers)| == 8 || (|Taken(answers)| < 8 && Taken(answers) == Accepted(answers))
  {
    hide Accepted;
  }
}
