/**
 How a client can be passed over without end. The queues are rebuilt in iteration order
 at each turn: a client with two others before it in that order can be overtaken by them
 for ever, whatever credit it has saved up. And a client without credit is overtaken for
 ever by one with credit that sends empty files.
 */
module CreditStarvation {
  import opened CreditFairness
  import opened CreditLag
  import opened CreditPolicy
  import opened CreditStretches
  import opened RequestLists
  import opened Sequences

  function Ask(c: int, size: nat): Request {
    Request(c, 0, size)
  }

  // ---- everybody registers ----

  /** The clients of `order` have registered, with these priorities, and nothing else has happened. */
  ghost predicate Enrolled(s: Sched, order: seq<int>, priorities: seq<int>, workers: nat)
    requires |priorities| == |order|
  {
    && s.workers == workers && s.order == order && s.under == [] && s.over == [] && s.requests == map[] && s.count == 0
    && Arranges(order, s.accounts.Keys)
    && forall i :: 0 <= i < |order| ==>
                     order[i] in s.accounts && s.accounts[order[i]] == Account(priorities[i] as real, priorities[i] as real, IDLE)
  }

  lemma EnrollOne(s: Sched, order: seq<int>, priorities: seq<int>, workers: nat, k: nat)
    requires k < |order| == |priorities| && Distinct(order) && 0 < workers
    requires Enrolled(s, order[..k], priorities[..k], workers)
    ensures var c, s' := order[k], Register(s, order[k], priorities[k], order[..k + 1]);
            Step(s, Join(c, priorities[k], order[..k + 1]), s') && Enrolled(s', order[..k + 1], priorities[..k + 1], workers)
  {
    var c, longer := order[k], order[..k + 1];
    assert longer == order[..k] + [c];
    assert c !in order[..k];
    assert forall x :: x in longer <==> x in s.accounts.Keys + {c};
    assert Distinct(longer);
  }

  lemma {:induction false} Enroll(order: seq<int>, priorities: seq<int>, workers: nat, k: nat) returns (s: Sched)
    requires k <= |order| == |priorities| && Distinct(order) && 0 < workers
    ensures Reachable(s) && Enrolled(s, order[..k], priorities[..k], workers)
  {
    if k == 0 {
      s := Empty(workers);
      StartIsReachable(workers);
    } else {
      var t := Enroll(order, priorities, workers, k - 1);
      EnrollOne(t, order, priorities, workers, k - 1);
      s := Register(t, order[k - 1], priorities[k - 1], order[..k]);
      StepIsReachable(t, Join(order[k - 1], priorities[k - 1], order[..k]), s);
    }
  }

  /** A first request puts an idle client at the end of the queue of its credit. */
  lemma FirstAsk(s: Sched, c: int, size: nat)
    requires Reachable(s) && c in s.accounts && s.accounts[c].kind == IDLE && Pending(s.requests, c) == []
    ensures var s', kind := Enqueue(s, Ask(c, size)), Standing(s.accounts[c].credit);
            && Reachable(s')
            && s'.workers == s.workers && s'.order == s.order
            && s'.accounts == s.accounts[c := s.accounts[c].(kind := kind)]
            && s'.requests == s.requests[c := [Ask(c, size)]]
            && s'.under == (if kind == UNDER then s.under + [c] else s.under)
            && s'.over == (if kind == OVER then s.over + [c] else s.over)
  {
    ReachableConsistent(s);
    StepIsReachable(s, Arrive(Ask(c, size)), Enqueue(s, Ask(c, size)));
    assert [] + [Ask(c, size)] == [Ask(c, size)];
  }

  // ---- two clients overtake a third ----

  /** What the queue of one standing is when two places of the order have it. */
  lemma {:induction false} OfKindPair(order: seq<int>, accounts: map<int, Account>, kind: CreditType, except: int, i: nat, j: nat, k: nat)
    requires i < j < |order| && k <= |order|
    requires forall l :: 0 <= l < |order| ==>
                           (order[l] != except && order[l] in accounts && accounts[order[l]].kind == kind <==> l == i || l == j)
    ensures OfKind(order, accounts, kind, except, k) == (if i < k then [order[i]] else []) + if j < k then [order[j]] else []
  {
    if k == 0 {
    } else {
      OfKindPair(order, accounts, kind, except, i, j, k - 1);
    }
  }

  lemma {:induction false} OfKindNone(order: seq<int>, accounts: map<int, Account>, kind: CreditType, except: int, k: nat)
    requires k <= |order|
    requires forall l :: 0 <= l < |order| ==> order[l] == except || order[l] !in accounts || accounts[order[l]].kind != kind
    ensures OfKind(order, accounts, kind, except, k) == []
  {
    if k == 0 {
    } else {
      OfKindNone(order, accounts, kind, except, k - 1);
    }
  }

  lemma {:induction false} OfKindOne(order: seq<int>, accounts: map<int, Account>, kind: CreditType, except: int, i: nat, k: nat)
    requires i < |order| && k <= |order|
    requires forall l :: 0 <= l < |order| ==>
                           (order[l] != except && order[l] in accounts && accounts[order[l]].kind == kind <==> l == i)
    ensures OfKind(order, accounts, kind, except, k) == if i < k then [order[i]] else []
  {
    if k == 0 {
    } else {
      OfKindOne(order, accounts, kind, except, i, k - 1);
    }
  }

  /** The credit side of overtaking: u can pay for a file and keep credit, v and z have some. */
  ghost predicate Solvent(s: Sched, u: int, v: int, z: int, size: nat) {
    && 0 < s.workers && {u, v, z} <= s.accounts.Keys
    && s.accounts[u].priority >= DEFAULT_PRIORITY && s.accounts[v].priority >= DEFAULT_PRIORITY
    && s.accounts[z].priority >= 0.0
    && s.accounts[u].credit > Cost(size, s.workers) && s.accounts[v].credit > 0.0 && s.accounts[z].credit > 0.0
  }

  /** The queue side: u is next, z after it, v last, and each of u and v has one request. */
  ghost predicate Lined(s: Sched, u: int, v: int, z: int, size: nat) {
    && s.under == [u, z, v] && s.over == []
    && Pending(s.requests, u) == [Ask(u, size)] && Pending(s.requests, v) == [Ask(v, size)]
    && Pending(s.requests, z) != []
  }

  /** u is at place i, v at place j, z after both at place l of the iteration order. */
  ghost predicate Placed(order: seq<int>, u: int, v: int, z: int, i: nat, j: nat, l: nat) {
    Distinct(order) && i != j && i < l && j < l < |order| && order[i] == u && order[j] == v && order[l] == z
  }

  /** What a client of priority 64 or more gains covers the cost. */
  lemma GainCovers(priority: real, size: nat, workers: nat)
    requires 0 < workers && priority >= DEFAULT_PRIORITY
    ensures Gain(priority, size, workers) >= Cost(size, workers) >= 0.0
  {
    GainIsShare(priority, size, workers);
    CostMonotone(0, size, workers);
    AtLeastOnce(priority / DEFAULT_PRIORITY, Cost(size, workers));
  }

  lemma AtLeastOnce(share: real, cost: real)
    requires share >= 1.0 && cost >= 0.0
    ensures share * cost >= cost
  {
    assert (share - 1.0) * cost >= 0.0;
    Distributes(cost, share, -1.0);
  }

  /** Kinds and credits after a turn of u. */
  lemma OvertakingAccounts(s: Sched, u: int, v: int, z: int, size: nat)
    requires Queued(s) && Solvent(s, u, v, z, size) && Lined(s, u, v, z, size) && u != v && u != z && v != z
    ensures var accounts := Settle(s, u, size, false);
            && (forall o :: o in accounts ==> accounts[o].priority == s.accounts[o].priority)
            && accounts[u] == Account(s.accounts[u].priority, s.accounts[u].credit - Cost(size, s.workers), IDLE)
            && accounts[v].kind == UNDER && accounts[v].credit > Cost(size, s.workers)
            && accounts[z].kind == UNDER && accounts[z].credit > 0.0
            && forall o :: o in accounts && o != u && o != v && o != z ==> accounts[o].kind == IDLE
  {
    GainCovers(s.accounts[v].priority, size, s.workers);
    GainIsPositive(s.accounts[z].priority, size, s.workers);
    forall o | o in s.accounts && o != u && o != v && o != z
      ensures s.accounts[o].kind == IDLE
    {
      assert o !in s.under && o !in s.over;
    }
    assert v in s.under && z in s.under;
  }

  lemma OvertakingQueues(s: Sched, accounts: map<int, Account>, u: int, v: int, z: int, i: nat, j: nat, l: nat)
    requires Placed(s.order, u, v, z, i, j, l) && {u, v, z} <= accounts.Keys
    requires accounts[u].kind == IDLE && accounts[v].kind == UNDER && accounts[z].kind == UNDER
    requires forall o :: o in accounts && o != u && o != v && o != z ==> accounts[o].kind == IDLE
    ensures Queue(s, accounts, UNDER, u) == [v, z] && Queue(s, accounts, OVER, u) == []
  {
    OfKindPair(s.order, accounts, UNDER, u, j, l, |s.order|);
    OfKindNone(s.order, accounts, OVER, u, |s.order|);
  }

  /** u has been served and is idle, v is next and z after it. */
  ghost predicate Rested(s: Sched, u: int, v: int, z: int, size: nat) {
    && 0 < s.workers && {u, v, z} <= s.accounts.Keys && u != v && u != z && v != z
    && s.under == [v, z] && s.over == []
    && Pending(s.requests, u) == [] && Pending(s.requests, v) == [Ask(v, size)] && Pending(s.requests, z) != []
    && s.accounts[u].kind == IDLE && s.accounts[u].credit > 0.0
    && s.accounts[u].priority >= DEFAULT_PRIORITY && s.accounts[v].priority >= DEFAULT_PRIORITY
    && s.accounts[z].priority >= 0.0
    && s.accounts[v].credit > Cost(size, s.workers) && s.accounts[z].credit > 0.0
  }

  lemma OvertakingTurn(s: Sched, u: int, v: int, z: int, size: nat, i: nat, j: nat, l: nat)
    requires Queued(s) && 0 < s.count && Placed(s.order, u, v, z, i, j, l)
    requires Solvent(s, u, v, z, size) && Lined(s, u, v, z, size)
    ensures Ready(s) && Turn(s) == u && SteadyStep(s, Take, Serve(s, u), size) && Rested(Serve(s, u), u, v, z, size)
  {
    var accounts := Settle(s, u, size, false);
    assert Pending(s.requests, u)[1..] == [];
    OvertakingAccounts(s, u, v, z, size);
    OvertakingQueues(s, accounts, u, v, z, i, j, l);
  }

  lemma OvertakingAsk(s: Sched, u: int, v: int, z: int, size: nat)
    requires Rested(s, u, v, z, size)
    ensures var s' := Enqueue(s, Ask(u, size));
            && SteadyStep(s, Arrive(Ask(u, size)), s', size)
            && s'.order == s.order && s'.workers == s.workers && Lined(s', v, u, z, size) && Solvent(s', v, u, z, size)
  {
    assert [] + [Ask(u, size)] == [Ask(u, size)];
    assert [v, z] + [u] == [v, z, u];
  }

  /** The state between two laps. */
  ghost predicate Overtaking(s: Sched, u: int, v: int, z: int, size: nat, i: nat, j: nat, l: nat) {
    && Reachable(s) && Placed(s.order, u, v, z, i, j, l)
    && Solvent(s, u, v, z, size) && Lined(s, u, v, z, size)
  }

  lemma SomethingCounted(s: Sched, c: int)
    requires Consistent(s) && Pending(s.requests, c) != []
    ensures 0 < s.count
  {
    OneOfTotal(s.order, s.requests, c);
  }

  lemma {:induction false} OneOfTotal(order: seq<int>, requests: map<int, seq<Request>>, c: int)
    requires c in order
    ensures |Pending(requests, c)| <= TotalPending(order, requests)
  {
    var n := |order| - 1;
    if order[n] == c {
    } else {
      OneOfTotal(order[..n], requests, c);
    }
  }

  /** A turn of u, after which u asks again and v is next. */
  lemma Lap(s: Sched, u: int, v: int, z: int, size: nat, i: nat, j: nat, l: nat) returns (s1: Sched, s2: Sched)
    requires Overtaking(s, u, v, z, size, i, j, l)
    ensures SteadyStep(s, Take, s1, size) && Turn(s) == u && SteadyStep(s1, Arrive(Ask(u, size)), s2, size)
    ensures s2.workers == s.workers && Overtaking(s2, v, u, z, size, j, i, l)
  {
    ReachableConsistent(s);
    SomethingCounted(s, u);
    OvertakingTurn(s, u, v, z, size, i, j, l);
    s1 := Serve(s, u);
    OvertakingAsk(s1, u, v, z, size);
    s2 := Enqueue(s1, Ask(u, size));
    StepIsReachable(s, Take, s1);
    StepIsReachable(s1, Arrive(Ask(u, size)), s2);
  }

  lemma LapLasts(s: Sched, t: Sched, u: int, v: int, z: int, size: nat, i: nat, j: nat, l: nat, turns: nat) returns (t': Sched)
    requires Lasts(s, t, size, z, turns) && Overtaking(t, u, v, z, size, i, j, l)
    ensures Lasts(s, t', size, z, turns + 1) && Overtaking(t', v, u, z, size, j, i, l)
  {
    var t1;
    t1, t' := Lap(t, u, v, z, size, i, j, l);
    LastsLonger(s, t, size, z, turns, Take, t1);
    LastsLonger(s, t1, size, z, turns + 1, Arrive(Ask(u, size)), t');
  }

  /** Turns that pass z over can be taken up to any number. */
  lemma {:induction false} Laps(s: Sched, t: Sched, u: int, v: int, z: int, size: nat, i: nat, j: nat, l: nat, turns: nat, all: nat)
    requires Lasts(s, t, size, z, turns) && Overtaking(t, u, v, z, size, i, j, l) && turns <= all
    ensures CanWait(s, size, z, all)
    decreases all - turns
  {
    if turns == all {
      assert Lasts(s, t, size, z, all);
    } else {
      var next := LapLasts(s, t, u, v, z, size, i, j, l, turns);
      Laps(s, next, v, u, z, size, j, i, l, turns + 1, all);
    }
  }

  // ---- the opening ----

  /** A priority that pays for a file of this size, and is at least the default. */
  function Enough(size: nat): (p: int)
    ensures p >= 64 && p > size
  {
    size + 64
  }

  lemma EnoughPays(size: nat, workers: nat)
    requires 0 < workers
    ensures Enough(size) as real > Cost(size, workers)
  {
    CostTimes(size, workers);
    CostMonotone(0, size, workers);
    Divides(Cost(size, workers), BytesPerCredit(workers), size as real);
  }

  lemma Divides(cost: real, unit: real, size: real)
    requires cost * unit == size && unit >= 1.0 && cost >= 0.0
    ensures cost <= size
  {
    Distributes(cost, unit, -1.0);
    assert cost * (unit - 1.0) >= 0.0;
  }

  /** The first, the third and the second of the order have registered and asked, in that turn. */
  lemma OvertakingOpens(order: seq<int>, workers: nat, size: nat) returns (s: Sched)
    requires Distinct(order) && 3 <= |order| && 0 < workers
    ensures Overtaking(s, order[0], order[1], order[2], size, 0, 1, 2) && s.order == order && s.workers == workers
  {
    var n, p := |order|, Enough(size);
    var priorities := seq(n, _ => p);
    s := Enroll(order, priorities, workers, n);
    assert order[..n] == order && priorities[..n] == priorities;
    var x, y, z := order[0], order[1], order[2];
    EnoughPays(size, workers);
    FirstAsk(s, x, size);
    var s1 := Enqueue(s, Ask(x, size));
    FirstAsk(s1, z, size);
    var s2 := Enqueue(s1, Ask(z, size));
    FirstAsk(s2, y, size);
    s := Enqueue(s2, Ask(y, size));
    assert s.under == [x, z, y];
  }

  /**
   With three clients or more, in any iteration order, with any number of workers and
   any size of files, there is a reachable state in which the third client waits, has
   credit, and can be passed over any number of times from then on.
   */
  lemma ThirdClientStarves(order: seq<int>, workers: nat, size: nat) returns (s: Sched)
    requires Distinct(order) && 3 <= |order| && 0 < workers
    ensures Reachable(s) && s.order == order && s.workers == workers
    ensures Pending(s.requests, order[2]) != [] && order[2] in s.accounts && s.accounts[order[2]].credit > 0.0
    ensures forall turns: nat :: CanWait(s, size, order[2], turns)
  {
    s := OvertakingOpens(order, workers, size);
    LastsAtFirst(s, size, order[2]);
    forall turns: nat
      ensures CanWait(s, size, order[2], turns)
    {
      Laps(s, s, order[0], order[1], order[2], size, 0, 1, 2, 0, turns);
    }
  }

  // ---- empty files ----

  /** a has credit and an empty file waiting, b waits without credit, nobody else waits. */
  ghost predicate Slighted(s: Sched, a: int, b: int) {
    && 0 < s.workers && {a, b} <= s.accounts.Keys && a != b
    && s.under == [a] && s.over == [b]
    && Pending(s.requests, a) == [Ask(a, 0)] && Pending(s.requests, b) != []
    && s.accounts[a].credit > 0.0 && s.accounts[b].credit <= 0.0
  }

  /** The same after a turn of a. */
  ghost predicate Alone(s: Sched, a: int, b: int) {
    && 0 < s.workers && {a, b} <= s.accounts.Keys && a != b
    && s.under == [] && s.over == [b]
    && Pending(s.requests, a) == [] && Pending(s.requests, b) != []
    && s.accounts[a].kind == IDLE && s.accounts[a].credit > 0.0 && s.accounts[b].credit <= 0.0
  }

  lemma NothingMoves(priority: real, workers: nat)
    requires 0 < workers
    ensures Cost(0, workers) == 0.0 && Gain(priority, 0, workers) == 0.0
  {
    GainIsShare(priority, 0, workers);
  }

  lemma SlightedAccounts(s: Sched, a: int, b: int)
    requires Queued(s) && Slighted(s, a, b)
    ensures var accounts := Settle(s, a, 0, false);
            && accounts[a].kind == IDLE && accounts[a].credit == s.accounts[a].credit
            && accounts[b].kind == OVER && accounts[b].credit == s.accounts[b].credit
            && forall o :: o in accounts && o != a && o != b ==> accounts[o].kind == IDLE
  {
    NothingMoves(s.accounts[a].priority, s.workers);
    NothingMoves(s.accounts[b].priority, s.workers);
    forall o | o in s.accounts && o != a && o != b
      ensures s.accounts[o].kind == IDLE
    {
      assert o !in s.under && o !in s.over;
    }
    assert b in s.over;
  }

  lemma SlightedQueues(s: Sched, accounts: map<int, Account>, a: int, b: int)
    requires Arranges(s.order, accounts.Keys) && {a, b} <= accounts.Keys && a != b
    requires accounts[a].kind == IDLE && accounts[b].kind == OVER
    requires forall o :: o in accounts && o != a && o != b ==> accounts[o].kind == IDLE
    ensures Queue(s, accounts, UNDER, a) == [] && Queue(s, accounts, OVER, a) == [b]
  {
    SlightedOver(s.order, accounts, a, b);
    OfKindNone(s.order, accounts, UNDER, a, |s.order|);
  }

  lemma SlightedOver(order: seq<int>, accounts: map<int, Account>, a: int, b: int)
    requires Arranges(order, accounts.Keys) && b in accounts && a != b && accounts[b].kind == OVER
    requires forall o :: o in accounts && o != a && o != b ==> accounts[o].kind == IDLE
    ensures OfKind(order, accounts, OVER, a, |order|) == [b]
  {
    assert b in order;
    var i :| 0 <= i < |order| && order[i] == b;
    OfKindOne(order, accounts, OVER, a, i, |order|);
  }

  lemma SlightedTurn(s: Sched, a: int, b: int)
    requires Counted(s) && Queued(s) && 0 < s.count && Slighted(s, a, b)
    ensures Ready(s) && Turn(s) == a && SteadyStep(s, Take, Serve(s, a), 0) && Alone(Serve(s, a), a, b)
  {
    assert Pending(s.requests, a)[1..] == [];
    SlightedAccounts(s, a, b);
    SlightedQueues(s, Settle(s, a, 0, false), a, b);
  }

  lemma SlightedAsk(s: Sched, a: int, b: int)
    requires Alone(s, a, b)
    ensures SteadyStep(s, Arrive(Ask(a, 0)), Enqueue(s, Ask(a, 0)), 0) && Slighted(Enqueue(s, Ask(a, 0)), a, b)
  {
    assert [] + [Ask(a, 0)] == [Ask(a, 0)];
  }

  lemma SlightedLasts(s: Sched, t: Sched, a: int, b: int, turns: nat) returns (t': Sched)
    requires Lasts(s, t, 0, b, turns) && Reachable(t) && Slighted(t, a, b)
    ensures Lasts(s, t', 0, b, turns + 1) && Reachable(t') && Slighted(t', a, b)
  {
    ReachableConsistent(t);
    SomethingCounted(t, a);
    SlightedTurn(t, a, b);
    var t1 := Serve(t, a);
    SlightedAsk(t1, a, b);
    t' := Enqueue(t1, Ask(a, 0));
    StepIsReachable(t, Take, t1);
    StepIsReachable(t1, Arrive(Ask(a, 0)), t');
    LastsLonger(s, t, 0, b, turns, Take, t1);
    LastsLonger(s, t1, 0, b, turns + 1, Arrive(Ask(a, 0)), t');
  }

  lemma {:induction false} SlightedLaps(s: Sched, t: Sched, a: int, b: int, turns: nat, all: nat)
    requires Lasts(s, t, 0, b, turns) && Reachable(t) && Slighted(t, a, b) && turns <= all
    ensures CanWait(s, 0, b, all)
    decreases all - turns
  {
    if turns == all {
      assert Lasts(s, t, 0, b, all);
    } else {
      var next := SlightedLasts(s, t, a, b, turns);
      SlightedLaps(s, next, a, b, turns + 1, all);
    }
  }

  /** The first client registers with credit, the second without, and both ask. */
  lemma SlightedOpens(order: seq<int>, workers: nat) returns (s: Sched)
    requires Distinct(order) && 2 <= |order| && 0 < workers
    ensures Reachable(s) && Slighted(s, order[0], order[1]) && s.order == order && s.workers == workers
  {
    var n := |order|;
    var priorities := seq(n, i => if i == 0 then 64 else 0);
    s := Enroll(order, priorities, workers, n);
    assert order[..n] == order && priorities[..n] == priorities;
    var a, b := order[0], order[1];
    FirstAsk(s, a, 0);
    var s1 := Enqueue(s, Ask(a, 0));
    FirstAsk(s1, b, 0);
    s := Enqueue(s1, Ask(b, 0));
    assert s.under == [a] && s.over == [b];
  }

  /**
   With two clients or more, in any iteration order and with any number of workers, there
   is a reachable state in which the second client waits and can be passed over any number
   of times by empty files of the first.
   */
  lemma EmptyFilesStarve(order: seq<int>, workers: nat) returns (s: Sched)
    requires Distinct(order) && 2 <= |order| && 0 < workers
    ensures Reachable(s) && s.order == order && s.workers == workers && Pending(s.requests, order[1]) != []
    ensures forall turns: nat :: CanWait(s, 0, order[1], turns)
  {
    s := SlightedOpens(order, workers);
    LastsAtFirst(s, 0, order[1]);
    forall turns: nat
      ensures CanWait(s, 0, order[1], turns)
    {
      SlightedLaps(s, s, order[0], order[1], 0, turns);
    }
  }
}
