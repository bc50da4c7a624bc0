/**
 When credits stay bounded. A turn moves their sum by the points by which the rivals of
 the served client exceed 64; below 64 the sum falls at every turn, without bound.
 */
module CreditSinking {
  import opened CreditFairness
  import opened CreditLag
  import opened CreditPolicy
  import opened CreditStarvation
  import opened CreditStretches
  import opened RequestLists
  import opened Sequences

  // ---- few rivals ----

  /** Whoever is served has rivals of at most so many points. */
  ghost predicate FewRivals(run: seq<Sched>, ops: seq<Op>, minSize: nat, rivals: real, k: nat)
    requires Stretch(run, ops, minSize, k)
  {
    k != 0 ==>
      && FewRivals(run, ops, minSize, rivals, k - 1)
      && (ops[k - 1].Take? ==> Rivals(run[k - 1], Turn(run[k - 1])) <= rivals)
  }

  function SumOf(s: Sched): real {
    Sum(s.order, Credits(s.accounts))
  }

  lemma UnitMonotone(m: nat, n: nat, workers: nat)
    requires 0 < workers && m <= n
    ensures 0.0 <= Unit(m, workers) <= Unit(n, workers) && (m < n ==> Unit(m, workers) < Unit(n, workers))
  {
    CostMonotone(m, n, workers);
    CostMonotone(0, m, workers);
  }

  /** `drop` is what the sum loses at least at a turn of a client with so many rival points. */
  ghost predicate IsDrop(drop: real, rivals: real, minSize: nat, workers: nat) {
    0 < workers && rivals <= DEFAULT_PRIORITY && IsProduct(drop, DEFAULT_PRIORITY - rivals, Unit(minSize, workers))
  }

  lemma LargerProduct(x: real, y: real, unit: real, drop: real, y': real, unit': real)
    requires IsProduct(x, y, unit) && IsProduct(drop, y', unit')
    requires y <= -y' <= 0.0 && 0.0 <= unit' <= unit
    ensures x <= -drop
  {
    assert (-y - y') * unit >= 0.0 && y' * (unit - unit') >= 0.0;
    Distributes(unit, -y, -y');
    Distributes(y', unit, -unit');
  }

  lemma SettleSinks(s: Sched, c: int, size: nat, backlog: bool, minSize: nat, rivals: real, drop: real)
    requires Counted(s) && c in s.accounts && minSize <= size && Rivals(s, c) <= rivals
    requires IsDrop(drop, rivals, minSize, s.workers)
    ensures Sum(s.order, Credits(Settle(s, c, size, backlog))) - SumOf(s) <= -drop
  {
    TurnChangesSum(s, c, size, backlog);
    UnitMonotone(minSize, size, s.workers);
    LargerProduct(Sum(s.order, Credits(Settle(s, c, size, backlog))) - SumOf(s), Rivals(s, c) - DEFAULT_PRIORITY,
                  Unit(size, s.workers), drop, DEFAULT_PRIORITY - rivals, Unit(minSize, s.workers));
  }

  lemma TurnSinks(s: Sched, minSize: nat, rivals: real, drop: real)
    requires Counted(s) && Ready(s) && minSize <= NextServed(s).fileSize && Rivals(s, Turn(s)) <= rivals
    requires IsDrop(drop, rivals, minSize, s.workers)
    ensures SumOf(Serve(s, Turn(s))) - SumOf(s) <= -drop
  {
    SettleSinks(s, Turn(s), NextServed(s).fileSize, Pending(s.requests, Turn(s))[1..] != [], minSize, rivals, drop);
  }

  lemma AskingKeepsSum(s: Sched, r: Request)
    requires r.clientId in s.accounts
    ensures SumOf(Enqueue(s, r)) == SumOf(s)
  {
    assert Credits(Enqueue(s, r).accounts) == Credits(s.accounts);
  }

  lemma StepSinks(s: Sched, op: Op, s': Sched, minSize: nat, rivals: real, drop: real)
    requires Consistent(s) && SteadyStep(s, op, s', minSize) && IsDrop(drop, rivals, minSize, s.workers)
    requires op.Take? ==> Rivals(s, Turn(s)) <= rivals
    ensures SumOf(s') <= SumOf(s) - if op.Take? then drop else 0.0
  {
    match op
    case Take => TurnSinks(s, minSize, rivals, drop);
    case Arrive(r) => AskingKeepsSum(s, r);
  }

  /** n times x. */
  function Repeated(x: real, n: nat): real {
    if n == 0 then 0.0 else Repeated(x, n - 1) + x
  }

  /** Every step takes at least so much off the sum if it is a turn, and nothing else adds to it. */
  ghost predicate Sinking(run: seq<Sched>, ops: seq<Op>, drop: real, k: nat)
    requires k <= |ops| && k < |run|
  {
    k != 0 ==>
      && Sinking(run, ops, drop, k - 1)
      && SumOf(run[k]) <= SumOf(run[k - 1]) - if ops[k - 1].Take? then drop else 0.0
  }

  lemma {:induction false} FewRivalsSink(run: seq<Sched>, ops: seq<Op>, minSize: nat, rivals: real, drop: real, k: nat)
    requires Stretch(run, ops, minSize, k) && FewRivals(run, ops, minSize, rivals, k)
    requires Consistent(run[0]) && IsDrop(drop, rivals, minSize, run[0].workers)
    ensures Sinking(run, ops, drop, k)
  {
    if k == 0 {
    } else {
      FewRivalsSink(run, ops, minSize, rivals, drop, k - 1);
      StretchKeeps(run, ops, minSize, k - 1);
      StepSinks(run[k - 1], ops[k - 1], run[k], minSize, rivals, drop);
    }
  }

  lemma {:induction false} SinkingAddsUp(run: seq<Sched>, ops: seq<Op>, drop: real, k: nat)
    requires k <= |ops| && k < |run| && Sinking(run, ops, drop, k)
    ensures SumOf(run[k]) <= SumOf(run[0]) - Repeated(drop, Turns(ops, k))
  {
    if k == 0 {
    } else {
      SinkingAddsUp(run, ops, drop, k - 1);
    }
  }

  /**
   Whatever the clients: while those that are served have rivals of fewer than 64 points,
   the sum of credits falls at every turn by a fixed amount, which is positive for files
   that are not empty.
   */
  lemma SumFalls(run: seq<Sched>, ops: seq<Op>, minSize: nat, rivals: real, drop: real, k: nat)
    requires Stretch(run, ops, minSize, k) && FewRivals(run, ops, minSize, rivals, k)
    requires Consistent(run[0]) && IsDrop(drop, rivals, minSize, run[0].workers)
    ensures SumOf(run[k]) <= SumOf(run[0]) - Repeated(drop, Turns(ops, k))
    ensures rivals < DEFAULT_PRIORITY && 0 < minSize ==> drop > 0.0
  {
    FewRivalsSink(run, ops, minSize, rivals, drop, k);
    SinkingAddsUp(run, ops, drop, k);
    if rivals < DEFAULT_PRIORITY && 0 < minSize {
      DropIsPositive(drop, rivals, minSize, run[0].workers);
    }
  }

  lemma DropIsPositive(drop: real, rivals: real, minSize: nat, workers: nat)
    requires IsDrop(drop, rivals, minSize, workers) && rivals < DEFAULT_PRIORITY && 0 < minSize
    ensures drop > 0.0
  {
    UnitMonotone(0, minSize, workers);
    PositiveProduct(drop, DEFAULT_PRIORITY - rivals, Unit(minSize, workers));
  }

  lemma PositiveProduct(x: real, y: real, unit: real)
    requires IsProduct(x, y, unit) && y > 0.0 && unit > 0.0
    ensures x > 0.0
  {
  }

  // ---- clients of equal priority ----

  /** Clients of one priority, all of them busy at each turn, files neither empty nor larger than maxSize. */
  ghost predicate EvenStep(s: Sched, op: Op, clients: nat, priority: int, maxSize: nat) {
    match op
    case Join(_, p, _) => p == priority
    case Arrive(_) => true
    case Take => |s.order| == clients && AllWait(s) && Ready(s) && 1 <= NextServed(s).fileSize <= maxSize
    case Leave(_) => false
  }

  ghost predicate AllWait(s: Sched) {
    forall c :: c in s.accounts ==> Pending(s.requests, c) != []
  }

  ghost predicate EvenRun(run: seq<Sched>, ops: seq<Op>, clients: nat, priority: int, maxSize: nat, k: nat) {
    && IsRun(run, ops, k)
    && (k != 0 ==>
          EvenRun(run, ops, clients, priority, maxSize, k - 1) && EvenStep(run[k - 1], ops[k - 1], clients, priority, maxSize))
  }

  ghost predicate AllAbove(s: Sched, bound: real) {
    forall c :: c in s.accounts ==> s.accounts[c].credit > bound
  }

  ghost predicate AllHave(s: Sched, priority: int) {
    forall c :: c in s.accounts ==> s.accounts[c].priority == priority as real
  }

  lemma {:induction false} SumOfEqual(order: seq<int>, v: map<int, real>, x: real)
    requires forall i :: 0 <= i < |order| ==> At(v, order[i]) == x
    ensures Sum(order, v) == Repeated(x, |order|)
  {
    if order == [] {
    } else {
      SumOfEqual(order[..|order| - 1], v, x);
    }
  }

  lemma {:induction false} RepeatedInt(p: int, n: nat)
    ensures Repeated(p as real, n) == (n * p) as real
  {
    if n == 0 {
    } else {
      RepeatedInt(p, n - 1);
      assert n * p == (n - 1) * p + p;
    }
  }

  /** The rivals of any of n clients of priority p have (n - 1) * p points. */
  lemma EqualRivals(s: Sched, c: int, priority: int)
    requires Counted(s) && AllHave(s, priority) && c in s.accounts
    ensures Rivals(s, c) == ((|s.order| - 1) * priority) as real
  {
    forall i | 0 <= i < |s.order|
      ensures At(Priorities(s.accounts), s.order[i]) == priority as real
    {
      var o := s.order[i];
      assert o in s.order && o in s.accounts;
    }
    SumOfEqual(s.order, Priorities(s.accounts), priority as real);
    RepeatedInt(priority, |s.order|);
    assert (|s.order| - 1) * priority == |s.order| * priority - priority;
  }

  lemma EvenStepKeeps(s: Sched, op: Op, s': Sched, clients: nat, priority: int, maxSize: nat)
    requires Step(s, op, s') && EvenStep(s, op, clients, priority, maxSize) && AllHave(s, priority)
    ensures AllHave(s', priority)
  {
    forall c | c in s'.accounts
      ensures s'.accounts[c].priority == priority as real
    {
      if c in s.accounts {
        StepAccount(s, op, s', c);
      } else {
        StepNewAccount(s, op, s', c);
      }
    }
  }

  lemma {:induction false} EvenRunKeeps(run: seq<Sched>, ops: seq<Op>, clients: nat, priority: int, maxSize: nat, k: nat)
    requires EvenRun(run, ops, clients, priority, maxSize, k)
    ensures AllHave(run[k], priority)
  {
    if k == 0 {
    } else {
      EvenRunKeeps(run, ops, clients, priority, maxSize, k - 1);
      EvenStepKeeps(run[k - 1], ops[k - 1], run[k], clients, priority, maxSize);
    }
  }

  lemma EvenIsBusy(s: Sched, op: Op, clients: nat, priority: int, maxSize: nat)
    requires Counted(s) && AllHave(s, priority) && EvenStep(s, op, clients, priority, maxSize)
    requires 1 <= clients && (clients - 1) * priority >= 64
    ensures BusyStep(s, op, maxSize)
  {
    match op
    case Join(_, _, _) => PositivePriority(clients, priority);
    case Take =>
      forall c | c in s.accounts
        ensures Pending(s.requests, c) != [] && Rivals(s, c) >= DEFAULT_PRIORITY
      {
        EqualRivals(s, c, priority);
      }
    case Arrive(_) =>
  }

  lemma PositivePriority(clients: nat, priority: int)
    requires 1 <= clients && (clients - 1) * priority >= 64
    ensures priority > 0
  {
    assert priority <= 0 ==> (clients - 1) * priority <= 0;
  }

  lemma {:induction false} EvenRunIsBusy(run: seq<Sched>, ops: seq<Op>, clients: nat, priority: int, maxSize: nat, k: nat)
    requires EvenRun(run, ops, clients, priority, maxSize, k)
    requires 1 <= clients && (clients - 1) * priority >= 64
    ensures BusyRun(run, ops, maxSize, k)
  {
    if k == 0 {
    } else {
      EvenRunIsBusy(run, ops, clients, priority, maxSize, k - 1);
      EvenRunKeeps(run, ops, clients, priority, maxSize, k - 1);
      RunsStayConsistent(run, ops, k - 1);
      EvenIsBusy(run[k - 1], ops[k - 1], clients, priority, maxSize);
    }
  }

  /** No run of such clients brings a credit down to the bound. */
  ghost predicate BoundHolds(clients: nat, priority: int, workers: nat, maxSize: nat, bound: real) {
    forall run: seq<Sched>, ops: seq<Op>, k: nat ::
      EvenRun(run, ops, clients, priority, maxSize, k) && run[0].workers == workers ==> AllAbove(run[k], bound)
  }

  ghost predicate CreditsBounded(clients: nat, priority: int, workers: nat, maxSize: nat) {
    exists bound: real :: BoundHolds(clients, priority, workers, maxSize, bound)
  }

  lemma EnoughRivalsBound(clients: nat, priority: int, workers: nat, maxSize: nat)
    requires 1 <= clients && (clients - 1) * priority >= 64 && 0 < workers && 0 < maxSize
    ensures CreditsBounded(clients, priority, workers, maxSize)
  {
    forall run: seq<Sched>, ops: seq<Op>, k: nat | EvenRun(run, ops, clients, priority, maxSize, k) && run[0].workers == workers
      ensures AllAbove(run[k], -Cost(maxSize, workers))
    {
      EvenRunIsBusy(run, ops, clients, priority, maxSize, k);
      LagIsBounded(run, ops, maxSize, k);
      WorkersStay(run, ops, k);
    }
    assert BoundHolds(clients, priority, workers, maxSize, -Cost(maxSize, workers));
  }

  // ---- the other half ----

  /** Some such run of one worker count ends in s. */
  ghost predicate EvenReachable(s: Sched, clients: nat, priority: int, maxSize: nat) {
    exists run, ops :: EndsEvenly(run, ops, s, clients, priority, maxSize)
  }

  ghost predicate EndsEvenly(run: seq<Sched>, ops: seq<Op>, s: Sched, clients: nat, priority: int, maxSize: nat) {
    |run| == |ops| + 1 && EvenRun(run, ops, clients, priority, maxSize, |ops|) && run[|ops|] == s
  }

  lemma {:induction false} LongerEvenRun(run: seq<Sched>, ops: seq<Op>, op: Op, s': Sched, clients: nat, priority: int, maxSize: nat, k: nat)
    requires EvenRun(run, ops, clients, priority, maxSize, k)
    ensures EvenRun(run + [s'], ops + [op], clients, priority, maxSize, k)
  {
    LongerRun(run, ops, op, s', k);
    if k == 0 {
    } else {
      LongerEvenRun(run, ops, op, s', clients, priority, maxSize, k - 1);
    }
  }

  lemma EndsEvenlyLater(run: seq<Sched>, ops: seq<Op>, s: Sched, op: Op, s': Sched, clients: nat, priority: int, maxSize: nat)
    requires EndsEvenly(run, ops, s, clients, priority, maxSize)
    requires Step(s, op, s') && EvenStep(s, op, clients, priority, maxSize)
    ensures EndsEvenly(run + [s'], ops + [op], s', clients, priority, maxSize)
  {
    LongerEvenRun(run, ops, op, s', clients, priority, maxSize, |ops|);
  }

  lemma StepEvenly(s: Sched, op: Op, s': Sched, clients: nat, priority: int, maxSize: nat)
    requires EvenReachable(s, clients, priority, maxSize)
    requires Step(s, op, s') && EvenStep(s, op, clients, priority, maxSize)
    ensures EvenReachable(s', clients, priority, maxSize)
  {
    var run, ops :| EndsEvenly(run, ops, s, clients, priority, maxSize);
    EndsEvenlyLater(run, ops, s, op, s', clients, priority, maxSize);
  }

  lemma EvenlyConsistent(s: Sched, clients: nat, priority: int, maxSize: nat)
    requires EvenReachable(s, clients, priority, maxSize)
    ensures Consistent(s) && AllHave(s, priority)
  {
    var run, ops :| EndsEvenly(run, ops, s, clients, priority, maxSize);
    RunsStayConsistent(run, ops, |ops|);
    EvenRunKeeps(run, ops, clients, priority, maxSize, |ops|);
  }

  lemma {:induction false} EnrollEvenly(order: seq<int>, clients: nat, priority: int, workers: nat, maxSize: nat, k: nat) returns (s: Sched)
    requires k <= |order| && Distinct(order) && 0 < workers
    ensures EvenReachable(s, clients, priority, maxSize)
    ensures Enrolled(s, order[..k], seq(k, _ => priority), workers)
  {
    if k == 0 {
      s := Empty(workers);
      assert EndsEvenly([s], [], s, clients, priority, maxSize);
    } else {
      var t := EnrollEvenly(order, clients, priority, workers, maxSize, k - 1);
      var priorities := seq(|order|, _ => priority);
      assert priorities[..k - 1] == seq(k - 1, _ => priority) && priorities[..k] == seq(k, _ => priority);
      EnrollOne(t, order, priorities, workers, k - 1);
      s := Register(t, order[k - 1], priority, order[..k]);
      StepEvenly(t, Join(order[k - 1], priority, order[..k]), s, clients, priority, maxSize);
    }
  }

  /** The first k clients wait with one byte each, the others are idle. */
  ghost predicate Asked(s: Sched, order: seq<int>, workers: nat, k: nat) {
    && s.order == order && s.workers == workers && k <= |order| && Arranges(order, s.accounts.Keys)
    && forall i :: 0 <= i < |order| ==> Pending(s.requests, order[i]) == if i < k then [Ask(order[i], 1)] else []
  }

  lemma AskNext(s: Sched, order: seq<int>, workers: nat, k: nat)
    requires Asked(s, order, workers, k) && k < |order|
    ensures order[k] in s.accounts && Asked(Enqueue(s, Ask(order[k], 1)), order, workers, k + 1)
  {
    var c := order[k];
    assert c in order;
    assert [] + [Ask(c, 1)] == [Ask(c, 1)];
  }

  lemma {:induction false} AskAll(order: seq<int>, clients: nat, priority: int, workers: nat, maxSize: nat, k: nat) returns (s: Sched)
    requires k <= |order| && Distinct(order) && 0 < workers
    ensures EvenReachable(s, clients, priority, maxSize) && Asked(s, order, workers, k)
  {
    if k == 0 {
      s := EnrollEvenly(order, clients, priority, workers, maxSize, |order|);
      assert order[..|order|] == order;
    } else {
      var t := AskAll(order, clients, priority, workers, maxSize, k - 1);
      AskNext(t, order, workers, k - 1);
      s := Enqueue(t, Ask(order[k - 1], 1));
      StepEvenly(t, Arrive(Ask(order[k - 1], 1)), s, clients, priority, maxSize);
    }
  }

  lemma AskedOne(s: Sched, order: seq<int>, workers: nat, c: int)
    requires Asked(s, order, workers, |order|) && c in s.accounts
    ensures c in order && Pending(s.requests, c) == [Ask(c, 1)]
  {
    assert c in order;
    var i :| 0 <= i < |order| && order[i] == c;
  }

  /** A turn and a new request leave the same lists. */
  lemma PendingAgain(s: Sched, t: int, c: int)
    requires 0 < s.workers && t in s.accounts && Pending(s.requests, t) == [Ask(t, 1)]
    ensures Pending(Enqueue(Serve(s, t), Ask(t, 1)).requests, c) == Pending(s.requests, c)
  {
    assert Pending(s.requests, t)[1..] == [];
    assert [] + [Ask(t, 1)] == [Ask(t, 1)];
  }

  lemma SameAsked(s: Sched, s': Sched, order: seq<int>, workers: nat, k: nat)
    requires Asked(s, order, workers, k)
    requires s'.order == s.order && s'.workers == s.workers && s'.accounts.Keys == s.accounts.Keys
    requires forall i :: 0 <= i < |order| ==> Pending(s'.requests, order[i]) == Pending(s.requests, order[i])
    ensures Asked(s', order, workers, k)
  {
  }

  lemma TurnAndAskKeeps(s: Sched, t: int)
    requires 0 < s.workers && t in s.accounts && Pending(s.requests, t) != []
    ensures var s' := Enqueue(Serve(s, t), Ask(t, 1));
            s'.order == s.order && s'.workers == s.workers && s'.accounts.Keys == s.accounts.Keys
  {
  }

  lemma AskedAgain(s: Sched, order: seq<int>, workers: nat, t: int)
    requires Asked(s, order, workers, |order|) && 0 < s.workers && t in s.accounts && Pending(s.requests, t) == [Ask(t, 1)]
    ensures Asked(Enqueue(Serve(s, t), Ask(t, 1)), order, workers, |order|)
  {
    TurnAndAskKeeps(s, t);
    var s' := Enqueue(Serve(s, t), Ask(t, 1));
    forall i | 0 <= i < |order|
      ensures Pending(s'.requests, order[i]) == Pending(s.requests, order[i])
    {
      PendingAgain(s, t, order[i]);
    }
    SameAsked(s, s', order, workers, |order|);
  }

  /** All wait: the head of a queue is there to be served its one byte. */
  lemma OneByteNext(s: Sched, order: seq<int>, workers: nat, maxSize: nat, clients: nat, priority: int)
    requires Consistent(s) && Asked(s, order, workers, |order|) && 0 < |order| == clients && 0 < maxSize
    ensures 0 < s.count && Ready(s) && NextServed(s) == Ask(Turn(s), 1)
    ensures EvenStep(s, Take, clients, priority, maxSize)
  {
    var first := order[0];
    assert first in order && first in s.accounts;
    AskedOne(s, order, workers, first);
    SomethingCounted(s, first);
    TurnIsReady(s);
    AskedOne(s, order, workers, Turn(s));
    forall c | c in s.accounts
      ensures Pending(s.requests, c) != []
    {
      AskedOne(s, order, workers, c);
    }
  }

  /** A state of an even run in which all wait with one byte each. */
  ghost predicate AllAsked(s: Sched, order: seq<int>, workers: nat, maxSize: nat, priority: int) {
    && EvenReachable(s, |order|, priority, maxSize)
    && Asked(s, order, workers, |order|) && 0 < |order| && 0 < maxSize
  }

  lemma Round(s: Sched, order: seq<int>, workers: nat, maxSize: nat, priority: int, rivals: real, drop: real) returns (s': Sched)
    requires AllAsked(s, order, workers, maxSize, priority)
    requires rivals == ((|order| - 1) * priority) as real && IsDrop(drop, rivals, 1, workers)
    ensures AllAsked(s', order, workers, maxSize, priority) && SumOf(s') <= SumOf(s) - drop
  {
    var clients := |order|;
    EvenlyConsistent(s, clients, priority, maxSize);
    OneByteNext(s, order, workers, maxSize, clients, priority);
    var t := Turn(s);
    EqualRivals(s, t, priority);
    TurnSinks(s, 1, rivals, drop);
    var s1 := Serve(s, t);
    StepEvenly(s, Take, s1, clients, priority, maxSize);
    s' := Enqueue(s1, Ask(t, 1));
    AskedAgain(s, order, workers, t);
    StepEvenly(s1, Arrive(Ask(t, 1)), s', clients, priority, maxSize);
    AskingKeepsSum(s1, Ask(t, 1));
  }

  lemma {:induction false} Rounds(s: Sched, order: seq<int>, workers: nat, maxSize: nat, priority: int, rivals: real, drop: real, n: nat)
    returns (s': Sched)
    requires AllAsked(s, order, workers, maxSize, priority)
    requires rivals == ((|order| - 1) * priority) as real && IsDrop(drop, rivals, 1, workers)
    ensures AllAsked(s', order, workers, maxSize, priority) && SumOf(s') <= SumOf(s) - Repeated(drop, n)
  {
    if n == 0 {
      s' := s;
    } else {
      var t := Rounds(s, order, workers, maxSize, priority, rivals, drop, n - 1);
      s' := Round(t, order, workers, maxSize, priority, rivals, drop);
    }
  }

  lemma {:induction false} SumAbove(order: seq<int>, v: map<int, real>, bound: real)
    requires forall i :: 0 <= i < |order| ==> At(v, order[i]) > bound
    ensures Sum(order, v) >= Repeated(bound, |order|)
  {
    if order == [] {
    } else {
      SumAbove(order[..|order| - 1], v, bound);
    }
  }

  /** Enough repetitions of something positive exceed anything. */
  lemma Exceeds(x: real, drop: real) returns (n: nat)
    requires drop > 0.0
    ensures Repeated(drop, n) > x
  {
    n := if x <= 0.0 then 1 else (x / drop).Floor + 1;
    RepeatedIsProduct(drop, n);
    if x > 0.0 {
      assert x / drop * drop == x;
      Distributes(drop, n as real, -(x / drop));
      assert (n as real - x / drop) * drop > 0.0;
    } else {
      assert Repeated(drop, 1) == Repeated(drop, 0) + drop;
    }
  }

  lemma {:induction false} RepeatedIsProduct(x: real, n: nat)
    ensures Repeated(x, n) == n as real * x
  {
    if n == 0 {
    } else {
      RepeatedIsProduct(x, n - 1);
      Distributes(x, (n - 1) as real, 1.0);
    }
  }

  lemma FewRivalsNoBound(clients: nat, priority: int, workers: nat, maxSize: nat, bound: real)
    requires 1 <= clients && (clients - 1) * priority < 64 && 0 < workers && 0 < maxSize
    ensures !BoundHolds(clients, priority, workers, maxSize, bound)
  {
    var order := seq(clients, i => i);
    var rivals := ((clients - 1) * priority) as real;
    var drop := (DEFAULT_PRIORITY - rivals) * Unit(1, workers);
    DropIsPositive(drop, rivals, 1, workers);
    var s := AskAll(order, clients, priority, workers, maxSize, clients);
    var n := Exceeds(SumOf(s) - Repeated(bound, clients), drop);
    var s' := Rounds(s, order, workers, maxSize, priority, rivals, drop, n);
    SomebodyBelow(s', order, workers, bound, clients);
    var run, ops :| EndsEvenly(run, ops, s', clients, priority, maxSize);
    WorkersStay(run, ops, |ops|);
    assert !AllAbove(run[|ops|], bound);
  }

  lemma SomebodyBelow(s: Sched, order: seq<int>, workers: nat, bound: real, clients: nat)
    requires Asked(s, order, workers, |order|) && |order| == clients && SumOf(s) < Repeated(bound, clients)
    ensures !AllAbove(s, bound)
  {
    if AllAbove(s, bound) {
      forall i | 0 <= i < |order|
        ensures At(Credits(s.accounts), order[i]) > bound
      {
        var o := order[i];
        assert o in order && o in s.accounts;
      }
      SumAbove(order, Credits(s.accounts), bound);
    }
  }

  /**
   For n clients of one priority p, all of them busy at each turn, the credits have a
   lower bound exactly when the rivals of each have 64 points, (n - 1) * p >= 64.
   */
  lemma CreditsBoundedIff(clients: nat, priority: int, workers: nat, maxSize: nat)
    requires 1 <= clients && 0 < workers && 0 < maxSize
    ensures CreditsBounded(clients, priority, workers, maxSize) <==> (clients - 1) * priority >= 64
  {
    if (clients - 1) * priority >= 64 {
      EnoughRivalsBound(clients, priority, workers, maxSize);
    } else {
      forall bound: real
        ensures !BoundHolds(clients, priority, workers, maxSize, bound)
      {
        FewRivalsNoBound(clients, priority, workers, maxSize, bound);
      }
    }
  }
}
