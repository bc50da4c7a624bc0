/**
 How far clients can drift apart under the credit policy when nobody leaves and
 everybody is busy: what a turn does to the sum of the credits, and the bounds on
 credits and on service that follow.
 */
module CreditLag {
  import opened CreditFairness
  import opened CreditPolicy
  import opened RequestLists
  import opened Sequences

  // ---- sums over the clients ----

  function At(v: map<int, real>, c: int): real {
    if c in v then v[c] else 0.0
  }

  function Sum(order: seq<int>, v: map<int, real>): real {
    if order == [] then 0.0 else Sum(order[..|order| - 1], v) + At(v, order[|order| - 1])
  }

  lemma {:induction false} SumSame(order: seq<int>, v: map<int, real>, w: map<int, real>)
    requires forall i :: 0 <= i < |order| ==> At(v, order[i]) == At(w, order[i])
    ensures Sum(order, v) == Sum(order, w)
  {
    if order == [] {
    } else {
      SumSame(order[..|order| - 1], v, w);
    }
  }

  lemma {:induction false} SumWithout(order: seq<int>, v: map<int, real>, c: int)
    requires Distinct(order) && c in order
    ensures Sum(Without(order, c), v) == Sum(order, v) - At(v, c)
  {
    var n := |order| - 1;
    if order[n] == c {
      WithoutAbsent(order[..n], c);
    } else {
      SumWithout(order[..n], v, c);
      var rest := Without(order[..n], c);
      assert (rest + [order[n]])[..|rest|] == rest;
    }
  }

  lemma EmptyOf(order: seq<int>)
    requires forall c: int :: c !in order
    ensures order == []
  {
    var c := if order == [] then 0 else order[0];
    assert order == [] || c in order;
  }

  /** A sum does not depend on the order. */
  lemma {:induction false} SumAnyOrder(order: seq<int>, order': seq<int>, v: map<int, real>)
    requires Distinct(order) && Distinct(order')
    requires forall c :: c in order <==> c in order'
    ensures Sum(order, v) == Sum(order', v)
  {
    if order == [] {
      EmptyOf(order');
    } else {
      var n := |order| - 1;
      var last := order[n];
      assert last in order';
      SumWithout(order', v, last);
      WithoutDistinct(order', last);
      assert order == order[..n] + [last] && last !in order[..n];
      forall c
        ensures c in order[..n] <==> c in Without(order', last)
      {
        assert c in order <==> c in order[..n] || c == last;
      }
      SumAnyOrder(order[..n], Without(order', last), v);
    }
  }

  lemma {:induction false} SomePositive(order: seq<int>, v: map<int, real>) returns (c: int)
    requires 0.0 < Sum(order, v)
    ensures c in order && 0.0 < At(v, c)
  {
    c := order[|order| - 1];
    if At(v, c) <= 0.0 {
      c := SomePositive(order[..|order| - 1], v);
    }
  }

  lemma {:induction false} SumAdds(order: seq<int>, v: map<int, real>, v': map<int, real>, g: map<int, real>)
    requires forall i :: 0 <= i < |order| ==> At(v', order[i]) == At(v, order[i]) + At(g, order[i])
    ensures Sum(order, v') == Sum(order, v) + Sum(order, g)
  {
    if order == [] {
    } else {
      SumAdds(order[..|order| - 1], v, v', g);
    }
  }

  predicate IsProduct(x: real, y: real, unit: real) {
    x == y * unit
  }

  /** Where everybody gets the priority times the unit, all get the sum of priorities times the unit. */
  lemma {:induction false} SharesOfAll(order: seq<int>, g: map<int, real>, p: map<int, real>, unit: real)
    requires forall i :: 0 <= i < |order| ==> IsProduct(At(g, order[i]), At(p, order[i]), unit)
    ensures IsProduct(Sum(order, g), Sum(order, p), unit)
  {
    if order == [] {
    } else {
      var n := |order| - 1;
      SharesOfAll(order[..n], g, p, unit);
      assert IsProduct(At(g, order[n]), At(p, order[n]), unit);
      Distributes(unit, Sum(order[..n], p), At(p, order[n]));
    }
  }

  lemma {:induction false} SumAllBut(order: seq<int>, g: map<int, real>, h: map<int, real>, c: int)
    requires Distinct(order) && c in order
    requires forall i :: 0 <= i < |order| && order[i] != c ==> At(g, order[i]) == At(h, order[i])
    ensures Sum(order, g) == Sum(order, h) - At(h, c) + At(g, c)
  {
    var n := |order| - 1;
    if order[n] == c {
      SumSame(order[..n], g, h);
    } else {
      SumAllBut(order[..n], g, h, c);
    }
  }

  function Credits(accounts: map<int, Account>): (v: map<int, real>)
    ensures v.Keys == accounts.Keys
  {
    map c | c in accounts :: accounts[c].credit
  }

  function Priorities(accounts: map<int, Account>): (v: map<int, real>)
    ensures v.Keys == accounts.Keys
  {
    map c | c in accounts :: accounts[c].priority
  }

  // ---- busy runs ----

  /** The priority points of everybody but c. */
  function Rivals(s: Sched, c: int): real
    requires c in s.accounts
  {
    Sum(s.order, Priorities(s.accounts)) - s.accounts[c].priority
  }

  /** Everybody has a request waiting, and the others of each have 64 priority points or more together. */
  ghost predicate AllBusy(s: Sched) {
    forall c :: c in s.accounts ==>
                  && Pending(s.requests, c) != []
                  && Rivals(s, c) >= DEFAULT_PRIORITY
  }

  ghost predicate BusyStep(s: Sched, op: Op, maxSize: nat) {
    match op
    case Join(_, priority, _) => 0 <= priority
    case Arrive(_) => true
    case Take => AllBusy(s) && Ready(s) && NextServed(s).fileSize <= maxSize
    case Leave(_) => false
  }

  ghost predicate BusyRun(run: seq<Sched>, ops: seq<Op>, maxSize: nat, k: nat)
  {
    && IsRun(run, ops, k)
    && (k != 0 ==> BusyRun(run, ops, maxSize, k - 1) && BusyStep(run[k - 1], ops[k - 1], maxSize))
  }

  /** All together have at least what they started with, and nobody is further behind than one file. */
  ghost predicate Balanced(s: Sched, maxSize: nat) {
    && 0 < s.workers
    && Sum(s.order, Credits(s.accounts)) >= Sum(s.order, Priorities(s.accounts))
    && forall c :: c in s.accounts ==> s.accounts[c].priority >= 0.0 && s.accounts[c].credit > -Cost(maxSize, s.workers)
  }

  lemma CostMonotone(m: nat, n: nat, workers: nat)
    requires 0 < workers && m <= n
    ensures 0.0 <= Cost(m, workers) <= Cost(n, workers)
    ensures m < n ==> Cost(m, workers) < Cost(n, workers)
  {
  }

  /** In a busy state the under queue is not empty. */
  lemma SomebodyUnder(s: Sched, maxSize: nat)
    requires Consistent(s) && Balanced(s, maxSize) && AllBusy(s) && Ready(s)
    ensures s.under != [] && s.accounts[Turn(s)].credit > 0.0
  {
    var t := Turn(s);
    assert s.accounts[t].priority >= 0.0;
    assert Sum(s.order, Priorities(s.accounts)) >= DEFAULT_PRIORITY;
    var c := SomePositive(s.order, Credits(s.accounts));
    assert c in s.accounts && s.accounts[c].credit > 0.0;
    assert c in s.under;
    assert s.under[0] in s.under;
  }

  function Gains(s: Sched, size: nat): (g: map<int, real>)
    requires 0 < s.workers
    ensures g.Keys == s.accounts.Keys
  {
    map o | o in s.accounts :: Gain(s.accounts[o].priority, size, s.workers)
  }

  /** What a turn of c does to every credit. */
  function Changes(s: Sched, c: int, size: nat): (g: map<int, real>)
    requires 0 < s.workers
    ensures g.Keys == s.accounts.Keys
  {
    map o | o in s.accounts ::
      if o == c then -Cost(size, s.workers) else Gain(s.accounts[o].priority, size, s.workers)
  }

  /** What a client gains per point of priority. */
  function Unit(size: nat, workers: nat): real
    requires 0 < workers
  {
    Cost(size, workers) / DEFAULT_PRIORITY
  }

  lemma Rescale(p: real, cost: real)
    ensures p / DEFAULT_PRIORITY * cost == p * (cost / DEFAULT_PRIORITY)
  {
  }

  lemma OneGain(s: Sched, o: int, size: nat)
    requires 0 < s.workers && o in s.accounts
    ensures IsProduct(At(Gains(s, size), o), At(Priorities(s.accounts), o), Unit(size, s.workers))
  {
    var p := s.accounts[o].priority;
    GainIsShare(p, size, s.workers);
    Rescale(p, Cost(size, s.workers));
  }

  lemma GainsSum(s: Sched, c: int, size: nat)
    requires Counted(s) && c in s.accounts
    ensures IsProduct(Sum(s.order, Gains(s, size)) - At(Gains(s, size), c), Rivals(s, c), Unit(size, s.workers))
  {
    var p, unit := Priorities(s.accounts), Unit(size, s.workers);
    forall i | 0 <= i < |s.order|
      ensures IsProduct(At(Gains(s, size), s.order[i]), At(p, s.order[i]), unit)
    {
      var o := s.order[i];
      assert o in s.order && o in s.accounts;
      OneGain(s, o, size);
    }
    SharesOfAll(s.order, Gains(s, size), p, unit);
    OneGain(s, c, size);
    ProductsDiffer(Sum(s.order, Gains(s, size)), At(Gains(s, size), c), Sum(s.order, p), At(p, c), unit);
  }

  lemma ProductsDiffer(x: real, x': real, y: real, y': real, unit: real)
    requires IsProduct(x, y, unit) && IsProduct(x', y', unit)
    ensures IsProduct(x - x', y - y', unit)
  {
    Distributes(unit, y, -y');
  }

  lemma UnitCosts(size: nat, workers: nat)
    requires 0 < workers
    ensures IsProduct(Cost(size, workers), DEFAULT_PRIORITY, Unit(size, workers)) && Unit(size, workers) >= 0.0
  {
    CostMonotone(0, size, workers);
  }

  lemma ChangesSum(s: Sched, c: int, size: nat)
    requires Counted(s) && c in s.accounts
    ensures IsProduct(Sum(s.order, Changes(s, c, size)), Rivals(s, c) - DEFAULT_PRIORITY, Unit(size, s.workers))
  {
    assert c in s.order;
    SumAllBut(s.order, Changes(s, c, size), Gains(s, size), c);
    GainsSum(s, c, size);
    UnitCosts(size, s.workers);
    ProductsDiffer(Sum(s.order, Gains(s, size)) - At(Gains(s, size), c), Cost(size, s.workers),
                   Rivals(s, c), DEFAULT_PRIORITY, Unit(size, s.workers));
  }

  /** Every credit has moved by g, every priority is what it was. */
  ghost predicate Moved(before: map<int, Account>, after: map<int, Account>, g: map<int, real>) {
    && before.Keys == after.Keys == g.Keys
    && forall o :: o in before ==> after[o].credit == before[o].credit + g[o] && after[o].priority == before[o].priority
  }

  lemma TurnMoves(s: Sched, c: int, size: nat, backlog: bool)
    requires 0 < s.workers
    ensures Moved(s.accounts, Settle(s, c, size, backlog), Changes(s, c, size))
  {
  }

  lemma {:induction false} MovedSums(order: seq<int>, before: map<int, Account>, after: map<int, Account>, g: map<int, real>)
    requires Moved(before, after, g)
    ensures Sum(order, Credits(after)) == Sum(order, Credits(before)) + Sum(order, g)
    ensures Sum(order, Priorities(after)) == Sum(order, Priorities(before))
  {
    if order == [] {
    } else {
      MovedSums(order[..|order| - 1], before, after, g);
    }
  }

  /**
   A turn moves the sum of all credits by the unit price for each point by which the
   rivals of the served client exceed 64, up or down.
   */
  lemma TurnChangesSum(s: Sched, c: int, size: nat, backlog: bool)
    requires Counted(s) && c in s.accounts
    ensures var accounts := Settle(s, c, size, backlog);
            && IsProduct(Sum(s.order, Credits(accounts)) - Sum(s.order, Credits(s.accounts)),
                         Rivals(s, c) - DEFAULT_PRIORITY, Unit(size, s.workers))
            && Sum(s.order, Priorities(accounts)) == Sum(s.order, Priorities(s.accounts))
  {
    ChangesSum(s, c, size);
    TurnMoves(s, c, size, backlog);
    MovedSums(s.order, s.accounts, Settle(s, c, size, backlog), Changes(s, c, size));
  }

  lemma NotNegative(x: real, y: real, unit: real)
    requires IsProduct(x, y, unit) && y >= 0.0 && unit >= 0.0
    ensures x >= 0.0
  {
  }

  /** The served client loses no more than rivals of 64 points gain. */
  lemma TurnKeepsSum(s: Sched, c: int, size: nat, backlog: bool)
    requires Counted(s) && c in s.accounts && Rivals(s, c) >= DEFAULT_PRIORITY
    ensures var accounts := Settle(s, c, size, backlog);
            && Sum(s.order, Credits(accounts)) >= Sum(s.order, Credits(s.accounts))
            && Sum(s.order, Priorities(accounts)) == Sum(s.order, Priorities(s.accounts))
  {
    TurnChangesSum(s, c, size, backlog);
    UnitCosts(size, s.workers);
    NotNegative(Sum(s.order, Credits(Settle(s, c, size, backlog))) - Sum(s.order, Credits(s.accounts)),
                Rivals(s, c) - DEFAULT_PRIORITY, Unit(size, s.workers));
  }

  lemma {:induction false} SumExtends(order: seq<int>, order': seq<int>, clients: set<int>, v: map<int, real>, v': map<int, real>, c: int)
    requires Arranges(order, clients) && Arranges(order', clients + {c}) && c !in clients
    requires forall o :: o in clients ==> At(v', o) == At(v, o)
    ensures Sum(order', v') == Sum(order, v) + At(v', c)
  {
    forall i | 0 <= i < |order|
      ensures order[i] in clients
    {
      var o := order[i];
      assert o in order;
    }
    SumSame(order, v, v');
    assert c !in order;
    assert Distinct(order + [c]);
    SumAnyOrder(order + [c], order', v');
    assert (order + [c])[..|order|] == order;
  }

  lemma JoinBalanced(s: Sched, c: int, priority: int, order: seq<int>, maxSize: nat)
    requires Counted(s) && Balanced(s, maxSize) && 0 < maxSize && 0 <= priority
    requires Arranges(order, s.accounts.Keys + {c})
    ensures Balanced(Register(s, c, priority, order), maxSize)
  {
    if c !in s.accounts {
      var accounts := Register(s, c, priority, order).accounts;
      SumExtends(s.order, order, s.accounts.Keys, Credits(s.accounts), Credits(accounts), c);
      SumExtends(s.order, order, s.accounts.Keys, Priorities(s.accounts), Priorities(accounts), c);
      CostMonotone(0, maxSize, s.workers);
    }
  }

  lemma ArriveBalanced(s: Sched, r: Request, maxSize: nat)
    requires Balanced(s, maxSize) && r.clientId in s.accounts
    ensures Balanced(Enqueue(s, r), maxSize)
  {
    var accounts := Enqueue(s, r).accounts;
    assert Credits(accounts) == Credits(s.accounts);
    assert Priorities(accounts) == Priorities(s.accounts);
  }

  lemma GainIsPositive(priority: real, size: nat, workers: nat)
    requires 0 < workers && priority >= 0.0
    ensures Gain(priority, size, workers) >= 0.0
  {
  }

  /** A client that had credit is not further behind than one file after a turn. */
  lemma TurnBalanced(s: Sched, c: int, size: nat, backlog: bool, maxSize: nat)
    requires Counted(s) && Balanced(s, maxSize) && size <= maxSize && c in s.accounts && s.accounts[c].credit > 0.0
    requires Rivals(s, c) >= DEFAULT_PRIORITY
    ensures Balanced(s.(accounts := Settle(s, c, size, backlog)), maxSize)
  {
    var accounts := Settle(s, c, size, backlog);
    TurnKeepsSum(s, c, size, backlog);
    CostMonotone(size, maxSize, s.workers);
    forall o | o in accounts
      ensures accounts[o].priority >= 0.0 && accounts[o].credit > -Cost(maxSize, s.workers)
    {
      assert s.accounts[o].priority >= 0.0;
      GainIsPositive(s.accounts[o].priority, size, s.workers);
    }
  }

  lemma StepBalanced(s: Sched, op: Op, s': Sched, maxSize: nat)
    requires Consistent(s) && Balanced(s, maxSize) && 0 < maxSize
    requires Step(s, op, s') && BusyStep(s, op, maxSize)
    ensures Balanced(s', maxSize)
  {
    match op
    case Join(c, priority, order) => JoinBalanced(s, c, priority, order, maxSize);
    case Arrive(r) => ArriveBalanced(s, r, maxSize);
    case Take =>
      SomebodyUnder(s, maxSize);
      TurnBalanced(s, Turn(s), NextServed(s).fileSize, Pending(s.requests, Turn(s))[1..] != [], maxSize);
  }

  /** In a busy run no client's credit ever falls to minus the cost of the largest file. */
  lemma {:induction false} LagIsBounded(run: seq<Sched>, ops: seq<Op>, maxSize: nat, k: nat)
    requires BusyRun(run, ops, maxSize, k) && 0 < maxSize
    ensures Balanced(run[k], maxSize)
  {
    if k == 0 {
    } else {
      LagIsBounded(run, ops, maxSize, k - 1);
      RunsStayConsistent(run, ops, k - 1);
      StepBalanced(run[k - 1], ops[k - 1], run[k], maxSize);
    }
  }

  /** In a busy run the over queue is never served. */
  lemma OverNeverServed(run: seq<Sched>, ops: seq<Op>, maxSize: nat, k: nat)
    requires BusyRun(run, ops, maxSize, k + 1) && 0 < maxSize && ops[k].Take?
    ensures Ready(run[k]) && run[k].under != [] && run[k].accounts[Turn(run[k])].credit > 0.0
  {
    LagIsBounded(run, ops, maxSize, k);
    RunsStayConsistent(run, ops, k);
    SomebodyUnder(run[k], maxSize);
  }

  // ---- two clients of the default priority ----

  /** A sole client has no rivals, so nothing is served to it in a busy run. */
  lemma SoleClientNotBusy(s: Sched, c: int)
    requires Arranges(s.order, s.accounts.Keys) && s.accounts.Keys == {c}
    ensures !AllBusy(s)
  {
    var order, p := s.order, Priorities(s.accounts);
    assert c in order;
    forall i | 0 <= i < |order|
      ensures order[i] == c
    {
      var o := order[i];
      assert o in order && o in s.accounts;
    }
    var last := |order| - 1;
    assert order[0] == order[last] && last == 0;
    assert order == [c];
    assert Sum(order[..0], p) == 0.0;
    assert Sum(order, p) == At(p, c);
  }

  lemma ClientsStay(s: Sched, op: Op, s': Sched, maxSize: nat)
    requires Step(s, op, s') && BusyStep(s, op, maxSize)
    ensures s.accounts.Keys <= s'.accounts.Keys
    ensures forall c :: c in s'.accounts && c !in s.accounts ==> op.Join? && op.clientId == c
  {
  }

  /** While there are only a and b, what one was served is what the other had served to others. */
  ghost predicate Mirrored(s: Sched, a: int, b: int, ta: Tally, tb: Tally) {
    if a in s.accounts && b in s.accounts then ta.own == tb.others && tb.own == ta.others
    else ta == tb == Tally(0, 0)
  }

  /** When a turn is taken in a busy run with only a and b, both are there. */
  lemma BothThere(s: Sched, a: int, b: int)
    requires Counted(s) && AllBusy(s) && Ready(s) && s.accounts.Keys <= {a, b}
    ensures a in s.accounts && b in s.accounts && Turn(s) in {a, b}
  {
    var t := Turn(s);
    assert t in s.accounts && t in {a, b};
    if s.accounts.Keys == {t} {
      SoleClientNotBusy(s, t);
    }
  }

  lemma MirroredTake(s: Sched, a: int, b: int, ta: Tally, tb: Tally)
    requires Counted(s) && AllBusy(s) && Ready(s) && s.accounts.Keys <= {a, b}
    requires a != b && Mirrored(s, a, b, ta, tb)
    ensures Mirrored(s, a, b, Tallied(s, Take, a, ta), Tallied(s, Take, b, tb))
  {
    BothThere(s, a, b);
  }

  lemma MirroredStep(s: Sched, op: Op, s': Sched, a: int, b: int, ta: Tally, tb: Tally, maxSize: nat)
    requires Counted(s) && Step(s, op, s') && BusyStep(s, op, maxSize)
    requires a != b && s'.accounts.Keys <= {a, b} && Mirrored(s, a, b, ta, tb)
    ensures Mirrored(s', a, b, Tallied(s, op, a, ta), Tallied(s, op, b, tb))
  {
    ClientsStay(s, op, s', maxSize);
    match op
    case Take => MirroredTake(s, a, b, ta, tb); assert s'.accounts.Keys == s.accounts.Keys;
    case Arrive(_) => assert s'.accounts.Keys == s.accounts.Keys;
    case Join(_, _, _) =>
  }

  lemma {:induction false} TalliesMirror(run: seq<Sched>, ops: seq<Op>, a: int, b: int, maxSize: nat, k: nat)
    requires BusyRun(run, ops, maxSize, k) && a != b && run[k].accounts.Keys <= {a, b}
    ensures Mirrored(run[k], a, b, TallyOf(run, ops, a, k), TallyOf(run, ops, b, k))
  {
    if k == 0 {
    } else {
      ClientsStay(run[k - 1], ops[k - 1], run[k], maxSize);
      TalliesMirror(run, ops, a, b, maxSize, k - 1);
      RunsStayConsistent(run, ops, k - 1);
      MirroredStep(run[k - 1], ops[k - 1], run[k], a, b, TallyOf(run, ops, a, k - 1), TallyOf(run, ops, b, k - 1), maxSize);
    }
  }

  /** The bytes that one credit pays for. */
  function BytesPerCredit(workers: nat): real {
    FILE_CREDIT_MULTIPLIER * workers as real
  }

  lemma CostTimes(n: nat, workers: nat)
    requires 0 < workers
    ensures Cost(n, workers) * BytesPerCredit(workers) == n as real
  {
  }

  lemma Scales(p: real, a: real, b: real, c: real, unit: real)
    requires p + a - b + c > 0.0 && unit > 0.0
    ensures p * unit + a * unit - b * unit + c * unit > 0.0
  {
    assert (p + a - b + c) * unit > 0.0;
    Distributes(unit, p + a, c - b);
    Distributes(unit, p, a);
    Distributes(unit, c, -b);
  }

  lemma DefaultBalance(t: Tally, workers: nat)
    requires 0 < workers
    ensures Balance(DEFAULT_PRIORITY, t, workers) == DEFAULT_PRIORITY + Cost(t.others, workers) - Cost(t.own, workers)
  {
  }

  /** From credits back to bytes. */
  lemma BytesFromCredit(t: Tally, maxSize: nat, workers: nat)
    requires 0 < workers
    requires Balance(DEFAULT_PRIORITY, t, workers) > -Cost(maxSize, workers)
    ensures t.own as real - t.others as real < DEFAULT_PRIORITY * BytesPerCredit(workers) + maxSize as real
  {
    DefaultBalance(t, workers);
    CostTimes(t.own, workers);
    CostTimes(t.others, workers);
    CostTimes(maxSize, workers);
    Scales(DEFAULT_PRIORITY, Cost(t.others, workers), Cost(t.own, workers), Cost(maxSize, workers), BytesPerCredit(workers));
  }

  /** Two clients of the default priority are served alike, up to a constant and one file. */
  lemma EqualPrioritiesEqualService(run: seq<Sched>, ops: seq<Op>, a: int, b: int, maxSize: nat, k: nat)
    requires BusyRun(run, ops, maxSize, k) && 0 < maxSize && a != b && run[k].accounts.Keys == {a, b}
    requires run[k].accounts[a].priority == run[k].accounts[b].priority == DEFAULT_PRIORITY
    ensures var apart := TallyOf(run, ops, a, k).own as real - TallyOf(run, ops, b, k).own as real;
            var bound := 64.0 * 16536.0 * run[k].workers as real + maxSize as real;
            -bound < apart < bound
  {
    TalliesMirror(run, ops, a, b, maxSize, k);
    LagIsBounded(run, ops, maxSize, k);
    Ledger(run, ops, a, k);
    Ledger(run, ops, b, k);
    var ta, tb := TallyOf(run, ops, a, k), TallyOf(run, ops, b, k);
    BytesFromCredit(ta, maxSize, run[k].workers);
    BytesFromCredit(tb, maxSize, run[k].workers);
  }
}
