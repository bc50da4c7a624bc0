/**
 Whole runs of the credit scheduler: what stays true, in which order requests are
 served, and what every credit amounts to.
 */
module CreditFairness {
  import opened CreditPolicy
  import opened RequestLists

  datatype Op =
    | Join(clientId: int, priority: int, order: seq<int>)
    | Arrive(request: Request)
    | Take
    | Leave(clientId: int)

  /** There is a client at the head of a queue, it is registered, and it has a request. */
  predicate Ready(s: Sched) {
    (s.under != [] || s.over != []) && Turn(s) in s.accounts && Pending(s.requests, Turn(s)) != []
  }

  /** The request that the next turn serves. */
  function NextServed(s: Sched): Request
    requires Ready(s)
  {
    Pending(s.requests, Turn(s))[0]
  }

  /** Only registered clients send requests, and only idle ones leave. */
  ghost predicate Step(s: Sched, op: Op, s': Sched) {
    && 0 < s.workers
    && match op
       case Join(c, priority, order) => Arranges(order, s.accounts.Keys + {c}) && s' == Register(s, c, priority, order)
       case Arrive(r) => r.clientId in s.accounts && s' == Enqueue(s, r)
       case Take => 0 < s.count && Ready(s) && s' == Serve(s, Turn(s))
       case Leave(c) => c in s.accounts && Pending(s.requests, c) == [] && s' == Deregister(s, c)
  }

  /** The first k operations lead from an empty scheduler through these states. */
  ghost predicate IsRun(run: seq<Sched>, ops: seq<Op>, k: nat) {
    && k <= |ops| && k < |run|
    && if k == 0 then 0 < run[0].workers && run[0] == Empty(run[0].workers)
       else IsRun(run, ops, k - 1) && Step(run[k - 1], ops[k - 1], run[k])
  }

  lemma StepConsistent(s: Sched, op: Op, s': Sched)
    requires Consistent(s) && Step(s, op, s')
    ensures Consistent(s')
  {
    match op
    case Join(c, priority, order) => RegisterConsistent(s, c, priority, order);
    case Arrive(r) => EnqueueConsistent(s, r);
    case Take => ServeConsistent(s, Turn(s));
    case Leave(c) => DeregisterConsistentIffIdle(s, c);
  }

  /** In every run queues, credits and requests agree, and a turn can be taken while requests wait. */
  lemma {:induction false} RunsStayConsistent(run: seq<Sched>, ops: seq<Op>, k: nat)
    requires IsRun(run, ops, k)
    ensures Consistent(run[k])
    ensures 0 < run[k].count ==> Ready(run[k])
  {
    if k == 0 {
      EmptyConsistent(run[0].workers);
    } else {
      RunsStayConsistent(run, ops, k - 1);
      StepConsistent(run[k - 1], ops[k - 1], run[k]);
    }
    if 0 < run[k].count {
      TurnIsReady(run[k]);
    }
  }

  lemma {:induction false} WorkersStay(run: seq<Sched>, ops: seq<Op>, k: nat)
    requires IsRun(run, ops, k)
    ensures run[k].workers == run[0].workers
  {
    if k == 0 {
    } else {
      WorkersStay(run, ops, k - 1);
      assert Step(run[k - 1], ops[k - 1], run[k]);
    }
  }

  // ---- every request once, in order ----

  function Coming(op: Op, c: int): seq<Request> {
    if op.Arrive? && op.request.clientId == c then [op.request] else []
  }

  function Going(s: Sched, op: Op, c: int): seq<Request>
    requires op.Take? ==> Ready(s)
  {
    if op.Take? && Turn(s) == c then [NextServed(s)] else []
  }

  /** What a client has sent. */
  function Sent(ops: seq<Op>, c: int, k: nat): seq<Request>
    requires k <= |ops|
  {
    if k == 0 then [] else Sent(ops, c, k - 1) + Coming(ops[k - 1], c)
  }

  /** What has been served of it. */
  ghost function Served(run: seq<Sched>, ops: seq<Op>, c: int, k: nat): seq<Request>
    requires IsRun(run, ops, k)
  {
    if k == 0 then [] else Served(run, ops, c, k - 1) + Going(run[k - 1], ops[k - 1], c)
  }

  /** A step takes at most one request from the front and adds at most one at the end. */
  lemma StepPending(s: Sched, op: Op, s': Sched, c: int)
    requires Step(s, op, s')
    ensures Pending(s.requests, c) + Coming(op, c) == Going(s, op, c) + Pending(s'.requests, c)
  {
  }

  lemma OrderStep(s: Sched, op: Op, s': Sched, c: int, sent: seq<Request>, served: seq<Request>)
    requires Step(s, op, s') && sent == served + Pending(s.requests, c)
    ensures sent + Coming(op, c) == served + Going(s, op, c) + Pending(s'.requests, c)
  {
    StepPending(s, op, s', c);
    Regroup(served, Pending(s.requests, c), Pending(s'.requests, c), Coming(op, c), Going(s, op, c));
  }

  lemma {:induction false} EveryRequestOnceInOrder(run: seq<Sched>, ops: seq<Op>, c: int, k: nat)
    requires IsRun(run, ops, k)
    ensures Sent(ops, c, k) == Served(run, ops, c, k) + Pending(run[k].requests, c)
  {
    if k == 0 {
    } else {
      EveryRequestOnceInOrder(run, ops, c, k - 1);
      var sent, served := Sent(ops, c, k - 1), Served(run, ops, c, k - 1);
      OrderStep(run[k - 1], ops[k - 1], run[k], c, sent, served);
      assert Sent(ops, c, k) == sent + Coming(ops[k - 1], c);
      assert Served(run, ops, c, k) == served + Going(run[k - 1], ops[k - 1], c);
    }
  }

  // ---- the ledger ----

  /** Bytes served to a client, and to all others, since it registered. */
  datatype Tally = Tally(own: nat, others: nat)

  function Tallied(s: Sched, op: Op, c: int, t: Tally): Tally
    requires op.Take? ==> Ready(s)
  {
    match op
    case Join(c', _, _) => if c' == c && c !in s.accounts then Tally(0, 0) else t
    case Take =>
      var size := NextServed(s).fileSize;
      if Turn(s) == c then Tally(t.own + size, t.others) else Tally(t.own, t.others + size)
    case _ => t
  }

  ghost function TallyOf(run: seq<Sched>, ops: seq<Op>, c: int, k: nat): Tally
    requires IsRun(run, ops, k)
  {
    if k == 0 then Tally(0, 0) else Tallied(run[k - 1], ops[k - 1], c, TallyOf(run, ops, c, k - 1))
  }

  lemma CostAdds(m: nat, n: nat, workers: nat)
    requires 0 < workers
    ensures Cost(m + n, workers) == Cost(m, workers) + Cost(n, workers)
  {
  }

  lemma GainIsShare(priority: real, fileSize: nat, workers: nat)
    requires 0 < workers
    ensures Gain(priority, fileSize, workers) == priority / DEFAULT_PRIORITY * Cost(fileSize, workers)
  {
  }

  /** The credit that a tally amounts to. */
  function Balance(priority: real, t: Tally, workers: nat): real
    requires 0 < workers
  {
    priority + priority / DEFAULT_PRIORITY * Cost(t.others, workers) - Cost(t.own, workers)
  }

  lemma BalanceMoves(priority: real, t: Tally, size: nat, workers: nat)
    requires 0 < workers
    ensures Balance(priority, Tally(t.own + size, t.others), workers) == Balance(priority, t, workers) - Cost(size, workers)
    ensures Balance(priority, Tally(t.own, t.others + size), workers) == Balance(priority, t, workers) + Gain(priority, size, workers)
  {
    CostAdds(t.own, size, workers);
    CostAdds(t.others, size, workers);
    GainIsShare(priority, size, workers);
    Distributes(priority / DEFAULT_PRIORITY, Cost(t.others, workers), Cost(size, workers));
  }

  lemma Distributes(x: real, a: real, b: real)
    ensures x * (a + b) == x * a + x * b
  {
  }

  lemma FreshBalance(priority: real, workers: nat)
    requires 0 < workers
    ensures Balance(priority, Tally(0, 0), workers) == priority
  {
  }

  /** What a step does to one account that stays. */
  lemma StepAccount(s: Sched, op: Op, s': Sched, c: int)
    requires Step(s, op, s') && c in s.accounts && c in s'.accounts
    ensures s'.accounts[c].priority == s.accounts[c].priority
    ensures s'.accounts[c].credit == s.accounts[c].credit
                                     + if !op.Take? then 0.0
                                     else if Turn(s) == c then -Cost(NextServed(s).fileSize, s.workers)
                                     else Gain(s.accounts[c].priority, NextServed(s).fileSize, s.workers)
  {
  }

  lemma StepNewAccount(s: Sched, op: Op, s': Sched, c: int)
    requires Step(s, op, s') && c !in s.accounts && c in s'.accounts
    ensures op.Join? && op.clientId == c && s'.accounts[c].credit == s'.accounts[c].priority == op.priority as real
  {
  }

  lemma LedgerStep(s: Sched, op: Op, s': Sched, c: int, t: Tally)
    requires Step(s, op, s') && c in s'.accounts
    requires c in s.accounts ==> s.accounts[c].credit == Balance(s.accounts[c].priority, t, s.workers)
    ensures var a := s'.accounts[c]; a.credit == Balance(a.priority, Tallied(s, op, c, t), s.workers)
  {
    if c in s.accounts {
      StepAccount(s, op, s', c);
      if op.Take? {
        BalanceMoves(s.accounts[c].priority, t, NextServed(s).fileSize, s.workers);
      }
    } else {
      StepNewAccount(s, op, s', c);
      FreshBalance(s'.accounts[c].priority, s.workers);
    }
  }

  /** A credit is the priority, plus its share of what the others were served, less what was served to it. */
  lemma {:induction false} Ledger(run: seq<Sched>, ops: seq<Op>, c: int, k: nat)
    requires IsRun(run, ops, k) && c in run[k].accounts
    ensures 0 < run[k].workers
    ensures var a := run[k].accounts[c];
            a.credit == Balance(a.priority, TallyOf(run, ops, c, k), run[k].workers)
  {
    WorkersStay(run, ops, k);
    WorkersStay(run, ops, k - 1);
    if c in run[k - 1].accounts {
      Ledger(run, ops, c, k - 1);
    }
    LedgerStep(run[k - 1], ops[k - 1], run[k], c, TallyOf(run, ops, c, k - 1));
  }

  // ---- the ledger in bytes ----

  /**
   A credit beyond the priority, at 16536 bytes a point for each worker, is the share of
   the bytes that others were served, one 64th for each point of priority, less those
   served to the client itself.
   */
  predicate BooksBalance(priority: real, credit: real, own: nat, others: nat, workers: nat) {
    (credit - priority) * (16536.0 * workers as real) == priority / 64.0 * others as real - own as real
  }

  lemma CostInBytes(n: nat, workers: nat)
    requires 0 < workers
    ensures Cost(n, workers) * (16536.0 * workers as real) == n as real
  {
    var w, c := workers as real, n as real / 16536.0;
    assert c / w * w == c;
    assert c * 16536.0 == n as real;
    assert c / w * (16536.0 * w) == c / w * w * 16536.0;
  }

  lemma Scaled(share: real, others: real, own: real, price: real, x: real, y: real)
    requires others * price == x && own * price == y
    ensures (share * others - own) * price == share * x - y
  {
    assert (share * others - own) * price == share * (others * price) - own * price;
  }

  lemma BalanceInBytes(priority: real, credit: real, t: Tally, workers: nat)
    requires 0 < workers && credit == Balance(priority, t, workers)
    ensures BooksBalance(priority, credit, t.own, t.others, workers)
  {
    CostInBytes(t.others, workers);
    CostInBytes(t.own, workers);
    Scaled(priority / 64.0, Cost(t.others, workers), Cost(t.own, workers), 16536.0 * workers as real, t.others as real, t.own as real);
  }

  /** In every run the credit of every client is what the bytes served since it registered amount to. */
  lemma LedgerInBytes(run: seq<Sched>, ops: seq<Op>, c: int, k: nat)
    requires IsRun(run, ops, k) && c in run[k].accounts
    ensures var a, t := run[k].accounts[c], TallyOf(run, ops, c, k);
            BooksBalance(a.priority, a.credit, t.own, t.others, run[k].workers)
  {
    Ledger(run, ops, c, k);
    var a := run[k].accounts[c];
    BalanceInBytes(a.priority, a.credit, TallyOf(run, ops, c, k), run[k].workers);
  }
}
