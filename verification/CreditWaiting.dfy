/**
 How long a client can wait under the credit policy. With at most two clients and no
 empty files every wait is bounded; with more clients, or with empty files, a client
 can be passed over without end. Together: when the policy is free of starvation.
 */
module CreditWaiting {
  import opened CreditFairness
  import opened CreditLag
  import opened CreditPolicy
  import opened CreditStarvation
  import opened CreditStretches
  import opened RequestLists

  // ---- two clients ----

  /** b is first in the queue it is in. */
  ghost predicate Heads(s: Sched, b: int) {
    && b in s.accounts && Pending(s.requests, b) != []
    && (s.accounts[b].kind == UNDER ==> s.under != [] && s.under[0] == b)
    && (s.accounts[b].kind == OVER ==> s.over != [] && s.over[0] == b)
  }

  /** Somebody else overtakes the head of a queue only while it has credit. */
  lemma OvertakingNeedsCredit(s: Sched, b: int)
    requires Consistent(s) && Heads(s, b) && Ready(s) && Turn(s) != b
    ensures s.accounts[Turn(s)].credit > 0.0
  {
    assert s.accounts[b].kind != IDLE;
    assert s.under != [];
    assert Turn(s) in s.under;
  }

  lemma {:induction false} OthersAreOnly(order: seq<int>, accounts: map<int, Account>, kind: CreditType, a: int, b: int)
    requires forall i :: 0 <= i < |order| ==> order[i] == a || order[i] == b
    requires b in order && a != b && b in accounts && accounts[b].kind == kind
    ensures var q := OfKind(order, accounts, kind, a, |order|); q != [] && q[0] == b
  {
    var q := OfKind(order, accounts, kind, a, |order|);
    assert order[..|order|] == order;
    assert b in q;
    assert q[0] in q;
  }

  /** After a turn of the only other client, b is first in its queue. */
  lemma TurnPutsBehind(s: Sched, a: int, b: int)
    requires Consistent(s) && s.accounts.Keys == {a, b} && a != b && Pending(s.requests, b) != [] && Pending(s.requests, a) != []
    ensures Heads(Serve(s, a), b)
    ensures Serve(s, a).accounts[a].credit == s.accounts[a].credit - Cost(Pending(s.requests, a)[0].fileSize, s.workers)
  {
    var s' := Serve(s, a);
    forall i | 0 <= i < |s.order|
      ensures s.order[i] == a || s.order[i] == b
    {
      var o := s.order[i];
      assert o in s.order && o in s.accounts;
    }
    assert b in s.order;
    var kind := s'.accounts[b].kind;
    if kind != IDLE {
      OthersAreOnly(s.order, s'.accounts, kind, a, b);
    }
  }

  /** A new request of anybody leaves the head where it is. */
  lemma AskingKeepsHead(s: Sched, r: Request, b: int)
    requires Consistent(s) && Heads(s, b) && r.clientId in s.accounts
    ensures Heads(Enqueue(s, r), b)
  {
    assert s.accounts[b].kind != IDLE;
  }

  /** b waits, and after the first turn of a it is first in its queue. */
  ghost predicate Watched(s: Sched, a: int, b: int, turns: nat) {
    && Consistent(s) && s.accounts.Keys == {a, b}
    && Pending(s.requests, b) != []
    && (0 < turns ==> Heads(s, b))
  }

  lemma WatchedTurn(s: Sched, a: int, b: int, turns: nat)
    requires Watched(s, a, b, turns) && a != b && Ready(s) && Turn(s) == a
    ensures Watched(Serve(s, a), a, b, turns + 1)
    ensures 0 < turns ==> s.accounts[a].credit > 0.0
  {
    TurnPutsBehind(s, a, b);
    ServeConsistent(s, a);
    if 0 < turns {
      OvertakingNeedsCredit(s, b);
    }
  }

  lemma WatchedAsk(s: Sched, a: int, b: int, turns: nat, r: Request)
    requires Watched(s, a, b, turns) && r.clientId in s.accounts
    ensures Watched(Enqueue(s, r), a, b, turns)
  {
    EnqueueConsistent(s, r);
    if 0 < turns {
      AskingKeepsHead(s, r, b);
    }
  }

  lemma WatchedStep(s: Sched, op: Op, s': Sched, minSize: nat, a: int, b: int, turns: nat)
    requires Watched(s, a, b, turns) && a != b
    requires SteadyStep(s, op, s', minSize) && (op.Take? ==> Turn(s) != b)
    ensures Watched(s', a, b, turns + if op.Take? then 1 else 0)
    ensures op.Take? ==> Turn(s) == a && (0 < turns ==> s.accounts[a].credit > 0.0)
    ensures s'.accounts[a].credit
         == s.accounts[a].credit - if op.Take? then Cost(NextServed(s).fileSize, s.workers) else 0.0
  {
    StepAccount(s, op, s', a);
    match op
    case Take =>
      assert Turn(s) in s.accounts && Turn(s) in {a, b};
      WatchedTurn(s, a, b, turns);
    case Arrive(r) => WatchedAsk(s, a, b, turns, r);
  }

  /** What a client with credit0 has left after files of these sizes, and that it had some left before the last. */
  ghost predicate Charged(credit0: real, credit: real, sizes: seq<nat>, workers: nat) {
    && 0 < workers
    && credit == credit0 - CostOf(sizes, workers)
    && (2 <= |sizes| ==> CostOf(sizes[..|sizes| - 1], workers) < credit0)
  }

  lemma ChargedMore(credit0: real, credit: real, sizes: seq<nat>, workers: nat, size: nat)
    requires Charged(credit0, credit, sizes, workers) && (sizes != [] ==> credit > 0.0)
    ensures Charged(credit0, credit - Cost(size, workers), sizes + [size], workers)
  {
    CostOfMore(sizes, size, workers);
    assert (sizes + [size])[..|sizes|] == sizes;
  }

  lemma ChargedStep(credit0: real, s: Sched, op: Op, s': Sched, minSize: nat, a: int, b: int, sizes: seq<nat>)
    requires Watched(s, a, b, |sizes|) && a != b && Charged(credit0, s.accounts[a].credit, sizes, s.workers)
    requires SteadyStep(s, op, s', minSize) && (op.Take? ==> Turn(s) != b)
    ensures Watched(s', a, b, |sizes| + if op.Take? then 1 else 0)
    ensures Charged(credit0, s'.accounts[a].credit, sizes + (if op.Take? then [NextServed(s).fileSize] else []), s'.workers)
  {
    WatchedStep(s, op, s', minSize, a, b, |sizes|);
    SteadyKeeps(s, op, s', minSize);
    if op.Take? {
      ChargedMore(credit0, s.accounts[a].credit, sizes, s.workers, NextServed(s).fileSize);
    } else {
      assert sizes + [] == sizes;
    }
  }

  /** At its last turn a still had credit, after all that the turns before had cost. */
  lemma {:induction false} ChargedAlong(run: seq<Sched>, ops: seq<Op>, minSize: nat, a: int, b: int, k: nat)
    requires Stretch(run, ops, minSize, k) && PassesOver(run, ops, minSize, b, k)
    requires Watched(run[0], a, b, 0) && a != b && 0 < run[0].workers
    ensures Watched(run[k], a, b, Turns(ops, k))
    ensures Charged(run[0].accounts[a].credit, run[k].accounts[a].credit, Sizes(run, ops, minSize, k), run[k].workers)
  {
    if k == 0 {
    } else {
      ChargedAlong(run, ops, minSize, a, b, k - 1);
      ChargedStep(run[0].accounts[a].credit, run[k - 1], ops[k - 1], run[k], minSize, a, b, Sizes(run, ops, minSize, k - 1));
    }
  }

  lemma BytesPaidFor(sizes: seq<nat>, credit: real, workers: nat)
    requires 0 < workers && CostOf(sizes, workers) < credit
    ensures Total(sizes) as real < credit * BytesPerCredit(workers)
  {
    CostOfTotal(sizes, workers);
    var cost, unit := Cost(Total(sizes), workers), BytesPerCredit(workers);
    CostTimes(Total(sizes), workers);
    Slack(cost, credit, unit);
  }

  lemma Slack(cost: real, credit: real, unit: real)
    requires cost < credit && unit > 0.0
    ensures cost * unit < credit * unit
  {
    assert (credit - cost) * unit > 0.0;
    Distributes(unit, credit, -cost);
  }

  /** The files but the last are fewer bytes than the credit pays for, and so are the turns but one if none is empty. */
  ghost predicate Within(sizes: seq<nat>, minSize: nat, credit: real, workers: nat) {
    2 <= |sizes| ==>
      && Total(sizes[..|sizes| - 1]) as real < credit * BytesPerCredit(workers)
      && (0 < minSize ==> (|sizes| - 1) as real < credit * BytesPerCredit(workers))
  }

  lemma ChargedWithin(credit0: real, credit: real, sizes: seq<nat>, workers: nat, minSize: nat)
    requires Charged(credit0, credit, sizes, workers)
    requires forall i :: 0 <= i < |sizes| ==> minSize <= sizes[i]
    ensures Within(sizes, minSize, credit0, workers)
  {
    if 2 <= |sizes| {
      var front := sizes[..|sizes| - 1];
      BytesPaidFor(front, credit0, workers);
      if 0 < minSize {
        TotalAtLeast(front, minSize);
      }
    }
  }

  /**
   Between two clients the one that waits lets the other have no more bytes, before the
   other's last turn, than the other has credit for when the wait begins; without empty
   files it has no more turns than that many bytes and one.
   */
  lemma WaitBetweenTwo(run: seq<Sched>, ops: seq<Op>, minSize: nat, a: int, b: int, k: nat)
    requires Stretch(run, ops, minSize, k) && PassesOver(run, ops, minSize, b, k)
    requires Consistent(run[0]) && run[0].accounts.Keys == {a, b} && a != b && Pending(run[0].requests, b) != []
    ensures Within(Sizes(run, ops, minSize, k), minSize, run[0].accounts[a].credit, run[0].workers)
  {
    ChargedAlong(run, ops, minSize, a, b, k);
    StretchKeeps(run, ops, minSize, k);
    SizesAtLeast(run, ops, minSize, k);
    ChargedWithin(run[0].accounts[a].credit, run[k].accounts[a].credit, Sizes(run, ops, minSize, k), run[0].workers, minSize);
  }

  lemma OnlyClient(s: Sched, b: int)
    requires s.accounts.Keys == {b}
    ensures Ready(s) ==> Turn(s) == b
  {
    if Ready(s) {
      var t := Turn(s);
      assert t in s.accounts;
    }
  }

  /** A sole client is served at every turn. */
  lemma {:induction false} SoleClientIsServed(run: seq<Sched>, ops: seq<Op>, minSize: nat, b: int, k: nat)
    requires Stretch(run, ops, minSize, k) && PassesOver(run, ops, minSize, b, k)
    requires Consistent(run[0]) && run[0].accounts.Keys == {b}
    ensures Turns(ops, k) == 0
  {
    if k == 0 {
    } else {
      SoleClientIsServed(run, ops, minSize, b, k - 1);
      StretchKeeps(run, ops, minSize, k - 1);
      OnlyClient(run[k - 1], b);
    }
  }

  // ---- when waiting is bounded ----

  /** From s on, b is passed over at most so many times. */
  ghost predicate ServedWithin(s: Sched, minSize: nat, b: int, bound: nat) {
    forall turns: nat :: CanWait(s, minSize, b, turns) ==> turns <= bound
  }

  /** With so many clients, workers and bytes in a file, every wait in a reachable state has a bound. */
  ghost predicate StarvationFree(clients: nat, workers: nat, minSize: nat) {
    forall s, b :: Reachable(s) && |s.order| == clients && s.workers == workers && Pending(s.requests, b) != [] ==>
                     exists bound: nat :: ServedWithin(s, minSize, b, bound)
  }

  lemma SoleClientBounded(s: Sched, minSize: nat, b: int)
    requires Consistent(s) && s.accounts.Keys == {b}
    ensures ServedWithin(s, minSize, b, 0)
  {
    forall turns: nat | CanWait(s, minSize, b, turns)
      ensures turns <= 0
    {
      var s' :| Lasts(s, s', minSize, b, turns);
      var run, ops :| Goes(run, ops, s, s', minSize, b, turns);
      SoleClientIsServed(run, ops, minSize, b, |ops|);
    }
  }

  /** A natural number above a real one. */
  function Above(x: real): (n: nat)
    ensures x <= n as real
  {
    if x <= 0.0 then 0 else x.Floor + 1
  }

  function TurnBound(credit: real, workers: nat): nat {
    Above(credit * BytesPerCredit(workers)) + 1
  }

  lemma WithinBound(sizes: seq<nat>, minSize: nat, credit: real, workers: nat)
    requires Within(sizes, minSize, credit, workers) && 0 < minSize
    ensures |sizes| <= TurnBound(credit, workers)
  {
    var bound := credit * BytesPerCredit(workers);
    assert 2 <= |sizes| ==> (|sizes| - 1) as real < bound;
  }

  lemma OneWait(s: Sched, minSize: nat, a: int, b: int, turns: nat) returns (sizes: seq<nat>)
    requires Consistent(s) && s.accounts.Keys == {a, b} && a != b && Pending(s.requests, b) != []
    requires CanWait(s, minSize, b, turns)
    ensures |sizes| == turns && Within(sizes, minSize, s.accounts[a].credit, s.workers)
  {
    var s' :| Lasts(s, s', minSize, b, turns);
    var run, ops :| Goes(run, ops, s, s', minSize, b, turns);
    WaitBetweenTwo(run, ops, minSize, a, b, |ops|);
    sizes := Sizes(run, ops, minSize, |ops|);
  }

  lemma TwoClientsBounded(s: Sched, minSize: nat, a: int, b: int)
    requires Consistent(s) && s.accounts.Keys == {a, b} && a != b && Pending(s.requests, b) != [] && 0 < minSize
    ensures ServedWithin(s, minSize, b, TurnBound(s.accounts[a].credit, s.workers))
  {
    forall turns: nat | CanWait(s, minSize, b, turns)
      ensures turns <= TurnBound(s.accounts[a].credit, s.workers)
    {
      var sizes := OneWait(s, minSize, a, b, turns);
      WithinBound(sizes, minSize, s.accounts[a].credit, s.workers);
    }
  }

  /** Clients of an order of length one or two. */
  lemma FewClients(s: Sched, b: int) returns (a: int)
    requires Consistent(s) && Pending(s.requests, b) != [] && |s.order| <= 2
    ensures |s.order| == 1 ==> s.accounts.Keys == {b}
    ensures |s.order| == 2 ==> a != b && s.accounts.Keys == {a, b}
    ensures 0 < |s.order|
  {
    assert b in s.requests.Keys && b in s.accounts.Keys;
    assert b in s.order;
    a := if |s.order| == 2 && s.order[0] == b then s.order[1] else s.order[0];
    forall c
      ensures c in s.accounts <==> c == b || (|s.order| == 2 && c == a)
    {
      assert c in s.accounts <==> c in s.order;
      assert |s.order| == 2 ==> s.order == [s.order[0], s.order[1]];
      assert |s.order| == 1 ==> s.order == [s.order[0]];
    }
  }

  lemma FewAreFree(clients: nat, workers: nat, minSize: nat)
    requires clients <= 1 || (clients == 2 && 0 < minSize)
    ensures StarvationFree(clients, workers, minSize)
  {
    forall s, b | Reachable(s) && |s.order| == clients && s.workers == workers && Pending(s.requests, b) != []
      ensures exists bound: nat :: ServedWithin(s, minSize, b, bound)
    {
      ReachableConsistent(s);
      var a := FewClients(s, b);
      if clients == 1 {
        SoleClientBounded(s, minSize, b);
      } else {
        TwoClientsBounded(s, minSize, a, b);
      }
    }
  }

  lemma NoBound(s: Sched, minSize: nat, b: int, bound: nat)
    requires forall turns: nat :: CanWait(s, minSize, b, turns)
    ensures !ServedWithin(s, minSize, b, bound)
  {
    assert CanWait(s, minSize, b, bound + 1);
  }

  lemma ManyAreNotFree(clients: nat, workers: nat, minSize: nat)
    requires 0 < workers && (3 <= clients || (clients == 2 && minSize == 0))
    ensures !StarvationFree(clients, workers, minSize)
  {
    var order := seq(clients, i => i);
    var b := if 3 <= clients then order[2] else order[1];
    var s;
    if 3 <= clients {
      s := ThirdClientStarves(order, workers, minSize);
    } else {
      s := EmptyFilesStarve(order, workers);
    }
    forall bound: nat
      ensures !ServedWithin(s, minSize, b, bound)
    {
      NoBound(s, minSize, b, bound);
    }
    assert Reachable(s) && |s.order| == clients && s.workers == workers && Pending(s.requests, b) != [];
  }

  /**
   The credit policy is free of starvation exactly with at most one client, or with two
   and no empty files, whatever the priorities.
   */
  lemma StarvationFreeIff(clients: nat, workers: nat, minSize: nat)
    requires 0 < workers
    ensures StarvationFree(clients, workers, minSize) <==> clients <= 1 || (clients == 2 && 0 < minSize)
  {
    if clients <= 1 || (clients == 2 && 0 < minSize) {
      FewAreFree(clients, workers, minSize);
    } else {
      ManyAreNotFree(clients, workers, minSize);
    }
  }
}
