/**
 Stretches of a run in which nobody registers or leaves, and the states that runs
 reach: what the results about waiting and about sinking credits are stated on.
 */
module CreditStretches {
  import opened CreditFairness
  import opened CreditPolicy
  import opened RequestLists

  /** Some run from an empty scheduler ends in s. */
  ghost predicate Reachable(s: Sched) {
    exists run, ops :: EndsIn(run, ops, s)
  }

  ghost predicate EndsIn(run: seq<Sched>, ops: seq<Op>, s: Sched) {
    |run| == |ops| + 1 && IsRun(run, ops, |ops|) && run[|ops|] == s
  }

  lemma {:induction false} LongerRun(run: seq<Sched>, ops: seq<Op>, op: Op, s': Sched, k: nat)
    requires IsRun(run, ops, k)
    ensures IsRun(run + [s'], ops + [op], k)
  {
    if k == 0 {
    } else {
      LongerRun(run, ops, op, s', k - 1);
    }
  }

  lemma StartIsReachable(workers: nat)
    requires 0 < workers
    ensures Reachable(Empty(workers))
  {
    assert EndsIn([Empty(workers)], [], Empty(workers));
  }

  lemma EndsOneLater(run: seq<Sched>, ops: seq<Op>, s: Sched, op: Op, s': Sched)
    requires EndsIn(run, ops, s) && Step(s, op, s')
    ensures EndsIn(run + [s'], ops + [op], s')
  {
    LongerRun(run, ops, op, s', |ops|);
  }

  lemma StepIsReachable(s: Sched, op: Op, s': Sched)
    requires Reachable(s) && Step(s, op, s')
    ensures Reachable(s')
  {
    var run, ops :| EndsIn(run, ops, s);
    EndsOneLater(run, ops, s, op, s');
  }

  lemma ReachableConsistent(s: Sched)
    requires Reachable(s)
    ensures Consistent(s) && 0 < s.workers
  {
    var run, ops :| EndsIn(run, ops, s);
    RunsStayConsistent(run, ops, |ops|);
  }

  /** Nobody joins or leaves, and a file that is served has minSize bytes or more. */
  ghost predicate SteadyStep(s: Sched, op: Op, s': Sched, minSize: nat) {
    Step(s, op, s') && (op.Arrive? || (op.Take? && minSize <= NextServed(s).fileSize))
  }

  /** The first k operations lead from run[0] through these states, steadily. */
  ghost predicate Stretch(run: seq<Sched>, ops: seq<Op>, minSize: nat, k: nat) {
    && k <= |ops| && k < |run|
    && (k != 0 ==> Stretch(run, ops, minSize, k - 1) && SteadyStep(run[k - 1], ops[k - 1], run[k], minSize))
  }

  /** How many turns are taken. */
  function Turns(ops: seq<Op>, k: nat): nat
    requires k <= |ops|
  {
    if k == 0 then 0 else Turns(ops, k - 1) + if ops[k - 1].Take? then 1 else 0
  }

  /** None of them serves b. */
  ghost predicate PassesOver(run: seq<Sched>, ops: seq<Op>, minSize: nat, b: int, k: nat)
    requires Stretch(run, ops, minSize, k)
  {
    k != 0 ==> PassesOver(run, ops, minSize, b, k - 1) && (ops[k - 1].Take? ==> Turn(run[k - 1]) != b)
  }

  /** The sizes of the files served. */
  ghost function Sizes(run: seq<Sched>, ops: seq<Op>, minSize: nat, k: nat): (sizes: seq<nat>)
    requires Stretch(run, ops, minSize, k)
    ensures |sizes| == Turns(ops, k)
  {
    if k == 0 then []
    else Sizes(run, ops, minSize, k - 1) + if ops[k - 1].Take? then [NextServed(run[k - 1]).fileSize] else []
  }

  function Total(sizes: seq<nat>): nat {
    if sizes == [] then 0 else Total(sizes[..|sizes| - 1]) + sizes[|sizes| - 1]
  }

  /** What serving such files costs. */
  function CostOf(sizes: seq<nat>, workers: nat): real
    requires 0 < workers
  {
    if sizes == [] then 0.0 else CostOf(sizes[..|sizes| - 1], workers) + Cost(sizes[|sizes| - 1], workers)
  }

  lemma {:induction false} CostOfTotal(sizes: seq<nat>, workers: nat)
    requires 0 < workers
    ensures CostOf(sizes, workers) == Cost(Total(sizes), workers)
  {
    if sizes == [] {
    } else {
      var n := |sizes| - 1;
      CostOfTotal(sizes[..n], workers);
      CostAdds(Total(sizes[..n]), sizes[n], workers);
    }
  }

  lemma CostOfMore(sizes: seq<nat>, size: nat, workers: nat)
    requires 0 < workers
    ensures CostOf(sizes + [size], workers) == CostOf(sizes, workers) + Cost(size, workers)
  {
    assert (sizes + [size])[..|sizes|] == sizes;
  }

  lemma {:induction false} TotalAtLeast(sizes: seq<nat>, minSize: nat)
    requires 0 < minSize && forall i :: 0 <= i < |sizes| ==> minSize <= sizes[i]
    ensures |sizes| <= Total(sizes)
  {
    if sizes == [] {
    } else {
      TotalAtLeast(sizes[..|sizes| - 1], minSize);
    }
  }

  lemma {:induction false} SizesAtLeast(run: seq<Sched>, ops: seq<Op>, minSize: nat, k: nat)
    requires Stretch(run, ops, minSize, k)
    ensures forall i :: 0 <= i < Turns(ops, k) ==> minSize <= Sizes(run, ops, minSize, k)[i]
  {
    if k == 0 {
    } else {
      SizesAtLeast(run, ops, minSize, k - 1);
    }
  }

  /** What a steady step leaves alone. */
  lemma SteadyKeeps(s: Sched, op: Op, s': Sched, minSize: nat)
    requires Consistent(s) && SteadyStep(s, op, s', minSize)
    ensures Consistent(s') && s'.accounts.Keys == s.accounts.Keys && s'.order == s.order && s'.workers == s.workers
    ensures forall c :: c in s.accounts ==> s'.accounts[c].priority == s.accounts[c].priority
  {
    StepConsistent(s, op, s');
  }

  lemma {:induction false} StretchKeeps(run: seq<Sched>, ops: seq<Op>, minSize: nat, k: nat)
    requires Stretch(run, ops, minSize, k) && Consistent(run[0])
    ensures Consistent(run[k]) && run[k].accounts.Keys == run[0].accounts.Keys
    ensures run[k].order == run[0].order && run[k].workers == run[0].workers
  {
    if k == 0 {
    } else {
      StretchKeeps(run, ops, minSize, k - 1);
      SteadyKeeps(run[k - 1], ops[k - 1], run[k], minSize);
    }
  }

  /** A stretch from s to s' with so many turns, none of them b's. */
  ghost predicate Lasts(s: Sched, s': Sched, minSize: nat, b: int, turns: nat) {
    exists run, ops :: Goes(run, ops, s, s', minSize, b, turns)
  }

  /** b can be passed over so many times, from s on. */
  ghost predicate CanWait(s: Sched, minSize: nat, b: int, turns: nat) {
    exists s' :: Lasts(s, s', minSize, b, turns)
  }

  ghost predicate Goes(run: seq<Sched>, ops: seq<Op>, s: Sched, s': Sched, minSize: nat, b: int, turns: nat) {
    && |run| == |ops| + 1 && run[0] == s && run[|ops|] == s'
    && Stretch(run, ops, minSize, |ops|) && PassesOver(run, ops, minSize, b, |ops|)
    && Turns(ops, |ops|) == turns
  }

  lemma {:induction false} LongerStretch(run: seq<Sched>, ops: seq<Op>, minSize: nat, b: int, op: Op, s': Sched, k: nat)
    requires Stretch(run, ops, minSize, k) && PassesOver(run, ops, minSize, b, k)
    ensures Stretch(run + [s'], ops + [op], minSize, k) && PassesOver(run + [s'], ops + [op], minSize, b, k)
    ensures Turns(ops + [op], k) == Turns(ops, k)
  {
    if k == 0 {
    } else {
      LongerStretch(run, ops, minSize, b, op, s', k - 1);
    }
  }

  lemma LastsAtFirst(s: Sched, minSize: nat, b: int)
    ensures Lasts(s, s, minSize, b, 0)
  {
    assert Goes([s], [], s, s, minSize, b, 0);
  }

  /** One step more. */
  lemma StretchOn(run: seq<Sched>, ops: seq<Op>, minSize: nat, b: int, op: Op, s': Sched)
    requires |run| == |ops| + 1 && Stretch(run, ops, minSize, |ops|) && PassesOver(run, ops, minSize, b, |ops|)
    requires SteadyStep(run[|ops|], op, s', minSize) && (op.Take? ==> Turn(run[|ops|]) != b)
    ensures Stretch(run + [s'], ops + [op], minSize, |ops| + 1)
    ensures PassesOver(run + [s'], ops + [op], minSize, b, |ops| + 1)
    ensures Turns(ops + [op], |ops| + 1) == Turns(ops, |ops|) + if op.Take? then 1 else 0
  {
    LongerStretch(run, ops, minSize, b, op, s', |ops|);
  }

  lemma GoesOn(run: seq<Sched>, ops: seq<Op>, s: Sched, t: Sched, minSize: nat, b: int, turns: nat, op: Op, t': Sched)
    requires Goes(run, ops, s, t, minSize, b, turns) && SteadyStep(t, op, t', minSize) && (op.Take? ==> Turn(t) != b)
    ensures Goes(run + [t'], ops + [op], s, t', minSize, b, turns + if op.Take? then 1 else 0)
  {
    StretchOn(run, ops, minSize, b, op, t');
  }

  lemma LastsLonger(s: Sched, t: Sched, minSize: nat, b: int, turns: nat, op: Op, t': Sched)
    requires Lasts(s, t, minSize, b, turns) && SteadyStep(t, op, t', minSize) && (op.Take? ==> Turn(t) != b)
    ensures Lasts(s, t', minSize, b, turns + if op.Take? then 1 else 0)
  {
    var run, ops :| Goes(run, ops, s, t, minSize, b, turns);
    GoesOn(run, ops, s, t, minSize, b, turns, op, t');
  }
}
