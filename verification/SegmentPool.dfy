/** The server's pool of equal-sized virtual segments and the grants taken from it. */
module SegmentPool {
  import opened Arithmetic
  import opened Sequences

  /** `live` lists the grants that have been handed out and not yet released. */
  datatype Pool = Pool(rep: nat, free: seq<bool>, available: int, live: seq<seq<nat>>) {
    function Total(): nat {
      Times(rep, |free|)
    }
  }

  function CountFree(free: seq<bool>): (n: nat)
    ensures n <= |free|
  {
    if free == [] then 0 else CountFree(free[..|free| - 1]) + (if free[|free| - 1] then 1 else 0)
  }

  /** The first n free indices below `to`, in ascending order (fewer if there are not as many). */
  function LowestFree(free: seq<bool>, n: nat, to: nat): (ids: seq<nat>)
    requires to <= |free|
    ensures |ids| <= n
    ensures forall k :: 0 <= k < |ids| ==> ids[k] < to
  {
    if to == 0 then []
    else
      var ids := LowestFree(free, n, to - 1);
      if |ids| < n && free[to - 1] then ids + [to - 1] else ids
  }

  /** Marks the listed segments. */
  function Mark(free: seq<bool>, ids: seq<nat>, value: bool): (free': seq<bool>)
    ensures |free'| == |free|
    ensures forall i {:trigger free'[i]} :: 0 <= i < |free| ==> free'[i] == if i in ids then value else free[i]
  {
    seq(|free|, i requires 0 <= i < |free| => if i in ids then value else free[i])
  }

  lemma MarkNone(free: seq<bool>, value: bool)
    ensures Mark(free, [], value) == free
  {
  }

  lemma MarkOneMore(free: seq<bool>, ids: seq<nat>, k: nat, value: bool)
    requires k < |ids| && ids[k] < |free|
    ensures ids[..k + 1] == ids[..k] + [ids[k]]
    ensures Mark(free, ids[..k + 1], value) == Mark(free, ids[..k], value)[ids[k] := value]
  {
    assert ids[..k + 1] == ids[..k] + [ids[k]];
  }

  predicate Ascending(ids: seq<nat>) {
    forall k, l :: 0 <= k < l < |ids| ==> ids[k] < ids[l]
  }

  ghost function Fresh(rep: nat, segments: nat): (p: Pool) {
    Pool(rep, seq(segments, _ => true), Times(rep, segments), [])
  }

  predicate CanGrant(p: Pool, requestSize: nat) {
    0 < p.rep && requestSize % p.rep == 0 && requestSize <= p.available
  }

  function Grant(p: Pool, requestSize: nat): (p': Pool)
    requires CanGrant(p, requestSize)
  {
    var ids := Share(p, requestSize);
    Pool(p.rep, Mark(p.free, ids, false), p.available - requestSize, p.live + [ids])
  }

  function Release(p: Pool, g: nat): (p': Pool)
    requires g < |p.live|
  {
    Pool(p.rep, Mark(p.free, p.live[g], true), p.available + Times(p.rep, |p.live[g]|), p.live[..g] + p.live[g + 1..])
  }

  // ---- the invariant ----

  predicate Granted(p: Pool, i: nat) {
    exists g :: 0 <= g < |p.live| && i in p.live[g]
  }

  /** `available` counts the bytes of the free segments. */
  predicate Accounted(p: Pool) {
    0 < p.rep && p.available == Times(p.rep, CountFree(p.free))
  }

  /** Live grants are disjoint and hold exactly the segments that are not free. */
  ghost predicate Partitioned(p: Pool) {
    && (forall g :: 0 <= g < |p.live| ==> Distinct(p.live[g]))
    && (forall g, k :: 0 <= g < |p.live| && 0 <= k < |p.live[g]| ==> p.live[g][k] < |p.free|)
    && (forall g, h, i :: 0 <= g < h < |p.live| && i in p.live[g] ==> i !in p.live[h])
    && (forall i :: 0 <= i < |p.free| ==> (p.free[i] <==> !Granted(p, i)))
  }

  ghost predicate Conserved(p: Pool) {
    Accounted(p) && Partitioned(p)
  }

  lemma {:induction false} AllFree(free: seq<bool>)
    requires forall i :: 0 <= i < |free| ==> free[i]
    ensures CountFree(free) == |free|
  {
    if free == [] {
    } else {
      AllFree(free[..|free| - 1]);
    }
  }

  lemma {:induction false} OneMarked(free: seq<bool>, i: nat, value: bool)
    requires i < |free| && free[i] != value
    ensures CountFree(free[i := value]) == CountFree(free) + (if value then 1 else -1)
  {
    var n := |free| - 1;
    if i == n {
      assert free[i := value][..n] == free[..n];
    } else {
      OneMarked(free[..n], i, value);
      assert free[i := value][..n] == free[..n][i := value];
    }
  }

  /** Marking n distinct segments moves the free count by n. */
  lemma {:induction false} ManyMarked(free: seq<bool>, ids: seq<nat>, value: bool)
    requires Distinct(ids)
    requires forall k :: 0 <= k < |ids| ==> ids[k] < |free| && free[ids[k]] != value
    ensures CountFree(Mark(free, ids, value)) == CountFree(free) + (if value then |ids| else -|ids|)
  {
    if ids == [] {
      assert Mark(free, ids, value) == free;
    } else {
      var n := |ids| - 1;
      var rest := ids[..n];
      assert ids == rest + [ids[n]];
      ManyMarked(free, rest, value);
      var marked := Mark(free, rest, value);
      assert ids[n] !in rest;
      OneMarked(marked, ids[n], value);
      assert Mark(free, ids, value) == marked[ids[n] := value];
    }
  }

  /** LowestFree takes as many as there are. */
  lemma {:induction false} LowestFreeCount(free: seq<bool>, n: nat, to: nat)
    requires to <= |free|
    ensures |LowestFree(free, n, to)| == if n < CountFree(free[..to]) then n else CountFree(free[..to])
  {
    if to == 0 {
    } else {
      LowestFreeCount(free, n, to - 1);
      assert free[..to][..to - 1] == free[..to - 1];
    }
  }

  /** Ascending indices of free segments below `to` that skip none, and all of those if there are fewer than n. */
  ghost predicate Lowest(free: seq<bool>, n: nat, to: nat, ids: seq<nat>)
    requires to <= |free|
  {
    && Ascending(ids) && (forall k :: 0 <= k < |ids| ==> ids[k] < to && free[ids[k]])
    && (|ids| < n ==> forall i :: 0 <= i < to && free[i] ==> i in ids)
    && (forall i, k :: 0 <= i < to && free[i] && i !in ids && 0 <= k < |ids| ==> ids[k] < i)
  }

  lemma LowestWithNext(free: seq<bool>, n: nat, to: nat, ids: seq<nat>)
    requires 0 < to <= |free| && Lowest(free, n, to - 1, ids) && |ids| < n && free[to - 1]
    ensures Lowest(free, n, to, ids + [to - 1])
  {
    var ids' := ids + [to - 1];
    forall i | 0 <= i < to && free[i]
      ensures i in ids'
    {
      if i == to - 1 {
        assert ids'[|ids|] == i;
      } else {
        assert i in ids;
      }
    }
  }

  lemma LowestWithoutNext(free: seq<bool>, n: nat, to: nat, ids: seq<nat>)
    requires 0 < to <= |free| && Lowest(free, n, to - 1, ids) && !(|ids| < n && free[to - 1])
    ensures Lowest(free, n, to, ids)
  {
  }

  /** LowestFree goes upwards and skips no free segment. */
  lemma {:induction false} LowestFreeIsLowest(free: seq<bool>, n: nat, to: nat)
    requires to <= |free|
    ensures Lowest(free, n, to, LowestFree(free, n, to))
  {
    if to == 0 {
    } else {
      LowestFreeIsLowest(free, n, to - 1);
      var ids := LowestFree(free, n, to - 1);
      if |ids| < n && free[to - 1] {
        LowestWithNext(free, n, to, ids);
      } else {
        LowestWithoutNext(free, n, to, ids);
      }
    }
  }

  /** Once enough segments are found, looking further changes nothing. */
  lemma {:induction false} LowestFreeStops(free: seq<bool>, n: nat, i: nat, to: nat)
    requires i <= to <= |free| && |LowestFree(free, n, i)| == n
    ensures LowestFree(free, n, to) == LowestFree(free, n, i)
  {
    if i == to {
    } else {
      LowestFreeStops(free, n, i, to - 1);
    }
  }

  /** The free segments the request amounts to. */
  function Share(p: Pool, requestSize: nat): (ids: seq<nat>)
    requires 0 < p.rep
  {
    LowestFree(p.free, requestSize / p.rep, |p.free|)
  }

  /**
   A grant of r bytes is exactly the r/rep lowest free segments, in ascending order,
   with nothing of the request left over.
   */
  lemma GrantTakesLowest(p: Pool, requestSize: nat)
    requires Accounted(p) && CanGrant(p, requestSize)
    ensures var ids := Share(p, requestSize);
            && |ids| == requestSize / p.rep && Times(p.rep, |ids|) == requestSize
            && Ascending(ids)
            && (forall k :: 0 <= k < |ids| ==> ids[k] < |p.free| && p.free[ids[k]])
            && (forall i, k :: 0 <= i < |p.free| && p.free[i] && i !in ids && 0 <= k < |ids| ==> ids[k] < i)
  {
    WholeShare(p, requestSize);
    LowestFreeCount(p.free, requestSize / p.rep, |p.free|);
    LowestFreeIsLowest(p.free, requestSize / p.rep, |p.free|);
    assert p.free[..|p.free|] == p.free;
  }

  lemma WholeShare(p: Pool, requestSize: nat)
    requires Accounted(p) && CanGrant(p, requestSize)
    ensures Times(p.rep, requestSize / p.rep) == requestSize && requestSize / p.rep <= CountFree(p.free)
  {
    WholeQuotient(requestSize, p.rep);
    TimesOrder(p.rep, requestSize / p.rep, CountFree(p.free));
  }

  lemma GrantAccounts(p: Pool, requestSize: nat)
    requires Accounted(p) && CanGrant(p, requestSize)
    ensures Accounted(Grant(p, requestSize))
  {
    var ids := Share(p, requestSize);
    GrantTakesLowest(p, requestSize);
    assert Distinct(ids);
    ManyMarked(p.free, ids, false);
    TimesAdds(p.rep, CountFree(p.free) - |ids|, |ids|);
  }

  lemma GrantPartitions(p: Pool, requestSize: nat)
    requires Conserved(p) && CanGrant(p, requestSize)
    ensures Partitioned(Grant(p, requestSize))
  {
    var ids := Share(p, requestSize);
    GrantTakesLowest(p, requestSize);
    AddingKeepsPartition(p, ids, Grant(p, requestSize));
  }

  lemma AddingKeepsPartition(p: Pool, ids: seq<nat>, p': Pool)
    requires Partitioned(p) && Ascending(ids)
    requires forall k :: 0 <= k < |ids| ==> ids[k] < |p.free| && p.free[ids[k]]
    requires p'.free == Mark(p.free, ids, false) && p'.live == p.live + [ids]
    ensures Partitioned(p')
  {
    forall i | 0 <= i < |p.free|
      ensures Granted(p', i) <==> Granted(p, i) || i in ids
    {
      if Granted(p, i) {
        var g :| 0 <= g < |p.live| && i in p.live[g];
        assert i in p'.live[g];
      }
      if i in ids {
        assert i in p'.live[|p.live|];
      }
    }
    forall g, i | 0 <= g < |p.live| && i in p.live[g]
      ensures i !in ids
    {
      assert Granted(p, i);
    }
  }

  lemma GrantConserves(p: Pool, requestSize: nat)
    requires Conserved(p) && CanGrant(p, requestSize)
    ensures Conserved(Grant(p, requestSize))
  {
    GrantAccounts(p, requestSize);
    GrantPartitions(p, requestSize);
  }

  lemma ReleaseAccounts(p: Pool, g: nat)
    requires Conserved(p) && g < |p.live|
    ensures Accounted(Release(p, g))
  {
    var ids := p.live[g];
    forall k | 0 <= k < |ids|
      ensures ids[k] < |p.free| && !p.free[ids[k]]
    {
      assert Granted(p, ids[k]);
    }
    ManyMarked(p.free, ids, true);
    TimesAdds(p.rep, CountFree(p.free), |ids|);
  }

  lemma ReleasePartitions(p: Pool, g: nat)
    requires Partitioned(p) && g < |p.live|
    ensures Partitioned(Release(p, g))
  {
    var p' := Release(p, g);
    var ids := p.live[g];
    assert forall h :: 0 <= h < |p'.live| ==> p'.live[h] == p.live[if h < g then h else h + 1];
    forall i | 0 <= i < |p.free|
      ensures Granted(p', i) <==> Granted(p, i) && i !in ids
    {
      if Granted(p, i) && i !in ids {
        var h :| 0 <= h < |p.live| && i in p.live[h];
        assert i in p'.live[if h < g then h else h - 1];
      }
      if Granted(p', i) {
        var h :| 0 <= h < |p'.live| && i in p'.live[h];
        assert i in p.live[if h < g then h else h + 1];
      }
    }
  }

  lemma ReleaseConserves(p: Pool, g: nat)
    requires Conserved(p) && g < |p.live|
    ensures Conserved(Release(p, g))
  {
    ReleaseAccounts(p, g);
    ReleasePartitions(p, g);
  }

  /** A release undoes its grant. */
  lemma ReleaseUndoesGrant(p: Pool, requestSize: nat)
    requires Accounted(p) && CanGrant(p, requestSize)
    ensures Release(Grant(p, requestSize), |p.live|) == p
  {
    var ids := Share(p, requestSize);
    GrantTakesLowest(p, requestSize);
    assert Mark(Mark(p.free, ids, false), ids, true) == p.free;
    assert (p.live + [ids])[..|p.live|] + (p.live + [ids])[|p.live| + 1..] == p.live;
  }

  // ---- runs ----

  datatype PoolOp = Take(requestSize: nat) | Give(grant: nat)

  /** A request that has to wait, or is refused, leaves the pool as it is. */
  function PoolStep(p: Pool, op: PoolOp): (p': Pool) {
    match op
    case Take(r) => if CanGrant(p, r) then Grant(p, r) else p
    case Give(g) => if g < |p.live| then Release(p, g) else p
  }

  function PoolRun(p: Pool, ops: seq<PoolOp>): (p': Pool) {
    if ops == [] then p else PoolStep(PoolRun(p, ops[..|ops| - 1]), ops[|ops| - 1])
  }

  lemma {:induction false} RunsConserve(p: Pool, ops: seq<PoolOp>)
    requires Conserved(p)
    ensures Conserved(PoolRun(p, ops))
    ensures PoolRun(p, ops).rep == p.rep && |PoolRun(p, ops).free| == |p.free|
  {
    if ops == [] {
    } else {
      RunsConserve(p, ops[..|ops| - 1]);
      var q := PoolRun(p, ops[..|ops| - 1]);
      match ops[|ops| - 1]
      case Take(r) => if CanGrant(q, r) { GrantConserves(q, r); }
      case Give(g) => if g < |q.live| { ReleaseConserves(q, g); }
    }
  }

  lemma FreshConserved(rep: nat, segments: nat)
    requires 0 < rep
    ensures Conserved(Fresh(rep, segments))
  {
    AllFree(Fresh(rep, segments).free);
  }

  /** In every run from start-up: no segment is in two grants, and every byte is accounted for. */
  lemma EveryByteAccountedFor(rep: nat, segments: nat, ops: seq<PoolOp>)
    requires 0 < rep
    ensures var p := PoolRun(Fresh(rep, segments), ops);
            && Conserved(p)
            && 0 <= p.available <= p.Total()
            && (p.live == [] ==> p == Fresh(rep, segments))
  {
    FreshConserved(rep, segments);
    RunsConserve(Fresh(rep, segments), ops);
    var p := PoolRun(Fresh(rep, segments), ops);
    TimesOrder(rep, CountFree(p.free), |p.free|);
    if p.live == [] {
      AllFree(p.free);
      assert p.free == Fresh(rep, segments).free;
    }
  }

  /** A request that fits the pool waits only while some other grant is live. */
  lemma WaitingImpliesLiveGrant(p: Pool, requestSize: nat)
    requires Conserved(p) && requestSize <= p.Total() && p.available < requestSize
    ensures exists g :: 0 <= g < |p.live| && p.live[g] != []
  {
    if forall i :: 0 <= i < |p.free| ==> p.free[i] {
      AllFree(p.free);
      assert false;
    }
    var i :| 0 <= i < |p.free| && !p.free[i];
    assert Granted(p, i);
    var g :| 0 <= g < |p.live| && i in p.live[g];
    assert p.live[g] != [];
  }
}
