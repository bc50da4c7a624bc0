/**
 Several transfers at once: each over its own grant of the server's pool, all over
 one memory, interleaved with each other and with further grants and releases.
 */
module ConcurrentTransfers {
  import opened Arithmetic
  import opened Bytes
  import opened SegmentPool
  import opened Sequences
  import Protocol = TransferProtocol

  /** One transfer, apart from the segment, which lies in the common memory. */
  datatype Task = Task(job: Protocol.Job, server: Protocol.Server, client: Protocol.Client,
                       serverSem: nat, clientSem: nat, senseSem: nat)

  /** `memory` holds the bytes of each virtual segment; task g owns grant g of the pool. */
  datatype World = World(pool: Pool, memory: seq<seq<byte>>, tasks: seq<Task>)

  // ---- the bytes of a grant ----

  predicate Inside(memory: seq<seq<byte>>, ids: seq<nat>) {
    forall k :: 0 <= k < |ids| ==> ids[k] < |memory|
  }

  predicate Uniform(memory: seq<seq<byte>>, rep: nat) {
    forall i :: 0 <= i < |memory| ==> |memory[i]| == rep
  }

  /** The segments of a grant as one buffer. */
  function Gather(memory: seq<seq<byte>>, ids: seq<nat>): (flat: seq<byte>)
    requires Inside(memory, ids)
  {
    if ids == [] then [] else Gather(memory, ids[..|ids| - 1]) + memory[ids[|ids| - 1]]
  }

  /** The memory with that buffer replaced. */
  function Scatter(memory: seq<seq<byte>>, ids: seq<nat>, rep: nat, flat: seq<byte>): (memory': seq<seq<byte>>)
    requires Inside(memory, ids) && |flat| == Times(rep, |ids|)
    ensures |memory'| == |memory|
  {
    if ids == [] then memory
    else
      var n := |ids| - 1;
      Scatter(memory, ids[..n], rep, flat[..|flat| - rep])[ids[n] := flat[|flat| - rep..]]
  }

  lemma {:induction false} GatherLength(memory: seq<seq<byte>>, ids: seq<nat>, rep: nat)
    requires Inside(memory, ids) && Uniform(memory, rep)
    ensures |Gather(memory, ids)| == Times(rep, |ids|)
  {
    if ids == [] {
    } else {
      GatherLength(memory, ids[..|ids| - 1], rep);
    }
  }

  lemma {:induction false} GatherSame(memory: seq<seq<byte>>, memory': seq<seq<byte>>, ids: seq<nat>)
    requires Inside(memory, ids) && |memory'| == |memory|
    requires forall k :: 0 <= k < |ids| ==> memory'[ids[k]] == memory[ids[k]]
    ensures Gather(memory', ids) == Gather(memory, ids)
  {
    if ids == [] {
    } else {
      GatherSame(memory, memory', ids[..|ids| - 1]);
    }
  }

  /** Replacing the buffer of a grant leaves the other segments alone and keeps their size. */
  lemma {:induction false} ScatterElsewhere(memory: seq<seq<byte>>, ids: seq<nat>, rep: nat, flat: seq<byte>)
    requires Inside(memory, ids) && |flat| == Times(rep, |ids|) && Uniform(memory, rep)
    ensures Uniform(Scatter(memory, ids, rep, flat), rep)
    ensures forall i :: 0 <= i < |memory| && i !in ids ==> Scatter(memory, ids, rep, flat)[i] == memory[i]
  {
    if ids == [] {
    } else {
      var n := |ids| - 1;
      ScatterElsewhere(memory, ids[..n], rep, flat[..|flat| - rep]);
      assert forall i :: 0 <= i < |memory| && i !in ids ==> i !in ids[..n] && i != ids[n];
    }
  }

  /** Replacing the last segment of a grant. */
  lemma GatherLast(memory: seq<seq<byte>>, ids: seq<nat>, last: seq<byte>)
    requires Inside(memory, ids) && Distinct(ids) && ids != []
    ensures Gather(memory[ids[|ids| - 1] := last], ids) == Gather(memory, ids[..|ids| - 1]) + last
  {
    GatherSame(memory, memory[ids[|ids| - 1] := last], ids[..|ids| - 1]);
  }

  /** The new buffer can be read back. */
  lemma {:induction false} ScatterGather(memory: seq<seq<byte>>, ids: seq<nat>, rep: nat, flat: seq<byte>)
    requires Inside(memory, ids) && |flat| == Times(rep, |ids|) && Distinct(ids)
    ensures Gather(Scatter(memory, ids, rep, flat), ids) == flat
  {
    if ids == [] {
    } else {
      var n := |ids| - 1;
      var front, last := flat[..|flat| - rep], flat[|flat| - rep..];
      var before := Scatter(memory, ids[..n], rep, front);
      ScatterGather(memory, ids[..n], rep, front);
      GatherLast(before, ids, last);
      assert flat == front + last;
    }
  }

  // ---- the world ----

  /** Task and pool agree on who owns what. */
  ghost predicate Shaped(w: World) {
    && |w.memory| == |w.pool.free| && Uniform(w.memory, w.pool.rep)
    && |w.tasks| == |w.pool.live|
    && forall g :: 0 <= g < |w.pool.live| ==> Inside(w.memory, w.pool.live[g])
  }

  /** Transfer g as a state of the protocol. */
  ghost function StateOf(w: World, g: nat): Protocol.State
    requires Shaped(w) && g < |w.tasks|
  {
    var t := w.tasks[g];
    Protocol.State(t.server, t.client, t.serverSem, t.clientSem, t.senseSem, Gather(w.memory, w.pool.live[g]))
  }

  function TaskOf(job: Protocol.Job, s: Protocol.State): Task {
    Task(job, s.server, s.client, s.serverSem, s.clientSem, s.senseSem)
  }

  ghost predicate TaskRight(w: World, g: nat)
    requires Shaped(w) && g < |w.tasks|
  {
    var job := w.tasks[g].job;
    && job.Valid() && job.Fits() && job.capacity == Times(w.pool.rep, |w.pool.live[g]|)
    && Protocol.Reachable(job, StateOf(w, g))
  }

  /** Every transfer is in a state it could have reached alone. */
  ghost predicate Invariant(w: World) {
    && Conserved(w.pool) && Shaped(w)
    && forall g :: 0 <= g < |w.tasks| ==> TaskRight(w, g)
  }

  /** Begin takes a grant, whatever its segments still hold; End releases it once the server is through. */
  datatype Event = Begin(job: Protocol.Job) | ServerMove(g: nat) | ClientMove(g: nat) | End(g: nat)

  ghost predicate Enabled(w: World, e: Event)
    requires Shaped(w)
  {
    match e
    case Begin(job) => job.Valid() && job.Fits() && CanGrant(w.pool, job.capacity)
    case ServerMove(g) => g < |w.tasks| && Protocol.ServerEnabled(StateOf(w, g))
    case ClientMove(g) => g < |w.tasks| && Protocol.ClientEnabled(StateOf(w, g))
    case End(g) => g < |w.tasks| && w.tasks[g].server.at.ServerDone?
  }

  function NewTask(job: Protocol.Job): Task {
    Task(job, Protocol.Server(Protocol.RecvTest, Protocol.Zeros(|job.src|), 0, [], 0, 0),
         Protocol.Client(Protocol.PutTest, 0, 0, [], 0, 0), 1, 0, 0)
  }

  /** Transfer g goes on to s'. */
  ghost function Moved(w: World, g: nat, s': Protocol.State): (w': World)
    requires Shaped(w) && g < |w.tasks| && |s'.segment| == Times(w.pool.rep, |w.pool.live[g]|)
  {
    w.(memory := Scatter(w.memory, w.pool.live[g], w.pool.rep, s'.segment),
    tasks := w.tasks[g := TaskOf(w.tasks[g].job, s')])
  }

  function Began(w: World, job: Protocol.Job): World
    requires CanGrant(w.pool, job.capacity)
  {
    w.(pool := Grant(w.pool, job.capacity), tasks := w.tasks + [NewTask(job)])
  }

  function Ended(w: World, g: nat): World
    requires g < |w.tasks| == |w.pool.live|
  {
    w.(pool := Release(w.pool, g), tasks := w.tasks[..g] + w.tasks[g + 1..])
  }

  ghost predicate Step(w: World, e: Event, w': World)
    requires Shaped(w)
  {
    && Enabled(w, e)
    && match e
       case Begin(job) => w' == Began(w, job)
       case ServerMove(g) =>
         var s' := Protocol.ServerStep(w.tasks[g].job, StateOf(w, g));
         |s'.segment| == Times(w.pool.rep, |w.pool.live[g]|) && w' == Moved(w, g, s')
       case ClientMove(g) =>
         var s' := Protocol.ClientStep(w.tasks[g].job, StateOf(w, g));
         |s'.segment| == Times(w.pool.rep, |w.pool.live[g]|) && w' == Moved(w, g, s')
       case End(g) => w' == Ended(w, g)
  }

  /** A release that comes after the token is back on the server's semaphore. */
  ghost predicate Patient(w: World, e: Event)
    requires Shaped(w) && Enabled(w, e)
  {
    e.End? ==> w.tasks[e.g].serverSem == 1
  }

  // ---- transfers do not touch each other ----

  /** A move of one transfer writes inside its grant. */
  lemma MoveIsLocal(w: World, g: nat, s': Protocol.State)
    requires Conserved(w.pool) && Shaped(w) && g < |w.tasks| && |s'.segment| == Times(w.pool.rep, |w.pool.live[g]|)
    ensures Shaped(Moved(w, g, s'))
    ensures StateOf(Moved(w, g, s'), g) == s'
    ensures forall h :: 0 <= h < |w.tasks| && h != g ==> StateOf(Moved(w, g, s'), h) == StateOf(w, h)
  {
    var ids := w.pool.live[g];
    var memory' := Scatter(w.memory, ids, w.pool.rep, s'.segment);
    ScatterElsewhere(w.memory, ids, w.pool.rep, s'.segment);
    ScatterGather(w.memory, ids, w.pool.rep, s'.segment);
    forall h | 0 <= h < |w.tasks| && h != g
      ensures Gather(memory', w.pool.live[h]) == Gather(w.memory, w.pool.live[h])
    {
      GrantsApart(w.pool, g, h);
      GatherSame(w.memory, memory', w.pool.live[h]);
    }
  }

  lemma GrantsApart(p: Pool, g: nat, h: nat)
    requires Partitioned(p) && g < |p.live| && h < |p.live| && g != h
    ensures forall k :: 0 <= k < |p.live[h]| ==> p.live[h][k] !in p.live[g]
  {
    forall k | 0 <= k < |p.live[h]|
      ensures p.live[h][k] !in p.live[g]
    {
      var i := p.live[h][k];
      assert i in p.live[h];
    }
  }

  lemma NextReachable(j: Protocol.Job, s: Protocol.State, s': Protocol.State)
    requires Protocol.Reachable(j, s) && Protocol.Next(j, s, s')
    ensures Protocol.Reachable(j, s')
  {
    var run :| Protocol.IsRun(j, run) && run[|run| - 1] == s;
    var run' := Protocol.ExtendRun(j, run, s');
    assert run'[|run'| - 1] == s';
  }

  lemma StartReachable(j: Protocol.Job, s: Protocol.State)
    requires Protocol.Init(j, s)
    ensures Protocol.Reachable(j, s)
  {
    assert Protocol.IsRun(j, [s]) && [s][|[s]| - 1] == s;
  }

  lemma KeepsCapacity(j: Protocol.Job, s: Protocol.State, s': Protocol.State)
    requires j.Valid() && j.Fits() && Protocol.Reachable(j, s) && Protocol.Next(j, s, s')
    ensures Protocol.Reachable(j, s') && |s'.segment| == j.capacity
  {
    NextReachable(j, s, s');
    Protocol.ReachableInvariant(j, s');
  }

  lemma TasksStayRight(w: World, g: nat, s': Protocol.State)
    requires Invariant(w) && g < |w.tasks| && |s'.segment| == Times(w.pool.rep, |w.pool.live[g]|)
    requires Protocol.Reachable(w.tasks[g].job, s')
    ensures Invariant(Moved(w, g, s'))
  {
    MoveIsLocal(w, g, s');
    var w' := Moved(w, g, s');
    assert TaskRight(w, g);
    forall h | 0 <= h < |w'.tasks|
      ensures TaskRight(w', h)
    {
      if h != g {
        assert TaskRight(w, h);
      }
    }
  }

  /** A step of one transfer keeps every transfer right. */
  lemma MoveKept(w: World, g: nat, s': Protocol.State)
    requires Invariant(w) && g < |w.tasks| && Protocol.Next(w.tasks[g].job, StateOf(w, g), s')
    ensures |s'.segment| == Times(w.pool.rep, |w.pool.live[g]|)
    ensures Invariant(Moved(w, g, s'))
  {
    var job := w.tasks[g].job;
    assert TaskRight(w, g);
    KeepsCapacity(job, StateOf(w, g), s');
    MoveIsLocal(w, g, s');
    TasksStayRight(w, g, s');
  }

  /** A grant starts a transfer and leaves the others as they are. */
  lemma BeginKept(w: World, job: Protocol.Job)
    requires Invariant(w) && Enabled(w, Begin(job))
    ensures Invariant(Began(w, job))
    ensures forall h :: 0 <= h < |w.tasks| ==> StateOf(Began(w, job), h) == StateOf(w, h)
  {
    var w' := Began(w, job);
    GrantConserves(w.pool, job.capacity);
    GrantTakesLowest(w.pool, job.capacity);
    assert Shaped(w');
    forall h | 0 <= h < |w.tasks|
      ensures StateOf(w', h) == StateOf(w, h) && TaskRight(w', h)
    {
      assert TaskRight(w, h);
    }
    GatherLength(w.memory, Share(w.pool, job.capacity), w.pool.rep);
    StartReachable(job, StateOf(w', |w.tasks|));
    assert TaskRight(w', |w.tasks|);
  }

  /** The place of a task before the release of task g. */
  function Before(g: nat, h: nat): nat {
    if h < g then h else h + 1
  }

  lemma EndedShape(w: World, g: nat)
    requires Shaped(w) && g < |w.tasks|
    ensures var w' := Ended(w, g);
            && Shaped(w')
            && |w'.tasks| == |w.tasks| - 1
            && forall h :: 0 <= h < |w'.tasks| ==>
                             w'.pool.live[h] == w.pool.live[Before(g, h)] && w'.tasks[h] == w.tasks[Before(g, h)]
  {
  }

  lemma OthersUntouched(w: World, g: nat, h: nat)
    requires Shaped(w) && g < |w.tasks| && h < |w.tasks| - 1 && Shaped(Ended(w, g))
    ensures StateOf(Ended(w, g), h) == StateOf(w, Before(g, h))
    ensures TaskRight(w, Before(g, h)) ==> TaskRight(Ended(w, g), h)
  {
    EndedShape(w, g);
  }

  /** A release leaves the other transfers as they are. */
  lemma EndKept(w: World, g: nat)
    requires Invariant(w) && g < |w.tasks|
    ensures Invariant(Ended(w, g))
    ensures forall h :: 0 <= h < |w.tasks| - 1 ==> StateOf(Ended(w, g), h) == StateOf(w, Before(g, h))
  {
    var w' := Ended(w, g);
    ReleaseConserves(w.pool, g);
    EndedShape(w, g);
    forall h | 0 <= h < |w'.tasks|
      ensures StateOf(w', h) == StateOf(w, Before(g, h)) && TaskRight(w', h)
    {
      assert TaskRight(w, Before(g, h));
      OthersUntouched(w, g, h);
    }
  }

  lemma StepKept(w: World, e: Event, w': World)
    requires Invariant(w) && Step(w, e, w')
    ensures Invariant(w')
  {
    match e
    case Begin(job) => BeginKept(w, job);
    case ServerMove(g) => MoveKept(w, g, Protocol.ServerStep(w.tasks[g].job, StateOf(w, g)));
    case ClientMove(g) => MoveKept(w, g, Protocol.ClientStep(w.tasks[g].job, StateOf(w, g)));
    case End(g) => EndKept(w, g);
  }

  // ---- runs ----

  /** Any interleaving of grants, moves and releases, from a fresh pool over any memory. */
  ghost predicate IsRun(run: seq<World>, events: seq<Event>, k: nat) {
    && k <= |events| && k < |run|
    && if k == 0 then
         var w := run[0];
         0 < w.pool.rep && w.pool == Fresh(w.pool.rep, |w.memory|) && Uniform(w.memory, w.pool.rep) && w.tasks == []
       else
         IsRun(run, events, k - 1) && Shaped(run[k - 1]) && Step(run[k - 1], events[k - 1], run[k])
  }

  /** In every run every transfer is where it could have got to alone, over memory nobody else writes. */
  lemma {:induction false} RunsStayRight(run: seq<World>, events: seq<Event>, k: nat)
    requires IsRun(run, events, k)
    ensures Invariant(run[k])
  {
    if k == 0 {
      FreshConserved(run[0].pool.rep, |run[0].memory|);
    } else {
      RunsStayRight(run, events, k - 1);
      StepKept(run[k - 1], events[k - 1], run[k]);
    }
  }

  /** When a patient release comes, both sides have what they should, and nobody will touch the segments again. */
  lemma PatientMeansDelivered(w: World, g: nat)
    requires Invariant(w) && g < |w.tasks| && w.tasks[g].server.at.ServerDone? && w.tasks[g].serverSem == 1
    ensures StateOf(w, g).server.raw == w.tasks[g].job.src
    ensures StateOf(w, g).client.buffer == w.tasks[g].job.compress(w.tasks[g].job.src)
    ensures Protocol.SafeToRelease(w.tasks[g].job, StateOf(w, g))
  {
    assert TaskRight(w, g);
    var job, s := w.tasks[g].job, StateOf(w, g);
    Protocol.TokenSaysRead(job, s);
    Protocol.SafeToReleaseIff(job, s);
    Protocol.ReachableInvariant(job, s);
    assert s.server.raw[..|job.src|] == s.server.raw;
  }

  /** So it is at every patient release of every run. */
  lemma ReleasedMeansDelivered(run: seq<World>, events: seq<Event>, k: nat, g: nat)
    requires IsRun(run, events, k) && Shaped(run[k]) && Enabled(run[k], End(g)) && Patient(run[k], End(g))
    ensures StateOf(run[k], g).server.raw == run[k].tasks[g].job.src
    ensures StateOf(run[k], g).client.buffer == run[k].tasks[g].job.compress(run[k].tasks[g].job.src)
    ensures Protocol.SafeToRelease(run[k].tasks[g].job, StateOf(run[k], g))
  {
    RunsStayRight(run, events, k);
    PatientMeansDelivered(run[k], g);
  }

  // ---- a release that does not wait ----

  lemma {:induction false} NoneFree(free: seq<bool>)
    requires CountFree(free) == 0
    ensures forall i :: 0 <= i < |free| ==> !free[i]
  {
    if free == [] {
    } else {
      NoneFree(free[..|free| - 1]);
    }
  }

  /** From an exhausted pool a grant of the size just released is made of the released segments. */
  lemma NextGrantIsReleased(p: Pool, g: nat, size: nat)
    requires Conserved(p) && g < |p.live| && p.available == 0 && size == Times(p.rep, |p.live[g]|)
    ensures CanGrant(Release(p, g), size)
    ensures |Share(Release(p, g), size)| == |p.live[g]| && forall i :: i in Share(Release(p, g), size) ==> i in p.live[g]
  {
    var p' := Release(p, g);
    TimesOrder(p.rep, CountFree(p.free), 0);
    NoneFree(p.free);
    WholeSize(p.rep, |p.live[g]|);
    ReleaseConserves(p, g);
    GrantTakesLowest(p', size);
    forall i | i in Share(p', size)
      ensures i in p.live[g]
    {
      var k :| 0 <= k < |Share(p', size)| && Share(p', size)[k] == i;
      assert p'.free[i];
    }
  }

  lemma WholeSize(rep: nat, n: nat)
    requires 0 < rep
    ensures Times(rep, n) % rep == 0 && Times(rep, n) / rep == n
  {
    TimesIsProduct(rep, n);
    DivModUnique(rep * n, rep, n, 0);
  }

  /**
   Released without the token, a segment still has a reader. If the pool was exhausted,
   the very next transfer of that size gets those segments, while the client of the first
   will yet touch them.
   */
  lemma HastyReleaseHandsOn(w: World, g: nat)
    requires Invariant(w) && g < |w.tasks| && w.tasks[g].server.at.ServerDone? && w.tasks[g].serverSem != 1
    requires w.pool.available == 0
    ensures !Protocol.SafeToRelease(w.tasks[g].job, StateOf(w, g))
    ensures CanGrant(Release(w.pool, g), w.tasks[g].job.capacity)
    ensures forall i :: i in Share(Release(w.pool, g), w.tasks[g].job.capacity) ==> i in w.pool.live[g]
  {
    assert TaskRight(w, g);
    Protocol.SafeToReleaseIff(w.tasks[g].job, StateOf(w, g));
    NextGrantIsReleased(w.pool, g, w.tasks[g].job.capacity);
  }

  // ---- everybody finishes ----

  /** Steps transfer g has left, and its release. */
  ghost function TaskWork(w: World, g: nat): int
    requires Shaped(w) && g < |w.tasks|
  {
    Protocol.Measure(w.tasks[g].job, StateOf(w, g)) + 1
  }

  lemma SameTaskWork(w: World, w': World, g: nat, h: nat)
    requires Shaped(w) && Shaped(w') && g < |w.tasks| && h < |w'.tasks|
    requires StateOf(w', h) == StateOf(w, g) && w'.tasks[h].job == w.tasks[g].job
    ensures TaskWork(w', h) == TaskWork(w, g)
  {
  }

  /** Steps the first k transfers have left at most, releases included. */
  ghost function Work(w: World, k: nat): int
    requires Shaped(w) && k <= |w.tasks|
  {
    if k == 0 then 0 else Work(w, k - 1) + TaskWork(w, k - 1)
  }

  lemma {:induction false} SameWork(w: World, w': World, k: nat)
    requires Shaped(w) && Shaped(w') && k <= |w.tasks| && k <= |w'.tasks|
    requires forall h :: 0 <= h < k ==> StateOf(w', h) == StateOf(w, h) && w'.tasks[h].job == w.tasks[h].job
    ensures Work(w', k) == Work(w, k)
  {
    if k == 0 {
    } else {
      SameWork(w, w', k - 1);
      SameTaskWork(w, w', k - 1, k - 1);
    }
  }

  lemma {:induction false} OneLessWork(w: World, w': World, g: nat, k: nat)
    requires Shaped(w) && Shaped(w') && g < k <= |w.tasks| == |w'.tasks|
    requires forall h :: 0 <= h < k && h != g ==> StateOf(w', h) == StateOf(w, h)
    requires forall h :: 0 <= h < k ==> w'.tasks[h].job == w.tasks[h].job
    requires TaskWork(w', g) < TaskWork(w, g)
    ensures Work(w', k) < Work(w, k)
  {
    if k == g + 1 {
      SameWork(w, w', g);
    } else {
      OneLessWork(w, w', g, k - 1);
      SameTaskWork(w, w', k - 1, k - 1);
    }
  }

  lemma {:induction false} OneTaskLess(w: World, w': World, g: nat, k: nat)
    requires Shaped(w) && Shaped(w') && g <= k <= |w'.tasks| == |w.tasks| - 1
    requires forall h :: 0 <= h < k ==> StateOf(w', h) == StateOf(w, Before(g, h)) && w'.tasks[h].job == w.tasks[Before(g, h)].job
    requires 0 < TaskWork(w, g)
    ensures Work(w', k) < Work(w, k + 1)
  {
    if k == g {
      SameWork(w, w', g);
    } else {
      OneTaskLess(w, w', g, k - 1);
      SameTaskWork(w, w', k, k - 1);
    }
  }

  lemma MeasureIsNat(j: Protocol.Job, s: Protocol.State)
    requires j.Valid() && j.Fits() && Protocol.Reachable(j, s)
    ensures 0 <= Protocol.Measure(j, s)
  {
    Protocol.ReachableInvariant(j, s);
    Protocol.ReachableFull(j, s);
    Protocol.MeasureIsNat(j, s);
  }

  lemma TaskMeasure(w: World, g: nat)
    requires Invariant(w) && g < |w.tasks|
    ensures 0 <= Protocol.Measure(w.tasks[g].job, StateOf(w, g))
  {
    assert TaskRight(w, g);
    MeasureIsNat(w.tasks[g].job, StateOf(w, g));
  }

  lemma {:induction false} WorkIsNat(w: World, k: nat)
    requires Invariant(w) && k <= |w.tasks|
    ensures 0 <= Work(w, k)
  {
    if k == 0 {
    } else {
      WorkIsNat(w, k - 1);
      TaskMeasure(w, k - 1);
    }
  }

  lemma MoveShrinks(w: World, g: nat, s': Protocol.State)
    requires Invariant(w) && g < |w.tasks| && Protocol.Next(w.tasks[g].job, StateOf(w, g), s')
    ensures |s'.segment| == Times(w.pool.rep, |w.pool.live[g]|)
    ensures Shaped(Moved(w, g, s')) && Work(Moved(w, g, s'), |w.tasks|) < Work(w, |w.tasks|)
  {
    var job := w.tasks[g].job;
    assert TaskRight(w, g);
    KeepsCapacity(job, StateOf(w, g), s');
    Protocol.ReachableInvariant(job, StateOf(w, g));
    Protocol.ReachableFull(job, StateOf(w, g));
    Protocol.StepDecreasesMeasure(job, StateOf(w, g), s');
    MoveIsLocal(w, g, s');
    OneLessWork(w, Moved(w, g, s'), g, |w.tasks|);
  }

  lemma EndedTasks(w: World, g: nat)
    requires Shaped(w) && g < |w.tasks| && Shaped(Ended(w, g))
    ensures var w' := Ended(w, g);
            forall h :: 0 <= h < |w.tasks| - 1 ==>
                          StateOf(w', h) == StateOf(w, Before(g, h)) && w'.tasks[h].job == w.tasks[Before(g, h)].job
  {
    EndedShape(w, g);
    forall h | 0 <= h < |w.tasks| - 1
      ensures StateOf(Ended(w, g), h) == StateOf(w, Before(g, h))
    {
      OthersUntouched(w, g, h);
    }
  }

  lemma EndedWork(w: World, g: nat)
    requires Shaped(w) && g < |w.tasks| && Shaped(Ended(w, g))
    requires 0 <= Protocol.Measure(w.tasks[g].job, StateOf(w, g))
    ensures Work(Ended(w, g), |w.tasks| - 1) < Work(w, |w.tasks|)
  {
    EndedTasks(w, g);
    OneTaskLess(w, Ended(w, g), g, |w.tasks| - 1);
  }

  lemma EndShrinks(w: World, g: nat)
    requires Invariant(w) && g < |w.tasks|
    ensures Shaped(Ended(w, g)) && Work(Ended(w, g), |w.tasks| - 1) < Work(w, |w.tasks|)
  {
    EndedShape(w, g);
    TaskMeasure(w, g);
    EndedWork(w, g);
  }

  lemma StepShrinks(w: World, e: Event, w': World)
    requires Invariant(w) && Step(w, e, w') && !e.Begin?
    ensures Shaped(w') && Work(w', |w'.tasks|) < Work(w, |w.tasks|)
  {
    match e
    case ServerMove(g) => MoveShrinks(w, g, Protocol.ServerStep(w.tasks[g].job, StateOf(w, g)));
    case ClientMove(g) => MoveShrinks(w, g, Protocol.ClientStep(w.tasks[g].job, StateOf(w, g)));
    case End(g) => EndShrinks(w, g);
  }

  /** Every event but the begin of a new transfer brings the end of all of them nearer. */
  lemma WorkShrinks(w: World, e: Event, w': World)
    requires Invariant(w) && Step(w, e, w') && !e.Begin?
    ensures Invariant(w') && 0 <= Work(w', |w'.tasks|) < Work(w, |w.tasks|)
  {
    StepKept(w, e, w');
    WorkIsNat(w', |w'.tasks|);
    StepShrinks(w, e, w');
  }

  lemma CanGoOn(j: Protocol.Job, s: Protocol.State)
    requires j.Valid() && j.Fits() && Protocol.Reachable(j, s)
    ensures Protocol.ServerEnabled(s) || Protocol.ClientEnabled(s) || (s.server.at.ServerDone? && s.serverSem == 1)
  {
    Protocol.DeadlockFree(j, s);
    Protocol.ReachableInvariant(j, s);
  }

  /** While a transfer is under way it can move, or be released patiently, whatever the others do. */
  lemma NobodyWaitsForOthers(w: World, g: nat) returns (e: Event, w': World)
    requires Invariant(w) && g < |w.tasks|
    ensures e == ServerMove(g) || e == ClientMove(g) || e == End(g)
    ensures Step(w, e, w') && Patient(w, e)
  {
    var job, s := w.tasks[g].job, StateOf(w, g);
    assert TaskRight(w, g);
    CanGoOn(job, s);
    if Protocol.ServerEnabled(s) {
      MoveKept(w, g, Protocol.ServerStep(job, s));
      e, w' := ServerMove(g), Moved(w, g, Protocol.ServerStep(job, s));
    } else if Protocol.ClientEnabled(s) {
      MoveKept(w, g, Protocol.ClientStep(job, s));
      e, w' := ClientMove(g), Moved(w, g, Protocol.ClientStep(job, s));
    } else {
      e, w' := End(g), Ended(w, g);
    }
  }
}
