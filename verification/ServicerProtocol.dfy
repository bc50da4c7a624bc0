/**
 The client's request window as a state machine. Callers, the dispatcher, the
 server and the workers take turns; every action is one critical section or one
 message-queue operation.
 */
module ServicerProtocol {
  import opened Bytes
  import opened Wrappers

  /** An entry of requestMap. */
  datatype Entry = Entry(src: seq<byte>, compressed: Option<seq<byte>>)

  /**
   `sending` is the id the dispatcher has popped and not yet sent, `atServer` the ids
   the server has not answered, `replies` the ids in the queue from the server,
   `responses` those in requestResponseQueue, `working` what each running handler
   compresses. `sources` and `claimed` are history: the file given with each id, and
   the ids whose result has been handed over.
   */
  datatype State = State(
    numWorkers: nat,
    requestMap: map<int, Entry>, requestQueue: seq<int>, requestsInFlight: int, nextRequestId: int,
    sending: Option<int>, atServer: set<int>, replies: seq<int>, responses: seq<int>, working: map<int, seq<byte>>,
    sources: seq<seq<byte>>, claimed: set<int>)

  datatype Action =
    | Issue(src: seq<byte>) | Pop | Send | Reply(id: int) | Receive | Schedule | Complete(id: int) | Claim(id: int)

  function Start(numWorkers: nat): State {
    State(numWorkers, map[], [], 0, 0, None, {}, [], [], map[], [], {})
  }

  /** What an action waits for, apart from the entry it looks up. */
  predicate Enabled(s: State, a: Action) {
    match a
    case Issue(_) => true
    case Pop => s.sending == None && s.requestsInFlight < s.numWorkers && s.requestQueue != []
    case Send => s.sending != None
    case Reply(id) => id in s.atServer
    case Receive => s.replies != []
    case Schedule => s.responses != [] && |s.working| < s.numWorkers
    case Complete(id) => id in s.working
    case Claim(id) => id in s.requestMap ==> s.requestMap[id].compressed != None
  }

  /** The id that an action looks up in requestMap, and throws for when it is missing. */
  function LookedUp(s: State, a: Action): Option<int>
    requires Enabled(s, a)
  {
    match a
    case Pop => Some(s.requestQueue[0])
    case Schedule => Some(s.responses[0])
    case Complete(id) => Some(id)
    case Claim(id) => Some(id)
    case _ => None
  }

  predicate Throws(s: State, a: Action)
    requires Enabled(s, a)
  {
    LookedUp(s, a) != None && LookedUp(s, a).value !in s.requestMap
  }

  function Next(s: State, a: Action, compress: seq<byte> -> seq<byte>): (s': State)
    requires Enabled(s, a) && !Throws(s, a)
  {
    match a
    case Issue(src) =>
      s.(requestMap := s.requestMap[s.nextRequestId := Entry(src, None)],
      requestQueue := s.requestQueue + [s.nextRequestId],
      nextRequestId := s.nextRequestId + 1,
      sources := s.sources + [src])
    case Pop =>
      s.(requestQueue := s.requestQueue[1..], requestsInFlight := s.requestsInFlight + 1, sending := Some(s.requestQueue[0]))
    case Send =>
      s.(sending := None, atServer := s.atServer + {s.sending.value})
    case Reply(id) =>
      s.(atServer := s.atServer - {id}, replies := s.replies + [id])
    case Receive =>
      s.(replies := s.replies[1..], responses := s.responses + [s.replies[0]])
    case Schedule =>
      var id := s.responses[0];
      s.(responses := s.responses[1..], working := s.working[id := s.requestMap[id].src])
    case Complete(id) =>
      s.(working := s.working - {id}, requestsInFlight := s.requestsInFlight - 1,
      requestMap := s.requestMap[id := s.requestMap[id].(compressed := Some(compress(s.working[id])))])
    case Claim(id) =>
      s.(requestMap := s.requestMap - {id}, claimed := s.claimed + {id})
  }

  // ---- the invariant ----

  function Single(id: Option<int>): multiset<int> {
    if id == None then multiset{} else multiset{id.value}
  }

  /** Every id between its pop and its completion, as often as it occurs. */
  function Flights(s: State): multiset<int> {
    Single(s.sending) + multiset(s.atServer) + multiset(s.replies) + multiset(s.responses) + multiset(s.working.Keys)
  }

  /** The window: what is in flight is counted, each once, and no more than there are workers. */
  ghost predicate Window(s: State) {
    && |Flights(s)| == s.requestsInFlight <= s.numWorkers
    && forall id :: Flights(s)[id] <= 1
  }

  /** The first id that has not been popped. */
  function FirstQueued(s: State): int {
    s.nextRequestId - |s.requestQueue|
  }

  /** The queue holds the ids that have not been popped, in order. */
  ghost predicate Contiguous(s: State) {
    && 0 <= FirstQueued(s)
    && forall i :: 0 <= i < |s.requestQueue| ==> s.requestQueue[i] == FirstQueued(s) + i
  }

  /**
   Every id that was issued is queued, in flight, done or claimed; `first` is the
   first queued id.
   */
  ghost predicate AccountedFor(requestMap: map<int, Entry>, claimed: set<int>, flights: multiset<int>, first: int, next: int) {
    && (forall id :: id in requestMap <==> 0 <= id < next && id !in claimed)
    && (forall id :: id in flights ==> id in requestMap && id < first)
    && (forall id :: id in claimed ==> 0 <= id < first)
    && (forall id :: id in requestMap ==> (requestMap[id].compressed == None <==> first <= id || id in flights))
  }

  ghost predicate Accounted(s: State) {
    AccountedFor(s.requestMap, s.claimed, Flights(s), FirstQueued(s), s.nextRequestId)
  }

  /** Every entry and handler has the file of its id; every result is that file compressed. */
  ghost predicate Faithful(s: State, compress: seq<byte> -> seq<byte>) {
    && |s.sources| == s.nextRequestId
    && (forall id :: id in s.requestMap && 0 <= id < |s.sources| ==>
                       && s.requestMap[id].src == s.sources[id]
                       && (s.requestMap[id].compressed != None ==> s.requestMap[id].compressed.value == compress(s.sources[id])))
    && (forall id :: id in s.working && 0 <= id < |s.sources| ==> s.working[id] == s.sources[id])
  }

  ghost predicate Invariant(s: State, compress: seq<byte> -> seq<byte>) {
    Window(s) && Contiguous(s) && Accounted(s) && Faithful(s, compress)
  }

  /**
   Only a claim can throw: it does exactly for an id that was never issued or whose
   result has been handed over already.
   */
  lemma ThrowsIff(s: State, a: Action, compress: seq<byte> -> seq<byte>)
    requires Invariant(s, compress) && Enabled(s, a)
    ensures Throws(s, a) <==> a.Claim? && (a.id in s.claimed || !(0 <= a.id < s.nextRequestId))
  {
    match a
    case Schedule =>
      var id := s.responses[0];
      assert id in Flights(s);
    case Complete(id) => assert id in Flights(s);
    case _ =>
  }

  lemma AtMostOnce(s: State, id: int)
    requires Window(s)
    ensures Single(s.sending)[id] + multiset(s.atServer)[id] + multiset(s.replies)[id] + multiset(s.responses)[id]
            + multiset(s.working.Keys)[id] <= 1
  {
    assert Flights(s)[id] <= 1;
  }

  lemma SendKeepsFlights(s: State, compress: seq<byte> -> seq<byte>)
    requires Window(s) && Enabled(s, Send)
    ensures Flights(Next(s, Send, compress)) == Flights(s)
  {
    var id := s.sending.value;
    AtMostOnce(s, id);
    assert multiset(s.atServer + {id}) == multiset(s.atServer) + multiset{id};
  }

  lemma ReplyKeepsFlights(s: State, id: int, compress: seq<byte> -> seq<byte>)
    requires Enabled(s, Reply(id))
    ensures Flights(Next(s, Reply(id), compress)) == Flights(s)
  {
    assert multiset(s.atServer) == multiset(s.atServer - {id}) + multiset{id};
  }

  lemma ReceiveKeepsFlights(s: State, compress: seq<byte> -> seq<byte>)
    requires Enabled(s, Receive)
    ensures Flights(Next(s, Receive, compress)) == Flights(s)
  {
    assert s.replies == [s.replies[0]] + s.replies[1..];
  }

  /** An id may be counted with the responses or with the work. */
  lemma PassOn(before: multiset<int>, responses: multiset<int>, working: multiset<int>, id: int)
    ensures before + (multiset{id} + responses) + working == before + responses + (working + multiset{id})
  {
  }

  lemma FirstOut(q: seq<int>)
    requires q != []
    ensures multiset(q) == multiset{q[0]} + multiset(q[1..])
  {
    assert q == [q[0]] + q[1..];
  }

  lemma ScheduleKeepsFlights(s: State, compress: seq<byte> -> seq<byte>)
    requires Window(s) && Enabled(s, Schedule) && !Throws(s, Schedule)
    ensures Flights(Next(s, Schedule, compress)) == Flights(s)
  {
    var id := s.responses[0];
    FirstOut(s.responses);
    AtMostOnce(s, id);
    assert s.working[id := s.requestMap[id].src].Keys == s.working.Keys + {id};
    assert multiset(s.working.Keys + {id}) == multiset(s.working.Keys) + multiset{id};
    PassOn(Single(s.sending) + multiset(s.atServer) + multiset(s.replies), multiset(s.responses[1..]), multiset(s.working.Keys), id);
  }

  lemma CompleteLands(s: State, id: int, compress: seq<byte> -> seq<byte>)
    requires Enabled(s, Complete(id)) && !Throws(s, Complete(id))
    ensures Flights(s) == Flights(Next(s, Complete(id), compress)) + multiset{id}
  {
    assert (s.working - {id}).Keys == s.working.Keys - {id};
    assert multiset(s.working.Keys) == multiset(s.working.Keys - {id}) + multiset{id};
  }

  /** Between its pop and its completion an id only moves from place to place. */
  lemma FlightsChange(s: State, a: Action, compress: seq<byte> -> seq<byte>)
    requires Window(s) && Enabled(s, a) && !Throws(s, a)
    ensures a.Pop? ==> Flights(Next(s, a, compress)) == Flights(s) + multiset{s.requestQueue[0]}
    ensures a.Complete? ==> Flights(Next(s, a, compress)) + multiset{a.id} == Flights(s)
    ensures !a.Pop? && !a.Complete? ==> Flights(Next(s, a, compress)) == Flights(s)
  {
    match a
    case Send => SendKeepsFlights(s, compress);
    case Reply(id) => ReplyKeepsFlights(s, id, compress);
    case Receive => ReceiveKeepsFlights(s, compress);
    case Schedule => ScheduleKeepsFlights(s, compress);
    case Complete(id) => CompleteLands(s, id, compress);
    case _ =>
  }

  // ---- every action keeps the invariant ----

  lemma WindowKept(s: State, a: Action, compress: seq<byte> -> seq<byte>)
    requires Window(s) && Contiguous(s) && Accounted(s) && Enabled(s, a) && !Throws(s, a)
    ensures Window(Next(s, a, compress))
  {
    var s' := Next(s, a, compress);
    FlightsChange(s, a, compress);
    if a.Pop? {
      var id := s.requestQueue[0];
      assert id == FirstQueued(s);
      assert id !in Flights(s);
      forall x
        ensures Flights(s')[x] <= 1
      {
        assert Flights(s)[x] <= 1;
      }
    } else {
      forall x
        ensures Flights(s')[x] <= 1
      {
        assert Flights(s)[x] <= 1;
      }
    }
  }

  lemma ContiguousKept(s: State, a: Action, compress: seq<byte> -> seq<byte>)
    requires Contiguous(s) && Enabled(s, a) && !Throws(s, a)
    ensures Contiguous(Next(s, a, compress))
    ensures FirstQueued(Next(s, a, compress)) == FirstQueued(s) + if a.Pop? then 1 else 0
  {
  }

  lemma IssueAccounted(m: map<int, Entry>, claimed: set<int>, flights: multiset<int>, first: int, next: int, src: seq<byte>)
    requires AccountedFor(m, claimed, flights, first, next) && 0 <= first <= next
    ensures AccountedFor(m[next := Entry(src, None)], claimed, flights, first, next + 1)
  {
  }

  lemma PopAccounted(m: map<int, Entry>, claimed: set<int>, flights: multiset<int>, first: int, next: int)
    requires AccountedFor(m, claimed, flights, first, next) && 0 <= first < next
    ensures AccountedFor(m, claimed, flights + multiset{first}, first + 1, next)
  {
    forall id
      ensures id in flights + multiset{first} <==> id in flights || id == first
    {
    }
  }

  lemma CompleteAccounted(m: map<int, Entry>, claimed: set<int>, flights: multiset<int>, first: int, next: int, id: int, e: Entry)
    requires AccountedFor(m, claimed, flights + multiset{id}, first, next) && id !in flights && e.compressed != None
    ensures AccountedFor(m[id := e], claimed, flights, first, next)
  {
    forall x
      ensures x in flights + multiset{id} <==> x in flights || x == id
    {
    }
    assert id in flights + multiset{id};
    assert id in m;
  }

  lemma ClaimAccounted(m: map<int, Entry>, claimed: set<int>, flights: multiset<int>, first: int, next: int, id: int)
    requires AccountedFor(m, claimed, flights, first, next) && id in m && m[id].compressed != None
    ensures AccountedFor(m - {id}, claimed + {id}, flights, first, next)
  {
  }

  lemma IssueKept(s: State, src: seq<byte>, compress: seq<byte> -> seq<byte>)
    requires Contiguous(s) && Accounted(s)
    ensures Accounted(Next(s, Issue(src), compress))
  {
    IssueAccounted(s.requestMap, s.claimed, Flights(s), FirstQueued(s), s.nextRequestId, src);
  }

  lemma PopKept(s: State, compress: seq<byte> -> seq<byte>)
    requires Contiguous(s) && Window(s) && Accounted(s) && Enabled(s, Pop) && !Throws(s, Pop)
    ensures Accounted(Next(s, Pop, compress))
  {
    FlightsChange(s, Pop, compress);
    PopAccounted(s.requestMap, s.claimed, Flights(s), FirstQueued(s), s.nextRequestId);
  }

  lemma ClaimKept(s: State, id: int, compress: seq<byte> -> seq<byte>)
    requires Accounted(s) && Enabled(s, Claim(id)) && !Throws(s, Claim(id))
    ensures Accounted(Next(s, Claim(id), compress))
  {
    ClaimAccounted(s.requestMap, s.claimed, Flights(s), FirstQueued(s), s.nextRequestId, id);
  }

  lemma SameFlightsAccounted(s: State, s': State)
    requires Accounted(s) && Flights(s') == Flights(s) && FirstQueued(s') == FirstQueued(s)
    requires s'.requestMap == s.requestMap && s'.claimed == s.claimed && s'.nextRequestId == s.nextRequestId
    ensures Accounted(s')
  {
  }

  lemma MoveKept(s: State, a: Action, compress: seq<byte> -> seq<byte>)
    requires Window(s) && Accounted(s) && Enabled(s, a) && !Throws(s, a)
    requires a.Send? || a.Reply? || a.Receive? || a.Schedule?
    ensures Accounted(Next(s, a, compress))
  {
    FlightsChange(s, a, compress);
    SameFlightsAccounted(s, Next(s, a, compress));
  }

  lemma CompleteKept(s: State, id: int, compress: seq<byte> -> seq<byte>)
    requires Window(s) && Accounted(s) && Enabled(s, Complete(id)) && !Throws(s, Complete(id))
    ensures Accounted(Next(s, Complete(id), compress))
  {
    var s' := Next(s, Complete(id), compress);
    CompleteLands(s, id, compress);
    assert Flights(s)[id] <= 1;
    assert Flights(s)[id] == Flights(s')[id] + 1;
    CompleteAccounted(s.requestMap, s.claimed, Flights(s'), FirstQueued(s), s.nextRequestId, id, s'.requestMap[id]);
  }

  lemma AccountedKept(s: State, a: Action, compress: seq<byte> -> seq<byte>)
    requires Window(s) && Contiguous(s) && Accounted(s) && Enabled(s, a) && !Throws(s, a)
    ensures Accounted(Next(s, a, compress))
  {
    match a
    case Issue(src) => IssueKept(s, src, compress);
    case Pop => PopKept(s, compress);
    case Complete(id) => CompleteKept(s, id, compress);
    case Claim(id) => ClaimKept(s, id, compress);
    case _ => MoveKept(s, a, compress);
  }

  lemma IssueFaithful(s: State, a: Action, compress: seq<byte> -> seq<byte>)
    requires Accounted(s) && Contiguous(s) && Faithful(s, compress) && Enabled(s, a) && !Throws(s, a) && a.Issue?
    ensures Faithful(Next(s, a, compress), compress)
  {
  }

  lemma ScheduleFaithful(s: State, a: Action, compress: seq<byte> -> seq<byte>)
    requires Accounted(s) && Contiguous(s) && Faithful(s, compress) && Enabled(s, a) && !Throws(s, a) && a.Schedule?
    ensures Faithful(Next(s, a, compress), compress)
  {
  }

  lemma CompleteFaithful(s: State, a: Action, compress: seq<byte> -> seq<byte>)
    requires Accounted(s) && Contiguous(s) && Faithful(s, compress) && Enabled(s, a) && !Throws(s, a) && a.Complete?
    ensures Faithful(Next(s, a, compress), compress)
  {
  }

  lemma FaithfulKept(s: State, a: Action, compress: seq<byte> -> seq<byte>)
    requires Accounted(s) && Contiguous(s) && Faithful(s, compress) && Enabled(s, a) && !Throws(s, a)
    ensures Faithful(Next(s, a, compress), compress)
  {
    match a
    case Issue(src) => IssueFaithful(s, a, compress);
    case Schedule => ScheduleFaithful(s, a, compress);
    case Complete(id) => CompleteFaithful(s, a, compress);
    case _ =>
  }

  lemma InvariantKept(s: State, a: Action, compress: seq<byte> -> seq<byte>)
    requires Invariant(s, compress) && Enabled(s, a) && !Throws(s, a)
    ensures Invariant(Next(s, a, compress), compress)
  {
    WindowKept(s, a, compress);
    ContiguousKept(s, a, compress);
    AccountedKept(s, a, compress);
    FaithfulKept(s, a, compress);
  }

  // ---- runs ----

  ghost predicate Step(s: State, a: Action, s': State, compress: seq<byte> -> seq<byte>) {
    Enabled(s, a) && !Throws(s, a) && s' == Next(s, a, compress)
  }

  /** The first k actions, whoever takes them, lead from the start through these states. */
  ghost predicate IsRun(run: seq<State>, actions: seq<Action>, k: nat, compress: seq<byte> -> seq<byte>) {
    && k <= |actions| && k < |run|
    && if k == 0 then run[0] == Start(run[0].numWorkers)
       else IsRun(run, actions, k - 1, compress) && Step(run[k - 1], actions[k - 1], run[k], compress)
  }

  lemma StepKept(s: State, a: Action, s': State, compress: seq<byte> -> seq<byte>)
    requires Invariant(s, compress) && Step(s, a, s', compress)
    ensures Invariant(s', compress)
  {
    InvariantKept(s, a, compress);
  }

  lemma StepIds(s: State, a: Action, s': State, compress: seq<byte> -> seq<byte>)
    requires Step(s, a, s', compress)
    ensures s'.sources == s.sources + if a.Issue? then [a.src] else []
    ensures s'.nextRequestId == s.nextRequestId + if a.Issue? then 1 else 0
    ensures s'.numWorkers == s.numWorkers
  {
  }

  lemma StartInvariant(numWorkers: nat, compress: seq<byte> -> seq<byte>)
    ensures Invariant(Start(numWorkers), compress)
  {
  }

  lemma {:induction false} RunsKeepInvariant(run: seq<State>, actions: seq<Action>, k: nat, compress: seq<byte> -> seq<byte>)
    requires IsRun(run, actions, k, compress)
    ensures Invariant(run[k], compress)
  {
    if k == 0 {
      StartInvariant(run[0].numWorkers, compress);
    } else {
      RunsKeepInvariant(run, actions, k - 1, compress);
      StepKept(run[k - 1], actions[k - 1], run[k], compress);
    }
  }

  /** The files that callers have given, in order. */
  function Given(actions: seq<Action>, k: nat): seq<seq<byte>>
    requires k <= |actions|
  {
    if k == 0 then []
    else Given(actions, k - 1) + if actions[k - 1].Issue? then [actions[k - 1].src] else []
  }

  /** Ids are handed out in order, one for each file given. */
  lemma {:induction false} IdsAreSerial(run: seq<State>, actions: seq<Action>, k: nat, compress: seq<byte> -> seq<byte>)
    requires IsRun(run, actions, k, compress)
    ensures run[k].sources == Given(actions, k) && run[k].nextRequestId == |Given(actions, k)|
    ensures run[k].numWorkers == run[0].numWorkers
  {
    if k == 0 {
    } else {
      IdsAreSerial(run, actions, k - 1, compress);
      StepIds(run[k - 1], actions[k - 1], run[k], compress);
    }
  }

  /** What is handed over for an id is the id-th file given, compressed, whatever the interleaving. */
  lemma ClaimsAreRight(run: seq<State>, actions: seq<Action>, k: nat, compress: seq<byte> -> seq<byte>)
    requires k < |actions| && IsRun(run, actions, k, compress)
    requires actions[k].Claim? && Enabled(run[k], actions[k]) && !Throws(run[k], actions[k])
    ensures var id := actions[k].id;
            && 0 <= id < |Given(actions, k)|
            && run[k].requestMap[id].compressed == Some(compress(Given(actions, k)[id]))
  {
    RunsKeepInvariant(run, actions, k, compress);
    IdsAreSerial(run, actions, k, compress);
    var id := actions[k].id;
    assert id in run[k].requestMap;
  }

  // ---- first in, first out ----

  lemma WindowHolds(run: seq<State>, actions: seq<Action>, k: nat, compress: seq<byte> -> seq<byte>)
    requires IsRun(run, actions, k, compress)
    ensures Window(run[k])
  {
    RunsKeepInvariant(run, actions, k, compress);
  }

  /** How many ids have been popped. */
  function Pops(actions: seq<Action>, k: nat): nat
    requires k <= |actions|
  {
    if k == 0 then 0 else Pops(actions, k - 1) + if actions[k - 1].Pop? then 1 else 0
  }

  lemma {:induction false} PopsAreCounted(run: seq<State>, actions: seq<Action>, k: nat, compress: seq<byte> -> seq<byte>)
    requires IsRun(run, actions, k, compress)
    ensures FirstQueued(run[k]) == Pops(actions, k)
  {
    if k == 0 {
    } else {
      PopsAreCounted(run, actions, k - 1, compress);
      StepFirstQueued(run[k - 1], actions[k - 1], run[k], compress);
    }
  }

  lemma StepFirstQueued(s: State, a: Action, s': State, compress: seq<byte> -> seq<byte>)
    requires Step(s, a, s', compress)
    ensures FirstQueued(s') == FirstQueued(s) + if a.Pop? then 1 else 0
  {
  }

  /** The files are sent in the order in which they were given: the n-th pop takes id n. */
  lemma SentInOrder(run: seq<State>, actions: seq<Action>, k: nat, compress: seq<byte> -> seq<byte>)
    requires 0 < k && IsRun(run, actions, k, compress) && actions[k - 1].Pop?
    ensures run[k].sending == Some(Pops(actions, k - 1))
  {
    RunsKeepInvariant(run, actions, k - 1, compress);
    PopsAreCounted(run, actions, k - 1, compress);
    assert Step(run[k - 1], actions[k - 1], run[k], compress);
  }

  /** The ids the server has answered, in its order. */
  function Replied(actions: seq<Action>, k: nat): seq<int>
    requires k <= |actions|
  {
    if k == 0 then [] else Replied(actions, k - 1) + if actions[k - 1].Reply? then [actions[k - 1].id] else []
  }

  /** The id a worker has taken up between s and s'. */
  ghost function TakenUp(s: State, s': State): seq<int> {
    if exists id :: id in s'.working && id !in s.working then
      var id :| id in s'.working && id !in s.working;
      [id]
    else []
  }

  /** The ids given to workers, in order. */
  ghost function HandedOut(run: seq<State>, k: nat): seq<int>
    requires k < |run|
  {
    if k == 0 then [] else HandedOut(run, k - 1) + TakenUp(run[k - 1], run[k])
  }

  lemma ScheduleTakesUp(s: State, s': State, compress: seq<byte> -> seq<byte>)
    requires Window(s) && Step(s, Schedule, s', compress)
    ensures s.responses == TakenUp(s, s') + s'.responses && s'.replies == s.replies
  {
    var id := s.responses[0];
    AtMostOnce(s, id);
    assert id in s.responses;
    assert id in s'.working && id !in s.working;
    assert s.responses == [id] + s'.responses;
  }

  lemma OthersTakeNothing(s: State, a: Action, s': State, compress: seq<byte> -> seq<byte>)
    requires Step(s, a, s', compress) && !a.Schedule?
    ensures TakenUp(s, s') == []
    ensures s'.responses + s'.replies == s.responses + s.replies + if a.Reply? then [a.id] else []
  {
    if a.Receive? {
      assert s.replies == [s.replies[0]] + s.replies[1..];
    }
  }

  lemma Appended(replied: seq<int>, handed: seq<int>, queued: seq<int>, queued': seq<int>, more: seq<int>, taken: seq<int>)
    requires replied == handed + queued && taken + queued' == queued + more
    ensures replied + more == handed + taken + queued'
  {
    assert replied + more == handed + (queued + more);
  }

  lemma StepIsFifo(s: State, a: Action, s': State, compress: seq<byte> -> seq<byte>)
    requires Window(s) && Step(s, a, s', compress)
    ensures TakenUp(s, s') + (s'.responses + s'.replies) == s.responses + s.replies + if a.Reply? then [a.id] else []
  {
    if a.Schedule? {
      ScheduleTakesUp(s, s', compress);
    } else {
      OthersTakeNothing(s, a, s', compress);
    }
  }

  /**
   Workers get the answered requests in the order of the answers: those handed out, those
   received and those still in the message queue are, one after the other, what the
   server has answered.
   */
  lemma {:induction false} AnswersInOrder(run: seq<State>, actions: seq<Action>, k: nat, compress: seq<byte> -> seq<byte>)
    requires IsRun(run, actions, k, compress)
    ensures Replied(actions, k) == HandedOut(run, k) + (run[k].responses + run[k].replies)
  {
    if k == 0 {
    } else {
      AnswersInOrder(run, actions, k - 1, compress);
      WindowHolds(run, actions, k - 1, compress);
      var s, a, s' := run[k - 1], actions[k - 1], run[k];
      StepIsFifo(s, a, s', compress);
      Appended(Replied(actions, k - 1), HandedOut(run, k - 1), s.responses + s.replies, s'.responses + s'.replies,
               if a.Reply? then [a.id] else [], TakenUp(s, s'));
    }
  }

  // ---- nothing gets stuck ----

  /** Steps that remain until every id is done: an id in the queue has six before it. */
  function Work(s: State): nat {
    6 * |s.requestQueue| + (if s.sending == None then 0 else 5) + 4 * |s.atServer| + 3 * |s.replies| + 2 * |s.responses| + |s.working|
  }

  /** Every step of dispatcher, server and workers takes one off, every call adds six. */
  lemma WorkIsExact(s: State, a: Action, compress: seq<byte> -> seq<byte>)
    requires Window(s) && Enabled(s, a) && !Throws(s, a)
    ensures Work(Next(s, a, compress)) == match a
                                          case Issue(_) => Work(s) + 6
                                          case Claim(_) => Work(s)
                                          case _ => Work(s) - 1
  {
    match a
    case Send => WorkOfSend(s, compress);
    case Schedule => WorkOfSchedule(s, compress);
    case Complete(id) => WorkOfComplete(s, id, compress);
    case _ =>
  }

  lemma WorkOfSend(s: State, compress: seq<byte> -> seq<byte>)
    requires Window(s) && Enabled(s, Send)
    ensures Work(Next(s, Send, compress)) == Work(s) - 1
  {
    AtMostOnce(s, s.sending.value);
  }

  lemma WorkOfSchedule(s: State, compress: seq<byte> -> seq<byte>)
    requires Window(s) && Enabled(s, Schedule) && !Throws(s, Schedule)
    ensures Work(Next(s, Schedule, compress)) == Work(s) - 1
  {
    var id := s.responses[0];
    AtMostOnce(s, id);
    SizeAfterInsert(s.working, id, s.requestMap[id].src);
  }

  lemma WorkOfComplete(s: State, id: int, compress: seq<byte> -> seq<byte>)
    requires Enabled(s, Complete(id)) && !Throws(s, Complete(id))
    ensures Work(Next(s, Complete(id), compress)) == Work(s) - 1
  {
    SizeAfterRemove(s.working, id);
  }

  lemma SizeAfterInsert(m: map<int, seq<byte>>, id: int, v: seq<byte>)
    requires id !in m
    ensures |m[id := v]| == |m| + 1
  {
    assert m[id := v].Keys == m.Keys + {id};
  }

  lemma SizeAfterRemove(m: map<int, seq<byte>>, id: int)
    requires id in m
    ensures |m - {id}| == |m| - 1
  {
    assert (m - {id}).Keys == m.Keys - {id};
  }

  function Count(actions: seq<Action>, k: nat): (n: (nat, nat))
    requires k <= |actions|
  {
    if k == 0 then (0, 0)
    else
      var n := Count(actions, k - 1);
      match actions[k - 1]
      case Issue(_) => (n.0 + 1, n.1)
      case Claim(_) => n
      case _ => (n.0, n.1 + 1)
  }

  /** So a run with n calls has at most 6n other steps, and exactly that many when all work is done. */
  lemma {:induction false} StepsAreBounded(run: seq<State>, actions: seq<Action>, k: nat, compress: seq<byte> -> seq<byte>)
    requires IsRun(run, actions, k, compress)
    ensures Count(actions, k).1 + Work(run[k]) == 6 * Count(actions, k).0
  {
    if k == 0 {
    } else {
      StepsAreBounded(run, actions, k - 1, compress);
      WindowHolds(run, actions, k - 1, compress);
      WorkIsExact(run[k - 1], actions[k - 1], compress);
    }
  }

  lemma SomeMember(ids: set<int>) returns (id: int)
    requires ids != {}
    ensures id in ids
  {
    assert (forall x: int :: x !in ids) ==> ids == {};
    id :| id in ids;
  }

  /** While some id is not done, the dispatcher, the server or a worker can take a step that does not throw. */
  lemma SomebodyCanMove(s: State, compress: seq<byte> -> seq<byte>) returns (a: Action)
    requires Invariant(s, compress) && 0 < s.numWorkers && 0 < Work(s)
    ensures !a.Issue? && !a.Claim? && Enabled(s, a) && !Throws(s, a)
  {
    if s.sending != None {
      a := Send;
    } else if s.atServer != {} {
      var id := SomeMember(s.atServer);
      a := Reply(id);
    } else if s.replies != [] {
      a := Receive;
    } else if s.working.Keys != {} {
      var id := SomeMember(s.working.Keys);
      a := Complete(id);
    } else if s.responses != [] {
      a := Schedule;
    } else {
      a := Pop;
      assert |s.working| == |s.working.Keys|;
      assert Flights(s) == multiset{};
    }
    ThrowsIff(s, a, compress);
  }

  /** When no work is left every id issued has its result, waiting or handed over. */
  lemma QuietMeansDone(s: State, compress: seq<byte> -> seq<byte>, id: int)
    requires Invariant(s, compress) && Work(s) == 0 && 0 <= id < s.nextRequestId
    ensures s.requestsInFlight == 0
    ensures id in s.claimed || (id in s.requestMap && s.requestMap[id].compressed == Some(compress(s.sources[id])))
  {
    assert |s.working| == |s.working.Keys|;
    assert s.working.Keys == {};
    assert Flights(s) == multiset{};
  }

  // ---- loops of the dispatcher ----

  /** After n rounds of sendRequests. */
  function SentOff(s: State, n: nat): State
    requires n <= |s.requestQueue|
  {
    s.(requestQueue := s.requestQueue[n..], requestsInFlight := s.requestsInFlight + n,
    atServer := s.atServer + set i | 0 <= i < n :: s.requestQueue[i])
  }

  lemma QueuedAreFound(s: State, compress: seq<byte> -> seq<byte>)
    requires Invariant(s, compress)
    ensures s.requestsInFlight <= s.numWorkers
    ensures forall i :: 0 <= i < |s.requestQueue| ==> s.requestQueue[i] in s.requestMap
  {
  }

  lemma SentOffRound(s: State, n: nat, compress: seq<byte> -> seq<byte>)
    requires 0 < n <= |s.requestQueue| && s.requestsInFlight + n <= s.numWorkers && s.sending == None
    requires !Throws(SentOff(s, n - 1), Pop)
    ensures Next(Next(SentOff(s, n - 1), Pop, compress), Send, compress) == SentOff(s, n)
  {
    var id := s.requestQueue[n - 1];
    assert s.requestQueue[n - 1..][0] == id && s.requestQueue[n - 1..][1..] == s.requestQueue[n..];
    assert (set i | 0 <= i < n :: s.requestQueue[i]) == (set i | 0 <= i < n - 1 :: s.requestQueue[i]) + {id};
  }

  lemma RoundKept(t: State, compress: seq<byte> -> seq<byte>)
    requires Invariant(t, compress) && Enabled(t, Pop)
    ensures !Throws(t, Pop) && Invariant(Next(Next(t, Pop, compress), Send, compress), compress)
  {
    ThrowsIff(t, Pop, compress);
    InvariantKept(t, Pop, compress);
    InvariantKept(Next(t, Pop, compress), Send, compress);
  }

  lemma SentOffStep(s: State, t: State, t': State, n: nat, compress: seq<byte> -> seq<byte>)
    requires 0 < n <= |s.requestQueue| && s.requestsInFlight + n <= s.numWorkers && s.sending == None
    requires t == SentOff(s, n - 1) && t' == SentOff(s, n) && Invariant(t, compress)
    ensures Invariant(t', compress)
  {
    RoundKept(t, compress);
    SentOffRound(s, n, compress);
  }

  lemma SentOffNone(s: State)
    requires s.sending == None
    ensures SentOff(s, 0) == s
  {
  }

  lemma {:induction false} SentOffInvariant(s: State, n: nat, compress: seq<byte> -> seq<byte>)
    requires Invariant(s, compress) && s.sending == None
    requires n <= |s.requestQueue| && s.requestsInFlight + n <= s.numWorkers
    ensures Invariant(SentOff(s, n), compress)
  {
    if n == 0 {
      SentOffNone(s);
    } else {
      SentOffInvariant(s, n - 1, compress);
      SentOffStep(s, SentOff(s, n - 1), SentOff(s, n), n, compress);
    }
  }

  /** After n rounds of receiveResponses. */
  function Drained(s: State, n: nat): State
    requires n <= |s.replies|
  {
    s.(replies := s.replies[n..], responses := s.responses + s.replies[..n])
  }

  lemma DrainedRound(s: State, n: nat, compress: seq<byte> -> seq<byte>)
    requires 0 < n <= |s.replies|
    ensures Next(Drained(s, n - 1), Receive, compress) == Drained(s, n)
  {
    assert s.replies[n - 1..][1..] == s.replies[n..];
    assert s.responses + s.replies[..n - 1] + [s.replies[n - 1]] == s.responses + s.replies[..n];
  }

  lemma DrainedStep(s: State, t: State, t': State, n: nat, compress: seq<byte> -> seq<byte>)
    requires 0 < n <= |s.replies| && t == Drained(s, n - 1) && t' == Drained(s, n) && Invariant(t, compress)
    ensures Invariant(t', compress)
  {
    InvariantKept(t, Receive, compress);
    DrainedRound(s, n, compress);
  }

  lemma DrainedNone(s: State)
    ensures Drained(s, 0) == s
  {
  }

  lemma {:induction false} DrainedInvariant(s: State, n: nat, compress: seq<byte> -> seq<byte>)
    requires Invariant(s, compress) && n <= |s.replies|
    ensures Invariant(Drained(s, n), compress)
  {
    if n == 0 {
      DrainedNone(s);
    } else {
      DrainedInvariant(s, n - 1, compress);
      DrainedStep(s, Drained(s, n - 1), Drained(s, n), n, compress);
    }
  }
}
