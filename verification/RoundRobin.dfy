/** The Scheduler under the round-robin strategy: a cursor that goes round a map of request lists. */
module RoundRobins {
  import opened RequestLists
  import opened Sequences
  import opened Wrappers

  /**
   `order` is the iteration order of the map, `cursor` a place in it, with |order|
   for end().
   */
  datatype Ring = Ring(order: seq<int>, cursor: nat, requests: map<int, seq<Request>>, count: int)

  ghost predicate Consistent(s: Ring) {
    && s.cursor <= |s.order|
    && Arranges(s.order, s.requests.Keys)
    && s.count == TotalPending(s.order, s.requests)
  }

  /** A new key goes wherever the hash table puts it; the cursor stays at its element. */
  function Insert(s: Ring, r: Request, place: nat): (s': Ring)
    requires place <= |s.order| && s.cursor <= |s.order|
  {
    Ring(s.order[..place] + [r.clientId] + s.order[place..],
         if place <= s.cursor then s.cursor + 1 else s.cursor,
         s.requests[r.clientId := [r]], s.count + 1)
  }

  function Ask(s: Ring, r: Request, place: nat): (s': Ring)
    requires place <= |s.order| && s.cursor <= |s.order|
  {
    if r.clientId in s.requests then
      s.(requests := s.requests[r.clientId := s.requests[r.clientId] + [r]], count := s.count + 1)
    else Insert(s, r, place)
  }

  /** The first place from k on whose client has a request, or the end. */
  function Find(order: seq<int>, requests: map<int, seq<Request>>, k: nat): (i: nat)
    requires k <= |order|
    ensures k <= i <= |order|
    ensures i < |order| ==> Pending(requests, order[i]) != []
    ensures forall j :: k <= j < i ==> Pending(requests, order[j]) == []
    decreases |order| - k
  {
    if k < |order| && Pending(requests, order[k]) == [] then Find(order, requests, k + 1) else k
  }

  /** The place whose client is served next: from the cursor on, else from the beginning. */
  function Next(s: Ring): (i: nat)
    requires s.cursor <= |s.order|
  {
    var i := Find(s.order, s.requests, s.cursor);
    if i < |s.order| then i else Find(s.order, s.requests, 0)
  }

  /** Somebody has a request. */
  ghost predicate Ready(s: Ring) {
    s.cursor <= |s.order| && Next(s) < |s.order|
  }

  function Turn(s: Ring): int
    requires Ready(s)
  {
    s.order[Next(s)]
  }

  function Serve(s: Ring): (s': Ring)
    requires Ready(s)
  {
    var c := Turn(s);
    s.(cursor := Next(s) + 1, requests := s.requests[c := Pending(s.requests, c)[1..]], count := s.count - 1)
  }

  lemma SomebodyReady(s: Ring, j: nat)
    requires s.cursor <= |s.order| && j < |s.order| && Pending(s.requests, s.order[j]) != []
    ensures Ready(s)
  {
    var i := Find(s.order, s.requests, 0);
    assert i <= j;
  }

  /** While requests are counted there is one to serve. */
  lemma CountedIsReady(s: Ring)
    requires Consistent(s) && 0 < s.count
    ensures Ready(s)
  {
    var c := SomePending(s.order, s.requests);
    var j :| 0 <= j < |s.order| && s.order[j] == c;
    SomebodyReady(s, j);
  }

  lemma ServeConsistent(s: Ring)
    requires Consistent(s) && Ready(s)
    ensures Consistent(Serve(s))
  {
    var c := Turn(s);
    assert c in s.order;
    OneListChanges(s.order, s.requests, c, Pending(s.requests, c)[1..]);
  }

  lemma InsertArranges(order: seq<int>, clients: set<int>, c: int, place: nat)
    requires Arranges(order, clients) && c !in clients && place <= |order|
    ensures Arranges(order[..place] + [c] + order[place..], clients + {c})
  {
    var order' := order[..place] + [c] + order[place..];
    assert c !in order;
    forall i, j | 0 <= i < j < |order'|
      ensures order'[i] != order'[j]
    {
      var i0 := if i < place then i else i - 1;
      var j0 := if j < place then j else j - 1;
      assert i != place ==> order'[i] == order[i0] && order[i0] in order;
      assert j != place ==> order'[j] == order[j0] && order[j0] in order;
    }
    assert order == order[..place] + order[place..];
  }

  lemma InsertConsistent(s: Ring, r: Request, place: nat)
    requires Consistent(s) && r.clientId !in s.requests && place <= |s.order|
    ensures Consistent(Insert(s, r, place))
  {
    var c, s' := r.clientId, Insert(s, r, place);
    InsertArranges(s.order, s.requests.Keys, c, place);
    assert s'.requests.Keys == s.requests.Keys + {c};
    InsertCounts(s.order, s'.order, s.requests, c, [r]);
  }

  lemma InsertCounts(order: seq<int>, order': seq<int>, requests: map<int, seq<Request>>, c: int, list: seq<Request>)
    requires Distinct(order) && Distinct(order') && c !in order && c !in requests
    requires forall x :: x in order' <==> x in order || x == c
    ensures TotalPending(order', requests[c := list]) == TotalPending(order, requests) + |list|
  {
    var longer := order + [c];
    assert Distinct(longer);
    assert longer[..|order|] == order;
    OneListChanges(longer, requests, c, list);
    AnyOrder(longer, order', requests[c := list]);
  }

  lemma AskConsistent(s: Ring, r: Request, place: nat)
    requires Consistent(s) && place <= |s.order|
    ensures Consistent(Ask(s, r, place))
  {
    var c := r.clientId;
    if c in s.requests {
      assert c in s.order;
      OneListChanges(s.order, s.requests, c, s.requests[c] + [r]);
    } else {
      InsertConsistent(s, r, place);
    }
  }

  /** A request leaves the cursor at its client, wherever its key goes, or at the end. */
  lemma CursorStays(s: Ring, r: Request, place: nat)
    requires Consistent(s) && place <= |s.order|
    ensures var s' := Ask(s, r, place);
            && s'.cursor <= |s'.order|
            && (s.cursor < |s.order| ==> s'.cursor < |s'.order| && s'.order[s'.cursor] == s.order[s.cursor])
            && (s.cursor == |s.order| ==> s'.cursor == |s'.order|)
  {
  }

  class RoundRobinScheduler {
    var order: seq<int>
    /** requestMapIterator. */
    var cursor: nat
    var requestMap: map<int, seq<Request>>
    var requestCount: int
    /** The keys of clientCredits. */
    var clients: set<int>

    function View(): Ring
      reads this
    {
      Ring(order, cursor, requestMap, requestCount)
    }

    ghost predicate Valid()
      reads this
    {
      Consistent(View())
    }

    constructor ()
      ensures Valid() && View() == Ring([], 0, map[], 0) && clients == {}
    {
      order, cursor, requestMap, requestCount, clients := [], 0, map[], 0, {};
    }

    method RegisterClient(clientId: int)
      modifies `clients
      ensures clients == old(clients) + {clientId}
    {
      clients := clients + {clientId};
    }

    /**
     False is the exception for a client that is not registered, which is thrown
     after the request has been stored and counted: it will be served all the same.
     */
    method Enqueue(request: Request, place: nat) returns (ok: bool)
      requires Valid() && place <= |order|
      modifies `order, `cursor, `requestMap, `requestCount
      ensures ok <==> request.clientId in clients
      ensures Valid() && View() == Ask(old(View()), request, place)
    {
      AskConsistent(View(), request, place);
      var c := request.clientId;
      if c in requestMap {
        requestMap := requestMap[c := requestMap[c] + [request]];
      } else {
        order := order[..place] + [c] + order[place..];
        cursor := if place <= cursor then cursor + 1 else cursor;
        requestMap := requestMap[c := [request]];
      }
      requestCount := requestCount + 1;
      ok := c in clients;
    }

    /** Either loop of scheduleRoundRobin: serve the first client from the cursor on that has a request. */
    method Scan() returns (request: Option<Request>)
      requires cursor <= |order| && forall j :: 0 <= j < |order| ==> order[j] in requestMap
      modifies `cursor, `requestMap, `requestCount
      ensures var i := Find(old(order), old(requestMap), old(cursor));
              if i == |order| then request.None? && View() == old(View()).(cursor := |order|)
              else
                var c := order[i];
                && request == Some(Pending(old(requestMap), c)[0])
                && View() == old(View()).(cursor := i + 1, count := old(requestCount) - 1,
                             requests := old(requestMap)[c := Pending(old(requestMap), c)[1..]])
    {
      while cursor < |order|
        invariant old(cursor) <= cursor <= |order|
        invariant View() == old(View()).(cursor := cursor)
        invariant Find(order, requestMap, cursor) == Find(order, requestMap, old(cursor))
      {
        var c := order[cursor];
        if requestMap[c] != [] {
          request := Some(requestMap[c][0]);
          requestMap := requestMap[c := requestMap[c][1..]];
          cursor := cursor + 1;
          requestCount := requestCount - 1;
          return;
        }
        cursor := cursor + 1;
      }
      request := None;
    }

    /**
     scheduleRoundRobin, once the wait for a request is over: what it returns and
     leaves is a turn of the ring, and the exception for no requests is never thrown.
     */
    method ScheduleRoundRobin() returns (request: Request)
      requires Valid() && 0 < requestCount
      modifies this
      ensures Valid() && Ready(old(View()))
      ensures request == Pending(old(requestMap), Turn(old(View())))[0]
      ensures View() == Serve(old(View()))
    {
      CountedIsReady(View());
      ServeConsistent(View());
      var found := Scan();
      if found.None? {
        cursor := 0;
        found := Scan();
      }
      request := found.value;
    }
  }

  // ---- runs ----

  datatype Op = Come(request: Request, place: nat) | Take

  ghost predicate Step(s: Ring, op: Op, s': Ring) {
    && s.cursor <= |s.order|
    && match op
       case Come(r, place) => place <= |s.order| && s' == Ask(s, r, place)
       case Take => 0 < s.count && Ready(s) && s' == Serve(s)
  }

  /** The first k operations lead from run[0] through these states. */
  ghost predicate IsRun(run: seq<Ring>, ops: seq<Op>, k: nat) {
    && k <= |ops| && k < |run|
    && (k != 0 ==> IsRun(run, ops, k - 1) && Step(run[k - 1], ops[k - 1], run[k]))
  }

  lemma {:induction false} RunsStayConsistent(run: seq<Ring>, ops: seq<Op>, k: nat)
    requires IsRun(run, ops, k) && Consistent(run[0])
    ensures Consistent(run[k])
    ensures 0 < run[k].count ==> Ready(run[k])
  {
    if k == 0 {
    } else {
      RunsStayConsistent(run, ops, k - 1);
      match ops[k - 1]
      case Come(r, place) => AskConsistent(run[k - 1], r, place);
      case Take => ServeConsistent(run[k - 1]);
    }
    if 0 < run[k].count {
      CountedIsReady(run[k]);
    }
  }

  function Coming(op: Op, c: int): seq<Request> {
    if op.Come? && op.request.clientId == c then [op.request] else []
  }

  ghost function Going(s: Ring, op: Op, c: int): seq<Request>
    requires op.Take? ==> Ready(s)
  {
    if op.Take? && Turn(s) == c then [Pending(s.requests, c)[0]] else []
  }

  function Sent(ops: seq<Op>, c: int, k: nat): seq<Request>
    requires k <= |ops|
  {
    if k == 0 then [] else Sent(ops, c, k - 1) + Coming(ops[k - 1], c)
  }

  ghost function Served(run: seq<Ring>, ops: seq<Op>, c: int, k: nat): seq<Request>
    requires IsRun(run, ops, k)
  {
    if k == 0 then [] else Served(run, ops, c, k - 1) + Going(run[k - 1], ops[k - 1], c)
  }

  lemma StepPending(s: Ring, op: Op, s': Ring, c: int)
    requires Step(s, op, s')
    ensures Pending(s.requests, c) + Coming(op, c) == Going(s, op, c) + Pending(s'.requests, c)
  {
  }

  lemma OrderStep(s: Ring, op: Op, s': Ring, c: int, sent: seq<Request>, first: seq<Request>, served: seq<Request>)
    requires Step(s, op, s') && first + sent == served + Pending(s.requests, c)
    ensures first + (sent + Coming(op, c)) == served + Going(s, op, c) + Pending(s'.requests, c)
  {
    StepPending(s, op, s', c);
    assert first + (sent + Coming(op, c)) == first + sent + Coming(op, c);
    Regroup(served, Pending(s.requests, c), Pending(s'.requests, c), Coming(op, c), Going(s, op, c));
  }

  /** Every request of a client is served once, in the order of arrival. */
  lemma {:induction false} EveryRequestOnceInOrder(run: seq<Ring>, ops: seq<Op>, c: int, k: nat)
    requires IsRun(run, ops, k)
    ensures Pending(run[0].requests, c) + Sent(ops, c, k) == Served(run, ops, c, k) + Pending(run[k].requests, c)
  {
    if k == 0 {
    } else {
      EveryRequestOnceInOrder(run, ops, c, k - 1);
      OrderStep(run[k - 1], ops[k - 1], run[k], c, Sent(ops, c, k - 1), Pending(run[0].requests, c), Served(run, ops, c, k - 1));
    }
  }

  // ---- bounded waiting ----

  /** How far the cursor is before place p, going round. */
  function Distance(s: Ring, p: nat): (d: nat)
    requires s.cursor <= |s.order| && p < |s.order|
    ensures d < |s.order|
  {
    if s.cursor <= p then p - s.cursor else |s.order| - s.cursor + p
  }

  /** The place served is the nearest that has a request. */
  lemma NextIsNearest(s: Ring, p: nat)
    requires Ready(s) && p < |s.order| && Pending(s.requests, s.order[p]) != []
    ensures Distance(s, Next(s)) <= Distance(s, p)
  {
    var i := Find(s.order, s.requests, s.cursor);
    var j := Find(s.order, s.requests, 0);
    assert s.cursor <= p ==> i <= p;
    assert j <= p;
  }

  /** Everything beyond the place served comes nearer by as much; the place served goes to the end. */
  lemma TurnAdvances(s: Ring, q: nat)
    requires Ready(s) && q < |s.order|
    ensures Distance(Serve(s), Next(s)) == |s.order| - 1
    ensures Distance(s, Next(s)) < Distance(s, q) ==>
              Distance(Serve(s), q) == Distance(s, q) - Distance(s, Next(s)) - 1
  {
  }

  /** Where client c is. */
  function PlaceOf(order: seq<int>, c: int): (p: nat)
    requires c in order
    ensures p < |order| && order[p] == c
  {
    if order[0] == c then 0 else 1 + PlaceOf(order[1..], c)
  }

  /** How many keys the map has gained. */
  ghost function NewKeys(run: seq<Ring>, ops: seq<Op>, k: nat): nat
    requires IsRun(run, ops, k)
  {
    if k == 0 then 0
    else NewKeys(run, ops, k - 1) + if ops[k - 1].Come? && ops[k - 1].request.clientId !in run[k - 1].requests then 1 else 0
  }

  /** The clients served, in order. */
  ghost function Turns(run: seq<Ring>, ops: seq<Op>, k: nat): seq<int>
    requires IsRun(run, ops, k)
  {
    if k == 0 then [] else Turns(run, ops, k - 1) + if ops[k - 1].Take? then [Turn(run[k - 1])] else []
  }

  /** Client p still waits, and everybody served meanwhile is behind it. */
  ghost predicate StillAhead(s: Ring, p: nat, turns: seq<int>) {
    && s.cursor <= |s.order| && p < |s.order| && Distinct(s.order)
    && Pending(s.requests, s.order[p]) != []
    && Distinct(turns)
    && (forall i :: 0 <= i < |turns| ==> turns[i] in s.order)
    && (forall q :: 0 <= q < |s.order| && s.order[q] in turns ==> Distance(s, p) < Distance(s, q))
  }

  lemma TakeKeepsAhead(s: Ring, p: nat, turns: seq<int>)
    requires StillAhead(s, p, turns) && Ready(s) && Turn(s) != s.order[p]
    ensures StillAhead(Serve(s), p, turns + [Turn(s)])
    ensures Distance(Serve(s), p) < Distance(s, p)
  {
    var i, s' := Next(s), Serve(s);
    NextIsNearest(s, p);
    TurnAdvances(s, p);
    assert Turn(s) !in turns;
    forall q | 0 <= q < |s.order| && s.order[q] in turns + [Turn(s)]
      ensures Distance(s', p) < Distance(s', q)
    {
      TurnAdvances(s, q);
      if s.order[q] in turns {
        assert Distance(s, p) < Distance(s, q);
      } else {
        assert q == i;
      }
    }
  }

  lemma ComeKeepsAhead(s: Ring, r: Request, place: nat, p: nat, turns: seq<int>)
    requires StillAhead(s, p, turns) && place <= |s.order| && r.clientId in s.requests
    ensures StillAhead(Ask(s, r, place), p, turns)
    ensures Distance(Ask(s, r, place), p) == Distance(s, p)
  {
  }

  /** Where place q is after an insertion. */
  function Shifted(place: nat, q: nat): nat {
    if place <= q then q + 1 else q
  }

  /** A key inserted on the way makes the way longer by one, and leaves the order on it. */
  lemma InsertShifts(s: Ring, r: Request, place: nat, q: nat)
    requires s.cursor <= |s.order| && place <= |s.order| && q < |s.order|
    ensures var s' := Insert(s, r, place);
            && Shifted(place, q) < |s'.order| && s'.order[Shifted(place, q)] == s.order[q]
            && Distance(s, q) <= Distance(s', Shifted(place, q)) <= Distance(s, q) + 1
  {
  }

  lemma InsertKeepsBehind(s: Ring, r: Request, place: nat, p: nat, q: nat)
    requires s.cursor <= |s.order| && place <= |s.order| && p < |s.order| && q < |s.order|
    requires Distance(s, p) < Distance(s, q)
    ensures var s' := Insert(s, r, place);
            && s'.cursor <= |s'.order| && Shifted(place, p) < |s'.order| && Shifted(place, q) < |s'.order|
            && Distance(s', Shifted(place, p)) < Distance(s', Shifted(place, q))
  {
  }

  lemma BehindAfterInsert(s: Ring, r: Request, place: nat, p: nat, q: nat, turns: seq<int>)
    requires StillAhead(s, p, turns) && place <= |s.order| && q < |s.order|
    requires Insert(s, r, place).order[Shifted(place, q)] in turns
    ensures Distance(Insert(s, r, place), Shifted(place, p)) < Distance(Insert(s, r, place), Shifted(place, q))
  {
    InsertShifts(s, r, place, q);
    assert s.order[q] in turns;
    InsertKeepsBehind(s, r, place, p, q);
  }

  lemma InsertKeepsMember(s: Ring, r: Request, place: nat, c: int)
    requires s.cursor <= |s.order| && place <= |s.order| && c in s.order
    ensures c in Insert(s, r, place).order
  {
    var q :| 0 <= q < |s.order| && s.order[q] == c;
    assert Insert(s, r, place).order[Shifted(place, q)] == c;
  }

  lemma ServedStay(s: Ring, r: Request, place: nat, turns: seq<int>)
    requires s.cursor <= |s.order| && place <= |s.order| && forall i :: 0 <= i < |turns| ==> turns[i] in s.order
    ensures forall i :: 0 <= i < |turns| ==> turns[i] in Insert(s, r, place).order
  {
    forall i | 0 <= i < |turns|
      ensures turns[i] in Insert(s, r, place).order
    {
      InsertKeepsMember(s, r, place, turns[i]);
    }
  }

  lemma ServedStayBehind(s: Ring, r: Request, place: nat, p: nat, turns: seq<int>)
    requires StillAhead(s, p, turns) && place <= |s.order| && r.clientId !in turns
    ensures var s' := Insert(s, r, place);
            forall q :: 0 <= q < |s'.order| && s'.order[q] in turns ==> Distance(s', Shifted(place, p)) < Distance(s', q)
  {
    var s' := Insert(s, r, place);
    forall q' | 0 <= q' < |s'.order| && s'.order[q'] in turns
      ensures Distance(s', Shifted(place, p)) < Distance(s', q')
    {
      assert q' != place;
      BehindAfterInsert(s, r, place, p, if q' < place then q' else q' - 1, turns);
    }
  }

  lemma InsertKeepsAhead(s: Ring, r: Request, place: nat, p: nat, turns: seq<int>)
    requires StillAhead(s, p, turns) && Consistent(s) && place <= |s.order| && r.clientId !in s.requests
    ensures StillAhead(Insert(s, r, place), Shifted(place, p), turns)
  {
    InsertConsistent(s, r, place);
    InsertShifts(s, r, place, p);
    assert r.clientId !in s.order;
    ServedStay(s, r, place, turns);
    ServedStayBehind(s, r, place, p, turns);
  }

  lemma PlaceIsUnique(order: seq<int>, p: nat)
    requires Distinct(order) && p < |order|
    ensures order[p] in order && PlaceOf(order, order[p]) == p
  {
    assert order[p] in order;
  }

  /** What stays true while client b is passed over. */
  ghost predicate Waits(s: Ring, b: int, turns: seq<int>, bound: int) {
    && Consistent(s) && b in s.order && StillAhead(s, PlaceOf(s.order, b), turns)
    && |turns| + Distance(s, PlaceOf(s.order, b)) <= bound
  }

  lemma TakeWaits(s: Ring, b: int, turns: seq<int>, bound: int)
    requires Waits(s, b, turns, bound) && Ready(s) && Turn(s) != b
    ensures Waits(Serve(s), b, turns + [Turn(s)], bound)
  {
    ServeConsistent(s);
    TakeKeepsAhead(s, PlaceOf(s.order, b), turns);
  }

  lemma ComeWaits(s: Ring, r: Request, place: nat, b: int, turns: seq<int>, bound: int)
    requires Waits(s, b, turns, bound) && place <= |s.order|
    ensures Waits(Ask(s, r, place), b, turns, bound + if r.clientId in s.requests then 0 else 1)
  {
    var p, s' := PlaceOf(s.order, b), Ask(s, r, place);
    AskConsistent(s, r, place);
    if r.clientId in s.requests {
      ComeKeepsAhead(s, r, place, p, turns);
    } else {
      InsertShifts(s, r, place, p);
      InsertKeepsAhead(s, r, place, p, turns);
      PlaceIsUnique(s'.order, Shifted(place, p));
    }
  }

  lemma WaitBegins(s: Ring, b: int)
    requires Consistent(s) && b in s.order && Pending(s.requests, b) != []
    ensures Waits(s, b, [], |s.order| - 1)
  {
  }

  lemma StepWaits(s: Ring, op: Op, s': Ring, b: int, turns: seq<int>, turns': seq<int>, bound: int)
    requires Waits(s, b, turns, bound) && Step(s, op, s')
    requires turns' == turns + (if op.Take? then [Turn(s)] else []) && b !in turns'
    ensures Waits(s', b, turns', bound + if op.Come? && op.request.clientId !in s.requests then 1 else 0)
  {
    match op
    case Take =>
      assert turns'[|turns|] == Turn(s);
      TakeWaits(s, b, turns, bound);
    case Come(r, place) => ComeWaits(s, r, place, b, turns, bound);
  }

  lemma {:induction false} KeepsWaiting(run: seq<Ring>, ops: seq<Op>, b: int, k: nat)
    requires IsRun(run, ops, k) && Consistent(run[0])
    requires b in run[0].order && Pending(run[0].requests, b) != [] && b !in Turns(run, ops, k)
    ensures Waits(run[k], b, Turns(run, ops, k), |run[0].order| - 1 + NewKeys(run, ops, k))
  {
    if k == 0 {
      WaitBegins(run[0], b);
    } else {
      KeepsWaiting(run, ops, b, k - 1);
      StepWaits(run[k - 1], ops[k - 1], run[k], b, Turns(run, ops, k - 1), Turns(run, ops, k),
                |run[0].order| - 1 + NewKeys(run, ops, k - 1));
    }
  }

  /**
   A client that waits is passed over fewer times than there are clients, counted with
   those whose first request comes meanwhile, and never twice for the same other client.
   */
  lemma WaitingIsBounded(run: seq<Ring>, ops: seq<Op>, b: int, k: nat)
    requires IsRun(run, ops, k) && Consistent(run[0])
    requires b in run[0].order && Pending(run[0].requests, b) != [] && b !in Turns(run, ops, k)
    ensures |Turns(run, ops, k)| < |run[0].order| + NewKeys(run, ops, k)
    ensures Distinct(Turns(run, ops, k))
    ensures Pending(run[k].requests, b) != []
  {
    KeepsWaiting(run, ops, b, k);
  }
}
