/**
 The Scheduler under the credit strategy: the client map, the two run queues with
 the list iterators the clients hold, and the request lists. Each method is tied to
 its operation in CreditPolicy.
 */
module CreditSchedulers {
  import opened CreditLists
  import opened CreditPolicy
  import opened RequestLists
  import opened Wrappers

  class CreditScheduler {
    const numWorkers: nat
    var clientCredits: map<int, Credit>
    /** The order in which iteration over clientCredits meets the clients. */
    var order: seq<int>
    var underQueue: seq<Node>
    var overQueue: seq<Node>
    /** The address of the next list node. */
    var nextNode: nat
    var requestMap: map<int, seq<Request>>
    var requestCount: int

    function Queues(): Lists
      reads `clientCredits, `underQueue, `overQueue, `nextNode
    {
      Lists(clientCredits, underQueue, overQueue, nextNode)
    }

    function View(): Sched
      reads this
    {
      Seen(Queues(), numWorkers, order, requestMap, requestCount)
    }

    ghost predicate Valid()
      reads this
    {
      Consistent(View()) && Linked(Queues())
    }

    constructor (numWorkers: nat)
      requires 0 < numWorkers
      ensures Valid() && View() == Empty(numWorkers)
    {
      this.numWorkers := numWorkers;
      clientCredits, order, underQueue, overQueue, nextNode := map[], [], [], [], 0;
      requestMap, requestCount := map[], 0;
      new;
      EmptyConsistent(numWorkers);
      assert Accounts(clientCredits) == map[];
    }

    /** `newOrder` is where the hash table puts the new client. */
    method RegisterClient(clientId: int, priority: int, newOrder: seq<int>)
      requires Valid() && Arranges(newOrder, clientCredits.Keys + {clientId})
      modifies this
      ensures Valid()
      ensures View() == Register(old(View()), clientId, priority, newOrder)
    {
      RegisterConsistent(View(), clientId, priority, newOrder);
      if clientId !in clientCredits {
        ghost var before := clientCredits;
        clientCredits := clientCredits[clientId := Credit(clientId, priority as real, priority as real, IDLE, 0)];
        order := newOrder;
        assert Accounts(clientCredits) == Accounts(before)[clientId := Account(priority as real, priority as real, IDLE)];
        assert clientId !in Ids(underQueue) && clientId !in Ids(overQueue);
      }
    }

    /** False is the exception for a client that is not registered. */
    method DeregisterClient(clientId: int) returns (ok: bool)
      requires Valid()
      modifies this
      ensures ok <==> clientId in old(clientCredits)
      ensures !ok ==> View() == old(View())
      ensures ok ==> View() == Deregister(old(View()), clientId)
      ensures Valid() <==> (ok ==> Pending(old(requestMap), clientId) == [])
    {
      ok := clientId in clientCredits;
      if ok {
        DeregisterConsistentIffIdle(View(), clientId);
        ErasedIsDeregistered(Queues(), numWorkers, order, requestMap, requestCount, clientId);
        if Pending(requestMap, clientId) == [] {
          EraseKeepsLinks(Queues(), clientId);
        }
        clientCredits := clientCredits - {clientId};
        order := Without(order, clientId);
        requestMap := requestMap - {clientId};
      }
    }

    /** Credit::enqueue. */
    method EnqueueCredit(clientId: int)
      requires clientId in clientCredits
      modifies `clientCredits, `underQueue, `overQueue, `nextNode
      ensures Queues() == if old(clientCredits[clientId].kind) == IDLE then Push(old(Queues()), clientId) else old(Queues())
    {
      if clientCredits[clientId].kind == IDLE {
        var node := Node(nextNode, clientId);
        nextNode := nextNode + 1;
        if clientCredits[clientId].credit > 0.0 {
          underQueue := underQueue + [node];
          clientCredits := clientCredits[clientId := clientCredits[clientId].(kind := UNDER, position := node.handle)];
        } else {
          overQueue := overQueue + [node];
          clientCredits := clientCredits[clientId := clientCredits[clientId].(kind := OVER, position := node.handle)];
        }
      }
    }

    /** Credit::dequeue, which throws for an idle client. */
    method DequeueCredit(clientId: int)
      requires clientId in clientCredits && clientCredits[clientId].kind != IDLE
      modifies `underQueue, `overQueue
      ensures Queues() == Unlink(old(Queues()), clientId)
    {
      match clientCredits[clientId].kind {
        case UNDER => underQueue := Erase(underQueue, clientCredits[clientId].position);
        case OVER => overQueue := Erase(overQueue, clientCredits[clientId].position);
      }
    }

    /**
     False is the exception for a client that is not registered, which is thrown
     after the request has been stored and counted.
     */
    method Enqueue(request: Request) returns (ok: bool)
      requires Valid()
      modifies this
      ensures ok <==> request.clientId in old(clientCredits)
      ensures ok ==> View() == CreditPolicy.Enqueue(old(View()), request)
      ensures !ok ==> View() == old(View()).(requests := requestMap, count := requestCount)
      ensures requestMap == old(requestMap)[request.clientId := Pending(old(requestMap), request.clientId) + [request]]
      ensures requestCount == old(requestCount) + 1
      ensures Valid() <==> ok
    {
      var clientId := request.clientId;
      ok := clientId in clientCredits;
      ghost var s, l := View(), Queues();
      requestMap := requestMap[clientId := Pending(requestMap, clientId) + [request]];
      requestCount := requestCount + 1;
      if ok {
        EnqueueCredit(clientId);
        EnqueuedOnLists(s, l, request);
        assert View() == Seen(Queues(), numWorkers, order, requestMap, requestCount);
        EnqueueConsistent(s, request);
      } else {
        assert clientId in requestMap && clientId !in View().accounts;
      }
    }

    /** One round of the loop in Credit::schedule, for another client. */
    method RequeueOther(o: int, fileSize: nat)
      requires o in clientCredits && 0 < numWorkers
      modifies `clientCredits, `underQueue, `overQueue, `nextNode
      ensures Queues() == Requeue(old(Queues()), o, Gain(old(clientCredits[o].priority), fileSize, numWorkers))
    {
      var gain := Gain(clientCredits[o].priority, fileSize, numWorkers);
      clientCredits := clientCredits[o := clientCredits[o].(credit := clientCredits[o].credit + gain)];
      assert Queues() == Raise(old(Queues()), o, gain);
      if clientCredits[o].kind != IDLE {
        DequeueCredit(o);
        clientCredits := clientCredits[o := clientCredits[o].(kind := IDLE)];
        EnqueueCredit(o);
      }
    }

    /** One round of the loop in Credit::schedule. */
    method ChargeRound(clientId: int, o: int, fileSize: nat)
      requires o in clientCredits && 0 < numWorkers
      modifies `clientCredits, `underQueue, `overQueue, `nextNode
      ensures Queues() == AfterRound(old(Queues()), o, clientId, numWorkers, fileSize)
    {
      if o != clientId {
        RequeueOther(o, fileSize);
      }
    }

    /** The loop in Credit::schedule: everybody but the served client gains and is queued anew. */
    method ChargeOthers(clientId: int, fileSize: nat)
      requires 0 < numWorkers && forall i :: 0 <= i < |order| ==> order[i] in clientCredits
      modifies `clientCredits, `underQueue, `overQueue, `nextNode
      ensures Queues() == AfterRounds(old(Queues()), order, clientId, numWorkers, fileSize, |order|)
    {
      ghost var l0 := Queues();
      for k := 0 to |order|
        invariant Queues() == AfterRounds(l0, order, clientId, numWorkers, fileSize, k)
      {
        ChargeRound(clientId, order[k], fileSize);
      }
    }

    /** The tail of Credit::schedule. */
    method ChargeSelf(clientId: int, fileSize: nat, backlog: bool)
      requires clientId in clientCredits && 0 < numWorkers
      modifies `clientCredits, `underQueue, `overQueue, `nextNode
      ensures Queues() == Charge(old(Queues()), clientId, Cost(fileSize, numWorkers), backlog)
    {
      var credit := clientCredits[clientId].credit - Cost(fileSize, numWorkers);
      clientCredits := clientCredits[clientId := clientCredits[clientId].(credit := credit)];
      assert Queues() == Raise(old(Queues()), clientId, -Cost(fileSize, numWorkers));
      if backlog {
        clientCredits := clientCredits[clientId := clientCredits[clientId].(kind := IDLE)];
        EnqueueCredit(clientId);
      } else {
        clientCredits := clientCredits[clientId := clientCredits[clientId].(kind := IDLE)];
      }
    }

    /** Credit::schedule from its call of dequeue on. */
    method ChargeAll(clientId: int, fileSize: nat, backlog: bool)
      requires 0 < numWorkers && forall i :: 0 <= i < |order| ==> order[i] in clientCredits
      requires clientId in clientCredits && clientCredits[clientId].kind != IDLE
      modifies `clientCredits, `underQueue, `overQueue, `nextNode
      ensures Queues() == Scheduled(old(Queues()), order, clientId, numWorkers, fileSize, backlog)
    {
      DequeueCredit(clientId);
      ChargeOthers(clientId, fileSize);
      ChargeSelf(clientId, fileSize, backlog);
    }

    /** Credit::schedule of a client whose first request is at hand. */
    method ServeFirst(clientId: int, list: seq<Request>)
      requires 0 < numWorkers && forall i :: 0 <= i < |order| ==> order[i] in clientCredits
      requires clientId in clientCredits && clientCredits[clientId].kind != IDLE && list != []
      modifies `requestMap, `clientCredits, `underQueue, `overQueue, `nextNode
      ensures requestMap == old(requestMap)[clientId := list[1..]]
      ensures Queues() == Scheduled(old(Queues()), order, clientId, numWorkers, list[0].fileSize, list[1..] != [])
    {
      requestMap := requestMap[clientId := list[1..]];
      ChargeAll(clientId, list[0].fileSize, list[1..] != []);
    }

    /** Credit::schedule; None is the exception for an empty run queue. */
    method ScheduleClient(clientId: int, ghost s: Sched) returns (request: Option<Request>)
      requires s == View() && Valid() && clientId in clientCredits
      modifies `requestMap, `clientCredits, `underQueue, `overQueue, `nextNode
      ensures request.None? <==> Pending(s.requests, clientId) == []
      ensures request.None? ==> View() == s.(requests := s.requests[clientId := []])
      ensures request.Some? ==>
                && request.value == Pending(s.requests, clientId)[0]
                && View() == Serve(s, clientId).(count := s.count)
                && Linked(Queues())
    {
      var list := Pending(requestMap, clientId);
      if list == [] {
        requestMap := requestMap[clientId := []];
        return None;
      }
      ghost var l := Queues();
      ReadyToSchedule(s, l, clientId);
      ServeFirst(clientId, list);
      ScheduleIsServe(s, l, clientId, list);
      assert View() == Seen(Queues(), numWorkers, order, requestMap, requestCount);
      return Some(list[0]);
    }

    /** What both branches of scheduleCredit do with the client they chose. */
    method ServeClient(clientId: int, ghost s: Sched) returns (request: Request)
      requires s == View() && Valid() && clientId in clientCredits && Pending(requestMap, clientId) != []
      modifies this
      ensures request == Pending(s.requests, clientId)[0]
      ensures View() == Serve(s, clientId) && Linked(Queues())
    {
      var served := ScheduleClient(clientId, s);
      request := served.value;
      ghost var charged := View();
      requestCount := requestCount - 1;
      assert View() == charged.(count := s.count - 1);
    }

    /**
     scheduleCredit, once the wait for a request is over. The client at the head of a
     queue is always registered and has a request, so nothing is thrown.
     */
    method ScheduleCredit() returns (request: Request)
      requires Valid() && 0 < requestCount
      modifies this
      ensures Valid()
      ensures old(underQueue) != [] || old(overQueue) != []
      ensures var c := Turn(old(View()));
              && Pending(old(requestMap), c) != [] && request == Pending(old(requestMap), c)[0]
              && View() == Serve(old(View()), c)
    {
      ghost var s := View();
      TurnConsistent(s);
      if underQueue != [] {
        request := ServeClient(underQueue[0].clientId, s);
      } else {
        request := ServeClient(overQueue[0].clientId, s);
      }
    }
  }
}
