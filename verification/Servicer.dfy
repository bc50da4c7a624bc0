/** The client's Servicer as an object: each critical section is one action of ServicerProtocol. */
module Servicers {
  import opened Bytes
  import opened ServicerProtocol
  import opened Wrappers

  class Servicer {
    const numWorkers: nat
    const compress: seq<byte> -> seq<byte>
    var requestMap: map<int, Entry>
    var requestQueue: seq<int>
    var requestsInFlight: int
    var nextRequestId: int
    var requestResponseQueue: seq<int>
    /** The request that sendRequests has popped and not yet sent. */
    var sending: Option<int>
    /** What is in the two message queues and at the server. */
    var atServer: set<int>
    var replies: seq<int>
    /** The running handlers, with the file each compresses. */
    var working: map<int, seq<byte>>
    ghost var sources: seq<seq<byte>>
    ghost var claimed: set<int>

    ghost function AsState(): State
      reads this
    {
      State(numWorkers, requestMap, requestQueue, requestsInFlight, nextRequestId,
            sending, atServer, replies, requestResponseQueue, working, sources, claimed)
    }

    ghost predicate Valid()
      reads this
    {
      Invariant(AsState(), compress)
    }

    constructor (numWorkers: nat, compress: seq<byte> -> seq<byte>)
      ensures Valid() && AsState() == Start(numWorkers) && this.compress == compress
    {
      this.numWorkers, this.compress := numWorkers, compress;
      requestMap, requestQueue, requestsInFlight, nextRequestId, requestResponseQueue := map[], [], 0, 0, [];
      sending, atServer, replies, working, sources, claimed := None, {}, [], map[], [], {};
      new;
      StartInvariant(numWorkers, compress);
    }

    method CallServiceAsync(src: seq<byte>) returns (id: int)
      requires Valid()
      modifies this
      ensures Valid() && AsState() == Next(old(AsState()), Issue(src), compress)
      ensures id == old(nextRequestId) && sources[id] == src
    {
      ghost var s := AsState();
      requestMap := requestMap[nextRequestId := Entry(src, None)];
      requestQueue := requestQueue + [nextRequestId];
      sources := sources + [src];
      id := nextRequestId;
      nextRequestId := nextRequestId + 1;
      assert AsState() == Next(s, Issue(src), compress);
      InvariantKept(s, Issue(src), compress);
    }

    /** The locked part of a round of sendRequests. */
    method PopRequest()
      requires Valid() && Enabled(AsState(), Pop)
      modifies `requestQueue, `requestsInFlight, `sending
      ensures Valid() && !Throws(old(AsState()), Pop) && AsState() == Next(old(AsState()), Pop, compress)
    {
      ghost var s := AsState();
      ThrowsIff(s, Pop, compress);
      sending := Some(requestQueue[0]);
      requestQueue := requestQueue[1..];
      requestsInFlight := requestsInFlight + 1;
      assert AsState() == Next(s, Pop, compress);
      InvariantKept(s, Pop, compress);
    }

    /** The unlocked part: mq_send. */
    method SendRequest()
      requires Valid() && sending != None
      modifies `sending, `atServer
      ensures Valid() && AsState() == Next(old(AsState()), Send, compress)
    {
      ghost var s := AsState();
      atServer := atServer + {sending.value};
      sending := None;
      assert AsState() == Next(s, Send, compress);
      InvariantKept(s, Send, compress);
    }

    /** The loop of sendRequests with nobody in between. */
    method SendLoop(ghost s: State) returns (sent: nat)
      requires s == AsState() && requestsInFlight <= numWorkers
      requires forall i :: 0 <= i < |requestQueue| ==> requestQueue[i] in requestMap
      modifies `requestQueue, `requestsInFlight, `atServer
      ensures sent == Min(|s.requestQueue|, numWorkers - s.requestsInFlight)
      ensures AsState() == SentOff(s, sent)
    {
      sent := 0;
      while requestsInFlight < numWorkers && requestQueue != []
        invariant sent <= |s.requestQueue| && requestQueue == s.requestQueue[sent..]
        invariant requestsInFlight == s.requestsInFlight + sent <= numWorkers
        invariant atServer == s.atServer + set i | 0 <= i < sent :: s.requestQueue[i]
        decreases |requestQueue|
      {
        var id := requestQueue[0];
        requestQueue := requestQueue[1..];
        assert id == s.requestQueue[sent] && id in requestMap;
        requestsInFlight := requestsInFlight + 1;
        atServer := atServer + {id};
        sent := sent + 1;
      }
    }

    /** sendRequests: it fills the window or empties the queue, oldest ids first. */
    method SendRequests() returns (sent: nat)
      requires Valid() && sending == None
      modifies `requestQueue, `requestsInFlight, `atServer
      ensures Valid()
      ensures sent == Min(|old(requestQueue)|, numWorkers - old(requestsInFlight))
      ensures AsState() == SentOff(old(AsState()), sent)
    {
      ghost var s := AsState();
      QueuedAreFound(s, compress);
      sent := SendLoop(s);
      SentOffInvariant(s, sent, compress);
    }

    /** The loop of receiveResponses. */
    method ReceiveLoop(ghost s: State)
      requires s == AsState()
      modifies `replies, `requestResponseQueue
      ensures AsState() == Drained(s, |s.replies|)
    {
      ghost var n := 0;
      while replies != []
        invariant n <= |s.replies| && replies == s.replies[n..] && requestResponseQueue == s.responses + s.replies[..n]
        decreases |replies|
      {
        requestResponseQueue := requestResponseQueue + [replies[0]];
        replies := replies[1..];
        n := n + 1;
      }
    }

    /** receiveResponses: everything the server has answered, in its order. */
    method ReceiveResponses()
      requires Valid()
      modifies `replies, `requestResponseQueue
      ensures Valid() && AsState() == Drained(old(AsState()), |old(replies)|)
    {
      ghost var s := AsState();
      ReceiveLoop(s);
      DrainedInvariant(s, |s.replies|, compress);
    }

    method ReceiveResponse()
      requires Valid() && replies != []
      modifies `replies, `requestResponseQueue
      ensures Valid() && AsState() == Next(old(AsState()), Receive, compress)
    {
      ghost var s := AsState();
      requestResponseQueue := requestResponseQueue + [replies[0]];
      replies := replies[1..];
      assert AsState() == Next(s, Receive, compress);
      InvariantKept(s, Receive, compress);
    }

    /**
     scheduleRequest with createHandler, for a worker that is free; None when there is no
     response within the second it waits.
     */
    method ScheduleRequest() returns (handler: Option<(int, seq<byte>)>)
      requires Valid() && |working| < numWorkers
      modifies `requestResponseQueue, `working
      ensures Valid()
      ensures handler == None <==> old(requestResponseQueue) == []
      ensures handler == None ==> AsState() == old(AsState())
      ensures handler != None ==>
                && !Throws(old(AsState()), Schedule) && AsState() == Next(old(AsState()), Schedule, compress)
                && handler.value.0 == old(requestResponseQueue)[0]
                && 0 <= handler.value.0 < |sources| && handler.value.1 == sources[handler.value.0]
    {
      if requestResponseQueue == [] {
        return None;
      }
      ghost var s := AsState();
      ThrowsIff(s, Schedule, compress);
      var id := requestResponseQueue[0];
      handler := Some((id, requestMap[id].src));
      working := working[id := requestMap[id].src];
      requestResponseQueue := requestResponseQueue[1..];
      assert AsState() == Next(s, Schedule, compress);
      assert id in s.requestMap;
      InvariantKept(s, Schedule, compress);
    }

    /** completeRequest, called by the handler that has the compressed file. */
    method CompleteRequest(id: int, compressedData: seq<byte>)
      requires Valid() && id in working && compressedData == compress(working[id])
      modifies `requestsInFlight, `requestMap, `working
      ensures Valid()
      ensures !Throws(old(AsState()), Complete(id)) && AsState() == Next(old(AsState()), Complete(id), compress)
    {
      ghost var s := AsState();
      ThrowsIff(s, Complete(id), compress);
      requestsInFlight := requestsInFlight - 1;
      requestMap := requestMap[id := requestMap[id].(compressed := Some(compressedData))];
      working := working - {id};
      assert AsState() == Next(s, Complete(id), compress);
      InvariantKept(s, Complete(id), compress);
    }

    /**
     waitServiceSync, and the second half of callServiceSync, once the wait is over;
     None is the exception for a request that is not found.
     */
    method WaitServiceSync(id: int) returns (compressedData: Option<seq<byte>>)
      requires Valid() && Enabled(AsState(), Claim(id))
      modifies `requestMap, `claimed
      ensures Valid()
      ensures compressedData == None <==> id in old(claimed) || !(0 <= id < nextRequestId)
      ensures compressedData == None ==> AsState() == old(AsState())
      ensures compressedData != None ==>
                && 0 <= id < |sources| && compressedData.value == compress(sources[id])
                && AsState() == Next(old(AsState()), Claim(id), compress)
    {
      ghost var s := AsState();
      ThrowsIff(s, Claim(id), compress);
      if id !in requestMap {
        return None;
      }
      compressedData := requestMap[id].compressed;
      requestMap := requestMap - {id};
      claimed := claimed + {id};
      assert AsState() == Next(s, Claim(id), compress);
      InvariantKept(s, Claim(id), compress);
    }
  }
}
