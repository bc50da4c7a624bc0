/** From the server's grant to the client's view of the same memory, by way of the response message. */
module HandOver {
  import opened Arithmetic
  import opened Bytes
  import opened SegmentPool
  import opened Sequences
  import opened SharedSegments
  import opened ShmManagers
  import opened ShmMessages
  import ResponseCodec

  datatype Outcome =
    | NoGrant
    | NotFree(id: int)
    | Shared(segment: FragmentedShmSegment, view: FragmentedShmSegment)

  lemma WrittenBack(flat: seq<byte>, data: seq<byte>, offset: nat)
    requires offset + |data| <= |flat|
    ensures Overwrite(flat, data, offset)[offset..offset + |data|] == data
  {
  }

  method ReadBack(reader: FragmentedShmSegment, offset: nat, n: nat, ghost data: seq<byte>) returns (copy: array<byte>)
    requires reader.Valid() && n == |data| && offset + n <= reader.size && reader.Flat()[offset..offset + n] == data
    ensures fresh(copy) && copy[..] == data
  {
    copy := new byte[n](_ => 0);
    var read := reader.Read(copy, 0, n, offset);
  }

  /** What one side writes the other side reads. */
  method WriteThenRead(writer: FragmentedShmSegment, reader: FragmentedShmSegment, data: seq<byte>, offset: nat) returns (copy: array<byte>)
    requires writer.Valid() && reader.Valid() && SamePlaces(writer, reader) && offset + |data| <= writer.size
    modifies writer.memories
    ensures fresh(copy) && copy[..] == data
  {
    ghost var flat := writer.Flat();
    var written := writer.Write(data, offset);
    WrittenBack(flat, data, offset);
    SamePlacesSameBytes(writer, reader);
    copy := ReadBack(reader, offset, |data|, data);
  }

  /** Parses and copies the message that lies in the segment. */
  method TakeMessage(reader: FragmentedShmSegment, ghost data: seq<byte>) returns (copy: array<byte>)
    requires reader.Valid() && HEADER + |data| <= reader.size
    requires DecodeSize(reader.Flat()[..HEADER]) == |data| && reader.Flat()[HEADER..HEADER + |data|] == data
    ensures fresh(copy) && copy[..] == data
  {
    var message := new ShmDataMessage.ToParse(reader);
    var parsed := message.Parse();
    copy := new byte[message.dataSize](_ => 0);
    var copied := message.CopyData(copy, 0, copy.Length);
  }

  /**
   A data message through shared memory: written on one side, parsed and copied on the
   other. It arrives whole exactly when the segment has room for its header and payload.
   */
  method PassMessage(writer: FragmentedShmSegment, reader: FragmentedShmSegment, data: seq<byte>) returns (ok: bool, copy: array<byte>)
    requires writer.Valid() && reader.Valid() && SamePlaces(writer, reader) && |data| < SIZE_LIMIT
    modifies writer.memories
    ensures ok <==> HEADER + |data| <= writer.size
    ensures ok ==> fresh(copy) && copy[..] == data
  {
    ghost var flat := writer.Flat();
    var message := new ShmDataMessage.ToSend(writer, data);
    ok := message.Write();
    if ok {
      WrittenMessage(flat, data);
      SamePlacesSameBytes(writer, reader);
      copy := TakeMessage(reader, data);
    } else {
      copy := new byte[0];
    }
  }

  /** The client's manager maps the same memory with the same layout. */
  ghost predicate Attached(server: ShmManager, client: ShmManager)
    reads server`shmSegments, client`shmSegments
  {
    && server != client && server.availableSegments != client.availableSegments
    && server.Valid() && client.Valid()
    && server.physical == client.physical && server.internalRepSize == client.internalRepSize
    && server.physicalSegmentSize == client.physicalSegmentSize
    && server.numInternalSegments == client.numInternalSegments < INT_LIMIT
  }

  /** Equal layouts put segment i in the same place. */
  lemma SamePlace(server: ShmManager, client: ShmManager, i: nat)
    requires Attached(server, client) && i < server.numInternalSegments
    ensures var mine, theirs := server.shmSegments[i], client.shmSegments[i];
            mine.memory == theirs.memory && mine.addr == theirs.addr && mine.size == theirs.size && mine.id == theirs.id == i
  {
    TimesOrder(server.internalRepSize, server.perSegment, client.perSegment);
    assert server.Placed(i, server.shmSegments[i]);
    assert client.Placed(i, client.shmSegments[i]);
  }

  lemma SamePicksSamePlaces(server: ShmManager, client: ShmManager, ids: seq<nat>, k: nat)
    requires Attached(server, client) && k < |ids|
    requires forall j :: 0 <= j < |ids| ==> ids[j] < server.numInternalSegments
    ensures var mine, theirs := server.Pick(ids)[k], client.Pick(ids)[k];
            mine.memory == theirs.memory && mine.addr == theirs.addr && mine.size == theirs.size && mine.id == theirs.id == ids[k]
  {
    SamePlace(server, client, ids[k]);
  }

  function AsInts(ids: seq<int>): (ints: seq<int32>)
    requires forall k :: 0 <= k < |ids| ==> 0 <= ids[k] < INT_LIMIT
    ensures |ints| == |ids| && forall k :: 0 <= k < |ids| ==> ints[k] == ids[k]
  {
    if ids == [] then [] else AsInts(ids[..|ids| - 1]) + [ids[|ids| - 1]]
  }

  function AsIds(ints: seq<int32>): (ids: seq<nat>)
    requires forall k :: 0 <= k < |ints| ==> 0 <= ints[k]
    ensures |ids| == |ints| && forall k :: 0 <= k < |ints| ==> ids[k] == ints[k]
  {
    if ints == [] then [] else AsIds(ints[..|ints| - 1]) + [ints[|ints| - 1]]
  }

  /** The message that names a grant. */
  method Respond(segment: FragmentedShmSegment, requestId: int32, ghost ids: seq<nat>) returns (message: array<byte>)
    requires segment.Valid() && |segment.shmSegments| == |ids| < SIZE_LIMIT
    requires forall k :: 0 <= k < |ids| ==> segment.shmSegments[k].id == ids[k] < INT_LIMIT
    ensures fresh(message) && message[..] == ResponseCodec.Image(ResponseCodec.Message(requestId, AsInts(ids)))
  {
    var segmentIds := segment.GetSegmentIds();
    assert segmentIds == ids;
    message := ResponseCodec.Serialize(ResponseCodec.Message(requestId, AsInts(segmentIds)));
  }

  /** What the client reads from the message. */
  method Understand(message: array<byte>, ghost requestId: int32, ghost ids: seq<nat>) returns (received: int32, shmIds: seq<nat>)
    requires |ids| < SIZE_LIMIT && forall k :: 0 <= k < |ids| ==> ids[k] < INT_LIMIT
    requires message[..] == ResponseCodec.Image(ResponseCodec.Message(requestId, AsInts(ids)))
    ensures received == requestId && shmIds == ids
  {
    ghost var sent := ResponseCodec.Message(requestId, AsInts(ids));
    ResponseCodec.ResponseRoundTrip(sent, []);
    assert message[..] == ResponseCodec.Image(sent) + [];
    var m := ResponseCodec.Deserialize(message);
    received, shmIds := m.requestId, AsIds(m.shmSegmentIds);
  }

  predicate Unused(free: seq<bool>, ids: seq<nat>) {
    forall k :: 0 <= k < |ids| ==> ids[k] < |free| && free[ids[k]]
  }

  /** Distinct ids of virtual segments. */
  ghost predicate Named(manager: ShmManager, ids: seq<nat>) {
    Distinct(ids) && |ids| < INT_LIMIT && forall k :: 0 <= k < |ids| ==> ids[k] < manager.numInternalSegments < INT_LIMIT
  }

  lemma PickedIds(manager: ShmManager, ids: seq<nat>)
    requires manager.Valid() && Named(manager, ids)
    ensures forall k :: 0 <= k < |ids| ==> manager.Pick(ids)[k].id == ids[k] < INT_LIMIT
  {
    forall k | 0 <= k < |ids|
      ensures manager.Pick(ids)[k].id == ids[k]
    {
      assert manager.Placed(ids[k], manager.shmSegments[ids[k]]);
    }
  }

  /** The segments a grant consists of. */
  lemma GrantIds(server: ShmManager, requestSize: nat) returns (ids: seq<nat>)
    requires server.Valid() && Accounted(server.AsPool()) && CanGrant(server.AsPool(), requestSize)
    ensures ids == Share(server.AsPool(), requestSize) && Distinct(ids)
    ensures forall k :: 0 <= k < |ids| ==> ids[k] < server.numInternalSegments
    ensures |ids| <= server.numInternalSegments && Times(server.internalRepSize, |ids|) == requestSize
  {
    ids := Share(server.AsPool(), requestSize);
    GrantTakesLowest(server.AsPool(), requestSize);
    WholeShare(server.AsPool(), requestSize);
  }

  /** A grant and the view built from its ids cut the same memory in the same places. */
  lemma PicksShare(server: ShmManager, client: ShmManager, ids: seq<nat>, segment: FragmentedShmSegment, view: FragmentedShmSegment)
    requires Attached(server, client) && forall k :: 0 <= k < |ids| ==> ids[k] < server.numInternalSegments
    requires segment.Valid() && segment.shmSegments == server.Pick(ids)
    requires view.Valid() && view.shmSegments == client.Pick(ids)
    ensures SamePlaces(segment, view)
  {
    server.PickSize(ids, |ids|);
    client.PickSize(ids, |ids|);
    forall k | 0 <= k < |ids| {
      SamePicksSamePlaces(server, client, ids, k);
    }
  }

  /** The server's half: a grant and the message that names it. */
  method Offer(server: ShmManager, requestId: int32, requestSize: nat, ghost ids: seq<nat>)
    returns (grant: GrantResult, message: array<byte>)
    requires server.Valid() && Accounted(server.AsPool()) && server.numInternalSegments < INT_LIMIT
    requires CanGrant(server.AsPool(), requestSize) ==> ids == Share(server.AsPool(), requestSize)
    modifies server`availableSize, server`live, server.availableSegments
    ensures fresh(message)
    ensures grant.Granted? <==> CanGrant(old(server.AsPool()), requestSize)
    ensures server.AsPool() == if grant.Granted? then Grant(old(server.AsPool()), requestSize) else old(server.AsPool())
    ensures grant.Granted? ==>
              && Named(server, ids)
              && fresh(grant.segment) && grant.segment.Valid() && grant.segment.size == requestSize
              && grant.segment.memories == server.Memories() && grant.segment.shmSegments == server.Pick(ids)
              && message[..] == ResponseCodec.Image(ResponseCodec.Message(requestId, AsInts(ids)))
  {
    if CanGrant(server.AsPool(), requestSize) {
      ghost var same := GrantIds(server, requestSize);
    }
    grant := server.GetShmSegment(requestSize);
    if grant.Granted? {
      PickedIds(server, ids);
      message := Respond(grant.segment, requestId, ids);
    } else {
      message := new byte[0];
    }
  }

  /** The client's half: from the message to a view. */
  method Accept(client: ShmManager, message: array<byte>, ghost requestId: int32, ghost ids: seq<nat>)
    returns (received: int32, view: ViewResult)
    requires client.Valid() && client.numInternalSegments < INT_LIMIT && Named(client, ids)
    requires message[..] == ResponseCodec.Image(ResponseCodec.Message(requestId, AsInts(ids)))
    modifies client.availableSegments
    ensures received == requestId
    ensures view.View? <==> Unused(old(client.availableSegments[..]), ids)
    ensures view.View? ==>
              && fresh(view.segment) && view.segment.Valid() && view.segment.memories == client.Memories()
              && view.segment.shmSegments == client.Pick(ids)
              && client.availableSegments[..] == Mark(old(client.availableSegments[..]), ids, false)
  {
    var shmIds;
    received, shmIds := Understand(message, requestId, ids);
    view := client.GetShmSegmentView(shmIds);
  }

  /**
   A request of requestSize bytes, granted by the server, named in a response and
   mapped by the client: both sides then have the same bytes in the same places. The
   client refuses exactly when it still has one of the segments in use itself.
   */
  method ShareMemory(server: ShmManager, client: ShmManager, requestId: int32, requestSize: nat) returns (outcome: Outcome)
    requires Attached(server, client) && Accounted(server.AsPool())
    modifies server`availableSize, server`live, server.availableSegments, client.availableSegments
    ensures outcome == NoGrant <==> !CanGrant(old(server.AsPool()), requestSize)
    ensures server.AsPool() == if outcome == NoGrant then old(server.AsPool()) else Grant(old(server.AsPool()), requestSize)
    ensures outcome != NoGrant ==>
              var ids := Share(old(server.AsPool()), requestSize);
              (outcome.Shared? <==> Unused(old(client.availableSegments[..]), ids))
    ensures outcome.Shared? ==>
              && fresh(outcome.segment) && fresh(outcome.view)
              && outcome.segment.Valid() && outcome.view.Valid() && outcome.segment.size == requestSize
              && SamePlaces(outcome.segment, outcome.view)
              && outcome.segment.memories == outcome.view.memories == server.Memories()
    ensures outcome.Shared? ==>
              var ids := Share(old(server.AsPool()), requestSize);
              && Named(server, ids) && outcome.segment.shmSegments == server.Pick(ids)
              && client.availableSegments[..] == Mark(old(client.availableSegments[..]), ids, false)
  {
    ghost var ids := [];
    if CanGrant(server.AsPool(), requestSize) {
      ids := Share(server.AsPool(), requestSize);
    }
    var grant, message := Offer(server, requestId, requestSize, ids);
    if !grant.Granted? {
      return NoGrant;
    }
    var received, view := Accept(client, message, requestId, ids);
    match view {
      case AlreadyAllocated(id) => outcome := NotFree(id);
      case View(segment) =>
        PicksShare(server, client, ids, grant.segment, segment);
        outcome := Shared(grant.segment, segment);
    }
  }
}
