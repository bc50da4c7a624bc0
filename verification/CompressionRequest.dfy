/** A whole request: size, grant, response, view, transfer and release. */
module CompressionRequest {
  import opened Arithmetic
  import opened Bytes
  import opened HandOver
  import opened SegmentPool
  import opened SharedSegments
  import opened ShmManagers
  import opened SizeSelection
  import opened TransferHandlers
  import opened TransferProtocol
  import opened Wrappers

  /** The two handlers, over the server's segment and the client's view, in any interleaving. */
  method Deliver(segment: FragmentedShmSegment, view: FragmentedShmSegment, src: seq<byte>, compress: seq<byte> -> seq<byte>)
    returns (compressedData: array<byte>)
    requires segment.Valid() && view.Valid() && SamePlaces(segment, view) && segment.memories == view.memories
    requires HEADER < segment.size < SIZE_LIMIT && |src| < SIZE_LIMIT && |compress(src)| < SIZE_LIMIT
    modifies segment.memories
    ensures fresh(compressedData) && compressedData[..] == compress(src)
  {
    ghost var j := Job(src, compress, segment.size);
    var semaphores := new Semaphores();
    var server := new ServiceFileCompressorHandler(|src|, segment, semaphores, compress);
    var client := new ClientFileCompressorHandler(src, view, semaphores);
    Transfer(j, server, client);
    compressedData := client.compressedData;
  }

  /** Both handlers are destroyed: the server's grant is released, and the client's view. */
  method ReleaseBoth(server: ShmManager, client: ShmManager, segment: FragmentedShmSegment, ghost ids: seq<nat>)
    requires Attached(server, client) && Conserved(server.AsPool()) && Named(server, ids)
    requires server.live != [] && server.live[|server.live| - 1] == ids
    requires segment.Valid() && segment.shmSegments == server.Pick(ids)
    modifies server`availableSize, server`live, server.availableSegments, client`availableSize, client.availableSegments
    ensures server.AsPool() == Release(old(server.AsPool()), |old(server.live)| - 1)
    ensures client.availableSegments[..] == Mark(old(client.availableSegments[..]), ids, true)
    ensures client.availableSize == old(client.availableSize) + Times(client.internalRepSize, |ids|)
  {
    var segmentIds := segment.GetSegmentIds();
    PickedIds(server, ids);
    assert segmentIds == ids;
    var shmIds: seq<nat> := segmentIds;
    server.ReleaseShmSegment(shmIds, |server.live| - 1);
    client.GiveBack(shmIds);
  }

  /** Marking segments that were free and releasing them again. */
  lemma MarkUndone(free: seq<bool>, ids: seq<nat>)
    requires Unused(free, ids)
    ensures Mark(Mark(free, ids, false), ids, true) == free
  {
  }

  /** A grant ends with its share of the pool, and giving that share back undoes it. */
  lemma GrantUndone(pool: Pool, size: nat)
    requires Conserved(pool) && CanGrant(pool, size)
    ensures Conserved(Grant(pool, size))
    ensures Grant(pool, size).live == pool.live + [Share(pool, size)]
    ensures Release(Grant(pool, size), |pool.live|) == pool
    ensures Times(pool.rep, |Share(pool, size)|) == size
  {
    GrantConserves(pool, size);
    ReleaseUndoesGrant(pool, size);
    GrantTakesLowest(pool, size);
  }

  /** Both handlers run to their end over the shared segment, and then give it back. */
  method DeliverAndRelease(server: ShmManager, client: ShmManager, segment: FragmentedShmSegment, view: FragmentedShmSegment,
                           ghost ids: seq<nat>, src: seq<byte>, compress: seq<byte> -> seq<byte>)
    returns (compressedData: array<byte>)
    requires Attached(server, client) && Conserved(server.AsPool()) && Named(server, ids)
    requires server.live != [] && server.live[|server.live| - 1] == ids
    requires segment.Valid() && segment.shmSegments == server.Pick(ids)
    requires view.Valid() && SamePlaces(segment, view) && segment.memories == view.memories
    requires HEADER < segment.size < SIZE_LIMIT && |src| < SIZE_LIMIT && |compress(src)| < SIZE_LIMIT
    modifies server`availableSize, server`live, server.availableSegments
    modifies client`availableSize, client.availableSegments, segment.memories
    ensures compressedData[..] == compress(src)
    ensures server.AsPool() == Release(old(server.AsPool()), |old(server.live)| - 1)
    ensures client.availableSegments[..] == Mark(old(client.availableSegments[..]), ids, true)
    ensures client.availableSize == old(client.availableSize) + Times(client.internalRepSize, |ids|)
  {
    compressedData := Deliver(segment, view, src, compress);
    ReleaseBoth(server, client, segment, ids);
  }

  /** A grant that the client has mapped is used for one file; then everything is as before the grant. */
  method DeliverGrant(server: ShmManager, client: ShmManager, segment: FragmentedShmSegment, view: FragmentedShmSegment,
                      ghost pool: Pool, ghost free: seq<bool>, ghost size: nat, src: seq<byte>, compress: seq<byte> -> seq<byte>)
    returns (compressedData: array<byte>)
    requires Attached(server, client) && Conserved(pool) && CanGrant(pool, size) && server.AsPool() == Grant(pool, size)
    requires var ids := Share(pool, size);
             && Named(server, ids) && Unused(free, ids) && client.availableSegments[..] == Mark(free, ids, false)
             && segment.Valid() && segment.shmSegments == server.Pick(ids)
    requires view.Valid() && SamePlaces(segment, view) && segment.memories == view.memories
    requires HEADER < segment.size < SIZE_LIMIT && |src| < SIZE_LIMIT && |compress(src)| < SIZE_LIMIT
    modifies server`availableSize, server`live, server.availableSegments
    modifies client`availableSize, client.availableSegments, segment.memories
    ensures compressedData[..] == compress(src)
    ensures server.AsPool() == pool && client.availableSegments[..] == free
    ensures client.availableSize == old(client.availableSize) + size
  {
    ghost var ids := Share(pool, size);
    GrantUndone(pool, size);
    MarkUndone(free, ids);
    compressedData := DeliverAndRelease(server, client, segment, view, ids, src, compress);
  }

  /** The size the service asks for has room for a header and for something behind it. */
  method RequestedSize(server: ShmManager, src: seq<byte>, requestCount: nat, numWorkers: nat) returns (size: nat)
    requires server.Valid() && HEADER < server.internalRepSize && 0 < server.numInternalSegments
    requires server.AsPool().Total() < SIZE_LIMIT && |src| < SIZE_LIMIT && 0 < requestCount + numWorkers
    ensures size == SelectShmSize(server.internalRepSize, server.AsPool().Total(), requestCount, numWorkers, |src|)
    ensures HEADER < size < SIZE_LIMIT
  {
    size := SelectShmSize(server.internalRepSize, server.size, requestCount, numWorkers, |src|);
    server.SizeIsTotal();
    TimesIsProduct(server.internalRepSize, server.numInternalSegments);
    ghost var n := SelectionIsWholeSegments(server.internalRepSize, server.numInternalSegments, requestCount, numWorkers, |src|);
  }

  /**
   One file through the service. It is delivered exactly when the pool can grant the
   selected size and the client uses none of the granted segments; both managers then
   have the segments back, and only the client's available size has drifted upwards.
   Otherwise the pool is as it was, or keeps a grant that the client refused to map.
   */
  method CompressFile(server: ShmManager, client: ShmManager, requestId: int32, src: seq<byte>,
                      compress: seq<byte> -> seq<byte>, requestCount: nat, numWorkers: nat)
    returns (compressedData: Option<array<byte>>)
    requires Attached(server, client) && Conserved(server.AsPool())
    requires HEADER < server.internalRepSize && server.AsPool().Total() < SIZE_LIMIT && 0 < server.numInternalSegments
    requires |src| < SIZE_LIMIT && |compress(src)| < SIZE_LIMIT && 0 < requestCount + numWorkers
    modifies server`availableSize, server`live, server.availableSegments
    modifies client`availableSize, client.availableSegments, server.Memories()
    ensures var pool := old(server.AsPool());
            var size := SelectShmSize(pool.rep, pool.Total(), requestCount, numWorkers, |src|);
            && (compressedData.Some? <==>
                CanGrant(pool, size) && Unused(old(client.availableSegments[..]), Share(pool, size)))
            && (compressedData.Some? ==>
                  && compressedData.value[..] == compress(src)
                  && server.AsPool() == pool
                  && client.availableSegments[..] == old(client.availableSegments[..])
                  && client.availableSize == old(client.availableSize) + size)
            && (compressedData.None? ==> server.AsPool() == if CanGrant(pool, size) then Grant(pool, size) else pool)
  {
    ghost var pool, free := server.AsPool(), client.availableSegments[..];
    var size := RequestedSize(server, src, requestCount, numWorkers);
    var outcome := ShareMemory(server, client, requestId, size);
    if !outcome.Shared? {
      return None;
    }
    var data := DeliverGrant(server, client, outcome.segment, outcome.view, pool, free, size, src, compress);
    compressedData := Some(data);
  }
}
