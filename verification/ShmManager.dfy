/** The manager of the mapped segments: layout, grants on the server side, views on the client side. */
module ShmManagers {
  import opened Arithmetic
  import opened Bytes
  import opened SegmentPool
  import opened Sequences
  import opened SharedSegments

  /** What a caller of getShmSegment(size) finds: a grant, a wait, or an exception. */
  datatype GrantResult = Granted(segment: FragmentedShmSegment) | Waiting | Refused

  datatype ViewResult = View(segment: FragmentedShmSegment) | AlreadyAllocated(id: int)

  class ShmManager {
    const numSegments: nat
    const physicalSegmentSize: nat
    const internalRepSize: nat
    const size: nat
    const numInternalSegments: nat
    const physical: seq<array<byte>>
    const availableSegments: array<bool>
    /** Virtual segments in one mapping. */
    ghost const perSegment: nat
    var availableSize: int
    var shmSegments: seq<ContiguousShmSegment>
    /** The grants handed out by getShmSegment(size) and not yet released. */
    ghost var live: seq<seq<nat>>

    ghost function Memories(): set<array<byte>> {
      set m | m in physical
    }

    /** Mappings of one size, cut into whole slots. */
    ghost predicate Mapped() {
      && 0 < internalRepSize && 0 < perSegment && physicalSegmentSize == Times(internalRepSize, perSegment)
      && |physical| == numSegments
      && (forall s :: 0 <= s < numSegments ==> physical[s].Length == physicalSegmentSize)
      && (forall s, t :: 0 <= s < t < numSegments ==> physical[s] != physical[t])
    }

    ghost predicate Sized() {
      && Mapped()
      && size == numSegments * physicalSegmentSize
      && numInternalSegments == numSegments * perSegment
      && availableSegments.Length == numInternalSegments
    }

    /** The mapping virtual segment i lies in. */
    ghost function MappingOf(i: nat): (s: nat)
      requires 0 < perSegment
    {
      i / perSegment
    }

    /** Its place in that mapping. */
    ghost function SlotOf(i: nat): (q: nat)
      requires 0 < perSegment
    {
      i % perSegment
    }

    /** Where virtual segment i lies. */
    ghost predicate Placed(i: nat, segment: ContiguousShmSegment)
      requires Mapped()
    {
      && segment.id == i
      && segment.size == internalRepSize
      && MappingOf(i) < numSegments && segment.memory == physical[MappingOf(i)]
      && segment.addr == Times(internalRepSize, SlotOf(i))
    }

    ghost predicate Uniform()
      reads this`shmSegments
    {
      && 0 < internalRepSize
      && |shmSegments| == numInternalSegments == availableSegments.Length
      && forall i :: 0 <= i < numInternalSegments ==> shmSegments[i].size == internalRepSize
    }

    ghost predicate Valid()
      reads this`shmSegments
      ensures Valid() ==> Uniform()
    {
      && Sized()
      && |shmSegments| == numInternalSegments
      && forall i :: 0 <= i < numInternalSegments ==> Placed(i, shmSegments[i])
    }

    ghost function AsPool(): Pool
      reads this, availableSegments
    {
      Pool(internalRepSize, availableSegments[..], availableSize, live)
    }

    /** The mappings are opened by name: creator and attacher get the same memory. */
    constructor (numShmSegments: nat, shmSegmentSize: nat, internalRepSize: nat, physical: seq<array<byte>>)
      requires 0 < internalRepSize <= shmSegmentSize && shmSegmentSize % internalRepSize == 0
      requires |physical| == numShmSegments
      requires forall s :: 0 <= s < numShmSegments ==> physical[s].Length == shmSegmentSize
      requires forall s, t :: 0 <= s < t < numShmSegments ==> physical[s] != physical[t]
      ensures Valid() && this.physical == physical && this.internalRepSize == internalRepSize
      ensures numSegments == numShmSegments && physicalSegmentSize == shmSegmentSize
      ensures fresh(availableSegments)
      ensures AsPool() == Fresh(internalRepSize, numInternalSegments) && availableSize == size
    {
      numSegments := numShmSegments;
      physicalSegmentSize := shmSegmentSize;
      this.internalRepSize := internalRepSize;
      this.physical := physical;
      size := numShmSegments * shmSegmentSize;
      availableSize := numShmSegments * shmSegmentSize;
      var per := shmSegmentSize / internalRepSize;
      perSegment := per;
      SegmentCount(numShmSegments, shmSegmentSize, internalRepSize, per);
      numInternalSegments := numShmSegments * shmSegmentSize / internalRepSize;
      availableSegments := new bool[numShmSegments * per](_ => true);
      shmSegments := [];
      live := [];
      new;
      MapAll();
      assert availableSegments[..] == Fresh(internalRepSize, numInternalSegments).free;
    }

    /** The outer loop of the constructor, over the mappings. */
    method MapAll()
      requires Sized() && shmSegments == []
      modifies this`shmSegments
      ensures Valid()
    {
      var shmSegmentId := 0;
      while shmSegmentId < numSegments
        invariant 0 <= shmSegmentId <= numSegments
        invariant |shmSegments| == shmSegmentId * perSegment
        invariant forall i :: 0 <= i < |shmSegments| ==> Placed(i, shmSegments[i])
      {
        MapSegment(shmSegmentId);
        MulDistributes(perSegment, shmSegmentId, 1);
        shmSegmentId := shmSegmentId + 1;
      }
    }

    /** The inner loop of the constructor: cuts mapping s into virtual segments. */
    method MapSegment(s: nat)
      requires Sized() && s < numSegments && |shmSegments| == s * perSegment
      requires forall i :: 0 <= i < |shmSegments| ==> Placed(i, shmSegments[i])
      modifies this`shmSegments
      ensures |shmSegments| == s * perSegment + perSegment
      ensures forall i :: 0 <= i < |shmSegments| ==> Placed(i, shmSegments[i])
    {
      var internalSegmentOffset := 0;
      ghost var q := 0;
      while internalSegmentOffset < physicalSegmentSize
        invariant 0 <= q <= perSegment && internalSegmentOffset == Times(internalRepSize, q)
        invariant |shmSegments| == s * perSegment + q
        invariant forall i :: 0 <= i < |shmSegments| ==> Placed(i, shmSegments[i])
      {
        SlotsApart(q, perSegment);
        var segment := new ContiguousShmSegment(|shmSegments|, physical[s], internalSegmentOffset, internalRepSize);
        DivModUnique(|shmSegments|, perSegment, s, q);
        shmSegments := shmSegments + [segment];
        internalSegmentOffset := internalSegmentOffset + internalRepSize;
        q := q + 1;
      }
      TimesOrder(internalRepSize, q, perSegment);
    }

    ghost function Pick(ids: seq<nat>): (segments: seq<ContiguousShmSegment>)
      requires Uniform() && forall k :: 0 <= k < |ids| ==> ids[k] < numInternalSegments
      reads this`shmSegments
      ensures |segments| == |ids|
      ensures forall k :: 0 <= k < |ids| ==> segments[k] == shmSegments[ids[k]]
    {
      if ids == [] then [] else Pick(ids[..|ids| - 1]) + [shmSegments[ids[|ids| - 1]]]
    }

    /** Two segments in different slots or different mappings. */
    lemma SlotsDisjoint(a: ContiguousShmSegment, b: ContiguousShmSegment, s: nat, t: nat, q: nat, r: nat)
      requires Mapped() && s < numSegments && t < numSegments && a.size == b.size == internalRepSize
      requires a.memory == physical[s] && a.addr == Times(internalRepSize, q)
      requires b.memory == physical[t] && b.addr == Times(internalRepSize, r)
      requires s == t ==> q != r
      ensures a.DisjointFrom(b)
    {
      if s == t {
        SameMappingApart(q, r);
      } else {
        OtherMapping(s, t);
      }
    }

    lemma ApartWherePlaced(i: nat, j: nat, a: ContiguousShmSegment, b: ContiguousShmSegment)
      requires Mapped() && Placed(i, a) && Placed(j, b) && i != j
      ensures a.DisjointFrom(b)
    {
      OtherSlot(i, j, perSegment);
      SlotsDisjoint(a, b, MappingOf(i), MappingOf(j), SlotOf(i), SlotOf(j));
    }

    /** Different virtual segments never share a byte. */
    lemma PlacedApart(i: nat, j: nat)
      requires Valid() && i < numInternalSegments && j < numInternalSegments && i != j
      ensures shmSegments[i].DisjointFrom(shmSegments[j])
    {
      ApartWherePlaced(i, j, shmSegments[i], shmSegments[j]);
    }

    lemma OtherMapping(s: nat, t: nat)
      requires Mapped() && s < numSegments && t < numSegments && s != t
      ensures physical[s] != physical[t]
    {
      assert if s < t then physical[s] != physical[t] else physical[t] != physical[s];
    }

    lemma SameMappingApart(q: nat, r: nat)
      requires Mapped() && q != r
      ensures var at, other := Times(internalRepSize, q), Times(internalRepSize, r);
              at + internalRepSize <= other || other + internalRepSize <= at
    {
      if q < r {
        SlotsApart(q, r);
      } else {
        SlotsApart(r, q);
      }
    }

    lemma SlotNumber(s: nat, q: nat)
      requires Sized() && s < numSegments && q < perSegment
      ensures s * perSegment + q < numInternalSegments
      ensures MappingOf(s * perSegment + q) == s && SlotOf(s * perSegment + q) == q
    {
      DivModUnique(s * perSegment + q, perSegment, s, q);
      MulOrder(perSegment, s + 1, numSegments);
      MulDistributes(perSegment, s, 1);
    }

    /** Slot q of mapping s holds virtual segment s * n + q, for the n slots of a mapping. */
    lemma LaidOut(s: nat, q: nat)
      requires Valid() && s < numSegments && q < physicalSegmentSize / internalRepSize
      ensures var i := s * (physicalSegmentSize / internalRepSize) + q;
              && i < numInternalSegments && shmSegments[i].id == i
              && shmSegments[i].memory == physical[s]
              && shmSegments[i].addr == q * internalRepSize && shmSegments[i].size == internalRepSize
    {
      SlotsFill();
      SlotNumber(s, q);
      TimesIsProduct(internalRepSize, q);
      assert Placed(s * perSegment + q, shmSegments[s * perSegment + q]);
    }

    lemma SlotsFill()
      requires Mapped()
      ensures physicalSegmentSize / internalRepSize == perSegment && physicalSegmentSize % internalRepSize == 0
    {
      TimesIsProduct(internalRepSize, perSegment);
      DivModUnique(physicalSegmentSize, internalRepSize, perSegment, 0);
    }

    /** Ids ascend from mapping to mapping and with the address in a mapping, where the next id is next in memory. */
    lemma IdsAscend(i: nat, j: nat)
      requires Valid() && i < j < numInternalSegments
      ensures MappingOf(i) <= MappingOf(j) < numSegments
      ensures shmSegments[i].memory == physical[MappingOf(i)] && shmSegments[j].memory == physical[MappingOf(j)]
      ensures MappingOf(i) == MappingOf(j) ==> shmSegments[i].addr + shmSegments[i].size <= shmSegments[j].addr
      ensures MappingOf(i) == MappingOf(j) && j == i + 1 ==> shmSegments[i].addr + shmSegments[i].size == shmSegments[j].addr
    {
      assert Placed(i, shmSegments[i]);
      assert Placed(j, shmSegments[j]);
      Ascending(i, j);
      if MappingOf(i) == MappingOf(j) {
        SlotsApart(SlotOf(i), SlotOf(j));
      }
    }

    lemma Ascending(i: nat, j: nat)
      requires 0 < perSegment && i < j
      ensures MappingOf(i) <= MappingOf(j)
      ensures MappingOf(i) == MappingOf(j) ==> SlotOf(j) - SlotOf(i) == j - i
    {
      DivModAscend(i, j, perSegment);
    }

    lemma PlacedInside(i: nat)
      requires Valid() && i < numInternalSegments
      ensures shmSegments[i].Valid() && shmSegments[i].memory in Memories()
    {
      SlotsApart(SlotOf(i), perSegment);
      assert physical[MappingOf(i)] in Memories();
    }

    lemma SlotsApart(q: nat, r: nat)
      requires Mapped() && q < r
      ensures Times(internalRepSize, q) + internalRepSize <= Times(internalRepSize, r)
    {
      TimesOrder(internalRepSize, q + 1, r);
    }

    lemma PickIsWellPlaced(ids: seq<nat>)
      requires Valid() && Distinct(ids) && forall k :: 0 <= k < |ids| ==> ids[k] < numInternalSegments
      ensures WellPlaced(Pick(ids), Memories())
    {
      var segments := Pick(ids);
      forall k | 0 <= k < |ids|
        ensures segments[k].Valid() && segments[k].memory in Memories()
      {
        PlacedInside(ids[k]);
      }
      forall k, l | 0 <= k < l < |ids|
        ensures segments[k].DisjointFrom(segments[l])
      {
        PlacedApart(ids[k], ids[l]);
      }
    }

    lemma {:induction false} PickSize(ids: seq<nat>, k: nat)
      requires Uniform() && k <= |ids| && forall j :: 0 <= j < |ids| ==> ids[j] < numInternalSegments
      ensures Base(Pick(ids), k) == Times(internalRepSize, k)
    {
      if k != 0 {
        PickSize(ids, k - 1);
      }
    }

    lemma PickBase(ids: seq<nat>, i: nat)
      requires Uniform() && i <= |ids| && forall k :: 0 <= k < |ids| ==> ids[k] < numInternalSegments
      ensures Base(Pick(ids), i) == i * internalRepSize
    {
      PickSize(ids, i);
      TimesIsProduct(internalRepSize, i);
    }

    /** Byte q of the i-th segment of a grant or view is its byte i * rep + q. */
    lemma GrantByte(segment: FragmentedShmSegment, ids: seq<nat>, i: nat, q: nat, at: nat)
      requires Valid() && segment.Valid() && forall k :: 0 <= k < |ids| ==> ids[k] < numInternalSegments
      requires segment.shmSegments == Pick(ids) && i < |ids| && q < internalRepSize
      requires at == i * internalRepSize + q
      ensures segment.shmSegments[i] == shmSegments[ids[i]] && segment.shmSegments[i].size == internalRepSize
      ensures at < segment.size
      ensures segment.Flat()[at] == segment.shmSegments[i].memory[segment.shmSegments[i].addr + q]
    {
      PickBase(ids, i);
      segment.FlatByte(i, q);
    }

    /** The size the manager reports is that of its virtual segments together. */
    lemma SizeIsTotal()
      requires Sized()
      ensures size == internalRepSize * numInternalSegments
    {
      TimesIsProduct(internalRepSize, perSegment);
      assert numSegments * (internalRepSize * perSegment) == internalRepSize * (numSegments * perSegment);
    }

    // ---- the server's side ----

    /** Takes segment i, which is free. */
    method TakeOne(i: nat, rest: nat, segments: seq<ContiguousShmSegment>, ghost ids: seq<nat>, ghost base: int)
      returns (rest': nat, segments': seq<ContiguousShmSegment>)
      requires Uniform() && i < numInternalSegments && internalRepSize <= rest && availableSize == base + rest
      requires (forall k :: 0 <= k < |ids| ==> ids[k] < i) && segments == Pick(ids)
      modifies this`availableSize, availableSegments
      ensures availableSegments[..] == old(availableSegments[..])[i := false] && segments' == Pick(ids + [i])
      ensures rest' == rest - internalRepSize && availableSize == base + rest'
    {
      segments' := segments + [shmSegments[i]];
      availableSize := availableSize - shmSegments[i].size;
      rest' := rest - shmSegments[i].size;
      availableSegments[i] := false;
      assert (ids + [i])[..|ids|] == ids;
    }

    /** The state of the loop of getShmSegment(size) at segment i: n - |ids| segments are still wanted. */
    ghost predicate Taking(free: seq<bool>, n: nat, base: int, i: nat, rest: nat, segments: seq<ContiguousShmSegment>, ids: seq<nat>)
      requires Uniform()
      reads this, availableSegments
    {
      && i <= numInternalSegments == |free|
      && ids == LowestFree(free, n, i) && rest == Times(internalRepSize, n - |ids|)
      && availableSegments[..] == Mark(free, ids, false) && segments == Pick(ids)
      && availableSize == base + rest
    }

    /** A segment not yet looked at is free exactly when it was, and is wanted while something is. */
    lemma NotYetTaken(i: nat, rest: nat, segments: seq<ContiguousShmSegment>, free: seq<bool>, ids: seq<nat>, n: nat, base: int)
      requires Uniform() && i < numInternalSegments && 0 < rest && Taking(free, n, base, i, rest, segments, ids)
      ensures availableSegments[i] == free[i] && |ids| < n
    {
      NoneWanted(internalRepSize, n - |ids|);
      NextTaken(free, n, i, ids);
      assert availableSegments[..][i] == availableSegments[i];
    }

    lemma SkipOne(i: nat, rest: nat, segments: seq<ContiguousShmSegment>, free: seq<bool>, ids: seq<nat>, n: nat, base: int)
      requires Uniform() && i < numInternalSegments && Taking(free, n, base, i, rest, segments, ids)
      requires !free[i] && |ids| < n
      ensures Taking(free, n, base, i + 1, rest, segments, ids)
    {
      NextTaken(free, n, i, ids);
    }

    method TakeNext(i: nat, rest: nat, segments: seq<ContiguousShmSegment>,
                    ghost free: seq<bool>, ghost ids: seq<nat>, ghost n: nat, ghost base: int)
      returns (rest': nat, segments': seq<ContiguousShmSegment>)
      requires Uniform() && i < numInternalSegments && Taking(free, n, base, i, rest, segments, ids)
      requires free[i] && |ids| < n
      modifies this`availableSize, availableSegments
      ensures Taking(free, n, base, i + 1, rest', segments', ids + [i])
    {
      NextTaken(free, n, i, ids);
      OneLess(internalRepSize, n, |ids|);
      rest', segments' := TakeOne(i, rest, segments, ids, base);
    }

    /** One round of the loop. */
    method TakeRound(i: nat, rest: nat, segments: seq<ContiguousShmSegment>,
                     ghost free: seq<bool>, ghost ids: seq<nat>, ghost n: nat, ghost base: int)
      returns (rest': nat, segments': seq<ContiguousShmSegment>, ghost ids': seq<nat>)
      requires Uniform() && i < numInternalSegments && 0 < rest && Taking(free, n, base, i, rest, segments, ids)
      modifies this`availableSize, availableSegments
      ensures Taking(free, n, base, i + 1, rest', segments', ids')
    {
      NotYetTaken(i, rest, segments, free, ids, n, base);
      if availableSegments[i] {
        ids' := ids + [i];
        rest', segments' := TakeNext(i, rest, segments, free, ids, n, base);
      } else {
        SkipOne(i, rest, segments, free, ids, n, base);
        rest', segments', ids' := rest, segments, ids;
      }
    }

    /** The loop of getShmSegment(size), up to the segment it stops at. */
    method TakeLoop(requestSize: nat, ghost free: seq<bool>, ghost n: nat, ghost base: int)
      returns (i: nat, rest: nat, retSegments: seq<ContiguousShmSegment>, ghost ids: seq<nat>)
      requires Uniform() && requestSize == Times(internalRepSize, n) && free == availableSegments[..]
      requires availableSize == base + requestSize
      modifies this`availableSize, availableSegments
      ensures Taking(free, n, base, i, rest, retSegments, ids)
      ensures i == numInternalSegments || rest == 0
    {
      ids := [];
      MarkNone(free, false);
      retSegments := [];
      rest := requestSize;
      i := 0;
      while i < numInternalSegments && rest > 0
        invariant i <= numInternalSegments && Taking(free, n, base, i, rest, retSegments, ids)
      {
        rest, retSegments, ids := TakeRound(i, rest, retSegments, free, ids, n, base);
        i := i + 1;
      }
    }

    /** Takes n free segments from the lowest up. */
    method TakeSegments(requestSize: nat, ghost n: nat) returns (retSegments: seq<ContiguousShmSegment>, ghost ids: seq<nat>)
      requires Uniform() && requestSize == Times(internalRepSize, n)
      requires |LowestFree(availableSegments[..], n, numInternalSegments)| == n
      modifies this`availableSize, availableSegments
      ensures ids == LowestFree(old(availableSegments[..]), n, numInternalSegments)
      ensures retSegments == Pick(ids)
      ensures availableSegments[..] == Mark(old(availableSegments[..]), ids, false)
      ensures availableSize == old(availableSize) - requestSize
    {
      ghost var free := availableSegments[..];
      var i, rest;
      i, rest, retSegments, ids := TakeLoop(requestSize, free, n, availableSize - requestSize);
      NoneWanted(internalRepSize, n - |ids|);
      if i < numInternalSegments {
        LowestFreeStops(free, n, i, numInternalSegments);
      }
    }

    method GetShmSegment(requestSize: nat) returns (r: GrantResult)
      requires Valid() && Accounted(AsPool())
      modifies this`availableSize, this`live, availableSegments
      ensures Valid()
      ensures r == Refused <==> requestSize % internalRepSize != 0
      ensures r.Granted? <==> CanGrant(old(AsPool()), requestSize)
      ensures AsPool() == if r.Granted? then Grant(old(AsPool()), requestSize) else old(AsPool())
      ensures r.Granted? ==>
                && fresh(r.segment) && r.segment.Valid() && r.segment.size == requestSize
                && r.segment.memories == Memories()
                && r.segment.shmSegments == Pick(Share(old(AsPool()), requestSize))
    {
      if requestSize % internalRepSize != 0 {
        return Refused;
      }
      if availableSize < requestSize {
        return Waiting;
      }
      ghost var ids;
      var retSegments;
      GrantTakesLowest(AsPool(), requestSize);
      WholeShare(AsPool(), requestSize);
      retSegments, ids := TakeSegments(requestSize, requestSize / internalRepSize);
      live := live + [ids];
      PickIsWellPlaced(ids);
      PickSize(ids, |ids|);
      var segment := new FragmentedShmSegment(retSegments, Memories());
      r := Granted(segment);
    }

    method ReleaseShmSegment(ids: seq<nat>, ghost g: nat)
      requires Valid() && Conserved(AsPool()) && g < |live| && ids == live[g]
      modifies this`availableSize, this`live, availableSegments
      ensures Valid()
      ensures AsPool() == Release(old(AsPool()), g)
    {
      assert forall k :: 0 <= k < |ids| ==> ids[k] < numInternalSegments;
      GiveBack(ids);
      live := live[..g] + live[g + 1..];
    }

    /** The loop of releaseShmSegment(ids). */
    method GiveBack(ids: seq<nat>)
      requires Uniform() && forall k :: 0 <= k < |ids| ==> ids[k] < numInternalSegments
      modifies this`availableSize, availableSegments
      ensures availableSegments[..] == Mark(old(availableSegments[..]), ids, true)
      ensures availableSize == old(availableSize) + Times(internalRepSize, |ids|)
    {
      ghost var free := availableSegments[..];
      for k := 0 to |ids|
        invariant forall j :: 0 <= j < |free| ==> availableSegments[j] == (free[j] || j in ids[..k])
        invariant availableSize == old(availableSize) + Times(internalRepSize, k)
      {
        availableSegments[ids[k]] := true;
        availableSize := availableSize + shmSegments[ids[k]].size;
        assert ids[..k + 1] == ids[..k] + [ids[k]];
      }
      assert ids[..|ids|] == ids;
      assert availableSegments[..] == Mark(free, ids, true);
    }

    // ---- the client's side ----

    /** Marks one more of the listed segments, which is free. */
    method MapOne(id: nat, segments: seq<ContiguousShmSegment>, ghost free: seq<bool>, ghost shmIds: seq<nat>, ghost mapped: nat)
      returns (segments': seq<ContiguousShmSegment>)
      requires Uniform() && forall k :: 0 <= k < |shmIds| ==> shmIds[k] < numInternalSegments
      requires mapped < |shmIds| && id == shmIds[mapped]
      requires availableSegments[..] == Mark(free, shmIds[..mapped], false) && segments == Pick(shmIds[..mapped])
      modifies availableSegments
      ensures availableSegments[..] == Mark(free, shmIds[..mapped + 1], false) && segments' == Pick(shmIds[..mapped + 1])
    {
      MarkOneMore(free, shmIds, mapped, false);
      availableSegments[id] := false;
      segments' := segments + [shmSegments[id]];
      assert shmIds[..mapped + 1][..mapped] == shmIds[..mapped];
    }

    lemma DistinctOneMore(ids: seq<nat>, k: nat)
      requires k < |ids| && Distinct(ids[..k]) && ids[k] !in ids[..k]
      ensures Distinct(ids[..k + 1])
    {
      forall i | 0 <= i < k
        ensures ids[i] != ids[k]
      {
        assert ids[i] == ids[..k][i];
      }
    }

    /** The loop of getShmSegment(ids): marks the segments up to the first that is not free. */
    method MapIds(shmIds: seq<nat>) returns (mapped: nat, retSegments: seq<ContiguousShmSegment>)
      requires Uniform() && forall k :: 0 <= k < |shmIds| ==> shmIds[k] < numInternalSegments
      modifies availableSegments
      ensures mapped <= |shmIds| && retSegments == Pick(shmIds[..mapped])
      ensures availableSegments[..] == Mark(old(availableSegments[..]), shmIds[..mapped], false)
      ensures Distinct(shmIds[..mapped]) && forall j :: 0 <= j < mapped ==> old(availableSegments[shmIds[j]])
      ensures mapped < |shmIds| ==> !old(availableSegments[shmIds[mapped]]) || shmIds[mapped] in shmIds[..mapped]
    {
      ghost var free := availableSegments[..];
      retSegments := [];
      mapped := 0;
      while mapped < |shmIds|
        invariant 0 <= mapped <= |shmIds|
        invariant Distinct(shmIds[..mapped]) && forall j :: 0 <= j < mapped ==> free[shmIds[j]]
        invariant availableSegments[..] == Mark(free, shmIds[..mapped], false) && retSegments == Pick(shmIds[..mapped])
      {
        var id := shmIds[mapped];
        assert availableSegments[id] == Mark(free, shmIds[..mapped], false)[id];
        if !availableSegments[id] {
          return;
        }
        DistinctOneMore(shmIds, mapped);
        retSegments := MapOne(id, retSegments, free, shmIds, mapped);
        mapped := mapped + 1;
      }
    }

    /** Builds the view a response names; `availableSize` is not touched, and a refusal keeps what was marked so far. */
    method GetShmSegmentView(shmIds: seq<nat>) returns (r: ViewResult)
      requires Valid() && forall k :: 0 <= k < |shmIds| ==> shmIds[k] < numInternalSegments
      modifies availableSegments
      ensures r.View? <==> Distinct(shmIds) && forall k :: 0 <= k < |shmIds| ==> old(availableSegments[shmIds[k]])
      ensures r.View? ==>
                && fresh(r.segment) && r.segment.Valid() && r.segment.memories == Memories()
                && r.segment.shmSegments == Pick(shmIds)
                && availableSegments[..] == Mark(old(availableSegments[..]), shmIds, false)
      ensures r.AlreadyAllocated? ==>
                exists k :: 0 <= k < |shmIds| && r.id == shmIds[k]
                            && (!old(availableSegments[shmIds[k]]) || shmIds[k] in shmIds[..k])
                            && availableSegments[..] == Mark(old(availableSegments[..]), shmIds[..k], false)
    {
      var mapped, retSegments := MapIds(shmIds);
      if mapped < |shmIds| {
        return AlreadyAllocated(shmIds[mapped]);
      }
      assert shmIds[..mapped] == shmIds;
      PickIsWellPlaced(shmIds);
      var segment := new FragmentedShmSegment(retSegments, Memories());
      r := View(segment);
    }
  }

  lemma NoneWanted(rep: nat, n: nat)
    requires 0 < rep
    ensures Times(rep, n) <= 0 <==> n == 0
  {
  }

  lemma OneLess(rep: nat, n: nat, k: nat)
    requires k < n
    ensures Times(rep, n - k) == Times(rep, n - (k + 1)) + rep
  {
  }

  lemma DivModAscend(i: nat, j: nat, per: nat)
    requires 0 < per && i < j
    ensures i / per <= j / per
    ensures i / per == j / per ==> j % per - i % per == j - i
  {
    var p, q := i / per, j / per;
    assert i == per * p + i % per && j == per * q + j % per;
    if q < p {
      MulOrder(per, q + 1, p);
      MulDistributes(per, q, 1);
    }
  }

  lemma OtherSlot(i: nat, j: nat, per: nat)
    requires 0 < per && i != j
    ensures i / per == j / per ==> i % per != j % per
  {
    DivModDistinguish(i, j, per);
  }

  /** What a round of the loop does to the segments taken so far. */
  lemma NextTaken(free: seq<bool>, n: nat, i: nat, ids: seq<nat>)
    requires i < |free| && ids == LowestFree(free, n, i) && |ids| < n
    ensures LowestFree(free, n, i + 1) == if free[i] then ids + [i] else ids
    ensures Mark(free, ids, false)[i] == free[i]
    ensures Mark(free, ids + [i], false) == Mark(free, ids, false)[i := false]
  {
  }

  /** The sizes the constructor computes. */
  lemma SegmentCount(segments: nat, size: nat, rep: nat, per: nat)
    requires 0 < rep <= size && size % rep == 0 && per == size / rep
    ensures 0 < per && size == Times(rep, per)
    ensures segments * size / rep == segments * per
    ensures segments * size == Times(rep, segments * per)
  {
    WholeQuotient(size, rep);
    TimesIsProduct(rep, per);
    TimesIsProduct(rep, segments * per);
    assert segments * (rep * per) == rep * (segments * per);
    DivModUnique(segments * size, rep, segments * per, 0);
  }
}
