/** Sub-segments of mapped shared memory, and the segment that scatters one flat buffer over them. */
module SharedSegments {
  import opened Bytes

  /** A range of one mapping; `addr` is an offset into `memory`. */
  class ContiguousShmSegment {
    const id: int
    const memory: array<byte>
    const addr: nat
    const size: nat

    constructor (id: int, memory: array<byte>, addr: nat, size: nat)
      ensures this.id == id && this.memory == memory && this.addr == addr && this.size == size
    {
      this.id := id;
      this.memory := memory;
      this.addr := addr;
      this.size := size;
    }

    ghost predicate Valid() {
      addr + size <= memory.Length
    }

    ghost predicate Covers(m: array<byte>, p: int) {
      m == memory && addr <= p < addr + size
    }

    ghost predicate DisjointFrom(other: ContiguousShmSegment) {
      memory != other.memory || addr + size <= other.addr || other.addr + other.size <= addr
    }

    ghost function Bytes(): (bytes: seq<byte>)
      requires Valid()
      reads memory
      ensures |bytes| == size
      ensures forall q :: 0 <= q < size ==> bytes[q] == memory[addr + q]
    {
      seq(size, q requires 0 <= q < size reads memory => memory[addr + q])
    }

    method Write(data: seq<byte>, offset: nat) returns (ok: bool)
      requires Valid()
      modifies memory
      ensures ok <==> offset + |data| <= size
      ensures Bytes() == if ok then Overwrite(old(Bytes()), data, offset) else old(Bytes())
      ensures forall p :: 0 <= p < memory.Length && !Covers(memory, p) ==> memory[p] == old(memory[p])
    {
      ok := offset + |data| <= size;
      if ok {
        forall i | 0 <= i < |data| {
          memory[addr + offset + i] := data[i];
        }
        assert Bytes() == Overwrite(old(Bytes()), data, offset);
      }
    }

    method Read(dest: array<byte>, start: nat, dataSize: nat, offset: nat) returns (ok: bool)
      requires Valid() && dest != memory && start + dataSize <= dest.Length
      modifies dest
      ensures ok <==> offset + dataSize <= size
      ensures dest[..] == if ok then Overwrite(old(dest[..]), Bytes()[offset..offset + dataSize], start)
                          else old(dest[..])
    {
      ok := offset + dataSize <= size;
      if ok {
        forall i | 0 <= i < dataSize {
          dest[start + i] := memory[addr + offset + i];
        }
        ghost var copied := Bytes()[offset..offset + dataSize];
        assert forall i :: 0 <= i < dataSize ==> dest[start + i] == copied[i];
        assert dest[..] == Overwrite(old(dest[..]), copied, start);
      }
    }
  }

  // ---- a flat buffer cut into consecutive parts ----

  /** Where part k starts. */
  function Position(parts: seq<seq<byte>>, k: nat): (position: nat)
    requires k <= |parts|
  {
    if k == 0 then 0 else Position(parts, k - 1) + |parts[k - 1]|
  }

  /** The first k parts, one after the other. */
  function Concat(parts: seq<seq<byte>>, k: nat): (flat: seq<byte>)
    requires k <= |parts|
    ensures |flat| == Position(parts, k)
  {
    if k == 0 then [] else Concat(parts, k - 1) + parts[k - 1]
  }

  lemma {:induction false} PartIsSlice(parts: seq<seq<byte>>, i: nat, k: nat)
    requires i < k <= |parts|
    ensures Position(parts, i) + |parts[i]| <= Position(parts, k)
    ensures forall q :: 0 <= q < |parts[i]| ==> Concat(parts, k)[Position(parts, i) + q] == parts[i][q]
  {
    if i == k - 1 {
    } else {
      PartIsSlice(parts, i, k - 1);
    }
  }

  lemma OverwriteInFront(front: seq<byte>, part: seq<byte>, data: seq<byte>, start: nat)
    requires start + |data| <= |front|
    ensures Overwrite(front, data, start) + part == Overwrite(front + part, data, start)
  {
  }

  lemma OverwriteInLast(front: seq<byte>, part: seq<byte>, data: seq<byte>, skip: nat)
    requires skip + |data| <= |part|
    ensures front + Overwrite(part, data, skip) == Overwrite(front + part, data, |front| + skip)
  {
  }

  /** Overwriting inside one part overwrites the flat buffer at the matching position. */
  lemma {:induction false} OverwritePart(parts: seq<seq<byte>>, i: nat, data: seq<byte>, skip: nat, k: nat)
    requires i < |parts| && skip + |data| <= |parts[i]| && k <= |parts|
    ensures var parts' := parts[i := Overwrite(parts[i], data, skip)];
            Position(parts', k) == Position(parts, k)
    ensures var parts' := parts[i := Overwrite(parts[i], data, skip)];
            if k <= i then Concat(parts', k) == Concat(parts, k)
            else
              Position(parts, i) + |parts[i]| <= Position(parts, k) &&
              Concat(parts', k) == Overwrite(Concat(parts, k), data, Position(parts, i) + skip)
  {
    if k == 0 {
    } else {
      OverwritePart(parts, i, data, skip, k - 1);
      var front := Concat(parts, k - 1);
      if k - 1 == i {
        OverwriteInLast(front, parts[i], data, skip);
      } else if i < k - 1 {
        OverwriteInFront(front, parts[k - 1], data, Position(parts, i) + skip);
      }
    }
  }

  /** Two adjacent writes make one. */
  lemma OverwriteTwice(flat: seq<byte>, data: seq<byte>, start: nat, done: nat, n: nat)
    requires start + |data| <= |flat| && done + n <= |data|
    ensures Overwrite(Overwrite(flat, data[..done], start), data[done..done + n], start + done)
         == Overwrite(flat, data[..done + n], start)
  {
    assert data[..done + n] == data[..done] + data[done..done + n];
  }

  // ---- lists of sub-segments ----

  /** Sub-segments of these mappings that do not overlap. */
  ghost predicate WellPlaced(segments: seq<ContiguousShmSegment>, memories: set<array<byte>>) {
    && (forall i :: 0 <= i < |segments| ==> segments[i].Valid() && segments[i].memory in memories)
    && (forall i, j {:trigger segments[i].DisjointFrom(segments[j])} ::
          0 <= i < j < |segments| ==> segments[i].DisjointFrom(segments[j]))
  }

  ghost function Parts(segments: seq<ContiguousShmSegment>, memories: set<array<byte>>): (parts: seq<seq<byte>>)
    requires WellPlaced(segments, memories)
    reads memories
    ensures |parts| == |segments|
    ensures forall i :: 0 <= i < |segments| ==> |parts[i]| == segments[i].size
  {
    seq(|segments|, i requires 0 <= i < |segments| reads memories => segments[i].Bytes())
  }

  /** Sum of the sizes of the first k sub-segments. */
  function Base(segments: seq<ContiguousShmSegment>, k: nat): (base: nat)
    requires k <= |segments|
  {
    if k == 0 then 0 else Base(segments, k - 1) + segments[k - 1].size
  }

  lemma {:induction false} BaseIsPosition(segments: seq<ContiguousShmSegment>, parts: seq<seq<byte>>, k: nat)
    requires |parts| == |segments| && k <= |segments|
    requires forall i :: 0 <= i < |segments| ==> |parts[i]| == segments[i].size
    ensures Position(parts, k) == Base(segments, k)
  {
    if k == 0 {
    } else {
      BaseIsPosition(segments, parts, k - 1);
    }
  }

  lemma OverwriteAtBase(segments: seq<ContiguousShmSegment>, before: seq<seq<byte>>, i: nat, data: seq<byte>, skip: nat)
    requires |before| == |segments| && i < |segments|
    requires forall k :: 0 <= k < |segments| ==> |before[k]| == segments[k].size
    requires skip + |data| <= segments[i].size
    ensures Base(segments, i) + segments[i].size <= Base(segments, |segments|) == |Concat(before, |before|)|
    ensures Concat(before[i := Overwrite(before[i], data, skip)], |before|)
         == Overwrite(Concat(before, |before|), data, Base(segments, i) + skip)
  {
    OverwritePart(before, i, data, skip, |before|);
    BaseIsPosition(segments, before, i);
    BaseIsPosition(segments, before, |segments|);
  }

  /** A window of sub-segment i is a window of the flat buffer. */
  lemma WindowAtBase(segments: seq<ContiguousShmSegment>, parts: seq<seq<byte>>, i: nat, skip: nat, length: nat)
    requires |parts| == |segments| && i < |segments|
    requires forall k :: 0 <= k < |segments| ==> |parts[k]| == segments[k].size
    requires skip + length <= segments[i].size
    ensures Base(segments, i) + segments[i].size <= Base(segments, |segments|) == |Concat(parts, |parts|)|
    ensures parts[i][skip..skip + length] == Concat(parts, |parts|)[Base(segments, i) + skip..Base(segments, i) + skip + length]
  {
    PartIsSlice(parts, i, |parts|);
    BaseIsPosition(segments, parts, i);
    BaseIsPosition(segments, parts, |segments|);
    var part, flat, base := parts[i], Concat(parts, |parts|), Base(segments, i);
    assert forall q :: 0 <= q < |part| ==> flat[base + q] == part[q];
    assert part == flat[base..base + |part|];
    assert part[skip..skip + length] == flat[base + skip..base + skip + length];
  }

  /** One round of the writing loop: data[done..done + n] goes to sub-segment i. */
  lemma ScatterStep(segments: seq<ContiguousShmSegment>, parts: seq<seq<byte>>, flat: seq<byte>, data: seq<byte>,
                    start: nat, i: nat, skip: nat, done: nat, n: nat)
    requires |parts| == |segments| && i < |segments|
    requires forall k :: 0 <= k < |segments| ==> |parts[k]| == segments[k].size
    requires start + |data| <= |flat| && done + n <= |data|
    requires skip + n <= segments[i].size && Base(segments, i) + skip == start + done
    requires Concat(parts, |parts|) == Overwrite(flat, data[..done], start)
    ensures Concat(parts[i := Overwrite(parts[i], data[done..done + n], skip)], |parts|) == Overwrite(flat, data[..done + n], start)
  {
    OverwriteAtBase(segments, parts, i, data[done..done + n], skip);
    OverwriteTwice(flat, data, start, done, n);
  }

  lemma SliceOfSlice(flat: seq<byte>, start: nat, length: nat, from: nat, n: nat)
    requires start + length <= |flat| && from + n <= length
    ensures flat[start..start + length][from..from + n] == flat[start + from..start + from + n]
  {
    var a, b := flat[start..start + length][from..from + n], flat[start + from..start + from + n];
    assert |a| == |b|;
    assert forall i :: 0 <= i < n ==> a[i] == b[i];
  }

  /** One round of the reading loop: sub-segment i supplies the next n bytes wanted. */
  lemma GatherStep(segments: seq<ContiguousShmSegment>, parts: seq<seq<byte>>, buffer: seq<byte>, destStart: nat,
                   start: nat, length: nat, i: nat, skip: nat, done: nat, n: nat)
    requires |parts| == |segments| && i < |segments|
    requires forall k :: 0 <= k < |segments| ==> |parts[k]| == segments[k].size
    requires start + length <= |Concat(parts, |parts|)| && destStart + length <= |buffer| && done + n <= length
    requires skip + n <= segments[i].size && Base(segments, i) + skip == start + done
    ensures var wanted := Concat(parts, |parts|)[start..start + length];
            Overwrite(Overwrite(buffer, wanted[..done], destStart), parts[i][skip..skip + n], destStart + done)
            == Overwrite(buffer, wanted[..done + n], destStart)
  {
    var wanted := Concat(parts, |parts|)[start..start + length];
    WindowAtBase(segments, parts, i, skip, n);
    SliceOfSlice(Concat(parts, |parts|), start, length, done, n);
    OverwriteTwice(buffer, wanted, destStart, done, n);
  }

  /** The flat buffer the first k sub-segments stand for: their bytes, one after the other. */
  ghost function FlattenTo(segments: seq<ContiguousShmSegment>, memories: set<array<byte>>, k: nat): (flat: seq<byte>)
    requires WellPlaced(segments, memories) && k <= |segments|
    reads memories
    ensures |flat| == Base(segments, k)
  {
    if k == 0 then [] else FlattenTo(segments, memories, k - 1) + segments[k - 1].Bytes()
  }

  lemma {:induction false} FlattenIsConcat(segments: seq<ContiguousShmSegment>, memories: set<array<byte>>, k: nat)
    requires WellPlaced(segments, memories) && k <= |segments|
    ensures FlattenTo(segments, memories, k) == Concat(Parts(segments, memories), k)
  {
    if k == 0 {
    } else {
      FlattenIsConcat(segments, memories, k - 1);
    }
  }

  /** The whole flat buffer. */
  ghost function Flatten(segments: seq<ContiguousShmSegment>, memories: set<array<byte>>): (flat: seq<byte>)
    requires WellPlaced(segments, memories)
    reads memories
    ensures |flat| == Base(segments, |segments|)
  {
    FlattenTo(segments, memories, |segments|)
  }

  class FragmentedShmSegment {
    const shmSegments: seq<ContiguousShmSegment>
    ghost const memories: set<array<byte>>
    var size: nat

    ghost predicate Valid()
      reads this
    {
      size == Base(shmSegments, |shmSegments|) && WellPlaced(shmSegments, memories)
    }

    ghost predicate Covers(m: array<byte>, p: int) {
      exists k :: 0 <= k < |shmSegments| && shmSegments[k].Covers(m, p)
    }

    /** What the segment looks like to its users: one buffer of `size` bytes. */
    ghost function Flat(): (flat: seq<byte>)
      requires Valid()
      reads this, memories
      ensures |flat| == size
    {
      Flatten(shmSegments, memories)
    }

    /** Byte q of part i stands behind the parts before it. */
    lemma FlatByte(i: nat, q: nat)
      requires Valid() && i < |shmSegments| && q < shmSegments[i].size
      ensures Base(shmSegments, i) + q < size
      ensures Flat()[Base(shmSegments, i) + q] == shmSegments[i].memory[shmSegments[i].addr + q]
    {
      var parts := Parts(shmSegments, memories);
      FlattenIsConcat(shmSegments, memories, |shmSegments|);
      PartIsSlice(parts, i, |parts|);
      BaseIsPosition(shmSegments, parts, i);
      BaseIsPosition(shmSegments, parts, |parts|);
      assert Flat() == Concat(parts, |parts|);
      assert Flat()[Position(parts, i) + q] == parts[i][q];
      assert parts[i][q] == shmSegments[i].Bytes()[q];
    }

    constructor (segments: seq<ContiguousShmSegment>, ghost memories: set<array<byte>>)
      requires WellPlaced(segments, memories)
      ensures Valid() && shmSegments == segments && this.memories == memories
    {
      shmSegments := segments;
      this.memories := memories;
      size := 0;
      new;
      for i := 0 to |segments|
        invariant size == Base(segments, i)
      {
        size := size + segments[i].size;
      }
    }

    /** What the loops below have got to when they enter sub-segment i. */
    ghost predicate At(i: nat, start: nat, length: nat, offset: int, done: int)
      requires i <= |shmSegments|
    {
      var base := Base(shmSegments, i);
      if base <= start then offset == start - base && done == 0
      else offset == 0 && done == Min(base - start, length)
    }

    /** The delegated access; `skip + n` never exceeds the sub-segment, so it cannot throw. */
    method WritePart(ghost flat: seq<byte>, data: seq<byte>, ghost start: nat, i: nat, skip: nat, done: nat, n: nat)
      requires Valid() && i < |shmSegments| && skip + n <= shmSegments[i].size && done + n <= |data|
      requires |flat| == size && start + |data| <= size && Base(shmSegments, i) + skip == start + done
      requires Flat() == Overwrite(flat, data[..done], start)
      modifies memories
      ensures Flat() == Overwrite(flat, data[..done + n], start)
      ensures forall m, p :: m in memories && 0 <= p < m.Length && !Covers(m, p) ==> m[p] == old(m[p])
    {
      ghost var parts := Parts(shmSegments, memories);
      FlattenIsConcat(shmSegments, memories, |shmSegments|);
      var chunk := data[done..done + n];
      var ok := shmSegments[i].Write(chunk, skip);
      assert ok;
      forall k | 0 <= k < |shmSegments| && k != i
        ensures shmSegments[k].Bytes() == old(shmSegments[k].Bytes())
      {
        assert if k < i then shmSegments[k].DisjointFrom(shmSegments[i]) else shmSegments[i].DisjointFrom(shmSegments[k]);
      }
      ScatterStep(shmSegments, parts, flat, data, start, i, skip, done, n);
      assert Parts(shmSegments, memories) == parts[i := Overwrite(parts[i], chunk, skip)];
      FlattenIsConcat(shmSegments, memories, |shmSegments|);
    }

    /** One round of the writing loop, over sub-segment i. */
    method WriteRound(ghost flat: seq<byte>, data: seq<byte>, ghost start: nat, i: nat,
                      offset0: nat, dataSize0: nat, dataOffset0: nat)
      returns (offset: nat, dataSize: nat, dataOffset: nat)
      requires Valid() && i < |shmSegments| && dataSize0 != 0 && dataOffset0 + dataSize0 == |data|
      requires |flat| == size && start + |data| <= size && At(i, start, |data|, offset0, dataOffset0)
      requires Flat() == Overwrite(flat, data[..dataOffset0], start)
      modifies memories
      ensures dataOffset + dataSize == |data| && At(i + 1, start, |data|, offset, dataOffset)
      ensures Flat() == Overwrite(flat, data[..dataOffset], start)
      ensures forall m, p :: m in memories && 0 <= p < m.Length && !Covers(m, p) ==> m[p] == old(m[p])
    {
      offset, dataSize, dataOffset := offset0, dataSize0, dataOffset0;
      var segment := shmSegments[i];
      if offset >= segment.size {
        offset := offset - segment.size;
      } else if offset > 0 {
        var writeSize := Min(segment.size - offset, dataSize);
        WritePart(flat, data, start, i, offset, dataOffset, writeSize);
        dataSize := dataSize - writeSize;
        dataOffset := dataOffset + writeSize;
        offset := 0;
      } else {
        var writeSize := Min(segment.size, dataSize);
        WritePart(flat, data, start, i, 0, dataOffset, writeSize);
        dataSize := dataSize - writeSize;
        dataOffset := dataOffset + writeSize;
      }
    }

    method Write(data: seq<byte>, start: nat) returns (ok: bool)
      requires Valid()
      modifies memories
      ensures ok <==> start + |data| <= size
      ensures Flat() == if ok then Overwrite(old(Flat()), data, start) else old(Flat())
      ensures forall m, p :: m in memories && 0 <= p < m.Length && !Covers(m, p) ==> m[p] == old(m[p])
    {
      ok := start + |data| <= size;
      if ok {
        ghost var flat := Flat();
        var offset, dataSize, dataOffset, i := start, |data|, 0, 0;
        while i < |shmSegments| && dataSize != 0
          invariant 0 <= i <= |shmSegments| && 0 <= offset
          invariant 0 <= dataOffset && 0 <= dataSize && dataOffset + dataSize == |data|
          invariant At(i, start, |data|, offset, dataOffset)
          invariant Flat() == Overwrite(flat, data[..dataOffset], start)
          invariant forall m, p :: m in memories && 0 <= p < m.Length && !Covers(m, p) ==> m[p] == old(m[p])
        {
          offset, dataSize, dataOffset := WriteRound(flat, data, start, i, offset, dataSize, dataOffset);
          i := i + 1;
        }
        assert data[..dataOffset] == data;
      }
    }

    /** What the next n bytes of sub-segment i add to the part of the buffer already read. */
    lemma PartRead(buffer: seq<byte>, destStart: nat, start: nat, length: nat, i: nat, skip: nat, done: nat, n: nat)
      requires Valid() && i < |shmSegments| && skip + n <= shmSegments[i].size && done + n <= length
      requires destStart + length <= |buffer| && start + length <= size && Base(shmSegments, i) + skip == start + done
      ensures var wanted := Flat()[start..start + length];
              Overwrite(Overwrite(buffer, wanted[..done], destStart), shmSegments[i].Bytes()[skip..skip + n], destStart + done)
              == Overwrite(buffer, wanted[..done + n], destStart)
    {
      var parts := Parts(shmSegments, memories);
      FlattenIsConcat(shmSegments, memories, |shmSegments|);
      GatherStep(shmSegments, parts, buffer, destStart, start, length, i, skip, done, n);
    }

    method ReadPart(ghost buffer: seq<byte>, dest: array<byte>, destStart: nat, ghost start: nat, ghost length: nat,
                    i: nat, skip: nat, done: nat, n: nat)
      requires Valid() && i < |shmSegments| && skip + n <= shmSegments[i].size && done + n <= length
      requires dest !in memories && destStart + length <= dest.Length == |buffer|
      requires start + length <= size && Base(shmSegments, i) + skip == start + done
      requires dest[..] == Overwrite(buffer, Flat()[start..start + length][..done], destStart)
      modifies dest
      ensures dest[..] == Overwrite(buffer, Flat()[start..start + length][..done + n], destStart)
    {
      ghost var flat, piece := Flat(), shmSegments[i].Bytes()[skip..skip + n];
      PartRead(buffer, destStart, start, length, i, skip, done, n);
      var ok := shmSegments[i].Read(dest, destStart + done, n, skip);
      assert dest[..] == Overwrite(old(dest[..]), piece, destStart + done);
      assert Flat() == flat;
    }

    /** One round of the reading loop, over sub-segment i. */
    method ReadRound(ghost buffer: seq<byte>, dest: array<byte>, destStart: nat, ghost start: nat, ghost length: nat,
                     i: nat, offset0: nat, dataSize0: nat, dataOffset0: nat)
      returns (offset: nat, dataSize: nat, dataOffset: nat)
      requires Valid() && i < |shmSegments| && dataSize0 != 0 && dataOffset0 + dataSize0 == length
      requires dest !in memories && destStart + length <= dest.Length == |buffer|
      requires start + length <= size && At(i, start, length, offset0, dataOffset0)
      requires dest[..] == Overwrite(buffer, Flat()[start..start + length][..dataOffset0], destStart)
      modifies dest
      ensures dataOffset + dataSize == length && At(i + 1, start, length, offset, dataOffset)
      ensures dest[..] == Overwrite(buffer, Flat()[start..start + length][..dataOffset], destStart)
    {
      offset, dataSize, dataOffset := offset0, dataSize0, dataOffset0;
      var segment := shmSegments[i];
      if offset >= segment.size {
        offset := offset - segment.size;
      } else if offset > 0 {
        var readSize := Min(segment.size - offset, dataSize);
        ReadPart(buffer, dest, destStart, start, length, i, offset, dataOffset, readSize);
        dataSize := dataSize - readSize;
        dataOffset := dataOffset + readSize;
        offset := 0;
      } else {
        var readSize := Min(segment.size, dataSize);
        ReadPart(buffer, dest, destStart, start, length, i, 0, dataOffset, readSize);
        dataSize := dataSize - readSize;
        dataOffset := dataOffset + readSize;
      }
    }

    method Read(dest: array<byte>, destStart: nat, length: nat, start: nat) returns (ok: bool)
      requires Valid() && dest !in memories && destStart + length <= dest.Length
      modifies dest
      ensures ok <==> start + length <= size
      ensures dest[..] == if ok then Overwrite(old(dest[..]), Flat()[start..start + length], destStart)
                          else old(dest[..])
    {
      ok := start + length <= size;
      if ok {
        ghost var buffer := dest[..];
        var offset, dataSize, dataOffset, i := start, length, 0, 0;
        while i < |shmSegments| && dataSize != 0
          invariant 0 <= i <= |shmSegments| && 0 <= offset
          invariant 0 <= dataOffset && 0 <= dataSize && dataOffset + dataSize == length
          invariant At(i, start, length, offset, dataOffset)
          invariant dest[..] == Overwrite(buffer, Flat()[start..start + length][..dataOffset], destStart)
        {
          offset, dataSize, dataOffset :=
            ReadRound(buffer, dest, destStart, start, length, i, offset, dataSize, dataOffset);
          i := i + 1;
        }
        assert Flat()[start..start + length][..dataOffset] == Flat()[start..start + length];
      }
    }

    method GetSegmentIds() returns (ids: seq<int>)
      requires Valid()
      ensures |ids| == |shmSegments| && forall i :: 0 <= i < |ids| ==> ids[i] == shmSegments[i].id
    {
      ids := [];
      for i := 0 to |shmSegments|
        invariant |ids| == i && forall k :: 0 <= k < i ==> ids[k] == shmSegments[k].id
      {
        ids := ids + [shmSegments[i].id];
      }
    }
  }

  /** Two segments cut the same memory in the same places. */
  ghost predicate SamePlaces(a: FragmentedShmSegment, b: FragmentedShmSegment)
    reads a`size, b`size
  {
    && a.size == b.size && |a.shmSegments| == |b.shmSegments|
    && forall k :: 0 <= k < |a.shmSegments| ==>
                     && a.shmSegments[k].memory == b.shmSegments[k].memory
                     && a.shmSegments[k].addr == b.shmSegments[k].addr
                     && a.shmSegments[k].size == b.shmSegments[k].size
  }

  lemma SamePlacesSameBytes(a: FragmentedShmSegment, b: FragmentedShmSegment)
    requires a.Valid() && b.Valid() && SamePlaces(a, b)
    ensures a.Flat() == b.Flat()
  {
    var mine, theirs := Parts(a.shmSegments, a.memories), Parts(b.shmSegments, b.memories);
    forall k | 0 <= k < |a.shmSegments|
      ensures mine[k] == theirs[k]
    {
      assert a.shmSegments[k].Bytes() == b.shmSegments[k].Bytes();
    }
    assert mine == theirs;
    FlattenIsConcat(a.shmSegments, a.memories, |a.shmSegments|);
    FlattenIsConcat(b.shmSegments, b.memories, |b.shmSegments|);
  }
}
