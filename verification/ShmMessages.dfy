/** The length-prefixed messages that travel through a shared segment. */
module ShmMessages {
  import opened Bytes
  import opened SharedSegments

  /** Writes a `size_t` at the front of the segment: a chunk header, or the whole of ShmServerFileMessage::write. */
  method WriteSize(segment: FragmentedShmSegment, n: size_t) returns (ok: bool)
    requires segment.Valid()
    modifies segment.memories
    ensures ok <==> HEADER <= segment.size
    ensures segment.Flat() == if ok then Overwrite(old(segment.Flat()), EncodeSize(n), 0) else old(segment.Flat())
  {
    ok := segment.Write(EncodeSize(n), 0);
  }

  /** Reads the `size_t` at the front of the segment: ShmServerFileMessage::parse. */
  method ReadSize(segment: FragmentedShmSegment) returns (ok: bool, n: size_t)
    requires segment.Valid()
    ensures ok <==> HEADER <= segment.size
    ensures ok ==> n == DecodeSize(segment.Flat()[..HEADER])
  {
    var image := new byte[HEADER](_ => 0);
    ok := segment.Read(image, 0, HEADER, 0);
    n := DecodeSize(image[..]);
    if ok {
      assert image[..] == segment.Flat()[..HEADER];
    }
  }

  /** Copies the n payload bytes behind the header, unless they exceed the room left in the buffer. */
  method CopyBody(segment: FragmentedShmSegment, n: nat, dest: array<byte>, start: nat, bufferSize: nat) returns (ok: bool)
    requires segment.Valid() && dest !in segment.memories && start + bufferSize == dest.Length
    modifies dest
    ensures ok <==> n <= bufferSize && HEADER + n <= segment.size
    ensures dest[..] == if ok then Overwrite(old(dest[..]), segment.Flat()[HEADER..HEADER + n], start)
                        else old(dest[..])
  {
    ok := n <= bufferSize;
    if ok {
      ok := segment.Read(dest, start, n, HEADER);
    }
  }

  /** ShmClientDataMessage and ShmServerDataMessage, which are the same but for their names. */
  class ShmDataMessage {
    const shmSegment: FragmentedShmSegment
    const data: seq<byte>
    /** False for a message built to be parsed: its data pointer is null. */
    const hasData: bool
    var dataSize: size_t

    constructor ToSend(shmSegment: FragmentedShmSegment, data: seq<byte>)
      requires |data| < SIZE_LIMIT
      ensures this.shmSegment == shmSegment && this.data == data && hasData && dataSize == |data|
    {
      this.shmSegment := shmSegment;
      this.data := data;
      hasData := true;
      dataSize := |data|;
    }

    constructor ToParse(shmSegment: FragmentedShmSegment)
      ensures this.shmSegment == shmSegment && !hasData && dataSize == 0
    {
      this.shmSegment := shmSegment;
      data := [];
      hasData := false;
      dataSize := 0;
    }

    /** The first half of write. */
    method WriteHeader() returns (ok: bool)
      requires shmSegment.Valid()
      modifies shmSegment.memories
      ensures ok <==> hasData && HEADER <= shmSegment.size
      ensures shmSegment.Flat()
           == if ok then Overwrite(old(shmSegment.Flat()), EncodeSize(dataSize), 0) else old(shmSegment.Flat())
    {
      ok := hasData;
      if ok {
        ok := WriteSize(shmSegment, dataSize);
      }
    }

    /** The second half of write. */
    method WriteBody() returns (ok: bool)
      requires shmSegment.Valid()
      modifies shmSegment.memories
      ensures ok <==> HEADER + |data| <= shmSegment.size
      ensures shmSegment.Flat()
           == if ok then Overwrite(old(shmSegment.Flat()), data, HEADER) else old(shmSegment.Flat())
    {
      ok := shmSegment.Write(data, HEADER);
    }

    /** A message that does not fit leaves its header behind when the header alone fits. */
    method Write() returns (ok: bool)
      requires shmSegment.Valid() && (hasData ==> dataSize == |data|)
      modifies shmSegment.memories
      ensures ok <==> hasData && HEADER + |data| <= shmSegment.size
      ensures shmSegment.Flat()
           == if ok then Overwrite(Overwrite(old(shmSegment.Flat()), EncodeSize(|data|), 0), data, HEADER)
              else if hasData && HEADER <= shmSegment.size then Overwrite(old(shmSegment.Flat()), EncodeSize(|data|), 0)
              else old(shmSegment.Flat())
    {
      ok := WriteHeader();
      if ok {
        ok := WriteBody();
      }
    }

    method Parse() returns (ok: bool)
      requires shmSegment.Valid()
      modifies this
      ensures ok <==> HEADER <= shmSegment.size
      ensures dataSize == if ok then DecodeSize(shmSegment.Flat()[..HEADER]) else old(dataSize)
    {
      var n;
      ok, n := ReadSize(shmSegment);
      if ok {
        dataSize := n;
      }
    }

    method CopyData(dest: array<byte>, start: nat, bufferSize: nat) returns (ok: bool)
      requires shmSegment.Valid() && dest !in shmSegment.memories && start + bufferSize == dest.Length
      modifies dest
      ensures ok <==> dataSize <= bufferSize && HEADER + dataSize <= shmSegment.size
      ensures dest[..] == if ok then Overwrite(old(dest[..]), shmSegment.Flat()[HEADER..HEADER + dataSize], start)
                          else old(dest[..])
    {
      ok := CopyBody(shmSegment, dataSize, dest, start, bufferSize);
    }
  }

  /** A header and a payload written one after the other can both be read back. */
  lemma WrittenMessage(flat: seq<byte>, data: seq<byte>)
    requires |data| < SIZE_LIMIT && HEADER + |data| <= |flat|
    ensures var flat' := Overwrite(Overwrite(flat, EncodeSize(|data|), 0), data, HEADER);
            DecodeSize(flat'[..HEADER]) == |data| && flat'[HEADER..HEADER + |data|] == data
  {
    var flat' := Overwrite(Overwrite(flat, EncodeSize(|data|), 0), data, HEADER);
    assert flat'[..HEADER] == EncodeSize(|data|);
    SizeRoundTrip(|data|);
  }
}
