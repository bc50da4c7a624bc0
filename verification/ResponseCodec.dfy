/** The response message that names a grant: wire image, encoder and decoder. */
module ResponseCodec {
  import opened Bytes

  /** MQServerMessageType::RESPONSE. */
  const RESPONSE: int32 := 1
  /** CLIENT_MSG_SIZE, the room in a message-queue slot. */
  const CLIENT_MSG_SIZE := 6144

  datatype Message = Message(requestId: int32, shmSegmentIds: seq<int32>)

  function ContentSize(m: Message): (size: nat) {
    4 + 4 + HEADER + 4 * |m.shmSegmentIds|
  }

  function IdsImage(ids: seq<int32>): (image: seq<byte>)
    ensures |image| == 4 * |ids|
  {
    if ids == [] then [] else IdsImage(ids[..|ids| - 1]) + EncodeInt(ids[|ids| - 1])
  }

  function Image(m: Message): (image: seq<byte>)
    requires |m.shmSegmentIds| < SIZE_LIMIT
    ensures |image| == ContentSize(m)
  {
    EncodeInt(RESPONSE) + EncodeInt(m.requestId) + EncodeSize(|m.shmSegmentIds|) + IdsImage(m.shmSegmentIds)
  }

  /** The buffer is long enough for the ids it announces; the decoder does not check this. */
  predicate Readable(buffer: seq<byte>) {
    16 <= |buffer| && 16 + 4 * DecodeSize(buffer[8..16]) <= |buffer|
  }

  function DecodeIds(image: seq<byte>, n: nat): (ids: seq<int32>)
    requires 4 * n <= |image|
    ensures |ids| == n
  {
    if n == 0 then [] else DecodeIds(image, n - 1) + [DecodeInt(image[4 * n - 4..4 * n])]
  }

  function Decode(buffer: seq<byte>): (m: Message)
    requires Readable(buffer)
  {
    Message(DecodeInt(buffer[4..8]), DecodeIds(buffer[16..], DecodeSize(buffer[8..16])))
  }

  lemma {:induction false} IdsRoundTrip(ids: seq<int32>, rest: seq<byte>)
    ensures DecodeIds(IdsImage(ids) + rest, |ids|) == ids
  {
    if ids == [] {
    } else {
      var n := |ids|;
      var head := IdsImage(ids[..n - 1]);
      IdsRoundTrip(ids[..n - 1], EncodeInt(ids[n - 1]) + rest);
      assert IdsImage(ids) + rest == head + (EncodeInt(ids[n - 1]) + rest);
      assert (IdsImage(ids) + rest)[4 * n - 4..4 * n] == EncodeInt(ids[n - 1]);
      IntRoundTrip(ids[n - 1]);
    }
  }

  /** Whatever follows the image in the receiver's buffer, the message comes back as it was sent. */
  lemma ResponseRoundTrip(m: Message, rest: seq<byte>)
    requires |m.shmSegmentIds| < SIZE_LIMIT
    ensures Readable(Image(m) + rest) && Decode(Image(m) + rest) == m
  {
    var buffer := Image(m) + rest;
    assert buffer[4..8] == EncodeInt(m.requestId);
    assert buffer[8..16] == EncodeSize(|m.shmSegmentIds|);
    assert buffer[16..] == IdsImage(m.shmSegmentIds) + rest;
    IntRoundTrip(m.requestId);
    SizeRoundTrip(|m.shmSegmentIds|);
    IdsRoundTrip(m.shmSegmentIds, rest);
  }

  lemma {:induction false} IdsImageRoundTrip(image: seq<byte>, n: nat)
    requires 4 * n <= |image|
    ensures IdsImage(DecodeIds(image, n)) == image[..4 * n]
  {
    if n == 0 {
    } else {
      IdsImageRoundTrip(image, n - 1);
      IntImageRoundTrip(image[4 * n - 4..4 * n]);
      var ids := DecodeIds(image, n);
      assert ids[..n - 1] == DecodeIds(image, n - 1);
      assert image[..4 * n] == image[..4 * n - 4] + image[4 * n - 4..4 * n];
    }
  }

  lemma Slices(buffer: seq<byte>, n: nat)
    requires 16 <= n <= |buffer|
    ensures buffer[4..n] == buffer[4..8] + buffer[8..16] + buffer[16..][..n - 16]
  {
  }

  lemma Glue(a: seq<byte>, b: seq<byte>, c: seq<byte>, d: seq<byte>)
    ensures a + b + c + d == a + (b + c + d)
  {
  }

  /** The decoder loses nothing but the type field, which it ignores. */
  lemma BufferRoundTrip(buffer: seq<byte>)
    requires Readable(buffer)
    ensures var m := Decode(buffer);
            |m.shmSegmentIds| < SIZE_LIMIT && Image(m) == EncodeInt(RESPONSE) + buffer[4..ContentSize(m)]
  {
    var n: nat := DecodeSize(buffer[8..16]);
    IntImageRoundTrip(buffer[4..8]);
    SizeImageRoundTrip(buffer[8..16]);
    IdsImageRoundTrip(buffer[16..], n);
    Slices(buffer, 16 + 4 * n);
    Glue(EncodeInt(RESPONSE), buffer[4..8], buffer[8..16], buffer[16..][..4 * n]);
  }

  lemma {:induction false} IdStands(ids: seq<int32>, j: nat)
    requires j < |ids|
    ensures IdsImage(ids)[4 * j..4 * j + 4] == EncodeInt(ids[j])
  {
    var n := |ids| - 1;
    if j == n {
    } else {
      IdStands(ids[..n], j);
      assert IdsImage(ids)[4 * j..4 * j + 4] == IdsImage(ids[..n])[4 * j..4 * j + 4];
    }
  }

  lemma SliceOfTail(buffer: seq<byte>, i: nat)
    requires 16 + 4 * i + 4 <= |buffer|
    ensures buffer[16..][4 * i..4 * i + 4] == buffer[16 + 4 * i..16 + 4 * i + 4]
  {
  }

  /** Where the fields of a message stand. */
  lemma FieldsStand(m: Message)
    requires |m.shmSegmentIds| < SIZE_LIMIT
    ensures Image(m)[0..4] == EncodeInt(1)
    ensures Image(m)[4..8] == EncodeInt(m.requestId)
    ensures Image(m)[8..16] == EncodeSize(|m.shmSegmentIds|)
    ensures forall j :: 0 <= j < |m.shmSegmentIds| ==> Image(m)[16 + 4 * j..16 + 4 * j + 4] == EncodeInt(m.shmSegmentIds[j])
  {
    forall j | 0 <= j < |m.shmSegmentIds|
      ensures Image(m)[16 + 4 * j..16 + 4 * j + 4] == EncodeInt(m.shmSegmentIds[j])
    {
      IdStands(m.shmSegmentIds, j);
      SliceOfTail(Image(m), j);
      assert Image(m)[16..] == IdsImage(m.shmSegmentIds);
    }
  }

  /** Byte i of a four-byte field. */
  ghost predicate HoldsInt(buffer: seq<byte>, at: nat, x: int32)
    requires at + 4 <= |buffer|
  {
    forall i :: 0 <= i < 4 ==> buffer[at..at + 4][i] == Word(x) / Power256(i) % 256
  }

  /** The bytes on the wire: the type 1, the request id, the count and the ids, each least significant byte first. */
  lemma ImageLayout(m: Message)
    requires |m.shmSegmentIds| < SIZE_LIMIT
    ensures |Image(m)| == 16 + 4 * |m.shmSegmentIds|
    ensures HoldsInt(Image(m), 0, 1) && HoldsInt(Image(m), 4, m.requestId)
    ensures forall i :: 0 <= i < 8 ==> Image(m)[8..16][i] == |m.shmSegmentIds| / Power256(i) % 256
    ensures forall j :: 0 <= j < |m.shmSegmentIds| ==> HoldsInt(Image(m), 16 + 4 * j, m.shmSegmentIds[j])
  {
    FieldsStand(m);
    ImageBytes(|m.shmSegmentIds|, 1);
    ImageBytes(|m.shmSegmentIds|, m.requestId);
    forall j | 0 <= j < |m.shmSegmentIds|
      ensures HoldsInt(Image(m), 16 + 4 * j, m.shmSegmentIds[j])
    {
      ImageBytes(0, m.shmSegmentIds[j]);
    }
  }

  /** Writes `data` behind the first `at` bytes of the buffer and moves on. */
  method Append(buffer: array<byte>, at: nat, data: seq<byte>) returns (next: nat)
    requires at + |data| <= buffer.Length
    modifies buffer
    ensures next == at + |data|
    ensures buffer[..next] == old(buffer[..at]) + data
  {
    forall i | 0 <= i < |data| {
      buffer[at + i] := data[i];
    }
    next := at + |data|;
  }

  method AppendIds(buffer: array<byte>, start: nat, ids: seq<int32>)
    requires start + 4 * |ids| == buffer.Length
    modifies buffer
    ensures buffer[..] == old(buffer[..start]) + IdsImage(ids)
  {
    var at, i := start, 0;
    while i < |ids|
      invariant 0 <= i <= |ids| && at == start + 4 * i
      invariant buffer[..at] == old(buffer[..start]) + IdsImage(ids[..i])
    {
      at := Append(buffer, at, EncodeInt(ids[i]));
      assert ids[..i + 1][..i] == ids[..i];
      i := i + 1;
    }
    assert ids[..i] == ids;
    assert buffer[..at] == buffer[..];
  }

  method Serialize(m: Message) returns (buffer: array<byte>)
    requires |m.shmSegmentIds| < SIZE_LIMIT
    ensures fresh(buffer) && buffer[..] == Image(m)
  {
    buffer := new byte[ContentSize(m)](_ => 0);
    var at := Append(buffer, 0, EncodeInt(RESPONSE));
    assert buffer[..at] == EncodeInt(RESPONSE);
    at := Append(buffer, at, EncodeInt(m.requestId));
    assert buffer[..at] == EncodeInt(RESPONSE) + EncodeInt(m.requestId);
    at := Append(buffer, at, EncodeSize(|m.shmSegmentIds|));
    assert buffer[..at] == EncodeInt(RESPONSE) + EncodeInt(m.requestId) + EncodeSize(|m.shmSegmentIds|);
    AppendIds(buffer, at, m.shmSegmentIds);
  }

  method Deserialize(buffer: array<byte>) returns (m: Message)
    requires Readable(buffer[..])
    ensures m == Decode(buffer[..])
  {
    var requestId := DecodeInt(buffer[4..8]);
    var shmSegmentCount: nat := DecodeSize(buffer[8..16]);
    var ids: seq<int32> := [];
    var at: nat, i: nat := 16, 0;
    while i < shmSegmentCount
      invariant 0 <= i <= shmSegmentCount && at == 16 + 4 * i
      invariant ids == DecodeIds(buffer[..][16..], i)
    {
      SliceOfTail(buffer[..], i);
      assert buffer[..][at..at + 4] == buffer[at..at + 4];
      ids := ids + [DecodeInt(buffer[at..at + 4])];
      at := at + 4;
      i := i + 1;
    }
    m := Message(requestId, ids);
  }
}
