/**
 The chunked transfer of one file between a server worker and a client worker:
 two processes over one shared segment and three semaphores, interleaved at
 every semaphore operation and at every single read or write of the segment.
 */
module TransferProtocol {
  import opened Arithmetic
  import opened Bytes

  /** The file, the compressor (any function) and the size of the shared segment. */
  datatype Job = Job(src: seq<byte>, compress: seq<byte> -> seq<byte>, capacity: nat) {
    /** Every size the two processes handle is a `size_t`. */
    ghost predicate Valid() {
      |src| < SIZE_LIMIT && |compress(src)| < SIZE_LIMIT && capacity < SIZE_LIMIT
    }

    /** A segment that can carry a header and at least one byte of whatever must be carried. */
    predicate Fits() {
      HEADER < capacity || (HEADER == capacity && src == [] && compress(src) == [])
    }
  }

  /** Program points of ServiceFileCompressorHandler::process. */
  datatype ServerPoint =
    | RecvTest | RecvWait | RecvParse | RecvCopy | RecvPost
    | Compress | TurnWait | MetaWrite | SensePost
    | SendTest | SendWait | SendHeader | SendBody | SendPost
    | ServerDone | ServerFailed

  /** Program points of ClientFileCompressorHandler::process. */
  datatype ClientPoint =
    | PutTest | PutWait | PutHeader | PutBody | PutPost
    | SenseWait | MetaRead | TurnPost
    | GetTest | GetWait | GetParse | GetCopy | GetPost
    | ClientDone | ClientFailed

  /** `message` is the size field of the message object of the current iteration. */
  datatype Server = Server(at: ServerPoint, raw: seq<byte>, received: nat,
                           compressed: seq<byte>, sent: nat, message: nat)

  datatype Client = Client(at: ClientPoint, sent: nat, compressedSize: nat,
                           buffer: seq<byte>, received: nat, message: nat)

  datatype State = State(server: Server, client: Client,
                         serverSem: nat, clientSem: nat, senseSem: nat, segment: seq<byte>)

  function Zeros(n: nat): (z: seq<byte>)
    ensures |z| == n
  {
    seq(n, _ => 0)
  }

  /** Payload of the next message; `size() - headerSize()` is an unsigned subtraction. */
  function Chunk(remaining: nat, capacity: nat): (n: nat)
    ensures n <= remaining
    ensures HEADER < capacity < SIZE_LIMIT && 0 < remaining ==> 0 < n && HEADER + n <= capacity
    ensures HEADER == capacity ==> n == 0
  {
    Min(remaining, (capacity - HEADER) % SIZE_LIMIT)
  }

  ghost predicate Init(j: Job, s: State) {
    && s.server == Server(RecvTest, Zeros(|j.src|), 0, [], 0, 0)
    && s.client == Client(PutTest, 0, 0, [], 0, 0)
    && s.serverSem == 1 && s.clientSem == 0 && s.senseSem == 0
    && |s.segment| == j.capacity
  }

  // ---- the two programs ----

  /** Whether the server can move: it is neither over nor asleep in sem_wait. */
  predicate ServerMoves(at: ServerPoint, serverSem: nat, clientSem: nat) {
    match at
    case RecvWait => 0 < clientSem
    case TurnWait => 0 < serverSem
    case SendWait => 0 < serverSem
    case ServerDone => false
    case ServerFailed => false
    case _ => true
  }

  predicate ClientMoves(at: ClientPoint, serverSem: nat, clientSem: nat, senseSem: nat) {
    match at
    case PutWait => 0 < serverSem
    case SenseWait => 0 < senseSem
    case GetWait => 0 < clientSem
    case ClientDone => false
    case ClientFailed => false
    case _ => true
  }

  predicate ServerEnabled(s: State) {
    ServerMoves(s.server.at, s.serverSem, s.clientSem)
  }

  predicate ClientEnabled(s: State) {
    ClientMoves(s.client.at, s.serverSem, s.clientSem, s.senseSem)
  }

  function ServerStep(j: Job, s: State): (s': State)
    requires ServerEnabled(s)
  {
    var v := s.server;
    var failed := s.(server := v.(at := ServerFailed));
    match v.at
    case RecvTest => s.(server := v.(at := if v.received < |v.raw| then RecvWait else Compress))
    case RecvWait => s.(server := v.(at := RecvParse), clientSem := s.clientSem - 1)
    case RecvParse =>
      if |s.segment| < HEADER then failed
      else s.(server := v.(at := RecvCopy, message := DecodeSize(s.segment[..HEADER])))
    case RecvCopy =>
      if |v.raw| - v.received < v.message || |s.segment| < HEADER + v.message then failed
      else s.(server := v.(at := RecvPost, received := v.received + v.message,
           raw := Overwrite(v.raw, s.segment[HEADER..HEADER + v.message], v.received)))
    case RecvPost => s.(server := v.(at := RecvTest), serverSem := s.serverSem + 1)
    case Compress => s.(server := v.(at := TurnWait, compressed := j.compress(v.raw)))
    case TurnWait => s.(server := v.(at := MetaWrite), serverSem := s.serverSem - 1)
    case MetaWrite =>
      if |s.segment| < HEADER || SIZE_LIMIT <= |v.compressed| then failed
      else s.(server := v.(at := SensePost), segment := Overwrite(s.segment, EncodeSize(|v.compressed|), 0))
    case SensePost => s.(server := v.(at := SendTest), senseSem := s.senseSem + 1)
    case SendTest => s.(server := v.(at := if v.sent < |v.compressed| then SendWait else ServerDone))
    case SendWait => s.(server := v.(at := SendHeader), serverSem := s.serverSem - 1)
    case SendHeader =>
      var n := Chunk(Max(0, |v.compressed| - v.sent), |s.segment|);
      if |s.segment| < HEADER || SIZE_LIMIT <= n then failed
      else s.(server := v.(at := SendBody, message := n), segment := Overwrite(s.segment, EncodeSize(n), 0))
    case SendBody =>
      if |s.segment| < HEADER + v.message || |v.compressed| < v.sent + v.message then failed
      else s.(server := v.(at := SendPost, sent := v.sent + v.message),
           segment := Overwrite(s.segment, v.compressed[v.sent..v.sent + v.message], HEADER))
    case SendPost => s.(server := v.(at := SendTest), clientSem := s.clientSem + 1)
  }

  function ClientStep(j: Job, s: State): (s': State)
    requires ClientEnabled(s)
  {
    var v := s.client;
    var failed := s.(client := v.(at := ClientFailed));
    match v.at
    case PutTest => s.(client := v.(at := if v.sent < |j.src| then PutWait else SenseWait))
    case PutWait => s.(client := v.(at := PutHeader), serverSem := s.serverSem - 1)
    case PutHeader =>
      var n := Chunk(Max(0, |j.src| - v.sent), |s.segment|);
      if |s.segment| < HEADER || SIZE_LIMIT <= n then failed
      else s.(client := v.(at := PutBody, message := n), segment := Overwrite(s.segment, EncodeSize(n), 0))
    case PutBody =>
      if |s.segment| < HEADER + v.message || |j.src| < v.sent + v.message then failed
      else s.(client := v.(at := PutPost, sent := v.sent + v.message),
           segment := Overwrite(s.segment, j.src[v.sent..v.sent + v.message], HEADER))
    case PutPost => s.(client := v.(at := PutTest), clientSem := s.clientSem + 1)
    case SenseWait => s.(client := v.(at := MetaRead), senseSem := s.senseSem - 1)
    case MetaRead =>
      if |s.segment| < HEADER then failed
      else
        var n := DecodeSize(s.segment[..HEADER]);
        s.(client := v.(at := TurnPost, compressedSize := n, buffer := Zeros(n)))
    case TurnPost => s.(client := v.(at := GetTest), serverSem := s.serverSem + 1)
    case GetTest => s.(client := v.(at := if v.received < v.compressedSize then GetWait else ClientDone))
    case GetWait => s.(client := v.(at := GetParse), clientSem := s.clientSem - 1)
    case GetParse =>
      if |s.segment| < HEADER then failed
      else s.(client := v.(at := GetCopy, message := DecodeSize(s.segment[..HEADER])))
    case GetCopy =>
      if |v.buffer| - v.received < v.message || |s.segment| < HEADER + v.message then failed
      else s.(client := v.(at := GetPost, received := v.received + v.message,
           buffer := Overwrite(v.buffer, s.segment[HEADER..HEADER + v.message], v.received)))
    case GetPost => s.(client := v.(at := GetTest), serverSem := s.serverSem + 1)
  }

  ghost predicate Next(j: Job, s: State, s': State) {
    || (ServerEnabled(s) && s' == ServerStep(j, s))
    || (ClientEnabled(s) && s' == ClientStep(j, s))
  }

  /** Every interleaving of the two processes, as the sequence of states it goes through. */
  ghost predicate IsRun(j: Job, run: seq<State>) {
    && run != []
    && Init(j, run[0])
    && forall i :: 0 <= i < |run| - 1 ==> Next(j, run[i], run[i + 1])
  }

  ghost predicate Reachable(j: Job, s: State) {
    exists run :: IsRun(j, run) && run[|run| - 1] == s
  }

  // ---- the invariant ----

  predicate ServerUploading(at: ServerPoint) {
    at.RecvTest? || at.RecvWait? || at.RecvParse? || at.RecvCopy? || at.RecvPost?
  }

  predicate ServerTurning(at: ServerPoint) {
    at.Compress? || at.TurnWait? || at.MetaWrite? || at.SensePost?
  }

  predicate ClientDownloading(at: ClientPoint) {
    at.GetTest? || at.GetWait? || at.GetParse? || at.GetCopy? || at.GetPost? || at.ClientDone?
  }

  /** Between a wait and the post that follows it a process may touch the segment. */
  predicate ServerAccessing(at: ServerPoint) {
    || at.RecvParse? || at.RecvCopy? || at.RecvPost? || at.MetaWrite? || at.SensePost?
    || at.SendHeader? || at.SendBody? || at.SendPost?
  }

  predicate ClientAccessing(at: ClientPoint) {
    || at.PutHeader? || at.PutBody? || at.PutPost? || at.MetaRead? || at.TurnPost?
    || at.GetParse? || at.GetCopy? || at.GetPost?
  }

  function Tokens(s: State): (n: nat) {
    s.serverSem + s.clientSem + s.senseSem
    + (if ServerAccessing(s.server.at) then 1 else 0)
    + (if ClientAccessing(s.client.at) then 1 else 0)
  }

  /** The segment starts with the header n. */
  ghost predicate Announces(segment: seq<byte>, n: nat) {
    HEADER <= |segment| && DecodeSize(segment[..HEADER]) == n
  }

  /** The segment holds exactly this chunk. */
  ghost predicate Carries(segment: seq<byte>, chunk: seq<byte>) {
    && HEADER + |chunk| <= |segment|
    && Announces(segment, |chunk|)
    && segment[HEADER..HEADER + |chunk|] == chunk
  }

  ghost predicate Shape(j: Job, s: State) {
    var v, u := s.server, s.client;
    && |s.segment| == j.capacity
    && Tokens(s) == 1
    && !v.at.ServerFailed? && !u.at.ClientFailed?
    && |v.raw| == |j.src| && v.received <= u.sent <= |j.src|
    && v.raw[..v.received] == j.src[..v.received]
    && |u.buffer| == u.compressedSize && u.received <= |u.buffer|
    && (ServerUploading(v.at) || v.received == |j.src|)
    && (u.at.SenseWait? || u.at.MetaRead? || u.at.TurnPost? || ClientDownloading(u.at) ==> u.sent == |j.src|)
  }

  /** The client's bytes on their way to the server. */
  ghost predicate Upload(j: Job, s: State)
    requires Shape(j, s)
  {
    var v, u := s.server, s.client;
    ServerUploading(v.at) ==>
      && s.senseSem == 0
      && v.sent == 0 && u.received == 0
      && (u.at.PutTest? || u.at.PutWait? || u.at.PutHeader? || u.at.PutBody? || u.at.PutPost? || u.at.SenseWait?)
      && (v.received < |j.src| || v.at.RecvTest? || v.at.RecvPost?)
      && (u.at.PutWait? || u.at.PutHeader? || u.at.PutBody? ==> u.sent < |j.src|)
      && (if u.at.PutPost? || s.clientSem == 1 || v.at.RecvParse? || v.at.RecvCopy?
          then v.received < u.sent && Carries(s.segment, j.src[v.received..u.sent])
          else v.received == u.sent)
      && (u.at.PutBody? ==>
            && u.message == Chunk(|j.src| - u.sent, j.capacity)
            && Announces(s.segment, u.message))
      && (v.at.RecvCopy? ==> v.message == u.sent - v.received)
  }

  /** The turnaround: both processes agree that the upload is over and on the compressed size. */
  ghost predicate Turnaround(j: Job, s: State) {
    var v, u := s.server, s.client;
    && (ServerTurning(v.at) ==>
          && (u.at.PutTest? || u.at.SenseWait?) && u.sent == |j.src|
          && v.sent == 0 && u.received == 0
          && s.clientSem == 0 && s.senseSem == 0
          && (v.at.Compress? || v.compressed == j.compress(j.src))
          && (v.at.SensePost? ==> Announces(s.segment, |v.compressed|)))
    && (u.at.MetaRead? || u.at.TurnPost? || ClientDownloading(u.at) ==>
          !ServerUploading(v.at) && !ServerTurning(v.at))
  }

  /** The compressed bytes on their way to the client. */
  ghost predicate Download(j: Job, s: State)
    requires Shape(j, s)
  {
    var v, u := s.server, s.client;
    var z := j.compress(j.src);
    !ServerUploading(v.at) && !ServerTurning(v.at) ==>
      && v.compressed == z
      && u.received <= v.sent <= |z|
      && u.sent == |j.src|
      && !(u.at.PutWait? || u.at.PutHeader? || u.at.PutBody? || u.at.PutPost?)
      && (u.at.PutTest? || u.at.SenseWait? <==> s.senseSem == 1)
      && (s.senseSem == 1 || u.at.MetaRead? || u.at.TurnPost? ==>
            v.sent == 0 && u.received == 0 && (v.at.SendTest? || v.at.SendWait? || (v.at.ServerDone? && z == [])))
      && (s.senseSem == 1 || u.at.MetaRead? ==> Announces(s.segment, |z|))
      && (u.at.TurnPost? ==> |u.buffer| == |z|)
      && (v.at.SendWait? || v.at.SendHeader? || v.at.SendBody? ==> v.sent < |z|)
      && (v.at.ServerDone? ==> v.sent == |z|)
      && (v.at.SendBody? ==>
            && v.message == Chunk(|z| - v.sent, j.capacity)
            && Announces(s.segment, v.message))
      && (ClientDownloading(u.at) ==>
            && |u.buffer| == |z|
            && u.buffer[..u.received] == z[..u.received]
            && (u.at.GetWait? || u.at.GetParse? || u.at.GetCopy? ==> u.received < |z|)
            && (u.at.ClientDone? ==> u.received == |z|)
            && (if v.at.SendPost? || s.clientSem == 1 || u.at.GetParse? || u.at.GetCopy?
                then u.received < v.sent && Carries(s.segment, z[u.received..v.sent])
                else u.received == v.sent)
            && (u.at.GetCopy? ==> u.message == v.sent - u.received))
  }

  ghost predicate Invariant(j: Job, s: State) {
    Shape(j, s) && Upload(j, s) && Turnaround(j, s) && Download(j, s)
  }

  lemma InitInvariant(j: Job, s: State)
    requires Init(j, s)
    ensures Invariant(j, s)
  {
  }

  /** Writing a header and then a payload leaves exactly that chunk in the segment. */
  lemma HeaderThenBody(segment: seq<byte>, n: nat, body: seq<byte>)
    requires Announces(segment, n) && |body| == n && HEADER + n <= |segment|
    ensures Carries(Overwrite(segment, body, HEADER), body)
  {
    assert Overwrite(segment, body, HEADER)[..HEADER] == segment[..HEADER];
  }

  lemma HeaderWritten(segment: seq<byte>, n: size_t)
    requires HEADER <= |segment|
    ensures Announces(Overwrite(segment, EncodeSize(n), 0), n)
  {
    SizeRoundTrip(n);
    assert Overwrite(segment, EncodeSize(n), 0)[..HEADER] == EncodeSize(n);
  }

  /** Copying the next chunk behind an exact prefix gives a longer exact prefix. */
  lemma PrefixGrows(buffer: seq<byte>, whole: seq<byte>, from: nat, to: nat)
    requires from <= to <= |whole| && |buffer| == |whole|
    requires buffer[..from] == whole[..from]
    ensures Overwrite(buffer, whole[from..to], from)[..to] == whole[..to]
  {
    assert whole[..to] == whole[..from] + whole[from..to];
  }

  lemma ServerParses(j: Job, s: State)
    requires j.Valid() && j.Fits() && Invariant(j, s) && ServerEnabled(s) && s.server.at.RecvParse?
    ensures Invariant(j, ServerStep(j, s))
  {
  }

  lemma ServerCopies(j: Job, s: State)
    requires j.Valid() && j.Fits() && Invariant(j, s) && ServerEnabled(s) && s.server.at.RecvCopy?
    ensures Invariant(j, ServerStep(j, s))
  {
    PrefixGrows(s.server.raw, j.src, s.server.received, s.client.sent);
  }

  lemma ServerCompresses(j: Job, s: State)
    requires j.Valid() && j.Fits() && Invariant(j, s) && ServerEnabled(s) && s.server.at.Compress?
    ensures Invariant(j, ServerStep(j, s))
  {
    assert s.server.raw == j.src;
  }

  lemma ServerWritesMeta(j: Job, s: State)
    requires j.Valid() && j.Fits() && Invariant(j, s) && ServerEnabled(s) && s.server.at.MetaWrite?
    ensures Invariant(j, ServerStep(j, s))
  {
    HeaderWritten(s.segment, |j.compress(j.src)|);
  }

  lemma ServerSendsHeader(j: Job, s: State)
    requires j.Valid() && j.Fits() && Invariant(j, s) && ServerEnabled(s) && s.server.at.SendHeader?
    ensures Invariant(j, ServerStep(j, s))
  {
    HeaderWritten(s.segment, Chunk(|j.compress(j.src)| - s.server.sent, j.capacity));
  }

  lemma ServerSendsBody(j: Job, s: State)
    requires j.Valid() && j.Fits() && Invariant(j, s) && ServerEnabled(s) && s.server.at.SendBody?
    ensures Invariant(j, ServerStep(j, s))
  {
    var v := s.server;
    HeaderThenBody(s.segment, v.message, v.compressed[v.sent..v.sent + v.message]);
  }

  lemma ServerRecvTests(j: Job, s: State)
    requires j.Valid() && j.Fits() && Invariant(j, s) && ServerEnabled(s) && s.server.at.RecvTest?
    ensures Invariant(j, ServerStep(j, s))
  {
  }

  lemma ServerSendTests(j: Job, s: State)
    requires j.Valid() && j.Fits() && Invariant(j, s) && ServerEnabled(s) && s.server.at.SendTest?
    ensures Invariant(j, ServerStep(j, s))
  {
  }

  lemma ServerWaits(j: Job, s: State)
    requires j.Valid() && j.Fits() && Invariant(j, s) && ServerEnabled(s) && (s.server.at.RecvWait? || s.server.at.TurnWait? || s.server.at.SendWait?)
    ensures Invariant(j, ServerStep(j, s))
  {
  }

  lemma ServerPostsReceived(j: Job, s: State)
    requires j.Valid() && j.Fits() && Invariant(j, s) && ServerEnabled(s) && s.server.at.RecvPost?
    ensures Invariant(j, ServerStep(j, s))
  {
  }

  lemma ServerPostsSense(j: Job, s: State)
    requires j.Valid() && j.Fits() && Invariant(j, s) && ServerEnabled(s) && s.server.at.SensePost?
    ensures Invariant(j, ServerStep(j, s))
  {
  }

  lemma ServerPostsSent(j: Job, s: State)
    requires j.Valid() && j.Fits() && Invariant(j, s) && ServerEnabled(s) && s.server.at.SendPost?
    ensures Invariant(j, ServerStep(j, s))
  {
  }

  lemma ClientPutsHeader(j: Job, s: State)
    requires j.Valid() && j.Fits() && Invariant(j, s) && ClientEnabled(s) && s.client.at.PutHeader?
    ensures Invariant(j, ClientStep(j, s))
  {
    HeaderWritten(s.segment, Chunk(|j.src| - s.client.sent, j.capacity));
  }

  lemma ClientPutsBody(j: Job, s: State)
    requires j.Valid() && j.Fits() && Invariant(j, s) && ClientEnabled(s) && s.client.at.PutBody?
    ensures Invariant(j, ClientStep(j, s))
  {
    var u := s.client;
    HeaderThenBody(s.segment, u.message, j.src[u.sent..u.sent + u.message]);
  }

  lemma ClientReadsMeta(j: Job, s: State)
    requires j.Valid() && j.Fits() && Invariant(j, s) && ClientEnabled(s) && s.client.at.MetaRead?
    ensures Invariant(j, ClientStep(j, s))
  {
  }

  lemma ClientParses(j: Job, s: State)
    requires j.Valid() && j.Fits() && Invariant(j, s) && ClientEnabled(s) && s.client.at.GetParse?
    ensures Invariant(j, ClientStep(j, s))
  {
  }

  lemma ClientCopies(j: Job, s: State)
    requires j.Valid() && j.Fits() && Invariant(j, s) && ClientEnabled(s) && s.client.at.GetCopy?
    ensures Invariant(j, ClientStep(j, s))
  {
    PrefixGrows(s.client.buffer, j.compress(j.src), s.client.received, s.server.sent);
  }

  lemma ClientPutsOn(j: Job, s: State)
    requires j.Valid() && j.Fits() && Invariant(j, s) && ClientEnabled(s) && s.client.at.PutTest? && s.client.sent < |j.src|
    ensures Invariant(j, ClientStep(j, s))
  {
  }

  lemma ClientPutsNoMore(j: Job, s: State)
    requires j.Valid() && j.Fits() && Invariant(j, s) && ClientEnabled(s) && s.client.at.PutTest? && |j.src| <= s.client.sent
    ensures Invariant(j, ClientStep(j, s))
  {
  }

  lemma ClientPutTests(j: Job, s: State)
    requires j.Valid() && j.Fits() && Invariant(j, s) && ClientEnabled(s) && s.client.at.PutTest?
    ensures Invariant(j, ClientStep(j, s))
  {
    if s.client.sent < |j.src| {
      ClientPutsOn(j, s);
    } else {
      ClientPutsNoMore(j, s);
    }
  }

  lemma ClientGetTests(j: Job, s: State)
    requires j.Valid() && j.Fits() && Invariant(j, s) && ClientEnabled(s) && (s.client.at.GetTest?)
    ensures Invariant(j, ClientStep(j, s))
  {
  }

  lemma ClientPutWaits(j: Job, s: State)
    requires j.Valid() && j.Fits() && Invariant(j, s) && ClientEnabled(s) && (s.client.at.PutWait? || s.client.at.SenseWait?)
    ensures Invariant(j, ClientStep(j, s))
  {
  }

  lemma ClientGetWaits(j: Job, s: State)
    requires j.Valid() && j.Fits() && Invariant(j, s) && ClientEnabled(s) && (s.client.at.GetWait?)
    ensures Invariant(j, ClientStep(j, s))
  {
  }

  lemma ClientPosts(j: Job, s: State)
    requires j.Valid() && j.Fits() && Invariant(j, s) && ClientEnabled(s) && (s.client.at.PutPost? || s.client.at.TurnPost? || s.client.at.GetPost?)
    ensures Invariant(j, ClientStep(j, s))
  {
  }

  lemma ServerKeepsInvariant(j: Job, s: State)
    requires j.Valid() && j.Fits() && Invariant(j, s) && ServerEnabled(s)
    ensures Invariant(j, ServerStep(j, s))
  {
    match s.server.at
    case RecvTest => ServerRecvTests(j, s);
    case RecvWait => ServerWaits(j, s);
    case RecvParse => ServerParses(j, s);
    case RecvCopy => ServerCopies(j, s);
    case RecvPost => ServerPostsReceived(j, s);
    case Compress => ServerCompresses(j, s);
    case TurnWait => ServerWaits(j, s);
    case MetaWrite => ServerWritesMeta(j, s);
    case SensePost => ServerPostsSense(j, s);
    case SendTest => ServerSendTests(j, s);
    case SendWait => ServerWaits(j, s);
    case SendHeader => ServerSendsHeader(j, s);
    case SendBody => ServerSendsBody(j, s);
    case SendPost => ServerPostsSent(j, s);
  }

  lemma ClientKeepsInvariant(j: Job, s: State)
    requires j.Valid() && j.Fits() && Invariant(j, s) && ClientEnabled(s)
    ensures Invariant(j, ClientStep(j, s))
  {
    match s.client.at
    case PutTest => ClientPutTests(j, s);
    case PutWait => ClientPutWaits(j, s);
    case PutHeader => ClientPutsHeader(j, s);
    case PutBody => ClientPutsBody(j, s);
    case PutPost => ClientPosts(j, s);
    case SenseWait => ClientPutWaits(j, s);
    case MetaRead => ClientReadsMeta(j, s);
    case TurnPost => ClientPosts(j, s);
    case GetTest => ClientGetTests(j, s);
    case GetWait => ClientGetWaits(j, s);
    case GetParse => ClientParses(j, s);
    case GetCopy => ClientCopies(j, s);
    case GetPost => ClientPosts(j, s);
  }

  // ---- what holds in every state of every run ----

  lemma {:induction false} RunInvariant(j: Job, run: seq<State>, i: nat)
    requires j.Valid() && j.Fits() && IsRun(j, run) && i < |run|
    ensures Invariant(j, run[i])
  {
    if i == 0 {
      InitInvariant(j, run[0]);
    } else {
      RunInvariant(j, run, i - 1);
      var s := run[i - 1];
      assert Next(j, s, run[i - 1 + 1]);
      if ServerEnabled(s) && run[i] == ServerStep(j, s) {
        ServerKeepsInvariant(j, s);
      } else {
        ClientKeepsInvariant(j, s);
      }
    }
  }

  lemma ReachableInvariant(j: Job, s: State)
    requires j.Valid() && j.Fits() && Reachable(j, s)
    ensures Invariant(j, s)
  {
    var run :| IsRun(j, run) && run[|run| - 1] == s;
    RunInvariant(j, run, |run| - 1);
  }

  /** One token exists: accesses never overlap, no semaphore exceeds 1, and no exception is thrown. */
  lemma SingleToken(j: Job, s: State)
    requires j.Valid() && j.Fits() && Reachable(j, s)
    ensures Tokens(s) == 1
    ensures !(ServerAccessing(s.server.at) && ClientAccessing(s.client.at))
    ensures ServerAccessing(s.server.at) || ClientAccessing(s.client.at) ==>
              s.serverSem == 0 && s.clientSem == 0 && s.senseSem == 0
    ensures s.serverSem <= 1 && s.clientSem <= 1 && s.senseSem <= 1
    ensures !s.server.at.ServerFailed? && !s.client.at.ClientFailed?
  {
    ReachableInvariant(j, s);
  }

  /** The turnaround wait finds the token the client left behind: the client no longer asks for it. */
  lemma TurnaroundStealsNothing(j: Job, s: State)
    requires j.Valid() && j.Fits() && Reachable(j, s) && s.server.at.TurnWait?
    ensures s.serverSem == 1 && s.client.sent == |j.src|
    ensures s.client.at.PutTest? || s.client.at.SenseWait?
  {
    ReachableInvariant(j, s);
  }

  /** No chunk is lost, repeated or reordered: both buffers are always filled with exact prefixes. */
  lemma ExactPrefixes(j: Job, s: State)
    requires j.Valid() && j.Fits() && Reachable(j, s)
    ensures |s.server.raw| == |j.src| && s.server.received <= s.client.sent <= |j.src|
    ensures s.server.raw[..s.server.received] == j.src[..s.server.received]
    ensures s.client.received <= s.server.sent <= |j.compress(j.src)|
    ensures s.client.received <= |s.client.buffer|
    ensures s.client.buffer[..s.client.received] == j.compress(j.src)[..s.client.received]
  {
    ReachableInvariant(j, s);
  }

  // ---- progress and termination ----

  predicate Completed(s: State) {
    s.server.at.ServerDone? && s.client.at.ClientDone?
  }

  predicate Stuck(s: State) {
    !ServerEnabled(s) && !ClientEnabled(s)
  }

  lemma DeadlockFree(j: Job, s: State)
    requires j.Valid() && j.Fits() && Reachable(j, s)
    ensures Stuck(s) <==> Completed(s)
  {
    ReachableInvariant(j, s);
  }

  // ---- every message fills the segment ----

  /** Messages it takes to move n bytes, when each but the last fills the segment behind its header. */
  function Chunks(n: int, capacity: nat): (c: nat)
    decreases n
  {
    if n <= 0 || capacity <= HEADER then 0 else 1 + Chunks(n - (capacity - HEADER), capacity)
  }

  /** The quotient, rounded up: one message for each segment-full, counted with the remainder. */
  function Messages(n: nat, capacity: nat): nat
    requires 8 < capacity
  {
    (n + capacity - 9) / (capacity - 8)
  }

  lemma {:induction false} ChunksIsCeiling(n: nat, capacity: nat)
    requires 8 < capacity
    ensures Chunks(n, capacity) == Messages(n, capacity)
    decreases n
  {
    var room := capacity - 8;
    if n == 0 {
      DivModUnique(room - 1, room, 0, room - 1);
    } else if n <= room {
      DivModUnique(n + room - 1, room, 1, n - 1);
    } else {
      ChunksIsCeiling(n - room, capacity);
      var q, r := (n - 1) / room, (n - 1) % room;
      DivModUnique(n + room - 1, room, q + 1, r);
    }
  }

  lemma ChunkTaken(n: nat, capacity: nat)
    requires 0 < n && HEADER < capacity < SIZE_LIMIT
    ensures Chunks(n - Chunk(n, capacity), capacity) == Chunks(n, capacity) - 1
  {
  }

  /** A chunk on its way is as large as the segment allows. */
  ghost predicate Full(j: Job, s: State) {
    var v, u, z := s.server, s.client, |j.compress(j.src)|;
    && (v.received < u.sent ==> u.sent - v.received == Chunk(Max(0, |j.src| - v.received), j.capacity))
    && (u.received < v.sent ==> v.sent - u.received == Chunk(Max(0, z - u.received), j.capacity))
  }

  lemma ServerKeepsFull(j: Job, s: State)
    requires j.Valid() && j.Fits() && Invariant(j, s) && Full(j, s) && ServerEnabled(s)
    ensures Full(j, ServerStep(j, s))
  {
  }

  lemma ClientKeepsFull(j: Job, s: State)
    requires j.Valid() && j.Fits() && Invariant(j, s) && Full(j, s) && ClientEnabled(s)
    ensures Full(j, ClientStep(j, s))
  {
  }

  lemma {:induction false} RunIsFull(j: Job, run: seq<State>, i: nat)
    requires j.Valid() && j.Fits() && IsRun(j, run) && i < |run|
    ensures Full(j, run[i])
  {
    if i == 0 {
    } else {
      RunIsFull(j, run, i - 1);
      RunInvariant(j, run, i - 1);
      var s := run[i - 1];
      assert Next(j, s, run[i - 1 + 1]);
      if ServerEnabled(s) && run[i] == ServerStep(j, s) {
        ServerKeepsFull(j, s);
      } else {
        ClientKeepsFull(j, s);
      }
    }
  }

  lemma ReachableFull(j: Job, s: State)
    requires j.Valid() && j.Fits() && Reachable(j, s)
    ensures Full(j, s)
  {
    var run :| IsRun(j, run) && run[|run| - 1] == s;
    RunIsFull(j, run, |run| - 1);
  }

  /** The message about to be written fills the segment, or is the last. */
  lemma MessagesAreFull(j: Job, s: State)
    requires j.Valid() && j.Fits() && Reachable(j, s)
    ensures s.client.at.PutBody? ==>
              8 + s.client.message == j.capacity || s.client.sent + s.client.message == |j.src|
    ensures s.server.at.SendBody? ==>
              8 + s.server.message == j.capacity || s.server.sent + s.server.message == |j.compress(j.src)|
  {
    ReachableInvariant(j, s);
  }

  // ---- the length of a run ----

  /** Steps to the end of the program, apart from five for each chunk not yet moved. */
  function ServerRank(at: ServerPoint): int {
    match at
    case RecvPost => 7 case RecvTest => 6 case RecvWait => 5 case RecvParse => 4 case RecvCopy => 3
    case Compress => 5 case TurnWait => 4 case MetaWrite => 3 case SensePost => 2
    case SendPost => 2 case SendTest => 1 case SendWait => 0 case SendHeader => -1 case SendBody => -2
    case _ => 0
  }

  function ClientRank(at: ClientPoint): int {
    match at
    case PutPost => 6 case PutTest => 5 case PutWait => 4 case PutHeader => 3 case PutBody => 2
    case SenseWait => 4 case MetaRead => 3 case TurnPost => 2
    case GetPost => 2 case GetTest => 1 case GetWait => 0 case GetParse => -1 case GetCopy => -2
    case _ => 0
  }

  function ServerLeft(j: Job, v: Server): int {
    5 * (Chunks(|j.src| - v.received, j.capacity) + Chunks(|j.compress(j.src)| - v.sent, j.capacity)) + ServerRank(v.at)
  }

  function ClientLeft(j: Job, u: Client): int {
    5 * (Chunks(|j.src| - u.sent, j.capacity) + Chunks(|j.compress(j.src)| - u.received, j.capacity)) + ClientRank(u.at)
  }

  /** The steps that both programs have left. */
  function Measure(j: Job, s: State): int {
    ServerLeft(j, s.server) + ClientLeft(j, s.client)
  }

  /** What a side is about to move is the next chunk of what it has to move. */
  ghost predicate MovesChunk(at: bool, message: nat, left: int, capacity: nat) {
    at ==> 0 < left && HEADER < capacity < SIZE_LIMIT && message == Chunk(left, capacity)
  }

  ghost predicate ServerMoved(j: Job, s: State, s': State) {
    && ServerEnabled(s) && s' == ServerStep(j, s) && !s'.server.at.ServerFailed?
    && MovesChunk(s.server.at.RecvCopy?, s.server.message, |j.src| - s.server.received, j.capacity)
    && MovesChunk(s.server.at.SendBody?, s.server.message, |j.compress(j.src)| - s.server.sent, j.capacity)
  }

  ghost predicate ClientMoved(j: Job, s: State, s': State) {
    && ClientEnabled(s) && s' == ClientStep(j, s) && !s'.client.at.ClientFailed?
    && MovesChunk(s.client.at.PutBody?, s.client.message, |j.src| - s.client.sent, j.capacity)
    && MovesChunk(s.client.at.GetCopy?, s.client.message, |j.compress(j.src)| - s.client.received, j.capacity)
  }

  lemma ServerMovesChunks(j: Job, s: State)
    requires j.Valid() && j.Fits() && Invariant(j, s) && Full(j, s) && ServerEnabled(s)
    ensures ServerMoved(j, s, ServerStep(j, s))
  {
    ServerKeepsInvariant(j, s);
  }

  lemma ClientMovesChunks(j: Job, s: State)
    requires j.Valid() && j.Fits() && Invariant(j, s) && Full(j, s) && ClientEnabled(s)
    ensures ClientMoved(j, s, ClientStep(j, s))
  {
    ClientKeepsInvariant(j, s);
  }

  /** A step moves nothing, or a whole chunk. */
  lemma StepMoves(j: Job, s: State, s': State)
    requires j.Valid() && j.Fits() && Invariant(j, s) && Full(j, s) && Next(j, s, s')
    ensures ServerMoved(j, s, s') || ClientMoved(j, s, s')
  {
    if ServerEnabled(s) && s' == ServerStep(j, s) {
      ServerMovesChunks(j, s);
    } else {
      ClientMovesChunks(j, s);
    }
  }

  lemma MeasureIsNat(j: Job, s: State)
    requires j.Valid() && j.Fits() && Invariant(j, s) && Full(j, s)
    ensures 0 <= Measure(j, s)
  {
  }

  lemma ServerReceiptIsOne(j: Job, s: State, s': State)
    requires ServerMoved(j, s, s') && ServerUploading(s.server.at)
    ensures ServerLeft(j, s'.server) == ServerLeft(j, s.server) - 1
  {
    if s.server.at.RecvCopy? {
      ChunkTaken(|j.src| - s.server.received, j.capacity);
    }
  }

  lemma ServerSendingIsOne(j: Job, s: State, s': State)
    requires ServerMoved(j, s, s') && !ServerUploading(s.server.at)
    ensures ServerLeft(j, s'.server) == ServerLeft(j, s.server) - 1
  {
    if s.server.at.SendBody? {
      ChunkTaken(|j.compress(j.src)| - s.server.sent, j.capacity);
    }
  }

  lemma ServerStepIsOne(j: Job, s: State, s': State)
    requires ServerMoved(j, s, s')
    ensures s'.client == s.client && ServerLeft(j, s'.server) == ServerLeft(j, s.server) - 1
  {
    if ServerUploading(s.server.at) {
      ServerReceiptIsOne(j, s, s');
    } else {
      ServerSendingIsOne(j, s, s');
    }
  }

  lemma ClientUploadIsOne(j: Job, s: State, s': State)
    requires ClientMoved(j, s, s') && !ClientDownloading(s.client.at)
    ensures ClientLeft(j, s'.client) == ClientLeft(j, s.client) - 1
  {
    if s.client.at.PutBody? {
      ChunkTaken(|j.src| - s.client.sent, j.capacity);
    }
  }

  lemma ClientReceiptIsOne(j: Job, s: State, s': State)
    requires ClientMoved(j, s, s') && ClientDownloading(s.client.at)
    ensures ClientLeft(j, s'.client) == ClientLeft(j, s.client) - 1
  {
    if s.client.at.GetCopy? {
      ChunkTaken(|j.compress(j.src)| - s.client.received, j.capacity);
    }
  }

  lemma ClientStepIsOne(j: Job, s: State, s': State)
    requires ClientMoved(j, s, s')
    ensures s'.server == s.server && ClientLeft(j, s'.client) == ClientLeft(j, s.client) - 1
  {
    if ClientDownloading(s.client.at) {
      ClientReceiptIsOne(j, s, s');
    } else {
      ClientUploadIsOne(j, s, s');
    }
  }

  lemma MoveIsOne(j: Job, s: State, s': State)
    requires ServerMoved(j, s, s') || ClientMoved(j, s, s')
    ensures Measure(j, s') == Measure(j, s) - 1
  {
    if ServerMoved(j, s, s') {
      ServerStepIsOne(j, s, s');
    } else {
      ClientStepIsOne(j, s, s');
    }
  }

  lemma StepKeeps(j: Job, s: State, s': State)
    requires j.Valid() && j.Fits() && Invariant(j, s) && Full(j, s) && Next(j, s, s')
    ensures Invariant(j, s') && Full(j, s')
  {
    if ServerEnabled(s) && s' == ServerStep(j, s) {
      ServerKeepsInvariant(j, s);
      ServerKeepsFull(j, s);
    } else {
      ClientKeepsInvariant(j, s);
      ClientKeepsFull(j, s);
    }
  }

  /** Every step of either process is one step less to do. */
  lemma StepDecreasesMeasure(j: Job, s: State, s': State)
    requires j.Valid() && j.Fits() && Invariant(j, s) && Full(j, s) && Next(j, s, s')
    ensures 0 <= Measure(j, s') == Measure(j, s) - 1
  {
    StepMoves(j, s, s');
    MoveIsOne(j, s, s');
    StepKeeps(j, s, s');
    MeasureIsNat(j, s');
  }

  /** The number of states of a completed run: ten steps for each chunk, either way, and eleven more. */
  function RunLength(j: Job): nat {
    10 * (Chunks(|j.src|, j.capacity) + Chunks(|j.compress(j.src)|, j.capacity)) + 12
  }

  /** How far a run has got is how many steps it has taken, whatever the interleaving. */
  lemma {:induction false} RunsAreShort(j: Job, run: seq<State>, i: nat)
    requires j.Valid() && j.Fits() && IsRun(j, run) && i < |run|
    ensures 0 <= Measure(j, run[i]) == RunLength(j) - 1 - i
  {
    if i == 0 {
    } else {
      RunsAreShort(j, run, i - 1);
      RunInvariant(j, run, i - 1);
      RunIsFull(j, run, i - 1);
      assert Next(j, run[i - 1], run[i - 1 + 1]);
      StepDecreasesMeasure(j, run[i - 1], run[i]);
    }
  }

  /** Messages the client has posted in the upload. */
  function UploadPosts(run: seq<State>, k: nat): nat
    requires k < |run|
  {
    if k == 0 then 0
    else UploadPosts(run, k - 1) + if run[k - 1].client.at.PutPost? && run[k].client.at.PutTest? then 1 else 0
  }

  /** Messages the server has posted in the download. */
  function DownloadPosts(run: seq<State>, k: nat): nat
    requires k < |run|
  {
    if k == 0 then 0
    else DownloadPosts(run, k - 1) + if run[k - 1].server.at.SendPost? && run[k].server.at.SendTest? then 1 else 0
  }

  /** Messages the client has still to post. */
  function UploadsLeft(j: Job, u: Client): nat {
    Chunks(|j.src| - u.sent, j.capacity) + if u.at.PutPost? then 1 else 0
  }

  function DownloadsLeft(j: Job, v: Server): nat {
    Chunks(|j.compress(j.src)| - v.sent, j.capacity) + if v.at.SendPost? then 1 else 0
  }

  lemma ServerPostsOne(j: Job, s: State, s': State)
    requires ServerMoved(j, s, s')
    ensures DownloadsLeft(j, s'.server) == DownloadsLeft(j, s.server) - if s.server.at.SendPost? && s'.server.at.SendTest? then 1 else 0
  {
    if s.server.at.SendBody? {
      ChunkTaken(|j.compress(j.src)| - s.server.sent, j.capacity);
    }
  }

  lemma ClientPostsOne(j: Job, s: State, s': State)
    requires ClientMoved(j, s, s')
    ensures UploadsLeft(j, s'.client) == UploadsLeft(j, s.client) - if s.client.at.PutPost? && s'.client.at.PutTest? then 1 else 0
  {
    if s.client.at.PutBody? {
      ChunkTaken(|j.src| - s.client.sent, j.capacity);
    }
  }

  lemma RunMoves(j: Job, run: seq<State>, i: nat)
    requires j.Valid() && j.Fits() && IsRun(j, run) && i < |run| - 1
    ensures ServerMoved(j, run[i], run[i + 1]) || ClientMoved(j, run[i], run[i + 1])
  {
    RunInvariant(j, run, i);
    RunIsFull(j, run, i);
    assert Next(j, run[i], run[i + 1]);
    StepMoves(j, run[i], run[i + 1]);
  }

  lemma {:induction false} PostsAddUp(j: Job, run: seq<State>, i: nat)
    requires j.Valid() && j.Fits() && IsRun(j, run) && i < |run|
    ensures UploadPosts(run, i) + UploadsLeft(j, run[i].client) == Chunks(|j.src|, j.capacity)
    ensures DownloadPosts(run, i) + DownloadsLeft(j, run[i].server) == Chunks(|j.compress(j.src)|, j.capacity)
  {
    if i == 0 {
    } else {
      PostsAddUp(j, run, i - 1);
      RunMoves(j, run, i - 1);
      if ServerMoved(j, run[i - 1], run[i]) {
        ServerPostsOne(j, run[i - 1], run[i]);
        assert run[i].client == run[i - 1].client;
      } else {
        ClientPostsOne(j, run[i - 1], run[i]);
        assert run[i].server == run[i - 1].server;
      }
    }
  }

  lemma NothingLeft(j: Job, s: State)
    requires Invariant(j, s) && Completed(s)
    ensures UploadsLeft(j, s.client) == DownloadsLeft(j, s.server) == 0 && Measure(j, s) == 0
  {
  }

  lemma CompletedRunLength(j: Job, run: seq<State>)
    requires j.Valid() && j.Fits() && IsRun(j, run) && Completed(run[|run| - 1])
    ensures |run| == RunLength(j)
  {
    var s := run[|run| - 1];
    RunInvariant(j, run, |run| - 1);
    NothingLeft(j, s);
    RunsAreShort(j, run, |run| - 1);
  }

  lemma CompletedRunPosts(j: Job, run: seq<State>)
    requires j.Valid() && j.Fits() && IsRun(j, run) && Completed(run[|run| - 1])
    ensures UploadPosts(run, |run| - 1) == Chunks(|j.src|, j.capacity)
    ensures DownloadPosts(run, |run| - 1) == Chunks(|j.compress(j.src)|, j.capacity)
  {
    var s := run[|run| - 1];
    RunInvariant(j, run, |run| - 1);
    NothingLeft(j, s);
    PostsAddUp(j, run, |run| - 1);
  }

  lemma RunLengthIs(j: Job)
    requires 8 < j.capacity
    ensures RunLength(j) == 10 * (Messages(|j.src|, j.capacity) + Messages(|j.compress(j.src)|, j.capacity)) + 12
  {
    ChunksIsCeiling(|j.src|, j.capacity);
    ChunksIsCeiling(|j.compress(j.src)|, j.capacity);
  }

  /**
   A completed run has posted exactly the messages that the file and its compression fill,
   and has ten steps for each of them.
   */
  lemma CompletedRunCounts(j: Job, run: seq<State>)
    requires j.Valid() && 8 < j.capacity && IsRun(j, run) && Completed(run[|run| - 1])
    ensures UploadPosts(run, |run| - 1) == Messages(|j.src|, j.capacity)
    ensures DownloadPosts(run, |run| - 1) == Messages(|j.compress(j.src)|, j.capacity)
    ensures |run| == 10 * (Messages(|j.src|, j.capacity) + Messages(|j.compress(j.src)|, j.capacity)) + 12
  {
    CompletedRunLength(j, run);
    CompletedRunPosts(j, run);
    RunLengthIs(j);
    ChunksIsCeiling(|j.src|, j.capacity);
    ChunksIsCeiling(|j.compress(j.src)|, j.capacity);
  }

  /** Every run that cannot be continued has delivered both files and restored the semaphores. */
  lemma MaximalRunDelivers(j: Job, run: seq<State>)
    requires j.Valid() && j.Fits() && IsRun(j, run) && Stuck(run[|run| - 1])
    ensures |run| == RunLength(j)
    ensures var s := run[|run| - 1];
            && Completed(s)
            && s.server.raw == j.src
            && s.client.buffer == j.compress(j.src)
            && s.serverSem == 1 && s.clientSem == 0 && s.senseSem == 0
  {
    var s := run[|run| - 1];
    RunInvariant(j, run, |run| - 1);
    RunsAreShort(j, run, |run| - 1);
    assert Reachable(j, s);
    DeadlockFree(j, s);
    assert s.server.raw[..s.server.received] == s.server.raw;
    assert s.client.buffer[..s.client.received] == s.client.buffer;
  }

  lemma ExtendRun(j: Job, run: seq<State>, s': State) returns (run': seq<State>)
    requires IsRun(j, run) && Next(j, run[|run| - 1], s')
    ensures run' == run + [s'] && IsRun(j, run')
  {
    run' := run + [s'];
    forall i | 0 <= i < |run'| - 1
      ensures Next(j, run'[i], run'[i + 1])
    {
      if i < |run| - 1 {
        assert Next(j, run[i], run[i + 1]);
      }
    }
  }

  /** A run that is not over has a continuation, in which the server moves whenever it can. */
  lemma AdvanceRun(j: Job, run: seq<State>) returns (longer: seq<State>)
    requires j.Valid() && j.Fits() && IsRun(j, run) && !Completed(run[|run| - 1])
    ensures IsRun(j, longer) && run <= longer && |longer| == |run| + 1
    ensures 0 <= Measure(j, longer[|run|]) < Measure(j, run[|run| - 1])
    ensures var s := run[|run| - 1];
            Invariant(j, s) && if ServerEnabled(s) then longer[|run|] == ServerStep(j, s)
            else ClientEnabled(s) && longer[|run|] == ClientStep(j, s)
  {
    var s := run[|run| - 1];
    assert Reachable(j, s);
    ReachableInvariant(j, s);
    DeadlockFree(j, s);
    var s' := if ServerEnabled(s) then ServerStep(j, s) else ClientStep(j, s);
    RunIsFull(j, run, |run| - 1);
    StepDecreasesMeasure(j, s, s');
    longer := ExtendRun(j, run, s');
  }

  /** Any run can be continued to one that delivers. */
  lemma {:induction false} RunCanFinish(j: Job, run: seq<State>) returns (run': seq<State>)
    requires j.Valid() && j.Fits() && IsRun(j, run)
    ensures IsRun(j, run') && run <= run' && Completed(run'[|run'| - 1])
    decreases Measure(j, run[|run| - 1])
  {
    if Completed(run[|run| - 1]) {
      run' := run;
    } else {
      var longer := AdvanceRun(j, run);
      run' := RunCanFinish(j, longer);
    }
  }

  // ---- the segment has to be larger than the header ----

  /** Where the two processes can get to when the segment has no room for a header. */
  ghost predicate Doomed(j: Job, s: State) {
    var v, u := s.server, s.client;
    && |s.segment| == j.capacity < HEADER
    && |v.raw| == |j.src| && v.received == 0 && u.sent == 0
    && s.clientSem == 0 && s.senseSem == 0
    && (if j.src != []
        then && (v.at.RecvTest? || v.at.RecvWait?)
             && (u.at.PutTest? || u.at.PutWait? || u.at.PutHeader? || u.at.ClientFailed?)
             && s.serverSem == (if u.at.PutTest? || u.at.PutWait? then 1 else 0)
        else && (v.at.RecvTest? || v.at.Compress? || v.at.TurnWait? || v.at.MetaWrite? || v.at.ServerFailed?)
             && (u.at.PutTest? || u.at.SenseWait?)
             && s.serverSem == (if v.at.MetaWrite? || v.at.ServerFailed? then 0 else 1))
  }

  lemma StaysDoomed(j: Job, s: State, s': State)
    requires Doomed(j, s) && Next(j, s, s')
    ensures Doomed(j, s')
    ensures ServerRank(s'.server.at) + ClientRank(s'.client.at) < ServerRank(s.server.at) + ClientRank(s.client.at)
  {
  }

  lemma {:induction false} RunIsDoomed(j: Job, run: seq<State>, i: nat)
    requires j.capacity < HEADER && IsRun(j, run) && i < |run|
    ensures Doomed(j, run[i]) && ServerRank(run[i].server.at) + ClientRank(run[i].client.at) + i <= 11
  {
    if i == 0 {
    } else {
      RunIsDoomed(j, run, i - 1);
      assert Next(j, run[i - 1], run[i - 1 + 1]);
      StaysDoomed(j, run[i - 1], run[i]);
    }
  }

  /** Without room for a header every run ends in the exception of the first write, with the other side asleep. */
  lemma TooSmallThrows(j: Job, run: seq<State>)
    requires j.capacity < HEADER && IsRun(j, run)
    ensures |run| <= 12
    ensures var s := run[|run| - 1];
            Stuck(s) <==> if j.src != [] then s.client.at.ClientFailed? && s.server.at.RecvWait?
            else s.server.at.ServerFailed? && s.client.at.SenseWait?
  {
    RunIsDoomed(j, run, |run| - 1);
  }

  /** The round of a file that has bytes through a segment of header size: no chunk carries any. */
  ghost predicate IdleUpload(j: Job, s: State) {
    var v, u := s.server, s.client;
    && ServerUploading(v.at) && |v.raw| == |j.src| && v.received == 0
    && (u.at.PutTest? || u.at.PutWait? || u.at.PutHeader? || u.at.PutBody? || u.at.PutPost?) && u.sent == 0
    && u.received == 0 && s.senseSem == 0
    && (u.at.PutBody? ==> u.message == 0)
    && (u.at.PutBody? || u.at.PutPost? || s.clientSem == 1 || v.at.RecvParse? ==> Announces(s.segment, 0))
    && (v.at.RecvCopy? ==> v.message == 0)
  }

  /** An empty file whose compression has bytes gets through the turnaround, and no further. */
  ghost predicate IdleTurnaround(j: Job, s: State) {
    var v, u := s.server, s.client;
    && (v.at.RecvTest? || ServerTurning(v.at)) && v.raw == [] && v.received == 0 && v.sent == 0
    && (u.at.PutTest? || u.at.SenseWait?) && u.sent == 0 && u.received == 0
    && s.clientSem == 0 && s.senseSem == 0
    && (v.at.RecvTest? || v.at.Compress? || v.compressed == j.compress(j.src))
    && (v.at.SensePost? ==> Announces(s.segment, |v.compressed|))
  }

  ghost predicate IdleDownload(j: Job, s: State) {
    var v, u := s.server, s.client;
    && !ServerUploading(v.at) && !ServerTurning(v.at) && !v.at.ServerDone?
    && v.received == 0 && v.compressed == j.compress(j.src) && v.sent == 0
    && (u.at.PutTest? || u.at.SenseWait? || u.at.MetaRead? || u.at.TurnPost? || ClientDownloading(u.at))
    && !u.at.ClientDone?
    && u.sent == 0 && u.received == 0
    && (u.at.PutTest? || u.at.SenseWait? <==> s.senseSem == 1)
    && (s.senseSem == 1 || u.at.MetaRead? || u.at.TurnPost? ==> v.at.SendTest? || v.at.SendWait?)
    && (s.senseSem == 1 || u.at.MetaRead? ==> Announces(s.segment, |v.compressed|))
    && (u.at.TurnPost? || ClientDownloading(u.at) ==> u.compressedSize == |v.compressed| && |u.buffer| == u.compressedSize)
    && (v.at.SendBody? ==> v.message == 0)
    && (v.at.SendBody? || v.at.SendPost? || s.clientSem == 1 || u.at.GetParse? ==> Announces(s.segment, 0))
    && (u.at.GetCopy? ==> u.message == 0)
  }

  /** Nothing is ever moved, nothing is thrown, and the token stays. */
  ghost predicate Idling(j: Job, s: State) {
    && |s.segment| == j.capacity == HEADER
    && Tokens(s) == 1
    && !s.server.at.ServerFailed? && !s.client.at.ClientFailed?
    && (if j.src != [] then IdleUpload(j, s) else IdleTurnaround(j, s) || IdleDownload(j, s))
  }

  lemma EmptyBody(segment: seq<byte>)
    requires |segment| == HEADER
    ensures Overwrite(segment, [], HEADER) == segment
  {
  }

  lemma ServerIdlesUpload(j: Job, s: State)
    requires j.Valid() && Idling(j, s) && j.src != [] && ServerEnabled(s)
    ensures Idling(j, ServerStep(j, s))
  {
  }

  lemma ClientIdlesUpload(j: Job, s: State)
    requires j.Valid() && Idling(j, s) && j.src != [] && ClientEnabled(s)
    ensures Idling(j, ClientStep(j, s))
  {
    HeaderWritten(s.segment, 0);
    EmptyBody(s.segment);
  }

  lemma ServerIdlesMeta(j: Job, s: State)
    requires j.Valid() && Idling(j, s) && j.src == [] && IdleTurnaround(j, s) && ServerEnabled(s)
    requires s.server.at.MetaWrite?
    ensures Idling(j, ServerStep(j, s))
  {
    HeaderWritten(s.segment, |j.compress(j.src)|);
  }

  lemma ServerIdlesSense(j: Job, s: State)
    requires j.Valid() && Idling(j, s) && j.src == [] && IdleTurnaround(j, s) && ServerEnabled(s)
    requires s.server.at.SensePost?
    ensures Idling(j, ServerStep(j, s))
  {
  }

  lemma ServerIdlesTurnaround(j: Job, s: State)
    requires j.Valid() && Idling(j, s) && j.src == [] && IdleTurnaround(j, s) && ServerEnabled(s)
    ensures Idling(j, ServerStep(j, s))
  {
    if s.server.at.MetaWrite? {
      ServerIdlesMeta(j, s);
    } else if s.server.at.SensePost? {
      ServerIdlesSense(j, s);
    } else {
      assert IdleTurnaround(j, ServerStep(j, s));
    }
  }

  lemma ClientIdlesTurnaround(j: Job, s: State)
    requires j.Valid() && Idling(j, s) && j.src == [] && IdleTurnaround(j, s) && ClientEnabled(s)
    ensures Idling(j, ClientStep(j, s))
  {
  }

  lemma ServerIdlesHeader(j: Job, s: State)
    requires j.Valid() && Idling(j, s) && j.src == [] && j.compress([]) != [] && IdleDownload(j, s) && ServerEnabled(s)
    requires s.server.at.SendHeader?
    ensures Idling(j, ServerStep(j, s))
  {
    HeaderWritten(s.segment, 0);
  }

  lemma ServerIdlesBody(j: Job, s: State)
    requires j.Valid() && Idling(j, s) && j.src == [] && j.compress([]) != [] && IdleDownload(j, s) && ServerEnabled(s)
    requires s.server.at.SendBody?
    ensures Idling(j, ServerStep(j, s))
  {
    EmptyBody(s.segment);
  }

  lemma ServerIdlesWait(j: Job, s: State)
    requires j.Valid() && Idling(j, s) && j.src == [] && j.compress([]) != [] && IdleDownload(j, s) && ServerEnabled(s)
    requires s.server.at.SendWait? || s.server.at.SendTest?
    ensures Idling(j, ServerStep(j, s))
  {
  }

  lemma ServerIdlesDownload(j: Job, s: State)
    requires j.Valid() && Idling(j, s) && j.src == [] && j.compress([]) != [] && IdleDownload(j, s) && ServerEnabled(s)
    ensures Idling(j, ServerStep(j, s))
  {
    if s.server.at.SendHeader? {
      ServerIdlesHeader(j, s);
    } else if s.server.at.SendBody? {
      ServerIdlesBody(j, s);
    } else if s.server.at.SendWait? || s.server.at.SendTest? {
      ServerIdlesWait(j, s);
    }
  }

  lemma ClientIdlesSense(j: Job, s: State)
    requires j.Valid() && Idling(j, s) && j.src == [] && j.compress([]) != [] && IdleDownload(j, s) && ClientEnabled(s)
    requires s.client.at.PutTest? || s.client.at.SenseWait?
    ensures Idling(j, ClientStep(j, s))
  {
  }

  lemma ClientIdlesTurn(j: Job, s: State)
    requires j.Valid() && Idling(j, s) && j.src == [] && j.compress([]) != [] && IdleDownload(j, s) && ClientEnabled(s)
    requires s.client.at.MetaRead? || s.client.at.TurnPost?
    ensures Idling(j, ClientStep(j, s))
  {
  }

  lemma ClientIdlesGet(j: Job, s: State)
    requires j.Valid() && Idling(j, s) && j.src == [] && j.compress([]) != [] && IdleDownload(j, s) && ClientEnabled(s)
    requires ClientDownloading(s.client.at)
    ensures Idling(j, ClientStep(j, s))
  {
  }

  lemma ClientIdlesDownload(j: Job, s: State)
    requires j.Valid() && Idling(j, s) && j.src == [] && j.compress([]) != [] && IdleDownload(j, s) && ClientEnabled(s)
    ensures Idling(j, ClientStep(j, s))
  {
    if ClientDownloading(s.client.at) {
      ClientIdlesGet(j, s);
    } else if s.client.at.PutTest? || s.client.at.SenseWait? {
      ClientIdlesSense(j, s);
    } else {
      ClientIdlesTurn(j, s);
    }
  }

  lemma IdlingGoesOn(j: Job, s: State, s': State)
    requires j.Valid() && !j.Fits() && Idling(j, s) && Next(j, s, s')
    ensures Idling(j, s')
  {
    if ServerEnabled(s) && s' == ServerStep(j, s) {
      if j.src != [] {
        ServerIdlesUpload(j, s);
      } else if IdleTurnaround(j, s) {
        ServerIdlesTurnaround(j, s);
      } else {
        ServerIdlesDownload(j, s);
      }
    } else {
      if j.src != [] {
        ClientIdlesUpload(j, s);
      } else if IdleTurnaround(j, s) {
        ClientIdlesTurnaround(j, s);
      } else {
        ClientIdlesDownload(j, s);
      }
    }
  }

  lemma {:induction false} RunIdles(j: Job, run: seq<State>, i: nat)
    requires j.Valid() && !j.Fits() && j.capacity == HEADER && IsRun(j, run) && i < |run|
    ensures Idling(j, run[i])
  {
    if i == 0 {
    } else {
      RunIdles(j, run, i - 1);
      assert Next(j, run[i - 1], run[i - 1 + 1]);
      IdlingGoesOn(j, run[i - 1], run[i]);
    }
  }

  /**
   With something to carry and a segment of exactly header size, chunks without a byte
   go round for ever: no run stops, nothing is thrown, and neither side receives a byte.
   */
  lemma HeaderOnlyNeverStops(j: Job, s: State)
    requires j.Valid() && !j.Fits() && j.capacity == HEADER && Reachable(j, s)
    ensures !Stuck(s) && !Completed(s)
    ensures !s.server.at.ServerFailed? && !s.client.at.ClientFailed?
    ensures s.server.received == 0 && s.client.received == 0
  {
    var run :| IsRun(j, run) && run[|run| - 1] == s;
    RunIdles(j, run, |run| - 1);
  }

  ghost function InitialState(j: Job): (s: State)
    ensures Init(j, s)
  {
    State(Server(RecvTest, Zeros(|j.src|), 0, [], 0, 0), Client(PutTest, 0, 0, [], 0, 0), 1, 0, 0, Zeros(j.capacity))
  }

  lemma NeverCompletes(j: Job, s: State)
    requires j.Valid() && !j.Fits() && Reachable(j, s)
    ensures !Completed(s)
  {
    if j.capacity == HEADER {
      HeaderOnlyNeverStops(j, s);
    } else {
      var run :| IsRun(j, run) && run[|run| - 1] == s;
      RunIsDoomed(j, run, |run| - 1);
    }
  }

  /** A transfer can complete exactly when the segment has room for a header and some payload. */
  lemma CompletesIffFits(j: Job)
    requires j.Valid()
    ensures j.Fits() <==> exists s :: Reachable(j, s) && Completed(s)
  {
    if j.Fits() {
      var run := RunCanFinish(j, [InitialState(j)]);
      assert Reachable(j, run[|run| - 1]);
    } else {
      forall s | Reachable(j, s)
        ensures !Completed(s)
      {
        NeverCompletes(j, s);
      }
    }
  }

  // ---- the server leaves first ----

  predicate BeforeLastPost(j: Job, s: State) {
    && !s.server.at.ServerDone?
    && (s.server.at.SendTest? ==> s.server.sent < |j.compress(j.src)|)
  }

  predicate AtLastPost(j: Job, s: State) {
    s.server.at.SendPost? && s.server.sent == |j.compress(j.src)|
  }

  lemma ServerReachesLastPost(j: Job, s: State)
    requires j.Valid() && j.Fits() && Invariant(j, s) && ServerEnabled(s) && j.compress(j.src) != []
    requires BeforeLastPost(j, s) && !AtLastPost(j, s)
    ensures BeforeLastPost(j, ServerStep(j, s))
  {
  }

  /** A run that has not yet passed the server's last post can be continued up to it. */
  lemma {:induction false} ReachLastPost(j: Job, run: seq<State>) returns (run': seq<State>)
    requires j.Valid() && j.Fits() && IsRun(j, run) && j.compress(j.src) != []
    requires BeforeLastPost(j, run[|run| - 1])
    ensures IsRun(j, run') && AtLastPost(j, run'[|run'| - 1])
    decreases Measure(j, run[|run| - 1])
  {
    var s := run[|run| - 1];
    if AtLastPost(j, s) {
      run' := run;
    } else {
      var longer := AdvanceRun(j, run);
      if ServerEnabled(s) {
        ServerReachesLastPost(j, s);
      }
      run' := ReachLastPost(j, longer);
    }
  }

  /** Up to the point where the server has written the size metadata. */
  predicate BeforeSense(at: ServerPoint) {
    ServerUploading(at) || at.Compress? || at.TurnWait? || at.MetaWrite? || at.SensePost?
  }

  lemma ServerReachesSense(j: Job, s: State)
    requires j.Valid() && j.Fits() && Invariant(j, s) && ServerEnabled(s)
    requires BeforeSense(s.server.at) && !s.server.at.SensePost?
    ensures BeforeSense(ServerStep(j, s).server.at)
  {
  }

  lemma {:induction false} ReachSense(j: Job, run: seq<State>) returns (run': seq<State>)
    requires j.Valid() && j.Fits() && IsRun(j, run) && BeforeSense(run[|run| - 1].server.at)
    ensures IsRun(j, run') && run'[|run'| - 1].server.at.SensePost?
    decreases Measure(j, run[|run| - 1])
  {
    var s := run[|run| - 1];
    if s.server.at.SensePost? {
      run' := run;
    } else {
      var longer := AdvanceRun(j, run);
      if ServerEnabled(s) {
        ServerReachesSense(j, s);
      }
      run' := ReachSense(j, longer);
    }
  }

  /** The client has yet to read the last chunk, or the size when there are no chunks. */
  ghost predicate Unread(j: Job, s: State) {
    var z := j.compress(j.src);
    if z == [] then s.senseSem == 1 && Announces(s.segment, 0)
    else s.client.received < |z| && Carries(s.segment, z[s.client.received..])
  }

  /** Two more steps of the server end a run. */
  lemma TwoServerSteps(j: Job, run: seq<State>) returns (s: State)
    requires IsRun(j, run) && ServerEnabled(run[|run| - 1]) && ServerEnabled(ServerStep(j, run[|run| - 1]))
    ensures s == ServerStep(j, ServerStep(j, run[|run| - 1])) && Reachable(j, s)
  {
    var posted := ServerStep(j, run[|run| - 1]);
    var run1 := ExtendRun(j, run, posted);
    s := ServerStep(j, posted);
    var run2 := ExtendRun(j, run1, s);
    assert run2[|run2| - 1] == s;
  }

  /**
   In every job the server can return while the last chunk, or the size of an empty
   compression, lies unread in the segment.
   */
  lemma ServerMayLeaveEarly(j: Job) returns (s: State)
    requires j.Valid() && j.Fits()
    ensures Reachable(j, s) && s.server.at.ServerDone? && Unread(j, s)
  {
    if j.compress(j.src) == [] {
      var run := ReachSense(j, [InitialState(j)]);
      RunInvariant(j, run, |run| - 1);
      s := TwoServerSteps(j, run);
    } else {
      var run := ReachLastPost(j, [InitialState(j)]);
      RunInvariant(j, run, |run| - 1);
      s := TwoServerSteps(j, run);
      var sent := run[|run| - 1].server.sent;
      assert j.compress(j.src)[s.client.received..] == j.compress(j.src)[s.client.received..sent];
    }
  }

  /** Whatever happens from s on, the client is never between the wait and the post of an access. */
  ghost predicate SafeToRelease(j: Job, s: State) {
    forall run: seq<State>, i: nat, k: nat :: IsRun(j, run) && i <= k < |run| && run[i] == s ==> !ClientAccessing(run[k].client.at)
  }

  /** Once the server has returned, the token on its semaphore says that the client has read everything. */
  lemma TokenSaysRead(j: Job, s: State)
    requires j.Valid() && j.Fits() && Reachable(j, s) && s.server.at.ServerDone?
    ensures s.serverSem == 1 <==>
            (s.client.at.GetTest? || s.client.at.ClientDone?) && s.client.received == |j.compress(j.src)|
    ensures s.serverSem == 1 ==> s.client.buffer == j.compress(j.src)
  {
    ReachableInvariant(j, s);
    if s.serverSem == 1 {
      assert s.client.buffer[..s.client.received] == s.client.buffer;
    }
  }

  /** The server has returned and the client is past its last read. */
  predicate Through(s: State) {
    && s.server.at.ServerDone?
    && (s.client.at.GetTest? || s.client.at.ClientDone?)
    && s.client.compressedSize <= s.client.received
  }

  lemma TokenMeansThrough(j: Job, s: State)
    requires Invariant(j, s) && s.server.at.ServerDone? && s.serverSem == 1
    ensures Through(s)
  {
  }

  lemma {:induction false} StaysThrough(j: Job, run: seq<State>, i: nat, k: nat)
    requires IsRun(j, run) && i <= k < |run| && Through(run[i])
    ensures Through(run[k])
  {
    if i == k {
    } else {
      StaysThrough(j, run, i, k - 1);
      assert Next(j, run[k - 1], run[k - 1 + 1]);
    }
  }

  /** Without an access of the client nobody posts on the server's semaphore any more. */
  lemma {:induction false} SilentMeansNoPost(j: Job, run: seq<State>, i: nat, k: nat)
    requires IsRun(j, run) && i <= k < |run| && run[i].server.at.ServerDone?
    requires forall l :: i <= l <= k ==> !ClientAccessing(run[l].client.at)
    ensures run[k].server.at.ServerDone? && run[k].serverSem <= run[i].serverSem
  {
    if i == k {
    } else {
      SilentMeansNoPost(j, run, i, k - 1);
      assert Next(j, run[k - 1], run[k - 1 + 1]);
    }
  }

  lemma TokenMakesSafe(j: Job, s: State)
    requires Through(s)
    ensures SafeToRelease(j, s)
  {
    forall run: seq<State>, i: nat, k: nat | IsRun(j, run) && i <= k < |run| && run[i] == s
      ensures !ClientAccessing(run[k].client.at)
    {
      StaysThrough(j, run, i, k);
    }
  }

  /** Every run ends with the token on the server's semaphore, so without it somebody still posts. */
  lemma NoTokenMeansUnsafe(j: Job, run: seq<State>)
    requires j.Valid() && j.Fits() && IsRun(j, run)
    requires var s := run[|run| - 1]; s.server.at.ServerDone? && s.serverSem == 0
    ensures !SafeToRelease(j, run[|run| - 1])
  {
    var i := |run| - 1;
    var all := RunCanFinish(j, run);
    var last := |all| - 1;
    FinishedRunPosts(j, all);
    if forall l :: i <= l <= last ==> !ClientAccessing(all[l].client.at) {
      SilentMeansNoPost(j, all, i, last);
    }
  }

  lemma FinishedRunPosts(j: Job, run: seq<State>)
    requires j.Valid() && j.Fits() && IsRun(j, run) && Completed(run[|run| - 1])
    ensures run[|run| - 1].serverSem == 1
  {
    RunInvariant(j, run, |run| - 1);
  }

  /**
   After the server has returned, releasing the segment is safe exactly when its own
   semaphore holds the token: one more wait on it before the release would make sure.
   */
  lemma SafeToReleaseIff(j: Job, s: State)
    requires j.Valid() && j.Fits() && Reachable(j, s) && s.server.at.ServerDone?
    ensures SafeToRelease(j, s) <==> s.serverSem == 1
  {
    SingleToken(j, s);
    if s.serverSem == 1 {
      ReachableInvariant(j, s);
      TokenMeansThrough(j, s);
      TokenMakesSafe(j, s);
    } else {
      var run :| IsRun(j, run) && run[|run| - 1] == s;
      NoTokenMeansUnsafe(j, run);
    }
  }
}
