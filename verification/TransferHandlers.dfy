/** The two handlers as objects that update their fields, the semaphores and the segment in place. */
module TransferHandlers {
  import opened Bytes
  import opened SharedSegments
  import opened ShmMessages
  import opened TransferProtocol

  class Semaphores {
    var server: nat
    var client: nat
    var sense: nat

    constructor ()
      ensures server == 1 && client == 0 && sense == 0
    {
      server, client, sense := 1, 0, 0;
    }
  }

  class ServiceFileCompressorHandler {
    const fileSize: size_t
    const shmSegment: FragmentedShmSegment
    const semaphores: Semaphores
    const compress: seq<byte> -> seq<byte>
    const rawData: array<byte>
    var at: ServerPoint
    var fileRecvSize: nat
    var fileSendSize: nat
    var compressedData: seq<byte>
    /** The size field of the message of the current iteration. */
    var message: size_t

    constructor (fileSize: size_t, shmSegment: FragmentedShmSegment, semaphores: Semaphores, compress: seq<byte> -> seq<byte>)
      requires shmSegment.Valid()
      ensures this.fileSize == fileSize && this.shmSegment == shmSegment
      ensures this.semaphores == semaphores && this.compress == compress
      ensures fresh(rawData) && Valid()
      ensures AsServer() == Server(RecvTest, Zeros(fileSize), 0, [], 0, 0)
    {
      this.fileSize := fileSize;
      this.shmSegment := shmSegment;
      this.semaphores := semaphores;
      this.compress := compress;
      rawData := new byte[fileSize](_ => 0);
      at := RecvTest;
      fileRecvSize, fileSendSize, compressedData, message := 0, 0, [], 0;
      new;
      assert rawData[..] == Zeros(fileSize);
    }

    ghost predicate Valid()
      reads this, shmSegment
    {
      && shmSegment.Valid() && rawData.Length == fileSize && rawData !in shmSegment.memories
      && fileRecvSize <= fileSize && fileSendSize <= |compressedData|
      && (ServerUploading(at) || at.Compress? ==> compressedData == [])
    }

    ghost function AsServer(): Server
      reads this, rawData
    {
      Server(at, rawData[..], fileRecvSize, compressedData, fileSendSize, message)
    }

    /** The state of the transfer, next to a client in state c. */
    ghost function AsState(c: Client): State
      requires Valid()
      reads this, rawData, semaphores, shmSegment, shmSegment.memories
    {
      State(AsServer(), c, semaphores.server, semaphores.client, semaphores.sense, shmSegment.Flat())
    }

    /** processClientData, up to the end of parse. */
    method ParseClientData(ghost j: Job, ghost c: Client)
      requires Valid() && j.compress == compress && at == RecvParse
      modifies this`at, this`message
      ensures Valid() && AsState(c) == ServerStep(j, old(AsState(c)))
    {
      var ok, n := ReadSize(shmSegment);
      if ok {
        message, at := n, RecvCopy;
      } else {
        at := ServerFailed;
      }
    }

    /** processClientData, from copyData on. */
    method CopyClientData(ghost j: Job, ghost c: Client)
      requires Valid() && j.compress == compress && at == RecvCopy
      modifies this`at, this`fileRecvSize, rawData
      ensures Valid() && AsState(c) == ServerStep(j, old(AsState(c)))
    {
      ghost var s := AsState(c);
      var ok := CopyBody(shmSegment, message, rawData, fileRecvSize, rawData.Length - fileRecvSize);
      if ok {
        fileRecvSize, at := fileRecvSize + message, RecvPost;
      } else {
        at := ServerFailed;
      }
      assert AsState(c) == s.(server := AsServer());
    }

    /** compressData. */
    method CompressData(ghost j: Job, ghost c: Client)
      requires Valid() && j.compress == compress && at == Compress
      modifies this`at, this`compressedData
      ensures Valid() && AsState(c) == ServerStep(j, old(AsState(c)))
    {
      compressedData, at := compress(rawData[..]), TurnWait;
    }

    /** sendFileData. */
    method SendFileData(ghost j: Job, ghost c: Client)
      requires Valid() && j.compress == compress && at == MetaWrite
      modifies this`at, shmSegment.memories
      ensures Valid() && AsState(c) == ServerStep(j, old(AsState(c)))
    {
      var ok := |compressedData| < SIZE_LIMIT;
      if ok {
        ok := WriteSize(shmSegment, |compressedData|);
      }
      at := if ok then SensePost else ServerFailed;
    }

    /** sendClientData, up to the end of the header. */
    method SendClientHeader(ghost j: Job, ghost c: Client)
      requires Valid() && j.compress == compress && at == SendHeader
      modifies this`at, this`message, shmSegment.memories
      ensures Valid() && AsState(c) == ServerStep(j, old(AsState(c)))
    {
      ghost var s := AsState(c);
      var n := Chunk(|compressedData| - fileSendSize, shmSegment.size);
      var ok := n < SIZE_LIMIT;
      if ok {
        ok := WriteSize(shmSegment, n);
      }
      if ok {
        message, at := n, SendBody;
      } else {
        at := ServerFailed;
      }
      assert AsState(c) == s.(server := AsServer(), segment := shmSegment.Flat());
    }

    /** sendClientData, from the payload on. */
    method SendClientBody(ghost j: Job, ghost c: Client)
      requires Valid() && j.compress == compress && at == SendBody
      modifies this`at, this`fileSendSize, shmSegment.memories
      ensures Valid() && AsState(c) == ServerStep(j, old(AsState(c)))
    {
      ghost var s := AsState(c);
      var ok := fileSendSize + message <= |compressedData|;
      if ok {
        ok := shmSegment.Write(compressedData[fileSendSize..fileSendSize + message], HEADER);
      }
      if ok {
        fileSendSize, at := fileSendSize + message, SendPost;
      } else {
        at := ServerFailed;
      }
      assert AsState(c) == s.(server := AsServer(), segment := shmSegment.Flat());
    }

    predicate Enabled()
      reads this`at, semaphores
    {
      ServerMoves(at, semaphores.server, semaphores.client)
    }

    /** The loop tests and the semaphore operations. */
    method Synchronize(ghost j: Job, ghost c: Client)
      requires Valid() && ServerEnabled(AsState(c))
      requires at.RecvTest? || at.RecvWait? || at.RecvPost? || at.TurnWait? || at.SensePost? || at.SendTest? || at.SendWait? || at.SendPost?
      modifies this`at, semaphores
      ensures Valid() && AsState(c) == ServerStep(j, old(AsState(c)))
    {
      match at
      case RecvTest => at := if fileRecvSize < fileSize then RecvWait else Compress;
      case RecvWait => semaphores.client, at := semaphores.client - 1, RecvParse;
      case RecvPost => semaphores.server, at := semaphores.server + 1, RecvTest;
      case TurnWait => semaphores.server, at := semaphores.server - 1, MetaWrite;
      case SensePost => semaphores.sense, at := semaphores.sense + 1, SendTest;
      case SendTest => at := if fileSendSize < |compressedData| then SendWait else ServerDone;
      case SendWait => semaphores.server, at := semaphores.server - 1, SendHeader;
      case SendPost => semaphores.client, at := semaphores.client + 1, SendTest;
    }

    /** The program between two interleaving points. */
    method Step(ghost j: Job, ghost c: Client)
      requires Valid() && j.compress == compress && ServerEnabled(AsState(c))
      modifies this, rawData, semaphores, shmSegment.memories
      ensures Valid() && AsState(c) == ServerStep(j, old(AsState(c)))
    {
      match at
      case RecvParse => ParseClientData(j, c);
      case RecvCopy => CopyClientData(j, c);
      case Compress => CompressData(j, c);
      case MetaWrite => SendFileData(j, c);
      case SendHeader => SendClientHeader(j, c);
      case SendBody => SendClientBody(j, c);
      case _ => Synchronize(j, c);
    }
  }

  class ClientFileCompressorHandler {
    const src: seq<byte>
    const shmSegment: FragmentedShmSegment
    const semaphores: Semaphores
    var at: ClientPoint
    var compressedFileSize: size_t
    var fileSendSize: nat
    var fileRecvSize: nat
    var compressedData: array<byte>
    /** The size field of the message of the current iteration. */
    var message: size_t

    constructor (src: seq<byte>, shmSegment: FragmentedShmSegment, semaphores: Semaphores)
      requires shmSegment.Valid()
      ensures this.src == src && this.shmSegment == shmSegment && this.semaphores == semaphores
      ensures fresh(compressedData) && Valid()
      ensures AsClient() == Client(PutTest, 0, 0, [], 0, 0)
    {
      this.src := src;
      this.shmSegment := shmSegment;
      this.semaphores := semaphores;
      at := PutTest;
      compressedFileSize, fileSendSize, fileRecvSize, message := 0, 0, 0, 0;
      compressedData := new byte[0];
    }

    ghost predicate Valid()
      reads this, shmSegment
    {
      && shmSegment.Valid() && compressedData.Length == compressedFileSize && compressedData !in shmSegment.memories
      && fileSendSize <= |src| && fileRecvSize <= compressedFileSize
      && (ClientDownloading(at) || at.TurnPost? || at.ClientFailed? || fileRecvSize == 0)
    }

    ghost function AsClient(): Client
      reads this, compressedData
    {
      Client(at, fileSendSize, compressedFileSize, compressedData[..], fileRecvSize, message)
    }

    /** The state of the transfer, next to a server in state v. */
    ghost function AsState(v: Server): State
      requires Valid()
      reads this, compressedData, semaphores, shmSegment, shmSegment.memories
    {
      State(v, AsClient(), semaphores.server, semaphores.client, semaphores.sense, shmSegment.Flat())
    }

    /** sendServerData, up to the end of the header. */
    method SendServerHeader(ghost j: Job, ghost v: Server)
      requires Valid() && j.src == src && at == PutHeader
      modifies this`at, this`message, shmSegment.memories
      ensures Valid() && AsState(v) == ClientStep(j, old(AsState(v)))
    {
      ghost var s := AsState(v);
      var n := Chunk(|src| - fileSendSize, shmSegment.size);
      var ok := n < SIZE_LIMIT;
      if ok {
        ok := WriteSize(shmSegment, n);
      }
      if ok {
        message, at := n, PutBody;
      } else {
        at := ClientFailed;
      }
      assert AsState(v) == s.(client := AsClient(), segment := shmSegment.Flat());
    }

    /** sendServerData, from the payload on. */
    method SendServerBody(ghost j: Job, ghost v: Server)
      requires Valid() && j.src == src && at == PutBody
      modifies this`at, this`fileSendSize, shmSegment.memories
      ensures Valid() && AsState(v) == ClientStep(j, old(AsState(v)))
    {
      ghost var s := AsState(v);
      var ok := fileSendSize + message <= |src|;
      if ok {
        ok := shmSegment.Write(src[fileSendSize..fileSendSize + message], HEADER);
      }
      if ok {
        fileSendSize, at := fileSendSize + message, PutPost;
      } else {
        at := ClientFailed;
      }
      assert AsState(v) == s.(client := AsClient(), segment := shmSegment.Flat());
    }

    /** processFileData. */
    method ProcessFileData(ghost j: Job, ghost v: Server)
      requires Valid() && j.src == src && at == MetaRead
      modifies this`at, this`compressedFileSize, this`compressedData
      ensures Valid() && AsState(v) == ClientStep(j, old(AsState(v)))
      ensures compressedData == old(compressedData) || fresh(compressedData)
    {
      ghost var s := AsState(v);
      var ok, n := ReadSize(shmSegment);
      if ok {
        compressedFileSize, at := n, TurnPost;
        compressedData := new byte[n](_ => 0);
        assert compressedData[..] == Zeros(n);
      } else {
        at := ClientFailed;
      }
      assert AsState(v) == s.(client := AsClient());
    }

    /** processServerData, up to the end of parse. */
    method ParseServerData(ghost j: Job, ghost v: Server)
      requires Valid() && j.src == src && at == GetParse
      modifies this`at, this`message
      ensures Valid() && AsState(v) == ClientStep(j, old(AsState(v)))
    {
      var ok, n := ReadSize(shmSegment);
      if ok {
        message, at := n, GetCopy;
      } else {
        at := ClientFailed;
      }
    }

    /** processServerData, from copyData on. */
    method CopyServerData(ghost j: Job, ghost v: Server)
      requires Valid() && j.src == src && at == GetCopy
      modifies this`at, this`fileRecvSize, compressedData
      ensures Valid() && AsState(v) == ClientStep(j, old(AsState(v)))
    {
      ghost var s := AsState(v);
      var ok := CopyBody(shmSegment, message, compressedData, fileRecvSize, compressedData.Length - fileRecvSize);
      if ok {
        fileRecvSize, at := fileRecvSize + message, GetPost;
      } else {
        at := ClientFailed;
      }
      assert AsState(v) == s.(client := AsClient());
    }

    predicate Enabled()
      reads this`at, semaphores
    {
      ClientMoves(at, semaphores.server, semaphores.client, semaphores.sense)
    }

    /** The loop tests and the semaphore operations. */
    method Synchronize(ghost j: Job, ghost v: Server)
      requires Valid() && j.src == src && ClientEnabled(AsState(v))
      requires at.PutTest? || at.PutWait? || at.PutPost? || at.SenseWait? || at.TurnPost? || at.GetTest? || at.GetWait? || at.GetPost?
      modifies this`at, semaphores
      ensures Valid() && AsState(v) == ClientStep(j, old(AsState(v)))
    {
      match at
      case PutTest => at := if fileSendSize < |src| then PutWait else SenseWait;
      case PutWait => semaphores.server, at := semaphores.server - 1, PutHeader;
      case PutPost => semaphores.client, at := semaphores.client + 1, PutTest;
      case SenseWait => semaphores.sense, at := semaphores.sense - 1, MetaRead;
      case TurnPost => semaphores.server, at := semaphores.server + 1, GetTest;
      case GetTest => at := if fileRecvSize < compressedFileSize then GetWait else ClientDone;
      case GetWait => semaphores.client, at := semaphores.client - 1, GetParse;
      case GetPost => semaphores.server, at := semaphores.server + 1, GetTest;
    }

    /** The program between two interleaving points. */
    method Step(ghost j: Job, ghost v: Server)
      requires Valid() && j.src == src && ClientEnabled(AsState(v))
      modifies this, compressedData, semaphores, shmSegment.memories
      ensures Valid() && AsState(v) == ClientStep(j, old(AsState(v)))
      ensures compressedData == old(compressedData) || fresh(compressedData)
    {
      match at
      case PutHeader => SendServerHeader(j, v);
      case PutBody => SendServerBody(j, v);
      case MetaRead => ProcessFileData(j, v);
      case GetParse => ParseServerData(j, v);
      case GetCopy => CopyServerData(j, v);
      case _ => Synchronize(j, v);
    }
  }

  /** The two handlers of one transfer: the same shared bytes, the same semaphores, separate buffers. */
  ghost predicate Paired(j: Job, server: ServiceFileCompressorHandler, client: ClientFileCompressorHandler)
    reads server, client, server.shmSegment, client.shmSegment
  {
    && server.Valid() && client.Valid()
    && SamePlaces(server.shmSegment, client.shmSegment) && server.shmSegment.memories == client.shmSegment.memories
    && server.semaphores == client.semaphores
    && server.rawData != client.compressedData
    && j.src == client.src && j.compress == server.compress
  }

  /** Lets one of the processes that can move take a step. */
  method Interleave(ghost j: Job, server: ServiceFileCompressorHandler, client: ClientFileCompressorHandler)
    requires Paired(j, server, client) && (server.Enabled() || client.Enabled())
    modifies server, server.rawData, client, client.compressedData, server.semaphores, server.shmSegment.memories
    ensures Paired(j, server, client)
    ensures client.compressedData == old(client.compressedData) || fresh(client.compressedData)
    ensures Next(j, old(server.AsState(client.AsClient())), server.AsState(client.AsClient()))
  {
    SamePlacesSameBytes(server.shmSegment, client.shmSegment);
    if {
      case server.Enabled() => server.Step(j, client.AsClient());
      case client.Enabled() =>
        client.Step(j, server.AsServer());
        SamePlacesSameBytes(server.shmSegment, client.shmSegment);
    }
  }

  /** A step of the handlers continues the run and brings its end nearer. */
  lemma ContinueRun(j: Job, run: seq<State>, s': State) returns (run': seq<State>)
    requires j.Valid() && j.Fits() && IsRun(j, run) && Next(j, run[|run| - 1], s')
    ensures IsRun(j, run') && |run'| == |run| + 1 && run'[|run|] == s'
    ensures 0 <= Measure(j, s') < Measure(j, run[|run| - 1])
  {
    RunInvariant(j, run, |run| - 1);
    RunIsFull(j, run, |run| - 1);
    StepDecreasesMeasure(j, run[|run| - 1], s');
    run' := ExtendRun(j, run, s');
  }

  /**
   Both handlers over one segment, in whatever order the scheduler picks: they
   always finish, and deliver the file one way and its compression the other.
   */
  method Transfer(ghost j: Job, server: ServiceFileCompressorHandler, client: ClientFileCompressorHandler)
    requires j.Valid() && j.Fits() && Paired(j, server, client)
    requires Init(j, server.AsState(client.AsClient()))
    modifies server, server.rawData, client, client.compressedData, server.semaphores, server.shmSegment.memories
    ensures server.at == ServerDone && client.at == ClientDone
    ensures server.rawData[..] == j.src
    ensures client.compressedData[..] == j.compress(j.src)
    ensures client.compressedData == old(client.compressedData) || fresh(client.compressedData)
    ensures server.semaphores.server == 1 && server.semaphores.client == 0 && server.semaphores.sense == 0
  {
    ghost var s := server.AsState(client.AsClient());
    ghost var run := [s];
    while server.Enabled() || client.Enabled()
      invariant Paired(j, server, client)
      invariant client.compressedData == old(client.compressedData) || fresh(client.compressedData)
      invariant IsRun(j, run) && run[|run| - 1] == s == server.AsState(client.AsClient())
      decreases Measure(j, s)
    {
      Interleave(j, server, client);
      s := server.AsState(client.AsClient());
      run := ContinueRun(j, run, s);
    }
    MaximalRunDelivers(j, run);
  }
}
