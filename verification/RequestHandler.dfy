/** request_handler.cpp: accepting the chunks of an upload, and forwarding a stored file to a client. */
module RequestHandler {
  import opened Wrappers
  import opened Chunking
  import opened Protocol
  import F = FileServer

  datatype UploadState = UploadState(lastChunkReceived: nat, completed: bool)

  const NO_UPLOAD: UploadState := UploadState(0, false)

  /** What a chunk finds and leaves behind for its file name: the bookkeeping and the stored file. */
  datatype ServerState = ServerState(upload: UploadState, stored: Option<Bytes>)

  /** What surrounds one chunk: the connection to the file server and the file server's disk. */
  datatype Surroundings = Surroundings(link: F.Link, disk: F.Disk)

  function OrEmpty(stored: Option<Bytes>): Bytes {
    if stored.Some? then stored.value else []
  }

  /** One chunk at the chat server: the state afterwards and the status sent back. */
  ghost function Accept(s: ServerState, message: ChunkMessage, validName: bool, maxSize: nat, around: Surroundings)
    : (ServerState, Status)
  {
    if message.number != s.upload.lastChunkReceived + 1 then (s, WrongChunkOrder)
    else
      var (success, stored) :=
        F.UploadOutcome(validName, maxSize, s.stored, message.data, around.link, around.disk);
      if success then
        (ServerState(UploadState(message.number, s.upload.completed || message.isLast), stored), Success)
      else
        (ServerState(s.upload, stored), UploadFailed)
  }

  /**
   * Success is answered exactly for the chunk that comes next, if the file server accepts it and neither the disk
   * nor the connection fails; then the chunk is recorded and stored. Otherwise nothing is recorded.
   */
  lemma AcceptExact(s: ServerState, message: ChunkMessage, validName: bool, maxSize: nat, around: Surroundings)
    ensures var (after, status) := Accept(s, message, validName, maxSize, around);
            && (status == Success <==>
                  && message.number == s.upload.lastChunkReceived + 1
                  && F.Acceptable(validName, maxSize, s.stored, message.data)
                  && around == Surroundings(F.Delivered, F.DiskWorks))
            && (status == Success ==>
                  after == ServerState(UploadState(message.number, s.upload.completed || message.isLast),
                                       Some(OrEmpty(s.stored) + message.data)))
            && (status != Success ==> after.upload == s.upload)
            && (status == WrongChunkOrder <==> message.number != s.upload.lastChunkReceived + 1)
            && (status == WrongChunkOrder ==> after == s)
  {
    F.SuccessAppends(validName, maxSize, s.stored, message.data, around.link, around.disk);
    hide F.UploadOutcome, F.Acceptable;
  }

  // ----- any sequence of chunks

  /** The state after a sequence of chunks, each in its own surroundings. */
  ghost function AcceptAll(s: ServerState, messages: seq<ChunkMessage>, validName: bool, maxSize: nat,
                           around: seq<Surroundings>): ServerState
    requires |around| == |messages|
    decreases |messages|
  {
    if messages == [] then s
    else AcceptAll(Accept(s, messages[0], validName, maxSize, around[0]).0, messages[1..], validName, maxSize,
                   around[1..])
  }

  /** The statuses those chunks were answered with. */
  ghost function Answers(s: ServerState, messages: seq<ChunkMessage>, validName: bool, maxSize: nat,
                         around: seq<Surroundings>): (statuses: seq<Status>)
    requires |around| == |messages|
    ensures |statuses| == |messages|
    decreases |messages|
  {
    if messages == [] then []
    else
      var (next, status) := Accept(s, messages[0], validName, maxSize, around[0]);
      [status] + Answers(next, messages[1..], validName, maxSize, around[1..])
  }

  /** The messages answered with success, in order. */
  function Acknowledged(messages: seq<ChunkMessage>, statuses: seq<Status>): seq<ChunkMessage>
    requires |statuses| == |messages|
  {
    if messages == [] then []
    else (if statuses[0] == Success then [messages[0]] else []) + Acknowledged(messages[1..], statuses[1..])
  }

  function Joined(messages: seq<ChunkMessage>): Bytes {
    if messages == [] then [] else messages[0].data + Joined(messages[1..])
  }

  predicate MarksLast(messages: seq<ChunkMessage>) {
    exists i :: 0 <= i < |messages| && messages[i].isLast
  }

  predicate Consecutive(messages: seq<ChunkMessage>, first: nat) {
    forall i :: 0 <= i < |messages| ==> messages[i].number == first + i
  }

  /** What a sequence of acknowledged chunks does to the bookkeeping, and to the stored file if no upload failed. */
  ghost predicate Took(s: ServerState, end: ServerState, taken: seq<ChunkMessage>, clean: bool) {
    && end.upload.lastChunkReceived == s.upload.lastChunkReceived + |taken|
    && Consecutive(taken, s.upload.lastChunkReceived + 1)
    && (end.upload.completed <==> s.upload.completed || MarksLast(taken))
    && (clean ==> OrEmpty(end.stored) == OrEmpty(s.stored) + Joined(taken))
  }

  lemma TookNothing(s: ServerState, next: ServerState, end: ServerState, taken: seq<ChunkMessage>, clean: bool)
    requires next.upload == s.upload && (clean ==> next.stored == s.stored)
    requires Took(next, end, taken, clean)
    ensures Took(s, end, taken, clean)
  {
  }

  lemma TookOneMore(s: ServerState, next: ServerState, end: ServerState, message: ChunkMessage,
                    taken: seq<ChunkMessage>, clean: bool)
    requires message.number == s.upload.lastChunkReceived + 1
    requires next.upload == UploadState(message.number, s.upload.completed || message.isLast)
    requires next.stored == Some(OrEmpty(s.stored) + message.data)
    requires Took(next, end, taken, clean)
    ensures Took(s, end, [message] + taken, clean)
  {
    var all := [message] + taken;
    assert all[1..] == taken;
    assert MarksLast(all) <==> message.isLast || MarksLast(taken) by {
      if MarksLast(taken) {
        var i :| 0 <= i < |taken| && taken[i].isLast;
        assert all[i + 1].isLast;
      }
      if message.isLast {
        assert all[0].isLast;
      }
    }
    assert OrEmpty(s.stored) + message.data + Joined(taken) == OrEmpty(s.stored) + Joined(all);
  }

  /**
   * Whatever arrives, in whatever order and however often: the acknowledged chunks carry consecutive numbers from
   * where the upload stood, and as long as no upload failed the stored file grew by exactly their data.
   */
  lemma {:induction false} AcknowledgedAreStored(s: ServerState, messages: seq<ChunkMessage>, validName: bool,
                                                 maxSize: nat, around: seq<Surroundings>)
    requires |around| == |messages|
    ensures var statuses := Answers(s, messages, validName, maxSize, around);
            Took(s, AcceptAll(s, messages, validName, maxSize, around), Acknowledged(messages, statuses),
                 UploadFailed !in statuses)
    decreases |messages|
  {
    if messages != [] {
      var (next, status) := Accept(s, messages[0], validName, maxSize, around[0]);
      var later := around[1..];
      AcknowledgedAreStored(next, messages[1..], validName, maxSize, later);
      var rest := Answers(next, messages[1..], validName, maxSize, later);
      var end := AcceptAll(next, messages[1..], validName, maxSize, later);
      var taken := Acknowledged(messages[1..], rest);
      var statuses := [status] + rest;
      assert statuses == Answers(s, messages, validName, maxSize, around) && statuses[1..] == rest;
      var clean := UploadFailed !in statuses;
      assert Took(next, end, taken, clean);
      if status == Success {
        F.SuccessAppends(validName, maxSize, s.stored, messages[0].data, around[0].link, around[0].disk);
        TookOneMore(s, next, end, messages[0], taken, clean);
      } else {
        TookNothing(s, next, end, taken, clean);
        assert Acknowledged(messages, statuses) == taken;
      }
    }
  }

  // ----- forwarding

  datatype PendingTransfer = PendingTransfer(name: F.FileName, senderId: int, receiverId: int)

  /** What a forwarding meets: whether the receiver is online and can be notified, and how many writes work. */
  datatype Way = Way(online: bool, notified: bool, readable: bool, writable: nat)

  /** The receiver was notified of a file and sent these messages. */
  datatype Forwarding = Forwarding(transfer: PendingTransfer, messages: seq<ChunkMessage>)

  /** The messages that carry the given chunks to a receiver. */
  ghost function Forwarded(name: F.FileName, chunks: seq<Bytes>): seq<ChunkMessage> {
    seq(|chunks|, i requires 0 <= i < |chunks| => ChunkMessage(name, i, chunks[i], i == |chunks| - 1))
  }

  /** The chunks collected for a file; `thrown` is what the HTTP library answers when the handler throws. */
  ghost function ChunksFor(name: F.FileName, stored: Option<Bytes>, readable: bool, thrown: seq<Bytes>): seq<Bytes> {
    var bodies := F.DownloadBodies(name, stored, readable);
    F.Collected(if bodies.Some? then bodies.value else thrown)
  }

  ghost function SentMessages(name: F.FileName, stored: Option<Bytes>, way: Way, thrown: seq<Bytes>)
    : seq<ChunkMessage>
  {
    var chunks := ChunksFor(name, stored, way.readable, thrown);
    Forwarded(name, chunks)[..Min(way.writable, |chunks|)]
  }

  /** The index of the first pending transfer of the file, or the length of the list. */
  function FirstPending(pending: seq<PendingTransfer>, name: F.FileName): (i: nat)
    ensures i <= |pending|
    ensures i < |pending| ==> pending[i].name == name
    ensures forall j :: 0 <= j < i ==> pending[j].name != name
  {
    if pending == [] || pending[0].name == name then 0 else 1 + FirstPending(pending[1..], name)
  }

  class RequestHandler {
    const fileServer: F.FileServer
    var fileUploads: map<F.FileName, UploadState>
    var pendingTransfers: seq<PendingTransfer>

    constructor (fileServer: F.FileServer)
      ensures this.fileServer == fileServer && fileUploads == map[] && pendingTransfers == []
    {
      this.fileServer := fileServer;
      fileUploads := map[];
      pendingTransfers := [];
    }

    ghost function State(name: F.FileName): ServerState
      reads this, fileServer
    {
      ServerState(if name in fileUploads then fileUploads[name] else NO_UPLOAD, fileServer.Stored(name))
    }

    /**
     * Handles one chunk. An accepted last chunk forwards the file for its first pending transfer, which then leaves
     * the list, however many of the messages could be written.
     */
    method HandleFileChunk(message: ChunkMessage, around: Surroundings, way: Way, thrown: seq<Bytes>)
      returns (ack: ChunkAck, forwarding: Option<Forwarding>)
      modifies this, fileServer
      ensures (State(message.name), ack.status)
           == Accept(old(State(message.name)), message, F.ValidName(message.name), fileServer.maxFileSize, around)
      ensures ack.name == message.name && ack.number == message.number
      ensures forall other :: other != message.name ==> State(other) == old(State(other))
      ensures forwarding.Some? <==>
                && ack.status == Success && message.isLast && way.online && way.notified
                && exists i :: 0 <= i < |old(pendingTransfers)| && old(pendingTransfers)[i].name == message.name
      ensures forwarding == None ==> pendingTransfers == old(pendingTransfers)
      ensures forwarding.Some? ==>
                var pending, name := old(pendingTransfers), message.name;
                exists i :: 0 <= i < |pending| && pending[i].name == name
                  && (forall j :: 0 <= j < i ==> pending[j].name != name)
                  && pendingTransfers == pending[..i] + pending[i + 1..]
                  && forwarding.value == Forwarding(pending[i], SentMessages(name, State(name).stored, way, thrown))
    {
      forwarding := None;
      var name := message.name;
      if name !in fileUploads {
        fileUploads := fileUploads[name := NO_UPLOAD];
      }
      var upload := fileUploads[name];
      if message.number != upload.lastChunkReceived + 1 {
        ack := ChunkAck(name, message.number, WrongChunkOrder);
        return;
      }
      var uploaded := fileServer.UploadChunk(name, message.data, around.link, around.disk);
      if !uploaded {
        ack := ChunkAck(name, message.number, UploadFailed);
        return;
      }
      upload := upload.(lastChunkReceived := message.number);
      if message.isLast {
        upload := upload.(completed := true);
        var i := FindPending(name);
        if i < |pendingTransfers| && way.online && way.notified {
          var messages := SendFileToClient(name, way.readable, way.writable, thrown);
          forwarding := Some(Forwarding(pendingTransfers[i], messages));
          pendingTransfers := pendingTransfers[..i] + pendingTransfers[i + 1..];
        }
      }
      fileUploads := fileUploads[name := upload];
      ack := ChunkAck(name, message.number, Success);
    }

    method FindPending(name: F.FileName) returns (i: nat)
      ensures i == FirstPending(pendingTransfers, name)
    {
      i := 0;
      while i < |pendingTransfers| && pendingTransfers[i].name != name
        invariant i <= |pendingTransfers|
        invariant FirstPending(pendingTransfers, name) == i + FirstPending(pendingTransfers[i..], name)
      {
        assert pendingTransfers[i..][1..] == pendingTransfers[i + 1..];
        i := i + 1;
      }
    }

    /** Forwards a stored file; the write after the first `writable` ones fails and ends the loop. */
    method SendFileToClient(name: F.FileName, readable: bool, writable: nat, thrown: seq<Bytes>)
      returns (messages: seq<ChunkMessage>)
      ensures var chunks := ChunksFor(name, fileServer.Stored(name), readable, thrown);
              && messages == Forwarded(name, chunks)[..Min(writable, |chunks|)]
              && forall i :: 0 <= i < |messages| ==>
                   messages[i].name == name && messages[i].number == i && messages[i].data == chunks[i]
                   && (messages[i].isLast <==> i == |chunks| - 1)
    {
      var bodies := fileServer.DownloadFile(name, readable);
      var chunks := F.DownloadFileChunks(if bodies.Some? then bodies.value else thrown);
      messages := [];
      if chunks == [] {
        return;
      }
      var i := 0;
      while i < |chunks|
        invariant 0 <= i <= |chunks| && i <= writable
        invariant messages == Forwarded(name, chunks)[..i]
      {
        var message := ChunkMessage(name, i, chunks[i], i == |chunks| - 1);
        if i == writable {
          return;
        }
        messages := messages + [message];
        i := i + 1;
      }
    }
  }
}
