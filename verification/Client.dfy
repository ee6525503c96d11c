/** client.cpp: sending a file chunk by chunk, and receiving one. */
module Client {
  import opened Wrappers
  import opened Chunking
  import opened Protocol
  import F = FileServer

  // ----- sending

  /** The message for chunk n of f: only a short chunk is marked as the last one. */
  function UploadMessage(name: F.FileName, f: Bytes, n: nat): ChunkMessage
    requires 1 <= n <= Count(f)
  {
    ChunkMessage(name, n, Chunk(f, n), |Chunk(f, n)| < CHUNK)
  }

  /** The messages for the first n chunks. */
  ghost function UploadMessages(name: F.FileName, f: Bytes, n: nat): seq<ChunkMessage>
    requires n <= Count(f)
  {
    seq(n, i requires 0 <= i < n => UploadMessage(name, f, i + 1))
  }

  lemma OneMoreMessage(name: F.FileName, f: Bytes, n: nat)
    requires 1 <= n <= Count(f)
    ensures UploadMessages(name, f, n - 1) + [UploadMessage(name, f, n)] == UploadMessages(name, f, n)
  {
  }

  /** What reading 512 bytes at the right position yields. */
  lemma NextChunkRead(f: Bytes, n: nat)
    requires 1 <= n && CHUNK * (n - 1) <= |f|
    ensures n <= Count(f) <==> CHUNK * (n - 1) < |f|
    ensures n <= Count(f) ==>
              && f[CHUNK * (n - 1)..Min(CHUNK * (n - 1) + CHUNK, |f|)] == Chunk(f, n)
              && |Prefix(f, n - 1)| + |Chunk(f, n)| == |Prefix(f, n)| == Min(CHUNK * n, |f|)
              && (|Chunk(f, n)| < CHUNK ==> n == Count(f))
  {
    if n <= Count(f) {
      ChunkSize(f, n);
      PrefixGrows(f, n);
    }
  }

  /**
   * Whether the flag is up when each wait ends, given whether an acknowledgment arrives before it does: a flag left
   * up beforehand satisfies the first wait.
   */
  function Satisfied(flag: bool, arrivals: seq<bool>): seq<bool> {
    if !flag then arrivals else [true] + (if arrivals == [] then [] else arrivals[1..])
  }

  /** The number of waits satisfied before the first that is not. */
  function LeadingTrue(waits: seq<bool>): nat {
    if waits == [] || !waits[0] then 0 else 1 + LeadingTrue(waits[1..])
  }

  lemma {:induction false} LeadingTrueIs(waits: seq<bool>, n: nat)
    requires n <= |waits|
    requires forall i :: 0 <= i < n ==> waits[i]
    ensures LeadingTrue(waits) >= n
    ensures n == |waits| || !waits[n] ==> LeadingTrue(waits) == n
  {
    if n > 0 {
      LeadingTrueIs(waits[1..], n - 1);
    }
  }

  /** How sending ended. */
  datatype SendOutcome = NotOpened | TimedOut | Completed(bytesSent: nat)

  /**
   * What sending f comes to when acknowledgments arrive like this: the chunks go out in order, each after the wait
   * for the one before it was satisfied, and the flag is down afterwards unless there was nothing to send.
   */
  ghost predicate SendResult(name: F.FileName, f: Bytes, flag: bool, arrivals: seq<bool>,
                             sent: seq<ChunkMessage>, outcome: SendOutcome, flagAfter: bool)
  {
    var acked := LeadingTrue(Satisfied(flag, arrivals));
    && sent == UploadMessages(name, f, Min(acked + 1, Count(f)))
    && outcome == (if acked >= Count(f) then Completed(|f|) else TimedOut)
    && flagAfter == (flag && f == [])
  }

  /** Chunks before n are sent and acknowledged; `good` and `pos` are the stream's. */
  ghost predicate Between(name: F.FileName, f: Bytes, flag: bool, arrivals: seq<bool>, n: nat, pos: nat, good: bool,
                          sent: seq<ChunkMessage>, flagNow: bool)
  {
    && 1 <= n <= Count(f) + 1
    && pos == |Prefix(f, n - 1)| && (if good then pos == CHUNK * (n - 1) else n == Count(f) + 1)
    && sent == UploadMessages(name, f, n - 1)
    && n - 1 <= |Satisfied(flag, arrivals)| && (forall i :: 0 <= i < n - 1 ==> Satisfied(flag, arrivals)[i])
    && flagNow == (flag && n == 1)
  }

  lemma AtTheStart(name: F.FileName, f: Bytes, flag: bool, arrivals: seq<bool>)
    ensures Between(name, f, flag, arrivals, 1, 0, true, [], flag)
  {
    WholePrefix(f);
  }

  /** What the stream yields next. */
  lemma NextRead(name: F.FileName, f: Bytes, flag: bool, arrivals: seq<bool>, n: nat, pos: nat,
                 sent: seq<ChunkMessage>, flagNow: bool)
    requires Between(name, f, flag, arrivals, n, pos, true, sent, flagNow)
    ensures pos <= |f|
    ensures if n <= Count(f) then 1 <= n && |Chunk(f, n)| > 0 && f[pos..Min(pos + CHUNK, |f|)] == Chunk(f, n)
            else n == Count(f) + 1 && f[pos..Min(pos + CHUNK, |f|)] == []
  {
    NextChunkRead(f, n);
    if n <= Count(f) {
      ChunkSize(f, n);
    }
  }

  /** One more chunk sent: either its wait is satisfied, or sending is over. */
  lemma AfterWait(name: F.FileName, f: Bytes, flag: bool, arrivals: seq<bool>, n: nat, pos: nat,
                  sent: seq<ChunkMessage>, flagNow: bool, good: bool, flagRaised: bool)
    requires Between(name, f, flag, arrivals, n, pos, true, sent, flagNow) && n <= Count(f)
    requires good <==> |Chunk(f, n)| == CHUNK
    requires flagRaised == (flagNow || (n - 1 < |arrivals| && arrivals[n - 1]))
    ensures var newSent := sent + [UploadMessage(name, f, n)];
            if flagRaised then
              Between(name, f, flag, arrivals, n + 1, pos + |Chunk(f, n)|, good, newSent, false)
            else
              SendResult(name, f, flag, arrivals, newSent, TimedOut, flagRaised)
  {
    NextRead(name, f, flag, arrivals, n, pos, sent, flagNow);
    NextChunkRead(f, n);
    OneMoreMessage(name, f, n);
    WholePrefix(f);
    hide UploadMessages, Prefix, Chunk, Count;
    var waits := Satisfied(flag, arrivals);
    assert flagRaised <==> n - 1 < |waits| && waits[n - 1];
    LeadingTrueIs(waits, n - 1);
  }

  /** The file is read: everything was sent and acknowledged. */
  lemma AtTheEnd(name: F.FileName, f: Bytes, flag: bool, arrivals: seq<bool>, n: nat, pos: nat, good: bool,
                 sent: seq<ChunkMessage>, flagNow: bool)
    requires Between(name, f, flag, arrivals, n, pos, good, sent, flagNow) && (good ==> n > Count(f))
    ensures SendResult(name, f, flag, arrivals, sent, Completed(pos), flagNow)
  {
    WholePrefix(f);
    LeadingTrueIs(Satisfied(flag, arrivals), n - 1);
  }

  // ----- receiving

  /** What the client holds for one incoming file: whether it is open, whether its stream works, what is on disk. */
  datatype Incoming = Incoming(isOpen: bool, good: bool, stored: Option<Bytes>)

  /** The notification of a file opens it, which truncates it if it works. */
  function OpenIncoming(r: Incoming, opens: bool): Incoming {
    Incoming(true, opens, if opens then Some([]) else r.stored)
  }

  /** A chunk is written while the stream works; `writes` says whether this write does. The last one closes. */
  function ReceiveChunk(r: Incoming, message: ChunkMessage, writes: bool): Incoming {
    if !r.isOpen then r
    else
      var good := r.good && writes;
      Incoming(!message.isLast, good && !message.isLast,
               if good then Some((if r.stored.Some? then r.stored.value else []) + message.data) else r.stored)
  }

  /** Receiving messages with a disk that works. */
  function ReceiveAll(r: Incoming, messages: seq<ChunkMessage>): Incoming {
    if messages == [] then r
    else ReceiveChunk(ReceiveAll(r, messages[..|messages| - 1]), messages[|messages| - 1], true)
  }

  class Client {
    var chunkAcknowledged: bool
    var incomingFiles: map<F.FileName, bool>  // the open streams, and whether they work
    var userFiles: map<F.FileName, Bytes>

    /** A stream that works has its file on disk. */
    ghost predicate Valid()
      reads this
    {
      forall name :: name in incomingFiles && incomingFiles[name] ==> name in userFiles
    }

    constructor ()
      ensures Valid() && !chunkAcknowledged && incomingFiles == map[] && userFiles == map[]
    {
      chunkAcknowledged := false;
      incomingFiles := map[];
      userFiles := map[];
    }

    ghost function Held(name: F.FileName): Incoming
      reads this
    {
      Incoming(name in incomingFiles, name in incomingFiles && incomingFiles[name],
               if name in userFiles then Some(userFiles[name]) else None)
    }

    /**
     * Sends a file, or finds it missing. `arrivals` says for each wait whether an acknowledgment raises the flag
     * before the wait ends.
     */
    method SendFileChunks(name: F.FileName, content: Option<Bytes>, arrivals: seq<bool>)
      returns (sent: seq<ChunkMessage>, outcome: SendOutcome)
      modifies this`chunkAcknowledged
      ensures content.None? ==>
                sent == [] && outcome == NotOpened && chunkAcknowledged == old(chunkAcknowledged)
      ensures content.Some? ==>
                SendResult(name, content.value, old(chunkAcknowledged), arrivals, sent, outcome, chunkAcknowledged)
    {
      sent := [];
      if content.None? {
        return sent, NotOpened;
      }
      var f := content.value;
      var file := new FileStream(f, true);
      var chunkNumber, totalBytesSent := 1, 0;
      ghost var flag := chunkAcknowledged;
      AtTheStart(name, f, flag, arrivals);
      hide Between, SendResult, Chunk, Count;
      while file.good
        invariant file.Valid() && file.content == f && fresh(file) && file.pos == totalBytesSent
        invariant 1 <= chunkNumber
        invariant Between(name, f, flag, arrivals, chunkNumber, file.pos, file.good, sent, chunkAcknowledged)
        decreases if file.good then |f| - file.pos + 1 else 0
      {
        ghost var before, pos, flagBefore := sent, file.pos, chunkAcknowledged;
        NextRead(name, f, flag, arrivals, chunkNumber, pos, before, flagBefore);
        var bytes := file.Read(CHUNK);
        if |bytes| <= 0 {
          break;
        }
        totalBytesSent := totalBytesSent + |bytes|;
        var isLast := !file.good || |bytes| < CHUNK;
        sent := sent + [ChunkMessage(name, chunkNumber, bytes, isLast)];
        chunkAcknowledged := chunkAcknowledged || (chunkNumber - 1 < |arrivals| && arrivals[chunkNumber - 1]);
        AfterWait(name, f, flag, arrivals, chunkNumber, pos, before, flagBefore, file.good, chunkAcknowledged);
        if !chunkAcknowledged {
          return sent, TimedOut;
        }
        chunkAcknowledged := false;
        chunkNumber := chunkNumber + 1;
      }
      AtTheEnd(name, f, flag, arrivals, chunkNumber, totalBytesSent, file.good, sent, chunkAcknowledged);
      return sent, Completed(totalBytesSent);
    }

    method HandleChunkAcknowledgment(ack: ChunkAck)
      modifies this`chunkAcknowledged
      ensures chunkAcknowledged == (old(chunkAcknowledged) || ack.status == Success)
    {
      if ack.status == Success {
        chunkAcknowledged := true;
      }
    }

    method HandleIncomingFile(name: F.FileName, opens: bool)
      requires Valid()
      modifies this`incomingFiles, this`userFiles
      ensures Valid() && Held(name) == OpenIncoming(old(Held(name)), opens)
      ensures name in incomingFiles && incomingFiles[name] == opens
      ensures Held(name).stored == if opens then Some([]) else old(Held(name).stored)
      ensures forall other :: other != name ==> Held(other) == old(Held(other))
    {
      if opens {
        userFiles := userFiles[name := []];
      }
      incomingFiles := incomingFiles[name := opens];
    }

    /** Every chunk of an open file is acknowledged, written or not. */
    method HandleIncomingFileChunk(message: ChunkMessage, writes: bool) returns (receipt: Option<ChunkReceipt>)
      requires Valid()
      modifies this`incomingFiles, this`userFiles
      ensures Valid() && Held(message.name) == ReceiveChunk(old(Held(message.name)), message, writes)
      ensures Held(message.name).isOpen <==> old(Held(message.name)).isOpen && !message.isLast
      ensures Held(message.name).good <==> old(Held(message.name)).good && writes && !message.isLast
      ensures var before := old(Held(message.name));
              Held(message.name).stored
                == if before.good && writes then Some(before.stored.value + message.data) else before.stored
      ensures receipt == if old(Held(message.name)).isOpen then Some(ChunkReceipt(message.name, message.number))
                         else None
      ensures forall other :: other != message.name ==> Held(other) == old(Held(other))
    {
      var name := message.name;
      if name !in incomingFiles {
        return None;
      }
      if incomingFiles[name] && writes {
        userFiles := userFiles[name := userFiles[name] + message.data];
      } else {
        incomingFiles := incomingFiles[name := false];
      }
      receipt := Some(ChunkReceipt(name, message.number));
      if message.isLast {
        incomingFiles := incomingFiles - {name};
      }
    }
  }
}
