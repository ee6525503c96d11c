/** Uploads one after the other on the same connection: what one leaves behind for the next. */
module UploadHistory {
  import opened Wrappers
  import opened Chunking
  import opened Protocol
  import opened RequestHandler
  import opened Client
  import opened Upload
  import F = FileServer

  /** The start of the next upload on the same connection. */
  function Next(s: State): State {
    State(1, Sending, s.acknowledged, s.toServer, s.toClient, s.servers, false)
  }

  /** No chunk of a file is in the queue twice. */
  predicate NoRepeats(queue: seq<ChunkMessage>) {
    forall i, j :: 0 <= i < j < |queue| ==> queue[i].name != queue[j].name || queue[i].number != queue[j].number
  }

  /** The server would answer this message with success as things stand. */
  ghost predicate Ripe(c: Config, servers: Servers, m: ChunkMessage) {
    var state := At(servers, m.name);
    && m.name != c.name && m.number == state.upload.lastChunkReceived + 1
    && F.Acceptable(F.ValidName(m.name), c.maxSize, state.stored, m.data)
  }

  lemma RipeExact(c: Config, servers: Servers, m: ChunkMessage, around: Surroundings)
    requires m.name != c.name
    ensures Take(servers, m, c.maxSize, around).1 == Success <==>
              Ripe(c, servers, m) && around == CALM
  {
    AcceptExact(At(servers, m.name), m, F.ValidName(m.name), c.maxSize, around);
    hide Accept, F.Acceptable;
  }

  /** A chunk that was not accepted makes no other chunk welcome. */
  lemma RipeBefore(c: Config, servers: Servers, m: ChunkMessage, around: Surroundings, other: ChunkMessage)
    requires m.name != other.name || m.number != other.number
    requires var (after, status) := Take(servers, m, c.maxSize, around);
             status != Success && Ripe(c, after, other)
    ensures Ripe(c, servers, other)
  {
    AcceptExact(At(servers, m.name), m, F.ValidName(m.name), c.maxSize, around);
    hide Accept, F.Acceptable;
  }

  lemma {:induction false} YieldsOneExact(c: Config, servers: Servers, queue: seq<ChunkMessage>, one: int)
    requires NoRepeats(queue) && one == 1
    ensures Yields(c, servers, queue, one) <==> exists i :: 0 <= i < |queue| && Ripe(c, servers, queue[i])
    decreases |queue|
  {
    if queue != [] {
      var m, rest := queue[0], queue[1..];
      YieldsOneExact(c, servers, rest, one);
      if i :| 0 <= i < |queue| && Ripe(c, servers, queue[i]) {
        if i == 0 {
          RipeExact(c, servers, m, CALM);
          assert YieldsNow(c, servers, queue, one, CALM);
        } else {
          assert Ripe(c, servers, rest[i - 1]);
        }
      }
      if Yields(c, servers, rest, one) {
        var i :| 0 <= i < |rest| && Ripe(c, servers, rest[i]);
        assert Ripe(c, servers, queue[i + 1]);
      } else if Yields(c, servers, queue, one) {
        var around := FirstYields(c, servers, queue, one);
        var (after, status) := Take(servers, m, c.maxSize, around);
        RipeExact(c, servers, m, around);
        if status != Success {
          YieldsOneExact(c, after, rest, one);
          var i :| 0 <= i < |rest| && Ripe(c, after, rest[i]);
          assert queue[i + 1] == rest[i];
          RipeBefore(c, servers, m, around, queue[i + 1]);
        }
      }
    }
  }

  lemma YieldsAny(c: Config, servers: Servers, queue: seq<ChunkMessage>)
    ensures forall k :: k <= 0 ==> Yields(c, servers, queue, k)
  {
  }

  /** Three things count as a credit: the flag, a positive acknowledgment under way, a chunk that is still welcome. */
  lemma OneCreditExact(c: Config, s: State)
    requires NoRepeats(s.toServer)
    ensures Credits(c, s, 1) <==>
              || s.acknowledged || Successes(s.toClient) > 0
              || exists i :: 0 <= i < |s.toServer| && Ripe(c, s.servers, s.toServer[i])
  {
    YieldsOneExact(c, s.servers, s.toServer, 1);
    YieldsAny(c, s.servers, s.toServer);
  }

  // ----- any number of uploads one after the other

  /** No chunk of this file is under way, and this is what the server holds of it. */
  ghost predicate Quiet(s: State, name: F.FileName, held: ServerState) {
    At(s.servers, name) == held && forall i :: 0 <= i < |s.toServer| ==> s.toServer[i].name != name
  }

  lemma QuietStep(p: Config, s: State, a: Action, name: F.FileName, held: ServerState)
    requires Quiet(s, name, held) && name != p.name && Enabled(p, s, a)
    ensures Quiet(Apply(p, s, a), name, held)
  {
    hide Accept;
  }

  lemma {:induction false} StaysQuiet(p: Config, s: State, actions: seq<Action>, name: F.FileName, held: ServerState)
    requires Quiet(s, name, held) && name != p.name && Legal(p, s, actions)
    ensures Quiet(After(p, s, actions), name, held)
    decreases |actions|
  {
    if actions != [] {
      QuietStep(p, s, actions[0], name, held);
      hide Quiet, Apply, Enabled;
      StaysQuiet(p, Apply(p, s, actions[0]), actions[1..], name, held);
    }
  }

  /** A client sends every chunk once. */
  lemma StepKeepsNoRepeats(c: Config, s: State, a: Action)
    requires Inv(c, s) && NoRepeats(s.toServer) && Enabled(c, s, a)
    ensures NoRepeats(Apply(c, s, a).toServer)
  {
    hide Take, Storage;
    if a.SendChunk? {
      forall i | 0 <= i < |s.toServer| && s.toServer[i].name == c.name ensures s.toServer[i].number < s.number {
        assert OwnMessage(c, s, i);
      }
    }
  }

  lemma {:induction false} RunKeepsNoRepeats(c: Config, s: State, actions: seq<Action>)
    requires Inv(c, s) && NoRepeats(s.toServer) && Legal(c, s, actions)
    ensures NoRepeats(After(c, s, actions).toServer)
    decreases |actions|
  {
    if actions != [] {
      StepKeepsInv(c, s, actions[0]);
      StepKeepsNoRepeats(c, s, actions[0]);
      hide Inv, NoRepeats, Apply, Enabled;
      RunKeepsNoRepeats(c, Apply(c, s, actions[0]), actions[1..]);
    }
  }

  datatype Transfer = Transfer(config: Config, actions: seq<Action>)

  /** Uploads on one connection, each starting where the one before it was left. */
  ghost predicate Happened(s: State, uploads: seq<Transfer>)
    decreases |uploads|
  {
    uploads == []
    || (Legal(uploads[0].config, s, uploads[0].actions) && Happened(Left(s, uploads[0]), uploads[1..]))
  }

  ghost function Left(s: State, upload: Transfer): State
    requires Legal(upload.config, s, upload.actions)
  {
    Next(After(upload.config, s, upload.actions))
  }

  /** The start of the upload that follows. */
  ghost function StartAfter(s: State, uploads: seq<Transfer>): State
    requires Happened(s, uploads)
    decreases |uploads|
  {
    if uploads == [] then s else StartAfter(Left(s, uploads[0]), uploads[1..])
  }

  /** The uploads are of files with different names, none of them that of c, to a server with one limit. */
  predicate Separate(uploads: seq<Transfer>, c: Config) {
    && (forall i, j :: 0 <= i < j < |uploads| ==> uploads[i].config.name != uploads[j].config.name)
    && (forall i :: 0 <= i < |uploads| ==>
          uploads[i].config.name != c.name && uploads[i].config.maxSize == c.maxSize)
  }

  /** Where an upload can start, for every name that is still to come. */
  ghost predicate Ready(s: State, uploads: seq<Transfer>, c: Config) {
    && s.number == 1 && s.phase == Sending && !s.failed && NoRepeats(s.toServer)
    && Quiet(s, c.name, NO_FILE) && forall i :: 0 <= i < |uploads| ==> Quiet(s, uploads[i].config.name, NO_FILE)
  }

  lemma ReadyStarts(s: State, uploads: seq<Transfer>, c: Config)
    requires Ready(s, uploads, c)
    ensures Starts(c, s) && (uploads != [] ==> Starts(uploads[0].config, s))
  {
  }

  lemma UploadKeepsReady(s: State, uploads: seq<Transfer>, c: Config)
    requires uploads != [] && Ready(s, uploads, c) && Separate(uploads, c) && Happened(s, uploads)
    ensures Ready(Left(s, uploads[0]), uploads[1..], c) && Separate(uploads[1..], c)
  {
    var p, actions := uploads[0].config, uploads[0].actions;
    ReadyStarts(s, uploads, c);
    StartInv(p, s);
    RunKeepsNoRepeats(p, s, actions);
    StaysQuiet(p, s, actions, c.name, NO_FILE);
    forall i | 1 <= i < |uploads| ensures Quiet(After(p, s, actions), uploads[i].config.name, NO_FILE) {
      StaysQuiet(p, s, actions, uploads[i].config.name, NO_FILE);
    }
  }

  lemma {:induction false} StaysReady(s: State, uploads: seq<Transfer>, c: Config)
    requires Ready(s, uploads, c) && Separate(uploads, c) && Happened(s, uploads)
    ensures Ready(StartAfter(s, uploads), [], c)
    decreases |uploads|
  {
    if uploads != [] {
      UploadKeepsReady(s, uploads, c);
      hide Ready, Separate;
      StaysReady(Left(s, uploads[0]), uploads[1..], c);
    }
  }

  /**
   * After any uploads of other files, whatever became of them, the next upload of a file the server takes can be
   * trusted exactly when the flag is down, no positive acknowledgment is under way, and no unserved chunk is welcome.
   */
  lemma NextUploadExact(uploads: seq<Transfer>, c: Config)
    requires Happened(FRESH, uploads) && Separate(uploads, c)
    requires c.file != [] && Taken(c) == Count(c.file)
    ensures var s := StartAfter(FRESH, uploads);
            && Starts(c, s)
            && (SafeFrom(c, s) <==>
                  && !s.acknowledged && Successes(s.toClient) == 0
                  && forall i :: 0 <= i < |s.toServer| ==> !Ripe(c, s.servers, s.toServer[i]))
  {
    assert Ready(FRESH, uploads, c);
    StaysReady(FRESH, uploads, c);
    var s := StartAfter(FRESH, uploads);
    ReadyStarts(s, [], c);
    SafeStartExact(c, s);
    OneCreditExact(c, s);
  }

  /** Only the limit matters for what the chunks of other files yield. */
  lemma {:induction false} YieldsSameLimit(p: Config, c: Config, servers: Servers, queue: seq<ChunkMessage>, k: int)
    requires p.maxSize == c.maxSize && Foreign(p, queue) && Yields(c, servers, queue, k)
    ensures Yields(p, servers, queue, k)
    decreases |queue|
  {
    if k > 0 && queue != [] {
      if Yields(c, servers, queue[1..], k) {
        YieldsSameLimit(p, c, servers, queue[1..], k);
      } else {
        var around :| YieldsNow(c, servers, queue, k, around);
        var (after, status) := Take(servers, queue[0], c.maxSize, around);
        hide Take;
        YieldsSameLimit(p, c, after, queue[1..], if status == Success then k - 1 else k);
        assert YieldsNow(p, servers, queue, k, around);
      }
    }
  }

  /** A completed upload that started without credits leaves none: all its chunks are served and acknowledged. */
  lemma CompletionLeavesNoCredit(p: Config, s: State, actions: seq<Action>, c: Config)
    requires Starts(p, s) && !Credits(p, s, 1) && Legal(p, s, actions) && p.maxSize == c.maxSize
    requires After(p, s, actions).phase == Finished
    ensures !Credits(c, Next(After(p, s, actions)), 1)
    ensures Quiet(After(p, s, actions), p.name, Mine(p, After(p, s, actions)))
  {
    var t := After(p, s, actions);
    Lockstep(p, s, actions);
    StartInv(p, s);
    StartLead(p, s);
    RunKeepsInv(p, s, actions);
    forall i | 0 <= i < |t.toServer| ensures t.toServer[i].name != p.name {
      assert OwnMessage(p, t, i);
    }
    hide Legal, After, Inv, Starts;
    if Credits(c, Next(t), 1) {
      YieldsSameLimit(p, c, t.servers, t.toServer, 1 - Tokens(t));
      RunSpendsCredit(p, s, actions, 1);
    }
  }

  ghost predicate AllCompleted(s: State, uploads: seq<Transfer>)
    requires Happened(s, uploads)
    decreases |uploads|
  {
    uploads == []
    || (After(uploads[0].config, s, uploads[0].actions).phase == Finished
        && AllCompleted(Left(s, uploads[0]), uploads[1..]))
  }

  lemma {:induction false} QuietThroughout(s: State, uploads: seq<Transfer>, name: F.FileName, held: ServerState)
    requires Happened(s, uploads) && Quiet(s, name, held)
    requires forall i :: 0 <= i < |uploads| ==> uploads[i].config.name != name
    ensures Quiet(StartAfter(s, uploads), name, held)
    decreases |uploads|
  {
    if uploads != [] {
      StaysQuiet(uploads[0].config, s, uploads[0].actions, name, held);
      hide Legal, After;
      QuietThroughout(Left(s, uploads[0]), uploads[1..], name, held);
    }
  }

  /** What is held of a file that was uploaded whole. */
  function Whole(f: Bytes): Option<Bytes> {
    if f == [] then None else Some(f)
  }

  /** No upload to a server with this limit would find a credit. */
  ghost predicate NoCredit(s: State, maxSize: nat) {
    forall p: Config :: p.maxSize == maxSize ==> !Credits(p, s, 1)
  }

  ghost predicate HoldsAll(s: State, uploads: seq<Transfer>) {
    forall i :: 0 <= i < |uploads| ==>
      At(s.servers, uploads[i].config.name).stored == Whole(uploads[i].config.file)
  }

  /** One completed upload stores its file, and leaves no credit. */
  lemma CompletedOnce(s: State, uploads: seq<Transfer>, c: Config)
    requires uploads != [] && Ready(s, uploads, c) && Separate(uploads, c) && Happened(s, uploads)
    requires After(uploads[0].config, s, uploads[0].actions).phase == Finished && NoCredit(s, c.maxSize)
    ensures NoCredit(Left(s, uploads[0]), c.maxSize)
    ensures var p, t := uploads[0].config, Left(s, uploads[0]);
            Mine(p, t).stored == Whole(p.file) && Quiet(t, p.name, Mine(p, t))
  {
    var p, actions := uploads[0].config, uploads[0].actions;
    ReadyStarts(s, uploads, c);
    forall d: Config | d.maxSize == c.maxSize ensures !Credits(d, Left(s, uploads[0]), 1) {
      CompletionLeavesNoCredit(p, s, actions, d);
    }
    CompletionLeavesNoCredit(p, s, actions, p);
    hide Credits, Ready;
    if Credits(p, s, Shortfall(p)) {
      FewerCredits(p, s, Shortfall(p), 1);
    }
    SafeRun(p, s, actions);
  }

  lemma {:induction false} CompletedAll(s: State, uploads: seq<Transfer>, c: Config)
    requires Ready(s, uploads, c) && Separate(uploads, c) && Happened(s, uploads) && AllCompleted(s, uploads)
    requires NoCredit(s, c.maxSize)
    ensures NoCredit(StartAfter(s, uploads), c.maxSize) && HoldsAll(StartAfter(s, uploads), uploads)
    decreases |uploads|
  {
    hide NoCredit, Ready;
    if uploads != [] {
      CompletedOnce(s, uploads, c);
      UploadKeepsReady(s, uploads, c);
      var p, t := uploads[0].config, Left(s, uploads[0]);
      hide After, Legal, Left, Quiet;
      CompletedAll(t, uploads[1..], c);
      QuietThroughout(t, uploads[1..], p.name, Mine(p, t));
      QuietHolds(StartAfter(s, uploads), p.name, Mine(p, t));
      forall i | 0 <= i < |uploads|
        ensures At(StartAfter(s, uploads).servers, uploads[i].config.name).stored == Whole(uploads[i].config.file)
      {
        if i > 0 {
          assert uploads[1..][i - 1] == uploads[i];
        }
      }
    }
  }

  lemma QuietHolds(s: State, name: F.FileName, held: ServerState)
    requires Quiet(s, name, held)
    ensures At(s.servers, name) == held
  {
  }

  /**
   * As long as every upload completes, all their files are stored byte for byte, at the end as well as when each of
   * them was reported, and the next upload can be trusted too.
   */
  lemma CompletedUploadsAreStored(uploads: seq<Transfer>, c: Config)
    requires Happened(FRESH, uploads) && Separate(uploads, c) && AllCompleted(FRESH, uploads)
    ensures HoldsAll(StartAfter(FRESH, uploads), uploads) && SafeFrom(c, StartAfter(FRESH, uploads))
  {
    assert Ready(FRESH, uploads, c);
    StaysReady(FRESH, uploads, c);
    var s := StartAfter(FRESH, uploads);
    ReadyStarts(s, [], c);
    forall p: Config ensures !Credits(p, FRESH, 1) {
      FreshHasNoCredit(p);
    }
    CompletedAll(FRESH, uploads, c);
    hide Credits, Ready, HoldsAll;
    SafeStartExact(c, s);
    if Credits(c, s, Shortfall(c)) {
      FewerCredits(c, s, Shortfall(c), 1);
    }
  }

  /** An upload that gives up can leave behind a raised flag, an acknowledgment under way, or a welcome chunk. */
  lemma GivingUpLeavesCredits(p: Config, c: Config) returns (chunk: seq<Action>, reply: seq<Action>, flag: seq<Action>)
    requires c.name != p.name && c.maxSize == p.maxSize && p.file != [] && Taken(p) >= 1
    ensures Legal(p, FRESH, chunk) && Legal(p, FRESH, reply) && Legal(p, FRESH, flag)
    ensures var s := After(p, FRESH, chunk);
            s.phase == GaveUp && !s.acknowledged && s.toClient == [] && |s.toServer| == 1
            && Ripe(c, s.servers, s.toServer[0])
    ensures var s := After(p, FRESH, reply);
            s.phase == GaveUp && !s.acknowledged && Successes(s.toClient) == 1 && s.toServer == []
    ensures var s := After(p, FRESH, flag);
            s.phase == GaveUp && s.acknowledged && s.toClient == [] && s.toServer == []
  {
    WholePrefix(p.file);
    TakenFromIs(p, 0, 1);
    var m := UploadMessage(p.name, p.file, 1);
    F.SuccessAppends(F.ValidName(p.name), p.maxSize, None, m.data, F.Delivered, F.DiskWorks);
    var s1 := Apply(p, FRESH, SendChunk);
    var s2 := Apply(p, s1, GiveUp);
    var s3 := Apply(p, s2, Serve(CALM));
    assert s3.toClient == [ChunkAck(p.name, 1, Success)];
    var s4 := Apply(p, s3, Receive);
    OneMoreReply([], ChunkAck(p.name, 1, Success));
    assert [] + [ChunkAck(p.name, 1, Success)] == [ChunkAck(p.name, 1, Success)];
    hide Apply, Enabled;
    OneStep(p, s2, Serve(CALM));
    OneStep(p, s3, Receive);
    OneStep(p, s1, GiveUp);
    FirstStep(p, FRESH, SendChunk, [GiveUp]);
    chunk := [SendChunk] + [GiveUp];
    RunsCompose(p, FRESH, chunk, [Serve(CALM)]);
    reply := chunk + [Serve(CALM)];
    RunsCompose(p, FRESH, reply, [Receive]);
    flag := reply + [Receive];
  }
}
