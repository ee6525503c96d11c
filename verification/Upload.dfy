/** Uploads as a transition system: a client, the chat server, the file server and the lossy channels between. */
module Upload {
  import opened Wrappers
  import opened Chunking
  import opened Protocol
  import opened RequestHandler
  import opened Client
  import F = FileServer

  datatype Config = Config(name: F.FileName, file: Bytes, maxSize: nat)

  /** What the server knows and stores, by file name. */
  type Servers = map<F.FileName, ServerState>

  const NO_FILE: ServerState := ServerState(NO_UPLOAD, None)

  function At(servers: Servers, name: F.FileName): ServerState {
    if name in servers then servers[name] else NO_FILE
  }

  datatype Phase = Sending | Waiting | Finished | GaveUp

  /** `number` is the client's chunk_number; `failed` records that a chunk of this upload was answered upload_failed. */
  datatype State = State(
    number: nat,
    phase: Phase,
    acknowledged: bool,
    toServer: seq<ChunkMessage>,
    toClient: seq<ChunkAck>,
    servers: Servers,
    failed: bool)

  datatype Action =
    | SendChunk                    // the client sends the next chunk and starts to wait
    | Finish                       // the client finds the file read and reports completion
    | Wake                         // the client's wait is satisfied
    | GiveUp                       // the client's wait times out
    | Receive                      // the client handles the next acknowledgment, of whatever file, waiting or not
    | Serve(around: Surroundings)  // the server handles the next chunk, of whatever file, and answers
    | LoseRequest(at: nat)
    | LoseReply(at: nat)

  function Without<T>(s: seq<T>, i: nat): seq<T>
    requires i < |s|
  {
    s[..i] + s[i + 1..]
  }

  ghost predicate Enabled(c: Config, s: State, a: Action) {
    match a
    case SendChunk => s.phase == Sending && 1 <= s.number <= Count(c.file)
    case Finish => s.phase == Sending && s.number > Count(c.file)
    case Wake => s.phase == Waiting && s.acknowledged
    case GiveUp => s.phase == Waiting && !s.acknowledged
    case Receive => s.toClient != []
    case Serve(_) => s.toServer != []
    case LoseRequest(i) => i < |s.toServer|
    case LoseReply(i) => i < |s.toClient|
  }

  /** The server takes one message of any file. */
  ghost function Take(servers: Servers, message: ChunkMessage, maxSize: nat, around: Surroundings)
    : (Servers, Status)
  {
    var (after, status) :=
      Accept(At(servers, message.name), message, F.ValidName(message.name), maxSize, around);
    (servers[message.name := after], status)
  }

  ghost function Served(c: Config, s: State, around: Surroundings): State
    requires s.toServer != []
  {
    var message := s.toServer[0];
    var (servers, status) := Take(s.servers, message, c.maxSize, around);
    s.(toServer := s.toServer[1..],
       toClient := s.toClient + [ChunkAck(message.name, message.number, status)],
       servers := servers,
       failed := s.failed || (message.name == c.name && status == UploadFailed))
  }

  ghost function Apply(c: Config, s: State, a: Action): State
    requires Enabled(c, s, a)
  {
    match a
    case SendChunk =>
      s.(phase := Waiting, toServer := s.toServer + [UploadMessage(c.name, c.file, s.number)])
    case Finish => s.(phase := Finished)
    case Wake => s.(phase := Sending, number := s.number + 1, acknowledged := false)
    case GiveUp => s.(phase := GaveUp)
    case Receive =>
      s.(toClient := s.toClient[1..], acknowledged := s.acknowledged || s.toClient[0].status == Success)
    case Serve(around) => Served(c, s, around)
    case LoseRequest(i) => s.(toServer := Without(s.toServer, i))
    case LoseReply(i) => s.(toClient := Without(s.toClient, i))
  }

  // ----- runs

  ghost predicate Legal(c: Config, s: State, actions: seq<Action>)
    decreases |actions|
  {
    actions == [] || (Enabled(c, s, actions[0]) && Legal(c, Apply(c, s, actions[0]), actions[1..]))
  }

  ghost function After(c: Config, s: State, actions: seq<Action>): State
    requires Legal(c, s, actions)
    decreases |actions|
  {
    if actions == [] then s else After(c, Apply(c, s, actions[0]), actions[1..])
  }

  lemma FirstStep(c: Config, s: State, a: Action, rest: seq<Action>)
    requires Enabled(c, s, a) && Legal(c, Apply(c, s, a), rest)
    ensures Legal(c, s, [a] + rest)
    ensures After(c, s, [a] + rest) == After(c, Apply(c, s, a), rest)
  {
    hide Enabled, Apply;
    var all := [a] + rest;
    assert all[0] == a && all[1..] == rest;
  }

  lemma OneStep(c: Config, s: State, a: Action)
    requires Enabled(c, s, a)
    ensures Legal(c, s, [a]) && After(c, s, [a]) == Apply(c, s, a)
  {
    hide Enabled, Apply;
    FirstStep(c, s, a, []);
    assert [a] + [] == [a];
  }

  lemma {:induction false} RunsCompose(c: Config, s: State, first: seq<Action>, second: seq<Action>)
    requires Legal(c, s, first) && Legal(c, After(c, s, first), second)
    ensures Legal(c, s, first + second)
    ensures After(c, s, first + second) == After(c, After(c, s, first), second)
    decreases |first|
  {
    hide Enabled, Apply;
    if first == [] {
      assert first + second == second;
    } else {
      assert (first + second)[1..] == first[1..] + second;
      RunsCompose(c, Apply(c, s, first[0]), first[1..], second);
    }
  }

  // ----- starts

  /**
   * Where an upload can start: nothing of this file uploaded or under way yet, but with whatever earlier uploads of
   * other files left behind: a raised flag, acknowledgments under way, chunks not served yet, files stored.
   */
  ghost predicate Starts(c: Config, s: State) {
    && s.number == 1 && s.phase == Sending && !s.failed
    && At(s.servers, c.name) == NO_FILE && Foreign(c, s.toServer)
  }

  predicate Foreign(c: Config, queue: seq<ChunkMessage>) {
    forall i :: 0 <= i < |queue| ==> queue[i].name != c.name
  }

  const FRESH: State := State(1, Sending, false, [], [], map[], false)

  // ----- acknowledgments that are still to be had

  function Successes(replies: seq<ChunkAck>): nat {
    if replies == [] then 0 else (if replies[0].status == Success then 1 else 0) + Successes(replies[1..])
  }

  lemma {:induction false} SuccessesAdd(a: seq<ChunkAck>, b: seq<ChunkAck>)
    ensures Successes(a + b) == Successes(a) + Successes(b)
  {
    if a == [] {
      assert a + b == b;
    } else {
      assert (a + b)[1..] == a[1..] + b;
      SuccessesAdd(a[1..], b);
    }
  }

  lemma OneMoreReply(replies: seq<ChunkAck>, reply: ChunkAck)
    ensures Successes(replies + [reply]) == Successes(replies) + if reply.status == Success then 1 else 0
  {
    SuccessesAdd(replies, [reply]);
    assert [reply][1..] == [];
    assert Successes([reply]) == if reply.status == Success then 1 else 0;
  }

  lemma LosingReplies(replies: seq<ChunkAck>, i: nat)
    requires i < |replies|
    ensures Successes(Without(replies, i)) <= Successes(replies)
  {
    assert replies == replies[..i] + replies[i..];
    SuccessesAdd(replies[..i], replies[i..]);
    SuccessesAdd(replies[..i], replies[i + 1..]);
    assert replies[i..][1..] == replies[i + 1..];
  }

  function Tokens(s: State): nat {
    (if s.acknowledged then 1 else 0) + Successes(s.toClient)
  }

  /** The server can still be made to answer k of the chunks of other files in the queue with success. */
  ghost predicate Yields(c: Config, servers: Servers, queue: seq<ChunkMessage>, k: int)
    decreases |queue|
  {
    k <= 0
    || (queue != []
        && (Yields(c, servers, queue[1..], k)
            || (queue[0].name != c.name
                && exists around: Surroundings :: YieldsNow(c, servers, queue, k, around))))
  }

  ghost predicate YieldsNow(c: Config, servers: Servers, queue: seq<ChunkMessage>, k: int, around: Surroundings)
    requires queue != []
    decreases |queue|, 0
  {
    var (after, status) := Take(servers, queue[0], c.maxSize, around);
    Yields(c, after, queue[1..], if status == Success then k - 1 else k)
  }

  /** k acknowledgments not earned by this upload are still to be had: raised, under way, or yet to be answered. */
  ghost predicate Credits(c: Config, s: State, k: int) {
    Yields(c, s.servers, s.toServer, k - Tokens(s))
  }

  lemma {:induction false} YieldsLess(c: Config, servers: Servers, queue: seq<ChunkMessage>, k: int, less: int)
    requires Yields(c, servers, queue, k) && less <= k
    ensures Yields(c, servers, queue, less)
    decreases |queue|
  {
    if k > 0 && queue != [] {
      if Yields(c, servers, queue[1..], k) {
        YieldsLess(c, servers, queue[1..], k, less);
      } else {
        var around :| YieldsNow(c, servers, queue, k, around);
        var (after, status) := Take(servers, queue[0], c.maxSize, around);
        hide Take;
        YieldsLess(c, after, queue[1..], if status == Success then k - 1 else k,
                   if status == Success then less - 1 else less);
        assert YieldsNow(c, servers, queue, less, around);
      }
    }
  }

  ghost predicate SameElsewhere(c: Config, a: Servers, b: Servers) {
    forall name :: name != c.name ==> At(a, name) == At(b, name)
  }

  lemma TakeElsewhere(c: Config, a: Servers, b: Servers, message: ChunkMessage, around: Surroundings)
    requires SameElsewhere(c, a, b) && message.name != c.name
    ensures var (after, status) := Take(a, message, c.maxSize, around);
            var (after', status') := Take(b, message, c.maxSize, around);
            status == status' && SameElsewhere(c, after, after')
  {
    hide Accept;
    var (after, status) := Take(a, message, c.maxSize, around);
    var (after', status') := Take(b, message, c.maxSize, around);
    assert At(a, message.name) == At(b, message.name);
    forall name | name != c.name ensures At(after, name) == At(after', name) {
      assert At(a, name) == At(b, name);
    }
  }

  lemma {:induction false} YieldsElsewhere(c: Config, a: Servers, b: Servers, queue: seq<ChunkMessage>, k: int)
    requires SameElsewhere(c, a, b) && Yields(c, a, queue, k)
    ensures Yields(c, b, queue, k)
    decreases |queue|
  {
    if k > 0 && queue != [] {
      if Yields(c, a, queue[1..], k) {
        YieldsElsewhere(c, a, b, queue[1..], k);
      } else {
        var around :| YieldsNow(c, a, queue, k, around);
        var (after, status) := Take(a, queue[0], c.maxSize, around);
        var (after', status') := Take(b, queue[0], c.maxSize, around);
        TakeElsewhere(c, a, b, queue[0], around);
        hide Take;
        YieldsElsewhere(c, after, after', queue[1..], if status == Success then k - 1 else k);
        assert YieldsNow(c, b, queue, k, around);
      }
    }
  }

  lemma {:induction false} YieldsWithout(c: Config, servers: Servers, queue: seq<ChunkMessage>, i: nat, k: int)
    requires i < |queue| && Yields(c, servers, Without(queue, i), k)
    ensures Yields(c, servers, queue, k)
    decreases |queue|
  {
    var less := Without(queue, i);
    if k > 0 {
      if i == 0 {
        assert less == queue[1..];
      } else {
        assert less[0] == queue[0] && less[1..] == Without(queue[1..], i - 1);
        if Yields(c, servers, less[1..], k) {
          YieldsWithout(c, servers, queue[1..], i - 1, k);
        } else {
          var around :| YieldsNow(c, servers, less, k, around);
          var (after, status) := Take(servers, queue[0], c.maxSize, around);
          hide Take;
          YieldsWithout(c, after, queue[1..], i - 1, if status == Success then k - 1 else k);
          assert YieldsNow(c, servers, queue, k, around);
        }
      }
    }
  }

  /** A chunk of this upload at the end of the queue yields nothing. */
  lemma {:induction false} YieldsOwn(c: Config, servers: Servers, queue: seq<ChunkMessage>, own: ChunkMessage, k: int)
    requires own.name == c.name && Yields(c, servers, queue + [own], k)
    ensures Yields(c, servers, queue, k)
    decreases |queue|
  {
    var all := queue + [own];
    if k > 0 {
      if queue != [] {
        assert all[0] == queue[0] && all[1..] == queue[1..] + [own];
        if Yields(c, servers, all[1..], k) {
          YieldsOwn(c, servers, queue[1..], own, k);
        } else {
          var around :| YieldsNow(c, servers, all, k, around);
          var (after, status) := Take(servers, queue[0], c.maxSize, around);
          hide Take;
          YieldsOwn(c, after, queue[1..], own, if status == Success then k - 1 else k);
          assert YieldsNow(c, servers, queue, k, around);
        }
      }
    }
  }

  // ----- the chunks the server would take

  /** Chunk n can be accepted when the chunks before it are stored. */
  ghost predicate Takes(c: Config, n: nat)
    requires 1 <= n <= Count(c.file)
  {
    F.Acceptable(F.ValidName(c.name), c.maxSize, StoredPrefix(c.file, n - 1), Chunk(c.file, n))
  }

  /** What is stored once n chunks are: no file at all before the first. */
  function StoredPrefix(f: Bytes, n: nat): Option<Bytes> {
    if n == 0 then None else Some(Prefix(f, n))
  }

  ghost function TakenFrom(c: Config, n: nat): (k: nat)
    requires n <= Count(c.file)
    ensures n <= k <= Count(c.file)
    decreases Count(c.file) - n
  {
    if n < Count(c.file) && Takes(c, n + 1) then TakenFrom(c, n + 1) else n
  }

  /** The number of leading chunks the server would take. */
  ghost function Taken(c: Config): (k: nat)
    ensures k <= Count(c.file)
  {
    TakenFrom(c, 0)
  }

  lemma {:induction false} TakenFromIs(c: Config, n: nat, i: nat)
    requires n <= Count(c.file) && n < i <= Count(c.file)
    ensures i <= TakenFrom(c, n) ==> Takes(c, i)
    ensures i == TakenFrom(c, n) + 1 ==> !Takes(c, i)
    decreases Count(c.file) - n
  {
    if n < Count(c.file) && Takes(c, n + 1) && n + 1 < i {
      TakenFromIs(c, n + 1, i);
    }
  }

  // ----- the invariant

  function Mine(c: Config, s: State): ServerState {
    At(s.servers, c.name)
  }

  function Last(c: Config, s: State): nat {
    Mine(c, s).upload.lastChunkReceived
  }

  /** The last chunk the server has decided on: accepted, or answered upload_failed, after which none is accepted. */
  function Settled(c: Config, s: State): nat {
    Last(c, s) + if s.failed then 1 else 0
  }

  /** The last chunk the client has sent. */
  function Reached(s: State): int {
    if s.phase == Sending || s.phase == Finished then s.number - 1 else s.number
  }

  /** Message i of the queue, if it belongs to this upload, is one of its chunks that the server may still expect. */
  predicate OwnMessage(c: Config, s: State, i: nat)
    requires i < |s.toServer|
  {
    var m := s.toServer[i];
    m.name == c.name ==>
      && 1 <= m.number <= Count(c.file) && m == UploadMessage(c.name, c.file, m.number)
      && Settled(c, s) < m.number <= Reached(s)
  }

  predicate Ordered(c: Config, queue: seq<ChunkMessage>) {
    forall i, j :: 0 <= i < j < |queue| && queue[i].name == c.name && queue[j].name == c.name ==>
      queue[i].number < queue[j].number
  }

  predicate Progress(c: Config, s: State) {
    && 1 <= s.number <= Count(c.file) + 1
    && (s.phase == Waiting || s.phase == GaveUp ==> s.number <= Count(c.file))
    && (s.phase == Finished ==> s.number == Count(c.file) + 1)
    && Settled(c, s) <= Reached(s) && Settled(c, s) <= Count(c.file)
  }

  predicate Queue(c: Config, s: State) {
    (forall i :: 0 <= i < |s.toServer| ==> OwnMessage(c, s, i)) && Ordered(c, s.toServer)
  }

  ghost predicate Storage(c: Config, s: State) {
    && Last(c, s) <= Taken(c)
    && (!s.failed ==> Mine(c, s).stored == StoredPrefix(c.file, Last(c, s)))
    && (Mine(c, s).upload.completed <==> Last(c, s) == Count(c.file) && |c.file| % CHUNK != 0)
  }

  ghost predicate Inv(c: Config, s: State) {
    Progress(c, s) && Queue(c, s) && Storage(c, s)
  }

  lemma StartInv(c: Config, s: State)
    requires Starts(c, s)
    ensures Inv(c, s)
  {
    WholePrefix(c.file);
  }

  lemma OwnQueueKept(c: Config, s: State, i: nat)
    requires Queue(c, s) && i < |s.toServer|
    ensures Queue(c, s.(toServer := Without(s.toServer, i)))
  {
    var t := s.(toServer := Without(s.toServer, i));
    forall j | 0 <= j < |t.toServer| ensures OwnMessage(c, t, j) {
      assert OwnMessage(c, s, if j < i then j else j + 1);
    }
  }

  lemma SendKeepsInv(c: Config, s: State)
    requires Inv(c, s) && Enabled(c, s, SendChunk)
    ensures Inv(c, Apply(c, s, SendChunk))
  {
    var t := Apply(c, s, SendChunk);
    forall i | 0 <= i < |t.toServer| ensures OwnMessage(c, t, i) {
      if i < |s.toServer| {
        assert OwnMessage(c, s, i);
      }
    }
    forall i, j | 0 <= i < j < |t.toServer| && t.toServer[i].name == c.name && t.toServer[j].name == c.name
      ensures t.toServer[i].number < t.toServer[j].number
    {
      assert OwnMessage(c, s, i);
    }
  }

  lemma TakeElse(c: Config, servers: Servers, m: ChunkMessage, around: Surroundings)
    requires m.name != c.name
    ensures At(Take(servers, m, c.maxSize, around).0, c.name) == At(servers, c.name)
  {
    hide Accept;
  }

  lemma SameUpload(c: Config, s: State, t: State)
    requires Inv(c, s) && Queue(c, s.(toServer := t.toServer)) && Mine(c, t) == Mine(c, s)
    requires t.failed == s.failed && t.number == s.number && t.phase == s.phase
    ensures Inv(c, t)
  {
    var u := s.(toServer := t.toServer);
    hide Taken, StoredPrefix, UploadMessage, At, Count;
    forall i | 0 <= i < |t.toServer| ensures OwnMessage(c, t, i) {
      assert OwnMessage(c, u, i);
    }
  }

  /** A message of another file changes nothing of this upload. */
  lemma ServeForeign(c: Config, s: State, around: Surroundings)
    requires Inv(c, s) && s.toServer != [] && s.toServer[0].name != c.name
    ensures Inv(c, Served(c, s, around))
    ensures Mine(c, Served(c, s, around)) == Mine(c, s)
  {
    hide Queue, Progress, Storage, Take;
    OwnQueueKept(c, s, 0);
    assert Without(s.toServer, 0) == s.toServer[1..];
    TakeElse(c, s.servers, s.toServer[0], around);
    SameUpload(c, s, Served(c, s, around));
  }

  /** The rest of the queue, once its first chunk was taken or failed. */
  lemma LaterChunks(c: Config, s: State, t: State)
    requires Queue(c, s) && s.toServer != [] && s.toServer[0].name == c.name
    requires t.toServer == s.toServer[1..] && t.number == s.number && t.phase == s.phase
    requires Settled(c, t) <= s.toServer[0].number
    ensures Queue(c, t)
  {
    forall i | 0 <= i < |t.toServer| ensures OwnMessage(c, t, i) {
      assert OwnMessage(c, s, i + 1);
    }
  }

  /** What taking its next chunk does to an upload. */
  lemma OwnChunkTaken(c: Config, mine: ServerState, n: nat, around: Surroundings)
    requires 1 <= n <= Count(c.file) && mine.upload.lastChunkReceived + 1 == n <= Taken(c) + 1
    requires mine.stored == StoredPrefix(c.file, n - 1)
    requires !mine.upload.completed
    ensures var (after, status) :=
              Accept(mine, UploadMessage(c.name, c.file, n), F.ValidName(c.name), c.maxSize, around);
            status == Success ==>
              && n <= Taken(c) && after.stored == StoredPrefix(c.file, n) && after.upload.lastChunkReceived == n
              && (after.upload.completed <==> n == Count(c.file) && |c.file| % CHUNK != 0)
  {
    AcceptExact(mine, UploadMessage(c.name, c.file, n), F.ValidName(c.name), c.maxSize, around);
    TakenFromIs(c, 0, n);
    ChunkSize(c.file, n);
    PrefixGrows(c.file, n);
    WholePrefix(c.file);
    hide Accept, F.Acceptable, Prefix, Chunk;
  }

  lemma ServeOwn(c: Config, s: State, around: Surroundings)
    requires Inv(c, s) && s.toServer != [] && s.toServer[0].name == c.name
    ensures Inv(c, Served(c, s, around))
  {
    var m, t, mine := s.toServer[0], Served(c, s, around), Mine(c, s);
    assert OwnMessage(c, s, 0);
    AcceptExact(mine, m, F.ValidName(c.name), c.maxSize, around);
    if m.number == Last(c, s) + 1 {
      OwnChunkTaken(c, mine, m.number, around);
    }
    hide Accept, F.Acceptable, Taken, StoredPrefix, UploadMessage;
    LaterChunks(c, s, t);
  }

  lemma LosingKeepsInv(c: Config, s: State, i: nat)
    requires Inv(c, s) && i < |s.toServer|
    ensures Inv(c, s.(toServer := Without(s.toServer, i)))
  {
    OwnQueueKept(c, s, i);
  }

  lemma ClientKeepsInv(c: Config, s: State, a: Action)
    requires Inv(c, s) && Enabled(c, s, a) && !a.SendChunk? && !a.Serve? && !a.LoseRequest?
    ensures Inv(c, Apply(c, s, a))
  {
    hide Taken, StoredPrefix, UploadMessage, Served;
    var t := Apply(c, s, a);
    forall i | 0 <= i < |s.toServer| ensures OwnMessage(c, t, i) {
      assert OwnMessage(c, s, i);
    }
  }

  lemma StepKeepsInv(c: Config, s: State, a: Action)
    requires Inv(c, s) && Enabled(c, s, a)
    ensures Inv(c, Apply(c, s, a))
  {
    hide Inv;
    match a
    case SendChunk => SendKeepsInv(c, s);
    case Serve(around) =>
      hide Served;
      if s.toServer[0].name == c.name {
        ServeOwn(c, s, around);
      } else {
        ServeForeign(c, s, around);
      }
    case LoseRequest(i) => LosingKeepsInv(c, s, i);
    case _ => ClientKeepsInv(c, s, a);
  }

  lemma {:induction false} RunKeepsInv(c: Config, s: State, actions: seq<Action>)
    requires Inv(c, s) && Legal(c, s, actions)
    ensures Inv(c, After(c, s, actions))
    decreases |actions|
  {
    hide Inv, Enabled, Apply;
    if actions != [] {
      StepKeepsInv(c, s, actions[0]);
      RunKeepsInv(c, Apply(c, s, actions[0]), actions[1..]);
    }
  }

  // ----- every chunk the client is past was acknowledged or cost a credit

  /** How far the client is ahead of the server. */
  function Lead(c: Config, s: State): int {
    s.number - 1 - Last(c, s)
  }

  lemma StepSpendsCredit(c: Config, s: State, a: Action, k: int)
    requires Inv(c, s) && Enabled(c, s, a) && Credits(c, Apply(c, s, a), k)
    ensures Credits(c, s, k + Lead(c, Apply(c, s, a)) - Lead(c, s))
  {
    hide Inv, Yields;
    var t := Apply(c, s, a);
    match a
    case SendChunk =>
      hide UploadMessage;
      YieldsOwn(c, s.servers, s.toServer, UploadMessage(c.name, c.file, s.number), k - Tokens(s));
    case Receive => YieldsLess(c, s.servers, s.toServer, k - Tokens(t), k - Tokens(s));
    case Serve(around) =>
      hide Served;
      ServeSpendsCredit(c, s, around, k);
    case LoseRequest(i) => YieldsWithout(c, s.servers, s.toServer, i, k - Tokens(s));
    case LoseReply(i) =>
      LosingReplies(s.toClient, i);
      YieldsLess(c, s.servers, s.toServer, k - Tokens(t), k - Tokens(s));
    case _ =>
  }

  lemma OwnChunkLead(c: Config, s: State, around: Surroundings)
    requires s.toServer != [] && s.toServer[0].name == c.name
    ensures var (after, status) := Take(s.servers, s.toServer[0], c.maxSize, around);
            && At(after, c.name).upload.lastChunkReceived
                 == At(s.servers, c.name).upload.lastChunkReceived + (if status == Success then 1 else 0)
            && SameElsewhere(c, after, s.servers)
  {
    AcceptExact(Mine(c, s), s.toServer[0], F.ValidName(c.name), c.maxSize, around);
    hide Accept;
  }

  lemma ServeSpendsCredit(c: Config, s: State, around: Surroundings, k: int)
    requires Inv(c, s) && s.toServer != [] && Credits(c, Served(c, s, around), k)
    ensures Credits(c, s, k + Lead(c, Served(c, s, around)) - Lead(c, s))
  {
    hide Inv, Take;
    var t, m := Served(c, s, around), s.toServer[0];
    var (after, status) := Take(s.servers, m, c.maxSize, around);
    OneMoreReply(s.toClient, ChunkAck(m.name, m.number, status));
    if m.name == c.name {
      OwnChunkLead(c, s, around);
      YieldsElsewhere(c, after, s.servers, t.toServer, k - Tokens(t));
    } else {
      TakeElse(c, s.servers, m, around);
      assert YieldsNow(c, s.servers, s.toServer, k - Tokens(s), around);
    }
  }

  /** Along a run, the lead the client has won was paid for with credits of the start. */
  lemma {:induction false} RunSpendsCredit(c: Config, s: State, actions: seq<Action>, k: int)
    requires Inv(c, s) && Legal(c, s, actions) && Credits(c, After(c, s, actions), k)
    ensures Credits(c, s, k + Lead(c, After(c, s, actions)) - Lead(c, s))
    decreases |actions|
  {
    hide Inv, Enabled, Apply, Credits, Lead;
    if actions != [] {
      var next := Apply(c, s, actions[0]);
      StepKeepsInv(c, s, actions[0]);
      RunSpendsCredit(c, next, actions[1..], k);
      StepSpendsCredit(c, s, actions[0], k + Lead(c, After(c, s, actions)) - Lead(c, next));
    }
  }

  lemma LeadCosts(c: Config, s: State, actions: seq<Action>)
    requires Starts(c, s) && Legal(c, s, actions)
    ensures Inv(c, After(c, s, actions))
    ensures Credits(c, s, Lead(c, After(c, s, actions)) + Tokens(After(c, s, actions)))
  {
    hide *;
    StartInv(c, s);
    RunKeepsInv(c, s, actions);
    var t := After(c, s, actions);
    TokensAreCredits(c, t);
    StartLead(c, s);
    RunSpendsCredit(c, s, actions, Tokens(t));
  }

  lemma TokensAreCredits(c: Config, s: State)
    ensures Credits(c, s, Tokens(s))
  {
  }

  lemma StartLead(c: Config, s: State)
    requires Starts(c, s)
    ensures Lead(c, s) == 0
  {
  }

  lemma FewerCredits(c: Config, s: State, k: int, less: int)
    requires Credits(c, s, k) && less <= k
    ensures Credits(c, s, less)
  {
    hide Yields;
    YieldsLess(c, s.servers, s.toServer, k - Tokens(s), less - Tokens(s));
  }

  // ----- safety

  /** What a client that reports completion promises. */
  predicate Safe(c: Config, s: State) {
    s.phase == Finished ==> Mine(c, s).stored == if c.file == [] then None else Some(c.file)
  }

  ghost predicate SafeFrom(c: Config, s: State) {
    forall actions | Legal(c, s, actions) :: Safe(c, After(c, s, actions))
  }

  /** How many credits it takes to report completion without having the file stored. */
  ghost function Shortfall(c: Config): nat {
    if Taken(c) == Count(c.file) then 1 else Count(c.file) - Taken(c)
  }

  lemma SafeRun(c: Config, s: State, actions: seq<Action>)
    requires Starts(c, s) && Legal(c, s, actions)
    requires c.file == [] || !Credits(c, s, Shortfall(c))
    ensures Safe(c, After(c, s, actions))
  {
    LeadCosts(c, s, actions);
    var t := After(c, s, actions);
    hide After, Legal, Credits, Starts;
    WholePrefix(c.file);
    if t.phase == Finished && Last(c, t) < Count(c.file) {
      FewerCredits(c, s, Lead(c, t) + Tokens(t), Shortfall(c));
      assert false;
    }
  }

  /**
   * Where no credit is to be had, server and client never drift apart by more than one chunk, and what is stored is
   * exactly those chunks.
   */
  lemma Lockstep(c: Config, s: State, actions: seq<Action>)
    requires Starts(c, s) && !Credits(c, s, 1) && Legal(c, s, actions)
    ensures var t := After(c, s, actions);
            && (Last(c, t) == t.number - 1 || Last(c, t) == t.number)
            && (!t.failed ==> Mine(c, t).stored == StoredPrefix(c.file, Last(c, t)))
            && (t.failed ==> (t.phase == Waiting || t.phase == GaveUp) && Last(c, t) == t.number - 1)
            && Lead(c, t) + Tokens(t) <= 0
  {
    LeadCosts(c, s, actions);
    var t := After(c, s, actions);
    hide After, Legal, Credits, Starts, Tokens, Taken;
    if Lead(c, t) + Tokens(t) >= 1 {
      FewerCredits(c, s, Lead(c, t) + Tokens(t), 1);
      assert false;
    }
  }

  /** An upload with nothing left behind by earlier ones: a client that reports completion has its file stored. */
  lemma FinishedMeansStored(c: Config, actions: seq<Action>)
    requires Legal(c, FRESH, actions)
    ensures Safe(c, After(c, FRESH, actions))
  {
    FreshHasNoCredit(c);
    SafeRun(c, FRESH, actions);
  }

  lemma FreshHasNoCredit(c: Config)
    ensures Starts(c, FRESH)
    ensures forall k :: Credits(c, FRESH, k) <==> k <= 0
  {
  }

  lemma ShortPrefix(f: Bytes, n: nat)
    requires n < Count(f)
    ensures StoredPrefix(f, n) != Some(f)
  {
    PrefixGrows(f, n + 1);
  }

  /**
   * From every start the server marks an upload completed, which is what triggers the forwarding, exactly when the
   * whole file is stored, none of its chunks was answered upload_failed, and its size is not a multiple of 512.
   */
  lemma MarkedCompleted(c: Config, s: State, actions: seq<Action>)
    requires Starts(c, s) && Legal(c, s, actions)
    ensures var t := After(c, s, actions);
            && (Mine(c, t).upload.completed <==>
                  !t.failed && Mine(c, t).stored == Some(c.file) && |c.file| % CHUNK != 0)
            && (Mine(c, t).upload.completed ==> F.ValidName(c.name))
  {
    StartInv(c, s);
    RunKeepsInv(c, s, actions);
    WholePrefix(c.file);
    if c.file != [] {
      TakenFromIs(c, 0, 1);
    }
    var t := After(c, s, actions);
    if Last(c, t) < Count(c.file) {
      ShortPrefix(c.file, Last(c, t));
    }
  }

  // ----- runs that spend credits

  const CALM: Surroundings := Surroundings(F.Delivered, F.DiskWorks)

  lemma FirstYields(c: Config, servers: Servers, queue: seq<ChunkMessage>, k: int) returns (around: Surroundings)
    requires k > 0 && queue != [] && Yields(c, servers, queue, k) && !Yields(c, servers, queue[1..], k)
    ensures queue[0].name != c.name && YieldsNow(c, servers, queue, k, around)
  {
    around :| YieldsNow(c, servers, queue, k, around);
  }

  /** One chunk of another file served or lost, as best serves the purpose. */
  lemma HarvestOne(c: Config, s: State, k: int) returns (a: Action, less: int)
    requires s.toServer != [] && Foreign(c, s.toServer) && Yields(c, s.servers, s.toServer, k)
    ensures Enabled(c, s, a)
    ensures var t := Apply(c, s, a);
            && t == s.(toServer := s.toServer[1..], toClient := t.toClient, servers := t.servers)
            && Mine(c, t) == Mine(c, s) && Yields(c, t.servers, t.toServer, less)
            && Successes(t.toClient) == Successes(s.toClient) + k - less
  {
    var queue := s.toServer;
    assert Without(queue, 0) == queue[1..];
    if k <= 0 || Yields(c, s.servers, queue[1..], k) {
      return LoseRequest(0), k;
    }
    var around := FirstYields(c, s.servers, queue, k);
    var (after, status) := Take(s.servers, queue[0], c.maxSize, around);
    hide Take;
    TakeElse(c, s.servers, queue[0], around);
    OneMoreReply(s.toClient, ChunkAck(queue[0].name, queue[0].number, status));
    return Serve(around), if status == Success then k - 1 else k;
  }

  /** The server answers what it can be made to answer; this upload has not begun. */
  lemma {:induction false} Harvest(c: Config, s: State, k: int) returns (actions: seq<Action>)
    requires Foreign(c, s.toServer) && Yields(c, s.servers, s.toServer, k)
    ensures Legal(c, s, actions)
    ensures var t := After(c, s, actions);
            && t == s.(toServer := [], toClient := t.toClient, servers := t.servers)
            && Mine(c, t) == Mine(c, s) && Successes(t.toClient) >= Successes(s.toClient) + k
    decreases |s.toServer|
  {
    if s.toServer == [] {
      actions := [];
    } else {
      var a, less := HarvestOne(c, s, k);
      hide Apply, Enabled, Mine, Yields;
      var next := Apply(c, s, a);
      var rest := Harvest(c, next, less);
      FirstStep(c, s, a, rest);
      actions := [a] + rest;
    }
  }

  /** The client handles acknowledgments until one has raised its flag. */
  lemma {:induction false} CatchFlag(c: Config, s: State) returns (actions: seq<Action>)
    requires Tokens(s) >= 1
    ensures Legal(c, s, actions)
    ensures var t := After(c, s, actions);
            t == s.(acknowledged := true, toClient := t.toClient) && Tokens(t) == Tokens(s)
    decreases |s.toClient|
  {
    if s.acknowledged {
      actions := [];
    } else {
      var next := Apply(c, s, Receive);
      var rest := CatchFlag(c, next);
      FirstStep(c, s, Receive, rest);
      actions := [Receive] + rest;
    }
  }

  /** The server has taken the chunks up to `limit` that were sent, and there are credits for the others. */
  predicate Skimming(c: Config, s: State, limit: nat) {
    && s.phase == Sending && 1 <= s.number <= Count(c.file) + 1
    && Last(c, s) == Min(s.number - 1, limit) && Mine(c, s).stored == StoredPrefix(c.file, Last(c, s))
    && (s.number - 1 <= limit ==> s.toServer == [])
    && Tokens(s) >= Count(c.file) - if s.number - 1 <= limit then limit else s.number - 1
  }

  /** The server accepts a chunk it would take. */
  lemma CalmTake(c: Config, servers: Servers, n: nat)
    requires 1 <= n <= Taken(c) && At(servers, c.name).upload.lastChunkReceived == n - 1
    requires At(servers, c.name).stored == StoredPrefix(c.file, n - 1)
    ensures var (after, status) := Take(servers, UploadMessage(c.name, c.file, n), c.maxSize, CALM);
            status == Success && At(after, c.name).upload.lastChunkReceived == n
            && At(after, c.name).stored == StoredPrefix(c.file, n)
  {
    TakenFromIs(c, 0, n);
    AcceptExact(At(servers, c.name), UploadMessage(c.name, c.file, n), F.ValidName(c.name), c.maxSize, CALM);
    PrefixGrows(c.file, n);
    WholePrefix(c.file);
    hide Accept, F.Acceptable, Prefix, Chunk;
  }

  /** Sending a chunk and having the server acknowledge it. */
  lemma SendAndServe(c: Config, s: State, limit: nat) returns (t: State)
    requires limit <= Taken(c) && Skimming(c, s, limit) && s.number <= limit
    ensures Enabled(c, s, SendChunk) && Enabled(c, Apply(c, s, SendChunk), Serve(CALM))
    ensures t == Apply(c, Apply(c, s, SendChunk), Serve(CALM))
    ensures t.phase == Waiting && t.number == s.number && t.toServer == [] && Tokens(t) == Tokens(s) + 1
    ensures Last(c, t) == t.number && Mine(c, t).stored == StoredPrefix(c.file, t.number)
  {
    var n := s.number;
    CalmTake(c, s.servers, n);
    var s1 := Apply(c, s, SendChunk);
    assert s1.toServer == [UploadMessage(c.name, c.file, n)] && s1.toServer[1..] == [];
    t := Apply(c, s1, Serve(CALM));
    hide Take, UploadMessage, Prefix, Count, Taken;
    OneMoreReply(s.toClient, ChunkAck(c.name, n, Success));
  }

  /** Sending a chunk, having the server acknowledge it, and taking an acknowledgment. */
  lemma HonestRound(c: Config, s: State, limit: nat) returns (actions: seq<Action>)
    requires limit <= Taken(c) && Skimming(c, s, limit) && s.number <= limit
    ensures Legal(c, s, actions)
    ensures var t := After(c, s, actions);
            t.phase == Waiting && t.acknowledged && Skimming(c, Apply(c, t, Wake), limit)
            && Apply(c, t, Wake).number == s.number + 1
  {
    var s1 := Apply(c, s, SendChunk);
    var s2 := SendAndServe(c, s, limit);
    var rest := CatchFlag(c, s2);
    var t := After(c, s2, rest);
    Woken(c, t);
    assert Skimming(c, Apply(c, t, Wake), limit);
    hide Apply, Enabled, Skimming, Tokens;
    FirstStep(c, s1, Serve(CALM), rest);
    FirstStep(c, s, SendChunk, [Serve(CALM)] + rest);
    actions := [SendChunk] + ([Serve(CALM)] + rest);
  }

  lemma Woken(c: Config, s: State)
    requires s.phase == Waiting && s.acknowledged
    ensures Apply(c, s, Wake) == s.(phase := Sending, number := s.number + 1, acknowledged := false)
    ensures Tokens(Apply(c, s, Wake)) == Tokens(s) - 1
  {
  }

  /** Sending a chunk and taking an acknowledgment that was not meant for it. */
  lemma CreditRound(c: Config, s: State, limit: nat) returns (actions: seq<Action>)
    requires Skimming(c, s, limit) && limit < s.number <= Count(c.file)
    ensures Legal(c, s, actions)
    ensures var t := After(c, s, actions);
            t.phase == Waiting && t.acknowledged && Skimming(c, Apply(c, t, Wake), limit)
            && Apply(c, t, Wake).number == s.number + 1
  {
    var s1 := Apply(c, s, SendChunk);
    var rest := CatchFlag(c, s1);
    FirstStep(c, s, SendChunk, rest);
    actions := [SendChunk] + rest;
    Woken(c, After(c, s, actions));
  }

  /** Round after round, up to chunk number `goal`. */
  lemma {:induction false} Rounds(c: Config, s: State, limit: nat, goal: nat) returns (actions: seq<Action>)
    requires limit <= Taken(c) && Skimming(c, s, limit) && s.number <= goal <= Count(c.file) + 1
    ensures Legal(c, s, actions)
    ensures Skimming(c, After(c, s, actions), limit) && After(c, s, actions).number == goal
    decreases goal - s.number
  {
    if s.number == goal {
      actions := [];
    } else {
      var round;
      if s.number <= limit {
        round := HonestRound(c, s, limit);
      } else {
        round := CreditRound(c, s, limit);
      }
      var t := After(c, s, round);
      var rest := Rounds(c, Apply(c, t, Wake), limit, goal);
      hide Skimming, Apply;
      FirstStep(c, t, Wake, rest);
      RunsCompose(c, s, round, [Wake] + rest);
      actions := round + ([Wake] + rest);
    }
  }

  /** Reporting completion with only the first `limit` chunks stored. */
  lemma Skim(c: Config, s: State, limit: nat) returns (actions: seq<Action>)
    requires limit <= Taken(c) && Skimming(c, s, limit)
    ensures Legal(c, s, actions)
    ensures var t := After(c, s, actions);
            t.phase == Finished && Mine(c, t).stored == StoredPrefix(c.file, limit)
  {
    var rounds := Rounds(c, s, limit, Count(c.file) + 1);
    OneStep(c, After(c, s, rounds), Finish);
    hide Legal;
    RunsCompose(c, s, rounds, [Finish]);
    actions := rounds + [Finish];
  }

  /** With enough credits, completion can be reported while the server holds any number of chunks it would take. */
  lemma SkimFrom(c: Config, s: State, limit: nat) returns (actions: seq<Action>)
    requires Starts(c, s) && limit <= Taken(c) && Credits(c, s, Count(c.file) - limit)
    ensures Legal(c, s, actions)
    ensures var t := After(c, s, actions);
            t.phase == Finished && Mine(c, t).stored == StoredPrefix(c.file, limit)
  {
    var first := Harvest(c, s, Count(c.file) - limit - Tokens(s));
    var t := After(c, s, first);
    WholePrefix(c.file);
    assert Skimming(c, t, limit);
    var rest := Skim(c, t, limit);
    RunsCompose(c, s, first, rest);
    actions := first + rest;
  }

  /**
   * Completion is trustworthy in every run exactly when the credits left behind by earlier uploads are fewer than it
   * takes; for a file the server would take, that is when there are none.
   */
  lemma SafeStartExact(c: Config, s: State)
    requires Starts(c, s)
    ensures SafeFrom(c, s) <==> c.file == [] || !Credits(c, s, Shortfall(c))
  {
    if c.file == [] || !Credits(c, s, Shortfall(c)) {
      forall actions | Legal(c, s, actions) ensures Safe(c, After(c, s, actions)) {
        SafeRun(c, s, actions);
      }
    } else {
      WholePrefix(c.file);
      var limit := Min(Taken(c), Count(c.file) - 1);
      var actions := SkimFrom(c, s, limit);
      ShortPrefix(c.file, limit);
      assert !Safe(c, After(c, s, actions));
    }
  }

  ghost predicate CanFinish(c: Config, s: State) {
    exists actions :: Legal(c, s, actions) && After(c, s, actions).phase == Finished
  }

  /** Completion can be reported at all exactly when credits make up for the chunks the server would not take. */
  lemma CompletionExact(c: Config, s: State)
    requires Starts(c, s)
    ensures CanFinish(c, s) <==> Credits(c, s, Count(c.file) - Taken(c))
  {
    if Credits(c, s, Count(c.file) - Taken(c)) {
      var actions := SkimFrom(c, s, Taken(c));
    }
    if CanFinish(c, s) {
      var actions :| Legal(c, s, actions) && After(c, s, actions).phase == Finished;
      LeadCosts(c, s, actions);
      var t := After(c, s, actions);
      hide Legal, After, Credits;
      FewerCredits(c, s, Lead(c, t) + Tokens(t), Count(c.file) - Taken(c));
    }
  }

  /** With nothing left behind, completion can be reported exactly for the files the server takes whole. */
  lemma FreshCompletionExact(c: Config)
    ensures CanFinish(c, FRESH) <==> Taken(c) == Count(c.file)
  {
    FreshHasNoCredit(c);
    CompletionExact(c, FRESH);
  }

  const RESPONSE_LOST: Surroundings := Surroundings(F.ResponseLost, F.DiskWorks)

  /** The last chunk is stored, but the response of the file server is lost: the chunk is answered upload_failed. */
  lemma LostResponse(c: Config, s: State) returns (t: State)
    requires Skimming(c, s, Count(c.file)) && Taken(c) == Count(c.file) == s.number
    ensures Enabled(c, s, SendChunk) && Enabled(c, Apply(c, s, SendChunk), Serve(RESPONSE_LOST))
    ensures t == Apply(c, Apply(c, s, SendChunk), Serve(RESPONSE_LOST))
    ensures t.failed && Mine(c, t).stored == Some(c.file) && Mine(c, t).upload == Mine(c, s).upload
  {
    var n := s.number;
    TakenFromIs(c, 0, n);
    PrefixGrows(c.file, n);
    WholePrefix(c.file);
    var s1 := Apply(c, s, SendChunk);
    assert s1.toServer == [UploadMessage(c.name, c.file, n)];
    t := Apply(c, s1, Serve(RESPONSE_LOST));
  }

  /**
   * A file can be stored whole without being marked, whatever its size: when the response to its last chunk is lost.
   */
  lemma StoredNotMarked(c: Config) returns (actions: seq<Action>)
    requires c.file != [] && Taken(c) == Count(c.file)
    ensures Legal(c, FRESH, actions)
    ensures var t := After(c, FRESH, actions);
            t.failed && Mine(c, t).stored == Some(c.file) && !Mine(c, t).upload.completed
  {
    var n := Count(c.file);
    WholePrefix(c.file);
    assert Skimming(c, FRESH, n);
    var rounds := Rounds(c, FRESH, n, n);
    var s := After(c, FRESH, rounds);
    var t := LostResponse(c, s);
    hide Apply, Enabled, Skimming;
    OneStep(c, Apply(c, s, SendChunk), Serve(RESPONSE_LOST));
    FirstStep(c, s, SendChunk, [Serve(RESPONSE_LOST)]);
    RunsCompose(c, FRESH, rounds, [SendChunk] + [Serve(RESPONSE_LOST)]);
    actions := rounds + ([SendChunk] + [Serve(RESPONSE_LOST)]);
    FreshHasNoCredit(c);
    MarkedCompleted(c, FRESH, actions);
  }

  // ----- what the server would take

  /** The size of the last chunk of a non-empty file. */
  function LastSize(f: Bytes): nat
    requires f != []
  {
    |Chunk(f, Count(f))|
  }

  /**
   * The server takes a whole file exactly when its name is valid and it fits; below a limit of 512 bytes it also
   * takes every file whose last chunk alone is over the limit.
   */
  lemma TakenWhole(c: Config)
    requires c.file != [] && c.maxSize < F.SIZE_MODULUS && |c.file| <= F.SIZE_MODULUS - CHUNK
    ensures Taken(c) == Count(c.file) <==>
              F.ValidName(c.name)
              && (|c.file| <= c.maxSize || (c.maxSize < CHUNK && LastSize(c.file) > c.maxSize))
  {
    WholePrefix(c.file);
    var n := Count(c.file);
    forall i | 1 <= i <= n ensures Takes(c, i) <==> F.ValidName(c.name) && Room(c, i) {
      RoomExact(c, i);
    }
    TakenFromIs(c, 0, n);
    if Taken(c) < n {
      TakenFromIs(c, 0, Taken(c) + 1);
    }
    assert Prefix(c.file, n) == c.file;
    ChunkSize(c.file, n);
    if F.ValidName(c.name) && Room(c, n) {
      forall i | 1 <= i <= n ensures Room(c, i) {
        ChunkSize(c.file, i);
        PrefixGrows(c.file, i);
      }
    }
  }

  /** Chunk i fits, or is itself over the limit, which wraps the check around. */
  predicate Room(c: Config, i: nat)
    requires 1 <= i <= Count(c.file)
  {
    |Prefix(c.file, i)| <= c.maxSize || |Chunk(c.file, i)| > c.maxSize
  }

  lemma RoomExact(c: Config, i: nat)
    requires 1 <= i <= Count(c.file) && c.maxSize < F.SIZE_MODULUS && |c.file| <= F.SIZE_MODULUS - CHUNK
    ensures Takes(c, i) <==> F.ValidName(c.name) && Room(c, i)
  {
    ChunkSize(c.file, i);
    PrefixGrows(c.file, i);
    WholePrefix(c.file);
    if |Chunk(c.file, i)| <= c.maxSize {
      F.NoWrap(c.maxSize, |Chunk(c.file, i)|);
    } else {
      F.Wraps(c.maxSize, |Chunk(c.file, i)|);
    }
  }
}
