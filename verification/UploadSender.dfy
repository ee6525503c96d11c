/** The client of the transition system is the client of the source. */
module UploadSender {
  import opened Chunking
  import opened Protocol
  import opened Client
  import opened Upload

  ghost function SentNow(c: Config, s: State, a: Action): seq<ChunkMessage>
    requires Enabled(c, s, a)
  {
    if a.SendChunk? then [UploadMessage(c.name, c.file, s.number)] else []
  }

  /** The messages the client sends along a run. */
  ghost function Sent(c: Config, s: State, actions: seq<Action>): seq<ChunkMessage>
    requires Legal(c, s, actions)
    decreases |actions|
  {
    if actions == [] then []
    else
      SentNow(c, s, actions[0]) + Sent(c, Apply(c, s, actions[0]), actions[1..])
  }

  /** Whether a success has arrived since the wait before, given whether one had before this action. */
  function HeardAfter(s: State, heard: bool, a: Action): bool {
    if a.Wake? then false else heard || (a.Receive? && s.toClient != [] && s.toClient[0].status == Success)
  }

  /** For every wait that ended along a run: whether a success arrived since the end of the wait before. */
  ghost function Arrivals(c: Config, s: State, heard: bool, actions: seq<Action>): seq<bool>
    requires Legal(c, s, actions)
    decreases |actions|
  {
    if actions == [] then []
    else
      WaitEnded(heard, actions[0])
      + Arrivals(c, Apply(c, s, actions[0]), HeardAfter(s, heard, actions[0]), actions[1..])
  }

  function WaitEnded(heard: bool, a: Action): seq<bool> {
    if a.Wake? || a.GiveUp? then [heard] else []
  }

  /** The arrivals of the waits before the one that timed out: `flag`, the flag at the start, satisfied the first. */
  predicate AllSatisfied(flag: bool, arrivals: seq<bool>) {
    forall i :: 0 <= i < |arrivals| ==> arrivals[i] || (flag && i == 0)
  }

  /**
   * Where the client stands after waits with these arrivals; `flag` is the flag it started with and `heard` says
   * whether a success arrived since the last wait.
   */
  predicate ClientAt(c: Config, s: State, flag: bool, arrivals: seq<bool>, heard: bool) {
    && 1 <= s.number <= Count(c.file) + 1
    && (s.phase == Waiting || s.phase == GaveUp ==> s.number <= Count(c.file))
    && (s.phase == Finished ==> s.number == Count(c.file) + 1)
    && (s.phase != GaveUp ==> s.acknowledged == (heard || (flag && s.number == 1)))
    && (if s.phase == GaveUp then
          && |arrivals| == s.number && !arrivals[s.number - 1] && !(flag && s.number == 1)
          && AllSatisfied(flag, arrivals[..s.number - 1])
        else
          |arrivals| == s.number - 1 && AllSatisfied(flag, arrivals))
  }

  function SentCount(s: State): int {
    s.number - 1 + if s.phase == Waiting || s.phase == GaveUp then 1 else 0
  }

  lemma SentStep(c: Config, s: State, flag: bool, arrivals: seq<bool>, heard: bool, a: Action)
    requires ClientAt(c, s, flag, arrivals, heard) && Enabled(c, s, a)
    requires ClientAt(c, Apply(c, s, a), flag, arrivals + WaitEnded(heard, a), HeardAfter(s, heard, a))
    ensures UploadMessages(c.name, c.file, SentCount(s)) + SentNow(c, s, a)
         == UploadMessages(c.name, c.file, SentCount(Apply(c, s, a)))
  {
    hide Count, UploadMessage, Take, AllSatisfied;
    if a.SendChunk? {
      OneMoreMessage(c.name, c.file, s.number);
    }
  }

  lemma ClientWakes(c: Config, s: State, flag: bool, arrivals: seq<bool>, heard: bool)
    requires ClientAt(c, s, flag, arrivals, heard) && Enabled(c, s, Wake)
    ensures ClientAt(c, Apply(c, s, Wake), flag, arrivals + [heard], false)
  {
    hide Count;
  }

  lemma ClientGivesUp(c: Config, s: State, flag: bool, arrivals: seq<bool>, heard: bool)
    requires ClientAt(c, s, flag, arrivals, heard) && Enabled(c, s, GiveUp)
    ensures ClientAt(c, Apply(c, s, GiveUp), flag, arrivals + [heard], heard)
  {
    hide Count;
    assert (arrivals + [heard])[..s.number - 1] == arrivals;
  }

  lemma ClientGoesOn(c: Config, s: State, flag: bool, arrivals: seq<bool>, heard: bool, a: Action)
    requires ClientAt(c, s, flag, arrivals, heard) && Enabled(c, s, a) && !a.Wake? && !a.GiveUp?
    ensures ClientAt(c, Apply(c, s, a), flag, arrivals, HeardAfter(s, heard, a))
  {
    hide Count, Take, UploadMessage, AllSatisfied;
  }

  lemma ClientStep(c: Config, s: State, flag: bool, arrivals: seq<bool>, heard: bool, a: Action)
    requires ClientAt(c, s, flag, arrivals, heard) && Enabled(c, s, a)
    ensures ClientAt(c, Apply(c, s, a), flag, arrivals + WaitEnded(heard, a), HeardAfter(s, heard, a))
  {
    hide Apply, ClientAt;
    if a.Wake? {
      ClientWakes(c, s, flag, arrivals, heard);
    } else if a.GiveUp? {
      ClientGivesUp(c, s, flag, arrivals, heard);
    } else {
      ClientGoesOn(c, s, flag, arrivals, heard, a);
      assert arrivals + WaitEnded(heard, a) == arrivals;
    }
  }

  lemma {:induction false} ClientAlong(c: Config, s: State, flag: bool, arrivals: seq<bool>, heard: bool,
                                       actions: seq<Action>) returns (heardAfter: bool)
    requires ClientAt(c, s, flag, arrivals, heard) && Legal(c, s, actions)
    ensures ClientAt(c, After(c, s, actions), flag, arrivals + Arrivals(c, s, heard, actions), heardAfter)
    ensures UploadMessages(c.name, c.file, SentCount(s)) + Sent(c, s, actions)
         == UploadMessages(c.name, c.file, SentCount(After(c, s, actions)))
    decreases |actions|
  {
    var sent := UploadMessages(c.name, c.file, SentCount(s));
    hide Enabled, Apply, UploadMessages, SentNow, ClientAt, HeardAfter, WaitEnded;
    if actions == [] {
      assert arrivals + Arrivals(c, s, heard, actions) == arrivals;
      heardAfter := heard;
    } else {
      var a, rest := actions[0], actions[1..];
      ClientStep(c, s, flag, arrivals, heard, a);
      SentStep(c, s, flag, arrivals, heard, a);
      var next, ended, later := Apply(c, s, a), WaitEnded(heard, a), HeardAfter(s, heard, a);
      heardAfter := ClientAlong(c, next, flag, arrivals + ended, later, rest);
      Regroup(arrivals, ended, Arrivals(c, next, later, rest));
      Regroup(sent, SentNow(c, s, a), Sent(c, next, rest));
    }
  }

  lemma Regroup<T>(a: seq<T>, b: seq<T>, c: seq<T>)
    ensures a + (b + c) == (a + b) + c
  {
  }

  /** What the method promises to have sent, and how it ends, where the client stands after its last wait. */
  lemma ClientEnded(c: Config, t: State, flag: bool, arrivals: seq<bool>, heard: bool)
    requires ClientAt(c, t, flag, arrivals, heard) && (t.phase == Finished || t.phase == GaveUp)
    ensures SendResult(c.name, c.file, flag, arrivals, UploadMessages(c.name, c.file, SentCount(t)),
                       if t.phase == Finished then Completed(|c.file|) else TimedOut, flag && c.file == [])
  {
    WholePrefix(c.file);
    hide UploadMessages, Prefix, Count;
    var waits, n := Satisfied(flag, arrivals), t.number - 1;
    if n < |waits| {
      assert t.phase == GaveUp ==> !waits[n];
    }
    forall i | 0 <= i < n ensures waits[i] {
      if t.phase == GaveUp {
        assert arrivals[i] == arrivals[..n][i];
      }
    }
    LeadingTrueIs(waits, n);
  }

  /**
   * From every start, a run that ended sent and ended as SendFileChunks does when acknowledgments arrive as they did
   * in this run.
   */
  lemma ClientRefined(c: Config, s: State, actions: seq<Action>)
    requires Starts(c, s) && Legal(c, s, actions)
    ensures var t, arrivals := After(c, s, actions), Arrivals(c, s, false, actions);
            t.phase == Finished || t.phase == GaveUp ==>
              SendResult(c.name, c.file, s.acknowledged, arrivals, Sent(c, s, actions),
                         if t.phase == Finished then Completed(|c.file|) else TimedOut,
                         s.acknowledged && c.file == [])
  {
    var t, flag, arrivals := After(c, s, actions), s.acknowledged, Arrivals(c, s, false, actions);
    var heard := ClientAlong(c, s, flag, [], false, actions);
    assert [] + arrivals == arrivals;
    assert UploadMessages(c.name, c.file, 0) + Sent(c, s, actions) == Sent(c, s, actions);
    hide ClientAt, SendResult, After, Arrivals, Sent, UploadMessages, Legal;
    if t.phase == Finished || t.phase == GaveUp {
      ClientEnded(c, t, flag, arrivals, heard);
    }
  }
}
