/** Forwarding a stored file to a receiver, end to end. */
module Delivery {
  import opened Wrappers
  import opened Chunking
  import opened RequestHandler
  import opened Client
  import F = FileServer
  import U = Upload

  /** After the notification, with a disk that works. */
  const STARTED: Incoming := Incoming(true, true, Some([]))

  /** What a receiver that was notified holds at the end of a forwarding. */
  ghost function Received(name: F.FileName, stored: Option<Bytes>, way: Way, thrown: seq<Bytes>): Incoming {
    ReceiveAll(STARTED, SentMessages(name, stored, way, thrown))
  }

  /** What the receiver holds once it has the first n chunks of d: it closes the file with the last one. */
  function Holds(d: Bytes, n: nat): Incoming {
    var isOpen := n == 0 || n < Count(d);
    Incoming(isOpen, isOpen, Some(Prefix(d, n)))
  }

  lemma {:induction false} ReceivedPrefix(name: F.FileName, d: Bytes, n: nat)
    requires n <= Count(d)
    ensures ReceiveAll(STARTED, Forwarded(name, F.ChunksOf(d))[..n]) == Holds(d, n)
  {
    var messages := Forwarded(name, F.ChunksOf(d));
    if n == 0 {
      WholePrefix(d);
    } else {
      ReceivedPrefix(name, d, n - 1);
      PrefixGrows(d, n);
      assert messages[..n][..n - 1] == messages[..n - 1];
      assert messages[..n][n - 1].data == Chunk(d, n);
    }
  }

  /** However many messages can be written, the receiver holds exactly the chunks they carried. */
  lemma DeliveredSoFar(name: F.FileName, d: Bytes, way: Way, thrown: seq<Bytes>)
    requires !F.TooShort(name) && way.readable
    ensures Received(name, Some(d), way, thrown) == Holds(d, Min(way.writable, Count(d)))
  {
    F.DownloadedChunks(d);
    ReceivedPrefix(name, d, Min(way.writable, Count(d)));
  }

  /**
   * The receiver ends up with the stored file, byte for byte and closed, exactly when the file is not empty and
   * every message could be written. The transfer has left the list of pending ones either way.
   */
  lemma DeliveredExact(name: F.FileName, d: Bytes, way: Way, thrown: seq<Bytes>)
    requires !F.TooShort(name) && way.readable
    ensures Received(name, Some(d), way, thrown) == Incoming(false, false, Some(d)) <==>
              d != [] && way.writable >= Count(d)
  {
    DeliveredSoFar(name, d, way, thrown);
    WholePrefix(d);
  }

  /** When there is no file to read, the text of the error is delivered in its place, and closed. */
  lemma ErrorsAreDelivered(name: F.FileName, stored: Option<Bytes>, way: Way, thrown: seq<Bytes>)
    requires !F.TooShort(name) && (stored.None? || !way.readable) && way.writable >= 1
    ensures var text := F.TextBytes(if stored.None? then F.NOT_FOUND else F.UNREADABLE);
            Received(name, stored, way, thrown) == Incoming(false, false, Some(text))
  {
    var text := F.TextBytes(if stored.None? then F.NOT_FOUND else F.UNREADABLE);
    F.CollectedPrefix([text], 1);
    var messages := Forwarded(name, [text]);
    assert F.Collected([text]) == [text];
    assert messages[..1] == messages;
    assert ReceiveAll(STARTED, messages[..0]) == STARTED;
    assert [] + text == text;
  }

  /**
   * From sender to receiver: once the server has marked an upload completed, from whatever start, forwarding it
   * delivers the sender's file.
   */
  lemma EndToEnd(c: U.Config, s: U.State, actions: seq<U.Action>, way: Way, thrown: seq<Bytes>)
    requires U.Starts(c, s) && U.Legal(c, s, actions)
    requires U.Mine(c, U.After(c, s, actions)).upload.completed
    requires way.readable && way.writable >= Count(c.file)
    ensures Received(c.name, U.Mine(c, U.After(c, s, actions)).stored, way, thrown)
         == Incoming(false, false, Some(c.file))
  {
    U.MarkedCompleted(c, s, actions);
    DeliveredExact(c.name, c.file, way, thrown);
  }
}
