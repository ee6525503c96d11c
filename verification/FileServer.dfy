/** file_server.cpp and file_server_client.cpp: the stored files, uploading a chunk and downloading a file. */
module FileServer {
  import opened Wrappers
  import opened Chunking

  const FILENAME_LEN: nat := 16

  const ALPHABET: string := "0123456789ABCDEFGHIJKLMNOPQRSTUVWXYZabcdefghijklmnopqrstuvwxyz"

  /** A file name as the filesystem library splits it. */
  datatype FileName = FileName(stem: string, extension: string)

  /** What the disk does with an upload. */
  datatype Disk = DiskWorks | OpenFails | WriteFails

  /** What the connection does with a request and its response. */
  datatype Link = Delivered | RequestLost | ResponseLost

  datatype UploadResponse = Uploaded | BadName | ChunkTooLarge | OverLimit | CreateFailed | WriteFailed

  const SIZE_MODULUS: nat := 0x1_0000_0000_0000_0000

  ghost predicate ValidName(name: FileName) {
    |name.stem| == FILENAME_LEN && forall i :: 0 <= i < |name.stem| ==> name.stem[i] in ALPHABET
  }

  /** The size check of the source, in 64-bit unsigned arithmetic. */
  predicate ExceedsLimit(fileSize: nat, maxSize: nat, bytes: nat) {
    fileSize > (maxSize - bytes) % SIZE_MODULUS
  }

  function SizeOf(stored: Option<Bytes>): nat {
    match stored
    case None => 0
    case Some(bytes) => |bytes|
  }

  /** One upload of body onto a stored file: the response, and the stored file afterwards. */
  ghost function StoreChunk(validName: bool, maxSize: nat, stored: Option<Bytes>, body: Bytes, disk: Disk)
    : (UploadResponse, Option<Bytes>)
  {
    if !validName then (BadName, stored)
    else if |body| > CHUNK then (ChunkTooLarge, None)
    else if ExceedsLimit(SizeOf(stored), maxSize, |body|) then (OverLimit, None)
    else match disk
      case OpenFails => (CreateFailed, stored)
      case WriteFails => (WriteFailed, None)
      case DiskWorks => (Uploaded, Some((if stored.Some? then stored.value else []) + body))
  }

  /** The upload as its caller sees it over a connection: whether it reports success, and the stored file. */
  ghost function UploadOutcome(validName: bool, maxSize: nat, stored: Option<Bytes>, body: Bytes, link: Link, disk: Disk)
    : (bool, Option<Bytes>)
  {
    var (response, after) := StoreChunk(validName, maxSize, stored, body, disk);
    match link
    case RequestLost => (false, stored)
    case ResponseLost => (false, after)
    case Delivered => (response == Uploaded, after)
  }

  /** Nothing but the disk or the connection can keep this upload from being reported as a success. */
  ghost predicate Acceptable(validName: bool, maxSize: nat, stored: Option<Bytes>, body: Bytes) {
    validName && |body| <= CHUNK && !ExceedsLimit(SizeOf(stored), maxSize, |body|)
  }

  /** Success is reported exactly when the checks, the disk and the connection allow it, and then the body is appended. */
  lemma SuccessAppends(validName: bool, maxSize: nat, stored: Option<Bytes>, body: Bytes, link: Link, disk: Disk)
    ensures var (success, after) := UploadOutcome(validName, maxSize, stored, body, link, disk);
            && (success <==> Acceptable(validName, maxSize, stored, body) && link == Delivered && disk == DiskWorks)
            && (success ==> after == Some((if stored.Some? then stored.value else []) + body))
  {
  }

  /** The stored file and one chunk fit, as 64-bit arithmetic has it. */
  predicate Fits(maxSize: nat, size: nat, bytes: nat) {
    size + bytes <= if bytes <= maxSize then maxSize else SIZE_MODULUS + maxSize
  }

  lemma FitsExact(maxSize: nat, size: nat, bytes: nat)
    requires maxSize < SIZE_MODULUS && bytes <= CHUNK
    ensures ExceedsLimit(size, maxSize, bytes) <==> !Fits(maxSize, size, bytes)
  {
    if bytes <= maxSize {
      NoWrap(maxSize, bytes);
    } else {
      Wraps(maxSize, bytes);
    }
  }

  /** Which response an upload gets, and which refused uploads remove the file that was there. */
  lemma ResponseExact(validName: bool, maxSize: nat, stored: Option<Bytes>, body: Bytes, disk: Disk)
    requires maxSize < SIZE_MODULUS
    ensures var (response, after) := StoreChunk(validName, maxSize, stored, body, disk);
            var fits := |body| <= CHUNK && Fits(maxSize, SizeOf(stored), |body|);
            && (response == BadName <==> !validName)
            && (response == ChunkTooLarge <==> validName && |body| > CHUNK)
            && (response == OverLimit <==> validName && |body| <= CHUNK && !fits)
            && (response == CreateFailed <==> validName && fits && disk == OpenFails)
            && (response == WriteFailed <==> validName && fits && disk == WriteFails)
            && (response == Uploaded <==> validName && fits && disk == DiskWorks)
            && (response == BadName || response == CreateFailed ==> after == stored)
            && (response == ChunkTooLarge || response == OverLimit || response == WriteFailed ==> after == None)
  {
    if |body| <= CHUNK {
      FitsExact(maxSize, SizeOf(stored), |body|);
    }
  }

  /** A lost request changes nothing; a lost response hides what the upload did. */
  lemma LinkExact(validName: bool, maxSize: nat, stored: Option<Bytes>, body: Bytes, link: Link, disk: Disk)
    ensures var (success, after) := UploadOutcome(validName, maxSize, stored, body, link, disk);
            && (link == RequestLost ==> !success && after == stored)
            && (link == ResponseLost ==> !success)
            && (link != RequestLost ==> after == StoreChunk(validName, maxSize, stored, body, disk).1)
  {
  }

  /**
   * The limit holds after every upload, for every stored file within it, exactly when it leaves room for one chunk:
   * with a smaller limit the subtraction wraps around and an oversized first chunk is accepted.
   */
  lemma LimitKeptExactly(maxSize: nat)
    requires maxSize < SIZE_MODULUS
    ensures (forall stored: Option<Bytes>, body: Bytes, disk: Disk | SizeOf(stored) <= maxSize ::
               SizeOf(StoreChunk(true, maxSize, stored, body, disk).1) <= maxSize)
       <==> maxSize >= CHUNK
  {
    if maxSize >= CHUNK {
      forall stored: Option<Bytes>, body: Bytes, disk: Disk | SizeOf(stored) <= maxSize
        ensures SizeOf(StoreChunk(true, maxSize, stored, body, disk).1) <= maxSize
      {
        if |body| <= CHUNK {
          NoWrap(maxSize, |body|);
        }
      }
    } else {
      var body: Bytes := seq(CHUNK, i => 0);
      Wraps(maxSize, CHUNK);
      assert SizeOf(StoreChunk(true, maxSize, None, body, DiskWorks).1) == CHUNK;
    }
  }

  lemma NoWrap(maxSize: nat, bytes: nat)
    requires bytes <= maxSize < SIZE_MODULUS
    ensures (maxSize - bytes) % SIZE_MODULUS == maxSize - bytes
  {
  }

  lemma Wraps(maxSize: nat, bytes: nat)
    requires maxSize < bytes <= CHUNK
    ensures (maxSize - bytes) % SIZE_MODULUS == SIZE_MODULUS + maxSize - bytes
  {
  }

  // ----- downloads

  const NOT_FOUND: string := "File not found"

  const UNREADABLE: string := "Failed to open file"

  function TextBytes(text: string): (bytes: Bytes)
    ensures |bytes| == |text|
  {
    seq(|text|, i requires 0 <= i < |text| => (text[i] as int % 256) as bv8)
  }

  /** What the read loop sends: full chunks, then what is left, which is empty when the size is a multiple of 512. */
  ghost function Responses(d: Bytes): seq<Bytes> {
    seq(|d| / CHUNK + 1, i requires 0 <= i < |d| / CHUNK + 1 => d[CHUNK * i..Min(CHUNK * i + CHUNK, |d|)])
  }

  /** A name of one character has no second directory: looking the file up throws. */
  predicate TooShort(name: FileName) {
    |name.stem + name.extension| < 2
  }

  /** The bodies a download request is answered with; an error is a body too. None: the handler throws. */
  ghost function DownloadBodies(name: FileName, stored: Option<Bytes>, readable: bool): Option<seq<Bytes>> {
    if TooShort(name) then None
    else if stored.None? then Some([TextBytes(NOT_FOUND)])
    else if !readable then Some([TextBytes(UNREADABLE)])
    else Some(Responses(stored.value))
  }

  function Concatenated(parts: seq<Bytes>): Bytes {
    if parts == [] then [] else Concatenated(parts[..|parts| - 1]) + parts[|parts| - 1]
  }

  lemma {:induction false} ResponsesSoFar(d: Bytes, n: nat)
    requires n <= |d| / CHUNK + 1
    ensures Concatenated(Responses(d)[..n]) == d[..Min(CHUNK * n, |d|)]
  {
    var r := Responses(d);
    if n == 0 {
      assert r[..0] == [];
    } else {
      ResponsesSoFar(d, n - 1);
      assert r[..n][..n - 1] == r[..n - 1] && r[..n][n - 1] == r[n - 1];
    }
  }

  /** The responses together are the file: all of 512 bytes but the last, which is shorter and may be empty. */
  lemma ResponsesExact(d: Bytes)
    ensures var r := Responses(d);
            && Concatenated(r) == d && |r| >= 1 && |r[|r| - 1]| < CHUNK
            && forall i :: 0 <= i < |r| - 1 ==> |r[i]| == CHUNK
  {
    ResponsesSoFar(d, |d| / CHUNK + 1);
    assert Responses(d)[..|d| / CHUNK + 1] == Responses(d);
  }

  lemma ByteOfSmall(n: nat)
    requires n < 256
    ensures ((n % 256) as bv8) as int == n
  {
    ByteBack(n);
    RemainderOfSmall(n);
  }

  lemma ByteBack(n: nat)
    requires n < 256
    ensures ((n % 256) as bv8) as int == n % 256
  {
  }

  lemma RemainderOfSmall(n: nat)
    requires n < 256
    ensures n % 256 == n
  {
  }

  /** Bytes of a text whose characters are below 256 are the characters' codes. */
  lemma TextReadsBack(text: string, i: nat)
    requires i < |text| && text[i] as int < 256
    ensures TextBytes(text)[i] as int == text[i] as int
  {
    ByteOfSmall(text[i] as int);
  }

  /** The responses before the first empty one. */
  ghost function Collected(responses: seq<Bytes>): seq<Bytes> {
    if responses == [] || responses[0] == [] then [] else [responses[0]] + Collected(responses[1..])
  }

  ghost function ChunksOf(d: Bytes): (chunks: seq<Bytes>)
    ensures |chunks| == Count(d)
  {
    seq(Count(d), i requires 0 <= i < Count(d) => Chunk(d, i + 1))
  }

  lemma CollectedPrefix(responses: seq<Bytes>, n: nat)
    requires n <= |responses|
    requires forall i :: 0 <= i < n ==> responses[i] != []
    requires n == |responses| || responses[n] == []
    ensures Collected(responses) == responses[..n]
    decreases n
  {
    if n > 0 {
      CollectedPrefix(responses[1..], n - 1);
      assert [responses[0]] + responses[1..][..n - 1] == responses[..n];
    }
  }

  /** The collector ends up with exactly the chunks of the file, for every size. */
  lemma DownloadedChunks(d: Bytes)
    ensures Collected(Responses(d)) == ChunksOf(d)
  {
    var r, n := Responses(d), Count(d);
    forall i | 0 <= i < n ensures r[i] == Chunk(d, i + 1) && r[i] != [] {
      ChunkSize(d, i + 1);
    }
    CollectedPrefix(r, n);
    assert r[..n] == ChunksOf(d);
  }

  class FileServer {
    const maxFileSize: nat
    var files: map<FileName, Bytes>

    /** Files found in the storage directory stay there. */
    constructor (maxFileSize: nat, found: map<FileName, Bytes>)
      ensures this.maxFileSize == maxFileSize && files == found
    {
      this.maxFileSize := maxFileSize;
      files := found;
    }

    ghost function Stored(name: FileName): Option<Bytes>
      reads this
    {
      if name in files then Some(files[name]) else None
    }

    method IsValidFilename(name: FileName) returns (valid: bool)
      ensures valid <==> ValidName(name)
    {
      hide ALPHABET;
      if |name.stem| != FILENAME_LEN {
        return false;
      }
      for i := 0 to |name.stem|
        invariant forall k :: 0 <= k < i ==> name.stem[k] in ALPHABET
      {
        var found := false;
        for j := 0 to |ALPHABET|
          invariant !found && forall k :: 0 <= k < j ==> ALPHABET[k] != name.stem[i]
        {
          if name.stem[i] == ALPHABET[j] {
            found := true;
            break;
          }
        }
        if !found {
          assert name.stem[i] !in ALPHABET;
          return false;
        }
      }
      return true;
    }

    method UploadFile(name: FileName, body: Bytes, disk: Disk) returns (response: UploadResponse)
      modifies this
      ensures (response, Stored(name)) == StoreChunk(ValidName(name), maxFileSize, old(Stored(name)), body, disk)
      ensures forall other :: other != name ==> Stored(other) == old(Stored(other))
    {
      var valid := IsValidFilename(name);
      if !valid {
        return BadName;
      }
      if |body| > CHUNK {
        files := files - {name};
        return ChunkTooLarge;
      }
      var fileSize := if name in files then |files[name]| else 0;
      if ExceedsLimit(fileSize, maxFileSize, |body|) {
        files := files - {name};
        return OverLimit;
      }
      if disk == OpenFails {
        return CreateFailed;
      }
      if disk == WriteFails {
        files := files - {name};
        return WriteFailed;
      }
      files := files[name := (if name in files then files[name] else []) + body];
      return Uploaded;
    }

    /** What upload_chunk of the client reports over the given connection. */
    method UploadChunk(name: FileName, body: Bytes, link: Link, disk: Disk) returns (success: bool)
      modifies this
      ensures (success, Stored(name))
           == UploadOutcome(ValidName(name), maxFileSize, old(Stored(name)), body, link, disk)
      ensures forall other :: other != name ==> Stored(other) == old(Stored(other))
    {
      if link == RequestLost {
        return false;
      }
      var response := UploadFile(name, body, disk);
      return link == Delivered && response == Uploaded;
    }

    /** The bodies of every response sent, or None for an exception; `readable` says whether a stored file opens. */
    method DownloadFile(name: FileName, readable: bool) returns (bodies: Option<seq<Bytes>>)
      ensures bodies == DownloadBodies(name, Stored(name), readable)
      ensures bodies == None <==> |name.stem + name.extension| < 2
    {
      if |name.stem + name.extension| < 2 {
        return None;
      }
      if name !in files {
        return Some([TextBytes(NOT_FOUND)]);
      }
      var content := files[name];
      var file := new FileStream(content, readable);
      if !file.good {
        return Some([TextBytes(UNREADABLE)]);
      }
      var sent: seq<Bytes> := [];
      while file.good
        invariant file.Valid() && file.content == content && fresh(file)
        invariant file.good ==> file.pos == CHUNK * |sent|
        invariant forall i :: 0 <= i < |sent| ==>
                    CHUNK * i <= |content| && sent[i] == content[CHUNK * i..Min(CHUNK * i + CHUNK, |content|)]
        invariant !file.good ==> |sent| == |content| / CHUNK + 1
        decreases if file.good then |content| - file.pos + 1 else 0
      {
        var bytes := file.Read(CHUNK);
        sent := sent + [bytes];
      }
      assert sent == Responses(content);
      return Some(sent);
    }
  }

  /** The client's collector: responses in order until an empty one or the end of the stream. */
  method DownloadFileChunks(responses: seq<Bytes>) returns (chunks: seq<Bytes>)
    ensures chunks == Collected(responses)
  {
    chunks := [];
    var i := 0;
    while i < |responses|
      invariant 0 <= i <= |responses|
      invariant chunks + Collected(responses[i..]) == Collected(responses)
    {
      var chunk := responses[i];
      if chunk == [] {
        assert Collected(responses[i..]) == [];
        return;
      }
      assert responses[i..][1..] == responses[i + 1..];
      chunks := chunks + [chunk];
      i := i + 1;
    }
  }
}
