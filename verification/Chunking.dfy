/** Files cut into 512-byte chunks, and the input stream both ends read them with. */
module Chunking {

  type Bytes = seq<bv8>

  const CHUNK: nat := 512

  function Min(a: nat, b: nat): nat {
    if a < b then a else b
  }

  /** The number of non-empty chunks of f. */
  function Count(f: Bytes): nat {
    (|f| + CHUNK - 1) / CHUNK
  }

  /** The first n chunks of f together. */
  function Prefix(f: Bytes, n: nat): Bytes {
    f[..Min(CHUNK * n, |f|)]
  }

  /** Chunk number n of f, counting from 1. */
  function Chunk(f: Bytes, n: nat): Bytes
    requires 1 <= n <= Count(f)
  {
    f[CHUNK * (n - 1)..Min(CHUNK * n, |f|)]
  }

  lemma ChunkSize(f: Bytes, n: nat)
    requires 1 <= n <= Count(f)
    ensures 1 <= |Chunk(f, n)| <= CHUNK
    ensures |Chunk(f, n)| < CHUNK <==> n == Count(f) && |f| % CHUNK != 0
  {
  }

  lemma PrefixGrows(f: Bytes, n: nat)
    requires 1 <= n <= Count(f)
    ensures Prefix(f, n - 1) + Chunk(f, n) == Prefix(f, n)
    ensures |Prefix(f, n - 1)| < |Prefix(f, n)| <= |f|
  {
  }

  lemma WholePrefix(f: Bytes)
    ensures Prefix(f, Count(f)) == f && Prefix(f, 0) == []
    ensures Count(f) == 0 <==> f == []
  {
  }

  /** An input file stream: reading stops at the end of the file, and reading short of a request clears `good`. */
  class FileStream {
    const content: Bytes
    var pos: nat
    var good: bool

    ghost predicate Valid()
      reads this
    {
      pos <= |content|
    }

    constructor (content: Bytes, isOpen: bool)
      ensures Valid() && this.content == content && pos == 0 && good == isOpen
    {
      this.content := content;
      pos := 0;
      good := isOpen;
    }

    /** Reads up to n bytes; what came back is what gcount would count. */
    method Read(n: nat) returns (bytes: Bytes)
      requires Valid()
      modifies this
      ensures Valid()
      ensures bytes == if old(good) then content[old(pos)..Min(old(pos) + n, |content|)] else []
      ensures pos == old(pos) + |bytes|
      ensures good == (old(good) && |bytes| == n)
    {
      if !good {
        return [];
      }
      var end := Min(pos + n, |content|);
      bytes := content[pos..end];
      good := |bytes| == n;
      pos := end;
    }
  }
}
