/** `stream_video`: the response body read from the output file in chunks of at most 8192 bytes. */
module Chunked {

  /** The size `stream_video` passes to every `read`. */
  const ChunkSize: nat := 8192

  function Min(a: nat, b: nat): nat {
    if a <= b then a else b
  }

  /** The chunks laid end to end. */
  function Concat(chunks: seq<seq<bv8>>): seq<bv8> {
    if chunks == [] then [] else Concat(chunks[..|chunks| - 1]) + chunks[|chunks| - 1]
  }

  /** A file opened with `open(path, 'rb')`: fixed contents and a read position. */
  class OpenFile {
    const contents: seq<bv8>
    var pos: nat

    ghost predicate Valid()
      reads this
    {
      pos <= |contents|
    }

    constructor (contents: seq<bv8>)
      ensures Valid() && this.contents == contents && pos == 0
    {
      this.contents := contents;
      pos := 0;
    }

    /** `f.read(n)` on a regular file: the next `n` bytes, fewer at the end, none at end of file. */
    method Read(n: nat) returns (chunk: seq<bv8>)
      requires Valid()
      modifies this`pos
      ensures Valid()
      ensures chunk == contents[old(pos)..Min(old(pos) + n, |contents|)]
      ensures pos == old(pos) + |chunk|
    {
      var end := Min(pos + n, |contents|);
      chunk := contents[pos..end];
      pos := end;
    }
  }

  /** `stream_video`: the chunks it yields, in order, for a file with the given contents.
      Every chunk holds 1 to 8192 bytes, every chunk but the last holds exactly 8192, and
      together they are the whole file. */
  method StreamVideo(contents: seq<bv8>) returns (chunks: seq<seq<bv8>>)
    ensures Concat(chunks) == contents
    ensures forall i | 0 <= i < |chunks| :: 0 < |chunks[i]| <= ChunkSize
    ensures forall i | 0 <= i < |chunks| - 1 :: |chunks[i]| == ChunkSize
  {
    var f := new OpenFile(contents);
    chunks := [];
    while true
      invariant f.Valid() && f.contents == contents
      invariant Concat(chunks) == contents[..f.pos]
      invariant forall i | 0 <= i < |chunks| :: 0 < |chunks[i]| <= ChunkSize
      invariant forall i | 0 <= i < |chunks| - 1 :: |chunks[i]| == ChunkSize
      invariant chunks != [] && |chunks[|chunks| - 1]| < ChunkSize ==> f.pos == |contents|
      decreases |contents| - f.pos
    {
      var chunk := f.Read(ChunkSize);
      if |chunk| == 0 {
        break;
      }
      var before := chunks;
      chunks := chunks + [chunk];
      assert chunks[..|chunks| - 1] == before;
      assert contents[..f.pos] == contents[..f.pos - |chunk|] + chunk;
    }
    assert contents[..f.pos] == contents;
  }

  /** The number of chunks is the file size divided by 8192, rounded up. */
  lemma {:induction false} ChunkCount(chunks: seq<seq<bv8>>)
    requires forall i | 0 <= i < |chunks| :: 0 < |chunks[i]| <= ChunkSize
    requires forall i | 0 <= i < |chunks| - 1 :: |chunks[i]| == ChunkSize
    ensures |chunks| == (|Concat(chunks)| + ChunkSize - 1) / ChunkSize
  {
    if chunks != [] {
      var init := chunks[..|chunks| - 1];
      FullChunksLength(init);
      assert |Concat(chunks)| == ChunkSize * |init| + |chunks[|chunks| - 1]|;
    }
  }

  /** Chunks of exactly 8192 bytes each concatenate to 8192 times as many bytes. */
  lemma {:induction false} FullChunksLength(chunks: seq<seq<bv8>>)
    requires forall i | 0 <= i < |chunks| :: |chunks[i]| == ChunkSize
    ensures |Concat(chunks)| == ChunkSize * |chunks|
  {
    if chunks != [] {
      FullChunksLength(chunks[..|chunks| - 1]);
    }
  }
}
