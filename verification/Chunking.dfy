/** Files cut into 32-byte chunks, each carrying a copy of its two neighbours. */
module Chunking {
  import opened Basics

  const CHUNK_SIZE: nat := 32

  datatype Chunk = Chunk(data: string, previousChunk: string, nextChunk: string)

  function ChunkCount(file: string): nat {
    (|file| + CHUNK_SIZE - 1) / CHUNK_SIZE
  }

  /** The bytes of chunk `k`; nothing outside the file. */
  function Slice(file: string, k: int): string {
    if 0 <= k < ChunkCount(file) then file[k * CHUNK_SIZE..Min((k + 1) * CHUNK_SIZE, |file|)] else ""
  }

  /** Chunk `k` as it should be stored. */
  function ChunkOf(file: string, k: int): Chunk {
    Chunk(Slice(file, k), Slice(file, k - 1), Slice(file, k + 1))
  }

  function Joined(chunks: seq<Chunk>): string {
    if |chunks| == 0 then "" else Joined(chunks[..|chunks|-1]) + chunks[|chunks|-1].data
  }

  /** Reads the file buffer by buffer, then fills in the neighbours. A file that cannot be opened has no chunks. */
  method PartitionFile(file: Option<string>) returns (chunks: seq<Chunk>)
    ensures file.None? ==> chunks == []
    ensures file.Some? ==>
      |chunks| == ChunkCount(file.value) && forall k :: 0 <= k < |chunks| ==> chunks[k] == ChunkOf(file.value, k)
  {
    chunks := [];
    if file.None? { return; }
    var content := file.value;
    var at := 0;
    while at < |content|
      invariant 0 <= at <= |content|
      invariant at == Min(|chunks| * CHUNK_SIZE, |content|) && |chunks| <= ChunkCount(content)
      invariant forall k :: 0 <= k < |chunks| ==> chunks[k] == Chunk(Slice(content, k), "", "")
    {
      var count := Min(CHUNK_SIZE, |content| - at);
      chunks := chunks + [Chunk(content[at..at+count], "", "")];
      at := at + count;
    }
    for k := 0 to |chunks|
      invariant |chunks| == ChunkCount(content)
      invariant forall j :: 0 <= j < |chunks| ==>
        chunks[j] == if j < k then ChunkOf(content, j) else Chunk(Slice(content, j), "", "")
    {
      if k > 0 { chunks := chunks[k := chunks[k].(previousChunk := chunks[k-1].data)]; }
      if k < |chunks| - 1 { chunks := chunks[k := chunks[k].(nextChunk := chunks[k+1].data)]; }
    }
  }

  /** Every chunk holds between 1 and 32 bytes, and only the last may hold fewer than 32. */
  lemma ChunkSizes(file: string, k: int)
    requires 0 <= k < ChunkCount(file)
    ensures 1 <= |Slice(file, k)| <= 32
    ensures k + 1 < ChunkCount(file) ==> |Slice(file, k)| == 32
    ensures k * CHUNK_SIZE + |Slice(file, k)| == Min((k + 1) * CHUNK_SIZE, |file|)
  {
  }

  lemma SlicesJoin(file: string, a: nat, b: nat, c: nat)
    requires a <= b <= c <= |file|
    ensures file[a..b] + file[b..c] == file[a..c]
  {
  }

  /** The chunks' own bytes, joined in order, are the file again. */
  lemma {:induction false} JoinedIsPrefix(file: string, chunks: seq<Chunk>)
    requires |chunks| <= ChunkCount(file)
    requires forall k :: 0 <= k < |chunks| ==> chunks[k].data == Slice(file, k)
    ensures Joined(chunks) == file[..Min(|chunks| * CHUNK_SIZE, |file|)]
    ensures |chunks| == ChunkCount(file) ==> Joined(chunks) == file
  {
    if |chunks| > 0 {
      var k := |chunks| - 1;
      JoinedIsPrefix(file, chunks[..k]);
      NextSlice(file, k);
    }
  }

  lemma NextSlice(file: string, k: nat)
    requires k < ChunkCount(file)
    ensures file[..Min(k * CHUNK_SIZE, |file|)] + Slice(file, k) == file[..Min((k + 1) * CHUNK_SIZE, |file|)]
    ensures k + 1 == ChunkCount(file) ==> file[..Min((k + 1) * CHUNK_SIZE, |file|)] == file
  {
    ChunkSizes(file, k);
    SlicesJoin(file, 0, k * CHUNK_SIZE, Min((k + 1) * CHUNK_SIZE, |file|));
  }

  /** A chunk with its neighbours is a window on the file. */
  lemma ChunkWindow(file: string, k: int)
    requires 0 <= k < ChunkCount(file)
    ensures
      var c := ChunkOf(file, k);
      var base := k * CHUNK_SIZE - |c.previousChunk|;
      var end := Min((k + 2) * CHUNK_SIZE, |file|);
      && 0 <= base <= end <= |file| && (base == 0 || |c.previousChunk| == CHUNK_SIZE)
      && (|c.previousChunk| == 0 ==> base == 0)
      && c.previousChunk + c.data + c.nextChunk == file[base..end]
  {
    var c := ChunkOf(file, k);
    var base := if k == 0 then 0 else (k - 1) * CHUNK_SIZE;
    var mid, next, end := k * CHUNK_SIZE, Min((k + 1) * CHUNK_SIZE, |file|), Min((k + 2) * CHUNK_SIZE, |file|);
    ChunkSizes(file, k);
    assert c.data == file[mid..next];
    assert c.previousChunk == file[base..mid] && |c.previousChunk| == mid - base;
    assert c.nextChunk == file[next..end];
    SlicesJoin(file, base, mid, next);
    SlicesJoin(file, base, next, end);
  }
}
