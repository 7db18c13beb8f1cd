/** Searching a file for a word, chunk by chunk. */
module WordSearch {
  import opened Basics
  import opened Chunking

  predicate OccursAt(text: string, word: string, p: int) {
    0 <= p && p + |word| <= |text| && text[p..p+|word|] == word
  }

  /** The word occurs at `p` with a blank, or the text's end, on both sides. */
  predicate WholeWordAt(text: string, word: string, p: int) {
    && OccursAt(text, word, p)
    && (p == 0 || text[p-1] == ' ')
    && (p + |word| == |text| || text[p+|word|] == ' ')
  }

  /** `std::string::find`: the least occurrence at or after `from`. */
  function FindWord(text: string, word: string, from: nat): (r: Option<nat>)
    ensures r.Some? ==> from <= r.value && r.value + |word| <= |text| && OccursAt(text, word, r.value)
    decreases |text| - from
  {
    if from + |word| > |text| then None
    else if OccursAt(text, word, from) then Some(from)
    else FindWord(text, word, from + 1)
  }

  lemma {:induction false} FindIsLeast(text: string, word: string, from: nat, p: int)
    requires from <= p && OccursAt(text, word, p)
    ensures FindWord(text, word, from).Some? && FindWord(text, word, from).value <= p
    decreases |text| - from
  {
    if !OccursAt(text, word, from) { FindIsLeast(text, word, from + 1, p); }
  }

  /** The offset at which the scan of `text` from `from` counts the word found at `p` as complete. */
  predicate LooksComplete(text: string, word: string, p: nat) {
    && (p > 0 && p - 1 < |text| ==> text[p-1] == ' ')
    && (p + |word| < |text| ==> text[p+|word|] == ' ')
  }

  /** The positions the scan stops at: the leftmost occurrence from `pos`, then the leftmost one after
      it, and so on. The scan continues while it stands before `limit`, but one search may land beyond. */
  ghost function Stops(text: string, word: string, pos: nat, limit: nat): set<int>
    requires |word| > 0
    decreases if pos < limit then limit - pos else 0
  {
    if pos >= limit then {}
    else match FindWord(text, word, pos)
      case None => {}
      case Some(p) => {p as int} + Stops(text, word, p + |word|, limit)
  }

  /** The offsets the scan reports, shifted by `offset`: its stops that look complete. */
  ghost function Hits(text: string, word: string, pos: nat, limit: nat, offset: int): set<int>
    requires |word| > 0
    decreases if pos < limit then limit - pos else 0
  {
    if pos >= limit then {}
    else match FindWord(text, word, pos)
      case None => {}
      case Some(p) =>
        (if LooksComplete(text, word, p) then {offset + p} else {}) + Hits(text, word, p + |word|, limit, offset)
  }

  /** The scan of one chunk with its neighbours. */
  method SearchWordInChunk(chunkData: string, word: string, offsets0: set<int>,
                           chunkOffset: int, prevChunkSize: nat, currentChunkSize: nat)
    returns (offsets: set<int>)
    requires |word| > 0
    ensures offsets == offsets0 + Hits(chunkData, word, prevChunkSize, prevChunkSize + currentChunkSize, chunkOffset)
  {
    hide OccursAt, FindWord;
    offsets := offsets0;
    var pos := prevChunkSize;
    var limit := prevChunkSize + currentChunkSize;
    ghost var all := Hits(chunkData, word, pos, limit, chunkOffset);
    while pos < limit
      invariant offsets + Hits(chunkData, word, pos, limit, chunkOffset) == offsets0 + all
      decreases limit - pos
    {
      ghost var before, rest := offsets, Hits(chunkData, word, pos, limit, chunkOffset);
      var found := FindWord(chunkData, word, pos);
      if found.None? { break; }
      pos := found.value;
      var isCompleteWord := true;
      if pos > 0 && chunkData[pos-1] != ' ' { isCompleteWord := false; }
      if pos + |word| < |chunkData| && chunkData[pos+|word|] != ' ' { isCompleteWord := false; }
      if isCompleteWord { offsets := offsets + {chunkOffset + pos}; }
      pos := pos + |word|;
      assert offsets + Hits(chunkData, word, pos, limit, chunkOffset) == before + rest;
    }
  }

  lemma {:induction false} HitsAreCompleteStops(text: string, word: string, pos: nat, limit: nat, offset: int, q: int)
    requires |word| > 0
    ensures q in Hits(text, word, pos, limit, offset) <==>
      q - offset in Stops(text, word, pos, limit) && q - offset >= 0 && LooksComplete(text, word, q - offset)
    decreases if pos < limit then limit - pos else 0
  {
    hide FindWord, OccursAt, LooksComplete;
    if pos < limit {
      match FindWord(text, word, pos)
      case None =>
      case Some(p) => HitsAreCompleteStops(text, word, p + |word|, limit, offset, q);
    }
  }

  /** The scan stops only at occurrences, none before `pos`. */
  lemma {:induction false} StopsAreOccurrences(text: string, word: string, pos: nat, limit: nat, q: int)
    requires |word| > 0 && q in Stops(text, word, pos, limit)
    ensures pos <= q && OccursAt(text, word, q)
    decreases if pos < limit then limit - pos else 0
  {
    var p := FindWord(text, word, pos).value;
    if q != p { StopsAreOccurrences(text, word, p + |word|, limit, q); }
  }

  predicate SpaceFree(word: string) {
    ' ' !in word
  }

  lemma OccurrenceLetters(text: string, word: string, p: nat)
    requires OccursAt(text, word, p)
    ensures forall i :: 0 <= i < |word| ==> text[p+i] == word[i]
  {
    forall i | 0 <= i < |word| ensures text[p+i] == word[i] {
      assert text[p..p+|word|][i] == text[p+i];
    }
  }

  /** Jumping over each occurrence never jumps over one that follows a blank. */
  lemma {:induction false} NoWordIsSkipped(text: string, word: string, pos: nat, limit: nat, q: nat)
    requires |word| > 0 && SpaceFree(word)
    requires pos <= q < limit && OccursAt(text, word, q) && (q == pos || text[q-1] == ' ')
    ensures q in Stops(text, word, pos, limit)
    decreases limit - pos
  {
    assert q + |word| <= |text|;
    hide OccursAt, FindWord;
    FindIsLeast(text, word, pos, q);
    var p := FindWord(text, word, pos).value;
    if p < q {
      OccurrenceLetters(text, word, p);
      assert text[p + (q - 1 - p)] == ' ';
      NoWordIsSkipped(text, word, p + |word|, limit, q);
    }
  }

  /** Where the scan lands when one search runs past `limit`. */
  function Overrun(text: string, word: string, pos: nat, limit: nat): Option<nat>
    requires |word| > 0
    decreases if pos < limit then limit - pos else 0
  {
    if pos >= limit then None
    else match FindWord(text, word, pos)
      case None => None
      case Some(p) => if p >= limit then Some(p) else Overrun(text, word, p + |word|, limit)
  }

  lemma {:induction false} StopsPastLimit(text: string, word: string, pos: nat, limit: nat, q: nat)
    requires |word| > 0 && limit <= q
    ensures q in Stops(text, word, pos, limit) <==> Overrun(text, word, pos, limit) == Some(q)
    decreases if pos < limit then limit - pos else 0
  {
    if pos < limit && FindWord(text, word, pos).Some? {
      StopsPastLimit(text, word, FindWord(text, word, pos).value + |word|, limit, q);
    }
  }

  lemma {:induction false} OverrunOccurs(text: string, word: string, pos: nat, limit: nat)
    requires |word| > 0 && Overrun(text, word, pos, limit).Some?
    ensures OccursAt(text, word, Overrun(text, word, pos, limit).value)
    decreases if pos < limit then limit - pos else 0
  {
    var p := FindWord(text, word, pos).value;
    if p < limit { OverrunOccurs(text, word, p + |word|, limit); }
  }

  /** Occurrences in a window of the file are the file's occurrences that fit in it. */
  lemma WindowOccurrence(file: string, word: string, base: nat, end: nat, p: int)
    requires base <= end <= |file| && 0 <= p
    ensures OccursAt(file[base..end], word, p) <==> OccursAt(file, word, base + p) && base + p + |word| <= end
  {
    if base + p + |word| <= end {
      var a, b := file[base..end][p..p+|word|], file[base+p..base+p+|word|];
      assert |a| == |b| && forall i :: 0 <= i < |a| ==> a[i] == file[base+p+i] == b[i];
    }
  }

  lemma WindowFind(file: string, word: string, base: nat, end: nat, from: nat)
    requires base <= end <= |file|
    ensures FindWord(file[base..end], word, from) ==
      match FindWord(file, word, base + from)
      case Some(p) => if p + |word| <= end then Some(p - base) else None
      case None => None
  {
    hide OccursAt, FindWord;
    var inner, outer := FindWord(file[base..end], word, from), FindWord(file, word, base + from);
    if outer.Some? && outer.value + |word| <= end {
      WindowOccurrence(file, word, base, end, outer.value - base);
      FindIsLeast(file[base..end], word, from, outer.value - base);
    }
    if inner.Some? {
      WindowOccurrence(file, word, base, end, inner.value);
      FindIsLeast(file, word, base + from, base + inner.value);
    }
  }

  /** An overrun of the window is the file's own overrun, provided it fits and nothing found earlier sticks out. */
  lemma {:induction false} WindowOverrun(file: string, word: string, base: nat, end: nat, pos: nat, limit: nat, q: nat)
    requires |word| > 0 && base <= end <= |file|
    requires end == |file| || base + limit + |word| <= end + 1
    ensures Overrun(file[base..end], word, pos, limit) == Some(q) <==>
      Overrun(file, word, base + pos, base + limit) == Some(base + q) && base + q + |word| <= end
    decreases if pos < limit then limit - pos else 0
  {
    hide OccursAt, FindWord;
    WindowFind(file, word, base, end, pos);
    if pos < limit {
      match FindWord(file[base..end], word, pos)
      case None =>
      case Some(p) =>
        assert FindWord(file, word, base + pos) == Some(base + p);
        if p < limit { WindowOverrun(file, word, base, end, p + |word|, limit, q); }
    }
  }

  /** What a node that stores chunk `k` reports for it. */
  ghost function ChunkHits(file: string, word: string, k: nat): set<int>
    requires |word| > 0
  {
    var c := ChunkOf(file, k);
    Hits(c.previousChunk + c.data + c.nextChunk, word, |c.previousChunk|, |c.previousChunk| + |c.data|,
         k * CHUNK_SIZE - |c.previousChunk|)
  }

  /** The union over all chunks. */
  ghost function FileHits(file: string, word: string): set<int>
    requires |word| > 0
  {
    set k: nat, q | k < ChunkCount(file) && q in ChunkHits(file, word, k) :: q
  }

  /** The right answer, from the file alone. */
  function WholeWords(file: string, word: string): set<int> {
    set q | 0 <= q < |file| && WholeWordAt(file, word, q)
  }

  /** Chunk `k`'s scan runs past its own bytes and lands on an occurrence that ends exactly where the
      next chunk ends, while the file's word goes on in the chunk after that. */
  predicate FalseHit(file: string, word: string, k: nat)
    requires 0 < |word| <= CHUNK_SIZE
  {
    var edge := (k + 2) * CHUNK_SIZE;
    && edge < |file| && file[edge] != ' ' && file[edge-|word|-1] == ' '
    && Overrun(file, word, k * CHUNK_SIZE, (k + 1) * CHUNK_SIZE) == Some(edge - |word|)
  }

  /** The scan from `start` to `limit` in the window `file[base..end]`, reported in file offsets. */
  ghost function WindowHits(file: string, word: string, base: nat, start: nat, limit: nat, end: nat): set<int>
    requires |word| > 0 && base <= start <= limit <= end <= |file|
  {
    Hits(file[base..end], word, start - base, limit - base, base)
  }

  /** The window reaches one byte back from `start`, unless that is the file's first byte, and a word's
      length past `limit`, unless the file ends before. */
  ghost predicate WideWindow(file: string, word: string, base: nat, start: nat, limit: nat, end: nat) {
    && base <= start <= limit <= end <= |file|
    && (base == start ==> base == 0)
    && (end == |file| || limit + |word| <= end)
  }

  /** Within a window of the file, looking complete means being complete, up to the window's end. */
  lemma LooksCompleteInWindow(file: string, word: string, base: nat, end: nat, p: nat)
    requires base <= end <= |file| && base + p + |word| <= end && (p > 0 || base == 0)
    ensures LooksComplete(file[base..end], word, p) <==>
      (base + p > 0 ==> file[base+p-1] == ' ') && (base + p + |word| < end ==> file[base+p+|word|] == ' ')
  {
  }

  lemma WindowReports(file: string, word: string, base: nat, start: nat, limit: nat, end: nat, q: int)
    requires |word| > 0 && WideWindow(file, word, base, start, limit, end)
    requires q in WindowHits(file, word, base, start, limit, end)
    ensures start <= q && q + |word| <= end && OccursAt(file, word, q) && (q > 0 ==> file[q-1] == ' ')
    ensures q + |word| < end ==> file[q+|word|] == ' '
    ensures q >= limit ==> Overrun(file, word, start, limit) == Some(q)
  {
    hide Hits, Stops, FindWord, Overrun, OccursAt, LooksComplete;
    var window := file[base..end];
    HitsAreCompleteStops(window, word, start - base, limit - base, base, q);
    var p: nat := q - base;
    StopsAreOccurrences(window, word, start - base, limit - base, p);
    WindowOccurrence(file, word, base, end, p);
    LooksCompleteInWindow(file, word, base, end, p);
    if q >= limit {
      StopsPastLimit(window, word, start - base, limit - base, p);
      WindowOverrun(file, word, base, end, start - base, limit - base, p);
    }
  }

  lemma WindowFinds(file: string, word: string, base: nat, start: nat, limit: nat, end: nat, q: nat)
    requires |word| > 0 && WideWindow(file, word, base, start, limit, end)
    requires start <= q && q + |word| <= end && OccursAt(file, word, q) && (q > 0 ==> file[q-1] == ' ')
    requires q + |word| < end ==> file[q+|word|] == ' '
    requires (q < limit && SpaceFree(word)) || (q >= limit && Overrun(file, word, start, limit) == Some(q))
    ensures q in WindowHits(file, word, base, start, limit, end)
  {
    hide Hits, Stops, FindWord, Overrun, OccursAt, LooksComplete;
    var window, p := file[base..end], q - base;
    WindowOccurrence(file, word, base, end, p);
    LooksCompleteInWindow(file, word, base, end, p);
    if q < limit {
      assert q > start ==> window[p-1] == file[q-1];
      NoWordIsSkipped(window, word, start - base, limit - base, p);
    } else {
      WindowOverrun(file, word, base, end, start - base, limit - base, p);
      StopsPastLimit(window, word, start - base, limit - base, p);
    }
    HitsAreCompleteStops(window, word, start - base, limit - base, base, q);
  }

  /** A stored chunk with its neighbours is a wide enough window for any word of at most 32 bytes. */
  lemma ChunkIsWideWindow(file: string, word: string, k: nat)
    requires 0 < |word| <= CHUNK_SIZE && k < ChunkCount(file)
    ensures
      var base, start := if k == 0 then 0 else (k - 1) * CHUNK_SIZE, k * CHUNK_SIZE;
      var limit, end := Min((k + 1) * CHUNK_SIZE, |file|), Min((k + 2) * CHUNK_SIZE, |file|);
      && WideWindow(file, word, base, start, limit, end)
      && ChunkHits(file, word, k) == WindowHits(file, word, base, start, limit, end)
  {
    hide Hits;
    ChunkWindow(file, k);
    ChunkSizes(file, k);
    if k > 0 { ChunkSizes(file, k - 1); }
  }

  /** Whatever chunk `k` reports is a whole word of the file, except a false hit. */
  lemma ReportsAreWordsOrFalseHits(file: string, word: string, k: nat, q: int)
    requires 0 < |word| <= CHUNK_SIZE && k < ChunkCount(file)
    requires q in ChunkHits(file, word, k)
    ensures WholeWordAt(file, word, q) || (FalseHit(file, word, k) && q == (k + 2) * CHUNK_SIZE - |word|)
  {
    hide ChunkHits, WindowHits, OccursAt, Overrun;
    ChunkIsWideWindow(file, word, k);
    var base, start := if k == 0 then 0 else (k - 1) * CHUNK_SIZE, k * CHUNK_SIZE;
    var limit, end := Min((k + 1) * CHUNK_SIZE, |file|), Min((k + 2) * CHUNK_SIZE, |file|);
    WindowReports(file, word, base, start, limit, end, q);
  }

  lemma FalseHitIsReported(file: string, word: string, k: nat)
    requires 0 < |word| <= CHUNK_SIZE && k < ChunkCount(file)
    requires FalseHit(file, word, k)
    ensures (k + 2) * CHUNK_SIZE - |word| in ChunkHits(file, word, k)
    ensures !WholeWordAt(file, word, (k + 2) * CHUNK_SIZE - |word|)
  {
    hide ChunkHits, WindowHits, OccursAt, Overrun;
    ChunkIsWideWindow(file, word, k);
    var start, limit, end := k * CHUNK_SIZE, (k + 1) * CHUNK_SIZE, (k + 2) * CHUNK_SIZE;
    OverrunOccurs(file, word, start, limit);
    WindowFinds(file, word, if k == 0 then 0 else (k - 1) * CHUNK_SIZE, start, limit, end, end - |word|);
  }

  /** A whole word is reported by the chunk in which it starts, even when it straddles two chunks. */
  lemma WholeWordIsReported(file: string, word: string, k: nat, q: nat)
    requires 0 < |word| <= CHUNK_SIZE && SpaceFree(word) && k < ChunkCount(file)
    requires k * CHUNK_SIZE <= q < Min((k + 1) * CHUNK_SIZE, |file|) && WholeWordAt(file, word, q)
    ensures q in ChunkHits(file, word, k)
  {
    hide ChunkHits, WindowHits, Overrun;
    ChunkIsWideWindow(file, word, k);
    var base, start := if k == 0 then 0 else (k - 1) * CHUNK_SIZE, k * CHUNK_SIZE;
    var limit, end := Min((k + 1) * CHUNK_SIZE, |file|), Min((k + 2) * CHUNK_SIZE, |file|);
    WindowFinds(file, word, base, start, limit, end, q);
  }

  /** The chunk-by-chunk search never loses a whole word, and it reports nothing else exactly when no
      chunk has a false hit. */
  lemma SearchIsExact(file: string, word: string)
    requires 0 < |word| <= CHUNK_SIZE && SpaceFree(word)
    ensures WholeWords(file, word) <= FileHits(file, word)
    ensures FileHits(file, word) == WholeWords(file, word) <==>
      forall k: nat :: k < ChunkCount(file) ==> !FalseHit(file, word, k)
  {
    hide ChunkHits, FalseHit, WholeWordAt;
    forall q | q in WholeWords(file, word) ensures q in FileHits(file, word) {
      var k := q / CHUNK_SIZE;
      WholeWordIsReported(file, word, k, q);
    }
    forall q | q in FileHits(file, word) && q !in WholeWords(file, word)
      ensures exists k: nat :: k < ChunkCount(file) && FalseHit(file, word, k)
    {
      var k: nat :| k < ChunkCount(file) && q in ChunkHits(file, word, k);
      ReportsAreWordsOrFalseHits(file, word, k, q);
      if WholeWordAt(file, word, q) { WholeWordInFile(file, word, q); }
    }
    forall k: nat | k < ChunkCount(file) && FalseHit(file, word, k)
      ensures FileHits(file, word) != WholeWords(file, word)
    {
      FalseHitIsReported(file, word, k);
      assert (k + 2) * CHUNK_SIZE - |word| in FileHits(file, word);
    }
  }

  lemma WholeWordInFile(file: string, word: string, q: int)
    requires |word| > 0 && WholeWordAt(file, word, q)
    ensures q in WholeWords(file, word)
  {
  }

  /** In particular the search is exact when every occurrence that ends on a chunk boundary inside the
      file is followed by a blank. */
  lemma ExactWhenBoundariesAreClean(file: string, word: string)
    requires 0 < |word| <= CHUNK_SIZE && SpaceFree(word)
    requires forall edge :: 0 < edge < |file| && edge % CHUNK_SIZE == 0 && OccursAt(file, word, edge - |word|) ==>
      file[edge] == ' '
    ensures FileHits(file, word) == WholeWords(file, word)
  {
    hide OccursAt, Overrun;
    forall k: nat | k < ChunkCount(file) ensures !FalseHit(file, word, k) {
      var edge := (k + 2) * CHUNK_SIZE;
      assert edge % CHUNK_SIZE == 0;
      if Overrun(file, word, k * CHUNK_SIZE, (k + 1) * CHUNK_SIZE).Some? {
        OverrunOccurs(file, word, k * CHUNK_SIZE, (k + 1) * CHUNK_SIZE);
      }
    }
    SearchIsExact(file, word);
  }

  /** A file on which the search is wrong: 63 blanks and then the single word "ab". Searching for "a"
      reports offset 63. */
  lemma FalseHitExists()
    ensures
      var file := seq(63, _ => ' ') + "ab";
      WholeWords(file, "a") == {} && 63 in FileHits(file, "a")
  {
    var file := seq(63, _ => ' ') + "ab";
    forall p | OccursAt(file, "a", p) ensures p == 63 {
      OccurrenceLetters(file, "a", p);
      assert file[p + 0] == 'a';
    }
    assert file[63..64] == "a";
    FindIsLeast(file, "a", 0, 63);
    FalseHitIsReported(file, "a", 0);
  }
}
