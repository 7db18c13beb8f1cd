/** A whole job: one map task a file, then one reduce task a bucket, against the direct computation. */
module MapReduceJob {
  import opened Basics
  import opened Collections
  import opened WordHash
  import opened MapReduce

  /** All the words of all the files. */
  ghost function Corpus(files: seq<File>): seq<string> {
    if |files| == 0 then [] else Corpus(files[..|files|-1]) + files[|files|-1].words
  }

  ghost function Occurrences(files: seq<File>, w: string): nat {
    multiset(Corpus(files))[w]
  }

  ghost predicate InFile(file: File, f: string, w: string) {
    file.name == f && w in file.words
  }

  /** Some file named `f` contains `w`. */
  ghost predicate Contains(files: seq<File>, f: string, w: string) {
    exists i :: 0 <= i < |files| && InFile(files[i], f, w)
  }

  /** What all map tasks write to bucket `b`. */
  ghost function CorpusLines(mode: Mode, files: seq<File>, R: nat, b: int): seq<Line>
    requires R > 0
  {
    if |files| == 0 then []
    else
      var file := files[|files|-1];
      CorpusLines(mode, files[..|files|-1], R, b) + LinesFor(mode, file.name, file.words, R, b)
  }

  /** How many of the words hash to bucket `b`. */
  ghost function WordsInBucket(words: seq<string>, R: nat, b: int): nat
    requires R > 0
  {
    if |words| == 0 then 0
    else WordsInBucket(words[..|words|-1], R, b) + if Bucket(words[|words|-1], R) == b then 1 else 0
  }

  /** How many of the words hash to one of the buckets `0..n`. */
  ghost function WordsBelow(words: seq<string>, R: nat, n: nat): nat
    requires R > 0
  {
    if n == 0 then 0 else WordsBelow(words, R, n - 1) + WordsInBucket(words, R, n - 1)
  }

  ghost function GrandTotal(outs: seq<map<string, int>>): int {
    if |outs| == 0 then 0 else GrandTotal(outs[..|outs|-1]) + MapSum(outs[|outs|-1])
  }

  // ---------- The lines of a counting job ----------

  lemma {:induction false} LinesConcat(a: string, c: string, u: seq<string>, v: seq<string>, R: nat, b: int)
    requires R > 0
    ensures LinesFor(WordCount, a, u, R, b) + LinesFor(WordCount, c, v, R, b) == LinesFor(WordCount, a, u + v, R, b)
  {
    hide Bucket;
    if |v| == 0 {
      assert u + v == u;
    } else {
      LinesConcat(a, c, u, v[..|v|-1], R, b);
      assert (u + v)[..|u + v|-1] == u + v[..|v|-1];
    }
  }

  /** In a counting job, a bucket's lines are those of the corpus read as one file. */
  lemma {:induction false} CountingLines(files: seq<File>, R: nat, b: int)
    requires R > 0
    ensures CorpusLines(WordCount, files, R, b) == LinesFor(WordCount, "", Corpus(files), R, b)
  {
    hide Bucket;
    if |files| > 0 {
      var init, file := files[..|files|-1], files[|files|-1];
      CountingLines(init, R, b);
      LinesConcat("", file.name, Corpus(init), file.words, R, b);
    }
  }

  /** One line with count 1 for each of the words that hash to bucket `b`. */
  ghost predicate CountsWords(lines: seq<Line>, words: seq<string>, R: nat, b: int, w: string)
    requires R > 0
  {
    && CountLines(lines)
    && SumFor(lines, w) == (if Bucket(w, R) == b then multiset(words)[w] else 0)
    && (HasWord(lines, w) <==> Bucket(w, R) == b && w in words)
    && SumAll(lines) == WordsInBucket(words, R, b)
  }

  lemma {:induction false} CountingLinesAre(words: seq<string>, R: nat, b: int, w: string)
    requires R > 0
    ensures CountsWords(LinesFor(WordCount, "", words, R, b), words, R, b, w)
  {
    if |words| > 0 {
      hide CountsWords, Bucket;
      CountingLinesAre(words[..|words|-1], R, b, w);
      CountsOneMore(LinesFor(WordCount, "", words[..|words|-1], R, b), words, R, b, w);
    }
  }

  lemma CountsOneMore(before: seq<Line>, words: seq<string>, R: nat, b: int, w: string)
    requires R > 0 && |words| > 0 && CountsWords(before, words[..|words|-1], R, b, w)
    ensures CountsWords(before + (if Bucket(words[|words|-1], R) == b then [CountLine(words[|words|-1], 1)] else []),
                        words, R, b, w)
  {
    hide Bucket, SumFor, SumAll, HasWord;
    var init, last := words[..|words|-1], words[|words|-1];
    assert words == init + [last];
    if Bucket(last, R) == b { LastLine(before, CountLine(last, 1), w); } else { assert before + [] == before; }
  }

  lemma LastLine(lines: seq<Line>, l: Line, w: string)
    requires CountLines(lines) && l.CountLine?
    ensures CountLines(lines + [l])
    ensures SumFor(lines + [l], w) == SumFor(lines, w) + if l.word == w then l.count else 0
    ensures SumAll(lines + [l]) == SumAll(lines) + l.count
    ensures HasWord(lines + [l], w) <==> HasWord(lines, w) || l.word == w
  {
    var all := lines + [l];
    assert all[..|lines|] == lines && all[|lines|] == l;
    if HasWord(lines, w) {
      var i :| 0 <= i < |lines| && lines[i].word == w;
      assert all[i].word == w;
    }
  }

  // ---------- The lines of an indexing job ----------

  lemma {:induction false} IndexLinesFor(name: string, words: seq<string>, R: nat, b: int, l: Line)
    requires R > 0
    ensures l in LinesFor(InvertedIndex, name, words, R, b) <==>
      l.IndexLine? && l.file == name && Bucket(l.word, R) == b && l.word in words
  {
    hide Bucket;
    if |words| > 0 {
      IndexLinesFor(name, words[..|words|-1], R, b, l);
      assert words == words[..|words|-1] + [words[|words|-1]];
    }
  }

  lemma ContainsOneMore(files: seq<File>, f: string, w: string)
    requires |files| > 0
    ensures Contains(files, f, w) <==> Contains(files[..|files|-1], f, w) || InFile(files[|files|-1], f, w)
  {
    var init := files[..|files|-1];
    if Contains(files, f, w) {
      var i :| 0 <= i < |files| && InFile(files[i], f, w);
      if i < |init| { assert InFile(init[i], f, w); }
    }
    if Contains(init, f, w) {
      var i :| 0 <= i < |init| && InFile(init[i], f, w);
      assert InFile(files[i], f, w);
    }
  }

  lemma {:induction false} IndexingLines(files: seq<File>, R: nat, b: int, l: Line)
    requires R > 0
    ensures l in CorpusLines(InvertedIndex, files, R, b) <==>
      l.IndexLine? && Bucket(l.word, R) == b && Contains(files, l.file, l.word)
  {
    hide Bucket, LinesFor;
    if |files| > 0 {
      var file := files[|files|-1];
      IndexingLines(files[..|files|-1], R, b, l);
      IndexLinesFor(file.name, file.words, R, b, l);
      if l.IndexLine? { ContainsOneMore(files, l.file, l.word); }
    }
  }

  // ---------- Running map and reduce tasks ----------

  /** The intermediate files after all map tasks, and nothing else. */
  ghost predicate AllMapped(store: Intermediate, mode: Mode, files: seq<File>, R: nat, done: nat)
    requires R > 0 && done <= |files|
  {
    forall t, b :: At(store, t, b) ==
      if 0 <= t < done && 0 <= b < R then Some(LinesFor(mode, files[t].name, files[t].words, R, b)) else None
  }

  method RunMapTasks(files: seq<File>, R: nat, mode: Mode) returns (disk: Disk)
    requires R > 0
    ensures fresh(disk) && disk.Valid() && AllMapped(disk.intermediate, mode, files, R, |files|)
  {
    disk := new Disk();
    for i := 0 to |files|
      invariant fresh(disk) && disk.Valid() && AllMapped(disk.intermediate, mode, files, R, i)
    {
      var _ := disk.Map(i, Some(files[i]), R, mode);
    }
  }

  lemma {:induction false} ReducerReads(store: Intermediate, mode: Mode, files: seq<File>, R: nat, done: nat, r: int)
    requires R > 0 && done <= |files| && 0 <= r < R
    requires AllMapped(store, mode, files, R, |files|)
    ensures LinesOf(store, done, r) == CorpusLines(mode, files[..done], R, r)
  {
    if done > 0 {
      ReducerReads(store, mode, files, R, done - 1, r);
      assert files[..done][..done-1] == files[..done-1];
      assert At(store, done - 1, r) == Some(LinesFor(mode, files[done-1].name, files[done-1].words, R, r));
    }
  }

  /** The output of counting reducer `r`: the words of its bucket, each with its count in the corpus. */
  ghost predicate CorrectCounts(out: map<string, int>, files: seq<File>, R: nat, r: int)
    requires R > 0
  {
    && (forall w :: w in out <==> Bucket(w, R) == r && Occurrences(files, w) > 0)
    && (forall w :: w in out ==> out[w] == Occurrences(files, w))
    && MapSum(out) == WordsInBucket(Corpus(files), R, r)
  }

  /** A counting reducer reads the lines of the whole corpus that hash to its bucket. */
  lemma CountingReducerReads(store: Intermediate, files: seq<File>, R: nat, r: int)
    requires R > 0 && 0 <= r < R && AllMapped(store, WordCount, files, R, |files|)
    ensures LinesOf(store, |files|, r) == LinesFor(WordCount, "", Corpus(files), R, r)
  {
    hide Bucket, LinesFor, AllMapped;
    ReducerReads(store, WordCount, files, R, |files|, r);
    assert files[..|files|] == files;
    CountingLines(files, R, r);
  }

  lemma CountedIsCorrect(out: map<string, int>, store: Intermediate, files: seq<File>, R: nat, r: int)
    requires R > 0 && 0 <= r < R && AllMapped(store, WordCount, files, R, |files|)
    requires Counted(out, LinesOf(store, |files|, r))
    ensures CorrectCounts(out, files, R, r)
  {
    hide Bucket, LinesFor, LinesOf, AllMapped, SumAll, SumFor, HasWord;
    CountingReducerReads(store, files, R, r);
    var words := Corpus(files);
    forall w
      ensures w in out <==> Bucket(w, R) == r && Occurrences(files, w) > 0
      ensures w in out ==> out[w] == Occurrences(files, w)
    {
      CountingLinesAre(words, R, r, w);
    }
    CountingLinesAre(words, R, r, "");
  }

  lemma {:induction false} GrandTotalIs(outs: seq<map<string, int>>, files: seq<File>, R: nat)
    requires R > 0
    requires forall r :: 0 <= r < |outs| ==> CorrectCounts(outs[r], files, R, r)
    ensures GrandTotal(outs) == WordsBelow(Corpus(files), R, |outs|)
  {
    if |outs| > 0 { GrandTotalIs(outs[..|outs|-1], files, R); }
  }

  /** The words of the corpus are in the outputs of the reducers they belong to, and nowhere else. */
  lemma CountedByOwner(out: map<string, int>, files: seq<File>, R: nat, r: int, w: string)
    requires R > 0 && 0 <= r < R && CorrectCounts(out, files, R, r)
    ensures w in out <==> BelongsTo(w, R, r) && Occurrences(files, w) > 0
  {
    hide BelongsTo, Bucket;
    BucketIsOwner(w, R, r);
  }

  /** The counting job. Each word is counted by the one reducer its hash selects, and the counts of all
      reducers add up to the number of words that have a bucket. */
  method WordCountJob(files: seq<File>, R: nat) returns (outs: seq<map<string, int>>)
    requires R > 0
    ensures |outs| == R
    ensures forall r, w :: 0 <= r < R ==> (w in outs[r] <==> BelongsTo(w, R, r) && Occurrences(files, w) > 0)
    ensures forall r, w :: 0 <= r < R && w in outs[r] ==> outs[r][w] == Occurrences(files, w)
    ensures forall r :: 0 <= r < R ==> CorrectCounts(outs[r], files, R, r)
    ensures GrandTotal(outs) == WordsBelow(Corpus(files), R, R)
  {
    hide CorrectCounts, CorrectIndex, AllMapped, Counted, IndexesLines, LinesOf;
    var disk := RunMapTasks(files, R, WordCount);
    ghost var store := disk.intermediate;
    outs := [];
    for r := 0 to R
      invariant |outs| == r && disk.intermediate == store
      invariant forall q :: 0 <= q < r ==> CorrectCounts(outs[q], files, R, q)
    {
      CountingFiles(store, files, R, r);
      var out := disk.ReduceWordCount(r, |files|);
      CountedIsCorrect(out, store, files, R, r);
      outs := outs + [out];
    }
    GrandTotalIs(outs, files, R);
    forall r, w | 0 <= r < R
      ensures w in outs[r] <==> BelongsTo(w, R, r) && Occurrences(files, w) > 0
      ensures w in outs[r] ==> outs[r][w] == Occurrences(files, w)
    {
      CountedByOwner(outs[r], files, R, r, w);
      CountOf(outs[r], files, R, r, w);
    }
  }

  lemma CountOf(out: map<string, int>, files: seq<File>, R: nat, r: int, w: string)
    requires R > 0 && CorrectCounts(out, files, R, r)
    ensures w in out ==> out[w] == Occurrences(files, w)
  {
  }

  lemma CountingFiles(store: Intermediate, files: seq<File>, R: nat, r: int)
    requires R > 0 && 0 <= r < R && AllMapped(store, WordCount, files, R, |files|)
    ensures forall t :: 0 <= t < |files| ==> (t, r) in store && CountLines(store[(t, r)])
    ensures (|files|, r) !in store
  {
    hide Bucket, LinesFor;
    forall t | 0 <= t < |files| ensures (t, r) in store && CountLines(store[(t, r)]) {
      assert At(store, t, r) == Some(LinesFor(WordCount, files[t].name, files[t].words, R, r));
      NameFree(files[t].name, files[t].words, R, r);
    }
    assert At(store, |files|, r).None?;
  }

  lemma {:induction false} NameFree(name: string, words: seq<string>, R: nat, r: int)
    requires R > 0
    ensures CountLines(LinesFor(WordCount, name, words, R, r))
  {
    hide Bucket;
    if |words| > 0 { NameFree(name, words[..|words|-1], R, r); }
  }

  /** The output of indexing reducer `r`. */
  ghost predicate CorrectIndex(out: map<string, set<string>>, files: seq<File>, R: nat, r: int)
    requires R > 0
  {
    forall w ::
      && (w in out <==> Bucket(w, R) == r && exists f :: Contains(files, f, w))
      && (w in out ==> forall f :: f in out[w] <==> Contains(files, f, w))
  }

  /** The lines of a bucket name a word exactly when some file with it hashes there. */
  lemma WordsOfLines(lines: seq<Line>, files: seq<File>, R: nat, r: int, w: string)
    requires R > 0
    requires forall l :: l in lines <==> l.IndexLine? && Bucket(l.word, R) == r && Contains(files, l.file, l.word)
    ensures HasWord(lines, w) <==> Bucket(w, R) == r && exists f :: Contains(files, f, w)
  {
    hide Bucket, Contains;
    if HasWord(lines, w) {
      var i :| 0 <= i < |lines| && lines[i].word == w;
      assert lines[i] in lines;
    }
    if f :| Contains(files, f, w) && Bucket(w, R) == r {
      assert IndexLine(w, f) in lines;
      IndexedWord(lines, w, f);
    }
  }

  lemma IndexedIsCorrect(out: map<string, set<string>>, store: Intermediate, files: seq<File>, R: nat, r: int)
    requires R > 0 && 0 <= r < R && AllMapped(store, InvertedIndex, files, R, |files|)
    requires IndexesLines(out, LinesOf(store, |files|, r))
    ensures CorrectIndex(out, files, R, r)
  {
    hide Bucket, CorpusLines, LinesOf, Contains, HasWord, AllMapped;
    ReducerReads(store, InvertedIndex, files, R, |files|, r);
    assert files[..|files|] == files;
    var lines := CorpusLines(InvertedIndex, files, R, r);
    forall l ensures l in lines <==> l.IndexLine? && Bucket(l.word, R) == r && Contains(files, l.file, l.word) {
      IndexingLines(files, R, r, l);
    }
    forall w ensures HasWord(lines, w) <==> Bucket(w, R) == r && exists f :: Contains(files, f, w) {
      WordsOfLines(lines, files, R, r, w);
    }
  }

  lemma {:induction false} IndexLineKinds(name: string, words: seq<string>, R: nat, r: int)
    requires R > 0
    ensures forall i :: 0 <= i < |LinesFor(InvertedIndex, name, words, R, r)| ==>
      LinesFor(InvertedIndex, name, words, R, r)[i].IndexLine?
  {
    hide Bucket;
    if |words| > 0 { IndexLineKinds(name, words[..|words|-1], R, r); }
  }

  lemma IndexingFiles(store: Intermediate, files: seq<File>, R: nat, r: int)
    requires R > 0 && 0 <= r < R && AllMapped(store, InvertedIndex, files, R, |files|)
    ensures forall t :: 0 <= t < |files| ==> (t, r) in store
    ensures forall t, i :: 0 <= t < |files| && 0 <= i < |store[(t, r)]| ==> store[(t, r)][i].IndexLine?
    ensures (|files|, r) !in store
  {
    hide Bucket, LinesFor;
    forall t | 0 <= t < |files|
      ensures (t, r) in store && forall i :: 0 <= i < |store[(t, r)]| ==> store[(t, r)][i].IndexLine?
    {
      assert At(store, t, r) == Some(LinesFor(InvertedIndex, files[t].name, files[t].words, R, r));
      IndexLineKinds(files[t].name, files[t].words, R, r);
    }
    assert At(store, |files|, r).None?;
  }

  /** The indexing job: each word is listed by the one reducer its hash selects, with exactly the names of the
      files containing it. */
  method InvertedIndexJob(files: seq<File>, R: nat) returns (outs: seq<map<string, set<string>>>)
    requires R > 0
    ensures |outs| == R
    ensures forall r :: 0 <= r < R ==> CorrectIndex(outs[r], files, R, r)
    ensures forall r, w :: 0 <= r < R ==>
      (w in outs[r] <==> BelongsTo(w, R, r) && exists f :: Contains(files, f, w))
    ensures forall r, w, f :: 0 <= r < R && w in outs[r] ==> (f in outs[r][w] <==> Contains(files, f, w))
  {
    hide CorrectCounts, CorrectIndex, AllMapped, Counted, IndexesLines, LinesOf;
    var disk := RunMapTasks(files, R, InvertedIndex);
    ghost var store := disk.intermediate;
    outs := [];
    for r := 0 to R
      invariant |outs| == r && disk.intermediate == store
      invariant forall q :: 0 <= q < r ==> CorrectIndex(outs[q], files, R, q)
    {
      IndexingFiles(store, files, R, r);
      var out := disk.ReduceInvertedIndex(r, |files|);
      IndexedIsCorrect(out, store, files, R, r);
      outs := outs + [out];
    }
    forall r, w | 0 <= r < R
      ensures w in outs[r] <==> BelongsTo(w, R, r) && exists f :: Contains(files, f, w)
      ensures forall f :: w in outs[r] ==> (f in outs[r][w] <==> Contains(files, f, w))
    {
      IndexedByOwner(outs[r], files, R, r, w);
    }
  }

  lemma IndexedByOwner(out: map<string, set<string>>, files: seq<File>, R: nat, r: int, w: string)
    requires R > 0 && 0 <= r < R && CorrectIndex(out, files, R, r)
    ensures w in out <==> BelongsTo(w, R, r) && exists f :: Contains(files, f, w)
    ensures forall f :: w in out ==> (f in out[w] <==> Contains(files, f, w))
  {
    hide BelongsTo, Bucket, Contains;
    BucketIsOwner(w, R, r);
  }

  // ---------- What the job says about the corpus ----------

  lemma {:induction false} BelowOneMore(words: seq<string>, w: string, R: nat, n: nat)
    requires R > 0
    ensures WordsBelow(words + [w], R, n) == WordsBelow(words, R, n) + if 0 <= Bucket(w, R) < n then 1 else 0
  {
    hide Bucket;
    if n > 0 {
      BelowOneMore(words, w, R, n - 1);
      assert (words + [w])[..|words|] == words;
    } else {
      assert WordsBelow(words + [w], R, 0) == 0;
    }
  }

  /** The reducers' counts add up to the corpus word total exactly when every word has a bucket. */
  lemma {:induction false} TotalsAgree(words: seq<string>, R: nat)
    requires R > 0
    ensures WordsBelow(words, R, R) <= |words|
    ensures WordsBelow(words, R, R) == |words| <==> forall i :: 0 <= i < |words| ==> Bucket(words[i], R) >= 0
  {
    hide Bucket;
    if |words| > 0 {
      var init, last := words[..|words|-1], words[|words|-1];
      TotalsAgree(init, R);
      assert words == init + [last];
      BelowOneMore(init, last, R, R);
      BucketInRange(last, R);
    } else {
      NoWords(R, R);
      assert words == [];
    }
  }

  lemma {:induction false} NoWords(R: nat, n: nat)
    requires R > 0
    ensures WordsBelow([], R, n) == 0
  {
    if n > 0 { NoWords(R, n - 1); }
  }

  /** With words of at most 12 ASCII characters nothing is lost: each word of the corpus is in the output of the reducer
      with its hash modulo their number, in no other, and the counts add up to the corpus word total. */
  lemma ShortWordsAreAllCounted(files: seq<File>, R: nat, outs: seq<map<string, int>>)
    requires R > 0 && |outs| == R
    requires forall r :: 0 <= r < R ==> CorrectCounts(outs[r], files, R, r)
    requires GrandTotal(outs) == WordsBelow(Corpus(files), R, R)
    requires forall w :: w in Corpus(files) ==> |w| <= 12 && Ascii(w)
    ensures GrandTotal(outs) == |Corpus(files)|
    ensures forall w, r :: w in Corpus(files) && 0 <= r < R ==> (w in outs[r] <==> r == WeightedSum(w) % R)
  {
    forall w | w in Corpus(files) ensures 0 <= Bucket(w, R) < R {
      ShortWordsHaveBuckets(w, R);
    }
    forall w, r | w in Corpus(files) && 0 <= r < R ensures w in outs[r] <==> r == WeightedSum(w) % R {
      ShortWordsHaveBuckets(w, R);
      PolynomialIsWeightedSum(w);
      CountedByOwner(outs[r], files, R, r, w);
    }
    TotalsAgree(Corpus(files), R);
  }

  /** Whatever the words, a word of the corpus is in some output exactly when it has a bucket. */
  lemma LostExactlyWithoutBucket(files: seq<File>, R: nat, outs: seq<map<string, int>>, w: string)
    requires R > 0 && |outs| == R && Occurrences(files, w) > 0
    requires forall r :: 0 <= r < R ==> CorrectCounts(outs[r], files, R, r)
    ensures (exists r :: 0 <= r < R && w in outs[r]) <==>
      Wrap64(WeightedSum(w)) >= 0 || Wrap64(WeightedSum(w)) % R == 0
  {
    PolynomialIsWeightedSum(w);
    BucketInRange(w, R);
    var b := Bucket(w, R);
    if b >= 0 { assert CorrectCounts(outs[b], files, R, b) && w in outs[b]; }
    if r :| 0 <= r < R && w in outs[r] { assert CorrectCounts(outs[r], files, R, r); }
  }
}
