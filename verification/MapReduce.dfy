/** Map tasks spread the words of the files over intermediate files by hash; reduce tasks count them or
    index them. The job's output must be the direct count, or index, of the files. */
module MapReduce {
  import opened Basics
  import opened Collections
  import opened WordHash

  datatype Mode = WordCount | InvertedIndex | OtherMode

  /** A file by its base name and its blank-separated words. */
  datatype File = File(name: string, words: seq<string>)

  datatype Line = CountLine(word: string, count: int) | IndexLine(word: string, file: string)

  /** Intermediate files by map task and bucket. */
  type Intermediate = map<(int, int), seq<Line>>

  function At(files: Intermediate, task: int, bucket: int): Option<seq<Line>> {
    if (task, bucket) in files then Some(files[(task, bucket)]) else None
  }

  /** What is written for one word. */
  function Emit(mode: Mode, word: string, name: string): seq<Line> {
    match mode
    case WordCount => [CountLine(word, 1)]
    case InvertedIndex => [IndexLine(word, name)]
    case OtherMode => []
  }

  /** The lines of the words that hash to bucket `b`, in order. */
  ghost function LinesFor(mode: Mode, name: string, words: seq<string>, R: nat, b: int): seq<Line>
    requires R > 0
  {
    if |words| == 0 then []
    else
      var w := words[|words|-1];
      LinesFor(mode, name, words[..|words|-1], R, b) + if Bucket(w, R) == b then Emit(mode, w, name) else []
  }

  /** `l` was written for one of the words that belong to bucket `b`. */
  ghost predicate WrittenFor(mode: Mode, name: string, words: seq<string>, R: nat, b: int, l: Line)
    requires R > 0
  {
    exists i :: 0 <= i < |words| && BelongsTo(words[i], R, b) && l in Emit(mode, words[i], name)
  }

  lemma {:induction false} LinesForOwner(mode: Mode, name: string, words: seq<string>, R: nat, b: int, l: Line)
    requires R > 0 && 0 <= b < R
    ensures l in LinesFor(mode, name, words, R, b) <==> WrittenFor(mode, name, words, R, b, l)
  {
    hide BelongsTo, Bucket, Emit;
    if |words| > 0 {
      var init, w := words[..|words|-1], words[|words|-1];
      LinesForOwner(mode, name, init, R, b, l);
      BucketIsOwner(w, R, b);
      if WrittenFor(mode, name, init, R, b, l) {
        var i :| 0 <= i < |init| && BelongsTo(init[i], R, b) && l in Emit(mode, init[i], name);
        assert BelongsTo(words[i], R, b) && l in Emit(mode, words[i], name);
      }
      if WrittenFor(mode, name, words, R, b, l) {
        var i :| 0 <= i < |words| && BelongsTo(words[i], R, b) && l in Emit(mode, words[i], name);
        if i < |init| { assert BelongsTo(init[i], R, b) && l in Emit(mode, init[i], name); }
      }
    }
  }

  /** The lines a reducer reads: those of tasks `0..tasks` in turn. */
  ghost function LinesOf(files: Intermediate, tasks: nat, b: int): seq<Line> {
    if tasks == 0 then []
    else
      LinesOf(files, tasks - 1, b) + match At(files, tasks - 1, b) case Some(lines) => lines case None => []
  }

  ghost predicate CountLines(lines: seq<Line>) {
    forall i :: 0 <= i < |lines| ==> lines[i].CountLine?
  }

  /** The sum of the counts recorded for `w`. */
  ghost function SumFor(lines: seq<Line>, w: string): int
    requires CountLines(lines)
  {
    if |lines| == 0 then 0
    else
      var l := lines[|lines|-1];
      SumFor(lines[..|lines|-1], w) + if l.word == w then l.count else 0
  }

  ghost predicate HasWord(lines: seq<Line>, w: string) {
    exists i :: 0 <= i < |lines| && lines[i].word == w
  }

  /** The output of the counting reducer on these lines. */
  ghost predicate CountsLines(out: map<string, int>, lines: seq<Line>)
    requires CountLines(lines)
  {
    && (forall w :: w in out <==> HasWord(lines, w))
    && (forall w :: w in out ==> out[w] == SumFor(lines, w))
  }

  ghost predicate IndexesLines(out: map<string, set<string>>, lines: seq<Line>) {
    forall w :: (w in out <==> HasWord(lines, w)) &&
                (w in out ==> forall f :: f in out[w] <==> IndexLine(w, f) in lines)
  }

  /** The sum of all recorded counts. */
  ghost function SumAll(lines: seq<Line>): int
    requires CountLines(lines)
  {
    if |lines| == 0 then 0 else SumAll(lines[..|lines|-1]) + lines[|lines|-1].count
  }

  /** The counting reducer has taken in exactly `lines`. */
  ghost predicate Counted(out: map<string, int>, lines: seq<Line>) {
    CountLines(lines) && CountsLines(out, lines) && MapSum(out) == SumAll(lines)
  }

  lemma CountOneMore(lines: seq<Line>, l: Line, out: map<string, int>)
    requires l.CountLine? && Counted(out, lines)
    ensures Counted(out[l.word := (if l.word in out then out[l.word] else 0) + l.count], lines + [l])
  {
    var all := lines + [l];
    assert all[..|lines|] == lines;
    SumMapUpdate(out, (x: int) => x, l.word, (if l.word in out then out[l.word] else 0) + l.count);
    forall w ensures HasWord(all, w) <==> HasWord(lines, w) || w == l.word {
      if HasWord(lines, w) {
        var i :| 0 <= i < |lines| && lines[i].word == w;
        assert all[i].word == w;
      }
      assert all[|lines|] == l;
    }
    if l.word !in out { NoWordNoSum(lines, l.word); }
  }

  lemma {:induction false} NoWordNoSum(lines: seq<Line>, w: string)
    requires CountLines(lines)
    requires !HasWord(lines, w)
    ensures SumFor(lines, w) == 0
  {
    if |lines| > 0 {
      assert lines[|lines|-1].word != w;
      assert !HasWord(lines[..|lines|-1], w);
      NoWordNoSum(lines[..|lines|-1], w);
    }
  }

  lemma IndexOneMore(lines: seq<Line>, l: Line, out: map<string, set<string>>)
    requires l.IndexLine? && IndexesLines(out, lines)
    ensures
      IndexesLines(out[l.word := (if l.word in out then out[l.word] else {}) + {l.file}], lines + [l])
  {
    var all := lines + [l];
    forall w ensures HasWord(all, w) <==> HasWord(lines, w) || w == l.word {
      if HasWord(lines, w) {
        var i :| 0 <= i < |lines| && lines[i].word == w;
        assert all[i].word == w;
      }
      assert all[|lines|] == l;
    }
    forall f { IndexedWord(lines, l.word, f); }
  }

  lemma IndexedWord(lines: seq<Line>, w: string, f: string)
    ensures IndexLine(w, f) in lines ==> HasWord(lines, w)
  {
    if IndexLine(w, f) in lines {
      var i :| 0 <= i < |lines| && lines[i] == IndexLine(w, f);
    }
  }

  /** Task `task` has buckets `0..R` with the given words' lines; the rest is as before. */
  ghost predicate Mapped(before: Intermediate, after: Intermediate, task: int, R: nat, made: nat,
                         mode: Mode, name: string, words: seq<string>)
    requires R > 0
  {
    forall t, b :: At(after, t, b) ==
      (if t == task && 0 <= b < made then Some(LinesFor(mode, name, words, R, b)) else At(before, t, b))
  }

  lemma BucketMade(before: Intermediate, after: Intermediate, task: int, R: nat, made: nat, mode: Mode, name: string)
    requires R > 0 && Mapped(before, after, task, R, made, mode, name, [])
    ensures Mapped(before, after[(task, made) := []], task, R, made + 1, mode, name, [])
  {
    var next: Intermediate := after[(task, made) := []];
    forall t, b
      ensures At(next, t, b) ==
        (if t == task && 0 <= b < made + 1 then Some(LinesFor(mode, name, [], R, b)) else At(before, t, b))
    {
      AtUpdate(after, task, made, [], t, b);
      if t == task && 0 <= b < made + 1 && b != made {
        assert At(after, t, b) == Some(LinesFor(mode, name, [], R, b));
      }
    }
    assert Mapped(before, next, task, R, made + 1, mode, name, []);
  }

  lemma AtUpdate(files: Intermediate, t: int, b: int, lines: seq<Line>, t': int, b': int)
    ensures At(files[(t, b) := lines], t', b') == if t' == t && b' == b then Some(lines) else At(files, t', b')
  {
  }

  lemma WordMapped(before: Intermediate, after: Intermediate, task: int, R: nat, mode: Mode, name: string,
                   words: seq<string>, w: string)
    requires R > 0 && Mapped(before, after, task, R, R, mode, name, words)
    requires forall t, b :: (t, b) in before ==> b >= 0
    ensures
      var key := (task, Bucket(w, R));
      var next := if key in after then after[key := after[key] + Emit(mode, w, name)] else after;
      Mapped(before, next, task, R, R, mode, name, words + [w])
  {
    hide Bucket;
    BucketInRange(w, R);
    var bucket := Bucket(w, R);
    assert (words + [w])[..|words|] == words;
    assert At(after, task, bucket).Some? <==> (task, bucket) in after;
    assert At(before, task, bucket).Some? ==> bucket >= 0;
    var next :=
      if (task, bucket) in after then after[(task, bucket) := after[(task, bucket)] + Emit(mode, w, name)] else after;
    forall t, b
      ensures At(next, t, b) ==
        (if t == task && 0 <= b < R then Some(LinesFor(mode, name, words + [w], R, b)) else At(before, t, b))
    {
      var lines := LinesFor(mode, name, words, R, b);
      assert LinesFor(mode, name, words + [w], R, b) == lines + if bucket == b then Emit(mode, w, name) else [];
      assert lines + [] == lines;
      assert At(after, t, b) == if t == task && 0 <= b < R then Some(lines) else At(before, t, b);
      if (task, bucket) in after { AtUpdate(after, task, bucket, after[(task, bucket)] + Emit(mode, w, name), t, b); }
    }
  }

  /** The bucket's file holds the lines of the words that belong to it, and no other lines. */
  ghost predicate BucketHolds(files: Intermediate, task: int, R: nat, b: int, mode: Mode, name: string, words: seq<string>)
    requires R > 0
  {
    (task, b) in files && forall l :: l in files[(task, b)] <==> WrittenFor(mode, name, words, R, b, l)
  }

  lemma LinesMapped(before: Intermediate, after: Intermediate, task: int, R: nat, mode: Mode, name: string,
                    words: seq<string>, b: int)
    requires R > 0 && Mapped(before, after, task, R, R, mode, name, words) && 0 <= b < R
    ensures BucketHolds(after, task, R, b, mode, name, words)
  {
    hide WrittenFor, LinesFor;
    assert At(after, task, b) == Some(LinesFor(mode, name, words, R, b));
    forall l ensures l in after[(task, b)] <==> WrittenFor(mode, name, words, R, b, l) {
      LinesForOwner(mode, name, words, R, b, l);
    }
  }

  class Disk {
    var intermediate: Intermediate

    ghost predicate Valid()
      reads this
    {
      forall t, b :: (t, b) in intermediate ==> b >= 0
    }

    constructor ()
      ensures Valid() && intermediate == map[]
    {
      intermediate := map[];
    }

    /** Creates the task's buckets and appends each word's line to the bucket its hash selects. A line for a
        bucket that does not exist is lost. */
    method Map(task: int, file: Option<File>, R: nat, mode: Mode) returns (success: bool)
      requires Valid() && R > 0
      modifies this
      ensures Valid()
      ensures success <==> file.Some?
      ensures !success ==> unchanged(this)
      ensures success ==> Mapped(old(intermediate), intermediate, task, R, R, mode, file.value.name, file.value.words)
      ensures success ==> forall b :: 0 <= b < R ==>
        BucketHolds(intermediate, task, R, b, mode, file.value.name, file.value.words)
    {
      if file.None? { return false; }
      var name, words := file.value.name, file.value.words;
      for i := 0 to R
        invariant Mapped(old(intermediate), intermediate, task, R, i, mode, name, [])
      {
        BucketMade(old(intermediate), intermediate, task, R, i, mode, name);
        intermediate := intermediate[(task, i) := []];
      }
      assert words[..0] == [];
      for i := 0 to |words|
        invariant Mapped(old(intermediate), intermediate, task, R, R, mode, name, words[..i])
      {
        WordMapped(old(intermediate), intermediate, task, R, mode, name, words[..i], words[i]);
        assert words[..i+1] == words[..i] + [words[i]];
        var h := Hash(words[i]);
        var bucket := TruncRem(h, R);
        if (task, bucket) in intermediate {
          intermediate := intermediate[(task, bucket) := intermediate[(task, bucket)] + Emit(mode, words[i], name)];
        }
      }
      assert words[..|words|] == words;
      forall t, b | (t, b) in intermediate ensures b >= 0 {
        assert At(intermediate, t, b).Some?;
      }
      forall b | 0 <= b < R ensures BucketHolds(intermediate, task, R, b, mode, name, words) {
        LinesMapped(old(intermediate), intermediate, task, R, mode, name, words, b);
      }
      success := true;
    }

    /** Adds up the counts of one intermediate file. */
    method AddCounts(lines: seq<Line>, wordCount0: map<string, int>, ghost before: seq<Line>)
      returns (wordCount: map<string, int>)
      requires CountLines(lines) && Counted(wordCount0, before)
      ensures Counted(wordCount, before + lines)
    {
      hide Counted;
      wordCount := wordCount0;
      assert before + lines[..0] == before;
      for i := 0 to |lines|
        invariant Counted(wordCount, before + lines[..i])
      {
        var word, count := lines[i].word, lines[i].count;
        CountOneMore(before + lines[..i], lines[i], wordCount);
        assert before + lines[..i] + [lines[i]] == before + lines[..i+1];
        wordCount := wordCount[word := (if word in wordCount then wordCount[word] else 0) + count];
      }
      assert lines[..|lines|] == lines;
    }

    /** Reads bucket `r` of task 0, 1, ... until a file is missing, adding up the counts. */
    method ReduceWordCount(r: int, ghost tasks: nat) returns (wordCount: map<string, int>)
      requires forall t :: 0 <= t < tasks ==> (t, r) in intermediate && CountLines(intermediate[(t, r)])
      requires (tasks, r) !in intermediate
      ensures Counted(wordCount, LinesOf(intermediate, tasks, r))
    {
      wordCount := map[];
      var task := 0;
      while (task, r) in intermediate
        invariant 0 <= task <= tasks
        invariant Counted(wordCount, LinesOf(intermediate, task, r))
        decreases tasks - task
      {
        wordCount := AddCounts(intermediate[(task, r)], wordCount, LinesOf(intermediate, task, r));
        task := task + 1;
      }
    }

    /** Reads the same files, collecting the file names recorded for each word. */
    method ReduceInvertedIndex(r: int, ghost tasks: nat) returns (index: map<string, set<string>>)
      requires forall t :: 0 <= t < tasks ==> (t, r) in intermediate
      requires (tasks, r) !in intermediate
      requires forall t, i :: 0 <= t < tasks && 0 <= i < |intermediate[(t, r)]| ==> intermediate[(t, r)][i].IndexLine?
      ensures IndexesLines(index, LinesOf(intermediate, tasks, r))
    {
      index := map[];
      var task := 0;
      ghost var read: seq<Line> := [];
      while (task, r) in intermediate
        invariant 0 <= task <= tasks && read == LinesOf(intermediate, task, r)
        invariant IndexesLines(index, read)
        decreases tasks - task
      {
        var lines := intermediate[(task, r)];
        ghost var before := read;
        for i := 0 to |lines|
          invariant read == before + lines[..i]
          invariant IndexesLines(index, read)
        {
          var word, file := lines[i].word, lines[i].file;
          IndexOneMore(read, lines[i], index);
          index := index[word := (if word in index then index[word] else {}) + {file}];
          read := read + [lines[i]];
        }
        task := task + 1;
      }
    }
  }
}
