/** The bouncing-balls program: the balls are dealt to the ranks in chunks, every rank counts its own,
    the counts are exchanged, and each rank moves its balls by the global counts. */
module BallProgram {
  import opened Basics
  import opened Collections
  import opened Collectives
  import opened Balls

  /** One histogram entry on the wire. */
  datatype Entry = Entry(key: Ball, value: nat)

  function Count(m: map<Ball, nat>, b: Ball): nat {
    if b in m then m[b] else 0
  }

  ghost function Total(entries: seq<Entry>, b: Ball): nat {
    if |entries| == 0 then 0
    else
      var e := entries[|entries|-1];
      Total(entries[..|entries|-1], b) + if e.key == b then e.value else 0
  }

  ghost predicate IsHistogram(m: map<Ball, nat>, h: multiset<Ball>) {
    forall b :: Count(m, b) == h[b]
  }

  method CountLocal(pos: seq<Ball>) returns (local: map<Ball, nat>)
    ensures IsHistogram(local, multiset(pos))
  {
    local := map[];
    for i := 0 to |pos|
      invariant IsHistogram(local, multiset(pos[..i]))
    {
      assert pos[..i+1] == pos[..i] + [pos[i]];
      local := local[pos[i] := Count(local, pos[i]) + 1];
    }
    assert pos[..|pos|] == pos;
  }

  /** Lists the counts, in whatever order. */
  method Pack(local: map<Ball, nat>) returns (entries: seq<Entry>)
    ensures forall b :: Total(entries, b) == Count(local, b)
  {
    entries := [];
    var rest := local.Keys;
    while rest != {}
      invariant rest <= local.Keys
      invariant forall b :: Total(entries, b) == if b in local && b !in rest then local[b] else 0
      decreases rest
    {
      var key := PickAny(rest);
      TotalOneMore(entries, Entry(key, local[key]));
      entries := entries + [Entry(key, local[key])];
      rest := rest - {key};
    }
  }

  lemma TotalOneMore(entries: seq<Entry>, e: Entry)
    ensures forall b :: Total(entries + [e], b) == Total(entries, b) + if e.key == b then e.value else 0
  {
    assert (entries + [e])[..|entries|] == entries;
  }

  /** Adds up the counts received from all ranks. */
  method Merge(recv: seq<Entry>) returns (global: map<Ball, nat>)
    ensures forall b :: Count(global, b) == Total(recv, b)
  {
    global := map[];
    for i := 0 to |recv|
      invariant forall b :: Count(global, b) == Total(recv[..i], b)
    {
      TotalOneMore(recv[..i], recv[i]);
      assert recv[..i+1] == recv[..i] + [recv[i]];
      global := global[recv[i].key := Count(global, recv[i].key) + recv[i].value];
    }
    assert recv[..|recv|] == recv;
  }

  lemma {:induction false} TotalConcat(a: seq<Entry>, c: seq<Entry>, b: Ball)
    ensures Total(a + c, b) == Total(a, b) + Total(c, b)
  {
    if |c| == 0 {
      assert a + c == a;
    } else {
      TotalConcat(a, c[..|c|-1], b);
      assert (a + c)[..|a + c|-1] == a + c[..|c|-1];
    }
  }

  /** The gathered counts of the ranks' histograms are the histogram of all balls. */
  lemma {:induction false} GatheredCounts(sends: seq<seq<Entry>>, pos: seq<seq<Ball>>, b: Ball)
    requires |sends| == |pos|
    requires forall r, c :: 0 <= r < |pos| ==> Total(sends[r], c) == multiset(pos[r])[c]
    ensures Total(AllGather(sends), b) == multiset(AllGather(pos))[b]
  {
    if |pos| > 0 {
      var k := |pos| - 1;
      GatheredCounts(sends[..k], pos[..k], b);
      TotalConcat(AllGather(sends[..k]), sends[k], b);
    }
  }

  /** Moves one rank's balls by the global histogram. */
  method Move(pos: seq<Ball>, global: map<Ball, nat>, ghost h: multiset<Ball>, N: nat, M: nat) returns (next: seq<Ball>)
    requires N > 0 && M > 0 && IsHistogram(global, h)
    ensures next == StepWith(h, pos, N, M)
  {
    next := [];
    for i := 0 to |pos|
      invariant next == StepWith(h, pos, N, M)[..i]
    {
      var (X, Y) := FindNextPos(pos[i], N, M);
      var cnt := 0;
      cnt := cnt + Count(global, Ball((X - 1 + N) % N, Y, D));
      cnt := cnt + Count(global, Ball((X + 1) % N, Y, U));
      cnt := cnt + Count(global, Ball(X, (Y - 1 + M) % M, R));
      cnt := cnt + Count(global, Ball(X, (Y + 1) % M, L));
      if cnt == 2 {
        next := next + [Ball(X, Y, RotateBy90(pos[i].d))];
      } else if cnt == 4 {
        next := next + [Ball(X, Y, ReverseDirection(pos[i].d))];
      } else {
        next := next + [Ball(X, Y, pos[i].d)];
      }
      assert next[i] == StepWith(h, pos, N, M)[i];
    }
  }

  /** Moving the ranks' shares separately moves the gathered list. */
  lemma {:induction false} GatheredStep(h: multiset<Ball>, pos: seq<seq<Ball>>, next: seq<seq<Ball>>, N: nat, M: nat)
    requires N > 0 && M > 0 && |pos| == |next|
    requires forall r :: 0 <= r < |pos| ==> next[r] == StepWith(h, pos[r], N, M)
    ensures AllGather(next) == StepWith(h, AllGather(pos), N, M)
  {
    if |pos| > 0 {
      var k := |pos| - 1;
      GatheredStep(h, pos[..k], next[..k], N, M);
    }
  }

  /** One time step of all ranks. */
  method StepRanks(pos: seq<seq<Ball>>, N: nat, M: nat) returns (next: seq<seq<Ball>>)
    requires N > 0 && M > 0
    ensures |next| == |pos| && AllGather(next) == Step(AllGather(pos), N, M)
  {
    var sends: seq<seq<Entry>> := [];
    for rank := 0 to |pos|
      invariant |sends| == rank
      invariant forall r, c :: 0 <= r < rank ==> Total(sends[r], c) == multiset(pos[r])[c]
    {
      var local := CountLocal(pos[rank]);
      var send := Pack(local);
      sends := sends + [send];
    }
    var recv := AllGather(sends);
    ghost var h := multiset(AllGather(pos));
    forall c ensures Total(recv, c) == h[c] { GatheredCounts(sends, pos, c); }
    next := [];
    for rank := 0 to |pos|
      invariant |next| == rank
      invariant forall r :: 0 <= r < rank ==> next[r] == StepWith(h, pos[r], N, M)
    {
      var global := Merge(recv);
      var moved := Move(pos[rank], global, h, N, M);
      next := next + [moved];
    }
    GatheredStep(h, pos, next, N, M);
  }

  method FindPos(N: nat, M: nat, T: nat, chunks: seq<seq<Ball>>) returns (ans: seq<seq<Ball>>)
    requires N > 0 && M > 0
    ensures |ans| == |chunks| && AllGather(ans) == Steps(AllGather(chunks), T, N, M)
  {
    ans := chunks;
    for t := 0 to T
      invariant |ans| == |chunks| && AllGather(ans) == Steps(AllGather(chunks), t, N, M)
    {
      ans := StepRanks(ans, N, M);
    }
  }

  function ChunkSize(K: nat, size: nat): nat
    requires size > 0
  {
    (K + size - 1) / size
  }

  /** Where the chunk of rank `i` begins. */
  function StartOf(i: nat, chunkSize: nat): nat {
    i * chunkSize
  }

  lemma ChunksCover(K: nat, size: nat)
    requires size > 0
    ensures StartOf(size, ChunkSize(K, size)) >= K && ChunkSize(K, size) <= K
    ensures StartOf(1, ChunkSize(K, size)) == ChunkSize(K, size)
  {
    var x := K + size - 1;
    CeilDivBounds(K, size, x / size, x % size);
  }

  lemma CeilDivBounds(K: nat, size: nat, q: nat, r: nat)
    requires K + size - 1 == q * size + r && r < size
    ensures q * size >= K && q <= K
  {
    MulGrows(1, size, K);
    if q > K { MulGrows(K + 1, q, size); }
  }

  lemma NextStart(i: nat, chunkSize: nat)
    ensures StartOf(i, chunkSize) <= StartOf(i + 1, chunkSize)
  {
    assert (i + 1) * chunkSize == i * chunkSize + chunkSize;
  }

  lemma DealOneMore(pos: seq<Ball>, chunks: seq<seq<Ball>>, a: nat, b: nat)
    requires a <= b <= |pos| && AllGather(chunks) == pos[..a]
    ensures AllGather(chunks + [pos[a..b]]) == pos[..b]
  {
    GatherOneMore(chunks, pos[a..b]);
  }

  /** Deals the balls in ceil-sized chunks; trailing ranks may get none. */
  method Scatter(pos: seq<Ball>, size: nat) returns (chunks: seq<seq<Ball>>)
    requires size > 0
    ensures |chunks| == size && AllGather(chunks) == pos
  {
    hide *;
    var K := |pos|;
    var chunkSize := ChunkSize(K, size);
    ChunksCover(K, size);
    chunks := [pos[..chunkSize]];
    FirstDealt(pos, chunkSize);
    for i := 1 to size
      invariant |chunks| == i
      invariant AllGather(chunks) == pos[..if StartOf(i, chunkSize) < K then StartOf(i, chunkSize) else K]
    {
      NextStart(i, chunkSize);
      var start, next := StartOf(i, chunkSize), StartOf(i + 1, chunkSize);
      var end := if next < K then next else K;
      var chunk := if end - start > 0 then pos[start..end] else [];
      DealOneMore(pos, chunks, if start < K then start else K, end);
      assert chunk == pos[if start < K then start else K..end];
      chunks := chunks + [chunk];
    }
    assert pos[..K] == pos;
  }

  lemma FirstDealt(pos: seq<Ball>, chunkSize: nat)
    requires chunkSize <= |pos|
    ensures AllGather([pos[..chunkSize]]) == pos[..chunkSize]
  {
    GatherOneMore([], pos[..chunkSize]);
  }

  lemma NextObeysLaw(pos: seq<Ball>, t: nat, N: nat, M: nat)
    requires N > 0 && M > 0 && AllOnGrid(pos, N, M)
    ensures Law(Steps(pos, t, N, M), Steps(pos, t + 1, N, M), N, M)
  {
    hide Law, Step;
    StepsAreReversible(pos, t, N, M);
    StepIsTheLaw(Steps(pos, t, N, M), Steps(pos, t + 1, N, M), N, M);
  }

  lemma StepsAreAHistory(pos: seq<Ball>, T: nat, N: nat, M: nat)
    requires N > 0 && M > 0 && AllOnGrid(pos, N, M)
    ensures History(seq(T + 1, t requires 0 <= t <= T => Steps(pos, t, N, M)), N, M)
  {
    hide Law, Steps;
    forall t | 0 <= t < T ensures Law(Steps(pos, t, N, M), Steps(pos, t + 1, N, M), N, M) {
      NextObeysLaw(pos, t, N, M);
    }
  }

  /** The whole program. What is printed depends on the balls, the grid and the time, not on the number of
      ranks, and lists the balls in input order; it is the last arrangement of the history that the law prescribes. */
  method Simulate(N: nat, M: nat, T: nat, pos: seq<Ball>, size: nat) returns (out: seq<Ball>, ghost run: seq<seq<Ball>>)
    requires N > 0 && M > 0 && size > 0
    ensures out == Steps(pos, T, N, M)
    ensures AllOnGrid(pos, N, M) ==> |run| == T + 1 && run[0] == pos && run[T] == out && History(run, N, M)
  {
    hide History;
    var chunks := Scatter(pos, size);
    var ans := FindPos(N, M, T, chunks);
    out := AllGather(ans);
    run := seq(T + 1, t requires 0 <= t <= T => Steps(pos, t, N, M));
    if AllOnGrid(pos, N, M) { StepsAreAHistory(pos, T, N, M); }
  }
}
