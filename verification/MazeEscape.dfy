/** The level-synchronous breadth-first search that `size` processes run in lockstep, and the
    maze program around it. A collective is its mathematical meaning: an all-gather concatenates
    the send buffers in rank order, an all-reduce takes the pointwise minimum. */
module MazeEscape {
  import opened Collections
  import opened Collectives
  import opened Hops

  const INF: int := 0x7fff_ffff

  /** At the head of level `k`, `dist` knows every hop count up to `k` and nothing else. */
  ghost predicate Settled(g: Graph, source: int, k: nat, dist: seq<int>) {
    && |dist| == |g|
    && forall v :: 0 <= v < |g| ==>
         if v in Ball(g, source, k) then 0 <= dist[v] <= k && v in Layer(g, source, dist[v])
         else dist[v] == INF
  }

  /** At the head of level `k`, rank `rank` holds its share of layer `k`, each vertex once. */
  ghost predicate OwnsLayer(g: Graph, source: int, k: nat, rank: nat, size: nat, frontier: seq<int>)
    requires size > 0
  {
    && Distinct(frontier)
    && forall v :: v in frontier <==> v in Layer(g, source, k) && v % size == rank
  }

  /** The state of all ranks at the head of level `k`. */
  ghost predicate LevelHead(g: Graph, source: int, k: nat, dists: seq<seq<int>>, frontiers: seq<seq<int>>) {
    && |dists| == |frontiers| > 0
    && (forall r :: 0 <= r < |dists| ==> dists[r] == dists[0])
    && Settled(g, source, k, dists[0])
    && forall r :: 0 <= r < |dists| ==> OwnsLayer(g, source, k, r, |dists|, frontiers[r])
  }

  /** What the search promises about one vertex. */
  ghost predicate CorrectDistance(g: Graph, source: int, v: int, d: int) {
    if d == INF then Unreachable(g, source, v) else IsHopCount(g, source, v, d)
  }

  /** The effect of scanning one rank's frontier. */
  ghost predicate Expanded(rank: nat, size: nat, level: nat, g: Graph, frontier: seq<int>, dist0: seq<int>,
                           dist: seq<int>, next: seq<int>, sendBuf: seq<int>)
    requires rank < size && WellFormed(g) && |dist0| == |g|
  {
    && |dist| == |g|
    && (forall v :: 0 <= v < |g| ==>
          dist[v] == if v in Targets(g, frontier) && dist0[v] == INF && v % size == rank then level + 1 else dist0[v])
    && Distinct(next)
    && (forall v :: v in next <==> v in Targets(g, frontier) && dist0[v] == INF && v % size == rank)
    && (forall v :: v in sendBuf <==> v in Targets(g, frontier) && dist0[v] == INF && v % size != rank)
  }

  /** The effect of taking in the vertices that were exchanged. */
  ghost predicate Received(rank: nat, size: nat, level: nat, recvBuf: seq<int>, dist0: seq<int>, next0: seq<int>,
                           dist: seq<int>, next: seq<int>)
    requires rank < size && forall v :: v in recvBuf ==> 0 <= v < |dist0|
  {
    && |dist| == |dist0|
    && (forall v :: 0 <= v < |dist0| ==>
          dist[v] == if v in recvBuf && dist0[v] == INF then level + 1 else dist0[v])
    && Distinct(next)
    && (forall v :: v in next <==> v in next0 || (v in recvBuf && dist0[v] == INF && v % size == rank))
  }

  lemma TargetsOfOneMore(g: Graph, us: seq<int>, u: int)
    requires 0 <= u < |g|
    ensures Targets(g, us + [u]) == Targets(g, us) + set v | v in g[u]
  {
    forall v | v in Targets(g, us) ensures v in Targets(g, us + [u]) {
      var w :| w in us && 0 <= w < |g| && v in g[w];
      assert w in us + [u];
    }
    forall v | v in g[u] ensures v in Targets(g, us + [u]) {
      assert u in us + [u];
    }
  }

  /** One rank scans its frontier: it marks the undiscovered vertices it owns and posts the others. */
  method Expand(rank: nat, size: nat, level: nat, g: Graph, frontier: seq<int>, dist0: seq<int>)
    returns (dist: seq<int>, next: seq<int>, sendBuf: seq<int>)
    requires rank < size && WellFormed(g) && |dist0| == |g|
    requires forall u :: u in frontier ==> 0 <= u < |g|
    requires level + 1 == INF ==> forall v :: v in Targets(g, frontier) ==> dist0[v] != INF
    ensures Expanded(rank, size, level, g, frontier, dist0, dist, next, sendBuf)
  {
    dist, next, sendBuf := dist0, [], [];
    ghost var seen: set<int> := {};
    for i := 0 to |frontier|
      invariant seen == Targets(g, frontier[..i])
      invariant forall v :: v in seen ==> 0 <= v < |g|
      invariant |dist| == |g|
      invariant forall v :: 0 <= v < |g| ==>
        dist[v] == if v in seen && dist0[v] == INF && v % size == rank then level + 1 else dist0[v]
      invariant Distinct(next)
      invariant forall v :: v in next <==> v in seen && dist0[v] == INF && v % size == rank
      invariant forall v :: v in sendBuf <==> v in seen && dist0[v] == INF && v % size != rank
    {
      var u := frontier[i];
      assert u in frontier;
      ghost var before := seen;
      for j := 0 to |g[u]|
        invariant seen == before + set v | v in g[u][..j]
        invariant forall v :: v in seen ==> 0 <= v < |g|
        invariant |dist| == |g|
        invariant forall v :: 0 <= v < |g| ==>
          dist[v] == if v in seen && dist0[v] == INF && v % size == rank then level + 1 else dist0[v]
        invariant Distinct(next)
        invariant forall v :: v in next <==> v in seen && dist0[v] == INF && v % size == rank
        invariant forall v :: v in sendBuf <==> v in seen && dist0[v] == INF && v % size != rank
      {
        var v := g[u][j];
        assert v in g[u] && v in Targets(g, frontier);
        if dist[v] == INF {
          var owner := v % size;
          if owner == rank {
            if dist[v] == INF {
              dist := dist[v := level + 1];
              next := next + [v];
            }
          } else {
            sendBuf := sendBuf + [v];
          }
        }
        seen := seen + {v};
        assert g[u][..j+1] == g[u][..j] + [v];
      }
      assert g[u][..|g[u]|] == g[u];
      assert frontier[..i+1] == frontier[..i] + [u];
      TargetsOfOneMore(g, frontier[..i], u);
    }
    assert frontier[..|frontier|] == frontier;
  }

  /** One rank marks the vertices every rank posted, keeping those it owns for its next frontier. */
  method Receive(rank: nat, size: nat, level: nat, recvBuf: seq<int>, dist0: seq<int>, next0: seq<int>)
    returns (dist: seq<int>, next: seq<int>)
    requires rank < size
    requires forall v :: v in recvBuf ==> 0 <= v < |dist0|
    requires level + 1 == INF ==> forall v :: v in recvBuf ==> dist0[v] != INF
    requires Distinct(next0) && forall v :: v in next0 ==> 0 <= v < |dist0| && dist0[v] != INF
    ensures Received(rank, size, level, recvBuf, dist0, next0, dist, next)
  {
    dist, next := dist0, next0;
    for i := 0 to |recvBuf|
      invariant |dist| == |dist0|
      invariant forall v :: 0 <= v < |dist0| ==>
        dist[v] == if v in recvBuf[..i] && dist0[v] == INF then level + 1 else dist0[v]
      invariant Distinct(next)
      invariant forall v :: v in next <==>
        v in next0 || (v in recvBuf[..i] && v in recvBuf && dist0[v] == INF && v % size == rank)
    {
      var v := recvBuf[i];
      var owner := v % size;
      assert v in recvBuf;
      assert recvBuf[..i+1] == recvBuf[..i] + [v];
      if dist[v] == INF {
        dist := dist[v := level + 1];
        if owner == rank {
          next := next + [v];
        }
      }
    }
    assert recvBuf[..|recvBuf|] == recvBuf;
  }

  function MinOver(bufs: seq<seq<int>>, v: nat): (m: int)
    requires |bufs| > 0 && forall r :: 0 <= r < |bufs| ==> v < |bufs[r]|
    ensures forall r :: 0 <= r < |bufs| ==> m <= bufs[r][v]
    ensures exists r :: 0 <= r < |bufs| && m == bufs[r][v]
  {
    if |bufs| == 1 then bufs[0][v]
    else
      var m, last := MinOver(bufs[..|bufs|-1], v), bufs[|bufs|-1][v];
      if last < m then last else m
  }

  /** MPI_Allreduce with MPI_MIN. */
  function AllReduceMin(bufs: seq<seq<int>>, n: nat): (all: seq<int>)
    requires |bufs| > 0 && forall r :: 0 <= r < |bufs| ==> |bufs[r]| == n
    ensures |all| == n && forall v :: 0 <= v < n ==> all[v] == MinOver(bufs, v)
  {
    seq(n, v requires 0 <= v < n => MinOver(bufs, v))
  }

  /** `layer` is what some frontier lists and `dist0` does not know. */
  ghost predicate Discovers(g: Graph, dist0: seq<int>, frontiers0: seq<seq<int>>, layer: set<int>) {
    forall v :: v in layer <==>
      0 <= v < |dist0| && dist0[v] == INF && exists r :: 0 <= r < |frontiers0| && v in Targets(g, frontiers0[r])
  }

  /** What no rank knows yet and some frontier lists is exactly the next layer. */
  lemma DiscoveredIsNextLayer(g: Graph, source: int, k: nat, dists: seq<seq<int>>, frontiers: seq<seq<int>>)
    requires WellFormed(g) && 0 <= source < |g| && k < INF
    requires LevelHead(g, source, k, dists, frontiers)
    ensures Discovers(g, dists[0], frontiers, Layer(g, source, k + 1))
  {
    BallInRange(g, source, k + 1);
    forall v | v in Layer(g, source, k + 1)
      ensures 0 <= v < |g| && dists[0][v] == INF && exists r :: 0 <= r < |frontiers| && v in Targets(g, frontiers[r])
    {
      var u :| u in Ball(g, source, k) && 0 <= u < |g| && v in g[u];
      assert k > 0 ==> u !in Ball(g, source, k - 1);
      assert u in frontiers[u % |dists|];
    }
    forall r, v | 0 <= r < |frontiers| && v in Targets(g, frontiers[r]) && 0 <= v < |g| && dists[0][v] == INF
      ensures v in Layer(g, source, k + 1)
    {
      var u :| u in frontiers[r] && 0 <= u < |g| && v in g[u];
      assert u in Layer(g, source, k) && u in Ball(g, source, k);
    }
  }

  /** All ranks have scanned the head of level `k` and exchanged what they posted. */
  ghost predicate Exchanged(g: Graph, k: nat, dist0: seq<int>, frontiers0: seq<seq<int>>,
                            marked: seq<seq<int>>, nexts: seq<seq<int>>, sends: seq<seq<int>>,
                            received: seq<seq<int>>, frontiers: seq<seq<int>>)
    requires WellFormed(g) && |dist0| == |g|
  {
    var size := |frontiers0|;
    && size > 0 && |marked| == |nexts| == |sends| == |received| == |frontiers| == size
    && (forall v :: v in AllGather(sends) ==> 0 <= v < |g|)
    && (forall r :: 0 <= r < size ==> Expanded(r, size, k, g, frontiers0[r], dist0, marked[r], nexts[r], sends[r]))
    && (forall r :: 0 <= r < size ==>
          Received(r, size, k, AllGather(sends), marked[r], nexts[r], received[r], frontiers[r]))
  }

  /** After the exchange each rank's next frontier is its own share of the discovered layer. */
  lemma ExchangeSplitsLayer(g: Graph, k: nat, dist0: seq<int>, frontiers0: seq<seq<int>>,
                            marked: seq<seq<int>>, nexts: seq<seq<int>>, sends: seq<seq<int>>,
                            received: seq<seq<int>>, frontiers: seq<seq<int>>, layer: set<int>, r: nat)
    requires WellFormed(g) && |dist0| == |g| && k < INF && r < |frontiers0|
    requires Exchanged(g, k, dist0, frontiers0, marked, nexts, sends, received, frontiers)
    requires Discovers(g, dist0, frontiers0, layer)
    ensures Distinct(frontiers[r])
    ensures forall v :: v in frontiers[r] <==> v in layer && v % |frontiers0| == r
  {
    var size := |frontiers0|;
    forall v ensures v in frontiers[r] <==> v in layer && v % size == r {
      if v in layer && v % size == r {
        var q :| 0 <= q < size && v in Targets(g, frontiers0[q]);
        if q != r { assert v in sends[q]; }
      }
    }
  }

  /** After the exchange the ranks' minimum puts the discovered layer at `k + 1` and nothing else changes. */
  lemma ExchangeMarksLayer(g: Graph, k: nat, dist0: seq<int>, frontiers0: seq<seq<int>>,
                           marked: seq<seq<int>>, nexts: seq<seq<int>>, sends: seq<seq<int>>,
                           received: seq<seq<int>>, frontiers: seq<seq<int>>, layer: set<int>, v: nat)
    requires WellFormed(g) && |dist0| == |g| && k < INF && v < |g|
    requires Exchanged(g, k, dist0, frontiers0, marked, nexts, sends, received, frontiers)
    requires Discovers(g, dist0, frontiers0, layer)
    ensures MinOver(received, v) == if v in layer then k + 1 else dist0[v]
  {
    var size := |frontiers0|;
    forall r | 0 <= r < size
      ensures received[r][v] == (if v in layer then k + 1 else dist0[v]) || (v in layer && received[r][v] == INF)
    {
      if v in AllGather(sends) {
        var q :| 0 <= q < size && v in sends[q];
        assert v in layer;
      }
    }
    if v in layer {
      var q :| 0 <= q < size && v in Targets(g, frontiers0[q]);
      if v % size != q { assert v in sends[q]; }
      assert received[q][v] == k + 1;
    }
  }

  lemma NextLevelSettled(g: Graph, source: int, k: nat, dist0: seq<int>, dist: seq<int>)
    requires WellFormed(g) && 0 <= source < |g| && |dist| == |g|
    requires Settled(g, source, k, dist0)
    requires forall v :: 0 <= v < |g| ==> dist[v] == if v in Layer(g, source, k + 1) then k + 1 else dist0[v]
    ensures Settled(g, source, k + 1, dist)
  {
    BallGrows(g, source, k, k + 1);
  }

  /** Every rank scans its frontier against its own distances, which agree on `dist0`. */
  method ScanAll(g: Graph, level: nat, dists0: seq<seq<int>>, frontiers0: seq<seq<int>>, ghost dist0: seq<int>)
    returns (marked: seq<seq<int>>, nexts: seq<seq<int>>, sends: seq<seq<int>>)
    requires WellFormed(g) && |dist0| == |g|
    requires |dists0| == |frontiers0| && forall r :: 0 <= r < |dists0| ==> dists0[r] == dist0
    requires forall r, u :: 0 <= r < |frontiers0| && u in frontiers0[r] ==> 0 <= u < |g|
    requires level + 1 == INF ==> Discovers(g, dist0, frontiers0, {})
    ensures |marked| == |nexts| == |sends| == |frontiers0|
    ensures forall r :: 0 <= r < |frontiers0| ==>
      Expanded(r, |frontiers0|, level, g, frontiers0[r], dist0, marked[r], nexts[r], sends[r])
  {
    marked, nexts, sends := [], [], [];
    for rank := 0 to |frontiers0|
      invariant |marked| == |nexts| == |sends| == rank
      invariant forall r :: 0 <= r < rank ==>
        Expanded(r, |frontiers0|, level, g, frontiers0[r], dist0, marked[r], nexts[r], sends[r])
    {
      var d, n, s := Expand(rank, |frontiers0|, level, g, frontiers0[rank], dists0[rank]);
      marked, nexts, sends := marked + [d], nexts + [n], sends + [s];
    }
  }

  /** Every rank takes in the gathered buffer. */
  method ReceiveAll(g: Graph, level: nat, ghost dist0: seq<int>, ghost frontiers0: seq<seq<int>>,
                    marked: seq<seq<int>>, nexts: seq<seq<int>>, sends: seq<seq<int>>)
    returns (received: seq<seq<int>>, frontiers: seq<seq<int>>)
    requires WellFormed(g) && |dist0| == |g|
    requires level + 1 == INF ==> Discovers(g, dist0, frontiers0, {})
    requires |marked| == |nexts| == |sends| == |frontiers0| > 0
    requires forall r :: 0 <= r < |frontiers0| ==>
      Expanded(r, |frontiers0|, level, g, frontiers0[r], dist0, marked[r], nexts[r], sends[r])
    ensures Exchanged(g, level, dist0, frontiers0, marked, nexts, sends, received, frontiers)
  {
    var size := |marked|;
    var recvBuf := AllGather(sends);
    forall v | v in recvBuf ensures 0 <= v < |g| && dist0[v] == INF && level + 1 != INF {
      var r :| 0 <= r < size && v in sends[r];
    }
    received, frontiers := [], [];
    for rank := 0 to size
      invariant |received| == |frontiers| == rank
      invariant forall r :: 0 <= r < rank ==>
        Received(r, size, level, recvBuf, marked[r], nexts[r], received[r], frontiers[r])
    {
      assert Expanded(rank, size, level, g, frontiers0[rank], dist0, marked[rank], nexts[rank], sends[rank]);
      var d, n := Receive(rank, size, level, recvBuf, marked[rank], nexts[rank]);
      received, frontiers := received + [d], frontiers + [n];
    }
  }

  /** The three facts above, put together: the exchange takes the head of a level to the head of the next. */
  lemma ExchangeReachesNextHead(g: Graph, source: int, k: nat, dists0: seq<seq<int>>, frontiers0: seq<seq<int>>,
                                marked: seq<seq<int>>, nexts: seq<seq<int>>, sends: seq<seq<int>>,
                                received: seq<seq<int>>, frontiers: seq<seq<int>>)
    requires WellFormed(g) && 0 <= source < |g| && k < INF
    requires LevelHead(g, source, k, dists0, frontiers0)
    requires Exchanged(g, k, dists0[0], frontiers0, marked, nexts, sends, received, frontiers)
    ensures LevelHead(g, source, k + 1, seq(|dists0|, _ => AllReduceMin(received, |g|)), frontiers)
  {
    var size, global, layer := |dists0|, AllReduceMin(received, |g|), Layer(g, source, k + 1);
    DiscoveredIsNextLayer(g, source, k, dists0, frontiers0);
    forall v: nat | v < |g| ensures global[v] == if v in layer then k + 1 else dists0[0][v] {
      ExchangeMarksLayer(g, k, dists0[0], frontiers0, marked, nexts, sends, received, frontiers, layer, v);
    }
    NextLevelSettled(g, source, k, dists0[0], global);
    forall r: nat | r < size ensures OwnsLayer(g, source, k + 1, r, size, frontiers[r]) {
      ExchangeSplitsLayer(g, k, dists0[0], frontiers0, marked, nexts, sends, received, frontiers, layer, r);
    }
  }

  /** One pass of the search loop over all ranks takes the head of a level to the head of the next. */
  method Superstep(g: Graph, ghost source: int, level: nat, dists0: seq<seq<int>>, frontiers0: seq<seq<int>>)
    returns (dists: seq<seq<int>>, frontiers: seq<seq<int>>)
    requires WellFormed(g) && 0 <= source < |g| <= INF && level < |g|
    requires LayersFilled(g, source, level)
    requires LevelHead(g, source, level, dists0, frontiers0)
    ensures |dists| == |dists0| && LevelHead(g, source, level + 1, dists, frontiers)
  {
    hide Ball;
    LevelsAreBounded(g, source, level);
    BallInRange(g, source, level);
    DiscoveredIsNextLayer(g, source, level, dists0, frontiers0);
    forall r, u | 0 <= r < |frontiers0| && u in frontiers0[r] ensures 0 <= u < |g| {
      assert OwnsLayer(g, source, level, r, |dists0|, frontiers0[r]);
    }
    var marked, nexts, sends := ScanAll(g, level, dists0, frontiers0, dists0[0]);
    var received;
    received, frontiers := ReceiveAll(g, level, dists0[0], frontiers0, marked, nexts, sends);
    var global := AllReduceMin(received, |g|);
    dists := seq(|dists0|, _ => global);
    ExchangeReachesNextHead(g, source, level, dists0, frontiers0, marked, nexts, sends, received, frontiers);
    assert dists == seq(|dists0|, _ => AllReduceMin(received, |g|));
  }

  /** Only the owner of the source starts with work; it broadcasts the source's distance. */
  method Initialise(size: nat, g: Graph, source: int) returns (dists: seq<seq<int>>, frontiers: seq<seq<int>>)
    requires size > 0 && WellFormed(g) && 0 <= source < |g|
    ensures |dists| == size && LevelHead(g, source, 0, dists, frontiers)
  {
    var owner := source % size;
    frontiers := seq(size, r => if r == owner then [source] else []);
    dists := seq(size, _ => seq(|g|, _ => INF)[source := 0]);
    assert Layer(g, source, 0) == {source} == Ball(g, source, 0);
    forall r: nat | r < size ensures OwnsLayer(g, source, 0, r, size, frontiers[r]) {}
  }

  /** MPI_Allreduce of the work flags with MPI_LOR. */
  predicate AnyWork(frontiers: seq<seq<int>>) {
    exists r :: 0 <= r < |frontiers| && frontiers[r] != []
  }

  /** A rank has work at the head of a level exactly when the level's layer is not empty. */
  lemma WorkLeft(g: Graph, source: int, k: nat, dists: seq<seq<int>>, frontiers: seq<seq<int>>)
    requires WellFormed(g) && 0 <= source < |g|
    requires LevelHead(g, source, k, dists, frontiers)
    ensures AnyWork(frontiers) <==> Layer(g, source, k) != {}
  {
    var size, layer := |frontiers|, Layer(g, source, k);
    forall r: nat, v | r < size
      ensures v in frontiers[r] <==> v in layer && v % size == r
    {
      assert OwnsLayer(g, source, k, r, size, frontiers[r]);
    }
    if AnyWork(frontiers) {
      var r: nat :| r < size && frontiers[r] != [];
      assert frontiers[r][0] in layer;
    }
    if layer != {} {
      var v :| v in layer;
      assert v in frontiers[v % size];
    }
  }

  lemma DistanceIsCorrect(g: Graph, source: int, k: nat, dist: seq<int>, v: int)
    requires WellFormed(g) && 0 <= source < |g| <= INF && k < |g| && 0 <= v < |g|
    requires Settled(g, source, k + 1, dist) && Layer(g, source, k + 1) == {}
    ensures CorrectDistance(g, source, v, dist[v])
  {
    if v in Ball(g, source, k + 1) {
      assert dist[v] != k + 1;
      LayerIsHopCount(g, source, v, dist[v]);
    } else {
      BallGrows(g, source, k, k + 1);
      OutsideIsUnreachable(g, source, v, k);
    }
  }

  /** When layer `k + 1` is empty, every rank's distances are final. */
  lemma DistancesAreCorrect(g: Graph, source: int, k: nat, dists: seq<seq<int>>, frontiers: seq<seq<int>>)
    requires WellFormed(g) && 0 <= source < |g| <= INF && k < |g|
    requires LevelHead(g, source, k + 1, dists, frontiers) && Layer(g, source, k + 1) == {}
    ensures forall r :: 0 <= r < |dists| ==> dists[r] == dists[0] && |dists[r]| == |g|
    ensures forall r, v :: 0 <= r < |dists| && 0 <= v < |g| ==> CorrectDistance(g, source, v, dists[r][v])
  {
    hide Ball, Layer, CorrectDistance, OwnsLayer;
    forall r, v | 0 <= r < |dists| && 0 <= v < |g| ensures CorrectDistance(g, source, v, dists[r][v]) {
      DistanceIsCorrect(g, source, k, dists[0], v);
    }
  }

  /** The search run by `size` ranks. Every rank ends with the same, correct distances, after at
      most as many levels as there are vertices. */
  method DistributedBFS(size: nat, g: Graph, source: int) returns (dists: seq<seq<int>>, level: nat)
    requires size > 0 && WellFormed(g) && 0 <= source < |g| <= INF
    ensures |dists| == size && level < |g|
    ensures forall r :: 0 <= r < size ==> dists[r] == dists[0] && |dists[r]| == |g|
    ensures forall r, v :: 0 <= r < size && 0 <= v < |g| ==> CorrectDistance(g, source, v, dists[r][v])
  {
    hide Ball;
    level := 0;
    var frontiers;
    dists, frontiers := Initialise(size, g, source);
    while true
      invariant |dists| == size && level < |g|
      invariant LayersFilled(g, source, level)
      invariant LevelHead(g, source, level, dists, frontiers)
      decreases |g| - level
    {
      dists, frontiers := Superstep(g, source, level, dists, frontiers);
      var hasWork := AnyWork(frontiers);
      WorkLeft(g, source, level + 1, dists, frontiers);
      if !hasWork { break; }
      LevelsAreBounded(g, source, level + 1);
      level := level + 1;
    }
    DistancesAreCorrect(g, source, level, dists, frontiers);
  }
}
