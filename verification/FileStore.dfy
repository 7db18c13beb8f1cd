/** The replicated file store: the master's tables and the chunks held by worker nodes. */
module FileStore {
  import opened Basics
  import opened Collections
  import opened Chunking
  import opened WordSearch
  import opened Placement
  import opened StoreHistory

  const REPLICATION_FACTOR: nat := 3
  const FAILOVER_INTERVAL: int := 1 // seconds

  /** Node to file name to chunk number to chunk. */
  type Storage = map<int, map<string, map<int, Chunk>>>

  function Lookup(storage: Storage, n: int, f: string, k: int): Option<Chunk> {
    if n in storage && f in storage[n] && k in storage[n][f] then Some(storage[n][f][k]) else None
  }

  function ChunksAt(storage: Storage, n: int, f: string): map<int, Chunk> {
    if n in storage && f in storage[n] then storage[n][f] else map[]
  }

  /** Chunk `k` of `f` is now at `nodes`; everything else is as before. */
  ghost predicate ChunkStored(before: Storage, after: Storage, f: string, k: int, nodes: set<int>, c: Chunk) {
    forall n, g, j ::
      Lookup(after, n, g, j) == (if g == f && j == k && n in nodes then Some(c) else Lookup(before, n, g, j))
  }

  function Put(storage: Storage, n: int, f: string, k: int, c: Chunk): (s: Storage)
    ensures ChunkStored(storage, s, f, k, {n}, c)
  {
    var node := if n in storage then storage[n] else map[];
    storage[n := node[f := ChunksAt(storage, n, f)[k := c]]]
  }

  /** One of the nodes is up when chunk `k` is fetched. */
  predicate AnyUp(nodes: seq<int>, k: int, up: (int, int) -> bool) {
    exists i :: 0 <= i < |nodes| && up(k, nodes[i])
  }

  /** Chunks `0..|locs|` of file `f` are at exactly the listed nodes; everything else is as before. */
  ghost predicate Stored(before: Storage, after: Storage, f: string, content: string, locs: seq<seq<int>>) {
    forall n, g, k :: Lookup(after, n, g, k) ==
      if g == f && 0 <= k < |locs| && n in locs[k] then Some(ChunkOf(content, k)) else Lookup(before, n, g, k)
  }

  /** The nodes given to a file: for each chunk, between one and three distinct workers. */
  ghost predicate WellPlaced(size: nat, content: string, locs: seq<seq<int>>) {
    && |content| > 0 && |locs| == ChunkCount(content)
    && forall k :: 0 <= k < |locs| ==>
         1 <= |locs[k]| <= REPLICATION_FACTOR && Distinct(locs[k]) && forall n :: n in locs[k] ==> 1 <= n < size
  }

  /** The loads after the chunks of one file have been placed. */
  ghost function LoadAfter(load: map<int, int>, locs: seq<seq<int>>): map<int, int> {
    if |locs| == 0 then load else Bump(LoadAfter(load, locs[..|locs|-1]), locs[|locs|-1])
  }

  /** Each chunk went to as many least loaded available nodes as there can be, up to three. */
  ghost predicate PlacedGreedily(available: set<int>, load: map<int, int>, locs: seq<seq<int>>) {
    forall k :: 0 <= k < |locs| ==>
      && |locs[k]| == Min(REPLICATION_FACTOR, |available|)
      && GreedyRun(available, LoadAfter(load, locs[..k]), locs[k])
  }

  /** The (file, chunk) entries that list node `n`. */
  ghost function Hosted(metadata: Metadata, n: int): set<(string, int)> {
    set f, k | f in metadata && 0 <= k < |metadata[f]| && n in metadata[f][k] :: (f, k)
  }

  ghost predicate LoadsCounted(load: map<int, int>, metadata: Metadata) {
    forall n :: LoadAt(load, n) == |Hosted(metadata, n)|
  }

  /** The chunks of one file that list node `n`. */
  ghost function HostedOf(f: string, locs: seq<seq<int>>, n: int): set<(string, int)> {
    set k | 0 <= k < |locs| && n in locs[k] :: (f, k)
  }

  lemma {:induction false} LoadCountsChunks(load: map<int, int>, f: string, locs: seq<seq<int>>, n: int)
    requires forall k :: 0 <= k < |locs| ==> Distinct(locs[k])
    ensures LoadAt(LoadAfter(load, locs), n) == LoadAt(load, n) + |HostedOf(f, locs, n)|
  {
    if |locs| > 0 {
      var k := |locs| - 1;
      LoadCountsChunks(load, f, locs[..k], n);
      BumpAdds(LoadAfter(load, locs[..k]), locs[k], n);
      var before := HostedOf(f, locs[..k], n);
      assert (f, k) !in before;
      assert HostedOf(f, locs, n) == if n in locs[k] then before + {(f, k)} else before;
    } else {
      assert HostedOf(f, locs, n) == {};
    }
  }

  lemma HostedAfterUpload(metadata: Metadata, f: string, locs: seq<seq<int>>, n: int)
    requires f !in metadata
    ensures Hosted(metadata[f := locs], n) == Hosted(metadata, n) + HostedOf(f, locs, n)
    ensures |Hosted(metadata[f := locs], n)| == |Hosted(metadata, n)| + |HostedOf(f, locs, n)|
  {
    assert Hosted(metadata[f := locs], n) == Hosted(metadata, n) + HostedOf(f, locs, n);
    assert Hosted(metadata, n) !! HostedOf(f, locs, n);
  }

  /** Uploading a new file adds to a node's load exactly the entries that now list it. */
  lemma LoadsStayCounted(load: map<int, int>, metadata: Metadata, f: string, locs: seq<seq<int>>)
    requires LoadsCounted(load, metadata) && f !in metadata
    requires forall k :: 0 <= k < |locs| ==> Distinct(locs[k])
    ensures LoadsCounted(LoadAfter(load, locs), metadata[f := locs])
  {
    hide LoadAfter, LoadAt, Hosted, HostedOf;
    forall n ensures LoadAt(LoadAfter(load, locs), n) == |Hosted(metadata[f := locs], n)| {
      LoadCountsChunks(load, f, locs, n);
      HostedAfterUpload(metadata, f, locs, n);
    }
  }

  /** Over all the chunks of a file the gap between the loads of available nodes never exceeds the gap
      before, or one. */
  lemma {:induction false} SpreadStaysSmallOverFile(available: set<int>, load: map<int, int>, locs: seq<seq<int>>, d: int)
    requires PlacedGreedily(available, load, locs) && SpreadAtMost(available, load, d)
    ensures SpreadAtMost(available, LoadAfter(load, locs), if d > 1 then d else 1)
  {
    if |locs| > 0 {
      var k := |locs| - 1;
      assert forall j :: 0 <= j < k ==> locs[..k][..j] == locs[..j];
      SpreadStaysSmallOverFile(available, load, locs[..k], d);
      SpreadStaysSmall(available, LoadAfter(load, locs[..k]), locs[k], if d > 1 then d else 1);
    }
  }

  /** The tester's own placement of as many chunks, from its own loads. */
  ghost predicate PlacedByTester(available: set<int>, load: map<int, int>, locs: seq<seq<int>>) {
    forall k :: 0 <= k < |locs| ==>
      |locs[k]| == Min(REPLICATION_FACTOR, |available|) && TesterRun(available, LoadAfter(load, locs[..k]), locs[k])
  }

  lemma LastPlaced(available: set<int>, load: map<int, int>, locs: seq<seq<int>>)
    requires |locs| > 0
    ensures locs[..|locs|-1] + [locs[|locs|-1]] == locs
    ensures PlacedGreedily(available, load, locs) ==>
      PlacedGreedily(available, load, locs[..|locs|-1])
      && GreedyRun(available, LoadAfter(load, locs[..|locs|-1]), locs[|locs|-1])
    ensures PlacedByTester(available, load, locs) ==>
      PlacedByTester(available, load, locs[..|locs|-1])
      && TesterRun(available, LoadAfter(load, locs[..|locs|-1]), locs[|locs|-1])
  {
    hide GreedyRun, TesterRun, LoadAfter;
    assert forall j :: 0 <= j < |locs| ==> locs[..|locs|-1][..j] == locs[..j];
  }

  /** After any number of chunks the program's loads and the tester's are equal as multisets, although the two may
      have broken every tie differently. */
  lemma {:induction false} AgreesWithTester(available: set<int>, load: map<int, int>, locs: seq<seq<int>>,
                                            testerLoad: map<int, int>, testerLocs: seq<seq<int>>)
    requires PlacedGreedily(available, load, locs) && PlacedByTester(available, testerLoad, testerLocs)
    requires |locs| == |testerLocs| && LoadsOn(available, load) == LoadsOn(available, testerLoad)
    ensures LoadsOn(available, LoadAfter(load, locs)) == LoadsOn(available, LoadAfter(testerLoad, testerLocs))
  {
    if |locs| == 0 {
    } else {
      var k := |locs| - 1;
      assert |locs[k]| == |testerLocs[k]|;
      hide *;
      LastPlaced(available, load, locs);
      LastPlaced(available, testerLoad, testerLocs);
      AgreesWithTester(available, load, locs[..k], testerLoad, testerLocs[..k]);
      TesterIsGreedy(available, LoadAfter(testerLoad, testerLocs[..k]), testerLocs[k]);
      TieBreaksDoNotMatter(available, LoadAfter(load, locs[..k]), locs[k],
                           LoadAfter(testerLoad, testerLocs[..k]), testerLocs[k]);
      LoadAfterOneMore(load, locs[..k], locs[k]);
      LoadAfterOneMore(testerLoad, testerLocs[..k], testerLocs[k]);
    }
  }

  lemma LoadAfterOneMore(load: map<int, int>, locs: seq<seq<int>>, r: seq<int>)
    ensures LoadAfter(load, locs + [r]) == Bump(LoadAfter(load, locs), r)
  {
    hide Bump;
    assert (locs + [r])[..|locs|] == locs;
  }

  lemma PlacedOneMore(available: set<int>, load: map<int, int>, locs: seq<seq<int>>, r: seq<int>)
    requires PlacedGreedily(available, load, locs)
    requires |r| == Min(REPLICATION_FACTOR, |available|) && GreedyRun(available, LoadAfter(load, locs), r)
    ensures PlacedGreedily(available, load, locs + [r])
  {
    hide GreedyRun, LoadAfter;
    var all := locs + [r];
    assert all[..|locs|] == locs;
    forall k | 0 <= k < |all|
      ensures |all[k]| == Min(REPLICATION_FACTOR, |available|) && GreedyRun(available, LoadAfter(load, all[..k]), all[k])
    {
      if k < |locs| {
        assert all[..k] == locs[..k] && all[k] == locs[k];
      }
    }
  }

  lemma StoredOneMore(before: Storage, mid: Storage, after: Storage, f: string, content: string,
                      locs: seq<seq<int>>, r: seq<int>)
    requires Stored(before, mid, f, content, locs)
    requires ChunkStored(mid, after, f, |locs|, Elements(r), ChunkOf(content, |locs|))
    ensures Stored(before, after, f, content, locs + [r])
  {
  }

  lemma GreedyIsWellPlaced(size: nat, content: string, available: set<int>, load: map<int, int>, locs: seq<seq<int>>)
    requires |content| > 0 && |locs| == ChunkCount(content)
    requires |available| > 0 && forall n :: n in available ==> 1 <= n < size
    requires PlacedGreedily(available, load, locs)
    ensures WellPlaced(size, content, locs)
  {
    forall k | 0 <= k < |locs|
      ensures 1 <= |locs[k]| <= REPLICATION_FACTOR && Distinct(locs[k]) && forall n :: n in locs[k] ==> 1 <= n < size
    {
      GreedyRunIsDistinct(available, LoadAfter(load, locs[..k]), locs[k]);
      assert forall n :: n in locs[k] ==> n in Elements(locs[k]);
    }
  }

  /** Every uploaded file is placed; a node holds the exact chunk, with its neighbours, wherever the
      metadata says so and nowhere else; loads count the metadata's entries. */
  ghost predicate Consistent(size: nat, files: map<string, string>, metadata: Metadata, storage: Storage,
                             load: map<int, int>) {
    && (forall f :: f in metadata <==> f in files)
    && (forall f :: f in files ==> WellPlaced(size, files[f], metadata[f]))
    && Mirrors(files, metadata, storage)
    && LoadsCounted(load, metadata)
  }

  ghost predicate Mirrors(files: map<string, string>, metadata: Metadata, storage: Storage)
    requires forall f :: f in metadata <==> f in files
  {
    forall n, f, k :: Lookup(storage, n, f, k) ==
      (if f in files && 0 <= k < |metadata[f]| && n in metadata[f][k] then Some(ChunkOf(files[f], k)) else None)
  }

  /** Storing and recording a new file keeps the tables consistent. */
  lemma UploadKeepsConsistent(size: nat, files: map<string, string>, metadata: Metadata, storage: Storage,
                              load: map<int, int>, f: string, content: string, locs: seq<seq<int>>, after: Storage)
    requires Consistent(size, files, metadata, storage, load) && f !in files
    requires WellPlaced(size, content, locs) && Stored(storage, after, f, content, locs)
    ensures Consistent(size, files[f := content], metadata[f := locs], after, LoadAfter(load, locs))
  {
    LoadsStayCounted(load, metadata, f, locs);
    forall n, g, k ensures Lookup(after, n, g, k) ==
      (if g in files[f := content] && 0 <= k < |metadata[f := locs][g]| && n in metadata[f := locs][g][k]
       then Some(ChunkOf(files[f := content][g], k)) else None)
    {
      if g != f { assert Lookup(after, n, g, k) == Lookup(storage, n, g, k); }
    }
  }

  /** `q` is a hit in one of the chunks numbered in `ks`. */
  ghost predicate Reports(file: string, word: string, ks: set<int>, q: int)
    requires |word| > 0
  {
    exists k: nat :: k in ks && q in ChunkHits(file, word, k)
  }

  /** Some listed node of chunk `k` is live. */
  predicate HasLiveReplica(nodes: seq<int>, status: map<int, bool>) {
    exists i :: 0 <= i < |nodes| && Flag(status, nodes[i])
  }

  lemma StoredChunkIsExact(size: nat, files: map<string, string>, metadata: Metadata, storage: Storage,
                           load: map<int, int>, n: int, f: string, k: int)
    requires Consistent(size, files, metadata, storage, load) && f in files
    requires k in ChunksAt(storage, n, f)
    ensures 0 <= k < ChunkCount(files[f]) && ChunksAt(storage, n, f)[k] == ChunkOf(files[f], k)
  {
    assert Lookup(storage, n, f, k).Some?;
  }

  lemma ReportsOneMore(file: string, word: string, ks: set<int>, k: nat, q: int)
    requires |word| > 0
    ensures Reports(file, word, ks + {k}, q) <==> Reports(file, word, ks, q) || q in ChunkHits(file, word, k)
  {
    hide ChunkHits;
    if Reports(file, word, ks, q) {
      var j: nat :| j in ks && q in ChunkHits(file, word, j);
      assert j in ks + {k};
    }
    assert k in ks + {k};
  }

  lemma LiveReplicaExists(size: nat, file: string, locations: seq<seq<int>>, status: map<int, bool>)
    requires WellPlaced(size, file, locations)
    requires forall k :: 0 <= k < |locations| ==> HasLiveReplica(locations[k], status)
    ensures exists n :: 1 <= n < size && Flag(status, n)
  {
    var i :| 0 <= i < |locations[0]| && Flag(status, locations[0][i]);
    assert locations[0][i] in locations[0];
  }

  /** When every chunk has a live replica, what the live nodes report together is the hits of all chunks. */
  lemma LiveNodesCover(size: nat, files: map<string, string>, metadata: Metadata, storage: Storage, load: map<int, int>,
                       status: map<int, bool>, f: string, word: string, offsets: set<int>)
    requires Consistent(size, files, metadata, storage, load) && f in files && |word| > 0
    requires forall k :: 0 <= k < |metadata[f]| ==> HasLiveReplica(metadata[f][k], status)
    requires forall q :: q in offsets <==>
      exists n :: 1 <= n < size && Flag(status, n) && Reports(files[f], word, ChunksAt(storage, n, f).Keys, q)
    ensures offsets == FileHits(files[f], word)
  {
    hide ChunkHits;
    var file, locs := files[f], metadata[f];
    forall q | q in offsets ensures q in FileHits(file, word) {
      var n :| 1 <= n < size && Flag(status, n) && Reports(file, word, ChunksAt(storage, n, f).Keys, q);
      var k: nat :| k in ChunksAt(storage, n, f).Keys && q in ChunkHits(file, word, k);
      assert Lookup(storage, n, f, k).Some?;
    }
    forall q | q in FileHits(file, word) ensures q in offsets {
      var k: nat :| k < ChunkCount(file) && q in ChunkHits(file, word, k);
      assert HasLiveReplica(locs[k], status);
      var i :| 0 <= i < |locs[k]| && Flag(status, locs[k][i]);
      var n := locs[k][i];
      assert n in locs[k] && Lookup(storage, n, f, k).Some?;
      assert k in ChunksAt(storage, n, f).Keys;
      assert Reports(file, word, ChunksAt(storage, n, f).Keys, q);
    }
  }

  /** Whole seconds from `last` to `now`, truncated as the source's duration cast does. */
  function SecondsBetween(last: int, now: int): int {
    if now >= last then (now - last) / SECOND else -((last - now) / SECOND)
  }

  predicate Silent(last: map<int, int>, n: int, now: int) {
    SecondsBetween(LastHeard(last, n), now) > FAILOVER_INTERVAL
  }

  /** More than one whole second is two seconds or more. */
  lemma SilentInTicks(last: map<int, int>, n: int, now: int)
    ensures Silent(last, n, now) <==> now - LastHeard(last, n) >= 2 * SECOND
  {
  }

  /** A file placed greedily is replicated as far as there are live nodes. */
  lemma GreedyIsReplicated(live: set<int>, load: map<int, int>, content: string, locs: seq<seq<int>>)
    requires PlacedGreedily(live, load, locs) && |locs| == ChunkCount(content)
    ensures Replicated(live, content, locs)
  {
    forall k | 0 <= k < |locs|
      ensures |locs[k]| == Replicas(live) && Distinct(locs[k]) && forall n :: n in locs[k] ==> n in live
    {
      GreedyRunIsDistinct(live, LoadAfter(load, locs[..k]), locs[k]);
      assert forall n :: n in locs[k] ==> n in Elements(locs[k]);
    }
  }

  /** Nodes outside `down` answer whenever they are asked. */
  ghost predicate OnlyDown(up: (int, int) -> bool, down: set<int>) {
    forall k, n :: n !in down ==> up(k, n)
  }

  /** A chunk survives as long as fewer nodes are down than it has replicas. */
  lemma OneReplicaIsUp(locs: seq<int>, k: int, up: (int, int) -> bool, down: set<int>)
    requires Distinct(locs) && |down| < |locs| && OnlyDown(up, down)
    ensures AnyUp(locs, k, up)
  {
    if forall i :: 0 <= i < |locs| ==> !up(k, locs[i]) {
      DistinctSize(locs);
      forall n | n in Elements(locs) ensures n in down {
        var i :| 0 <= i < |locs| && locs[i] == n;
        assert !up(k, locs[i]);
      }
      SubsetSize(Elements(locs), down);
    }
  }

  class Store {
    const size: nat
    var metadata: Metadata
    var storage: Storage
    var nodeStatus: map<int, bool>
    var failoverState: map<int, bool>
    var lastHeartbeat: map<int, int>
    var nodeLoad: map<int, int>
    /** The files uploaded so far, as they were given. */
    ghost var files: map<string, string>

    ghost predicate Valid()
      reads this
    {
      size > 0 && Consistent(size, files, metadata, storage, nodeLoad)
    }

    constructor (size: nat, now: int)
      requires size > 0
      ensures Valid() && this.size == size && files == map[]
      ensures forall n :: Flag(nodeStatus, n) <==> 1 <= n < size
      ensures forall n :: !Flag(failoverState, n)
    {
      this.size := size;
      metadata, storage, failoverState, nodeLoad := map[], map[], map[], map[];
      nodeStatus, lastHeartbeat, files := map[], map[], map[];
      new;
      for i := 1 to size
        invariant metadata == map[] && storage == map[] && failoverState == map[] && nodeLoad == map[] && files == map[]
        invariant forall n :: Flag(nodeStatus, n) <==> 1 <= n < i
      {
        ghost var before := nodeStatus;
        nodeStatus, lastHeartbeat := nodeStatus[i := true], lastHeartbeat[i := now];
        assert forall n :: Flag(nodeStatus, n) <==> Flag(before, n) || n == i;
      }
      assert forall n :: Hosted(metadata, n) == {};
    }

    /** The first available node that no unused available node beats, or -1 if all are used. */
    method HandleLoadBalance(available: seq<int>, used: set<int>) returns (target: int)
      requires forall n :: n in available ==> n > 0
      ensures target == -1 <==> forall n :: n in available ==> n in used
      ensures target != -1 ==> LeastLoaded(Elements(available) - used, nodeLoad, target)
    {
      if |available| == 0 { return -1; }
      var best := available[0];
      for i := 1 to |available|
        invariant best in available[..i]
        invariant forall n :: n in available[..i] ==> !Before(n, best, used, nodeLoad)
      {
        assert available[..i+1] == available[..i] + [available[i]];
        if Before(available[i], best, used, nodeLoad) { best := available[i]; }
      }
      assert available[..|available|] == available;
      assert best in Elements(available);
      forall n | n in Elements(available) ensures !Before(n, best, used, nodeLoad) {
        assert n in available[..|available|];
      }
      target := if best !in used then best else -1;
    }

    /** Sends one chunk to as many distinct least loaded nodes as there are, up to three. */
    method PlaceChunk(available: seq<int>, f: string, k: int, chunk: Chunk) returns (replicas: seq<int>)
      requires Distinct(available) && forall n :: n in available ==> n > 0
      modifies this`storage, this`nodeLoad
      ensures |replicas| == Min(3, |available|)
      ensures GreedyRun(Elements(available), old(nodeLoad), replicas)
      ensures nodeLoad == Bump(old(nodeLoad), replicas)
      ensures ChunkStored(old(storage), storage, f, k, Elements(replicas), chunk)
    {
      replicas := [];
      var used: set<int> := {};
      for i := 0 to Min(REPLICATION_FACTOR, |available|)
        invariant |replicas| == i && used == Elements(replicas)
        invariant GreedyRun(Elements(available), old(nodeLoad), replicas)
        invariant nodeLoad == Bump(old(nodeLoad), replicas)
        invariant ChunkStored(old(storage), storage, f, k, used, chunk)
      {
        var target := HandleLoadBalance(available, used);
        SomeNodeLeft(available, old(nodeLoad), replicas);
        GreedyStep(Elements(available), old(nodeLoad), replicas, target);
        storage := Put(storage, target, f, k, chunk);
        replicas := replicas + [target];
        nodeLoad := nodeLoad[target := LoadAt(nodeLoad, target) + 1];
        used := used + {target};
      }
    }
  
    ghost function Live(): set<int>
      reads this
    {
      LiveNodes(size, nodeStatus)
    }

    ghost function Now(): Snapshot
      reads this
    {
      Snapshot(files, metadata, nodeStatus, failoverState, lastHeartbeat)
    }

    method AvailableNodes() returns (available: seq<int>)
      requires size > 0
      ensures Distinct(available) && Elements(available) == Live()
      ensures forall n :: n in available ==> 1 <= n < size
    {
      available := [];
      for i := 1 to size
        invariant forall n :: n in available <==> 1 <= n < i && Flag(nodeStatus, n)
        invariant Distinct(available)
      {
        if Flag(nodeStatus, i) { available := available + [i]; }
      }
    }

    /** Spreads a new file's chunks over the live nodes; without a live node nothing changes. */
    method DistributeChunks(chunks: seq<Chunk>, fileName: string, ghost content: string) returns (ok: bool)
      requires Valid() && fileName !in files && |content| > 0
      requires |chunks| == ChunkCount(content) && forall k :: 0 <= k < |chunks| ==> chunks[k] == ChunkOf(content, k)
      modifies this`metadata, this`storage, this`nodeLoad, this`files
      ensures Valid()
      ensures ok <==> Live() != {}
      ensures !ok ==> unchanged(this)
      ensures ok ==> files == old(files)[fileName := content]
      ensures ok ==> fileName in metadata && metadata == old(metadata)[fileName := metadata[fileName]]
      ensures ok ==> PlacedGreedily(Live(), old(nodeLoad), metadata[fileName])
      ensures ok ==> nodeLoad == LoadAfter(old(nodeLoad), metadata[fileName])
    {
      var available := AvailableNodes();
      DistinctSize(available);
      if Min(REPLICATION_FACTOR, |available|) == 0 { return false; }
      var locs: seq<seq<int>> := [];
      for k := 0 to |chunks|
        invariant |locs| == k && metadata == old(metadata) && files == old(files)
        invariant PlacedGreedily(Live(), old(nodeLoad), locs)
        invariant nodeLoad == LoadAfter(old(nodeLoad), locs)
        invariant Stored(old(storage), storage, fileName, content, locs)
      {
        ghost var mid := storage;
        var replicas := PlaceChunk(available, fileName, k, chunks[k]);
        PlacedOneMore(Live(), old(nodeLoad), locs, replicas);
        StoredOneMore(old(storage), mid, storage, fileName, content, locs, replicas);
        locs := locs + [replicas];
      }
      metadata := metadata[fileName := locs];
      files := files[fileName := content];
      GreedyIsWellPlaced(size, content, Live(), old(nodeLoad), locs);
      UploadKeepsConsistent(size, old(files), old(metadata), old(storage), old(nodeLoad), fileName, content, locs, storage);
      ok := true;
    }

    /** The path must end with the file's name, and the name must be new. */
    method Upload(fileName: string, filePath: string, content: Option<string>) returns (ok: bool)
      requires Valid()
      modifies this`metadata, this`storage, this`nodeLoad, this`files
      ensures Valid()
      ensures ok <==>
        && fileName != "" && |fileName| <= |filePath| && filePath[|filePath|-|fileName|..] == fileName
        && fileName !in old(files) && content.Some? && content.value != "" && Live() != {}
      ensures !ok ==> unchanged(this)
      ensures ok ==> files == old(files)[fileName := content.value]
      ensures ok ==> fileName in metadata && metadata == old(metadata)[fileName := metadata[fileName]]
      ensures ok ==> PlacedGreedily(Live(), old(nodeLoad), metadata[fileName])
      ensures ok ==> nodeLoad == LoadAfter(old(nodeLoad), metadata[fileName])
    {
      if |filePath| == 0 || |fileName| == 0 || |filePath| < |fileName|
         || filePath[|filePath|-|fileName|..] != fileName {
        return false;
      }
      if fileName in metadata { return false; }
      var chunks := PartitionFile(content);
      if |chunks| == 0 { return false; }
      ok := DistributeChunks(chunks, fileName, content.value);
    }

    /** One node's reply to a request for a chunk: its bytes, or nothing when it has no such chunk. */
    method RetrieveWorker(node: int, fileName: string, k: int) returns (data: string)
      ensures data == match Lookup(storage, node, fileName, k) case Some(c) => c.data case None => ""
    {
      data := if k in ChunksAt(storage, node, fileName) then ChunksAt(storage, node, fileName)[k].data else "";
    }

    /** Asks the nodes listed for chunk `k`, in order, skipping those that are down when asked. */
    method FetchChunk(fileName: string, k: int, nodes: seq<int>, up: (int, int) -> bool, ghost data: string)
      returns (r: Option<string>)
      requires data != ""
      requires forall n :: n in nodes ==>
        Lookup(storage, n, fileName, k).Some? && Lookup(storage, n, fileName, k).value.data == data
      ensures r == if AnyUp(nodes, k, up) then Some(data) else None
    {
      for i := 0 to |nodes|
        invariant forall j :: 0 <= j < i ==> !up(k, nodes[j])
      {
        if !up(k, nodes[i]) { continue; }
        var reply := RetrieveWorker(nodes[i], fileName, k);
        if |reply| > 0 { return Some(reply); }
      }
      r := None;
    }

    /** Fetches every chunk from the first of its nodes that is up when asked. `up(k, n)` is the status of
        node `n` read while chunk `k` is fetched; it may differ from chunk to chunk. */
    method Retrieve(fileName: string, up: (int, int) -> bool) returns (r: Option<string>)
      requires Valid()
      ensures r.Some? ==> fileName in files && r.value == files[fileName]
      ensures r.Some? <==>
        fileName in metadata && forall k :: 0 <= k < |metadata[fileName]| ==> AnyUp(metadata[fileName][k], k, up)
    {
      if fileName !in metadata { return None; }
      var locations := metadata[fileName];
      ghost var content := files[fileName];
      var retrieved := "";
      for k := 0 to |locations|
        invariant retrieved == content[..Min(k * CHUNK_SIZE, |content|)]
        invariant forall j :: 0 <= j < k ==> AnyUp(locations[j], j, up)
      {
        ChunkSizes(content, k);
        var data := FetchChunk(fileName, k, locations[k], up, Slice(content, k));
        if data.None? { return None; }
        retrieved := retrieved + data.value;
      }
      r := Some(retrieved);
    }

    /** One node scans every chunk of the file it holds. A word longer than a chunk is refused. */
    method SearchWorker(node: int, fileName: string, word: string) returns (r: Option<set<int>>)
      requires Valid() && fileName in files && |word| > 0
      ensures r.None? <==> |word| > CHUNK_SIZE
      ensures r.Some? ==> forall q ::
        q in r.value <==> Reports(files[fileName], word, ChunksAt(storage, node, fileName).Keys, q)
    {
      hide Consistent, Hits;
      var chunks := ChunksAt(storage, node, fileName);
      ghost var file := files[fileName];
      var offsets: set<int> := {};
      var rest, done := chunks.Keys, {};
      while rest != {}
        invariant done + rest == chunks.Keys
        invariant forall q :: q in offsets <==> Reports(file, word, done, q)
        decreases rest
      {
        var k := PickAny(rest);
        var c := chunks[k];
        StoredChunkIsExact(size, files, metadata, storage, nodeLoad, node, fileName, k);
        ghost var before := offsets;
        offsets := SearchWordInChunk(c.previousChunk + c.data + c.nextChunk, word, offsets,
                                     k * CHUNK_SIZE - |c.previousChunk|, |c.previousChunk|, |c.data|);
        assert offsets == before + ChunkHits(file, word, k);
        forall q ensures Reports(file, word, done + {k}, q) <==> q in before || q in ChunkHits(file, word, k) {
          ReportsOneMore(file, word, done, k, q);
        }
        rest, done := rest - {k}, done + {k};
      }
      assert done == chunks.Keys;
      r := if |word| > CHUNK_SIZE then None else Some(offsets);
    }

    /** Refuses unless every chunk has a live replica, then unites what the live nodes report. */
    method Search(fileName: string, word: string) returns (r: Option<set<int>>)
      requires Valid() && |word| > 0
      ensures r.Some? <==>
        && fileName in metadata && |word| <= CHUNK_SIZE
        && forall k :: 0 <= k < |metadata[fileName]| ==> HasLiveReplica(metadata[fileName][k], nodeStatus)
      ensures r.Some? ==> r.value == FileHits(files[fileName], word)
      ensures r.Some? && SpaceFree(word) ==>
        var file := files[fileName];
        && WholeWords(file, word) <= r.value
        && (r.value == WholeWords(file, word) <==> forall k: nat :: k < ChunkCount(file) ==> !FalseHit(file, word, k))
    {
      if fileName !in metadata { return None; }
      var locations := metadata[fileName];
      for k := 0 to |locations|
        invariant forall j :: 0 <= j < k ==> HasLiveReplica(locations[j], nodeStatus)
      {
        if !HasLiveReplica(locations[k], nodeStatus) { return None; }
      }
      var searchFailed, offsets := CollectOffsets(fileName, word);
      LiveReplicaExists(size, files[fileName], locations, nodeStatus);
      if searchFailed { return None; }
      LiveNodesCover(size, files, metadata, storage, nodeLoad, nodeStatus, fileName, word, offsets);
      if SpaceFree(word) { SearchIsExact(files[fileName], word); }
      r := Some(offsets);
    }

    /** Takes the replies of all live nodes; the search fails if one of them refuses the word. */
    method CollectOffsets(fileName: string, word: string) returns (searchFailed: bool, offsets: set<int>)
      requires Valid() && fileName in files && |word| > 0
      ensures searchFailed <==> |word| > CHUNK_SIZE && exists n :: 1 <= n < size && Flag(nodeStatus, n)
      ensures |word| <= CHUNK_SIZE ==> forall q :: q in offsets <==> exists n ::
        1 <= n < size && Flag(nodeStatus, n) && Reports(files[fileName], word, ChunksAt(storage, n, fileName).Keys, q)
    {
      hide Consistent, Reports;
      searchFailed, offsets := false, {};
      ghost var file := files[fileName];
      for worker := 1 to size
        invariant searchFailed <==> |word| > CHUNK_SIZE && exists n :: 1 <= n < worker && Flag(nodeStatus, n)
        invariant |word| <= CHUNK_SIZE ==> forall q :: q in offsets <==> exists n ::
          1 <= n < worker && Flag(nodeStatus, n) && Reports(file, word, ChunksAt(storage, n, fileName).Keys, q)
      {
        if !Flag(nodeStatus, worker) { continue; }
        var reply := SearchWorker(worker, fileName, word);
        if reply.None? { searchFailed := true; } else { offsets := offsets + reply.value; }
      }
    }

    /** Marks a live worker as failed; from now on its heartbeats are ignored. */
    method HandleFailover(rank: int) returns (ok: bool)
      requires Valid()
      modifies this`failoverState
      ensures Valid()
      ensures ok <==> rank != 0 && rank < size && Flag(nodeStatus, rank)
      ensures failoverState == if ok then old(failoverState)[rank := true] else old(failoverState)
    {
      if rank == 0 || rank >= size { return false; }
      if !Flag(nodeStatus, rank) { return false; }
      failoverState := failoverState[rank := true];
      ok := true;
    }

    method HandleRecover(rank: int) returns (ok: bool)
      requires Valid()
      modifies this`failoverState
      ensures Valid()
      ensures ok <==> rank != 0 && rank < size && (!Flag(nodeStatus, rank) || Flag(old(failoverState), rank))
      ensures failoverState == if ok then old(failoverState)[rank := false] else old(failoverState)
    {
      if rank == 0 || rank >= size { return false; }
      if Flag(nodeStatus, rank) && !Flag(failoverState, rank) { return false; }
      failoverState := failoverState[rank := false];
      ok := true;
    }

    method ListenHeartbeat(sender: int, heartbeat: int, now: int)
      requires Valid()
      modifies this`nodeStatus, this`lastHeartbeat
      ensures Valid()
      ensures Flag(failoverState, sender) ==> unchanged(this)
      ensures !Flag(failoverState, sender) ==>
        nodeStatus == old(nodeStatus)[sender := heartbeat == 1] && lastHeartbeat == old(lastHeartbeat)[sender := now]
    {
      if Flag(failoverState, sender) { return; }
      lastHeartbeat := lastHeartbeat[sender := now];
      nodeStatus := nodeStatus[sender := heartbeat == 1];
    }

    /** Takes down every live worker not heard of for two seconds or more. */
    method MonitorOnce(now: int)
      requires Valid()
      modifies this`nodeStatus
      ensures Valid()
      ensures forall n :: Flag(nodeStatus, n) <==>
        Flag(old(nodeStatus), n) && !(1 <= n < size && now - LastHeard(lastHeartbeat, n) >= 2 * SECOND)
    {
      for i := 1 to size
        invariant forall n :: Flag(nodeStatus, n) <==>
          Flag(old(nodeStatus), n) && !(1 <= n < i && now - LastHeard(lastHeartbeat, n) >= 2 * SECOND)
      {
        SilentInTicks(lastHeartbeat, i, now);
        if Flag(nodeStatus, i) && Silent(lastHeartbeat, i, now) {
          ghost var before := nodeStatus;
          nodeStatus := nodeStatus[i := false];
          assert forall n :: Flag(nodeStatus, n) <==> Flag(before, n) && n != i;
        }
      }
    }

    /** One command or background step, and everything it changes. */
    method Step(e: Event)
      requires Valid()
      modifies this
      ensures Valid() && Effect(size, old(Now()), e, Now())
    {
      match e
      case UploadFile(fileName, filePath, content) =>
        ghost var load, live := nodeLoad, Live();
        var ok := Upload(fileName, filePath, content);
        if ok { GreedyIsReplicated(live, load, content.value, metadata[fileName]); }
      case Failover(rank) => var _ := HandleFailover(rank);
      case Recover(rank) => var _ := HandleRecover(rank);
      case Heartbeat(sender, heartbeat, at) => ListenHeartbeat(sender, heartbeat, at);
      case MonitorTick(at) => MonitorOnce(at);
    }

    /** Any run of commands and background steps. The trace holds the master's state before and after each of them. */
    method Run(events: seq<Event>) returns (ghost trace: seq<Snapshot>)
      requires Valid()
      modifies this
      ensures Valid() && History(size, trace, events)
      ensures trace[0] == old(Now()) && trace[|events|] == Now()
      ensures forall f, content :: Find(files, f) == Some(content) <==>
        Find(old(files), f) == Some(content) || WasUploaded(size, trace, events, |events|, f, content)
    {
      hide Effect, Consistent;
      trace := [Now()];
      for i := 0 to |events|
        invariant Valid() && |trace| == i + 1 && trace[0] == old(Now()) && trace[i] == Now()
        invariant forall j :: 0 <= j < i ==> Effect(size, trace[j], events[j], trace[j+1])
      {
        Step(events[i]);
        trace := trace + [Now()];
      }
      forall f, content ensures Find(files, f) == Some(content) <==>
        (Find(old(files), f) == Some(content) || WasUploaded(size, trace, events, |events|, f, content))
      {
        FilesExactly(size, trace, events, |events|, f, content);
      }
    }

    /** A file that was uploaded at any step of a run is retrieved at its end, byte for byte or not at all, and byte for
        byte as long as fewer nodes are down than its chunks have replicas: three, or all nodes that were live. */
    method RetrieveAfterRun(events: seq<Event>, fileName: string, up: (int, int) -> bool)
      returns (r: Option<string>, ghost trace: seq<Snapshot>)
      requires Valid()
      modifies this
      ensures Valid() && History(size, trace, events) && trace[0] == old(Now()) && trace[|events|] == Now()
      ensures forall i: nat :: UploadedAt(size, trace, events, i, fileName) ==> (r.Some? ==> r == events[i].content)
      ensures forall i: nat, down :: UploadedAt(size, trace, events, i, fileName) && OnlyDown(up, down) ==>
        (|down| < Replicas(LiveNodes(size, trace[i].status)) ==> r == events[i].content)
    {
      trace := Run(events);
      r := Retrieve(fileName, up);
      forall i: nat | UploadedAt(size, trace, events, i, fileName) ensures r.Some? ==> r == events[i].content {
        UploadStays(size, trace, events, i, |events|);
      }
      forall i: nat, down | UploadedAt(size, trace, events, i, fileName) && OnlyDown(up, down)
        ensures |down| < Replicas(LiveNodes(size, trace[i].status)) ==> r == events[i].content
      {
        UploadStays(size, trace, events, i, |events|);
        if |down| < Replicas(LiveNodes(size, trace[i].status)) {
          forall k | 0 <= k < |metadata[fileName]| ensures AnyUp(metadata[fileName][k], k, up) {
            OneReplicaIsUp(metadata[fileName][k], k, up, down);
          }
        }
      }
    }
  }
}
