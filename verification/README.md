# Six distributed algorithms: models and proofs

Dafny models of the algorithms at the heart of the repository's two assignments, with proofs of what they promise.
`dafny verify dfyconfig.toml` checks everything.

**Maze escape** (`Hops`, `MazeEscape`, `MazeProgram`). Processes that own vertices by `v % size` search a graph level
by level and exchange what they discover. Proved: for every number of processes the distances are shortest hop counts,
and the numbers printed are lengths of shortest escapes through unblocked rooms, although the program searches a
reversed graph and only clears the lists of blocked rooms.

**File store** (`Chunking`, `WordSearch`, `Placement`, `StoreHistory`, `FileStore`). Files are cut into 32-byte
chunks, stored with their neighbours on up to three least loaded nodes, retrieved with fall-back to other replicas and
searched chunk by chunk. Proved: what every step changes, durability over every run, byte-exact retrieval while fewer
nodes are down than there are replicas, the exact condition under which the chunk-wise search equals a search of the
whole file, and balanced placement whatever the tie-breaks.

**Bouncing balls** (`Balls`, `BallProgram`). A lattice gas on a torus, dealt to processes that exchange histograms.
Proved: the step is the one that a law of motion and collision prescribes, the output does not depend on the number of
processes, the step has an exact inverse, and an exclusion principle holds for ever.

**MapReduce** (`WordHash`, `MapReduce`, `MapReduceJob`). Map tasks hash words to intermediate files and reduce tasks
count or index them. Proved: the job is the direct count or index of the corpus, with the exact condition, in 64-bit
arithmetic, under which a word is lost.

**Byzantine generals** (`Generals`, `ByzantineServer`, `ByzantineVotes`, `ByzantineRun`). The client drives t+1 rounds
of concurrent calls and the server counts votes. A remote call is a sequence of sections, one for each lock it takes;
the phase loops may run the next section of any call in flight, so the proofs cover every interleaving. Coins and the
claims of traitors are arbitrary functions. Proved: the shape of the logs for every schedule, validity, and exactly
when the loyal generals reach consensus.

**Payments** (`Banks`, `TransferRuns`, `PaymentSpec`, `Gateway`, `PaymentSteps`, `PaymentAborts`, `PaymentRuns`,
`PaymentAnswers`, `PaymentConservation`, `PaymentRefinement`). `Banks` is the bank server. `TransferRuns` interleaves
any number of transfers and plain payments, with calls that are late, lost or repeated and deadlines that strike at
any moment. `Gateway` is the gateway's service, with its balance table and its transaction records; each method is
proved equal to a function in `PaymentSpec`, and `Serve` carries the theorems about those functions over to runs of
the service: what each answer means, exactly when retries apply the halves of a transfer as reported, conservation of
money, and agreement of the gateway's balances with the banks'. `PaymentRefinement` shows that payments of the service
are runs of the interleaved machine. The fate of every call and connection is a parameter (`Env`).

The imperative parts of the programs are methods and classes here: the ranks' loops, the file store's tables, the
server's generals, the banks, the balance table and the transaction manager are updated in place and proved against
specification functions. The directions and turns of the balls, the bucket arithmetic and the hop counts are functions.

`Basics`, `Collections` and `Collectives` hold what the models share: optional values, facts about finite sets and sums
over maps, and the all-gather.

Where the code and its documentation disagree the model follows the code:

- The Byzantine documentation promises the same decision to all loyal generals whenever n > 3t. With four generals
  under a traitor commander told to attack, a lieutenant that hears "retreat" in both rounds ties and retreats
  (`FourGeneralsSplit`; `AgreementExactly` says that nothing else goes wrong). The server counts the rounds up to the
  number of registered traitors plus one; the client sends t+1.
- A chunk's scan may run past its own bytes and then takes the end of the next chunk for the end of a word
  (`FalseHitExists`, `SearchIsExact`).
- `CommitDebit` logs the record's state before it looks whether there is a record. The protocol never commits without
  one, under any interleaving (`TransfersConserveMoney`).
- A transfer that goes wrong in its commit phase leaves no record at the gateway, so a retry applies its halves again,
  even when both had been applied and only the replies were lost (`RetryAfterHarm`). `AppliedOnceExactly` gives the exact
  condition under which the attempts for a transfer move its amount as often as they report.

## Model

| member | source | states |
|---|---|---|
| MazeEscape.DistributedBFS | Assignment1/P1-MazeEscape/1.cpp:9-87 | for every number of ranks, graph and source the search stops within as many levels as there are vertices, all ranks hold the same distances, and each is the least number of edges of any walk from the source, or INF exactly when there is no walk |
| MazeEscape.Superstep | Assignment1/P1-MazeEscape/1.cpp:28-86 | one pass takes the head of a level to the head of the next: the ranks agree on all distances up to the level, and their frontiers are the vertices at that distance, each vertex once and only at the rank `v % size` |
| MazeEscape.Expand | Assignment1/P1-MazeEscape/1.cpp:31-42 | a rank marks exactly the undiscovered targets it owns, puts each of them once in its next frontier, and posts exactly the undiscovered targets it does not own |
| MazeEscape.Receive | Assignment1/P1-MazeEscape/1.cpp:60-68 | a rank marks every received vertex that was undiscovered and takes over, once each, those it owns |
| MazeEscape.MinOver | Assignment1/P1-MazeEscape/1.cpp:70-73 | the reduced value of a vertex is at most every rank's and equal to one of them |
| MazeEscape.Initialise | Assignment1/P1-MazeEscape/1.cpp:12-27 | after the broadcast every rank is at the head of level 0 |
| MazeEscape.DiscoveredIsNextLayer | Assignment1/P1-MazeEscape/1.cpp:31-42 | what the frontiers discover together is the set of vertices one hop further |
| MazeEscape.ExchangeSplitsLayer | Assignment1/P1-MazeEscape/1.cpp:44-68 | after the exchange each rank owns its share of the next layer without duplicates, whoever discovered it |
| MazeEscape.ExchangeMarksLayer | Assignment1/P1-MazeEscape/1.cpp:44-73 | after the minimum is taken the next layer has the next level on all ranks and every other entry is as before |
| MazeEscape.ExchangeReachesNextHead | Assignment1/P1-MazeEscape/1.cpp:44-77 | the two facts together are the invariant at the head of the next level |
| MazeEscape.WorkLeft | Assignment1/P1-MazeEscape/1.cpp:79-84 | the reduced work flag is set exactly when the next layer is not empty |
| MazeEscape.DistancesAreCorrect | Assignment1/P1-MazeEscape/1.cpp:79-86 | when the flag is clear every distance is final |
| Hops.LayerIsHopCount | Assignment1/P1-MazeEscape/1.cpp:9-87 | the layers built level by level are exactly the sets of vertices of equal hop count, by walks |
| Hops.OutsideIsUnreachable | Assignment1/P1-MazeEscape/1.cpp:84-86 | after an empty layer no walk reaches any further vertex |
| Hops.LevelsAreBounded | Assignment1/P1-MazeEscape/1.cpp:28-86 | levels with work cannot outnumber the vertices |
| MazeProgram.BuildGraph | Assignment1/P1-MazeEscape/1.cpp:119-129 | the list of a room holds exactly the rooms with a corridor into it, two-way corridors counting both ways |
| MazeProgram.Block | Assignment1/P1-MazeEscape/1.cpp:134-136 | the lists of the blocked rooms become empty and no other list changes |
| MazeProgram.WalksAreEscapes | Assignment1/P1-MazeEscape/1.cpp:119-136 | walks from the exit in the reversed graph without the blocked lists are, read backwards, the corridor paths on which no room entered after the first is blocked |
| MazeProgram.Answers | Assignment1/P1-MazeEscape/1.cpp:168-170 | the numbers printed are right whenever the distances are |
| MazeProgram.Solve | Assignment1/P1-MazeEscape/1.cpp:107-173 | the number for an explorer is the length of a shortest such path to the exit, and -1 exactly when there is none |
| Chunking.PartitionFile | Assignment1/P3-DistributedFS/3.cpp:64-80 | chunk k holds the file's k-th slice of 32 bytes with both neighbouring slices, and a file that cannot be opened has no chunks |
| Chunking.ChunkSizes | Assignment1/P3-DistributedFS/3.cpp:64-80 | only the last chunk may be short and none is empty |
| Chunking.JoinedIsPrefix | Assignment1/P3-DistributedFS/3.cpp:236-263 | chunks joined in order are the file again |
| Chunking.ChunkWindow | Assignment1/P3-DistributedFS/3.cpp:318-323 | a chunk between its neighbours is a window of the file at the offset used in the search |
| WordSearch.SearchWordInChunk | Assignment1/P3-DistributedFS/3.cpp:290-304 | the loop inserts exactly the stops of the scan that look complete in the text it is given |
| WordSearch.NoWordIsSkipped | Assignment1/P3-DistributedFS/3.cpp:293-302 | jumping over a whole occurrence never jumps over an occurrence of a word without blanks that follows a blank |
| WordSearch.WholeWordIsReported | Assignment1/P3-DistributedFS/3.cpp:317-324 | a whole word is reported by the chunk in which it starts, even if it straddles two chunks |
| WordSearch.ReportsAreWordsOrFalseHits | Assignment1/P3-DistributedFS/3.cpp:293-302 | whatever a chunk reports is a whole word of the file or one particular kind of false hit |
| WordSearch.FalseHitIsReported | Assignment1/P3-DistributedFS/3.cpp:293-302 | a false hit is reported although it is no whole word of the file |
| WordSearch.SearchIsExact | Assignment1/P3-DistributedFS/3.cpp:290-324 | the union over all chunks contains every whole word of the file, and equals that set if and only if no chunk has a false hit |
| WordSearch.ExactWhenBoundariesAreClean | Assignment1/P3-DistributedFS/3.cpp:290-324 | the answer is exact when each occurrence that ends on a chunk boundary inside the file is followed by a blank |
| WordSearch.FalseHitExists | Assignment1/P3-DistributedFS/3.cpp:293-302 | a file of 63 blanks and the word "ab" on which a search for "a" reports offset 63 |
| Placement.BeforeIsStrictWeakOrder | Assignment1/P3-DistributedFS/3.cpp:90-94 | the comparator with its used nodes last is a strict weak order, as `min_element` demands |
| Placement.GreedyRunIsDistinct | Assignment1/P3-DistributedFS/3.cpp:116-150 | the replicas of a chunk are distinct available nodes, none more loaded than a node left out |
| Placement.GreedyStep | Assignment1/P3-DistributedFS/3.cpp:124-147 | choosing by the loads already raised for this chunk is choosing by the loads before the chunk |
| Placement.SpreadStaysSmall | Assignment1/P3-DistributedFS/3.cpp:116-150 | a chunk takes the spread of the loads to at most the greater of 1 and the spread before |
| Placement.LoadsAfterRun | Assignment1/P3-DistributedFS/3.cpp:116-150 | the loads after a chunk, as a multiset, depend only on the loads before and on the number of replicas |
| Placement.TieBreaksDoNotMatter | Assignment1/P3-DistributedFS/3.cpp:90-95 | so they do not depend on how ties are broken, for this chunk or for those before it |
| Placement.TesterIsGreedy | Assignment1/scripts/P3-DistributedFS/lb_interactive_tester.cpp:109-124 | the tester's ordered set takes the same kind of greedy run |
| FileStore.AgreesWithTester | Assignment1/scripts/P3-DistributedFS/lb_interactive_tester.cpp:77-144 | after any number of chunks over the same nodes the loads of the program and of the tester are equal as multisets |
| FileStore.Store.constructor | Assignment1/P3-DistributedFS/3.cpp:533-540 | every worker starts up, none marked as failed, all tables empty |
| FileStore.Store.HandleLoadBalance | Assignment1/P3-DistributedFS/3.cpp:88-96 | the node returned is a least loaded one among those not used, and it is -1 exactly when all are used |
| FileStore.Store.PlaceChunk | Assignment1/P3-DistributedFS/3.cpp:116-150 | the chunk and its neighbours go to min(3, available) nodes picked greedily and to no other; their loads go up by one; the assertion cannot fail |
| FileStore.Store.DistributeChunks | Assignment1/P3-DistributedFS/3.cpp:98-159 | fails exactly when no node is live, changing nothing; otherwise every chunk is placed greedily, stored where the metadata says, and counted in the loads |
| FileStore.Store.Upload | Assignment1/P3-DistributedFS/3.cpp:163-184 | succeeds exactly for a new, non-empty file whose path ends with its name when a node is live, and otherwise changes nothing |
| FileStore.LoadCountsChunks | Assignment1/P3-DistributedFS/3.cpp:142-149 | a node's load grows by the number of the file's chunks that list it |
| FileStore.LoadsStayCounted | Assignment1/P3-DistributedFS/3.cpp:116-156 | in every reachable state a node's load is the number of (file, chunk) entries that list it |
| FileStore.SpreadStaysSmallOverFile | Assignment1/P3-DistributedFS/3.cpp:116-150 | the bound on the spread holds over any number of chunks |
| FileStore.UploadKeepsConsistent | Assignment1/P3-DistributedFS/3.cpp:98-220 | an upload keeps the metadata, the stored chunks with their neighbours and the loads in agreement, for the new file and all old ones |
| FileStore.Store.RetrieveWorker | Assignment1/P3-DistributedFS/3.cpp:266-288 | a node answers with the bytes of the chunk it holds, or with nothing |
| FileStore.Store.FetchChunk | Assignment1/P3-DistributedFS/3.cpp:237-260 | the chunk is had exactly when one of its nodes is up at the moment it is asked |
| FileStore.Store.Retrieve | Assignment1/P3-DistributedFS/3.cpp:223-264 | the result is the uploaded file byte for byte or -1, and -1 exactly when the name is unknown or some chunk has no node up when asked, even if nodes come and go meanwhile |
| FileStore.Store.SearchWorker | Assignment1/P3-DistributedFS/3.cpp:306-333 | a node reports the hits of exactly the chunks it holds and refuses words of more than 32 bytes |
| FileStore.Store.CollectOffsets | Assignment1/P3-DistributedFS/3.cpp:359-376 | the union of the replies of the live nodes; it fails exactly when one of them refuses |
| FileStore.LiveNodesCover | Assignment1/P3-DistributedFS/3.cpp:336-383 | with a live replica for each chunk the live nodes' reports together are the hits of all chunks |
| FileStore.Store.Search | Assignment1/P3-DistributedFS/3.cpp:336-383 | answers exactly when the file is known, the word fits and every chunk has a live replica; then all whole words of the uploaded file are in the answer, and nothing else exactly when there is no false hit |
| FileStore.Store.HandleFailover | Assignment1/P3-DistributedFS/3.cpp:418-430 | marks a live worker as failed and refuses everything else |
| FileStore.Store.HandleRecover | Assignment1/P3-DistributedFS/3.cpp:432-444 | clears the mark of a worker that is down or marked and refuses everything else |
| FileStore.Store.ListenHeartbeat | Assignment1/P3-DistributedFS/3.cpp:459-472 | a heartbeat of a marked worker changes nothing; any other sets its status and its time |
| FileStore.SilentInTicks | Assignment1/P3-DistributedFS/3.cpp:452 | more than one whole second, after the truncating cast, is two seconds or more |
| FileStore.Store.MonitorOnce | Assignment1/P3-DistributedFS/3.cpp:446-457 | takes down exactly the live workers last heard of two seconds ago or more |
| StoreHistory.FilesExactly | Assignment1/P3-DistributedFS/3.cpp:163-184 | over every history the files are exactly those there were and those whose uploads were accepted since, with their contents |
| StoreHistory.UploadStays | Assignment1/P3-DistributedFS/3.cpp:98-184 | an accepted upload is there in every later state, each chunk on three different live nodes, or on all that were live |
| StoreHistory.MarkedStays | Assignment1/P3-DistributedFS/3.cpp:432-472 | a node marked as failed stays marked until it is recovered, its heartbeats count for nothing, and once down it stays down |
| StoreHistory.FailedOverGoesDown | Assignment1/P3-DistributedFS/3.cpp:418-472 | a live worker that is failed over is down from the first tick two seconds after it was last heard of until it is recovered, whatever it sends |
| StoreHistory.HeardStaysUp | Assignment1/P3-DistributedFS/3.cpp:446-472 | a worker that has said it is well stays up while it is not failed over, says nothing else and no tick comes two seconds later or more |
| FileStore.OneReplicaIsUp | Assignment1/P3-DistributedFS/3.cpp:236-263 | a chunk survives as long as fewer nodes are down than it has replicas |
| FileStore.Store.Step | Assignment1/P3-DistributedFS/3.cpp:475-524 | everything each command or background step changes: an accepted upload adds the file and its replicas, failover and recovery the mark alone, a heartbeat status and time unless the node is marked, a tick the status of silent workers; and the tables stay in agreement |
| FileStore.Store.Run | Assignment1/P3-DistributedFS/3.cpp:404-524 | every run of uploads, failovers, recoveries, heartbeats and monitor ticks is a history of such steps, and at its end the files are exactly those there were and those whose uploads were accepted |
| FileStore.Store.RetrieveAfterRun | Assignment1/P3-DistributedFS/3.cpp:163-288 | a file uploaded at any step of a run is retrieved at its end byte for byte or not at all, and byte for byte while fewer nodes are down than its chunks have replicas, hence while any two are down if three were live |
| Balls.MovesFrom | Assignment1/P2-BouncingBalls/2.cpp:17-22 | a ball moves to a cell exactly if it is one of the four neighbours looked up, heading there, on any torus including one cell wide |
| Balls.CollisionsCountLanding | Assignment1/P2-BouncingBalls/2.cpp:54-61 | the four lookups count exactly the balls that land in the cell |
| Balls.OccupancyIsCollisions | Assignment1/P2-BouncingBalls/2.cpp:54-66 | after a step the number of balls in a cell is the count each of them saw |
| Balls.UnstepAfterStep | Assignment1/P2-BouncingBalls/2.cpp:54-67 | a step is undone by a function of the positions and directions after it |
| Balls.StepAfterUnstep | Assignment1/P2-BouncingBalls/2.cpp:54-67 | every arrangement is the outcome of a step |
| Balls.StepsAreReversible | Assignment1/P2-BouncingBalls/2.cpp:24-70 | any number of steps can be undone |
| Balls.StepsAreInjective | Assignment1/P2-BouncingBalls/2.cpp:24-70 | different arrangements never become the same |
| Balls.ExclusionPersists | Assignment1/P2-BouncingBalls/2.cpp:24-70 | if no two balls share cell and direction at first, none ever do |
| Balls.AtMostFourPerCell | Assignment1/P2-BouncingBalls/2.cpp:24-70 | hence no cell ever holds more than four balls |
| BallProgram.CountLocal | Assignment1/P2-BouncingBalls/2.cpp:27-29 | a rank's histogram counts its balls by cell and direction |
| BallProgram.Pack | Assignment1/P2-BouncingBalls/2.cpp:31-34 | the entries sent carry the histogram, in any order |
| BallProgram.Merge | Assignment1/P2-BouncingBalls/2.cpp:49-52 | the received entries are added up key by key |
| BallProgram.GatheredCounts | Assignment1/P2-BouncingBalls/2.cpp:35-52 | the gathered counts of all ranks are the histogram of all balls |
| BallProgram.Move | Assignment1/P2-BouncingBalls/2.cpp:54-66 | a rank's balls move and turn by the global counts, in order |
| BallProgram.GatheredStep | Assignment1/P2-BouncingBalls/2.cpp:54-67 | moving the shares separately moves the whole list |
| BallProgram.StepRanks | Assignment1/P2-BouncingBalls/2.cpp:25-68 | one step of all ranks, gathered, is one step of one process |
| BallProgram.FindPos | Assignment1/P2-BouncingBalls/2.cpp:24-70 | so are any number of steps |
| BallProgram.Scatter | Assignment1/P2-BouncingBalls/2.cpp:109-146 | the ceil-sized chunks are the input in order, for any number of ranks, even when some get none |
| Balls.StepIsTheLaw | Assignment1/P2-BouncingBalls/2.cpp:9-67 | the program's step is the one arrangement in which every ball has moved on by one cell on the closed grid and turned by the number of balls it then shares its cell with: L to U to R to D to L when two meet, L with R and U with D when four meet, not at all otherwise |
| Balls.FourTurnBack | Assignment1/P2-BouncingBalls/2.cpp:13-15 | a ball that met three others goes back to the cell it came from if nothing else turns it |
| Balls.RunIsTheHistory | Assignment1/P2-BouncingBalls/2.cpp:24-70 | the arrangements of a run are the one history the law allows |
| BallProgram.Simulate | Assignment1/P2-BouncingBalls/2.cpp:72-194 | the output is the one-process run ball by ball and in input order, for every number of processes, and the last arrangement of the history that the law prescribes step by step |
| WordHash.Hash | Assignment2/P2-MapReduce/server/main.go:131-137 | the loop computes the base-31 value of the word wrapped to 64 bits |
| WordHash.PolynomialIsWeightedSum | Assignment2/P2-MapReduce/server/main.go:131-137 | that value is the sum of the letters, each times the power of 31 given by its place from the right |
| WordHash.TruncRemIsRemainder | Assignment2/P2-MapReduce/server/main.go:38 | the remainder is the one number below R in size that some multiple of R leaves over and that has the sign of the hash |
| WordHash.BucketIsOwner | Assignment2/P2-MapReduce/server/main.go:38 | a word belongs to the reducer that its wrapped weighted sum gives modulo R, or, if that is negative, to reducer 0 when R divides it |
| WordHash.ShortWordsHaveBuckets | Assignment2/P2-MapReduce/server/main.go:131-137 | at most 12 ASCII characters never wrap, so the bucket is one of the reducers |
| WordHash.BucketInRange | Assignment2/P2-MapReduce/server/main.go:38-39 | a word has a bucket if and only if its wrapped hash is not negative or is a multiple of the number of reducers |
| WordHash.ThirteenLettersCanWrap | Assignment2/P2-MapReduce/server/main.go:131-137 | a word of 13 letters whose bucket is -1 |
| MapReduce.LinesForOwner | Assignment2/P2-MapReduce/server/main.go:37-46 | a bucket has exactly the lines written for the words that belong to it |
| MapReduce.Disk.Map | Assignment2/P2-MapReduce/server/main.go:22-51 | a map task leaves in each of its buckets the lines of the words that belong there, in order, and no others, and no other task's files change |
| MapReduce.WordMapped | Assignment2/P2-MapReduce/server/main.go:37-46 | one word goes to its bucket, or is lost if there is no such bucket |
| MapReduce.Disk.AddCounts | Assignment2/P2-MapReduce/server/main.go:111-118 | one file's counts are added to those so far |
| MapReduce.CountOneMore | Assignment2/P2-MapReduce/server/main.go:116-117 | one line raises its word's count and the grand total by its own count |
| MapReduce.Disk.ReduceWordCount | Assignment2/P2-MapReduce/server/main.go:102-129 | the output has exactly the words of the lines read, each with the sum of its counts |
| MapReduce.Disk.ReduceInvertedIndex | Assignment2/P2-MapReduce/server/main.go:63-100 | the output has exactly the words of the lines read, each with exactly its file names |
| MapReduceJob.CountedIsCorrect | Assignment2/P2-MapReduce/server/main.go:102-129 | a counting reducer's output is, for the words of its bucket, their number of occurrences in the corpus |
| MapReduceJob.WordCountJob | Assignment2/P2-MapReduce/client/main.go:118-168 | a word is in the output of a reducer if and only if it occurs in the corpus and belongs to it, with its total in the corpus, and all counts add up to the number of words that have a bucket |
| MapReduceJob.IndexedIsCorrect | Assignment2/P2-MapReduce/server/main.go:63-100 | an indexing reducer's output lists, for the words of its bucket, exactly the files that contain them |
| MapReduceJob.InvertedIndexJob | Assignment2/P2-MapReduce/client/main.go:118-168 | a word is in the output of a reducer if and only if some file contains it and it belongs to it, with exactly the files containing it |
| MapReduceJob.TotalsAgree | Assignment2/P2-MapReduce/server/main.go:34-47 | the counts add up to the corpus word total if and only if every word has a bucket |
| MapReduceJob.ShortWordsAreAllCounted | Assignment2/P2-MapReduce/server/main.go:34-47 | with words of at most 12 ASCII characters every word is in the output of the reducer with its weighted sum modulo R and in no other, and the counts add up to the corpus word total |
| MapReduceJob.LostExactlyWithoutBucket | Assignment2/P2-MapReduce/server/main.go:38-45 | whatever the words, a word of the corpus is in some output if and only if it has a bucket |
| ByzantineServer.Server.constructor | Assignment2/P4-ByzantineConsensus/server/main.go:41-47 | no generals, round 0 |
| ByzantineServer.Server.Register | Assignment2/P4-ByzantineConsensus/server/main.go:50-84 | a new identifier is added with an empty log and raises the counts; a known one is refused and changes nothing |
| ByzantineServer.Server.AcceptOrder | Assignment2/P4-ByzantineConsensus/server/main.go:88-112 | the first section of an order: the look-up and the three refusals |
| ByzantineServer.Server.DeliverOrder | Assignment2/P4-ByzantineConsensus/server/main.go:125-143 | the third section: one vote in the receiver's log, as given or, from a traitor, flipped |
| ByzantineServer.Server.SendOrder | Assignment2/P4-ByzantineConsensus/server/main.go:87-160 | the four sections in turn: only a registered commander's order to a registered general is received; it is recorded at the commander as given and at the receiver as given or, from a traitor, flipped; nothing else changes |
| ByzantineServer.Server.LookUp | Assignment2/P4-ByzantineConsensus/server/main.go:164-182 | the first section of a message: the look-up, the current round, and the refusals for unknown generals and earlier rounds |
| ByzantineServer.Server.EnterRound | Assignment2/P4-ByzantineConsensus/server/main.go:184-202 | the second section: the round is raised unless it was current, then a message that would go in a cycle is refused |
| ByzantineServer.Server.ExchangeMessage | Assignment2/P4-ByzantineConsensus/server/main.go:163-232 | the three sections in turn: refused for unknown generals, earlier rounds and cycles, the last having already raised the round; otherwise one vote is appended to one log |
| Generals.StoreVoteAdds | Assignment2/P4-ByzantineConsensus/server/main.go:216-223 | a stored vote goes to the end of one general's entry for one round and sender and nowhere else |
| ByzantineServer.Server.CountRound | Assignment2/P4-ByzantineConsensus/server/main.go:384-392 | the count does not depend on the order in which the round's map is read |
| ByzantineServer.Server.FirstReport | Assignment2/P4-ByzantineConsensus/server/main.go:360-379 | finds an order of the commander at a lieutenant if there is one |
| ByzantineServer.Server.MakeDecision | Assignment2/P4-ByzantineConsensus/server/main.go:322-407 | a loyal decision is the majority of all votes up to the last round, retreating on a tie, or for a commander without votes what a lieutenant reports |
| ByzantineServer.Server.CountLoyal | Assignment2/P4-ByzantineConsensus/server/main.go:261-274 | loyal generals that can only decide one way are all counted that way |
| ByzantineServer.Server.LoyalAgreeOn | Assignment2/P4-ByzantineConsensus/server/main.go:284-290 | agreement is found if all loyal generals can only decide so, and only if each of them can |
| ByzantineServer.Server.GetConsensus | Assignment2/P4-ByzantineConsensus/server/main.go:235-319 | consensus is reported whenever the loyal generals can only decide alike, and only if they can decide alike |
| ByzantineRun.RegisterAll | Assignment2/P4-ByzantineConsensus/client/main.go:70-172 | the commander and then the lieutenants are registered with their loyalties |
| ByzantineRun.OrderPhase | Assignment2/P4-ByzantineConsensus/client/main.go:179-201 | whatever the order of the sections of the concurrent calls, none is refused, each lieutenant has one order and the commander n-1 copies of its own |
| ByzantineRun.ExchangePhase | Assignment2/P4-ByzantineConsensus/client/main.go:206-264 | whatever the schedule, no message of the round is refused, neither for an unknown general, nor for an earlier round, nor for its path, and each general has one more vote of every other |
| ByzantineRun.FinishOrders | Assignment2/P4-ByzantineConsensus/client/main.go:179-201 | every interleaving of the sections of the order calls in flight comes to an end, refuses none and keeps the invariant of the phase |
| ByzantineRun.FinishCalls | Assignment2/P4-ByzantineConsensus/client/main.go:211-259 | every interleaving of the sections of the calls in flight comes to an end, refuses none and keeps the invariant of the round |
| ByzantineRun.Simulate | Assignment2/P4-ByzantineConsensus/client/main.go:70-264 | after t+1 phases each log holds exactly one vote for each round from 2 and each other general, and the orders of round 1; no order and no message was refused |
| ByzantineVotes.TableCount | Assignment2/P4-ByzantineConsensus/server/main.go:382-394 | a round's count is the sum over the senders, whatever the map order |
| ByzantineVotes.ExchangeRound | Assignment2/P4-ByzantineConsensus/server/main.go:382-394 | an exchange round gives a general n-1 votes of which at most one per traitor is wrong |
| ByzantineVotes.FirstRound | Assignment2/P4-ByzantineConsensus/server/main.go:342-356 | round 1 counts n-1 for the commander and one for a lieutenant |
| ByzantineVotes.FinalMargin | Assignment2/P4-ByzantineConsensus/server/main.go:322-395 | correct votes minus wrong ones are at least a(n-1-2a), plus n-1 for the commander and plus or minus 1 for a lieutenant |
| ByzantineVotes.MarginDecides | Assignment2/P4-ByzantineConsensus/server/main.go:397-406 | a positive margin decides the order and an empty one decides a retreat |
| ByzantineVotes.LoyalCommanderIsObeyed | Assignment2/P4-ByzantineConsensus/server/main.go:322-407 | validity: under a loyal commander with a lieutenant every loyal general can only decide the order, with a margin of at least 1 + a(n-1-2a) |
| ByzantineVotes.SilentCommander | Assignment2/P4-ByzantineConsensus/server/main.go:358-379 | a loyal commander that has recorded nothing decides what the first order some lieutenant has from it says, and retreats if none has one |
| ByzantineVotes.LoneCommanderRetreats | Assignment2/P4-ByzantineConsensus/server/main.go:360-406 | a commander without lieutenants has no votes and retreats whatever it ordered |
| ByzantineVotes.ValidityExactly | Assignment2/P4-ByzantineConsensus/server/main.go:322-407 | validity holds if and only if there is a lieutenant or the order is to retreat |
| ByzantineVotes.TraitorCommanderIsOutvoted | Assignment2/P4-ByzantineConsensus/server/main.go:380-406 | under a traitor commander a loyal lieutenant decides the client's order if and only if there are five generals, the order is to retreat, or the commander did not tell it to retreat in both rounds |
| ByzantineVotes.TraitorCommanderAgreement | Assignment2/P4-ByzantineConsensus/server/main.go:380-406 | so all loyal lieutenants decide the client's order when there are five generals or the order is to retreat |
| ByzantineVotes.FourGeneralsDecide | Assignment2/P4-ByzantineConsensus/server/main.go:380-406 | among four generals told to attack by a traitor, a lieutenant retreats exactly when told to retreat twice |
| ByzantineVotes.AgreementExactly | Assignment2/P4-ByzantineConsensus/server/main.go:252-290 | loyal generals agree unless a traitor commander of four told to attack treats its lieutenants differently, and then they do not |
| ByzantineRun.RunAndAsk | Assignment2/P4-ByzantineConsensus/client/main.go:70-287 | consensus is reported if and only if that condition holds, for every schedule, every behaviour of the traitors and every coin |
| ByzantineRun.FourGeneralsSplit | Assignment2/P4-ByzantineConsensus/server/main.go:380-406 | a run of four generals, one traitor, without consensus, although n > 3t |
| Banks.Bank.constructor | Assignment2/P3-Strife/bank/bank_server.go:34-45 | a bank starts with its accounts and balances and without transactions |
| Banks.Bank.ProcessPayment | Assignment2/P3-Strife/bank/bank_server.go:113-155 | takes a positive amount from a known account with the funds and otherwise refuses and changes nothing |
| Banks.Bank.FindClient | Assignment2/P3-Strife/bank/bank_server.go:162-169 | finds a client exactly if some account is theirs |
| Banks.Bank.PrepareDebit | Assignment2/P3-Strife/bank/bank_server.go:158-199 | records the transaction as prepared exactly for a client of the bank with the funds; moves nothing |
| Banks.Bank.PrepareCredit | Assignment2/P3-Strife/bank/bank_server.go:202-234 | records the transaction as prepared exactly for a client of the bank; moves nothing |
| Banks.Bank.CommitDebit | Assignment2/P3-Strife/bank/bank_server.go:237-264 | only a prepared transaction is debited, and it becomes committed; an unknown one makes the handler fail |
| Banks.Bank.CommitCredit | Assignment2/P3-Strife/bank/bank_server.go:267-293 | only a prepared transaction is credited, and it becomes committed |
| Banks.Bank.Abort | Assignment2/P3-Strife/bank/bank_server.go:296-315 | a known transaction becomes aborted; success in any case; moves nothing |
| Banks.RequestsMoveTheirAmount | Assignment2/P3-Strife/bank/bank_server.go:113-315 | only an accepted payment or commit changes what a bank holds, and by exactly its amount |
| Banks.RequestsRecord | Assignment2/P3-Strife/bank/bank_server.go:158-315 | an accepted prepare records client, amount and state, a commit or an abort changes the state alone, and no other record changes |
| Banks.CommitsOnce | Assignment2/P3-Strife/bank/bank_server.go:237-293 | an accepted commit is refused if it comes again |
| TransferRuns.HalfAfterDelivery | Assignment2/P3-Strife/bank/bank_server.go:158-293 | executing one call of a half keeps its record, its state and its count of applied commits in step, and no commit meets a missing record |
| TransferRuns.StepIsSound | Assignment2/P3-Strife/bank/bank_server.go:158-315 | a step at one bank about one transfer disturbs no other transfer |
| TransferRuns.NextKeeps | Assignment2/P3-Strife/gateway/payment/processor.go:307-576 | every step of every interleaving keeps the invariant of all transfers in flight |
| TransferRuns.NextKeepsLedger | Assignment2/P3-Strife/gateway/payment/processor.go:307-576 | every step keeps the ledger of bank money, plain payments and applied halves |
| TransferRuns.TransfersConserveMoney | Assignment2/P3-Strife/gateway/payment/processor.go:307-576 | over every run, with late, lost and repeated deliveries and deadlines, the banks hold what they held at first, less the accepted plain payments, plus the applied credits, minus the applied debits; each half is applied at most once, both if the transfer is reported successful and none if it failed before its commit; no handler fails |
| TransferRuns.SettledRunsBalance | Assignment2/P3-Strife/gateway/payment/processor.go:307-538 | money is neither made nor lost while no transfer stands in, or after a failed, commit phase with one half applied and not the other |
| Gateway.BalanceStorage.UpdateBalance | Assignment2/P3-Strife/gateway/storage/balances.go:90-105 | overwrites the balance of a known client and otherwise fails and changes nothing |
| Gateway.TransactionManager.Store | Assignment2/P3-Strife/gateway/payment/transaction.go:125-140 | the record replaces any other with its identifier and no other changes |
| Gateway.TransactionManager.CleanupTransaction | Assignment2/P3-Strife/gateway/payment/transaction.go:159-164 | the record is gone and all others stay |
| Gateway.TransactionManager.CleanupExpiredTransactions | Assignment2/P3-Strife/gateway/payment/transaction.go:179-223 | exactly the expired records go and the others stay as they were, the marking of expired ones as aborted leaving no trace |
| Gateway.Service.Call | Assignment2/P3-Strife/gateway/banking/client.go:255-331 | a call is executed and answered, executed without its answer, or not executed, and changes only the bank it goes to |
| Gateway.Service.AbortTransaction | Assignment2/P3-Strife/gateway/payment/processor.go:541-576 | the bank of each client that is known and reached, unless the call is lost, has its record of the transfer aborted, if it has one; no other record of any bank changes; the gateway's record ends aborted |
| Gateway.Service.PreparePhase | Assignment2/P3-Strife/gateway/payment/processor.go:324-425 | both banks are asked; it succeeds exactly if both can be reached, both accept and no deadline strikes, and otherwise aborts |
| Gateway.Service.CommitPhase | Assignment2/P3-Strife/gateway/payment/processor.go:428-538 | both banks are told; an unreachable bank or a deadline aborts, an error leaves everything as it is, and success updates the balances |
| Gateway.Service.UpdateTwoPhaseBalances | Assignment2/P3-Strife/gateway/payment/processor.go:579-627 | the sender is debited if known, and then the receiver is credited if known |
| Gateway.Service.RunTwoPhaseCommit | Assignment2/P3-Strife/gateway/payment/processor.go:307-321 | the commit phase follows only a successful prepare phase |
| Gateway.Service.ProcessTwoPhasePayment | Assignment2/P3-Strife/gateway/payment/processor.go:246-304 | refuses what is in progress; otherwise runs both phases and keeps a record of success only |
| Gateway.Service.ProcessSimplePayment | Assignment2/P3-Strife/gateway/payment/processor.go:163-243 | succeeds if and only if the client's bank is known and reached, knows the account, finds a positive amount on its owner's balance, and its reply arrives; debits at the bank, then in the table, and records |
| Gateway.Service.ProcessPayment | Assignment2/P3-Strife/gateway/payment/processor.go:78-160 | answers from a finished record, else checks user and balance, else pays in the configured way; the whole new state of gateway and banks |
| Gateway.Service.Serve | Assignment2/P3-Strife/gateway/payment/processor.go:78-604 | the service itself, over any run: what each answer means for plain payments and for transfers, conservation of money, the attempts for one transfer apply its halves exactly as answered if and only if none does harm, without two-phase payments a bank pays exactly as answered if and only if no reply is lost, and the table stays the banks' while the run is tame |
| PaymentAborts.AbortExactly | Assignment2/P3-Strife/gateway/payment/processor.go:541-576 | what an abort does to every record of every bank |
| PaymentAborts.AbortedRecord | Assignment2/P3-Strife/gateway/payment/processor.go:571-573 | the gateway's own record of an aborted transfer ends aborted |
| PaymentAborts.PreparedAfterFailure | Assignment2/P3-Strife/gateway/payment/processor.go:324-425 | after a prepare phase that fails a bank has the transfer prepared exactly if it agreed, now or before, and no abort came to it |
| PaymentAborts.PreparedAfterCommit | Assignment2/P3-Strife/gateway/payment/processor.go:428-522 | after a commit phase a bank still has it prepared exactly if it had and neither the commit nor an abort came to it; aborts are sent when a bank cannot be reached or at a deadline, not on an error |
| PaymentAborts.LeftPreparedExactly | Assignment2/P3-Strife/gateway/payment/processor.go:246-576 | exactly when a transfer between two known banks, whatever happens to its calls, leaves one of them with it prepared |
| PaymentSteps.AbortIsQuiet | Assignment2/P3-Strife/gateway/payment/processor.go:541-576 | aborting moves no money and touches no other record |
| PaymentSteps.PrepareIsQuiet | Assignment2/P3-Strife/gateway/payment/processor.go:324-425 | neither does preparing, whatever happens to it |
| PaymentSteps.PreparedIsReady | Assignment2/P3-Strife/gateway/payment/processor.go:324-425 | between two different banks the prepare phase succeeds if and only if both are reached and answer, both know their client, the sender has the money and no deadline strikes; then both are ready to commit |
| PaymentSteps.CommitMoves | Assignment2/P3-Strife/gateway/payment/processor.go:428-538 | for every fate of its calls: a commit phase between two banks applies exactly the halves whose commits arrive and find the transfer prepared, and reports success, updating the gateway's balances, only if both do and nothing goes wrong |
| PaymentSteps.PreparedAfterLates | Assignment2/P3-Strife/bank/bank_server.go:158-315 | late prepares and aborts leave a prepared transfer prepared if and only if the last of them about it that is not refused is no abort |
| PaymentSteps.SendsCommute | Assignment2/P3-Strife/gateway/payment/processor.go:350-388 | the order in which the concurrent calls reach two different banks makes no difference |
| PaymentSteps.TwoPhaseMoves | Assignment2/P3-Strife/gateway/payment/processor.go:246-304 | for every fate of its calls and everything late between its phases: which halves an inter-bank payment applies, what it reports, what becomes of every balance, and that a record is left exactly on success |
| PaymentSteps.AtomicExactly | Assignment2/P3-Strife/gateway/payment/processor.go:246-304 | an inter-bank payment is all or nothing and says which, if and only if, once its commits are sent, both arrive and nothing goes wrong, or neither arrives |
| PaymentSteps.WholeExactly | Assignment2/P3-Strife/gateway/payment/processor.go:246-538 | when no abort of it is late, that is: it never comes to commit, or a bank cannot be reached for the commit, or the commit phase meets no trouble, or both commits are lost |
| PaymentAnswers.PlainExactly | Assignment2/P3-Strife/gateway/payment/processor.go:78-243 | everything a plain payment does: the record's answer, or success with the amount taken from the table and the owner's balance and a record left, or only the bank's debit when the reply is lost, or nothing |
| PaymentAnswers.NotRun | Assignment2/P3-Strife/gateway/payment/processor.go:105-155 | a transfer answered from a record or not admitted is not run and changes nothing |
| PaymentAnswers.RunningIsRefused | Assignment2/P3-Strife/gateway/payment/processor.go:255-267 | a transfer whose record says it is preparing or committing is refused and changes nothing |
| PaymentAnswers.SucceedsExactly | Assignment2/P3-Strife/gateway/payment/processor.go:78-304 | when a payment of either kind is answered with success |
| PaymentAnswers.NoAccountIsRefused | Assignment2/P3-Strife/bank/bank_server.go:162-220 | a transfer from or to someone without an account at their bank is refused and moves nothing |
| PaymentAnswers.CleanUpExactly | Assignment2/P3-Strife/gateway/payment/transaction.go:179-223 | a clean-up keeps exactly the records not older than the limit and touches nothing else |
| PaymentAnswers.RetryAfterCleanUp | Assignment2/P3-Strife/gateway/payment/transaction.go:179-223 | once the record of a transfer is cleaned up, a retry without trouble moves the amount again |
| PaymentAnswers.PaidOnceExactly | Assignment2/P3-Strife/gateway/payment/processor.go:129-133 | without two-phase payments, over every run, the bank pays for all attempts for one identifier once if one reports success and never otherwise, if and only if no reply to an accepted payment is lost |
| PaymentRuns.PaymentKeepsOthers | Assignment2/P3-Strife/gateway/payment/processor.go:78-304 | a payment, whatever happens to it, touches no record but its own |
| PaymentRuns.AttemptExactly | Assignment2/P3-Strife/gateway/payment/processor.go:105-160 | an attempt applies no half beyond what it reports if and only if it does no harm, harm being to pass the checks and not be left whole by the commit phase |
| PaymentRuns.AppliedOnceExactly | Assignment2/P3-Strife/gateway/payment/processor.go:105-303 | over every run of payments, prepares and aborts late at any moment, and clean-ups, with any fate of any call, all attempts for one transfer move its amount once if one of them reports success and not at all otherwise, if and only if none of them does harm |
| PaymentRuns.ExactlyOnce | Assignment2/P3-Strife/gateway/payment/processor.go:105-303 | so they do if every commit phase is safe; and after a reported success every attempt with the identifier only repeats that answer and touches nothing |
| PaymentRuns.RetryAfterHarm | Assignment2/P3-Strife/gateway/payment/processor.go:506-522 | every harmful attempt, be it one half applied, both with a reply or both replies lost, or a deadline, is reported as failed, and a retry without trouble applies both halves on top of what it applied |
| PaymentRuns.LateAbortSplits | Assignment2/P3-Strife/gateway/payment/processor.go:541-576 | an abort of an earlier attempt that reaches the sender's bank between the two phases of a later one makes its commit apply the credit alone |
| PaymentRefinement.CallIsARun | Assignment2/P3-Strife/gateway/payment/processor.go:350-384 | a call of the coordinator and its answer are steps of the interleaved machine, with the same bank and the same answer |
| PaymentRefinement.PaymentIsARun | Assignment2/P3-Strife/gateway/payment/processor.go:78-304 | a payment with a new identifier, whatever happens to its calls, is a run of the machine that ends with the same banks, applied halves and answer |
| PaymentRefinement.ServiceRunsTheMachine | Assignment2/P3-Strife/gateway/payment/processor.go:78-304 | from every sound state of the machine, a run of payments with identifiers new to it is a run of the machine that ends with the same banks and agrees with every answer |
| PaymentConservation.ServiceConservesMoney | Assignment2/P3-Strife/gateway/payment/processor.go:78-576 | over every run of the service, from any state and whatever happens to its calls, the banks hold what they held at first plus the applied credits minus the applied debits and the plain payments |
| PaymentConservation.TransferIsEvenExactly | Assignment2/P3-Strife/gateway/payment/processor.go:428-538 | a transfer between two banks makes or loses money if and only if one bank alone applies its half |
| PaymentConservation.EvenTransfersBalance | Assignment2/P3-Strife/gateway/payment/processor.go:246-538 | over every run of transfers whose commits both arrive or both do not, retries and late requests included, money is neither made nor lost |
| PaymentRuns.TransferKeepsMirror | Assignment2/P3-Strife/gateway/payment/processor.go:529-604 | a transfer keeps the gateway's balances equal to the banks' and not negative |
| PaymentRuns.SimpleKeepsMirror | Assignment2/P3-Strife/gateway/payment/processor.go:213-217 | so does a plain payment whose reply is not lost |
| PaymentRuns.TransferKeepsMirrorExactly | Assignment2/P3-Strife/gateway/payment/processor.go:428-604 | a transfer of a positive amount keeps the mirror if and only if its commit phase leaves it whole, or only credits a receiver the gateway has no balance for |
| PaymentRuns.MirrorAgreement | Assignment2/P3-Strife/gateway/payment/processor.go:78-604 | so does every run of payments of non-negative amounts, between banks, safe in their commit phases and without a lost reply to a plain payment, whatever else happens |
| PaymentRuns.LostReplyBreaksMirror | Assignment2/P3-Strife/gateway/payment/processor.go:190-203 | a plain payment whose reply is lost keeps the mirror if and only if the bank cannot have accepted it |

## Left out

- MazeEscape.DistributedBFS: the ranks' arrays are sequences indexed by rank and the ranks take turns between two collectives, which cannot be observed; sizes and levels stay below the largest 32-bit value by assumption, and the work flag is a logical or.
- MazeProgram.Solve: reading and broadcasting the input are not modelled; rooms are assumed to be numbered as the input format says.
- WordSearch.SearchWordInChunk: requires a word of at least one byte, as the assumptions of the assignment do; on an empty word the loop of the source does not end.
- FileStore.Store.Search: a query sees one set of live nodes; replies of workers that think themselves live while the master takes them for down are not modelled.
- FileStore.Store.Retrieve: the node status is a function of chunk and node, so it may change between any two questions but not because of the retrieval itself.
- FileStore.Store.Upload: the file behind a path is a parameter; listing a file's replicas is left out.
- BallProgram.Simulate: cells are unbounded integers; for balls outside the grid, which the input format excludes, the remainder of a negative number would differ from the source's, and the lemmas on reversibility and exclusion assume balls on the grid.
- MapReduce.Disk.Map: files are lists of words, so splitting lines, the scanner's limit on line length and reading back words through a text format are left out; a number of reducers of 0, for which the source divides by zero, is excluded.
- MapReduce.Disk.ReduceWordCount: intermediate files of earlier, larger jobs are excluded; the reducer reads tasks 0, 1, ... up to the first missing file, here the number of tasks.
- MapReduceJob.WordCountJob: the map tasks touch disjoint files, so they are run one after the other; the master that forwards tasks is left out.
- ByzantineRun.RunAndAsk: the client's limit of three traitors and its way of choosing traitors are not needed; delays between phases are not modelled, as each phase waits for its calls.
- Banks.Bank.CommitDebit: transaction records are values in a map, so a record that is replaced by a second prepare while a handler still holds it is not modelled; each handler runs under the bank's lock.
- TransferRuns.TransfersConserveMoney: each identifier is started once and joins two different banks; the model does not say that the two halves of a transfer that fails or times out in its commit phase agree, because in the code they may not, nor that concurrent prepares cannot overdraw an account, because prepare reserves nothing.
- PaymentRuns.AppliedOnceExactly: payments are processed one after the other, and what is late arrives between them or between their two phases, but not between the two calls of one phase; commits do not arrive late. Concurrent requests with the same identifier, transfers within one bank, and plain payments while two-phase payments are switched on are not covered.
- PaymentRefinement.ServiceRunsTheMachine: the machine knows one attempt for each identifier and no request that was never sent, so runs with retries or with late requests are not runs of it; `AppliedOnceExactly` and `ServiceConservesMoney` are proved without it and cover them.
- PaymentRuns.MirrorAgreement: amounts are whole cents; rounding of 32-bit floating-point amounts is not modelled.
- Gateway.Service.ProcessPayment: the user and the transaction identifier are parameters; authentication, missing metadata, messages, currencies and saving the balances to a file are left out.
- Gateway.TransactionManager.CleanupExpiredTransactions: records are values in the map; a transfer that runs for longer than the records' lifetime while the clean-up strikes is not modelled.
- MPI and gRPC transport, TLS, service discovery, threads, sleeps, menus, logging and JSON are left out throughout; a collective is its mathematical meaning and a remote call a step that may be late or lost.
- The load balancer of the other assignment part and the payment client's offline queue, request counter and notifications are left out.
