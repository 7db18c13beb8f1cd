/** What each command and background step may change at the master, and what follows for whole histories. */
module StoreHistory {
  import opened Basics
  import opened Collections

  const SECOND: int := 1_000_000_000 // in clock ticks

  /** File name to the nodes of each chunk. */
  type Metadata = map<string, seq<seq<int>>>

  /** A command of the user, or a step of one of the master's background threads. */
  datatype Event =
    | UploadFile(fileName: string, filePath: string, content: Option<string>)
    | Failover(rank: int)
    | Recover(rank: int)
    | Heartbeat(sender: int, heartbeat: int, at: int)
    | MonitorTick(at: int)

  /** The files and the nodes as the master knows them. */
  datatype Snapshot = Snapshot(files: map<string, string>, metadata: Metadata,
                               status: map<int, bool>, failedOver: map<int, bool>, heard: map<int, int>)

  function Flag(flags: map<int, bool>, n: int): bool {
    n in flags && flags[n]
  }

  function LiveNodes(size: nat, status: map<int, bool>): set<int> {
    set n | 1 <= n < size && Flag(status, n)
  }

  function LastHeard(heard: map<int, int>, n: int): int {
    if n in heard then heard[n] else 0
  }

  predicate EndsWith(path: string, name: string) {
    |name| <= |path| && path[|path|-|name|..] == name
  }

  /** The upload is of a new, non-empty file, under a path that ends with its name, while a node is live. */
  predicate CanUpload(size: nat, s: Snapshot, e: Event) {
    && e.UploadFile? && e.fileName != "" && EndsWith(e.filePath, e.fileName) && e.fileName !in s.files
    && e.content.Some? && e.content.value != "" && LiveNodes(size, s.status) != {}
  }

  function Replicas(live: set<int>): nat {
    if |live| < 3 then |live| else 3
  }

  /** Each of the chunks has as many replicas as there are live nodes, up to three, all live and all different. */
  ghost predicate Replicated(live: set<int>, content: string, locs: seq<seq<int>>) {
    && |locs| == (|content| + 31) / 32
    && forall k :: 0 <= k < |locs| ==>
         |locs[k]| == Replicas(live) && Distinct(locs[k]) && forall n :: n in locs[k] ==> n in live
  }

  /** Everything an event changes. */
  ghost predicate Effect(size: nat, s: Snapshot, e: Event, s': Snapshot) {
    match e
    case UploadFile(f, _, content) =>
      if CanUpload(size, s, e) then
        && s' == s.(files := s.files[f := content.value], metadata := s'.metadata)
        && f in s'.metadata && s'.metadata == s.metadata[f := s'.metadata[f]]
        && Replicated(LiveNodes(size, s.status), content.value, s'.metadata[f])
      else s' == s
    case Failover(n) =>
      s' == if n != 0 && n < size && Flag(s.status, n) then s.(failedOver := s.failedOver[n := true]) else s
    case Recover(n) =>
      s' == if n != 0 && n < size && (!Flag(s.status, n) || Flag(s.failedOver, n))
            then s.(failedOver := s.failedOver[n := false]) else s
    case Heartbeat(n, beat, at) =>
      s' == if Flag(s.failedOver, n) then s
            else s.(status := s.status[n := beat == 1], heard := s.heard[n := at])
    case MonitorTick(at) =>
      && s' == s.(status := s'.status)
      && forall n :: Flag(s'.status, n) <==>
           Flag(s.status, n) && !(1 <= n < size && at - LastHeard(s.heard, n) >= 2 * SECOND)
  }

  /** The master's state before and after every event. */
  ghost predicate History(size: nat, trace: seq<Snapshot>, events: seq<Event>) {
    && |trace| == |events| + 1
    && forall i :: 0 <= i < |events| ==> Effect(size, trace[i], events[i], trace[i+1])
  }

  /** Event `i` is an accepted upload of `f`. */
  ghost predicate UploadedAt(size: nat, trace: seq<Snapshot>, events: seq<Event>, i: nat, f: string) {
    i < |events| && i < |trace| && CanUpload(size, trace[i], events[i]) && events[i].fileName == f
  }

  // ---------- Files ----------

  lemma FilesKept(size: nat, s: Snapshot, e: Event, s': Snapshot, f: string)
    requires Effect(size, s, e, s') && f in s.files && f in s.metadata
    ensures f in s'.files && s'.files[f] == s.files[f] && f in s'.metadata && s'.metadata[f] == s.metadata[f]
  {
  }

  /** Nothing that happens removes or changes a file or where it is. */
  lemma {:induction false} FilesStay(size: nat, trace: seq<Snapshot>, events: seq<Event>, i: nat, j: nat, f: string)
    requires History(size, trace, events) && i <= j < |trace| && f in trace[i].files && f in trace[i].metadata
    ensures f in trace[j].files && trace[j].files[f] == trace[i].files[f]
    ensures f in trace[j].metadata && trace[j].metadata[f] == trace[i].metadata[f]
  {
    hide Effect;
    if i < j {
      FilesStay(size, trace, events, i, j - 1, f);
      assert Effect(size, trace[j-1], events[j-1], trace[j-1+1]);
      FilesKept(size, trace[j-1], events[j-1], trace[j], f);
    }
  }

  /** Some accepted upload among the first `j` events was of `f` with this content. */
  ghost predicate WasUploaded(size: nat, trace: seq<Snapshot>, events: seq<Event>, j: nat, f: string, content: string)
    requires History(size, trace, events) && j < |trace|
  {
    exists i :: 0 <= i < j && UploadOf(events[i], f, content) && CanUpload(size, trace[i], events[i])
  }

  predicate UploadOf(e: Event, f: string, content: string) {
    e.UploadFile? && e.fileName == f && e.content == Some(content)
  }

  lemma FilesAfter(size: nat, s: Snapshot, e: Event, s': Snapshot, f: string, content: string)
    requires Effect(size, s, e, s')
    ensures Find(s'.files, f) == Some(content) <==>
      Find(s.files, f) == Some(content) || (UploadOf(e, f, content) && CanUpload(size, s, e))
  {
  }

  /** The files are exactly those there were and those uploaded since, with their contents. */
  lemma {:induction false} FilesExactly(size: nat, trace: seq<Snapshot>, events: seq<Event>, j: nat, f: string,
                                        content: string)
    requires History(size, trace, events) && j < |trace|
    ensures Find(trace[j].files, f) == Some(content) <==>
      Find(trace[0].files, f) == Some(content) || WasUploaded(size, trace, events, j, f, content)
  {
    hide Effect, CanUpload, UploadOf, Find;
    if j > 0 {
      FilesExactly(size, trace, events, j - 1, f, content);
      assert Effect(size, trace[j-1], events[j-1], trace[j-1+1]);
      FilesAfter(size, trace[j-1], events[j-1], trace[j], f, content);
    }
  }

  /** An accepted upload is there, with its replicas, in every later state. */
  lemma UploadStays(size: nat, trace: seq<Snapshot>, events: seq<Event>, i: nat, j: nat)
    requires History(size, trace, events) && i < j < |trace| && CanUpload(size, trace[i], events[i])
    ensures var f, content := events[i].fileName, events[i].content.value;
      && f in trace[j].files && trace[j].files[f] == content && f in trace[j].metadata
      && Replicated(LiveNodes(size, trace[i].status), content, trace[j].metadata[f])
  {
    assert Effect(size, trace[i], events[i], trace[i+1]);
    FilesStay(size, trace, events, i + 1, j, events[i].fileName);
  }

  // ---------- Nodes ----------

  /** Once a node is marked as failed, and until it is recovered, it stays marked, its heartbeats count for nothing,
      and if it is down it stays down. */
  lemma {:induction false} MarkedStays(size: nat, trace: seq<Snapshot>, events: seq<Event>, i: nat, j: nat, n: int)
    requires History(size, trace, events) && i <= j < |trace| && Flag(trace[i].failedOver, n)
    requires forall k :: i <= k < j ==> events[k] != Recover(n)
    ensures Flag(trace[j].failedOver, n) && LastHeard(trace[j].heard, n) == LastHeard(trace[i].heard, n)
    ensures Flag(trace[j].status, n) ==> Flag(trace[i].status, n)
  {
    if i < j {
      MarkedStays(size, trace, events, i, j - 1, n);
      assert Effect(size, trace[j-1], events[j-1], trace[j-1+1]);
    }
  }

  /** A worker that is failed over goes down with the first tick two seconds after it was last heard of, whatever it
      sends meanwhile, and stays down until it is recovered. */
  lemma FailedOverGoesDown(size: nat, trace: seq<Snapshot>, events: seq<Event>, i: nat, tick: nat, j: nat, n: int)
    requires History(size, trace, events) && i < tick < j < |trace| && 1 <= n < size
    requires events[i] == Failover(n) && Flag(trace[i].status, n)
    requires forall k :: i < k < j ==> events[k] != Recover(n)
    requires events[tick].MonitorTick? && events[tick].at - LastHeard(trace[i].heard, n) >= 2 * SECOND
    ensures !Flag(trace[j].status, n)
  {
    assert Effect(size, trace[i], events[i], trace[i+1]);
    MarkedStays(size, trace, events, i + 1, tick, n);
    assert Effect(size, trace[tick], events[tick], trace[tick+1]);
    MarkedStays(size, trace, events, tick + 1, j, n);
  }

  /** A worker that has said it is well stays up as long as it is not failed over, says nothing else, and no tick comes
      two seconds later or more. */
  lemma {:induction false} HeardStaysUp(size: nat, trace: seq<Snapshot>, events: seq<Event>, i: nat, j: nat, n: int)
    requires History(size, trace, events) && i < j < |trace|
    requires events[i].Heartbeat? && events[i].sender == n && events[i].heartbeat == 1 && !Flag(trace[i].failedOver, n)
    requires forall k :: i < k < j ==> !(events[k].Heartbeat? && events[k].sender == n) && events[k] != Failover(n)
    requires forall k :: i < k < j && events[k].MonitorTick? ==> events[k].at - events[i].at < 2 * SECOND
    ensures Flag(trace[j].status, n) && LastHeard(trace[j].heard, n) == events[i].at && !Flag(trace[j].failedOver, n)
  {
    assert Effect(size, trace[j-1], events[j-1], trace[j-1+1]);
    if i + 1 < j {
      HeardStaysUp(size, trace, events, i, j - 1, n);
    }
  }
}
