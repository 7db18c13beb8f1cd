/** The client's simulation: it registers the generals, sends the orders, and runs the exchange rounds. The calls
    of one phase are concurrent; every section of every call in flight may come next, so whatever is proved holds
    for all interleavings. */
module ByzantineRun {
  import opened Collections
  import opened Generals
  import opened ByzantineServer
  import opened ByzantineVotes

  /** What arrives: a traitor's client may claim anything, and the server may then still flip it. */
  function VoteOf(order: Decision, traitor: int -> bool, claim: VoteTable, coin: (int, int, int) -> bool): VoteTable {
    (r, s, i) =>
      var value := if traitor(s) && r > 1 then claim(r, s, i) else order;
      if traitor(s) && coin(r, s, i) then Opposite(value) else value
  }

  lemma VotesAreHonest(order: Decision, traitor: int -> bool, claim: VoteTable, coin: (int, int, int) -> bool)
    ensures Honest(order, traitor, VoteOf(order, traitor, claim, coin))
  {
  }

  lemma StoreKeepsRegistered(st: ServerState, n: nat, traitor: int -> bool, receiver: int, round: int, sender: int,
                             value: Decision)
    requires Registered(st, n, traitor)
    ensures Registered(StoreVote(st, receiver, round, sender, value), n, traitor)
    ensures StoreVote(st, receiver, round, sender, value).currentRound == st.currentRound
  {
  }

  lemma RaisingKeepsLogs(st: ServerState, round: int)
    ensures StartRound(st, round).generals == st.generals
    ensures forall i, r, s :: VotesAt(StartRound(st, round), i, r, s) == VotesAt(st, i, r, s)
  {
  }

  // ---------- Registration ----------

  ghost predicate RegisteredSoFar(st: ServerState, n: nat, traitor: int -> bool) {
    && (forall i :: i in st.generals <==> 0 <= i < n)
    && (forall i :: 0 <= i < n ==> st.generals[i] == GeneralState(if i == 0 then COMMANDER else LIEUTENANT, traitor(i), map[]))
    && st.numTraitors == TraitorsBelow(n, traitor) && (n > 0 ==> st.maxRounds == st.numTraitors + 1)
    && st.currentRound == 0
  }

  lemma RegisterOneMore(st: ServerState, n: nat, traitor: int -> bool)
    requires RegisteredSoFar(st, n, traitor)
    ensures RegisteredSoFar(RegisterGeneral(st, n, if n == 0 then COMMANDER else LIEUTENANT, traitor(n)), n + 1, traitor)
  {
  }

  method RegisterNext(server: Server, i: nat, traitor: int -> bool)
    requires server.Valid() && RegisteredSoFar(server.View(), i, traitor)
    modifies server
    ensures server.Valid() && RegisteredSoFar(server.View(), i + 1, traitor)
    ensures forall g :: g in server.generals.Values ==> g in old(server.generals.Values) || fresh(g)
  {
    hide *;
    RegisterOneMore(server.View(), i, traitor);
    var _ := server.Register(i, if i == 0 then COMMANDER else LIEUTENANT, traitor(i));
  }

  method RegisterAll(n: nat, traitor: int -> bool) returns (server: Server)
    requires n >= 1
    ensures fresh(server) && server.Valid() && forall g :: g in server.generals.Values ==> fresh(g)
    ensures RegisteredSoFar(server.View(), n, traitor)
  {
    server := new Server();
    assert RegisteredSoFar(server.View(), 0, traitor);
    hide *;
    for i := 0 to n
      invariant fresh(server) && server.Valid()
      invariant forall g :: g in server.generals.Values ==> fresh(g)
      invariant RegisteredSoFar(server.View(), i, traitor)
    {
      RegisterNext(server, i, traitor);
    }
  }

  // ---------- Calls in flight ----------

  ghost function Below<K>(pc: map<K, int>, stage: int): set<K> {
    set k | k in pc && pc[k] < stage
  }

  /** How many sections the calls of a phase, at most four each, still have to run. */
  ghost function SectionsLeft<K>(pc: map<K, int>): nat {
    |Below(pc, 1)| + |Below(pc, 2)| + |Below(pc, 3)| + |Below(pc, 4)|
  }

  lemma BelowAfter<K>(pc: map<K, int>, k: K, stage: int)
    requires k in pc
    ensures Below(pc[k := pc[k] + 1], stage) == if pc[k] + 1 == stage then Below(pc, stage) - {k} else Below(pc, stage)
    ensures k in Below(pc, stage) <==> pc[k] < stage
  {
  }

  /** `pending` holds the calls that have not run all their `last` sections. */
  ghost predicate PendingIn<K>(pc: map<K, int>, pending: set<K>, last: nat) {
    && (forall k :: k in pending ==> k in pc && pc[k] < last)
    && (forall k :: k in pc ==> 0 <= pc[k] <= last && (pc[k] < last ==> k in pending))
  }

  lemma NonePending<K>(pc: map<K, int>, pending: set<K>, last: nat)
    requires PendingIn(pc, pending, last) && pending == {}
    ensures forall k :: k in pc ==> pc[k] == last
  {
  }

  lemma SectionRun<K>(pc: map<K, int>, pending: set<K>, last: nat, k: K)
    requires PendingIn(pc, pending, last) && last <= 4 && k in pending
    ensures k in pc && 0 <= pc[k] < last
    ensures PendingIn(pc[k := pc[k] + 1], if pc[k] == last - 1 then pending - {k} else pending, last)
    ensures SectionsLeft(pc[k := pc[k] + 1]) < SectionsLeft(pc)
  {
    SectionsOneLess(pc, k);
    hide SectionsLeft;
  }

  lemma SectionsOneLess<K>(pc: map<K, int>, k: K)
    requires k in pc && 0 <= pc[k] < 4
    ensures SectionsLeft(pc[k := pc[k] + 1]) < SectionsLeft(pc)
  {
    hide Below;
    BelowAfter(pc, k, 1);
    BelowAfter(pc, k, 2);
    BelowAfter(pc, k, 3);
    BelowAfter(pc, k, 4);
  }

  // ---------- Phase 1: the orders ----------

  /** How far the call to each lieutenant has come: 0 not started, 1 both generals are looked up, 2 the commander has
      recorded its order, 3 the order is delivered, 4 done. */
  type OrderStages = map<int, int>

  ghost predicate StagesOf(pc: OrderStages, n: nat) {
    forall v :: (v in pc <==> 1 <= v < n) && (v in pc ==> 0 <= pc[v] <= 4)
  }

  /** How many calls have reached `stage`, to lieutenants below `k`. */
  ghost function Reached(pc: OrderStages, k: nat, stage: int): nat {
    if k == 0 then 0 else Reached(pc, k - 1, stage) + if k - 1 in pc && pc[k-1] >= stage then 1 else 0
  }

  lemma {:induction false} ReachedOneMore(pc: OrderStages, k: nat, stage: int, v: int)
    requires v in pc && 0 <= v
    ensures Reached(pc[v := pc[v] + 1], k, stage) == Reached(pc, k, stage) + if v < k && pc[v] + 1 == stage then 1 else 0
  {
    if k > 0 { ReachedOneMore(pc, k - 1, stage, v); }
  }

  lemma {:induction false} ReachedAtMost(pc: OrderStages, n: nat, k: nat, stage: int)
    requires StagesOf(pc, n) && 1 <= k <= n
    ensures Reached(pc, k, stage) <= k - 1
    ensures (forall v :: 1 <= v < k ==> pc[v] >= stage) ==> Reached(pc, k, stage) == k - 1
    ensures (forall v :: 1 <= v < k ==> pc[v] < stage) ==> Reached(pc, k, stage) == 0
  {
    if k > 1 { ReachedAtMost(pc, n, k - 1, stage); } else { assert Reached(pc, 0, stage) == 0; }
  }

  ghost predicate OrderLogs(st: ServerState, n: nat, order: Decision, vote: VoteTable, pc: OrderStages) {
    forall i, r, s :: VotesAt(st, i, r, s) ==
      if r == 1 && s == 0 && i == 0 then seq(Reached(pc, n, 2), _ => order)
      else if r == 1 && s == 0 && i in pc && pc[i] >= 3 then [vote(1, 0, i)]
      else []
  }

  /** Phase 1 in progress. */
  ghost predicate OrderState(st: ServerState, n: nat, order: Decision, traitor: int -> bool, vote: VoteTable,
                             pc: OrderStages) {
    && StagesOf(pc, n) && Registered(st, n, traitor) && 0 <= st.currentRound <= 1
    && OrderLogs(st, n, order, vote, pc)
  }

  lemma AfterStore(st: ServerState, receiver: int, round: int, sender: int, value: Decision)
    requires receiver in st.generals
    ensures forall i, r, s :: VotesAt(StoreVote(st, receiver, round, sender, value), i, r, s) ==
              (if i == receiver && r == round && s == sender then VotesAt(st, i, r, s) + [value] else VotesAt(st, i, r, s))
  {
    forall i, r, s ensures VotesAt(StoreVote(st, receiver, round, sender, value), i, r, s) ==
      if i == receiver && r == round && s == sender then VotesAt(st, i, r, s) + [value] else VotesAt(st, i, r, s)
    {
      StoreVoteAdds(st, receiver, round, sender, value, i, r, s);
      assert VotesAt(st, i, r, s) + [] == VotesAt(st, i, r, s);
    }
  }

  lemma OrderAccepted(st: ServerState, n: nat, order: Decision, traitor: int -> bool, vote: VoteTable, pc: OrderStages,
                      v: int)
    requires n >= 1 && OrderState(st, n, order, traitor, vote, pc) && v in pc && pc[v] == 0
    ensures 0 in st.generals && v in st.generals && st.generals[0].role == COMMANDER
    ensures OrderState(st, n, order, traitor, vote, pc[v := 1])
  {
    ReachedOneMore(pc, n, 2, v);
    hide VotesAt, Reached;
  }

  lemma OrderRecorded(st: ServerState, n: nat, order: Decision, traitor: int -> bool, vote: VoteTable, pc: OrderStages,
                      v: int)
    requires n >= 1 && OrderState(st, n, order, traitor, vote, pc) && v in pc && pc[v] == 1
    ensures 0 in st.generals
    ensures OrderState(StoreVote(st, 0, 1, 0, order), n, order, traitor, vote, pc[v := 2])
  {
    ReachedOneMore(pc, n, 2, v);
    var k := Reached(pc, n, 2);
    assert seq(k, _ => order) + [order] == seq(k + 1, _ => order);
    AfterStore(st, 0, 1, 0, order);
    StoreKeepsRegistered(st, n, traitor, 0, 1, 0, order);
    hide VotesAt, Reached, Registered;
  }

  lemma OrderDelivered(st: ServerState, n: nat, order: Decision, traitor: int -> bool, vote: VoteTable, pc: OrderStages,
                       v: int)
    requires n >= 1 && OrderState(st, n, order, traitor, vote, pc) && v in pc && pc[v] == 2
    ensures 0 in st.generals && v in st.generals && st.generals[0].isTraitor == traitor(0)
    ensures OrderState(StoreVote(st, v, 1, 0, vote(1, 0, v)), n, order, traitor, vote, pc[v := 3])
  {
    ReachedOneMore(pc, n, 2, v);
    AfterStore(st, v, 1, 0, vote(1, 0, v));
    StoreKeepsRegistered(st, n, traitor, v, 1, 0, vote(1, 0, v));
    assert st.generals[0].isTraitor == traitor(0);
    hide VotesAt, Reached, Registered;
    assert [] + [vote(1, 0, v)] == [vote(1, 0, v)];
  }

  lemma OrderDone(st: ServerState, n: nat, order: Decision, traitor: int -> bool, vote: VoteTable, pc: OrderStages, v: int)
    requires n >= 1 && OrderState(st, n, order, traitor, vote, pc) && v in pc && pc[v] == 3
    ensures
      OrderState(if st.currentRound == 0 then st.(currentRound := 1) else st, n, order, traitor, vote, pc[v := 4])
  {
    ReachedOneMore(pc, n, 2, v);
    RaisingKeepsLogs(st, 1);
    hide VotesAt, Reached;
  }

  method RecordOrder(server: Server, ghost n: nat, order: Decision, ghost traitor: int -> bool, ghost vote: VoteTable,
                     ghost pc: OrderStages, ghost v: int)
    requires n >= 1 && server.Valid() && OrderState(server.View(), n, order, traitor, vote, pc) && v in pc && pc[v] == 1
    modifies server.generals.Values
    ensures server.Valid() && OrderState(server.View(), n, order, traitor, vote, pc[v := 2])
  {
    hide *;
    OrderRecorded(server.View(), n, order, traitor, vote, pc, v);
    server.RecordOrder(0, order);
  }

  method DeliverOrder(server: Server, ghost n: nat, order: Decision, ghost traitor: int -> bool,
                      coin: (int, int, int) -> bool, ghost vote: VoteTable, ghost pc: OrderStages, v: int)
    requires n >= 1 && server.Valid() && OrderState(server.View(), n, order, traitor, vote, pc) && v in pc && pc[v] == 2
    requires vote(1, 0, v) == if traitor(0) && coin(1, 0, v) then Opposite(order) else order
    modifies server.generals.Values
    ensures server.Valid() && OrderState(server.View(), n, order, traitor, vote, pc[v := 3])
  {
    hide *;
    OrderDelivered(server.View(), n, order, traitor, vote, pc, v);
    server.DeliverOrder(0, v, order, coin(1, 0, v));
  }

  method OpenRoundOne(server: Server, ghost n: nat, ghost order: Decision, ghost traitor: int -> bool,
                      ghost vote: VoteTable, ghost pc: OrderStages, ghost v: int)
    requires n >= 1 && server.Valid() && OrderState(server.View(), n, order, traitor, vote, pc) && v in pc && pc[v] == 3
    modifies server`currentRound
    ensures server.Valid() && OrderState(server.View(), n, order, traitor, vote, pc[v := 4])
  {
    hide *;
    OrderDone(server.View(), n, order, traitor, vote, pc, v);
    server.OpenRoundOne();
  }

  /** The next section of the call to lieutenant `v`: the look-up, the commander's copy, the delivery, or the round
      counter. */
  method OrderStep(server: Server, ghost n: nat, order: Decision, ghost traitor: int -> bool,
                   coin: (int, int, int) -> bool, ghost vote: VoteTable, pc: OrderStages, v: int)
    returns (rejected: bool)
    requires n >= 1 && server.Valid() && OrderState(server.View(), n, order, traitor, vote, pc)
    requires v in pc && 0 <= pc[v] < 4
    requires vote(1, 0, v) == if traitor(0) && coin(1, 0, v) then Opposite(order) else order
    modifies server`currentRound, server.generals.Values
    ensures server.Valid() && !rejected && OrderState(server.View(), n, order, traitor, vote, pc[v := pc[v] + 1])
  {
    hide *;
    rejected := false;
    if pc[v] == 0 {
      OrderAccepted(server.View(), n, order, traitor, vote, pc, v);
      var accepted := server.AcceptOrder(0, v);
      rejected := !accepted;
    } else if pc[v] == 1 {
      RecordOrder(server, n, order, traitor, vote, pc, v);
    } else if pc[v] == 2 {
      DeliverOrder(server, n, order, traitor, coin, vote, pc, v);
    } else {
      OpenRoundOne(server, n, order, traitor, vote, pc, v);
    }
  }

  lemma NothingSent(st: ServerState, n: nat, order: Decision, traitor: int -> bool, vote: VoteTable, pc: OrderStages)
    requires n >= 1 && RegisteredSoFar(st, n, traitor) && StagesOf(pc, n) && forall v :: v in pc ==> pc[v] == 0
    ensures OrderState(st, n, order, traitor, vote, pc)
  {
    ReachedAtMost(pc, n, n, 2);
    assert seq(0, _ => order) == [];
    assert forall i, r, s :: VotesAt(st, i, r, s) == [];
  }

  lemma OrdersAreAPhase(st: ServerState, n: nat, order: Decision, traitor: int -> bool, vote: VoteTable, pc: OrderStages)
    requires n >= 1 && OrderState(st, n, order, traitor, vote, pc) && forall v :: v in pc ==> pc[v] == 4
    ensures Registered(st, n, traitor) && LogsAfter(st, n, 1, order, vote) && 0 <= st.currentRound <= 1
  {
    ReachedAtMost(pc, n, n, 2);
  }

  method AllLieutenants(n: nat) returns (pc: OrderStages, pending: set<int>)
    requires n >= 1
    ensures StagesOf(pc, n) && PendingIn(pc, pending, 4) && forall v :: v in pc ==> pc[v] == 0
  {
    pc, pending := map[], {};
    for v := 1 to n
      invariant PendingIn(pc, pending, 4)
      invariant forall u :: (u in pc <==> 1 <= u < v) && (u in pc ==> pc[u] == 0)
    {
      pc, pending := pc[v := 0], pending + {v};
    }
  }

  /** Runs the commander's calls in flight to their end, in any order. */
  method FinishOrders(server: Server, n: nat, order: Decision, ghost traitor: int -> bool, coin: (int, int, int) -> bool,
                      ghost vote: VoteTable, pc0: OrderStages, pending0: set<int>)
    returns (ghost pc: OrderStages, rejected: bool)
    requires n >= 1 && server.Valid() && PendingIn(pc0, pending0, 4)
    requires OrderState(server.View(), n, order, traitor, vote, pc0)
    requires forall v :: vote(1, 0, v) == if traitor(0) && coin(1, 0, v) then Opposite(order) else order
    modifies server`currentRound, server.generals.Values
    ensures server.Valid() && !rejected && PendingIn(pc, {}, 4)
    ensures OrderState(server.View(), n, order, traitor, vote, pc)
  {
    hide *;
    var stages, pending := pc0, pending0;
    rejected := false;
    while pending != {}
      invariant PendingIn(stages, pending, 4)
      invariant server.Valid() && !rejected && OrderState(server.View(), n, order, traitor, vote, stages)
      decreases SectionsLeft(stages)
    {
      var v := PickAny(pending);
      SectionRun(stages, pending, 4, v);
      var refused := OrderStep(server, n, order, traitor, coin, vote, stages, v);
      rejected := rejected || refused;
      if stages[v] == 3 { pending := pending - {v}; }
      stages := stages[v := stages[v] + 1];
    }
    pc := stages;
  }

  /** The commander's concurrent calls to all lieutenants. None is rejected. */
  method OrderPhase(server: Server, n: nat, order: Decision, ghost traitor: int -> bool, coin: (int, int, int) -> bool,
                    ghost vote: VoteTable) returns (rejected: bool)
    requires n >= 1 && server.Valid() && RegisteredSoFar(server.View(), n, traitor)
    requires forall v :: vote(1, 0, v) == if traitor(0) && coin(1, 0, v) then Opposite(order) else order
    modifies server`currentRound, server.generals.Values
    ensures server.Valid() && !rejected
    ensures Registered(server.View(), n, traitor) && LogsAfter(server.View(), n, 1, order, vote)
    ensures 0 <= server.View().currentRound <= 1
  {
    hide *;
    var pc, pending := AllLieutenants(n);
    NothingSent(server.View(), n, order, traitor, vote, pc);
    ghost var last;
    last, rejected := FinishOrders(server, n, order, traitor, coin, vote, pc, pending);
    NonePending(last, {}, 4);
    OrdersAreAPhase(server.View(), n, order, traitor, vote, last);
  }

  // ---------- Phases 2 to t+1: the exchange rounds ----------

  /** How far each (sender, receiver) call has come: 0 not started, 1 it has looked up the generals and the current
      round, 2 it has raised the round and checked its path, 3 its vote is stored. */
  type ExchangeStages = map<(int, int), int>

  ghost predicate IsPair(n: nat, p: (int, int)) {
    0 <= p.0 < n && 0 <= p.1 < n && p.0 != p.1
  }

  ghost predicate ExchangeStagesOf(pc: ExchangeStages, n: nat) {
    forall p :: (p in pc <==> IsPair(n, p)) && (p in pc ==> 0 <= pc[p] <= 3)
  }

  ghost predicate ExchangeLogs(st: ServerState, n: nat, round: nat, order: Decision, vote: VoteTable, pc: ExchangeStages)
    requires round >= 1
  {
    forall i, r, s :: VotesAt(st, i, r, s) ==
      if r != round then Expected(n, round - 1, order, vote, i, r, s)
      else if (s, i) in pc && pc[(s, i)] == 3 then [vote(r, s, i)]
      else []
  }

  /** Round `round` in progress; `seen` is the current round each call has read. */
  ghost predicate ExchangeState(st: ServerState, n: nat, round: nat, order: Decision, traitor: int -> bool,
                                vote: VoteTable, pc: ExchangeStages, seen: map<(int, int), int>) {
    && round >= 2 && ExchangeStagesOf(pc, n) && Registered(st, n, traitor) && ExchangeLogs(st, n, round, order, vote, pc)
    && 0 <= st.currentRound <= round
    && (forall p :: p in pc && pc[p] >= 1 ==> p in seen && seen[p] <= st.currentRound)
    && forall p :: p in pc && pc[p] >= 2 ==> st.currentRound == round
  }

  lemma VoteStored(st: ServerState, n: nat, round: nat, order: Decision, traitor: int -> bool, vote: VoteTable,
                   pc: ExchangeStages, seen: map<(int, int), int>, s: int, i: int)
    requires ExchangeState(st, n, round, order, traitor, vote, pc, seen)
    requires (s, i) in pc && pc[(s, i)] == 2
    ensures ExchangeState(StoreVote(st, i, round, s, vote(round, s, i)), n, round, order, traitor, vote, pc[(s, i) := 3], seen)
  {
    assert IsPair(n, (s, i));
    var value := vote(round, s, i);
    AfterStore(st, i, round, s, value);
    StoreKeepsRegistered(st, n, traitor, i, round, s, value);
    assert [] + [value] == [value];
    hide VotesAt, Registered, Expected;
  }

  lemma RoundRaised(st: ServerState, n: nat, round: nat, order: Decision, traitor: int -> bool, vote: VoteTable,
                    pc: ExchangeStages, seen: map<(int, int), int>, p: (int, int))
    requires ExchangeState(st, n, round, order, traitor, vote, pc, seen) && p in pc && pc[p] == 1
    ensures ExchangeState(StartRound(st, round), n, round, order, traitor, vote, pc[p := 2], seen)
  {
    RaisingKeepsLogs(st, round);
    hide VotesAt, Expected;
  }

  lemma RoundRead(st: ServerState, n: nat, round: nat, order: Decision, traitor: int -> bool, vote: VoteTable,
                  pc: ExchangeStages, seen: map<(int, int), int>, p: (int, int))
    requires ExchangeState(st, n, round, order, traitor, vote, pc, seen) && p in pc && pc[p] == 0
    ensures ExchangeState(st, n, round, order, traitor, vote, pc[p := 1], seen[p := st.currentRound])
  {
    hide VotesAt, Expected, Registered;
  }

  /** A call that read `round` as the current round finds it unchanged. */
  lemma ReadStillCurrent(st: ServerState, n: nat, round: nat, order: Decision, traitor: int -> bool, vote: VoteTable,
                         pc: ExchangeStages, seen: map<(int, int), int>, p: (int, int))
    requires ExchangeState(st, n, round, order, traitor, vote, pc, seen) && p in pc && pc[p] == 1
    ensures p in seen && (round <= seen[p] ==> StartRound(st, round) == st)
  {
  }

  lemma GeneralsKnown(st: ServerState, n: nat, round: nat, order: Decision, traitor: int -> bool, vote: VoteTable,
                      pc: ExchangeStages, seen: map<(int, int), int>, s: int, i: int)
    requires ExchangeState(st, n, round, order, traitor, vote, pc, seen) && (s, i) in pc
    ensures s != i && s in st.generals && i in st.generals && st.generals[s].isTraitor == traitor(s)
    ensures round >= 2 && round >= st.currentRound
  {
    assert IsPair(n, (s, i));
  }

  method EnterRound(server: Server, ghost n: nat, round: nat, ghost order: Decision, ghost traitor: int -> bool,
                    ghost vote: VoteTable, ghost pc: ExchangeStages, seen: map<(int, int), int>, s: int, i: int)
    returns (rejected: bool)
    requires server.Valid() && (s, i) in pc && pc[(s, i)] == 1
    requires ExchangeState(server.View(), n, round, order, traitor, vote, pc, seen)
    modifies server`currentRound
    ensures server.Valid() && !rejected
    ensures ExchangeState(server.View(), n, round, order, traitor, vote, pc[(s, i) := 2], seen)
  {
    hide *;
    GeneralsKnown(server.View(), n, round, order, traitor, vote, pc, seen, s, i);
    ReadStillCurrent(server.View(), n, round, order, traitor, vote, pc, seen, (s, i));
    RoundRaised(server.View(), n, round, order, traitor, vote, pc, seen, (s, i));
    var accepted := server.EnterRound(round, seen[(s, i)], i, [s]);
    rejected := !accepted;
  }

  method StoreMessage(server: Server, ghost n: nat, round: nat, order: Decision, traitor: int -> bool, claim: VoteTable,
                      coin: (int, int, int) -> bool, ghost pc: ExchangeStages, ghost seen: map<(int, int), int>,
                      s: int, i: int)
    requires server.Valid() && (s, i) in pc && pc[(s, i)] == 2
    requires ExchangeState(server.View(), n, round, order, traitor, VoteOf(order, traitor, claim, coin), pc, seen)
    modifies server.generals.Values
    ensures server.Valid()
    ensures ExchangeState(server.View(), n, round, order, traitor, VoteOf(order, traitor, claim, coin),
                          pc[(s, i) := 3], seen)
  {
    ghost var vote := VoteOf(order, traitor, claim, coin);
    var value := if traitor(s) then claim(round, s, i) else order;
    GeneralsKnown(server.View(), n, round, order, traitor, vote, pc, seen, s, i);
    assert vote(round, s, i) == if traitor(s) && coin(round, s, i) then Opposite(value) else value;
    hide *;
    VoteStored(server.View(), n, round, order, traitor, vote, pc, seen, s, i);
    server.StoreMessage(round, s, i, value, coin(round, s, i));
  }

  /** The next section of the call `p`: the look-up, the round, or the message. */
  method ExchangeStep(server: Server, ghost n: nat, round: nat, order: Decision, traitor: int -> bool, claim: VoteTable,
                      coin: (int, int, int) -> bool, pc: ExchangeStages, seen0: map<(int, int), int>, p: (int, int))
    returns (seen: map<(int, int), int>, rejected: bool)
    requires server.Valid() && p in pc && 0 <= pc[p] < 3
    requires ExchangeState(server.View(), n, round, order, traitor, VoteOf(order, traitor, claim, coin), pc, seen0)
    modifies server`currentRound, server.generals.Values
    ensures server.Valid() && !rejected
    ensures ExchangeState(server.View(), n, round, order, traitor, VoteOf(order, traitor, claim, coin),
                          pc[p := pc[p] + 1], seen)
  {
    hide *;
    ghost var vote := VoteOf(order, traitor, claim, coin);
    var (s, i) := p;
    seen, rejected := seen0, false;
    if pc[p] == 0 {
      GeneralsKnown(server.View(), n, round, order, traitor, vote, pc, seen, s, i);
      RoundRead(server.View(), n, round, order, traitor, vote, pc, seen, p);
      var accepted, current := server.LookUp(round, s, i);
      seen := seen[p := current];
      rejected := !accepted;
    } else if pc[p] == 1 {
      rejected := EnterRound(server, n, round, order, traitor, vote, pc, seen, s, i);
    } else {
      StoreMessage(server, n, round, order, traitor, claim, coin, pc, seen, s, i);
    }
  }

  lemma NothingExchanged(st: ServerState, n: nat, round: nat, order: Decision, traitor: int -> bool, vote: VoteTable,
                         pc: ExchangeStages)
    requires round >= 2 && Registered(st, n, traitor) && LogsAfter(st, n, round - 1, order, vote)
    requires 0 <= st.currentRound <= round
    requires ExchangeStagesOf(pc, n) && forall p :: p in pc ==> pc[p] == 0
    ensures ExchangeState(st, n, round, order, traitor, vote, pc, map[])
  {
    hide VotesAt, Registered;
    forall i, s ensures VotesAt(st, i, round, s) == [] {
      assert VotesAt(st, i, round, s) == Expected(n, round - 1, order, vote, i, round, s);
    }
  }

  lemma ExchangeIsAPhase(st: ServerState, n: nat, round: nat, order: Decision, traitor: int -> bool, vote: VoteTable,
                         pc: ExchangeStages, seen: map<(int, int), int>)
    requires ExchangeState(st, n, round, order, traitor, vote, pc, seen) && forall p :: p in pc ==> pc[p] == 3
    ensures Registered(st, n, traitor) && LogsAfter(st, n, round, order, vote) && 0 <= st.currentRound <= round
  {
    hide VotesAt, Registered;
    forall i, r, s ensures VotesAt(st, i, r, s) == Expected(n, round, order, vote, i, r, s) {
      assert IsPair(n, (s, i)) <==> (s, i) in pc;
    }
  }

  /** The calls of all generals to all others in one round. */
  method AllPairs(n: nat) returns (pc: ExchangeStages, pending: set<(int, int)>)
    ensures ExchangeStagesOf(pc, n) && PendingIn(pc, pending, 3) && forall p :: p in pc ==> pc[p] == 0
  {
    pc, pending := map[], {};
    for s := 0 to n
      invariant PendingIn(pc, pending, 3)
      invariant forall p :: (p in pc <==> IsPair(n, p) && p.0 < s) && (p in pc ==> pc[p] == 0)
    {
      for i := 0 to n
        invariant PendingIn(pc, pending, 3)
        invariant forall p ::
          (p in pc <==> IsPair(n, p) && (p.0 < s || (p.0 == s && p.1 < i))) && (p in pc ==> pc[p] == 0)
      {
        if s != i { pc, pending := pc[(s, i) := 0], pending + {(s, i)}; }
      }
    }
  }

  /** Runs the calls in flight to their end, in any order. */
  method FinishCalls(server: Server, n: nat, round: nat, order: Decision, traitor: int -> bool, claim: VoteTable,
                     coin: (int, int, int) -> bool, pc0: ExchangeStages, pending0: set<(int, int)>)
    returns (ghost pc: ExchangeStages, ghost seen: map<(int, int), int>, rejected: bool)
    requires server.Valid() && PendingIn(pc0, pending0, 3)
    requires ExchangeState(server.View(), n, round, order, traitor, VoteOf(order, traitor, claim, coin), pc0, map[])
    modifies server`currentRound, server.generals.Values
    ensures server.Valid() && !rejected && PendingIn(pc, {}, 3)
    ensures ExchangeState(server.View(), n, round, order, traitor, VoteOf(order, traitor, claim, coin), pc, seen)
  {
    hide *;
    var stages, pending, latest: map<(int, int), int> := pc0, pending0, map[];
    rejected := false;
    while pending != {}
      invariant PendingIn(stages, pending, 3)
      invariant server.Valid() && !rejected
      invariant ExchangeState(server.View(), n, round, order, traitor, VoteOf(order, traitor, claim, coin), stages, latest)
      decreases SectionsLeft(stages)
    {
      var p := PickAny(pending);
      SectionRun(stages, pending, 3, p);
      var refused;
      latest, refused := ExchangeStep(server, n, round, order, traitor, claim, coin, stages, latest, p);
      rejected := rejected || refused;
      if stages[p] == 2 { pending := pending - {p}; }
      stages := stages[p := stages[p] + 1];
    }
    pc, seen := stages, latest;
  }

  /** The concurrent calls of one round. None is rejected. */
  method ExchangePhase(server: Server, n: nat, round: nat, order: Decision, traitor: int -> bool, claim: VoteTable,
                       coin: (int, int, int) -> bool) returns (rejected: bool)
    requires round >= 2 && server.Valid()
    requires Registered(server.View(), n, traitor) && 0 <= server.View().currentRound <= round
    requires LogsAfter(server.View(), n, round - 1, order, VoteOf(order, traitor, claim, coin))
    modifies server`currentRound, server.generals.Values
    ensures server.Valid() && !rejected
    ensures Registered(server.View(), n, traitor) && 0 <= server.View().currentRound <= round
    ensures LogsAfter(server.View(), n, round, order, VoteOf(order, traitor, claim, coin))
  {
    hide *;
    ghost var vote := VoteOf(order, traitor, claim, coin);
    var pc, pending := AllPairs(n);
    NothingExchanged(server.View(), n, round, order, traitor, vote, pc);
    ghost var last, seen;
    last, seen, rejected := FinishCalls(server, n, round, order, traitor, claim, coin, pc, pending);
    NonePending(last, {}, 3);
    ExchangeIsAPhase(server.View(), n, round, order, traitor, vote, last, seen);
  }

  /** Phases 2 to t+1. */
  method ExchangeRounds(server: Server, n: nat, t: nat, order: Decision, traitor: int -> bool, claim: VoteTable,
                        coin: (int, int, int) -> bool) returns (rejected: bool)
    requires server.Valid() && Registered(server.View(), n, traitor) && 0 <= server.View().currentRound <= 1
    requires LogsAfter(server.View(), n, 1, order, VoteOf(order, traitor, claim, coin))
    modifies server`currentRound, server.generals.Values
    ensures server.Valid() && !rejected && Registered(server.View(), n, traitor)
    ensures LogsAfter(server.View(), n, t + 1, order, VoteOf(order, traitor, claim, coin))
  {
    hide *;
    rejected := false;
    for round := 2 to t + 2
      invariant server.Valid() && !rejected
      invariant Registered(server.View(), n, traitor) && 0 <= server.View().currentRound <= round
      invariant LogsAfter(server.View(), n, round - 1, order, VoteOf(order, traitor, claim, coin))
    {
      var refused := ExchangePhase(server, n, round, order, traitor, claim, coin);
      rejected := rejected || refused;
    }
  }

  /** The whole simulation: whatever the schedule, no order and no message is rejected and the logs end up the same. */
  method Simulate(n: nat, t: nat, order: Decision, traitor: int -> bool, claim: VoteTable, coin: (int, int, int) -> bool)
    returns (server: Server, rejected: bool)
    requires n >= 1 && n > 3 * t && TraitorsBelow(n, traitor) <= t
    ensures fresh(server) && server.Valid() && !rejected
    ensures Finished(server.View(), n, t, order, traitor, VoteOf(order, traitor, claim, coin))
  {
    ghost var vote := VoteOf(order, traitor, claim, coin);
    VotesAreHonest(order, traitor, claim, coin);
    assert forall v :: vote(1, 0, v) == if traitor(0) && coin(1, 0, v) then Opposite(order) else order;
    hide Registered, LogsAfter, RegisteredSoFar, Honest, VoteOf, TraitorsBelow, Server.View, Server.Valid;
    server := RegisterAll(n, traitor);
    var ordersRejected := OrderPhase(server, n, order, traitor, coin, vote);
    rejected := ExchangeRounds(server, n, t, order, traitor, claim, coin);
    rejected := rejected || ordersRejected;
  }

  /** The simulation and the client's first question: consensus is reported exactly when `MustAgree` holds, for
      every schedule, every behaviour of the traitors and every toss of the coins. */
  method RunAndAsk(n: nat, t: nat, order: Decision, traitor: int -> bool, claim: VoteTable, coin: (int, int, int) -> bool,
                   coins: (int, int) -> Decision) returns (consensusReached: bool)
    requires n >= 1 && n > 3 * t && TraitorsBelow(n, traitor) <= t
    ensures consensusReached <==> MustAgree(n, order, traitor, VoteOf(order, traitor, claim, coin))
  {
    var server, _ := Simulate(n, t, order, traitor, claim, coin);
    AgreementExactly(server.View(), n, t, order, traitor, VoteOf(order, traitor, claim, coin));
    assert 0 in server.View().generals;
    hide Finished, AllLoyalDecide, LoyalCanDecide, SomeLoyal;
    var _, reached := server.GetConsensus(0, coins);
    consensusReached := reached;
  }

  /** The documentation's promise of agreement whenever n > 3t fails for four generals: a traitor commander that
      sends one lieutenant a retreat in both rounds splits the loyal lieutenants. */
  method FourGeneralsSplit(coins: (int, int) -> Decision) returns (consensusReached: bool)
    ensures !consensusReached
  {
    var traitor := (i: int) => i == 0;
    var claim: VoteTable := (r: int, s: int, i: int) => if i == 1 then RETREAT else ATTACK;
    var coin := (r: int, s: int, i: int) => r == 1 && i == 1;
    assert TraitorsBelow(1, traitor) == 1 && TraitorsBelow(3, traitor) == 1 && TraitorsBelow(4, traitor) == 1;
    consensusReached := RunAndAsk(4, 1, ATTACK, traitor, claim, coin, coins);
    assert traitor(0) && coin(1, 0, 1) && claim(2, 0, 1) == RETREAT && !coin(2, 0, 1) && !coin(1, 0, 2);
    assert Tied(VoteOf(ATTACK, traitor, claim, coin), 1) && !Tied(VoteOf(ATTACK, traitor, claim, coin), 2);
  }
}
