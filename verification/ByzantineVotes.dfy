/** What the logs at the end of a simulation make the loyal generals decide. General 0 commands. */
module ByzantineVotes {
  import opened Basics
  import opened Collections
  import opened Generals

  /** The vote a sender's message carries to a receiver in a round, after every alteration. */
  type VoteTable = (int, int, int) -> Decision

  /** Loyal generals pass on the order; traitors send anything. */
  ghost predicate Honest(order: Decision, traitor: int -> bool, vote: VoteTable) {
    forall r, s, i :: !traitor(s) ==> vote(r, s, i) == order
  }

  function TraitorsBelow(n: nat, traitor: int -> bool): nat {
    if n == 0 then 0 else TraitorsBelow(n - 1, traitor) + if traitor(n - 1) then 1 else 0
  }

  /** General `i`'s entry for a round and a sender once `phases` phases are over: the commander keeps a copy of
      its order for each lieutenant, a lieutenant has one order, and later rounds bring one vote from each other
      general. */
  function Expected(n: nat, phases: nat, order: Decision, vote: VoteTable, i: int, r: int, s: int): seq<Decision> {
    if !(0 <= i < n) then []
    else if r == 1 && phases >= 1 then
      if s != 0 then [] else if i == 0 then seq(n - 1, _ => order) else [vote(1, 0, i)]
    else if 2 <= r <= phases && 0 <= s < n && s != i then [vote(r, s, i)]
    else []
  }

  /** The registered generals. */
  ghost predicate Registered(st: ServerState, n: nat, traitor: int -> bool) {
    && (forall i :: i in st.generals <==> 0 <= i < n)
    && (forall i :: 0 <= i < n ==>
          st.generals[i].role == (if i == 0 then COMMANDER else LIEUTENANT) && st.generals[i].isTraitor == traitor(i))
    && st.maxRounds == TraitorsBelow(n, traitor) + 1
  }

  ghost predicate LogsAfter(st: ServerState, n: nat, phases: nat, order: Decision, vote: VoteTable) {
    forall i, r, s :: VotesAt(st, i, r, s) == Expected(n, phases, order, vote, i, r, s)
  }

  /** The end of a simulation with at most `t` traitors and t+1 phases. */
  ghost predicate Finished(st: ServerState, n: nat, t: nat, order: Decision, traitor: int -> bool, vote: VoteTable) {
    && n > 3 * t && TraitorsBelow(n, traitor) <= t
    && Honest(order, traitor, vote)
    && Registered(st, n, traitor)
    && LogsAfter(st, n, t + 1, order, vote)
  }

  // ---------- Counting one round ----------

  /** The votes for `d` in general `i`'s round `r` from senders below `n`. */
  ghost function RoundCount(st: ServerState, i: int, r: int, n: nat, d: Decision): nat {
    if n == 0 then 0 else RoundCount(st, i, r, n - 1, d) + CountIn(VotesAt(st, i, r, n - 1), d)
  }

  ghost function KeyCount(m: map<int, seq<Decision>>, keys: set<int>, n: nat, d: Decision): nat {
    if n == 0 then 0
    else KeyCount(m, keys, n - 1, d) + if n - 1 in keys && n - 1 in m then CountIn(m[n-1], d) else 0
  }

  lemma {:induction false} KeyCountRemove(m: map<int, seq<Decision>>, keys: set<int>, n: nat, d: Decision, k: int)
    requires k in keys && k in m
    ensures KeyCount(m, keys, n, d) == KeyCount(m, keys - {k}, n, d) + if 0 <= k < n then CountIn(m[k], d) else 0
  {
    if n > 0 { KeyCountRemove(m, keys, n - 1, d, k); }
  }

  lemma {:induction false} NoKeysNoCount(m: map<int, seq<Decision>>, n: nat, d: Decision)
    ensures KeyCount(m, {}, n, d) == 0
  {
    if n > 0 { NoKeysNoCount(m, n - 1, d); }
  }

  lemma {:induction false} CountFromIsKeyCount(m: map<int, seq<Decision>>, keys: set<int>, n: nat, d: Decision)
    requires keys <= m.Keys
    requires forall k :: k in keys && !(0 <= k < n) ==> m[k] == []
    ensures CountFrom(m, keys, d) == KeyCount(m, keys, n, d)
    decreases keys
  {
    if keys == {} {
      NoKeysNoCount(m, n, d);
    } else {
      var k := Pick(keys);
      CountFromRemove(m, keys, d, k);
      KeyCountRemove(m, keys, n, d, k);
      CountFromIsKeyCount(m, keys - {k}, n, d);
    }
  }

  lemma {:induction false} KeyCountIsRoundCount(st: ServerState, i: int, r: int, n: nat, d: Decision)
    requires i in st.generals
    ensures var table := RoundOf(st.generals[i].messages, r);
            KeyCount(table, table.Keys, n, d) == RoundCount(st, i, r, n, d)
  {
    if n > 0 { KeyCountIsRoundCount(st, i, r, n - 1, d); }
  }

  /** The order in which a round's table is read does not matter: its count is the sum over senders 0 to n-1. */
  lemma TableCount(st: ServerState, n: nat, phases: nat, order: Decision, vote: VoteTable, i: int, r: int, d: Decision)
    requires i in st.generals && n > 0 && LogsAfter(st, n, phases, order, vote)
    ensures var table := RoundOf(st.generals[i].messages, r);
            CountFrom(table, table.Keys, d) == RoundCount(st, i, r, n, d)
  {
    var table := RoundOf(st.generals[i].messages, r);
    forall k | k in table.Keys && !(0 <= k < n) ensures table[k] == [] {
      assert VotesAt(st, i, r, k) == Expected(n, phases, order, vote, i, r, k);
    }
    CountFromIsKeyCount(table, table.Keys, n, d);
    KeyCountIsRoundCount(st, i, r, n, d);
  }

  /** In an exchange round, each of the other generals sent one vote and only traitors sent a wrong one. */
  lemma {:induction false} ExchangeRound(st: ServerState, n: nat, phases: nat, order: Decision, traitor: int -> bool,
                                         vote: VoteTable, i: int, r: int, k: nat)
    requires 0 <= i < n && 2 <= r <= phases && k <= n
    requires Honest(order, traitor, vote) && LogsAfter(st, n, phases, order, vote)
    ensures RoundCount(st, i, r, k, order) + RoundCount(st, i, r, k, Opposite(order)) == if i < k then k - 1 else k
    ensures RoundCount(st, i, r, k, Opposite(order)) <= TraitorsBelow(k, traitor)
  {
    if k > 0 {
      ExchangeRound(st, n, phases, order, traitor, vote, i, r, k - 1);
      assert VotesAt(st, i, r, k - 1) == Expected(n, phases, order, vote, i, r, k - 1);
      if k - 1 != i {
        OneVote(vote(r, k - 1, i), order);
        OneVote(vote(r, k - 1, i), Opposite(order));
      }
    }
  }

  lemma OneVote(v: Decision, d: Decision)
    ensures CountIn([v], d) == if v == d then 1 else 0
  {
    assert [v][..0] == [];
  }

  lemma {:induction false} ManyVotes(k: nat, v: Decision, d: Decision)
    ensures CountIn(seq(k, _ => v), d) == if v == d then k else 0
  {
    if k > 0 {
      ManyVotes(k - 1, v, d);
      assert seq(k, _ => v)[..k-1] == seq(k - 1, _ => v);
    }
  }

  lemma {:induction false} FirstRoundFrom(st: ServerState, n: nat, phases: nat, order: Decision, vote: VoteTable,
                                          i: int, d: Decision, k: nat)
    requires 0 <= i < n && phases >= 1 && 1 <= k <= n && LogsAfter(st, n, phases, order, vote)
    ensures RoundCount(st, i, 1, k, d) == CountIn(VotesAt(st, i, 1, 0), d)
  {
    assert VotesAt(st, i, 1, k - 1) == Expected(n, phases, order, vote, i, 1, k - 1);
    if k > 1 {
      FirstRoundFrom(st, n, phases, order, vote, i, d, k - 1);
    } else {
      assert RoundCount(st, i, 1, 0, d) == 0;
    }
  }

  /** Round 1: the commander counts its order once for each lieutenant, a lieutenant counts one vote. */
  lemma FirstRound(st: ServerState, n: nat, phases: nat, order: Decision, vote: VoteTable, i: int, d: Decision)
    requires 0 <= i < n && phases >= 1 && LogsAfter(st, n, phases, order, vote)
    ensures RoundCount(st, i, 1, n, d) ==
      if i == 0 then (if order == d then n - 1 else 0) else (if vote(1, 0, i) == d then 1 else 0)
  {
    FirstRoundFrom(st, n, phases, order, vote, i, d, n);
    assert VotesAt(st, i, 1, 0) == Expected(n, phases, order, vote, i, 1, 0);
    if i == 0 { ManyVotes(n - 1, order, d); } else { OneVote(vote(1, 0, i), d); }
  }

  // ---------- Counting all rounds ----------

  ghost function Margin(st: ServerState, i: int, rounds: nat, order: Decision): int
    requires i in st.generals
  {
    Tally(st.generals[i].messages, rounds, order) - Tally(st.generals[i].messages, rounds, Opposite(order))
  }

  /** One more round changes the margin by that round's votes. */
  lemma MarginStep(st: ServerState, n: nat, phases: nat, order: Decision, vote: VoteTable, i: int, rounds: nat)
    requires 0 <= i < n && 1 <= rounds && LogsAfter(st, n, phases, order, vote) && i in st.generals
    ensures Margin(st, i, rounds, order) ==
      Margin(st, i, rounds - 1, order) + RoundCount(st, i, rounds, n, order) - RoundCount(st, i, rounds, n, Opposite(order))
  {
    hide LogsAfter;
    TableCount(st, n, phases, order, vote, i, rounds, order);
    TableCount(st, n, phases, order, vote, i, rounds, Opposite(order));
  }

  ghost function Repeated(k: nat, gain: int): int {
    if k == 0 then 0 else Repeated(k - 1, gain) + gain
  }

  lemma {:induction false} RepeatedIsProduct(k: nat, gain: int)
    ensures Repeated(k, gain) == k * gain
  {
    if k > 0 { RepeatedIsProduct(k - 1, gain); }
  }

  /** Each exchange round adds n-1 votes of which at most `a` are wrong. */
  lemma {:induction false} MarginGrows(st: ServerState, n: nat, t: nat, order: Decision, traitor: int -> bool,
                                       vote: VoteTable, i: int, rounds: nat, gain: int)
    requires 0 <= i < n && 1 <= rounds <= t + 1 && Finished(st, n, t, order, traitor, vote)
    requires gain == n - 1 - 2 * TraitorsBelow(n, traitor)
    ensures Margin(st, i, rounds, order) >=
      RoundCount(st, i, 1, n, order) - RoundCount(st, i, 1, n, Opposite(order)) + Repeated(rounds - 1, gain)
  {
    hide LogsAfter, RoundCount, TraitorsBelow, Honest, Margin;
    MarginStep(st, n, t + 1, order, vote, i, rounds);
    if rounds == 1 {
      NoRounds(st, i, order);
    } else {
      MarginGrows(st, n, t, order, traitor, vote, i, rounds - 1, gain);
      ExchangeRound(st, n, t + 1, order, traitor, vote, i, rounds, n);
    }
  }

  lemma NoRounds(st: ServerState, i: int, order: Decision)
    requires i in st.generals
    ensures Margin(st, i, 0, order) == 0
  {
  }

  lemma SquareBound(a: nat, n: nat)
    requires n >= 3 * a + 1
    ensures a * (n - 1 - 2 * a) >= a * a
  {
    MulGrows(a, n - 1 - 2 * a, a);
  }

  /** The whole margin of a loyal general. */
  lemma FinalMargin(st: ServerState, n: nat, t: nat, order: Decision, traitor: int -> bool, vote: VoteTable, i: int)
    requires 0 <= i < n && Finished(st, n, t, order, traitor, vote)
    ensures var a := TraitorsBelow(n, traitor);
      && Margin(st, i, a + 1, order) >= a * (n - 1 - 2 * a) +
           (if i == 0 then n - 1 else if vote(1, 0, i) == order then 1 else -1)
      && a * (n - 1 - 2 * a) >= a * a
  {
    var a := TraitorsBelow(n, traitor);
    MarginGrows(st, n, t, order, traitor, vote, i, a + 1, n - 1 - 2 * a);
    RepeatedIsProduct(a, n - 1 - 2 * a);
    FirstRound(st, n, t + 1, order, vote, i, order);
    FirstRound(st, n, t + 1, order, vote, i, Opposite(order));
    SquareBound(a, n);
  }

  /** A loyal general with a positive margin can only decide the order; with none, the order only if it is to
      retreat. */
  lemma MarginDecides(st: ServerState, n: nat, t: nat, order: Decision, traitor: int -> bool, vote: VoteTable, i: int)
    requires 0 <= i < n && !traitor(i) && Finished(st, n, t, order, traitor, vote)
    requires n >= 2 && Margin(st, i, TraitorsBelow(n, traitor) + 1, order) >= 0
    ensures
      var tied := Margin(st, i, TraitorsBelow(n, traitor) + 1, order) == 0;
      forall e :: MayDecide(st, i, e) <==> e == if tied then RETREAT else order
  {
    var m, rounds := st.generals[i].messages, TraitorsBelow(n, traitor) + 1;
    if i == 0 {
      CommanderHasVotes(st, n, t, order, traitor, vote, rounds);
    }
  }

  lemma {:induction false} CommanderHasVotes(st: ServerState, n: nat, t: nat, order: Decision, traitor: int -> bool,
                                             vote: VoteTable, rounds: nat)
    requires n >= 2 && 1 <= rounds && Finished(st, n, t, order, traitor, vote)
    ensures Tally(st.generals[0].messages, rounds, order) > 0
  {
    if rounds == 1 {
      TableCount(st, n, t + 1, order, vote, 0, 1, order);
      FirstRound(st, n, t + 1, order, vote, 0, order);
    } else {
      CommanderHasVotes(st, n, t, order, traitor, vote, rounds - 1);
    }
  }

  /** Validity: under a loyal commander a lieutenant's correct votes exceed the wrong ones by at least
      1 + a(n-1-2a), and every loyal general decides the order. */
  lemma LoyalCommanderIsObeyed(st: ServerState, n: nat, t: nat, order: Decision, traitor: int -> bool, vote: VoteTable)
    requires n >= 2 && !traitor(0) && Finished(st, n, t, order, traitor, vote)
    ensures AllLoyalDecide(st, order) && LoyalCanDecide(st, order)
    ensures forall i :: 1 <= i < n ==>
      Margin(st, i, st.maxRounds, order) >= 1 + TraitorsBelow(n, traitor) * (n - 1 - 2 * TraitorsBelow(n, traitor))
  {
    forall i | 0 <= i < n
      ensures i > 0 ==>
        Margin(st, i, st.maxRounds, order) >= 1 + TraitorsBelow(n, traitor) * (n - 1 - 2 * TraitorsBelow(n, traitor))
      ensures !traitor(i) ==> forall e :: MayDecide(st, i, e) <==> e == order
    {
      FinalMargin(st, n, t, order, traitor, vote, i);
      if !traitor(i) { MarginDecides(st, n, t, order, traitor, vote, i); }
    }
  }

  /** A commander on its own has no votes and retreats, whatever it ordered. */
  lemma LoneCommanderRetreats(st: ServerState, t: nat, order: Decision, traitor: int -> bool, vote: VoteTable)
    requires !traitor(0) && Finished(st, 1, t, order, traitor, vote)
    ensures forall e :: MayDecide(st, 0, e) <==> e == RETREAT
  {
    assert t == 0;
    TableCount(st, 1, 1, order, vote, 0, 1, ATTACK);
    TableCount(st, 1, 1, order, vote, 0, 1, RETREAT);
    FirstRound(st, 1, 1, order, vote, 0, ATTACK);
    FirstRound(st, 1, 1, order, vote, 0, RETREAT);
    assert TraitorsBelow(1, traitor) == 0 by { assert TraitorsBelow(0, traitor) == 0; }
    var m := st.generals[0].messages;
    assert Tally(m, 0, ATTACK) == Tally(m, 0, RETREAT) == 0;
    assert forall i, e :: !Reports(st, 0, i, e);
  }

  /** Validity holds exactly when there is a lieutenant or the order is to retreat. */
  lemma ValidityExactly(st: ServerState, n: nat, t: nat, order: Decision, traitor: int -> bool, vote: VoteTable)
    requires n >= 1 && !traitor(0) && Finished(st, n, t, order, traitor, vote)
    ensures AllLoyalDecide(st, order) <==> n >= 2 || order == RETREAT
  {
    if n >= 2 {
      LoyalCommanderIsObeyed(st, n, t, order, traitor, vote);
    } else {
      LoneCommanderRetreats(st, t, order, traitor, vote);
      assert Loyal(st, 0) && MayDecide(st, 0, RETREAT);
    }
  }

  lemma {:induction false} NoMessagesNoVotes(m: Messages, rounds: nat, d: Decision)
    requires m == map[]
    ensures Tally(m, rounds, d) == 0
  {
    if rounds > 0 { NoMessagesNoVotes(m, rounds - 1, d); }
  }

  /** A loyal commander that has recorded nothing decides what the first order it sent to some lieutenant says, and
      retreats if no lieutenant has one. */
  lemma SilentCommander(st: ServerState, c: int, d: Decision)
    requires Loyal(st, c) && st.generals[c].role == COMMANDER && st.generals[c].messages == map[]
    ensures MayDecide(st, c, d) <==>
      || (exists i :: i in st.generals && i != c && st.generals[i].role == LIEUTENANT
            && |VotesAt(st, i, 1, c)| > 0 && VotesAt(st, i, 1, c)[0] == d)
      || (d == RETREAT && forall i :: i in st.generals && i != c && st.generals[i].role == LIEUTENANT ==>
            VotesAt(st, i, 1, c) == [])
  {
    var rounds := if st.maxRounds >= 0 then st.maxRounds else 0;
    NoMessagesNoVotes(st.generals[c].messages, rounds, ATTACK);
    NoMessagesNoVotes(st.generals[c].messages, rounds, RETREAT);
    hide VotesAt, Tally;
    if i :| i in st.generals && i != c && st.generals[i].role == LIEUTENANT && |VotesAt(st, i, 1, c)| > 0 {
      assert Reports(st, c, i, VotesAt(st, i, 1, c)[0]);
    }
    if MayDecide(st, c, d) && exists i :: Reports(st, c, i, d) {
      var i :| Reports(st, c, i, d);
      assert VotesAt(st, i, 1, c)[0] == d;
    }
    if i :| i in st.generals && i != c && st.generals[i].role == LIEUTENANT
            && |VotesAt(st, i, 1, c)| > 0 && VotesAt(st, i, 1, c)[0] == d {
      assert Reports(st, c, i, d);
    }
  }

  lemma {:induction false} TraitorCommanderCounts(n: nat, traitor: int -> bool)
    requires n >= 1 && traitor(0)
    ensures TraitorsBelow(n, traitor) >= 1
  {
    if n > 1 { TraitorCommanderCounts(n - 1, traitor); }
  }

  /** Under a traitor commander a loyal lieutenant still decides the order the client started with, except among
      four generals told to attack, when the commander sends that lieutenant a retreat in both rounds. */
  lemma TraitorCommanderIsOutvoted(st: ServerState, n: nat, t: nat, order: Decision, traitor: int -> bool,
                                   vote: VoteTable, i: int)
    requires traitor(0) && 1 <= i < n && !traitor(i) && Finished(st, n, t, order, traitor, vote)
    ensures (forall e :: MayDecide(st, i, e) <==> e == order) <==>
      n >= 5 || order == RETREAT || vote(1, 0, i) == ATTACK || vote(2, 0, i) == ATTACK
  {
    TraitorCommanderCounts(n, traitor);
    var a := TraitorsBelow(n, traitor);
    FinalMargin(st, n, t, order, traitor, vote, i);
    if n >= 5 {
      if a == 1 {
        assert a * (n - 1 - 2 * a) == n - 3;
      } else {
        MulGrows(2, a, a);
      }
    } else {
      FourGenerals(st, t, order, traitor, vote, i);
    }
    MarginDecides(st, n, t, order, traitor, vote, i);
    assert MayDecide(st, i, RETREAT) || MayDecide(st, i, ATTACK);
  }

  /** With four generals the traitor commander is the only traitor, and the margin is the two other lieutenants'
      votes and the commander's two. */
  lemma FourGenerals(st: ServerState, t: nat, order: Decision, traitor: int -> bool, vote: VoteTable, i: int)
    requires traitor(0) && 1 <= i < 4 && !traitor(i) && Finished(st, 4, t, order, traitor, vote)
    ensures TraitorsBelow(4, traitor) == 1
    ensures Margin(st, i, 2, order) ==
      2 + (if vote(1, 0, i) == order then 1 else -1) + (if vote(2, 0, i) == order then 1 else -1)
  {
    TraitorCommanderCounts(1, traitor);
    var m := st.generals[i].messages;
    forall d ensures Tally(m, 2, d) == RoundCount(st, i, 1, 4, d) + RoundCount(st, i, 2, 4, d) {
      TableCount(st, 4, t + 1, order, vote, i, 1, d);
      TableCount(st, 4, t + 1, order, vote, i, 2, d);
      assert Tally(m, 0, d) == 0 && Tally(m, 1, d) == RoundCount(st, i, 1, 4, d);
    }
    FirstRound(st, 4, t + 1, order, vote, i, order);
    FirstRound(st, 4, t + 1, order, vote, i, Opposite(order));
    ExchangeRound(st, 4, t + 1, order, traitor, vote, i, 2, 4);
    assert t == 1;
    OnlyTraitor(traitor, 4);
    CommanderVoteCounts(st, 4, t + 1, order, traitor, vote, i, 4);
  }

  lemma {:induction false} OnlyTraitor(traitor: int -> bool, n: nat)
    requires n >= 1 && traitor(0) && TraitorsBelow(n, traitor) <= 1
    ensures forall j :: 1 <= j < n ==> !traitor(j)
  {
    if n > 1 {
      TraitorCommanderCounts(n - 1, traitor);
      OnlyTraitor(traitor, n - 1);
    }
  }

  lemma {:induction false} CommanderVoteCounts(st: ServerState, n: nat, phases: nat, order: Decision,
                                               traitor: int -> bool, vote: VoteTable, i: int, k: nat)
    requires 1 <= i < n && 2 <= phases && 1 <= k <= n
    requires Honest(order, traitor, vote) && LogsAfter(st, n, phases, order, vote)
    requires forall j :: 1 <= j < n ==> !traitor(j)
    ensures RoundCount(st, i, 2, k, Opposite(order)) == if vote(2, 0, i) == order then 0 else 1
  {
    assert VotesAt(st, i, 2, k - 1) == Expected(n, phases, order, vote, i, 2, k - 1);
    if k > 1 {
      CommanderVoteCounts(st, n, phases, order, traitor, vote, i, k - 1);
      if k - 1 != i { OneVote(vote(2, k - 1, i), Opposite(order)); }
    } else {
      OneVote(vote(2, 0, i), Opposite(order));
      assert RoundCount(st, i, 2, 0, Opposite(order)) == 0;
    }
  }

  /** Hence, under a traitor commander, all loyal lieutenants decide the order if there are at least five
      generals or the order is to retreat. */
  lemma TraitorCommanderAgreement(st: ServerState, n: nat, t: nat, order: Decision, traitor: int -> bool, vote: VoteTable)
    requires n >= 1 && traitor(0) && Finished(st, n, t, order, traitor, vote)
    requires n >= 5 || order == RETREAT
    ensures AllLoyalDecide(st, order) && LoyalCanDecide(st, order)
  {
    forall i | Loyal(st, i) ensures forall e :: MayDecide(st, i, e) <==> e == order {
      TraitorCommanderIsOutvoted(st, n, t, order, traitor, vote, i);
    }
  }

  // ---------- When consensus is reported ----------

  /** Lieutenant `i` is told to retreat by the commander in both rounds of a four-general run. */
  predicate Tied(vote: VoteTable, i: int) {
    vote(1, 0, i) == RETREAT && vote(2, 0, i) == RETREAT
  }

  /** Consensus fails only among four generals under a traitor commander told to attack, when the commander
      treats its three lieutenants differently. */
  predicate MustAgree(n: nat, order: Decision, traitor: int -> bool, vote: VoteTable) {
    !traitor(0) || n >= 5 || order == RETREAT || (Tied(vote, 1) == Tied(vote, 2) && Tied(vote, 2) == Tied(vote, 3))
  }

  lemma {:induction false} NotAllTraitors(n: nat, traitor: int -> bool)
    requires TraitorsBelow(n, traitor) < n
    ensures exists i :: 0 <= i < n && !traitor(i)
  {
    if traitor(n - 1) { NotAllTraitors(n - 1, traitor); }
  }

  /** Among four generals told to attack under a traitor commander, a lieutenant retreats exactly when tied. */
  lemma FourGeneralsDecide(st: ServerState, t: nat, traitor: int -> bool, vote: VoteTable, i: int)
    requires traitor(0) && 1 <= i < 4 && Finished(st, 4, t, ATTACK, traitor, vote)
    ensures Loyal(st, i) && forall e :: MayDecide(st, i, e) <==> e == if Tied(vote, i) then RETREAT else ATTACK
  {
    OnlyTraitor(traitor, 4);
    FourGenerals(st, t, ATTACK, traitor, vote, i);
    MarginDecides(st, 4, t, ATTACK, traitor, vote, i);
  }

  /** The loyal generals of a finished simulation can agree exactly when `MustAgree` holds, and then they have to. */
  lemma AgreementExactly(st: ServerState, n: nat, t: nat, order: Decision, traitor: int -> bool, vote: VoteTable)
    requires n >= 1 && Finished(st, n, t, order, traitor, vote)
    ensures SomeLoyal(st)
    ensures MustAgree(n, order, traitor, vote) <==> AllLoyalDecide(st, ATTACK) || AllLoyalDecide(st, RETREAT)
    ensures MustAgree(n, order, traitor, vote) <==> LoyalCanDecide(st, ATTACK) || LoyalCanDecide(st, RETREAT)
  {
    NotAllTraitors(n, traitor);
    var j :| 0 <= j < n && !traitor(j);
    assert Loyal(st, j);
    if !traitor(0) {
      if n >= 2 { LoyalCommanderIsObeyed(st, n, t, order, traitor, vote); }
      else { LoneCommanderRetreats(st, t, order, traitor, vote); }
    } else if n >= 5 || order == RETREAT {
      TraitorCommanderAgreement(st, n, t, order, traitor, vote);
    } else {
      TraitorCommanderCounts(n, traitor);
      FourGeneralsAgree(st, t, traitor, vote);
    }
  }

  lemma FourGeneralsAgree(st: ServerState, t: nat, traitor: int -> bool, vote: VoteTable)
    requires traitor(0) && Finished(st, 4, t, ATTACK, traitor, vote)
    ensures MustAgree(4, ATTACK, traitor, vote) <==> AllLoyalDecide(st, ATTACK) || AllLoyalDecide(st, RETREAT)
    ensures MustAgree(4, ATTACK, traitor, vote) <==> LoyalCanDecide(st, ATTACK) || LoyalCanDecide(st, RETREAT)
  {
    FourGeneralsDecide(st, t, traitor, vote, 1);
    FourGeneralsDecide(st, t, traitor, vote, 2);
    FourGeneralsDecide(st, t, traitor, vote, 3);
    assert forall i :: Loyal(st, i) ==> i == 1 || i == 2 || i == 3;
    hide MayDecide;
    forall i | 1 <= i <= 3 ensures MayDecide(st, i, if Tied(vote, i) then RETREAT else ATTACK) {}
  }
}
