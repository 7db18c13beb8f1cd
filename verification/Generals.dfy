/** The generals' logs and the decision rule, as values. */
module Generals {
  import opened Collections

  datatype Decision = ATTACK | RETREAT

  datatype Role = COMMANDER | LIEUTENANT

  /** Round to sender to the values received, in order of arrival. */
  type Messages = map<int, map<int, seq<Decision>>>

  datatype GeneralState = GeneralState(role: Role, isTraitor: bool, messages: Messages)

  datatype ServerState = ServerState(generals: map<int, GeneralState>, numGenerals: int, numTraitors: int,
                                     maxRounds: int, currentRound: int)

  function Opposite(d: Decision): Decision {
    if d == ATTACK then RETREAT else ATTACK
  }

  function RoundOf(m: Messages, round: int): map<int, seq<Decision>> {
    if round in m then m[round] else map[]
  }

  function Votes(m: Messages, round: int, sender: int): seq<Decision> {
    if sender in RoundOf(m, round) then RoundOf(m, round)[sender] else []
  }

  /** Appends one value, creating the round's table when it is missing. */
  function Appended(m: Messages, round: int, sender: int, value: Decision): Messages {
    m[round := RoundOf(m, round)[sender := Votes(m, round, sender) + [value]]]
  }

  /** The values general `i` has from `sender` in `round`. */
  function VotesAt(st: ServerState, i: int, round: int, sender: int): seq<Decision> {
    if i in st.generals then Votes(st.generals[i].messages, round, sender) else []
  }

  function StoreVote(st: ServerState, receiver: int, round: int, sender: int, value: Decision): ServerState {
    if receiver !in st.generals then st
    else
      var g := st.generals[receiver];
      st.(generals := st.generals[receiver := g.(messages := Appended(g.messages, round, sender, value))])
  }

  /** Storing a vote adds it at the end of one log and changes nothing else. */
  lemma StoreVoteAdds(st: ServerState, receiver: int, round: int, sender: int, value: Decision,
                      i: int, r: int, s: int)
    requires receiver in st.generals
    ensures VotesAt(StoreVote(st, receiver, round, sender, value), i, r, s) ==
      VotesAt(st, i, r, s) + if i == receiver && r == round && s == sender then [value] else []
  {
    assert VotesAt(st, i, r, s) + [] == VotesAt(st, i, r, s);
  }

  function StartRound(st: ServerState, round: int): ServerState {
    if round > st.currentRound then st.(currentRound := round) else st
  }

  function RegisterGeneral(st: ServerState, id: int, role: Role, isTraitor: bool): ServerState {
    if id in st.generals then st
    else
      var traitors := if isTraitor then st.numTraitors + 1 else st.numTraitors;
      ServerState(st.generals[id := GeneralState(role, isTraitor, map[])], st.numGenerals + 1, traitors, traitors + 1,
                  st.currentRound)
  }

  // ---------- Counting votes ----------

  function CountIn(votes: seq<Decision>, d: Decision): nat {
    if |votes| == 0 then 0
    else CountIn(votes[..|votes|-1], d) + if votes[|votes|-1] == d then 1 else 0
  }

  /** The votes for `d` of the senders in `keys`; a map is read in no particular order. */
  ghost function CountFrom(m: map<int, seq<Decision>>, keys: set<int>, d: Decision): nat
    requires keys <= m.Keys
  {
    if keys == {} then 0
    else
      var k := Pick(keys);
      CountIn(m[k], d) + CountFrom(m, keys - {k}, d)
  }

  lemma {:induction false} CountFromRemove(m: map<int, seq<Decision>>, keys: set<int>, d: Decision, k: int)
    requires keys <= m.Keys && k in keys
    ensures CountFrom(m, keys, d) == CountIn(m[k], d) + CountFrom(m, keys - {k}, d)
    decreases keys
  {
    var j := Pick(keys);
    if j != k {
      CountFromRemove(m, keys - {j}, d, k);
      CountFromRemove(m, keys - {k}, d, j);
      assert keys - {j} - {k} == keys - {k} - {j};
    }
  }

  /** All votes for `d` in rounds 1 to `rounds`. */
  ghost function Tally(m: Messages, rounds: nat, d: Decision): nat {
    if rounds == 0 then 0
    else
      var table := RoundOf(m, rounds);
      Tally(m, rounds - 1, d) + CountFrom(table, table.Keys, d)
  }

  function Majority(attack: nat, retreat: nat): Decision {
    if attack > retreat then ATTACK else RETREAT
  }

  /** Lieutenant `i` has a first order from general `c`, and it is `d`. */
  ghost predicate Reports(st: ServerState, c: int, i: int, d: Decision) {
    && i in st.generals && i != c && st.generals[i].role == LIEUTENANT
    && |VotesAt(st, i, 1, c)| > 0 && VotesAt(st, i, 1, c)[0] == d
  }

  /** What general `id` may decide. A traitor decides anything. A commander that has no votes at all takes the
      order some lieutenant reports. Everyone else follows the majority of all votes, retreating on a tie. */
  ghost predicate MayDecide(st: ServerState, id: int, d: Decision)
    requires id in st.generals
  {
    var g := st.generals[id];
    var rounds := if st.maxRounds >= 0 then st.maxRounds else 0;
    var attack, retreat := Tally(g.messages, rounds, ATTACK), Tally(g.messages, rounds, RETREAT);
    if g.isTraitor then true
    else if g.role == COMMANDER && attack == 0 && retreat == 0 && exists i, e :: Reports(st, id, i, e) then
      exists i :: Reports(st, id, i, d)
    else d == Majority(attack, retreat)
  }

  ghost predicate Loyal(st: ServerState, id: int) {
    id in st.generals && !st.generals[id].isTraitor
  }

  ghost predicate SomeLoyal(st: ServerState) {
    exists i :: Loyal(st, i)
  }

  /** Every loyal general can only decide `d`. */
  ghost predicate AllLoyalDecide(st: ServerState, d: Decision) {
    forall i, e :: Loyal(st, i) && MayDecide(st, i, e) ==> e == d
  }

  /** Every loyal general can decide `d`. */
  ghost predicate LoyalCanDecide(st: ServerState, d: Decision) {
    forall i :: Loyal(st, i) ==> MayDecide(st, i, d)
  }
}
