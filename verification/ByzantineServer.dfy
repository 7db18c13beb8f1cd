/** The server that keeps the generals' logs. Each remote call is a sequence of sections, one for each lock it
    takes; a coin tossed by the source is a parameter, so a traitor does anything. */
module ByzantineServer {
  import opened Collections
  import opened Generals

  class General {
    const id: int
    const role: Role
    const isTraitor: bool
    var messages: Messages

    constructor (id: int, role: Role, isTraitor: bool)
      ensures this.id == id && this.role == role && this.isTraitor == isTraitor && messages == map[]
    {
      this.id, this.role, this.isTraitor, messages := id, role, isTraitor, map[];
    }

    ghost function State(): GeneralState
      reads this
    {
      GeneralState(role, isTraitor, messages)
    }

    method Append(round: int, sender: int, value: Decision)
      modifies this
      ensures messages == Appended(old(messages), round, sender, value)
    {
      if round !in messages { messages := messages[round := map[]]; }
      var table := messages[round];
      table := table[sender := (if sender in table then table[sender] else []) + [value]];
      messages := messages[round := table];
      assert messages == Appended(old(messages), round, sender, value);
    }
  }

  class Server {
    var generals: map<int, General>
    var numGenerals: int
    var numTraitors: int
    var maxRounds: int
    var currentRound: int

    ghost predicate Valid()
      reads this, generals.Values
    {
      forall id :: id in generals ==> generals[id].id == id
    }

    ghost function View(): ServerState
      reads this, generals.Values
    {
      ServerState(map id | id in generals :: generals[id].State(), numGenerals, numTraitors, maxRounds, currentRound)
    }

    constructor ()
      ensures Valid() && View() == ServerState(map[], 0, 0, 0, 0) && generals == map[]
    {
      generals, numGenerals, numTraitors, maxRounds, currentRound := map[], 0, 0, 0, 0;
    }

    method Register(id: int, role: Role, isTraitor: bool) returns (success: bool)
      requires Valid()
      modifies this
      ensures Valid()
      ensures success <==> id !in old(generals)
      ensures View() == RegisterGeneral(old(View()), id, role, isTraitor)
      ensures forall g :: g in generals.Values ==> g in old(generals.Values) || fresh(g)
    {
      if id in generals { return false; }
      var g := new General(id, role, isTraitor);
      generals := generals[id := g];
      if isTraitor { numTraitors := numTraitors + 1; }
      numGenerals := numGenerals + 1;
      maxRounds := numTraitors + 1;
      success := true;
    }

    /** The section that appends to one general's log under that general's lock. */
    method AppendVote(receiver: int, round: int, sender: int, value: Decision)
      requires Valid() && receiver in generals
      modifies generals[receiver]
      ensures Valid() && View() == StoreVote(old(View()), receiver, round, sender, value)
    {
      generals[receiver].Append(round, sender, value);
      assert forall id :: id in generals && id != receiver ==> generals[id] != generals[receiver];
    }

    /** The section that raises the current round under the server's lock. */
    method RaiseRound(round: int)
      requires Valid()
      modifies this`currentRound
      ensures Valid() && View() == StartRound(old(View()), round)
    {
      if round > currentRound { currentRound := round; }
    }

    // The sections of the call that sends an order.

    /** Looks up both generals. Only the commander's orders are accepted. */
    method AcceptOrder(sender: int, receiver: int) returns (accepted: bool)
      ensures accepted <==>
        sender in View().generals && receiver in View().generals && View().generals[sender].role == COMMANDER
    {
      if sender !in generals || receiver !in generals { return false; }
      accepted := generals[sender].role == COMMANDER;
    }

    /** The commander remembers what it ordered. */
    method RecordOrder(sender: int, order: Decision)
      requires Valid() && sender in View().generals
      modifies generals.Values
      ensures Valid() && View() == StoreVote(old(View()), sender, 1, sender, order)
    {
      AppendVote(sender, 1, sender, order);
    }

    method DeliverOrder(sender: int, receiver: int, order: Decision, coin: bool)
      requires Valid() && sender in View().generals && receiver in View().generals
      modifies generals.Values
      ensures Valid()
      ensures View() == StoreVote(old(View()), receiver, 1, sender,
                                  if old(View()).generals[sender].isTraitor && coin then Opposite(order) else order)
    {
      var value := order;
      if generals[sender].isTraitor && coin { value := Opposite(value); }
      AppendVote(receiver, 1, sender, value);
    }

    method OpenRoundOne()
      requires Valid()
      modifies this`currentRound
      ensures Valid() && View() == if old(View()).currentRound == 0 then old(View()).(currentRound := 1) else old(View())
    {
      if currentRound == 0 { currentRound := 1; }
    }

    /** The whole call, when nothing comes between its sections. */
    method SendOrder(sender: int, receiver: int, order: Decision, coin: bool) returns (received: bool)
      requires Valid()
      modifies this`currentRound, generals.Values
      ensures Valid()
      ensures received <==> sender in generals && receiver in generals && generals[sender].role == COMMANDER
      ensures !received ==> View() == old(View())
      ensures received ==>
        var value := if generals[sender].isTraitor && coin then Opposite(order) else order;
        var st := StoreVote(StoreVote(old(View()), sender, 1, sender, order), receiver, 1, sender, value);
        View() == if st.currentRound == 0 then st.(currentRound := 1) else st
    {
      received := AcceptOrder(sender, receiver);
      if !received { return; }
      RecordOrder(sender, order);
      DeliverOrder(sender, receiver, order, coin);
      OpenRoundOne();
    }

    // The sections of the call that exchanges a message.

    /** Looks up both generals and the current round. A message for an earlier round is refused. */
    method LookUp(round: int, sender: int, receiver: int) returns (accepted: bool, seen: int)
      ensures seen == View().currentRound
      ensures accepted <==> sender in View().generals && receiver in View().generals && round >= seen
    {
      seen := currentRound;
      if sender !in generals || receiver !in generals { return false, seen; }
      accepted := round >= seen;
    }

    /** Starts the round unless it was the current one when looked up, and refuses a message that would come back to
        a general on its path. */
    method EnterRound(round: int, seen: int, receiver: int, path: seq<int>) returns (accepted: bool)
      requires Valid()
      modifies this`currentRound
      ensures Valid() && View() == if round > seen then StartRound(old(View()), round) else old(View())
      ensures accepted <==> receiver !in path
    {
      if round > seen { RaiseRound(round); }
      for i := 0 to |path|
        invariant View() == if round > seen then StartRound(old(View()), round) else old(View())
        invariant receiver !in path[..i]
      {
        if path[i] == receiver { return false; }
      }
      assert path[..|path|] == path;
      accepted := true;
    }

    method StoreMessage(round: int, sender: int, receiver: int, message: Decision, coin: bool)
      requires Valid() && sender in View().generals && receiver in View().generals
      modifies generals.Values
      ensures Valid()
      ensures View() == StoreVote(old(View()), receiver, round, sender,
                                  if old(View()).generals[sender].isTraitor && coin then Opposite(message) else message)
    {
      var value := message;
      if generals[sender].isTraitor && coin { value := Opposite(value); }
      AppendVote(receiver, round, sender, value);
    }

    /** The whole call, when nothing comes between its sections. A message that is refused because of its path has
        already raised the round. */
    method ExchangeMessage(round: int, sender: int, receiver: int, message: Decision, path: seq<int>, coin: bool)
      returns (received: bool)
      requires Valid()
      modifies this`currentRound, generals.Values
      ensures Valid()
      ensures received <==>
        sender in generals && receiver in generals && round >= old(currentRound) && receiver !in path
      ensures received ==>
        var value := if generals[sender].isTraitor && coin then Opposite(message) else message;
        View() == StoreVote(StartRound(old(View()), round), receiver, round, sender, value)
      ensures !received ==>
        View() == if sender in generals && receiver in generals && round >= old(currentRound)
                  then StartRound(old(View()), round) else old(View())
    {
      var accepted, seen := LookUp(round, sender, receiver);
      if !accepted { return false; }
      received := EnterRound(round, seen, receiver, path);
      if !received { return; }
      StoreMessage(round, sender, receiver, message, coin);
    }

    /** Adds the votes of one round, sender by sender in no particular order. */
    method CountRound(table: map<int, seq<Decision>>, attack0: nat, retreat0: nat) returns (attack: nat, retreat: nat)
      ensures attack == attack0 + CountFrom(table, table.Keys, ATTACK)
      ensures retreat == retreat0 + CountFrom(table, table.Keys, RETREAT)
    {
      attack, retreat := attack0, retreat0;
      var rest := table.Keys;
      while rest != {}
        invariant rest <= table.Keys
        invariant attack + CountFrom(table, rest, ATTACK) == attack0 + CountFrom(table, table.Keys, ATTACK)
        invariant retreat + CountFrom(table, rest, RETREAT) == retreat0 + CountFrom(table, table.Keys, RETREAT)
        decreases rest
      {
        var sender := PickAny(rest);
        CountFromRemove(table, rest, ATTACK, sender);
        CountFromRemove(table, rest, RETREAT, sender);
        var decisions := table[sender];
        ghost var a, t := attack, retreat;
        for i := 0 to |decisions|
          invariant attack == a + CountIn(decisions[..i], ATTACK)
          invariant retreat == t + CountIn(decisions[..i], RETREAT)
        {
          assert decisions[..i+1][..i] == decisions[..i];
          if decisions[i] == ATTACK { attack := attack + 1; } else { retreat := retreat + 1; }
        }
        assert decisions[..|decisions|] == decisions;
        rest := rest - {sender};
      }
    }

    /** The first order some lieutenant has from general `id`, if any has one. */
    method FirstReport(id: int) returns (found: bool, order: Decision)
      requires Valid()
      ensures found <==> exists i, e :: Reports(View(), id, i, e)
      ensures found ==> exists i :: Reports(View(), id, i, order)
    {
      found, order := false, RETREAT;
      var rest := generals.Keys;
      while rest != {}
        invariant rest <= generals.Keys
        invariant forall i, e :: Reports(View(), id, i, e) ==> i in rest
        decreases rest
      {
        var i := PickAny(rest);
        rest := rest - {i};
        var g := generals[i];
        if i != id && g.role == LIEUTENANT && |Votes(g.messages, 1, id)| > 0 {
          assert Reports(View(), id, i, Votes(g.messages, 1, id)[0]);
          return true, Votes(g.messages, 1, id)[0];
        }
      }
    }

    method MakeDecision(id: int, coin: Decision) returns (d: Decision)
      requires Valid() && id in generals
      ensures MayDecide(View(), id, d)
    {
      var g := generals[id];
      if g.isTraitor { return coin; }
      var attack, retreat := 0, 0;
      var round := 1;
      while round <= maxRounds
        invariant 1 <= round && (round <= maxRounds + 1 || round == 1)
        invariant attack == Tally(g.messages, round - 1, ATTACK) && retreat == Tally(g.messages, round - 1, RETREAT)
        decreases maxRounds - round
      {
        if round in g.messages {
          attack, retreat := CountRound(g.messages[round], attack, retreat);
        }
        round := round + 1;
      }
      if g.role == COMMANDER && attack == 0 && retreat == 0 {
        var found, order := FirstReport(id);
        if found { return order; }
      }
      d := Majority(attack, retreat);
    }

    /** Counts the decisions of the loyal generals; the coins of traitors may fall anyhow. */
    method CountLoyal(coins: (int, int) -> Decision) returns (loyalAttack: nat, loyalRetreat: nat)
      requires Valid()
      ensures AllLoyalDecide(View(), ATTACK) ==> loyalRetreat == 0
      ensures AllLoyalDecide(View(), RETREAT) ==> loyalAttack == 0
      ensures SomeLoyal(View()) ==> loyalAttack + loyalRetreat > 0
    {
      hide MayDecide;
      loyalAttack, loyalRetreat := 0, 0;
      ghost var st := View();
      var rest := generals.Keys;
      while rest != {}
        invariant rest <= generals.Keys
        invariant AllLoyalDecide(st, ATTACK) ==> loyalRetreat == 0
        invariant AllLoyalDecide(st, RETREAT) ==> loyalAttack == 0
        invariant (exists i :: Loyal(st, i) && i !in rest) ==> loyalAttack + loyalRetreat > 0
        decreases rest
      {
        var i := PickAny(rest);
        rest := rest - {i};
        var d := MakeDecision(i, coins(1, i));
        if !generals[i].isTraitor {
          assert Loyal(st, i);
          if d == ATTACK { loyalAttack := loyalAttack + 1; } else { loyalRetreat := loyalRetreat + 1; }
        }
      }
      assert forall i :: Loyal(st, i) ==> i !in rest;
    }

    /** Asks the loyal generals again, until one of them decides otherwise. */
    method LoyalAgreeOn(consensusDecision: Decision, coins: (int, int) -> Decision) returns (agree: bool)
      requires Valid()
      ensures agree ==> LoyalCanDecide(View(), consensusDecision)
      ensures AllLoyalDecide(View(), consensusDecision) ==> agree
    {
      hide MayDecide;
      ghost var st := View();
      var rest := generals.Keys;
      while rest != {}
        invariant rest <= generals.Keys
        invariant forall i :: Loyal(st, i) && i !in rest ==> MayDecide(st, i, consensusDecision)
        decreases rest
      {
        var i := PickAny(rest);
        rest := rest - {i};
        if !generals[i].isTraitor {
          assert Loyal(st, i);
          var d := MakeDecision(i, coins(2, i));
          if d != consensusDecision { return false; }
        }
      }
      agree := true;
    }

    /** Consensus is reported only if some decision is open to every loyal general, and always if all loyal
        generals can only decide alike. */
    method GetConsensus(id: int, coins: (int, int) -> Decision) returns (decision: Decision, consensusReached: bool)
      requires Valid()
      ensures id !in generals ==> decision == RETREAT && !consensusReached
      ensures id in generals ==> MayDecide(View(), id, decision)
      ensures consensusReached ==> LoyalCanDecide(View(), ATTACK) || LoyalCanDecide(View(), RETREAT)
      ensures id in generals && SomeLoyal(View()) && (AllLoyalDecide(View(), ATTACK) || AllLoyalDecide(View(), RETREAT))
              ==> consensusReached
    {
      hide MayDecide, AllLoyalDecide, LoyalCanDecide, SomeLoyal;
      if id !in generals { return RETREAT, false; }
      decision := MakeDecision(id, coins(0, id));
      var loyalAttack, loyalRetreat := CountLoyal(coins);
      var consensusDecision := if loyalAttack > loyalRetreat then ATTACK else RETREAT;
      consensusReached := LoyalAgreeOn(consensusDecision, coins);
    }
  }
}
