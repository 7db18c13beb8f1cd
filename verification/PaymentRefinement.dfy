/** The gateway's payments are runs of the interleaved machine, so what holds of all its runs holds of them. */
module PaymentRefinement {
  import opened Basics
  import opened Collections
  import opened Banks
  import T = TransferRuns
  import opened PaymentSpec
  import opened PaymentSteps
  import R = PaymentRuns

  ghost predicate Reaches(s: T.System, s': T.System) {
    exists events :: T.Run(s, events) == s'
  }

  lemma ReachesItself(s: T.System)
    ensures Reaches(s, s)
  {
    assert T.Run(s, []) == s;
  }

  lemma ReachesNext(s: T.System, s': T.System, e: T.Event)
    requires Reaches(s, s')
    ensures Reaches(s, T.Next(s', e))
  {
    var events :| T.Run(s, events) == s';
    assert (events + [e])[..|events|] == events;
    assert T.Run(s, events + [e]) == T.Next(s', e);
  }

  lemma {:induction false} RunInTwo(s: T.System, a: seq<T.Event>, b: seq<T.Event>)
    ensures T.Run(s, a + b) == T.Run(T.Run(s, a), b)
  {
    hide T.Next;
    if |b| == 0 {
      assert a + b == a;
    } else {
      RunInTwo(s, a, b[..|b|-1]);
      assert (a + b)[..|a + b|-1] == a + b[..|b|-1];
    }
  }

  lemma ReachesFar(s: T.System, s': T.System, s'': T.System)
    requires Reaches(s, s') && Reaches(s', s'')
    ensures Reaches(s, s'')
  {
    var a :| T.Run(s, a) == s';
    var b :| T.Run(s', b) == s'';
    RunInTwo(s, a, b);
  }

  // ---------- One call ----------

  /** The machine before a call to one half's bank. */
  ghost predicate AboutToCall(s: T.System, st: GState, id: string, side: T.Side, step: T.Step) {
    && s.banks == st.banks && id in s.transfers
    && var t := s.transfers[id];
    var h := T.HalfOf(t, side);
    && h.bank in s.banks
    && (if step == T.Prepare then h.prepare == T.FreshCall else T.CommitSent(t) && h.commitSeen.None? && h.applied == 0)
  }

  function HalfAfter(h: T.Half, step: T.Step, sent: Sent, fate: Fate): T.Half {
    if step == T.Prepare then h.(prepare := T.Call(fate != Lost, sent.applied == 1, Some(sent.ok)))
    else h.(applied := sent.applied, commitSeen := Some(sent.ok))
  }

  function Delivered(s: T.System, id: string, side: T.Side, step: T.Step, fate: Fate): T.System {
    if fate == Lost then s else T.DeliverCall(s, id, side, step)
  }

  lemma DeliveryIsSent(s: T.System, st: GState, id: string, side: T.Side, step: T.Step, fate: Fate)
    requires AboutToCall(s, st, id, side, step)
    ensures var t := s.transfers[id];
      var h := T.HalfOf(t, side);
      var sent := Send(st, h.bank, T.RequestOf(id, t, side, step), fate);
      var h' := if step == T.Prepare then h.(prepare := T.Call(fate != Lost, sent.applied == 1, None))
                else h.(applied := sent.applied);
      var s' := Delivered(s, id, side, step, fate);
      && s'.banks == sent.st.banks && s'.spent == s.spent
      && s'.transfers == s.transfers[id := T.WithHalf(t, side, h')]
  {
    hide Handle, T.RequestOf;
    if fate == Lost {
      var t := s.transfers[id];
      assert T.WithHalf(t, side, T.HalfOf(t, side)) == t;
      assert s.transfers[id := t] == s.transfers;
    }
  }

  /** A call of the coordinator is a delivery, unless it is lost, and an answer. */
  lemma CallIsARun(s: T.System, st: GState, id: string, side: T.Side, step: T.Step, fate: Fate) returns (s': T.System)
    requires AboutToCall(s, st, id, side, step)
    ensures Reaches(s, s')
    ensures var t := s.transfers[id];
      var h := T.HalfOf(t, side);
      var sent := Send(st, h.bank, T.RequestOf(id, t, side, step), fate);
      && s'.banks == sent.st.banks && s'.spent == s.spent
      && s'.transfers == s.transfers[id := T.WithHalf(t, side, HalfAfter(h, step, sent, fate))]
  {
    hide Reaches, Delivered, T.RequestOf, T.DeliverCall;
    var t := s.transfers[id];
    var h := T.HalfOf(t, side);
    var r := T.RequestOf(id, t, side, step);
    var sent, s1 := Send(st, h.bank, r, fate), Delivered(s, id, side, step, fate);
    DeliveryIsSent(s, st, id, side, step, fate);
    OnlyAcceptedIsOk(st, h.bank, r, fate);
    hide Send;
    DeliveredIsReached(s, id, side, step, fate);
    ReachesNext(s, s1, T.Answer(id, side, step, sent.ok));
    s' := T.AnswerCall(s1, id, side, step, sent.ok);
  }

  lemma DeliveredIsReached(s: T.System, id: string, side: T.Side, step: T.Step, fate: Fate)
    ensures Reaches(s, Delivered(s, id, side, step, fate))
  {
    ReachesItself(s);
    ReachesNext(s, s, T.Deliver(id, side, step));
  }

  lemma OnlyAcceptedIsOk(st: GState, bank: string, r: Request, fate: Fate)
    ensures Send(st, bank, r, fate).ok ==> fate != Lost && Send(st, bank, r, fate).applied == 1
  {
  }

  // ---------- A transfer between two known banks ----------

  /** `s` has the transfer `p`, in phase `phase`, at the banks the gateway finds for its clients. */
  ghost predicate Carries(cfg: Config, s: T.System, st: GState, id: string, p: Payment, phase: T.Phase) {
    && s.banks == st.banks && id in s.transfers
    && p.client in cfg.bankOf && p.receiver in cfg.bankOf && cfg.bankOf[p.client] != cfg.bankOf[p.receiver]
    && cfg.bankOf[p.client] in s.banks && cfg.bankOf[p.receiver] in s.banks
    && var t := s.transfers[id];
    && t.amount == p.amount && t.phase == phase
    && t.debit.client == p.client && t.debit.bank == cfg.bankOf[p.client]
    && t.credit.client == p.receiver && t.credit.bank == cfg.bankOf[p.receiver]
  }

  /** All other transfers, and what was spent, are the same. */
  ghost predicate OnlyTouches(s: T.System, s': T.System, id: string) {
    && s'.spent == s.spent && id in s'.transfers
    && forall other :: other != id ==> Find(s'.transfers, other) == Find(s.transfers, other)
  }

  predicate Failed(phase: T.Phase) {
    phase == T.GivenUp || phase == T.CommitFailed
  }

  lemma SendAbortIsARun(cfg: Config, s: T.System, st: GState, id: string, side: T.Side, client: string, connects: bool,
                        fate: Fate) returns (s': T.System)
    requires s.banks == st.banks && id in s.transfers && Failed(s.transfers[id].phase)
    requires client in cfg.bankOf && cfg.bankOf[client] in s.banks
    requires cfg.bankOf[client] == T.HalfOf(s.transfers[id], side).bank
    ensures Reaches(s, s') && s' == s.(banks := SendAbort(cfg, st, id, client, connects, fate).banks)
  {
    hide Handle;
    ReachesItself(s);
    s' := s;
    if connects && fate != Lost {
      ReachesNext(s, s, T.DeliverAbort(id, side));
      s' := T.DeliverAbortTo(s, id, side);
    }
  }

  lemma AbortIsARun(cfg: Config, s: T.System, st: GState, id: string, p: Payment, env: Env, phase: T.Phase)
    returns (s': T.System)
    requires Carries(cfg, s, st, id, p, phase) && Failed(phase)
    ensures Reaches(s, s') && s' == s.(banks := AbortTransaction(cfg, st, id, p, env).banks)
  {
    hide SendAbort;
    var st1 := SetState(st, id, Aborting);
    var s1 := SendAbortIsARun(cfg, s, st1, id, T.Debit, p.client, env.senderAtAbort, env.abortSender);
    var st2 := SendAbort(cfg, st1, id, p.client, env.senderAtAbort, env.abortSender);
    BanksStay(cfg, st1, id, p.client, env.senderAtAbort, env.abortSender);
    s' := SendAbortIsARun(cfg, s1, st2, id, T.Credit, p.receiver, env.receiverAtAbort, env.abortReceiver);
    ReachesFar(s, s1, s');
  }

  lemma BanksStay(cfg: Config, st: GState, id: string, client: string, connects: bool, fate: Fate)
    ensures SendAbort(cfg, st, id, client, connects, fate).banks.Keys == st.banks.Keys
  {
    hide Handle;
  }

  /** A deadline or a failure ends the transfer, and the gateway tells the banks. */
  lemma GivingUpIsARun(cfg: Config, s: T.System, st: GState, id: string, p: Payment, env: Env, phase: T.Phase)
    returns (s': T.System)
    requires Carries(cfg, s, st, id, p, phase) && (phase == T.Preparing || phase == T.Committing)
    ensures Reaches(s, s') && s'.banks == AbortTransaction(cfg, st, id, p, env).banks && s'.spent == s.spent
    ensures s'.transfers == s.transfers[id := s.transfers[id].(phase := T.TimedOut(s.transfers[id]))]
  {
    hide AbortTransaction;
    ReachesItself(s);
    ReachesNext(s, s, T.GiveUp(id));
    var s1 := T.Next(s, T.GiveUp(id));
    s' := AbortIsARun(cfg, s1, st, id, p, env, T.TimedOut(s.transfers[id]));
    ReachesFar(s, s1, s');
  }

  ghost predicate Untouched(h: T.Half) {
    h.prepare == T.FreshCall && h.commitSeen.None? && h.applied == 0
  }

  ghost predicate NotCommitted(t: T.Transfer) {
    t.debit.commitSeen.None? && t.debit.applied == 0 && t.credit.commitSeen.None? && t.credit.applied == 0
  }

  /** Both prepare calls, one after the other. */
  lemma BothPreparesAreARun(cfg: Config, s: T.System, st: GState, id: string, p: Payment, env: Env) returns (s': T.System)
    requires Carries(cfg, s, st, id, p, T.Preparing)
    requires Untouched(s.transfers[id].debit) && Untouched(s.transfers[id].credit)
    ensures
      var debit := Send(st, cfg.bankOf[p.client], PrepareDebit(id, p.client, p.amount), env.prepareDebit);
      var credit := Send(debit.st, cfg.bankOf[p.receiver], PrepareCredit(id, p.receiver, p.amount), env.prepareCredit);
      && Reaches(s, s') && Carries(cfg, s', credit.st, id, p, T.Preparing) && OnlyTouches(s, s', id)
      && NotCommitted(s'.transfers[id])
      && s'.transfers[id].debit.prepare.seen == Some(debit.ok) && s'.transfers[id].credit.prepare.seen == Some(credit.ok)
  {
    hide Send, Reaches;
    var s1 := CallIsARun(s, st, id, T.Debit, T.Prepare, env.prepareDebit);
    var debit := Send(st, cfg.bankOf[p.client], PrepareDebit(id, p.client, p.amount), env.prepareDebit);
    SendKeepsKeys(st, cfg.bankOf[p.client], PrepareDebit(id, p.client, p.amount), env.prepareDebit);
    s' := CallIsARun(s1, debit.st, id, T.Credit, T.Prepare, env.prepareCredit);
    SendKeepsKeys(debit.st, cfg.bankOf[p.receiver], PrepareCredit(id, p.receiver, p.amount), env.prepareCredit);
    ReachesFar(s, s1, s');
  }

  lemma SendKeepsKeys(st: GState, bank: string, r: Request, fate: Fate)
    ensures Send(st, bank, r, fate).st.banks.Keys == st.banks.Keys
  {
    hide Handle;
  }

  lemma PrepareIsARun(cfg: Config, s: T.System, st: GState, id: string, p: Payment, env: Env) returns (s': T.System)
    requires Carries(cfg, s, st, id, p, T.Preparing)
    requires Untouched(s.transfers[id].debit) && Untouched(s.transfers[id].credit)
    ensures var (st', prepared) := PreparePhase(cfg, st, id, p, env);
      && Reaches(s, s') && OnlyTouches(s, s', id) && NotCommitted(s'.transfers[id]) && s'.transfers[id].amount == p.amount
      && (if prepared then Carries(cfg, s', st', id, p, T.Committing)
          else s'.banks == st'.banks && s'.transfers[id].phase == T.GivenUp)
  {
    hide Send, Reaches, AbortTransaction;
    if !env.senderAtPrepare || !env.receiverAtPrepare {
      s' := GivingUpIsARun(cfg, s, st, id, p, env, T.Preparing);
    } else {
      var st1 := SetState(st, id, TwoPhaseState.Preparing);
      var s1 := BothPreparesAreARun(cfg, s, st1, id, p, env);
      var debit := Send(st1, cfg.bankOf[p.client], PrepareDebit(id, p.client, p.amount), env.prepareDebit);
      var credit := Send(debit.st, cfg.bankOf[p.receiver], PrepareCredit(id, p.receiver, p.amount), env.prepareCredit);
      if env.prepareTimedOut || !debit.ok || !credit.ok {
        s' := GivingUpIsARun(cfg, s1, credit.st, id, p, env, T.Preparing);
      } else {
        ReachesItself(s1);
        ReachesNext(s1, s1, T.Decide(id));
        s' := T.Next(s1, T.Decide(id));
      }
      ReachesFar(s, s1, s');
    }
  }

  /** Both commit calls, one after the other. */
  lemma BothCommitsAreARun(cfg: Config, s: T.System, st: GState, id: string, p: Payment, env: Env) returns (s': T.System)
    requires Carries(cfg, s, st, id, p, T.Committing) && NotCommitted(s.transfers[id])
    ensures
      var debit := Send(st, cfg.bankOf[p.client], CommitDebit(id, p.client, p.amount), env.commitDebit);
      var credit := Send(debit.st, cfg.bankOf[p.receiver], CommitCredit(id, p.receiver, p.amount), env.commitCredit);
      && Reaches(s, s') && Carries(cfg, s', credit.st, id, p, T.Committing) && OnlyTouches(s, s', id)
      && s'.transfers[id].debit.applied == debit.applied && s'.transfers[id].credit.applied == credit.applied
      && s'.transfers[id].debit.commitSeen == Some(debit.ok) && s'.transfers[id].credit.commitSeen == Some(credit.ok)
  {
    hide Send, Reaches;
    var s1 := CallIsARun(s, st, id, T.Debit, T.Commit, env.commitDebit);
    var debit := Send(st, cfg.bankOf[p.client], CommitDebit(id, p.client, p.amount), env.commitDebit);
    SendKeepsKeys(st, cfg.bankOf[p.client], CommitDebit(id, p.client, p.amount), env.commitDebit);
    s' := CallIsARun(s1, debit.st, id, T.Credit, T.Commit, env.commitCredit);
    SendKeepsKeys(debit.st, cfg.bankOf[p.receiver], CommitCredit(id, p.receiver, p.amount), env.commitCredit);
    ReachesFar(s, s1, s');
  }

  lemma CommitIsARun(cfg: Config, s: T.System, st: GState, id: string, p: Payment, env: Env) returns (s': T.System)
    requires Carries(cfg, s, st, id, p, T.Committing) && NotCommitted(s.transfers[id])
    ensures var out := CommitPhase(cfg, st, id, p, env);
      && Reaches(s, s') && OnlyTouches(s, s', id) && s'.banks == out.st.banks && out.paid == 0
      && s'.transfers[id].amount == p.amount
      && s'.transfers[id].phase == (if out.success then T.Succeeded else T.CommitFailed)
      && s'.transfers[id].debit.applied == out.debits && s'.transfers[id].credit.applied == out.credits
  {
    hide Send, Reaches, AbortTransaction, UpdateBalances;
    if !env.senderAtCommit || !env.receiverAtCommit {
      s' := GivingUpIsARun(cfg, s, st, id, p, env, T.Committing);
    } else {
      var st1 := SetState(st, id, TwoPhaseState.Committing);
      var s1 := BothCommitsAreARun(cfg, s, st1, id, p, env);
      var debit := Send(st1, cfg.bankOf[p.client], CommitDebit(id, p.client, p.amount), env.commitDebit);
      var credit := Send(debit.st, cfg.bankOf[p.receiver], CommitCredit(id, p.receiver, p.amount), env.commitCredit);
      if env.commitTimedOut {
        s' := GivingUpIsARun(cfg, s1, credit.st, id, p, env, T.Committing);
      } else {
        BalancesOnly(SetState(credit.st, id, CommittedAll), SetState(credit.st, id, CommittedAll), p);
        ReachesItself(s1);
        ReachesNext(s1, s1, T.Decide(id));
        s' := T.Next(s1, T.Decide(id));
      }
      ReachesFar(s, s1, s');
    }
  }

  // ---------- A whole payment ----------

  /** What the gateway reports and what the banks applied is what the machine says of the transfer. A payment without
      a transfer in the machine has applied no halves. */
  ghost predicate Tells(s: T.System, id: string, amount: int, out: Outcome) {
    match Find(s.transfers, id)
    case None => out.debits == 0 && out.credits == 0
    case Some(t) =>
      && t.amount == amount
      && t.phase == (if out.success then T.Succeeded else if t.phase == T.GivenUp then T.GivenUp else T.CommitFailed)
      && t.debit.applied == out.debits && t.credit.applied == out.credits
  }

  ghost predicate SameOthers(s: T.System, s': T.System, id: string) {
    forall other :: other != id ==> Find(s'.transfers, other) == Find(s.transfers, other)
  }

  predicate KnownBanks(cfg: Config, st: GState, p: Payment) {
    && p.client in cfg.bankOf && p.receiver in cfg.bankOf
    && cfg.bankOf[p.client] in st.banks && cfg.bankOf[p.receiver] in st.banks
  }

  /** Aborting at banks that have no such record changes nothing there. */
  lemma NothingToAbort(cfg: Config, st: GState, id: string, p: Payment, env: Env)
    requires forall b :: b in st.banks ==> id !in st.banks[b].transactions
    ensures AbortTransaction(cfg, st, id, p, env).banks == st.banks
  {
    hide SetState;
    var st1 := SetState(st, id, Aborting);
    assert st1.banks == st.banks by { StateKeepsBanks(st, id, Aborting); }
    NothingToSendAbort(cfg, st1, id, p.client, env.senderAtAbort, env.abortSender);
    var st2 := SendAbort(cfg, st1, id, p.client, env.senderAtAbort, env.abortSender);
    NothingToSendAbort(cfg, st2, id, p.receiver, env.receiverAtAbort, env.abortReceiver);
    var st3 := SendAbort(cfg, st2, id, p.receiver, env.receiverAtAbort, env.abortReceiver);
    StateKeepsBanks(st3, id, AbortedAll);
  }

  lemma StateKeepsBanks(st: GState, id: string, state: TwoPhaseState)
    ensures SetState(st, id, state).banks == st.banks
  {
  }

  lemma NothingToSendAbort(cfg: Config, st: GState, id: string, client: string, connects: bool, fate: Fate)
    requires forall b :: b in st.banks ==> id !in st.banks[b].transactions
    ensures SendAbort(cfg, st, id, client, connects, fate).banks == st.banks
  {
    var bank := BankFor(cfg, st, client, connects);
    if bank.Some? { assert st.banks[bank.value := st.banks[bank.value]] == st.banks; }
  }

  lemma TwoPhaseIsARun(cfg: Config, s: T.System, st: GState, id: string, p: Payment, env: Env) returns (s': T.System)
    requires T.SystemOk(s) && s.banks == st.banks && id !in s.transfers && InterBank(cfg, p) && env.between == []
    ensures var out := ProcessTwoPhase(cfg, st, id, p, env);
      Reaches(s, s') && s'.banks == out.st.banks && SameOthers(s, s', id) && Tells(s', id, p.amount, out)
      && s'.spent == s.spent + out.paid * p.amount
  {
    hide Reaches, PreparePhase, CommitPhase, AbortTransaction;
    if InProgress(Find(st.records, id)) {
      ReachesItself(s);
      s' := s;
    } else if !KnownBanks(cfg, st, p) {
      UnknownBankIsARun(cfg, s, st, id, p, env);
      s' := s;
    } else {
      s' := KnownBanksAreARun(cfg, s, st, id, p, env);
    }
  }

  /** A transfer to or from an unknown bank never reaches the machine. */
  lemma UnknownBankIsARun(cfg: Config, s: T.System, st: GState, id: string, p: Payment, env: Env)
    requires T.SystemOk(s) && s.banks == st.banks && id !in s.transfers && !KnownBanks(cfg, st, p)
    requires !InProgress(Find(st.records, id))
    ensures var out := ProcessTwoPhase(cfg, st, id, p, env);
      Reaches(s, s) && out.st.banks == s.banks && Tells(s, id, p.amount, out) && out.paid == 0
  {
    hide Reaches, AbortTransaction;
    ReachesItself(s);
    var st1 := Store(st, id, TwoPhaseRecord(TwoPhaseState.Preparing, env.now));
    NothingToAbort(cfg, st1, id, p, env);
  }

  lemma KnownBanksAreARun(cfg: Config, s: T.System, st: GState, id: string, p: Payment, env: Env) returns (s': T.System)
    requires s.banks == st.banks && id !in s.transfers && InterBank(cfg, p) && KnownBanks(cfg, st, p)
    requires env.between == []
    requires !InProgress(Find(st.records, id))
    ensures var out := ProcessTwoPhase(cfg, st, id, p, env);
      Reaches(s, s') && s'.banks == out.st.banks && SameOthers(s, s', id) && Tells(s', id, p.amount, out)
      && s'.spent == s.spent + out.paid * p.amount
  {
    hide Reaches, PreparePhase, CommitPhase;
    var st1 := Store(st, id, TwoPhaseRecord(TwoPhaseState.Preparing, env.now));
    var e := T.Start(id, p.client, p.receiver, cfg.bankOf[p.client], cfg.bankOf[p.receiver], p.amount);
    ReachesItself(s);
    ReachesNext(s, s, e);
    var s1 := T.Next(s, e);
    var s2 := PrepareIsARun(cfg, s1, st1, id, p, env);
    ReachesFar(s, s1, s2);
    var (st2, prepared) := PreparePhase(cfg, st1, id, p, env);
    if prepared {
      s' := CommitIsARun(cfg, s2, st2, id, p, env);
      ReachesFar(s, s2, s');
    } else {
      s' := s2;
    }
  }

  lemma SimpleIsARun(cfg: Config, s: T.System, st: GState, id: string, p: Payment, balance: int, env: Env)
    returns (s': T.System)
    requires s.banks == st.banks && id !in s.transfers
    ensures var out := ProcessSimple(cfg, st, id, p, balance, env);
      Reaches(s, s') && s'.banks == out.st.banks && s'.transfers == s.transfers && Tells(s', id, p.amount, out)
      && s'.spent == s.spent + out.paid * p.amount
  {
    hide Reaches, Handle;
    ReachesItself(s);
    s' := s;
    var bank := BankFor(cfg, st, p.client, env.bankAtPay);
    if bank.Some? && p.client in cfg.accounts && env.pay != Lost {
      var e := T.PaySimple(bank.value, cfg.accounts[p.client], p.amount);
      ReachesNext(s, s, e);
      s' := T.Next(s, e);
    }
  }

  /** Whatever happens to its calls, a payment with a new identifier is a run of the machine. */
  lemma PaymentIsARun(cfg: Config, s: T.System, st: GState, user: string, id: string, p: Payment, env: Env)
    returns (s': T.System)
    requires T.SystemOk(s) && s.banks == st.banks && id !in s.transfers && InterBank(cfg, p) && env.between == []
    ensures var out := Process(cfg, st, user, id, p, env);
      Reaches(s, s') && s'.banks == out.st.banks && SameOthers(s, s', id) && Tells(s', id, p.amount, out)
      && s'.spent == s.spent + out.paid * p.amount
  {
    hide Reaches, ProcessTwoPhase, ProcessSimple, T.SystemOk;
    ReachesItself(s);
    s' := s;
    var isCached := Cached(cfg, Find(st.records, id)).Some?;
    if user == p.client && !isCached && p.client in st.balances && st.balances[p.client] >= p.amount {
      if cfg.usesTwoPhase && p.receiver != "" {
        s' := TwoPhaseIsARun(cfg, s, st, id, p, env);
      } else {
        s' := SimpleIsARun(cfg, s, st, id, p, st.balances[p.client], env);
      }
    }
  }

  // ---------- Whole runs ----------

  /** Payments with identifiers of their own, new to the machine, each between two banks or at one, and clean-ups;
      nothing of earlier payments is late. */
  ghost predicate Serial(cfg: Config, ops: seq<R.Op>, s: T.System) {
    && (forall k :: 0 <= k < |ops| ==> !ops[k].Late?)
    && (forall k :: 0 <= k < |ops| && ops[k].Attempt? ==>
          InterBank(cfg, ops[k].p) && ops[k].id !in s.transfers && ops[k].env.between == [])
    && (forall i, k :: 0 <= i < k < |ops| && ops[i].Attempt? && ops[k].Attempt? ==> ops[i].id != ops[k].id)
  }

  /** What the gateway did and answered in operation `k`. */
  ghost function Answer(cfg: Config, st: GState, ops: seq<R.Op>, k: nat): Outcome
    requires k < |ops|
  {
    R.Apply(cfg, R.Run(cfg, st, ops[..k]), ops[k])
  }

  /** `s'` agrees with every answer, and holds no transfers but these and those of `s`, which are as they were. */
  ghost predicate TellsAll(cfg: Config, st: GState, ops: seq<R.Op>, s: T.System, s': T.System) {
    && (forall k :: 0 <= k < |ops| && ops[k].Attempt? ==>
          Tells(s', ops[k].id, ops[k].p.amount, Answer(cfg, st, ops, k)))
    && (forall id :: Find(s'.transfers, id) == Find(s.transfers, id)
                     || exists k :: 0 <= k < |ops| && R.IsAttempt(ops[k], id))
  }

  lemma {:induction false} RunIsOk(s: T.System, events: seq<T.Event>)
    requires T.SystemOk(s)
    ensures T.SystemOk(T.Run(s, events))
  {
    hide T.SystemOk, T.Next;
    if |events| > 0 {
      RunIsOk(s, events[..|events|-1]);
      T.NextKeeps(T.Run(s, events[..|events|-1]), events[|events|-1]);
    }
  }

  lemma ReachedIsOk(s: T.System, s': T.System)
    requires T.SystemOk(s) && Reaches(s, s')
    ensures T.SystemOk(s')
  {
    hide T.SystemOk;
    var events :| T.Run(s, events) == s';
    RunIsOk(s, events);
  }

  lemma TellsOneMore(cfg: Config, st: GState, ops: seq<R.Op>, s: T.System, s1: T.System, s': T.System)
    requires |ops| > 0 && Serial(cfg, ops, s) && TellsAll(cfg, st, ops[..|ops|-1], s, s1)
    requires var last := ops[|ops|-1];
      if last.Attempt? then
        SameOthers(s1, s', last.id) && Tells(s', last.id, last.p.amount, Answer(cfg, st, ops, |ops| - 1))
      else s' == s1
    ensures TellsAll(cfg, st, ops, s, s')
  {
    hide R.Apply, R.Run;
    var before, last := ops[..|ops|-1], ops[|ops|-1];
    forall k | 0 <= k < |ops| && ops[k].Attempt?
      ensures Tells(s', ops[k].id, ops[k].p.amount, Answer(cfg, st, ops, k))
    {
      if k < |before| {
        assert before[..k] == ops[..k] && before[k] == ops[k];
        assert Tells(s1, before[k].id, before[k].p.amount, Answer(cfg, st, before, k));
        assert Find(s'.transfers, ops[k].id) == Find(s1.transfers, ops[k].id);
      }
    }
    forall id | Find(s'.transfers, id) != Find(s.transfers, id)
      ensures exists k :: 0 <= k < |ops| && R.IsAttempt(ops[k], id)
    {
      if R.IsAttempt(last, id) {
        assert R.IsAttempt(ops[|ops|-1], id);
      } else {
        assert Find(s1.transfers, id) != Find(s.transfers, id) by {
          if last.Attempt? { assert Find(s'.transfers, id) == Find(s1.transfers, id); }
        }
        var k :| 0 <= k < |before| && R.IsAttempt(before[k], id);
        assert R.IsAttempt(ops[k], id);
      }
    }
  }

  lemma FreshId(cfg: Config, st: GState, ops: seq<R.Op>, s: T.System, s1: T.System)
    requires |ops| > 0 && Serial(cfg, ops, s) && TellsAll(cfg, st, ops[..|ops|-1], s, s1) && ops[|ops|-1].Attempt?
    ensures ops[|ops|-1].id !in s1.transfers
  {
    var before, id := ops[..|ops|-1], ops[|ops|-1].id;
    forall k | 0 <= k < |before| ensures !R.IsAttempt(before[k], id) {
      assert before[k] == ops[k];
    }
    assert Find(s1.transfers, id) == Find(s.transfers, id);
  }

  lemma SerialPrefix(cfg: Config, ops: seq<R.Op>, s: T.System)
    requires |ops| > 0 && Serial(cfg, ops, s)
    ensures Serial(cfg, ops[..|ops|-1], s)
  {
  }

  /** From every sound state of the machine, a run of the service with identifiers new to it is a run of the machine
      that ends with the same banks and agrees with every answer. */
  lemma {:induction false} ServiceRunsTheMachine(cfg: Config, st: GState, ops: seq<R.Op>, s: T.System)
    returns (s': T.System)
    requires T.SystemOk(s) && s.banks == st.banks && Serial(cfg, ops, s)
    ensures Reaches(s, s') && T.SystemOk(s') && s'.banks == R.Run(cfg, st, ops).banks && TellsAll(cfg, st, ops, s, s')
  {
    hide Reaches, T.SystemOk, Process;
    if |ops| == 0 {
      ReachesItself(s);
      s' := s;
    } else {
      var before, last := ops[..|ops|-1], ops[|ops|-1];
      SerialPrefix(cfg, ops, s);
      var s1 := ServiceRunsTheMachine(cfg, st, before, s);
      if last.Attempt? {
        FreshId(cfg, st, ops, s, s1);
        s' := PaymentIsARun(cfg, s1, R.Run(cfg, st, before), last.user, last.id, last.p, last.env);
        ReachesFar(s, s1, s');
        ReachedIsOk(s, s');
      } else {
        s' := s1;
      }
      TellsOneMore(cfg, st, ops, s, s1, s');
    }
  }
}
