/** Money over whole runs of the gateway, whatever happens to its calls. */
module PaymentConservation {
  import opened Basics
  import opened Collections
  import opened Banks
  import opened PaymentSpec
  import opened PaymentSteps
  import opened PaymentRuns

  /** What one payment adds to all banks together. */
  function Inflow(p: Payment, out: Outcome): int {
    out.credits * p.amount - out.debits * p.amount - out.paid * p.amount
  }

  /** What the payments of a run add. */
  function Inflows(cfg: Config, st: GState, ops: seq<Op>): int {
    if |ops| == 0 then 0
    else
      var before, last := ops[..|ops|-1], ops[|ops|-1];
      Inflows(cfg, st, before) + if last.Attempt? then Inflow(last.p, Apply(cfg, Run(cfg, st, before), last)) else 0
  }

  lemma SendMovesMoney(st: GState, bank: string, r: Request, fate: Fate)
    ensures var sent := Send(st, bank, r, fate);
      Money(sent.st.banks) == Money(st.banks) + sent.applied * Effect(r, Accepted)
  {
    hide Handle, Effect, Holdings;
    if fate != Lost && bank in st.banks {
      var (b, reply) := Handle(st.banks[bank], r);
      RequestsMoveTheirAmount(st.banks[bank], r);
      RefusedMovesNothing(r, reply);
      SumMapUpdate(st.banks, Holdings, bank, b);
    }
  }

  lemma RefusedMovesNothing(r: Request, reply: Reply)
    ensures reply != Accepted ==> Effect(r, reply) == 0
  {
  }

  lemma SendAbortKeepsMoney(cfg: Config, st: GState, id: string, client: string, connects: bool, fate: Fate)
    ensures Money(SendAbort(cfg, st, id, client, connects, fate).banks) == Money(st.banks)
  {
    hide Send, Money;
    var bank := BankFor(cfg, st, client, connects);
    if bank.Some? { SendMovesMoney(st, bank.value, Abort(id), fate); }
  }

  lemma AbortKeepsMoney(cfg: Config, st: GState, id: string, p: Payment, env: Env)
    ensures Money(AbortTransaction(cfg, st, id, p, env).banks) == Money(st.banks)
  {
    hide SendAbort, Money;
    var st1 := SetState(st, id, Aborting);
    SendAbortKeepsMoney(cfg, st1, id, p.client, env.senderAtAbort, env.abortSender);
    var st2 := SendAbort(cfg, st1, id, p.client, env.senderAtAbort, env.abortSender);
    SendAbortKeepsMoney(cfg, st2, id, p.receiver, env.receiverAtAbort, env.abortReceiver);
  }

  lemma PrepareKeepsMoney(cfg: Config, st: GState, id: string, p: Payment, env: Env)
    ensures Money(PreparePhase(cfg, st, id, p, env).0.banks) == Money(st.banks)
  {
    hide AbortTransaction, Send, BankFor, Money;
    var sender := BankFor(cfg, st, p.client, env.senderAtPrepare);
    var receiver := BankFor(cfg, st, p.receiver, env.receiverAtPrepare);
    if sender.None? || receiver.None? {
      AbortKeepsMoney(cfg, st, id, p, env);
    } else {
      var st1 := SetState(st, id, Preparing);
      var st2 := Send(st1, sender.value, PrepareDebit(id, p.client, p.amount), env.prepareDebit).st;
      var st3 := Send(st2, receiver.value, PrepareCredit(id, p.receiver, p.amount), env.prepareCredit).st;
      SendMovesMoney(st1, sender.value, PrepareDebit(id, p.client, p.amount), env.prepareDebit);
      SendMovesMoney(st2, receiver.value, PrepareCredit(id, p.receiver, p.amount), env.prepareCredit);
      AbortKeepsMoney(cfg, st3, id, p, env);
    }
  }

  lemma CommitMovesMoney(cfg: Config, st: GState, id: string, p: Payment, env: Env)
    ensures var out := CommitPhase(cfg, st, id, p, env);
      Money(out.st.banks) == Money(st.banks) + Inflow(p, out) && out.paid == 0
  {
    hide AbortTransaction, Send, BankFor, Money, UpdateBalances;
    var sender := BankFor(cfg, st, p.client, env.senderAtCommit);
    var receiver := BankFor(cfg, st, p.receiver, env.receiverAtCommit);
    if sender.None? || receiver.None? {
      AbortKeepsMoney(cfg, st, id, p, env);
    } else {
      var st1 := SetState(st, id, Committing);
      var st2 := Send(st1, sender.value, CommitDebit(id, p.client, p.amount), env.commitDebit).st;
      var st3 := Send(st2, receiver.value, CommitCredit(id, p.receiver, p.amount), env.commitCredit).st;
      SendMovesMoney(st1, sender.value, CommitDebit(id, p.client, p.amount), env.commitDebit);
      SendMovesMoney(st2, receiver.value, CommitCredit(id, p.receiver, p.amount), env.commitCredit);
      AbortKeepsMoney(cfg, st3, id, p, env);
      BalancesOnly(SetState(st3, id, CommittedAll), SetState(st3, id, CommittedAll), p);
    }
  }

  lemma LateKeepsMoney(st: GState, late: LateRequest)
    ensures Money(Deliver(st, late).banks) == Money(st.banks)
  {
    hide Send, Money;
    SendMovesMoney(st, late.bank, late.request, ReplyLost);
  }

  lemma {:induction false} LatesKeepMoney(st: GState, lates: seq<LateRequest>)
    ensures Money(DeliverAll(st, lates).banks) == Money(st.banks)
  {
    hide Deliver, Money;
    if |lates| > 0 {
      LatesKeepMoney(st, lates[..|lates|-1]);
      LateKeepsMoney(DeliverAll(st, lates[..|lates|-1]), lates[|lates|-1]);
    }
  }

  lemma TwoPhaseMovesMoney(cfg: Config, st: GState, id: string, p: Payment, env: Env)
    ensures var out := ProcessTwoPhase(cfg, st, id, p, env);
      Money(out.st.banks) == Money(st.banks) + Inflow(p, out) && out.paid == 0
  {
    hide PreparePhase, CommitPhase, DeliverAll, Money;
    var st1 := Store(st, id, TwoPhaseRecord(Preparing, env.now));
    var st2 := PreparePhase(cfg, st1, id, p, env).0;
    PrepareKeepsMoney(cfg, st1, id, p, env);
    LatesKeepMoney(st2, env.between);
    CommitMovesMoney(cfg, DeliverAll(st2, env.between), id, p, env);
  }

  lemma SimpleMovesMoney(cfg: Config, st: GState, id: string, p: Payment, balance: int, env: Env)
    ensures var out := ProcessSimple(cfg, st, id, p, balance, env);
      Money(out.st.banks) == Money(st.banks) + Inflow(p, out)
  {
    hide Send, BankFor, Money;
    var bank := BankFor(cfg, st, p.client, env.bankAtPay);
    if bank.Some? && p.client in cfg.accounts {
      SendMovesMoney(st, bank.value, ProcessPayment(cfg.accounts[p.client], p.amount), env.pay);
    }
  }

  /** One operation changes what the banks hold together by what its payment adds, and by nothing else. */
  lemma OpMovesMoney(cfg: Config, st: GState, op: Op)
    ensures var out := Apply(cfg, st, op);
      Money(out.st.banks) == Money(st.banks) + if op.Attempt? then Inflow(op.p, out) else 0
  {
    hide ProcessTwoPhase, ProcessSimple, Deliver, Money;
    match op
    case Attempt(user, id, p, env) =>
      TwoPhaseMovesMoney(cfg, st, id, p, env);
      if p.client in st.balances { SimpleMovesMoney(cfg, st, id, p, st.balances[p.client], env); }
    case Late(late) => LateKeepsMoney(st, late);
    case Expire(now) =>
  }

  /** The service conserves money over every run, retries, late requests and same-bank transfers included, from any
      state and whatever happens to its calls: the banks hold what they held at first plus the applied credits minus
      the applied debits and the plain payments. */
  lemma {:induction false} ServiceConservesMoney(cfg: Config, st: GState, ops: seq<Op>)
    ensures Money(Run(cfg, st, ops).banks) == Money(st.banks) + Inflows(cfg, st, ops)
  {
    hide Apply, Inflow, Money;
    if |ops| > 0 {
      ServiceConservesMoney(cfg, st, ops[..|ops|-1]);
      OpMovesMoney(cfg, Run(cfg, st, ops[..|ops|-1]), ops[|ops|-1]);
    }
  }

  /** A transfer between two banks makes or loses money exactly when one bank alone applies its half. */
  lemma TransferIsEvenExactly(cfg: Config, st: GState, id: string, p: Payment, env: Env)
    requires InterBank(cfg, p) && p.amount != 0 && !InProgress(Find(st.records, id))
    ensures Inflow(p, ProcessTwoPhase(cfg, st, id, p, env)) == 0 <==>
      (Debited(cfg, st, id, p, env) <==> Credited(cfg, st, id, p, env))
  {
    hide ProcessTwoPhase, Debited, Credited, Moves;
    TwoPhaseMoves(cfg, st, id, p, env);
  }

  /** Both banks hear of the commit or neither does, and no abort of `id` arrives late before it. */
  predicate CommitEven(env: Env, id: string) {
    || !env.senderAtCommit || !env.receiverAtCommit
    || (env.commitDebit == Lost && env.commitCredit == Lost)
    || (env.commitDebit != Lost && env.commitCredit != Lost
        && forall k :: 0 <= k < |env.between| ==> env.between[k].request != Abort(id))
  }

  lemma EvenCommit(cfg: Config, st: GState, id: string, p: Payment, env: Env)
    requires CommitEven(env, id)
    ensures Debited(cfg, st, id, p, env) <==> Credited(cfg, st, id, p, env)
  {
    if CommitsSent(cfg, st, p, env) && env.commitDebit != Lost {
      var sender, receiver := cfg.bankOf[p.client], cfg.bankOf[p.receiver];
      NoAbortStaysPrepared(st.banks[sender], sender, env.between, id);
      NoAbortStaysPrepared(st.banks[receiver], receiver, env.between, id);
    }
    hide PrepareGoesThrough, StaysPrepared;
  }

  /** An operation that is no plain payment, and no transfer within one bank or with an uneven commit phase. */
  predicate Even(cfg: Config, op: Op) {
    op.Attempt? ==> TwoPhasePayment(cfg, op.p) && InterBank(cfg, op.p) && CommitEven(op.env, op.id)
  }

  lemma EvenMovesNoMoney(cfg: Config, st: GState, op: Op)
    requires op.Attempt? && Even(cfg, op)
    ensures Inflow(op.p, Apply(cfg, st, op)) == 0
  {
    hide ProcessTwoPhase, Debited, Credited, Moves;
    if InProgress(Find(st.records, op.id)) {
      InProgressIsLeft(cfg, st, op.id, op.p, op.env);
    } else {
      EvenCommit(cfg, st, op.id, op.p, op.env);
      TwoPhaseMoves(cfg, st, op.id, op.p, op.env);
    }
  }

  /** Over every run of such operations, retries and late requests included, money is neither made nor lost. */
  lemma {:induction false} EvenTransfersBalance(cfg: Config, st: GState, ops: seq<Op>)
    requires forall k :: 0 <= k < |ops| ==> Even(cfg, ops[k])
    ensures Inflows(cfg, st, ops) == 0 && Money(Run(cfg, st, ops).banks) == Money(st.banks)
  {
    hide Apply, Inflow, Even, Money;
    ServiceConservesMoney(cfg, st, ops);
    if |ops| > 0 {
      var before, last := ops[..|ops|-1], ops[|ops|-1];
      EvenTransfersBalance(cfg, st, before);
      if last.Attempt? { EvenMovesNoMoney(cfg, Run(cfg, st, before), last); }
    }
  }
}
