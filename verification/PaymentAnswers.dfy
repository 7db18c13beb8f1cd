/** What the service answers to a payment and when, from the gateway's and the banks' tables alone. */
module PaymentAnswers {
  import opened Basics
  import opened Banks
  import opened PaymentSpec
  import opened PaymentSteps
  import opened PaymentRuns

  predicate PlainPayment(cfg: Config, p: Payment) {
    !TwoPhasePayment(cfg, p)
  }

  /** A record that answers for the payment: a transfer that is over, or without two-phase payments any plain one. */
  predicate FromRecord(cfg: Config, st: GState, id: string) {
    && id in st.records
    && (if cfg.usesTwoPhase
        then st.records[id].TwoPhaseRecord? && (st.records[id].state == CommittedAll || st.records[id].state == AbortedAll)
        else st.records[id].SimpleRecord?)
  }

  predicate RecordSays(st: GState, id: string)
    requires id in st.records
  {
    if st.records[id].SimpleRecord? then st.records[id].success else st.records[id].state == CommittedAll
  }

  /** The payment is the user's own, no record answers it, and the gateway's table has the money. */
  predicate Admitted(cfg: Config, st: GState, user: string, id: string, p: Payment) {
    user == p.client && !FromRecord(cfg, st, id) && p.client in st.balances && st.balances[p.client] >= p.amount
  }

  /** The payment gets to the client's bank, which knows the account and finds the money on its owner's balance. */
  predicate BankPays(cfg: Config, st: GState, p: Payment, env: Env) {
    && p.client in cfg.bankOf && cfg.bankOf[p.client] in st.banks && p.client in cfg.accounts
    && env.bankAtPay && env.pay != Lost && p.amount > 0
    && var b := st.banks[cfg.bankOf[p.client]];
    && cfg.accounts[p.client] in b.clients && b.clients[cfg.accounts[p.client]] != ""
    && b.clients[cfg.accounts[p.client]] in b.balances
    && b.balances[b.clients[cfg.accounts[p.client]]] >= p.amount
  }

  /** The banks once the client's has taken the amount from the account's owner. */
  function BanksPaid(cfg: Config, st: GState, p: Payment, env: Env): map<string, BankState>
    requires BankPays(cfg, st, p, env)
  {
    var name := cfg.bankOf[p.client];
    var b := st.banks[name];
    var owner := b.clients[cfg.accounts[p.client]];
    st.banks[name := b.(balances := b.balances[owner := b.balances[owner] - p.amount])]
  }

  lemma PlainRequest(b: BankState, account: string, amount: int)
    ensures
      var accepted := amount > 0 && account in b.clients && b.clients[account] != "" && b.clients[account] in b.balances
                      && b.balances[b.clients[account]] >= amount;
      Handle(b, ProcessPayment(account, amount)) ==
      if accepted
      then (b.(balances := b.balances[b.clients[account] := b.balances[b.clients[account]] - amount]), Accepted)
      else (b, Refused)
  {
  }

  lemma SimpleExactly(cfg: Config, st: GState, id: string, p: Payment, env: Env)
    requires p.client in st.balances
    ensures var out := ProcessSimple(cfg, st, id, p, st.balances[p.client], env);
      if !BankPays(cfg, st, p, env) then out == Outcome(st, false, 0, 0, 0)
      else if env.pay == ReplyLost then out == Outcome(st.(banks := BanksPaid(cfg, st, p, env)), false, 0, 0, 1)
      else out == Outcome(GState(st.balances[p.client := st.balances[p.client] - p.amount],
                                 st.records[id := SimpleRecord(true, env.now)],
                                 BanksPaid(cfg, st, p, env)), true, 0, 0, 1)
  {
    hide Handle;
    if p.client in cfg.bankOf && cfg.bankOf[p.client] in st.banks && p.client in cfg.accounts {
      var name := cfg.bankOf[p.client];
      PlainRequest(st.banks[name], cfg.accounts[p.client], p.amount);
      assert st.banks[name := st.banks[name]] == st.banks;
    }
  }

  /** What the bank's part of a plain payment comes to, whatever balance the caller has read. */
  lemma SimpleAnswer(cfg: Config, st: GState, id: string, p: Payment, balance: int, env: Env)
    ensures var out := ProcessSimple(cfg, st, id, p, balance, env);
      && (out.success <==> BankPays(cfg, st, p, env) && env.pay == Answered)
      && out.paid == (if BankPays(cfg, st, p, env) then 1 else 0)
      && out.st.banks == (if BankPays(cfg, st, p, env) then BanksPaid(cfg, st, p, env) else st.banks)
  {
    hide Handle;
    if p.client in cfg.bankOf && cfg.bankOf[p.client] in st.banks && p.client in cfg.accounts {
      var name := cfg.bankOf[p.client];
      PlainRequest(st.banks[name], cfg.accounts[p.client], p.amount);
      assert st.banks[name := st.banks[name]] == st.banks;
    }
  }

  /** Everything a plain payment does. It succeeds if a record says so, or if it is admitted, the bank pays and the
      reply arrives; then the table and the owner's balance each lose exactly the amount and a record is left. When only
      the reply is lost, the bank has paid and nothing else has changed. In all other cases nothing has. */
  lemma PlainExactly(cfg: Config, st: GState, user: string, id: string, p: Payment, env: Env)
    requires PlainPayment(cfg, p)
    ensures var out := Process(cfg, st, user, id, p, env);
      if user == p.client && FromRecord(cfg, st, id) then out == Outcome(st, RecordSays(st, id), 0, 0, 0)
      else if !Admitted(cfg, st, user, id, p) || !BankPays(cfg, st, p, env) then out == Outcome(st, false, 0, 0, 0)
      else if env.pay == ReplyLost then out == Outcome(st.(banks := BanksPaid(cfg, st, p, env)), false, 0, 0, 1)
      else out == Outcome(GState(st.balances[p.client := st.balances[p.client] - p.amount],
                                 st.records[id := SimpleRecord(true, env.now)],
                                 BanksPaid(cfg, st, p, env)), true, 0, 0, 1)
  {
    hide ProcessSimple, ProcessTwoPhase, BankPays, BanksPaid;
    if p.client in st.balances { SimpleExactly(cfg, st, id, p, env); }
  }

  /** A transfer that a record answers is not run again, and one that is not admitted is not run at all. */
  lemma NotRun(cfg: Config, st: GState, user: string, id: string, p: Payment, env: Env)
    requires !PlainPayment(cfg, p)
    ensures var out := Process(cfg, st, user, id, p, env);
      if user == p.client && FromRecord(cfg, st, id) then out == Outcome(st, RecordSays(st, id), 0, 0, 0)
      else if !Admitted(cfg, st, user, id, p) then out == Outcome(st, false, 0, 0, 0)
      else out == ProcessTwoPhase(cfg, st, id, p, env)
  {
    hide ProcessTwoPhase, ProcessSimple;
  }

  /** A transfer whose record says that it is preparing or committing. */
  predicate Running(st: GState, id: string) {
    id in st.records && st.records[id].TwoPhaseRecord?
    && (st.records[id].state == Preparing || st.records[id].state == Committing)
  }

  lemma RunningIsRefused(cfg: Config, st: GState, id: string, p: Payment, env: Env)
    ensures InProgress(Find(st.records, id)) <==> Running(st, id)
    ensures Running(st, id) ==> ProcessTwoPhase(cfg, st, id, p, env) == Outcome(st, false, 0, 0, 0)
  {
    hide RunTwoPhaseCommit;
  }

  /** When a payment is answered with success. */
  ghost predicate Succeeds(cfg: Config, st: GState, user: string, id: string, p: Payment, env: Env) {
    if FromRecord(cfg, st, id) then user == p.client && RecordSays(st, id)
    else
      && Admitted(cfg, st, user, id, p)
      && (if PlainPayment(cfg, p) then BankPays(cfg, st, p, env) && env.pay == Answered
          else !Running(st, id) && CommitClean(env) && Debited(cfg, st, id, p, env) && Credited(cfg, st, id, p, env))
  }

  lemma SucceedsExactly(cfg: Config, st: GState, user: string, id: string, p: Payment, env: Env)
    requires PlainPayment(cfg, p) || InterBank(cfg, p)
    ensures Process(cfg, st, user, id, p, env).success <==> Succeeds(cfg, st, user, id, p, env)
  {
    hide Process, ProcessTwoPhase, FromRecord, BanksPaid, Debited, Credited, Moves, RecordSays;
    if PlainPayment(cfg, p) {
      PlainExactly(cfg, st, user, id, p, env);
    } else {
      NotRun(cfg, st, user, id, p, env);
      RunningIsRefused(cfg, st, id, p, env);
      if !Running(st, id) { TwoPhaseMoves(cfg, st, id, p, env); }
    }
  }

  /** A transfer from or to someone without an account at the bank the gateway has for them is refused and moves
      nothing. */
  lemma NoAccountIsRefused(cfg: Config, st: GState, id: string, p: Payment, env: Env, client: string)
    requires InterBank(cfg, p) && !Running(st, id) && (client == p.client || client == p.receiver)
    requires client in cfg.bankOf && cfg.bankOf[client] in st.banks
    requires forall account :: account in st.banks[cfg.bankOf[client]].clients ==>
      st.banks[cfg.bankOf[client]].clients[account] != client
    ensures var out := ProcessTwoPhase(cfg, st, id, p, env);
      !out.success && out.debits == 0 && out.credits == 0 && Quiet(st, out.st, id) && id !in out.st.records
  {
    hide ProcessTwoPhase, Quiet, Moves, HalfArrives;
    RunningIsRefused(cfg, st, id, p, env);
    TwoPhaseMoves(cfg, st, id, p, env);
    QuietMovesNothing(cfg, st, ProcessTwoPhase(cfg, st, id, p, env).st, id, p);
  }

  // ---------- The clean-up ----------

  /** A clean-up keeps exactly the records no older than the gateway's limit, as they are, and touches nothing else. */
  lemma CleanUpExactly(cfg: Config, st: GState, now: int, id: string)
    ensures var st' := Apply(cfg, st, Expire(now)).st;
      && st'.balances == st.balances && st'.banks == st.banks
      && Find(st'.records, id) ==
         if id in st.records && now - st.records[id].at <= cfg.ttl then Some(st.records[id]) else None
  {
  }

  /** Once the record of a transfer that succeeded is cleaned up, a retry that meets no trouble moves the amount again. */
  lemma RetryAfterCleanUp(cfg: Config, st: GState, id: string, p: Payment, now: int, env: Env)
    requires !PlainPayment(cfg, p) && InterBank(cfg, p) && id in st.records && now - st.records[id].at > cfg.ttl
    requires p.client in st.balances && st.balances[p.client] >= p.amount
    requires PrepareGoesThrough(cfg, st, p, env) && CommitClean(env) && env.between == []
    ensures var out := Process(cfg, Apply(cfg, st, Expire(now)).st, p.client, id, p, env);
      out.success && out.debits == 1 && out.credits == 1
  {
    hide Process, ProcessTwoPhase, Moves, HasClient;
    var st' := Apply(cfg, st, Expire(now)).st;
    CleanUpExactly(cfg, st, now, id);
    NotRun(cfg, st', p.client, id, p, env);
    RunningIsRefused(cfg, st', id, p, env);
    PrepareIgnoresRecords(cfg, st, st', p, env);
    CleanArrives(cfg, st', id, p, env);
    hide PrepareGoesThrough, Debited, Credited;
    TwoPhaseMoves(cfg, st', id, p, env);
  }

  // ---------- Plain payments, retried ----------

  /** How often a bank has paid for the attempts for `id`. */
  function Payments(cfg: Config, st: GState, ops: seq<Op>, id: string): nat {
    if |ops| == 0 then 0
    else
      var before, last := ops[..|ops|-1], ops[|ops|-1];
      Payments(cfg, st, before, id) + if IsAttempt(last, id) then Apply(cfg, Run(cfg, st, before), last).paid else 0
  }

  /** An attempt for which the bank pays and the reply is lost. */
  predicate LosesReply(cfg: Config, st: GState, op: Op, id: string) {
    IsAttempt(op, id) && Admitted(cfg, st, op.user, id, op.p) && BankPays(cfg, st, op.p, op.env) && op.env.pay == ReplyLost
  }

  ghost predicate NoReplyLost(cfg: Config, st: GState, ops: seq<Op>, id: string) {
    forall k :: 0 <= k < |ops| ==> !LosesReply(cfg, Run(cfg, st, ops[..k]), ops[k], id)
  }

  /** Without two-phase payments, what is known of a plain payment between two operations. */
  ghost predicate PlainRest(st: GState, id: string, done: bool) {
    if done then id in st.records && st.records[id].SimpleRecord? && st.records[id].success else id !in st.records
  }

  lemma OnePlainOp(cfg: Config, st: GState, op: Op, id: string, done: bool)
    requires !cfg.usesTwoPhase && PlainRest(st, id, done) && !Expires(cfg, st, op, id)
    ensures var out := Apply(cfg, st, op);
      var reports := IsAttempt(op, id) && out.success;
      var w, paid := if reports && !done then 1 else 0, if IsAttempt(op, id) then out.paid else 0;
      && PlainRest(out.st, id, done || reports) && paid >= w
      && (paid == w <==> !LosesReply(cfg, st, op, id))
  {
    hide Process, BankPays, BanksPaid, Send;
    match op
    case Attempt(user, other, p, env) =>
      PlainExactly(cfg, st, user, other, p, env);
    case Late(late) => SendKeepsRecords(st, late.bank, late.request, ReplyLost);
    case Expire(now) => CleanUpExactly(cfg, st, now, id);
  }

  lemma PlainPrefix(cfg: Config, st: GState, ops: seq<Op>, id: string)
    requires |ops| > 0
    ensures var before, last := ops[..|ops|-1], ops[|ops|-1];
      NoReplyLost(cfg, st, ops, id) <==>
        NoReplyLost(cfg, st, before, id) && !LosesReply(cfg, Run(cfg, st, before), last, id)
  {
    hide LosesReply, Run;
    var before := ops[..|ops|-1];
    assert forall k :: 0 <= k <= |before| ==> before[..k] == ops[..k];
    assert before[..|before|] == before;
    if NoReplyLost(cfg, st, ops, id) {
      forall k | 0 <= k < |before| ensures !LosesReply(cfg, Run(cfg, st, before[..k]), before[k], id) {
        assert !LosesReply(cfg, Run(cfg, st, ops[..k]), ops[k], id);
      }
    }
    if NoReplyLost(cfg, st, before, id) && !LosesReply(cfg, Run(cfg, st, before), ops[|ops|-1], id) {
      forall k | 0 <= k < |ops| ensures !LosesReply(cfg, Run(cfg, st, ops[..k]), ops[k], id) {
        if k < |before| { assert !LosesReply(cfg, Run(cfg, st, before[..k]), before[k], id); }
      }
    }
  }

  /** Without two-phase payments, over any run, the bank pays once for all the attempts for one identifier if one of
      them reports success and never otherwise, if and only if no reply to an accepted payment is lost. */
  lemma {:induction false} PaidOnceExactly(cfg: Config, st: GState, ops: seq<Op>, id: string)
    requires !cfg.usesTwoPhase && id !in st.records && NeverExpires(cfg, st, ops, id)
    ensures PlainRest(Run(cfg, st, ops), id, Reported(cfg, st, ops, id))
    ensures var w := if Reported(cfg, st, ops, id) then 1 else 0;
      && Payments(cfg, st, ops, id) >= w
      && (Payments(cfg, st, ops, id) == w <==> NoReplyLost(cfg, st, ops, id))
  {
    hide Apply, Expires, LosesReply, NeverExpires;
    if |ops| > 0 {
      var before, last := ops[..|ops|-1], ops[|ops|-1];
      PrefixOf(cfg, st, ops, id);
      PlainPrefix(cfg, st, ops, id);
      PaidOnceExactly(cfg, st, before, id);
      hide NoReplyLost, PlainRest;
      OnePlainOp(cfg, Run(cfg, st, before), last, id, Reported(cfg, st, before, id));
    }
  }
}
