/** Whole runs of the gateway, one payment after another: when the attempts for a transfer move its amount as often as
    they report, and when the gateway's balances stay those of the banks. */
module PaymentRuns {
  import opened Basics
  import opened Banks
  import opened PaymentSpec
  import opened PaymentSteps

  /** A payment, a prepare or an abort that reaches a bank late or twice, or the periodic clean-up. More of what is late
      may come between the two phases of a payment. */
  datatype Op =
    | Attempt(user: string, id: string, p: Payment, env: Env)
    | Late(late: LateRequest)
    | Expire(now: int)

  function Apply(cfg: Config, st: GState, op: Op): Outcome {
    match op
    case Attempt(user, id, p, env) => Process(cfg, st, user, id, p, env)
    case Late(late) => Outcome(Deliver(st, late), false, 0, 0, 0)
    case Expire(now) => Outcome(CleanupExpired(cfg, st, now), false, 0, 0, 0)
  }

  function Run(cfg: Config, st: GState, ops: seq<Op>): GState {
    if |ops| == 0 then st else Apply(cfg, Run(cfg, st, ops[..|ops|-1]), ops[|ops|-1]).st
  }

  predicate IsAttempt(op: Op, id: string) {
    op.Attempt? && op.id == id
  }

  /** How often the attempts for `id` have had the debit half applied, and how often the credit half. */
  function Halves(cfg: Config, st: GState, ops: seq<Op>, id: string): (nat, nat) {
    if |ops| == 0 then (0, 0)
    else
      var before, last := ops[..|ops|-1], ops[|ops|-1];
      var so, out := Halves(cfg, st, before, id), Apply(cfg, Run(cfg, st, before), last);
      if IsAttempt(last, id) then (so.0 + out.debits, so.1 + out.credits) else so
  }

  /** Whether an attempt for `id` was answered with success. */
  predicate Reported(cfg: Config, st: GState, ops: seq<Op>, id: string) {
    if |ops| == 0 then false
    else
      var before, last := ops[..|ops|-1], ops[|ops|-1];
      Reported(cfg, st, before, id) || (IsAttempt(last, id) && Apply(cfg, Run(cfg, st, before), last).success)
  }

  // ---------- Exactly once ----------

  /** Every attempt for `id` is for the same payment. */
  ghost predicate Retries(ops: seq<Op>, id: string, p: Payment) {
    forall k :: 0 <= k < |ops| && IsAttempt(ops[k], id) ==> ops[k].p == p
  }

  predicate Expires(cfg: Config, st: GState, op: Op, id: string) {
    op.Expire? && id in st.records && Expired(st.records[id], cfg.ttl, op.now)
  }

  /** No clean-up removes the record of `id`. */
  ghost predicate NeverExpires(cfg: Config, st: GState, ops: seq<Op>, id: string) {
    forall k :: 0 <= k < |ops| ==> !Expires(cfg, Run(cfg, st, ops[..k]), ops[k], id)
  }

  /** All attempts for `id` are retries of one transfer between two banks, and its record outlives the run. */
  ghost predicate OneTransfer(cfg: Config, st: GState, ops: seq<Op>, id: string, p: Payment) {
    && cfg.usesTwoPhase && p.receiver != "" && InterBank(cfg, p) && id !in st.records
    && Retries(ops, id, p) && NeverExpires(cfg, st, ops, id)
  }

  lemma SendKeepsRecords(st: GState, bank: string, r: Request, fate: Fate)
    ensures Send(st, bank, r, fate).st.records == st.records
  {
  }

  /** A commit phase, whatever happens to it, touches no other record. */
  lemma CommitKeepsOthers(cfg: Config, st: GState, id: string, p: Payment, env: Env, other: string)
    requires other != id
    ensures Find(CommitPhase(cfg, st, id, p, env).st.records, other) == Find(st.records, other)
  {
    hide AbortTransaction, Send, UpdateBalances, Handle, BankFor;
    AbortIsQuiet(cfg, st, id, p, env);
    var sender := BankFor(cfg, st, p.client, env.senderAtCommit);
    var receiver := BankFor(cfg, st, p.receiver, env.receiverAtCommit);
    if sender.Some? && receiver.Some? {
      var st1 := SetState(st, id, Committing);
      var st2 := Send(st1, sender.value, CommitDebit(id, p.client, p.amount), env.commitDebit).st;
      var st3 := Send(st2, receiver.value, CommitCredit(id, p.receiver, p.amount), env.commitCredit).st;
      SendKeepsRecords(st1, sender.value, CommitDebit(id, p.client, p.amount), env.commitDebit);
      SendKeepsRecords(st2, receiver.value, CommitCredit(id, p.receiver, p.amount), env.commitCredit);
      AbortIsQuiet(cfg, st3, id, p, env);
      BalancesOnly(SetState(st3, id, CommittedAll), SetState(st3, id, CommittedAll), p);
    }
  }

  lemma TwoPhaseKeepsOthers(cfg: Config, st: GState, id: string, p: Payment, env: Env, other: string)
    requires other != id
    ensures Find(ProcessTwoPhase(cfg, st, id, p, env).st.records, other) == Find(st.records, other)
  {
    hide PreparePhase, CommitPhase, DeliverAll;
    var st1 := Store(st, id, TwoPhaseRecord(Preparing, env.now));
    var st2 := PreparePhase(cfg, st1, id, p, env).0;
    PrepareIsQuiet(cfg, st1, id, p, env);
    DeliverAllIsQuiet(st2, env.between, id);
    CommitKeepsOthers(cfg, DeliverAll(st2, env.between), id, p, env, other);
  }

  /** A payment touches no record but its own. */
  lemma PaymentKeepsOthers(cfg: Config, st: GState, user: string, id: string, p: Payment, env: Env, other: string)
    requires other != id
    ensures Find(Process(cfg, st, user, id, p, env).st.records, other) == Find(st.records, other)
  {
    hide ProcessTwoPhase, Send, Handle;
    TwoPhaseKeepsOthers(cfg, st, id, p, env, other);
    var bank := BankFor(cfg, st, p.client, env.bankAtPay);
    if bank.Some? && p.client in cfg.accounts {
      SendKeepsRecords(st, bank.value, ProcessPayment(cfg.accounts[p.client], p.amount), env.pay);
    }
  }

  /** What is known of `id` between two operations: nothing, or that it has been committed. */
  ghost predicate Rest(st: GState, id: string, done: bool) {
    if done then id in st.records && st.records[id].TwoPhaseRecord? && st.records[id].state == CommittedAll
    else id !in st.records
  }

  lemma AttemptOnceCommitted(cfg: Config, st: GState, user: string, id: string, p: Payment, env: Env)
    requires cfg.usesTwoPhase && Rest(st, id, true)
    ensures Process(cfg, st, user, id, p, env) == Outcome(st, user == p.client, 0, 0, 0)
  {
  }

  /** The attempt is made by its sender, is not answered from a record, and finds the money at the gateway. */
  predicate Begins(cfg: Config, st: GState, op: Op) {
    && op.Attempt? && op.user == op.p.client && Cached(cfg, Find(st.records, op.id)).None?
    && op.p.client in st.balances && st.balances[op.p.client] >= op.p.amount
  }

  /** An attempt for `id` that comes to its commit phase and is not left whole by it. */
  ghost predicate Harms(cfg: Config, st: GState, op: Op, id: string) {
    IsAttempt(op, id) && Begins(cfg, st, op) && !Whole(cfg, st, id, op.p, op.env)
  }

  /** One attempt, whatever happens to it. A success applies both halves and leaves a committed record, a failure
      leaves none; and no half is applied beyond what is reported if and only if the attempt does no harm. */
  lemma AttemptExactly(cfg: Config, st: GState, user: string, id: string, p: Payment, env: Env)
    requires Rest(st, id, false) && cfg.usesTwoPhase && p.receiver != "" && InterBank(cfg, p)
    ensures var out := Process(cfg, st, user, id, p, env);
      var w := if out.success then 1 else 0;
      && Rest(out.st, id, out.success) && out.debits >= w && out.credits >= w
      && (out.debits == out.credits == w <==> !Harms(cfg, st, Attempt(user, id, p, env), id))
  {
    hide ProcessTwoPhase, Moves, Debited, Credited, UpdateBalances;
    TwoPhaseMoves(cfg, st, id, p, env);
  }

  lemma OtherOpsKeepRest(cfg: Config, st: GState, op: Op, id: string, done: bool)
    requires Rest(st, id, done) && !IsAttempt(op, id) && !Expires(cfg, st, op, id)
    ensures Rest(Apply(cfg, st, op).st, id, done)
  {
    hide Process, Send;
    match op
    case Attempt(user, other, p, env) => PaymentKeepsOthers(cfg, st, user, other, p, env, id);
    case Late(late) => SendKeepsRecords(st, late.bank, late.request, ReplyLost);
    case Expire(now) =>
  }

  /** No operation of the run does harm. */
  ghost predicate Harmless(cfg: Config, st: GState, ops: seq<Op>, id: string) {
    forall k :: 0 <= k < |ops| ==> !Harms(cfg, Run(cfg, st, ops[..k]), ops[k], id)
  }

  lemma PrefixOf(cfg: Config, st: GState, ops: seq<Op>, id: string)
    requires |ops| > 0
    ensures var before, last := ops[..|ops|-1], ops[|ops|-1];
      && (NeverExpires(cfg, st, ops, id) ==>
            NeverExpires(cfg, st, before, id) && !Expires(cfg, Run(cfg, st, before), last, id))
      && (Harmless(cfg, st, ops, id) <==>
            Harmless(cfg, st, before, id) && !Harms(cfg, Run(cfg, st, before), last, id))
  {
    hide Expires, Harms, Run;
    var before := ops[..|ops|-1];
    assert forall k :: 0 <= k <= |before| ==> before[..k] == ops[..k];
    assert before[..|before|] == before;
    if Harmless(cfg, st, ops, id) {
      forall k | 0 <= k < |before| ensures !Harms(cfg, Run(cfg, st, before[..k]), before[k], id) {
        assert !Harms(cfg, Run(cfg, st, ops[..k]), ops[k], id);
      }
    }
    if Harmless(cfg, st, before, id) && !Harms(cfg, Run(cfg, st, before), ops[|ops|-1], id) {
      forall k | 0 <= k < |ops| ensures !Harms(cfg, Run(cfg, st, ops[..k]), ops[k], id) {
        if k < |before| { assert !Harms(cfg, Run(cfg, st, before[..k]), before[k], id); }
      }
    }
  }

  /** Over any run of payments, late prepares and aborts, and clean-ups, whatever happens to the calls, all attempts
      for one inter-bank transfer move its amount once if one of them reports success and not at all otherwise, if and
      only if no attempt does harm. */
  lemma {:induction false} AppliedOnceExactly(cfg: Config, st: GState, ops: seq<Op>, id: string, p: Payment)
    requires OneTransfer(cfg, st, ops, id, p)
    ensures Rest(Run(cfg, st, ops), id, Reported(cfg, st, ops, id))
    ensures var w := if Reported(cfg, st, ops, id) then 1 else 0;
      var halves := Halves(cfg, st, ops, id);
      && halves.0 >= w && halves.1 >= w
      && (halves == (w, w) <==> Harmless(cfg, st, ops, id))
  {
    hide Apply, Expires, Harms, NeverExpires, Rest, Harmless;
    if |ops| == 0 {
      StartsAtRest(cfg, st, id);
    } else {
      var before, last := ops[..|ops|-1], ops[|ops|-1];
      PrefixOf(cfg, st, ops, id);
      AppliedOnceExactly(cfg, st, before, id, p);
      OneMoreOp(cfg, Run(cfg, st, before), last, id, p, Reported(cfg, st, before, id));
    }
  }

  /** One operation of such a run. */
  lemma OneMoreOp(cfg: Config, st: GState, op: Op, id: string, p: Payment, done: bool)
    requires cfg.usesTwoPhase && p.receiver != "" && InterBank(cfg, p)
    requires Rest(st, id, done) && !Expires(cfg, st, op, id) && (IsAttempt(op, id) ==> op.p == p)
    ensures var out := Apply(cfg, st, op);
      var reports := IsAttempt(op, id) && out.success;
      var w, debits, credits := if reports && !done then 1 else 0,
                                if IsAttempt(op, id) then out.debits else 0, if IsAttempt(op, id) then out.credits else 0;
      && Rest(out.st, id, done || reports) && debits >= w && credits >= w
      && (debits == credits == w <==> !Harms(cfg, st, op, id))
  {
    hide Process, Expires, Harms, Rest;
    if !IsAttempt(op, id) {
      OtherOpsKeepRest(cfg, st, op, id, done);
      OthersDoNoHarm(cfg, st, op, id);
    } else if done {
      AttemptOnceCommitted(cfg, st, op.user, id, p, op.env);
      CommittedDoesNoHarm(cfg, st, op, id);
    } else {
      AttemptExactly(cfg, st, op.user, id, p, op.env);
    }
  }

  lemma StartsAtRest(cfg: Config, st: GState, id: string)
    requires id !in st.records
    ensures Rest(st, id, false) && Harmless(cfg, st, [], id)
  {
  }

  lemma CommittedDoesNoHarm(cfg: Config, st: GState, op: Op, id: string)
    requires cfg.usesTwoPhase && Rest(st, id, true)
    ensures !Harms(cfg, st, op, id)
  {
  }

  lemma OthersDoNoHarm(cfg: Config, st: GState, op: Op, id: string)
    requires !IsAttempt(op, id)
    ensures !Harms(cfg, st, op, id)
  {
  }

  lemma SafeDoesNoHarm(cfg: Config, st: GState, op: Op, id: string)
    requires IsAttempt(op, id) ==> CommitSafe(op.env, id)
    ensures !Harms(cfg, st, op, id)
  {
    hide Whole;
    if IsAttempt(op, id) { SafeIsWhole(cfg, st, id, op.p, op.env); }
  }

  /** One of the answers to the attempts for `id` is a success. */
  ghost predicate Succeeded(ops: seq<Op>, answers: seq<bool>, id: string) {
    exists k :: 0 <= k < |ops| && k < |answers| && IsAttempt(ops[k], id) && answers[k]
  }

  ghost predicate AnswersOf(cfg: Config, st: GState, ops: seq<Op>, answers: seq<bool>) {
    |answers| == |ops| && forall k :: 0 <= k < |ops| ==> answers[k] == Apply(cfg, Run(cfg, st, ops[..k]), ops[k]).success
  }

  lemma {:induction false} ReportedIsSucceeded(cfg: Config, st: GState, ops: seq<Op>, answers: seq<bool>, id: string)
    requires AnswersOf(cfg, st, ops, answers)
    ensures Reported(cfg, st, ops, id) <==> Succeeded(ops, answers, id)
  {
    hide Apply, Run;
    if |ops| > 0 {
      var n := |ops| - 1;
      assert forall k :: 0 <= k < n ==> ops[..n][..k] == ops[..k];
      ReportedIsSucceeded(cfg, st, ops[..n], answers[..n], id);
      if Succeeded(ops, answers, id) && !(IsAttempt(ops[n], id) && answers[n]) {
        var k :| 0 <= k < |ops| && IsAttempt(ops[k], id) && answers[k];
        assert IsAttempt(ops[..n][k], id) && answers[..n][k];
      }
      if Succeeded(ops[..n], answers[..n], id) {
        var k :| 0 <= k < n && IsAttempt(ops[..n][k], id) && answers[..n][k];
        assert IsAttempt(ops[k], id) && answers[k];
      }
    }
  }

  /** In particular the amount is moved exactly as reported if every commit phase is safe; and once a
      success is reported, every attempt with its identifier only repeats that to the sender it names. */
  lemma ExactlyOnce(cfg: Config, st: GState, ops: seq<Op>, id: string, p: Payment)
    requires OneTransfer(cfg, st, ops, id, p)
    ensures (forall k :: 0 <= k < |ops| && IsAttempt(ops[k], id) ==> CommitSafe(ops[k].env, id)) ==>
      Halves(cfg, st, ops, id) == if Reported(cfg, st, ops, id) then (1, 1) else (0, 0)
    ensures Reported(cfg, st, ops, id) ==> forall user, q, env ::
      Process(cfg, Run(cfg, st, ops), user, id, q, env) == Outcome(Run(cfg, st, ops), user == q.client, 0, 0, 0)
  {
    hide Process, Expires, Harms, CommitSafe, Run, Rest;
    AppliedOnceExactly(cfg, st, ops, id, p);
    if forall k :: 0 <= k < |ops| && IsAttempt(ops[k], id) ==> CommitSafe(ops[k].env, id) {
      forall k | 0 <= k < |ops| ensures !Harms(cfg, Run(cfg, st, ops[..k]), ops[k], id) {
        SafeDoesNoHarm(cfg, Run(cfg, st, ops[..k]), ops[k], id);
      }
    }
    forall user, q, env | Reported(cfg, st, ops, id)
      ensures Process(cfg, Run(cfg, st, ops), user, id, q, env) == Outcome(Run(cfg, st, ops), user == q.client, 0, 0, 0)
    {
      AttemptOnceCommitted(cfg, Run(cfg, st, ops), user, id, q, env);
    }
  }

  /** A failed attempt leaves the next one able to prepare if the sender has the money. */
  lemma StillGoesThrough(cfg: Config, st: GState, st': GState, id: string, p: Payment, env: Env, debited: bool,
                         credited: bool)
    requires InterBank(cfg, p) && Moves(cfg, st, st', id, p, debited, credited, false)
    requires PrepareGoesThrough(cfg, st, p, env)
    requires debited ==> BalanceOf(st.banks[cfg.bankOf[p.client]], p.client) >= 2 * p.amount
    ensures PrepareGoesThrough(cfg, st', p, env)
  {
  }

  /** A harmful attempt, in every shape: only the debit is applied, only the credit, or both with a reply lost or a
      deadline. It is reported as failed and leaves no record, so a retry that meets no trouble, by a sender with money
      left for it, applies both halves on top. */
  lemma RetryAfterHarm(cfg: Config, st: GState, id: string, p: Payment, env: Env, again: Env)
    requires cfg.usesTwoPhase && p.receiver != "" && InterBank(cfg, p) && id !in st.records
    requires Harms(cfg, st, Attempt(p.client, id, p, env), id)
    requires PrepareGoesThrough(cfg, st, p, again) && CommitClean(again) && again.between == []
    requires Debited(cfg, st, id, p, env) ==> BalanceOf(st.banks[cfg.bankOf[p.client]], p.client) >= 2 * p.amount
    ensures var first := Process(cfg, st, p.client, id, p, env);
      var second := Process(cfg, first.st, p.client, id, p, again);
      && !first.success && second.success
      && first.debits + second.debits == (if Debited(cfg, st, id, p, env) then 2 else 1)
      && first.credits + second.credits == (if Credited(cfg, st, id, p, env) then 2 else 1)
      && (Debited(cfg, st, id, p, env) || Credited(cfg, st, id, p, env))
  {
    hide ProcessTwoPhase, UpdateBalances, HasClient, Adjusted, HalfArrives;
    TwoPhaseMoves(cfg, st, id, p, env);
    var first := ProcessTwoPhase(cfg, st, id, p, env);
    StillGoesThrough(cfg, st, first.st, id, p, again, Debited(cfg, st, id, p, env), Credited(cfg, st, id, p, env));
    TwoPhaseMoves(cfg, first.st, id, p, again);
    CleanArrives(cfg, first.st, id, p, again);
    hide *;
  }

  lemma CleanArrives(cfg: Config, st: GState, id: string, p: Payment, env: Env)
    requires PrepareGoesThrough(cfg, st, p, env) && CommitClean(env) && env.between == []
    ensures Debited(cfg, st, id, p, env) && Credited(cfg, st, id, p, env)
  {
  }

  /** Harm needs no fault of the attempt's own calls: an abort of an earlier attempt that reaches the sender's bank
      between the two phases makes the commit apply the credit alone. */
  lemma LateAbortSplits(cfg: Config, st: GState, id: string, p: Payment, env: Env)
    requires InterBank(cfg, p) && !InProgress(Find(st.records, id))
    requires PrepareGoesThrough(cfg, st, p, env) && CommitClean(env)
    requires env.between == [LateRequest(cfg.bankOf[p.client], Abort(id))]
    ensures var out := ProcessTwoPhase(cfg, st, id, p, env); !out.success && out.debits == 0 && out.credits == 1
  {
    hide ProcessTwoPhase, Moves;
    var sender, receiver := cfg.bankOf[p.client], cfg.bankOf[p.receiver];
    assert StaysPrepared(st.banks[receiver], receiver, env.between[..0], id);
    assert StaysPrepared(st.banks[receiver], receiver, env.between, id);
    assert !StaysPrepared(st.banks[sender], sender, env.between, id);
    hide StaysPrepared;
    TwoPhaseMoves(cfg, st, id, p, env);
  }

  // ---------- The gateway's mirror of the banks ----------

  /** Every client the gateway has a balance for has the same balance at its bank, and it is not negative. */
  ghost predicate Mirrored(cfg: Config, st: GState) {
    forall c :: c in st.balances ==>
      && c in cfg.bankOf && cfg.bankOf[c] in st.banks && c in st.banks[cfg.bankOf[c]].balances
      && st.banks[cfg.bankOf[c]].balances[c] == st.balances[c] >= 0
  }

  /** A bank that knows the account number the gateway has for a client knows it as that client's. */
  ghost predicate AccountsAgree(cfg: Config, st: GState) {
    forall c :: c in cfg.accounts && c in cfg.bankOf && cfg.bankOf[c] in st.banks ==>
      var bank := st.banks[cfg.bankOf[c]];
      cfg.accounts[c] in bank.clients ==> bank.clients[cfg.accounts[c]] == c
  }

  predicate TwoPhasePayment(cfg: Config, p: Payment) {
    cfg.usesTwoPhase && p.receiver != ""
  }

  /** Amounts are not negative, transfers are between banks and safe in their commit phase, and no plain payment is
      executed without its reply. */
  predicate Tame(cfg: Config, op: Op) {
    op.Attempt? ==>
      && op.p.amount >= 0
      && (if TwoPhasePayment(cfg, op.p) then InterBank(cfg, op.p) && CommitSafe(op.env, op.id) else op.env.pay != ReplyLost)
  }

  lemma QuietKeepsMirror(cfg: Config, st: GState, st': GState, id: string)
    requires Mirrored(cfg, st) && AccountsAgree(cfg, st) && Quiet(st, st', id)
    ensures Mirrored(cfg, st') && AccountsAgree(cfg, st')
  {
  }

  lemma TransferKeepsMirror(cfg: Config, st: GState, st': GState, id: string, p: Payment)
    requires Mirrored(cfg, st) && AccountsAgree(cfg, st) && InterBank(cfg, p) && p.amount >= 0
    requires Moves(cfg, st, st', id, p, true, true, true)
    requires p.client in st.balances && st.balances[p.client] >= p.amount
    ensures Mirrored(cfg, st') && AccountsAgree(cfg, st')
  {
    forall c | c in st'.balances
      ensures c in cfg.bankOf && cfg.bankOf[c] in st'.banks && c in st'.banks[cfg.bankOf[c]].balances
      ensures st'.banks[cfg.bankOf[c]].balances[c] == st'.balances[c] >= 0
    {
      OneBalance(cfg, st, st', id, p, c);
    }
  }

  lemma OneBalance(cfg: Config, st: GState, st': GState, id: string, p: Payment, c: string)
    requires Mirrored(cfg, st) && InterBank(cfg, p) && p.amount >= 0
    requires Moves(cfg, st, st', id, p, true, true, true)
    requires p.client in st.balances && st.balances[p.client] >= p.amount && c in st'.balances
    ensures c in cfg.bankOf && cfg.bankOf[c] in st'.banks && c in st'.banks[cfg.bankOf[c]].balances
    ensures st'.banks[cfg.bankOf[c]].balances[c] == st'.balances[c] >= 0
  {
    assert c in st.balances;
    assert cfg.bankOf[c] in st.banks;
  }

  lemma SimpleKeepsMirror(cfg: Config, st: GState, id: string, p: Payment, env: Env)
    requires Mirrored(cfg, st) && AccountsAgree(cfg, st) && p.client in st.balances && env.pay != ReplyLost
    ensures var st' := ProcessSimple(cfg, st, id, p, st.balances[p.client], env).st;
      Mirrored(cfg, st') && AccountsAgree(cfg, st')
  {
  }

  lemma OpKeepsMirror(cfg: Config, st: GState, op: Op)
    requires Mirrored(cfg, st) && AccountsAgree(cfg, st) && Tame(cfg, op)
    ensures Mirrored(cfg, Apply(cfg, st, op).st) && AccountsAgree(cfg, Apply(cfg, st, op).st)
  {
    hide Mirrored, AccountsAgree, ProcessTwoPhase, ProcessSimple, Send, Quiet, Moves, Whole, CommitSafe;
    match op
    case Attempt(user, id, p, env) =>
      if p.client in st.balances && st.balances[p.client] >= p.amount {
        if !TwoPhasePayment(cfg, p) {
          SimpleKeepsMirror(cfg, st, id, p, env);
        } else if !InProgress(Find(st.records, id)) {
          SafeIsWhole(cfg, st, id, p, env);
          AtomicExactly(cfg, st, id, p, env);
          var out := ProcessTwoPhase(cfg, st, id, p, env);
          if out.success {
            TransferKeepsMirror(cfg, st, out.st, id, p);
          } else {
            QuietKeepsMirror(cfg, st, out.st, id);
          }
        } else {
          InProgressIsLeft(cfg, st, id, p, env);
        }
      }
    case Late(late) =>
      if MovesNoMoney(late.request) {
        SendIsQuiet(st, late.bank, late.request, ReplyLost, "");
        QuietKeepsMirror(cfg, st, Deliver(st, late), "");
      }
    case Expire(now) => ExpiryKeepsMirror(cfg, st, now);
  }

  /** A transfer of a positive amount keeps the mirror if and only if its commit phase leaves it whole, or only credits
      a receiver the gateway has no balance for. */
  lemma TransferKeepsMirrorExactly(cfg: Config, st: GState, id: string, p: Payment, env: Env)
    requires Mirrored(cfg, st) && AccountsAgree(cfg, st) && InterBank(cfg, p) && p.amount > 0
    requires p.client in st.balances && st.balances[p.client] >= p.amount && !InProgress(Find(st.records, id))
    ensures Mirrored(cfg, ProcessTwoPhase(cfg, st, id, p, env).st) <==>
      Whole(cfg, st, id, p, env) || (!Debited(cfg, st, id, p, env) && p.receiver !in st.balances)
  {
    hide ProcessTwoPhase, Quiet, AccountsAgree, Moves, Mirrored, HalfArrives;
    var out := ProcessTwoPhase(cfg, st, id, p, env);
    if Whole(cfg, st, id, p, env) {
      AtomicExactly(cfg, st, id, p, env);
      if out.success {
        TransferKeepsMirror(cfg, st, out.st, id, p);
      } else {
        QuietKeepsMirror(cfg, st, out.st, id);
      }
    } else {
      TwoPhaseMoves(cfg, st, id, p, env);
      HarmBreaksMirror(cfg, st, out.st, id, p, Debited(cfg, st, id, p, env), Credited(cfg, st, id, p, env));
    }
  }

  lemma HarmBreaksMirror(cfg: Config, st: GState, st': GState, id: string, p: Payment, debited: bool, credited: bool)
    requires Mirrored(cfg, st) && InterBank(cfg, p) && p.amount > 0 && p.client in st.balances
    requires p.receiver in cfg.bankOf && cfg.bankOf[p.receiver] in st.banks
    requires Moves(cfg, st, st', id, p, debited, credited, false) && (debited || credited)
    ensures Mirrored(cfg, st') <==> !debited && p.receiver !in st.balances
  {
    if debited {
      assert st'.balances[p.client] == st.balances[p.client];
    } else if p.receiver in st.balances {
      assert st'.balances[p.receiver] == st.balances[p.receiver];
    }
  }

  lemma InProgressIsLeft(cfg: Config, st: GState, id: string, p: Payment, env: Env)
    requires InProgress(Find(st.records, id))
    ensures ProcessTwoPhase(cfg, st, id, p, env) == Outcome(st, false, 0, 0, 0)
  {
  }

  lemma ExpiryKeepsMirror(cfg: Config, st: GState, now: int)
    requires Mirrored(cfg, st) && AccountsAgree(cfg, st)
    ensures Mirrored(cfg, CleanupExpired(cfg, st, now)) && AccountsAgree(cfg, CleanupExpired(cfg, st, now))
  {
  }

  /** Over every tame run the gateway's balance of each client stays the bank's, and never goes negative. */
  lemma {:induction false} MirrorAgreement(cfg: Config, st: GState, ops: seq<Op>)
    requires Mirrored(cfg, st) && AccountsAgree(cfg, st) && forall k :: 0 <= k < |ops| ==> Tame(cfg, ops[k])
    ensures Mirrored(cfg, Run(cfg, st, ops)) && AccountsAgree(cfg, Run(cfg, st, ops))
  {
    hide Mirrored, AccountsAgree, Apply, Tame;
    if |ops| > 0 {
      MirrorAgreement(cfg, st, ops[..|ops|-1]);
      OpKeepsMirror(cfg, Run(cfg, st, ops[..|ops|-1]), ops[|ops|-1]);
    }
  }

  /** A plain payment that loses its reply leaves the mirror whole only if the bank cannot have accepted it: no
      positive amount, no name, or an account the bank does not know. */
  lemma LostReplyBreaksMirror(cfg: Config, st: GState, user: string, id: string, p: Payment, env: Env)
    requires Mirrored(cfg, st) && AccountsAgree(cfg, st) && env.pay == ReplyLost && !TwoPhasePayment(cfg, p)
    requires user == p.client && Cached(cfg, Find(st.records, id)).None?
    requires p.client in st.balances && st.balances[p.client] >= p.amount && env.bankAtPay && p.client in cfg.accounts
    ensures Mirrored(cfg, Process(cfg, st, user, id, p, env).st)
      <==> p.amount <= 0 || p.client == "" || cfg.accounts[p.client] !in st.banks[cfg.bankOf[p.client]].clients
  {
  }
}
