/** The gateway's payment service, its balance table and its transaction records. */
module Gateway {
  import opened Basics
  import opened Collections
  import B = Banks
  import opened PaymentSpec
  import Aborts = PaymentAborts
  import Answers = PaymentAnswers
  import PaymentConservation
  import Steps = PaymentSteps
  import Runs = PaymentRuns

  class BalanceStorage {
    var accountBalances: map<string, int>

    constructor (balances: map<string, int>)
      ensures accountBalances == balances
    {
      accountBalances := balances;
    }

    method GetBalance(client: string) returns (balance: Option<int>)
      ensures balance == if client in accountBalances then Some(accountBalances[client]) else None
    {
      balance := if client in accountBalances then Some(accountBalances[client]) else None;
    }

    /** Fails, and changes nothing, for a client the table does not have. */
    method UpdateBalance(client: string, balance: int) returns (updated: bool)
      modifies this
      ensures updated <==> client in old(accountBalances)
      ensures accountBalances == if updated then old(accountBalances)[client := balance] else old(accountBalances)
    {
      if client !in accountBalances { return false; }
      accountBalances := accountBalances[client := balance];
      updated := true;
    }
  }

  class TransactionManager {
    const ttl: int
    var transactions: map<string, Record>

    constructor (ttl: int)
      ensures this.ttl == ttl && transactions == map[]
    {
      this.ttl, transactions := ttl, map[];
    }

    method Store(id: string, record: Record)
      modifies this
      ensures transactions == old(transactions)[id := record]
    {
      transactions := transactions[id := record];
    }

    method GetTransaction(id: string) returns (record: Option<Record>)
      ensures record == if id in transactions then Some(transactions[id]) else None
    {
      record := if id in transactions then Some(transactions[id]) else None;
    }

    /** The coordinator moves its record on. */
    method SetState(id: string, state: TwoPhaseState)
      modifies this
      ensures transactions == Moved(old(transactions), id, state)
    {
      if id in transactions && transactions[id].TwoPhaseRecord? {
        transactions := transactions[id := transactions[id].(state := state)];
      }
    }

    method CleanupTransaction(id: string)
      modifies this
      ensures transactions == old(transactions) - {id}
    {
      transactions := transactions - {id};
    }

    /** Marks what is still in progress as aborted, collects the expired records and only then removes them. */
    method CleanupExpiredTransactions(now: int)
      modifies this
      ensures transactions == Unexpired(old(transactions), ttl, now)
      ensures forall id ::
        id in transactions <==> id in old(transactions) && now - old(transactions)[id].at <= ttl
      ensures forall id :: id in transactions ==> transactions[id] == old(transactions)[id]
    {
      ghost var before := transactions;
      var rest, expired := transactions.Keys, {};
      while rest != {}
        invariant rest <= before.Keys && transactions.Keys == before.Keys
        invariant forall id :: id in before ==> transactions[id].at == before[id].at
        invariant forall id :: id in before && !Expired(before[id], ttl, now) ==> transactions[id] == before[id]
        invariant forall id :: id in expired <==> id in before && id !in rest && Expired(before[id], ttl, now)
        decreases rest
      {
        var id := PickAny(rest);
        if Expired(transactions[id], ttl, now) {
          if transactions[id].TwoPhaseRecord?
             && transactions[id].state != CommittedAll && transactions[id].state != AbortedAll {
            transactions := transactions[id := transactions[id].(state := AbortedAll)];
          }
          expired := expired + {id};
        }
        rest := rest - {id};
      }
      transactions := transactions - expired;
    }
  }

  class Service {
    const cfg: Config
    const storage: BalanceStorage
    const records: TransactionManager
    const banks: map<string, B.Bank>

    /** No bank is listed twice. */
    ghost predicate Valid() {
      && (forall b :: b in banks ==> banks[b].name == b)
      && records.ttl == cfg.ttl
    }

    ghost function View(): GState
      reads storage, records, banks.Values
    {
      GState(storage.accountBalances, records.transactions, map b | b in banks :: banks[b].View())
    }

    constructor (cfg: Config, storage: BalanceStorage, records: TransactionManager, banks: map<string, B.Bank>)
      requires records.ttl == cfg.ttl && forall b :: b in banks ==> banks[b].name == b
      ensures Valid() && this.cfg == cfg && this.storage == storage && this.records == records && this.banks == banks
    {
      this.cfg, this.storage, this.records, this.banks := cfg, storage, records, banks;
    }

    twostate lemma OneBankChanged(bank: string)
      requires Valid() && bank in banks
      requires unchanged(storage) && unchanged(records)
      requires forall x :: x in banks && x != bank ==> unchanged(banks[x])
      ensures View() == old(View()).(banks := old(View()).banks[bank := banks[bank].View()])
    {
    }

    /** Calls a bank. A call that is lost does nothing; one whose reply is lost is executed all the same. `applied`
        says whether the bank accepted it. */
    method Call(bank: string, r: B.Request, fate: Fate) returns (ok: bool, ghost applied: nat)
      requires Valid() && bank in banks
      modifies banks.Values
      ensures Sent(View(), ok, applied) == Send(old(View()), bank, r, fate)
    {
      hide B.Handle;
      if fate == Lost { return false, 0; }
      var target := banks[bank];
      var success, reply := false, B.Refused;
      if r.ProcessPayment? {
        success := target.ProcessPayment(r.account, r.amount);
      } else if r.PrepareDebit? {
        success := target.PrepareDebit(r.id, r.client, r.amount);
      } else if r.PrepareCredit? {
        success := target.PrepareCredit(r.id, r.client, r.amount);
      } else if r.CommitDebit? {
        reply := target.CommitDebit(r.id, r.client, r.amount);
        success := reply == B.Accepted;
      } else if r.CommitCredit? {
        reply := target.CommitCredit(r.id, r.client, r.amount);
        success := reply == B.Accepted;
      } else {
        success := target.Abort(r.id);
      }
      ok := fate == Answered && success;
      applied := if success then 1 else 0;
      assert target.View() == B.Handle(old(View()).banks[bank], r).0;
      OneBankChanged(bank);
    }

    // The table and the records, as the rest of the service sees them.

    method GetBalance(client: string) returns (balance: Option<int>)
      ensures balance == Find(View().balances, client)
    {
      balance := storage.GetBalance(client);
    }

    method UpdateBalance(client: string, balance: int)
      modifies storage
      ensures View() == PaymentSpec.SetBalance(old(View()), client, balance)
    {
      var _ := storage.UpdateBalance(client, balance);
    }

    method GetTransaction(id: string) returns (record: Option<Record>)
      ensures record == Find(View().records, id)
    {
      record := records.GetTransaction(id);
    }

    method StoreTransaction(id: string, record: Record)
      modifies records
      ensures View() == PaymentSpec.Store(old(View()), id, record)
    {
      records.Store(id, record);
    }

    method CleanupTransaction(id: string)
      modifies records
      ensures View() == Cleanup(old(View()), id)
    {
      records.CleanupTransaction(id);
    }

    method GetBankForClient(client: string, connects: bool) returns (bank: Option<string>)
      ensures bank == BankFor(cfg, View(), client, connects)
      ensures bank.Some? ==> bank.value in banks
    {
      if client in cfg.bankOf && cfg.bankOf[client] in banks && connects { return Some(cfg.bankOf[client]); }
      bank := None;
    }

    method SetState(id: string, state: TwoPhaseState)
      modifies records
      ensures View() == PaymentSpec.SetState(old(View()), id, state)
    {
      records.SetState(id, state);
    }

    /** Tells one bank to abort; what it answers does not matter. */
    method SendAbort(id: string, client: string, connects: bool, fate: Fate)
      requires Valid()
      modifies banks.Values
      ensures View() == PaymentSpec.SendAbort(cfg, old(View()), id, client, connects, fate)
    {
      hide Send;
      var bank := GetBankForClient(client, connects);
      if bank.Some? {
        var _, _ := Call(bank.value, B.Abort(id), fate);
      }
    }

    method AbortTransaction(id: string, p: Payment, env: Env)
      requires Valid()
      modifies records, banks.Values
      ensures View() == PaymentSpec.AbortTransaction(cfg, old(View()), id, p, env)
      ensures Aborts.Aborts(cfg, old(View()), View(), id, p, env)
    {
      hide PaymentSpec.SendAbort, PaymentSpec.SetState, Aborts.Aborts, View, Valid;
      Aborts.AbortExactly(cfg, View(), id, p, env);
      SetState(id, Aborting);
      SendAbort(id, p.client, env.senderAtAbort, env.abortSender);
      SendAbort(id, p.receiver, env.receiverAtAbort, env.abortReceiver);
      SetState(id, AbortedAll);
    }

    /** Asks both banks whatever the other answers. A deadline, an error or a refusal aborts. */
    method PreparePhase(id: string, p: Payment, env: Env) returns (prepared: bool)
      requires Valid()
      modifies records, banks.Values
      ensures (View(), prepared) == PaymentSpec.PreparePhase(cfg, old(View()), id, p, env)
    {
      hide PaymentSpec.AbortTransaction, PaymentSpec.SetState, Send, View, BankFor;
      var senderBank := GetBankForClient(p.client, env.senderAtPrepare);
      if senderBank.None? {
        AbortTransaction(id, p, env);
        return false;
      }
      var receiverBank := GetBankForClient(p.receiver, env.receiverAtPrepare);
      if receiverBank.None? {
        AbortTransaction(id, p, env);
        return false;
      }
      SetState(id, Preparing);
      var debited, _ := Call(senderBank.value, B.PrepareDebit(id, p.client, p.amount), env.prepareDebit);
      var credited, _ := Call(receiverBank.value, B.PrepareCredit(id, p.receiver, p.amount), env.prepareCredit);
      if env.prepareTimedOut || !debited || !credited {
        AbortTransaction(id, p, env);
        return false;
      }
      SetState(id, PreparedAll);
      prepared := true;
    }

    method UpdateTwoPhaseBalances(p: Payment)
      modifies storage
      ensures View() == UpdateBalances(old(View()), p)
    {
      hide View, PaymentSpec.SetBalance;
      var sender := GetBalance(p.client);
      if sender.None? { return; }
      UpdateBalance(p.client, sender.value - p.amount);
      var receiver := GetBalance(p.receiver);
      if receiver.None? { return; }
      UpdateBalance(p.receiver, receiver.value + p.amount);
    }

    /** `debits` and `credits` count the halves the banks applied. */
    method CommitPhase(id: string, p: Payment, env: Env) returns (committed: bool, ghost debits: nat, ghost credits: nat)
      requires Valid()
      modifies storage, records, banks.Values
      ensures Outcome(View(), committed, debits, credits, 0) == PaymentSpec.CommitPhase(cfg, old(View()), id, p, env)
    {
      hide PaymentSpec.AbortTransaction, PaymentSpec.SetState, Send, UpdateBalances, View, BankFor;
      debits, credits := 0, 0;
      var senderBank := GetBankForClient(p.client, env.senderAtCommit);
      if senderBank.None? {
        AbortTransaction(id, p, env);
        return false, 0, 0;
      }
      var receiverBank := GetBankForClient(p.receiver, env.receiverAtCommit);
      if receiverBank.None? {
        AbortTransaction(id, p, env);
        return false, 0, 0;
      }
      SetState(id, Committing);
      var debited, credited;
      debited, debits := Call(senderBank.value, B.CommitDebit(id, p.client, p.amount), env.commitDebit);
      credited, credits := Call(receiverBank.value, B.CommitCredit(id, p.receiver, p.amount), env.commitCredit);
      if env.commitTimedOut {
        AbortTransaction(id, p, env);
        return false, debits, credits;
      }
      if !debited || !credited { return false, debits, credits; }
      SetState(id, CommittedAll);
      UpdateTwoPhaseBalances(p);
      committed := true;
    }

    /** The network brings a bank a prepare or an abort that is late; nobody waits for its answer. */
    method Deliver(late: LateRequest)
      requires Valid()
      modifies banks.Values
      ensures View() == PaymentSpec.Deliver(old(View()), late)
    {
      hide B.Handle;
      if !MovesNoMoney(late.request) || late.bank !in banks { return; }
      var _, _ := Call(late.bank, late.request, ReplyLost);
    }

    method DeliverAll(lates: seq<LateRequest>)
      requires Valid()
      modifies banks.Values
      ensures View() == PaymentSpec.DeliverAll(old(View()), lates)
    {
      hide View, Valid, PaymentSpec.Deliver;
      ghost var st := View();
      for i := 0 to |lates|
        invariant View() == PaymentSpec.DeliverAll(st, lates[..i])
      {
        assert lates[..i+1][..i] == lates[..i];
        Deliver(lates[i]);
      }
      assert lates[..|lates|] == lates;
    }

    method RunTwoPhaseCommit(id: string, p: Payment, env: Env)
      returns (success: bool, ghost debits: nat, ghost credits: nat)
      requires Valid()
      modifies storage, records, banks.Values
      ensures Outcome(View(), success, debits, credits, 0) == PaymentSpec.RunTwoPhaseCommit(cfg, old(View()), id, p, env)
    {
      hide PaymentSpec.PreparePhase, PaymentSpec.CommitPhase, PaymentSpec.DeliverAll, View, Valid;
      success := PreparePhase(id, p, env);
      if !success { return false, 0, 0; }
      DeliverAll(env.between);
      success, debits, credits := CommitPhase(id, p, env);
    }

    method ProcessTwoPhasePayment(id: string, p: Payment, env: Env)
      returns (success: bool, ghost debits: nat, ghost credits: nat)
      requires Valid()
      modifies storage, records, banks.Values
      ensures Outcome(View(), success, debits, credits, 0) == ProcessTwoPhase(cfg, old(View()), id, p, env)
    {
      hide PaymentSpec.RunTwoPhaseCommit, PaymentSpec.Store, Find, Cleanup, View, Valid;
      var record := GetTransaction(id);
      if record.Some? && record.value.TwoPhaseRecord? {
        if record.value.state == Preparing || record.value.state == Committing { return false, 0, 0; }
      }
      StoreTransaction(id, TwoPhaseRecord(Preparing, env.now));
      success, debits, credits := RunTwoPhaseCommit(id, p, env);
      if !success {
        CleanupTransaction(id);
      }
    }

    method ProcessSimplePayment(id: string, p: Payment, balance: int, env: Env)
      returns (success: bool, ghost paid: nat)
      requires Valid()
      modifies storage, records, banks.Values
      ensures Outcome(View(), success, 0, 0, paid) == ProcessSimple(cfg, old(View()), id, p, balance, env)
      ensures success <==> Answers.BankPays(cfg, old(View()), p, env) && env.pay == Answered
      ensures paid == if Answers.BankPays(cfg, old(View()), p, env) then 1 else 0
    {
      Answers.SimpleAnswer(cfg, View(), id, p, balance, env);
      hide Answers.BankPays, PaymentSpec.SetBalance, PaymentSpec.Store, Send, BankFor, View, Valid;
      paid := 0;
      var bank := GetBankForClient(p.client, env.bankAtPay);
      if bank.None? { return false, 0; }
      if p.client !in cfg.accounts { return false, 0; }
      success, paid := Call(bank.value, B.ProcessPayment(cfg.accounts[p.client], p.amount), env.pay);
      if !success { return; }
      UpdateBalance(p.client, balance - p.amount);
      StoreTransaction(id, SimpleRecord(true, env.now));
    }

    /** Answers from a finished record, or checks the balance and pays. */
    method ProcessPayment(user: string, id: string, p: Payment, env: Env)
      returns (success: bool, ghost debits: nat, ghost credits: nat, ghost paid: nat)
      requires Valid()
      modifies storage, records, banks.Values
      ensures Outcome(View(), success, debits, credits, paid) == Process(cfg, old(View()), user, id, p, env)
    {
      hide ProcessTwoPhase, ProcessSimple, Find, View, Valid;
      debits, credits, paid := 0, 0, 0;
      if user != p.client { return false, 0, 0, 0; }
      var record := GetTransaction(id);
      if record.Some? {
        if cfg.usesTwoPhase {
          if record.value.TwoPhaseRecord? {
            if record.value.state == CommittedAll { return true, 0, 0, 0; }
            if record.value.state == AbortedAll { return false, 0, 0, 0; }
          }
        } else if record.value.SimpleRecord? {
          return record.value.success, 0, 0, 0;
        }
      }
      var balance := GetBalance(p.client);
      if balance.None? { return false, 0, 0, 0; }
      if balance.value < p.amount { return false, 0, 0, 0; }
      if cfg.usesTwoPhase && p.receiver != "" {
        success, debits, credits := ProcessTwoPhasePayment(id, p, env);
      } else {
        success, paid := ProcessSimplePayment(id, p, balance.value, env);
      }
    }

    /** The periodic clean-up. */
    method CleanupRoutine(now: int)
      requires Valid()
      modifies records
      ensures View() == CleanupExpired(cfg, old(View()), now)
    {
      records.CleanupExpiredTransactions(now);
    }

    // ---------- Whole runs ----------

    method Perform(op: Runs.Op) returns (success: bool)
      requires Valid()
      modifies storage, records, banks.Values
      ensures View() == Runs.Apply(cfg, old(View()), op).st && success == Runs.Apply(cfg, old(View()), op).success
    {
      hide Process, PaymentSpec.Deliver, CleanupExpired, View, Valid;
      success := false;
      match op
      case Attempt(user, id, p, env) =>
        ghost var debits, credits, paid;
        success, debits, credits, paid := ProcessPayment(user, id, p, env);
      case Late(late) => Deliver(late);
      case Expire(now) => CleanupRoutine(now);
    }

    method PerformAll(ops: seq<Runs.Op>) returns (answers: seq<bool>)
      requires Valid()
      modifies storage, records, banks.Values
      ensures View() == Runs.Run(cfg, old(View()), ops) && Runs.AnswersOf(cfg, old(View()), ops, answers)
    {
      hide View, Valid, Runs.Apply;
      answers := [];
      ghost var st := View();
      for i := 0 to |ops|
        invariant View() == Runs.Run(cfg, st, ops[..i])
        invariant |answers| == i
        invariant forall k :: 0 <= k < i ==> answers[k] == Runs.Apply(cfg, Runs.Run(cfg, st, ops[..k]), ops[k]).success
      {
        assert ops[..i+1][..i] == ops[..i];
        var success := Perform(ops[i]);
        answers := answers + [success];
      }
      assert ops[..|ops|] == ops;
    }

    /** The service over any run of payments, late prepares and aborts, and clean-ups, whatever happens to the calls.
        The banks' money changes by the applied halves and the plain payments alone. The attempts for one transfer
        apply its halves once if one of them is answered with success and not at all otherwise, if and only if none
        does harm. The table stays the banks' while the run is tame. */
    method Serve(ops: seq<Runs.Op>) returns (answers: seq<bool>)
      requires Valid()
      modifies storage, records, banks.Values
      ensures |answers| == |ops|
      ensures forall k :: 0 <= k < |ops| && ops[k].Attempt?
                          && (Answers.PlainPayment(cfg, ops[k].p) || Steps.InterBank(cfg, ops[k].p)) ==>
        (answers[k] <==>
           Answers.Succeeds(cfg, Runs.Run(cfg, old(View()), ops[..k]), ops[k].user, ops[k].id, ops[k].p, ops[k].env))
      ensures !cfg.usesTwoPhase ==> forall id ::
        id !in old(View()).records && Runs.NeverExpires(cfg, old(View()), ops, id) ==>
          (Answers.Payments(cfg, old(View()), ops, id) == (if Runs.Succeeded(ops, answers, id) then 1 else 0) <==>
             Answers.NoReplyLost(cfg, old(View()), ops, id))
      ensures B.Money(View().banks) == B.Money(old(View()).banks) + PaymentConservation.Inflows(cfg, old(View()), ops)
      ensures (forall k :: 0 <= k < |ops| ==> PaymentConservation.Even(cfg, ops[k])) ==>
        B.Money(View().banks) == B.Money(old(View()).banks)
      ensures forall id, p :: Runs.OneTransfer(cfg, old(View()), ops, id, p) ==>
        var w := if Runs.Succeeded(ops, answers, id) then 1 else 0;
        Runs.Halves(cfg, old(View()), ops, id) == (w, w) <==> Runs.Harmless(cfg, old(View()), ops, id)
      ensures Runs.Mirrored(cfg, old(View())) && Runs.AccountsAgree(cfg, old(View())) ==>
        ((forall k :: 0 <= k < |ops| ==> Runs.Tame(cfg, ops[k])) ==> Runs.Mirrored(cfg, View()))
    {
      hide *;
      ghost var st := View();
      answers := PerformAll(ops);
      AnswersLength(st, ops, answers);
      forall k | 0 <= k < |ops| && ops[k].Attempt?
                 && (Answers.PlainPayment(cfg, ops[k].p) || Steps.InterBank(cfg, ops[k].p))
        ensures answers[k] <==>
          Answers.Succeeds(cfg, Runs.Run(cfg, st, ops[..k]), ops[k].user, ops[k].id, ops[k].p, ops[k].env)
      {
        AnswerAt(st, ops, answers, k);
        Answers.SucceedsExactly(cfg, Runs.Run(cfg, st, ops[..k]), ops[k].user, ops[k].id, ops[k].p, ops[k].env);
      }
      forall id | !cfg.usesTwoPhase && id !in st.records && Runs.NeverExpires(cfg, st, ops, id)
        ensures Answers.Payments(cfg, st, ops, id) == (if Runs.Succeeded(ops, answers, id) then 1 else 0) <==>
          Answers.NoReplyLost(cfg, st, ops, id)
      {
        Answers.PaidOnceExactly(cfg, st, ops, id);
        Runs.ReportedIsSucceeded(cfg, st, ops, answers, id);
      }
      PaymentConservation.ServiceConservesMoney(cfg, st, ops);
      if forall k :: 0 <= k < |ops| ==> PaymentConservation.Even(cfg, ops[k]) {
        PaymentConservation.EvenTransfersBalance(cfg, st, ops);
      }
      forall id, p | Runs.OneTransfer(cfg, st, ops, id, p)
        ensures var w := if Runs.Succeeded(ops, answers, id) then 1 else 0;
          Runs.Halves(cfg, st, ops, id) == (w, w) <==> Runs.Harmless(cfg, st, ops, id)
      {
        Runs.AppliedOnceExactly(cfg, st, ops, id, p);
        Runs.ReportedIsSucceeded(cfg, st, ops, answers, id);
      }
      if Runs.Mirrored(cfg, st) && Runs.AccountsAgree(cfg, st) && forall k :: 0 <= k < |ops| ==> Runs.Tame(cfg, ops[k]) {
        Runs.MirrorAgreement(cfg, st, ops);
      }
    }

    lemma AnswerAt(st: GState, ops: seq<Runs.Op>, answers: seq<bool>, k: nat)
      requires Runs.AnswersOf(cfg, st, ops, answers) && k < |ops| && ops[k].Attempt?
      ensures k < |answers|
      ensures answers[k] ==
        Process(cfg, Runs.Run(cfg, st, ops[..k]), ops[k].user, ops[k].id, ops[k].p, ops[k].env).success
    {
    }

    lemma AnswersLength(st: GState, ops: seq<Runs.Op>, answers: seq<bool>)
      requires Runs.AnswersOf(cfg, st, ops, answers)
      ensures |answers| == |ops|
    {
    }
  }
}
