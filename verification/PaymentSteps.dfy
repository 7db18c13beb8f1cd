/** What each phase of a two-phase payment changes, and what it leaves alone. */
module PaymentSteps {
  import opened Basics
  import opened Banks
  import opened PaymentSpec

  predicate InterBank(cfg: Config, p: Payment) {
    p.client in cfg.bankOf && p.receiver in cfg.bankOf ==> cfg.bankOf[p.client] != cfg.bankOf[p.receiver]
  }

  /** Both banks know their client, the sender's has the money, and the prepare phase meets no trouble. */
  ghost predicate PrepareGoesThrough(cfg: Config, st: GState, p: Payment, env: Env) {
    && p.client in cfg.bankOf && p.receiver in cfg.bankOf
    && cfg.bankOf[p.client] in st.banks && cfg.bankOf[p.receiver] in st.banks
    && HasClient(st.banks[cfg.bankOf[p.client]], p.client) && HasClient(st.banks[cfg.bankOf[p.receiver]], p.receiver)
    && BalanceOf(st.banks[cfg.bankOf[p.client]], p.client) >= p.amount
    && env.senderAtPrepare && env.receiverAtPrepare && !env.prepareTimedOut
    && env.prepareDebit == Answered && env.prepareCredit == Answered
  }

  /** Whether a bank that had `id` prepared still has it so after the late requests: the last of them about `id` that
      it does not refuse is no abort. */
  predicate StaysPrepared(b: BankState, bank: string, lates: seq<LateRequest>, id: string) {
    if |lates| == 0 then true
    else
      var last := lates[|lates|-1];
      if last.bank == bank && last.request == Abort(id) then false
      else if last.bank == bank && PreparesAgain(b, last.request, id) then true
      else StaysPrepared(b, bank, lates[..|lates|-1], id)
  }

  predicate PreparesAgain(b: BankState, r: Request, id: string) {
    (r.PrepareDebit? || r.PrepareCredit?) && r.id == id && Handle(b, r).1 == Accepted
  }

  /** The bank hears of the commit and still has the transfer prepared. */
  predicate HalfArrives(cfg: Config, st: GState, id: string, client: string, env: Env, fate: Fate)
    requires client in cfg.bankOf && cfg.bankOf[client] in st.banks
  {
    fate != Lost && StaysPrepared(st.banks[cfg.bankOf[client]], cfg.bankOf[client], env.between, id)
  }

  /** Nothing goes wrong on the way to the banks during the commit phase. */
  predicate CommitClean(env: Env) {
    && env.senderAtCommit && env.receiverAtCommit && !env.commitTimedOut
    && env.commitDebit == Answered && env.commitCredit == Answered
  }

  /** The coordinator comes to send the commits. */
  ghost predicate CommitsSent(cfg: Config, st: GState, p: Payment, env: Env) {
    PrepareGoesThrough(cfg, st, p, env) && env.senderAtCommit && env.receiverAtCommit
  }

  ghost predicate Debited(cfg: Config, st: GState, id: string, p: Payment, env: Env) {
    CommitsSent(cfg, st, p, env) && HalfArrives(cfg, st, id, p.client, env, env.commitDebit)
  }

  ghost predicate Credited(cfg: Config, st: GState, id: string, p: Payment, env: Env) {
    CommitsSent(cfg, st, p, env) && HalfArrives(cfg, st, id, p.receiver, env, env.commitCredit)
  }

  /** Once the commits are sent, either both arrive and nothing goes wrong, or neither arrives. */
  ghost predicate Whole(cfg: Config, st: GState, id: string, p: Payment, env: Env) {
    if CommitClean(env) then Debited(cfg, st, id, p, env) == Credited(cfg, st, id, p, env)
    else !Debited(cfg, st, id, p, env) && !Credited(cfg, st, id, p, env)
  }

  /** The commit phase is clean, or neither bank hears of it; and no abort of `id` arrives late before it. */
  predicate CommitSafe(env: Env, id: string) {
    || !env.senderAtCommit || !env.receiverAtCommit
    || (env.commitDebit == Lost && env.commitCredit == Lost)
    || (CommitClean(env) && forall k :: 0 <= k < |env.between| ==> env.between[k].request != Abort(id))
  }

  // ---------- What the steps of a payment leave alone ----------

  /** All balances, the gateway's and the banks', and all accounts are the same, and so are all records but that
      of `id`. */
  ghost predicate Quiet(st: GState, st': GState, id: string) {
    && st'.balances == st.balances
    && st'.banks.Keys == st.banks.Keys
    && (forall b :: b in st.banks ==>
          st'.banks[b].balances == st.banks[b].balances && st'.banks[b].clients == st.banks[b].clients)
    && (forall other :: other != id ==> Find(st'.records, other) == Find(st.records, other))
  }

  lemma QuietChain(st: GState, st': GState, st'': GState, id: string)
    requires Quiet(st, st', id) && Quiet(st', st'', id)
    ensures Quiet(st, st'', id)
  {
  }

  lemma SetStateIsQuiet(st: GState, id: string, state: TwoPhaseState)
    ensures Quiet(st, SetState(st, id, state), id)
  {
  }

  lemma SendIsQuiet(st: GState, bank: string, r: Request, fate: Fate, id: string)
    requires MovesNoMoney(r)
    ensures Quiet(st, Send(st, bank, r, fate).st, id)
  {
    if bank in st.banks { KeepsBalances(st.banks[bank], r); }
    hide Handle;
  }

  lemma KeepsBalances(b: BankState, r: Request)
    requires MovesNoMoney(r)
    ensures Handle(b, r).0.balances == b.balances && Handle(b, r).0.clients == b.clients
  {
  }

  lemma SendAbortIsQuiet(cfg: Config, st: GState, id: string, client: string, connects: bool, fate: Fate)
    ensures Quiet(st, SendAbort(cfg, st, id, client, connects, fate), id)
  {
    hide Send;
    var bank := BankFor(cfg, st, client, connects);
    if bank.Some? { SendIsQuiet(st, bank.value, Abort(id), fate, id); }
  }

  lemma AbortIsQuiet(cfg: Config, st: GState, id: string, p: Payment, env: Env)
    ensures Quiet(st, AbortTransaction(cfg, st, id, p, env), id)
  {
    hide Quiet, SendAbort, SetState;
    var st1 := SetState(st, id, Aborting);
    var st2 := SendAbort(cfg, st1, id, p.client, env.senderAtAbort, env.abortSender);
    var st3 := SendAbort(cfg, st2, id, p.receiver, env.receiverAtAbort, env.abortReceiver);
    SetStateIsQuiet(st, id, Aborting);
    SendAbortIsQuiet(cfg, st1, id, p.client, env.senderAtAbort, env.abortSender);
    QuietChain(st, st1, st2, id);
    SendAbortIsQuiet(cfg, st2, id, p.receiver, env.receiverAtAbort, env.abortReceiver);
    QuietChain(st, st2, st3, id);
    SetStateIsQuiet(st3, id, AbortedAll);
    QuietChain(st, st3, SetState(st3, id, AbortedAll), id);
  }

  /** Preparing, aborted or not, moves no money and touches no other record. */
  lemma PrepareIsQuiet(cfg: Config, st: GState, id: string, p: Payment, env: Env)
    ensures Quiet(st, PreparePhase(cfg, st, id, p, env).0, id)
  {
    hide Quiet, AbortTransaction, SetState, Send, BankFor;
    var sender := BankFor(cfg, st, p.client, env.senderAtPrepare);
    var receiver := BankFor(cfg, st, p.receiver, env.receiverAtPrepare);
    if sender.None? || receiver.None? {
      AbortIsQuiet(cfg, st, id, p, env);
    } else {
      var st1 := SetState(st, id, Preparing);
      var st2 := Send(st1, sender.value, PrepareDebit(id, p.client, p.amount), env.prepareDebit).st;
      var st3 := Send(st2, receiver.value, PrepareCredit(id, p.receiver, p.amount), env.prepareCredit).st;
      var st4 := PreparePhase(cfg, st, id, p, env).0;
      SetStateIsQuiet(st, id, Preparing);
      SendIsQuiet(st1, sender.value, PrepareDebit(id, p.client, p.amount), env.prepareDebit, id);
      QuietChain(st, st1, st2, id);
      SendIsQuiet(st2, receiver.value, PrepareCredit(id, p.receiver, p.amount), env.prepareCredit, id);
      QuietChain(st, st2, st3, id);
      SetStateIsQuiet(st3, id, PreparedAll);
      AbortIsQuiet(cfg, st3, id, p, env);
      QuietChain(st, st3, st4, id);
    }
  }

  lemma {:induction false} DeliverAllIsQuiet(st: GState, lates: seq<LateRequest>, id: string)
    ensures Quiet(st, DeliverAll(st, lates), id) && DeliverAll(st, lates).records == st.records
  {
    hide Quiet, Handle;
    if |lates| == 0 {
      NothingIsQuiet(st, id);
    } else {
      var before, last := DeliverAll(st, lates[..|lates|-1]), lates[|lates|-1];
      DeliverAllIsQuiet(st, lates[..|lates|-1], id);
      if MovesNoMoney(last.request) {
        SendIsQuiet(before, last.bank, last.request, ReplyLost, id);
        QuietChain(st, before, DeliverAll(st, lates), id);
      }
    }
  }

  lemma NothingIsQuiet(st: GState, id: string)
    ensures Quiet(st, st, id)
  {
  }

  /** Both halves have a bank, not the same one, and both banks are ready to commit. */
  ghost predicate Ready(cfg: Config, st: GState, id: string, p: Payment) {
    && TwoBanks(cfg, st.banks, p)
    && IsPrepared(st.banks[cfg.bankOf[p.client]], id) && IsPrepared(st.banks[cfg.bankOf[p.receiver]], id)
  }

  ghost predicate HasTwoPhase(st: GState, id: string, state: TwoPhaseState, at: int) {
    Find(st.records, id) == Some(TwoPhaseRecord(state, at))
  }

  /** Between two different banks the prepare phase succeeds exactly when it can, and then both banks are ready. */
  lemma PreparedIsReady(cfg: Config, st: GState, id: string, p: Payment, env: Env)
    requires InterBank(cfg, p) && HasTwoPhase(st, id, Preparing, env.now)
    ensures PreparePhase(cfg, st, id, p, env).1 <==> PrepareGoesThrough(cfg, st, p, env)
    ensures PreparePhase(cfg, st, id, p, env).1 ==>
      Ready(cfg, PreparePhase(cfg, st, id, p, env).0, id, p)
      && HasTwoPhase(PreparePhase(cfg, st, id, p, env).0, id, PreparedAll, env.now)
  {
    hide AbortTransaction, HasClient;
  }

  // ---------- What a commit phase moves ----------

  predicate IsBankOf(cfg: Config, client: string, b: string) {
    client in cfg.bankOf && cfg.bankOf[client] == b
  }

  /** The sender's bank has taken the amount if `debited`, the receiver's has added it if `credited`, and nothing else
      has moved. */
  ghost predicate BalancesMoved(cfg: Config, banks: map<string, BankState>, banks': map<string, BankState>, p: Payment,
                                debited: bool, credited: bool) {
    && banks'.Keys == banks.Keys
    && (forall b :: b in banks ==>
          && banks'[b].clients == banks[b].clients
          && banks'[b].balances ==
             (if debited && IsBankOf(cfg, p.client, b) then Adjusted(banks[b].balances, p.client, -p.amount)
              else if credited && IsBankOf(cfg, p.receiver, b) then Adjusted(banks[b].balances, p.receiver, p.amount)
              else banks[b].balances))
  }

  /** The banks have applied these halves, the gateway's own balances follow if `updated`, and no other record has
      changed. */
  ghost predicate Moves(cfg: Config, st: GState, st': GState, id: string, p: Payment, debited: bool, credited: bool,
                        updated: bool) {
    && st'.balances == (if updated then UpdateBalances(st, p).balances else st.balances)
    && BalancesMoved(cfg, st.banks, st'.banks, p, debited, credited)
    && (forall other :: other != id ==> Find(st'.records, other) == Find(st.records, other))
  }

  lemma QuietMovesNothing(cfg: Config, st: GState, st': GState, id: string, p: Payment)
    ensures Quiet(st, st', id) <==> Moves(cfg, st, st', id, p, false, false, false)
  {
  }

  lemma MovesAfterQuiet(cfg: Config, st: GState, st': GState, st'': GState, id: string, p: Payment, debited: bool,
                        credited: bool, updated: bool)
    requires Quiet(st, st', id) && Moves(cfg, st', st'', id, p, debited, credited, updated)
    ensures Moves(cfg, st, st'', id, p, debited, credited, updated)
  {
    BalancesOnly(st, st', p);
    hide UpdateBalances, Adjusted, IsBankOf, Find;
  }

  lemma QuietAfterMoves(cfg: Config, st: GState, st': GState, st'': GState, id: string, p: Payment, debited: bool,
                        credited: bool, updated: bool)
    requires Moves(cfg, st, st', id, p, debited, credited, updated) && Quiet(st', st'', id)
    ensures Moves(cfg, st, st'', id, p, debited, credited, updated)
  {
    hide UpdateBalances;
  }

  /** The bank after it has applied its half. */
  function Applied(b: BankState, id: string, client: string, amount: int): (b': BankState)
    requires IsPrepared(b, id)
    ensures b'.clients == b.clients && b'.balances == Adjusted(b.balances, client, amount)
  {
    Mark(Pay(b, client, amount), id, TxState.Committed)
  }

  /** A bank applies its half if the commit reaches it and finds the transfer prepared. */
  lemma CommitAccepted(st: GState, bank: string, id: string, r: Request, client: string, amount: int, fate: Fate)
    requires bank in st.banks
    requires r == CommitDebit(id, client, -amount) || r == CommitCredit(id, client, amount)
    ensures Send(st, bank, r, fate) ==
      if fate != Lost && IsPrepared(st.banks[bank], id)
      then Sent(st.(banks := st.banks[bank := Applied(st.banks[bank], id, client, amount)]), fate == Answered, 1)
      else Sent(st, false, 0)
  {
    assert st.banks[bank := st.banks[bank]] == st.banks;
  }

  /** The transfer is between two different banks that the gateway knows. */
  ghost predicate TwoBanks(cfg: Config, banks: map<string, BankState>, p: Payment) {
    && p.client in cfg.bankOf && p.receiver in cfg.bankOf && cfg.bankOf[p.client] != cfg.bankOf[p.receiver]
    && cfg.bankOf[p.client] in banks && cfg.bankOf[p.receiver] in banks
  }

  /** The banks after those halves are applied, one after the other. */
  ghost function HalvesApplied(cfg: Config, banks: map<string, BankState>, id: string, p: Payment, debited: bool,
                               credited: bool) : (banks': map<string, BankState>)
    requires TwoBanks(cfg, banks, p)
    requires debited ==> IsPrepared(banks[cfg.bankOf[p.client]], id)
    requires credited ==> IsPrepared(banks[cfg.bankOf[p.receiver]], id)
    ensures BalancesMoved(cfg, banks, banks', p, debited, credited)
  {
    var sender, receiver := cfg.bankOf[p.client], cfg.bankOf[p.receiver];
    var banks1 := if debited then banks[sender := Applied(banks[sender], id, p.client, -p.amount)] else banks;
    if credited then banks1[receiver := Applied(banks1[receiver], id, p.receiver, p.amount)] else banks1
  }

  /** A commit phase between two banks that can be reached. */
  lemma CommitRuns(cfg: Config, st: GState, id: string, p: Payment, env: Env)
    requires TwoBanks(cfg, st.banks, p) && env.senderAtCommit && env.receiverAtCommit
    ensures
      var debited := env.commitDebit != Lost && IsPrepared(st.banks[cfg.bankOf[p.client]], id);
      var credited := env.commitCredit != Lost && IsPrepared(st.banks[cfg.bankOf[p.receiver]], id);
      var st1 := SetState(st, id, Committing).(banks := HalvesApplied(cfg, st.banks, id, p, debited, credited));
      var success := CommitClean(env) && debited && credited;
      CommitPhase(cfg, st, id, p, env) == Outcome(
        if env.commitTimedOut then AbortTransaction(cfg, st1, id, p, env)
        else if success then UpdateBalances(SetState(st1, id, CommittedAll), p)
        else st1,
        success, if debited then 1 else 0, if credited then 1 else 0, 0)
  {
    hide Handle, Send, Pay, Applied, UpdateBalances, IsPrepared, AbortTransaction;
    var sender, receiver := cfg.bankOf[p.client], cfg.bankOf[p.receiver];
    var st1 := SetState(st, id, Committing);
    CommitAccepted(st1, sender, id, CommitDebit(id, p.client, p.amount), p.client, -p.amount, env.commitDebit);
    var st2 := Send(st1, sender, CommitDebit(id, p.client, p.amount), env.commitDebit).st;
    CommitAccepted(st2, receiver, id, CommitCredit(id, p.receiver, p.amount), p.receiver, p.amount, env.commitCredit);
  }

  /** What a commit phase moves, whatever happens to it. */
  lemma CommitMoves(cfg: Config, st: GState, id: string, p: Payment, env: Env, at: int)
    requires TwoBanks(cfg, st.banks, p) && HasTwoPhase(st, id, PreparedAll, at)
    ensures var out := CommitPhase(cfg, st, id, p, env);
      var reached := env.senderAtCommit && env.receiverAtCommit;
      var debited := reached && env.commitDebit != Lost && IsPrepared(st.banks[cfg.bankOf[p.client]], id);
      var credited := reached && env.commitCredit != Lost && IsPrepared(st.banks[cfg.bankOf[p.receiver]], id);
      && out.debits == (if debited then 1 else 0) && out.credits == (if credited then 1 else 0)
      && (out.success <==> CommitClean(env) && debited && credited) && out.paid == 0
      && Moves(cfg, st, out.st, id, p, debited, credited, out.success)
      && (out.success ==> HasTwoPhase(out.st, id, CommittedAll, at))
  {
    hide Pay, HalvesApplied, BalancesMoved, UpdateBalances, IsPrepared, AbortTransaction, CommitPhase;
    if env.senderAtCommit && env.receiverAtCommit {
      CommitRuns(cfg, st, id, p, env);
      var debited := env.commitDebit != Lost && IsPrepared(st.banks[cfg.bankOf[p.client]], id);
      var credited := env.commitCredit != Lost && IsPrepared(st.banks[cfg.bankOf[p.receiver]], id);
      var st1 := SetState(st, id, Committing).(banks := HalvesApplied(cfg, st.banks, id, p, debited, credited));
      assert Moves(cfg, st, st1, id, p, debited, credited, false);
      AbortIsQuiet(cfg, st1, id, p, env);
      QuietAfterMoves(cfg, st, st1, AbortTransaction(cfg, st1, id, p, env), id, p, debited, credited, false);
      BalancesOnly(SetState(st1, id, CommittedAll), st, p);
    } else {
      UnreachedCommit(cfg, st, id, p, env);
    }
  }

  lemma UnreachedCommit(cfg: Config, st: GState, id: string, p: Payment, env: Env)
    requires TwoBanks(cfg, st.banks, p) && !(env.senderAtCommit && env.receiverAtCommit)
    ensures CommitPhase(cfg, st, id, p, env) == Outcome(AbortTransaction(cfg, st, id, p, env), false, 0, 0, 0)
    ensures Moves(cfg, st, AbortTransaction(cfg, st, id, p, env), id, p, false, false, false)
  {
    AbortIsQuiet(cfg, st, id, p, env);
    QuietMovesNothing(cfg, st, AbortTransaction(cfg, st, id, p, env), id, p);
    hide AbortTransaction;
  }

  /** The gateway's own update depends on, and changes, nothing but its balances. */
  lemma BalancesOnly(st: GState, st': GState, p: Payment)
    requires st.balances == st'.balances
    ensures UpdateBalances(st, p) == st.(balances := UpdateBalances(st', p).balances)
  {
  }

  /** The order in which two different banks are called makes no difference. */
  lemma SendsCommute(st: GState, a: string, r: Request, fate: Fate, b: string, q: Request, other: Fate)
    requires a != b
    ensures Send(Send(st, a, r, fate).st, b, q, other).st == Send(Send(st, b, q, other).st, a, r, fate).st
    ensures Send(Send(st, a, r, fate).st, b, q, other).ok == Send(st, b, q, other).ok
    ensures Send(Send(st, b, q, other).st, a, r, fate).ok == Send(st, a, r, fate).ok
  {
    hide Handle;
    if a in st.banks && b in st.banks && fate != Lost && other != Lost {
      var x, y := Handle(st.banks[a], r).0, Handle(st.banks[b], q).0;
      assert st.banks[a := x][b := y] == st.banks[b := y][a := x];
    }
  }

  lemma StoreIsQuiet(st: GState, id: string, record: Record)
    ensures Quiet(st, Store(st, id, record), id)
  {
  }

  lemma CleanupIsQuiet(st: GState, id: string)
    ensures Quiet(st, Cleanup(st, id), id) && id !in Cleanup(st, id).records
  {
  }

  lemma PrepareIgnoresRecords(cfg: Config, st: GState, st': GState, p: Payment, env: Env)
    requires st.banks == st'.banks
    ensures PrepareGoesThrough(cfg, st, p, env) <==> PrepareGoesThrough(cfg, st', p, env)
  {
  }

  lemma {:induction false} StaysPreparedAlike(b: BankState, b': BankState, bank: string, lates: seq<LateRequest>,
                                              id: string)
    requires b.clients == b'.clients && b.balances == b'.balances
    ensures StaysPrepared(b, bank, lates, id) <==> StaysPrepared(b', bank, lates, id)
  {
    if |lates| > 0 { StaysPreparedAlike(b, b', bank, lates[..|lates|-1], id); }
  }

  /** One late request at a bank with the same accounts and balances as `b`. */
  lemma LateAtBank(b: BankState, b1: BankState, r: Request, id: string)
    requires b.clients == b1.clients && b.balances == b1.balances && MovesNoMoney(r)
    ensures IsPrepared(Handle(b1, r).0, id) <==>
      r != Abort(id) && (PreparesAgain(b, r, id) || IsPrepared(b1, id))
  {
  }

  /** A bank that has `id` prepared still has it so after late requests if and only if `StaysPrepared` says so. */
  lemma {:induction false} PreparedAfterLates(st: GState, lates: seq<LateRequest>, bank: string, id: string)
    requires bank in st.banks && IsPrepared(st.banks[bank], id)
    ensures bank in DeliverAll(st, lates).banks
    ensures IsPrepared(DeliverAll(st, lates).banks[bank], id) <==> StaysPrepared(st.banks[bank], bank, lates, id)
  {
    if |lates| > 0 {
      var init, last := lates[..|lates|-1], lates[|lates|-1];
      PreparedAfterLates(st, init, bank, id);
      DeliverAllIsQuiet(st, init, id);
      var b1 := DeliverAll(st, init).banks[bank];
      if MovesNoMoney(last.request) { LateAtBank(st.banks[bank], b1, last.request, id); }
      hide Handle, IsPrepared;
    }
  }

  /** Everything a two-phase payment between two banks does, for every fate of every call: which halves are applied,
      what is reported, what becomes of the balances, and whether a record is left. */
  lemma TwoPhaseMoves(cfg: Config, st: GState, id: string, p: Payment, env: Env)
    requires InterBank(cfg, p) && !InProgress(Find(st.records, id))
    ensures var out := ProcessTwoPhase(cfg, st, id, p, env);
      var debited, credited := Debited(cfg, st, id, p, env), Credited(cfg, st, id, p, env);
      && out.debits == (if debited then 1 else 0) && out.credits == (if credited then 1 else 0)
      && (out.success <==> CommitClean(env) && debited && credited) && out.paid == 0
      && Moves(cfg, st, out.st, id, p, debited, credited, out.success)
      && (if out.success then HasTwoPhase(out.st, id, CommittedAll, env.now) else id !in out.st.records)
  {
    hide PreparePhase, CommitPhase, Quiet, Moves, Ready, Cleanup, PrepareGoesThrough, DeliverAll, HalfArrives;
    var st1 := Store(st, id, TwoPhaseRecord(Preparing, env.now));
    var (st2, prepared) := PreparePhase(cfg, st1, id, p, env);
    StoreIsQuiet(st, id, TwoPhaseRecord(Preparing, env.now));
    PrepareIsQuiet(cfg, st1, id, p, env);
    QuietChain(st, st1, st2, id);
    PreparedIsReady(cfg, st1, id, p, env);
    PrepareIgnoresRecords(cfg, st, st1, p, env);
    if prepared {
      var st3 := DeliverAll(st2, env.between);
      DeliverAllIsQuiet(st2, env.between, id);
      QuietChain(st, st2, st3, id);
      ArrivesAtCommit(cfg, st, st2, id, p, env);
      CommitMoves(cfg, st3, id, p, env, env.now);
      var out := CommitPhase(cfg, st3, id, p, env);
      MovesAfterQuiet(cfg, st, st3, out.st, id, p, out.debits == 1, out.credits == 1, out.success);
      CleanupIsQuiet(out.st, id);
      if !out.success {
        QuietAfterMoves(cfg, st, out.st, Cleanup(out.st, id), id, p, out.debits == 1, out.credits == 1, false);
      }
    } else {
      CleanupIsQuiet(st2, id);
      QuietChain(st, st2, Cleanup(st2, id), id);
      QuietMovesNothing(cfg, st, Cleanup(st2, id), id, p);
    }
  }

  /** Between the phases, what the commit will find depends on the late requests and the banks' accounts alone. */
  lemma ArrivesAtCommit(cfg: Config, st: GState, st2: GState, id: string, p: Payment, env: Env)
    requires Ready(cfg, st2, id, p) && Quiet(st, st2, id)
    ensures var st3 := DeliverAll(st2, env.between);
      && TwoBanks(cfg, st.banks, p) && TwoBanks(cfg, st3.banks, p)
      && (HalfArrives(cfg, st, id, p.client, env, env.commitDebit) <==>
            env.commitDebit != Lost && IsPrepared(st3.banks[cfg.bankOf[p.client]], id))
      && (HalfArrives(cfg, st, id, p.receiver, env, env.commitCredit) <==>
            env.commitCredit != Lost && IsPrepared(st3.banks[cfg.bankOf[p.receiver]], id))
  {
    hide IsPrepared, DeliverAll;
    var sender, receiver := cfg.bankOf[p.client], cfg.bankOf[p.receiver];
    PreparedAfterLates(st2, env.between, sender, id);
    PreparedAfterLates(st2, env.between, receiver, id);
    StaysPreparedAlike(st.banks[sender], st2.banks[sender], sender, env.between, id);
    StaysPreparedAlike(st.banks[receiver], st2.banks[receiver], receiver, env.between, id);
  }

  /** A two-phase payment between two banks is all or nothing, and says which, if and only if its commit phase leaves it
      whole. */
  lemma AtomicExactly(cfg: Config, st: GState, id: string, p: Payment, env: Env)
    requires InterBank(cfg, p) && !InProgress(Find(st.records, id))
    ensures var out := ProcessTwoPhase(cfg, st, id, p, env);
      out.debits == out.credits == (if out.success then 1 else 0) <==> Whole(cfg, st, id, p, env)
    ensures var out := ProcessTwoPhase(cfg, st, id, p, env);
      Whole(cfg, st, id, p, env) ==>
        if out.success then Moves(cfg, st, out.st, id, p, true, true, true) else Quiet(st, out.st, id)
  {
    hide ProcessTwoPhase, Quiet, Moves, Debited, Credited;
    TwoPhaseMoves(cfg, st, id, p, env);
    QuietMovesNothing(cfg, st, ProcessTwoPhase(cfg, st, id, p, env).st, id, p);
  }

  lemma {:induction false} NoAbortStaysPrepared(b: BankState, bank: string, lates: seq<LateRequest>, id: string)
    requires forall k :: 0 <= k < |lates| ==> lates[k].request != Abort(id)
    ensures StaysPrepared(b, bank, lates, id)
  {
    if |lates| > 0 { NoAbortStaysPrepared(b, bank, lates[..|lates|-1], id); }
  }

  /** A safe commit phase leaves the transfer whole. */
  lemma SafeIsWhole(cfg: Config, st: GState, id: string, p: Payment, env: Env)
    requires CommitSafe(env, id)
    ensures Whole(cfg, st, id, p, env)
  {
    if CommitsSent(cfg, st, p, env) && CommitClean(env) {
      var sender, receiver := cfg.bankOf[p.client], cfg.bankOf[p.receiver];
      NoAbortStaysPrepared(st.banks[sender], sender, env.between, id);
      NoAbortStaysPrepared(st.banks[receiver], receiver, env.between, id);
    }
    hide PrepareGoesThrough, StaysPrepared;
  }

  /** When no abort of `id` comes late, whole means never to come to commit or to be safe there. */
  lemma WholeExactly(cfg: Config, st: GState, id: string, p: Payment, env: Env)
    requires forall k :: 0 <= k < |env.between| ==> env.between[k].request != Abort(id)
    ensures Whole(cfg, st, id, p, env) <==> !PrepareGoesThrough(cfg, st, p, env) || CommitSafe(env, id)
  {
    if PrepareGoesThrough(cfg, st, p, env) {
      var sender, receiver := cfg.bankOf[p.client], cfg.bankOf[p.receiver];
      NoAbortStaysPrepared(st.banks[sender], sender, env.between, id);
      NoAbortStaysPrepared(st.banks[receiver], receiver, env.between, id);
    }
    hide StaysPrepared;
  }
}
