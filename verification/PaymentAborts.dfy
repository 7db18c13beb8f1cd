/** What aborts do at the banks, and when a bank is left with a transfer prepared. */
module PaymentAborts {
  import opened Basics
  import opened Banks
  import opened PaymentSpec
  import opened PaymentSteps

  /** The abort for this client's bank gets to bank `b`. */
  predicate Told(cfg: Config, st: GState, client: string, connects: bool, fate: Fate, b: string) {
    client in cfg.bankOf && cfg.bankOf[client] == b && b in st.banks && connects && fate != Lost
  }

  predicate ToldToAbort(cfg: Config, st: GState, p: Payment, env: Env, b: string) {
    || Told(cfg, st, p.client, env.senderAtAbort, env.abortSender, b)
    || Told(cfg, st, p.receiver, env.receiverAtAbort, env.abortReceiver, b)
  }

  function RecordAt(st: GState, b: string, x: string): Option<Tx> {
    if b in st.banks then Find(st.banks[b].transactions, x) else None
  }

  /** The record as it is, or aborted if there is one. */
  function AbortedIf(aborts: bool, tx: Option<Tx>): Option<Tx> {
    if aborts && tx.Some? then Some(tx.value.(state := TxState.Aborted)) else tx
  }

  lemma SendAbortExactly(cfg: Config, st: GState, id: string, client: string, connects: bool, fate: Fate, b: string,
                         x: string)
    ensures var st' := SendAbort(cfg, st, id, client, connects, fate);
      && st'.banks.Keys == st.banks.Keys
      && RecordAt(st', b, x) == AbortedIf(x == id && Told(cfg, st, client, connects, fate, b), RecordAt(st, b, x))
  {
  }

  /** The banks that are told have their record of `id` aborted, if they have one; no other record of any bank has
      changed. */
  ghost predicate Aborts(cfg: Config, st: GState, st': GState, id: string, p: Payment, env: Env) {
    && st'.banks.Keys == st.banks.Keys
    && forall b, x :: RecordAt(st', b, x) == AbortedIf(x == id && ToldToAbort(cfg, st, p, env, b), RecordAt(st, b, x))
  }

  /** Aborting tells the bank of each client that is known and reached, unless the call is lost. */
  lemma AbortExactly(cfg: Config, st: GState, id: string, p: Payment, env: Env)
    ensures Aborts(cfg, st, AbortTransaction(cfg, st, id, p, env), id, p, env)
  {
    hide SendAbort, RecordAt;
    var st' := AbortTransaction(cfg, st, id, p, env);
    var st1 := SetState(st, id, Aborting);
    var st2 := SendAbort(cfg, st1, id, p.client, env.senderAtAbort, env.abortSender);
    var st3 := SendAbort(cfg, st2, id, p.receiver, env.receiverAtAbort, env.abortReceiver);
    SendAbortExactly(cfg, st1, id, p.client, env.senderAtAbort, env.abortSender, "", "");
    SendAbortExactly(cfg, st2, id, p.receiver, env.receiverAtAbort, env.abortReceiver, "", "");
    forall b, x
      ensures RecordAt(st', b, x) == AbortedIf(x == id && ToldToAbort(cfg, st, p, env, b), RecordAt(st, b, x))
    {
      SendAbortExactly(cfg, st1, id, p.client, env.senderAtAbort, env.abortSender, b, x);
      SendAbortExactly(cfg, st2, id, p.receiver, env.receiverAtAbort, env.abortReceiver, b, x);
      SameBanksSameRecords(st, st1, b, x);
      SameBanksSameRecords(st3, st', b, x);
    }
  }

  lemma SameBanksSameRecords(st: GState, st': GState, b: string, x: string)
    requires st.banks == st'.banks
    ensures RecordAt(st, b, x) == RecordAt(st', b, x)
  {
  }

  /** The gateway's own record of an aborted transfer says so. */
  lemma AbortedRecord(cfg: Config, st: GState, id: string, p: Payment, env: Env, state: TwoPhaseState, at: int)
    requires HasTwoPhase(st, id, state, at)
    ensures HasTwoPhase(AbortTransaction(cfg, st, id, p, env), id, AbortedAll, at)
  {
    hide Send, BankFor;
    var st1 := SetState(st, id, Aborting);
    AbortKeepsRecords(cfg, st1, id, p.client, env.senderAtAbort, env.abortSender);
    var st2 := SendAbort(cfg, st1, id, p.client, env.senderAtAbort, env.abortSender);
    AbortKeepsRecords(cfg, st2, id, p.receiver, env.receiverAtAbort, env.abortReceiver);
  }

  lemma AbortKeepsRecords(cfg: Config, st: GState, id: string, client: string, connects: bool, fate: Fate)
    ensures SendAbort(cfg, st, id, client, connects, fate).records == st.records
  {
    hide Handle;
  }

  // ---------- Who is left prepared ----------

  /** Bank `b` has been asked to prepare its half and has agreed. */
  predicate AgreedToPrepare(b: BankState, client: string, needs: int, env: Env, fate: Fate) {
    env.senderAtPrepare && env.receiverAtPrepare && fate != Lost && HasClient(b, client) && BalanceOf(b, client) >= needs
  }

  /** After an abort a bank has the transfer prepared exactly if it had it before and is not told. */
  lemma PreparedAfterAbort(cfg: Config, st: GState, id: string, p: Payment, env: Env, b: string)
    requires b in st.banks
    ensures var st' := AbortTransaction(cfg, st, id, p, env);
      b in st'.banks && (IsPrepared(st'.banks[b], id) <==> IsPrepared(st.banks[b], id) && !ToldToAbort(cfg, st, p, env, b))
  {
    hide AbortTransaction, ToldToAbort;
    AbortExactly(cfg, st, id, p, env);
    var st' := AbortTransaction(cfg, st, id, p, env);
    assert RecordAt(st', b, id) == AbortedIf(ToldToAbort(cfg, st, p, env, b), RecordAt(st, b, id));
  }

  /** The receiver's bank agrees whatever the balance. */
  predicate AgreedToCredit(b: BankState, client: string, env: Env) {
    env.senderAtPrepare && env.receiverAtPrepare && env.prepareCredit != Lost && HasClient(b, client)
  }

  /** The two prepare calls, before anything is decided. */
  lemma PreparedByCalls(cfg: Config, st: GState, id: string, p: Payment, env: Env)
    requires TwoBanks(cfg, st.banks, p) && env.senderAtPrepare && env.receiverAtPrepare
    ensures
      var sender, receiver := cfg.bankOf[p.client], cfg.bankOf[p.receiver];
      var debit := Send(SetState(st, id, Preparing), sender, PrepareDebit(id, p.client, p.amount), env.prepareDebit);
      var st' := Send(debit.st, receiver, PrepareCredit(id, p.receiver, p.amount), env.prepareCredit).st;
      && sender in st'.banks && receiver in st'.banks
      && (IsPrepared(st'.banks[sender], id) <==>
            (IsPrepared(st.banks[sender], id)
             || AgreedToPrepare(st.banks[sender], p.client, p.amount, env, env.prepareDebit)))
      && (IsPrepared(st'.banks[receiver], id) <==>
            (IsPrepared(st.banks[receiver], id) || AgreedToCredit(st.banks[receiver], p.receiver, env)))
  {
    hide HasClient;
  }

  /** After a prepare phase that fails between two known banks: a bank has the transfer prepared if it has agreed, now
      or before, and is not told to abort. */
  lemma PreparedAfterFailure(cfg: Config, st: GState, id: string, p: Payment, env: Env)
    requires TwoBanks(cfg, st.banks, p) && !PreparePhase(cfg, st, id, p, env).1
    ensures
      var sender, receiver := cfg.bankOf[p.client], cfg.bankOf[p.receiver];
      var st' := PreparePhase(cfg, st, id, p, env).0;
      && sender in st'.banks && receiver in st'.banks
      && (IsPrepared(st'.banks[sender], id) <==>
            (IsPrepared(st.banks[sender], id)
             || AgreedToPrepare(st.banks[sender], p.client, p.amount, env, env.prepareDebit))
            && !ToldToAbort(cfg, st, p, env, sender))
      && (IsPrepared(st'.banks[receiver], id) <==>
            (IsPrepared(st.banks[receiver], id) || AgreedToCredit(st.banks[receiver], p.receiver, env))
            && !ToldToAbort(cfg, st, p, env, receiver))
  {
    hide HasClient, AbortTransaction, IsPrepared, Send;
    var sender, receiver := cfg.bankOf[p.client], cfg.bankOf[p.receiver];
    if env.senderAtPrepare && env.receiverAtPrepare {
      PreparedByCalls(cfg, st, id, p, env);
      var debit := Send(SetState(st, id, Preparing), sender, PrepareDebit(id, p.client, p.amount), env.prepareDebit);
      var st1 := Send(debit.st, receiver, PrepareCredit(id, p.receiver, p.amount), env.prepareCredit).st;
      PreparedAfterAbort(cfg, st1, id, p, env, sender);
      PreparedAfterAbort(cfg, st1, id, p, env, receiver);
    } else {
      PreparedAfterAbort(cfg, st, id, p, env, sender);
      PreparedAfterAbort(cfg, st, id, p, env, receiver);
    }
  }

  lemma PreparedAfterHalves(cfg: Config, banks: map<string, BankState>, id: string, p: Payment, debited: bool,
                            credited: bool)
    requires TwoBanks(cfg, banks, p)
    requires debited ==> IsPrepared(banks[cfg.bankOf[p.client]], id)
    requires credited ==> IsPrepared(banks[cfg.bankOf[p.receiver]], id)
    ensures
      var sender, receiver := cfg.bankOf[p.client], cfg.bankOf[p.receiver];
      var banks' := HalvesApplied(cfg, banks, id, p, debited, credited);
      && sender in banks' && receiver in banks'
      && (IsPrepared(banks'[sender], id) <==> IsPrepared(banks[sender], id) && !debited)
      && (IsPrepared(banks'[receiver], id) <==> IsPrepared(banks[receiver], id) && !credited)
  {
    hide Pay, Adjusted;
  }

  /** An abort is sent when a bank could not be reached for the commit, or at its deadline. */
  predicate AbortsAtCommit(env: Env) {
    !env.senderAtCommit || !env.receiverAtCommit || env.commitTimedOut
  }

  /** A commit of this fate gets to its bank. */
  predicate CommitGoesOut(env: Env, fate: Fate) {
    env.senderAtCommit && env.receiverAtCommit && fate != Lost
  }

  /** After a commit phase: a bank that had the transfer prepared still has it so exactly if no commit and no abort has
      come to it. */
  lemma PreparedAfterCommit(cfg: Config, st: GState, id: string, p: Payment, env: Env)
    requires TwoBanks(cfg, st.banks, p)
    ensures
      var sender, receiver := cfg.bankOf[p.client], cfg.bankOf[p.receiver];
      var st' := CommitPhase(cfg, st, id, p, env).st;
      && sender in st'.banks && receiver in st'.banks
      && (IsPrepared(st'.banks[sender], id) <==>
            IsPrepared(st.banks[sender], id) && !CommitGoesOut(env, env.commitDebit)
            && !(AbortsAtCommit(env) && ToldToAbort(cfg, st, p, env, sender)))
      && (IsPrepared(st'.banks[receiver], id) <==>
            IsPrepared(st.banks[receiver], id) && !CommitGoesOut(env, env.commitCredit)
            && !(AbortsAtCommit(env) && ToldToAbort(cfg, st, p, env, receiver)))
  {
    hide AbortTransaction, UpdateBalances, CommitPhase, HalvesApplied, IsPrepared;
    var sender, receiver := cfg.bankOf[p.client], cfg.bankOf[p.receiver];
    if env.senderAtCommit && env.receiverAtCommit {
      CommitRuns(cfg, st, id, p, env);
      var debited := env.commitDebit != Lost && IsPrepared(st.banks[sender], id);
      var credited := env.commitCredit != Lost && IsPrepared(st.banks[receiver], id);
      var st1 := SetState(st, id, Committing).(banks := HalvesApplied(cfg, st.banks, id, p, debited, credited));
      PreparedAfterHalves(cfg, st.banks, id, p, debited, credited);
      PreparedAfterAbort(cfg, st1, id, p, env, sender);
      PreparedAfterAbort(cfg, st1, id, p, env, receiver);
      BalancesOnly(SetState(st1, id, CommittedAll), SetState(st1, id, CommittedAll), p);
    } else {
      UnreachedCommit(cfg, st, id, p, env);
      PreparedAfterAbort(cfg, st, id, p, env, sender);
      PreparedAfterAbort(cfg, st, id, p, env, receiver);
    }
  }

  /** When the sender's bank has the transfer prepared once a payment is over. If the prepare phase went through: no
      late abort, no commit and no abort has come to it. If not: it has agreed, now or before, and no abort has come. */
  predicate SenderLeftPrepared(cfg: Config, st: GState, id: string, p: Payment, env: Env, goesThrough: bool)
    requires p.client in cfg.bankOf && cfg.bankOf[p.client] in st.banks
  {
    var sender := cfg.bankOf[p.client];
    var b := st.banks[sender];
    if goesThrough then
      && StaysPrepared(b, sender, env.between, id) && !CommitGoesOut(env, env.commitDebit)
      && !(AbortsAtCommit(env) && ToldToAbort(cfg, st, p, env, sender))
    else
      && (IsPrepared(b, id) || AgreedToPrepare(b, p.client, p.amount, env, env.prepareDebit))
      && !ToldToAbort(cfg, st, p, env, sender)
  }

  predicate ReceiverLeftPrepared(cfg: Config, st: GState, id: string, p: Payment, env: Env, goesThrough: bool)
    requires p.receiver in cfg.bankOf && cfg.bankOf[p.receiver] in st.banks
  {
    var receiver := cfg.bankOf[p.receiver];
    var b := st.banks[receiver];
    if goesThrough then
      && StaysPrepared(b, receiver, env.between, id) && !CommitGoesOut(env, env.commitCredit)
      && !(AbortsAtCommit(env) && ToldToAbort(cfg, st, p, env, receiver))
    else
      && (IsPrepared(b, id) || AgreedToCredit(b, p.receiver, env))
      && !ToldToAbort(cfg, st, p, env, receiver)
  }

  lemma SameAccountsSameTelling(cfg: Config, st: GState, st': GState, p: Payment, env: Env, b: string)
    requires st.banks.Keys == st'.banks.Keys
    ensures ToldToAbort(cfg, st, p, env, b) <==> ToldToAbort(cfg, st', p, env, b)
  {
  }

  /** Exactly when a transfer between two known banks, over whatever happens to its calls, leaves one of them with the
      transfer prepared. */
  lemma LeftPreparedExactly(cfg: Config, st: GState, id: string, p: Payment, env: Env)
    requires TwoBanks(cfg, st.banks, p) && !InProgress(Find(st.records, id))
    ensures
      var sender, receiver := cfg.bankOf[p.client], cfg.bankOf[p.receiver];
      var st', goesThrough := ProcessTwoPhase(cfg, st, id, p, env).st, PrepareGoesThrough(cfg, st, p, env);
      && sender in st'.banks && receiver in st'.banks
      && (IsPrepared(st'.banks[sender], id) <==> SenderLeftPrepared(cfg, st, id, p, env, goesThrough))
      && (IsPrepared(st'.banks[receiver], id) <==> ReceiverLeftPrepared(cfg, st, id, p, env, goesThrough))
  {
    hide PreparePhase, CommitPhase, DeliverAll, PrepareGoesThrough, IsPrepared, ToldToAbort, StaysPrepared, Quiet, Ready;
    hide AgreedToPrepare, AgreedToCredit;
    var sender, receiver := cfg.bankOf[p.client], cfg.bankOf[p.receiver];
    var st1 := Store(st, id, TwoPhaseRecord(Preparing, env.now));
    var (st2, prepared) := PreparePhase(cfg, st1, id, p, env);
    PreparedIsReady(cfg, st1, id, p, env);
    PrepareIgnoresRecords(cfg, st, st1, p, env);
    SameAccountsSameTelling(cfg, st, st1, p, env, sender);
    SameAccountsSameTelling(cfg, st, st1, p, env, receiver);
    if prepared {
      StoreIsQuiet(st, id, TwoPhaseRecord(Preparing, env.now));
      PrepareIsQuiet(cfg, st1, id, p, env);
      QuietChain(st, st1, st2, id);
      LeftAfterLates(cfg, st, st2, id, p, env);
      PreparedAfterCommit(cfg, DeliverAll(st2, env.between), id, p, env);
    } else {
      PreparedAfterFailure(cfg, st1, id, p, env);
    }
  }

  /** What the late requests leave for the commit phase. */
  lemma LeftAfterLates(cfg: Config, st: GState, st2: GState, id: string, p: Payment, env: Env)
    requires Ready(cfg, st2, id, p) && Quiet(st, st2, id)
    ensures
      var sender, receiver := cfg.bankOf[p.client], cfg.bankOf[p.receiver];
      var st3 := DeliverAll(st2, env.between);
      && TwoBanks(cfg, st.banks, p) && TwoBanks(cfg, st3.banks, p)
      && (IsPrepared(st3.banks[sender], id) <==> StaysPrepared(st.banks[sender], sender, env.between, id))
      && (IsPrepared(st3.banks[receiver], id) <==> StaysPrepared(st.banks[receiver], receiver, env.between, id))
      && (ToldToAbort(cfg, st3, p, env, sender) <==> ToldToAbort(cfg, st, p, env, sender))
      && (ToldToAbort(cfg, st3, p, env, receiver) <==> ToldToAbort(cfg, st, p, env, receiver))
  {
    var sender, receiver := cfg.bankOf[p.client], cfg.bankOf[p.receiver];
    PreparedAfterLates(st2, env.between, sender, id);
    PreparedAfterLates(st2, env.between, receiver, id);
    StaysPreparedAlike(st.banks[sender], st2.banks[sender], sender, env.between, id);
    StaysPreparedAlike(st.banks[receiver], st2.banks[receiver], receiver, env.between, id);
    DeliverAllIsQuiet(st2, env.between, id);
    SameAccountsSameTelling(cfg, st, DeliverAll(st2, env.between), p, env, sender);
    SameAccountsSameTelling(cfg, st, DeliverAll(st2, env.between), p, env, receiver);
    hide DeliverAll, IsPrepared, StaysPrepared, ToldToAbort;
  }
}
