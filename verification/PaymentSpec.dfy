/** One payment at the gateway, as a function of the state it finds and of what the network does to it. */
module PaymentSpec {
  import opened Basics
  import opened Collections
  import opened Banks

  datatype TwoPhaseState = Preparing | PreparedAll | Committing | CommittedAll | Aborting | AbortedAll

  /** A transaction record and the time it was made. */
  datatype Record = SimpleRecord(success: bool, at: int) | TwoPhaseRecord(state: TwoPhaseState, at: int)

  datatype Payment = Payment(client: string, receiver: string, amount: int)

  /** Clients to banks and to account numbers, as loaded at start. */
  datatype Config = Config(usesTwoPhase: bool, bankOf: map<string, string>, accounts: map<string, string>, ttl: int)

  /** The gateway's balances and records, and the banks. */
  datatype GState = GState(balances: map<string, int>, records: map<string, Record>, banks: map<string, BankState>)

  /** What becomes of a call: executed and answered, executed but reported as an error, or not executed. */
  datatype Fate = Answered | ReplyLost | Lost

  /** A request of an earlier payment that reaches a bank late. */
  datatype LateRequest = LateRequest(bank: string, request: Request)

  /** Everything outside the gateway's control during one payment: the time, whether each connection to a bank can be
      made, the fate of each call, whether a deadline strikes before a phase is over, and what reaches the banks late
      between the two phases. */
  datatype Env = Env(now: int,
                     senderAtPrepare: bool, receiverAtPrepare: bool,
                     prepareDebit: Fate, prepareCredit: Fate, prepareTimedOut: bool,
                     between: seq<LateRequest>,
                     senderAtCommit: bool, receiverAtCommit: bool,
                     commitDebit: Fate, commitCredit: Fate, commitTimedOut: bool,
                     senderAtAbort: bool, receiverAtAbort: bool, abortSender: Fate, abortReceiver: Fate,
                     bankAtPay: bool, pay: Fate)

  /** The state after a payment, what the client is told, how many halves of a transfer the banks applied, and how many
      plain payments they accepted. */
  datatype Outcome = Outcome(st: GState, success: bool, debits: nat, credits: nat, paid: nat)

  datatype Sent = Sent(st: GState, ok: bool, applied: nat)

  function Send(st: GState, bank: string, r: Request, fate: Fate): Sent {
    if fate == Lost || bank !in st.banks then Sent(st, false, 0)
    else
      var (b, reply) := Handle(st.banks[bank], r);
      Sent(st.(banks := st.banks[bank := b]), fate == Answered && reply == Accepted, if reply == Accepted then 1 else 0)
  }

  predicate MovesNoMoney(r: Request) {
    r.PrepareDebit? || r.PrepareCredit? || r.Abort?
  }

  /** Only prepares and aborts come late; nobody waits for their answers. */
  function Deliver(st: GState, late: LateRequest): GState {
    if MovesNoMoney(late.request) then Send(st, late.bank, late.request, ReplyLost).st else st
  }

  function DeliverAll(st: GState, lates: seq<LateRequest>): GState {
    if |lates| == 0 then st else Deliver(DeliverAll(st, lates[..|lates|-1]), lates[|lates|-1])
  }

  function BankFor(cfg: Config, st: GState, client: string, connects: bool): Option<string> {
    if client in cfg.bankOf && cfg.bankOf[client] in st.banks && connects then Some(cfg.bankOf[client]) else None
  }

  function Moved(records: map<string, Record>, id: string, state: TwoPhaseState): map<string, Record> {
    if id in records && records[id].TwoPhaseRecord? then records[id := records[id].(state := state)] else records
  }

  function SetState(st: GState, id: string, state: TwoPhaseState): GState {
    st.(records := Moved(st.records, id, state))
  }

  function SendAbort(cfg: Config, st: GState, id: string, client: string, connects: bool, fate: Fate): GState {
    match BankFor(cfg, st, client, connects)
    case None => st
    case Some(bank) => Send(st, bank, Abort(id), fate).st
  }

  function AbortTransaction(cfg: Config, st: GState, id: string, p: Payment, env: Env): GState {
    var st1 := SetState(st, id, Aborting);
    var st2 := SendAbort(cfg, st1, id, p.client, env.senderAtAbort, env.abortSender);
    var st3 := SendAbort(cfg, st2, id, p.receiver, env.receiverAtAbort, env.abortReceiver);
    SetState(st3, id, AbortedAll)
  }

  /** Both prepares run whatever the other answers. */
  function PreparePhase(cfg: Config, st: GState, id: string, p: Payment, env: Env): (GState, bool) {
    match BankFor(cfg, st, p.client, env.senderAtPrepare)
    case None => (AbortTransaction(cfg, st, id, p, env), false)
    case Some(senderBank) =>
      match BankFor(cfg, st, p.receiver, env.receiverAtPrepare)
      case None => (AbortTransaction(cfg, st, id, p, env), false)
      case Some(receiverBank) =>
        var debit := Send(SetState(st, id, Preparing), senderBank, PrepareDebit(id, p.client, p.amount), env.prepareDebit);
        var credit := Send(debit.st, receiverBank, PrepareCredit(id, p.receiver, p.amount), env.prepareCredit);
        if env.prepareTimedOut || !debit.ok || !credit.ok then (AbortTransaction(cfg, credit.st, id, p, env), false)
        else (SetState(credit.st, id, PreparedAll), true)
  }

  function SetBalance(st: GState, client: string, balance: int): GState {
    if client in st.balances then st.(balances := st.balances[client := balance]) else st
  }

  function Store(st: GState, id: string, record: Record): GState {
    st.(records := st.records[id := record])
  }

  /** The gateway's own balances: the receiver is credited only if both clients are known. */
  function UpdateBalances(st: GState, p: Payment): GState {
    match Find(st.balances, p.client)
    case None => st
    case Some(sender) =>
      var st1 := SetBalance(st, p.client, sender - p.amount);
      match Find(st1.balances, p.receiver)
      case None => st1
      case Some(receiver) => SetBalance(st1, p.receiver, receiver + p.amount)
  }

  /** A deadline aborts; an error without a deadline leaves everything as it is. */
  function CommitPhase(cfg: Config, st: GState, id: string, p: Payment, env: Env): Outcome {
    match BankFor(cfg, st, p.client, env.senderAtCommit)
    case None => Outcome(AbortTransaction(cfg, st, id, p, env), false, 0, 0, 0)
    case Some(senderBank) =>
      match BankFor(cfg, st, p.receiver, env.receiverAtCommit)
      case None => Outcome(AbortTransaction(cfg, st, id, p, env), false, 0, 0, 0)
      case Some(receiverBank) =>
        var debit := Send(SetState(st, id, Committing), senderBank, CommitDebit(id, p.client, p.amount), env.commitDebit);
        var credit := Send(debit.st, receiverBank, CommitCredit(id, p.receiver, p.amount), env.commitCredit);
        if env.commitTimedOut then
          Outcome(AbortTransaction(cfg, credit.st, id, p, env), false, debit.applied, credit.applied, 0)
        else if !debit.ok || !credit.ok then Outcome(credit.st, false, debit.applied, credit.applied, 0)
        else Outcome(UpdateBalances(SetState(credit.st, id, CommittedAll), p), true, debit.applied, credit.applied, 0)
  }

  function Cleanup(st: GState, id: string): GState {
    st.(records := st.records - {id})
  }

  predicate InProgress(record: Option<Record>) {
    && record.Some? && record.value.TwoPhaseRecord?
    && (record.value.state == Preparing || record.value.state == Committing)
  }

  function RunTwoPhaseCommit(cfg: Config, st: GState, id: string, p: Payment, env: Env): Outcome {
    var (st1, prepared) := PreparePhase(cfg, st, id, p, env);
    if prepared then CommitPhase(cfg, DeliverAll(st1, env.between), id, p, env) else Outcome(st1, false, 0, 0, 0)
  }

  /** A record is kept only of a transfer that succeeded. */
  function ProcessTwoPhase(cfg: Config, st: GState, id: string, p: Payment, env: Env): Outcome {
    if InProgress(Find(st.records, id)) then Outcome(st, false, 0, 0, 0)
    else
      var st1 := Store(st, id, TwoPhaseRecord(Preparing, env.now));
      var done := RunTwoPhaseCommit(cfg, st1, id, p, env);
      if done.success then done else done.(st := Cleanup(done.st, id))
  }

  function ProcessSimple(cfg: Config, st: GState, id: string, p: Payment, balance: int, env: Env): Outcome {
    match BankFor(cfg, st, p.client, env.bankAtPay)
    case None => Outcome(st, false, 0, 0, 0)
    case Some(bank) =>
      if p.client !in cfg.accounts then Outcome(st, false, 0, 0, 0)
      else
        var sent := Send(st, bank, ProcessPayment(cfg.accounts[p.client], p.amount), env.pay);
        if !sent.ok then Outcome(sent.st, false, 0, 0, sent.applied)
        else
          var st1 := Store(SetBalance(sent.st, p.client, balance - p.amount), id, SimpleRecord(true, env.now));
          Outcome(st1, true, 0, 0, sent.applied)
  }

  /** A record that answers the payment without processing it. */
  function Cached(cfg: Config, record: Option<Record>): Option<bool> {
    match record
    case None => None
    case Some(TwoPhaseRecord(state, _)) =>
      if !cfg.usesTwoPhase then None
      else if state == CommittedAll then Some(true)
      else if state == AbortedAll then Some(false)
      else None
    case Some(SimpleRecord(success, _)) => if cfg.usesTwoPhase then None else Some(success)
  }

  function Process(cfg: Config, st: GState, user: string, id: string, p: Payment, env: Env): Outcome {
    if user != p.client then Outcome(st, false, 0, 0, 0)
    else match Cached(cfg, Find(st.records, id))
      case Some(result) => Outcome(st, result, 0, 0, 0)
      case None =>
        match Find(st.balances, p.client)
        case None => Outcome(st, false, 0, 0, 0)
        case Some(balance) =>
          if balance < p.amount then Outcome(st, false, 0, 0, 0)
          else if cfg.usesTwoPhase && p.receiver != "" then ProcessTwoPhase(cfg, st, id, p, env)
          else ProcessSimple(cfg, st, id, p, balance, env)
  }

  predicate Expired(r: Record, ttl: int, now: int) {
    now - r.at > ttl
  }

  function Unexpired(records: map<string, Record>, ttl: int, now: int): map<string, Record> {
    map id | id in records && !Expired(records[id], ttl, now) :: records[id]
  }

  function CleanupExpired(cfg: Config, st: GState, now: int): GState {
    st.(records := Unexpired(st.records, cfg.ttl, now))
  }
}
