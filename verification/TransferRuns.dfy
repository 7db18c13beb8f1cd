/** Two-phase transfers running concurrently with each other and with plain payments. Replies may be late or lost,
    a deadline may strike at any moment, and a commit may even be delivered more than once. */
module TransferRuns {
  import opened Basics
  import opened Collections
  import opened Banks

  datatype Side = Debit | Credit

  datatype Step = Prepare | Commit

  /** One prepare call: whether the bank has executed it and with what answer, and what the coordinator has seen. */
  datatype Call = Call(executed: bool, accepted: bool, seen: Option<bool>)

  const FreshCall := Call(false, false, None)

  /** One half of a transfer: its prepare call, what the coordinator has seen of its commit call, and how many
      times the bank has accepted the commit. */
  datatype Half = Half(client: string, bank: string, prepare: Call, commitSeen: Option<bool>, applied: nat)

  /** `GivenUp`: reported as failed before any commit was sent. `CommitFailed`: reported as failed after. */
  datatype Phase = Preparing | Committing | Succeeded | GivenUp | CommitFailed

  datatype Transfer = Transfer(amount: int, phase: Phase, debit: Half, credit: Half)

  datatype System = System(banks: map<string, BankState>, transfers: map<string, Transfer>, spent: int, crashed: bool)

  datatype Event =
    | Start(id: string, sender: string, receiver: string, senderBank: string, receiverBank: string, amount: int)
    | Deliver(id: string, side: Side, step: Step)
    | Answer(id: string, side: Side, step: Step, ok: bool)
    | Decide(id: string)
    | GiveUp(id: string)
    | DeliverAbort(id: string, side: Side)
    | PaySimple(bank: string, account: string, amount: int)

  function HalfOf(t: Transfer, side: Side): Half {
    if side == Debit then t.debit else t.credit
  }

  function WithHalf(t: Transfer, side: Side, h: Half): Transfer {
    if side == Debit then t.(debit := h) else t.(credit := h)
  }

  predicate CommitSent(t: Transfer) {
    t.phase == Committing || t.phase == Succeeded || t.phase == CommitFailed
  }

  function RequestOf(id: string, t: Transfer, side: Side, step: Step): Request {
    match (side, step)
    case (Debit, Prepare) => PrepareDebit(id, t.debit.client, t.amount)
    case (Credit, Prepare) => PrepareCredit(id, t.credit.client, t.amount)
    case (Debit, Commit) => CommitDebit(id, t.debit.client, t.amount)
    case (Credit, Commit) => CommitCredit(id, t.credit.client, t.amount)
  }

  function StartTransfer(s: System, e: Event): System
    requires e.Start?
  {
    if e.id in s.transfers || e.senderBank == e.receiverBank
       || e.senderBank !in s.banks || e.receiverBank !in s.banks then s
    else
      s.(transfers := s.transfers[e.id := Transfer(e.amount, Preparing,
           Half(e.sender, e.senderBank, FreshCall, None, 0), Half(e.receiver, e.receiverBank, FreshCall, None, 0))])
  }

  /** The bank executes a call. Prepares are executed at most once, commits any number of times once sent. */
  function DeliverCall(s: System, id: string, side: Side, step: Step): System {
    if id !in s.transfers || HalfOf(s.transfers[id], side).bank !in s.banks then s
    else
      var t := s.transfers[id];
      var h := HalfOf(t, side);
      if (step == Prepare && h.prepare.executed) || (step == Commit && !CommitSent(t)) then s
      else
        var (b, reply) := Handle(s.banks[h.bank], RequestOf(id, t, side, step));
        var h' := if step == Prepare then h.(prepare := Call(true, reply == Accepted, h.prepare.seen))
                  else if reply == Accepted then h.(applied := h.applied + 1)
                  else h;
        System(s.banks[h.bank := b], s.transfers[id := WithHalf(t, side, h')], s.spent, s.crashed || reply == Crash)
  }

  /** The coordinator's call returns: with success only if the bank accepted it, with an error at any time. */
  function AnswerCall(s: System, id: string, side: Side, step: Step, ok: bool): System {
    if id !in s.transfers then s
    else
      var t := s.transfers[id];
      var h := HalfOf(t, side);
      if step == Prepare then
        if h.prepare.seen.Some? || (ok && !(h.prepare.executed && h.prepare.accepted)) then s
        else s.(transfers := s.transfers[id := WithHalf(t, side, h.(prepare := h.prepare.(seen := Some(ok))))])
      else if !CommitSent(t) || h.commitSeen.Some? || (ok && h.applied == 0) then s
      else s.(transfers := s.transfers[id := WithHalf(t, side, h.(commitSeen := Some(ok)))])
  }

  /** The coordinator goes on once both calls of its phase have returned. */
  function Decision(t: Transfer): Phase {
    match t.phase
    case Preparing =>
      if t.debit.prepare.seen.None? || t.credit.prepare.seen.None? then Preparing
      else if t.debit.prepare.seen.value && t.credit.prepare.seen.value then Committing
      else GivenUp
    case Committing =>
      if t.debit.commitSeen.None? || t.credit.commitSeen.None? then Committing
      else if t.debit.commitSeen.value && t.credit.commitSeen.value then Succeeded
      else CommitFailed
    case _ => t.phase
  }

  function TimedOut(t: Transfer): Phase {
    match t.phase
    case Preparing => GivenUp
    case Committing => CommitFailed
    case _ => t.phase
  }

  function DeliverAbortTo(s: System, id: string, side: Side): System {
    if id !in s.transfers then s
    else
      var t := s.transfers[id];
      var bank := HalfOf(t, side).bank;
      if (t.phase != GivenUp && t.phase != CommitFailed) || bank !in s.banks then s
      else s.(banks := s.banks[bank := Handle(s.banks[bank], Abort(id)).0])
  }

  function Pay(s: System, bank: string, account: string, amount: int): System {
    if bank !in s.banks then s
    else
      var (b, reply) := Handle(s.banks[bank], ProcessPayment(account, amount));
      s.(banks := s.banks[bank := b], spent := s.spent + if reply == Accepted then amount else 0)
  }

  function Next(s: System, e: Event): System {
    match e
    case Start(_, _, _, _, _, _) => StartTransfer(s, e)
    case Deliver(id, side, step) => DeliverCall(s, id, side, step)
    case Answer(id, side, step, ok) => AnswerCall(s, id, side, step, ok)
    case Decide(id) =>
      if id !in s.transfers then s
      else s.(transfers := s.transfers[id := s.transfers[id].(phase := Decision(s.transfers[id]))])
    case GiveUp(id) =>
      if id !in s.transfers then s
      else s.(transfers := s.transfers[id := s.transfers[id].(phase := TimedOut(s.transfers[id]))])
    case DeliverAbort(id, side) => DeliverAbortTo(s, id, side)
    case PaySimple(bank, account, amount) => Pay(s, bank, account, amount)
  }

  function Run(s: System, events: seq<Event>): System {
    if |events| == 0 then s else Next(Run(s, events[..|events|-1]), events[|events|-1])
  }

  // ---------- The invariant of one half ----------

  function TxOf(b: BankState, id: string): Option<Tx> {
    if id in b.transactions then Some(b.transactions[id]) else None
  }

  /** The bank has a record exactly when it accepted the prepare; the record is still prepared only if the commit
      has not been applied; and the commit is applied at most once, and only once sent. */
  ghost predicate HalfOk(tx: Option<Tx>, h: Half, sent: bool) {
    && (tx.Some? <==> h.prepare.executed && h.prepare.accepted)
    && (h.prepare.seen == Some(true) ==> tx.Some?)
    && (sent ==> h.prepare.seen == Some(true))
    && h.applied <= 1
    && (h.applied == 1 ==> sent && tx.Some? && tx.value.state != Prepared)
    && (h.commitSeen == Some(true) ==> h.applied == 1)
  }

  ghost predicate TransferOk(banks: map<string, BankState>, id: string, t: Transfer) {
    && t.debit.bank != t.credit.bank && t.debit.bank in banks && t.credit.bank in banks
    && HalfOk(TxOf(banks[t.debit.bank], id), t.debit, CommitSent(t))
    && HalfOk(TxOf(banks[t.credit.bank], id), t.credit, CommitSent(t))
    && (t.phase == Succeeded ==> t.debit.commitSeen == Some(true) && t.credit.commitSeen == Some(true))
  }

  ghost predicate SystemOk(s: System) {
    && (forall id :: id in s.transfers ==> TransferOk(s.banks, id, s.transfers[id]))
    && (forall b, id :: b in s.banks && id in s.banks[b].transactions ==>
          id in s.transfers && (b == s.transfers[id].debit.bank || b == s.transfers[id].credit.bank))
    && !s.crashed
  }

  // ---------- Every step keeps it ----------

  /** A request about transfer `id` leaves the bank's other records alone. */
  lemma OtherRecords(b: BankState, r: Request, id: string)
    requires r.ProcessPayment? || r.id != id
    ensures TxOf(Handle(b, r).0, id) == TxOf(b, id)
  {
  }

  /** `s'` is `s` with one bank and one transfer replaced, where only that transfer's record may change. */
  ghost predicate OneReplaced(s: System, id: string, bank: string, b: BankState, t: Transfer, s': System) {
    && id in s.transfers && bank in s.banks
    && s' == s.(banks := s.banks[bank := b], transfers := s.transfers[id := t])
    && (forall other :: other != id ==> TxOf(b, other) == TxOf(s.banks[bank], other))
    && t.debit.bank == s.transfers[id].debit.bank && t.credit.bank == s.transfers[id].credit.bank
    && (bank == t.debit.bank || bank == t.credit.bank)
  }

  lemma OtherTransfersStay(s: System, id: string, bank: string, b: BankState, t: Transfer, s': System, other: string)
    requires SystemOk(s) && OneReplaced(s, id, bank, b, t, s') && other in s.transfers && other != id
    ensures s'.transfers[other] == s.transfers[other] && TransferOk(s'.banks, other, s.transfers[other])
  {
    assert TransferOk(s.banks, other, s.transfers[other]);
    hide HalfOk, SystemOk;
    forall x | x in s.banks ensures TxOf(s'.banks[x], other) == TxOf(s.banks[x], other) {
      if x == bank { assert TxOf(b, other) == TxOf(s.banks[bank], other); }
    }
    hide TxOf;
  }

  lemma RecordsStayOwned(s: System, id: string, bank: string, b: BankState, t: Transfer, s': System, x: string,
                         other: string)
    requires SystemOk(s) && OneReplaced(s, id, bank, b, t, s') && x in s'.banks && other in s'.banks[x].transactions
    ensures other in s'.transfers && (x == s'.transfers[other].debit.bank || x == s'.transfers[other].credit.bank)
  {
    hide TransferOk;
    if other != id {
      assert TxOf(b, other) == TxOf(s.banks[bank], other);
    }
  }

  lemma StepIsSound(s: System, id: string, bank: string, b: BankState, t: Transfer, s': System)
    requires SystemOk(s) && OneReplaced(s, id, bank, b, t, s')
    requires TransferOk(s'.banks, id, t)
    ensures SystemOk(s')
  {
    hide TransferOk, TxOf;
    forall other | other in s'.transfers ensures TransferOk(s'.banks, other, s'.transfers[other]) {
      if other != id { OtherTransfersStay(s, id, bank, b, t, s', other); }
    }
    forall x, other | x in s'.banks && other in s'.banks[x].transactions
      ensures other in s'.transfers && (x == s'.transfers[other].debit.bank || x == s'.transfers[other].credit.bank)
    {
      RecordsStayOwned(s, id, bank, b, t, s', x, other);
    }
  }

  lemma RequestIsAbout(id: string, t: Transfer, side: Side, step: Step)
    ensures var r := RequestOf(id, t, side, step); !r.ProcessPayment? && r.id == id
  {
  }

  lemma DeliverKeeps(s: System, id: string, side: Side, step: Step)
    requires SystemOk(s)
    ensures SystemOk(DeliverCall(s, id, side, step))
  {
    hide Handle, RequestOf, TransferOk, TxOf;
    var s' := DeliverCall(s, id, side, step);
    if s' != s {
      var t := s.transfers[id];
      var h := HalfOf(t, side);
      var r := RequestOf(id, t, side, step);
      var b := Handle(s.banks[h.bank], r).0;
      RequestIsAbout(id, t, side, step);
      forall other | other != id ensures TxOf(b, other) == TxOf(s.banks[h.bank], other) {
        OtherRecords(s.banks[h.bank], r, other);
      }
      DeliveredTransferOk(s, id, side, step);
      StepIsSound(s, id, h.bank, b, s'.transfers[id], s');
    }
  }

  lemma DeliveredTransferOk(s: System, id: string, side: Side, step: Step)
    requires id in s.transfers && TransferOk(s.banks, id, s.transfers[id]) && DeliverCall(s, id, side, step) != s
    ensures var s' := DeliverCall(s, id, side, step);
      TransferOk(s'.banks, id, s'.transfers[id]) && s'.crashed == s.crashed
  {
    hide Handle, RequestOf, HalfOk, TxOf;
    var t := s.transfers[id];
    HalfAfterDelivery(s.banks[HalfOf(t, side).bank], id, t, side, step);
  }

  /** The half stays sound when the bank executes one of its calls, and a commit never meets a missing record. */
  lemma HalfAfterDelivery(b: BankState, id: string, t: Transfer, side: Side, step: Step)
    requires HalfOk(TxOf(b, id), HalfOf(t, side), CommitSent(t))
    requires if step == Prepare then !HalfOf(t, side).prepare.executed else CommitSent(t)
    ensures
      var h := HalfOf(t, side);
      var (b', reply) := Handle(b, RequestOf(id, t, side, step));
      var h' := if step == Prepare then h.(prepare := Call(true, reply == Accepted, h.prepare.seen))
                else if reply == Accepted then h.(applied := h.applied + 1) else h;
      reply != Crash && HalfOk(TxOf(b', id), h', CommitSent(t))
  {
  }

  lemma AnswerKeeps(s: System, id: string, side: Side, step: Step, ok: bool)
    requires SystemOk(s)
    ensures SystemOk(AnswerCall(s, id, side, step, ok))
  {
    var s' := AnswerCall(s, id, side, step, ok);
    if s' != s {
      var t, bank := s.transfers[id], s.transfers[id].debit.bank;
      assert TransferOk(s.banks, id, t);
      assert s.banks[bank := s.banks[bank]] == s.banks;
      StepIsSound(s, id, bank, s.banks[bank], s'.transfers[id], s');
    }
  }

  lemma PhaseKeeps(s: System, id: string, phase: Phase)
    requires SystemOk(s) && id in s.transfers
    requires phase == Decision(s.transfers[id]) || phase == TimedOut(s.transfers[id])
    ensures SystemOk(s.(transfers := s.transfers[id := s.transfers[id].(phase := phase)]))
  {
    var t, bank := s.transfers[id], s.transfers[id].debit.bank;
    assert TransferOk(s.banks, id, t);
    assert s.banks[bank := s.banks[bank]] == s.banks;
    StepIsSound(s, id, bank, s.banks[bank], t.(phase := phase), s.(transfers := s.transfers[id := t.(phase := phase)]));
  }

  lemma AbortKeeps(s: System, id: string, side: Side)
    requires SystemOk(s)
    ensures SystemOk(DeliverAbortTo(s, id, side))
  {
    var s' := DeliverAbortTo(s, id, side);
    if s' != s {
      var t := s.transfers[id];
      var bank := HalfOf(t, side).bank;
      assert TransferOk(s.banks, id, t);
      var b := Handle(s.banks[bank], Abort(id)).0;
      forall other | other != id ensures TxOf(b, other) == TxOf(s.banks[bank], other) {
        OtherRecords(s.banks[bank], Abort(id), other);
      }
      assert s.transfers[id := t] == s.transfers;
      StepIsSound(s, id, bank, b, t, s');
    }
  }

  lemma PayKeeps(s: System, bank: string, account: string, amount: int)
    requires SystemOk(s)
    ensures SystemOk(Pay(s, bank, account, amount))
  {
    var s' := Pay(s, bank, account, amount);
    forall id, b | b in s.banks ensures TxOf(s'.banks[b], id) == TxOf(s.banks[b], id) {
      if b == bank { OtherRecords(s.banks[bank], ProcessPayment(account, amount), id); }
    }
    forall id | id in s'.transfers ensures TransferOk(s'.banks, id, s'.transfers[id]) {
      assert TransferOk(s.banks, id, s.transfers[id]);
    }
    forall b, id | b in s'.banks && id in s'.banks[b].transactions
      ensures id in s'.transfers && (b == s'.transfers[id].debit.bank || b == s'.transfers[id].credit.bank)
    {
      assert TxOf(s'.banks[b], id) == TxOf(s.banks[b], id);
    }
  }

  lemma StartKeeps(s: System, e: Event)
    requires SystemOk(s) && e.Start?
    ensures SystemOk(StartTransfer(s, e))
  {
    var s' := StartTransfer(s, e);
    if s' != s {
      assert TxOf(s.banks[e.senderBank], e.id).None? && TxOf(s.banks[e.receiverBank], e.id).None?;
      forall id | id in s'.transfers ensures TransferOk(s'.banks, id, s'.transfers[id]) {
        if id != e.id { assert TransferOk(s.banks, id, s.transfers[id]); }
      }
    }
  }

  lemma NextKeeps(s: System, e: Event)
    requires SystemOk(s)
    ensures SystemOk(Next(s, e))
  {
    hide SystemOk;
    match e
    case Start(_, _, _, _, _, _) => StartKeeps(s, e);
    case Deliver(id, side, step) => DeliverKeeps(s, id, side, step);
    case Answer(id, side, step, ok) => AnswerKeeps(s, id, side, step, ok);
    case Decide(id) => if id in s.transfers { PhaseKeeps(s, id, Decision(s.transfers[id])); }
    case GiveUp(id) => if id in s.transfers { PhaseKeeps(s, id, TimedOut(s.transfers[id])); }
    case DeliverAbort(id, side) => AbortKeeps(s, id, side);
    case PaySimple(bank, account, amount) => PayKeeps(s, bank, account, amount);
  }

  // ---------- Money ----------

  /** What a transfer has added to all banks together so far. */
  function Flow(t: Transfer): int {
    t.credit.applied * t.amount - t.debit.applied * t.amount
  }

  /** Money in the banks, plus what was paid out, minus what half-applied transfers have added. */
  ghost function Ledger(s: System): int {
    Money(s.banks) + s.spent - SumMap(s.transfers, Flow)
  }

  lemma OneMoreTime(k: nat, amount: int)
    ensures (k + 1) * amount == k * amount + amount
  {
  }

  lemma DeliverKeepsLedger(s: System, id: string, side: Side, step: Step)
    ensures Ledger(DeliverCall(s, id, side, step)) == Ledger(s)
  {
    var s' := DeliverCall(s, id, side, step);
    if s' != s {
      var t := s.transfers[id];
      var h := HalfOf(t, side);
      var r := RequestOf(id, t, side, step);
      var b := Handle(s.banks[h.bank], r).0;
      RequestsMoveTheirAmount(s.banks[h.bank], r);
      SumMapUpdate(s.banks, Holdings, h.bank, b);
      SumMapUpdate(s.transfers, Flow, id, s'.transfers[id]);
      OneMoreTime(h.applied, t.amount);
    }
  }

  lemma NextKeepsLedger(s: System, e: Event)
    ensures Ledger(Next(s, e)) == Ledger(s)
  {
    var s' := Next(s, e);
    match e
    case Start(id, _, _, _, _, _) =>
      if s' != s { SumMapUpdate(s.transfers, Flow, id, s'.transfers[id]); }
    case Deliver(id, side, step) => DeliverKeepsLedger(s, id, side, step);
    case Answer(id, side, step, ok) =>
      if s' != s { SumMapUpdate(s.transfers, Flow, id, s'.transfers[id]); }
    case Decide(id) => if id in s.transfers { SumMapUpdate(s.transfers, Flow, id, s'.transfers[id]); }
    case GiveUp(id) => if id in s.transfers { SumMapUpdate(s.transfers, Flow, id, s'.transfers[id]); }
    case DeliverAbort(id, side) =>
      if s' != s {
        var bank := HalfOf(s.transfers[id], side).bank;
        RequestsMoveTheirAmount(s.banks[bank], Abort(id));
        SumMapUpdate(s.banks, Holdings, bank, s'.banks[bank]);
      }
    case PaySimple(bank, account, amount) =>
      if bank in s.banks {
        RequestsMoveTheirAmount(s.banks[bank], ProcessPayment(account, amount));
        SumMapUpdate(s.banks, Holdings, bank, s'.banks[bank]);
      }
  }

  /** Banks without records, and nothing started. */
  predicate Initial(s: System) {
    s.transfers == map[] && s.spent == 0 && !s.crashed && forall b :: b in s.banks ==> s.banks[b].transactions == map[]
  }

  lemma {:induction false} RunKeeps(s: System, events: seq<Event>)
    requires Initial(s)
    ensures SystemOk(Run(s, events)) && Ledger(Run(s, events)) == Money(s.banks)
  {
    if |events| > 0 {
      RunKeeps(s, events[..|events|-1]);
      NextKeeps(Run(s, events[..|events|-1]), events[|events|-1]);
      NextKeepsLedger(Run(s, events[..|events|-1]), events[|events|-1]);
    }
  }

  /** Conservation over every run: the banks hold what they held at first, less the accepted plain payments, plus
      the applied credit halves, minus the applied debit halves; each half is applied at most once. A transfer
      reported as successful has both halves applied, one that failed before its commit has neither, and no bank
      ever meets a commit without a record. */
  lemma TransfersConserveMoney(s: System, events: seq<Event>, id: string)
    requires Initial(s)
    ensures var end := Run(s, events);
      && Money(end.banks) == Money(s.banks) - end.spent + SumMap(end.transfers, Flow)
      && !end.crashed
      && (id in end.transfers ==>
            var t := end.transfers[id];
            && t.debit.applied <= 1 && t.credit.applied <= 1
            && (t.phase == Succeeded ==> t.debit.applied == 1 && t.credit.applied == 1)
            && (t.phase == Preparing || t.phase == GivenUp ==> t.debit.applied == 0 && t.credit.applied == 0))
  {
    RunKeeps(s, events);
    var end := Run(s, events);
    if id in end.transfers { assert TransferOk(end.banks, id, end.transfers[id]); }
  }

  lemma {:induction false} NoFlow(m: map<string, Transfer>)
    requires forall id :: id in m ==> Flow(m[id]) == 0
    ensures SumMap(m, Flow) == 0
    decreases |m|
  {
    if m.Keys != {} {
      var k := Pick(m.Keys);
      SumMapRemove(m, Flow, k);
      NoFlow(m - {k});
    }
  }

  /** While no transfer stands, in or after a failed commit phase, with one half applied and not the other, money moves
      between banks without being made or lost. */
  lemma SettledRunsBalance(s: System, events: seq<Event>)
    requires Initial(s)
    requires forall id :: id in Run(s, events).transfers ==>
      var t := Run(s, events).transfers[id];
      t.phase == Committing || t.phase == CommitFailed ==> t.debit.applied == t.credit.applied
    ensures Money(Run(s, events).banks) == Money(s.banks) - Run(s, events).spent
  {
    var end := Run(s, events);
    TransfersConserveMoney(s, events, "");
    forall id | id in end.transfers ensures Flow(end.transfers[id]) == 0 {
      TransfersConserveMoney(s, events, id);
    }
    NoFlow(end.transfers);
  }
}
