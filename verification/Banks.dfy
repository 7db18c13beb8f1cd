/** A bank: plain payments, and its half of the two-phase transfers. Amounts are whole cents. */
module Banks {
  import opened Basics
  import opened Collections

  datatype TxState = Prepared | Committed | Aborted

  datatype Tx = Tx(client: string, amount: int, state: TxState)

  /** `clients` maps account numbers to client names. */
  datatype BankState = BankState(clients: map<string, string>, balances: map<string, int>, transactions: map<string, Tx>)

  /** `Crash`: the handler dereferences a missing record. */
  datatype Reply = Accepted | Refused | Crash

  datatype Request =
    | ProcessPayment(account: string, amount: int)
    | PrepareDebit(id: string, client: string, amount: int)
    | PrepareCredit(id: string, client: string, amount: int)
    | CommitDebit(id: string, client: string, amount: int)
    | CommitCredit(id: string, client: string, amount: int)
    | Abort(id: string)

  function BalanceOf(b: BankState, client: string): int {
    if client in b.balances then b.balances[client] else 0
  }

  predicate HasClient(b: BankState, client: string) {
    exists account :: account in b.clients && b.clients[account] == client
  }

  function Adjusted(balances: map<string, int>, client: string, amount: int): map<string, int> {
    balances[client := (if client in balances then balances[client] else 0) + amount]
  }

  function Pay(b: BankState, client: string, amount: int): BankState {
    b.(balances := Adjusted(b.balances, client, amount))
  }

  function Record(b: BankState, id: string, client: string, amount: int): BankState {
    b.(transactions := b.transactions[id := Tx(client, amount, Prepared)])
  }

  function Mark(b: BankState, id: string, state: TxState): BankState
    requires id in b.transactions
  {
    b.(transactions := b.transactions[id := b.transactions[id].(state := state)])
  }

  predicate IsPrepared(b: BankState, id: string) {
    id in b.transactions && b.transactions[id].state == Prepared
  }

  /** What each request does and how it is answered. */
  function Handle(b: BankState, r: Request): (BankState, Reply) {
    match r
    case ProcessPayment(account, amount) =>
      if amount <= 0 || account !in b.clients || b.clients[account] == "" then (b, Refused)
      else
        var client := b.clients[account];
        if client !in b.balances || b.balances[client] < amount then (b, Refused)
        else (Pay(b, client, -amount), Accepted)
    case PrepareDebit(id, client, amount) =>
      if !HasClient(b, client) || BalanceOf(b, client) < amount then (b, Refused)
      else (Record(b, id, client, amount), Accepted)
    case PrepareCredit(id, client, amount) =>
      if !HasClient(b, client) then (b, Refused) else (Record(b, id, client, amount), Accepted)
    case CommitDebit(id, client, amount) =>
      if id !in b.transactions then (b, Crash)
      else if !IsPrepared(b, id) then (b, Refused)
      else (Mark(Pay(b, client, -amount), id, Committed), Accepted)
    case CommitCredit(id, client, amount) =>
      if !IsPrepared(b, id) then (b, Refused)
      else (Mark(Pay(b, client, amount), id, Committed), Accepted)
    case Abort(id) =>
      if id !in b.transactions then (b, Accepted) else (Mark(b, id, Aborted), Accepted)
  }

  // ---------- What the requests keep ----------

  ghost function Holdings(b: BankState): int {
    MapSum(b.balances)
  }

  /** What all banks hold together. */
  ghost function Money(banks: map<string, BankState>): int {
    SumMap(banks, Holdings)
  }

  /** What a request, given how it was answered, adds to the bank's holdings. */
  function Effect(r: Request, reply: Reply): int {
    if reply != Accepted then 0
    else
      match r
      case ProcessPayment(_, amount) => -amount
      case CommitDebit(_, _, amount) => -amount
      case CommitCredit(_, _, amount) => amount
      case _ => 0
  }

  lemma PayChangesHoldings(b: BankState, client: string, amount: int)
    ensures Holdings(Pay(b, client, amount)) == Holdings(b) + amount
  {
    SumMapUpdate(b.balances, (x: int) => x, client, BalanceOf(b, client) + amount);
  }

  /** Only an accepted payment or commit moves money, and by exactly its amount. */
  lemma RequestsMoveTheirAmount(b: BankState, r: Request)
    ensures var (b', reply) := Handle(b, r); Holdings(b') == Holdings(b) + Effect(r, reply)
  {
    match r
    case ProcessPayment(account, amount) =>
      if account in b.clients { PayChangesHoldings(b, b.clients[account], -amount); }
    case CommitDebit(id, client, amount) => PayChangesHoldings(b, client, -amount);
    case CommitCredit(id, client, amount) => PayChangesHoldings(b, client, amount);
    case _ =>
  }

  /** An accepted prepare records the transaction with its client and amount, a commit or an abort changes its state
      alone, and none of them touches another record. */
  lemma RequestsRecord(b: BankState, r: Request, x: string)
    requires !r.ProcessPayment?
    ensures var (b', reply) := Handle(b, r);
      if x != r.id || reply != Accepted then Find(b'.transactions, x) == Find(b.transactions, x)
      else match r
        case PrepareDebit(_, client, amount) => Find(b'.transactions, x) == Some(Tx(client, amount, Prepared))
        case PrepareCredit(_, client, amount) => Find(b'.transactions, x) == Some(Tx(client, amount, Prepared))
        case Abort(_) =>
          Find(b'.transactions, x) ==
          if x in b.transactions then Some(b.transactions[x].(state := Aborted)) else None
        case _ =>
          x in b.transactions && Find(b'.transactions, x) == Some(b.transactions[x].(state := Committed))
  {
  }

  /** A commit is accepted only in the prepared state and leaves it, so it cannot be accepted again before another
      prepare. */
  lemma CommitsOnce(b: BankState, r: Request, again: Request)
    requires (r.CommitDebit? || r.CommitCredit?) && (again.CommitDebit? || again.CommitCredit?) && r.id == again.id
    ensures var (b', reply) := Handle(b, r); reply == Accepted ==> Handle(b', again).1 == Refused
  {
  }

  class Bank {
    const name: string
    var clients: map<string, string>
    var balances: map<string, int>
    var transactions: map<string, Tx>

    constructor (name: string, clients: map<string, string>, balances: map<string, int>)
      ensures this.name == name && View() == BankState(clients, balances, map[])
    {
      this.name, this.clients, this.balances, transactions := name, clients, balances, map[];
    }

    ghost function View(): BankState
      reads this
    {
      BankState(clients, balances, transactions)
    }

    method ProcessPayment(account: string, amount: int) returns (success: bool)
      modifies this
      ensures (View(), if success then Accepted else Refused) == Handle(old(View()), Request.ProcessPayment(account, amount))
    {
      if amount <= 0 { return false; }
      var clientName := "";
      if account in clients { clientName := clients[account]; }
      if clientName == "" { return false; }
      if clientName !in balances { return false; }
      if balances[clientName] < amount { return false; }
      balances := balances[clientName := balances[clientName] - amount];
      success := true;
    }

    /** Looks through the accounts, in no particular order, for one of this client. */
    method FindClient(client: string) returns (found: bool)
      ensures found <==> HasClient(View(), client)
    {
      var rest := clients.Keys;
      while rest != {}
        invariant rest <= clients.Keys
        invariant forall account :: account in clients && clients[account] == client ==> account in rest
        decreases rest
      {
        var account := PickAny(rest);
        if clients[account] == client { return true; }
        rest := rest - {account};
      }
      found := false;
    }

    method PrepareDebit(id: string, client: string, amount: int) returns (success: bool)
      modifies this
      ensures (View(), if success then Accepted else Refused) == Handle(old(View()), Request.PrepareDebit(id, client, amount))
    {
      var known := FindClient(client);
      if !known { return false; }
      if (if client in balances then balances[client] else 0) < amount { return false; }
      transactions := transactions[id := Tx(client, amount, Prepared)];
      success := true;
    }

    method PrepareCredit(id: string, client: string, amount: int) returns (success: bool)
      modifies this
      ensures (View(), if success then Accepted else Refused) == Handle(old(View()), Request.PrepareCredit(id, client, amount))
    {
      var known := FindClient(client);
      if !known { return false; }
      transactions := transactions[id := Tx(client, amount, Prepared)];
      success := true;
    }

    /** Logs the record's state before checking that there is a record. */
    method CommitDebit(id: string, client: string, amount: int) returns (reply: Reply)
      modifies this
      ensures (View(), reply) == Handle(old(View()), Request.CommitDebit(id, client, amount))
    {
      if id !in transactions { return Crash; }
      var tx := transactions[id];
      if tx.state != Prepared { return Refused; }
      balances := balances[client := (if client in balances then balances[client] else 0) - amount];
      transactions := transactions[id := tx.(state := Committed)];
      reply := Accepted;
    }

    method CommitCredit(id: string, client: string, amount: int) returns (reply: Reply)
      modifies this
      ensures (View(), reply) == Handle(old(View()), Request.CommitCredit(id, client, amount))
    {
      if id !in transactions || transactions[id].state != Prepared { return Refused; }
      balances := balances[client := (if client in balances then balances[client] else 0) + amount];
      transactions := transactions[id := transactions[id].(state := Committed)];
      reply := Accepted;
    }

    method Abort(id: string) returns (success: bool)
      modifies this
      ensures success && (View(), Accepted) == Handle(old(View()), Request.Abort(id))
    {
      if id !in transactions { return true; }
      transactions := transactions[id := transactions[id].(state := Aborted)];
      success := true;
    }
  }
}
