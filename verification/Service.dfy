/**
 What the service's operations share: their stores, the variables their closures assign, the faults an attempt can
 meet, and the locking of two accounts (internal/services/transaction_service.go:536-557).
 */
module Service {
  import opened Wrappers
  import opened Rates
  import opened Tables
  import opened Order
  import opened Runner
  import opened Stores
  import opened Hubs
  import Int64
  import Money

  /** The stores, all on one database. */
  class Backend {
    const db: Store<Database>
    const accounts: AccountStore
    const transactions: TransactionStore
    const ledger: LedgerStore
    const quotes: QuoteStore
    const audit: AuditStore
    const users: UserStore

    ghost predicate Valid() {
      accounts.db == db && ledger.db == db && quotes.db == db
    }

    constructor (db: Store<Database>)
      ensures Valid() && this.db == db
    {
      this.db := db;
      accounts := new AccountStore(db);
      transactions := new TransactionStore();
      ledger := new LedgerStore(db);
      quotes := new QuoteStore(db);
      audit := new AuditStore();
      users := new UserStore();
    }
  }

  /** The variables a closure assigns; a transfer keeps its one currency in `fromCurrency`. */
  datatype Captured = Captured(
    transactionId: string, toUserId: string, fromAfter: int, toAfter: int,
    fromCurrency: Option<Currency>, toCurrency: Option<Currency>)

  const NOTHING: Captured := Captured("", "", 0, 0, None, None)

  /** Where in an attempt the database can fail the closure, whatever the closure does. */
  datatype Stage = Locking | SystemLocking | Updating | Creating | Posting | Consuming

  datatype Fault = Fault(stage: Stage, error: Error)

  predicate Hits(fault: Option<Fault>, stage: Stage) {
    fault.Some? && fault.value.stage == stage
  }

  /** What GetSystemAccount answers on these accounts. */
  ghost predicate SystemAnswers(accounts: map<string, Account>, system: Currency -> Option<string>) {
    OneSystemEach(accounts) && forall c: Currency :: SystemAccount(accounts, c) == system(c)
  }

  /** Other clients' commits between attempts keep owners, currencies and system flags, as every operation does. */
  ghost predicate HoldersKept(world: seq<World<Database>>) {
    forall i, j | 0 <= i < j < |world| :: SameHolders(world[i].committed.accounts, world[j].committed.accounts)
  }

  /** So GetSystemAccount answers the same at every attempt. */
  ghost predicate SystemKnown(world: seq<World<Database>>, system: Currency -> Option<string>) {
    forall i | 0 <= i < |world| :: SystemAnswers(world[i].committed.accounts, system)
  }

  function CurrencyText(currency: Currency): string {
    match currency
    case USD => "USD"
    case EUR => "EUR"
  }

  /** The call tells the user what the database holds for an account: its balance, read back, and its currency. */
  ghost predicate Tells(call: Call, userId: string, db: Database, id: string) {
    && call.BroadcastCall? && call.userId == userId && call.update.accountId == id && id in db.accounts
    && Money.Parse(call.update.balance) == Ok(db.accounts[id].balance)
    && call.update.currency == if db.accounts[id].currency == USD then "USD" else "EUR"
  }

  lemma PrintedTells(userId: string, db: Database, id: string)
    requires id in db.accounts && 0 <= db.accounts[id].balance <= Int64.MAX
    ensures var account := db.accounts[id];
            var update := BalanceUpdate(id, Money.Format(account.balance), CurrencyText(account.currency));
            Tells(BroadcastCall(userId, update), userId, db, id)
  {
    hide Money.Format, Money.Parse;
    Money.RoundTrip(db.accounts[id].balance);
  }

  /** Two ids, each locked once, or one locked twice, the smaller first. */
  predicate LockedInOrder(locked: seq<string>, firstId: string, secondId: string) {
    |locked| == 2 && {locked[0], locked[1]} == {firstId, secondId}
        && (firstId == secondId || Less(locked[0], locked[1]))
  }

  /** `lockTwoAccounts`: locks the smaller id first and answers in the order asked. */
  method LockTwoAccounts(tx: SqlTx, accounts: AccountStore, firstId: string, secondId: string)
    returns (r: Result<(Account, Account), Error>)
    modifies tx`locked
    ensures r == if firstId in tx.view.accounts && secondId in tx.view.accounts
                 then Ok((tx.view.accounts[firstId], tx.view.accounts[secondId])) else Err(NoRows)
    ensures r.Ok? ==> |tx.locked| == |old(tx.locked)| + 2 && old(tx.locked) <= tx.locked
    ensures r.Ok? ==> LockedInOrder(tx.locked[|old(tx.locked)|..], firstId, secondId)
  {
    var (leftId, rightId) := OrderedIDs(firstId, secondId);
    OrderedIDsAgree(firstId, secondId);
    var left := accounts.GetForUpdate(tx, leftId);
    if left.Err? {
      return Err(left.error);
    }
    var right := accounts.GetForUpdate(tx, rightId);
    if right.Err? {
      return Err(right.error);
    }
    assert tx.locked == old(tx.locked) + [leftId, rightId];
    if firstId == leftId {
      return Ok((left.value, right.value));
    }
    return Ok((right.value, left.value));
  }
}
