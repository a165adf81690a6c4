/**
 The rows the engine keeps (migrations/001_init.sql, migrations/002_minor_units.sql), the statements
 its stores issue, and the constraints the database enforces on them.
 */
module Tables {
  import opened Wrappers
  import opened Rates
  import Int64

  datatype Error =
    | InvalidAmount
    | SameAccountTransfer
    | UnauthorizedAccount
    | CurrencyMismatch
    | InsufficientFunds
    | InvalidExchangeRequest
    | QuoteNotFound
    | QuoteExpired
    | QuoteConsumed
    | RateMismatch
    | UnbalancedEntries
    | NoRows
    | RetryLimitExceeded
    | Postgres(code: SqlState)
    | Connection

  /** The PostgreSQL error codes the engine can meet: 40001, 40P01, 23505, 23514, 22003, 22P02. */
  datatype SqlState =
    | SerializationFailure | DeadlockDetected | UniqueViolation | CheckViolation | OutOfRange | InvalidText

  datatype User = User(id: string, username: string, email: string)

  datatype Account = Account(owner: Option<string>, currency: Currency, balance: int, isSystem: bool)

  datatype Kind = Transfer | Exchange

  datatype Metadata = NoMetadata | OpeningBalance | ExchangeTerms(rate: string, quoteId: string)

  datatype Transaction = Transaction(
    id: string, userId: string, kind: Kind, amount: int, currency: Currency,
    fromId: string, toId: string, metadata: Metadata, requestId: Option<string>)

  datatype Entry = Entry(transactionId: string, accountId: string, amount: int, currency: Currency)

  datatype Quote = Quote(
    userId: string, fromId: string, toId: string, amount: int, converted: int, rate: string,
    base: Currency, counter: Currency, expiresAt: int, consumedAt: Option<int>)

  datatype AuditRow = AuditRow(actor: string, action: string, entityId: string)

  datatype Database = Database(
    users: seq<User>,
    accounts: map<string, Account>,
    transactions: seq<Transaction>,
    ledger: seq<Entry>,
    quotes: map<string, Quote>,
    audit: seq<AuditRow>)

  // --------------------------------------------------------------- what is asked of accounts

  /** The user owns the account. */
  predicate Owns(db: Database, userId: string, id: string) {
    id in db.accounts && db.accounts[id].owner == Some(userId)
  }

  predicate BothExist(db: Database, a: string, b: string) {
    a in db.accounts && b in db.accounts
  }

  predicate SameCurrency(db: Database, a: string, b: string) {
    BothExist(db, a, b) && db.accounts[a].currency == db.accounts[b].currency
  }

  predicate CanPay(db: Database, id: string, amount: int) {
    id in db.accounts && db.accounts[id].balance >= amount
  }

  // --------------------------------------------------------------- rows and index keys

  /** What a statement locks: a row, or a key of a unique index. */
  datatype Key =
    | AccountRow(id: string)
    | TransactionId(id: string)
    | RequestKey(userId: string, requestId: string)
    | QuoteRow(id: string)
    | UserId(id: string)
    | Username(name: string)
    | Email(email: string)

  datatype Cell = AccountCell(account: Option<Account>) | QuoteCell(quote: Option<Quote>) | Taken(taken: bool)

  predicate HasTransaction(rows: seq<Transaction>, id: string) {
    exists i | 0 <= i < |rows| :: rows[i].id == id
  }

  predicate HasRequest(rows: seq<Transaction>, userId: string, requestId: string) {
    exists i | 0 <= i < |rows| :: rows[i].userId == userId && rows[i].requestId == Some(requestId)
  }

  /** What the database holds under a key. */
  function Lookup(db: Database, key: Key): Cell {
    match key
    case AccountRow(id) => AccountCell(if id in db.accounts then Some(db.accounts[id]) else None)
    case QuoteRow(id) => QuoteCell(if id in db.quotes then Some(db.quotes[id]) else None)
    case TransactionId(id) => Taken(HasTransaction(db.transactions, id))
    case RequestKey(userId, requestId) => Taken(HasRequest(db.transactions, userId, requestId))
    case UserId(id) => Taken(exists u | u in db.users :: u.id == id)
    case Username(name) => Taken(exists u | u in db.users :: u.username == name)
    case Email(email) => Taken(exists u | u in db.users :: u.email == email)
  }

  // --------------------------------------------------------------- writes

  datatype Write =
    | SetBalance(id: string, balance: int)
    | AddUser(user: User)
    | AddAccount(id: string, owner: string, currency: Currency, balance: int)
    | AddTransaction(row: Transaction)
    | AddEntry(entry: Entry)
    | AddAudit(event: AuditRow)
    | MarkConsumed(quoteId: string, at: int)

  function Apply(db: Database, w: Write): Database {
    match w
    case SetBalance(id, balance) =>
      if id in db.accounts then db.(accounts := db.accounts[id := db.accounts[id].(balance := balance)]) else db
    case AddUser(user) => db.(users := db.users + [user])
    case AddAccount(id, owner, currency, balance) =>
      if id in db.accounts then db
      else db.(accounts := db.accounts[id := Account(Some(owner), currency, balance, false)])
    case AddTransaction(row) => db.(transactions := db.transactions + [row])
    case AddEntry(entry) => db.(ledger := db.ledger + [entry])
    case AddAudit(row) => db.(audit := db.audit + [row])
    case MarkConsumed(id, at) =>
      if id in db.quotes then db.(quotes := db.quotes[id := db.quotes[id].(consumedAt := Some(at))]) else db
  }

  function ApplyAll(db: Database, ws: seq<Write>): Database {
    if ws == [] then db else Apply(ApplyAll(db, ws[..|ws| - 1]), ws[|ws| - 1])
  }

  function RequestKeys(row: Transaction): set<Key> {
    if row.requestId.Some? then {RequestKey(row.userId, row.requestId.value)} else {}
  }

  /** The keys whose content a write changes. */
  function WriteKeys(w: Write): set<Key> {
    match w
    case SetBalance(id, _) => {AccountRow(id)}
    case AddUser(user) => {UserId(user.id), Username(user.username), Email(user.email)}
    case AddAccount(id, _, _, _) => {AccountRow(id)}
    case AddTransaction(row) => {TransactionId(row.id)} + RequestKeys(row)
    case AddEntry(_) => {}
    case AddAudit(_) => {}
    case MarkConsumed(id, _) => {QuoteRow(id)}
  }

  lemma HasAppended(rows: seq<Transaction>, row: Transaction)
    ensures forall id :: HasTransaction(rows + [row], id) <==> HasTransaction(rows, id) || row.id == id
    ensures forall u, r :: HasRequest(rows + [row], u, r) <==>
                             HasRequest(rows, u, r) || (row.userId == u && row.requestId == Some(r))
  {
    var all := rows + [row];
    assert all[|rows|] == row;
    forall i | 0 <= i < |rows| ensures all[i] == rows[i] {}
  }

  lemma UsersAppended(users: seq<User>, user: User)
    ensures forall u :: u in users + [user] <==> u in users || u == user
  {
  }

  /** A write leaves every other key as it was. */
  lemma LookupFrame(db: Database, w: Write, key: Key)
    requires key !in WriteKeys(w)
    ensures Lookup(Apply(db, w), key) == Lookup(db, key)
  {
    match w
    case AddTransaction(row) => HasAppended(db.transactions, row);
    case AddUser(user) => UsersAppended(db.users, user);
    case _ =>
  }

  /** What a key holds after a write is settled by what it held before. */
  lemma LookupAfter(a: Database, b: Database, w: Write, key: Key)
    requires Lookup(a, key) == Lookup(b, key)
    ensures Lookup(Apply(a, w), key) == Lookup(Apply(b, w), key)
  {
    match w
    case AddTransaction(row) =>
      HasAppended(a.transactions, row);
      HasAppended(b.transactions, row);
    case AddUser(user) =>
      UsersAppended(a.users, user);
      UsersAppended(b.users, user);
    case _ =>
  }

  lemma {:induction false} LookupAfterAll(a: Database, b: Database, ws: seq<Write>, key: Key)
    requires Lookup(a, key) == Lookup(b, key)
    ensures Lookup(ApplyAll(a, ws), key) == Lookup(ApplyAll(b, ws), key)
  {
    if ws != [] {
      var front := ws[..|ws| - 1];
      LookupAfterAll(a, b, front, key);
      LookupAfter(ApplyAll(a, front), ApplyAll(b, front), ws[|ws| - 1], key);
    }
  }

  lemma {:induction false} LookupFrameAll(db: Database, ws: seq<Write>, key: Key)
    requires forall w | w in ws :: key !in WriteKeys(w)
    ensures Lookup(ApplyAll(db, ws), key) == Lookup(db, key)
  {
    if ws != [] {
      var front := ws[..|ws| - 1];
      LookupFrameAll(db, front, key);
      LookupFrame(ApplyAll(db, front), ws[|ws| - 1], key);
    }
  }

  // --------------------------------------------------------------- statements

  datatype Statement =
    | UpdateBalance(id: string, balance: int)
    | AdjustBalance(id: string, delta: int)
    | InsertUser(user: User)
    | InsertAccount(id: string, owner: string, currency: Currency, balance: int)
    | InsertTransaction(row: Transaction)
    | InsertEntry(entry: Entry)
    | InsertAudit(event: AuditRow)
    | ConsumeQuote(quoteId: string, now: int)

  function Keys(s: Statement): set<Key> {
    match s
    case UpdateBalance(id, _) => {AccountRow(id)}
    case AdjustBalance(id, _) => {AccountRow(id)}
    case InsertUser(user) => {UserId(user.id), Username(user.username), Email(user.email)}
    case InsertAccount(id, _, _, _) => {AccountRow(id)}
    case InsertTransaction(row) => {TransactionId(row.id)} + RequestKeys(row)
    case InsertEntry(_) => {}
    case InsertAudit(_) => {}
    case ConsumeQuote(id, _) => {QuoteRow(id)}
  }

  /**
   A statement either fails or changes at most one row; `Ok(None)` is an update that matched no row.
   The checks are the table constraints: balances not negative, amounts positive or not zero,
   primary keys and the unique (user, request) pair.
   */
  function Execute(view: Database, s: Statement): Result<Option<Write>, Error> {
    match s
    case UpdateBalance(id, balance) =>
      if id !in view.accounts then Ok(None)
      else if balance < 0 then Err(Postgres(CheckViolation))
      else Ok(Some(SetBalance(id, balance)))
    case AdjustBalance(id, delta) =>
      if id !in view.accounts then Ok(None)
      else
        var balance := view.accounts[id].balance + delta;
        if !Int64.Fits(balance) then Err(Postgres(OutOfRange))
        else if balance < 0 then Err(Postgres(CheckViolation))
        else Ok(Some(SetBalance(id, balance)))
    case InsertUser(user) =>
      if || Lookup(view, UserId(user.id)).taken || Lookup(view, Username(user.username)).taken
         || Lookup(view, Email(user.email)).taken then Err(Postgres(UniqueViolation))
      else Ok(Some(AddUser(user)))
    case InsertAccount(id, owner, currency, balance) =>
      if balance < 0 then Err(Postgres(CheckViolation))
      else if id in view.accounts then Err(Postgres(UniqueViolation))
      else Ok(Some(AddAccount(id, owner, currency, balance)))
    case InsertTransaction(row) =>
      if row.amount <= 0 then Err(Postgres(CheckViolation))
      else if IsTaken(view, row) then Err(Postgres(UniqueViolation))
      else Ok(Some(AddTransaction(row)))
    case InsertEntry(entry) =>
      if entry.amount == 0 then Err(Postgres(CheckViolation)) else Ok(Some(AddEntry(entry)))
    case InsertAudit(row) => Ok(Some(AddAudit(row)))
    case ConsumeQuote(id, now) =>
      if id in view.quotes && view.quotes[id].consumedAt.None? && view.quotes[id].expiresAt > now
      then Ok(Some(MarkConsumed(id, now))) else Ok(None)
  }

  /** The primary key or the idempotency index already holds this transaction. */
  predicate IsTaken(view: Database, row: Transaction) {
    || HasTransaction(view.transactions, row.id)
    || (row.requestId.Some? && HasRequest(view.transactions, row.userId, row.requestId.value))
  }

  /** A statement reads nothing but the keys it locks. */
  lemma ExecuteReadsKeys(a: Database, b: Database, s: Statement)
    requires forall k | k in Keys(s) :: Lookup(a, k) == Lookup(b, k)
    ensures Execute(a, s) == Execute(b, s)
  {
    match s
    case UpdateBalance(id, _) => assert AccountRow(id) in Keys(s);
    case AdjustBalance(id, _) => assert AccountRow(id) in Keys(s);
    case InsertUser(u) =>
      assert UserId(u.id) in Keys(s) && Username(u.username) in Keys(s) && Email(u.email) in Keys(s);
    case InsertAccount(id, _, _, _) => assert AccountRow(id) in Keys(s);
    case InsertTransaction(row) =>
      assert TransactionId(row.id) in Keys(s);
      if row.requestId.Some? {
        assert RequestKey(row.userId, row.requestId.value) in Keys(s);
      }
    case InsertEntry(_) =>
    case InsertAudit(_) =>
    case ConsumeQuote(id, _) => assert QuoteRow(id) in Keys(s);
  }

  /** A statement writes nothing but the keys it locks. */
  lemma ExecuteWritesKeys(view: Database, s: Statement)
    requires Execute(view, s).Ok? && Execute(view, s).value.Some?
    ensures WriteKeys(Execute(view, s).value.value) <= Keys(s)
  {
  }

  // --------------------------------------------------------------- system accounts

  ghost predicate IsSystemAccount(accounts: map<string, Account>, id: string, currency: Currency) {
    id in accounts && accounts[id].isSystem && accounts[id].currency == currency
  }

  /** `GetSystemAccount`. */
  ghost function SystemAccount(accounts: map<string, Account>, currency: Currency): (r: Option<string>)
    ensures r.Some? ==> IsSystemAccount(accounts, r.value, currency)
    ensures r.None? ==> forall id :: !IsSystemAccount(accounts, id, currency)
  {
    if id :| IsSystemAccount(accounts, id, currency) then Some(id) else None
  }

  /** At most one system account a currency. */
  ghost predicate OneSystemEach(accounts: map<string, Account>) {
    forall a, b, c :: IsSystemAccount(accounts, a, c) && IsSystemAccount(accounts, b, c) ==> a == b
  }

  /** One system account a currency, without owner; every other account has an owner. */
  ghost predicate SystemAccountsSet(accounts: map<string, Account>) {
    && (forall c: Currency :: SystemAccount(accounts, c).Some?)
    && OneSystemEach(accounts)
    && (forall id | id in accounts :: accounts[id].isSystem <==> accounts[id].owner.None?)
  }

  /** Everything about an account except its balance is fixed when the account is created. */
  ghost predicate SameHolders(a: map<string, Account>, b: map<string, Account>) {
    && (forall id | id in a :: id in b && b[id] == a[id].(balance := b[id].balance))
    && (forall id | id in b && id !in a :: !b[id].isSystem && b[id].owner.Some?)
  }

  lemma ApplyKeepsHolders(db: Database, w: Write)
    ensures SameHolders(db.accounts, Apply(db, w).accounts)
  {
  }

  lemma {:induction false} ApplyAllKeepsHolders(db: Database, ws: seq<Write>)
    ensures SameHolders(db.accounts, ApplyAll(db, ws).accounts)
  {
    if ws != [] {
      ApplyAllKeepsHolders(db, ws[..|ws| - 1]);
      ApplyKeepsHolders(ApplyAll(db, ws[..|ws| - 1]), ws[|ws| - 1]);
    }
  }

  lemma HoldersKeepSystem(a: map<string, Account>, b: map<string, Account>)
    requires SystemAccountsSet(a) && SameHolders(a, b)
    ensures SystemAccountsSet(b)
    ensures forall c :: SystemAccount(a, c) == SystemAccount(b, c)
  {
    forall c: Currency, id ensures IsSystemAccount(a, id, c) <==> IsSystemAccount(b, id, c) {}
    forall c: Currency ensures SystemAccount(b, c).Some? {
      assert IsSystemAccount(b, SystemAccount(a, c).value, c);
    }
  }
}
