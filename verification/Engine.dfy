/**
 What each operation does to the whole database when it runs alone
 (internal/services/transaction_service.go, the transaction body of Register in internal/handlers/auth.go).
 */
module Engine {
  import opened Wrappers
  import opened Rates
  import opened Tables
  import Decimals
  import Int64

  datatype TransferRequest = TransferRequest(userId: string, fromId: string, toId: string, amount: int,
      requestId: Option<string>)

  datatype QuoteRequest = QuoteRequest(userId: string, fromId: string, toId: string, amount: int)

  datatype ExchangeRequest = ExchangeRequest(
    userId: string, fromId: string, toId: string, amount: int,
    requestId: Option<string>, quoteId: Option<string>, quotedRate: Option<string>)

  /** What Exchange keeps of its quote or quoted rate before the transaction starts; no quote is `""`. */
  datatype Terms = Terms(quoteId: string, rate: Decimals.Decimal, expected: int)

  datatype Registration = Registration(userId: string, username: string, email: string)

  datatype Operation =
    | TransferOp(transfer: TransferRequest)
    | ExchangeOp(exchange: ExchangeRequest, terms: Terms)
    | RegisterOp(registration: Registration)

  /** What one attempt draws from outside: fresh identifiers and the time its transaction began. */
  datatype Attempt = Attempt(txId: string, txId2: string, usdId: string, eurId: string, now: int)

  /** What the caller is told: the transaction id and the balances to broadcast. */
  datatype Receipt =
    | TransferReceipt(transactionId: string, fromBalance: int, toBalance: int, currency: Currency,
        toUser: Option<string>)
    | ExchangeReceipt(transactionId: string, fromBalance: int, toBalance: int, fromCurrency: Currency,
        toCurrency: Currency)
    | RegisterReceipt(userId: string)

  const OPENING_USD: int := 100_000
  const OPENING_EUR: int := 50_000
  const QUOTE_LIFETIME: int := 120

  function SetBalanceOf(accounts: map<string, Account>, id: string, balance: int): map<string, Account> {
    if id in accounts then accounts[id := accounts[id].(balance := balance)] else accounts
  }

  // --------------------------------------------------------------- Transfer

  /** The checks made before a transaction is opened. */
  function AdmitTransfer(req: TransferRequest): Option<Error> {
    if req.amount <= 0 then Some(InvalidAmount)
    else if req.fromId == req.toId then Some(SameAccountTransfer)
    else None
  }

  /** The checks and sums made on the two locked accounts. */
  function PlanTransfer(req: TransferRequest, source: Account, target: Account): Result<(int, int), Error> {
    if source.owner != Some(req.userId) then Err(UnauthorizedAccount)
    else if source.currency != target.currency then Err(CurrencyMismatch)
    else if source.balance < req.amount then Err(InsufficientFunds)
    else Ok((Int64.Wrap(source.balance - req.amount), Int64.Wrap(target.balance + req.amount)))
  }

  function TransferRow(req: TransferRequest, at: Attempt, currency: Currency): Transaction {
    Transaction(at.txId, req.userId, Transfer, req.amount, currency, req.fromId, req.toId, NoMetadata, req.requestId)
  }

  function TransferEntries(req: TransferRequest, at: Attempt, currency: Currency): seq<Entry> {
    [Entry(at.txId, req.fromId, Int64.Wrap(-req.amount), currency), Entry(at.txId, req.toId, req.amount, currency)]
  }

  function TransferAudit(req: TransferRequest, at: Attempt): AuditRow {
    AuditRow(req.userId, "transfer", at.txId)
  }

  function RunTransfer(db: Database, req: TransferRequest, at: Attempt): Result<(Database, Receipt), Error> {
    if req.fromId !in db.accounts || req.toId !in db.accounts then Err(NoRows)
    else
      var source, target := db.accounts[req.fromId], db.accounts[req.toId];
      var plan := PlanTransfer(req, source, target);
      if plan.Err? then Err(plan.error)
      else
        var (newFrom, newTo) := plan.value;
        var row := TransferRow(req, at, source.currency);
        if newFrom < 0 || newTo < 0 || row.amount <= 0 then Err(Postgres(CheckViolation))
        else if IsTaken(db, row) then Err(Postgres(UniqueViolation))
        else
          Ok((db.(accounts := SetBalanceOf(SetBalanceOf(db.accounts, req.fromId, newFrom), req.toId, newTo),
                  transactions := db.transactions + [row],
                  ledger := db.ledger + TransferEntries(req, at, source.currency),
                  audit := db.audit + [TransferAudit(req, at)]),
              TransferReceipt(at.txId, newFrom, newTo, source.currency, target.owner)))
  }

  // --------------------------------------------------------------- QuoteExchange

  /** The quote that would be issued, or why none is. */
  function PlanQuote(db: Database, req: QuoteRequest, now: int): Result<Quote, Error> {
    if req.amount <= 0 then Err(InvalidAmount)
    else if req.fromId == req.toId then Err(InvalidExchangeRequest)
    else if req.fromId !in db.accounts || req.toId !in db.accounts then Err(NoRows)
    else
      var source, target := db.accounts[req.fromId], db.accounts[req.toId];
      if source.owner != Some(req.userId) then Err(UnauthorizedAccount)
      else if source.currency == target.currency || !IsExchangePairAllowed(source.currency, target.currency)
      then Err(InvalidExchangeRequest)
      else
        var rate := DirectionalRate(source.currency, target.currency);
        Ok(Quote(req.userId, req.fromId, req.toId, req.amount, ConvertMinor(req.amount, rate), RateText(rate),
                 source.currency, target.currency, now + QUOTE_LIFETIME, None))
  }

  function RunQuote(db: Database, quoteId: string, req: QuoteRequest, now: int): Result<Database, Error> {
    var quote := PlanQuote(db, req, now);
    if quote.Err? then Err(quote.error)
    else if quote.value.converted <= 0 then Err(Postgres(CheckViolation))
    else if quoteId in db.quotes then Err(Postgres(UniqueViolation))
    else Ok(db.(quotes := db.quotes[quoteId := quote.value]))
  }

  // --------------------------------------------------------------- Exchange

  /** The checks made before the transaction is opened, outside the retried closure. */
  function AdmitExchange(db: Database, req: ExchangeRequest, now: int): Result<Terms, Error> {
    if req.amount <= 0 then Err(InvalidAmount)
    else if req.quoteId.Some? then
      var id := req.quoteId.value;
      if id !in db.quotes then Err(QuoteNotFound)
      else
        var quote := db.quotes[id];
        if quote.consumedAt.Some? then Err(QuoteConsumed)
        else if now > quote.expiresAt then Err(QuoteExpired)
        else if quote.userId != req.userId || quote.fromId != req.fromId || quote.toId != req.toId
        then Err(InvalidExchangeRequest)
        else if quote.amount != req.amount then Err(InvalidExchangeRequest)
        else
          var rate := Decimals.Parse(quote.rate);
          if rate.None? then Err(InvalidExchangeRequest) else Ok(Terms(id, rate.value, quote.converted))
    else if req.quotedRate.Some? then
      var rate := Decimals.Parse(req.quotedRate.value);
      if rate.None? then Err(InvalidExchangeRequest) else Ok(Terms("", rate.value, 0))
    else Err(InvalidExchangeRequest)
  }

  /** What the two user accounts' locks settle. */
  datatype Plan = Plan(converted: int, newFrom: int, newTo: int, source: Currency, target: Currency)

  function PlanExchange(req: ExchangeRequest, terms: Terms, source: Account, target: Account): Result<Plan, Error> {
    if source.owner != Some(req.userId) then Err(UnauthorizedAccount)
    else if source.currency == target.currency || !IsExchangePairAllowed(source.currency, target.currency)
    then Err(InvalidExchangeRequest)
    else
      var rate := DirectionalRate(source.currency, target.currency);
      var converted := ConvertMinor(req.amount, rate);
      if !Decimals.Equal(terms.rate, rate) then Err(RateMismatch)
      else if terms.expected != 0 && terms.expected != converted then Err(RateMismatch)
      else if source.balance < req.amount then Err(InsufficientFunds)
      else
        Ok(Plan(converted, Int64.Wrap(source.balance - req.amount), Int64.Wrap(target.balance + converted),
                source.currency, target.currency))
  }

  /** The two system balances, once their rows are locked as well. */
  function PlanSystem(
    req: ExchangeRequest, plan: Plan, systemFrom: Account, systemTo: Account): Result<(int, int), Error>
  {
    var newSystemFrom := Int64.Wrap(systemFrom.balance + req.amount);
    var newSystemTo := Int64.Wrap(systemTo.balance - plan.converted);
    if newSystemTo < 0 then Err(InsufficientFunds) else Ok((newSystemFrom, newSystemTo))
  }

  function ExchangeRow(req: ExchangeRequest, terms: Terms, at: Attempt, plan: Plan): Transaction {
    Transaction(at.txId, req.userId, Exchange, req.amount, plan.source, req.fromId, req.toId,
                ExchangeTerms(RateText(DirectionalRate(plan.source, plan.target)), terms.quoteId), req.requestId)
  }

  function ExchangeEntries(
    req: ExchangeRequest, at: Attempt, plan: Plan, systemFromId: string, systemToId: string): seq<Entry>
  {
    [Entry(at.txId, req.fromId, Int64.Wrap(-req.amount), plan.source),
     Entry(at.txId, systemFromId, req.amount, plan.source),
     Entry(at.txId, systemToId, Int64.Wrap(-plan.converted), plan.target),
     Entry(at.txId, req.toId, plan.converted, plan.target)]
  }

  function ExchangeAudit(req: ExchangeRequest, at: Attempt): AuditRow {
    AuditRow(req.userId, "exchange", at.txId)
  }

  /** The four absolute balances, in the order the code writes them. */
  function ExchangedAccounts(
    accounts: map<string, Account>, req: ExchangeRequest, plan: Plan,
    systemFromId: string, systemToId: string, systemBalances: (int, int)): map<string, Account>
  {
    var users := SetBalanceOf(SetBalanceOf(accounts, req.fromId, plan.newFrom), req.toId, plan.newTo);
    SetBalanceOf(SetBalanceOf(users, systemFromId, systemBalances.0), systemToId, systemBalances.1)
  }

  /** An exchange whose system rows are known and locked. */
  function SettleExchange(
    db: Database, req: ExchangeRequest, terms: Terms, at: Attempt, plan: Plan,
    systemFromId: string, systemToId: string): Result<(Database, Receipt), Error>
    requires systemFromId in db.accounts && systemToId in db.accounts
  {
    var system := PlanSystem(req, plan, db.accounts[systemFromId], db.accounts[systemToId]);
    var row := ExchangeRow(req, terms, at, plan);
    if system.Err? then Err(system.error)
    else if plan.newFrom < 0 || plan.newTo < 0 || system.value.0 < 0 || row.amount <= 0
    then Err(Postgres(CheckViolation))
    else if IsTaken(db, row) then Err(Postgres(UniqueViolation))
    else if plan.converted == 0 then Err(Postgres(CheckViolation))
    else if terms.quoteId != "" && !Redeemable(db, terms.quoteId, at.now) then Err(QuoteConsumed)
    else
      Ok((db.(accounts := ExchangedAccounts(db.accounts, req, plan, systemFromId, systemToId, system.value),
              transactions := db.transactions + [row],
              ledger := db.ledger + ExchangeEntries(req, at, plan, systemFromId, systemToId),
              audit := db.audit + [ExchangeAudit(req, at)],
              quotes := if terms.quoteId == "" then db.quotes else ConsumedQuotes(db.quotes, terms.quoteId, at.now)),
          ExchangeReceipt(at.txId, plan.newFrom, plan.newTo, plan.source, plan.target)))
  }

  predicate Redeemable(db: Database, quoteId: string, now: int) {
    quoteId in db.quotes && db.quotes[quoteId].consumedAt.None? && db.quotes[quoteId].expiresAt > now
  }

  function ConsumedQuotes(quotes: map<string, Quote>, quoteId: string, now: int): map<string, Quote> {
    if quoteId in quotes then quotes[quoteId := quotes[quoteId].(consumedAt := Some(now))] else quotes
  }

  ghost function RunExchange(
    db: Database, req: ExchangeRequest, terms: Terms, at: Attempt): Result<(Database, Receipt), Error>
  {
    if req.fromId !in db.accounts || req.toId !in db.accounts then Err(NoRows)
    else
      var plan := PlanExchange(req, terms, db.accounts[req.fromId], db.accounts[req.toId]);
      if plan.Err? then Err(plan.error)
      else
        var systemFrom, systemTo :=
            SystemAccount(db.accounts, plan.value.source), SystemAccount(db.accounts, plan.value.target);
        if systemFrom.None? || systemTo.None? then Err(NoRows)
        else SettleExchange(db, req, terms, at, plan.value, systemFrom.value, systemTo.value)
  }

  // --------------------------------------------------------------- Register

  function OpeningRow(
    reg: Registration, txId: string, systemId: string, accountId: string, currency: Currency, amount: int): Transaction
  {
    Transaction(txId, reg.userId, Transfer, amount, currency, systemId, accountId, OpeningBalance, None)
  }

  function OpeningEntries(
    txId: string, systemId: string, accountId: string, currency: Currency, amount: int): seq<Entry>
  {
    [Entry(txId, systemId, -amount, currency), Entry(txId, accountId, amount, currency)]
  }

  /** `createOpeningBalance`: ledger entries first, then a relative update of the system account. */
  function RunOpening(
    view: Database, reg: Registration, txId: string, systemId: string, accountId: string,
    currency: Currency, amount: int): Result<Database, Error>
    requires systemId in view.accounts && amount > 0
  {
    var row := OpeningRow(reg, txId, systemId, accountId, currency, amount);
    var balance := view.accounts[systemId].balance - amount;
    if IsTaken(view, row) then Err(Postgres(UniqueViolation))
    else if !Int64.Fits(balance) then Err(Postgres(OutOfRange))
    else if balance < 0 then Err(Postgres(CheckViolation))
    else
      Ok(view.(transactions := view.transactions + [row],
               ledger := view.ledger + OpeningEntries(txId, systemId, accountId, currency, amount),
               accounts := SetBalanceOf(view.accounts, systemId, balance)))
  }

  function RegisteredUser(reg: Registration): User {
    User(reg.userId, reg.username, reg.email)
  }

  /** The user and the two accounts, created with their balances already on them. */
  function WithAccounts(db: Database, reg: Registration, at: Attempt): Database {
    db.(users := db.users + [RegisteredUser(reg)],
        accounts := db.accounts[at.usdId := Account(Some(reg.userId), USD, OPENING_USD, false)]
                               [at.eurId := Account(Some(reg.userId), EUR, OPENING_EUR, false)])
  }

  /** What the unique indexes refuse of a registration. */
  predicate Conflicts(db: Database, reg: Registration, at: Attempt) {
    || Lookup(db, UserId(reg.userId)).taken || Lookup(db, Username(reg.username)).taken
    || Lookup(db, Email(reg.email)).taken
    || at.usdId in db.accounts || at.eurId in db.accounts || at.usdId == at.eurId
  }

  ghost function RunRegister(db: Database, reg: Registration, at: Attempt): Result<(Database, Receipt), Error> {
    if Conflicts(db, reg, at) then Err(Postgres(UniqueViolation))
    else
      var view := WithAccounts(db, reg, at);
      var systemUsd, systemEur := SystemAccount(db.accounts, USD), SystemAccount(db.accounts, EUR);
      if systemUsd.None? then Err(NoRows)
      else
        var afterUsd := RunOpening(view, reg, at.txId, systemUsd.value, at.usdId, USD, OPENING_USD);
        if afterUsd.Err? then Err(afterUsd.error)
        else if systemEur.None? then Err(NoRows)
        else
          var afterEur := RunOpening(afterUsd.value, reg, at.txId2, systemEur.value, at.eurId, EUR, OPENING_EUR);
          if afterEur.Err? then Err(afterEur.error)
          else
            Ok((afterEur.value.(audit := afterEur.value.audit + [AuditRow(reg.userId, "register", reg.userId)]),
                RegisterReceipt(reg.userId)))
  }

  /** Any operation, run alone. */
  ghost function RunOperation(db: Database, op: Operation, at: Attempt): Result<(Database, Receipt), Error> {
    match op
    case TransferOp(req) => RunTransfer(db, req, at)
    case ExchangeOp(req, terms) => RunExchange(db, req, terms, at)
    case RegisterOp(reg) => RunRegister(db, reg, at)
  }
}
