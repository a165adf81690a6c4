/**
 The transaction bodies statement by statement: what each step locks, reads and writes, and why a body's
 steps depend on nothing but the keys it has locked.
 */
module Programs {
  import opened Wrappers
  import opened Rates
  import opened Tables
  import opened Engine
  import opened Order

  /** Where a transaction body stands: the next thing it does and the locals it has. */
  datatype Proc =
    | TransferLeft(transfer: TransferRequest, at: Attempt)
    | TransferRight(transfer: TransferRequest, at: Attempt, left: Account)
    | ExchangeLeft(exchange: ExchangeRequest, terms: Terms, at: Attempt)
    | ExchangeRight(exchange: ExchangeRequest, terms: Terms, at: Attempt, left: Account)
    | FindSystemFrom(exchange: ExchangeRequest, terms: Terms, at: Attempt, plan: Plan)
    | FindSystemTo(exchange: ExchangeRequest, terms: Terms, at: Attempt, plan: Plan, systemFromId: string)
    | SystemLeft(exchange: ExchangeRequest, terms: Terms, at: Attempt, plan: Plan, systemFromId: string,
        systemToId: string)
    | SystemRight(exchange: ExchangeRequest, terms: Terms, at: Attempt, plan: Plan, systemFromId: string,
        systemToId: string, left: Account)
    | Opening(registration: Registration, at: Attempt, currency: Currency)
    | Issue(statements: seq<Statement>, next: Proc)
    | Succeeded(receipt: Receipt)
    | Failed(error: Error)

  /** An open transaction: its place, its uncommitted writes, and the keys it holds. */
  datatype Tx = Tx(proc: Proc, writes: seq<Write>, held: set<Key>)

  predicate Ended(proc: Proc) {
    proc.Succeeded? || proc.Failed?
  }

  // --------------------------------------------------------------- the bodies

  function Inserts(entries: seq<Entry>): seq<Statement> {
    seq(|entries|, i requires 0 <= i < |entries| => InsertEntry(entries[i]))
  }

  function TransferStatements(
    req: TransferRequest, at: Attempt, currency: Currency, newFrom: int, newTo: int): seq<Statement>
  {
    [UpdateBalance(req.fromId, newFrom), UpdateBalance(req.toId, newTo),
        InsertTransaction(TransferRow(req, at, currency))]
    + Inserts(TransferEntries(req, at, currency)) + [InsertAudit(TransferAudit(req, at))]
  }

  function ExchangeUpdates(
    req: ExchangeRequest, plan: Plan, systemFromId: string, systemToId: string, system: (int, int)): seq<Statement>
  {
    [UpdateBalance(req.fromId, plan.newFrom), UpdateBalance(req.toId, plan.newTo)]
    + [UpdateBalance(systemFromId, system.0), UpdateBalance(systemToId, system.1)]
  }

  /** `Consume`, when the exchange has a quote. */
  function ConsumeStatements(terms: Terms, now: int): seq<Statement> {
    if terms.quoteId == "" then [] else [ConsumeQuote(terms.quoteId, now)]
  }

  function ExchangeStatements(
    req: ExchangeRequest, terms: Terms, at: Attempt, plan: Plan, systemFromId: string, systemToId: string,
    system: (int, int)): seq<Statement>
  {
    ExchangeUpdates(req, plan, systemFromId, systemToId, system)
        + [InsertTransaction(ExchangeRow(req, terms, at, plan))]
    + Inserts(ExchangeEntries(req, at, plan, systemFromId, systemToId)) + [InsertAudit(ExchangeAudit(req, at))]
    + ConsumeStatements(terms, at.now)
  }

  function OpeningStatements(
    reg: Registration, txId: string, systemId: string, accountId: string, currency: Currency, amount: int)
    : seq<Statement>
  {
    [InsertTransaction(OpeningRow(reg, txId, systemId, accountId, currency, amount))]
    + Inserts(OpeningEntries(txId, systemId, accountId, currency, amount)) + [AdjustBalance(systemId, -amount)]
  }

  function RegisterStatements(reg: Registration, at: Attempt): seq<Statement> {
    [InsertUser(RegisteredUser(reg)), InsertAccount(at.usdId, reg.userId, USD, OPENING_USD),
        InsertAccount(at.eurId, reg.userId, EUR, OPENING_EUR)]
  }

  function Start(op: Operation, at: Attempt): Proc {
    match op
    case TransferOp(req) => TransferLeft(req, at)
    case ExchangeOp(req, terms) => ExchangeLeft(req, terms, at)
    case RegisterOp(reg) => Issue(RegisterStatements(reg, at), Opening(reg, at, USD))
  }

  /** The keys the next step must hold. */
  function Needs(proc: Proc): set<Key> {
    match proc
    case TransferLeft(req, _) => {AccountRow(OrderedIDs(req.fromId, req.toId).0)}
    case TransferRight(req, _, _) => {AccountRow(OrderedIDs(req.fromId, req.toId).1)}
    case ExchangeLeft(req, _, _) => {AccountRow(OrderedIDs(req.fromId, req.toId).0)}
    case ExchangeRight(req, _, _, _) => {AccountRow(OrderedIDs(req.fromId, req.toId).1)}
    case SystemLeft(_, _, _, _, a, b) => {AccountRow(OrderedIDs(a, b).0)}
    case SystemRight(_, _, _, _, a, b, _) => {AccountRow(OrderedIDs(a, b).1)}
    case Issue(statements, _) => if statements == [] then {} else Keys(statements[0])
    case _ => {}
  }

  /** `GetForUpdate` of one of the rows a step needs. */
  function Read(view: Database, id: string): Option<Account> {
    if id in view.accounts then Some(view.accounts[id]) else None
  }

  /** The row count of a quote's consumption is checked, that of other updates is not. */
  function Outcome(view: Database, s: Statement): Result<Option<Write>, Error> {
    var r := Execute(view, s);
    if r.Ok? && r.value.None? && s.ConsumeQuote? then Err(QuoteConsumed) else r
  }

  function AfterTransferLocks(req: TransferRequest, at: Attempt, source: Account, target: Account): Proc {
    var plan := PlanTransfer(req, source, target);
    if plan.Err? then Failed(plan.error)
    else
      var (newFrom, newTo) := plan.value;
      Issue(TransferStatements(req, at, source.currency, newFrom, newTo),
            Succeeded(TransferReceipt(at.txId, newFrom, newTo, source.currency, target.owner)))
  }

  function AfterExchangeLocks(req: ExchangeRequest, terms: Terms, at: Attempt, source: Account, target: Account): Proc {
    var plan := PlanExchange(req, terms, source, target);
    if plan.Err? then Failed(plan.error) else FindSystemFrom(req, terms, at, plan.value)
  }

  function AfterSystemLocks(
    req: ExchangeRequest, terms: Terms, at: Attempt, plan: Plan, systemFromId: string, systemToId: string,
    systemFrom: Account, systemTo: Account): Proc
  {
    var system := PlanSystem(req, plan, systemFrom, systemTo);
    if system.Err? then Failed(system.error)
    else
      Issue(ExchangeStatements(req, terms, at, plan, systemFromId, systemToId, system.value),
            Succeeded(ExchangeReceipt(at.txId, plan.newFrom, plan.newTo, plan.source, plan.target)))
  }

  /** `lockTwoAccounts` hands the two rows back in the order the caller named them. */
  function AsNamed(firstId: string, secondId: string, left: Account, right: Account): (Account, Account) {
    if firstId == OrderedIDs(firstId, secondId).0 then (left, right) else (right, left)
  }

  /**
   One step. Rows are read through the transaction's own view; `GetSystemAccount` goes to the database
   outside the transaction.
   */
  ghost function Next(db: Database, view: Database, proc: Proc): (Proc, Option<Write>) {
    match proc
    case TransferLeft(req, at) =>
      var row := Read(view, OrderedIDs(req.fromId, req.toId).0);
      (if row.None? then Failed(NoRows) else TransferRight(req, at, row.value), None)
    case TransferRight(req, at, left) =>
      var row := Read(view, OrderedIDs(req.fromId, req.toId).1);
      if row.None? then (Failed(NoRows), None)
      else
        var (source, target) := AsNamed(req.fromId, req.toId, left, row.value);
        (AfterTransferLocks(req, at, source, target), None)
    case ExchangeLeft(req, terms, at) =>
      var row := Read(view, OrderedIDs(req.fromId, req.toId).0);
      (if row.None? then Failed(NoRows) else ExchangeRight(req, terms, at, row.value), None)
    case ExchangeRight(req, terms, at, left) =>
      var row := Read(view, OrderedIDs(req.fromId, req.toId).1);
      if row.None? then (Failed(NoRows), None)
      else
        var (source, target) := AsNamed(req.fromId, req.toId, left, row.value);
        (AfterExchangeLocks(req, terms, at, source, target), None)
    case FindSystemFrom(req, terms, at, plan) =>
      var id := SystemAccount(db.accounts, plan.source);
      (if id.None? then Failed(NoRows) else FindSystemTo(req, terms, at, plan, id.value), None)
    case FindSystemTo(req, terms, at, plan, systemFromId) =>
      var id := SystemAccount(db.accounts, plan.target);
      (if id.None? then Failed(NoRows) else SystemLeft(req, terms, at, plan, systemFromId, id.value), None)
    case SystemLeft(req, terms, at, plan, a, b) =>
      var row := Read(view, OrderedIDs(a, b).0);
      (if row.None? then Failed(NoRows) else SystemRight(req, terms, at, plan, a, b, row.value), None)
    case SystemRight(req, terms, at, plan, a, b, left) =>
      var row := Read(view, OrderedIDs(a, b).1);
      if row.None? then (Failed(NoRows), None)
      else
        var (systemFrom, systemTo) := AsNamed(a, b, left, row.value);
        (AfterSystemLocks(req, terms, at, plan, a, b, systemFrom, systemTo), None)
    case Opening(reg, at, currency) =>
      var id := SystemAccount(db.accounts, currency);
      if id.None? then (Failed(NoRows), None)
      else if currency == USD then
        (Issue(OpeningStatements(reg, at.txId, id.value, at.usdId, USD, OPENING_USD), Opening(reg, at, EUR)), None)
      else
        var event := AuditRow(reg.userId, "register", reg.userId);
        (Issue(OpeningStatements(reg, at.txId2, id.value, at.eurId, EUR, OPENING_EUR) + [InsertAudit(event)],
               Succeeded(RegisterReceipt(reg.userId))), None)
    case Issue(statements, next) =>
      if statements == [] then (next, None)
      else
        var r := Outcome(view, statements[0]);
        if r.Err? then (Failed(r.error), None) else (Issue(statements[1..], next), r.value)
    case Succeeded(_) => (proc, None)
    case Failed(_) => (proc, None)
  }

  function Appended(writes: seq<Write>, w: Option<Write>): seq<Write> {
    if w.Some? then writes + [w.value] else writes
  }

  ghost function Advance(db: Database, tx: Tx): Tx {
    var (proc, w) := Next(db, ApplyAll(db, tx.writes), tx.proc);
    Tx(proc, Appended(tx.writes, w), tx.held + Needs(tx.proc))
  }

  /** The first `n` steps of a body that has the database to itself. */
  ghost function Solo(db: Database, start: Proc, n: nat): Tx {
    if n == 0 then Tx(start, [], {}) else Advance(db, Solo(db, start, n - 1))
  }

  // --------------------------------------------------------------- what the steps depend on

  /** Two databases look alike to whoever holds `held`. */
  ghost predicate Alike(a: Database, b: Database, held: set<Key>) {
    && (forall c :: SystemAccount(a.accounts, c) == SystemAccount(b.accounts, c))
    && (forall k | k in held :: Lookup(a, k) == Lookup(b, k))
  }

  lemma NextReadsNeeds(a: Database, b: Database, va: Database, vb: Database, proc: Proc)
    requires forall c :: SystemAccount(a.accounts, c) == SystemAccount(b.accounts, c)
    requires forall k | k in Needs(proc) :: Lookup(va, k) == Lookup(vb, k)
    ensures Next(a, va, proc) == Next(b, vb, proc)
  {
    match proc
    case TransferLeft(req, _) => assert AccountRow(OrderedIDs(req.fromId, req.toId).0) in Needs(proc);
    case TransferRight(req, _, _) => assert AccountRow(OrderedIDs(req.fromId, req.toId).1) in Needs(proc);
    case ExchangeLeft(req, _, _) => assert AccountRow(OrderedIDs(req.fromId, req.toId).0) in Needs(proc);
    case ExchangeRight(req, _, _, _) => assert AccountRow(OrderedIDs(req.fromId, req.toId).1) in Needs(proc);
    case SystemLeft(_, _, _, _, i, j) => assert AccountRow(OrderedIDs(i, j).0) in Needs(proc);
    case SystemRight(_, _, _, _, i, j, _) => assert AccountRow(OrderedIDs(i, j).1) in Needs(proc);
    case Issue(statements, _) =>
      if statements != [] {
        ExecuteReadsKeys(va, vb, statements[0]);
      }
    case _ =>
  }

  lemma AdvanceFrame(a: Database, b: Database, tx: Tx)
    requires Alike(a, b, tx.held + Needs(tx.proc))
    ensures Advance(a, tx) == Advance(b, tx)
  {
    forall k | k in Needs(tx.proc) ensures Lookup(ApplyAll(a, tx.writes), k) == Lookup(ApplyAll(b, tx.writes), k) {
      LookupAfterAll(a, b, tx.writes, k);
    }
    NextReadsNeeds(a, b, ApplyAll(a, tx.writes), ApplyAll(b, tx.writes), tx.proc);
  }

  lemma AdvanceHolds(db: Database, tx: Tx)
    ensures Advance(db, tx).held == tx.held + Needs(tx.proc)
  {
  }

  /** A body behaves the same on databases that agree on the keys it has locked. */
  lemma {:induction false} SoloFrame(a: Database, b: Database, start: Proc, n: nat)
    requires Alike(a, b, Solo(a, start, n).held)
    ensures Solo(a, start, n) == Solo(b, start, n)
  {
    hide Next, Needs;
    if n > 0 {
      AdvanceHolds(a, Solo(a, start, n - 1));
      SoloFrame(a, b, start, n - 1);
      AdvanceFrame(a, b, Solo(a, start, n - 1));
    }
  }

  ghost predicate WritesWithin(writes: seq<Write>, held: set<Key>) {
    forall w | w in writes :: WriteKeys(w) <= held
  }

  lemma AdvanceWritesHeld(db: Database, tx: Tx)
    requires WritesWithin(tx.writes, tx.held)
    ensures WritesWithin(Advance(db, tx).writes, Advance(db, tx).held)
  {
  }

  /** A body only writes what it has locked. */
  lemma {:induction false} SoloWritesHeld(db: Database, start: Proc, n: nat)
    ensures WritesWithin(Solo(db, start, n).writes, Solo(db, start, n).held)
  {
    hide Advance;
    if n > 0 {
      SoloWritesHeld(db, start, n - 1);
      AdvanceWritesHeld(db, Solo(db, start, n - 1));
    }
  }

  lemma AdvanceEnded(db: Database, tx: Tx)
    requires Ended(tx.proc)
    ensures Advance(db, tx) == tx
  {
  }

  /** Once ended, a body stays as it is. */
  lemma {:induction false} EndedStays(db: Database, start: Proc, n: nat, m: nat)
    requires n <= m && Ended(Solo(db, start, n).proc)
    ensures Solo(db, start, m) == Solo(db, start, n)
  {
    hide Advance;
    if n < m {
      EndedStays(db, start, n, m - 1);
      AdvanceEnded(db, Solo(db, start, m - 1));
    }
  }
}
