/**
 Deadlock. Rows are locked in increasing rank: the names a registration claims, user accounts before system
 accounts and each kind by id, the new transaction's index keys, then the quote. Keys an attempt draws afresh
 are contended by nobody. A registration pays from the USD system account and then from the EUR one, whatever
 their ids, so it keeps the order only when the USD account has the smaller id.
 */
module Deadlock {
  import opened Rates
  import opened Tables
  import opened Engine
  import opened Order
  import opened Books
  import opened Histories
  import opened Programs
  import opened Interleaved
  import opened Runs

  function Class(start: Database, key: Key): nat {
    match key
    case AccountRow(id) => if IsSystemIn(start, id) then 2 else 1
    case TransactionId(_) => 3
    case RequestKey(_, _) => 3
    case QuoteRow(_) => 4
    case _ => 0
  }

  /** The rank by which keys are taken. */
  predicate Below(start: Database, a: Key, b: Key) {
    || Class(start, a) < Class(start, b)
    || (Class(start, a) == Class(start, b) && a.AccountRow? && b.AccountRow? && Less(a.id, b.id))
  }

  lemma BelowIsStrictOrder(start: Database, a: Key, b: Key, c: Key)
    ensures !Below(start, a, a)
    ensures Below(start, a, b) && Below(start, b, c) ==> Below(start, a, c)
  {
    if Below(start, a, b) && Below(start, b, c) && a.AccountRow? && b.AccountRow? && c.AccountRow? && Less(a.id, b.id)
        && Less(b.id, c.id) {
      LessTransitive(a.id, b.id, c.id);
    }
  }

  /** The USD system account has the smaller id. */
  ghost predicate SystemsInOrder(start: Database) {
    forall a, b :: IsSystemAccount(start.accounts, a, USD) && IsSystemAccount(start.accounts, b, EUR) ==> Less(a, b)
  }

  /** The accounts an operation names. */
  function Named(op: Operation): set<string> {
    match op
    case TransferOp(req) => {req.fromId, req.toId}
    case ExchangeOp(req, _) => {req.fromId, req.toId}
    case RegisterOp(_) => {}
  }

  /** Operations that name no system account; registrations only where the system accounts are in order. */
  ghost predicate BetweenUsers(start: Database, op: Operation) {
    && (forall id | id in Named(op) :: !IsSystemIn(start, id))
    && (op.RegisterOp? ==> SystemsInOrder(start))
  }

  /** The keys made of identifiers an attempt drew for itself. */
  function Private(at: Attempt): set<Key> {
    {AccountRow(at.usdId), AccountRow(at.eurId), TransactionId(at.txId), TransactionId(at.txId2)}
  }

  // --------------------------------------------------------------- the order within one body

  /** A key an attempt may need: its own, a system account's row, or one its operation names. */
  predicate Within(start: Database, op: Operation, at: Attempt, k: Key) {
    match k
    case AccountRow(id) => IsSystemIn(start, id) || id in Named(op) || k in Private(at)
    case TransactionId(_) => k in Private(at)
    case _ => true
  }

  /** Keys asked for while others are held: each is above whatever is held and not the attempt's own. */
  predicate Asks(start: Database, op: Operation, at: Attempt, held: set<Key>, needed: set<Key>) {
    && (forall n | n in needed :: Within(start, op, at, n))
    && (forall h, n | h in held && h !in Private(at) && n in needed && n !in held :: Below(start, h, n))
  }

  /** What a registration holds when it turns to a currency's system account. */
  ghost predicate HoldsNames(start: Database, at: Attempt, held: set<Key>, currency: Currency) {
    forall h | h in held && h !in Private(at) ::
      Class(start, h) == 0 || (currency == EUR && h.AccountRow? && IsSystemAccount(start.accounts, h.id, USD))
  }

  ghost predicate ReadyFor(start: Database, op: Operation, at: Attempt, held: set<Key>, next: Proc) {
    match next
    case Opening(reg, a, currency) => op == RegisterOp(reg) && a == at && HoldsNames(start, at, held, currency)
    case _ => Ended(next)
  }

  /** Statements that ask in order, one after the other. */
  ghost predicate Orderly(
    start: Database, op: Operation, at: Attempt, held: set<Key>, statements: seq<Statement>, next: Proc)
    decreases |statements|
  {
    if statements == [] then ReadyFor(start, op, at, held, next)
    else
      && Asks(start, op, at, held, Keys(statements[0]))
      && Orderly(start, op, at, held + Keys(statements[0]), statements[1..], next)
  }

  /** The rows of the two accounts an exchange names, and nothing else. */
  predicate HoldsBoth(held: set<Key>, req: ExchangeRequest) {
    held == {AccountRow(req.fromId), AccountRow(req.toId)}
  }

  /** Where a body stands and what it then holds. */
  ghost predicate Disciplined(start: Database, op: Operation, at: Attempt, proc: Proc, held: set<Key>) {
    match proc
    case TransferLeft(req, a) => op == TransferOp(req) && a == at && held == {}
    case TransferRight(req, a, _) => op == TransferOp(req) && a == at
        && held == {AccountRow(OrderedIDs(req.fromId, req.toId).0)}
    case ExchangeLeft(req, terms, a) => op == ExchangeOp(req, terms) && a == at && held == {}
    case ExchangeRight(req, terms, a, _) =>
      op == ExchangeOp(req, terms) && a == at && held == {AccountRow(OrderedIDs(req.fromId, req.toId).0)}
    case FindSystemFrom(req, terms, a, _) => op == ExchangeOp(req, terms) && a == at && HoldsBoth(held, req)
    case FindSystemTo(req, terms, a, _, x) => op == ExchangeOp(req, terms) && a == at && HoldsBoth(held, req)
        && IsSystemIn(start, x)
    case SystemLeft(req, terms, a, _, x, y) =>
      op == ExchangeOp(req, terms) && a == at && HoldsBoth(held, req) && IsSystemIn(start, x) && IsSystemIn(start, y)
    case SystemRight(req, terms, a, _, x, y, _) =>
      && op == ExchangeOp(req, terms) && a == at && IsSystemIn(start, x) && IsSystemIn(start, y)
      && held == {AccountRow(req.fromId), AccountRow(req.toId), AccountRow(OrderedIDs(x, y).0)}
    case Opening(_, _, _) => ReadyFor(start, op, at, held, proc)
    case Issue(statements, next) => Orderly(start, op, at, held, statements, next)
    case Succeeded(_) => true
    case Failed(_) => true
  }

  /** A disciplined body only ever asks for keys above those it shares with others and holds. */
  lemma NeedsAreAbove(start: Database, op: Operation, at: Attempt, proc: Proc, held: set<Key>)
    requires Disciplined(start, op, at, proc, held) && BetweenUsers(start, op)
    ensures Asks(start, op, at, held, Needs(proc))
  {
    match proc
    case TransferRight(req, _, _) => OrderedIDsAgree(req.fromId, req.toId);
    case TransferLeft(req, _) => OrderedIDsAgree(req.fromId, req.toId);
    case ExchangeRight(req, _, _, _) => OrderedIDsAgree(req.fromId, req.toId);
    case ExchangeLeft(req, _, _) => OrderedIDsAgree(req.fromId, req.toId);
    case SystemLeft(_, _, _, _, x, y) => OrderedIDsAgree(x, y);
    case SystemRight(_, _, _, _, x, y, _) => OrderedIDsAgree(x, y);
    case _ =>
  }

  // --------------------------------------------------------------- the statements of each body are in order

  lemma OrderlyFirst(
    start: Database, op: Operation, at: Attempt, held: set<Key>, s: Statement, rest: seq<Statement>, next: Proc)
    requires Asks(start, op, at, held, Keys(s)) && Orderly(start, op, at, held + Keys(s), rest, next)
    ensures Orderly(start, op, at, held, [s] + rest, next)
  {
  }

  /** Statements on rows already held ask for nothing. */
  lemma {:induction false} OrderlyHeld(
    start: Database, op: Operation, at: Attempt, held: set<Key>, first: seq<Statement>, rest: seq<Statement>,
    next: Proc)
    requires forall s | s in first :: Keys(s) <= held && forall k | k in Keys(s) :: Within(start, op, at, k)
    requires Orderly(start, op, at, held, rest, next)
    ensures Orderly(start, op, at, held, first + rest, next)
    decreases |first|
  {
    hide Within, Keys, Below;
    if first == [] {
      assert first + rest == rest;
    } else {
      OrderlyHeld(start, op, at, held, first[1..], rest, next);
      assert first + rest == [first[0]] + (first[1..] + rest);
      assert held + Keys(first[0]) == held;
      OrderlyFirst(start, op, at, held, first[0], first[1..] + rest, next);
    }
  }

  /** The new transaction's keys come after every account row. */
  lemma AsksForRow(start: Database, op: Operation, at: Attempt, held: set<Key>, row: Transaction)
    requires TransactionId(row.id) in Private(at)
    requires forall h | h in held && h !in Private(at) :: Class(start, h) <= 2
    ensures Asks(start, op, at, held, Keys(InsertTransaction(row)))
  {
  }

  lemma TransferOrderly(
    start: Database, req: TransferRequest, at: Attempt, held: set<Key>, currency: Currency, newFrom: int, newTo: int,
    receipt: Receipt)
    requires held == {AccountRow(req.fromId), AccountRow(req.toId)}
    ensures Orderly(start, TransferOp(req), at, held, TransferStatements(req, at, currency, newFrom, newTo),
            Succeeded(receipt))
  {
    hide Asks, Orderly, Inserts, TransferEntries, TransferAudit;
    var op, row := TransferOp(req), TransferRow(req, at, currency);
    var updates := [UpdateBalance(req.fromId, newFrom), UpdateBalance(req.toId, newTo)];
    var log := Inserts(TransferEntries(req, at, currency)) + [InsertAudit(TransferAudit(req, at))];
    LogIsQuiet(TransferEntries(req, at, currency), TransferAudit(req, at));
    QuietOrderly(start, op, at, held + Keys(InsertTransaction(row)), receipt);
    AsksForRow(start, op, at, held, row);
    var after := held + Keys(InsertTransaction(row));
    OrderlyHeld(start, op, at, after, log, [], Succeeded(receipt));
    assert log + [] == log;
    OrderlyFirst(start, op, at, held, InsertTransaction(row), log, Succeeded(receipt));
    OrderlyHeld(start, op, at, held, updates, [InsertTransaction(row)] + log, Succeeded(receipt));
    assert TransferStatements(req, at, currency, newFrom, newTo) == updates + ([InsertTransaction(row)] + log);
  }

  lemma ExchangeOrderly(
    start: Database, req: ExchangeRequest, terms: Terms, at: Attempt, held: set<Key>, plan: Plan, x: string, y: string,
    system: (int, int), receipt: Receipt)
    requires held == {AccountRow(req.fromId), AccountRow(req.toId), AccountRow(x), AccountRow(y)}
    requires IsSystemIn(start, x) && IsSystemIn(start, y)
    ensures Orderly(start, ExchangeOp(req, terms), at, held, ExchangeStatements(req, terms, at, plan, x, y, system),
            Succeeded(receipt))
  {
    hide Asks, Keys, Within, Orderly, Inserts, ExchangeUpdates, ConsumeStatements, ExchangeEntries;
    var op, row := ExchangeOp(req, terms), ExchangeRow(req, terms, at, plan);
    var updates := ExchangeUpdates(req, plan, x, y, system);
    var log := Inserts(ExchangeEntries(req, at, plan, x, y)) + [InsertAudit(ExchangeAudit(req, at))];
    var record := [InsertTransaction(row)] + (log + ConsumeStatements(terms, at.now));
    RecordOrderly(start, op, at, held, row, ExchangeEntries(req, at, plan, x, y), ExchangeAudit(req, at), terms,
        receipt);
    UpdatesAreHeld(start, req, terms, at, held, plan, x, y, system);
    OrderlyHeld(start, op, at, held, updates, record, Succeeded(receipt));
    assert ExchangeStatements(req, terms, at, plan, x, y, system) == updates + record;
  }

  lemma RecordOrderly(
    start: Database, op: Operation, at: Attempt, held: set<Key>, row: Transaction, entries: seq<Entry>, event: AuditRow,
    terms: Terms, receipt: Receipt)
    requires row.id == at.txId && forall h | h in held :: Class(start, h) <= 2
    ensures Orderly(start, op, at, held, [InsertTransaction(row)]
            + (Inserts(entries) + [InsertAudit(event)] + ConsumeStatements(terms, at.now)), Succeeded(receipt))
  {
    hide Asks, Within, Inserts, Orderly;
    var log, consume := Inserts(entries) + [InsertAudit(event)], ConsumeStatements(terms, at.now);
    var after := held + Keys(InsertTransaction(row));
    ConsumeOrderly(start, op, at, after, terms, receipt);
    LogIsQuiet(entries, event);
    OrderlyHeld(start, op, at, after, log, consume, Succeeded(receipt));
    AsksForRow(start, op, at, held, row);
    OrderlyFirst(start, op, at, held, InsertTransaction(row), log + consume, Succeeded(receipt));
  }

  lemma QuietOrderly(start: Database, op: Operation, at: Attempt, held: set<Key>, receipt: Receipt)
    ensures Orderly(start, op, at, held, [], Succeeded(receipt))
  {
  }

  lemma LogIsQuiet(entries: seq<Entry>, event: AuditRow)
    ensures forall s | s in Inserts(entries) + [InsertAudit(event)] :: Keys(s) == {}
  {
  }

  lemma UpdatesAreHeld(
    start: Database, req: ExchangeRequest, terms: Terms, at: Attempt, held: set<Key>, plan: Plan, x: string, y: string,
    system: (int, int))
    requires held == {AccountRow(req.fromId), AccountRow(req.toId), AccountRow(x), AccountRow(y)}
    requires IsSystemIn(start, x) && IsSystemIn(start, y)
    ensures forall s | s in ExchangeUpdates(req, plan, x, y, system) ::
              Keys(s) <= held && forall k | k in Keys(s) :: Within(start, ExchangeOp(req, terms), at, k)
  {
  }

  lemma ConsumeOrderly(start: Database, op: Operation, at: Attempt, held: set<Key>, terms: Terms, receipt: Receipt)
    requires forall h | h in held :: Class(start, h) <= 3
    ensures Orderly(start, op, at, held, ConsumeStatements(terms, at.now), Succeeded(receipt))
  {
  }

  lemma RegisterOrderly(start: Database, reg: Registration, at: Attempt)
    ensures Orderly(start, RegisterOp(reg), at, {}, RegisterStatements(reg, at), Opening(reg, at, USD))
  {
    hide Asks;
    var op, next := RegisterOp(reg), Opening(reg, at, USD);
    var user, usd, eur := InsertUser(RegisteredUser(reg)), InsertAccount(at.usdId, reg.userId, USD, OPENING_USD),
        InsertAccount(at.eurId, reg.userId, EUR, OPENING_EUR);
    var names := Keys(user);
    AsksForOwn(start, op, at, names + {AccountRow(at.usdId)}, at.eurId);
    AsksForOwn(start, op, at, names, at.usdId);
    AsksAtFirst(start, op, at, user);
    assert Keys(usd) == {AccountRow(at.usdId)} && Keys(eur) == {AccountRow(at.eurId)};
    OrderlyFirst(start, op, at, names + Keys(usd), eur, [], next);
    OrderlyFirst(start, op, at, names, usd, [eur] + [], next);
    assert {} + names == names;
    OrderlyFirst(start, op, at, {}, user, [usd] + ([eur] + []), next);
    assert RegisterStatements(reg, at) == [user] + ([usd] + ([eur] + []));
  }

  lemma AsksAtFirst(start: Database, op: Operation, at: Attempt, s: Statement)
    requires s.InsertUser?
    ensures Asks(start, op, at, {}, Keys(s))
  {
  }

  lemma AsksForOwn(start: Database, op: Operation, at: Attempt, held: set<Key>, id: string)
    requires AccountRow(id) in Private(at)
    requires forall h | h in held && h !in Private(at) :: Class(start, h) == 0
    ensures Asks(start, op, at, held, {AccountRow(id)})
  {
  }

  /** A registration's opening balance: its system account is above everything shared it holds. */
  lemma OpeningOrderly(
    start: Database, reg: Registration, at: Attempt, held: set<Key>, currency: Currency, txId: string, systemId: string,
    accountId: string, amount: int, log: seq<Statement>, next: Proc)
    requires SystemsInOrder(start) && IsSystemAccount(start.accounts, systemId, currency)
             && HoldsNames(start, at, held, currency)
    requires TransactionId(txId) in Private(at)
    requires forall s | s in log :: s.InsertAudit?
    requires var after := held + {TransactionId(txId)} + {AccountRow(systemId)};
             ReadyFor(start, RegisterOp(reg), at, after, next)
    ensures Orderly(start, RegisterOp(reg), at, held,
            OpeningStatements(reg, txId, systemId, accountId, currency, amount) + log, next)
  {
    hide Asks, ReadyFor;
    var op, row := RegisterOp(reg), OpeningRow(reg, txId, systemId, accountId, currency, amount);
    var entries, adjust :=
        Inserts(OpeningEntries(txId, systemId, accountId, currency, amount)), AdjustBalance(systemId, -amount);
    var after := held + {TransactionId(txId)};
    assert Keys(InsertTransaction(row)) == {TransactionId(txId)} && Keys(adjust) == {AccountRow(systemId)};
    OrderlyHeld(start, op, at, after + {AccountRow(systemId)}, log, [], next);
    assert log + [] == log;
    AsksForSystem(start, op, at, after, currency, systemId);
    OrderlyFirst(start, op, at, after, adjust, log, next);
    OrderlyHeld(start, op, at, after, entries, [adjust] + log, next);
    AsksForRow(start, op, at, held, row);
    OrderlyFirst(start, op, at, held, InsertTransaction(row), entries + ([adjust] + log), next);
    assert OpeningStatements(reg, txId, systemId, accountId, currency, amount) + log ==
        [InsertTransaction(row)] + (entries + ([adjust] + log));
  }

  lemma AsksForSystem(start: Database, op: Operation, at: Attempt, held: set<Key>, currency: Currency, systemId: string)
    requires SystemsInOrder(start) && IsSystemAccount(start.accounts, systemId, currency)
             && HoldsNames(start, at, held, currency)
    ensures Asks(start, op, at, held, {AccountRow(systemId)})
  {
  }

  // --------------------------------------------------------------- every step is in order

  lemma SystemIsKept(start: Database, db: Database, currency: Currency)
    requires SameHolders(start.accounts, db.accounts) && SystemAccount(db.accounts, currency).Some?
    ensures IsSystemAccount(start.accounts, SystemAccount(db.accounts, currency).value, currency)
  {
  }

  lemma OpeningIsDisciplined(start: Database, db: Database, op: Operation, at: Attempt, tx: Tx)
    requires tx.proc.Opening? && ReadyFor(start, op, at, tx.held, tx.proc)
    requires BetweenUsers(start, op) && SameHolders(start.accounts, db.accounts)
    ensures Disciplined(start, op, at, Advance(db, tx).proc, Advance(db, tx).held)
  {
    hide Orderly, OpeningStatements, SystemAccount, IsSystemAccount, SameHolders, Class, Less;
    var Opening(reg, a, currency) := tx.proc;
    var id := SystemAccount(db.accounts, currency);
    if id.Some? {
      SystemIsKept(start, db, currency);
      assert Advance(db, tx).held == tx.held;
      if currency == USD {
        OpeningOrderly(start, reg, at, tx.held, USD, at.txId, id.value, at.usdId, OPENING_USD, [],
            Opening(reg, at, EUR));
        assert OpeningStatements(reg, at.txId, id.value, at.usdId, USD, OPENING_USD) + [] ==
            OpeningStatements(reg, at.txId, id.value, at.usdId, USD, OPENING_USD);
      } else {
        OpeningOrderly(start, reg, at, tx.held, EUR, at.txId2, id.value, at.eurId, OPENING_EUR,
            [InsertAudit(AuditRow(reg.userId, "register", reg.userId))], Succeeded(RegisterReceipt(reg.userId)));
      }
    }
  }

  lemma StepIsDisciplined(start: Database, db: Database, op: Operation, at: Attempt, tx: Tx)
    requires Disciplined(start, op, at, tx.proc, tx.held)
    requires BetweenUsers(start, op) && SameHolders(start.accounts, db.accounts)
    ensures Disciplined(start, op, at, Advance(db, tx).proc, Advance(db, tx).held)
  {
    hide Execute, PlanTransfer, PlanExchange, PlanSystem, Leq, TransferStatements, ExchangeStatements, ApplyAll,
        BetweenUsers, Asks, SameHolders, SystemAccount;
    var after := Advance(db, tx);
    match tx.proc
    case TransferRight(req, _, left) =>
      OrderedIDsAgree(req.fromId, req.toId);
      if after.proc.Issue? {
        var (source, target) :=
            AsNamed(req.fromId, req.toId, left,
                Read(ApplyAll(db, tx.writes), OrderedIDs(req.fromId, req.toId).1).value);
        var (newFrom, newTo) := PlanTransfer(req, source, target).value;
        TransferOrderly(start, req, at, after.held, source.currency, newFrom, newTo, after.proc.next.receipt);
      }
    case ExchangeRight(req, _, _, _) => OrderedIDsAgree(req.fromId, req.toId);
    case FindSystemFrom(_, _, _, plan) =>
      if after.proc.FindSystemTo? {
        SystemIsKept(start, db, plan.source);
      }
    case FindSystemTo(_, _, _, plan, _) =>
      if after.proc.SystemLeft? {
        SystemIsKept(start, db, plan.target);
      }
    case SystemRight(req, terms, _, plan, x, y, left) =>
      OrderedIDsAgree(x, y);
      if after.proc.Issue? {
        var (systemFrom, systemTo) := AsNamed(x, y, left, Read(ApplyAll(db, tx.writes), OrderedIDs(x, y).1).value);
        ExchangeOrderly(start, req, terms, at, after.held, plan, x, y,
            PlanSystem(req, plan, systemFrom, systemTo).value, after.proc.next.receipt);
      }
    case Opening(_, _, _) => OpeningIsDisciplined(start, db, op, at, tx);
    case _ =>
  }

  /** Every body of such an operation is disciplined at every step. */
  lemma {:induction false} SoloIsDisciplined(start: Database, db: Database, op: Operation, at: Attempt, n: nat)
    requires BetweenUsers(start, op) && SameHolders(start.accounts, db.accounts)
    ensures var tx := Solo(db, Start(op, at), n); Disciplined(start, op, at, tx.proc, tx.held)
  {
    hide Advance;
    if n > 0 {
      SoloIsDisciplined(start, db, op, at, n - 1);
      StepIsDisciplined(start, db, op, at, Solo(db, Start(op, at), n - 1));
    } else if op.RegisterOp? {
      RegisterOrderly(start, op.registration, at);
    }
  }

  // --------------------------------------------------------------- waiting clients

  function NamedBy(request: Request): set<string> {
    match request
    case TransferRequested(req) => {req.fromId, req.toId}
    case ExchangeRequested(req) => {req.fromId, req.toId}
    case RegisterRequested(_) => {}
  }

  /** No request names a system account. */
  ghost predicate NamesUsers(start: Database, actions: seq<Action>) {
    forall a | a in actions && a.Submit? :: forall id | id in NamedBy(a.request) :: !IsSystemIn(start, id)
  }

  /** Moreover registrations come only where the system accounts are in order. */
  ghost predicate AllBetweenUsers(start: Database, actions: seq<Action>) {
    && NamesUsers(start, actions)
    && forall a | a in actions && a.Submit? && a.request.RegisterRequested? :: SystemsInOrder(start)
  }

  /** The accounts an attempt would create. */
  function Drawn(at: Attempt): set<string> {
    {at.usdId, at.eurId}
  }

  /**
   Identifiers are drawn afresh: an attempt draws none that a live attempt has drawn, that a live request
   names or that a system account has, and nobody names an account before its registration has ended.
   */
  ghost predicate DrawsFresh(start: Database, s: System, a: Action) {
    match a
    case Submit(_, request) => forall d | d in s.sessions && s.sessions[d].Open? ::
        NamedBy(request) !! Drawn(s.sessions[d].at)
    case Begin(c, at) =>
      && (forall id | id in Drawn(at) :: !IsSystemIn(start, id))
      && (forall d | d in s.sessions && d != c && !s.sessions[d].Returned? :: Named(s.sessions[d].op) !! Drawn(at))
      && (forall d | d in s.sessions && d != c && s.sessions[d].Open? :: Private(s.sessions[d].at) !! Private(at))
    case _ => true
  }

  ghost predicate AllDrawFresh(s: System, actions: seq<Action>) {
    forall n | 0 <= n < |actions| :: DrawsFresh(s.committed, Run(s, actions[..n]), actions[n])
  }

  /** What one client names or draws, no other attempt draws. */
  ghost predicate Apart(c: Session, d: Session) {
    && (!c.Returned? && d.Open? ==> Named(c.op) !! Drawn(d.at))
    && (c.Open? && d.Open? ==> Private(c.at) !! Private(d.at))
  }

  /** In a reachable state every operation is between users, and what one attempt drew no other can need. */
  ghost predicate Peers(start: Database, s: System) {
    && Good(start, s)
    && (forall c | c in s.sessions && !s.sessions[c].Returned? :: BetweenUsers(start, s.sessions[c].op))
    && (forall c | c in s.sessions && s.sessions[c].Open? ::
         forall id | id in Drawn(s.sessions[c].at) :: !IsSystemIn(start, id))
    && (forall c, d | c in s.sessions && d in s.sessions && c != d :: Apart(s.sessions[c], s.sessions[d]))
  }

  lemma PeersReplaced(start: Database, s: System, after: System, c: nat, session: Session)
    requires Peers(start, s) && Good(start, after) && after.sessions == s.sessions[c := session]
    requires !session.Returned? ==> BetweenUsers(start, session.op)
    requires session.Open? ==> forall id | id in Drawn(session.at) :: !IsSystemIn(start, id)
    requires forall d | d in s.sessions && d != c :: Apart(session, s.sessions[d]) && Apart(s.sessions[d], session)
    ensures Peers(start, after)
  {
    hide Good, BetweenUsers, Drawn, Apart, IsSystemIn;
  }

  lemma DoKeepsPeers(start: Database, s: System, a: Action)
    requires Peers(start, s) && Enabled(s, a) && DrawsFresh(start, s, a) && AllBetweenUsers(start, [a])
    requires Good(start, Do(s, a))
    ensures Peers(start, Do(s, a))
  {
    hide Good, Advance, AdmitExchange, AdmitTransfer, ApplyAll, RunQuote, CanStep, RequestFits, IsSystemIn,
        SystemsInOrder, Private, Drawn;
    assert a in [a];
    if !a.IssueQuote? && !a.Tick? {
      PeersReplaced(start, s, Do(s, a), a.client, Do(s, a).sessions[a.client]);
    }
  }

  lemma {:induction false} RunKeepsPeers(s: System, actions: seq<Action>)
    requires Fresh(s.committed, s) && Initial(s.committed) && AllBetweenUsers(s.committed, actions)
             && AllDrawFresh(s, actions)
    ensures Peers(s.committed, Run(s, actions))
  {
    hide Good, Initial, Do, Enabled, DrawsFresh, IsSystemIn, SystemsInOrder, Apart, BetweenUsers;
    RunKeepsGood(s, actions);
    if actions != [] {
      var front, last := actions[..|actions| - 1], actions[|actions| - 1];
      assert forall n | 0 <= n < |front| :: front[n] == actions[n] && front[..n] == actions[..n];
      RunKeepsPeers(s, front);
      assert last in actions && DrawsFresh(s.committed, Run(s, front), last);
      if Enabled(Run(s, front), last) {
        DoKeepsPeers(s.committed, Run(s, front), last);
      }
    }
  }

  /** `c` needs a key that `d` holds. */
  ghost predicate WaitsOn(s: System, c: nat, d: nat, key: Key) {
    && c in s.sessions && d in s.sessions && c != d && s.sessions[c].Open? && s.sessions[d].Open?
    && key in Needs(s.sessions[c].tx.proc) && key in s.sessions[d].tx.held
  }

  ghost predicate WaitsFor(s: System, c: nat, d: nat) {
    exists key :: WaitsOn(s, c, d, key)
  }

  /** A client that holds a key others wait for itself waits for a higher one. */
  lemma WaitingRises(start: Database, s: System, c: nat, d: nat, e: nat, key: Key, next: Key)
    requires Peers(start, s) && WaitsOn(s, c, d, key) && WaitsOn(s, d, e, next)
    ensures Below(start, key, next)
  {
    hide Sound, Traceable, Solo, Below, Disciplined, Needs, Replay, LogMatches, Within, Private, BetweenUsers, Apart;
    var mine, session := s.sessions[c], s.sessions[d];
    SoloIsDisciplined(start, s.committed, session.op, session.at, session.steps);
    SoloIsDisciplined(start, s.committed, mine.op, mine.at, mine.steps);
    NeedsAreAbove(start, session.op, session.at, session.tx.proc, session.tx.held);
    NeedsAreAbove(start, mine.op, mine.at, mine.tx.proc, mine.tx.held);
    assert Within(start, mine.op, mine.at, key);
    ApartFrom(start, mine, session, key);
    assert next !in session.tx.held;
  }

  /** Nobody needs what another attempt drew. */
  lemma ApartFrom(start: Database, c: Session, d: Session, k: Key)
    requires c.Open? && d.Open? && Apart(c, d) && Within(start, c.op, c.at, k)
    requires forall id | id in Drawn(d.at) :: !IsSystemIn(start, id)
    ensures k !in Private(d.at)
  {
  }

  ghost predicate WaitChain(s: System, path: seq<nat>) {
    |path| >= 2 && forall i | 0 <= i < |path| - 1 :: WaitsFor(s, path[i], path[i + 1])
  }

  /** Along a chain of waiting clients the keys waited for rise. */
  lemma {:induction false} ChainRises(start: Database, s: System, path: seq<nat>) returns (first: Key, last: Key)
    requires Peers(start, s) && WaitChain(s, path)
    ensures WaitsOn(s, path[0], path[1], first) && WaitsOn(s, path[|path| - 2], path[|path| - 1], last)
    ensures first == last || Below(start, first, last)
    decreases |path|
  {
    hide Good, WaitsOn, Below;
    if |path| == 2 {
      assert WaitsFor(s, path[0], path[0 + 1]);
      first :| WaitsOn(s, path[0], path[1], first);
      last := first;
    } else {
      var front := path[..|path| - 1];
      forall i | 0 <= i < |front| - 1 ensures WaitsFor(s, front[i], front[i + 1]) {
        assert WaitsFor(s, path[i], path[i + 1]);
      }
      var middle: Key;
      first, middle := ChainRises(start, s, front);
      assert WaitsFor(s, path[|path| - 2], path[|path| - 1]);
      last :| WaitsOn(s, path[|path| - 2], path[|path| - 1], last);
      WaitingRises(start, s, path[|path| - 3], path[|path| - 2], path[|path| - 1], middle, last);
      BelowIsStrictOrder(start, first, middle, last);
    }
  }

  /** In every reachable state the wait-for relation has no cycle. */
  lemma NoWaitCycle(s: System, actions: seq<Action>, path: seq<nat>)
    requires Fresh(s.committed, s) && Initial(s.committed) && AllBetweenUsers(s.committed, actions)
             && AllDrawFresh(s, actions)
    requires WaitChain(Run(s, actions), path)
    ensures path[0] != path[|path| - 1]
  {
    hide Run, Initial, Below, Good, Needs;
    var start, after := s.committed, Run(s, actions);
    RunKeepsPeers(s, actions);
    var first, last := ChainRises(start, after, path);
    if path[0] == path[|path| - 1] {
      WaitingRises(start, after, path[|path| - 2], path[0], path[1], last, first);
      BelowIsStrictOrder(start, first, last, first);
      BelowIsStrictOrder(start, first, first, first);
    }
  }

  /** A client that can make progress without an error: begin, run its next statement, or return. */
  predicate CanMove(s: System, c: nat) {
    && c in s.sessions && !s.sessions[c].Returned?
    && (s.sessions[c].Open? && !Ended(s.sessions[c].tx.proc) ==> CanStep(s.sessions, c, s.sessions[c].tx))
  }

  /** What a client does next, faults aside: begin, settle, or take its next statement. */
  function NextMove(s: System, c: nat, at: Attempt): Action
    requires c in s.sessions && !s.sessions[c].Returned?
  {
    if s.sessions[c].Ready? then Begin(c, at) else if Ended(s.sessions[c].tx.proc) then Settle(c) else Step(c)
  }

  lemma MovesAreEnabled(s: System, c: nat)
    requires CanMove(s, c)
    ensures forall at: Attempt | at.now == s.clock :: Enabled(s, NextMove(s, c, at))
  {
  }

  ghost predicate Stuck(s: System, c: nat) {
    c in s.sessions && s.sessions[c].Open? && !CanStep(s.sessions, c, s.sessions[c].tx)
  }

  /** The key a stuck client waits for. */
  ghost function WantedKey(s: System, c: nat): (k: Key)
    requires Stuck(s, c)
    ensures k in Needs(s.sessions[c].tx.proc) && HeldByOther(s.sessions, c, k)
  {
    var k :| k in Needs(s.sessions[c].tx.proc) && HeldByOther(s.sessions, c, k);
    k
  }

  /** Among stuck clients one waits for a key that no other waits above. */
  lemma {:induction false} HighestWaiter(start: Database, s: System, clients: set<nat>) returns (top: nat)
    requires clients != {} && forall c | c in clients :: Stuck(s, c)
    ensures top in clients
    ensures forall c | c in clients :: !Below(start, WantedKey(s, top), WantedKey(s, c))
    decreases clients
  {
    hide Below, CanStep;
    var x :| x in clients;
    BelowIsStrictOrder(start, WantedKey(s, x), WantedKey(s, x), WantedKey(s, x));
    if clients == {x} {
      top := x;
    } else {
      var y := HighestWaiter(start, s, clients - {x});
      if Below(start, WantedKey(s, y), WantedKey(s, x)) {
        top := x;
        forall c | c in clients ensures !Below(start, WantedKey(s, x), WantedKey(s, c)) {
          if c != x {
            BelowIsStrictOrder(start, WantedKey(s, y), WantedKey(s, x), WantedKey(s, c));
          }
        }
      } else {
        top := y;
      }
    }
  }

  /**
   No deadlock: in every reachable state in which some call has not returned, some client can make
   progress without any fault striking.
   */
  lemma SomeoneCanMove(s: System, actions: seq<Action>, waiting: nat) returns (mover: nat)
    requires Fresh(s.committed, s) && Initial(s.committed) && AllBetweenUsers(s.committed, actions)
             && AllDrawFresh(s, actions)
    requires waiting in Run(s, actions).sessions && !Run(s, actions).sessions[waiting].Returned?
    ensures mover in Run(s, actions).sessions && !Run(s, actions).sessions[mover].Returned?
    ensures forall at: Attempt | at.now == Run(s, actions).clock ::
              Enabled(Run(s, actions), NextMove(Run(s, actions), mover, at))
  {
    hide Run, Initial, Good;
    var after := Run(s, actions);
    RunKeepsPeers(s, actions);
    mover := waiting;
    if !CanMove(after, waiting) {
      var open := set c | c in after.sessions && after.sessions[c].Open?;
      assert waiting in open;
      NotAllStuck(s.committed, after, open);
      mover :| mover in open && !Stuck(after, mover);
    }
    MovesAreEnabled(after, mover);
  }

  /** If all were stuck, the holder of the highest key waited for would wait for a higher one. */
  lemma NotAllStuck(start: Database, s: System, open: set<nat>)
    requires Peers(start, s) && open != {} && open == set c | c in s.sessions && s.sessions[c].Open?
    ensures exists c :: c in open && !Stuck(s, c)
  {
    hide Good, Below, CanStep, Needs, Class;
    if forall c | c in open :: Stuck(s, c) {
      var top := HighestWaiter(start, s, open);
      var key := WantedKey(s, top);
      var holder :| holder in s.sessions && holder != top && s.sessions[holder].Open?
          && key in s.sessions[holder].tx.held;
      assert holder in open && Stuck(s, holder);
      var next := WantedKey(s, holder);
      var blocker :| blocker in s.sessions && blocker != holder && s.sessions[blocker].Open?
          && next in s.sessions[blocker].tx.held;
      assert WaitsOn(s, top, holder, key) && WaitsOn(s, holder, blocker, next);
      WaitingRises(start, s, top, holder, blocker, key, next);
    }
  }
}
