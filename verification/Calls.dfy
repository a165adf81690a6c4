/**
 The retry loop around the transaction bodies (internal/db/db.go:42-82), and the calls made through it: Transfer and
 Exchange with their pre-checks and broadcasts (internal/services/transaction_service.go:100-489), and Register
 with its answer (internal/handlers/auth.go:49-95).
 */
module Calls {
  import opened Wrappers
  import opened Rates
  import opened Tables
  import opened Engine
  import opened Bodies
  import opened Interleaved
  import opened Stores
  import opened Runner
  import opened Hubs
  import opened Service
  import Exchanges
  import Histories
  import Int64
  import Outcomes
  import Registrations
  import Transfers

  /** Transfers ask for no system account. */
  const NO_SYSTEM: Currency -> Option<string> := (c: Currency) => None

  /** What GetSystemAccount would answer is known wherever the operation asks. */
  ghost predicate AnswersFor(op: Operation, accounts: map<string, Account>, system: Currency -> Option<string>) {
    op.TransferOp? || SystemAnswers(accounts, system)
  }

  ghost predicate KnownFor(op: Operation, world: seq<World<Database>>, system: Currency -> Option<string>) {
    op.TransferOp? || SystemKnown(world, system)
  }

  // --------------------------------------------------------------- one attempt

  /** An operation whose pre-checks are behind it. */
  predicate Admitted(op: Operation) {
    AmountFits(op) && (op.TransferOp? ==> AdmitTransfer(op.transfer).None?)
  }

  /** One run of an operation's closure. */
  function Attempted(
    op: Operation, db: Database, c: Captured, at: Attempt, fault: Option<Fault>, system: Currency -> Option<string>)
    : Ran<Database, Captured>
  {
    match op
    case TransferOp(req) => Transfers.Attempted(db, c, req, at, fault)
    case ExchangeOp(req, terms) => Exchanges.Attempted(db, c, req, terms, at, fault, system)
    case RegisterOp(reg) => Registrations.Attempted(db, c, reg, at, fault, system)
  }

  /** The closure as the runner calls it: each attempt draws its own identifiers and meets its own faults. */
  ghost function Retried(
    op: Operation, ats: nat -> Attempt, faults: nat -> Option<Fault>, system: Currency -> Option<string>)
    : (Database, Captured, nat) -> Ran<Database, Captured>
  {
    (db: Database, c: Captured, k: nat) => Attempted(op, db, c, ats(k), faults(k), system)
  }

  /** A receipt as the captured variables show it. */
  function Told(receipt: Receipt, before: Captured): Captured {
    match receipt
    case TransferReceipt(_, _, _, _, _) => Transfers.Told(receipt, before)
    case ExchangeReceipt(_, _, _, _, _) => Exchanges.Told(receipt, before)
    case RegisterReceipt(_) => before
  }

  /** An attempt that commits is the operation run alone, and its variables show the receipt. */
  lemma AttemptedIsRun(
    op: Operation, db: Database, c: Captured, at: Attempt, fault: Option<Fault>, system: Currency -> Option<string>)
    requires Admitted(op) && AnswersFor(op, db.accounts, system)
    ensures var ran, alone := Attempted(op, db, c, at, fault, system), RunOperation(db, op, at);
            && (fault.None? ==> ran.error == if alone.Ok? then None else Some(alone.error))
            && (ran.error.None? ==> alone.Ok? && alone.value.0 == ran.state && ran.captured == Told(alone.value.1, c))
  {
    hide Transfers.Attempted, Exchanges.Attempted, Registrations.Attempted, RunTransfer, RunExchange, SystemAnswers;
    match op
    case TransferOp(req) =>
      Transfers.AttemptedIsRun(db, c, req, at, fault);
      if RunTransfer(db, req, at).Ok? {
        TransferGivesReceipt(db, req, at);
      }
    case ExchangeOp(req, terms) => Exchanges.AttemptedIsRun(db, c, req, terms, at, fault, system);
    case RegisterOp(reg) =>
      Registrations.AttemptedIsRun(db, c, reg, at, fault, system);
      if RunRegister(db, reg, at).Ok? {
        RegisterGivesReceipt(db, reg, at);
      }
  }

  lemma TransferGivesReceipt(db: Database, req: TransferRequest, at: Attempt)
    requires RunTransfer(db, req, at).Ok?
    ensures var receipt := RunTransfer(db, req, at).value.1;
            receipt.TransferReceipt? && Int64.Fits(receipt.fromBalance) && Int64.Fits(receipt.toBalance)
  {
    hide HasTransaction, HasRequest, Int64.Wrap;
  }

  lemma RegisterGivesReceipt(db: Database, reg: Registration, at: Attempt)
    requires RunRegister(db, reg, at).Ok?
    ensures RunRegister(db, reg, at).value.1 == RegisterReceipt(reg.userId)
  {
    hide Lookup, RunOpening;
  }

  /** Runs the closure of the operation in an open transaction. */
  method RunBody(
    tx: SqlTx, b: Backend, op: Operation, at: Attempt, fault: Option<Fault>, before: Captured,
    ghost system: Currency -> Option<string>)
    returns (err: Option<Error>, c: Captured)
    requires b.Valid() && Admitted(op) && tx.view == b.db.committed && AnswersFor(op, tx.view.accounts, system)
    modifies tx
    ensures Ran(err, if err.None? then tx.view else old(tx.view), c) ==
            Attempted(op, old(tx.view), before, at, fault, system)
  {
    hide Transfers.Attempted, Exchanges.Attempted, Registrations.Attempted, SystemAnswers;
    match op
    case TransferOp(req) => err, c := Transfers.Closure(tx, b, req, at, fault, before);
    case ExchangeOp(req, terms) => err, c := Exchanges.Closure(tx, b, req, terms, at, fault, before, system);
    case RegisterOp(reg) => err, c := Registrations.Closure(tx, b, reg, at, fault, before, system);
  }

  // --------------------------------------------------------------- the loop

  /**
   Begin, run the closure, roll back or commit, pause and try again. Other clients' commits show up between the
   attempts; what the call itself does to the database is what its one committing attempt did, or nothing.
   */
  method WithTx(
    b: Backend, op: Operation, initial: Captured, ats: nat -> Attempt, faults: nat -> Option<Fault>,
    world: seq<World<Database>>, ghost system: Currency -> Option<string>)
    returns (error: Option<Error>, captured: Captured, attempts: nat, slept: int)
    requires b.Valid() && Admitted(op) && WorldValid(world) && KnownFor(op, world, system)
    modifies b.db
    ensures Final(error, b.db.committed, captured, attempts) ==
            From(Retried(op, ats, faults, system), world, 1, initial)
    ensures 1 <= attempts <= MAX_ATTEMPTS && 0 <= slept < 640 * MILLISECOND
  {
    hide Attempted, SystemAnswers, Admitted, PauseBound, Retryable, AmountFits;
    ghost var fn := Retried(op, ats, faults, system);
    var attempt := 1;
    captured, attempts, slept := initial, 0, 0;
    while attempt <= MAX_ATTEMPTS
      invariant 1 <= attempt <= MAX_ATTEMPTS
      invariant From(fn, world, attempt, captured) == From(fn, world, 1, initial)
      invariant 0 <= slept < 640 * MILLISECOND
      invariant slept < PauseBound(attempt - 1) || (slept == 0 && attempt == 1)
    {
      var w := world[attempt - 1];
      b.db.committed := w.committed;
      if w.beginError.Some? {
        return w.beginError, captured, attempt, slept;
      }
      var tx := new SqlTx(b.db.committed);
      var failure;
      failure, captured := RunBody(tx, b, op, ats(attempt), faults(attempt), captured, system);
      if failure.None? {
        failure := w.commitError;
      }
      if failure.None? {
        b.db.committed := tx.view;
        return None, captured, attempt, slept;
      }
      var retryable := IsRetryable(failure.value);
      if !retryable || attempt == MAX_ATTEMPTS {
        return failure, captured, attempt, slept;
      }
      var pause := SleepWithBackoff(attempt, w.jitter);
      PausesAddUp(attempt, slept, pause);
      slept := slept + pause;
      attempt := attempt + 1;
    }
    error := Some(RetryLimitExceeded);
  }

  lemma PausesAddUp(attempt: nat, slept: int, pause: int)
    requires 1 <= attempt < MAX_ATTEMPTS && (slept < PauseBound(attempt - 1) || (slept == 0 && attempt == 1))
    requires 0 <= pause - attempt * attempt * (20 * MILLISECOND) < 10 * MILLISECOND
    ensures slept <= slept + pause < PauseBound(attempt) <= 640 * MILLISECOND
  {
    assert attempt == 1 || attempt == 2 || attempt == 3 || attempt == 4;
  }

  /** After an error the database is as the others left it. */
  lemma Undone(
    op: Operation, initial: Captured, ats: nat -> Attempt, faults: nat -> Option<Fault>,
    world: seq<World<Database>>, system: Currency -> Option<string>, final: Final<Database, Captured>)
    requires WorldValid(world) && final == From(Retried(op, ats, faults, system), world, 1, initial)
    requires final.error.Some?
    ensures 1 <= final.attempts <= MAX_ATTEMPTS && final.state == world[final.attempts - 1].committed
  {
    hide Attempted, From;
    var before := AllOrNothing(Retried(op, ats, faults, system), world, initial);
  }

  /** Whichever attempt commits, database and captured variables are exactly what the operation alone gives. */
  lemma Committed(
    op: Operation, initial: Captured, ats: nat -> Attempt, faults: nat -> Option<Fault>,
    world: seq<World<Database>>, system: Currency -> Option<string>, final: Final<Database, Captured>)
    returns (before: Captured)
    requires Admitted(op) && WorldValid(world) && KnownFor(op, world, system)
    requires final == From(Retried(op, ats, faults, system), world, 1, initial) && final.error.None?
    ensures 1 <= final.attempts <= MAX_ATTEMPTS
    ensures before == CapturedBefore(Retried(op, ats, faults, system), world, final.attempts, initial)
    ensures var alone := RunOperation(world[final.attempts - 1].committed, op, ats(final.attempts));
            alone.Ok? && alone.value.0 == final.state && final.captured == Told(alone.value.1, before)
  {
    hide Admitted, Attempted, RunOperation, Told, SystemAnswers, From, CapturedBefore, AttemptCaptured, AttemptError;
    before := AllOrNothing(Retried(op, ats, faults, system), world, initial);
    var k := final.attempts;
    AttemptedIsRun(op, world[k - 1].committed, before, ats(k), faults(k), system);
  }

  /** A user id left over from an aborted attempt is still the target's owner. */
  lemma {:induction false} LeftoverIsOwner(
    req: TransferRequest, ats: nat -> Attempt, faults: nat -> Option<Fault>, world: seq<World<Database>>,
    system: Currency -> Option<string>, k: nat, db: Database)
    requires WorldValid(world) && 1 <= k <= MAX_ATTEMPTS
    requires forall i | 0 <= i < k - 1 :: SameHolders(world[i].committed.accounts, db.accounts)
    ensures var c := CapturedBefore(Retried(TransferOp(req), ats, faults, system), world, k, NOTHING);
            && (c.toUserId != "" ==> req.toId in db.accounts && db.accounts[req.toId].owner == Some(c.toUserId))
            && c.toCurrency == None
  {
    if k > 1 {
      var before := CapturedBefore(Retried(TransferOp(req), ats, faults, system), world, k - 1, NOTHING);
      LeftoverIsOwner(req, ats, faults, world, system, k - 1, db);
      Transfers.OwnerOrLeftover(world[k - 2].committed, before, req, ats(k - 1), faults(k - 1));
      hide Transfers.Attempted;
      assert SameHolders(world[k - 2].committed.accounts, db.accounts);
    }
  }

  /** Whoever an operation takes money from owns the account, before and after. */
  lemma PayerOwns(db: Database, op: Operation, at: Attempt)
    requires RunOperation(db, op, at).Ok?
    ensures Histories.PaidByOwner(RunOperation(db, op, at).value.0.accounts, op)
  {
    hide RunOperation;
    Histories.OnlyOwnersPay(db, op, at);
    Histories.OperationKeepsHolders(db, op, at);
  }

  // --------------------------------------------------------------- Transfer

  /**
   Transfer. The database ends as one attempt alone made it, and the hub hears of exactly that attempt's
   balances; or the call fails, nothing is announced, and the database is as the other clients left it.
   */
  method Transfer(
    b: Backend, hub: Hub, req: TransferRequest, ats: nat -> Attempt, faults: nat -> Option<Fault>,
    world: seq<World<Database>>)
    returns (r: Result<string, Error>, ghost attempt: nat)
    requires b.Valid() && hub.Valid() && Int64.Fits(req.amount)
    requires WorldValid(world) && HoldersKept(world)
    modifies b.db, hub`calls, hub.known
    ensures hub.Valid()
    ensures AdmitTransfer(req).Some? ==> r == Err(AdmitTransfer(req).value) && b.db.committed == old(b.db.committed)
    ensures r.Err? ==> hub.calls == old(hub.calls)
    ensures AdmitTransfer(req).None? && r.Err? ==>
              && 1 <= attempt <= |world| && b.db.committed == world[attempt - 1].committed
              && Some(r.error) == From(Retried(TransferOp(req), ats, faults, NO_SYSTEM), world, 1, NOTHING).error
    ensures r.Ok? ==>
              && 1 <= attempt <= |world|
              && var alone := RunTransfer(world[attempt - 1].committed, req, ats(attempt));
              && alone.Ok? && b.db.committed == alone.value.0 && alone.value.1.TransferReceipt?
              && Int64.Fits(alone.value.1.fromBalance) && Int64.Fits(alone.value.1.toBalance)
              && r.value == alone.value.1.transactionId
              && hub.calls == old(hub.calls) + Transfers.Announced(req, alone.value.1)
    ensures r.Ok? ==>
              && |old(hub.calls)| <= |hub.calls| && hub.calls[..|old(hub.calls)|] == old(hub.calls)
              && Transfers.BothTold(hub.calls[|old(hub.calls)|..], b.db.committed, req)
              && Owns(b.db.committed, req.userId, req.fromId)
  {
    hide From, Attempted, RunTransfer, Transfers.Announced, Transfers.BothTold, HoldersKept, Holds, Reaching;
    attempt := 0;
    if req.amount <= 0 {
      return Err(InvalidAmount), 0;
    }
    if req.fromId == req.toId {
      return Err(SameAccountTransfer), 0;
    }
    var err, c, attempts, slept := WithTx(b, TransferOp(req), NOTHING, ats, faults, world, NO_SYSTEM);
    attempt := attempts;
    if err.Some? {
      Undone(TransferOp(req), NOTHING, ats, faults, world, NO_SYSTEM, Final(err, b.db.committed, c, attempts));
      return Err(err.value), attempt;
    }
    TransferCommitted(req, ats, faults, world, Final(err, b.db.committed, c, attempts));
    Transfers.AnnouncedTells(world[attempt - 1].committed, req, ats(attempt));
    PayerOwns(world[attempt - 1].committed, TransferOp(req), ats(attempt));
    ghost var receipt := RunTransfer(world[attempt - 1].committed, req, ats(attempt)).value.1;
    Transfers.Announce(hub, req, c, receipt);
    assert hub.calls[|old(hub.calls)|..] == Transfers.Announced(req, receipt);
    return Ok(c.transactionId), attempt;
  }

  lemma TransferCommitted(
    req: TransferRequest, ats: nat -> Attempt, faults: nat -> Option<Fault>, world: seq<World<Database>>,
    final: Final<Database, Captured>)
    requires Int64.Fits(req.amount) && AdmitTransfer(req).None?
    requires WorldValid(world) && HoldersKept(world)
    requires final == From(Retried(TransferOp(req), ats, faults, NO_SYSTEM), world, 1, NOTHING) && final.error.None?
    ensures 1 <= final.attempts <= MAX_ATTEMPTS
    ensures var alone := RunTransfer(world[final.attempts - 1].committed, req, ats(final.attempts));
            && alone.Ok? && alone.value.0 == final.state && alone.value.1.TransferReceipt?
            && final.captured == Transfers.Told(alone.value.1, NOTHING)
            && Int64.Fits(alone.value.1.fromBalance) && Int64.Fits(alone.value.1.toBalance)
  {
    hide From, Attempted, RunTransfer, SameHolders, CapturedBefore;
    var before := Committed(TransferOp(req), NOTHING, ats, faults, world, NO_SYSTEM, final);
    var k := final.attempts;
    var db := world[k - 1].committed;
    LeftoverIsOwner(req, ats, faults, world, NO_SYSTEM, k, db);
    TransferGivesReceipt(db, req, ats(k));
    TransferNamesOwner(db, req, ats(k));
  }

  lemma TransferNamesOwner(db: Database, req: TransferRequest, at: Attempt)
    requires RunTransfer(db, req, at).Ok?
    ensures req.toId in db.accounts && RunTransfer(db, req, at).value.1.TransferReceipt?
    ensures RunTransfer(db, req, at).value.1.toUser == db.accounts[req.toId].owner
  {
    hide HasTransaction, HasRequest, Int64.Wrap;
  }

  // --------------------------------------------------------------- Exchange

  /**
   Exchange. The terms are those of the quote or rate found before the transaction; the database ends as
   one attempt alone made it, and the hub hears of exactly that attempt's balances; or the call fails,
   nothing is announced, and the database is as the other clients left it.
   */
  method Exchange(
    b: Backend, hub: Hub, req: ExchangeRequest, now: int, ats: nat -> Attempt, faults: nat -> Option<Fault>,
    world: seq<World<Database>>, ghost system: Currency -> Option<string>)
    returns (r: Result<string, Error>, ghost attempt: nat)
    requires b.Valid() && hub.Valid() && Int64.Fits(req.amount)
    requires WorldValid(world) && SystemKnown(world, system)
    modifies b.db, hub`calls, hub.known
    ensures hub.Valid()
    ensures r.Err? ==> hub.calls == old(hub.calls)
    ensures var terms := AdmitExchange(old(b.db.committed), req, now);
            terms.Err? ==> r == Err(terms.error) && b.db.committed == old(b.db.committed)
    ensures var terms, initial :=
            AdmitExchange(old(b.db.committed), req, now), Exchanges.Starting(old(b.db.committed), req);
            terms.Ok? && r.Err? ==>
              && 1 <= attempt <= |world| && b.db.committed == world[attempt - 1].committed
              && var fn := Retried(ExchangeOp(req, terms.value), ats, faults, system);
              && Some(r.error) == From(fn, world, 1, initial).error
    ensures var terms := AdmitExchange(old(b.db.committed), req, now);
            r.Ok? ==>
              && terms.Ok? && 1 <= attempt <= |world|
              && var alone := RunExchange(world[attempt - 1].committed, req, terms.value, ats(attempt));
              && alone.Ok? && b.db.committed == alone.value.0 && alone.value.1.ExchangeReceipt?
              && Int64.Fits(alone.value.1.fromBalance) && Int64.Fits(alone.value.1.toBalance)
              && r.value == alone.value.1.transactionId
              && hub.calls == old(hub.calls) + Exchanges.Announced(req, alone.value.1)
    ensures r.Ok? ==>
              && |old(hub.calls)| <= |hub.calls| && hub.calls[..|old(hub.calls)|] == old(hub.calls)
              && Exchanges.BothTold(hub.calls[|old(hub.calls)|..], b.db.committed, req)
              && Owns(b.db.committed, req.userId, req.fromId)
  {
    hide From, Attempted, RunExchange, Exchanges.Announced, Exchanges.BothTold, SystemKnown, Holds, Reaching;
    var terms, initial := Exchanges.Prepare(b, req, now);
    if terms.Err? {
      return Err(terms.error), 0;
    }
    assert req.amount > 0;
    hide AdmitExchange, Exchanges.Starting;
    r, attempt := ExchangeAdmitted(b, hub, req, terms.value, initial, ats, faults, world, system);
  }

  /** Exchange once its terms are known. */
  method ExchangeAdmitted(
    b: Backend, hub: Hub, req: ExchangeRequest, terms: Terms, initial: Captured, ats: nat -> Attempt,
    faults: nat -> Option<Fault>, world: seq<World<Database>>, ghost system: Currency -> Option<string>)
    returns (r: Result<string, Error>, ghost attempt: nat)
    requires b.Valid() && hub.Valid() && Int64.Fits(req.amount) && req.amount > 0
    requires WorldValid(world) && SystemKnown(world, system)
    modifies b.db, hub`calls, hub.known
    ensures hub.Valid() && 1 <= attempt <= |world|
    ensures r.Err? ==>
              && hub.calls == old(hub.calls) && b.db.committed == world[attempt - 1].committed
              && Some(r.error) == From(Retried(ExchangeOp(req, terms), ats, faults, system), world, 1, initial).error
    ensures r.Ok? ==>
              var alone := RunExchange(world[attempt - 1].committed, req, terms, ats(attempt));
              && alone.Ok? && b.db.committed == alone.value.0 && alone.value.1.ExchangeReceipt?
              && Int64.Fits(alone.value.1.fromBalance) && Int64.Fits(alone.value.1.toBalance)
              && r.value == alone.value.1.transactionId
              && hub.calls == old(hub.calls) + Exchanges.Announced(req, alone.value.1)
    ensures r.Ok? ==>
              && |old(hub.calls)| <= |hub.calls| && hub.calls[..|old(hub.calls)|] == old(hub.calls)
              && Exchanges.BothTold(hub.calls[|old(hub.calls)|..], b.db.committed, req)
              && Owns(b.db.committed, req.userId, req.fromId)
  {
    hide From, Attempted, RunExchange, Exchanges.Announced, Exchanges.BothTold, SystemKnown, Holds, Reaching, Retried;
    var op := ExchangeOp(req, terms);
    var err, c, attempts, slept := WithTx(b, op, initial, ats, faults, world, system);
    attempt := attempts;
    ghost var final := Final(err, b.db.committed, c, attempts);
    if err.Some? {
      Undone(op, initial, ats, faults, world, system, final);
      return Err(err.value), attempt;
    }
    ghost var before := Committed(op, initial, ats, faults, world, system, final);
    ghost var db := world[attempt - 1].committed;
    Exchanges.AnnouncedTells(db, req, terms, ats(attempt));
    PayerOwns(db, op, ats(attempt));
    ghost var receipt := RunExchange(db, req, terms, ats(attempt)).value.1;
    Exchanges.Announce(hub, req, c, receipt, before);
    assert hub.calls[|old(hub.calls)|..] == Exchanges.Announced(req, receipt);
    return Ok(c.transactionId), attempt;
  }

  // --------------------------------------------------------------- Register

  datatype Outcome = Registered | Conflict | Failed

  lemma KnownAt(world: seq<World<Database>>, system: Currency -> Option<string>, i: nat)
    requires SystemKnown(world, system) && i < |world|
    ensures SystemAnswers(world[i].committed.accounts, system)
  {
  }

  /** The two opening balances of a committed registration. */
  lemma Opened(db: Database, reg: Registration, at: Attempt, system: Currency -> Option<string>)
    requires RunRegister(db, reg, at).Ok? && SystemAnswers(db.accounts, system)
    ensures system(USD).Some? && system(EUR).Some?
    ensures var after := RunRegister(db, reg, at).value.0;
            && after.transactions == db.transactions
                 + [Transaction(at.txId, reg.userId, Tables.Transfer, 100_000, USD, system(USD).value, at.usdId,
                                OpeningBalance, None),
                    Transaction(at.txId2, reg.userId, Tables.Transfer, 50_000, EUR, system(EUR).value, at.eurId,
                                OpeningBalance, None)]
            && at.usdId in after.accounts && after.accounts[at.usdId] == Account(Some(reg.userId), USD, 100_000, false)
            && at.eurId in after.accounts && after.accounts[at.eurId] == Account(Some(reg.userId), EUR, 50_000, false)
  {
    hide Lookup, RunOpening, SystemAccount;
    Outcomes.RegistrationLeaves(db, reg, at);
  }

  /** The body of Register and the answer it gives: a unique violation is reported as a taken name. */
  method Register(
    b: Backend, reg: Registration, ats: nat -> Attempt, faults: nat -> Option<Fault>,
    world: seq<World<Database>>, ghost system: Currency -> Option<string>)
    returns (outcome: Outcome, ghost attempt: nat)
    requires b.Valid() && WorldValid(world) && SystemKnown(world, system)
    modifies b.db
    ensures 1 <= attempt <= |world|
    ensures outcome == Registered ==>
              var alone := RunRegister(world[attempt - 1].committed, reg, ats(attempt));
              alone.Ok? && b.db.committed == alone.value.0
    ensures outcome == Registered ==>
              && system(USD).Some? && system(EUR).Some?
              && var before, at := world[attempt - 1].committed, ats(attempt);
              && b.db.committed.transactions == before.transactions
                   + [Transaction(at.txId, reg.userId, Tables.Transfer, 100_000, USD, system(USD).value, at.usdId,
                                  OpeningBalance, None),
                      Transaction(at.txId2, reg.userId, Tables.Transfer, 50_000, EUR, system(EUR).value, at.eurId,
                                  OpeningBalance, None)]
              && at.usdId in b.db.committed.accounts && at.eurId in b.db.committed.accounts
              && b.db.committed.accounts[at.usdId] == Account(Some(reg.userId), USD, 100_000, false)
              && b.db.committed.accounts[at.eurId] == Account(Some(reg.userId), EUR, 50_000, false)
    ensures outcome != Registered ==> b.db.committed == world[attempt - 1].committed
    ensures var error := From(Retried(RegisterOp(reg), ats, faults, system), world, 1, NOTHING).error;
            && (outcome == Registered <==> error == None)
            && (outcome == Conflict <==> error == Some(Postgres(UniqueViolation)))
  {
    hide From, Attempted, RunRegister, SystemKnown;
    var op := RegisterOp(reg);
    var err, c, attempts, slept := WithTx(b, op, NOTHING, ats, faults, world, system);
    attempt := attempts;
    ghost var final := Final(err, b.db.committed, c, attempts);
    if err.None? {
      ghost var before := Committed(op, NOTHING, ats, faults, world, system, final);
      KnownAt(world, system, attempt - 1);
      Opened(world[attempt - 1].committed, reg, ats(attempt), system);
    } else {
      Undone(op, NOTHING, ats, faults, world, system, final);
    }
    match err
    case None => return Registered, attempt;
    case Some(Postgres(UniqueViolation)) => return Conflict, attempt;
    case Some(_) => return Failed, attempt;
  }
}
