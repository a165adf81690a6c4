/**
 What holds after every interleaved run from a freshly migrated database: balances that agree with the ledger
 and add up, but for what exchanges into system accounts lose, a traceable history, and quotes and client
 requests used once.
 */
module Runs {
  import opened Wrappers
  import opened Rates
  import opened Tables
  import opened Engine
  import opened Sums
  import opened Books
  import opened Histories
  import opened Programs
  import opened Interleaved
  import Decimals
  import Int64
  import Money

  predicate IsSystemIn(db: Database, id: string) {
    id in db.accounts && db.accounts[id].isSystem
  }

  ghost predicate Good(start: Database, s: System) {
    && Inv(start, s)
    && SameHolders(start.accounts, s.committed.accounts)
    && Accounted(s.committed, Lost(s.committed)) && Traceable(s.committed)
  }

  /** Each operation, run alone, keeps the books and the history. */
  lemma OperationKeepsGood(db: Database, op: Operation, at: Attempt)
    requires Accounted(db, Lost(db)) && Traceable(db) && OpReady(db, op) && RunOperation(db, op, at).Ok?
    ensures var after := RunOperation(db, op, at).value.0; Accounted(after, Lost(after)) && Traceable(after)
  {
    hide RunTransfer, RunExchange, RunRegister, Accounted, Traceable, Lost, Exchanging;
    AccountedHasSystem(db);
    match op
    case TransferOp(req) =>
      TransferKeepsBooks(db, Lost(db), req, at);
      TransferLosesNothing(db, req, at);
      TransferIsTraceable(db, req, at);
    case ExchangeOp(req, terms) =>
      var (after, receipt) := RunExchange(db, req, terms, at).value;
      var d := SoundOutcome(db, Lost(db), req, terms, at, after, receipt);
      DealLoses(db, d, after);
      ExchangeIsTraceable(db, Lost(db), req, terms, at);
    case RegisterOp(reg) =>
      RegisterKeepsBooks(db, Lost(db), reg, at);
      RegisterLosesNothing(db, reg, at);
      RegisterIsTraceable(db, reg, at);
  }

  lemma AccountedHasSystem(db: Database)
    requires Accounted(db, Lost(db))
    ensures SystemAccountsSet(db.accounts)
  {
  }

  lemma CommitKeepsGood(start: Database, s: System, c: nat)
    requires Good(start, s) && c in s.sessions && s.sessions[c].Open? && s.sessions[c].tx.proc.Succeeded?
    ensures Good(start, SettleSession(s, c))
  {
    hide Solo, RunOperation, Accounted, Lost, Traceable, Apply, OpReady;
    var session := s.sessions[c];
    CommitIsOperation(s.committed, session);
    OperationKeepsGood(s.committed, session.op, session.at);
    ApplyAllKeepsHolders(s.committed, session.tx.writes);
    HoldersTransitive(start.accounts, s.committed.accounts, ApplyAll(s.committed, session.tx.writes).accounts);
    CommitKeepsInv(start, s, c);
  }

  lemma QuoteKeepsGood(start: Database, s: System, q: string, req: QuoteRequest)
    requires Good(start, s) && Enabled(s, IssueQuote(q, req))
    ensures Good(start, QuoteStep(s, q, req))
  {
    hide Inv, Accounted, Traceable, PlanQuote;
    QuoteKeepsInv(start, s, q, req);
    if RunQuote(s.committed, q, req, s.clock).Ok? {
      QuoteIsTraceable(s.committed, q, req, s.clock);
      BooksOnly(s.committed, RunQuote(s.committed, q, req, s.clock).value, Lost(s.committed));
    }
  }

  lemma DoKeepsGood(start: Database, s: System, a: Action)
    requires Good(start, s) && Enabled(s, a)
    ensures Good(start, Do(s, a))
  {
    hide Inv, Accounted, Lost, Traceable, Advance, Solo, AdmitExchange, AdmitTransfer, RunQuote, SameHolders, CanStep;
    DoKeepsInv(start, s, a);
    if a.Settle? && s.sessions[a.client].tx.proc.Succeeded? {
      CommitKeepsGood(start, s, a.client);
    } else if a.IssueQuote? {
      QuoteKeepsGood(start, s, a.quoteId, a.quote);
    }
  }

  lemma {:induction false} RunKeepsGood(s: System, actions: seq<Action>)
    requires Fresh(s.committed, s) && Initial(s.committed)
    ensures Good(s.committed, Run(s, actions))
  {
    hide Do, Inv, Enabled, Accounted, Traceable, Initial;
    if actions == [] {
      StartIsGood(s);
    } else {
      var before := Run(s, actions[..|actions| - 1]);
      RunKeepsGood(s, actions[..|actions| - 1]);
      if Enabled(before, actions[|actions| - 1]) {
        DoKeepsGood(s.committed, before, actions[|actions| - 1]);
      }
    }
  }

  lemma StartIsGood(s: System)
    requires Fresh(s.committed, s) && Initial(s.committed)
    ensures Good(s.committed, s)
  {
    InitialIsSound(s.committed);
    InitialIsTraceable(s.committed);
    FreshIsInv(s.committed, s);
  }

  // --------------------------------------------------------------- what every run guarantees

  /** The committed database after a run of a freshly migrated system. */
  ghost predicate After(s: System, actions: seq<Action>, db: Database) {
    Fresh(s.committed, s) && Initial(s.committed) && db == Run(s, actions).committed
  }

  /**
   No update is ever lost: a user account's cached balance is its ledger's sum; a system account has its seed
   on top, less the converted amounts of the exchanges into it.
   */
  lemma BalancesAgreeWithLedger(s: System, actions: seq<Action>, db: Database, id: string)
    requires After(s, actions, db) && id in db.accounts
    ensures db.accounts[id].balance - SumOf(OfAccount(id), db.ledger) ==
            if db.accounts[id].isSystem then SEED - Lost(db).In(db.accounts[id].currency) else 0
  {
    hide Run, Lost;
    RunKeepsGood(s, actions);
    assert Difference(db, id) == if db.accounts[id].isSystem then SEED - Lost(db).In(db.accounts[id].currency) else 0;
  }

  /**
   Money is conserved in each currency but for the conversions of exchanges into system accounts, and every
   balance stays between zero and the seed.
   */
  lemma MoneyIsConserved(s: System, actions: seq<Action>, db: Database)
    requires After(s, actions, db)
    ensures forall c: Currency :: TotalOf(db.accounts, c) == SEED - Lost(db).In(c) <= SEED
    ensures forall id | id in db.accounts :: 0 <= db.accounts[id].balance <= SEED
  {
    hide Run, Lost;
    RunKeepsGood(s, actions);
    forall id | id in db.accounts ensures 0 <= db.accounts[id].balance <= SEED {
      BalanceBounds(db, Lost(db), id);
    }
  }

  /** The books are sound, nothing being lost, exactly while no committed exchange went into a system account. */
  lemma NothingIsLostExactlyWhen(s: System, actions: seq<Action>, db: Database)
    requires After(s, actions, db)
    ensures Lost(db) == NO_LOSSES <==>
            forall i | 0 <= i < |db.transactions| :: !IntoSystem(db.accounts, db.transactions[i])
    ensures Sound(db) <==> forall i | 0 <= i < |db.transactions| :: !IntoSystem(db.accounts, db.transactions[i])
  {
    hide Run, Accounted, Exchanged, SumOf;
    RunKeepsGood(s, actions);
    forall i | 0 <= i < |db.transactions| && db.transactions[i].kind == Exchange ensures db.transactions[i].amount > 0 {
      assert RowSound(db, db.transactions[i]);
    }
    NothingLost(db.accounts, db.transactions);
    if Sound(db) {
      LossesAreKnown(db, NO_LOSSES);
      LossesAreKnown(db, Lost(db));
    }
  }

  /** In every run, wherever a transfer gets past its checks its two sums are exact and within bounds. */
  lemma TransferSumsNeverWrap(s: System, actions: seq<Action>, db: Database, req: TransferRequest)
    requires After(s, actions, db) && AdmitTransfer(req).None?
    requires req.fromId in db.accounts && req.toId in db.accounts
    requires PlanTransfer(req, db.accounts[req.fromId], db.accounts[req.toId]).Ok?
    ensures var (newFrom, newTo) := PlanTransfer(req, db.accounts[req.fromId], db.accounts[req.toId]).value;
            && newFrom == db.accounts[req.fromId].balance - req.amount >= 0
            && newTo == db.accounts[req.toId].balance + req.amount <= SEED
  {
    hide Run, Lost;
    RunKeepsGood(s, actions);
    TransferDoesNotWrap(db, Lost(db), req);
  }

  /** The same for an exchange: conversion, user sums and system sums are exact, and the conversion fits. */
  lemma ExchangeSumsNeverWrap(s: System, actions: seq<Action>, db: Database, req: ExchangeRequest, terms: Terms)
    requires After(s, actions, db) && req.amount > 0 && req.fromId in db.accounts && req.toId in db.accounts
    requires PlanExchange(req, terms, db.accounts[req.fromId], db.accounts[req.toId]).Ok?
    ensures var plan := PlanExchange(req, terms, db.accounts[req.fromId], db.accounts[req.toId]).value;
            var systemFrom, systemTo :=
                SystemAccount(db.accounts, plan.source), SystemAccount(db.accounts, plan.target);
            && systemFrom.Some? && systemTo.Some?
            && plan.converted == Exchanged(plan.source, req.amount) && Int64.Fits(plan.converted)
            && plan.newFrom == db.accounts[req.fromId].balance - req.amount
            && plan.newTo == db.accounts[req.toId].balance + plan.converted
            && Int64.Fits(db.accounts[systemFrom.value].balance + req.amount)
            && Int64.Fits(db.accounts[systemTo.value].balance - plan.converted)
  {
    hide Run, PlanExchange, Lost;
    RunKeepsGood(s, actions);
    ExchangeDoesNotWrap(db, Lost(db), req, terms);
  }

  /** Each transaction's entries cancel in each currency, are not zero, and carry their account's currency. */
  lemma EntriesBalance(s: System, actions: seq<Action>, db: Database)
    requires After(s, actions, db)
    ensures forall id: string, c: Currency :: SumOf(OfTransaction(id, c), db.ledger) == 0
    ensures SumOf(OfCurrency(USD), db.ledger) == 0 && SumOf(OfCurrency(EUR), db.ledger) == 0
    ensures forall i | 0 <= i < |db.ledger| ::
              && db.ledger[i].amount != 0 && HasTransaction(db.transactions, db.ledger[i].transactionId)
              && db.ledger[i].accountId in db.accounts
              && db.accounts[db.ledger[i].accountId].currency == db.ledger[i].currency
  {
    hide Run, Lost;
    RunKeepsGood(s, actions);
    forall i | 0 <= i < |db.ledger| ensures EntrySound(db, db.ledger[i]) {}
  }

  /** At most one committed transaction per user and client request id, and per transaction id. */
  lemma RequestsAreServedOnce(s: System, actions: seq<Action>, db: Database, i: nat, j: nat)
    requires After(s, actions, db) && i < j < |db.transactions|
    ensures db.transactions[i].id != db.transactions[j].id
    ensures db.transactions[i].requestId.Some? && db.transactions[i].userId == db.transactions[j].userId ==>
              db.transactions[i].requestId != db.transactions[j].requestId
  {
    hide Run, Accounted;
    RunKeepsGood(s, actions);
    assert !SameRequest(db.transactions[i], db.transactions[j]);
  }

  /**
   Each quote backs at most one committed exchange, and that exchange has its user, accounts and amount,
   converted what it promised, credited that to a user account, and began before it expired.
   */
  lemma QuotesAreUsedOnce(s: System, actions: seq<Action>, db: Database, i: nat)
    requires After(s, actions, db) && i < |db.transactions|
    requires db.transactions[i].metadata.ExchangeTerms? && db.transactions[i].metadata.quoteId != ""
    ensures forall j | 0 <= j < |db.transactions| && j != i :: !SameQuote(db.transactions[i], db.transactions[j])
    ensures var row := db.transactions[i];
            && row.metadata.quoteId in db.quotes
            && var quote := db.quotes[row.metadata.quoteId];
            && quote.userId == row.userId && quote.fromId == row.fromId && quote.toId == row.toId
            && quote.amount == row.amount && quote.converted == Exchanged(row.currency, row.amount)
            && (IsUserAccount(db, row.toId) ==> SumOf(OfPosting(row.id, row.toId), db.ledger) == quote.converted)
            && quote.consumedAt.Some? && quote.consumedAt.value < quote.expiresAt
  {
    hide Run, Accounted, SumOf, Exchanged;
    RunKeepsGood(s, actions);
    var rows := db.transactions;
    assert RowSound(db, rows[i]);
    forall j | 0 <= j < |rows| && j != i ensures !SameQuote(rows[i], rows[j]) {
      if j < i {
        assert !SameQuote(rows[j], rows[i]);
      }
    }
  }

  /** In every run a quote is consumed exactly when a committed exchange records it. */
  lemma ConsumedExactlyWhenUsed(s: System, actions: seq<Action>, db: Database, quoteId: string)
    requires After(s, actions, db) && quoteId in db.quotes && quoteId != ""
    ensures db.quotes[quoteId].consumedAt.Some? <==> IsUsed(db.transactions, quoteId)
  {
    hide Run, Accounted, SumOf, Exchanged;
    RunKeepsGood(s, actions);
    if IsUsed(db.transactions, quoteId) {
      var i :| 0 <= i < |db.transactions| && UsesQuote(db.transactions[i], quoteId);
      assert RowSound(db, db.transactions[i]);
    }
  }

  /**
   In every run the history view shows the stored rate and the conversion, which is what the ledger posted on
   the destination exactly when that is a user account.
   */
  lemma HistoryIsTrue(s: System, actions: seq<Action>, db: Database, i: nat)
    requires After(s, actions, db) && i < |db.transactions| && db.transactions[i].kind == Exchange
    ensures var row := db.transactions[i];
            && row.toId in db.accounts && db.accounts[row.toId].currency == ShownCurrency(row)
            && row.metadata.ExchangeTerms?
            && var posted := SumOf(OfPosting(row.id, row.toId), db.ledger);
            && Int64.Fits(posted) && Int64.Fits(Exchanged(row.currency, row.amount))
            && ExchangeDetails(row) == (row.metadata.rate, Money.Format(Exchanged(row.currency, row.amount)))
            && (ExchangeDetails(row) == (row.metadata.rate, Money.Format(posted)) <==> IsUserAccount(db, row.toId))
  {
    hide Run, Accounted, Traceable;
    RunKeepsGood(s, actions);
    HistoryAgreesWithLedger(db, i);
  }

  /**
   In every run each stored row says what the ledger posted: its amount off the source, and for a transfer onto the
   destination; the source is the row's user's own account, or, for an opening balance, the system account.
   */
  lemma RowsAreTrue(s: System, actions: seq<Action>, db: Database, i: nat)
    requires After(s, actions, db) && i < |db.transactions|
    ensures var row := db.transactions[i];
            && row.amount > 0 && row.fromId in db.accounts && row.toId in db.accounts && row.fromId != row.toId
            && db.accounts[row.fromId].currency == row.currency
            && SumOf(OfPosting(row.id, row.fromId), db.ledger) == -row.amount
            && (row.kind == Transfer ==>
                 && db.accounts[row.toId].currency == row.currency
                 && SumOf(OfPosting(row.id, row.toId), db.ledger) == row.amount
                 && ExchangeDetails(row) == ("", ""))
            && (row.metadata.OpeningBalance? ==>
                 && Some(row.fromId) == SystemAccount(db.accounts, row.currency)
                 && db.accounts[row.toId].owner == Some(row.userId)
                 && row.amount == if row.currency == USD then 100_000 else 50_000)
            && (!row.metadata.OpeningBalance? ==> db.accounts[row.fromId].owner == Some(row.userId))
  {
    hide Run, Inv, SameHolders, Accounted, Lost, Traceable, SumOf, Exchanged, ShownCurrency, CreditSound, BackedBy,
        RateText, SystemAccountsSet, Initial;
    RunKeepsGood(s, actions);
    AccountedHasSystem(db);
    TraceableRow(db, i);
    OneSystemAccount(db.accounts, db.transactions[i].fromId);
  }

  lemma TraceableRow(db: Database, i: nat)
    requires Traceable(db) && i < |db.transactions|
    ensures RowSound(db, db.transactions[i])
  {
  }

  lemma OneSystemAccount(accounts: map<string, Account>, id: string)
    requires SystemAccountsSet(accounts)
    ensures id in accounts && accounts[id].isSystem ==> SystemAccount(accounts, accounts[id].currency) == Some(id)
  {
    if id in accounts && accounts[id].isSystem {
      assert IsSystemAccount(accounts, id, accounts[id].currency);
    }
  }

  lemma {:induction false} ReplayPaidByOwners(db: Database, log: seq<Event>)
    requires Replay(db, log).Some?
    ensures var after := Replay(db, log).value;
            && SameHolders(db.accounts, after.accounts)
            && forall i | 0 <= i < |log| && log[i].Committed? :: PaidByOwner(after.accounts, log[i].op)
  {
    hide RunOperation, RunQuote, PaidByOwner, SameHolders;
    if log == [] {
      SameHoldersReflexive(db.accounts);
    } else {
      var front, last := log[..|log| - 1], log[|log| - 1];
      var before, after := Replay(db, front).value, Replay(db, log).value;
      ReplayPaidByOwners(db, front);
      match last {
        case Quoted(q, req, now) =>
          QuoteServes(before, q, req, now);
          SameHoldersReflexive(before.accounts);
        case Committed(_, op, at, _) =>
          OperationKeepsHolders(before, op, at);
          OnlyOwnersPay(before, op, at);
      }
      HoldersTransitive(db.accounts, before.accounts, after.accounts);
      forall i | 0 <= i < |log| && log[i].Committed? ensures PaidByOwner(after.accounts, log[i].op) {
        if i < |front| {
          assert log[i] == front[i];
        }
        PaidByOwnerStays(before.accounts, after.accounts, log[i].op);
      }
    }
  }

  lemma SameHoldersReflexive(accounts: map<string, Account>)
    ensures SameHolders(accounts, accounts)
  {
  }

  lemma PaidByOwnerStays(a: map<string, Account>, b: map<string, Account>, op: Operation)
    requires SameHolders(a, b) && PaidByOwner(a, op)
    ensures PaidByOwner(b, op)
  {
  }

  /** Whatever the schedule, every committed transfer or exchange took its money from an account its own user owns. */
  lemma OwnersPay(s: System, actions: seq<Action>, i: nat)
    requires Fresh(s.committed, s) && SystemAccountsSet(s.committed.accounts)
    requires i < |Run(s, actions).log| && Run(s, actions).log[i].Committed?
    ensures var accounts, op := Run(s, actions).committed.accounts, Run(s, actions).log[i].op;
            && (op.TransferOp? ==>
                 && op.transfer.fromId in accounts
                 && accounts[op.transfer.fromId].owner == Some(op.transfer.userId))
            && (op.ExchangeOp? ==>
                 && op.exchange.fromId in accounts
                 && accounts[op.exchange.fromId].owner == Some(op.exchange.userId))
  {
    hide Run, Replay, SameHolders;
    Serializable(s, actions);
    ReplayPaidByOwners(s.committed, Run(s, actions).log);
    assert PaidByOwner(Run(s, actions).committed.accounts, Run(s, actions).log[i].op);
  }

  /** Owners, currencies and the system flag never change in any run, and no system account is added. */
  lemma HoldersNeverChange(s: System, actions: seq<Action>, db: Database)
    requires After(s, actions, db)
    ensures SameHolders(s.committed.accounts, db.accounts)
  {
    hide Run;
    RunKeepsGood(s, actions);
  }

  // --------------------------------------------------------------- repeated requests

  /** No operation ends with an error that would be retried: retries come from faults alone. */
  lemma OperationErrorsAreFinal(db: Database, op: Operation, at: Attempt)
    requires RunOperation(db, op, at).Err?
    ensures !Retryable(RunOperation(db, op, at).error)
  {
    hide ConvertMinor, DirectionalRate, HasTransaction, HasRequest, RateText, Int64.Wrap, SetBalanceOf, ConsumedQuotes;
  }

  function RequestOf(op: Operation): Option<(string, string)> {
    match op
    case TransferOp(req) => if req.requestId.Some? then Some((req.userId, req.requestId.value)) else None
    case ExchangeOp(req, _) => if req.requestId.Some? then Some((req.userId, req.requestId.value)) else None
    case RegisterOp(_) => None
  }

  function WithoutRequest(op: Operation): Operation {
    match op
    case TransferOp(req) => TransferOp(req.(requestId := None))
    case ExchangeOp(req, terms) => ExchangeOp(req.(requestId := None), terms)
    case RegisterOp(_) => op
  }

  /**
   A repeat of a served client request is refused with an error that is not retried, and the error is the
   unique violation whenever the request would have gone through without its id.
   */
  lemma RepeatIsRefused(db: Database, op: Operation, at: Attempt)
    requires RequestOf(op).Some? && HasRequest(db.transactions, RequestOf(op).value.0, RequestOf(op).value.1)
    ensures RunOperation(db, op, at).Err? && !Retryable(RunOperation(db, op, at).error)
    ensures RunOperation(db, WithoutRequest(op), at).Ok? ==> RunOperation(db, op, at) == Err(Postgres(UniqueViolation))
  {
    hide HasRequest, HasTransaction;
    match op
    case TransferOp(req) =>
    case ExchangeOp(req, terms) =>
      RepeatedExchange(db, req, terms, at);
  }

  lemma RepeatedExchange(db: Database, req: ExchangeRequest, terms: Terms, at: Attempt)
    requires req.requestId.Some? && HasRequest(db.transactions, req.userId, req.requestId.value)
    ensures RunExchange(db, req, terms, at).Err? && !Retryable(RunExchange(db, req, terms, at).error)
    ensures RunExchange(db, req.(requestId := None), terms, at).Ok? ==>
              RunExchange(db, req, terms, at) == Err(Postgres(UniqueViolation))
  {
    hide HasRequest, HasTransaction, SettleExchange, ConvertMinor, DirectionalRate, Int64.Wrap, Decimals.Equal;
    var bare := req.(requestId := None);
    if RunExchange(db, req, terms, at).Ok? || RunExchange(db, bare, terms, at).Ok? {
      var d := ExchangeSettles(db, if RunExchange(db, req, terms, at).Ok? then req else bare, terms, at);
      RepeatedSettlement(db, req, terms, at, d.plan, d.systemFrom, d.systemTo);
    }
    if RunExchange(db, req, terms, at).Err? {
      OperationErrorsAreFinal(db, ExchangeOp(req, terms), at);
    }
  }

  lemma RepeatedSettlement(
    db: Database, req: ExchangeRequest, terms: Terms, at: Attempt, plan: Plan, systemFrom: string, systemTo: string)
    requires systemFrom in db.accounts && systemTo in db.accounts
    requires req.requestId.Some? && HasRequest(db.transactions, req.userId, req.requestId.value)
    ensures SettleExchange(db, req, terms, at, plan, systemFrom, systemTo).Err?
    ensures SettleExchange(db, req.(requestId := None), terms, at, plan, systemFrom, systemTo).Ok? ==>
              SettleExchange(db, req, terms, at, plan, systemFrom, systemTo) == Err(Postgres(UniqueViolation))
  {
    hide HasRequest, HasTransaction, RateText, DirectionalRate, Int64.Wrap, ExchangedAccounts, Redeemable;
  }

  /** An operation keeps every served request and adds its own. */
  lemma OperationServes(db: Database, op: Operation, at: Attempt)
    requires RunOperation(db, op, at).Ok?
    ensures var after := RunOperation(db, op, at).value.0;
            && (forall u, r :: HasRequest(db.transactions, u, r) ==> HasRequest(after.transactions, u, r))
            && (RequestOf(op).Some? ==> HasRequest(after.transactions, RequestOf(op).value.0, RequestOf(op).value.1))
  {
    hide HasRequest, HasTransaction, PlanExchange, SettleExchange, Lookup;
    match op
    case TransferOp(req) => HasAppended(db.transactions, TransferRow(req, at, db.accounts[req.fromId].currency));
    case ExchangeOp(req, terms) =>
      var d := ExchangeSettles(db, req, terms, at);
      ExchangeAppends(db, d);
      HasAppended(db.transactions, DealRow(d));
    case RegisterOp(reg) =>
      var systemUsd, systemEur := SystemAccount(db.accounts, USD).value, SystemAccount(db.accounts, EUR).value;
      var first := OpeningRow(reg, at.txId, systemUsd, at.usdId, USD, OPENING_USD);
      HasAppended(db.transactions, first);
      HasAppended(db.transactions + [first], OpeningRow(reg, at.txId2, systemEur, at.eurId, EUR, OPENING_EUR));
  }

  lemma ExchangeAppends(db: Database, d: Deal)
    requires d.systemFrom in db.accounts && d.systemTo in db.accounts
    requires SettleExchange(db, d.req, d.terms, d.at, d.plan, d.systemFrom, d.systemTo).Ok?
    ensures SettleExchange(db, d.req, d.terms, d.at, d.plan, d.systemFrom, d.systemTo).value.0.transactions ==
            db.transactions + [DealRow(d)]
  {
  }

  ghost predicate Serves(db: Database, e: Event) {
    e.Committed? && RequestOf(e.op).Some? ==>
      HasRequest(db.transactions, RequestOf(e.op).value.0, RequestOf(e.op).value.1)
  }

  predicate SameServed(a: Event, b: Event) {
    a.Committed? && b.Committed? && RequestOf(a.op).Some? && RequestOf(a.op) == RequestOf(b.op)
  }

  lemma {:induction false} ReplayServesOnce(db: Database, log: seq<Event>)
    requires Replay(db, log).Some?
    ensures forall i | 0 <= i < |log| :: Serves(Replay(db, log).value, log[i])
    ensures forall i, j | 0 <= i < j < |log| :: !SameServed(log[i], log[j])
  {
    hide RunOperation, RequestOf, HasRequest, RunQuote;
    if log != [] {
      var front, last := log[..|log| - 1], log[|log| - 1];
      var before := Replay(db, front).value;
      ReplayServesOnce(db, front);
      assert forall i | 0 <= i < |front| :: log[i] == front[i];
      match last
      case Quoted(q, req, now) => QuoteServes(before, q, req, now);
      case Committed(_, op, at, _) =>
        OperationServes(before, op, at);
        if RequestOf(op).Some? && HasRequest(before.transactions, RequestOf(op).value.0, RequestOf(op).value.1) {
          RepeatIsRefused(before, op, at);
        }
    }
  }

  lemma QuoteServes(db: Database, quoteId: string, req: QuoteRequest, now: int)
    requires RunQuote(db, quoteId, req, now).Ok?
    ensures var after := RunQuote(db, quoteId, req, now).value;
            after.transactions == db.transactions && after.accounts == db.accounts
  {
  }

  /** Whatever the schedule, no two committed operations have the same client request: a repeat never gets a receipt. */
  lemma RequestsAreGrantedOnce(s: System, actions: seq<Action>, i: nat, j: nat)
    requires Fresh(s.committed, s) && SystemAccountsSet(s.committed.accounts)
    requires var log := Run(s, actions).log;
             && i < j < |log| && log[i].Committed? && log[j].Committed? && RequestOf(log[i].op).Some?
    ensures RequestOf(Run(s, actions).log[i].op) != RequestOf(Run(s, actions).log[j].op)
  {
    hide Run, Replay, RequestOf;
    Serializable(s, actions);
    ReplayServesOnce(s.committed, Run(s, actions).log);
    assert !SameServed(Run(s, actions).log[i], Run(s, actions).log[j]);
  }
}
