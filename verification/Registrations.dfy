/** The transaction body of Register, with its two opening balances (internal/handlers/auth.go:50-151). */
module Registrations {
  import opened Wrappers
  import opened Rates
  import opened Tables
  import opened Engine
  import opened Bodies
  import opened Stores
  import opened Runner
  import opened Service
  import Int64

  /**
   `createOpeningBalance`: a transaction from the system account, its two entries, and a relative update of
   the system balance. The user's account already holds the amount.
   */
  method CreateOpeningBalance(
    tx: SqlTx, b: Backend, reg: Registration, txId: string, accountId: string, currency: Currency, amount: int,
    ghost system: Currency -> Option<string>)
    returns (err: Option<Error>)
    requires b.Valid() && amount > 0 && SystemAnswers(b.db.committed.accounts, system)
    requires system(currency).Some? ==> system(currency).value in tx.view.accounts
    modifies tx`view
    ensures if system(currency).None? then err == Some(NoRows)
            else
              var r := RunOpening(old(tx.view), reg, txId, system(currency).value, accountId, currency, amount);
              if r.Err? then err == Some(r.error) else err == None && tx.view == r.value
    ensures err.None? ==>
              && system(currency).Some?
              && tx.view.transactions == old(tx.view.transactions)
                   + [Transaction(txId, reg.userId, Transfer, amount, currency, system(currency).value, accountId,
                                  OpeningBalance, None)]
              && tx.view.ledger == old(tx.view.ledger)
                   + [Entry(txId, system(currency).value, -amount, currency), Entry(txId, accountId, amount, currency)]
  {
    hide OneSystemEach, IsSystemAccount, SystemAccount, HasTransaction, HasRequest;
    var found := b.accounts.GetSystemAccount(currency);
    if found.Err? {
      return Some(found.error);
    }
    var systemId := found.value;
    err := b.transactions.Create(tx, OpeningRow(reg, txId, systemId, accountId, currency, amount));
    if err.Some? {
      return;
    }
    err := b.ledger.InsertEntries(tx, OpeningEntries(txId, systemId, accountId, currency, amount));
    if err.Some? {
      return;
    }
    var rows;
    rows, err := b.accounts.AdjustBalance(tx, systemId, -amount);
  }

  /** The user and both accounts can be created. */
  predicate CanOpen(db: Database, reg: Registration, at: Attempt) {
    && !Lookup(db, UserId(reg.userId)).taken && !Lookup(db, Username(reg.username)).taken
    && !Lookup(db, Email(reg.email)).taken
    && at.usdId !in db.accounts && at.eurId !in db.accounts && at.usdId != at.eurId
  }

  /** One opening balance, from the account GetSystemAccount answers. */
  function OpenedFrom(
    view: Database, reg: Registration, txId: string, systemId: Option<string>, accountId: string, currency: Currency,
    amount: int): Result<Database, Error>
    requires amount > 0
  {
    if systemId.None? || systemId.value !in view.accounts then Err(NoRows)
    else RunOpening(view, reg, txId, systemId.value, accountId, currency, amount)
  }

  /** One run of the closure, which assigns nothing outside itself. */
  function Attempted(
    db: Database, c: Captured, reg: Registration, at: Attempt, fault: Option<Fault>,
    system: Currency -> Option<string>): Ran<Database, Captured>
  {
    if Hits(fault, Creating) then Ran(Some(fault.value.error), db, c)
    else if !CanOpen(db, reg, at) then Ran(Some(Postgres(UniqueViolation)), db, c)
    else if Hits(fault, Posting) then Ran(Some(fault.value.error), db, c)
    else
      var usd := OpenedFrom(WithAccounts(db, reg, at), reg, at.txId, system(USD), at.usdId, USD, OPENING_USD);
      if usd.Err? then Ran(Some(usd.error), db, c)
      else if Hits(fault, Updating) then Ran(Some(fault.value.error), db, c)
      else
        var eur := OpenedFrom(usd.value, reg, at.txId2, system(EUR), at.eurId, EUR, OPENING_EUR);
        if eur.Err? then Ran(Some(eur.error), db, c)
        else if Hits(fault, Consuming) then Ran(Some(fault.value.error), db, c)
        else Ran(None, eur.value.(audit := eur.value.audit + [AuditRow(reg.userId, "register", reg.userId)]), c)
  }

  /** The closure, statement by statement. */
  method Closure(
    tx: SqlTx, b: Backend, reg: Registration, at: Attempt, fault: Option<Fault>, before: Captured,
    ghost system: Currency -> Option<string>)
    returns (err: Option<Error>, c: Captured)
    requires b.Valid() && tx.view == b.db.committed && SystemAnswers(tx.view.accounts, system)
    modifies tx
    ensures Ran(err, if err.None? then tx.view else old(tx.view), c) ==
            Attempted(old(tx.view), before, reg, at, fault, system)
  {
    hide SystemAnswers, HasTransaction, HasRequest, RunOpening;
    SystemsHeld(tx.view.accounts, system);
    c := before;
    if Hits(fault, Creating) {
      return Some(fault.value.error), c;
    }
    err := b.users.Create(tx, RegisteredUser(reg));
    if err.Some? {
      return;
    }
    err := b.accounts.Create(tx, at.usdId, reg.userId, USD, OPENING_USD);
    if err.Some? {
      return;
    }
    err := b.accounts.Create(tx, at.eurId, reg.userId, EUR, OPENING_EUR);
    if err.Some? {
      return;
    }
    assert tx.view == WithAccounts(old(tx.view), reg, at);
    if Hits(fault, Posting) {
      return Some(fault.value.error), c;
    }
    ghost var view := tx.view;
    err := CreateOpeningBalance(tx, b, reg, at.txId, at.usdId, USD, OPENING_USD, system);
    if err.Some? {
      return;
    }
    OpeningKeepsKeys(view, reg, at.txId, system(USD).value, at.usdId, USD, OPENING_USD);
    if Hits(fault, Updating) {
      return Some(fault.value.error), c;
    }
    err := CreateOpeningBalance(tx, b, reg, at.txId2, at.eurId, EUR, OPENING_EUR, system);
    if err.Some? {
      return;
    }
    if Hits(fault, Consuming) {
      return Some(fault.value.error), c;
    }
    b.audit.Log(tx, AuditRow(reg.userId, "register", reg.userId));
  }

  lemma SystemsHeld(accounts: map<string, Account>, system: Currency -> Option<string>)
    requires SystemAnswers(accounts, system)
    ensures forall c: Currency :: system(c).Some? ==> system(c).value in accounts
  {
    assert forall c: Currency :: SystemAccount(accounts, c) == system(c);
  }

  /** Without faults an attempt is the registration run alone; with them it can still only be that or an error. */
  lemma AttemptedIsRun(
    db: Database, c: Captured, reg: Registration, at: Attempt, fault: Option<Fault>, system: Currency -> Option<string>)
    requires SystemAnswers(db.accounts, system)
    ensures var ran, alone := Attempted(db, c, reg, at, fault, system), RunRegister(db, reg, at);
            && (fault.None? ==> ran.error == if alone.Ok? then None else Some(alone.error))
            && (ran.error.None? ==> alone.Ok? && alone.value.0 == ran.state && ran.captured == c)
  {
    hide OneSystemEach, HasTransaction, HasRequest, RunOpening;
    SystemsHeld(db.accounts, system);
    if CanOpen(db, reg, at) && system(USD).Some? {
      var view := WithAccounts(db, reg, at);
      if RunOpening(view, reg, at.txId, system(USD).value, at.usdId, USD, OPENING_USD).Ok? {
        OpeningKeepsKeys(view, reg, at.txId, system(USD).value, at.usdId, USD, OPENING_USD);
      }
    }
  }

  /** Registering with fresh identifiers succeeds exactly when both names are free and the system accounts can pay. */
  lemma RegistersExactlyWhen(db: Database, reg: Registration, at: Attempt)
    requires SystemAccountsSet(db.accounts)
    requires forall c: Currency :: 0 <= db.accounts[SystemAccount(db.accounts, c).value].balance <= Int64.MAX
    requires !Lookup(db, UserId(reg.userId)).taken
    requires at.usdId !in db.accounts && at.eurId !in db.accounts && at.usdId != at.eurId
    requires at.txId != at.txId2
    requires !HasTransaction(db.transactions, at.txId) && !HasTransaction(db.transactions, at.txId2)
    ensures var free := !Lookup(db, Username(reg.username)).taken && !Lookup(db, Email(reg.email)).taken;
            && (RunRegister(db, reg, at).Ok? <==>
                  && free
                  && db.accounts[SystemAccount(db.accounts, USD).value].balance >= OPENING_USD
                  && db.accounts[SystemAccount(db.accounts, EUR).value].balance >= OPENING_EUR)
            && (RunRegister(db, reg, at) == Err(Postgres(UniqueViolation)) <==> !free)
  {
  }
}
