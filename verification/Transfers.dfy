/**
 Transfer's closure over its captured variables, statement by statement, and the broadcasts that follow the
 commit (internal/services/transaction_service.go:107-206).
 */
module Transfers {
  import opened Wrappers
  import opened Rates
  import opened Tables
  import opened Engine
  import opened Stores
  import opened Runner
  import opened Hubs
  import opened Service
  import Int64
  import Money

  /** One run of the closure: assignments made before a failure stay made. */
  function Attempted(
    db: Database, c: Captured, req: TransferRequest, at: Attempt, fault: Option<Fault>): Ran<Database, Captured>
  {
    if Hits(fault, Locking) then Ran(Some(fault.value.error), db, c)
    else if req.fromId !in db.accounts || req.toId !in db.accounts then Ran(Some(NoRows), db, c)
    else
      var source, target := db.accounts[req.fromId], db.accounts[req.toId];
      if source.owner != Some(req.userId) then Ran(Some(UnauthorizedAccount), db, c)
      else if source.currency != target.currency then Ran(Some(CurrencyMismatch), db, c)
      else
        var toUserId := if target.owner.Some? then target.owner.value else c.toUserId;
        var c1 := c.(fromCurrency := Some(source.currency), toUserId := toUserId);
        if source.balance < req.amount then Ran(Some(InsufficientFunds), db, c1)
        else
          var newFrom, newTo := Int64.Wrap(source.balance - req.amount), Int64.Wrap(target.balance + req.amount);
          var c2 := c1.(fromAfter := newFrom, toAfter := newTo);
          if Hits(fault, Updating) then Ran(Some(fault.value.error), db, c2)
          else if newFrom < 0 || newTo < 0 then Ran(Some(Postgres(CheckViolation)), db, c2)
          else
            var c3 := c2.(transactionId := at.txId);
            var moved := db.(accounts := SetBalanceOf(SetBalanceOf(db.accounts, req.fromId, newFrom), req.toId, newTo));
            var recorded := Recorded(moved, req, at, source.currency, fault);
            if recorded.Err? then Ran(Some(recorded.error), db, c3) else Ran(None, recorded.value, c3)
  }

  /** The transaction row, its entries and the audit row, once the balances are written. */
  function Recorded(
    db: Database, req: TransferRequest, at: Attempt, currency: Currency, fault: Option<Fault>): Result<Database, Error>
  {
    var row := TransferRow(req, at, currency);
    if Hits(fault, Creating) then Err(fault.value.error)
    else if row.amount <= 0 then Err(Postgres(CheckViolation))
    else if IsTaken(db, row) then Err(Postgres(UniqueViolation))
    else if Hits(fault, Posting) then Err(fault.value.error)
    else
      Ok(db.(transactions := db.transactions + [row],
             ledger := db.ledger + TransferEntries(req, at, currency),
             audit := db.audit + [TransferAudit(req, at)]))
  }

  /** Without faults an attempt is the operation run alone; with them it can still only be that or an error. */
  lemma AttemptedIsRun(db: Database, c: Captured, req: TransferRequest, at: Attempt, fault: Option<Fault>)
    requires req.amount > 0
    ensures var ran, alone := Attempted(db, c, req, at, fault), RunTransfer(db, req, at);
            && (fault.None? ==> ran.error == if alone.Ok? then None else Some(alone.error))
            && (ran.error.None? ==>
                  && alone.Ok? && alone.value.0 == ran.state
                  && ran.captured == Told(alone.value.1, c))
  {
  }

  /** A receipt as captured variables: a target without owner leaves the user id it finds. */
  function Told(receipt: Receipt, before: Captured): Captured
    requires receipt.TransferReceipt?
  {
    var toUserId := if receipt.toUser.Some? then receipt.toUser.value else before.toUserId;
    Captured(receipt.transactionId, toUserId, receipt.fromBalance, receipt.toBalance, Some(receipt.currency),
        before.toCurrency)
  }

  /** The closure, statement by statement. */
  method Closure(tx: SqlTx, b: Backend, req: TransferRequest, at: Attempt, fault: Option<Fault>, before: Captured)
    returns (err: Option<Error>, c: Captured)
    requires Int64.Fits(req.amount) && AdmitTransfer(req).None?
    modifies tx
    ensures Ran(err, if err.None? then tx.view else old(tx.view), c) == Attempted(old(tx.view), before, req, at, fault)
    ensures err.None? ==>
              && Owns(old(tx.view), req.userId, req.fromId) && SameCurrency(old(tx.view), req.fromId, req.toId)
              && CanPay(old(tx.view), req.fromId, req.amount)
    ensures BothExist(old(tx.view), req.fromId, req.toId) && !Owns(old(tx.view), req.userId, req.fromId) ==>
              Hits(fault, Locking) || err == Some(UnauthorizedAccount)
  {
    assert req.fromId != req.toId && req.amount > 0;
    hide Int64.Wrap, Recorded, LockedInOrder;
    c := before;
    if Hits(fault, Locking) {
      return Some(fault.value.error), c;
    }
    var locked := LockTwoAccounts(tx, b.accounts, req.fromId, req.toId);
    if locked.Err? {
      return Some(locked.error), c;
    }
    var (source, target) := locked.value;
    if source.owner.None? || source.owner.value != req.userId {
      return Some(UnauthorizedAccount), c;
    }
    if source.currency != target.currency {
      return Some(CurrencyMismatch), c;
    }
    var currency := source.currency;
    c := c.(fromCurrency := Some(currency));
    if target.owner.Some? {
      c := c.(toUserId := target.owner.value);
    }
    if source.balance < req.amount {
      return Some(InsufficientFunds), c;
    }
    var newFrom := Int64.Wrap(source.balance - req.amount);
    var newTo := Int64.Wrap(target.balance + req.amount);
    c := c.(fromAfter := newFrom);
    c := c.(toAfter := newTo);
    if Hits(fault, Updating) {
      return Some(fault.value.error), c;
    }
    err := b.accounts.UpdateBalance(tx, req.fromId, newFrom);
    if err.Some? {
      return;
    }
    err := b.accounts.UpdateBalance(tx, req.toId, newTo);
    if err.Some? {
      return;
    }
    c := c.(transactionId := at.txId);
    err := Record(tx, b, req, at, currency, fault);
  }

  method Record(
    tx: SqlTx, b: Backend, req: TransferRequest, at: Attempt, currency: Currency, fault: Option<Fault>)
    returns (err: Option<Error>)
    requires Int64.Fits(req.amount) && req.amount > 0
    modifies tx`view
    ensures var r := Recorded(old(tx.view), req, at, currency, fault);
            if r.Err? then err == Some(r.error) else err == None && tx.view == r.value
  {
    hide Int64.Wrap, IsTaken;
    if Hits(fault, Creating) {
      return Some(fault.value.error);
    }
    err := b.transactions.Create(tx, TransferRow(req, at, currency));
    if err.Some? {
      return;
    }
    var entries := TransferEntries(req, at, currency);
    TransferEntriesBalance(req, at, currency);
    err := EnsureBalanced(entries);
    if err.Some? {
      return;
    }
    if Hits(fault, Posting) {
      return Some(fault.value.error);
    }
    err := b.ledger.InsertEntries(tx, entries);
    if err.Some? {
      return;
    }
    b.audit.Log(tx, TransferAudit(req, at));
  }

  // --------------------------------------------------------------- the broadcasts

  /** The only user ids a closure leaves are its target's owner and what it found. */
  lemma OwnerOrLeftover(db: Database, c: Captured, req: TransferRequest, at: Attempt, fault: Option<Fault>)
    ensures var left := Attempted(db, c, req, at, fault).captured.toUserId;
            left == c.toUserId || (req.toId in db.accounts && db.accounts[req.toId].owner == Some(left))
  {
  }

  /** What a committed transfer announces: the sender's balance, and the receiver's if the target has an owner. */
  ghost function Announced(req: TransferRequest, receipt: Receipt): seq<Call>
    requires receipt.TransferReceipt? && Int64.Fits(receipt.fromBalance) && Int64.Fits(receipt.toBalance)
  {
    var currency := CurrencyText(receipt.currency);
    [BroadcastCall(req.userId, BalanceUpdate(req.fromId, Money.Format(receipt.fromBalance), currency))] +
    if receipt.toUser.None? || receipt.toUser.value == "" then []
    else [BroadcastCall(receipt.toUser.value, BalanceUpdate(req.toId, Money.Format(receipt.toBalance), currency))]
  }

  /** So both parties are told the balances the committed database holds for their accounts. */
  lemma AnnouncedTells(db: Database, req: TransferRequest, at: Attempt)
    requires AdmitTransfer(req).None? && RunTransfer(db, req, at).Ok?
    ensures var (after, receipt) := RunTransfer(db, req, at).value;
            && receipt.TransferReceipt? && Int64.Fits(receipt.fromBalance) && Int64.Fits(receipt.toBalance)
            && BothTold(Announced(req, receipt), after, req)
  {
    hide HasTransaction, HasRequest, Int64.Wrap, Money.Format, Tells;
    var after := RunTransfer(db, req, at).value.0;
    PrintedTells(req.userId, after, req.fromId);
    if after.accounts[req.toId].owner.Some? {
      PrintedTells(after.accounts[req.toId].owner.value, after, req.toId);
    }
  }

  /** The sender is told first, and then the target's owner, exactly when it has one. */
  ghost predicate BothTold(calls: seq<Call>, db: Database, req: TransferRequest) {
    && req.toId in db.accounts
    && match db.accounts[req.toId].owner
       case None => |calls| == 1 && Tells(calls[0], req.userId, db, req.fromId)
       case Some(owner) =>
         && |calls| == (if owner == "" then 1 else 2) && Tells(calls[0], req.userId, db, req.fromId)
         && (owner != "" ==> Tells(calls[1], owner, db, req.toId))
  }

  /** The sender's balance, and the receiver's if there is one, from the variables the committed attempt left. */
  method Announce(hub: Hub, req: TransferRequest, c: Captured, ghost receipt: Receipt)
    requires receipt.TransferReceipt? && c == Told(receipt, NOTHING) && hub.Valid()
    requires Int64.Fits(receipt.fromBalance) && Int64.Fits(receipt.toBalance)
    modifies hub`calls, hub.known
    ensures hub.Valid() && hub.calls == old(hub.calls) + Announced(req, receipt)
    ensures hub.known == old(hub.known)
  {
    hide Money.Format, Holds, Reaching;
    var currency := CurrencyText(c.fromCurrency.value);
    var balance := Money.FormatMinor(c.fromAfter);
    hub.BroadcastBalance(req.userId, BalanceUpdate(req.fromId, balance, currency));
    if c.toUserId != "" {
      balance := Money.FormatMinor(c.toAfter);
      hub.BroadcastBalance(c.toUserId, BalanceUpdate(req.toId, balance, currency));
    }
    assert hub.calls == old(hub.calls) + Announced(req, receipt);
  }
}
