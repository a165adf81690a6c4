/**
 QuoteExchange, and Exchange's pre-check, closure and broadcasts, statement by statement
 (internal/services/transaction_service.go:209-489).
 */
module Exchanges {
  import opened Wrappers
  import opened Rates
  import opened Tables
  import opened Engine
  import opened Sums
  import opened Outcomes
  import opened Stores
  import opened Runner
  import opened Hubs
  import opened Service
  import Decimals
  import Int64
  import Money

  // --------------------------------------------------------------- QuoteExchange

  datatype Issued = Issued(id: string, rate: string, converted: int, expiresAt: int)

  /** The text of a directional rate is a positive number. */
  lemma RateTextIsPositive(base: Currency, counter: Currency)
    ensures var parsed := Decimals.Parse(RateText(DirectionalRate(base, counter)));
            parsed.Some? && parsed.value.coef > 0
  {
    RatesAre();
    Decimals.FixedTextParses(DirectionalRate(base, counter));
    RateTextReadsBack(base, counter);
  }

  method QuoteExchange(b: Backend, req: QuoteRequest, quoteId: string, now: int)
    returns (r: Result<Issued, Error>)
    requires b.Valid()
    modifies b.db
    ensures var issued := RunQuote(old(b.db.committed), quoteId, req, now);
            if issued.Err? then r == Err(issued.error) && b.db.committed == old(b.db.committed)
            else b.db.committed == issued.value
    ensures r.Ok? ==>
              && r.value.id == quoteId && quoteId in b.db.committed.quotes
              && var quote := b.db.committed.quotes[quoteId];
              && quote.rate == r.value.rate && quote.converted == r.value.converted
              && quote.expiresAt == r.value.expiresAt
    ensures var db := old(b.db.committed);
            Int64.Fits(req.amount) ==>
              (r.Ok? <==>
                && req.amount > 0 && BothExist(db, req.fromId, req.toId) && Owns(db, req.userId, req.fromId)
                && !SameCurrency(db, req.fromId, req.toId) && quoteId !in db.quotes
                && Int64.Fits(Exchanged(db.accounts[req.fromId].currency, req.amount)))
  {
    hide ConvertMinor, RateText, DirectionalRate, Decimals.Parse, Exchanged;
    if Int64.Fits(req.amount) {
      QuoteIssuedExactlyWhen(b.db.committed, quoteId, req, now);
    }
    if req.amount <= 0 {
      return Err(InvalidAmount);
    }
    if req.fromId == req.toId {
      return Err(InvalidExchangeRequest);
    }
    var source := b.accounts.GetByID(req.fromId);
    if source.Err? {
      return Err(source.error);
    }
    var target := b.accounts.GetByID(req.toId);
    if target.Err? {
      return Err(target.error);
    }
    if source.value.owner.None? || source.value.owner.value != req.userId {
      return Err(UnauthorizedAccount);
    }
    var base, counter := source.value.currency, target.value.currency;
    if base == counter || !IsExchangePairAllowed(base, counter) {
      return Err(InvalidExchangeRequest);
    }
    var rate := DirectionalRate(base, counter);
    var converted := ConvertMinor(req.amount, rate);
    var expiresAt := now + QUOTE_LIFETIME;
    RateTextIsPositive(base, counter);
    var quote := Quote(
      req.userId, req.fromId, req.toId, req.amount, converted, RateText(rate), base, counter, expiresAt, None);
    var err := b.quotes.Create(quoteId, quote);
    if err.Some? {
      return Err(err.value);
    }
    return Ok(Issued(quoteId, RateText(rate), converted, expiresAt));
  }

  // --------------------------------------------------------------- Exchange: before the transaction

  /** The closure's variables as Exchange starts it: the currencies are the quote's. */
  function Starting(db: Database, req: ExchangeRequest): Captured {
    if req.quoteId.Some? && req.quoteId.value in db.quotes then
      var quote := db.quotes[req.quoteId.value];
      NOTHING.(fromCurrency := Some(quote.base), toCurrency := Some(quote.counter))
    else NOTHING
  }

  method Prepare(b: Backend, req: ExchangeRequest, now: int) returns (r: Result<Terms, Error>, c: Captured)
    requires b.Valid()
    ensures r == AdmitExchange(b.db.committed, req, now)
    ensures r.Ok? ==> c == Starting(b.db.committed, req)
  {
    c := NOTHING;
    if req.amount <= 0 {
      return Err(InvalidAmount), c;
    }
    if req.quoteId.Some? {
      var quoteId := req.quoteId.value;
      var found := b.quotes.GetByID(quoteId);
      if found.None? {
        return Err(QuoteNotFound), c;
      }
      var quote := found.value;
      if quote.consumedAt.Some? {
        return Err(QuoteConsumed), c;
      }
      if now > quote.expiresAt {
        return Err(QuoteExpired), c;
      }
      if quote.userId != req.userId || quote.fromId != req.fromId || quote.toId != req.toId {
        return Err(InvalidExchangeRequest), c;
      }
      if quote.amount != req.amount {
        return Err(InvalidExchangeRequest), c;
      }
      var rate := Decimals.Parse(quote.rate);
      if rate.None? {
        return Err(InvalidExchangeRequest), c;
      }
      c := c.(fromCurrency := Some(quote.base), toCurrency := Some(quote.counter));
      return Ok(Terms(quoteId, rate.value, quote.converted)), c;
    }
    if req.quotedRate.Some? {
      var rate := Decimals.Parse(req.quotedRate.value);
      if rate.None? {
        return Err(InvalidExchangeRequest), c;
      }
      return Ok(Terms("", rate.value, 0)), c;
    }
    return Err(InvalidExchangeRequest), c;
  }

  // --------------------------------------------------------------- Exchange: the closure

  /** One run of the closure; `system` is what GetSystemAccount answers. */
  function Attempted(
    db: Database, c: Captured, req: ExchangeRequest, terms: Terms, at: Attempt, fault: Option<Fault>,
    system: Currency -> Option<string>): Ran<Database, Captured>
  {
    if Hits(fault, Locking) then Ran(Some(fault.value.error), db, c)
    else if req.fromId !in db.accounts || req.toId !in db.accounts then Ran(Some(NoRows), db, c)
    else
      var source, target := db.accounts[req.fromId], db.accounts[req.toId];
      if source.owner != Some(req.userId) then Ran(Some(UnauthorizedAccount), db, c)
      else
        var c1 := c.(fromCurrency := Some(source.currency), toCurrency := Some(target.currency));
        var plan := PlanExchange(req, terms, source, target);
        if plan.Err? then Ran(Some(plan.error), db, c1)
        else
          var c2 := c1.(fromAfter := plan.value.newFrom, toAfter := plan.value.newTo);
          var systemFrom, systemTo := system(source.currency), system(target.currency);
          var moved := Moved(db, req, plan.value, fault, systemFrom, systemTo);
          if moved.Err? then Ran(Some(moved.error), db, c2)
          else
            var c3 := c2.(transactionId := at.txId);
            var recorded := Recorded(moved.value, req, terms, at, plan.value, fault, systemFrom.value, systemTo.value);
            if recorded.Err? then Ran(Some(recorded.error), db, c3) else Ran(None, recorded.value, c3)
  }

  /** The system rows locked and the four balances written. */
  function Moved(
    db: Database, req: ExchangeRequest, plan: Plan, fault: Option<Fault>,
    systemFrom: Option<string>, systemTo: Option<string>): (r: Result<Database, Error>)
    ensures r.Ok? ==> systemFrom.Some? && systemTo.Some?
  {
    if Hits(fault, SystemLocking) then Err(fault.value.error)
    else if systemFrom.None? || systemTo.None? then Err(NoRows)
    else if systemFrom.value !in db.accounts || systemTo.value !in db.accounts then Err(NoRows)
    else
      var system := PlanSystem(req, plan, db.accounts[systemFrom.value], db.accounts[systemTo.value]);
      if system.Err? then Err(system.error)
      else if Hits(fault, Updating) then Err(fault.value.error)
      else if plan.newFrom < 0 || plan.newTo < 0 || system.value.0 < 0 then Err(Postgres(CheckViolation))
      else
        Ok(db.(accounts := ExchangedAccounts(db.accounts, req, plan, systemFrom.value, systemTo.value, system.value)))
  }

  /** The transaction row, its entries, the audit row and the quote's consumption. */
  function Recorded(
    db: Database, req: ExchangeRequest, terms: Terms, at: Attempt, plan: Plan, fault: Option<Fault>,
    systemFromId: string, systemToId: string): Result<Database, Error>
  {
    var row := ExchangeRow(req, terms, at, plan);
    if Hits(fault, Creating) then Err(fault.value.error)
    else if row.amount <= 0 then Err(Postgres(CheckViolation))
    else if IsTaken(db, row) then Err(Postgres(UniqueViolation))
    else if Hits(fault, Posting) then Err(fault.value.error)
    else if plan.converted == 0 then Err(Postgres(CheckViolation))
    else if terms.quoteId != "" && Hits(fault, Consuming) then Err(fault.value.error)
    else if terms.quoteId != "" && !Redeemable(db, terms.quoteId, at.now) then Err(QuoteConsumed)
    else
      Ok(db.(transactions := db.transactions + [row],
             ledger := db.ledger + ExchangeEntries(req, at, plan, systemFromId, systemToId),
             audit := db.audit + [ExchangeAudit(req, at)],
             quotes := if terms.quoteId == "" then db.quotes else ConsumedQuotes(db.quotes, terms.quoteId, at.now)))
  }

  /** The closure, statement by statement. */
  method Closure(
    tx: SqlTx, b: Backend, req: ExchangeRequest, terms: Terms, at: Attempt, fault: Option<Fault>, before: Captured,
    ghost system: Currency -> Option<string>)
    returns (err: Option<Error>, c: Captured)
    requires b.Valid() && Int64.Fits(req.amount) && req.amount > 0
    requires SystemAnswers(b.db.committed.accounts, system)
    modifies tx
    ensures Ran(err, if err.None? then tx.view else old(tx.view), c) ==
            Attempted(old(tx.view), before, req, terms, at, fault, system)
    ensures err.None? ==>
              && Owns(old(tx.view), req.userId, req.fromId) && BothExist(old(tx.view), req.fromId, req.toId)
              && !SameCurrency(old(tx.view), req.fromId, req.toId) && CanPay(old(tx.view), req.fromId, req.amount)
    ensures BothExist(old(tx.view), req.fromId, req.toId) && !Owns(old(tx.view), req.userId, req.fromId) ==>
              Hits(fault, Locking) || err == Some(UnauthorizedAccount)
  {
    hide Moved, Recorded, ConvertMinor, LockedInOrder, SystemAnswers, Int64.Wrap, Decimals.Equal, DirectionalRate;
    c := before;
    if Hits(fault, Locking) {
      return Some(fault.value.error), c;
    }
    var locked := LockTwoAccounts(tx, b.accounts, req.fromId, req.toId);
    if locked.Err? {
      return Some(locked.error), c;
    }
    var (source, target) := locked.value;
    if source.owner.None? || source.owner.value != req.userId {
      return Some(UnauthorizedAccount), c;
    }
    c := c.(fromCurrency := Some(source.currency));
    c := c.(toCurrency := Some(target.currency));
    if source.currency == target.currency || !IsExchangePairAllowed(source.currency, target.currency) {
      return Some(InvalidExchangeRequest), c;
    }
    var rate := DirectionalRate(source.currency, target.currency);
    if !Decimals.Equal(terms.rate, rate) {
      return Some(RateMismatch), c;
    }
    ConvertMinorIsConverted(req.amount, rate);
    var converted := ConvertMinor(req.amount, rate);
    if terms.expected != 0 && terms.expected != converted {
      return Some(RateMismatch), c;
    }
    if source.balance < req.amount {
      return Some(InsufficientFunds), c;
    }
    var newFrom := Int64.Wrap(source.balance - req.amount);
    var newTo := Int64.Wrap(target.balance + converted);
    c := c.(fromAfter := newFrom);
    c := c.(toAfter := newTo);
    var plan := Plan(converted, newFrom, newTo, source.currency, target.currency);
    var systemFromId, systemToId;
    err, systemFromId, systemToId := Move(tx, b, req, plan, fault, system);
    if err.Some? {
      return;
    }
    c := c.(transactionId := at.txId);
    err := Record(tx, b, req, terms, at, plan, fault, systemFromId, systemToId);
  }

  method Move(
    tx: SqlTx, b: Backend, req: ExchangeRequest, plan: Plan, fault: Option<Fault>,
    ghost system: Currency -> Option<string>)
    returns (err: Option<Error>, systemFromId: string, systemToId: string)
    requires b.Valid() && req.fromId in tx.view.accounts && req.toId in tx.view.accounts
    requires SystemAnswers(b.db.committed.accounts, system)
    modifies tx
    ensures err.None? ==> system(plan.source) == Some(systemFromId) && system(plan.target) == Some(systemToId)
    ensures var r := Moved(old(tx.view), req, plan, fault, system(plan.source), system(plan.target));
            if r.Err? then err == Some(r.error) else err == None && tx.view == r.value
  {
    hide Int64.Wrap, LockedInOrder, OneSystemEach, SystemAccount, ExchangedAccounts, IsSystemAccount;
    systemFromId, systemToId := "", "";
    if Hits(fault, SystemLocking) {
      return Some(fault.value.error), systemFromId, systemToId;
    }
    var found := b.accounts.GetSystemAccount(plan.source);
    if found.Err? {
      return Some(found.error), systemFromId, systemToId;
    }
    systemFromId := found.value;
    found := b.accounts.GetSystemAccount(plan.target);
    if found.Err? {
      return Some(found.error), systemFromId, systemToId;
    }
    systemToId := found.value;
    var locked := LockTwoAccounts(tx, b.accounts, systemFromId, systemToId);
    if locked.Err? {
      return Some(locked.error), systemFromId, systemToId;
    }
    var (systemFrom, systemTo) := locked.value;
    var newSystemFrom := Int64.Wrap(systemFrom.balance + req.amount);
    var newSystemTo := Int64.Wrap(systemTo.balance - plan.converted);
    if newSystemTo < 0 {
      return Some(InsufficientFunds), systemFromId, systemToId;
    }
    if Hits(fault, Updating) {
      return Some(fault.value.error), systemFromId, systemToId;
    }
    err := UpdateAll(tx, b, req, plan, systemFromId, systemToId, newSystemFrom, newSystemTo);
  }

  /** The four absolute balances, one after the other; a later one overwrites an earlier one of the same account. */
  method UpdateAll(
    tx: SqlTx, b: Backend, req: ExchangeRequest, plan: Plan,
    systemFromId: string, systemToId: string, newSystemFrom: int, newSystemTo: int)
    returns (err: Option<Error>)
    requires {req.fromId, req.toId, systemFromId, systemToId} <= tx.view.accounts.Keys && newSystemTo >= 0
    modifies tx`view
    ensures err.None? <==> plan.newFrom >= 0 && plan.newTo >= 0 && newSystemFrom >= 0
    ensures err.Some? ==> err == Some(Postgres(CheckViolation))
    ensures err.None? ==>
              var system := (newSystemFrom, newSystemTo);
              && tx.view == old(tx.view).(accounts := tx.view.accounts)
              && tx.view.accounts ==
                   ExchangedAccounts(old(tx.view).accounts, req, plan, systemFromId, systemToId, system)
  {
    err := b.accounts.UpdateBalance(tx, req.fromId, plan.newFrom);
    if err.Some? {
      return;
    }
    err := b.accounts.UpdateBalance(tx, req.toId, plan.newTo);
    if err.Some? {
      return;
    }
    err := b.accounts.UpdateBalance(tx, systemFromId, newSystemFrom);
    if err.Some? {
      return;
    }
    err := b.accounts.UpdateBalance(tx, systemToId, newSystemTo);
  }

  method Record(
    tx: SqlTx, b: Backend, req: ExchangeRequest, terms: Terms, at: Attempt, plan: Plan, fault: Option<Fault>,
    systemFromId: string, systemToId: string)
    returns (err: Option<Error>)
    requires Int64.Fits(req.amount) && req.amount > 0 && plan.source != plan.target && Int64.Fits(plan.converted)
    modifies tx`view
    ensures var r := Recorded(old(tx.view), req, terms, at, plan, fault, systemFromId, systemToId);
            if r.Err? then err == Some(r.error) else err == None && tx.view == r.value
  {
    hide Int64.Wrap, Int64.Fits, IsTaken, ExchangeEntries, ExchangeRow, ExchangeAudit, ConsumedQuotes, SumOf,
        HasCurrency;
    if Hits(fault, Creating) {
      return Some(fault.value.error);
    }
    err := b.transactions.Create(tx, ExchangeRow(req, terms, at, plan));
    if err.Some? {
      return;
    }
    var entries := ExchangeEntries(req, at, plan, systemFromId, systemToId);
    ExchangeEntriesBalance(req, at, plan, systemFromId, systemToId);
    err := EnsureBalancedByCurrency(entries);
    if err.Some? {
      return;
    }
    if Hits(fault, Posting) {
      return Some(fault.value.error);
    }
    err := b.ledger.InsertEntries(tx, entries);
    if err.Some? {
      return;
    }
    b.audit.Log(tx, ExchangeAudit(req, at));
    if terms.quoteId != "" {
      if Hits(fault, Consuming) {
        return Some(fault.value.error);
      }
      var consumed := b.quotes.Consume(tx, terms.quoteId, at.now);
      if consumed == 0 {
        return Some(QuoteConsumed);
      }
    }
  }

  /** Without faults an attempt is the operation run alone; with them it can still only be that or an error. */
  lemma AttemptedIsRun(
    db: Database, c: Captured, req: ExchangeRequest, terms: Terms, at: Attempt, fault: Option<Fault>,
    system: Currency -> Option<string>)
    requires Int64.Fits(req.amount) && req.amount > 0 && SystemAnswers(db.accounts, system)
    ensures var ran, alone := Attempted(db, c, req, terms, at, fault, system), RunExchange(db, req, terms, at);
            && (fault.None? ==> ran.error == if alone.Ok? then None else Some(alone.error))
            && (ran.error.None? ==>
                  && alone.Ok? && alone.value.0 == ran.state && alone.value.1.ExchangeReceipt?
                  && ran.captured == Told(alone.value.1, c))
  {
    hide OneSystemEach, ConvertMinor, Int64.Wrap, HasTransaction, HasRequest, Decimals.Equal, DirectionalRate, RateText;
  }

  /** A receipt as captured variables. */
  function Told(receipt: Receipt, before: Captured): Captured
    requires receipt.ExchangeReceipt?
  {
    Captured(receipt.transactionId, before.toUserId, receipt.fromBalance, receipt.toBalance,
             Some(receipt.fromCurrency), Some(receipt.toCurrency))
  }

  lemma BalancesFit(db: Database, req: ExchangeRequest, terms: Terms, at: Attempt)
    requires RunExchange(db, req, terms, at).Ok?
    ensures var receipt := RunExchange(db, req, terms, at).value.1;
            receipt.ExchangeReceipt? && Int64.Fits(receipt.fromBalance) && Int64.Fits(receipt.toBalance)
  {
    hide ConvertMinor, SystemAccount, HasTransaction, HasRequest, Decimals.Equal, DirectionalRate, RateText, Int64.Wrap;
  }

  // --------------------------------------------------------------- the broadcasts

  /** What a committed exchange announces: both balances, to the one user. */
  ghost function Announced(req: ExchangeRequest, receipt: Receipt): seq<Call>
    requires receipt.ExchangeReceipt? && Int64.Fits(receipt.fromBalance) && Int64.Fits(receipt.toBalance)
  {
    var source := BalanceUpdate(req.fromId, Money.Format(receipt.fromBalance), CurrencyText(receipt.fromCurrency));
    var target := BalanceUpdate(req.toId, Money.Format(receipt.toBalance), CurrencyText(receipt.toCurrency));
    [BroadcastCall(req.userId, source), BroadcastCall(req.userId, target)]
  }

  /** The user is told of source and destination, and for a user account the balance the database then holds. */
  ghost predicate BothTold(calls: seq<Call>, db: Database, req: ExchangeRequest) {
    && |calls| == 2 && calls[0].BroadcastCall? && calls[1].BroadcastCall?
    && calls[0].userId == req.userId && calls[1].userId == req.userId
    && calls[0].update.accountId == req.fromId && calls[1].update.accountId == req.toId
    && req.fromId in db.accounts && req.toId in db.accounts
    && (!db.accounts[req.fromId].isSystem ==> Tells(calls[0], req.userId, db, req.fromId))
    && (!db.accounts[req.toId].isSystem ==> Tells(calls[1], req.userId, db, req.toId))
  }

  lemma AnnouncedTells(db: Database, req: ExchangeRequest, terms: Terms, at: Attempt)
    requires RunExchange(db, req, terms, at).Ok?
    ensures var (after, receipt) := RunExchange(db, req, terms, at).value;
            && receipt.ExchangeReceipt? && Int64.Fits(receipt.fromBalance) && Int64.Fits(receipt.toBalance)
            && BothTold(Announced(req, receipt), after, req)
  {
    hide ConvertMinor, HasTransaction, HasRequest, Decimals.Equal, DirectionalRate, RateText, Int64.Wrap, Money.Format,
        Tells, CurrencyText, ConsumedQuotes;
    BalancesFit(db, req, terms, at);
    var after := RunExchange(db, req, terms, at).value.0;
    if !after.accounts[req.fromId].isSystem {
      PrintedTells(req.userId, after, req.fromId);
    }
    if !after.accounts[req.toId].isSystem {
      PrintedTells(req.userId, after, req.toId);
    }
  }

  /** Both balances, from the variables the committed attempt left. */
  method Announce(hub: Hub, req: ExchangeRequest, c: Captured, ghost receipt: Receipt, ghost before: Captured)
    requires receipt.ExchangeReceipt? && c == Told(receipt, before) && hub.Valid()
    requires Int64.Fits(receipt.fromBalance) && Int64.Fits(receipt.toBalance)
    modifies hub`calls, hub.known
    ensures hub.Valid() && hub.calls == old(hub.calls) + Announced(req, receipt)
    ensures hub.known == old(hub.known)
    ensures var n := |old(hub.calls)|;
            && |hub.calls| == n + 2 && hub.calls[n].BroadcastCall? && hub.calls[n + 1].BroadcastCall?
            && hub.calls[n].update.accountId == req.fromId && hub.calls[n + 1].update.accountId == req.toId
            && (c.fromAfter >= 0 ==> Money.Parse(hub.calls[n].update.balance) == Ok(c.fromAfter))
            && (c.toAfter >= 0 ==> Money.Parse(hub.calls[n + 1].update.balance) == Ok(c.toAfter))
  {
    hide Money.Format, Money.Parse, Holds, Reaching;
    Money.RoundTrip(c.fromAfter);
    Money.RoundTrip(c.toAfter);
    var balance := Money.FormatMinor(c.fromAfter);
    hub.BroadcastBalance(req.userId, BalanceUpdate(req.fromId, balance, CurrencyText(c.fromCurrency.value)));
    balance := Money.FormatMinor(c.toAfter);
    hub.BroadcastBalance(req.userId, BalanceUpdate(req.toId, balance, CurrencyText(c.toCurrency.value)));
    assert hub.calls == old(hub.calls) + Announced(req, receipt);
  }
}
