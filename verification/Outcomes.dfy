/**
 When each operation succeeds, with which error it fails otherwise, and what it then leaves, told from the rows of
 the database alone (internal/services/transaction_service.go, internal/handlers/auth.go:50-151).
 */
module Outcomes {
  import opened Wrappers
  import opened Rates
  import opened Tables
  import opened Engine
  import opened Books
  import Decimals
  import Int64

  /** The transaction id, or the user's client request id, is already stored. */
  predicate AlreadyTaken(db: Database, userId: string, requestId: Option<string>, txId: string) {
    || (exists i | 0 <= i < |db.transactions| :: db.transactions[i].id == txId)
    || (requestId.Some? && exists i | 0 <= i < |db.transactions| ::
          db.transactions[i].userId == userId && db.transactions[i].requestId == requestId)
  }

  function MovedBy(accounts: map<string, Account>, id: string, delta: int): Account
    requires id in accounts
  {
    accounts[id].(balance := accounts[id].balance + delta)
  }

  // --------------------------------------------------------------- Transfer

  /** Only the owner can move money out of an account, to any other of its currency; each failure has its error. */
  lemma TransferSucceedsExactlyWhen(db: Database, lost: Losses, req: TransferRequest, at: Attempt)
    requires NoNegative(db) && Conserved(db, lost)
    ensures AdmitTransfer(req).None? <==> req.amount > 0 && req.fromId != req.toId
    ensures AdmitTransfer(req) == Some(InvalidAmount) <==> req.amount <= 0
    ensures AdmitTransfer(req) == Some(SameAccountTransfer) <==> req.amount > 0 && req.fromId == req.toId
    ensures AdmitTransfer(req).None? ==>
              var run, exist := RunTransfer(db, req, at), BothExist(db, req.fromId, req.toId);
              var owned, alike := Owns(db, req.userId, req.fromId), SameCurrency(db, req.fromId, req.toId);
              var funded, taken :=
                  CanPay(db, req.fromId, req.amount), AlreadyTaken(db, req.userId, req.requestId, at.txId);
              && (run.Ok? <==> exist && owned && alike && funded && !taken)
              && (run == Err(NoRows) <==> !exist)
              && (run == Err(UnauthorizedAccount) <==> exist && !owned)
              && (run == Err(CurrencyMismatch) <==> exist && owned && !alike)
              && (run == Err(InsufficientFunds) <==> exist && owned && alike && !funded)
              && (run == Err(Postgres(UniqueViolation)) <==> exist && owned && alike && funded && taken)
  {
    hide NoNegative, Conserved, Int64.Wrap;
    if AdmitTransfer(req).None? && BothExist(db, req.fromId, req.toId) {
      BalanceBounds(db, lost, req.toId);
      if PlanTransfer(req, db.accounts[req.fromId], db.accounts[req.toId]).Ok? {
        TransferDoesNotWrap(db, lost, req);
      }
    }
  }

  /** What a committed transfer leaves: two balances moved, one row, two entries and an audit row. */
  lemma TransferLeaves(db: Database, lost: Losses, req: TransferRequest, at: Attempt)
    requires NoNegative(db) && Conserved(db, lost) && AdmitTransfer(req).None? && RunTransfer(db, req, at).Ok?
    ensures BothExist(db, req.fromId, req.toId)
    ensures var after, currency := RunTransfer(db, req, at).value.0, db.accounts[req.fromId].currency;
            && after.accounts == db.accounts[req.fromId := MovedBy(db.accounts, req.fromId, -req.amount)]
                                            [req.toId := MovedBy(db.accounts, req.toId, req.amount)]
            && after.transactions ==
               db.transactions + [Transaction(at.txId, req.userId, Transfer, req.amount, currency, req.fromId,
                                              req.toId, NoMetadata, req.requestId)]
            && after.ledger == db.ledger + [Entry(at.txId, req.fromId, -req.amount, currency),
                                            Entry(at.txId, req.toId, req.amount, currency)]
            && after.audit == db.audit + [AuditRow(req.userId, "transfer", at.txId)]
            && after.users == db.users && after.quotes == db.quotes
    ensures var (source, target) := (db.accounts[req.fromId], db.accounts[req.toId]);
            RunTransfer(db, req, at).value.1 ==
            TransferReceipt(at.txId, source.balance - req.amount, target.balance + req.amount, source.currency,
                            target.owner)
  {
    hide NoNegative, Conserved, HasTransaction, HasRequest;
    TransferDoesNotWrap(db, lost, req);
    hide Int64.Wrap;
  }

  // --------------------------------------------------------------- QuoteExchange

  /** The conversion of a 64-bit amount is a positive 64-bit number exactly when it fits, however it was cut. */
  lemma ConvertedFitsExactlyWhenPositive(source: Currency, amount: int)
    requires 0 < amount && Int64.Fits(amount)
    ensures var converted := ConvertMinor(amount, DirectionalRate(source, Other(source)));
            && (converted > 0 <==> Int64.Fits(Exchanged(source, amount)))
            && (converted > 0 ==> converted == Exchanged(source, amount))
  {
    ConvertMinorIsConverted(amount, DirectionalRate(source, Other(source)));
    ExchangedPositive(source, amount);
    hide Exchanged, ConvertMinor, DirectionalRate;
  }

  /** A quote is issued to the owner of the source, in either direction; or the error says why not. */
  lemma QuoteIssuedExactlyWhen(db: Database, quoteId: string, req: QuoteRequest, now: int)
    requires Int64.Fits(req.amount)
    ensures var run, exist := RunQuote(db, quoteId, req, now), BothExist(db, req.fromId, req.toId);
            var positive, differ := req.amount > 0, req.fromId != req.toId;
            var owned, alike := Owns(db, req.userId, req.fromId), SameCurrency(db, req.fromId, req.toId);
            var fits := exist && Int64.Fits(Exchanged(db.accounts[req.fromId].currency, req.amount));
            && (run.Ok? <==> positive && exist && owned && !alike && fits && quoteId !in db.quotes)
            && (run == Err(InvalidAmount) <==> !positive)
            && (run == Err(InvalidExchangeRequest) <==> positive && (!differ || (exist && owned && alike)))
            && (run == Err(NoRows) <==> positive && differ && !exist)
            && (run == Err(UnauthorizedAccount) <==> positive && differ && exist && !owned)
            && (run == Err(Postgres(CheckViolation)) <==> positive && exist && owned && !alike && !fits)
            && (run == Err(Postgres(UniqueViolation)) <==>
                 positive && exist && owned && !alike && fits && quoteId in db.quotes)
  {
    hide Exchanged, ConvertMinor, DirectionalRate, RateText;
    if req.amount > 0 && BothExist(db, req.fromId, req.toId) {
      var source, target := db.accounts[req.fromId].currency, db.accounts[req.toId].currency;
      if source != target {
        assert target == Other(source);
        ConvertedFitsExactlyWhenPositive(source, req.amount);
      }
    }
  }

  /** The quote that is stored: the request, its conversion, the rate to six places, and two minutes to live. */
  lemma QuoteLeaves(db: Database, quoteId: string, req: QuoteRequest, now: int)
    requires Int64.Fits(req.amount) && RunQuote(db, quoteId, req, now).Ok?
    ensures req.fromId in db.accounts
    ensures var base := db.accounts[req.fromId].currency;
            var rate := if base == USD then "0.920000" else "1.086957";
            var quote := Quote(req.userId, req.fromId, req.toId, req.amount, Exchanged(base, req.amount), rate,
                               base, Other(base), now + 120, None);
            RunQuote(db, quoteId, req, now).value == db.(quotes := db.quotes[quoteId := quote])
  {
    hide Exchanged, ConvertMinor, DirectionalRate, RateText;
    RateTextsAre();
    ConvertedFitsExactlyWhenPositive(db.accounts[req.fromId].currency, req.amount);
  }

  // --------------------------------------------------------------- Exchange

  /** The rate the client was shown is the one in force, and so is the conversion, when one was quoted. */
  predicate TermsHold(terms: Terms, base: Currency, amount: int) {
    && Decimals.Equal(terms.rate, if base == USD then Decimals.Decimal(92, -2) else Decimals.Decimal(1086957, -6))
    && (terms.expected == 0 || terms.expected == Int64.Wrap(Exchanged(base, amount)))
  }

  /** No quote is to be consumed, or it still can be. */
  predicate QuoteOpen(db: Database, quoteId: string, now: int) {
    quoteId == "" || (quoteId in db.quotes && db.quotes[quoteId].consumedAt.None? && now < db.quotes[quoteId].expiresAt)
  }

  /** The user's account can pay the amount, and the system account of the other currency its conversion. */
  ghost predicate Funded(db: Database, req: ExchangeRequest) {
    && CanPay(db, req.fromId, req.amount)
    && var base := db.accounts[req.fromId].currency;
    && var systemTo := SystemAccount(db.accounts, Other(base));
    && systemTo.Some? && CanPay(db, systemTo.value, Exchanged(base, req.amount))
  }

  /** Only the owner can exchange out of an account, and each failure has its error. */
  lemma ExchangeSucceedsExactlyWhen(db: Database, lost: Losses, req: ExchangeRequest, terms: Terms, at: Attempt)
    requires SystemAccountsSet(db.accounts) && NoNegative(db) && Conserved(db, lost) && req.amount > 0
    ensures var run, exist := RunExchange(db, req, terms, at), BothExist(db, req.fromId, req.toId);
            var owned, alike := Owns(db, req.userId, req.fromId), SameCurrency(db, req.fromId, req.toId);
            var agreed := exist && TermsHold(terms, db.accounts[req.fromId].currency, req.amount);
            var funded, taken := Funded(db, req), AlreadyTaken(db, req.userId, req.requestId, at.txId);
            var open := QuoteOpen(db, terms.quoteId, at.now);
            && (run.Ok? <==> exist && owned && !alike && agreed && funded && !taken && open)
            && (run == Err(NoRows) <==> !exist)
            && (run == Err(UnauthorizedAccount) <==> exist && !owned)
            && (run == Err(InvalidExchangeRequest) <==> exist && owned && alike)
            && (run == Err(RateMismatch) <==> exist && owned && !alike && !agreed)
            && (run == Err(InsufficientFunds) <==> exist && owned && !alike && agreed && !funded)
            && (run == Err(Postgres(UniqueViolation)) <==> exist && owned && !alike && agreed && funded && taken)
            && (run == Err(QuoteConsumed) <==> exist && owned && !alike && agreed && funded && !taken && !open)
  {
    hide NoNegative, Conserved, SystemAccountsSet, PlanExchange, SettleExchange, AlreadyTaken, QuoteOpen, TermsHold,
        Exchanged;
    if BothExist(db, req.fromId, req.toId) {
      PlannedExactlyWhen(req, terms, db.accounts[req.fromId], db.accounts[req.toId]);
      var plan := PlanExchange(req, terms, db.accounts[req.fromId], db.accounts[req.toId]);
      if plan.Ok? {
        ExchangeDoesNotWrap(db, lost, req, terms);
        var systemFrom, systemTo :=
            SystemAccount(db.accounts, plan.value.source).value, SystemAccount(db.accounts, plan.value.target).value;
        SettlesExactlyWhen(db, Deal(req, terms, at, plan.value, systemFrom, systemTo));
      }
    }
  }

  /** What the two user accounts decide. */
  lemma PlannedExactlyWhen(req: ExchangeRequest, terms: Terms, source: Account, target: Account)
    requires req.amount > 0
    ensures var plan, agreed := PlanExchange(req, terms, source, target), TermsHold(terms, source.currency, req.amount);
            var owned, alike := source.owner == Some(req.userId), source.currency == target.currency;
            && (plan.Ok? <==> owned && !alike && agreed && source.balance >= req.amount)
            && (plan == Err(UnauthorizedAccount) <==> !owned)
            && (plan == Err(InvalidExchangeRequest) <==> owned && alike)
            && (plan == Err(RateMismatch) <==> owned && !alike && !agreed)
            && (plan == Err(InsufficientFunds) <==> owned && !alike && agreed && source.balance < req.amount)
            && (plan.Ok? ==> plan.value.source == source.currency && plan.value.target == Other(source.currency))
  {
    RatesAre();
    ConvertMinorIsConverted(req.amount, DirectionalRate(source.currency, Other(source.currency)));
    hide Int64.Wrap, ConvertMinor, Decimals.Equal;
  }

  /** The last checks, on a plan whose sums are exact. */
  lemma SettlesExactlyWhen(db: Database, d: Deal)
    requires d.systemFrom in db.accounts && d.systemTo in db.accounts
    requires d.req.amount > 0 && d.plan.converted > 0 && d.plan.newFrom >= 0 && d.plan.newTo >= 0
    requires Int64.Wrap(DealBalances(db.accounts, d).0) == DealBalances(db.accounts, d).0 >= 0
    requires Int64.Wrap(DealBalances(db.accounts, d).1) == DealBalances(db.accounts, d).1
    ensures var run := SettleExchange(db, d.req, d.terms, d.at, d.plan, d.systemFrom, d.systemTo);
            var funded := db.accounts[d.systemTo].balance >= d.plan.converted;
            var taken := AlreadyTaken(db, d.req.userId, d.req.requestId, d.at.txId);
            var open := QuoteOpen(db, d.terms.quoteId, d.at.now);
            && (run.Ok? <==> funded && !taken && open)
            && (run == Err(InsufficientFunds) <==> !funded)
            && (run == Err(Postgres(UniqueViolation)) <==> funded && taken)
            && (run == Err(QuoteConsumed) <==> funded && !taken && !open)
            && (run.Err? ==> run.error in {InsufficientFunds, Postgres(UniqueViolation), QuoteConsumed})
            && (run.Ok? ==>
                 run.value.1 == ExchangeReceipt(d.at.txId, d.plan.newFrom, d.plan.newTo, d.plan.source, d.plan.target))
  {
    hide Int64.Wrap, ExchangedAccounts, ConsumedQuotes, ExchangeEntries, RateText, DirectionalRate;
  }

  /**
   What a committed exchange leaves: the two user balances and then the two system balances, each counted from the
   balance before; one row with the rate, four entries, an audit row, and the quote consumed.
   */
  lemma ExchangeLeaves(db: Database, lost: Losses, req: ExchangeRequest, terms: Terms, at: Attempt)
    requires SystemAccountsSet(db.accounts) && NoNegative(db) && Conserved(db, lost) && req.amount > 0
    requires RunExchange(db, req, terms, at).Ok?
    ensures BothExist(db, req.fromId, req.toId)
    ensures var after, base := RunExchange(db, req, terms, at).value.0, db.accounts[req.fromId].currency;
            var counter, converted := Other(base), Exchanged(base, req.amount);
            var systemFrom := SystemAccount(db.accounts, base).value;
            var systemTo := SystemAccount(db.accounts, counter).value;
            && after.accounts == db.accounts[req.fromId := MovedBy(db.accounts, req.fromId, -req.amount)]
                                            [req.toId := MovedBy(db.accounts, req.toId, converted)]
                                            [systemFrom := MovedBy(db.accounts, systemFrom, req.amount)]
                                            [systemTo := MovedBy(db.accounts, systemTo, -converted)]
            && after.transactions ==
               db.transactions + [Transaction(at.txId, req.userId, Exchange, req.amount, base, req.fromId, req.toId,
                                              ExchangeTerms(if base == USD then "0.920000" else "1.086957",
                                                            terms.quoteId), req.requestId)]
            && after.ledger == db.ledger + [Entry(at.txId, req.fromId, -req.amount, base),
                                            Entry(at.txId, systemFrom, req.amount, base),
                                            Entry(at.txId, systemTo, -converted, counter),
                                            Entry(at.txId, req.toId, converted, counter)]
            && after.audit == db.audit + [AuditRow(req.userId, "exchange", at.txId)]
            && after.users == db.users
            && (terms.quoteId == "" ==> after.quotes == db.quotes)
            && (terms.quoteId != "" ==>
                 && terms.quoteId in db.quotes
                 && after.quotes ==
                    db.quotes[terms.quoteId := db.quotes[terms.quoteId].(consumedAt := Some(at.now))])
    ensures var source, target := db.accounts[req.fromId], db.accounts[req.toId];
            RunExchange(db, req, terms, at).value.1 ==
            ExchangeReceipt(at.txId, source.balance - req.amount,
                            target.balance + Exchanged(source.currency, req.amount), source.currency, target.currency)
  {
    hide RunExchange, NoNegative, Conserved, SystemAccountsSet, Exchanged, RateText, DirectionalRate, IsTaken;
    var (after, receipt) := RunExchange(db, req, terms, at).value;
    var d := ExchangeOutcome(db, lost, req, terms, at, after, receipt);
    RateTextsAre();
    AuditedExchange(db, req, terms, at);
  }

  lemma AuditedExchange(db: Database, req: ExchangeRequest, terms: Terms, at: Attempt)
    requires RunExchange(db, req, terms, at).Ok?
    ensures RunExchange(db, req, terms, at).value.0.audit == db.audit + [AuditRow(req.userId, "exchange", at.txId)]
  {
    hide PlanExchange, PlanSystem, IsTaken, Redeemable, ExchangedAccounts, ConsumedQuotes;
  }

  // --------------------------------------------------------------- Register

  /** What a committed registration leaves: the user, two accounts, and two opening balances paid by the system. */
  lemma RegistrationLeaves(db: Database, reg: Registration, at: Attempt)
    requires RunRegister(db, reg, at).Ok?
    ensures SystemAccount(db.accounts, USD).Some? && SystemAccount(db.accounts, EUR).Some?
    ensures var after := RunRegister(db, reg, at).value.0;
            var usd, eur := SystemAccount(db.accounts, USD).value, SystemAccount(db.accounts, EUR).value;
            && after.users == db.users + [User(reg.userId, reg.username, reg.email)]
            && after.accounts == db.accounts[at.usdId := Account(Some(reg.userId), USD, 100_000, false)]
                                            [at.eurId := Account(Some(reg.userId), EUR, 50_000, false)]
                                            [usd := MovedBy(db.accounts, usd, -100_000)]
                                            [eur := MovedBy(db.accounts, eur, -50_000)]
            && after.transactions ==
               db.transactions
               + [Transaction(at.txId, reg.userId, Transfer, 100_000, USD, usd, at.usdId, OpeningBalance, None),
                  Transaction(at.txId2, reg.userId, Transfer, 50_000, EUR, eur, at.eurId, OpeningBalance, None)]
            && after.ledger == db.ledger + [Entry(at.txId, usd, -100_000, USD), Entry(at.txId, at.usdId, 100_000, USD),
                                            Entry(at.txId2, eur, -50_000, EUR), Entry(at.txId2, at.eurId, 50_000, EUR)]
            && after.audit == db.audit + [AuditRow(reg.userId, "register", reg.userId)]
            && after.quotes == db.quotes
  {
    hide IsTaken, Lookup;
  }
}
