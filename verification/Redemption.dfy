/**
 From the quote or rate a client is shown to the exchange it asks for: the handler's preparation
 (internal/handlers/transactions.go:193-215), the service's pre-check and the check under lock.
 */
module Redemption {
  import opened Wrappers
  import opened Rates
  import opened Tables
  import opened Engine
  import opened Books
  import opened Histories
  import opened Outcomes
  import Decimals
  import Int64
  import Text

  datatype HandlerError = QuoteRequired | InvalidRate

  /** The quote id and the rate text the handler passes on. */
  function PrepareExchange(
    quoteId: Option<string>, quotedRate: Option<string>): Result<(Option<string>, Option<string>), HandlerError>
  {
    if quoteId.None? || quoteId.value == "" then
      if quotedRate.None? || quotedRate.value == "" then Err(QuoteRequired)
      else
        var rate := ParseRate(quotedRate.value);
        if rate.None? then Err(InvalidRate) else Ok((quoteId, Some(RateText(rate.value))))
    else Ok((quoteId, None))
  }

  /** A request that repeats a stored quote. */
  predicate Repeats(req: ExchangeRequest, quoteId: string, quote: Quote) {
    && req.quoteId == Some(quoteId)
    && req.userId == quote.userId && req.fromId == quote.fromId && req.toId == quote.toId && req.amount == quote.amount
  }

  /** A stored quote submitted unchanged is refused before the transaction exactly if it is consumed or expired. */
  lemma QuoteIsAdmitted(db: Database, quoteId: string, req: ExchangeRequest, now: int)
    requires Traceable(db) && quoteId in db.quotes && Repeats(req, quoteId, db.quotes[quoteId])
    ensures var quote, terms := db.quotes[quoteId], AdmitExchange(db, req, now);
            && (terms.Ok? <==> quote.consumedAt.None? && now <= quote.expiresAt)
            && (terms.Err? ==> terms.error == if quote.consumedAt.Some? then QuoteConsumed else QuoteExpired)
            && (terms.Ok? ==>
                 terms.value ==
                 Terms(quoteId, Decimals.RoundBank(DirectionalRate(quote.base, quote.counter), 6), quote.converted))
  {
    hide RowSound, ConvertMinor, DirectionalRate, Decimals.Parse, Decimals.RoundBank, Decimals.StringFixedBank;
    var quote := db.quotes[quoteId];
    assert QuoteSound(db, quote);
    Decimals.FixedTextParses(DirectionalRate(quote.base, quote.counter));
  }

  /** The pre-check admits exactly unchanged open quotes and, without a quote id, readable rates. */
  lemma ExchangeAdmittedExactlyWhen(db: Database, req: ExchangeRequest, now: int)
    requires Traceable(db)
    ensures var terms, asked, positive := AdmitExchange(db, req, now), req.quoteId.Some?, req.amount > 0;
            var known := asked && req.quoteId.value in db.quotes;
            var consumed := known && db.quotes[req.quoteId.value].consumedAt.Some?;
            var expired := known && now > db.quotes[req.quoteId.value].expiresAt;
            var repeated := known && Repeats(req, req.quoteId.value, db.quotes[req.quoteId.value]);
            var readable := req.quotedRate.Some? && Decimals.Parse(req.quotedRate.value).Some?;
            && (terms.Ok? <==> positive && if asked then known && !consumed && !expired && repeated else readable)
            && (terms == Err(InvalidAmount) <==> !positive)
            && (terms == Err(QuoteNotFound) <==> positive && asked && !known)
            && (terms == Err(QuoteConsumed) <==> positive && consumed)
            && (terms == Err(QuoteExpired) <==> positive && known && !consumed && expired)
            && (terms == Err(InvalidExchangeRequest) <==>
                 positive && if asked then known && !consumed && !expired && !repeated else !readable)
  {
    hide RowSound, ConvertMinor, DirectionalRate, RateText, Decimals.Parse, Decimals.RoundBank;
    if req.quoteId.Some? && req.quoteId.value in db.quotes {
      var quote := db.quotes[req.quoteId.value];
      assert QuoteSound(db, quote);
      QuoteTextReads(quote);
    }
  }

  lemma QuoteTextReads(quote: Quote)
    requires quote.rate == RateText(DirectionalRate(quote.base, quote.counter))
    ensures Decimals.Parse(quote.rate).Some?
  {
    Decimals.FixedTextParses(DirectionalRate(quote.base, quote.counter));
  }

  /**
   From the handler on: with a quote id the rate text beside it, whatever it is, is dropped, and an unchanged quote
   is admitted at its own terms if and only if it is open; with neither, or with a rate that is not accepted, the
   handler refuses.
   */
  lemma QuoteIdWins(db: Database, quoteId: string, quotedRate: Option<string>, req: ExchangeRequest, now: int)
    requires Traceable(db) && quoteId in db.quotes && quoteId != "" && Repeats(req, quoteId, db.quotes[quoteId])
    ensures var prepared := PrepareExchange(Some(quoteId), quotedRate);
            && prepared.Ok? && prepared.value.0 == Some(quoteId)
            && var quote, sent := db.quotes[quoteId], req.(quotedRate := prepared.value.1);
            && var terms := AdmitExchange(db, sent, now);
            && (terms.Ok? <==> quote.consumedAt.None? && now <= quote.expiresAt)
            && (terms.Ok? ==> terms.value.expected == quote.converted && terms.value.quoteId == quoteId)
    ensures PrepareExchange(None, None) == Err(QuoteRequired)
    ensures forall raw: string | raw != "" && ParseRate(raw).None? ::
              PrepareExchange(None, Some(raw)) == Err(InvalidRate)
  {
    hide Traceable, AdmitExchange, ParseRate, RateText, DirectionalRate, Decimals.RoundBank;
    QuoteIsAdmitted(db, quoteId, req.(quotedRate := None), now);
  }

  /** The user and the system account the quote pays from can both pay. */
  ghost predicate QuoteFunded(db: Database, req: ExchangeRequest, quote: Quote) {
    && req.fromId in db.accounts && db.accounts[req.fromId].balance >= req.amount
    && var systemTo := SystemAccount(db.accounts, quote.counter);
    && systemTo.Some? && db.accounts[systemTo.value].balance >= quote.converted
  }

  /**
   What becomes of a stored quote submitted unchanged and admitted, at any later time: it is exchanged at
   exactly the amount quoted when it is funded, new and still open, and each failure has its own error. It is
   never refused for its rate or its terms.
   */
  lemma QuoteRedeemsAtItsTerms(
    db: Database, later: Database, lost: Losses, quoteId: string, req: ExchangeRequest, now: int, at: Attempt)
    requires Traceable(db) && quoteId in db.quotes && Repeats(req, quoteId, db.quotes[quoteId])
    requires AdmitExchange(db, req, now).Ok?
    requires Accounted(later, lost) && SameHolders(db.accounts, later.accounts) && QuotesKept(db.quotes, later.quotes)
    ensures var quote, run := db.quotes[quoteId], RunExchange(later, req, AdmitExchange(db, req, now).value, at);
            var taken := AlreadyTaken(later, req.userId, req.requestId, at.txId);
            var funded, open := QuoteFunded(later, req, quote), QuoteOpen(later, quoteId, at.now);
            && (run.Ok? <==> funded && !taken && open)
            && (run == Err(InsufficientFunds) <==> !funded)
            && (run == Err(Postgres(UniqueViolation)) <==> funded && taken)
            && (run == Err(QuoteConsumed) <==> funded && !taken && !open)
            && (run.Ok? ==> Converts(later, req, quote, run.value.1))
  {
    hide Traceable, AdmitExchange, RunExchange, Accounted, AlreadyTaken, QuoteOpen, Exchanged;
    var terms, quote := AdmitExchange(db, req, now).value, db.quotes[quoteId];
    QuoteHolds(db, later, quoteId, req, now);
    AccountedParts(later, lost);
    ExchangeSucceedsExactlyWhen(later, lost, req, terms, at);
    BalanceBounds(later, lost, req.fromId);
    if RunExchange(later, req, terms, at).Ok? {
      ExchangeLeaves(later, lost, req, terms, at);
    }
  }

  lemma AccountedParts(db: Database, lost: Losses)
    requires Accounted(db, lost)
    ensures SystemAccountsSet(db.accounts) && NoNegative(db) && Conserved(db, lost)
  {
  }

  /** The receipt of a redeemed quote: the user pays the amount and is credited the quoted conversion. */
  predicate Converts(db: Database, req: ExchangeRequest, quote: Quote, receipt: Receipt) {
    && receipt.ExchangeReceipt? && req.fromId in db.accounts && req.toId in db.accounts
    && receipt.fromBalance == db.accounts[req.fromId].balance - quote.amount
    && receipt.toBalance == db.accounts[req.toId].balance + quote.converted
    && receipt.fromCurrency == quote.base && receipt.toCurrency == quote.counter
  }

  /** What an admitted quote says of its request still holds later: the owner, the currencies and the terms. */
  lemma QuoteHolds(db: Database, later: Database, quoteId: string, req: ExchangeRequest, now: int)
    requires Traceable(db) && quoteId in db.quotes && Repeats(req, quoteId, db.quotes[quoteId])
    requires AdmitExchange(db, req, now).Ok? && SameHolders(db.accounts, later.accounts)
    ensures req.amount > 0 && BothExist(later, req.fromId, req.toId) && Owns(later, req.userId, req.fromId)
    ensures var quote, terms := db.quotes[quoteId], AdmitExchange(db, req, now).value;
            && terms.quoteId == quoteId && TermsHold(terms, quote.base, req.amount)
            && quote.base == later.accounts[req.fromId].currency
            && quote.counter == later.accounts[req.toId].currency == Other(quote.base)
            && (Int64.Fits(req.amount) ==> quote.converted == Exchanged(quote.base, req.amount))
  {
    hide RowSound, ConvertMinor, DirectionalRate, RateText, Decimals.RoundBank, AdmitExchange, Exchanged, Int64.Wrap;
    var quote := db.quotes[quoteId];
    QuoteIsAdmitted(db, quoteId, req, now);
    assert QuoteSound(db, quote);
    assert db.accounts[req.toId].currency == quote.counter;
    QuoteTermsHold(quote.base, quote.amount);
    if Int64.Fits(quote.amount) {
      ConvertedFitsExactlyWhenPositive(quote.base, quote.amount);
    }
  }

  /** The directional rate, rounded to the six places it has, and its conversion are terms that hold. */
  lemma QuoteTermsHold(base: Currency, amount: int)
    ensures var rate := DirectionalRate(base, Other(base));
            TermsHold(Terms("", Decimals.RoundBank(rate, 6), ConvertMinor(amount, rate)), base, amount)
  {
    RatesAre();
    RateTextReadsBack(base, Other(base));
    Decimals.FixedTextParses(DirectionalRate(base, Other(base)));
    ConvertMinorIsConverted(amount, DirectionalRate(base, Other(base)));
  }

  /**
   In the very second a quote expires the pre-check admits it and its consumption refuses it: a request that
   could pay is told that the quote was consumed, although it never was.
   */
  lemma ExpiringQuoteIsRefused(
    db: Database, later: Database, lost: Losses, quoteId: string, req: ExchangeRequest, now: int, at: Attempt)
    requires Traceable(db) && quoteId in db.quotes && quoteId != "" && Repeats(req, quoteId, db.quotes[quoteId])
    requires db.quotes[quoteId].consumedAt.None? && now == db.quotes[quoteId].expiresAt == at.now
    requires Accounted(later, lost) && SameHolders(db.accounts, later.accounts) && QuotesKept(db.quotes, later.quotes)
    requires QuoteFunded(later, req, db.quotes[quoteId])
    requires !AlreadyTaken(later, req.userId, req.requestId, at.txId)
    ensures AdmitExchange(db, req, now).Ok?
    ensures RunExchange(later, req, AdmitExchange(db, req, now).value, at) == Err(QuoteConsumed)
  {
    hide RunExchange, AdmitExchange, Traceable, Accounted, AlreadyTaken, Funded, SameHolders;
    QuoteIsAdmitted(db, quoteId, req, now);
    QuoteRedeemsAtItsTerms(db, later, lost, quoteId, req, now, at);
  }

  /** What `QuoteExchange` stored is what it returned: the quote any later redemption finds. */
  lemma IssuedQuoteIsStored(db: Database, quoteId: string, req: QuoteRequest, now: int)
    requires RunQuote(db, quoteId, req, now).Ok?
    ensures var quote := RunQuote(db, quoteId, req, now).value.quotes[quoteId];
            && quote.userId == req.userId && quote.fromId == req.fromId && quote.toId == req.toId
            && quote.amount == req.amount
            && quote.consumedAt.None? && quote.expiresAt == now + QUOTE_LIFETIME
            && (Int64.Fits(Exchanged(quote.base, req.amount)) ==> quote.converted == Exchanged(quote.base, req.amount))
  {
  }

  /** Comparing two decimals may be done at any exponent below both. */
  lemma EqualAt(a: Decimals.Decimal, b: Decimals.Decimal, low: int)
    requires low <= a.exp && low <= b.exp
    ensures Decimals.Equal(a, b) <==> Decimals.CoefAt(a, low) == Decimals.CoefAt(b, low)
  {
    var mid := if a.exp < b.exp then a.exp else b.exp;
    Decimals.CoefAtTwice(a, mid, low);
    Decimals.CoefAtTwice(b, mid, low);
    Cancel(Decimals.CoefAt(a, mid), Decimals.CoefAt(b, mid), Text.Pow10(mid - low));
  }

  lemma Cancel(x: int, y: int, k: int)
    requires k > 0
    ensures x * k == y * k <==> x == y
  {
    if x * k == y * k {
      assert (x - y) * k == 0;
    }
  }

  /**
   The handler's six-place text of an accepted rate passes the pre-check, and the check under lock then
   refuses it for its rate exactly when the rate the client wrote is not the directional one.
   */
  lemma QuotedRateIsHonoured(
    db: Database, raw: string, req: ExchangeRequest, now: int, source: Account, target: Account)
    requires ParseRate(raw).Some? && req.amount > 0
    requires raw != "" && PrepareExchange(None, Some(raw)) == Ok((req.quoteId, req.quotedRate))
    requires source.owner == Some(req.userId) && target.currency == Other(source.currency)
    ensures AdmitExchange(db, req, now).Ok?
    ensures PlanExchange(req, AdmitExchange(db, req, now).value, source, target) == Err(RateMismatch) <==>
            !Decimals.Equal(ParseRate(raw).value, DirectionalRate(source.currency, target.currency))
  {
    var rate := ParseRate(raw).value;
    var directional := DirectionalRate(source.currency, target.currency);
    Decimals.FixedTextParses(rate);
    RatesAre();
    var kept := Decimals.RoundBank(rate, 6);
    assert Text.Pow10(0) == 1;
    EqualAt(rate, directional, -6);
    EqualAt(kept, directional, -6);
  }

  /**
   The handler also lets a valid rate through with an empty quote id, but passes the empty id on, and the
   service then looks for a quote of that id: such a request works exactly when the id is left out.
   */
  lemma EmptyQuoteIdIsNotFound(db: Database, quoteId: Option<string>, raw: string, req: ExchangeRequest, now: int)
    requires "" !in db.quotes && req.amount > 0 && raw != "" && ParseRate(raw).Some?
    requires quoteId == None || quoteId == Some("")
    requires PrepareExchange(quoteId, Some(raw)) == Ok((req.quoteId, req.quotedRate))
    ensures AdmitExchange(db, req, now).Ok? <==> quoteId == None
    ensures quoteId == Some("") ==> AdmitExchange(db, req, now) == Err(QuoteNotFound)
  {
    Decimals.FixedTextParses(ParseRate(raw).value);
  }
}
