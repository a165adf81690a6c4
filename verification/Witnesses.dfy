/**
 Inputs on which the code does not do what its callers would expect: after the first user of a freshly migrated
 database has registered, an exchange into a system account, and a quote redeemed in the second it expires; on any
 database, a rate sent with an empty quote id.
 */
module Witnesses {
  import opened Wrappers
  import opened Rates
  import opened Tables
  import opened Engine
  import opened Sums
  import opened Books
  import opened Histories
  import opened Redemption
  import opened Interleaved
  import opened Runs
  import opened Deadlock
  import opened Schedules
  import opened FirstUser
  import Decimals
  import Text

  // --------------------------------------------------------------- an exchange into a system account

  /** The first user's request to exchange one dollar into the EUR system account. */
  function Misdirected(reg: Registration, at: Attempt, systemId: string): ExchangeRequest {
    OneDollar(reg, at).(toId := systemId)
  }

  /** It is admitted and commits. */
  lemma MisdirectedWorks(db: Database, reg: Registration, at: Attempt, systemId: string, now: int, mine: Attempt)
    requires OneUser(db, reg, at) && mine.txId !in {at.txId, at.txId2} && IsSystemAccount(db.accounts, systemId, EUR)
    ensures var req := Misdirected(reg, at, systemId);
            AdmitExchange(db, req, now).Ok? && RunExchange(db, req, AdmitExchange(db, req, now).value, mine).Ok?
  {
    hide SystemAccountsSet, PlanExchange, AdmitExchange, RateText, DirectionalRate, Decimals.Equal, LossesOf;
    var req := Misdirected(reg, at, systemId);
    MisdirectedAdmitted(reg, at, systemId, db, now);
    SystemsThere(db);
    MisdirectedPlanned(req, AdmitExchange(db, req, now).value, db.accounts[at.usdId], db.accounts[systemId]);
  }

  lemma MisdirectedAdmitted(reg: Registration, at: Attempt, systemId: string, db: Database, now: int)
    ensures var terms := AdmitExchange(db, Misdirected(reg, at, systemId), now);
            && terms.Ok? && terms.value.quoteId == "" && terms.value.expected == 0
            && Decimals.Equal(terms.value.rate, DirectionalRate(USD, EUR))
  {
    RateTextReadsBack(USD, EUR);
    hide RateText, DirectionalRate, Decimals.Parse, Decimals.Equal;
  }

  lemma MisdirectedPlanned(req: ExchangeRequest, terms: Terms, source: Account, target: Account)
    requires source.owner == Some(req.userId) && source.currency == USD && target.currency == EUR
    requires req.amount == 100 <= source.balance <= SEED && 0 <= target.balance <= SEED
    requires terms.expected == 0 && Decimals.Equal(terms.rate, DirectionalRate(USD, EUR))
    ensures PlanExchange(req, terms, source, target) ==
            Ok(Plan(92, source.balance - 100, target.balance + 92, USD, EUR))
  {
    OneDollarConverted();
    hide DirectionalRate, ConvertMinor, Decimals.Equal;
  }

  /** What that exchange does to sound books. */
  lemma MisdirectedLoses(db: Database, req: ExchangeRequest, terms: Terms, at: Attempt)
    requires Accounted(db, NO_LOSSES) && Lost(db) == NO_LOSSES && !IsUserAccount(db, req.toId)
    requires req.amount == 100 && RunExchange(db, req, terms, at).Ok? && db.accounts[req.fromId].currency == USD
    ensures var after := RunExchange(db, req, terms, at).value.0;
            Lost(after) == Losses(0, 92) && Accounted(after, Losses(0, 92))
  {
    hide RunExchange, Accounted, Lost;
    var (after, receipt) := RunExchange(db, req, terms, at).value;
    var d := SoundOutcome(db, NO_LOSSES, req, terms, at, after, receipt);
    DealLoses(db, d, after);
    Evaluate(USD, 100, 92);
  }

  /** So a run from the migrated database loses 92 cents: the books are no longer sound. */
  lemma LossReached(s: System) returns (actions: seq<Action>)
    requires Fresh(s.committed, s) && Initial(s.committed)
    ensures AllDrawFresh(s, actions)
    ensures var db := Run(s, actions).committed;
            && Lost(db) == Losses(0, 92) && !Sound(db)
            && TotalOf(db.accounts, USD) == SEED && TotalOf(db.accounts, EUR) == SEED - 92
  {
    hide Run, AllDrawFresh, Initial, Accounted, Lost, RunExchange, AdmitExchange, DrawsFresh, Draw, BaseOf, TotalOf;
    FirstUserRuns(s);
    var pre := FirstSchedule(s);
    var t := Run(s, pre);
    var mine, other :=
        Draw(BaseOf(s.committed), 'e', 'f', 'g', 'h', s.clock), Draw(BaseOf(s.committed), 'i', 'j', 'k', 'l', s.clock);
    NewDraws(s, t, mine, other);
    SystemsThere(t.committed);
    var systemId := SystemAccount(t.committed.accounts, EUR).value;
    var req := Misdirected(REGISTERED, FirstDraw(s), systemId);
    OneDollarNames(REGISTERED, FirstDraw(s));
    MisdirectedWorks(t.committed, REGISTERED, FirstDraw(s), systemId, s.clock, mine);
    var terms := AdmitExchange(t.committed, req, s.clock).value;
    CallRuns(s, pre, 1, ExchangeRequested(req), ExchangeOp(req, terms), mine);
    actions := pre + Call(1, ExchangeRequested(req), mine);
    RunKeepsGood(s, pre);
    MisdirectedLoses(t.committed, req, terms, mine);
    LossesAreKnown(Run(s, actions).committed, Losses(0, 92));
    NotSound(Run(s, actions).committed);
  }

  lemma NotSound(db: Database)
    requires Accounted(db, Losses(0, 92))
    ensures !Sound(db)
  {
    hide Accounted;
    if Sound(db) {
      LossesAreKnown(db, NO_LOSSES);
      LossesAreKnown(db, Losses(0, 92));
    }
  }

  // --------------------------------------------------------------- a quote in the second it expires

  /** The first user's quote for one dollar, and the request that redeems it. */
  function Asking(reg: Registration, at: Attempt): QuoteRequest {
    QuoteRequest(reg.userId, at.usdId, at.eurId, 100)
  }

  function Redeeming(reg: Registration, at: Attempt, quoteId: string): ExchangeRequest {
    ExchangeRequest(reg.userId, at.usdId, at.eurId, 100, None, Some(quoteId), None)
  }

  lemma QuoteIssued(db: Database, reg: Registration, at: Attempt, quoteId: string, now: int)
    requires OneUser(db, reg, at)
    ensures var issued := RunQuote(db, quoteId, Asking(reg, at), now);
            && issued.Ok? && issued.value == db.(quotes := issued.value.quotes) && quoteId in issued.value.quotes
            && var quote := issued.value.quotes[quoteId];
            && quote.consumedAt.None? && quote.expiresAt == now + QUOTE_LIFETIME && quote.converted == 92
            && quote.counter == EUR && Repeats(Redeeming(reg, at, quoteId), quoteId, quote)
  {
    OneDollarConverted();
    IssuedQuoteIsStored(db, quoteId, Asking(reg, at), now);
    hide ConvertMinor, DirectionalRate, RateText, SystemAccountsSet, LossesOf;
  }

  /**
   After the first user has registered, a quote is issued and, exactly two minutes later and still unconsumed,
   redeemed: the pre-check admits it and the exchange fails as already consumed.
   */
  lemma ExpiringQuoteReached(s: System, quoteId: string)
    requires Fresh(s.committed, s) && Initial(s.committed)
    ensures SystemAccountsSet(s.committed.accounts)
    ensures var db, first := Run(s, FirstSchedule(s)).committed, FirstDraw(s);
            var issued := RunQuote(db, quoteId, Asking(REGISTERED, first), s.clock);
            var req, later := Redeeming(REGISTERED, first, quoteId), s.clock + QUOTE_LIFETIME;
            quoteId != "" ==>
              && issued.Ok? && AdmitExchange(issued.value, req, later).Ok?
              && forall at: Attempt | at.now == later && !HasTransaction(db.transactions, at.txId) ::
                   RunExchange(issued.value, req, AdmitExchange(issued.value, req, later).value, at) ==
                       Err(QuoteConsumed)
  {
    hide Run, AllDrawFresh, Initial, Accounted, Traceable, Lost, RunExchange, AdmitExchange, Draw, BaseOf, OneUser,
        RunQuote, Redeeming, Asking, QuoteFunded, SameHolders;
    FirstUserRuns(s);
    RunKeepsGood(s, FirstSchedule(s));
    var db, first := Run(s, FirstSchedule(s)).committed, FirstDraw(s);
    var req, later := Redeeming(REGISTERED, first, quoteId), s.clock + QUOTE_LIFETIME;
    if quoteId != "" {
      QuoteIssued(db, REGISTERED, first, quoteId, s.clock);
      var issued := RunQuote(db, quoteId, Asking(REGISTERED, first), s.clock).value;
      QuoteIsTraceable(db, quoteId, Asking(REGISTERED, first), s.clock);
      QuoteIsAdmitted(issued, quoteId, req, later);
      forall at: Attempt | at.now == later && !HasTransaction(db.transactions, at.txId)
        ensures RunExchange(issued, req, AdmitExchange(issued, req, later).value, at) == Err(QuoteConsumed)
      {
        ExpiringAttempt(db, issued, first, quoteId, req, later, at);
      }
    }
  }

  lemma ExpiringAttempt(
    db: Database, issued: Database, first: Attempt, quoteId: string, req: ExchangeRequest, later: int, at: Attempt)
    requires OneUser(db, REGISTERED, first) && Accounted(db, Lost(db)) && Traceable(issued)
    requires issued == db.(quotes := issued.quotes) && quoteId in issued.quotes && quoteId != ""
    requires var quote := issued.quotes[quoteId];
             && quote.consumedAt.None? && quote.expiresAt == later == at.now && quote.converted == 92
             && quote.counter == EUR && Repeats(req, quoteId, quote)
    requires req == Redeeming(REGISTERED, first, quoteId) && !HasTransaction(db.transactions, at.txId)
    ensures AdmitExchange(issued, req, later).Ok?
    ensures RunExchange(issued, req, AdmitExchange(issued, req, later).value, at) == Err(QuoteConsumed)
  {
    hide Traceable, RunExchange, AdmitExchange, Reconciled, Conserved, EntriesSound, Balanced, LossesOf;
    BooksOnly(db, issued, Lost(db));
    SystemsThere(db);
    ExpiringQuoteIsRefused(issued, issued, Lost(db), quoteId, req, later, at);
  }

  // --------------------------------------------------------------- a rate with an empty quote id

  /** 0.92 with an empty quote id is let through by the handler and refused by the service. */
  lemma EmptyQuoteIdWitness(db: Database, req: ExchangeRequest, now: int)
    requires "" !in db.quotes && req.amount > 0
    requires req.quoteId == Some("") && req.quotedRate == Some(RateText(Decimals.Decimal(92, -2)))
    ensures PrepareExchange(Some(""), Some("0.92")) == Ok((req.quoteId, req.quotedRate))
    ensures AdmitExchange(db, req, now) == Err(QuoteNotFound)
    ensures AdmitExchange(db, req.(quoteId := None), now).Ok?
  {
    hide RateText;
    PointNineTwo();
    EmptyQuoteIdIsNotFound(db, Some(""), "0.92", req, now);
    EmptyQuoteIdIsNotFound(db, None, "0.92", req.(quoteId := None), now);
  }

  lemma PointNineTwo()
    ensures ParseRate("0.92") == Some(Decimals.Decimal(92, -2))
  {
    hide ParseRate, Text.Value;
    DigitsOf(['0'], '9', '2');
    Text.ValueConcat("0", "92");
    PlainRateIsAccepted("0", "92");
    assert "0" + "." + "92" == "0.92";
  }

  lemma DigitsOf(zero: string, a: char, b: char)
    requires zero == ['0'] && Text.IsDigit(a) && Text.IsDigit(b)
    ensures Text.AllDigits(zero) && Text.Value(zero) == 0 && Text.Pow10(2) == 100
    ensures Text.AllDigits([a, b]) && Text.Value([a, b]) == 10 * Text.DigitValue(a) + Text.DigitValue(b)
  {
    assert zero[..0] == [] && [a, b][..1] == [a] && [a][..0] == [];
    assert Text.Value([a]) == Text.DigitValue(a);
  }
}
