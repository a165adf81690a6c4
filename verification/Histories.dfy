/**
 What the transaction table and the quotes record: identifiers and client requests are unique, each row says what
 the ledger posted and whose account paid, each quote backs at most one exchange and is consumed by it alone, and
 the history view recomputes what was converted.
 */
module Histories {
  import opened Wrappers
  import opened Rates
  import opened Tables
  import opened Engine
  import opened Sums
  import opened Books
  import Decimals
  import Int64
  import Money

  ghost predicate UniqueIds(rows: seq<Transaction>) {
    forall i, j | 0 <= i < j < |rows| :: rows[i].id != rows[j].id
  }

  predicate SameRequest(a: Transaction, b: Transaction) {
    a.userId == b.userId && a.requestId.Some? && a.requestId == b.requestId
  }

  /** At most one transaction per user and client request id. */
  ghost predicate UniqueRequests(rows: seq<Transaction>) {
    forall i, j | 0 <= i < j < |rows| :: !SameRequest(rows[i], rows[j])
  }

  predicate SameQuote(a: Transaction, b: Transaction) {
    a.metadata.ExchangeTerms? && b.metadata.ExchangeTerms? && a.metadata.quoteId == b.metadata.quoteId != ""
  }

  /** At most one transaction per quote. */
  ghost predicate UniqueQuotes(rows: seq<Transaction>) {
    forall i, j | 0 <= i < j < |rows| :: !SameQuote(rows[i], rows[j])
  }

  /** An exchange under this quote. */
  predicate UsesQuote(row: Transaction, quoteId: string) {
    row.kind == Exchange && row.metadata.ExchangeTerms? && row.metadata.quoteId == quoteId
  }

  ghost predicate IsUsed(rows: seq<Transaction>, quoteId: string) {
    exists i | 0 <= i < |rows| :: UsesQuote(rows[i], quoteId)
  }

  /** Only a committed exchange consumes a quote. */
  ghost predicate ConsumedAreUsed(db: Database) {
    forall q | q in db.quotes && db.quotes[q].consumedAt.Some? :: IsUsed(db.transactions, q)
  }

  /** A stored quote carries the terms `QuoteExchange` computes. */
  predicate QuoteSound(db: Database, quote: Quote) {
    && quote.fromId in db.accounts && quote.toId in db.accounts
    && db.accounts[quote.fromId].owner == Some(quote.userId)
    && quote.base == db.accounts[quote.fromId].currency
    && quote.counter == db.accounts[quote.toId].currency == Other(quote.base)
    && quote.amount > 0
    && quote.converted == ConvertMinor(quote.amount, DirectionalRate(quote.base, quote.counter)) > 0
    && quote.rate == RateText(DirectionalRate(quote.base, quote.counter))
  }

  /** The exchange has the quote's user, accounts, amounts, and began before the quote expired. */
  predicate BackedBy(db: Database, row: Transaction, quoteId: string) {
    && quoteId in db.quotes
    && var quote := db.quotes[quoteId];
    && quote.userId == row.userId && quote.fromId == row.fromId && quote.toId == row.toId
    && quote.amount == row.amount && quote.converted == Exchanged(row.currency, row.amount)
    && quote.consumedAt.Some? && quote.consumedAt.value < quote.expiresAt
  }

  /** What the ledger says was posted on the destination: the conversion, or nothing on a system account. */
  predicate CreditSound(db: Database, row: Transaction) {
    SumOf(OfPosting(row.id, row.toId), db.ledger) ==
    if IsUserAccount(db, row.toId) then Exchanged(row.currency, row.amount) else 0
  }

  /** What an exchange row says, its quote backs and the ledger posted. */
  ghost predicate ExchangeRowSound(db: Database, row: Transaction) {
    && row.kind == Exchange && row.metadata.ExchangeTerms? && row.amount > 0
    && row.fromId in db.accounts && row.toId in db.accounts
    && db.accounts[row.fromId].owner == Some(row.userId)
    && SumOf(OfPosting(row.id, row.fromId), db.ledger) == -row.amount
    && db.accounts[row.fromId].currency == row.currency && db.accounts[row.toId].currency == Other(row.currency)
    && row.metadata.rate == RateText(DirectionalRate(row.currency, Other(row.currency)))
    && Int64.Fits(Exchanged(row.currency, row.amount))
    && CreditSound(db, row)
    && (row.metadata.quoteId != "" ==> BackedBy(db, row, row.metadata.quoteId))
  }

  /** The amount went from one account to another of the same currency. */
  ghost predicate AmountMoved(db: Database, row: Transaction) {
    && row.amount > 0 && row.fromId in db.accounts && row.toId in db.accounts && row.fromId != row.toId
    && db.accounts[row.fromId].currency == row.currency && db.accounts[row.toId].currency == row.currency
    && SumOf(OfPosting(row.id, row.fromId), db.ledger) == -row.amount
    && SumOf(OfPosting(row.id, row.toId), db.ledger) == row.amount
  }

  /** An opening balance: 1,000 dollars or 500 euros from the system account to an account of the new user's. */
  predicate IsOpening(db: Database, row: Transaction) {
    && row.fromId in db.accounts && db.accounts[row.fromId].isSystem
    && row.toId in db.accounts && db.accounts[row.toId].owner == Some(row.userId)
    && row.amount == if row.currency == USD then 100_000 else 50_000
  }

  /** What a transfer row says the ledger posted, and its source is its user's, save for an opening balance. */
  ghost predicate TransferRowSound(db: Database, row: Transaction) {
    && row.kind == Transfer && !row.metadata.ExchangeTerms? && AmountMoved(db, row)
    && if row.metadata.OpeningBalance? then IsOpening(db, row) else db.accounts[row.fromId].owner == Some(row.userId)
  }

  ghost predicate RowSound(db: Database, row: Transaction) {
    if row.kind == Exchange then ExchangeRowSound(db, row) else TransferRowSound(db, row)
  }

  /** Every entry belongs to a stored transaction. */
  ghost predicate EntriesHaveRows(db: Database) {
    forall i | 0 <= i < |db.ledger| :: HasTransaction(db.transactions, db.ledger[i].transactionId)
  }

  ghost predicate Traceable(db: Database) {
    && UniqueIds(db.transactions) && UniqueRequests(db.transactions) && UniqueQuotes(db.transactions)
    && EntriesHaveRows(db)
    && (forall i | 0 <= i < |db.transactions| :: RowSound(db, db.transactions[i]))
    && (forall q | q in db.quotes :: QuoteSound(db, db.quotes[q]))
    && ConsumedAreUsed(db)
  }

  lemma InitialIsTraceable(db: Database)
    requires Initial(db)
    ensures Traceable(db)
  {
  }

  // --------------------------------------------------------------- extending the history

  /** Quotes are only added and consumed. */
  predicate QuotesKept(a: map<string, Quote>, b: map<string, Quote>) {
    forall q | q in a ::
      q in b && b[q] == a[q].(consumedAt := b[q].consumedAt) && (a[q].consumedAt.Some? ==> b[q] == a[q])
  }

  lemma {:induction false} SumOfSuffix(sel: Selector, a: seq<Entry>, b: seq<Entry>)
    ensures SumOf(sel, a + b) == SumOf(sel, a) + SumOf(sel, b)
  {
    if b == [] {
      assert a + b == a;
    } else {
      var front := b[..|b| - 1];
      assert (a + b)[..|a + b| - 1] == a + front;
      SumOfSuffix(sel, a, front);
    }
  }

  /** A row stays sound while holders and quotes are kept and postings are for other transactions. */
  lemma RowStaysSound(db: Database, after: Database, row: Transaction, entries: seq<Entry>)
    requires RowSound(db, row) && SameHolders(db.accounts, after.accounts) && QuotesKept(db.quotes, after.quotes)
    requires after.ledger == db.ledger + entries
    requires forall i | 0 <= i < |entries| :: entries[i].transactionId != row.id
    ensures RowSound(after, row)
  {
    hide Exchanged;
    SumOfSuffix(OfPosting(row.id, row.toId), db.ledger, entries);
    SumOfNone(OfPosting(row.id, row.toId), entries);
    SumOfSuffix(OfPosting(row.id, row.fromId), db.ledger, entries);
    SumOfNone(OfPosting(row.id, row.fromId), entries);
  }

  lemma QuoteStaysSound(db: Database, after: Database, a: Quote, b: Quote)
    requires QuoteSound(db, a) && SameHolders(db.accounts, after.accounts) && b == a.(consumedAt := b.consumedAt)
    ensures QuoteSound(after, b)
  {
  }

  /** Appending one row under the unique indexes, with postings of its own, keeps the history sound. */
  lemma HistoryExtended(db: Database, after: Database, row: Transaction, entries: seq<Entry>)
    requires Traceable(db) && !IsTaken(db, row)
    requires SameHolders(db.accounts, after.accounts) && QuotesKept(db.quotes, after.quotes)
    requires after.quotes.Keys == db.quotes.Keys
    requires forall q | q in db.quotes && after.quotes[q] != db.quotes[q] :: UsesQuote(row, q)
    requires after.transactions == db.transactions + [row] && after.ledger == db.ledger + entries
    requires forall i | 0 <= i < |entries| :: entries[i].transactionId == row.id
    requires RowSound(after, row)
    requires forall i | 0 <= i < |db.transactions| :: !SameQuote(db.transactions[i], row)
    ensures Traceable(after)
  {
    hide SumOf, RowSound, QuoteSound, ConsumedAreUsed, SameRequest, SameQuote, EntriesHaveRows, HasTransaction;
    UniqueExtended(db, row);
    EntriesExtended(db, after, row, entries);
    forall i | 0 <= i < |db.transactions| ensures RowSound(after, after.transactions[i]) {
      assert RowSound(db, db.transactions[i]) && db.transactions[i].id != row.id;
      RowStaysSound(db, after, db.transactions[i], entries);
    }
    forall q | q in after.quotes ensures QuoteSound(after, after.quotes[q]) {
      QuoteStaysSound(db, after, db.quotes[q], after.quotes[q]);
    }
    UsedExtended(db, after, row);
  }

  lemma UniqueExtended(db: Database, row: Transaction)
    requires Traceable(db) && !IsTaken(db, row)
    requires forall i | 0 <= i < |db.transactions| :: !SameQuote(db.transactions[i], row)
    ensures var rows := db.transactions + [row]; UniqueIds(rows) && UniqueRequests(rows) && UniqueQuotes(rows)
    ensures forall i | 0 <= i < |db.transactions| :: db.transactions[i].id != row.id
  {
    hide RowSound, QuoteSound, ConsumedAreUsed;
  }

  lemma EntriesExtended(db: Database, after: Database, row: Transaction, entries: seq<Entry>)
    requires EntriesHaveRows(db)
    requires after.transactions == db.transactions + [row] && after.ledger == db.ledger + entries
    requires forall i | 0 <= i < |entries| :: entries[i].transactionId == row.id
    ensures EntriesHaveRows(after)
  {
    hide HasTransaction;
    HasAppended(db.transactions, row);
    forall i | 0 <= i < |after.ledger|
      ensures HasTransaction(after.transactions, after.ledger[i].transactionId)
    {
      if i < |db.ledger| {
        assert after.ledger[i] == db.ledger[i];
      } else {
        assert after.ledger[i] == entries[i - |db.ledger|];
      }
    }
  }

  /** A new transaction has posted nothing yet. */
  lemma NothingPosted(db: Database, id: string, accountId: string)
    requires EntriesHaveRows(db) && !HasTransaction(db.transactions, id)
    ensures SumOf(OfPosting(id, accountId), db.ledger) == 0
  {
    SumOfNone(OfPosting(id, accountId), db.ledger);
  }

  /** Two entries that cancel out, posted for a new transaction. */
  lemma PairPosted(db: Database, id: string, a: string, b: string, amount: int, currency: Currency)
    requires EntriesHaveRows(db) && !HasTransaction(db.transactions, id) && a != b
    ensures var ledger := db.ledger + Pair(id, a, b, amount, currency);
            SumOf(OfPosting(id, a), ledger) == -amount && SumOf(OfPosting(id, b), ledger) == amount
  {
    hide SumOf;
    var pair := Pair(id, a, b, amount, currency);
    assert pair == [pair[0], pair[1]];
    NothingPosted(db, id, a);
    NothingPosted(db, id, b);
    SumOfTwo(OfPosting(id, a), db.ledger, pair[0], pair[1]);
    SumOfTwo(OfPosting(id, b), db.ledger, pair[0], pair[1]);
  }

  lemma UsedExtended(db: Database, after: Database, row: Transaction)
    requires ConsumedAreUsed(db) && after.quotes.Keys == db.quotes.Keys
    requires forall q | q in db.quotes && after.quotes[q] != db.quotes[q] :: UsesQuote(row, q)
    requires after.transactions == db.transactions + [row]
    ensures ConsumedAreUsed(after)
  {
    var rows := after.transactions;
    assert rows[|db.transactions|] == row;
    forall q | q in after.quotes && after.quotes[q].consumedAt.Some? ensures IsUsed(rows, q) {
      if after.quotes[q] == db.quotes[q] {
        var i :| 0 <= i < |db.transactions| && UsesQuote(db.transactions[i], q);
        assert UsesQuote(rows[i], q);
      }
    }
  }

  // --------------------------------------------------------------- the operations

  lemma TransferIsTraceable(db: Database, req: TransferRequest, at: Attempt)
    requires Traceable(db) && AdmitTransfer(req).None? && Int64.Fits(req.amount) && RunTransfer(db, req, at).Ok?
    ensures Traceable(RunTransfer(db, req, at).value.0)
  {
    hide Traceable, ConsumedAreUsed, SumOf, HasTransaction, HasRequest, EntriesHaveRows;
    var after := RunTransfer(db, req, at).value.0;
    var currency := db.accounts[req.fromId].currency;
    TraceableEntries(db);
    assert TransferEntries(req, at, currency) == Pair(at.txId, req.fromId, req.toId, req.amount, currency);
    PairPosted(db, at.txId, req.fromId, req.toId, req.amount, currency);
    HistoryExtended(db, after, TransferRow(req, at, currency), TransferEntries(req, at, currency));
  }

  lemma TraceableEntries(db: Database)
    requires Traceable(db)
    ensures EntriesHaveRows(db)
  {
  }

  /** What the pre-check settled about the quote, and nothing done since can have changed. */
  predicate TermsMatch(db: Database, req: ExchangeRequest, terms: Terms) {
    terms.quoteId != "" ==>
      && terms.quoteId in db.quotes
      && var quote := db.quotes[terms.quoteId];
      && quote.userId == req.userId && quote.fromId == req.fromId && quote.toId == req.toId
      && quote.amount == req.amount && quote.converted == terms.expected
  }

  /** The pre-check of Exchange establishes the match. */
  lemma AdmittedTermsMatch(db: Database, req: ExchangeRequest, now: int)
    requires AdmitExchange(db, req, now).Ok?
    ensures TermsMatch(db, req, AdmitExchange(db, req, now).value) && req.amount > 0
  {
  }

  lemma ExchangeIsTraceable(db: Database, lost: Losses, req: ExchangeRequest, terms: Terms, at: Attempt)
    requires Accounted(db, lost) && Traceable(db) && req.amount > 0 && TermsMatch(db, req, terms)
    requires RunExchange(db, req, terms, at).Ok?
    ensures Traceable(RunExchange(db, req, terms, at).value.0)
  {
    hide RunExchange, Reconciled, EntriesSound, Balanced, Traceable, TermsMatch;
    var (after, receipt) := RunExchange(db, req, terms, at).value;
    var d := ExchangeOutcome(db, lost, req, terms, at, after, receipt);
    DestinationIsSystem(db, d, after);
    BalanceBounds(db, lost, d.systemTo);
    DealIsTraceable(db, d, after);
  }

  lemma DealIsTraceable(db: Database, d: Deal, after: Database)
    requires Traceable(db) && TermsMatch(db, d.req, d.terms)
    requires Exchanging(db, d, after) && d.plan.converted <= SEED
    requires db.accounts[d.systemTo].isSystem && (IsUserAccount(db, d.req.toId) <==> d.req.toId != d.systemTo)
    ensures Traceable(after)
  {
    hide Traceable, ConsumedAreUsed, EntriesHaveRows, RowSound, QuoteSound, SumOf, SameHolders, SameQuote,
        HasTransaction, HasRequest, RateText, DirectionalRate, ExchangedAccounts, Exchanged;
    var row := DealRow(d);
    TraceableEntries(db);
    DealPosted(db, d);
    QuoteUsedOnce(db, row, d.terms, d.at.now);
    ExchangedKeepsHolders(db.accounts, d.req, d.plan, d.systemFrom, d.systemTo, DealBalances(db.accounts, d));
    NewExchangeRow(db, d, after);
    ConsumedAreKept(db.quotes, d.terms, d.at.now);
    HistoryExtended(db, after, row, DealEntries(d));
  }

  lemma ConsumedAreKept(quotes: map<string, Quote>, terms: Terms, now: int)
    requires terms.quoteId != "" ==> terms.quoteId in quotes && quotes[terms.quoteId].consumedAt.None?
    ensures var after := if terms.quoteId == "" then quotes else ConsumedQuotes(quotes, terms.quoteId, now);
            && QuotesKept(quotes, after) && after.Keys == quotes.Keys
            && forall q | q in quotes && after[q] != quotes[q] :: q == terms.quoteId
  {
  }

  lemma OneUpdateKeepsHolders(accounts: map<string, Account>, id: string, balance: int)
    ensures SameHolders(accounts, SetBalanceOf(accounts, id, balance))
    ensures SetBalanceOf(accounts, id, balance).Keys == accounts.Keys
  {
  }

  lemma HoldersTransitive(a: map<string, Account>, b: map<string, Account>, c: map<string, Account>)
    requires SameHolders(a, b) && SameHolders(b, c)
    ensures SameHolders(a, c)
  {
  }

  lemma ExchangedKeepsHolders(
    accounts: map<string, Account>, req: ExchangeRequest, plan: Plan, systemFrom: string, systemTo: string,
    balances: (int, int))
    ensures SameHolders(accounts, ExchangedAccounts(accounts, req, plan, systemFrom, systemTo, balances))
  {
    hide SameHolders, SetBalanceOf;
    var a1 := SetBalanceOf(accounts, req.fromId, plan.newFrom);
    var a2 := SetBalanceOf(a1, req.toId, plan.newTo);
    var a3 := SetBalanceOf(a2, systemFrom, balances.0);
    var a4 := SetBalanceOf(a3, systemTo, balances.1);
    OneUpdateKeepsHolders(accounts, req.fromId, plan.newFrom);
    OneUpdateKeepsHolders(a1, req.toId, plan.newTo);
    OneUpdateKeepsHolders(a2, systemFrom, balances.0);
    OneUpdateKeepsHolders(a3, systemTo, balances.1);
    HoldersTransitive(accounts, a1, a2);
    HoldersTransitive(accounts, a2, a3);
    HoldersTransitive(accounts, a3, a4);
  }

  lemma NewExchangeRow(db: Database, d: Deal, after: Database)
    requires Traceable(db) && TermsMatch(db, d.req, d.terms) && SameHolders(db.accounts, after.accounts)
    requires Exchanging(db, d, after) && d.plan.converted <= SEED
    requires SumOf(OfPosting(d.at.txId, d.req.fromId), after.ledger) == -d.req.amount
    requires SumOf(OfPosting(d.at.txId, d.req.toId), after.ledger) ==
             if IsUserAccount(db, d.req.toId) then d.plan.converted else 0
    ensures RowSound(after, DealRow(d))
  {
    hide ExchangedAccounts, SumOf, Exchanged, RateText, IsTaken;
    if d.terms.quoteId != "" {
      assert QuoteSound(db, db.quotes[d.terms.quoteId]);
    }
  }

  /** A new transaction takes the amount off its source and posts the conversion, or nothing on a system account. */
  lemma DealPosted(db: Database, d: Deal)
    requires EntriesHaveRows(db) && !HasTransaction(db.transactions, d.at.txId)
    requires d.req.toId !in {d.req.fromId, d.systemFrom} && d.req.fromId !in {d.systemFrom, d.systemTo}
    ensures SumOf(OfPosting(d.at.txId, d.req.toId), db.ledger + DealEntries(d)) ==
            if d.req.toId != d.systemTo then d.plan.converted else 0
    ensures SumOf(OfPosting(d.at.txId, d.req.fromId), db.ledger + DealEntries(d)) == -d.req.amount
  {
    hide SumOf;
    var credit, debit, entries := OfPosting(d.at.txId, d.req.toId), OfPosting(d.at.txId, d.req.fromId), DealEntries(d);
    NothingPosted(db, d.at.txId, d.req.toId);
    NothingPosted(db, d.at.txId, d.req.fromId);
    assert entries == [entries[0], entries[1], entries[2], entries[3]];
    SumOfFour(credit, db.ledger, entries[0], entries[1], entries[2], entries[3]);
    SumOfFour(debit, db.ledger, entries[0], entries[1], entries[2], entries[3]);
  }

  /** A quote that can still be redeemed backs no earlier transaction. */
  lemma QuoteUsedOnce(db: Database, row: Transaction, terms: Terms, now: int)
    requires Traceable(db) && row.metadata.ExchangeTerms? && row.metadata.quoteId == terms.quoteId
    requires terms.quoteId != "" ==> Redeemable(db, terms.quoteId, now)
    ensures forall i | 0 <= i < |db.transactions| :: !SameQuote(db.transactions[i], row)
  {
    forall i | 0 <= i < |db.transactions| ensures !SameQuote(db.transactions[i], row) {
      assert RowSound(db, db.transactions[i]);
    }
  }

  lemma QuoteIsTraceable(db: Database, quoteId: string, req: QuoteRequest, now: int)
    requires Traceable(db) && RunQuote(db, quoteId, req, now).Ok?
    ensures Traceable(RunQuote(db, quoteId, req, now).value)
  {
    hide RowSound, QuoteSound, ConsumedAreUsed, RunQuote, UniqueIds, UniqueRequests, UniqueQuotes;
    var after := RunQuote(db, quoteId, req, now).value;
    IssuedQuoteIsSound(db, quoteId, req, now);
    forall i | 0 <= i < |after.transactions| ensures RowSound(after, after.transactions[i]) {
      RowStaysSound(db, after, db.transactions[i], []);
    }
    forall q | q in db.quotes ensures QuoteSound(after, db.quotes[q]) {
      QuoteStaysSound(db, after, db.quotes[q], db.quotes[q]);
    }
  }

  lemma IssuedQuoteIsSound(db: Database, quoteId: string, req: QuoteRequest, now: int)
    requires RunQuote(db, quoteId, req, now).Ok? && ConsumedAreUsed(db)
    ensures var after := RunQuote(db, quoteId, req, now).value;
            && after == db.(quotes := after.quotes) && ConsumedAreUsed(after)
            && after.quotes.Keys == db.quotes.Keys + {quoteId} && QuoteSound(after, after.quotes[quoteId])
            && forall q | q in db.quotes :: after.quotes[q] == db.quotes[q]
  {
    hide Exchanged;
  }

  lemma RegisterIsTraceable(db: Database, reg: Registration, at: Attempt)
    requires Traceable(db) && SystemAccountsSet(db.accounts) && RunRegister(db, reg, at).Ok?
    ensures Traceable(RunRegister(db, reg, at).value.0)
  {
    var systemUsd, systemEur := SystemAccount(db.accounts, USD).value, SystemAccount(db.accounts, EUR).value;
    var view := WithAccounts(db, reg, at);
    AccountsAreTraceable(db, view);
    var first := RunOpening(view, reg, at.txId, systemUsd, at.usdId, USD, OPENING_USD).value;
    OpeningIsTraceable(view, reg, at.txId, systemUsd, at.usdId, USD, OPENING_USD);
    var second := RunOpening(first, reg, at.txId2, systemEur, at.eurId, EUR, OPENING_EUR).value;
    OpeningIsTraceable(first, reg, at.txId2, systemEur, at.eurId, EUR, OPENING_EUR);
    AccountsAreTraceable(second, RunRegister(db, reg, at).value.0);
  }

  lemma AccountsAreTraceable(db: Database, after: Database)
    requires Traceable(db) && SameHolders(db.accounts, after.accounts)
    requires after.transactions == db.transactions && after.ledger == db.ledger && after.quotes == db.quotes
    ensures Traceable(after)
  {
    hide SumOf, Exchanged;
    forall i | 0 <= i < |after.transactions| ensures RowSound(after, after.transactions[i]) {
      assert RowSound(db, db.transactions[i]);
    }
  }

  lemma OpeningIsTraceable(
    view: Database, reg: Registration, txId: string, systemId: string, accountId: string, currency: Currency,
    amount: int)
    requires Traceable(view) && IsSystemAccount(view.accounts, systemId, currency)
    requires accountId in view.accounts && amount == if currency == USD then OPENING_USD else OPENING_EUR
    requires view.accounts[accountId] == Account(Some(reg.userId), currency, amount, false)
    requires RunOpening(view, reg, txId, systemId, accountId, currency, amount).Ok?
    ensures Traceable(RunOpening(view, reg, txId, systemId, accountId, currency, amount).value)
  {
    hide Traceable, ConsumedAreUsed, SumOf, HasTransaction, HasRequest, EntriesHaveRows;
    var after := RunOpening(view, reg, txId, systemId, accountId, currency, amount).value;
    var row := OpeningRow(reg, txId, systemId, accountId, currency, amount);
    TraceableEntries(view);
    assert OpeningEntries(txId, systemId, accountId, currency, amount) ==
           Pair(txId, systemId, accountId, amount, currency);
    PairPosted(view, txId, systemId, accountId, amount, currency);
    HistoryExtended(view, after, row, OpeningEntries(txId, systemId, accountId, currency, amount));
  }

  // --------------------------------------------------------------- who holds an account, and who pays

  /** Every operation keeps owners, currencies and system flags. */
  lemma OperationKeepsHolders(db: Database, op: Operation, at: Attempt)
    requires RunOperation(db, op, at).Ok?
    ensures SameHolders(db.accounts, RunOperation(db, op, at).value.0.accounts)
  {
    hide RunTransfer, RunExchange, RunRegister, SettleExchange, SameHolders;
    match op
    case TransferOp(req) => TransferKeepsHolders(db, req, at);
    case ExchangeOp(req, terms) =>
      var d := ExchangeSettles(db, req, terms, at);
      SettledKeepsHolders(db, d);
    case RegisterOp(reg) => RegisterKeepsHolders(db, reg, at);
  }

  lemma TransferKeepsHolders(db: Database, req: TransferRequest, at: Attempt)
    requires RunTransfer(db, req, at).Ok?
    ensures SameHolders(db.accounts, RunTransfer(db, req, at).value.0.accounts)
  {
    hide IsTaken, Int64.Wrap;
  }

  lemma RegisterKeepsHolders(db: Database, reg: Registration, at: Attempt)
    requires RunRegister(db, reg, at).Ok?
    ensures SameHolders(db.accounts, RunRegister(db, reg, at).value.0.accounts)
  {
    hide IsTaken, Lookup, SystemAccount;
  }

  lemma SettledKeepsHolders(db: Database, d: Deal)
    requires d.systemFrom in db.accounts && d.systemTo in db.accounts
    requires SettleExchange(db, d.req, d.terms, d.at, d.plan, d.systemFrom, d.systemTo).Ok?
    ensures var after := SettleExchange(db, d.req, d.terms, d.at, d.plan, d.systemFrom, d.systemTo).value.0;
            SameHolders(db.accounts, after.accounts)
  {
    hide HasTransaction, HasRequest, ExchangedAccounts, SameHolders, Int64.Wrap;
    var system := PlanSystem(d.req, d.plan, db.accounts[d.systemFrom], db.accounts[d.systemTo]).value;
    ExchangedKeepsHolders(db.accounts, d.req, d.plan, d.systemFrom, d.systemTo, system);
  }

  /** The account an operation takes money from is its user's; a registration takes it from the system. */
  predicate PaidByOwner(accounts: map<string, Account>, op: Operation) {
    match op
    case TransferOp(req) => req.fromId in accounts && accounts[req.fromId].owner == Some(req.userId)
    case ExchangeOp(req, _) => req.fromId in accounts && accounts[req.fromId].owner == Some(req.userId)
    case RegisterOp(_) => true
  }

  lemma OnlyOwnersPay(db: Database, op: Operation, at: Attempt)
    requires RunOperation(db, op, at).Ok?
    ensures PaidByOwner(db.accounts, op)
  {
    hide SettleExchange, RunRegister, ConvertMinor, DirectionalRate, Decimals.Equal, HasTransaction, HasRequest;
  }

  // --------------------------------------------------------------- the losses an operation adds

  /** Transfers and registrations lose nothing. */
  lemma TransferLosesNothing(db: Database, req: TransferRequest, at: Attempt)
    requires RunTransfer(db, req, at).Ok?
    ensures var after := RunTransfer(db, req, at).value.0;
            Lost(after) == Lost(db)
  {
    hide HasTransaction, HasRequest, LossesOf;
    var after := RunTransfer(db, req, at).value.0;
    var row := TransferRow(req, at, db.accounts[req.fromId].currency);
    LossesFrame(db.accounts, after.accounts, db.transactions);
    LossesAppended(after.accounts, db.transactions, row);
  }

  lemma RegisterLosesNothing(db: Database, reg: Registration, at: Attempt)
    requires SystemAccountsSet(db.accounts) && RunRegister(db, reg, at).Ok?
    ensures var after := RunRegister(db, reg, at).value.0;
            Lost(after) == Lost(db)
  {
    hide HasTransaction, HasRequest, LossesOf, Lookup;
    var after := RunRegister(db, reg, at).value.0;
    var usd, eur := SystemAccount(db.accounts, USD).value, SystemAccount(db.accounts, EUR).value;
    var first := OpeningRow(reg, at.txId, usd, at.usdId, USD, OPENING_USD);
    var second := OpeningRow(reg, at.txId2, eur, at.eurId, EUR, OPENING_EUR);
    LossesFrame(db.accounts, after.accounts, db.transactions);
    LossesAppended(after.accounts, db.transactions, first);
    LossesAppended(after.accounts, db.transactions + [first], second);
  }

  /** An exchange loses its conversion exactly when it goes into a system account. */
  lemma DealLoses(db: Database, d: Deal, after: Database)
    requires Exchanging(db, d, after)
    ensures Lost(after) == LossesAfter(db, Lost(db), d)
  {
    hide HasTransaction, HasRequest, LossesOf, ExchangedAccounts, Exchanged, ConsumedQuotes, Redeemable;
    ExchangedKeepsHolders(db.accounts, d.req, d.plan, d.systemFrom, d.systemTo, DealBalances(db.accounts, d));
    LossesFrame(db.accounts, after.accounts, db.transactions);
    LossesAppended(after.accounts, db.transactions, DealRow(d));
  }

  // --------------------------------------------------------------- the history view

  /** `exchangeDetails`: the rate and the converted amount shown for a transaction, both empty for a transfer. */
  function ExchangeDetails(row: Transaction): (string, string) {
    if row.kind != Exchange || !row.metadata.ExchangeTerms? || row.metadata.rate == "" then ("", "")
    else
      var rate := Decimals.Parse(row.metadata.rate);
      if rate.None? then ("", "")
      else (RateText(rate.value), Money.Format(ConvertMinor(row.amount, rate.value)))
  }

  /** `otherCurrency`. */
  function ShownCurrency(row: Transaction): Currency {
    Other(row.currency)
  }

  lemma DetailsAreExact(db: Database, row: Transaction)
    requires ExchangeRowSound(db, row)
    ensures ExchangeDetails(row) == (row.metadata.rate, Money.Format(Exchanged(row.currency, row.amount)))
  {
    var rate := DirectionalRate(row.currency, Other(row.currency));
    RateTextReadsBack(row.currency, Other(row.currency));
    RatesAre();
    Decimals.FixedTextParses(rate);
    var parsed := Decimals.Parse(row.metadata.rate).value;
    ConvertEqualRates(row.amount, parsed, rate);
    ConvertMinorIsConverted(row.amount, rate);
    assert Decimals.RoundBank(parsed, 6) == parsed;
    assert row.metadata.rate != "";
  }

  /**
   The history shows what the ledger posted on the destination, in the destination's currency, exactly when
   that is a user account.
   */
  lemma HistoryAgreesWithLedger(db: Database, i: nat)
    requires Traceable(db) && i < |db.transactions| && db.transactions[i].kind == Exchange
    ensures var row := db.transactions[i];
            && row.metadata.ExchangeTerms? && row.toId in db.accounts
            && db.accounts[row.toId].currency == ShownCurrency(row)
            && var posted := SumOf(OfPosting(row.id, row.toId), db.ledger);
            && Int64.Fits(posted) && Int64.Fits(Exchanged(row.currency, row.amount))
            && ExchangeDetails(row) == (row.metadata.rate, Money.Format(Exchanged(row.currency, row.amount)))
            && (ExchangeDetails(row) == (row.metadata.rate, Money.Format(posted)) <==> IsUserAccount(db, row.toId))
  {
    hide Money.Format, ExchangeDetails, Exchanged, SumOf;
    var row := db.transactions[i];
    assert RowSound(db, row);
    DetailsAreExact(db, row);
    ExchangedPositive(row.currency, row.amount);
    var posted := SumOf(OfPosting(row.id, row.toId), db.ledger);
    if Money.Format(posted) == Money.Format(Exchanged(row.currency, row.amount)) {
      Money.FormatInjective(posted, Exchanged(row.currency, row.amount));
    }
  }
}
