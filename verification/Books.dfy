/**
 The bookkeeping invariant: cached balances agree with the ledger, every transaction balances in each
 currency, and no money appears or disappears, save what exchanges into a system account lose.
 */
module Books {
  import opened Wrappers
  import opened Rates
  import opened Tables
  import opened Engine
  import opened Sums
  import Int64

  /** 1,000,000.00 in cents: what each system account starts with, without a ledger entry. */
  const SEED: int := 100_000_000

  /** `stored_balance - calculated_balance`, the difference the reconciliation report shows. */
  function Difference(db: Database, id: string): int
    requires id in db.accounts
  {
    db.accounts[id].balance - SumOf(OfAccount(id), db.ledger)
  }

  // --------------------------------------------------------------- money lost

  /** Cents lost in each currency. */
  datatype Losses = Losses(usd: int, eur: int) {
    function In(c: Currency): int {
      if c == USD then usd else eur
    }

    function Plus(c: Currency, amount: int): Losses {
      if c == USD then Losses(usd + amount, eur) else Losses(usd, eur + amount)
    }
  }

  const NO_LOSSES: Losses := Losses(0, 0)

  predicate IsUserAccount(db: Database, id: string) {
    id in db.accounts && !db.accounts[id].isSystem
  }

  /** A committed exchange whose destination is a system account. */
  predicate IntoSystem(accounts: map<string, Account>, row: Transaction) {
    row.kind == Exchange && row.toId in accounts && accounts[row.toId].isSystem
  }

  /** The converted amounts of the exchanges into system accounts, added up in each currency. */
  function LossesOf(accounts: map<string, Account>, rows: seq<Transaction>): Losses {
    if rows == [] then NO_LOSSES
    else
      var before, row := LossesOf(accounts, rows[..|rows| - 1]), rows[|rows| - 1];
      if IntoSystem(accounts, row) then before.Plus(Other(row.currency), Exchanged(row.currency, row.amount))
      else before
  }

  /** What a database's exchanges have lost so far. */
  function Lost(db: Database): Losses {
    LossesOf(db.accounts, db.transactions)
  }

  lemma LossesAppended(accounts: map<string, Account>, rows: seq<Transaction>, row: Transaction)
    ensures LossesOf(accounts, rows + [row]) ==
            var before := LossesOf(accounts, rows);
            if IntoSystem(accounts, row) then before.Plus(Other(row.currency), Exchanged(row.currency, row.amount))
            else before
  {
    assert (rows + [row])[..|rows + [row]| - 1] == rows;
  }

  /** New accounts are user accounts, so they change nothing about what was lost. */
  lemma {:induction false} LossesFrame(a: map<string, Account>, b: map<string, Account>, rows: seq<Transaction>)
    requires SameHolders(a, b)
    ensures LossesOf(a, rows) == LossesOf(b, rows)
  {
    if rows != [] {
      LossesFrame(a, b, rows[..|rows| - 1]);
    }
  }

  /** Nothing is lost exactly while no exchange has gone into a system account. */
  lemma {:induction false} NothingLost(accounts: map<string, Account>, rows: seq<Transaction>)
    requires forall i | 0 <= i < |rows| && rows[i].kind == Exchange :: rows[i].amount > 0
    ensures LossesOf(accounts, rows).usd >= 0 && LossesOf(accounts, rows).eur >= 0
    ensures LossesOf(accounts, rows) == NO_LOSSES <==> forall i | 0 <= i < |rows| :: !IntoSystem(accounts, rows[i])
  {
    hide Exchanged;
    if rows != [] {
      var front, row := rows[..|rows| - 1], rows[|rows| - 1];
      NothingLost(accounts, front);
      if IntoSystem(accounts, row) {
        ExchangedPositive(row.currency, row.amount);
        LossesAppended(accounts, front, row);
        assert front + [row] == rows;
      } else {
        assert forall i | 0 <= i < |front| :: front[i] == rows[i];
      }
    }
  }

  // --------------------------------------------------------------- the invariant

  ghost predicate Reconciled(db: Database, lost: Losses) {
    forall id | id in db.accounts ::
      Difference(db, id) == if db.accounts[id].isSystem then SEED - lost.In(db.accounts[id].currency) else 0
  }

  ghost predicate Conserved(db: Database, lost: Losses) {
    && TotalOf(db.accounts, USD) == SEED - lost.usd && TotalOf(db.accounts, EUR) == SEED - lost.eur
    && lost.usd >= 0 && lost.eur >= 0
  }

  ghost predicate NoNegative(db: Database) {
    forall id | id in db.accounts :: db.accounts[id].balance >= 0
  }

  predicate EntrySound(db: Database, e: Entry) {
    && e.accountId in db.accounts && db.accounts[e.accountId].currency == e.currency
    && e.amount != 0
    && HasTransaction(db.transactions, e.transactionId)
  }

  ghost predicate EntriesSound(db: Database) {
    forall i | 0 <= i < |db.ledger| :: EntrySound(db, db.ledger[i])
  }

  ghost predicate Balanced(db: Database) {
    && (forall id: string, c: Currency :: SumOf(OfTransaction(id, c), db.ledger) == 0)
    && SumOf(OfCurrency(USD), db.ledger) == 0 && SumOf(OfCurrency(EUR), db.ledger) == 0
  }

  /** The books are in order but for the losses. */
  ghost predicate Accounted(db: Database, lost: Losses) {
    && SystemAccountsSet(db.accounts)
    && NoNegative(db) && Reconciled(db, lost) && Conserved(db, lost)
    && EntriesSound(db) && Balanced(db)
  }

  ghost predicate Sound(db: Database) {
    Accounted(db, NO_LOSSES)
  }

  /** What the migrations leave behind: two seeded system accounts and empty tables. */
  ghost predicate Initial(db: Database) {
    && |db.accounts| == 2 && SystemAccountsSet(db.accounts)
    && (forall id | id in db.accounts :: db.accounts[id].isSystem && db.accounts[id].balance == SEED)
    && db.users == [] && db.transactions == [] && db.ledger == [] && db.quotes == map[] && db.audit == []
  }

  lemma InitialIsSound(db: Database)
    requires Initial(db)
    ensures Sound(db)
  {
    var usd, eur := SystemAccount(db.accounts, USD).value, SystemAccount(db.accounts, EUR).value;
    assert {usd, eur} <= db.accounts.Keys && |{usd, eur}| == 2;
    OnlyTwo(db.accounts.Keys, usd, eur);
    forall c: Currency ensures TotalOf(db.accounts, c) == SEED {
      TotalPick(db.accounts, db.accounts.Keys, c, usd);
      TotalPick(db.accounts, db.accounts.Keys - {usd}, c, eur);
      assert db.accounts.Keys - {usd} - {eur} == {};
    }
  }

  lemma OnlyTwo(ids: set<string>, a: string, b: string)
    requires |ids| == 2 && a in ids && b in ids && a != b
    ensures ids == {a, b}
  {
    assert |ids - {a} - {b}| == 0;
  }

  /** The losses are settled by the database. */
  lemma LossesAreKnown(db: Database, lost: Losses)
    requires Accounted(db, lost)
    ensures lost == Losses(SEED - TotalOf(db.accounts, USD), SEED - TotalOf(db.accounts, EUR))
  {
  }

  // --------------------------------------------------------------- bounds: no overflow

  /** Every balance lies between zero and the seed. */
  lemma BalanceBounds(db: Database, lost: Losses, id: string)
    requires NoNegative(db) && Conserved(db, lost) && id in db.accounts
    ensures 0 <= db.accounts[id].balance <= SEED
  {
    TotalBoundsBalances(db.accounts, id, id);
  }

  /** Wherever Transfer gets as far as its sums, neither of them wraps. */
  lemma TransferDoesNotWrap(db: Database, lost: Losses, req: TransferRequest)
    requires NoNegative(db) && Conserved(db, lost)
    requires AdmitTransfer(req).None? && req.fromId in db.accounts && req.toId in db.accounts
    requires PlanTransfer(req, db.accounts[req.fromId], db.accounts[req.toId]).Ok?
    ensures Int64.Wrap(-req.amount) == -req.amount
    ensures PlanTransfer(req, db.accounts[req.fromId], db.accounts[req.toId]).value ==
            (db.accounts[req.fromId].balance - req.amount, db.accounts[req.toId].balance + req.amount)
    ensures 0 <= db.accounts[req.fromId].balance - req.amount && db.accounts[req.toId].balance + req.amount <= SEED
  {
    BalanceBounds(db, lost, req.fromId);
    TotalBoundsBalances(db.accounts, req.fromId, req.toId);
  }

  /** The same for Exchange: the conversion and the sums made before the system debit is checked. */
  lemma ExchangeDoesNotWrap(db: Database, lost: Losses, req: ExchangeRequest, terms: Terms)
    requires NoNegative(db) && Conserved(db, lost) && SystemAccountsSet(db.accounts)
    requires req.amount > 0 && req.fromId in db.accounts && req.toId in db.accounts
    requires PlanExchange(req, terms, db.accounts[req.fromId], db.accounts[req.toId]).Ok?
    ensures var source, target := db.accounts[req.fromId], db.accounts[req.toId];
            var plan := PlanExchange(req, terms, source, target).value;
            var systemFrom, systemTo :=
                SystemAccount(db.accounts, plan.source), SystemAccount(db.accounts, plan.target);
            && systemFrom.Some? && systemTo.Some? && systemFrom.value != req.fromId
            && var credited, debited := db.accounts[systemFrom.value].balance, db.accounts[systemTo.value].balance;
            && plan.converted == Exchanged(plan.source, req.amount) && 1 <= plan.converted <= 2 * SEED
            && plan.source == source.currency && plan.target == target.currency == Other(plan.source)
            && plan.newFrom == source.balance - req.amount >= 0
            && plan.newTo == target.balance + plan.converted
            && Int64.Wrap(-req.amount) == -req.amount && Int64.Wrap(-plan.converted) == -plan.converted
            && Int64.Wrap(credited + req.amount) == credited + req.amount <= SEED
            && Int64.Wrap(debited - plan.converted) == debited - plan.converted
            && credited >= 0 && target.balance >= 0
  {
    var source, target := db.accounts[req.fromId], db.accounts[req.toId];
    var systemFrom, systemTo :=
        SystemAccount(db.accounts, source.currency), SystemAccount(db.accounts, target.currency);
    BalanceBounds(db, lost, req.fromId);
    BalanceBounds(db, lost, req.toId);
    BalanceBounds(db, lost, systemTo.value);
    TotalBoundsBalances(db.accounts, req.fromId, systemFrom.value);
    ExchangedPositive(source.currency, req.amount);
    ConvertMinorIsConverted(req.amount, DirectionalRate(source.currency, target.currency));
  }

  // --------------------------------------------------------------- postings

  /** Two entries that cancel out on the ledger. */
  function Pair(txId: string, a: string, b: string, amount: int, currency: Currency): seq<Entry> {
    [Entry(txId, a, -amount, currency), Entry(txId, b, amount, currency)]
  }

  /** Moving `amount` between two accounts of one currency, with the two entries that say so. */
  function Post(db: Database, txId: string, a: string, b: string, amount: int, currency: Currency): Database
    requires a in db.accounts && b in db.accounts
  {
    var debited := SetBalanceOf(db.accounts, a, db.accounts[a].balance - amount);
    db.(accounts := SetBalanceOf(debited, b, db.accounts[b].balance + amount),
        ledger := db.ledger + Pair(txId, a, b, amount, currency))
  }

  ghost predicate CanPost(db: Database, txId: string, a: string, b: string, amount: int, currency: Currency) {
    && a in db.accounts && b in db.accounts
    && db.accounts[a].currency == db.accounts[b].currency == currency
    && 0 < amount <= db.accounts[a].balance
    && HasTransaction(db.transactions, txId)
  }

  lemma PostKeepsBooks(db: Database, lost: Losses, txId: string, a: string, b: string, amount: int, currency: Currency)
    requires Accounted(db, lost) && a != b && CanPost(db, txId, a, b, amount, currency)
    ensures Accounted(Post(db, txId, a, b, amount, currency), lost)
  {
    hide SystemAccountsSet, NoNegative, Reconciled, EntriesSound, Balanced, SameHolders, TotalOf, SetBalanceOf;
    PostHolders(db, txId, a, b, amount, currency);
    PostReconciles(db, lost, txId, a, b, amount, currency);
    PostConserves(db.accounts, a, b, amount);
    PairKeepsEntries(db, Post(db, txId, a, b, amount, currency), txId, a, b, amount, currency);
  }

  lemma PostHolders(db: Database, txId: string, a: string, b: string, amount: int, currency: Currency)
    requires SystemAccountsSet(db.accounts) && NoNegative(db) && a != b && CanPost(db, txId, a, b, amount, currency)
    ensures var after := Post(db, txId, a, b, amount, currency);
            SameHolders(db.accounts, after.accounts) && SystemAccountsSet(after.accounts) && NoNegative(after)
  {
    HoldersKeepSystem(db.accounts, Post(db, txId, a, b, amount, currency).accounts);
  }

  lemma PostReconciles(db: Database, lost: Losses, txId: string, a: string, b: string, amount: int, currency: Currency)
    requires Reconciled(db, lost) && a in db.accounts && b in db.accounts && a != b
    ensures Reconciled(Post(db, txId, a, b, amount, currency), lost)
  {
    var after := Post(db, txId, a, b, amount, currency);
    forall id | id in after.accounts ensures Difference(after, id) == Difference(db, id) {
      SumOfTwo(OfAccount(id), db.ledger, Entry(txId, a, -amount, currency), Entry(txId, b, amount, currency));
    }
  }

  lemma PostConserves(accounts: map<string, Account>, a: string, b: string, amount: int)
    requires a in accounts && b in accounts && a != b && accounts[a].currency == accounts[b].currency
    ensures var debited := SetBalanceOf(accounts, a, accounts[a].balance - amount);
            forall c :: TotalOf(SetBalanceOf(debited, b, accounts[b].balance + amount), c) == TotalOf(accounts, c)
  {
    var debited := SetBalanceOf(accounts, a, accounts[a].balance - amount);
    var credited := SetBalanceOf(debited, b, accounts[b].balance + amount);
    forall c: Currency ensures TotalOf(credited, c) == TotalOf(accounts, c) {
      TotalAfterSet(accounts, a, accounts[a].balance - amount, c);
      TotalAfterSet(debited, b, accounts[b].balance + amount, c);
    }
  }

  /** The two entries keep the ledger balanced, whatever they do to the balances. */
  lemma PairKeepsEntries(
    db: Database, after: Database, txId: string, a: string, b: string, amount: int, currency: Currency)
    requires EntriesSound(db) && Balanced(db) && CanPost(db, txId, a, b, amount, currency)
    requires SameHolders(db.accounts, after.accounts) && after.transactions == db.transactions
    requires after.ledger == db.ledger + Pair(txId, a, b, amount, currency)
    ensures EntriesSound(after) && Balanced(after)
  {
    var debit, credit := Entry(txId, a, -amount, currency), Entry(txId, b, amount, currency);
    forall i | 0 <= i < |after.ledger| ensures EntrySound(after, after.ledger[i]) {
      if i < |db.ledger| {
        assert EntrySound(db, db.ledger[i]);
      }
    }
    TwoEntriesBalance(db.ledger, debit, credit);
  }

  lemma TwoEntriesBalance(ledger: seq<Entry>, debit: Entry, credit: Entry)
    requires debit.transactionId == credit.transactionId && debit.currency == credit.currency
    requires debit.amount == -credit.amount
    ensures forall id: string, c: Currency ::
              SumOf(OfTransaction(id, c), ledger + [debit, credit]) == SumOf(OfTransaction(id, c), ledger)
    ensures forall c: Currency :: SumOf(OfCurrency(c), ledger + [debit, credit]) == SumOf(OfCurrency(c), ledger)
  {
    forall id: string, c: Currency
      ensures SumOf(OfTransaction(id, c), ledger + [debit, credit]) == SumOf(OfTransaction(id, c), ledger)
    {
      SumOfTwo(OfTransaction(id, c), ledger, debit, credit);
    }
    forall c: Currency ensures SumOf(OfCurrency(c), ledger + [debit, credit]) == SumOf(OfCurrency(c), ledger) {
      SumOfTwo(OfCurrency(c), ledger, debit, credit);
    }
  }

  /** Debiting a system account against itself: the two entries cancel out, and the money is gone. */
  function Vanish(db: Database, txId: string, id: string, amount: int, currency: Currency): Database
    requires id in db.accounts
  {
    db.(accounts := SetBalanceOf(db.accounts, id, db.accounts[id].balance - amount),
        ledger := db.ledger + Pair(txId, id, id, amount, currency))
  }

  lemma VanishIsAccounted(db: Database, lost: Losses, txId: string, id: string, amount: int, currency: Currency)
    requires Accounted(db, lost) && CanPost(db, txId, id, id, amount, currency) && db.accounts[id].isSystem
    ensures Accounted(Vanish(db, txId, id, amount, currency), lost.Plus(currency, amount))
  {
    hide SystemAccountsSet, EntriesSound, Balanced, SameHolders, TotalOf, SetBalanceOf, Reconciled, NoNegative;
    var after := Vanish(db, txId, id, amount, currency);
    VanishHolders(db, txId, id, amount, currency);
    VanishReconciles(db, lost, txId, id, amount, currency);
    TotalAfterSet(db.accounts, id, db.accounts[id].balance - amount, USD);
    TotalAfterSet(db.accounts, id, db.accounts[id].balance - amount, EUR);
    PairKeepsEntries(db, after, txId, id, id, amount, currency);
  }

  lemma VanishHolders(db: Database, txId: string, id: string, amount: int, currency: Currency)
    requires SystemAccountsSet(db.accounts) && NoNegative(db) && CanPost(db, txId, id, id, amount, currency)
    ensures var after := Vanish(db, txId, id, amount, currency);
            SameHolders(db.accounts, after.accounts) && SystemAccountsSet(after.accounts) && NoNegative(after)
  {
    HoldersKeepSystem(db.accounts, Vanish(db, txId, id, amount, currency).accounts);
  }

  lemma VanishReconciles(db: Database, lost: Losses, txId: string, id: string, amount: int, currency: Currency)
    requires Reconciled(db, lost) && SystemAccountsSet(db.accounts)
    requires CanPost(db, txId, id, id, amount, currency) && db.accounts[id].isSystem
    ensures Reconciled(Vanish(db, txId, id, amount, currency), lost.Plus(currency, amount))
  {
    var after := Vanish(db, txId, id, amount, currency);
    assert IsSystemAccount(db.accounts, id, currency);
    forall k | k in after.accounts
      ensures Difference(after, k) == Difference(db, k) - if k == id then amount else 0
      ensures db.accounts[k].isSystem && k != id ==> db.accounts[k].currency != currency
    {
      SumOfTwo(OfAccount(k), db.ledger, Entry(txId, id, -amount, currency), Entry(txId, id, amount, currency));
      if db.accounts[k].isSystem && db.accounts[k].currency == currency {
        assert IsSystemAccount(db.accounts, k, currency);
      }
    }
  }

  /** The books do not depend on users, quotes or the audit log, and bear further transaction rows. */
  lemma BooksOnly(a: Database, b: Database, lost: Losses)
    requires Accounted(a, lost) && b.accounts == a.accounts && b.ledger == a.ledger
    requires forall id :: HasTransaction(a.transactions, id) ==> HasTransaction(b.transactions, id)
    ensures Accounted(b, lost)
  {
  }

  function WithRow(db: Database, row: Transaction): Database {
    db.(transactions := db.transactions + [row])
  }

  lemma RowKeepsBooks(db: Database, lost: Losses, row: Transaction)
    requires Accounted(db, lost)
    ensures Accounted(WithRow(db, row), lost) && HasTransaction(WithRow(db, row).transactions, row.id)
  {
    HasAppended(db.transactions, row);
    BooksOnly(db, WithRow(db, row), lost);
  }

  function WithEmptyAccount(db: Database, id: string, owner: string, currency: Currency): Database {
    db.(accounts := db.accounts[id := Account(Some(owner), currency, 0, false)])
  }

  lemma EmptyAccountKeepsBooks(db: Database, lost: Losses, id: string, owner: string, currency: Currency)
    requires Accounted(db, lost) && id !in db.accounts
    ensures Accounted(WithEmptyAccount(db, id, owner, currency), lost)
  {
    var after := WithEmptyAccount(db, id, owner, currency);
    HoldersKeepSystem(db.accounts, after.accounts);
    forall i | 0 <= i < |after.ledger| ensures EntrySound(after, after.ledger[i]) && db.ledger[i].accountId != id {
      assert EntrySound(db, db.ledger[i]);
    }
    SumOfNone(OfAccount(id), db.ledger);
    forall k | k in db.accounts ensures Difference(after, k) == Difference(db, k) {}
    TotalAfterAdd(db.accounts, id, after.accounts[id], USD);
    TotalAfterAdd(db.accounts, id, after.accounts[id], EUR);
  }

  // --------------------------------------------------------------- Transfer

  /** A committed transfer keeps the books; so does one into a system account. */
  lemma TransferKeepsBooks(db: Database, lost: Losses, req: TransferRequest, at: Attempt)
    requires Accounted(db, lost) && AdmitTransfer(req).None?
    requires RunTransfer(db, req, at).Ok?
    ensures Accounted(RunTransfer(db, req, at).value.0, lost)
  {
    hide Reconciled, EntriesSound, Balanced, TotalOf, SumOf;
    var currency := db.accounts[req.fromId].currency;
    TransferDoesNotWrap(db, lost, req);
    var row := TransferRow(req, at, currency);
    RowKeepsBooks(db, lost, row);
    PostKeepsBooks(WithRow(db, row), lost, at.txId, req.fromId, req.toId, req.amount, currency);
    var posted := Post(WithRow(db, row), at.txId, req.fromId, req.toId, req.amount, currency);
    BooksOnly(posted, RunTransfer(db, req, at).value.0, lost);
  }

  // --------------------------------------------------------------- Exchange

  /** An exchange with what its locks settled: the plan and the two system accounts. */
  datatype Deal = Deal(
    req: ExchangeRequest, terms: Terms, at: Attempt, plan: Plan, systemFrom: string, systemTo: string)

  function DealRow(d: Deal): Transaction {
    ExchangeRow(d.req, d.terms, d.at, d.plan)
  }

  /** The four entries, without 64-bit wrap-around. */
  function DealEntries(d: Deal): seq<Entry> {
    Pair(d.at.txId, d.req.fromId, d.systemFrom, d.req.amount, d.plan.source)
    + Pair(d.at.txId, d.systemTo, d.req.toId, d.plan.converted, d.plan.target)
  }

  /** The two system balances, without 64-bit wrap-around. */
  function DealBalances(accounts: map<string, Account>, d: Deal): (int, int)
    requires d.systemFrom in accounts && d.systemTo in accounts
  {
    (accounts[d.systemFrom].balance + d.req.amount, accounts[d.systemTo].balance - d.plan.converted)
  }

  function DealAccounts(accounts: map<string, Account>, d: Deal): map<string, Account>
    requires d.systemFrom in accounts && d.systemTo in accounts
  {
    ExchangedAccounts(accounts, d.req, d.plan, d.systemFrom, d.systemTo, DealBalances(accounts, d))
  }

  /** What a committed exchange met and did, without 64-bit wrap-around. */
  ghost predicate Exchanging(db: Database, d: Deal, after: Database) {
    && {d.req.fromId, d.req.toId, d.systemFrom, d.systemTo} <= db.accounts.Keys
    && Some(d.systemFrom) == SystemAccount(db.accounts, d.plan.source)
    && Some(d.systemTo) == SystemAccount(db.accounts, d.plan.target)
    && d.req.fromId !in {d.req.toId, d.systemFrom, d.systemTo} && d.systemFrom !in {d.req.toId, d.systemTo}
    && db.accounts[d.req.fromId].currency == d.plan.source
    && db.accounts[d.req.toId].currency == d.plan.target == Other(d.plan.source)
    && !db.accounts[d.req.fromId].isSystem && db.accounts[d.req.fromId].owner == Some(d.req.userId)
    && d.plan.converted == Exchanged(d.plan.source, d.req.amount) > 0 && d.req.amount > 0
    && d.plan.newFrom == db.accounts[d.req.fromId].balance - d.req.amount >= 0
    && d.plan.newTo == db.accounts[d.req.toId].balance + d.plan.converted
    && d.plan.converted <= db.accounts[d.systemTo].balance
    && !IsTaken(db, DealRow(d))
    && (d.terms.quoteId != "" ==> Redeemable(db, d.terms.quoteId, d.at.now))
    && (d.terms.expected == 0 || d.terms.expected == d.plan.converted)
    && after.accounts == DealAccounts(db.accounts, d)
    && after.ledger == db.ledger + DealEntries(d)
    && after.transactions == db.transactions + [DealRow(d)]
    && after.users == db.users
    && after.quotes == (if d.terms.quoteId == "" then db.quotes
                        else ConsumedQuotes(db.quotes, d.terms.quoteId, d.at.now))
  }

  lemma ExchangeSettles(db: Database, req: ExchangeRequest, terms: Terms, at: Attempt) returns (d: Deal)
    requires RunExchange(db, req, terms, at).Ok?
    ensures d.req == req && d.terms == terms && d.at == at
    ensures req.fromId in db.accounts && req.toId in db.accounts
    ensures PlanExchange(req, terms, db.accounts[req.fromId], db.accounts[req.toId]) == Ok(d.plan)
    ensures Some(d.systemFrom) == SystemAccount(db.accounts, d.plan.source)
    ensures Some(d.systemTo) == SystemAccount(db.accounts, d.plan.target)
    ensures RunExchange(db, req, terms, at) == SettleExchange(db, req, terms, at, d.plan, d.systemFrom, d.systemTo)
  {
    var plan := PlanExchange(req, terms, db.accounts[req.fromId], db.accounts[req.toId]).value;
    var systemFrom, systemTo := SystemAccount(db.accounts, plan.source), SystemAccount(db.accounts, plan.target);
    d := Deal(req, terms, at, plan, systemFrom.value, systemTo.value);
  }

  lemma PlannedExpectation(req: ExchangeRequest, terms: Terms, source: Account, target: Account)
    requires PlanExchange(req, terms, source, target).Ok?
    ensures terms.expected == 0 || terms.expected == PlanExchange(req, terms, source, target).value.converted
    ensures source.owner == Some(req.userId)
  {
  }

  lemma SettledExchange(db: Database, d: Deal, after: Database, receipt: Receipt)
    requires d.systemFrom in db.accounts && d.systemTo in db.accounts
    requires SettleExchange(db, d.req, d.terms, d.at, d.plan, d.systemFrom, d.systemTo) == Ok((after, receipt))
    requires Int64.Wrap(-d.req.amount) == -d.req.amount && Int64.Wrap(-d.plan.converted) == -d.plan.converted
    requires Int64.Wrap(DealBalances(db.accounts, d).0) == DealBalances(db.accounts, d).0
    requires Int64.Wrap(DealBalances(db.accounts, d).1) == DealBalances(db.accounts, d).1
    ensures d.plan.converted <= db.accounts[d.systemTo].balance
    ensures after.accounts == DealAccounts(db.accounts, d) && after.ledger == db.ledger + DealEntries(d)
    ensures !IsTaken(db, DealRow(d)) && after.transactions == db.transactions + [DealRow(d)]
    ensures after.users == db.users
    ensures d.terms.quoteId != "" ==> Redeemable(db, d.terms.quoteId, d.at.now)
    ensures after.quotes == (if d.terms.quoteId == "" then db.quotes
                             else ConsumedQuotes(db.quotes, d.terms.quoteId, d.at.now))
    ensures receipt == ExchangeReceipt(d.at.txId, d.plan.newFrom, d.plan.newTo, d.plan.source, d.plan.target)
  {
    hide Int64.Wrap, ExchangedAccounts, ConsumedQuotes, Redeemable, HasTransaction, HasRequest, RateText,
        DirectionalRate;
    assert ExchangeEntries(d.req, d.at, d.plan, d.systemFrom, d.systemTo) == DealEntries(d);
  }

  lemma ExchangeOutcome(
    db: Database, lost: Losses, req: ExchangeRequest, terms: Terms, at: Attempt, after: Database, receipt: Receipt)
    returns (d: Deal)
    requires SystemAccountsSet(db.accounts) && NoNegative(db) && Conserved(db, lost)
    requires req.amount > 0 && RunExchange(db, req, terms, at) == Ok((after, receipt))
    ensures d.req == req && d.terms == terms && d.at == at && Exchanging(db, d, after)
    ensures receipt == ExchangeReceipt(at.txId, d.plan.newFrom, d.plan.newTo, d.plan.source, d.plan.target)
  {
    hide RunExchange, SettleExchange, ExchangedAccounts, ConsumedQuotes, Redeemable, IsTaken, RateText, DirectionalRate,
      ConvertMinor, TotalOf, NoNegative;
    d := ExchangeSettles(db, req, terms, at);
    ExchangeDoesNotWrap(db, lost, req, terms);
    PlannedExpectation(req, terms, db.accounts[req.fromId], db.accounts[req.toId]);
    SettledExchange(db, d, after, receipt);
  }

  /** The losses after an exchange: its conversion is added when it goes into a system account. */
  function LossesAfter(db: Database, lost: Losses, d: Deal): Losses {
    if IsUserAccount(db, d.req.toId) then lost else lost.Plus(d.plan.target, d.plan.converted)
  }

  /**
   Every committed exchange is accounted for: its conversion is lost exactly when the destination is a system account.
   */
  lemma ExchangeIsAccounted(db: Database, lost: Losses, d: Deal, after: Database)
    requires Accounted(db, lost) && Exchanging(db, d, after)
    ensures Accounted(after, LossesAfter(db, lost, d))
    ensures !IsUserAccount(db, d.req.toId) ==> d.req.toId == d.systemTo
  {
    hide NoNegative, Reconciled, EntriesSound, Balanced, Conserved, ExchangedAccounts, ConsumedQuotes, Redeemable,
      RateText, DirectionalRate, IsTaken;
    DestinationIsSystem(db, d, after);
    var row := DealRow(d);
    var recorded := WithRow(db, row);
    RowKeepsBooks(db, lost, row);
    PostKeepsBooks(recorded, lost, d.at.txId, d.req.fromId, d.systemFrom, d.req.amount, d.plan.source);
    var first := Post(recorded, d.at.txId, d.req.fromId, d.systemFrom, d.req.amount, d.plan.source);
    if d.req.toId == d.systemTo {
      VanishIsAccounted(first, lost, d.at.txId, d.systemTo, d.plan.converted, d.plan.target);
      IntoSystemBalances(db, d, after);
      BooksOnly(Vanish(first, d.at.txId, d.systemTo, d.plan.converted, d.plan.target), after, LossesAfter(db, lost, d));
    } else {
      PostKeepsBooks(first, lost, d.at.txId, d.systemTo, d.req.toId, d.plan.converted, d.plan.target);
      FourBalances(db, d, after);
      BooksOnly(Post(first, d.at.txId, d.systemTo, d.req.toId, d.plan.converted, d.plan.target), after, lost);
    }
  }

  lemma DestinationIsSystem(db: Database, d: Deal, after: Database)
    requires SystemAccountsSet(db.accounts) && Exchanging(db, d, after)
    ensures db.accounts[d.systemTo].isSystem && db.accounts[d.systemTo].currency == d.plan.target
    ensures db.accounts[d.systemFrom].currency == d.plan.source
    ensures IsUserAccount(db, d.req.toId) <==> d.req.toId != d.systemTo
  {
    hide ExchangedAccounts, ConsumedQuotes, Redeemable, RateText, DirectionalRate, IsTaken;
    assert IsSystemAccount(db.accounts, d.systemTo, d.plan.target);
    if db.accounts[d.req.toId].isSystem {
      assert IsSystemAccount(db.accounts, d.req.toId, d.plan.target);
    }
  }

  /** The order of the four updates does not matter when the four rows differ. */
  lemma FourBalances(db: Database, d: Deal, after: Database)
    requires Exchanging(db, d, after) && d.req.toId != d.systemTo
    ensures var recorded := WithRow(db, DealRow(d));
            var first := Post(recorded, d.at.txId, d.req.fromId, d.systemFrom, d.req.amount, d.plan.source);
            var second := Post(first, d.at.txId, d.systemTo, d.req.toId, d.plan.converted, d.plan.target);
            after.accounts == second.accounts && after.ledger == second.ledger
                && after.transactions == second.transactions
  {
    hide ConsumedQuotes, Redeemable, IsTaken, RateText, DirectionalRate;
    assert db.ledger + DealEntries(d) ==
           db.ledger + Pair(d.at.txId, d.req.fromId, d.systemFrom, d.req.amount, d.plan.source)
           + Pair(d.at.txId, d.systemTo, d.req.toId, d.plan.converted, d.plan.target);
  }

  /** When the destination is the system account itself, the last absolute write replaces the credit. */
  lemma IntoSystemBalances(db: Database, d: Deal, after: Database)
    requires Exchanging(db, d, after) && d.req.toId == d.systemTo
    ensures var recorded := WithRow(db, DealRow(d));
            var first := Post(recorded, d.at.txId, d.req.fromId, d.systemFrom, d.req.amount, d.plan.source);
            var second := Vanish(first, d.at.txId, d.systemTo, d.plan.converted, d.plan.target);
            after.accounts == second.accounts && after.ledger == second.ledger
                && after.transactions == second.transactions
  {
    hide ConsumedQuotes, Redeemable, IsTaken, RateText, DirectionalRate;
    assert db.ledger + DealEntries(d) ==
           db.ledger + Pair(d.at.txId, d.req.fromId, d.systemFrom, d.req.amount, d.plan.source)
           + Pair(d.at.txId, d.systemTo, d.req.toId, d.plan.converted, d.plan.target);
  }

  /** A committed exchange keeps sound books sound exactly when its destination is not a system account. */
  lemma ExchangeKeepsBooks(db: Database, req: ExchangeRequest, terms: Terms, at: Attempt)
    requires Sound(db) && req.amount > 0 && RunExchange(db, req, terms, at).Ok?
    ensures Sound(RunExchange(db, req, terms, at).value.0) <==> IsUserAccount(db, req.toId)
  {
    hide RunExchange, Accounted, Exchanging;
    var (after, receipt) := RunExchange(db, req, terms, at).value;
    var d := SoundOutcome(db, NO_LOSSES, req, terms, at, after, receipt);
    if Sound(after) {
      LossesAreKnown(after, NO_LOSSES);
      LossesAreKnown(after, LossesAfter(db, NO_LOSSES, d));
    }
  }

  lemma SoundOutcome(
    db: Database, lost: Losses, req: ExchangeRequest, terms: Terms, at: Attempt, after: Database, receipt: Receipt)
    returns (d: Deal)
    requires Accounted(db, lost) && req.amount > 0 && RunExchange(db, req, terms, at) == Ok((after, receipt))
    ensures d.req == req && d.terms == terms && d.at == at && Exchanging(db, d, after) && d.plan.converted > 0
    ensures Accounted(after, LossesAfter(db, lost, d))
  {
    hide RunExchange;
    d := ExchangeOutcome(db, lost, req, terms, at, after, receipt);
    ExchangeIsAccounted(db, lost, d, after);
  }

  /**
   When the destination is the system account itself, the second absolute write to its row replaces the
   first: the converted amount is gone from the balances, while the ledger's two entries cancel out.
   */
  lemma ExchangeIntoSystemLosesMoney(db: Database, lost: Losses, d: Deal, after: Database)
    requires Accounted(db, lost) && Exchanging(db, d, after) && d.req.toId == d.systemTo
    ensures d.systemTo in after.accounts
    ensures Difference(after, d.systemTo) == Difference(db, d.systemTo) - d.plan.converted
    ensures TotalOf(after.accounts, d.plan.target) == TotalOf(db.accounts, d.plan.target) - d.plan.converted
    ensures TotalOf(after.accounts, d.plan.source) == TotalOf(db.accounts, d.plan.source)
  {
    hide ConsumedQuotes, Redeemable, IsTaken, RateText, DirectionalRate, TotalOf, NoNegative, EntriesSound, Balanced;
    DestinationIsSystem(db, d, after);
    ExchangeIsAccounted(db, lost, d, after);
  }

  // --------------------------------------------------------------- receipts

  /** A transfer's receipt shows the new transaction and the two balances as they then stand. */
  lemma TransferReceiptIsTrue(db: Database, req: TransferRequest, at: Attempt)
    requires AdmitTransfer(req).None? && RunTransfer(db, req, at).Ok?
    ensures var (after, receipt) := RunTransfer(db, req, at).value;
            && receipt.TransferReceipt? && req.fromId in after.accounts && req.toId in after.accounts
            && receipt.fromBalance == after.accounts[req.fromId].balance
            && receipt.toBalance == after.accounts[req.toId].balance
            && receipt.currency == after.accounts[req.fromId].currency == after.accounts[req.toId].currency
            && receipt.toUser == after.accounts[req.toId].owner
            && HasTransaction(after.transactions, receipt.transactionId)
            && !HasTransaction(db.transactions, receipt.transactionId)
  {
    hide Int64.Wrap, HasRequest;
    HasAppended(db.transactions, TransferRow(req, at, db.accounts[req.fromId].currency));
  }

  /** An exchange's receipt does too, but for the destination's balance exactly when that is a system account. */
  lemma ExchangeReceiptIsTrue(
    db: Database, lost: Losses, req: ExchangeRequest, terms: Terms, at: Attempt, after: Database, receipt: Receipt)
    requires Accounted(db, lost) && req.amount > 0 && RunExchange(db, req, terms, at) == Ok((after, receipt))
    ensures receipt.ExchangeReceipt? && req.fromId in after.accounts && req.toId in after.accounts
    ensures receipt.fromBalance == after.accounts[req.fromId].balance
    ensures receipt.toBalance == after.accounts[req.toId].balance <==> IsUserAccount(db, req.toId)
    ensures receipt.fromCurrency == after.accounts[req.fromId].currency
    ensures receipt.toCurrency == after.accounts[req.toId].currency
    ensures HasTransaction(after.transactions, receipt.transactionId)
    ensures !HasTransaction(db.transactions, receipt.transactionId)
  {
    hide RunExchange, PlanExchange, HasTransaction, HasRequest, RateText, DirectionalRate, Redeemable, ConsumedQuotes,
      TotalOf, Reconciled, EntriesSound, Balanced;
    var d := ExchangeOutcome(db, lost, req, terms, at, after, receipt);
    DestinationIsSystem(db, d, after);
    HasAppended(db.transactions, DealRow(d));
  }

  // --------------------------------------------------------------- Register

  /** One opening balance as a posting from the system account. */
  function Opened(
    db: Database, reg: Registration, txId: string, systemId: string, accountId: string, currency: Currency, amount: int)
    : Database
    requires systemId in db.accounts && accountId in db.accounts
  {
    var row := OpeningRow(reg, txId, systemId, accountId, currency, amount);
    Post(WithRow(db, row), txId, systemId, accountId, amount, currency)
  }

  lemma OpenedKeepsBooks(
    db: Database, lost: Losses, reg: Registration, txId: string, systemId: string, accountId: string,
    currency: Currency, amount: int)
    requires Accounted(db, lost) && systemId in db.accounts && accountId in db.accounts && systemId != accountId
    requires db.accounts[systemId].currency == db.accounts[accountId].currency == currency
    requires 0 < amount <= db.accounts[systemId].balance
    ensures Accounted(Opened(db, reg, txId, systemId, accountId, currency, amount), lost)
  {
    var row := OpeningRow(reg, txId, systemId, accountId, currency, amount);
    RowKeepsBooks(db, lost, row);
    PostKeepsBooks(WithRow(db, row), lost, txId, systemId, accountId, amount, currency);
  }

  /** A registration as two empty accounts and two postings. */
  function RegisterPostings(
    db: Database, reg: Registration, at: Attempt, systemUsd: string, systemEur: string): Database
    requires systemUsd in db.accounts && systemEur in db.accounts
  {
    var empty := WithEmptyAccount(WithEmptyAccount(db, at.usdId, reg.userId, USD), at.eurId, reg.userId, EUR);
    var first := Opened(empty, reg, at.txId, systemUsd, at.usdId, USD, OPENING_USD);
    Opened(first, reg, at.txId2, systemEur, at.eurId, EUR, OPENING_EUR)
  }

  lemma RegisterIsPostings(db: Database, reg: Registration, at: Attempt, systemUsd: string, systemEur: string)
    requires SystemAccountsSet(db.accounts) && RunRegister(db, reg, at).Ok?
    requires Some(systemUsd) == SystemAccount(db.accounts, USD) && Some(systemEur) == SystemAccount(db.accounts, EUR)
    ensures var after, posted := RunRegister(db, reg, at).value.0, RegisterPostings(db, reg, at, systemUsd, systemEur);
            after.accounts == posted.accounts && after.ledger == posted.ledger
                && after.transactions == posted.transactions
  {
    hide IsTaken, Lookup;
  }

  /** A committed registration keeps the books: its balances are recorded against the system accounts. */
  lemma RegisterKeepsBooks(db: Database, lost: Losses, reg: Registration, at: Attempt)
    requires Accounted(db, lost) && RunRegister(db, reg, at).Ok?
    ensures Accounted(RunRegister(db, reg, at).value.0, lost)
  {
    hide RunRegister, NoNegative, Reconciled, Conserved, EntriesSound, Balanced;
    var systemUsd, systemEur := SystemAccount(db.accounts, USD).value, SystemAccount(db.accounts, EUR).value;
    RegisterIsPostings(db, reg, at, systemUsd, systemEur);
    RegisterFunds(db, reg, at, systemUsd, systemEur);
    var first := WithEmptyAccount(db, at.usdId, reg.userId, USD);
    EmptyAccountKeepsBooks(db, lost, at.usdId, reg.userId, USD);
    var empty := WithEmptyAccount(first, at.eurId, reg.userId, EUR);
    EmptyAccountKeepsBooks(first, lost, at.eurId, reg.userId, EUR);
    OpenedKeepsBooks(empty, lost, reg, at.txId, systemUsd, at.usdId, USD, OPENING_USD);
    var recorded := Opened(empty, reg, at.txId, systemUsd, at.usdId, USD, OPENING_USD);
    OpenedKeepsBooks(recorded, lost, reg, at.txId2, systemEur, at.eurId, EUR, OPENING_EUR);
    BooksOnly(RegisterPostings(db, reg, at, systemUsd, systemEur), RunRegister(db, reg, at).value.0, lost);
  }

  lemma RegisterFunds(db: Database, reg: Registration, at: Attempt, systemUsd: string, systemEur: string)
    requires SystemAccountsSet(db.accounts) && RunRegister(db, reg, at).Ok?
    requires Some(systemUsd) == SystemAccount(db.accounts, USD) && Some(systemEur) == SystemAccount(db.accounts, EUR)
    ensures at.usdId !in db.accounts && at.eurId !in db.accounts && at.usdId != at.eurId
    ensures OPENING_USD <= db.accounts[systemUsd].balance && OPENING_EUR <= db.accounts[systemEur].balance
  {
  }
}
