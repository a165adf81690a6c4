/**
 The stores' methods on an open transaction and on the database (internal/store), each statement
 checked by the table constraints.
 */
module Stores {
  import opened Wrappers
  import opened Rates
  import opened Tables
  import opened Sums
  import opened Bodies
  import opened Runner
  import opened Engine
  import Books
  import Decimals
  import Int64

  /**
   An open transaction: the database as it sees it, with its own uncommitted writes, and the account rows it locked.
   */
  class SqlTx {
    var view: Database
    ghost var locked: seq<string>

    constructor (snapshot: Database)
      ensures view == snapshot && locked == []
    {
      view := snapshot;
      locked := [];
    }
  }

  /** A statement was carried out, or failed and changed nothing. */
  predicate Issued(before: Database, s: Statement, after: Database, err: Option<Error>) {
    var r := Execute(before, s);
    if r.Err? then err == Some(r.error) && after == before else err == None && after == ApplyOption(before, r.value)
  }

  class AccountStore {
    const db: Store<Database>

    constructor (db: Store<Database>)
      ensures this.db == db
    {
      this.db := db;
    }

    method Create(tx: SqlTx, id: string, owner: string, currency: Currency, balance: int) returns (err: Option<Error>)
      modifies tx`view
      ensures Issued(old(tx.view), InsertAccount(id, owner, currency, balance), tx.view, err)
    {
      if balance < 0 {
        return Some(Postgres(CheckViolation));
      }
      if id in tx.view.accounts {
        return Some(Postgres(UniqueViolation));
      }
      tx.view := tx.view.(accounts := tx.view.accounts[id := Account(Some(owner), currency, balance, false)]);
      return None;
    }

    method GetByID(id: string) returns (r: Result<Account, Error>)
      ensures r == if id in db.committed.accounts then Ok(db.committed.accounts[id]) else Err(NoRows)
    {
      if id in db.committed.accounts {
        return Ok(db.committed.accounts[id]);
      }
      return Err(NoRows);
    }

    method GetForUpdate(tx: SqlTx, id: string) returns (r: Result<Account, Error>)
      modifies tx`locked
      ensures r == if id in tx.view.accounts then Ok(tx.view.accounts[id]) else Err(NoRows)
      ensures tx.locked == if r.Ok? then old(tx.locked) + [id] else old(tx.locked)
    {
      if id in tx.view.accounts {
        tx.locked := tx.locked + [id];
        return Ok(tx.view.accounts[id]);
      }
      return Err(NoRows);
    }

    method UpdateBalance(tx: SqlTx, id: string, balance: int) returns (err: Option<Error>)
      modifies tx`view
      ensures Issued(old(tx.view), Statement.UpdateBalance(id, balance), tx.view, err)
    {
      if id in tx.view.accounts {
        if balance < 0 {
          return Some(Postgres(CheckViolation));
        }
        tx.view := tx.view.(accounts := tx.view.accounts[id := tx.view.accounts[id].(balance := balance)]);
      }
      return None;
    }

    method AdjustBalance(tx: SqlTx, id: string, delta: int) returns (rows: nat, err: Option<Error>)
      modifies tx`view
      ensures Issued(old(tx.view), Statement.AdjustBalance(id, delta), tx.view, err)
      ensures rows == if err.None? && id in old(tx.view).accounts then 1 else 0
    {
      if id !in tx.view.accounts {
        return 0, None;
      }
      var balance := tx.view.accounts[id].balance + delta;
      if !Int64.Fits(balance) {
        return 0, Some(Postgres(OutOfRange));
      }
      if balance < 0 {
        return 0, Some(Postgres(CheckViolation));
      }
      tx.view := tx.view.(accounts := tx.view.accounts[id := tx.view.accounts[id].(balance := balance)]);
      return 1, None;
    }

    /** Asks the database, not the transaction. */
    method GetSystemAccount(currency: Currency) returns (r: Result<string, Error>)
      ensures match r
              case Ok(id) => IsSystemAccount(db.committed.accounts, id, currency)
              case Err(e) => e == NoRows && forall id :: !IsSystemAccount(db.committed.accounts, id, currency)
      ensures OneSystemEach(db.committed.accounts) ==>
                var found := SystemAccount(db.committed.accounts, currency);
                r == if found.Some? then Ok(found.value) else Err(NoRows)
    {
      var accounts := db.committed.accounts;
      if exists id | id in accounts :: accounts[id].isSystem && accounts[id].currency == currency {
        var id :| id in accounts && accounts[id].isSystem && accounts[id].currency == currency;
        assert IsSystemAccount(accounts, id, currency);
        return Ok(id);
      }
      assert forall id :: !IsSystemAccount(accounts, id, currency);
      return Err(NoRows);
    }

    /** A user's accounts ordered by currency, each with its stored and calculated balance and their difference. */
    method GetByUser(userId: string) returns (rows: seq<Summary>)
      ensures forall i | 0 <= i < |rows| :: Summarises(db.committed, userId, rows[i])
      ensures forall id | id in db.committed.accounts && db.committed.accounts[id].owner == Some(userId) ::
                exists i | 0 <= i < |rows| :: rows[i].id == id
      ensures forall i, j | 0 <= i < j < |rows| ::
                rows[i].id != rows[j].id && (rows[i].currency == EUR || rows[j].currency == USD)
    {
      var first := RowsIn(userId, EUR);
      var second := RowsIn(userId, USD);
      rows := first + second;
      forall id | id in db.committed.accounts && db.committed.accounts[id].owner == Some(userId)
        ensures exists i | 0 <= i < |rows| :: rows[i].id == id
      {
        assert IsOwned(db.committed, id, userId, db.committed.accounts[id].currency);
        if db.committed.accounts[id].currency == EUR {
          var i :| 0 <= i < |first| && first[i].id == id;
          assert rows[i].id == id;
        } else {
          var i :| 0 <= i < |second| && second[i].id == id;
          assert rows[|first| + i].id == id;
        }
      }
    }

    method RowsIn(userId: string, currency: Currency) returns (rows: seq<Summary>)
      ensures forall i | 0 <= i < |rows| :: Summarises(db.committed, userId, rows[i]) && rows[i].currency == currency
      ensures forall id | IsOwned(db.committed, id, userId, currency) :: exists i | 0 <= i < |rows| :: rows[i].id == id
      ensures forall i, j | 0 <= i < j < |rows| :: rows[i].id != rows[j].id
    {
      rows := [];
      var accounts := db.committed.accounts;
      var rest := set id | id in accounts && accounts[id].owner == Some(userId) && accounts[id].currency == currency;
      while rest != {}
        invariant forall id | id in rest :: IsOwned(db.committed, id, userId, currency)
        invariant forall i | 0 <= i < |rows| ::
                  Summarises(db.committed, userId, rows[i]) && rows[i].currency == currency
        invariant forall id | IsOwned(db.committed, id, userId, currency) && id !in rest ::
                    exists i | 0 <= i < |rows| :: rows[i].id == id
        invariant forall i | 0 <= i < |rows| :: rows[i].id !in rest
        invariant forall i, j | 0 <= i < j < |rows| :: rows[i].id != rows[j].id
        decreases rest
      {
        var id :| id in rest;
        var calculated := SumEntries(db.committed.ledger, id);
        ghost var before := rows;
        rows := rows + [Summary(id, currency, accounts[id].balance, calculated, accounts[id].balance - calculated)];
        assert rows[|before|].id == id && forall i | 0 <= i < |before| :: rows[i] == before[i];
        rest := rest - {id};
      }
    }
  }

  /** One line of `GetByUser`. */
  datatype Summary = Summary(id: string, currency: Currency, stored: int, calculated: int, difference: int)

  predicate IsOwned(db: Database, id: string, userId: string, currency: Currency) {
    id in db.accounts && db.accounts[id].owner == Some(userId) && db.accounts[id].currency == currency
  }

  predicate Summarises(db: Database, userId: string, row: Summary) {
    && IsOwned(db, row.id, userId, row.currency)
    && row.stored == db.accounts[row.id].balance
    && row.calculated == SumOf(OfAccount(row.id), db.ledger)
    && row.difference == Books.Difference(db, row.id)
  }

  /** `SUM(amount)` over an account's entries, zero when there are none. */
  method SumEntries(ledger: seq<Entry>, id: string) returns (sum: int)
    ensures sum == SumOf(OfAccount(id), ledger)
  {
    sum := 0;
    for i := 0 to |ledger|
      invariant sum == SumOf(OfAccount(id), ledger[..i])
    {
      assert ledger[..i + 1] == ledger[..i] + [ledger[i]];
      SumOfAppend(OfAccount(id), ledger[..i], ledger[i]);
      if ledger[i].accountId == id {
        sum := sum + ledger[i].amount;
      }
    }
    assert ledger[..|ledger|] == ledger;
  }

  class LedgerStore {
    const db: Store<Database>

    constructor (db: Store<Database>)
      ensures this.db == db
    {
      this.db := db;
    }

    /** The balance an account's entries add up to. */
    method SumByAccount(id: string) returns (sum: int)
      ensures sum == SumOf(OfAccount(id), db.committed.ledger)
      ensures id in db.committed.accounts ==>
              sum == db.committed.accounts[id].balance - Books.Difference(db.committed, id)
    {
      sum := SumEntries(db.committed.ledger, id);
    }

    /** Inserts in order and stops at the first entry the table refuses. */
    method InsertEntries(tx: SqlTx, entries: seq<Entry>) returns (err: Option<Error>)
      modifies tx`view
      ensures err.None? ==> tx.view == old(tx.view).(ledger := old(tx.view).ledger + entries)
      ensures err.None? <==> forall i | 0 <= i < |entries| :: entries[i].amount != 0
      ensures err.Some? ==> err == Some(Postgres(CheckViolation))
    {
      assert entries[..0] == [];
      assert tx.view.ledger + [] == tx.view.ledger;
      for i := 0 to |entries|
        invariant tx.view == old(tx.view).(ledger := old(tx.view).ledger + entries[..i])
        invariant forall j | 0 <= j < i :: entries[j].amount != 0
      {
        if entries[i].amount == 0 {
          return Some(Postgres(CheckViolation));
        }
        tx.view := tx.view.(ledger := tx.view.ledger + [entries[i]]);
        assert entries[..i + 1] == entries[..i] + [entries[i]];
        assert old(tx.view).ledger + entries[..i] + [entries[i]] == old(tx.view).ledger + entries[..i + 1];
      }
      assert entries[..|entries|] == entries;
      return None;
    }
  }

  class TransactionStore {
    constructor () {}

    method Create(tx: SqlTx, row: Transaction) returns (err: Option<Error>)
      modifies tx`view
      ensures Issued(old(tx.view), InsertTransaction(row), tx.view, err)
    {
      if row.amount <= 0 {
        return Some(Postgres(CheckViolation));
      }
      if IsTaken(tx.view, row) {
        return Some(Postgres(UniqueViolation));
      }
      tx.view := tx.view.(transactions := tx.view.transactions + [row]);
      return None;
    }
  }

  /** Why the table refuses a quote, if it does: its checks come before its primary key. */
  function QuoteRefused(db: Database, id: string, quote: Quote): Option<Error> {
    var rate := Decimals.Parse(quote.rate);
    if rate.None? then Some(Postgres(InvalidText))
    else if quote.amount <= 0 || quote.converted <= 0 || rate.value.coef <= 0 then Some(Postgres(CheckViolation))
    else if id in db.quotes then Some(Postgres(UniqueViolation))
    else None
  }

  class QuoteStore {
    const db: Store<Database>

    constructor (db: Store<Database>)
      ensures this.db == db
    {
      this.db := db;
    }

    /** Inserts outside any transaction; the rate's text has to be a positive number. */
    method Create(id: string, quote: Quote) returns (err: Option<Error>)
      modifies db
      ensures err == QuoteRefused(old(db.committed), id, quote)
      ensures db.committed == if err.Some? then old(db.committed)
                              else old(db.committed).(quotes := old(db.committed).quotes[id := quote])
    {
      var rate := Decimals.Parse(quote.rate);
      if rate.None? {
        return Some(Postgres(InvalidText));
      }
      if quote.amount <= 0 || quote.converted <= 0 || rate.value.coef <= 0 {
        return Some(Postgres(CheckViolation));
      }
      if id in db.committed.quotes {
        return Some(Postgres(UniqueViolation));
      }
      db.committed := db.committed.(quotes := db.committed.quotes[id := quote]);
      return None;
    }

    method GetByID(id: string) returns (r: Option<Quote>)
      ensures r == if id in db.committed.quotes then Some(db.committed.quotes[id]) else None
    {
      return if id in db.committed.quotes then Some(db.committed.quotes[id]) else None;
    }

    /** Marks the quote consumed if it still can be, and says how many rows that changed. */
    method Consume(tx: SqlTx, id: string, now: int) returns (rows: nat)
      modifies tx`view
      ensures rows == if Redeemable(old(tx.view), id, now) then 1 else 0
      ensures tx.view ==
              if rows == 1 then old(tx.view).(quotes := ConsumedQuotes(old(tx.view).quotes, id, now)) else old(tx.view)
    {
      if id in tx.view.quotes && tx.view.quotes[id].consumedAt.None? && tx.view.quotes[id].expiresAt > now {
        tx.view := tx.view.(quotes := tx.view.quotes[id := tx.view.quotes[id].(consumedAt := Some(now))]);
        return 1;
      }
      return 0;
    }
  }

  class AuditStore {
    constructor () {}

    method Log(tx: SqlTx, event: AuditRow)
      modifies tx`view
      ensures tx.view == old(tx.view).(audit := old(tx.view).audit + [event])
    {
      tx.view := tx.view.(audit := tx.view.audit + [event]);
    }
  }

  class UserStore {
    constructor () {}

    method Create(tx: SqlTx, user: User) returns (err: Option<Error>)
      modifies tx`view
      ensures Issued(old(tx.view), InsertUser(user), tx.view, err)
    {
      if Lookup(tx.view, UserId(user.id)).taken || Lookup(tx.view, Username(user.username)).taken
          || Lookup(tx.view, Email(user.email)).taken {
        return Some(Postgres(UniqueViolation));
      }
      tx.view := tx.view.(users := tx.view.users + [user]);
      return None;
    }
  }

  // --------------------------------------------------------------- the balance checks

  function Amounts(entries: seq<Entry>): int {
    if entries == [] then 0 else Amounts(entries[..|entries| - 1]) + entries[|entries| - 1].amount
  }

  lemma WrapAdd(x: int, y: int)
    ensures Int64.Wrap(Int64.Wrap(x) + y) == Int64.Wrap(x + y)
  {
    Int64.WrapUnique(x + y, Int64.Wrap(Int64.Wrap(x) + y));
  }

  /** `ensureBalanced`: the 64-bit sum of the amounts is zero. */
  method EnsureBalanced(entries: seq<Entry>) returns (err: Option<Error>)
    ensures err == if Int64.Wrap(Amounts(entries)) == 0 then None else Some(UnbalancedEntries)
  {
    var sum := 0;
    for i := 0 to |entries|
      invariant sum == Int64.Wrap(Amounts(entries[..i]))
    {
      assert entries[..i + 1][..i] == entries[..i];
      WrapAdd(Amounts(entries[..i]), entries[i].amount);
      sum := Int64.Wrap(sum + entries[i].amount);
    }
    assert entries[..|entries|] == entries;
    return if sum != 0 then Some(UnbalancedEntries) else None;
  }

  /** Some entry has this currency. */
  predicate HasCurrency(entries: seq<Entry>, c: Currency) {
    exists i | 0 <= i < |entries| :: entries[i].currency == c
  }

  /** What the map of sums holds after some entries. */
  ghost predicate Summed(sums: map<Currency, int>, entries: seq<Entry>) {
    forall c: Currency ::
      && (c in sums <==> HasCurrency(entries, c))
      && (c in sums ==> sums[c] == Int64.Wrap(SumOf(OfCurrency(c), entries)))
      && (c !in sums ==> SumOf(OfCurrency(c), entries) == 0)
  }

  lemma SummedOne(sums: map<Currency, int>, entries: seq<Entry>, e: Entry)
    requires Summed(sums, entries)
    ensures Summed(sums[e.currency := Int64.Wrap((if e.currency in sums then sums[e.currency] else 0) + e.amount)],
            entries + [e])
  {
    hide Int64.Wrap, SumOf, HasCurrency;
    forall c: Currency
      ensures SumOf(OfCurrency(c), entries + [e]) ==
              SumOf(OfCurrency(c), entries) + if e.currency == c then e.amount else 0
      ensures HasCurrency(entries + [e], c) <==> HasCurrency(entries, c) || e.currency == c
    {
      SumOfAppend(OfCurrency(c), entries, e);
      CurrencyAppended(entries, e, c);
    }
    WrapAdd(SumOf(OfCurrency(e.currency), entries), e.amount);
  }

  /** `ensureBalancedByCurrency`: the 64-bit sum of each currency that occurs is zero. */
  method EnsureBalancedByCurrency(entries: seq<Entry>) returns (err: Option<Error>)
    ensures err.None? <==> forall c | HasCurrency(entries, c) :: Int64.Wrap(SumOf(OfCurrency(c), entries)) == 0
    ensures err.Some? ==> err == Some(UnbalancedEntries)
  {
    hide Int64.Wrap, SumOf, HasCurrency;
    var sums: map<Currency, int> := map[];
    NothingSummed();
    for i := 0 to |entries|
      invariant Summed(sums, entries[..i])
    {
      var e := entries[i];
      assert entries[..i + 1] == entries[..i] + [e];
      SummedOne(sums, entries[..i], e);
      sums := sums[e.currency := Int64.Wrap((if e.currency in sums then sums[e.currency] else 0) + e.amount)];
    }
    assert entries[..|entries|] == entries;
    var rest := sums.Keys;
    while rest != {}
      invariant rest <= sums.Keys
      invariant forall c | c in sums.Keys - rest :: sums[c] == 0
      decreases rest
    {
      var c :| c in rest;
      if sums[c] != 0 {
        return Some(UnbalancedEntries);
      }
      rest := rest - {c};
    }
    return None;
  }

  lemma NothingSummed()
    ensures Summed(map[], [])
  {
  }

  lemma CurrencyAppended(entries: seq<Entry>, e: Entry, c: Currency)
    ensures HasCurrency(entries + [e], c) <==> HasCurrency(entries, c) || e.currency == c
  {
    var all := entries + [e];
    assert all[|entries|] == e;
    if HasCurrency(entries, c) {
      var i :| 0 <= i < |entries| && entries[i].currency == c;
      assert all[i].currency == c;
    }
  }

  /** The check never fails on the entries Transfer builds, and the table takes them. */
  lemma TransferEntriesBalance(req: TransferRequest, at: Attempt, currency: Currency)
    requires Int64.Fits(req.amount) && req.amount > 0
    ensures Int64.Wrap(Amounts(TransferEntries(req, at, currency))) == 0
    ensures forall e | e in TransferEntries(req, at, currency) :: e.amount != 0
  {
    var entries := TransferEntries(req, at, currency);
    assert entries[..1][..0] == [] && Amounts(entries[..1]) == entries[0].amount;
    WrapAdd(-req.amount, req.amount);
  }

  /** Nor on those Exchange builds; the table takes them unless the amount converts to nothing. */
  lemma ExchangeEntriesBalance(req: ExchangeRequest, at: Attempt, plan: Plan, a: string, b: string)
    requires plan.source != plan.target && Int64.Fits(req.amount) && req.amount > 0 && Int64.Fits(plan.converted)
    ensures (forall e | e in ExchangeEntries(req, at, plan, a, b) :: e.amount != 0) <==> plan.converted != 0
    ensures forall c: Currency :: Int64.Wrap(SumOf(OfCurrency(c), ExchangeEntries(req, at, plan, a, b))) == 0
  {
    var postings := ExchangeEntries(req, at, plan, a, b);
    assert postings == [] + [postings[0], postings[1], postings[2], postings[3]];
    assert postings[3].amount == plan.converted;
    forall c: Currency ensures Int64.Wrap(SumOf(OfCurrency(c), postings)) == 0 {
      SumOfFour(OfCurrency(c), [], postings[0], postings[1], postings[2], postings[3]);
      WrapAdd(-req.amount, req.amount);
      WrapAdd(-plan.converted, plan.converted);
    }
  }
}
