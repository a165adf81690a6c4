/** Sums over the ledger and over account balances, and how single changes move them. */
module Sums {
  import opened Rates
  import opened Tables
  import opened Engine

  /** Which ledger entries are summed. */
  datatype Selector =
    | OfAccount(id: string)
    | OfTransaction(id: string, currency: Currency)
    | OfPosting(id: string, accountId: string)
    | OfCurrency(currency: Currency)

  predicate Selects(sel: Selector, e: Entry) {
    match sel
    case OfAccount(id) => e.accountId == id
    case OfTransaction(id, currency) => e.transactionId == id && e.currency == currency
    case OfPosting(id, accountId) => e.transactionId == id && e.accountId == accountId
    case OfCurrency(currency) => e.currency == currency
  }

  /** `SUM(amount)` over the selected entries, zero when there are none. */
  function SumOf(sel: Selector, ledger: seq<Entry>): int {
    if ledger == [] then 0
    else
      var e := ledger[|ledger| - 1];
      SumOf(sel, ledger[..|ledger| - 1]) + Part(sel, e)
  }

  function Part(sel: Selector, e: Entry): int {
    if Selects(sel, e) then e.amount else 0
  }

  lemma SumOfAppend(sel: Selector, ledger: seq<Entry>, e: Entry)
    ensures SumOf(sel, ledger + [e]) == SumOf(sel, ledger) + Part(sel, e)
  {
  }

  lemma SumOfTwo(sel: Selector, ledger: seq<Entry>, a: Entry, b: Entry)
    ensures SumOf(sel, ledger + [a, b]) == SumOf(sel, ledger) + Part(sel, a) + Part(sel, b)
  {
    assert ledger + [a, b] == (ledger + [a]) + [b];
    SumOfAppend(sel, ledger, a);
    SumOfAppend(sel, ledger + [a], b);
  }

  lemma SumOfFour(sel: Selector, ledger: seq<Entry>, a: Entry, b: Entry, c: Entry, d: Entry)
    ensures SumOf(sel, ledger + [a, b, c, d]) ==
            SumOf(sel, ledger) + Part(sel, a) + Part(sel, b) + Part(sel, c) + Part(sel, d)
  {
    assert ledger + [a, b, c, d] == (ledger + [a, b]) + [c, d];
    SumOfTwo(sel, ledger, a, b);
    SumOfTwo(sel, ledger + [a, b], c, d);
  }

  lemma {:induction false} SumOfNone(sel: Selector, ledger: seq<Entry>)
    requires forall i | 0 <= i < |ledger| :: !Selects(sel, ledger[i])
    ensures SumOf(sel, ledger) == 0
  {
    if ledger != [] {
      SumOfNone(sel, ledger[..|ledger| - 1]);
    }
  }

  function Share(accounts: map<string, Account>, id: string, currency: Currency): int
    requires id in accounts
  {
    if accounts[id].currency == currency then accounts[id].balance else 0
  }

  /** The balances of the accounts `ids` in one currency, added up. */
  ghost function Total(accounts: map<string, Account>, ids: set<string>, currency: Currency): int
    requires ids <= accounts.Keys
  {
    if ids == {} then 0
    else
      var id :| id in ids;
      Share(accounts, id, currency) + Total(accounts, ids - {id}, currency)
  }

  /** The order in which accounts are added up does not matter. */
  lemma {:induction false} TotalPick(accounts: map<string, Account>, ids: set<string>, currency: Currency, id: string)
    requires ids <= accounts.Keys && id in ids
    ensures Total(accounts, ids, currency) == Share(accounts, id, currency) + Total(accounts, ids - {id}, currency)
    decreases ids
  {
    var first :| && first in ids
                 && Total(accounts, ids, currency) ==
                    Share(accounts, first, currency) + Total(accounts, ids - {first}, currency);
    if first != id {
      TotalPick(accounts, ids - {first}, currency, id);
      TotalPick(accounts, ids - {id}, currency, first);
      assert ids - {first} - {id} == ids - {id} - {first};
    }
  }

  lemma {:induction false} TotalFrame(
    a: map<string, Account>, b: map<string, Account>, ids: set<string>, currency: Currency)
    requires ids <= a.Keys && ids <= b.Keys
    requires forall id | id in ids :: a[id] == b[id]
    ensures Total(a, ids, currency) == Total(b, ids, currency)
    decreases ids
  {
    if ids != {} {
      var id :| id in ids;
      TotalPick(a, ids, currency, id);
      TotalPick(b, ids, currency, id);
      TotalFrame(a, b, ids - {id}, currency);
    }
  }

  ghost function TotalOf(accounts: map<string, Account>, currency: Currency): int {
    Total(accounts, accounts.Keys, currency)
  }

  /** Setting one balance moves its currency's total by the difference. */
  lemma TotalAfterSet(accounts: map<string, Account>, id: string, balance: int, currency: Currency)
    requires id in accounts
    ensures TotalOf(SetBalanceOf(accounts, id, balance), currency) ==
            TotalOf(accounts, currency)
                + (if accounts[id].currency == currency then balance - accounts[id].balance else 0)
  {
    var after := SetBalanceOf(accounts, id, balance);
    assert after.Keys == accounts.Keys;
    TotalPick(accounts, accounts.Keys, currency, id);
    TotalPick(after, accounts.Keys, currency, id);
    TotalFrame(accounts, after, accounts.Keys - {id}, currency);
  }

  lemma TotalAfterAdd(accounts: map<string, Account>, id: string, account: Account, currency: Currency)
    requires id !in accounts
    ensures TotalOf(accounts[id := account], currency) ==
            TotalOf(accounts, currency) + (if account.currency == currency then account.balance else 0)
  {
    var after := accounts[id := account];
    TotalPick(after, after.Keys, currency, id);
    assert after.Keys - {id} == accounts.Keys;
    TotalFrame(accounts, after, accounts.Keys, currency);
  }

  lemma {:induction false} TotalNotNegative(accounts: map<string, Account>, ids: set<string>, currency: Currency)
    requires ids <= accounts.Keys
    requires forall id | id in ids :: accounts[id].balance >= 0
    ensures Total(accounts, ids, currency) >= 0
    decreases ids
  {
    if ids != {} {
      var id :| id in ids;
      TotalPick(accounts, ids, currency, id);
      TotalNotNegative(accounts, ids - {id}, currency);
    }
  }

  /** No balance, and no two balances together, exceed the total of their currency. */
  lemma TotalBoundsBalances(accounts: map<string, Account>, a: string, b: string)
    requires a in accounts && b in accounts && accounts[a].currency == accounts[b].currency
    requires forall id | id in accounts :: accounts[id].balance >= 0
    ensures accounts[a].balance <= TotalOf(accounts, accounts[a].currency)
    ensures a != b ==> accounts[a].balance + accounts[b].balance <= TotalOf(accounts, accounts[a].currency)
  {
    var currency := accounts[a].currency;
    TotalPick(accounts, accounts.Keys, currency, a);
    TotalNotNegative(accounts, accounts.Keys - {a}, currency);
    if a != b {
      TotalPick(accounts, accounts.Keys - {a}, currency, b);
      TotalNotNegative(accounts, accounts.Keys - {a} - {b}, currency);
    }
  }
}
