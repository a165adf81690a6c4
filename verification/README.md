# Verification of the double-entry ledger

A Dafny model of the ledger engine of a USD/EUR wallet: transfers, quoted exchanges and opening balances
over accounts, ledger entries, transactions and quotes, run by many clients at once through a retrying
transaction runner. Check it with `dafny verify dfyconfig.toml`.

## What is modelled

**Arithmetic and text.** `Int64` (wrap-around), `Text`, `Money` (reading and printing amounts), `Decimals`
(coefficient and exponent, half-to-even rounding, six-place text), `Rates` (the two fixed rates and conversion).

**One operation alone.** `Tables` has the rows, the statements the stores issue, the keys each statement locks
and the constraints the database checks. `Engine` says what each operation does to the whole database, branch by
branch; `Outcomes` says when it succeeds, with which error it fails otherwise and what it leaves, in terms of the
rows alone. `Books` and `Histories` hold the invariants and show that each operation keeps them. `Redemption`
follows a quote or a quoted rate from the handler to the check under lock.

**The code as it runs.** `Stores`, `Service`, `Transfers`, `Exchanges`, `Registrations`, `Calls` and `Hubs` are
classes and methods in the form of the Go code: stores that change a transaction's view, closures that assign
captured variables and fail part way, the retry loop that calls them, the hub's nested map. Each method is proved
equal to its specification, and the specifications are proved to be the operations of `Engine`; `Runner` says what
the loop guarantees of any closure.

**Many clients.** `Programs` takes each transaction body one statement at a time; a statement holds its rows and
index keys until commit or rollback, writes go to a private buffer, and any step, begin or commit may fail.
`Bodies` shows that a body left alone does what `Engine` says, `Interleaved` that every interleaving is
serializable, `Runs` what therefore holds after every run of a freshly migrated database, and `Deadlock` and
`Reversed` exactly when clients can wait in a circle. `Schedules` and `FirstUser` build the runs that end in the
failures of `Reversed` and `Witnesses`.

## How the model stands for the system

- Identifiers are strings compared by code point. Currencies are USD or EUR. Times are integers in seconds, except
  the runner's pauses, which are in nanoseconds. Fresh identifiers, the clock, jitter and faults are inputs.
- The database isolates transactions by locks held to the end, plus arbitrary faults at any statement; a fault may be
  a serialization failure or a detected deadlock, which is how PostgreSQL's own serializable checks appear. A locked
  read sees the latest committed row, where PostgreSQL may instead report a serialization failure. Inserting a
  row locks its index keys, and locking a missing row locks its key. `NOW()` is the time an attempt began.
- `GetSystemAccount` asks the database outside the transaction, as the code does.
- System accounts have no owner, there is one for each currency (at most one where a method is stated on its own), and each starts with 100,000,000 cents and no ledger
  entry (migrations/001_init.sql:105-111, migrations/002_minor_units.sql:2-3).
- Amounts on the wire are 64-bit integers.

## Premises and findings

- The code checks that the source of an exchange is the user's, and nothing about the owner of its destination. An
  exchange into the system account it is paid from loses its converted amount: `Books.ExchangeKeepsBooks` proves that
  the books stay sound if and only if the destination is a user account, `Books.ExchangeIntoSystemLosesMoney` what is
  lost otherwise, and `Witnesses.LossReached` is a run in which 92 cents go missing. The theorems over runs hold for
  all runs, with the losses in their statements; `Runs.NothingIsLostExactlyWhen` says when there are none.
- README.md:105 promises that accounts are locked in a consistent order to avoid deadlocks. Transfers and exchanges
  between users keep that order, but a registration pays from USD and then from EUR whatever the ids, while exchanges
  lock the two system accounts by id. `Reversed.DeadlockFreeExactlyWhen`: among requests that name no system account,
  no circle of waiting clients is reachable if and only if the USD system account has the smaller id. The ids are
  random. Where requests may name a system account a circle is always reachable
  (`Reversed.NamingSystemAccountsDeadlocks`). Where clients wait in a circle PostgreSQL aborts one of them and the
  runner tries again.
- These statements are about the row locks and index keys of the model, not about whole installations. The share locks
  of foreign keys, which the model leaves out, add further waits: inserting a quote, say, waits for a transfer between
  the same two accounts, and may do so in the other order.
- The deadlock statements take identifiers as fresh: an attempt draws none that a live attempt or request uses, and
  nobody names an account before its registration has ended.
- A quoted rate sent with an empty quote id passes the handler and then fails as quote not found
  (`Redemption.EmptyQuoteIdIsNotFound`; 0.92 is one such rate, `Witnesses.EmptyQuoteIdWitness`).
- `FormatMinor` prints the smallest 64-bit integer as text that `ParseMinor` refuses (`Money.RoundTrip`), and
  `ParseMinor` lets `whole*100 + frac` wrap around (`Money.ParseGrammar`).
- docs/design.md says that monetary fields are NUMERIC(20,6); the code and migrations/002_minor_units.sql use BIGINT
  cents, which is what is modelled.
- The pre-check accepts a quote in the very second it expires, while its consumption needs an expiry strictly later.
  `Redemption.QuoteRedeemsAtItsTerms` says exactly when an admitted quote is exchanged, and
  `Redemption.ExpiringQuoteIsRefused` with `Witnesses.ExpiringQuoteReached` that in that second an unconsumed quote is
  admitted and then reported as already consumed.

## Model

| member | source | states |
|---|---|---|
| `Interleaved.Serializable` | internal/services/transaction_service.go:536-550 | after any interleaving of any clients, with errors and retries at any step, the committed database is the one reached by running the committed operations and quotes one at a time in commit order, each succeeding with the receipt it gave |
| `Interleaved.ReceiptsAreCommitted` | internal/services/transaction_service.go:107-205 | a client was given a receipt if and only if exactly one of its attempts committed, and the receipt is that attempt's; a client given an error committed nothing |
| `Interleaved.RunKeepsInv` | internal/db/db.go:42-67 | every reachable state: each open transaction stands where its body would stand alone on the committed database, held keys are disjoint, and the log replays to the committed database |
| `Interleaved.CommitIsOperation` | internal/services/transaction_service.go:112-189 | what a commit publishes is what the operation run alone does to the committed database at that moment, with the receipt it returns |
| `Interleaved.OthersStay` | internal/store/account_store.go:101-113 | a commit by one client leaves every other open transaction exactly where it would be on the new committed database |
| `Interleaved.FailedAttempt` | internal/db/db.go:49-63 | in every state, a client whose attempt fails tries again if and only if the error is a serialization failure or a detected deadlock and this was not its fifth attempt, and otherwise returns the error; nothing is committed |
| `Runs.BalancesAgreeWithLedger` | internal/store/account_store.go:52-73 | after every run, stored balance minus the sum of ledger entries is 0 on user accounts; on a system account it is the seed less the converted amounts of the committed exchanges into it |
| `Runs.MoneyIsConserved` | internal/services/transaction_service.go:359-387 | after every run, the balances of each currency sum to 100,000,000 cents less what exchanges into system accounts lost, and each lies between 0 and 100,000,000 |
| `Runs.NothingIsLostExactlyWhen` | internal/services/transaction_service.go:389-400 | after every run, nothing is lost, and the books are sound, if and only if no committed exchange has a system account as its destination |
| `Runs.TransferSumsNeverWrap` | internal/services/transaction_service.go:130-138 | in every run the two 64-bit sums of an admitted transfer are exact and within bounds |
| `Runs.ExchangeSumsNeverWrap` | internal/services/transaction_service.go:354-387 | in every run the conversion, both user sums and both system sums of an exchange fit 64 bits |
| `Runs.EntriesBalance` | internal/services/transaction_service.go:422-461 | after every run, each transaction's entries sum to zero in each currency, as does the whole ledger; each entry is non-zero, in its account's currency and of a stored transaction |
| `Runs.RowsAreTrue` | internal/services/transaction_service.go:146-181 | after every run, each stored row's amount is posted off its source and, for a transfer, onto its destination, in the row's currency; the source is the row's user's own account, or, for an opening balance of 1,000.00 USD or 500.00 EUR, the system account, paying the new user |
| `Runs.OwnersPay` | internal/services/transaction_service.go:120-122 | over every interleaving, each committed transfer or exchange took its money from an account its own user owns |
| `Runs.RequestsAreServedOnce` | migrations/001_init.sql:53-55 | after every run, transaction ids differ, and so do the client request ids of one user |
| `Runs.RequestsAreGrantedOnce` | internal/store/transaction_store.go:33-43 | over every interleaving, no two committed operations have the same user and client request id, so of two clients repeating a request at most one is given a receipt |
| `Runs.RepeatIsRefused` | internal/store/transaction_store.go:33-43 | repeating a served client request id fails with an error that is not retried; where the operation would otherwise succeed the error is the unique violation |
| `Runs.RepeatedExchange` | internal/store/transaction_store.go:33-43 | an exchange that repeats a served request id fails; if it would have succeeded without the id, the error is the unique violation |
| `Runs.OperationErrorsAreFinal` | internal/db/db.go:69-75 | no operation ends by itself with an error the runner retries: retries come from the database's faults alone |
| `Runs.QuotesAreUsedOnce` | internal/services/transaction_service.go:465-473 | after every run, a quote backs at most one committed exchange, which has the quote's user, accounts and amount and converted its amount, credited in full on a user account, and whose consumption came before the expiry |
| `Runs.ConsumedExactlyWhenUsed` | internal/services/transaction_service.go:465-473 | after every run, a quote is consumed if and only if a committed exchange row records it |
| `Runs.HistoryIsTrue` | internal/handlers/transactions.go:335-350 | after every run, the history shows the stored rate and the conversion of an exchange; what it shows is the ledger's posting on the destination if and only if that is a user account |
| `Runs.HoldersNeverChange` | internal/store/account_store.go:115-134 | over every run, owner, currency and system flag of an account never change and accounts created later are owned user accounts |
| `Runs.RunKeepsGood` | internal/services/transaction_service.go:285-489 | the invariant behind these, which every interleaved run keeps: the books are in order but for the losses the transaction rows themselves add up to, and the history is traceable |
| `Reversed.DeadlockFreeExactlyWhen` | internal/handlers/auth.go:61-66 | over all schedules that name no system account and draw fresh identifiers, no clients ever wait in a circle if and only if the USD system account has the smaller id |
| `Reversed.DeadlockReached` | internal/handlers/auth.go:61-66 | with the ids the other way round, a schedule from the migrated database ends with a registration and an exchange each holding the system account the other waits for |
| `Reversed.NamingSystemAccountsDeadlocks` | internal/services/transaction_service.go:107-119 | whatever the ids, a schedule from the migrated database ends with a transfer into the smaller system account and an exchange by the same user waiting for each other |
| `Deadlock.NoWaitCycle` | internal/services/transaction_service.go:552-557 | in every reachable state the wait-for relation has no cycle (transfers and exchanges between users; registrations where the system accounts are in order) |
| `Deadlock.SomeoneCanMove` | internal/services/transaction_service.go:377-380 | in every such state in which some call has not returned, some client has an enabled action that is no fault: begin, its next statement, or commit or roll back |
| `Deadlock.SoloIsDisciplined` | internal/services/transaction_service.go:536-550 | every body is at every step at a place from which it only asks for keys above those it shares and holds |
| `Deadlock.NeedsAreAbove` | internal/services/transaction_service.go:536-550 | a disciplined body's next keys rank above every held key that others can contend for |
| `Deadlock.ChainRises` | internal/services/transaction_service.go:536-550 | along a chain of clients waiting for each other the keys waited for strictly rise |
| `Reversed.RegisterHalfway` | internal/handlers/auth.go:61-66 | after fourteen steps a registration that can succeed holds the USD system account and needs the EUR one |
| `Reversed.ExchangeHalfway` | internal/services/transaction_service.go:369-380 | after five steps an exchange that can succeed holds its two accounts and the smaller system row and needs the larger |
| `Order.OrderedIDsAgree` | internal/services/transaction_service.go:552-557 | two callers naming the same two rows in either order lock them in the same, strictly increasing, order |
| `Service.LockTwoAccounts` | internal/services/transaction_service.go:536-550 | locks the smaller id first and returns the two rows in the order asked, or the missing-row error |
| `Books.InitialIsSound` | migrations/001_init.sql:105-111 | what the migrations leave behind satisfies the books' invariant |
| `Books.TransferKeepsBooks` | internal/services/transaction_service.go:112-189 | a committed transfer keeps balances reconciled, money conserved, balances non-negative and entries balanced |
| `Books.ExchangeKeepsBooks` | internal/services/transaction_service.go:333-475 | a committed exchange keeps the books if and only if its destination is a user account |
| `Books.ExchangeIsAccounted` | internal/services/transaction_service.go:333-475 | to any destination, a committed exchange keeps the books in order but for the losses, to which it adds its conversion exactly when the destination is a system account |
| `Books.NothingLost` | internal/services/transaction_service.go:389-400 | the losses of a list of transactions are never negative, and are zero if and only if no exchange among them goes into a system account |
| `Books.ExchangeIntoSystemLosesMoney` | internal/services/transaction_service.go:389-400 | into the target system account itself the second absolute write replaces the first: the converted amount is gone from the balances and shows as a reconciliation difference |
| `Books.RegisterKeepsBooks` | internal/handlers/auth.go:50-83 | a committed registration keeps the books: the balances put on the new accounts are paid by the system accounts |
| `Books.BalanceBounds` | migrations/001_init.sql:17 | conservation and non-negativity bound every balance by the seed |
| `Books.TransferDoesNotWrap` | internal/services/transaction_service.go:130-138 | under the invariant the sums of an admitted transfer are exact |
| `Books.ExchangeDoesNotWrap` | internal/services/transaction_service.go:354-387 | under the invariant the sums of a planned exchange are exact |
| `Books.ExchangeOutcome` | internal/services/transaction_service.go:333-475 | a committed exchange: the plan it followed, four balances, four entries, one row, the quote consumed, and the receipt |
| `Books.TransferReceiptIsTrue` | internal/services/transaction_service.go:193-205 | the balances, currency and receiver a transfer reports are those of the database it committed, and its transaction id is new and stored |
| `Books.ExchangeReceiptIsTrue` | internal/services/transaction_service.go:479-488 | the same for an exchange, where the destination balance reported is the stored one if and only if the destination is a user account |
| `Outcomes.TransferSucceedsExactlyWhen` | internal/services/transaction_service.go:100-189 | on books in order, a transfer commits if and only if both accounts exist, the requester owns the source, the currencies agree, the source can pay and the ids are new; each error if and only if its own condition fails first |
| `Outcomes.TransferLeaves` | internal/services/transaction_service.go:130-206 | the whole database and receipt after a committed transfer: two balances moved by the amount, one row, two entries, one audit row, nothing else |
| `Outcomes.QuoteIssuedExactlyWhen` | internal/services/transaction_service.go:222-262 | in either direction a quote is issued if and only if the amount is positive, both accounts exist, the requester owns the source, the currencies differ, the conversion fits 64 bits and the id is new; each error if and only if its own condition holds |
| `Outcomes.QuoteLeaves` | internal/services/transaction_service.go:245-262 | the stored quote: the request, its conversion, 0.920000 or 1.086957, and two minutes to live |
| `Outcomes.ConvertedFitsExactlyWhenPositive` | internal/services/transaction_service.go:516-518 | a conversion cut to 64 bits is positive if and only if nothing was cut, so the positive-amount check of the table refuses exactly the conversions that overflow |
| `Outcomes.ExchangeSucceedsExactlyWhen` | internal/services/transaction_service.go:333-475 | on books in order, an exchange commits if and only if both accounts exist, the requester owns the source, the currencies differ, rate and quoted conversion are those in force, user and system account can pay, the ids are new and the quote is open; each error if and only if its own condition fails first |
| `Outcomes.ExchangeLeaves` | internal/services/transaction_service.go:389-488 | the whole database and receipt after a committed exchange: four balances, one row with its rate, four entries, one audit row, the quote consumed, nothing else |
| `Outcomes.RegistrationLeaves` | internal/handlers/auth.go:50-151 | the whole database after a committed registration: the user, two accounts at 1,000.00 USD and 500.00 EUR, both system accounts debited, two rows, four entries, one audit row, nothing else |
| `Histories.TransferIsTraceable` | internal/store/transaction_store.go:33-43 | a committed transfer keeps transaction ids, request ids and quotes unique, every entry with its row, and every row telling what the ledger posted |
| `Histories.ExchangeIsTraceable` | internal/services/transaction_service.go:402-473 | a committed exchange does too; its row records its user, rate and quote, its amount is posted off the source, and its conversion, or nothing on a system account, on the destination |
| `Histories.QuoteIsTraceable` | internal/services/transaction_service.go:245-262 | an issued quote keeps the history traceable |
| `Histories.RegisterIsTraceable` | internal/handlers/auth.go:113-151 | a committed registration does too; its opening rows go from the system account to accounts of the new user |
| `Histories.HistoryAgreesWithLedger` | internal/handlers/transactions.go:335-350 | on a traceable database the recomputed conversion equals the posting on the destination if and only if that is a user account |
| `Bodies.SoloIsOperation` | internal/services/transaction_service.go:112-475 | a transaction body that has ended, after however many statements, did what the operation does as a whole |
| `Bodies.TransferAgrees` | internal/services/transaction_service.go:112-189 | the nine steps of a transfer body agree with the operation, in success and in each error |
| `Bodies.ExchangeAgrees` | internal/services/transaction_service.go:333-475 | the steps of an exchange body agree with the operation, in success and in each error |
| `Bodies.RegisterAgrees` | internal/handlers/auth.go:50-83 | the steps of a registration body agree with the operation, in success and in each error |
| `Bodies.BodyEnds` | internal/services/transaction_service.go:112-475 | every body ends within eighteen steps |
| `Programs.SoloFrame` | internal/store/account_store.go:101-113 | a body behaves the same on two databases that agree on the keys it has locked |
| `Programs.SoloWritesHeld` | internal/store/account_store.go:115-134 | a body writes only keys it has locked |
| `Tables.ExecuteReadsKeys` | internal/store/transaction_store.go:33-43 | a statement's outcome, constraint errors included, depends only on the keys it locks |
| `Tables.ExecuteWritesKeys` | internal/store/account_store.go:115-134 | a statement changes only keys it locks |
| `Tables.LookupFrameAll` | internal/store/account_store.go:115-134 | a list of writes leaves every other row and index key as it was |
| `Tables.HoldersKeepSystem` | internal/store/account_store.go:136-144 | while holders are kept, GetSystemAccount answers the same |
| `Calls.Transfer` | internal/services/transaction_service.go:100-206 | on success the database ends as one attempt run alone made it, the sender owns the source, and exactly the sender and then the target's owner, if it has one, are told the balances the committed database holds, as texts that read back as them; on error the database is as the others left it and nothing is announced; the pre-checks change nothing |
| `Transfers.Closure` | internal/services/transaction_service.go:112-189 | the retried closure, statement by statement: error, transaction view and captured variables, also those left behind by a failure, are the specification's; it succeeds only for the owner of a source that can pay, and anyone else is unauthorized |
| `Transfers.Record` | internal/services/transaction_service.go:146-188 | transaction row, balanced entries and audit row, or the first error |
| `Transfers.Announce` | internal/services/transaction_service.go:193-205 | broadcasts the sender's balance, and the receiver's exactly when the target has an owner |
| `Transfers.AnnouncedTells` | internal/services/transaction_service.go:193-205 | the broadcasts of a committed transfer carry the committed balances of both accounts, read back from their texts, the second exactly when the target has an owner |
| `Transfers.AttemptedIsRun` | internal/services/transaction_service.go:112-189 | an attempt without faults is the transfer run alone; one with faults can only be that or an error |
| `Exchanges.QuoteExchange` | internal/services/transaction_service.go:222-275 | issues a quote if and only if the amount is positive, both accounts exist, the requester owns the source, the currencies differ, the conversion fits and the id is new, and returns its stored rate, conversion and expiry; otherwise the specified error and no change |
| `Exchanges.Prepare` | internal/services/transaction_service.go:286-331 | the pre-check outside the transaction yields the specified terms or error |
| `Calls.Exchange` | internal/services/transaction_service.go:285-489 | on success the database ends as one attempt under the admitted terms made it, the user owns the source, and exactly two calls tell the user of source and destination, for user accounts the balance the committed database holds and its currency; on error the database is as the others left it and nothing is announced |
| `Exchanges.Closure` | internal/services/transaction_service.go:333-475 | the retried closure, statement by statement: error, transaction view and captured variables are the specification's; it succeeds only for the owner of a source that can pay, and anyone else is unauthorized |
| `Exchanges.Move` | internal/services/transaction_service.go:369-400 | system accounts found and locked, funds checked, four balances written, or the first error |
| `Exchanges.UpdateAll` | internal/services/transaction_service.go:389-400 | the four absolute writes in order, refused exactly when one is negative |
| `Exchanges.Record` | internal/services/transaction_service.go:402-474 | row, balanced entries, audit row and conditional consumption of the quote, or the first error |
| `Exchanges.Announce` | internal/services/transaction_service.go:479-488 | broadcasts to the one user first the source and then the destination, each with a text that reads back as its balance |
| `Exchanges.AnnouncedTells` | internal/services/transaction_service.go:479-488 | the broadcasts of a committed exchange carry the committed balances and currencies of its user accounts, source first |
| `Exchanges.AttemptedIsRun` | internal/services/transaction_service.go:333-475 | an attempt without faults is the exchange run alone; one with faults can only be that or an error |
| `Calls.Register` | internal/handlers/auth.go:49-95 | registered exactly when one attempt committed, with both accounts at 1,000.00 USD and 500.00 EUR and two opening rows from the system accounts to them; the conflict answer exactly for a unique violation; otherwise the database as the others left it |
| `Calls.AttemptedIsRun` | internal/services/transaction_service.go:112-475 | an attempt of any operation without faults is the operation run alone, with its receipt in the captured variables; one with faults can only be that or an error |
| `Calls.RunBody` | internal/db/db.go:49-56 | running the closure of any operation gives the specified error, transaction view and captured variables |
| `Calls.Committed` | internal/services/transaction_service.go:107-206 | whichever attempt commits, database and captured variables are exactly that attempt's operation and receipt |
| `Calls.LeftoverIsOwner` | internal/services/transaction_service.go:127-129 | over any number of aborted attempts, a receiver id left over is still the target account's owner |
| `Registrations.Closure` | internal/handlers/auth.go:50-83 | user, accounts, two opening balances and audit row, or the first error |
| `Registrations.CreateOpeningBalance` | internal/handlers/auth.go:103-151 | the row from the system account to the new account, its two entries and the relative update of the system account, or the first error |
| `Registrations.RegistersExactlyWhen` | internal/handlers/auth.go:50-95 | with fresh identifiers a registration succeeds if and only if both names are free and both system accounts can pay; it is a conflict if and only if a name is taken |
| `Registrations.AttemptedIsRun` | internal/handlers/auth.go:50-83 | an attempt without faults is the registration run alone; one with faults can only be that or an error |
| `Calls.WithTx` | internal/db/db.go:42-82 | the loop of begin, run the closure, roll back or commit, and pause equals its recursive specification over any schedule of outside commits and failures; one to five attempts; pauses under 640 ms in total |
| `Runner.AllOrNothing` | internal/db/db.go:42-67 | success exactly when the last attempt began, ran and committed, every earlier one having failed with a retryable error; state and captured variables are then that attempt's, and on error the database is as the others left it |
| `Runner.TriedAgainExactlyWhen` | internal/db/db.go:44-75 | an attempt is followed by another if and only if it began, ended in a serialization failure or a detected deadlock, and was not the fifth |
| `Runner.RetryLimitNeverReached` | internal/db/db.go:66 | the error after the loop is never returned |
| `Runner.Stretch` | internal/db/db.go:44-65 | from any attempt on: the attempts made, and why the last one was last |
| `Runner.IsRetryable` | internal/db/db.go:69-75 | serialization failures and deadlocks only |
| `Stores.AccountStore.Create` | internal/store/account_store.go:43-50 | inserts the account, or a unique or check violation and no change |
| `Stores.AccountStore.GetForUpdate` | internal/store/account_store.go:101-113 | the row as the transaction sees it, locked, or the missing-row error |
| `Stores.AccountStore.UpdateBalance` | internal/store/account_store.go:115-122 | sets the balance, refused when negative; a missing row is no error |
| `Stores.AccountStore.AdjustBalance` | internal/store/account_store.go:124-134 | adds the delta, refused when out of range or negative, and reports the rows changed |
| `Stores.AccountStore.GetSystemAccount` | internal/store/account_store.go:136-144 | the one system account of the currency, or the missing-row error when there is none |
| `Stores.AccountStore.GetByUser` | internal/store/account_store.go:52-73 | exactly the accounts the user owns, each once, EUR before USD, with stored balance, sum of entries and their difference |
| `Stores.LedgerStore.InsertEntries` | internal/store/ledger_store.go:13-24 | appends all entries in order exactly when none is zero, otherwise a check violation |
| `Stores.LedgerStore.SumByAccount` | internal/store/ledger_store.go:26-34 | the sum of the account's entries: the balance less the reconciliation difference |
| `Stores.TransactionStore.Create` | internal/store/transaction_store.go:33-43 | inserts the row, or refuses an amount that is not positive, a taken id or a taken client request id |
| `Stores.QuoteStore.Create` | internal/store/exchange_quote_store.go:43-49 | inserts the quote exactly when its id is new, amount and conversion are positive and its rate text is a positive number; the error for each refusal |
| `Stores.QuoteStore.Consume` | internal/store/exchange_quote_store.go:61-71 | marks the quote exactly when it is unconsumed and unexpired, and reports whether it did |
| `Stores.UserStore.Create` | internal/store/user_store.go:21-28 | inserts the user, or refuses a taken id, username or email |
| `Stores.EnsureBalanced` | internal/services/transaction_service.go:492-501 | fails exactly when the 64-bit sum of the amounts is not zero |
| `Stores.EnsureBalancedByCurrency` | internal/services/transaction_service.go:503-514 | fails exactly when the 64-bit sum of some occurring currency is not zero |
| `Stores.TransferEntriesBalance` | internal/services/transaction_service.go:161-181 | the check never fails on the entries Transfer builds, and the table accepts them |
| `Stores.ExchangeEntriesBalance` | internal/services/transaction_service.go:422-458 | the check never fails on the entries Exchange builds, even wrapped; the table accepts them exactly when the conversion is not zero |
| `Rates.RatesAre` | internal/services/transaction_service.go:520-526 | the two directional rates are 0.92 and 1.086957 |
| `Rates.ConvertMinorIsConverted` | internal/services/transaction_service.go:516-518 | conversion is the rounded product cut to 64 bits, and exact when it fits |
| `Rates.ExchangedIsNearest` | internal/services/transaction_service.go:516-518 | the result is within half a cent of amount times rate, ties to even |
| `Rates.ExchangedMonotone` | internal/services/transaction_service.go:516-518 | a larger amount never converts to less |
| `Rates.ExchangedPositive` | internal/services/transaction_service.go:516-518 | a positive amount converts to at least one cent and at most a ninth more than itself |
| `Rates.Ties` | internal/services/transaction_service.go:516-518 | no tie at 0.92; at 1.086957 a tie exactly when the amount is 500,000 modulo 1,000,000 |
| `Rates.SplittingError` | internal/services/transaction_service.go:516-518 | exchanging in n parts changes the total by at most (n+1)/2 cents |
| `Rates.ConvertEqualRates` | internal/services/transaction_service.go:351-354 | conversion depends on the number a rate denotes, not on how it is written |
| `Rates.EurRoundTrip` | internal/services/transaction_service.go:516-526 | EUR to USD and back never loses a cent and is the identity up to 136,363 cents |
| `Rates.UsdRoundTrip` | internal/services/transaction_service.go:516-526 | USD to EUR and back loses at most one cent and gains at most 1.0218 + 0.00000044 times the amount, within one cent up to 2,000,000 |
| `Rates.UsdRoundTripExactly` | internal/services/transaction_service.go:516-526 | up to 49,417 cents the round trip is the identity except for amounts that are 6 or 19 modulo 25, which gain and lose one cent |
| `Rates.RoundTripWitnesses` | internal/services/transaction_service.go:516-526 | 6 comes back as 7, 19 as 18, 49,418 as 49,419, 2,223,331 as 2,223,333, and 136,372 EUR cents as 136,373 |
| `Rates.RateTextReadsBack` | internal/services/transaction_service.go:245-262 | the six-place text of a directional rate parses back to that rate |
| `Rates.RateTextsAre` | internal/services/transaction_service.go:245-262 | the two texts are 0.920000 and 1.086957 |
| `Rates.PlainRateIsAccepted` | internal/handlers/validation.go:22-31 | a rate written as digits, point, digits is accepted, at exactly its value, if and only if it is positive and has at most six places |
| `Rates.NormalisedRateIsExact` | internal/handlers/transactions.go:199-205 | normalising an accepted rate to six places loses nothing |
| `Decimals.RoundHalfEvenIsNearest` | internal/services/transaction_service.go:516-518 | rounding gives the nearest integer, the even one of two |
| `Decimals.NearestEvenUnique` | internal/services/transaction_service.go:516-518 | there is only one such integer |
| `Decimals.RoundBankOfEqual` | internal/services/transaction_service.go:351-354 | equal decimals round alike at any place |
| `Decimals.FixedTextParses` | internal/handlers/transactions.go:204-205 | the six-place text of any decimal parses, to the decimal rounded to six places |
| `Decimals.FixedTextIsExact` | internal/handlers/transactions.go:204-205 | to an equal decimal when it has at most six places |
| `Redemption.QuoteIsAdmitted` | internal/services/transaction_service.go:298-322 | a stored quote submitted unchanged is refused before the transaction if and only if it is consumed or past its expiry, with the error for each |
| `Redemption.ExchangeAdmittedExactlyWhen` | internal/services/transaction_service.go:285-331 | the pre-check admits exactly positive amounts with an unchanged, unconsumed, unexpired quote or, without a quote id, a readable rate; each error if and only if its own condition holds |
| `Redemption.QuoteRedeemsAtItsTerms` | internal/services/transaction_service.go:333-475 | an admitted quote exchanged at any later time: it converts at exactly the quoted amount if and only if it is funded, its ids are new and it is still open; insufficient funds if and only if not funded, unique violation if and only if funded and taken, already consumed if and only if funded, new and no longer open; never a rate mismatch |
| `Redemption.ExpiringQuoteIsRefused` | internal/store/exchange_quote_store.go:61-71 | in the very second of its expiry an unconsumed quote that could be paid is admitted and then fails as already consumed |
| `Redemption.QuotedRateIsHonoured` | internal/handlers/transactions.go:193-215 | an accepted rate passes the pre-check, and is a rate mismatch under lock if and only if the client's own text is not the directional rate |
| `Redemption.EmptyQuoteIdIsNotFound` | internal/handlers/transactions.go:193-215 | with an empty quote id next to a valid rate the handler lets the request through and the service answers quote not found: it works if and only if the id is left out |
| `Redemption.QuoteIdWins` | internal/handlers/transactions.go:193-215 | with a quote id the rate beside it is dropped, and an unchanged quote is admitted at its own terms if and only if it is open; with neither, or a rate not accepted, the handler refuses |
| `Witnesses.EmptyQuoteIdWitness` | internal/handlers/transactions.go:193-215 | 0.92 with an empty quote id is such a request |
| `Witnesses.ExpiringQuoteReached` | internal/store/exchange_quote_store.go:61-71 | after the first registration on a migrated database a quote is issued; redeemed two minutes later it is admitted and fails as already consumed |
| `Witnesses.MisdirectedWorks` | internal/services/transaction_service.go:285-331 | after the first registration, one dollar exchanged into the EUR system account is admitted and commits |
| `Witnesses.LossReached` | internal/services/transaction_service.go:389-400 | so a run from the migrated database ends with 92 EUR cents lost and unsound books |
| `Money.ParseMinor` | internal/money/money.go:15-62 | the method equals the parsing specification |
| `Money.ParseGrammar` | internal/money/money.go:15-62 | accepts exactly optional sign, digits, optional point and at most two digits, whose whole part fits; the value is the signed cents, wrapped to 64 bits |
| `Money.TooManyDecimalsExactlyWhen` | internal/money/money.go:37-39 | of the two errors, too many decimals is given exactly for a sign, digits and a point with more than two bytes after it |
| `Money.CentsAreDigits` | internal/money/money.go:44-61 | an amount's cents are its digits, the decimals filled up to two |
| `Money.TrimSpaceCuts` | internal/money/money.go:16-19 | what is read is the input less all white space at both ends |
| `Money.FormatMinor` | internal/money/money.go:64-76 | the method equals the printing specification, the minimum included |
| `Money.RoundTrip` | internal/money/money.go:15-76 | parsing a printed value gives it back if and only if it is not the minimum, whose text is refused |
| `Money.FormatInjective` | internal/money/money.go:64-76 | different values print differently |
| `Money.FormatIsCanonical` | internal/money/money.go:64-76 | a printed amount has a minus exactly below zero, no superfluous zero in front, a point and two decimals |
| `Money.NormaliseKeepsValue` | internal/money/money.go:15-76 | printing and reparsing an accepted text gives the same value if and only if its cents do not wrap to the minimum; cents that fit and are not the minimum come back as themselves |
| `Money.IsDigits` | internal/money/money.go:104-111 | true exactly when every character is a digit |
| `Money.SignedMinor` | internal/money/money.go:60-61 | the wrapped product of sign and cents |
| `Money.AmountsAccepted` | internal/handlers/validation.go:14-20 | the accepted amounts are exactly the texts of the grammar whose cents are positive once wrapped to 64 bits, and the amount is those cents |
| `Money.BareSignIsZero` | internal/money/money.go:21-32 | a sign alone, a point alone, or both parse as zero, and are then refused as amounts |
| `Int64.WrapMinor` | internal/money/money.go:60-61 | wrapping after every step is wrapping once at the end |
| `Hubs.Hub.Register` | internal/websocket/hub.go:25-32 | adds the client to its user's set and changes no other; the map stays exactly the active pairs |
| `Hubs.Hub.Unregister` | internal/websocket/hub.go:34-44 | removes the client, changes nothing for a client not there, and leaves no empty inner map |
| `Hubs.Hub.BroadcastBalance` | internal/websocket/hub.go:46-56 | each of the user's clients with fewer than ten messages waiting gets the update at the end of its queue; full queues and all others stay as they are |
| `Hubs.Client.Receive` | internal/websocket/client.go:52-73 | the write pump takes the oldest message and leaves the rest in order; what was ever pushed stays on record |
| `Hubs.Client.Push` | internal/websocket/hub.go:50-54 | appends when fewer than ten messages wait and otherwise leaves the queue as it is; what was taken stays taken |
| `Hubs.UnregisterUndoes` | internal/websocket/hub.go:25-44 | registering and unregistering restores the active pairs; unregistering twice is unregistering once |
| `Hubs.ActiveAppended` | internal/websocket/hub.go:25-44 | which pairs are active after one more call |
| `Hubs.QueuesAreBoundedAndOrdered` | internal/websocket/hub.go:46-56 | after any calls on a hub, the queue of each client it ever knew holds at most ten messages, and these are updates broadcast to that client while it was registered, in the order of the broadcasts |
| `Hubs.EveryUpdateArrives` | internal/websocket/hub.go:46-56 | what a client took from its queue and what still waits are, in order, all updates broadcast to it while it was registered, if and only if none of them met a full queue |

## Left out

- HTTP routing, JSON, JWT, password hashing and input validation by regular expressions: plumbing over libraries.
- SQL text, drivers, connection pools, foreign keys and their share locks, and the internals of PostgreSQL's serializable isolation: locks and arbitrary faults stand for them.
- Ledger entry ids, audit row ids and data, descriptions, statuses and creation times: nothing in the engine reads them.
- The admin roles, including the first-admin check inside Register, audit listing, pagination, `ListByUser` and `ListAll`, user lookup, `ExchangeStore` and the migration runner: they would add only easy members.
- `UpdateStatus` of the transaction store and `createOpeningBalance` with a nil transaction: no service path uses them.
- WebSocket read and write pumps, but for the write pump taking messages off its queue, and the hub's mutex: hub calls are atomic, and the JSON payload of an update is its three fields.
- The decimal library beyond what the engine calls: division is the one quotient 1/0.92 to sixteen places, and exponents are unbounded.
- Invalid UTF-8 in amounts: strings are sequences of Unicode characters, of which trimming and digit tests see whole characters and the length check sees UTF-8 bytes.
- Log output of Transfer and the rendering of errors as HTTP statuses, except Register's conflict answer.
- Calls.Register: a fault anywhere in an attempt is modelled as replacing the attempt's error, since this closure captures nothing.
- Stores.QuoteStore.Create: the rate column reads its text as the decimal library does, without PostgreSQL's own number grammar or its rounding to six places; the service only sends texts of six places.
- Rates.PlainRateIsAccepted: says nothing of rates with a sign or an exponent; `Rates.NormalisedRateIsExact` covers every accepted rate.
- Rates.UsdRoundTripExactly: stops at 49,417 cents, the last amount for which the remainder modulo 25 alone decides; the bounds for all amounts are in `Rates.UsdRoundTrip`.
- Rates.ExchangedIsNearest: speaks of the product before the cut to 64 bits; `Rates.ConvertMinorIsConverted` says when the cut changes nothing.
