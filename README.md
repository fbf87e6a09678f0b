# A verified model of a small multi-currency ledger

The system keeps accounts (an id, a currency, a decimal balance) in an
`accounts` table. It records money movements in a `transactions` table. The
ledger engine (`TransactionDatabasePostgres._save`) receives a source account,
a target account and an amount:

- A **transfer** (different accounts) debits the source and credits the target.
- A **deposit** (the same account twice) credits that account once.

Either way the engine then appends one record. The record has a fresh id,
net equal to gross, the source's currency and status `Success`. A request layer
(`webapp/views.py`) sits in front of the engine:

- It opens accounts at balance 0.
- It lets a transfer through only when the amount does not exceed the source's balance.
- It passes a deposit for an existing account through with no check of the amount.
- It serves a read-only account page, which can include the balance-over-time
  chart that `graph` rebuilds by undoing the account's records.

The model has four modules, one file each:

- `records.dfy` (`Records`): the row and record datatypes, and the mutable
  `Account` object the request layer fetches and the engine changes in place.
- `account_table.dfy` (`AccountTable`): the accounts table as a class over a
  `map<Id, Row>`, with upsert, lookup, delete, clear, and the currency and
  max-balance queries.
- `transaction_table.dfy` (`TransactionTable`): the transactions table as a
  class over an append-only `seq<TxRecord>`, holding the engine, lookup,
  delete, clear, the by-account query and `graph`. It also holds the
  specification functions:
  - `Posting`: the engine's effect on the accounts table.
  - `Effect`: one record's effect on one balance.
  - `Replay` of a log.
  - `Undo`, `Steps` and `BalanceHistory`: the chart's walk.
- `views.dfy` (`Views`): the handlers `create_account` and `transactions`
  (GET, the transfer POST, the deposit POST).

Balances are `real`, so every sum and difference is exact. Python's Decimal
rounds to 28 significant digits and admits NaN and infinities; neither is
modelled (see "## Left out"). Ids are `nat`: only their equality matters. `uuid4()`
is an explicit id parameter. A transaction id must not occur in the log yet.
A new account id needs no such condition, because `create_account` itself
checks the table.

The main results:

- A transfer keeps the sum of all balances, taken across currencies. A
  deposit raises it by exactly the amount (`TransferPosting`, `DepositPosting`).
- Every balance stays explained by the log: with each account opened at 0,
  its balance equals the replay of the log's records. The engine and the two
  POST handlers keep this (`EngineKeepsExplained` and the `Explained` clauses
  of `TransferRequest` and `DepositRequest`). Opening an account keeps it
  when no record mentions the new id, as for a freshly drawn UUID
  (`CreateKeepsExplained` and the last ensures of `CreateAccount`). The
  transaction table's `delete` and `clear_all` break it, because they remove
  records without touching balances (`TransactionDeletesBreakExplained`).
- The chart is the exact inverse of the engine. It has one point more than the
  account has records, ends at the current balance and starts at the opening
  balance. That is 0 for accounts opened by the request layer (`GraphOfAccount`,
  `GraphStartsAtZero`, and the third ensures of `TransactionsGet`).
- The max-balance query returns exactly the accounts that no account of the
  same currency beats. Ties are all returned, and every currency appears
  (`MaxBalanceTies`, `MaxBalanceEveryCurrency`).

Behaviour of the code as written, proved rather than assumed away:

- No code checks the sign of the amount.
  - A guarded transfer between two different accounts cannot overdraw a
    solvent source, whatever the sign (`GuardKeepsSourceSolvent`).
  - A negative amount always passes the guard of a non-negative source and
    lowers the target's balance (`NegativeTransferLowersTarget`), so it can
    overdraw the target (`NegativeTransferOverdrawsTarget`).
- A transfer whose target is the source account itself takes the deposit
  branch. Every amount up to the balance passes the guard and is credited
  once: a positive amount creates money, a negative one lowers the account,
  and one below minus the balance overdraws it (`SelfTransferIsDeposit`).
- The transfer never compares currencies: a USD account can pay a EUR
  account, and the amount lands in the target's currency
  (`CrossCurrencyTransfer`). The sum of all balances that a transfer keeps
  is taken across currencies; the per-currency sums change.

What the code does, stated plainly:

- The engine returns nothing. It is not atomic.
- The engine never raises InsufficientFunds. Only the request layer's guard
  refuses a transfer.
- Balances can go negative, as shown above.
- The `Failed` status is declared but never stored. The engine assigns it
  first and always overwrites it before the record is written.

## Model

| member | source | states |
|---|---|---|
| `AccountTable.AccountStore.Save` | database/implementations/postgres_db.py:33-50 | upsert: an account without an id first gets the fresh id; afterwards the id maps to the account's currency and balance, every other row is unchanged, and the row count grows by one exactly when the id was absent |
| `AccountTable.AccountStore.Update` | database/implementations/postgres_db.py:37-42 | the UPDATE rewrites the row when the id is present and reports 1, otherwise changes nothing and reports 0 |
| `AccountTable.AccountStore.Insert` | database/implementations/postgres_db.py:45-50 | the INSERT adds the row under a new primary key, growing the table by one |
| `AccountTable.AccountStore.GetObject` | database/implementations/postgres_db.py:80-89 | found exactly when the id is in the table, and then a fresh account object equal to the row; otherwise ObjectNotFound |
| `AccountTable.AccountStore.ClearAll` | database/implementations/postgres_db.py:52-55 | the table is empty afterwards |
| `AccountTable.AccountStore.Delete` | database/implementations/postgres_db.py:91-94 | the row with that id is gone and every other row is unchanged |
| `AccountTable.GetObjectsByCurrency` | database/implementations/postgres_db.py:65-71 | exactly the rows of the given currency whose id differs from the given id, unchanged |
| `AccountTable.RichestOf` | database/implementations/postgres_db.py:99-101 | the per-currency MAX(balance): an account of that currency whose balance no account of that currency exceeds |
| `AccountTable.MaxBalance` | database/implementations/postgres_db.py:99-101 | `MAX(balance) ... GROUP BY currency`: a balance some account of the currency holds, and no account of the currency holds more |
| `AccountTable.FindMaxBalancePerCurrency` | database/implementations/postgres_db.py:96-110 | the join returns a sub-table of the accounts table, rows unchanged |
| `AccountTable.MaxBalanceTies` | database/implementations/postgres_db.py:96-110 | an account is returned if and only if no account of its currency has a larger balance, so every tie is returned |
| `AccountTable.MaxBalanceEveryCurrency` | database/implementations/postgres_db.py:96-110 | every currency that has an account has at least one account in the result |
| `TransactionTable.Posting` | database/implementations/postgres_db.py:137-144 | the engine's effect on the accounts table creates no account, deletes none and changes no currency |
| `TransactionTable.TransactionStore.Save` | database/implementations/postgres_db.py:131-150 | the engine: the accounts table becomes `Posting` of the old one (transfer when the ids differ, single credit when equal); exactly one record is appended, holding the given ids, gross = net = amount, the source's currency and status Success, and earlier records are unchanged; the saved objects equal their rows; the log keeps its well-formedness; in a deposit, a separate source object for the same row is left unchanged |
| `TransactionTable.TransactionStore.ClearAll` | database/implementations/postgres_db.py:153-156 | the log is empty afterwards |
| `TransactionTable.TransactionStore.Delete` | database/implementations/postgres_db.py:197-200 | the log loses the records with that id and nothing else |
| `TransactionTable.TransactionDeletesBreakExplained` | database/implementations/postgres_db.py:197-200 | deleting a record, or clearing the log, can leave a balance that the log no longer explains |
| `TransactionTable.TransactionStore.Graph` | database/implementations/postgres_db.py:202-221 | the loop computes `BalanceHistory` of the current balance over the given records: one undo per record involving the account, then reversed |
| `TransactionTable.WithoutId` | database/implementations/postgres_db.py:197-200 | keeps exactly the records whose id differs, and is the identity when no record has that id |
| `TransactionTable.GetTransaction` | database/implementations/postgres_db.py:186-195 | a found record is in the log and has the id; ObjectNotFound exactly when no record has the id |
| `TransactionTable.Matching` | database/implementations/postgres_db.py:166-169 | the WHERE keeps exactly the records with the id as source or target |
| `TransactionTable.Reverse` | database/implementations/postgres_db.py:170 | the i-th element is the i-th from the end, and the result is a permutation of its input |
| `TransactionTable.GetObjectsByAccount` | database/implementations/postgres_db.py:166-173 | exactly the records with the id as source or target |
| `TransactionTable.MostRecentFirst` | database/implementations/postgres_db.py:166-173 | after an append, the new record heads the account's list when it involves the account, and the list is otherwise unchanged: most recent first |
| `TransactionTable.TransferPosting` | database/implementations/postgres_db.py:137-140 | a transfer sets source to old minus amount and target to old plus amount, leaves every other account unchanged and keeps the sum of all balances |
| `TransactionTable.DepositPosting` | database/implementations/postgres_db.py:142-144 | a deposit adds the amount once to its account, leaves every other account unchanged and raises the sum of all balances by exactly the amount |
| `TransactionTable.PostingIsEffect` | database/implementations/postgres_db.py:131-144 | every account changes by the `Effect` of the record that the call writes |
| `TransactionTable.EngineKeepsExplained` | database/implementations/postgres_db.py:131-150 | if every balance was the replay of the log, it still is after the posting and the append |
| `TransactionTable.ReplayUninvolved` | database/implementations/postgres_db.py:137-144 | records that do not involve an account leave its replayed balance at the opening balance |
| `TransactionTable.ReplayMatching` | database/implementations/postgres_db.py:166-169 | replaying the whole log or only the account's records gives the same balance |
| `TransactionTable.Undo` | database/implementations/postgres_db.py:210-218 | the balance before one record of the account, by the three branches of the loop; applying the engine's `Effect` of that record to it gives back the balance after, when net equals gross |
| `TransactionTable.UndoEffect` | database/implementations/postgres_db.py:210-218 | undoing a record gives back the balance from before the record, when net equals gross |
| `TransactionTable.StepsLength` | database/implementations/postgres_db.py:206-219 | when every record involves the account, the walk appends one balance per record |
| `TransactionTable.StepsFront` | database/implementations/postgres_db.py:206-219 | one step of the walk: a record involving the account contributes the balance before it, any other record is skipped |
| `TransactionTable.StepsUndoReplay` | database/implementations/postgres_db.py:206-221 | walking a log's records newest first from the balance they produced ends at the balance they started from |
| `TransactionTable.GraphOfAccount` | database/implementations/postgres_db.py:202-221 | for the account's own records the chart has one point more than there are records, ends at the current balance and starts at the opening balance |
| `TransactionTable.GraphStartsAtZero` | database/implementations/postgres_db.py:202-221 | when the log explains the table, every account's chart starts at 0 and ends at its balance |
| `Views.CreateAccount` | webapp/views.py:22-35 | an existing id gives "already exists" and changes nothing; otherwise the id is added with the chosen currency and balance 0, and no other row changes; when no record of the log mentions the new id, the log still explains every balance |
| `Views.TransactionsGet` | webapp/views.py:41-47 | read-only: the page holds the row, the other accounts of its currency and its records most recent first, or ObjectNotFound; with the button, the chart of `graph`, which starts at 0 and ends at the balance when the log explains the table |
| `Views.TransferRequest` | webapp/views.py:51-68 | unknown source gives NotFound; amount above the balance gives the insufficient-funds page; unknown target gives a 400; only these reject, and a rejection changes nothing; otherwise exactly one engine call as a transfer; both table invariants are kept |
| `Views.DepositRequest` | webapp/views.py:69-77 | unknown account gives NotFound and changes nothing; otherwise one engine call with the account as both source and target, with no check of the amount; both table invariants are kept |
| `Views.TransferAllowed` | webapp/views.py:54-56 | the guard: the source exists and the amount does not exceed its balance; the sign and the currency are not checked |
| `Views.GuardKeepsSourceSolvent` | webapp/views.py:56-60 | a transfer that passes the guard and goes between two different accounts leaves a non-negative source non-negative, whatever the sign of the amount |
| `Views.NegativeTransferLowersTarget` | webapp/views.py:55-60 | for a non-negative source and a different target, every negative amount passes the guard and lowers the target's balance |
| `Views.NegativeTransferOverdrawsTarget` | webapp/views.py:55-60 | a negative amount can pass the guard and drive the target's balance below zero |
| `Views.SelfTransferIsDeposit` | webapp/views.py:53-60 | a transfer to the source itself passes the guard for every amount up to the balance and credits it once: the sum of all balances changes by the amount, rises when it is positive, and the account is overdrawn when the amount is below minus a non-negative balance |
| `Views.CrossCurrencyTransfer` | webapp/views.py:53-60 | the guard does not compare currencies: a USD account pays a EUR account and the target is credited in EUR |
| `Views.CreateKeepsExplained` | webapp/views.py:25-35 | opening an account at 0 under an id no record mentions keeps every balance explained by the log |
| `Views.RoundTripRequests` | webapp/views.py:22-77 | through the handlers on empty tables: two accounts opened, a deposit of 100 and a transfer of 30 leave 70 and 30, and the first account's chart is 0, 100, 70 |
| `Views.RoundTripBalances` | webapp/views.py:51-77 | two USD accounts opened at 0, a deposit of 100 and a guarded transfer of 30 leave 70 and 30 |
| `Views.RoundTripRecords` | database/implementations/postgres_db.py:166-173 | after that deposit and transfer, the first account's records come back as the transfer, then the deposit |
| `Views.RoundTripChart` | database/implementations/postgres_db.py:202-221 | the first account's chart is 0, 100, 70 |
| `Views.MaxBalanceScenario` | database/implementations/postgres_db.py:96-110 | with USD balances 70, 30 and 70, both accounts at 70 are returned |

## Left out

- Connections, `CREATE TABLE` bootstrapping, `commit` calls and `close_connection` are I/O. Each table is its in-memory contents.
- Balances are exact reals. Decimal's rounding of every sum and difference to 28 significant digits (postgres_db.py:138-143, 211-217) is not modelled. Neither are the non-finite values `Decimal(...)` accepts (NaN, Infinity at views.py:55 and 72): a NaN balance would make every later comparison in the guard raise.
- Atomicity and concurrency are left out. Each engine call is one sequential step, and a storage failure between its three commits is not modelled. The model claims no rollback, because the code has none. The shared module-level connections are left out too.
- `get_objects` of both tables and the `accounts_list` view are left out. The account listing's order depends on database collation, and the transaction listing has no defined order.
- Row conversion through pandas and every `print` are left out. They are foreign-library glue and logging.
- The matplotlib calls of `graph` and its x-axis counter are left out. Only the balance series is modelled.
- Django plumbing is left out: Decimal parsing of the amount, UUID parsing of the target field, CSRF, `render`, the HTML of the responses and the mapping of other exceptions to a 400. Amounts and ids arrive as values. The form's default currency `""` is just one possible currency. The button dispatch of the `transactions` POST is left out too: `transaction_btn` is tested before `add_amount_btn` (views.py:53, 70), and with neither button the handler returns nothing; each action is its own handler here.
- The abstract interface in `database/database.py` is not modelled. Its `save` methods only print and delegate to `_save`, which is modelled directly.
- `account/account.py` and `transaction/transaction.py` are not part of this model. Account equality in the engine's branch is modelled as id equality, because ids are the table's primary key.
- TransactionTable.TransactionStore.Save: requires that the account objects equal their rows, as they do right after `get_object`. Stale or never-saved objects are not modelled. With an unsaved account, the upsert would insert it.
- AccountTable.GetObjectsByCurrency: returns a sub-table, so the order of the returned list is not modelled.
- AccountTable.FindMaxBalancePerCurrency: returns a sub-table, so the order of the returned list is not modelled.
- TransactionTable.Matching: takes the rows in insertion order. The SQL query has no `ORDER BY`, so this order is an assumption that the code's `reversed` relies on.
- TransactionTable.GetTransaction: returns the first record with the id. Ids are fresh when written, so at most one record matches.
