# Bank ledger backend, modelled in Dafny

This project models `BankBackend`, the single class of a small bank backend
(`backend/backend.py`). The class keeps two SQLite tables:

- `customer`: one row per account, holding name, mobile number, email, PIN
  digest, category and balance;
- `transactions`: an append-only log of Credit and Debit records, each with
  an id, an account, an amount, the balance after it and a time stamp.

Its public operations open an account, authenticate with a PIN, read a
balance, deposit, withdraw and list an account's recent transactions. A
deposit or a withdrawal updates the balance and inserts one record in a
single database transaction. The transaction either commits or rolls back.

The model has three modules:

- `Records` (records.dfy) holds the row types, the two CHECK enumerations
  (`Savings`/`Current` and `Credit`/`Debit`) and the PIN digest. Money is an
  integer number of cents.
- `Ledger` (ledger.dfy) holds the three read-only queries, which are
  functions over the table values. It also holds the replay of an account's
  records and the invariant `Consistent`, which ties every balance to its
  records, with the lemmas that prove `Consistent` is kept.
- `Backend` (backend.dfy) holds the class `BankBackend`. Its fields are the
  customer table (a `map` keyed by account number), the transactions table
  (a `seq`), the two AUTOINCREMENT counters and a tick counter. Its methods
  `CreateAccount`, `Deposit` and `Withdraw` change these fields statement
  by statement. A commit keeps the new state; a rollback restores the state
  saved at the start of the unit. Every method keeps `Valid()`, which
  contains `Consistent`, unique mobile numbers and emails, and increasing
  record ids and ticks. `ExampleSession` goes through a short session
  (open, authenticate, deposit 1000.00, withdraw 200.00, refused
  withdrawal of 10000.00) using only the contracts.

The queries are called on the fields, for example
`Ledger.GetBalance(bank.customer, a)`. They read one table each, as the SQL
statements do.

Error reporting follows the code. `backend.py` answers `None` for a
non-positive amount, an unknown account, a balance below the amount, a taken
mobile or email, a category other than Savings/Current, and a storage fault.
The model returns `None` in the same cases, and each method's contract says
exactly which inputs lead to it.

SQLite's `LIMIT` is modelled with its own meaning: a negative limit returns
every row. `ORDER BY date_time DESC` is modelled as the reverse of write
order. `HistoryNewestFirst` then proves that the page really is sorted by
decreasing time stamp, because ticks increase with every record.

## Model

| member | source | states |
|---|---|---|
| `Records.ParseCategory` | backend/backend.py:32 | The category CHECK constraint: a category text is accepted exactly when it is "Savings" or "Current", and the accepted value names that same text |
| `Records.CategoryRoundTrip` | backend/backend.py:32 | Each of the two categories is accepted under its own name |
| `Records.HashInjective` | backend/backend.py:60 | Two PINs give the same digest exactly when they are the same PIN |
| `Ledger.Authenticate` | backend/backend.py:75-86 | An unknown account never authenticates, whatever the PIN |
| `Ledger.AuthenticateExactPin` | backend/backend.py:80-86 | If the digest of `pin` is on file, a PIN authenticates exactly when it is `pin` |
| `Ledger.BalanceUpdateKeepsCredentials` | backend/backend.py:111 | The balance UPDATE changes nobody's authentication outcome |
| `Ledger.GetBalance` | backend/backend.py:88-96 | The result is None exactly when the account is unknown |
| `Ledger.OfAccount` | backend/backend.py:159-162 | The WHERE filter: the result is no longer than the log, and every row belongs to the account |
| `Ledger.OfAccountExact` | backend/backend.py:159-162 | Every filtered row is a record of the log, and every record of the account is in the filtered rows |
| `Ledger.OfAccountChronological` | backend/backend.py:163 | The filtered rows keep the log's strictly increasing ids and ticks |
| `Ledger.Reverse` | backend/backend.py:163 | The reversed sequence has the same length, and position k holds the element at length-1-k |
| `Ledger.TransactionHistory` | backend/backend.py:154-171 | The page has `limit` rows, or all rows when `limit` is negative or at least the number of records. Row k is the k-th newest record of the account |
| `Ledger.HistoryNewestFirst` | backend/backend.py:163 | On a log written in time order, the page's ticks and ids strictly decrease, so the page is newest first |
| `Ledger.HistoryRowsBelong` | backend/backend.py:159-165 | Every row of the page belongs to the requested account and is a record of the log |
| `Ledger.CreditsDebitsAppend` | backend/backend.py:113-116 | Appending a record adds its amount to the credit total or to the debit total, as its direction says |
| `Ledger.ReplayIsNet` | backend/backend.py:110-116 | Replaying records from 0 (credit adds, debit subtracts) gives total credits minus total debits |
| `Ledger.ChronologicalAppend` | backend/backend.py:112-116 | Appending a record whose id and tick are newer than every record keeps the log in time order |
| `Ledger.OfAccountAppend` | backend/backend.py:113-116 | Appending a record extends exactly its own account's records by that record |
| `Ledger.OfAccountNone` | backend/backend.py:62-63 | An account that no record names has no records |
| `Ledger.LastSnapshot` | backend/backend.py:110-116 | If every record's `balance_after` is its running balance, the newest record of an account carries the replay of all that account's records |
| `Ledger.BalanceAgreesWithLog` | backend/backend.py:98-146 | Under the invariant, an account's balance equals its credits minus its debits and is non-negative. When it has records, the balance equals the `balance_after` of its newest record, which is the first row of its history |
| `Ledger.OpenKeepsConsistent` | backend/backend.py:53-71 | Inserting a new account with balance 0 and an unused mobile and email keeps the invariant. The new account has no records |
| `Ledger.RecordKeepsConsistent` | backend/backend.py:110-146 | Setting one balance to the result of a positive Credit or Debit, provided the result is not negative, and appending that record with that `balance_after`, keeps the invariant |
| `Backend.BankBackend.constructor` | backend/backend.py:10-50 | A fresh database has empty tables and counters at 0, and satisfies the invariant |
| `Backend.BankBackend.CreateAccount` | backend/backend.py:53-73 | Succeeds exactly when the category is Savings or Current and neither the mobile nor the email is taken. On success the new number is the next AUTOINCREMENT value, the row holds balance 0 and `Hash(pin)`, nothing else changes, the balance reads 0, the history is empty and only `pin` authenticates. On failure nothing changes. The invariant is kept |
| `Backend.BankBackend.ApplyAndRecord` | backend/backend.py:110-122 | The UPDATE, INSERT and COMMIT unit. With no fault, the balance becomes `Apply(old, record)`, exactly one record with the next id and tick and that `balance_after` is appended, and nothing else changes. A fault in any of the three statements rolls everything back. A fault of the SELECT is not passed in: `Deposit` and `Withdraw` answer it before the unit starts |
| `Backend.BankBackend.Deposit` | backend/backend.py:98-124 | Succeeds exactly when the amount is positive, the account exists and no storage fault strikes. It then returns old + amount, sets the balance to that value and appends one Credit record with that `balance_after`. Other accounts and earlier records are unchanged. Otherwise nothing changes. The invariant is kept |
| `Backend.BankBackend.Withdraw` | backend/backend.py:126-152 | Succeeds exactly when the amount is positive, the account exists, the balance is at least the amount and no fault strikes. It then returns old - amount, which is at least 0, sets the balance to it and appends one Debit record with that `balance_after`. Otherwise nothing changes. The invariant is kept |

## Left out

- The SQLite connection lifecycle is not modelled: creating the database
  file, `sqlite3.connect`, the "reconnect if None" blocks, cursors and
  `close` (backend/backend.py:15-51, 55-57, 173-177). Commit and rollback
  are modelled only as "new state kept" and "saved state restored".
- Opening an existing database file with rows already in it is not
  modelled. The constructor starts from empty tables. Any reachable state
  satisfies `Valid()`.
- `hashlib.sha256` is a foreign call. `Hash` is an injective stand-in that
  records the PIN text it was computed from. Hash collisions and the fact
  that the digest cannot be reversed are not modelled. The PIN is modelled
  by its text form `str(pin)`.
- The REAL columns use floating point. The model uses exact integer cents,
  so float rounding is not modelled.
- `datetime.now().isoformat()` is a wall clock. It is replaced by a tick
  counter that increases with every committed record, and the history is
  the reverse of write order. With real stamps two things differ. Equal
  stamps leave SQLite's order of the tied rows unspecified. Stamps that go
  backwards (naive local time at the end of daylight saving time) are
  sorted by their text by `ORDER BY date_time DESC`, so the source's page
  is then not the reverse of write order, while the model's page still is.
- `TransactionHistory` returns whole transaction rows. The source returns
  only the columns `id`, `action_type`, `amount`, `balance_after` and
  `date_time` of each row, without `account_no`.
- Storage faults in `deposit` and `withdraw` (the `except Exception` path)
  are modelled by the `Fault` parameter, which names the statement that
  raises. The `print` logging is not modelled.
- `create_account` catches only `sqlite3.IntegrityError`. Any other
  exception propagates to the caller; the model does not include that path.
- Python's dynamic types are not modelled. Account numbers and amounts are
  integers and texts are strings, so a NOT NULL violation, a `TypeError`
  from `amount <= 0`, or a non-integer account number cannot arise.
- Cascade deletion of a customer's transactions is not modelled: no
  operation removes an account.
- Locking and concurrency are not modelled. The class is sequential, and
  each method is modelled as one indivisible step.
- The `__main__` demonstration script (backend/backend.py:180-204) is not
  modelled. `ExampleSession` is a similar session, checked against the
  contracts.
