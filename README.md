# Ledger engine

A Dafny model of the wallet ledger in `backend/crud.py`. The ledger has
three tables:

- users;
- accounts, one per user, opened in KES with a zero balance;
- an append-only log of transactions.

It offers four requests that change the database:

- opening a user;
- a deposit;
- a transfer between two users;
- a withdrawal.

It also offers four read-side queries:

- a user's balance;
- a user's history, newest first;
- system-wide summary figures;
- the most recent activity.

Money is integer cents throughout.

The model has two layers.

- **Transitions** (`Crud`). Each request is a function from a database
  value (`LedgerState.Db`) to an `Outcome`. An outcome is either the
  committed new state with the returned row, or a rejection that leaves
  the state as it was.
  - The rejection reasons are those of the code, checked in the same
    order.
  - `Crud.Message` gives the text each rejection reports.
- **Imperative session** (`Session.Ledger`). A class holds the tables and
  id counters as fields. Its methods do what the code does step by step:
  1. look the account up;
  2. check the request;
  3. append a PENDING transaction;
  4. update the balance or balances in place;
  5. mark the transaction SUCCESS.

  Each method is proved to end in exactly the state of the matching
  transition, and to keep the invariant.

The invariant is `LedgerState.Valid`. Every committed state satisfies it:

- ids increase in insertion order, and e-mail addresses are unique;
- the i-th user owns the i-th account, in KES;
- every balance is non-negative and equals the net amount the log moved
  into that account;
- every log row is a committed row of its type: SUCCESS, a positive
  amount, and the account ends its type calls for;
- the value held in all accounts equals everything deposited minus
  everything withdrawn.

The lemmas in `CrudProperties` prove the following for each request:

- it keeps the invariant;
- its effect on balances, on the histories of the users involved and of
  everyone else, and on the summary figures.

Statuses are PENDING, SUCCESS and FAILED (backend/models.py:15-18). The
checks run in the order the code makes them. The history and the recent
activity are ordered only by creation time, so rows created at the same
instant may come in any order; they are not ordered by id.

## Model

| member | source | states |
|---|---|---|
| LedgerState.Empty | backend/models.py:21-60 | the empty database satisfies the invariant, with empty tables and every id counter at 1 |
| LedgerState.CountOfTypeCountsRows | backend/crud.py:136-145 | the per-type count is the number of log rows of that type |
| LedgerState.PostPreservesValid | backend/crud.py:38-41 | appending a committed row and changing balances by exactly its effects, keeping balances non-negative and the total in step with the row's value change, keeps the invariant |
| LedgerState.DepositPostingValid | backend/crud.py:31-41 | logging a SUCCESS deposit into an account and crediting that account keeps the invariant |
| LedgerState.WithdrawPostingValid | backend/crud.py:91-101 | logging a SUCCESS withdrawal covered by the balance and debiting the account keeps the invariant |
| LedgerState.TransferPostingValid | backend/crud.py:62-74 | logging a SUCCESS transfer between two different accounts, debiting one by an amount it covers and crediting the other, keeps the invariant |
| LedgerState.OpenValid | backend/crud.py:8-13 | inserting a user with the next id and an unused e-mail, with an empty KES account under the next account id, keeps the invariant |
| LedgerState.BalancesNonNegative | backend/crud.py:59-60 | in a valid state no balance is negative |
| LedgerState.AccountFacts | backend/crud.py:11 | in a valid state each account belongs to the user opened with it, is in KES, and holds the net flow of the log into it; account ids are distinct |
| LedgerState.CountsPartitionLog | backend/models.py:9-12 | every log row is a deposit, a transfer or a withdrawal |
| LedgerState.TotalBalanceUpdate | backend/crud.py:71-72 | changing one balance changes the total by the difference |
| Ordering.InsertNewest | backend/crud.py:128 | inserting a row into a newest-first sequence keeps it newest first and adds exactly that row |
| Ordering.SortNewestFirst | backend/crud.py:128 | the result is newest first and a permutation of the input |
| Ordering.LatestPrefix | backend/crud.py:159-160 | a prefix of a newest-first sequence is newest first, and no row after it is newer than a row in it |
| Crud.MessagesDistinct | backend/crud.py:25-60 | `Crud.Message` gives each rejection its own text, as the code raises them ("User not found", "Amount must be positive", "Cannot transfer to the same user", "One or both users not found", "Insufficient balance"), so the text identifies the reason |
| Crud.PrimaryAccountIndex | backend/crud.py:18-19 | the position of the first account of the user; none exactly when no account belongs to the user |
| Crud.PrimaryAccount | backend/crud.py:18-19 | none exactly when the user has no account; otherwise an account of the table that belongs to the user |
| CrudProperties.PrimaryAccountUnique | backend/crud.py:19 | in a valid state the first account of a user is the user's only account |
| CrudProperties.IndexFollowsOwners | backend/crud.py:19 | the lookup depends only on who owns each account, so balance changes never move it |
| CrudProperties.IndexAfterAppend | backend/crud.py:11-12 | after an account is added the lookup finds the same account as before, or the new one for its owner |
| Crud.CreateUser | backend/crud.py:7-15 | refused exactly when the e-mail address is already registered, changing nothing; otherwise returns a user with the given name and e-mail |
| CrudProperties.CreateUserPreservesValid | backend/crud.py:7-15 | opening a user keeps the invariant |
| CrudProperties.CreateUserOpensAccount | backend/crud.py:8-13 | exactly one user and one account are added, the log is unchanged, and the new user's balance is 0 in KES |
| CrudProperties.NewUserUnregistered | backend/crud.py:10-11 | the new user id owns no account before, and the only new account is appended at the end |
| CrudProperties.CreateUserEmptyHistory | backend/crud.py:11 | a new user's history is empty |
| CrudProperties.CreateUserLeavesOthers | backend/crud.py:7-15 | every other user's balance and history are as before |
| CrudProperties.CreateUserSummary | backend/crud.py:7-15 | one more user; total value and counts unchanged |
| CrudProperties.NextAccountUntouched | backend/crud.py:11 | no log row mentions the account id handed out next |
| Crud.Deposit | backend/crud.py:22-43 | "User not found" exactly when the user has no account; "Amount must be positive" exactly when the user exists and the amount is not positive; success exactly when the user has an account and the amount is positive; rejection changes nothing; success appends one SUCCESS DEPOSIT row into the user's account, with no source and the next transaction id, and leaves users unchanged |
| CrudProperties.DepositPreservesValid | backend/crud.py:22-43 | a deposit keeps the invariant |
| CrudProperties.DepositCredits | backend/crud.py:39 | the depositor's balance rises by exactly the amount, and every other user's balance is unchanged |
| CrudProperties.DepositInHistory | backend/crud.py:31-41 | the depositor's history gains exactly the new row, which was not in it before |
| CrudProperties.DepositNotInOtherHistory | backend/crud.py:31-41 | every other user's history is unchanged |
| CrudProperties.DepositSummary | backend/crud.py:31-41 | total value rises by the amount; user, transfer and withdrawal counts unchanged |
| CrudProperties.FreshTransaction | backend/models.py:53 | a row with the next transaction id is not already in the log |
| CrudProperties.HistoryUnaffected | backend/crud.py:120-129 | posting a row that does not concern a user's account leaves that user's history unchanged |
| CrudProperties.HistoryGains | backend/crud.py:120-129 | posting a new row that concerns a user's account adds exactly that row to the user's history |
| Crud.Transfer | backend/crud.py:46-76 | the four rejections, each stated as an if-and-only-if in the code's order: same user, then a missing account on either side, then a non-positive amount, then a sender balance below the amount; success exactly when none of the four applies; rejection changes nothing; success appends one SUCCESS TRANSFER row from the sender's account to the recipient's |
| CrudProperties.TransferShape | backend/crud.py:59-74 | a successful transfer used two different accounts, the sender's covering the amount, and posted its row after moving the amount between them |
| CrudProperties.TransferPreservesValid | backend/crud.py:46-76 | a transfer keeps the invariant |
| CrudProperties.TransferMoves | backend/crud.py:71-72 | the sender loses and the recipient gains exactly the amount, the sender stays non-negative, and every other balance is unchanged |
| CrudProperties.TransferInHistories | backend/crud.py:62-73 | both parties' histories gain exactly the new row, which was in neither before |
| CrudProperties.TransferNotInOtherHistory | backend/crud.py:62-73 | the history of every user other than the two parties is unchanged |
| CrudProperties.TransferConservesValue | backend/crud.py:71-72 | total value is conserved, and the transfer count rises by one |
| Crud.Withdraw | backend/crud.py:79-103 | "User not found", "Amount must be positive" and "Insufficient balance", each as an if-and-only-if in the code's order; success exactly when the user has an account whose balance covers a positive amount; rejection changes nothing; success appends one SUCCESS WITHDRAW row from the user's account, with no destination and the next transaction id |
| CrudProperties.WithdrawPreservesValid | backend/crud.py:79-103 | a withdrawal keeps the invariant |
| CrudProperties.WithdrawDebits | backend/crud.py:99 | the balance falls by exactly the amount and stays non-negative; every other balance is unchanged |
| CrudProperties.WithdrawInHistory | backend/crud.py:91-100 | the user's history gains exactly the new row, which was not in it before |
| CrudProperties.WithdrawNotInOtherHistory | backend/crud.py:91-100 | every other user's history is unchanged |
| CrudProperties.WithdrawSummary | backend/crud.py:91-100 | total value falls by the amount, and the withdrawal count rises by one |
| Crud.GetBalance | backend/crud.py:106-112 | "User not found" exactly when the user has no account; otherwise the balance and currency of the user's account |
| CrudProperties.BalanceIsNetFlow | backend/crud.py:106-112 | in a valid state the reported balance is non-negative, in KES, and equal to the net flow of the log into the account |
| Crud.Touching | backend/crud.py:122-127 | each row occurs as often as in the log if it debits or credits the account, otherwise not at all |
| Crud.TouchingAppend | backend/crud.py:122-127 | filtering a log with one more row adds that row exactly when it concerns the account |
| Crud.TouchingUnmentioned | backend/crud.py:122-127 | a log that never mentions the account yields nothing |
| Crud.TransactionsForUser | backend/crud.py:115-130 | "User not found" exactly when the user has no account; otherwise exactly the rows that debit or credit the user's account, each as often as in the log, newest first |
| Crud.GetSummaryStats | backend/crud.py:133-153 | the user count, the total of all balances (0 with no accounts), the currency KES, and transfer and withdrawal counts that together do not exceed the log |
| CrudProperties.SummaryCountsRows | backend/crud.py:136-145 | the transfer and withdrawal figures are the numbers of log rows of those types |
| CrudProperties.SummaryValueIsNetDeposits | backend/crud.py:135 | in a valid state the total value equals all deposits minus all withdrawals, and is non-negative |
| Crud.GetRecentActivity | backend/crud.py:156-162 | min(limit, log size) rows of the log, newest first, and no row left out is newer than a row returned; `Crud.DefaultActivityLimit` is the default limit of 10 |
| Session.Ledger.constructor | backend/models.py:21-60 | a new ledger is the empty, valid database |
| Session.Ledger.CreateUser | backend/crud.py:7-15 | inserts the user and then its account; ends in exactly the state and result of `Crud.CreateUser`; keeps the invariant; a rejection changes nothing |
| Session.Ledger.Deposit | backend/crud.py:22-43 | logs PENDING, credits in place, marks SUCCESS; ends in exactly the state and result of `Crud.Deposit`; keeps the invariant; a rejection changes nothing |
| Session.Ledger.Transfer | backend/crud.py:46-76 | logs PENDING, debits and credits in place, marks SUCCESS; ends in exactly the state and result of `Crud.Transfer`; keeps the invariant; a rejection changes nothing |
| Session.Ledger.Withdraw | backend/crud.py:79-103 | logs PENDING, debits in place, marks SUCCESS; ends in exactly the state and result of `Crud.Withdraw`; keeps the invariant; a rejection changes nothing |

## Left out

- Amounts arrive as cents. The float-to-cents conversion `int(round(amount * 100))` (backend/crud.py:27,55,84) is not modelled, because it is floating point. The cents-to-float division of the responses (backend/crud.py:111,149) is not modelled either, so `BalanceResponse` and `SummaryStats` carry cents.
- The database session is not modelled: `add`, `flush`, `commit`, `refresh`, relationships and rollback. Each request is one atomic transition, and a rejected request leaves no trace. This is an assumption about the server, which the code does not ensure. The request handlers in backend/main.py are synchronous, so they can run concurrently. The balance check and the update (backend/crud.py:59-60,71 and 88,99) take no row lock, so two interleaved withdrawals can lose an update. `LedgerState.Valid`, in particular "every balance equals the net flow of the log into its account", is proved only for requests that run one after another.
- Ids are handed out by counters in the database value. A rejected request consumes no id. The model does not say whether the database engine would skip ids.
- The clock (`datetime.utcnow`, backend/models.py:27,39,59) is a `now` parameter of each request.
- Crud.CreateUser: the unique index on `email` (backend/models.py:26) is modelled as an `EmailTaken` rejection. The code lets the database raise an integrity error, so the message text "Email already registered" is the model's own. How the session recovers from that error is not modelled.
- Request validation by pydantic (backend/schemas.py) is carried only as the non-empty name that `CreateUser` requires. The amount bound `gt=0` is not a precondition, because the code checks the converted cents itself, and the model keeps that check.
- E-mail syntax and normalisation (`EmailStr`) are not modelled. The code's validator trims the address and lower-cases its domain. So "a@X.com" collides with "a@x.com" in the unique index (backend/models.py:26). In `Crud.CreateUser` the two are different addresses, and both are accepted.
- Crud.GetRecentActivity: `limit` is a natural number. What a negative `LIMIT` does depends on the database engine, and backend/database.py is not part of this model.
- Crud.GetRecentActivity: the default `limit=10` (backend/crud.py:156) is the constant `Crud.DefaultActivityLimit`. Dafny has no default arguments, so a caller passes it explicitly.
- Balances and amounts are unbounded integers. The `Integer` columns (backend/models.py:38,56) have a width fixed by the database engine. An amount or a balance beyond that width makes the code's commit fail. The model commits it. backend/database.py, which picks the engine, is not part of this model.
- Rows with equal `created_at` may be returned in any order. The model proves the rows are newest first and a permutation, and fixes no tie order.
- The transaction response schema's `from_user_id`/`to_user_id` and float `amount` (backend/schemas.py:53-61) are not modelled. The model returns log rows with account ids and cents.
- Accounts are values in a sequence, changed by replacing an element. Object identity and aliasing of ORM instances are not modelled.
- HTTP routing and the mapping of rejections to status codes (backend/main.py) are not modelled.
- The frontend (frontend/src) is not modelled: its dashboards, polling timer and fetch wrapper are user interface and network I/O.
