# Transaction settlement, verified in Dafny

This project models the core of a small Go banking service. Clients register
accounts in one of three currencies (USD, EUR, RUB) and record deposit and
withdraw transactions against them. A transaction is first stored as `created`
(pending, "frozen"). Settling it converts its amount into the account's
currency, then credits a deposit, debits a withdrawal the balance covers, or
marks an uncovered withdrawal as `error`. The frozen balance of an account is
the net converted amount of its pending transactions.

Modules, one per source component:

- `Errors` (errors.dfy): the error sentinels, plus `StoreFailure(op)` for a
  transport failure of one store statement; `Result<T>` and `Outcome`.
- `Entities` (entity.dfy): `Account`, `Transaction`, the status enumeration
  `created`/`success`/`error`, and `AccountDto` (identifier, currency, balance).
- `Validator` (validator.dfy): `ValidateCurrency` over the fixed rate table.
- `Store` (store.dfy): the Postgres repositories replaced by a `Database`
  class. It holds `accounts` and `transactions` as `map` fields. A `failing`
  set names the statements that currently fail with a transport error. The
  pure functions `LookupAccount`, `LookupSummary`, `LookupTransaction`,
  `SetBalance` and `SetStatus` give the store's contract on a `Tables` snapshot.
- `Frozen` (frozen.dfy): the frozen-balance fold `FrozenTotal` and its algebra.
- `Settlement` (settlement.dfy): `Settle`, the effect of one settlement on both
  tables as a function of the tables before it, and the lemmas about it.
- `AccountService`, `TransactionService` (account_service.dfy,
  transaction_service.dfy): the two services, as classes whose methods
  read and write the shared `Database`.
- `Scenarios` (scenarios.dfy): end-to-end uses of both services.

Behaviour kept as the code has it:

- `CreateWithdrawTransaction` reports a taken identifier as `AccountExists`,
  not `TransactionExists`.
- Settlement never reads the transaction's status
  (internal/domain/transaction/service/service.go:141-190), so settling it
  again applies its balance change again (`Settlement.SettleTwiceCreditsTwice`).
- The currency code of a new or updated account is checked by the HTTP
  handlers (internal/domain/account/controller/handler/handler.go:52-55,
  131-134), which are not modelled. The services themselves do not check it,
  so the model's `SaveAccount` and `UpdateBalance` accept any code.
- The account repository's Update and Delete and the transaction
  repository's Delete report ANY failure of their existence check as
  "not found" (internal/domain/account/repository/postgres_repository.go:81-83,
  107-109; internal/domain/transaction/repository/postgres_repository.go:165-167).
  The transaction status update and the balance update pass a failed check
  through unchanged (internal/domain/transaction/repository/postgres_repository.go:139-144;
  internal/domain/account_dto/repository/postgres_repository.go:27-30).
- The deposit insert stores status `created` and no destination; the
  withdraw insert stores status `created`. Both `Create` operations return
  the caller's record, not the stored row.
- Nothing checks that an amount is positive. A deposit of a negative amount
  is stored and settled like any other, and can drive a balance below zero
  (`Settlement.NegativeDepositOverdraws`).
- `ToAccount` is unsigned, so it is either 0 or positive. The `default:`
  branches of the service (service.go:127-128 and 183-187, the
  `IncorrectID` path) cannot be taken and have no counterpart in the model.

## Model

| member | source | states |
|---|---|---|
| `Validator.ValidateCurrency` | common/validator.go:8-42 | Succeeds exactly when both codes are USD, EUR or RUB. It then returns the amount times the table rate for the pair, and the amount itself for equal codes. Otherwise the error is InvalidCurrency. |
| `Validator.RateTableShape` | common/validator.go:11-39 | The table holds exactly the nine ordered pairs of supported codes, and every rate is positive. |
| `Validator.ConversionKeepsSign` | common/validator.go:11-39 | A non-negative amount converts to a non-negative one, a non-positive to a non-positive one, and zero to zero. |
| `Validator.ConversionMonotone` | common/validator.go:16-35 | Conversion preserves the order of amounts. |
| `Validator.ConversionAdditive` | common/validator.go:16-35 | Converting a sum equals summing the conversions. |
| `Validator.NoRoundTrip` | common/validator.go:17-24 | USD to EUR and back yields 0.99 of the amount, so no round-trip property holds. |
| `Validator.UnknownCodeRefused` | common/validator.go:40 | "RUR" in either position gives InvalidCurrency. |
| `Store.AccountLookupOutcomes` | internal/domain/account/repository/postgres_repository.go:47-68 | `LookupAccount` (the repository's Get) returns the row stored under the requested identifier. It gives AccountNotFound exactly when the statement works and no such row exists, and otherwise the statement's own failure. |
| `Store.SummaryProjectsAccount` | internal/domain/account_dto/repository/postgres_repository.go:50-71 | When both statements work, `LookupSummary` (CheckExistsAccount) finds exactly the accounts `LookupAccount` finds and reports their identifier, currency and balance. Its only error is then AccountNotFound. |
| `Store.TransactionLookupOutcomes` | internal/domain/transaction/repository/postgres_repository.go:101-123 | `LookupTransaction` returns the row stored under the requested identifier. It gives TransactionNotFound exactly when the statement works and no such row exists, and otherwise the statement's own failure. |
| `Store.Database.InsertAccount` | internal/domain/account/repository/postgres_repository.go:24-45 | Adds exactly the new row, or fails with the insert's store failure and changes nothing. |
| `Store.Database.UpdateAccount` | internal/domain/account/repository/postgres_repository.go:92-116 | AccountNotFound when the existence check fails for any reason. Otherwise overwrites that row's balance and currency only. |
| `Store.Database.DeleteAccount` | internal/domain/account/repository/postgres_repository.go:70-90 | AccountNotFound when the existence check fails for any reason. Otherwise removes that row only. |
| `Store.Database.UpdateBalance` | internal/domain/account_dto/repository/postgres_repository.go:24-48 | The new table is `SetBalance` of the old: the existence check's error, or the row's balance overwritten. |
| `Store.Database.InsertDeposit` | internal/domain/transaction/repository/postgres_repository.go:25-62 | Stores the row with status created and destination 0, whatever the caller's record says. |
| `Store.Database.InsertWithdraw` | internal/domain/transaction/repository/postgres_repository.go:64-99 | Stores the row with status created, keeping the destination. |
| `Store.Database.UpdateTransactionStatus` | internal/domain/transaction/repository/postgres_repository.go:125-151 | The new table is `SetStatus` of the old: the lookup's error, or the row's status overwritten. |
| `Store.Database.DeleteTransaction` | internal/domain/transaction/repository/postgres_repository.go:153-174 | TransactionNotFound when the existence check fails for any reason. Otherwise removes that row only. |
| `Store.Database.ListByAccount` | internal/domain/transaction/repository/postgres_repository.go:176-198 | Returns every transaction of the account exactly once, in some order. Returns TransactionNotFound when there is none. |
| `Frozen.Contribution` | internal/domain/transaction/service/service.go:116-130 | A settled row adds 0 and is never converted. A pending row adds plus or minus its converted amount, by destination, and fails exactly when its currency pair is unsupported. |
| `Frozen.FrozenTotal` | internal/domain/transaction/service/service.go:113-132 | Fails, with InvalidCurrency, exactly when some pending row has an unsupported currency pair. |
| `Frozen.FrozenAppend` | internal/domain/transaction/service/service.go:113-132 | The total of a concatenation combines the totals of its parts. |
| `Frozen.FrozenPermutation` | internal/domain/transaction/service/service.go:113-132 | Reordering the rows does not change the total or the failure. |
| `Frozen.ListingsAgree` | internal/domain/transaction/service/service.go:100-132 | Any two listings of an account's transactions give the same frozen total, so the answer does not depend on row order. |
| `Frozen.FrozenIgnoresSettled` | internal/domain/transaction/service/service.go:116 | Dropping every non-pending row leaves the total unchanged. |
| `Frozen.SettlingLeavesFrozen` | internal/domain/transaction/service/service.go:116-131 | Giving a pending row another status takes exactly its contribution out of the total. |
| `Settlement.Settle` | internal/domain/transaction/service/service.go:138-191 | A passed settlement leaves the transaction marked success. A NegativeBalance result leaves it marked error with every account unchanged. Each branch is pinned down exactly by the lemmas below: `SettleFailsWithoutWriting`, `SettleReadFailuresPropagate`, `SettleDeposit`, `SettleWithdrawRejected`, `SettleWithdraw` and `SettleTouchesOnlyItsRows`. |
| `Settlement.SettleFailsWithoutWriting` | internal/domain/transaction/service/service.go:141-160 | A missing transaction, a missing account or an unsupported currency pair gives TransactionNotFound, AccountNotFound or InvalidCurrency, with both tables unchanged. |
| `Settlement.SettleReadFailuresPropagate` | internal/domain/transaction/service/service.go:141-155 | A transport failure of either read is returned as it is, with nothing written. |
| `Settlement.SettleDeposit` | internal/domain/transaction/service/service.go:163-169 | A deposit credits the converted amount and then marks the transaction success. Nothing else changes. |
| `Settlement.SettleWithdrawRejected` | internal/domain/transaction/service/service.go:171-176 | A withdrawal above the balance marks the transaction error and returns NegativeBalance. The balance is unchanged. |
| `Settlement.SettleWithdraw` | internal/domain/transaction/service/service.go:177-182 | A covered withdrawal debits the converted amount and marks the transaction success. The new balance is non-negative. |
| `Settlement.SettleTouchesOnlyItsRows` | internal/domain/transaction/service/service.go:162-188 | Only the transaction's status and its account's balance can change. Every other row and field, and both key sets, stay as they were. |
| `Settlement.SettleKeepsBalancesNonNegative` | internal/domain/transaction/service/service.go:162-182 | Settlement keeps every balance non-negative, provided a deposit being settled is not negative. Nothing in the program enforces that proviso (internal/domain/transaction/controller/handler/handler.go:34-48 passes the decoded record on), so it is a gap in the program, shown by `NegativeDepositOverdraws`. |
| `Settlement.NegativeDepositOverdraws` | internal/domain/transaction/service/service.go:163-169 | Settling a -5 USD deposit into a USD account holding 0 passes and leaves the balance at -5. |
| `Settlement.SuccessOnlyAfterBalance` | internal/domain/transaction/service/service.go:163-182 | A transaction newly marked success comes only from a settlement that passed and moved the balance by its converted amount. |
| `Settlement.StatusWriteFailureAfterBalance` | internal/domain/transaction/service/service.go:164-169 | A failed status write leaves the deposit credited while the transaction stays as it was. |
| `Settlement.SettleTwiceCreditsTwice` | internal/domain/transaction/service/service.go:141-169 | Settling one deposit twice credits it twice. |
| `Settlement.SettlementConservesHoldings` | internal/domain/transaction/service/service.go:113-182 | A successful settlement of a pending transaction keeps balance plus frozen balance of its account unchanged. |
| `AccountService.Service.SaveAccount` | internal/domain/account/service/service.go:30-49 | AccountExists on a taken id. A lookup or insert failure is propagated. All three leave the table unchanged. Otherwise stores exactly the account and returns it. |
| `AccountService.Service.GetAccount` | internal/domain/account/service/service.go:51-63 | Returns the stored account, AccountNotFound when absent, or the lookup's store failure. Writes nothing. |
| `AccountService.Service.DeleteAccount` | internal/domain/account/service/service.go:65-77 | AccountNotFound when absent, with nothing removed. Otherwise removes exactly that id and keeps every other account. |
| `AccountService.Service.UpdateBalance` | internal/domain/account/service/service.go:79-92 | AccountNotFound when absent. Otherwise overwrites balance and currency only; id, password, email and other accounts are unchanged. |
| `TransactionService.Service.CreateDepositTransaction` | internal/domain/transaction/service/service.go:44-62 | TransactionExists on a taken id, with nothing written. Otherwise stores a pending row with no destination and returns the caller's record. |
| `TransactionService.Service.CreateWithdrawTransaction` | internal/domain/transaction/service/service.go:64-82 | AccountExists on a taken id, with nothing written. Otherwise stores a pending row and returns the caller's record. |
| `TransactionService.Service.GetTransactionByID` | internal/domain/transaction/service/service.go:84-95 | Returns the stored transaction, TransactionNotFound when absent, or the lookup's store failure. |
| `TransactionService.Service.GetFrozenBalanceByAccountID` | internal/domain/transaction/service/service.go:97-136 | TransactionNotFound when the account has no transactions. Otherwise returns the account's id and currency with `FrozenTotal` of the listed rows as balance. Any conversion failure aborts. Writes nothing. |
| `TransactionService.Service.UpdateTransactionStatus` | internal/domain/transaction/service/service.go:138-191 | Outcome and new tables are exactly `Settlement.Settle` of the old tables, so every Settlement lemma applies to the method. |
| `TransactionService.Service.DeleteTransactionByID` | internal/domain/transaction/service/service.go:193-205 | TransactionNotFound when absent, with the table unchanged. Otherwise removes exactly that id. |
| `Scenarios.DepositThenSettle` | internal/domain/transaction/service/service.go:163-169 | Account USD 0, deposit 100 USD, settle: balance 100 and status success. |
| `Scenarios.RegisterTwice` | internal/domain/account/service/service.go:33-37 | A second registration of an id gives AccountExists, and the first account stays. |
| `Scenarios.WithdrawBeyondBalance` | internal/domain/transaction/service/service.go:171-176 | Withdrawing 50 from 10 gives NegativeBalance, balance 10 and status error. |
| `Scenarios.PendingAndSettledTotal` | internal/domain/transaction/service/service.go:113-132 | Pending 50 plus settled 30 gives a frozen total of 50, in either order. |
| `Scenarios.FrozenCountsOnlyPending` | internal/domain/transaction/service/service.go:116 | Through the services, the frozen balance of that account is 50 USD. |
| `Scenarios.DeleteUnknownTransaction` | internal/domain/transaction/service/service.go:196-199 | Deleting an unknown id gives TransactionNotFound, and the table keeps its one row. |
| `Scenarios.StatusWriteLost` | internal/domain/transaction/service/service.go:164-168 | A lost status write leaves balance 100 with the transaction still created. |

## Left out

- The HTTP layer (handlers, request decoding, response rendering, routing) is not modelled. It is I/O plumbing around the services.
- SQL and the pgx connection pool are not modelled. The map-backed `Database` keeps the repositories' contract. The malformed statements behave here as they evidently intend: the trailing comma in the balance UPDATE (internal/domain/account_dto/repository/postgres_repository.go:34) and the missing comma in the withdraw INSERT (internal/domain/transaction/repository/postgres_repository.go:81).
- Amounts and balances are exact `real`s with exact rate literals. IEEE float64 rounding is not modelled.
- Only one call runs at a time. The lost update between concurrent settlements of one account, context cancellation and the connection pool are not modelled.
- Errors are carried bare. The operation name each layer wraps around an error is dropped, since `errors.Is` looks through it.
- Transport failures are one fixed set of failing statements per call, chosen by the caller. Timing, retries and partial statement execution are not modelled.
- Logging, configuration loading, dependency wiring and process start-up are not modelled.
- The service test with its mock repository is not modelled. It asserts nothing about the service logic.
- `ZeroBalance` is declared but never produced.
- Validator.ValidateCurrency: the 0 returned beside ErrInvalidCurrency is not represented, because every caller returns on the error without reading the amount.
- Store.Database.ListByAccount: an account without transactions is reported as TransactionNotFound, following the store interface the service is written against. A scany `Select` over zero rows would likely return an empty slice instead. In that case the service's not-found branch would not fire, and the frozen balance would be 0.
- Store.Database.InsertDeposit: a deposit's missing destination is read back as 0, which is the model's choice. As written, the insert stores NULL in `to_account` (internal/domain/transaction/repository/postgres_repository.go:42), and reading it scans that NULL into the plain `uint64` field `ToAccount` (internal/domain/transaction/entity/transaction.go:9; postgres_repository.go:115), which pgx refuses. So a stored deposit would not read back at all: settling it fails at the transaction lookup, listing its account fails, and deleting it reports TransactionNotFound.
- Store.Database.InsertAccount, Store.Database.InsertDeposit, Store.Database.InsertWithdraw: these require the identifier to be absent, which the calling service has just checked. A duplicate-key rejection by the table is not modelled.
