/** The error values of the service layer and the result shapes that carry them. */
module Errors {

  /** A statement of the persistence layer. A statement named in a store's
      failing set stands for a transport failure (lost connection, timeout) of
      that statement. */
  datatype StoreOp =
    | SelectAccountRow            // SELECT ... FROM account (repository Get)
    | InsertAccountRow            // INSERT INTO account
    | UpdateAccountRow            // UPDATE account SET balance, currency
    | DeleteAccountRow            // DELETE FROM account
    | SelectAccountSummary        // SELECT id, balance, currency FROM account
    | UpdateBalanceRow            // UPDATE account SET balance
    | SelectTransactionRow        // SELECT ... FROM transactions WHERE id
    | InsertTransactionRow        // INSERT INTO transactions
    | UpdateStatusRow             // UPDATE transactions SET status
    | DeleteTransactionRow        // DELETE FROM transactions
    | SelectAccountTransactions   // SELECT ... FROM transactions WHERE account_id

  /** The sentinel errors of the domain, and a store failure that is none of them. */
  datatype Error =
    | AccountNotFound
    | ZeroBalance
    | NegativeBalance
    | InvalidCurrency
    | AccountExists
    | TransactionNotFound
    | TransactionExists
    | IncorrectID
    | StoreFailure(op: StoreOp)

  /** A value or the error that replaced it. */
  datatype Result<+T> = Ok(value: T) | Err(error: Error)

  /** The outcome of an operation that returns only an error. */
  datatype Outcome = Pass | Fail(error: Error)
}
