/** End-to-end uses of the two services over one fresh database, each stating
    what a caller observes. */
module Scenarios {
  import opened Errors
  import opened Entities
  import opened Store
  import opened Frozen
  import opened Settlement
  import AccountService
  import TransactionService

  /** Register an account (USD, balance 0), record a 100 USD deposit, settle it:
      the balance is 100 and the transaction is successful. */
  method DepositThenSettle() returns (balance: real, status: Status)
    ensures balance == 100.0 && status == StatusSuccess
  {
    var db := new Database({});
    var accounts := new AccountService.Service(db);
    var transactions := new TransactionService.Service(db);
    var saved := accounts.SaveAccount(Account(1, "USD", 0.0, "secret", "owner@example.com"));
    var created := transactions.CreateDepositTransaction(Transaction(1, StatusCreated, 1, 100.0, "USD", 0));
    SettleDeposit(db.State(), db.failing, 1);
    var settled := transactions.UpdateTransactionStatus(1);
    var account := accounts.GetAccount(1);
    var t := transactions.GetTransactionByID(1);
    balance, status := account.value.balance, t.value.status;
  }

  /** Registering the same identifier twice fails the second time and keeps
      the first account. */
  method RegisterTwice(first: Account, second: Account) returns (r: Result<Account>, stored: Account)
    requires first.id == second.id
    ensures r == Err(AccountExists) && stored == first
  {
    var db := new Database({});
    var accounts := new AccountService.Service(db);
    var saved := accounts.SaveAccount(first);
    r := accounts.SaveAccount(second);
    var found := accounts.GetAccount(first.id);
    stored := found.value;
  }

  /** A withdrawal of 50 USD from an account holding 10 USD is rejected: the
      balance stays 10 and the transaction is marked as an error. */
  method WithdrawBeyondBalance() returns (o: Outcome, balance: real, status: Status)
    ensures o == Fail(NegativeBalance) && balance == 10.0 && status == StatusError
  {
    var db := new Database({});
    var accounts := new AccountService.Service(db);
    var transactions := new TransactionService.Service(db);
    var saved := accounts.SaveAccount(Account(1, "USD", 10.0, "secret", "owner@example.com"));
    var created := transactions.CreateWithdrawTransaction(Transaction(7, StatusCreated, 1, 50.0, "USD", 2));
    SettleWithdrawRejected(db.State(), db.failing, 7);
    o := transactions.UpdateTransactionStatus(7);
    var account := accounts.GetAccount(1);
    var t := transactions.GetTransactionByID(7);
    balance, status := account.value.balance, t.value.status;
  }

  /** The frozen balance of a pending deposit of 50 USD and a settled deposit of
      30 USD, listed in either order, is 50 USD. */
  lemma PendingAndSettledTotal(rows: seq<Transaction>)
    requires IsListing(map[1 := Transaction(1, StatusCreated, 1, 50.0, "USD", 0),
                           2 := Transaction(2, StatusSuccess, 1, 30.0, "USD", 0)], 1, rows)
    ensures FrozenTotal(rows, "USD") == Ok(50.0)
  {
    var t1, t2 := Transaction(1, StatusCreated, 1, 50.0, "USD", 0), Transaction(2, StatusSuccess, 1, 30.0, "USD", 0);
    var m := map[1 := t1, 2 := t2];
    var reference := [t1, t2];
    assert m[1] == reference[0] && m[2] == reference[1];
    assert IsListing(m, 1, reference);
    ListingsAgree(m, 1, rows, reference, "USD");
    assert reference[..1] == [t1] && [t1][..0] == [];
    assert FrozenTotal([t1], "USD") == Ok(50.0);
    assert Contribution(t2, "USD") == Ok(0.0);
  }

  /** With a pending deposit of 50 and a settled deposit of 30, the frozen
      balance is 50. */
  method FrozenCountsOnlyPending() returns (r: Result<AccountDto>)
    ensures r == Ok(AccountDto(1, "USD", 50.0))
  {
    var db := new Database({});
    var accounts := new AccountService.Service(db);
    var transactions := new TransactionService.Service(db);
    var saved := accounts.SaveAccount(Account(1, "USD", 0.0, "secret", "owner@example.com"));
    var t1 := Transaction(1, StatusCreated, 1, 50.0, "USD", 0);
    var t2 := Transaction(2, StatusCreated, 1, 30.0, "USD", 0);
    var c1 := transactions.CreateDepositTransaction(t1);
    var c2 := transactions.CreateDepositTransaction(t2);
    assert db.transactions == map[1 := t1, 2 := t2];
    SettleDeposit(db.State(), db.failing, 2);
    var settled := transactions.UpdateTransactionStatus(2);
    assert db.transactions == map[1 := t1, 2 := t2.(status := StatusSuccess)];
    assert db.accounts[1].currency == "USD";
    ghost var rows;
    r, rows := transactions.GetFrozenBalanceByAccountID(1);
    assert HasTransactions(db.transactions, 1) by { assert db.transactions[1].accountId == 1; }
    PendingAndSettledTotal(rows);
  }

  /** Deleting an identifier that was never recorded reports TransactionNotFound
      and leaves the table as it was. */
  method DeleteUnknownTransaction() returns (o: Outcome, count: nat)
    ensures o == Fail(TransactionNotFound) && count == 1
  {
    var db := new Database({});
    var transactions := new TransactionService.Service(db);
    var created := transactions.CreateDepositTransaction(Transaction(1, StatusCreated, 1, 5.0, "EUR", 0));
    o := transactions.DeleteTransactionByID(2);
    count := |db.transactions|;
  }

  /** When the status write fails after the balance write, the deposit is
      already credited while the transaction is still pending: the case that
      calls for reconciliation. */
  method StatusWriteLost() returns (o: Outcome, balance: real, status: Status)
    ensures o == Fail(StoreFailure(UpdateStatusRow)) && balance == 100.0 && status == StatusCreated
  {
    var db := new Database({});
    var accounts := new AccountService.Service(db);
    var transactions := new TransactionService.Service(db);
    var saved := accounts.SaveAccount(Account(1, "USD", 0.0, "secret", "owner@example.com"));
    var created := transactions.CreateDepositTransaction(Transaction(1, StatusCreated, 1, 100.0, "USD", 0));
    db.failing := {UpdateStatusRow};
    StatusWriteFailureAfterBalance(db.State(), db.failing, 1);
    o := transactions.UpdateTransactionStatus(1);
    db.failing := {};
    var account := accounts.GetAccount(1);
    var t := transactions.GetTransactionByID(1);
    balance, status := account.value.balance, t.value.status;
  }
}
