/** The transaction service: recording deposits and withdrawals, settling them
    against the account balance, the frozen-balance projection, and deletion. */
module TransactionService {
  import opened Errors
  import opened Entities
  import opened Validator
  import opened Store
  import opened Frozen
  import opened Settlement

  class Service {
    const db: Database

    constructor (db: Database)
      ensures this.db == db
    {
      this.db := db;
    }

    /** Records a deposit unless its identifier is taken. The stored row is
        pending and has no destination; the caller's record is returned as given. */
    method CreateDepositTransaction(t: Transaction) returns (r: Result<Transaction>)
      requires db.Valid()
      modifies db`transactions
      ensures db.Valid()
      ensures r.Err? ==> db.transactions == old(db.transactions)
      ensures SelectTransactionRow in db.failing ==> r == Err(StoreFailure(SelectTransactionRow))
      ensures SelectTransactionRow !in db.failing && t.id in old(db.transactions) ==> r == Err(TransactionExists)
      ensures SelectTransactionRow !in db.failing && t.id !in old(db.transactions) ==>
        if InsertTransactionRow in db.failing then r == Err(StoreFailure(InsertTransactionRow))
        else r == Ok(t) && db.transactions == old(db.transactions)[t.id := t.(status := StatusCreated, toAccount := 0)]
    {
      var found := LookupTransaction(db.State(), db.failing, t.id);
      match found {
        case Ok(_) =>
          r := Err(TransactionExists);
        case Err(TransactionNotFound) =>
          var saved := db.InsertDeposit(t);
          r := if saved.Fail? then Err(saved.error) else Ok(t);
        case Err(e) =>
          r := Err(e);
      }
    }

    /** Records a withdrawal unless its identifier is taken; a taken identifier
        is reported as AccountExists. The stored row is pending. */
    method CreateWithdrawTransaction(t: Transaction) returns (r: Result<Transaction>)
      requires db.Valid()
      modifies db`transactions
      ensures db.Valid()
      ensures r.Err? ==> db.transactions == old(db.transactions)
      ensures SelectTransactionRow in db.failing ==> r == Err(StoreFailure(SelectTransactionRow))
      ensures SelectTransactionRow !in db.failing && t.id in old(db.transactions) ==> r == Err(AccountExists)
      ensures SelectTransactionRow !in db.failing && t.id !in old(db.transactions) ==>
        if InsertTransactionRow in db.failing then r == Err(StoreFailure(InsertTransactionRow))
        else r == Ok(t) && db.transactions == old(db.transactions)[t.id := t.(status := StatusCreated)]
    {
      var found := LookupTransaction(db.State(), db.failing, t.id);
      match found {
        case Ok(_) =>
          r := Err(AccountExists);
        case Err(TransactionNotFound) =>
          var saved := db.InsertWithdraw(t);
          r := if saved.Fail? then Err(saved.error) else Ok(t);
        case Err(e) =>
          r := Err(e);
      }
    }

    /** The stored transaction `id`; TransactionNotFound when there is none. */
    method GetTransactionByID(id: nat) returns (r: Result<Transaction>)
      requires db.Valid()
      ensures r.Ok? <==> SelectTransactionRow !in db.failing && id in db.transactions
      ensures r.Ok? ==> r.value == db.transactions[id] && r.value.id == id
      ensures r.Err? ==> r.error == if SelectTransactionRow in db.failing then StoreFailure(SelectTransactionRow)
                                   else TransactionNotFound
    {
      var found := LookupTransaction(db.State(), db.failing, id);
      if found.Err? && found.error == TransactionNotFound {
        return Err(TransactionNotFound);
      }
      r := found;
    }

    /** The account's identifier and currency with, as balance, the net amount
        of its pending transactions converted into that currency. `rows` is the
        listing the table returned; by ListingsAgree any other listing gives the
        same answer. Nothing is written. */
    method GetFrozenBalanceByAccountID(accountId: nat) returns (r: Result<AccountDto>, ghost rows: seq<Transaction>)
      requires db.Valid()
      ensures SelectAccountTransactions in db.failing ==> r == Err(StoreFailure(SelectAccountTransactions))
      ensures SelectAccountTransactions !in db.failing && !HasTransactions(db.transactions, accountId) ==>
        r == Err(TransactionNotFound)
      ensures SelectAccountTransactions !in db.failing && HasTransactions(db.transactions, accountId) ==>
        IsListing(db.transactions, accountId, rows) &&
        r == match LookupSummary(db.State(), db.failing, accountId)
             case Err(e) => Err(e)
             case Ok(account) =>
               match FrozenTotal(rows, account.currency)
               case Err(e) => Err(e)
               case Ok(total) => Ok(account.(balance := total))
    {
      rows := [];
      var listed := db.ListByAccount(accountId);
      if listed.Err? {
        return Err(listed.error), rows;
      }
      rows := listed.value;
      var found := LookupSummary(db.State(), db.failing, accountId);
      if found.Err? {
        return Err(found.error), rows;
      }
      var account := found.value;
      var total := 0.0;
      for i := 0 to |listed.value|
        invariant FrozenTotal(rows[..i], account.currency) == Ok(total)
      {
        var t := listed.value[i];
        assert rows[..i + 1][..i] == rows[..i];
        if t.status == StatusCreated {
          var amount := ValidateCurrency(t.currency, account.currency, t.amount);
          if amount.Err? {
            assert Blocks(rows[i], account.currency);
            return Err(amount.error), rows;
          }
          // A transaction id is unsigned, so ToAccount is either zero or positive.
          if t.toAccount == 0 {
            total := total + amount.value;
          } else {
            total := total - amount.value;
          }
        }
      }
      assert rows[..|rows|] == rows;
      r := Ok(account.(balance := total));
    }

    /** Settles transaction `id` (see Settlement.Settle): the balance write comes
        before the status write, and a failed step stops the sequence. */
    method UpdateTransactionStatus(id: nat) returns (o: Outcome)
      requires db.Valid()
      modifies db`accounts, db`transactions
      ensures db.Valid()
      ensures Step(o, db.State()) == Settle(old(db.State()), db.failing, id)
    {
      var found := LookupTransaction(db.State(), db.failing, id);
      if found.Err? {
        return Fail(found.error);
      }
      var t := found.value;
      var summary := LookupSummary(db.State(), db.failing, t.accountId);
      if summary.Err? {
        return Fail(summary.error);
      }
      var account := summary.value;
      var amount := ValidateCurrency(t.currency, account.currency, t.amount);
      if amount.Err? {
        return Fail(amount.error);
      }
      // A transaction id is unsigned, so ToAccount is either zero or positive
      // and the IncorrectID branch cannot be reached.
      if t.toAccount == 0 {
        o := db.UpdateBalance(t.accountId, account.balance + amount.value);
        if o.Fail? {
          return;
        }
        o := db.UpdateTransactionStatus(t.id, StatusSuccess);
      } else {
        if amount.value > account.balance {
          o := db.UpdateTransactionStatus(t.id, StatusError);
          if o.Fail? {
            return;
          }
          return Fail(NegativeBalance);
        }
        o := db.UpdateBalance(t.accountId, account.balance - amount.value);
        if o.Fail? {
          return;
        }
        o := db.UpdateTransactionStatus(t.id, StatusSuccess);
      }
    }

    /** Deletes transaction `id` and no other. */
    method DeleteTransactionByID(id: nat) returns (o: Outcome)
      requires db.Valid()
      modifies db`transactions
      ensures db.Valid()
      ensures o.Fail? ==> db.transactions == old(db.transactions)
      ensures o == Pass <==> SelectTransactionRow !in db.failing && id in old(db.transactions) && DeleteTransactionRow !in db.failing
      ensures o.Fail? ==> o.error == if SelectTransactionRow in db.failing || id !in old(db.transactions) then TransactionNotFound
                                     else StoreFailure(DeleteTransactionRow)
      ensures o.Pass? ==> (db.transactions.Keys == old(db.transactions).Keys - {id} &&
                           forall k :: k in db.transactions ==> db.transactions[k] == old(db.transactions)[k])
    {
      o := db.DeleteTransaction(id);
      if o.Fail? && o.error == TransactionNotFound {
        return Fail(TransactionNotFound);
      }
    }
  }
}
