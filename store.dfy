/** An in-memory stand-in for the account and transaction tables, honouring the
    contract the services rely on: lookups that tell "not found" apart from a
    transport failure, existence checks before updates and deletes, and inserts
    that fix the status of a new transaction. */
module Store {
  import opened Errors
  import opened Entities

  /** A snapshot of both tables, keyed by row identifier. */
  datatype Tables = Tables(accounts: map<nat, Account>, transactions: map<nat, Transaction>)

  /** What a write returned, and the tables after it. */
  datatype Step = Step(outcome: Outcome, after: Tables)

  /** Every row is stored under its own identifier. */
  ghost predicate WellKeyed(s: Tables) {
    (forall k :: k in s.accounts ==> s.accounts[k].id == k) &&
    (forall k :: k in s.transactions ==> s.transactions[k].id == k)
  }

  /** The account row `id` (the account repository's Get). */
  function LookupAccount(s: Tables, failing: set<StoreOp>, id: nat): Result<Account> {
    if SelectAccountRow in failing then Err(StoreFailure(SelectAccountRow))
    else if id in s.accounts then Ok(s.accounts[id])
    else Err(AccountNotFound)
  }

  /** Identifier, currency and balance of account `id` (CheckExistsAccount). */
  function LookupSummary(s: Tables, failing: set<StoreOp>, id: nat): Result<AccountDto> {
    if SelectAccountSummary in failing then Err(StoreFailure(SelectAccountSummary))
    else if id in s.accounts then Ok(AccountDto(id, s.accounts[id].currency, s.accounts[id].balance))
    else Err(AccountNotFound)
  }

  /** The transaction row `id` (GetTransactionByID). */
  function LookupTransaction(s: Tables, failing: set<StoreOp>, id: nat): Result<Transaction> {
    if SelectTransactionRow in failing then Err(StoreFailure(SelectTransactionRow))
    else if id in s.transactions then Ok(s.transactions[id])
    else Err(TransactionNotFound)
  }

  /** The account lookup tells a missing row apart from a failing statement,
      and returns the row stored under the requested identifier. */
  lemma AccountLookupOutcomes(s: Tables, failing: set<StoreOp>, id: nat)
    requires WellKeyed(s)
    ensures var r := LookupAccount(s, failing, id);
      (r.Ok? ==> id in s.accounts && r.value == s.accounts[id] && r.value.id == id) &&
      (r == Err(AccountNotFound) <==> SelectAccountRow !in failing && id !in s.accounts) &&
      (r.Err? && r.error != AccountNotFound ==> r.error == StoreFailure(SelectAccountRow))
  {
  }

  /** When both statements work, the existence check finds exactly the accounts
      the account lookup finds, and reports their identifier, currency and
      balance. */
  lemma SummaryProjectsAccount(s: Tables, failing: set<StoreOp>, id: nat)
    requires WellKeyed(s)
    requires SelectAccountRow !in failing && SelectAccountSummary !in failing
    ensures LookupSummary(s, failing, id).Ok? <==> LookupAccount(s, failing, id).Ok?
    ensures LookupAccount(s, failing, id).Ok? ==>
      var a := LookupAccount(s, failing, id).value;
      LookupSummary(s, failing, id) == Ok(AccountDto(a.id, a.currency, a.balance))
    ensures LookupSummary(s, failing, id).Err? ==> LookupSummary(s, failing, id).error == AccountNotFound
  {
  }

  /** The transaction lookup tells a missing row apart from a failing
      statement, and returns the row stored under the requested identifier. */
  lemma TransactionLookupOutcomes(s: Tables, failing: set<StoreOp>, id: nat)
    requires WellKeyed(s)
    ensures var r := LookupTransaction(s, failing, id);
      (r.Ok? ==> id in s.transactions && r.value == s.transactions[id] && r.value.id == id) &&
      (r == Err(TransactionNotFound) <==> SelectTransactionRow !in failing && id !in s.transactions) &&
      (r.Err? && r.error != TransactionNotFound ==> r.error == StoreFailure(SelectTransactionRow))
  {
  }

  /** Overwrites the balance of account `id` after confirming it exists. */
  function SetBalance(s: Tables, failing: set<StoreOp>, id: nat, balance: real): Step {
    match LookupSummary(s, failing, id)
    case Err(e) => Step(Fail(e), s)
    case Ok(_) =>
      if UpdateBalanceRow in failing then Step(Fail(StoreFailure(UpdateBalanceRow)), s)
      else Step(Pass, s.(accounts := s.accounts[id := s.accounts[id].(balance := balance)]))
  }

  /** Overwrites the status of transaction `id` after confirming it exists. */
  function SetStatus(s: Tables, failing: set<StoreOp>, id: nat, status: Status): Step {
    match LookupTransaction(s, failing, id)
    case Err(e) => Step(Fail(e), s)
    case Ok(_) =>
      if UpdateStatusRow in failing then Step(Fail(StoreFailure(UpdateStatusRow)), s)
      else Step(Pass, s.(transactions := s.transactions[id := s.transactions[id].(status := status)]))
  }

  /** Some transaction of the table belongs to account `accountId`. */
  ghost predicate HasTransactions(m: map<nat, Transaction>, accountId: nat) {
    exists k :: k in m && m[k].accountId == accountId
  }

  /** `rows` lists the transactions of account `accountId`, each exactly once, in
      some order: the answer to a query that has no ORDER BY. */
  ghost predicate IsListing(m: map<nat, Transaction>, accountId: nat, rows: seq<Transaction>) {
    (forall i :: 0 <= i < |rows| ==> rows[i].id in m && m[rows[i].id] == rows[i] && rows[i].accountId == accountId) &&
    (forall k :: k in m && m[k].accountId == accountId ==> m[k] in rows) &&
    (forall i, j :: 0 <= i < j < |rows| ==> rows[i].id != rows[j].id)
  }

  class Database {
    var accounts: map<nat, Account>
    var transactions: map<nat, Transaction>
    /** The statements that fail with a transport error while this value holds. */
    var failing: set<StoreOp>

    ghost predicate Valid()
      reads this
    {
      WellKeyed(State())
    }

    function State(): Tables
      reads this
    {
      Tables(accounts, transactions)
    }

    constructor (failing: set<StoreOp>)
      ensures Valid() && accounts == map[] && transactions == map[] && this.failing == failing
    {
      accounts, transactions := map[], map[];
      this.failing := failing;
    }

    /** Inserts a new account row. */
    method InsertAccount(a: Account) returns (o: Outcome)
      requires Valid() && a.id !in accounts
      modifies this`accounts
      ensures Valid()
      ensures o == if InsertAccountRow in failing then Fail(StoreFailure(InsertAccountRow)) else Pass
      ensures accounts == if o.Pass? then old(accounts)[a.id := a] else old(accounts)
    {
      if InsertAccountRow in failing {
        return Fail(StoreFailure(InsertAccountRow));
      }
      accounts := accounts[a.id := a];
      o := Pass;
    }

    /** Overwrites balance and currency of account `id`. Any failure of the
        existence check is reported as AccountNotFound. */
    method UpdateAccount(id: nat, balance: real, currency: string) returns (o: Outcome)
      requires Valid()
      modifies this`accounts
      ensures Valid()
      ensures o == if SelectAccountRow in failing || id !in old(accounts) then Fail(AccountNotFound)
                   else if UpdateAccountRow in failing then Fail(StoreFailure(UpdateAccountRow))
                   else Pass
      ensures accounts == if o.Pass? then old(accounts)[id := old(accounts)[id].(balance := balance, currency := currency)]
                          else old(accounts)
    {
      if LookupAccount(State(), failing, id).Err? {
        return Fail(AccountNotFound);
      }
      if UpdateAccountRow in failing {
        return Fail(StoreFailure(UpdateAccountRow));
      }
      accounts := accounts[id := accounts[id].(balance := balance, currency := currency)];
      o := Pass;
    }

    /** Deletes account `id`. Any failure of the existence check is reported as
        AccountNotFound. */
    method DeleteAccount(id: nat) returns (o: Outcome)
      requires Valid()
      modifies this`accounts
      ensures Valid()
      ensures o == if SelectAccountRow in failing || id !in old(accounts) then Fail(AccountNotFound)
                   else if DeleteAccountRow in failing then Fail(StoreFailure(DeleteAccountRow))
                   else Pass
      ensures accounts == if o.Pass? then old(accounts) - {id} else old(accounts)
    {
      if LookupAccount(State(), failing, id).Err? {
        return Fail(AccountNotFound);
      }
      if DeleteAccountRow in failing {
        return Fail(StoreFailure(DeleteAccountRow));
      }
      accounts := accounts - {id};
      o := Pass;
    }

    /** Overwrites the balance of account `id` (the settlement write). */
    method UpdateBalance(id: nat, balance: real) returns (o: Outcome)
      requires Valid()
      modifies this`accounts
      ensures Valid()
      ensures Step(o, State()) == SetBalance(old(State()), failing, id, balance)
    {
      var found := LookupSummary(State(), failing, id);
      if found.Err? {
        return Fail(found.error);
      }
      if UpdateBalanceRow in failing {
        return Fail(StoreFailure(UpdateBalanceRow));
      }
      accounts := accounts[id := accounts[id].(balance := balance)];
      o := Pass;
    }

    /** Inserts a deposit: the row is "created" and has no destination, whatever
        the caller's record says. */
    method InsertDeposit(t: Transaction) returns (o: Outcome)
      requires Valid() && t.id !in transactions
      modifies this`transactions
      ensures Valid()
      ensures o == if InsertTransactionRow in failing then Fail(StoreFailure(InsertTransactionRow)) else Pass
      ensures transactions == if o.Pass? then old(transactions)[t.id := t.(status := StatusCreated, toAccount := 0)]
                              else old(transactions)
    {
      if InsertTransactionRow in failing {
        return Fail(StoreFailure(InsertTransactionRow));
      }
      transactions := transactions[t.id := t.(status := StatusCreated, toAccount := 0)];
      o := Pass;
    }

    /** Inserts a withdrawal: the row is "created" whatever the caller's record says. */
    method InsertWithdraw(t: Transaction) returns (o: Outcome)
      requires Valid() && t.id !in transactions
      modifies this`transactions
      ensures Valid()
      ensures o == if InsertTransactionRow in failing then Fail(StoreFailure(InsertTransactionRow)) else Pass
      ensures transactions == if o.Pass? then old(transactions)[t.id := t.(status := StatusCreated)]
                              else old(transactions)
    {
      if InsertTransactionRow in failing {
        return Fail(StoreFailure(InsertTransactionRow));
      }
      transactions := transactions[t.id := t.(status := StatusCreated)];
      o := Pass;
    }

    /** Overwrites the status of transaction `id` (the settlement's last write). */
    method UpdateTransactionStatus(id: nat, status: Status) returns (o: Outcome)
      requires Valid()
      modifies this`transactions
      ensures Valid()
      ensures Step(o, State()) == SetStatus(old(State()), failing, id, status)
    {
      var found := LookupTransaction(State(), failing, id);
      if found.Err? {
        return Fail(found.error);
      }
      if UpdateStatusRow in failing {
        return Fail(StoreFailure(UpdateStatusRow));
      }
      transactions := transactions[id := transactions[id].(status := status)];
      o := Pass;
    }

    /** Deletes transaction `id`. Any failure of the existence check is reported
        as TransactionNotFound. */
    method DeleteTransaction(id: nat) returns (o: Outcome)
      requires Valid()
      modifies this`transactions
      ensures Valid()
      ensures o == if SelectTransactionRow in failing || id !in old(transactions) then Fail(TransactionNotFound)
                   else if DeleteTransactionRow in failing then Fail(StoreFailure(DeleteTransactionRow))
                   else Pass
      ensures transactions == if o.Pass? then old(transactions) - {id} else old(transactions)
    {
      if LookupTransaction(State(), failing, id).Err? {
        return Fail(TransactionNotFound);
      }
      if DeleteTransactionRow in failing {
        return Fail(StoreFailure(DeleteTransactionRow));
      }
      transactions := transactions - {id};
      o := Pass;
    }

    /** The transactions of account `accountId`, in whatever order the table
        yields them; "not found" when there are none. */
    method ListByAccount(accountId: nat) returns (r: Result<seq<Transaction>>)
      requires Valid()
      ensures r.Err? <==> SelectAccountTransactions in failing || !HasTransactions(transactions, accountId)
      ensures r.Err? ==> r.error == if SelectAccountTransactions in failing then StoreFailure(SelectAccountTransactions)
                                   else TransactionNotFound
      ensures r.Ok? ==> IsListing(transactions, accountId, r.value)
    {
      if SelectAccountTransactions in failing {
        return Err(StoreFailure(SelectAccountTransactions));
      }
      var rows: seq<Transaction> := [];
      var rest := transactions.Keys;
      while rest != {}
        invariant rest <= transactions.Keys
        invariant forall i :: 0 <= i < |rows| ==>
          rows[i].id in transactions && transactions[rows[i].id] == rows[i] &&
          rows[i].accountId == accountId && rows[i].id !in rest
        invariant forall k :: k in transactions && k !in rest && transactions[k].accountId == accountId ==> transactions[k] in rows
        invariant forall i, j :: 0 <= i < j < |rows| ==> rows[i].id != rows[j].id
        decreases rest
      {
        var k :| k in rest;
        rest := rest - {k};
        if transactions[k].accountId == accountId {
          rows := rows + [transactions[k]];
        }
      }
      if rows == [] {
        return Err(TransactionNotFound);
      }
      assert rows[0].id in transactions && transactions[rows[0].id].accountId == accountId;
      r := Ok(rows);
    }
  }
}
