/** Settlement of a transaction: the effect UpdateTransactionStatus has on the
    two tables, as a function of the tables before the call. */
module Settlement {
  import opened Errors
  import opened Entities
  import opened Validator
  import opened Store
  import opened Frozen

  /** Writes the account's new balance and then, only if that write succeeded,
      marks the transaction successful. */
  function BalanceThenStatus(s: Tables, failing: set<StoreOp>, t: Transaction, balance: real): Step {
    var written := SetBalance(s, failing, t.accountId, balance);
    if written.outcome.Fail? then written
    else SetStatus(written.after, failing, t.id, StatusSuccess)
  }

  /** Marks an uncovered withdrawal as an error; reports NegativeBalance unless
      the status write itself failed. */
  function Reject(s: Tables, failing: set<StoreOp>, t: Transaction): Step {
    var marked := SetStatus(s, failing, t.id, StatusError);
    if marked.outcome.Fail? then marked else Step(Fail(NegativeBalance), marked.after)
  }

  /** The branch on the destination, once the amount is converted: credit a
      deposit, debit a withdrawal the balance covers, reject any other. */
  function Apply(s: Tables, failing: set<StoreOp>, t: Transaction, balance: real, amount: real): Step {
    if t.toAccount == 0 then BalanceThenStatus(s, failing, t, balance + amount)
    else if amount > balance then Reject(s, failing, t)
    else BalanceThenStatus(s, failing, t, balance - amount)
  }

  /** Settles transaction `id`: read it, read its account, convert the amount
      into the account's currency, then apply it. The current status of the
      transaction is not consulted. */
  function Settle(s: Tables, failing: set<StoreOp>, id: nat): (r: Step)
    ensures r.outcome == Pass ==>
      (id in s.transactions &&
       var t := s.transactions[id];
       t.id in r.after.transactions && r.after.transactions[t.id].status == StatusSuccess)
    ensures r.outcome == Fail(NegativeBalance) ==>
      (id in s.transactions &&
       var t := s.transactions[id];
       r.after.accounts == s.accounts && t.id in r.after.transactions && r.after.transactions[t.id].status == StatusError)
  {
    match LookupTransaction(s, failing, id)
    case Err(e) => Step(Fail(e), s)
    case Ok(t) =>
      match LookupSummary(s, failing, t.accountId)
      case Err(e) => Step(Fail(e), s)
      case Ok(account) =>
        match ValidateCurrency(t.currency, account.currency, t.amount)
        case Err(e) => Step(Fail(e), s)
        case Ok(amount) => Apply(s, failing, t, account.balance, amount)
  }

  /** None of the statements settlement issues fails. */
  predicate StoreHealthy(failing: set<StoreOp>) {
    SelectTransactionRow !in failing && SelectAccountSummary !in failing &&
    UpdateBalanceRow !in failing && UpdateStatusRow !in failing
  }

  /** The amount of transaction `t` in the currency of its account, when both exist. */
  function Converted(s: Tables, t: Transaction): Result<real> {
    if t.accountId in s.accounts then ValidateCurrency(t.currency, s.accounts[t.accountId].currency, t.amount)
    else Err(AccountNotFound)
  }

  /** A missing transaction, a missing account or an unsupported currency pair
      fails settlement before anything is written. */
  lemma SettleFailsWithoutWriting(s: Tables, failing: set<StoreOp>, id: nat)
    requires SelectTransactionRow !in failing && SelectAccountSummary !in failing
    ensures id !in s.transactions ==> Settle(s, failing, id) == Step(Fail(TransactionNotFound), s)
    ensures id in s.transactions && s.transactions[id].accountId !in s.accounts ==>
      Settle(s, failing, id) == Step(Fail(AccountNotFound), s)
    ensures id in s.transactions && Converted(s, s.transactions[id]) == Err(InvalidCurrency) ==>
      Settle(s, failing, id) == Step(Fail(InvalidCurrency), s)
  {
  }

  /** A transport failure of either read is returned, and nothing is written. */
  lemma SettleReadFailuresPropagate(s: Tables, failing: set<StoreOp>, id: nat)
    ensures SelectTransactionRow in failing ==>
      Settle(s, failing, id) == Step(Fail(StoreFailure(SelectTransactionRow)), s)
    ensures SelectTransactionRow !in failing && SelectAccountSummary in failing && id in s.transactions ==>
      Settle(s, failing, id) == Step(Fail(StoreFailure(SelectAccountSummary)), s)
  {
  }

  /** Settling a deposit adds its converted amount to the balance and then marks
      it successful. */
  lemma SettleDeposit(s: Tables, failing: set<StoreOp>, id: nat)
    requires WellKeyed(s) && StoreHealthy(failing)
    requires id in s.transactions && s.transactions[id].IsDeposit()
    requires Converted(s, s.transactions[id]).Ok?
    ensures var t := s.transactions[id];
      var a := s.accounts[t.accountId];
      Settle(s, failing, id) == Step(Pass, Tables(
        s.accounts[t.accountId := a.(balance := a.balance + Converted(s, t).value)],
        s.transactions[id := t.(status := StatusSuccess)]))
  {
  }

  /** A withdrawal larger than the balance is marked as an error, reported as
      NegativeBalance, and leaves the balance alone. */
  lemma SettleWithdrawRejected(s: Tables, failing: set<StoreOp>, id: nat)
    requires WellKeyed(s) && StoreHealthy(failing)
    requires id in s.transactions && !s.transactions[id].IsDeposit()
    requires Converted(s, s.transactions[id]).Ok?
    requires Converted(s, s.transactions[id]).value > s.accounts[s.transactions[id].accountId].balance
    ensures var t := s.transactions[id];
      Settle(s, failing, id) == Step(Fail(NegativeBalance), Tables(
        s.accounts, s.transactions[id := t.(status := StatusError)]))
  {
  }

  /** A withdrawal the balance covers is subtracted, and the transaction is
      then marked successful; the balance stays non-negative. */
  lemma SettleWithdraw(s: Tables, failing: set<StoreOp>, id: nat)
    requires WellKeyed(s) && StoreHealthy(failing)
    requires id in s.transactions && !s.transactions[id].IsDeposit()
    requires Converted(s, s.transactions[id]).Ok?
    requires Converted(s, s.transactions[id]).value <= s.accounts[s.transactions[id].accountId].balance
    ensures var t := s.transactions[id];
      var a := s.accounts[t.accountId];
      var r := Settle(s, failing, id);
      r == Step(Pass, Tables(
        s.accounts[t.accountId := a.(balance := a.balance - Converted(s, t).value)],
        s.transactions[id := t.(status := StatusSuccess)]))
      && r.after.accounts[t.accountId].balance >= 0.0
  {
  }

  /** `s'` differs from `s` at most in the balance of account `accountId` and the
      status of transaction `id`; both tables keep their keys. */
  ghost predicate OnlyRowsChanged(s: Tables, s': Tables, accountId: nat, id: nat) {
    WellKeyed(s') &&
    s'.accounts.Keys == s.accounts.Keys && s'.transactions.Keys == s.transactions.Keys &&
    (forall k :: k in s.transactions && k != id ==> s'.transactions[k] == s.transactions[k]) &&
    (forall k :: k in s.transactions ==> s'.transactions[k] == s.transactions[k].(status := s'.transactions[k].status)) &&
    (forall k :: k in s.accounts && k != accountId ==> s'.accounts[k] == s.accounts[k]) &&
    (forall k :: k in s.accounts ==> s'.accounts[k] == s.accounts[k].(balance := s'.accounts[k].balance))
  }

  lemma BalanceWriteFrame(s: Tables, failing: set<StoreOp>, accountId: nat, balance: real, id: nat)
    requires WellKeyed(s)
    ensures OnlyRowsChanged(s, SetBalance(s, failing, accountId, balance).after, accountId, id)
  {
  }

  lemma StatusWriteFrame(s: Tables, failing: set<StoreOp>, id: nat, status: Status, accountId: nat)
    requires WellKeyed(s)
    ensures OnlyRowsChanged(s, SetStatus(s, failing, id, status).after, accountId, id)
  {
  }

  lemma OnlyRowsChangedCompose(s: Tables, s1: Tables, s2: Tables, accountId: nat, id: nat)
    requires OnlyRowsChanged(s, s1, accountId, id) && OnlyRowsChanged(s1, s2, accountId, id)
    ensures OnlyRowsChanged(s, s2, accountId, id)
  {
  }

  lemma ApplyFrame(s: Tables, failing: set<StoreOp>, t: Transaction, balance: real, amount: real)
    requires WellKeyed(s)
    ensures OnlyRowsChanged(s, Apply(s, failing, t, balance, amount).after, t.accountId, t.id)
  {
    if t.toAccount != 0 && amount > balance {
      StatusWriteFrame(s, failing, t.id, StatusError, t.accountId);
    } else {
      var b := if t.toAccount == 0 then balance + amount else balance - amount;
      var written := SetBalance(s, failing, t.accountId, b);
      BalanceWriteFrame(s, failing, t.accountId, b, t.id);
      if written.outcome.Pass? {
        StatusWriteFrame(written.after, failing, t.id, StatusSuccess, t.accountId);
        OnlyRowsChangedCompose(s, written.after, SetStatus(written.after, failing, t.id, StatusSuccess).after, t.accountId, t.id);
      }
    }
  }

  /** Settlement touches at most the transaction's own row and its account's
      row, and of those only the status and the balance. */
  lemma SettleTouchesOnlyItsRows(s: Tables, failing: set<StoreOp>, id: nat)
    requires WellKeyed(s)
    ensures id !in s.transactions ==> Settle(s, failing, id).after == s
    ensures id in s.transactions ==>
      OnlyRowsChanged(s, Settle(s, failing, id).after, s.transactions[id].accountId, id)
  {
    if id in s.transactions {
      var t := s.transactions[id];
      assert t.id == id;
      assert OnlyRowsChanged(s, s, t.accountId, id);
      var found := LookupTransaction(s, failing, id);
      if found.Ok? {
        var account := LookupSummary(s, failing, t.accountId);
        if account.Ok? {
          var amount := ValidateCurrency(t.currency, account.value.currency, t.amount);
          if amount.Ok? {
            ApplyFrame(s, failing, t, account.value.balance, amount.value);
          }
        }
      }
    }
  }

  /** A settlement that passed issued every statement successfully, converted
      the amount, and found a withdrawal covered by the balance. */
  lemma SettlePassed(s: Tables, failing: set<StoreOp>, id: nat)
    requires WellKeyed(s)
    requires Settle(s, failing, id).outcome == Pass
    ensures StoreHealthy(failing) && id in s.transactions
    ensures Converted(s, s.transactions[id]).Ok?
    ensures !s.transactions[id].IsDeposit() ==>
      Converted(s, s.transactions[id]).value <= s.accounts[s.transactions[id].accountId].balance
  {
  }

  /** When every balance is non-negative, settlement keeps it so, provided a
      deposit being settled is not for a negative amount. */
  lemma SettleKeepsBalancesNonNegative(s: Tables, failing: set<StoreOp>, id: nat)
    requires WellKeyed(s)
    requires forall k :: k in s.accounts ==> s.accounts[k].balance >= 0.0
    requires id in s.transactions && s.transactions[id].IsDeposit() ==> s.transactions[id].amount >= 0.0
    ensures var r := Settle(s, failing, id);
      forall k :: k in r.after.accounts ==> r.after.accounts[k].balance >= 0.0
  {
    if id in s.transactions {
      var t := s.transactions[id];
      if t.accountId in s.accounts {
        var a := s.accounts[t.accountId];
        if Supported(t.currency) && Supported(a.currency) {
          ConversionKeepsSign(t.currency, a.currency, t.amount);
        }
      }
    }
    SettleTouchesOnlyItsRows(s, failing, id);
  }

  /** Nothing bounds a deposit's amount from below, so settling a deposit of
      -5 USD into an empty USD account leaves its balance at -5. */
  lemma NegativeDepositOverdraws()
    ensures var s := Tables(map[1 := Account(1, "USD", 0.0, "", "")],
                            map[7 := Transaction(7, StatusCreated, 1, -5.0, "USD", 0)]);
      Settle(s, {}, 7).outcome == Pass && Settle(s, {}, 7).after.accounts[1].balance == -5.0
  {
    var s := Tables(map[1 := Account(1, "USD", 0.0, "", "")],
                    map[7 := Transaction(7, StatusCreated, 1, -5.0, "USD", 0)]);
    SettleDeposit(s, {}, 7);
  }

  /** The balance write comes first: a transaction is newly marked successful
      only by a settlement that succeeded and changed the balance by the
      converted amount. */
  lemma SuccessOnlyAfterBalance(s: Tables, failing: set<StoreOp>, id: nat)
    requires WellKeyed(s)
    requires id in s.transactions && s.transactions[id].status != StatusSuccess
    ensures var r := Settle(s, failing, id);
      var t := s.transactions[id];
      r.after.transactions[id].status == StatusSuccess ==>
        r.outcome == Pass && Converted(s, t).Ok? &&
        r.after.accounts[t.accountId].balance
          == s.accounts[t.accountId].balance + (if t.IsDeposit() then 1.0 else -1.0) * Converted(s, t).value
  {
    SettleTouchesOnlyItsRows(s, failing, id);
  }

  /** Because the balance is written before the status, a failed status write
      leaves a balance that already reflects the transaction while the
      transaction itself is still as it was. */
  lemma StatusWriteFailureAfterBalance(s: Tables, failing: set<StoreOp>, id: nat)
    requires WellKeyed(s)
    requires SelectTransactionRow !in failing && SelectAccountSummary !in failing && UpdateBalanceRow !in failing
    requires UpdateStatusRow in failing
    requires id in s.transactions && s.transactions[id].IsDeposit()
    requires Converted(s, s.transactions[id]).Ok?
    ensures var t := s.transactions[id];
      var a := s.accounts[t.accountId];
      Settle(s, failing, id) == Step(Fail(StoreFailure(UpdateStatusRow)), Tables(
        s.accounts[t.accountId := a.(balance := a.balance + Converted(s, t).value)],
        s.transactions))
  {
  }

  /** Settlement does not consult the status: settling a deposit twice credits
      it twice. */
  lemma SettleTwiceCreditsTwice(s: Tables, failing: set<StoreOp>, id: nat)
    requires WellKeyed(s) && StoreHealthy(failing)
    requires id in s.transactions && s.transactions[id].IsDeposit()
    requires Converted(s, s.transactions[id]).Ok?
    ensures var t := s.transactions[id];
      var twice := Settle(Settle(s, failing, id).after, failing, id);
      twice.outcome == Pass &&
      twice.after.accounts[t.accountId].balance
        == s.accounts[t.accountId].balance + 2.0 * Converted(s, t).value
  {
    var t := s.transactions[id];
    SettleDeposit(s, failing, id);
    var once := Settle(s, failing, id).after;
    SettleTouchesOnlyItsRows(s, failing, id);
    assert once.transactions[id] == t.(status := StatusSuccess);
    assert Converted(once, once.transactions[id]) == Converted(s, t);
    SettleDeposit(once, failing, id);
  }

  /** Changing the status of one row of a listing gives a listing of the updated table. */
  lemma ListingAfterStatusChange(m: map<nat, Transaction>, rows: seq<Transaction>, i: nat, t: Transaction, status: Status)
    requires forall k :: k in m ==> m[k].id == k
    requires IsListing(m, t.accountId, rows) && i < |rows| && rows[i] == t
    ensures IsListing(m[t.id := t.(status := status)], t.accountId, rows[i := t.(status := status)])
  {
    var m', rows' := m[t.id := t.(status := status)], rows[i := t.(status := status)];
    forall k | k in m' && m'[k].accountId == t.accountId
      ensures m'[k] in rows'
    {
      if k == t.id {
        assert rows'[i] == m'[k];
      } else {
        var j :| 0 <= j < |rows| && rows[j] == m[k];
        assert rows[j].id == k;
        assert rows'[j] == m'[k];
      }
    }
  }

  /** After a settlement that passed, the account holds its old balance plus
      the transaction's contribution and the transaction is marked success. */
  lemma PassedSettlement(s: Tables, failing: set<StoreOp>, id: nat)
    requires WellKeyed(s)
    requires id in s.transactions && s.transactions[id].status == StatusCreated
    requires Settle(s, failing, id).outcome == Pass
    ensures var t := s.transactions[id];
      t.accountId in s.accounts &&
      var a := s.accounts[t.accountId];
      Contribution(t, a.currency).Ok? &&
      Settle(s, failing, id).after == Tables(
        s.accounts[t.accountId := a.(balance := a.balance + Contribution(t, a.currency).value)],
        s.transactions[id := t.(status := StatusSuccess)])
  {
    var t := s.transactions[id];
    SettlePassed(s, failing, id);
    if t.IsDeposit() {
      SettleDeposit(s, failing, id);
    } else {
      SettleWithdraw(s, failing, id);
    }
  }

  /** A successful settlement of a pending transaction moves its amount from the
      account's frozen balance into its balance: balance plus frozen balance,
      each computed from any listing of the account's transactions, is the same
      before and after. */
  lemma SettlementConservesHoldings(s: Tables, failing: set<StoreOp>, id: nat, before: seq<Transaction>, after: seq<Transaction>)
    requires WellKeyed(s)
    requires id in s.transactions && s.transactions[id].status == StatusCreated
    requires Settle(s, failing, id).outcome == Pass
    requires IsListing(s.transactions, s.transactions[id].accountId, before)
    requires IsListing(Settle(s, failing, id).after.transactions, s.transactions[id].accountId, after)
    ensures var t := s.transactions[id];
      var r := Settle(s, failing, id);
      t.accountId in s.accounts && t.accountId in r.after.accounts &&
      Holdings(s.accounts[t.accountId].balance, FrozenTotal(before, s.accounts[t.accountId].currency))
        == Holdings(r.after.accounts[t.accountId].balance, FrozenTotal(after, s.accounts[t.accountId].currency))
  {
    var t := s.transactions[id];
    PassedSettlement(s, failing, id);
    var a := s.accounts[t.accountId];
    StateHoldings(s, Settle(s, failing, id).after, t, before, after);
  }

  /** SettlementConservesHoldings for an after-state given outright. */
  lemma StateHoldings(s: Tables, next: Tables, t: Transaction, before: seq<Transaction>, after: seq<Transaction>)
    requires forall k :: k in s.transactions ==> s.transactions[k].id == k
    requires t.id in s.transactions && s.transactions[t.id] == t && t.status == StatusCreated
    requires t.accountId in s.accounts
    requires Contribution(t, s.accounts[t.accountId].currency).Ok?
    requires next == Tables(
      s.accounts[t.accountId := s.accounts[t.accountId].(balance := s.accounts[t.accountId].balance
                                                         + Contribution(t, s.accounts[t.accountId].currency).value)],
      s.transactions[t.id := t.(status := StatusSuccess)])
    requires IsListing(s.transactions, t.accountId, before)
    requires IsListing(next.transactions, t.accountId, after)
    ensures t.accountId in next.accounts
    ensures Holdings(s.accounts[t.accountId].balance, FrozenTotal(before, s.accounts[t.accountId].currency))
         == Holdings(next.accounts[t.accountId].balance, FrozenTotal(after, s.accounts[t.accountId].currency))
  {
    var a := s.accounts[t.accountId];
    assert next.accounts[t.accountId].balance == a.balance + Contribution(t, a.currency).value;
    ListingHoldings(s.transactions, next.transactions, t, before, after, a.balance, a.currency);
  }

  /** The listing-level half of SettlementConservesHoldings: marking a pending
      transaction successful while adding its contribution to the balance keeps
      balance plus frozen balance. */
  lemma ListingHoldings(m: map<nat, Transaction>, m': map<nat, Transaction>, t: Transaction,
                        before: seq<Transaction>, after: seq<Transaction>, balance: real, currency: string)
    requires forall k :: k in m ==> m[k].id == k
    requires t.id in m && m[t.id] == t && t.status == StatusCreated
    requires Contribution(t, currency).Ok?
    requires m' == m[t.id := t.(status := StatusSuccess)]
    requires IsListing(m, t.accountId, before)
    requires IsListing(m', t.accountId, after)
    ensures Holdings(balance, FrozenTotal(before, currency))
         == Holdings(balance + Contribution(t, currency).value, FrozenTotal(after, currency))
  {
    var i := ListedAt(m, before, t);
    SettledListingTotal(m, m', t, before, i, after, currency);
    SettlingShiftsHoldings(before, i, t, balance, currency);
  }

  /** The position of row `t` in a listing of its account's transactions. */
  ghost function ListedAt(m: map<nat, Transaction>, rows: seq<Transaction>, t: Transaction): (i: nat)
    requires t.id in m && m[t.id] == t && IsListing(m, t.accountId, rows)
    ensures i < |rows| && rows[i] == t
  {
    assert m[t.id] in rows;
    var i :| 0 <= i < |rows| && rows[i] == t; i
  }

  /** Any listing after the status change totals like the old listing with that
      one row changed. */
  lemma SettledListingTotal(m: map<nat, Transaction>, m': map<nat, Transaction>, t: Transaction,
                            before: seq<Transaction>, i: nat, after: seq<Transaction>, currency: string)
    requires forall k :: k in m ==> m[k].id == k
    requires IsListing(m, t.accountId, before) && i < |before| && before[i] == t
    requires m' == m[t.id := t.(status := StatusSuccess)]
    requires IsListing(m', t.accountId, after)
    ensures FrozenTotal(after, currency) == FrozenTotal(before[i := t.(status := StatusSuccess)], currency)
  {
    ListingAfterStatusChange(m, before, i, t, StatusSuccess);
    ListingsAgree(m', t.accountId, before[i := t.(status := StatusSuccess)], after, currency);
  }
}
