/** Account lifecycle: register, read, delete, and overwrite balance and currency. */
module AccountService {
  import opened Errors
  import opened Entities
  import opened Store

  class Service {
    const db: Database

    constructor (db: Database)
      ensures this.db == db
    {
      this.db := db;
    }

    /** Registers `account` when no account has its identifier; a failing
        lookup is reported as it is, and nothing is written in either case. */
    method SaveAccount(account: Account) returns (r: Result<Account>)
      requires db.Valid()
      modifies db`accounts
      ensures db.Valid()
      ensures SelectAccountRow in db.failing ==>
        r == Err(StoreFailure(SelectAccountRow)) && db.accounts == old(db.accounts)
      ensures SelectAccountRow !in db.failing && account.id in old(db.accounts) ==>
        r == Err(AccountExists) && db.accounts == old(db.accounts)
      ensures SelectAccountRow !in db.failing && account.id !in old(db.accounts) && InsertAccountRow in db.failing ==>
        r == Err(StoreFailure(InsertAccountRow)) && db.accounts == old(db.accounts)
      ensures SelectAccountRow !in db.failing && account.id !in old(db.accounts) && InsertAccountRow !in db.failing ==>
        r == Ok(account) && db.accounts == old(db.accounts)[account.id := account]
    {
      var found := LookupAccount(db.State(), db.failing, account.id);
      match found {
        case Ok(_) =>
          r := Err(AccountExists);
        case Err(AccountNotFound) =>
          var saved := db.InsertAccount(account);
          r := if saved.Fail? then Err(saved.error) else Ok(account);
        case Err(e) =>
          r := Err(e);
      }
    }

    /** The stored account `id`; AccountNotFound when there is none. */
    method GetAccount(id: nat) returns (r: Result<Account>)
      requires db.Valid()
      ensures r.Ok? <==> SelectAccountRow !in db.failing && id in db.accounts
      ensures r.Ok? ==> r.value == db.accounts[id] && r.value.id == id
      ensures r.Err? ==> r.error == if SelectAccountRow in db.failing then StoreFailure(SelectAccountRow) else AccountNotFound
    {
      var found := LookupAccount(db.State(), db.failing, id);
      if found.Err? && found.error == AccountNotFound {
        return Err(AccountNotFound);
      }
      r := found;
    }

    /** Removes account `id` and no other. */
    method DeleteAccount(id: nat) returns (o: Outcome)
      requires db.Valid()
      modifies db`accounts
      ensures db.Valid()
      ensures o.Fail? ==> db.accounts == old(db.accounts)
      ensures o == Pass <==> SelectAccountRow !in db.failing && id in old(db.accounts) && DeleteAccountRow !in db.failing
      ensures o.Fail? ==> o.error == if SelectAccountRow in db.failing || id !in old(db.accounts) then AccountNotFound
                                     else StoreFailure(DeleteAccountRow)
      ensures o.Pass? ==> (db.accounts.Keys == old(db.accounts).Keys - {id} &&
                           forall k :: k in db.accounts ==> db.accounts[k] == old(db.accounts)[k])
    {
      o := db.DeleteAccount(id);
      if o.Fail? && o.error == AccountNotFound {
        return Fail(AccountNotFound);
      }
    }

    /** Overwrites the balance and currency of account `id`; identifier,
        password and email stay, and no other account changes. */
    method UpdateBalance(id: nat, balance: real, currency: string) returns (o: Outcome)
      requires db.Valid()
      modifies db`accounts
      ensures db.Valid()
      ensures o.Fail? ==> db.accounts == old(db.accounts)
      ensures o == Pass <==> SelectAccountRow !in db.failing && id in old(db.accounts) && UpdateAccountRow !in db.failing
      ensures o.Fail? ==> o.error == if SelectAccountRow in db.failing || id !in old(db.accounts) then AccountNotFound
                                     else StoreFailure(UpdateAccountRow)
      ensures o.Pass? ==>
        var a := old(db.accounts)[id];
        db.accounts == old(db.accounts)[id := Account(a.id, currency, balance, a.password, a.email)]
    {
      o := db.UpdateAccount(id, balance, currency);
      if o.Fail? && o.error == AccountNotFound {
        return Fail(AccountNotFound);
      }
    }
  }
}
