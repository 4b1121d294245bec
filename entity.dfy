/** The records the services read and write. */
module Entities {

  /** The three status values a transaction row carries: "created" (pending),
      "success" and "error". */
  datatype Status = StatusCreated | StatusSuccess | StatusError

  /** A registered account. */
  datatype Account = Account(id: nat, currency: string, balance: real, password: string, email: string)

  /** A transaction against the account `accountId`. A zero `toAccount` marks a
      deposit into that account, a positive one a withdrawal from it. */
  datatype Transaction = Transaction(
    id: nat,
    status: Status,
    accountId: nat,
    amount: real,
    currency: string,
    toAccount: nat)
  {
    predicate IsDeposit() { toAccount == 0 }
  }

  /** The identifier, currency and balance of an account: what settlement reads
      from the account table, and the shape of the frozen-balance answer. */
  datatype AccountDto = AccountDto(id: nat, currency: string, balance: real)
}
