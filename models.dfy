/**
 * The persistent entities of the ledger: users, their accounts and the
 * transaction log. Money is kept in integer cents; timestamps are the
 * instants handed to each operation by its caller.
 */
module Models {
  import opened Wrappers

  /** The only currency an account is opened in. */
  const DefaultCurrency: string := "KES"

  datatype TransactionType = DEPOSIT | TRANSFER | WITHDRAW

  datatype TransactionStatus = PENDING | SUCCESS | FAILED

  datatype User = User(id: int, name: string, email: Option<string>, createdAt: int)

  datatype Account = Account(id: int, userId: int, currency: string, balanceCents: int, createdAt: int)

  /** One row of the append-only log; `fromAccount` and `toAccount` are account ids. */
  datatype Transaction = Transaction(
    id: int,
    kind: TransactionType,
    status: TransactionStatus,
    amountCents: int,
    fromAccount: Option<int>,
    toAccount: Option<int>,
    createdAt: int,
    description: Option<string>)

  /** Whether the transaction moves money into or out of account `accountId`. */
  predicate Involves(t: Transaction, accountId: int) {
    t.fromAccount == Some(accountId) || t.toAccount == Some(accountId)
  }
}
