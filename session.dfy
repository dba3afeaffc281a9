/**
 * The ledger database as the request handlers see it: three tables and
 * their id counters, updated in place, one request at a time. Each request
 * is one atomic transition: it either commits exactly the state the
 * corresponding transition of `Crud` describes, or is rejected and changes
 * nothing.
 */
module Session {
  import opened Wrappers
  import opened Models
  import opened LedgerState
  import opened Crud
  import opened CrudProperties

  class Ledger {
    var users: seq<User>
    var accounts: seq<Account>
    var transactions: seq<Transaction>
    var nextUserId: int
    var nextAccountId: int
    var nextTransactionId: int

    /** The tables and counters as one value. */
    function State(): Db
      reads this
    {
      Db(users, accounts, transactions, nextUserId, nextAccountId, nextTransactionId)
    }

    ghost predicate Valid()
      reads this
    {
      LedgerState.Valid(State())
    }

    /** An empty database. */
    constructor ()
      ensures Valid() && State() == Empty()
    {
      users, accounts, transactions := [], [], [];
      nextUserId, nextAccountId, nextTransactionId := 1, 1, 1;
    }

    /**
     * Inserts the user, which takes the next user id, then its account in
     * KES with a zero balance. A duplicate e-mail address is refused and
     * nothing is inserted.
     */
    method CreateUser(name: string, email: Option<string>, now: int) returns (r: Result<User, LedgerError>)
      requires Valid() && |name| >= 1
      modifies this
      ensures Valid()
      ensures var o := Crud.CreateUser(old(State()), name, email, now); State() == o.db && r == o.result
      ensures r.Err? ==> State() == old(State())
    {
      if email.Some? && EmailInUse(users, email.value) {
        return Err(EmailTaken);
      }
      var user := User(nextUserId, name, email, now);
      users := users + [user];
      nextUserId := nextUserId + 1;
      var account := Account(nextAccountId, user.id, DefaultCurrency, 0, now);
      accounts := accounts + [account];
      nextAccountId := nextAccountId + 1;
      r := Ok(user);
      assert State() == Crud.CreateUser(old(State()), name, email, now).db;
      CreateUserPreservesValid(old(State()), name, email, now);
    }

    /**
     * Looks up the user's account, checks the amount, logs a PENDING
     * DEPOSIT, credits the account and marks the transaction SUCCESS.
     */
    method Deposit(userId: int, amountCents: int, description: Option<string>, now: int)
      returns (r: Result<Transaction, LedgerError>)
      requires Valid()
      modifies this
      ensures Valid()
      ensures var o := Crud.Deposit(old(State()), userId, amountCents, description, now);
              State() == o.db && r == o.result
      ensures r.Err? ==> State() == old(State())
    {
      var index := PrimaryAccountIndex(accounts, userId);
      if index.None? {
        return Err(UserNotFound);
      }
      if amountCents <= 0 {
        return Err(AmountNotPositive);
      }
      var k := index.value;
      var tx := Transaction(nextTransactionId, DEPOSIT, PENDING, amountCents, None, Some(accounts[k].id), now, description);
      transactions := transactions + [tx];
      nextTransactionId := nextTransactionId + 1;
      accounts := accounts[k := accounts[k].(balanceCents := accounts[k].balanceCents + amountCents)];
      tx := tx.(status := SUCCESS);
      transactions := transactions[|transactions| - 1 := tx];
      r := Ok(tx);
      assert State() == Crud.Deposit(old(State()), userId, amountCents, description, now).db;
      DepositPreservesValid(old(State()), userId, amountCents, description, now);
    }

    /**
     * Refuses a transfer to oneself, looks up both accounts, checks the
     * amount and the sender's balance, logs a PENDING TRANSFER, debits the
     * sender, credits the recipient and marks the transaction SUCCESS.
     */
    method Transfer(fromUserId: int, toUserId: int, amountCents: int, description: Option<string>, now: int)
      returns (r: Result<Transaction, LedgerError>)
      requires Valid()
      modifies this
      ensures Valid()
      ensures var o := Crud.Transfer(old(State()), fromUserId, toUserId, amountCents, description, now);
              State() == o.db && r == o.result
      ensures r.Err? ==> State() == old(State())
    {
      if fromUserId == toUserId {
        return Err(SameUser);
      }
      var fromIndex := PrimaryAccountIndex(accounts, fromUserId);
      var toIndex := PrimaryAccountIndex(accounts, toUserId);
      if fromIndex.None? || toIndex.None? {
        return Err(UsersNotFound);
      }
      if amountCents <= 0 {
        return Err(AmountNotPositive);
      }
      var i, j := fromIndex.value, toIndex.value;
      if accounts[i].balanceCents < amountCents {
        return Err(InsufficientBalance);
      }
      ghost var before := State();
      var tx := Transaction(nextTransactionId, TRANSFER, PENDING, amountCents,
                            Some(accounts[i].id), Some(accounts[j].id), now, description);
      transactions := transactions + [tx];
      nextTransactionId := nextTransactionId + 1;
      accounts := accounts[i := accounts[i].(balanceCents := accounts[i].balanceCents - amountCents)];
      accounts := accounts[j := accounts[j].(balanceCents := accounts[j].balanceCents + amountCents)];
      tx := tx.(status := SUCCESS);
      transactions := transactions[|transactions| - 1 := tx];
      r := Ok(tx);
      assert transactions == before.transactions + [tx];
      assert State() == Crud.Transfer(before, fromUserId, toUserId, amountCents, description, now).db;
      TransferPreservesValid(old(State()), fromUserId, toUserId, amountCents, description, now);
    }

    /**
     * Looks up the user's account, checks the amount and the balance, logs a
     * PENDING WITHDRAW, debits the account and marks the transaction SUCCESS.
     */
    method Withdraw(userId: int, amountCents: int, description: Option<string>, now: int)
      returns (r: Result<Transaction, LedgerError>)
      requires Valid()
      modifies this
      ensures Valid()
      ensures var o := Crud.Withdraw(old(State()), userId, amountCents, description, now);
              State() == o.db && r == o.result
      ensures r.Err? ==> State() == old(State())
    {
      var index := PrimaryAccountIndex(accounts, userId);
      if index.None? {
        return Err(UserNotFound);
      }
      if amountCents <= 0 {
        return Err(AmountNotPositive);
      }
      var k := index.value;
      if accounts[k].balanceCents < amountCents {
        return Err(InsufficientBalance);
      }
      var tx := Transaction(nextTransactionId, WITHDRAW, PENDING, amountCents, Some(accounts[k].id), None, now, description);
      transactions := transactions + [tx];
      nextTransactionId := nextTransactionId + 1;
      accounts := accounts[k := accounts[k].(balanceCents := accounts[k].balanceCents - amountCents)];
      tx := tx.(status := SUCCESS);
      transactions := transactions[|transactions| - 1 := tx];
      r := Ok(tx);
      assert State() == Crud.Withdraw(old(State()), userId, amountCents, description, now).db;
      WithdrawPreservesValid(old(State()), userId, amountCents, description, now);
    }
  }
}
