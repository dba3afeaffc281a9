/**
 * The state of the ledger database as one value, the invariant every
 * committed state satisfies, and the sums and counts the queries report.
 */
module LedgerState {
  import opened Wrappers
  import opened Models

  /**
   * The three tables and the next id each auto-incrementing primary key
   * hands out. Ids start at 1.
   */
  datatype Db = Db(
    users: seq<User>,
    accounts: seq<Account>,
    transactions: seq<Transaction>,
    nextUserId: int,
    nextAccountId: int,
    nextTransactionId: int)

  /** A database with no rows. */
  function Empty(): (db: Db)
    ensures Valid(db)
    ensures db.users == [] && db.accounts == [] && db.transactions == []
    ensures db.nextUserId == db.nextAccountId == db.nextTransactionId == 1
  {
    Db([], [], [], 1, 1, 1)
  }

  /** What a transaction adds to (positive) or takes from (negative) account `accountId`. */
  function Effect(t: Transaction, accountId: int): int {
    if t.status != SUCCESS then 0
    else
      (if t.toAccount == Some(accountId) then t.amountCents else 0)
      - (if t.fromAccount == Some(accountId) then t.amountCents else 0)
  }

  /** The net amount the successful transactions of `log` moved into account `accountId`. */
  function NetFlow(log: seq<Transaction>, accountId: int): int {
    if |log| == 0 then 0
    else NetFlow(log[..|log| - 1], accountId) + Effect(log[|log| - 1], accountId)
  }

  /** The sum of all account balances. */
  function TotalBalance(accounts: seq<Account>): int {
    if |accounts| == 0 then 0
    else TotalBalance(accounts[..|accounts| - 1]) + accounts[|accounts| - 1].balanceCents
  }

  /** The total amount of the successful transactions of type `kind`. */
  function AmountOfType(log: seq<Transaction>, kind: TransactionType): int {
    if |log| == 0 then 0
    else
      var t := log[|log| - 1];
      AmountOfType(log[..|log| - 1], kind) + (if t.kind == kind && t.status == SUCCESS then t.amountCents else 0)
  }

  /** The number of transactions of type `kind`, whatever their status. */
  function CountOfType(log: seq<Transaction>, kind: TransactionType): nat {
    if |log| == 0 then 0
    else CountOfType(log[..|log| - 1], kind) + (if log[|log| - 1].kind == kind then 1 else 0)
  }

  /** The positions of the rows of `log` of type `kind`. */
  ghost function RowsOfType(log: seq<Transaction>, kind: TransactionType): set<nat> {
    set i: nat | i < |log| && log[i].kind == kind
  }

  /** `CountOfType` is the number of rows of that type. */
  lemma {:induction false} CountOfTypeCountsRows(log: seq<Transaction>, kind: TransactionType)
    ensures CountOfType(log, kind) == |RowsOfType(log, kind)|
  {
    if |log| > 0 {
      var n := |log| - 1;
      CountOfTypeCountsRows(log[..n], kind);
      assert RowsOfType(log, kind) == RowsOfType(log[..n], kind) + (if log[n].kind == kind then {n} else {});
    }
  }

  /** Whether `id` may name an account that exists or has existed. */
  predicate IsAccountId(id: int, nextAccountId: int) {
    1 <= id < nextAccountId
  }

  /**
   * A committed log row: successful, for a positive amount, and with the
   * account ends its type calls for (a deposit only credits, a withdrawal
   * only debits, a transfer moves money between two different accounts).
   */
  predicate Committed(t: Transaction, nextAccountId: int) {
    && t.status == SUCCESS
    && t.amountCents > 0
    && 1 <= t.id
    && match t.kind
       case DEPOSIT =>
         t.fromAccount.None? && t.toAccount.Some? && IsAccountId(t.toAccount.value, nextAccountId)
       case TRANSFER =>
         && t.fromAccount.Some? && t.toAccount.Some? && t.fromAccount != t.toAccount
         && IsAccountId(t.fromAccount.value, nextAccountId) && IsAccountId(t.toAccount.value, nextAccountId)
       case WITHDRAW =>
         t.fromAccount.Some? && t.toAccount.None? && IsAccountId(t.fromAccount.value, nextAccountId)
  }

  /**
   * The `i`th user and the `i`th account belong together: every user owns
   * exactly the account opened with it, in KES, whose balance is never
   * negative and is exactly what the log moved into it.
   */
  ghost predicate UserAccountValid(db: Db, i: int)
    requires 0 <= i < |db.users| == |db.accounts|
  {
    var u, a := db.users[i], db.accounts[i];
    && 1 <= u.id < db.nextUserId
    && a.userId == u.id
    && a.currency == DefaultCurrency
    && IsAccountId(a.id, db.nextAccountId)
    && a.balanceCents >= 0
    && a.balanceCents == NetFlow(db.transactions, a.id)
  }

  /** The invariant of every committed database state. */
  ghost predicate Valid(db: Db) {
    && 1 <= db.nextUserId && 1 <= db.nextAccountId && 1 <= db.nextTransactionId
    && |db.users| == |db.accounts|
    && (forall i, j :: 0 <= i < j < |db.users| ==> db.users[i].id < db.users[j].id)
    && (forall i, j :: 0 <= i < j < |db.accounts| ==> db.accounts[i].id < db.accounts[j].id)
    && (forall i, j :: 0 <= i < j < |db.transactions| ==> db.transactions[i].id < db.transactions[j].id)
    && (forall i, j :: 0 <= i < j < |db.users| && db.users[i].email.Some? ==> db.users[i].email != db.users[j].email)
    && (forall i :: 0 <= i < |db.users| ==> UserAccountValid(db, i))
    && (forall i :: 0 <= i < |db.transactions| ==>
          Committed(db.transactions[i], db.nextAccountId) && db.transactions[i].id < db.nextTransactionId)
    && TotalBalance(db.accounts) == AmountOfType(db.transactions, DEPOSIT) - AmountOfType(db.transactions, WITHDRAW)
  }

  lemma {:induction false} NetFlowAppend(log: seq<Transaction>, t: Transaction, accountId: int)
    ensures NetFlow(log + [t], accountId) == NetFlow(log, accountId) + Effect(t, accountId)
  {
    assert (log + [t])[..|log|] == log;
  }

  lemma {:induction false} AmountOfTypeAppend(log: seq<Transaction>, t: Transaction, kind: TransactionType)
    ensures AmountOfType(log + [t], kind)
         == AmountOfType(log, kind) + (if t.kind == kind && t.status == SUCCESS then t.amountCents else 0)
  {
    assert (log + [t])[..|log|] == log;
  }

  lemma {:induction false} CountOfTypeAppend(log: seq<Transaction>, t: Transaction, kind: TransactionType)
    ensures CountOfType(log + [t], kind) == CountOfType(log, kind) + (if t.kind == kind then 1 else 0)
  {
    assert (log + [t])[..|log|] == log;
  }

  lemma {:induction false} TotalBalanceAppend(accounts: seq<Account>, a: Account)
    ensures TotalBalance(accounts + [a]) == TotalBalance(accounts) + a.balanceCents
  {
    assert (accounts + [a])[..|accounts|] == accounts;
  }

  /** Replacing one account changes the total by the difference of the two balances. */
  lemma {:induction false} TotalBalanceUpdate(accounts: seq<Account>, k: nat, a: Account)
    requires k < |accounts|
    ensures TotalBalance(accounts[k := a]) == TotalBalance(accounts) - accounts[k].balanceCents + a.balanceCents
  {
    var n := |accounts|;
    if k < n - 1 {
      assert accounts[k := a][..n - 1] == accounts[..n - 1][k := a];
      TotalBalanceUpdate(accounts[..n - 1], k, a);
    } else {
      assert accounts[k := a][..n - 1] == accounts[..n - 1];
    }
  }

  /** An account id the log never mentions has seen no money move. */
  lemma {:induction false} NetFlowUnmentioned(log: seq<Transaction>, accountId: int)
    requires forall i :: 0 <= i < |log| ==> !Involves(log[i], accountId)
    ensures NetFlow(log, accountId) == 0
  {
    if |log| > 0 {
      NetFlowUnmentioned(log[..|log| - 1], accountId);
    }
  }

  /** Every transaction has exactly one of the three types. */
  lemma {:induction false} CountsPartitionLog(log: seq<Transaction>)
    ensures CountOfType(log, DEPOSIT) + CountOfType(log, TRANSFER) + CountOfType(log, WITHDRAW) == |log|
  {
    if |log| > 0 {
      CountsPartitionLog(log[..|log| - 1]);
    }
  }

  /** With no negative balance, the total is not negative either. */
  lemma {:induction false} TotalBalanceNonNegative(accounts: seq<Account>)
    ensures (forall i :: 0 <= i < |accounts| ==> accounts[i].balanceCents >= 0) ==> TotalBalance(accounts) >= 0
  {
    if |accounts| > 0 {
      TotalBalanceNonNegative(accounts[..|accounts| - 1]);
    }
  }

  /** The facts the invariant keeps about the `k`th account. */
  lemma AccountFacts(db: Db, k: int)
    requires Valid(db) && 0 <= k < |db.accounts|
    ensures db.accounts[k].userId == db.users[k].id
    ensures db.accounts[k].currency == DefaultCurrency
    ensures IsAccountId(db.accounts[k].id, db.nextAccountId)
    ensures 0 <= db.accounts[k].balanceCents == NetFlow(db.transactions, db.accounts[k].id)
    ensures forall i :: 0 <= i < |db.accounts| && i != k ==>
              db.accounts[i].userId != db.accounts[k].userId && db.accounts[i].id != db.accounts[k].id
  {
    assert UserAccountValid(db, k);
    forall i | 0 <= i < |db.accounts| && i != k
      ensures db.accounts[i].userId != db.accounts[k].userId && db.accounts[i].id != db.accounts[k].id
    {
      assert UserAccountValid(db, i);
    }
  }

  /** The database after posting transaction `t`, with the accounts it touched replaced by `accounts'`. */
  function Post(db: Db, accounts': seq<Account>, t: Transaction): Db {
    db.(accounts := accounts', transactions := db.transactions + [t], nextTransactionId := db.nextTransactionId + 1)
  }

  /** How a transaction changes the value held in all accounts together. */
  function ValueChange(t: Transaction): int {
    match t.kind
    case DEPOSIT => t.amountCents
    case TRANSFER => 0
    case WITHDRAW => -t.amountCents
  }

  /**
   * Posting a committed transaction keeps the invariant, provided every
   * account changes by exactly the transaction's effect on it, none goes
   * negative, and the total changes by what the transaction brings in or
   * takes out.
   */
  lemma {:induction false} PostPreservesValid(db: Db, accounts': seq<Account>, t: Transaction)
    requires Valid(db)
    requires Committed(t, db.nextAccountId) && t.id == db.nextTransactionId
    requires |accounts'| == |db.accounts|
    requires forall i :: 0 <= i < |accounts'| ==>
               accounts'[i] == db.accounts[i].(balanceCents := db.accounts[i].balanceCents + Effect(t, db.accounts[i].id))
    requires forall i :: 0 <= i < |accounts'| ==> accounts'[i].balanceCents >= 0
    requires TotalBalance(accounts') == TotalBalance(db.accounts) + ValueChange(t)
    ensures Valid(Post(db, accounts', t))
  {
    var db' := Post(db, accounts', t);
    forall i | 0 <= i < |db'.users| ensures UserAccountValid(db', i) {
      assert UserAccountValid(db, i);
      NetFlowAppend(db.transactions, t, db.accounts[i].id);
    }
    forall i | 0 <= i < |db'.transactions|
      ensures Committed(db'.transactions[i], db'.nextAccountId) && db'.transactions[i].id < db'.nextTransactionId
    {
      if i < |db.transactions| {
        assert db'.transactions[i] == db.transactions[i];
      }
    }
    AmountOfTypeAppend(db.transactions, t, DEPOSIT);
    AmountOfTypeAppend(db.transactions, t, WITHDRAW);
  }

  /** The invariant keeps every balance non-negative. */
  lemma BalancesNonNegative(db: Db)
    requires Valid(db)
    ensures forall i :: 0 <= i < |db.accounts| ==> db.accounts[i].balanceCents >= 0
  {
    forall i | 0 <= i < |db.accounts| ensures db.accounts[i].balanceCents >= 0 {
      assert UserAccountValid(db, i);
    }
  }

  /** A transaction posted against existing accounts stays valid when later accounts are opened. */
  lemma CommittedGrows(t: Transaction, n: int, n': int)
    requires Committed(t, n) && n <= n'
    ensures Committed(t, n')
  {
  }

  /** The accounts after `amountCents` is added to the balance of the `k`th. */
  function Credit(accounts: seq<Account>, k: nat, amountCents: int): (r: seq<Account>)
    requires k < |accounts|
    ensures |r| == |accounts|
  {
    accounts[k := accounts[k].(balanceCents := accounts[k].balanceCents + amountCents)]
  }

  /** Posting a DEPOSIT into the `k`th account and crediting it keeps the invariant. */
  lemma DepositPostingValid(db: Db, k: nat, t: Transaction)
    requires Valid(db) && k < |db.accounts|
    requires t.id == db.nextTransactionId && t.kind == DEPOSIT && t.status == SUCCESS && t.amountCents > 0
    requires t.fromAccount == None && t.toAccount == Some(db.accounts[k].id)
    ensures Valid(Post(db, Credit(db.accounts, k, t.amountCents), t))
  {
    var accounts' := Credit(db.accounts, k, t.amountCents);
    AccountFacts(db, k);
    BalancesNonNegative(db);
    TotalBalanceUpdate(db.accounts, k, accounts'[k]);
    PostPreservesValid(db, accounts', t);
  }

  /** Posting a WITHDRAW from the `k`th account, which holds enough, and debiting it keeps the invariant. */
  lemma WithdrawPostingValid(db: Db, k: nat, t: Transaction)
    requires Valid(db) && k < |db.accounts|
    requires t.id == db.nextTransactionId && t.kind == WITHDRAW && t.status == SUCCESS && t.amountCents > 0
    requires t.fromAccount == Some(db.accounts[k].id) && t.toAccount == None
    requires db.accounts[k].balanceCents >= t.amountCents
    ensures Valid(Post(db, Credit(db.accounts, k, -t.amountCents), t))
  {
    var accounts' := Credit(db.accounts, k, -t.amountCents);
    AccountFacts(db, k);
    BalancesNonNegative(db);
    TotalBalanceUpdate(db.accounts, k, accounts'[k]);
    PostPreservesValid(db, accounts', t);
  }

  /**
   * Posting a TRANSFER from the `i`th account, which holds enough, to a
   * different `j`th account, debiting one and crediting the other, keeps the
   * invariant.
   */
  lemma TransferPostingValid(db: Db, i: nat, j: nat, t: Transaction)
    requires Valid(db) && i < |db.accounts| && j < |db.accounts| && i != j
    requires t.id == db.nextTransactionId && t.kind == TRANSFER && t.status == SUCCESS && t.amountCents > 0
    requires t.fromAccount == Some(db.accounts[i].id) && t.toAccount == Some(db.accounts[j].id)
    requires db.accounts[i].balanceCents >= t.amountCents
    ensures Valid(Post(db, Credit(Credit(db.accounts, i, -t.amountCents), j, t.amountCents), t))
  {
    var mid := Credit(db.accounts, i, -t.amountCents);
    var accounts' := Credit(mid, j, t.amountCents);
    AccountFacts(db, i);
    AccountFacts(db, j);
    BalancesNonNegative(db);
    forall m | 0 <= m < |accounts'|
      ensures accounts'[m] == db.accounts[m].(balanceCents := db.accounts[m].balanceCents + Effect(t, db.accounts[m].id))
    {
      if m != i && m != j {
        assert db.accounts[m].id != db.accounts[i].id && db.accounts[m].id != db.accounts[j].id;
      }
    }
    TotalBalanceUpdate(db.accounts, i, mid[i]);
    TotalBalanceUpdate(mid, j, accounts'[j]);
    PostPreservesValid(db, accounts', t);
  }

  /** The database after inserting user `u` and its account `a`, which take the next ids. */
  function Open(db: Db, u: User, a: Account): Db {
    db.(users := db.users + [u], accounts := db.accounts + [a],
        nextUserId := db.nextUserId + 1, nextAccountId := db.nextAccountId + 1)
  }

  /**
   * Inserting a user with the next user id and an e-mail address no one
   * has, with an empty KES account under the next account id, keeps the
   * invariant.
   */
  lemma OpenValid(db: Db, u: User, a: Account)
    requires Valid(db)
    requires u.id == db.nextUserId && a.id == db.nextAccountId && a.userId == u.id
    requires a.currency == DefaultCurrency && a.balanceCents == 0
    requires u.email.Some? ==> forall i :: 0 <= i < |db.users| ==> db.users[i].email != u.email
    ensures Valid(Open(db, u, a))
  {
    var db' := Open(db, u, a);
    var n := |db.users|;
    forall i | 0 <= i < |db.transactions| ensures !Involves(db.transactions[i], db.nextAccountId) {
      assert Committed(db.transactions[i], db.nextAccountId);
    }
    NetFlowUnmentioned(db.transactions, db.nextAccountId);
    forall i | 0 <= i < |db'.users| ensures UserAccountValid(db', i) {
      if i < n {
        assert UserAccountValid(db, i);
      }
    }
    forall i | 0 <= i < |db'.transactions| ensures Committed(db'.transactions[i], db'.nextAccountId) {
      CommittedGrows(db.transactions[i], db.nextAccountId, db'.nextAccountId);
    }
    forall i | 0 <= i < n ensures db'.users[i].id < db'.users[n].id && db'.accounts[i].id < db'.accounts[n].id {
      assert UserAccountValid(db, i);
    }
    TotalBalanceAppend(db.accounts, a);
  }
}
