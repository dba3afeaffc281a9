/**
 * The ledger operations: opening a user with its account, deposits,
 * transfers and withdrawals as state transitions of the database, and the
 * read-side queries over it. Each transition either commits a new state or
 * is rejected with the reason the ledger reports, leaving the state as it was.
 */
module Crud {
  import opened Wrappers
  import opened Models
  import opened Schemas
  import opened Ordering
  import opened LedgerState

  /** The reasons the ledger rejects a request. */
  datatype LedgerError =
    | UserNotFound
    | UsersNotFound
    | SameUser
    | AmountNotPositive
    | InsufficientBalance
    | EmailTaken

  /** The message the ledger reports for each rejection. */
  function Message(e: LedgerError): string {
    match e
    case UserNotFound => "User not found"
    case UsersNotFound => "One or both users not found"
    case SameUser => "Cannot transfer to the same user"
    case AmountNotPositive => "Amount must be positive"
    case InsufficientBalance => "Insufficient balance"
    case EmailTaken => "Email already registered"
  }

  /** Each rejection reports its own text, so a caller can tell the reasons apart by message alone. */
  lemma MessagesDistinct(e: LedgerError, e': LedgerError)
    ensures Message(e) == Message(e') <==> e == e'
  {
  }

  /** The state after a request together with what it returned. */
  datatype Outcome<+T> = Outcome(db: Db, result: Result<T, LedgerError>)

  /** Whether some account belongs to user `userId`. */
  ghost predicate Registered(db: Db, userId: int) {
    exists i :: 0 <= i < |db.accounts| && db.accounts[i].userId == userId
  }

  /** The position of the first account that belongs to user `userId`, if any. */
  function PrimaryAccountIndex(accounts: seq<Account>, userId: int): (r: Option<nat>)
    ensures r.Some? ==> r.value < |accounts| && accounts[r.value].userId == userId
    ensures r.Some? ==> forall j :: 0 <= j < r.value ==> accounts[j].userId != userId
    ensures r.None? ==> forall j :: 0 <= j < |accounts| ==> accounts[j].userId != userId
  {
    if |accounts| == 0 then None
    else if accounts[0].userId == userId then Some(0)
    else
      match PrimaryAccountIndex(accounts[1..], userId)
      case None => None
      case Some(i) => Some(i + 1)
  }

  /** The first account of user `userId`, or nothing when the user has none. */
  function PrimaryAccount(db: Db, userId: int): (r: Option<Account>)
    ensures r.None? <==> !Registered(db, userId)
    ensures r.Some? ==> r.value in db.accounts && r.value.userId == userId
  {
    match PrimaryAccountIndex(db.accounts, userId)
    case None => None
    case Some(k) => Some(db.accounts[k])
  }

  /** Whether a user already registered address `email`. */
  predicate EmailInUse(users: seq<User>, email: string) {
    exists i :: 0 <= i < |users| && users[i].email == Some(email)
  }

  /**
   * Opens a user and, with it, one account in KES with a zero balance.
   * A user whose e-mail address is already registered is refused by the
   * table's uniqueness constraint.
   */
  function CreateUser(db: Db, name: string, email: Option<string>, now: int): (r: Outcome<User>)
    requires |name| >= 1
    ensures r.result.Err? <==> email.Some? && EmailInUse(db.users, email.value)
    ensures r.result.Err? ==> r.result.error == EmailTaken && r.db == db
    ensures r.result.Ok? ==> r.result.value.name == name && r.result.value.email == email
  {
    if email.Some? && EmailInUse(db.users, email.value) then Outcome(db, Err(EmailTaken))
    else
      var user := User(db.nextUserId, name, email, now);
      var account := Account(db.nextAccountId, user.id, DefaultCurrency, 0, now);
      var db' := db.(users := db.users + [user],
                     accounts := db.accounts + [account],
                     nextUserId := db.nextUserId + 1,
                     nextAccountId := db.nextAccountId + 1);
      Outcome(db', Ok(user))
  }

  /** Credits `amountCents` to the account of `userId` and logs a successful DEPOSIT. */
  function Deposit(db: Db, userId: int, amountCents: int, description: Option<string>, now: int): (r: Outcome<Transaction>)
    ensures r.result == Err(UserNotFound) <==> !Registered(db, userId)
    ensures r.result == Err(AmountNotPositive) <==> Registered(db, userId) && amountCents <= 0
    ensures r.result.Ok? <==> Registered(db, userId) && amountCents > 0
    ensures r.result.Err? ==> r.db == db
    ensures r.result.Ok? ==>
              var tx := r.result.value;
              && r.db.users == db.users
              && r.db.transactions == db.transactions + [tx]
              && tx.id == db.nextTransactionId
              && tx.kind == DEPOSIT && tx.status == SUCCESS && tx.amountCents == amountCents
              && tx.fromAccount == None && tx.toAccount == Some(PrimaryAccount(db, userId).value.id)
              && tx.createdAt == now && tx.description == description
  {
    match PrimaryAccountIndex(db.accounts, userId)
    case None => Outcome(db, Err(UserNotFound))
    case Some(k) =>
      if amountCents <= 0 then Outcome(db, Err(AmountNotPositive))
      else
        var account := db.accounts[k];
        var tx := Transaction(db.nextTransactionId, DEPOSIT, SUCCESS, amountCents, None, Some(account.id), now, description);
        var db' := db.(accounts := db.accounts[k := account.(balanceCents := account.balanceCents + amountCents)],
                       transactions := db.transactions + [tx],
                       nextTransactionId := db.nextTransactionId + 1);
        Outcome(db', Ok(tx))
  }

  /**
   * Moves `amountCents` from the account of `fromUserId` to that of
   * `toUserId` and logs a successful TRANSFER. The checks are made in this
   * order: the same user on both sides, a missing account on either side, a
   * non-positive amount, a balance below the amount.
   */
  function Transfer(db: Db, fromUserId: int, toUserId: int, amountCents: int, description: Option<string>, now: int)
    : (r: Outcome<Transaction>)
    ensures r.result == Err(SameUser) <==> fromUserId == toUserId
    ensures r.result == Err(UsersNotFound) <==>
              fromUserId != toUserId && (!Registered(db, fromUserId) || !Registered(db, toUserId))
    ensures r.result == Err(AmountNotPositive) <==>
              fromUserId != toUserId && Registered(db, fromUserId) && Registered(db, toUserId) && amountCents <= 0
    ensures r.result == Err(InsufficientBalance) <==>
              && fromUserId != toUserId && Registered(db, toUserId) && amountCents > 0
              && PrimaryAccount(db, fromUserId).Some? && PrimaryAccount(db, fromUserId).value.balanceCents < amountCents
    ensures r.result.Ok? <==>
              && fromUserId != toUserId && Registered(db, toUserId) && amountCents > 0
              && PrimaryAccount(db, fromUserId).Some? && PrimaryAccount(db, fromUserId).value.balanceCents >= amountCents
    ensures r.result.Err? ==> r.db == db
    ensures r.result.Ok? ==>
              var tx := r.result.value;
              && r.db.users == db.users
              && r.db.transactions == db.transactions + [tx]
              && tx.kind == TRANSFER && tx.status == SUCCESS && tx.amountCents == amountCents
              && tx.fromAccount == Some(PrimaryAccount(db, fromUserId).value.id)
              && tx.toAccount == Some(PrimaryAccount(db, toUserId).value.id)
              && tx.createdAt == now && tx.description == description
  {
    if fromUserId == toUserId then Outcome(db, Err(SameUser))
    else
      var fromIndex, toIndex := PrimaryAccountIndex(db.accounts, fromUserId), PrimaryAccountIndex(db.accounts, toUserId);
      if fromIndex.None? || toIndex.None? then Outcome(db, Err(UsersNotFound))
      else if amountCents <= 0 then Outcome(db, Err(AmountNotPositive))
      else
        var i, j := fromIndex.value, toIndex.value;
        var source, target := db.accounts[i], db.accounts[j];
        if source.balanceCents < amountCents then Outcome(db, Err(InsufficientBalance))
        else
          var tx := Transaction(db.nextTransactionId, TRANSFER, SUCCESS, amountCents,
                                Some(source.id), Some(target.id), now, description);
          var accounts' := db.accounts[i := source.(balanceCents := source.balanceCents - amountCents)]
                                      [j := target.(balanceCents := target.balanceCents + amountCents)];
          var db' := db.(accounts := accounts',
                         transactions := db.transactions + [tx],
                         nextTransactionId := db.nextTransactionId + 1);
          Outcome(db', Ok(tx))
  }

  /**
   * Debits `amountCents` from the account of `userId` and logs a successful
   * WITHDRAW, unless the user has no account, the amount is not positive or
   * the balance is below it.
   */
  function Withdraw(db: Db, userId: int, amountCents: int, description: Option<string>, now: int): (r: Outcome<Transaction>)
    ensures r.result == Err(UserNotFound) <==> !Registered(db, userId)
    ensures r.result == Err(AmountNotPositive) <==> Registered(db, userId) && amountCents <= 0
    ensures r.result == Err(InsufficientBalance) <==>
              amountCents > 0 && PrimaryAccount(db, userId).Some? && PrimaryAccount(db, userId).value.balanceCents < amountCents
    ensures r.result.Ok? <==>
              amountCents > 0 && PrimaryAccount(db, userId).Some? && PrimaryAccount(db, userId).value.balanceCents >= amountCents
    ensures r.result.Err? ==> r.db == db
    ensures r.result.Ok? ==>
              var tx := r.result.value;
              && r.db.users == db.users
              && r.db.transactions == db.transactions + [tx]
              && tx.id == db.nextTransactionId
              && tx.kind == WITHDRAW && tx.status == SUCCESS && tx.amountCents == amountCents
              && tx.fromAccount == Some(PrimaryAccount(db, userId).value.id) && tx.toAccount == None
              && tx.createdAt == now && tx.description == description
  {
    match PrimaryAccountIndex(db.accounts, userId)
    case None => Outcome(db, Err(UserNotFound))
    case Some(k) =>
      if amountCents <= 0 then Outcome(db, Err(AmountNotPositive))
      else
        var account := db.accounts[k];
        if account.balanceCents < amountCents then Outcome(db, Err(InsufficientBalance))
        else
          var tx := Transaction(db.nextTransactionId, WITHDRAW, SUCCESS, amountCents, Some(account.id), None, now, description);
          var db' := db.(accounts := db.accounts[k := account.(balanceCents := account.balanceCents - amountCents)],
                         transactions := db.transactions + [tx],
                         nextTransactionId := db.nextTransactionId + 1);
          Outcome(db', Ok(tx))
  }

  /** The balance and currency of the account of `userId`. */
  function GetBalance(db: Db, userId: int): (r: Result<BalanceResponse, LedgerError>)
    ensures r.Err? <==> !Registered(db, userId)
    ensures r.Err? ==> r.error == UserNotFound
    ensures r.Ok? ==> PrimaryAccount(db, userId).Some?
    ensures r.Ok? ==> var a := PrimaryAccount(db, userId).value;
              r.value == BalanceResponse(userId, a.balanceCents, a.currency)
  {
    match PrimaryAccountIndex(db.accounts, userId)
    case None => Err(UserNotFound)
    case Some(k) => Ok(BalanceResponse(userId, db.accounts[k].balanceCents, db.accounts[k].currency))
  }

  /** The transactions of `log` that credit or debit account `accountId`, in log order. */
  function Touching(log: seq<Transaction>, accountId: int): (r: seq<Transaction>)
    ensures forall t :: multiset(r)[t] == if Involves(t, accountId) then multiset(log)[t] else 0
  {
    if |log| == 0 then []
    else
      assert log == log[..|log| - 1] + [log[|log| - 1]];
      Touching(log[..|log| - 1], accountId) + (if Involves(log[|log| - 1], accountId) then [log[|log| - 1]] else [])
  }

  lemma {:induction false} TouchingAppend(log: seq<Transaction>, t: Transaction, accountId: int)
    ensures Touching(log + [t], accountId) == Touching(log, accountId) + (if Involves(t, accountId) then [t] else [])
  {
    assert (log + [t])[..|log|] == log;
  }

  /** No transaction of a log that never mentions an account concerns it. */
  lemma {:induction false} TouchingUnmentioned(log: seq<Transaction>, accountId: int)
    requires forall i :: 0 <= i < |log| ==> !Involves(log[i], accountId)
    ensures Touching(log, accountId) == []
  {
    if |log| > 0 {
      TouchingUnmentioned(log[..|log| - 1], accountId);
    }
  }

  /**
   * The history of `userId`: every transaction that credits or debits the
   * user's account, each exactly once, newest first.
   */
  function TransactionsForUser(db: Db, userId: int): (r: Result<seq<Transaction>, LedgerError>)
    ensures r.Err? <==> !Registered(db, userId)
    ensures r.Err? ==> r.error == UserNotFound
    ensures r.Ok? ==> PrimaryAccount(db, userId).Some? && NewestFirst(r.value)
    ensures r.Ok? ==>
              forall t :: multiset(r.value)[t]
                       == if Involves(t, PrimaryAccount(db, userId).value.id) then multiset(db.transactions)[t] else 0
  {
    match PrimaryAccountIndex(db.accounts, userId)
    case None => Err(UserNotFound)
    case Some(k) => Ok(SortNewestFirst(Touching(db.transactions, db.accounts[k].id)))
  }

  /**
   * System-wide figures: users, the value held in all accounts, and how many
   * transfers and withdrawals were logged.
   */
  function GetSummaryStats(db: Db): (r: SummaryStats)
    ensures r.totalUsers == |db.users| && r.currency == DefaultCurrency
    ensures r.totalTransfers + r.totalWithdrawals <= |db.transactions|
    ensures r.totalValueCents == TotalBalance(db.accounts)
  {
    CountsPartitionLog(db.transactions);
    SummaryStats(|db.users|, TotalBalance(db.accounts),
                 CountOfType(db.transactions, TRANSFER), CountOfType(db.transactions, WITHDRAW), DefaultCurrency)
  }

  /** The number of rows the recent-activity query returns when its caller names no limit. */
  const DefaultActivityLimit: nat := 10

  /** At most `limit` transactions of the whole log, the newest ones, newest first. */
  function GetRecentActivity(db: Db, limit: nat): (r: seq<Transaction>)
    ensures |r| == if limit < |db.transactions| then limit else |db.transactions|
    ensures NewestFirst(r)
    ensures multiset(r) <= multiset(db.transactions)
    ensures forall t :: t in multiset(db.transactions) - multiset(r) ==>
              forall i :: 0 <= i < |r| ==> t.createdAt <= r[i].createdAt
  {
    var sorted := SortNewestFirst(db.transactions);
    var k := if limit < |sorted| then limit else |sorted|;
    LatestPrefix(sorted, k);
    sorted[..k]
  }
}
