/**
 * What the ledger operations promise across calls: every committed request
 * keeps the invariant, moves exactly the requested amount between exactly
 * the accounts concerned, logs exactly one transaction, and changes the
 * balances, histories and system figures the queries report accordingly.
 */
module CrudProperties {
  import opened Wrappers
  import opened Models
  import opened Schemas
  import opened Ordering
  import opened LedgerState
  import opened Crud

  /** The account lookup depends only on which user owns which position. */
  lemma {:induction false} IndexFollowsOwners(s: seq<Account>, s': seq<Account>, userId: int)
    requires |s| == |s'|
    requires forall i :: 0 <= i < |s| ==> s[i].userId == s'[i].userId
    ensures PrimaryAccountIndex(s, userId) == PrimaryAccountIndex(s', userId)
  {
    if |s| > 0 && s[0].userId != userId {
      IndexFollowsOwners(s[1..], s'[1..], userId);
    }
  }

  /** Appending an account does not change the lookup of users who already own one. */
  lemma {:induction false} IndexAfterAppend(s: seq<Account>, a: Account, userId: int)
    ensures PrimaryAccountIndex(s + [a], userId)
         == if PrimaryAccountIndex(s, userId).Some? then PrimaryAccountIndex(s, userId)
            else if a.userId == userId then Some(|s|)
            else None
  {
    if |s| > 0 && s[0].userId != userId {
      assert (s + [a])[1..] == s[1..] + [a];
      IndexAfterAppend(s[1..], a, userId);
    }
  }

  /** Under the invariant a user owns at most one account, so the lookup finds the only one. */
  lemma PrimaryAccountUnique(db: Db, userId: int)
    requires Valid(db)
    ensures PrimaryAccount(db, userId).Some? ==>
              forall i :: 0 <= i < |db.accounts| && db.accounts[i].userId == userId ==>
                db.accounts[i] == PrimaryAccount(db, userId).value
  {
    var k := PrimaryAccountIndex(db.accounts, userId);
    if k.Some? {
      AccountFacts(db, k.value);
    }
  }

  /**
   * A balance the ledger reports is never negative, is in KES, and equals
   * the net amount the logged transactions moved into the user's account.
   */
  lemma BalanceIsNetFlow(db: Db, userId: int)
    requires Valid(db)
    ensures GetBalance(db, userId).Ok? ==>
              var b := GetBalance(db, userId).value;
              && b.balanceCents >= 0
              && b.currency == DefaultCurrency
              && b.balanceCents == NetFlow(db.transactions, PrimaryAccount(db, userId).value.id)
  {
    var k := PrimaryAccountIndex(db.accounts, userId);
    if k.Some? {
      AccountFacts(db, k.value);
    }
  }

  /**
   * The value held in all accounts is what was deposited minus what was
   * withdrawn, and so is never negative.
   */
  lemma SummaryValueIsNetDeposits(db: Db)
    requires Valid(db)
    ensures GetSummaryStats(db).totalValueCents
         == AmountOfType(db.transactions, DEPOSIT) - AmountOfType(db.transactions, WITHDRAW)
    ensures GetSummaryStats(db).totalValueCents >= 0
  {
    BalancesNonNegative(db);
    TotalBalanceNonNegative(db.accounts);
  }

  /** The transfer and withdrawal figures count the log rows of those types. */
  lemma SummaryCountsRows(db: Db)
    ensures GetSummaryStats(db).totalTransfers == |RowsOfType(db.transactions, TRANSFER)|
    ensures GetSummaryStats(db).totalWithdrawals == |RowsOfType(db.transactions, WITHDRAW)|
  {
    CountOfTypeCountsRows(db.transactions, TRANSFER);
    CountOfTypeCountsRows(db.transactions, WITHDRAW);
  }

  /** A successful deposit keeps the invariant. */
  lemma DepositPreservesValid(db: Db, userId: int, amountCents: int, description: Option<string>, now: int)
    requires Valid(db)
    ensures Valid(Deposit(db, userId, amountCents, description, now).db)
  {
    var r := Deposit(db, userId, amountCents, description, now);
    if r.result.Ok? {
      var k := PrimaryAccountIndex(db.accounts, userId).value;
      var tx := r.result.value;
      assert r.db == Post(db, Credit(db.accounts, k, tx.amountCents), tx);
      DepositPostingValid(db, k, tx);
    } else {
      assert r.db == db;
    }
  }

  /**
   * A successful deposit credits exactly the amount to the depositor and
   * leaves every other user's balance as it was.
   */
  lemma DepositCredits(db: Db, userId: int, amountCents: int, description: Option<string>, now: int)
    requires Deposit(db, userId, amountCents, description, now).result.Ok?
    ensures var r := Deposit(db, userId, amountCents, description, now);
            && GetBalance(db, userId).Ok? && GetBalance(r.db, userId).Ok?
            && GetBalance(r.db, userId).value.balanceCents == GetBalance(db, userId).value.balanceCents + amountCents
            && (forall u :: u != userId ==> GetBalance(r.db, u) == GetBalance(db, u))
  {
    var r := Deposit(db, userId, amountCents, description, now);
    forall u ensures PrimaryAccountIndex(r.db.accounts, u) == PrimaryAccountIndex(db.accounts, u) {
      IndexFollowsOwners(db.accounts, r.db.accounts, u);
    }
  }

  /** A transaction numbered with the next id is not yet in the log. */
  lemma FreshTransaction(db: Db, t: Transaction)
    requires Valid(db) && t.id == db.nextTransactionId
    ensures t !in db.transactions
  {
    forall i | 0 <= i < |db.transactions| ensures db.transactions[i].id < t.id { }
  }

  /**
   * A posting that keeps every account's id and owner leaves the history of
   * a user whose account it does not concern exactly as it was.
   */
  lemma HistoryUnaffected(db: Db, accounts': seq<Account>, t: Transaction, userId: int)
    requires |accounts'| == |db.accounts|
    requires forall i :: 0 <= i < |accounts'| ==> accounts'[i].id == db.accounts[i].id && accounts'[i].userId == db.accounts[i].userId
    requires PrimaryAccount(db, userId).Some? ==> !Involves(t, PrimaryAccount(db, userId).value.id)
    ensures TransactionsForUser(Post(db, accounts', t), userId) == TransactionsForUser(db, userId)
  {
    var db' := Post(db, accounts', t);
    IndexFollowsOwners(db.accounts, accounts', userId);
    var k := PrimaryAccountIndex(db.accounts, userId);
    if k.Some? {
      var id := db.accounts[k.value].id;
      assert db'.accounts[k.value].id == id;
      TouchingAppend(db.transactions, t, id);
      assert Touching(db'.transactions, id) == Touching(db.transactions, id);
    }
  }

  /**
   * A posting of a new transaction that concerns a user's account adds
   * exactly that transaction to the user's history.
   */
  lemma HistoryGains(db: Db, accounts': seq<Account>, t: Transaction, userId: int)
    requires |accounts'| == |db.accounts|
    requires forall i :: 0 <= i < |accounts'| ==> accounts'[i].id == db.accounts[i].id && accounts'[i].userId == db.accounts[i].userId
    requires t !in db.transactions
    requires PrimaryAccount(db, userId).Some? && Involves(t, PrimaryAccount(db, userId).value.id)
    ensures TransactionsForUser(db, userId).Ok? && TransactionsForUser(Post(db, accounts', t), userId).Ok?
    ensures multiset(TransactionsForUser(Post(db, accounts', t), userId).value)
         == multiset(TransactionsForUser(db, userId).value) + multiset{t}
    ensures t !in TransactionsForUser(db, userId).value
  {
    IndexFollowsOwners(db.accounts, accounts', userId);
    var k := PrimaryAccountIndex(db.accounts, userId).value;
    var id := db.accounts[k].id;
    TouchingAppend(db.transactions, t, id);
    var before := Touching(db.transactions, id);
    assert multiset(before)[t] == 0;
    assert multiset(SortNewestFirst(before)) == multiset(before);
    assert multiset(SortNewestFirst(before + [t])) == multiset(before + [t]);
  }

  /** A successful deposit shows up in the depositor's history, exactly once. */
  lemma DepositInHistory(db: Db, userId: int, amountCents: int, description: Option<string>, now: int)
    requires Valid(db)
    requires Deposit(db, userId, amountCents, description, now).result.Ok?
    ensures var r := Deposit(db, userId, amountCents, description, now);
            && TransactionsForUser(db, userId).Ok? && TransactionsForUser(r.db, userId).Ok?
            && multiset(TransactionsForUser(r.db, userId).value)
               == multiset(TransactionsForUser(db, userId).value) + multiset{r.result.value}
            && r.result.value !in TransactionsForUser(db, userId).value
  {
    var r := Deposit(db, userId, amountCents, description, now);
    var tx := r.result.value;
    assert r.db == Post(db, r.db.accounts, tx);
    FreshTransaction(db, tx);
    HistoryGains(db, r.db.accounts, tx, userId);
  }

  /** A successful deposit leaves the history of every other user exactly as it was. */
  lemma DepositNotInOtherHistory(db: Db, userId: int, amountCents: int, description: Option<string>, now: int, other: int)
    requires Valid(db)
    requires Deposit(db, userId, amountCents, description, now).result.Ok?
    requires other != userId
    ensures TransactionsForUser(Deposit(db, userId, amountCents, description, now).db, other)
         == TransactionsForUser(db, other)
  {
    var r := Deposit(db, userId, amountCents, description, now);
    var k := PrimaryAccountIndex(db.accounts, userId).value;
    var tx := r.result.value;
    assert r.db == Post(db, r.db.accounts, tx);
    AccountFacts(db, k);
    var o := PrimaryAccountIndex(db.accounts, other);
    if o.Some? {
      assert o.value != k;
      assert !Involves(tx, db.accounts[o.value].id);
    }
    HistoryUnaffected(db, r.db.accounts, tx, other);
  }

  /** A successful deposit adds its amount to the value held and changes no count. */
  lemma DepositSummary(db: Db, userId: int, amountCents: int, description: Option<string>, now: int)
    requires Deposit(db, userId, amountCents, description, now).result.Ok?
    ensures var before, after := GetSummaryStats(db), GetSummaryStats(Deposit(db, userId, amountCents, description, now).db);
            && after.totalValueCents == before.totalValueCents + amountCents
            && after.totalUsers == before.totalUsers
            && after.totalTransfers == before.totalTransfers
            && after.totalWithdrawals == before.totalWithdrawals
  {
    var r := Deposit(db, userId, amountCents, description, now);
    var k := PrimaryAccountIndex(db.accounts, userId).value;
    TotalBalanceUpdate(db.accounts, k, r.db.accounts[k]);
    CountOfTypeAppend(db.transactions, r.result.value, TRANSFER);
    CountOfTypeAppend(db.transactions, r.result.value, WITHDRAW);
  }

  // Withdrawals

  /** A successful withdrawal keeps the invariant. */
  lemma WithdrawPreservesValid(db: Db, userId: int, amountCents: int, description: Option<string>, now: int)
    requires Valid(db)
    ensures Valid(Withdraw(db, userId, amountCents, description, now).db)
  {
    var r := Withdraw(db, userId, amountCents, description, now);
    if r.result.Ok? {
      var k := PrimaryAccountIndex(db.accounts, userId).value;
      var tx := r.result.value;
      assert r.db == Post(db, Credit(db.accounts, k, -tx.amountCents), tx);
      WithdrawPostingValid(db, k, tx);
    } else {
      assert r.db == db;
    }
  }

  /**
   * A successful withdrawal takes exactly the amount from the user's
   * balance, which stays non-negative, and leaves every other user's
   * balance as it was.
   */
  lemma WithdrawDebits(db: Db, userId: int, amountCents: int, description: Option<string>, now: int)
    requires Withdraw(db, userId, amountCents, description, now).result.Ok?
    ensures var r := Withdraw(db, userId, amountCents, description, now);
            && GetBalance(db, userId).Ok? && GetBalance(r.db, userId).Ok?
            && GetBalance(r.db, userId).value.balanceCents == GetBalance(db, userId).value.balanceCents - amountCents
            && GetBalance(r.db, userId).value.balanceCents >= 0
            && (forall u :: u != userId ==> GetBalance(r.db, u) == GetBalance(db, u))
  {
    var r := Withdraw(db, userId, amountCents, description, now);
    forall u ensures PrimaryAccountIndex(r.db.accounts, u) == PrimaryAccountIndex(db.accounts, u) {
      IndexFollowsOwners(db.accounts, r.db.accounts, u);
    }
  }

  /** A successful withdrawal shows up in the user's history, exactly once. */
  lemma WithdrawInHistory(db: Db, userId: int, amountCents: int, description: Option<string>, now: int)
    requires Valid(db)
    requires Withdraw(db, userId, amountCents, description, now).result.Ok?
    ensures var r := Withdraw(db, userId, amountCents, description, now);
            && TransactionsForUser(db, userId).Ok? && TransactionsForUser(r.db, userId).Ok?
            && multiset(TransactionsForUser(r.db, userId).value)
               == multiset(TransactionsForUser(db, userId).value) + multiset{r.result.value}
            && r.result.value !in TransactionsForUser(db, userId).value
  {
    var r := Withdraw(db, userId, amountCents, description, now);
    var tx := r.result.value;
    assert r.db == Post(db, r.db.accounts, tx);
    FreshTransaction(db, tx);
    HistoryGains(db, r.db.accounts, tx, userId);
  }

  /** A successful withdrawal leaves the history of every other user exactly as it was. */
  lemma WithdrawNotInOtherHistory(db: Db, userId: int, amountCents: int, description: Option<string>, now: int, other: int)
    requires Valid(db)
    requires Withdraw(db, userId, amountCents, description, now).result.Ok?
    requires other != userId
    ensures TransactionsForUser(Withdraw(db, userId, amountCents, description, now).db, other)
         == TransactionsForUser(db, other)
  {
    var r := Withdraw(db, userId, amountCents, description, now);
    var k := PrimaryAccountIndex(db.accounts, userId).value;
    var tx := r.result.value;
    assert r.db == Post(db, r.db.accounts, tx);
    AccountFacts(db, k);
    var o := PrimaryAccountIndex(db.accounts, other);
    if o.Some? {
      assert o.value != k;
      assert !Involves(tx, db.accounts[o.value].id);
    }
    HistoryUnaffected(db, r.db.accounts, tx, other);
  }

  /** A successful withdrawal takes its amount from the value held and counts one more withdrawal. */
  lemma WithdrawSummary(db: Db, userId: int, amountCents: int, description: Option<string>, now: int)
    requires Withdraw(db, userId, amountCents, description, now).result.Ok?
    ensures var before, after := GetSummaryStats(db), GetSummaryStats(Withdraw(db, userId, amountCents, description, now).db);
            && after.totalValueCents == before.totalValueCents - amountCents
            && after.totalUsers == before.totalUsers
            && after.totalTransfers == before.totalTransfers
            && after.totalWithdrawals == before.totalWithdrawals + 1
  {
    var r := Withdraw(db, userId, amountCents, description, now);
    var k := PrimaryAccountIndex(db.accounts, userId).value;
    TotalBalanceUpdate(db.accounts, k, r.db.accounts[k]);
    CountOfTypeAppend(db.transactions, r.result.value, TRANSFER);
    CountOfTypeAppend(db.transactions, r.result.value, WITHDRAW);
  }

  // Transfers

  /**
   * A successful transfer found two distinct accounts, the sender's covering
   * the amount, and posted its transaction after moving the amount between them.
   */
  lemma TransferShape(db: Db, fromUserId: int, toUserId: int, amountCents: int, description: Option<string>, now: int)
    returns (i: nat, j: nat)
    requires Transfer(db, fromUserId, toUserId, amountCents, description, now).result.Ok?
    ensures var r := Transfer(db, fromUserId, toUserId, amountCents, description, now);
            var t := r.result.value;
            && i < |db.accounts| && j < |db.accounts| && i != j
            && t.id == db.nextTransactionId && t.kind == TRANSFER && t.status == SUCCESS && t.amountCents > 0
            && t.fromAccount == Some(db.accounts[i].id) && t.toAccount == Some(db.accounts[j].id)
            && db.accounts[i].balanceCents >= t.amountCents
            && r.db == Post(db, Credit(Credit(db.accounts, i, -t.amountCents), j, t.amountCents), t)
  {
    i := PrimaryAccountIndex(db.accounts, fromUserId).value;
    j := PrimaryAccountIndex(db.accounts, toUserId).value;
  }

  /** A successful transfer keeps the invariant. */
  lemma TransferPreservesValid(db: Db, fromUserId: int, toUserId: int, amountCents: int, description: Option<string>, now: int)
    requires Valid(db)
    ensures Valid(Transfer(db, fromUserId, toUserId, amountCents, description, now).db)
  {
    var r := Transfer(db, fromUserId, toUserId, amountCents, description, now);
    if r.result.Ok? {
      var i, j := TransferShape(db, fromUserId, toUserId, amountCents, description, now);
      TransferPostingValid(db, i, j, r.result.value);
    } else {
      assert r.db == db;
    }
  }

  /**
   * A successful transfer debits the sender and credits the recipient by
   * the same amount, the sender's balance stays non-negative, and every
   * other user's balance is as it was.
   */
  lemma TransferMoves(db: Db, fromUserId: int, toUserId: int, amountCents: int, description: Option<string>, now: int)
    requires Transfer(db, fromUserId, toUserId, amountCents, description, now).result.Ok?
    ensures var r := Transfer(db, fromUserId, toUserId, amountCents, description, now);
            && GetBalance(db, fromUserId).Ok? && GetBalance(r.db, fromUserId).Ok?
            && GetBalance(db, toUserId).Ok? && GetBalance(r.db, toUserId).Ok?
            && GetBalance(r.db, fromUserId).value.balanceCents == GetBalance(db, fromUserId).value.balanceCents - amountCents
            && GetBalance(r.db, toUserId).value.balanceCents == GetBalance(db, toUserId).value.balanceCents + amountCents
            && GetBalance(r.db, fromUserId).value.balanceCents >= 0
            && (forall u :: u != fromUserId && u != toUserId ==> GetBalance(r.db, u) == GetBalance(db, u))
  {
    var r := Transfer(db, fromUserId, toUserId, amountCents, description, now);
    forall u ensures PrimaryAccountIndex(r.db.accounts, u) == PrimaryAccountIndex(db.accounts, u) {
      IndexFollowsOwners(db.accounts, r.db.accounts, u);
    }
  }

  /** A successful transfer shows up, exactly once, in the histories of both parties. */
  lemma TransferInHistories(db: Db, fromUserId: int, toUserId: int, amountCents: int, description: Option<string>, now: int)
    requires Valid(db)
    requires Transfer(db, fromUserId, toUserId, amountCents, description, now).result.Ok?
    ensures var r := Transfer(db, fromUserId, toUserId, amountCents, description, now);
            && TransactionsForUser(db, fromUserId).Ok? && TransactionsForUser(r.db, fromUserId).Ok?
            && TransactionsForUser(db, toUserId).Ok? && TransactionsForUser(r.db, toUserId).Ok?
            && multiset(TransactionsForUser(r.db, fromUserId).value)
               == multiset(TransactionsForUser(db, fromUserId).value) + multiset{r.result.value}
            && multiset(TransactionsForUser(r.db, toUserId).value)
               == multiset(TransactionsForUser(db, toUserId).value) + multiset{r.result.value}
            && r.result.value !in TransactionsForUser(db, fromUserId).value
            && r.result.value !in TransactionsForUser(db, toUserId).value
  {
    var r := Transfer(db, fromUserId, toUserId, amountCents, description, now);
    var tx := r.result.value;
    assert r.db == Post(db, r.db.accounts, tx);
    FreshTransaction(db, tx);
    HistoryGains(db, r.db.accounts, tx, fromUserId);
    HistoryGains(db, r.db.accounts, tx, toUserId);
  }

  /** A successful transfer leaves the history of every user other than its two parties exactly as it was. */
  lemma TransferNotInOtherHistory(db: Db, fromUserId: int, toUserId: int, amountCents: int, description: Option<string>, now: int,
                                  other: int)
    requires Valid(db)
    requires Transfer(db, fromUserId, toUserId, amountCents, description, now).result.Ok?
    requires other != fromUserId && other != toUserId
    ensures TransactionsForUser(Transfer(db, fromUserId, toUserId, amountCents, description, now).db, other)
         == TransactionsForUser(db, other)
  {
    var r := Transfer(db, fromUserId, toUserId, amountCents, description, now);
    var i := PrimaryAccountIndex(db.accounts, fromUserId).value;
    var j := PrimaryAccountIndex(db.accounts, toUserId).value;
    var tx := r.result.value;
    assert r.db == Post(db, r.db.accounts, tx);
    AccountFacts(db, i);
    AccountFacts(db, j);
    var o := PrimaryAccountIndex(db.accounts, other);
    if o.Some? {
      assert o.value != i && o.value != j;
      assert !Involves(tx, db.accounts[o.value].id);
    }
    HistoryUnaffected(db, r.db.accounts, tx, other);
  }

  /**
   * A successful transfer conserves the value held in all accounts and
   * counts one more transfer.
   */
  lemma TransferConservesValue(db: Db, fromUserId: int, toUserId: int, amountCents: int, description: Option<string>, now: int)
    requires Transfer(db, fromUserId, toUserId, amountCents, description, now).result.Ok?
    ensures var before, after := GetSummaryStats(db), GetSummaryStats(Transfer(db, fromUserId, toUserId, amountCents, description, now).db);
            && after.totalValueCents == before.totalValueCents
            && after.totalUsers == before.totalUsers
            && after.totalTransfers == before.totalTransfers + 1
            && after.totalWithdrawals == before.totalWithdrawals
  {
    var r := Transfer(db, fromUserId, toUserId, amountCents, description, now);
    var i := PrimaryAccountIndex(db.accounts, fromUserId).value;
    var j := PrimaryAccountIndex(db.accounts, toUserId).value;
    var mid := db.accounts[i := r.db.accounts[i]];
    TotalBalanceUpdate(db.accounts, i, r.db.accounts[i]);
    TotalBalanceUpdate(mid, j, r.db.accounts[j]);
    CountOfTypeAppend(db.transactions, r.result.value, TRANSFER);
    CountOfTypeAppend(db.transactions, r.result.value, WITHDRAW);
  }

  // Opening users

  /** No logged transaction mentions an account id that has not been handed out yet. */
  lemma NextAccountUntouched(db: Db)
    requires Valid(db)
    ensures forall i :: 0 <= i < |db.transactions| ==> !Involves(db.transactions[i], db.nextAccountId)
    ensures NetFlow(db.transactions, db.nextAccountId) == 0
  {
    forall i | 0 <= i < |db.transactions| ensures !Involves(db.transactions[i], db.nextAccountId) {
      assert Committed(db.transactions[i], db.nextAccountId);
    }
    NetFlowUnmentioned(db.transactions, db.nextAccountId);
  }

  /** Opening a user keeps the invariant. */
  lemma CreateUserPreservesValid(db: Db, name: string, email: Option<string>, now: int)
    requires Valid(db) && |name| >= 1
    ensures Valid(CreateUser(db, name, email, now).db)
  {
    var r := CreateUser(db, name, email, now);
    if r.result.Ok? {
      var n := |db.users|;
      var user, account := r.db.users[n], r.db.accounts[n];
      assert r.db == Open(db, user, account);
      assert email.Some? ==> !EmailInUse(db.users, email.value);
      OpenValid(db, user, account);
    } else {
      assert r.db == db;
    }
  }

  /**
   * Opening a user adds exactly one user, new to the ledger, and exactly one
   * account for it, in KES and with a zero balance; nothing is logged.
   */
  lemma CreateUserOpensAccount(db: Db, name: string, email: Option<string>, now: int)
    requires Valid(db) && |name| >= 1
    requires CreateUser(db, name, email, now).result.Ok?
    ensures var r := CreateUser(db, name, email, now);
            var user := r.result.value;
            && !Registered(db, user.id)
            && r.db.users == db.users + [user]
            && |r.db.accounts| == |db.accounts| + 1 && r.db.accounts[..|db.accounts|] == db.accounts
            && r.db.transactions == db.transactions
            && GetBalance(r.db, user.id) == Ok(BalanceResponse(user.id, 0, DefaultCurrency))
  {
    var r := CreateUser(db, name, email, now);
    var user := r.result.value;
    var n := |db.accounts|;
    NewUserUnregistered(db, name, email, now);
    IndexAfterAppend(db.accounts, r.db.accounts[n], user.id);
  }

  /** The user opened is not the owner of any existing account. */
  lemma NewUserUnregistered(db: Db, name: string, email: Option<string>, now: int)
    requires Valid(db) && |name| >= 1
    requires CreateUser(db, name, email, now).result.Ok?
    ensures var r := CreateUser(db, name, email, now);
            && r.db.accounts == db.accounts + [r.db.accounts[|db.accounts|]]
            && forall i :: 0 <= i < |db.accounts| ==> db.accounts[i].userId != r.result.value.id
  {
    var r := CreateUser(db, name, email, now);
    forall i | 0 <= i < |db.accounts| ensures db.accounts[i].userId != r.result.value.id {
      assert UserAccountValid(db, i);
    }
  }

  /** The user opened starts with an empty history. */
  lemma CreateUserEmptyHistory(db: Db, name: string, email: Option<string>, now: int)
    requires Valid(db) && |name| >= 1
    requires CreateUser(db, name, email, now).result.Ok?
    ensures var r := CreateUser(db, name, email, now);
            TransactionsForUser(r.db, r.result.value.id) == Ok([])
  {
    var r := CreateUser(db, name, email, now);
    var n := |db.accounts|;
    NewUserUnregistered(db, name, email, now);
    IndexAfterAppend(db.accounts, r.db.accounts[n], r.result.value.id);
    NextAccountUntouched(db);
    TouchingUnmentioned(db.transactions, db.nextAccountId);
  }

  /** Opening a user changes no other user's balance or history. */
  lemma CreateUserLeavesOthers(db: Db, name: string, email: Option<string>, now: int, other: int)
    requires Valid(db) && |name| >= 1
    requires CreateUser(db, name, email, now).result.Ok?
    requires other != CreateUser(db, name, email, now).result.value.id
    ensures var r := CreateUser(db, name, email, now);
            && GetBalance(r.db, other) == GetBalance(db, other)
            && TransactionsForUser(r.db, other) == TransactionsForUser(db, other)
  {
    var r := CreateUser(db, name, email, now);
    NewUserUnregistered(db, name, email, now);
    IndexAfterAppend(db.accounts, r.db.accounts[|db.accounts|], other);
  }

  /** Opening a user counts one more user and changes neither the value held nor any count. */
  lemma CreateUserSummary(db: Db, name: string, email: Option<string>, now: int)
    requires |name| >= 1
    requires CreateUser(db, name, email, now).result.Ok?
    ensures var before, after := GetSummaryStats(db), GetSummaryStats(CreateUser(db, name, email, now).db);
            && after.totalUsers == before.totalUsers + 1
            && after.totalValueCents == before.totalValueCents
            && after.totalTransfers == before.totalTransfers
            && after.totalWithdrawals == before.totalWithdrawals
  {
    var r := CreateUser(db, name, email, now);
    TotalBalanceAppend(db.accounts, r.db.accounts[|db.accounts|]);
  }
}
