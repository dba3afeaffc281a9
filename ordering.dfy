/**
 * Newest-first ordering of transactions by their creation instant, the
 * `ORDER BY created_at DESC` of the ledger's queries. Rows created at the
 * same instant may come in any order, as the database leaves them.
 */
module Ordering {
  import opened Models

  /** No transaction is newer than one that comes before it. */
  predicate NewestFirst(s: seq<Transaction>) {
    forall i, j :: 0 <= i < j < |s| ==> s[i].createdAt >= s[j].createdAt
  }

  /** Places `t` in a newest-first sequence, before every row that is not newer. */
  function InsertNewest(t: Transaction, s: seq<Transaction>): (r: seq<Transaction>)
    requires NewestFirst(s)
    ensures NewestFirst(r)
    ensures multiset(r) == multiset(s) + multiset{t}
    ensures |r| == |s| + 1
    ensures r[0] == t || (|s| > 0 && r[0] == s[0])
  {
    if s == [] then [t]
    else if t.createdAt >= s[0].createdAt then [t] + s
    else
      assert s == [s[0]] + s[1..];
      [s[0]] + InsertNewest(t, s[1..])
  }

  /** Orders a sequence of transactions newest first, keeping every row exactly as often as it occurs. */
  function SortNewestFirst(s: seq<Transaction>): (r: seq<Transaction>)
    ensures NewestFirst(r)
    ensures multiset(r) == multiset(s)
    ensures |r| == |s|
  {
    if s == [] then []
    else
      assert s == [s[0]] + s[1..];
      InsertNewest(s[0], SortNewestFirst(s[1..]))
  }

  /**
   * The first `k` rows of a newest-first sequence are newest first, and no
   * row left out is newer than any row kept.
   */
  lemma {:induction false} LatestPrefix(s: seq<Transaction>, k: nat)
    requires NewestFirst(s) && k <= |s|
    ensures NewestFirst(s[..k])
    ensures multiset(s) == multiset(s[..k]) + multiset(s[k..])
    ensures forall t :: t in multiset(s[k..]) ==> forall i :: 0 <= i < k ==> t.createdAt <= s[i].createdAt
  {
    assert s == s[..k] + s[k..];
    forall t | t in multiset(s[k..]) ensures forall i :: 0 <= i < k ==> t.createdAt <= s[i].createdAt {
      var j :| 0 <= j < |s[k..]| && s[k..][j] == t;
      assert s[k + j] == t;
    }
  }
}
