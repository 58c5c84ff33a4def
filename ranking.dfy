/**
 * Score assignment and the top/bottom tables of `generate_scores`: every
 * cluster label goes through a fixed table to a score, and the top and
 * bottom tables are the score table sorted by score (descending, resp.
 * ascending) and cut to its first ten rows.
 */
module Ranking {

  /** `KMeans(n_clusters=5)`: labels lie in [0, NClusters). */
  const NClusters: int := 5

  /** `cluster_score_map`. */
  const ClusterScoreMap: map<int, int> := map[0 := 900, 1 := 700, 2 := 500, 3 := 300, 4 := 100]

  /** The five scores a wallet can get. */
  const ScoreTiers: set<int> := {100, 300, 500, 700, 900}

  /** How many rows the top and the bottom table keep (`head(10)`). */
  const TableSize: nat := 10

  predicate ValidLabel(cluster: int)
  {
    0 <= cluster < NClusters
  }

  /** One row of the result table: `wallet` and `credit_score`. */
  datatype ScoreRow = ScoreRow(wallet: string, creditScore: int)

  /**
   * The score of a cluster label: one of five tiers, 900 for label 0 and
   * 200 less for each label after it.
   */
  function ScoreOf(cluster: int): (score: int)
    requires ValidLabel(cluster)
    ensures score in ScoreTiers
    ensures score == 900 - 200 * cluster
  {
    ClusterScoreMap[cluster]
  }

  /** The score map is strictly decreasing on the labels. */
  lemma ScoreMapDecreasing(a: int, b: int)
    requires ValidLabel(a) && ValidLabel(b)
    ensures a < b <==> ScoreOf(a) > ScoreOf(b)
  {
  }

  /**
   * `features['cluster'] = clusters` followed by the `map` of the labels:
   * the i-th wallet gets the score of the i-th label.
   */
  function AttachScores(wallets: seq<string>, clusters: seq<int>): (result: seq<ScoreRow>)
    requires |clusters| == |wallets|
    requires forall i :: 0 <= i < |clusters| ==> ValidLabel(clusters[i])
    ensures |result| == |wallets|
    ensures forall i :: 0 <= i < |result| ==>
      result[i].wallet == wallets[i] && result[i].creditScore == ScoreOf(clusters[i])
  {
    if wallets == [] then []
    else [ScoreRow(wallets[0], ScoreOf(clusters[0]))] + AttachScores(wallets[1..], clusters[1..])
  }

  /** Every score of the result table is one of the five tiers. */
  lemma ScoresInTiers(wallets: seq<string>, clusters: seq<int>)
    requires |clusters| == |wallets|
    requires forall i :: 0 <= i < |clusters| ==> ValidLabel(clusters[i])
    ensures forall r :: r in AttachScores(wallets, clusters) ==> r.creditScore in ScoreTiers
  {
  }

  // ---------------------------------------------------------------------
  // Sorting by score

  /** `a` may precede `b` when sorting by score in the given direction. */
  predicate InOrder(a: ScoreRow, b: ScoreRow, ascending: bool)
  {
    if ascending then a.creditScore <= b.creditScore else a.creditScore >= b.creditScore
  }

  predicate SortedBy(s: seq<ScoreRow>, ascending: bool)
  {
    forall i, j :: 0 <= i < j < |s| ==> InOrder(s[i], s[j], ascending)
  }

  function Insert(x: ScoreRow, s: seq<ScoreRow>, ascending: bool): (r: seq<ScoreRow>)
    requires SortedBy(s, ascending)
    ensures SortedBy(r, ascending)
    ensures multiset(r) == multiset(s) + multiset{x}
  {
    if s == [] then [x]
    else if InOrder(x, s[0], ascending) then
      PrependSorted(x, s, ascending);
      [x] + s
    else
      var rest := Insert(x, s[1..], ascending);
      HeadPrecedes(s, x, rest, ascending);
      PrependSorted(s[0], rest, ascending);
      assert s == [s[0]] + s[1..];
      [s[0]] + rest
  }

  /** A row that precedes the head of a sorted sequence, or all of it, can go in front. */
  lemma PrependSorted(x: ScoreRow, s: seq<ScoreRow>, ascending: bool)
    requires SortedBy(s, ascending)
    requires (s != [] && InOrder(x, s[0], ascending)) || forall j :: 0 <= j < |s| ==> InOrder(x, s[j], ascending)
    ensures SortedBy([x] + s, ascending)
  {
  }

  /**
   * When `x` goes after the head of a sorted `s`, the head precedes every
   * row of the rest with `x` inserted.
   */
  lemma HeadPrecedes(s: seq<ScoreRow>, x: ScoreRow, rest: seq<ScoreRow>, ascending: bool)
    requires s != [] && SortedBy(s, ascending)
    requires !InOrder(x, s[0], ascending)
    requires multiset(rest) == multiset(s[1..]) + multiset{x}
    ensures forall j :: 0 <= j < |rest| ==> InOrder(s[0], rest[j], ascending)
  {
    forall j | 0 <= j < |rest| ensures InOrder(s[0], rest[j], ascending) {
      assert rest[j] in multiset(rest);
      if rest[j] != x {
        assert rest[j] in multiset(s[1..]);
        var k :| 0 <= k < |s[1..]| && s[1..][k] == rest[j];
        assert s[k + 1] == rest[j];
      }
    }
  }

  /** `sort_values(by='credit_score')`: a permutation of the rows ordered by score. */
  function SortByScore(s: seq<ScoreRow>, ascending: bool): (r: seq<ScoreRow>)
    ensures SortedBy(r, ascending)
    ensures multiset(r) == multiset(s)
  {
    if s == [] then []
    else
      assert s == [s[0]] + s[1..];
      Insert(s[0], SortByScore(s[1..], ascending), ascending)
  }

  /**
   * Sort by score and keep the first `n` rows (`head(n)`): min(n, |s|)
   * rows taken from `s`, ordered by score, and every row kept scores at
   * least as well, in the given direction, as every row left out.
   */
  function TakeRanked(s: seq<ScoreRow>, n: nat, ascending: bool): (t: seq<ScoreRow>)
    ensures |t| == if n < |s| then n else |s|
    ensures SortedBy(t, ascending)
    ensures multiset(t) <= multiset(s)
    ensures forall x, y :: x in t && y in multiset(s) - multiset(t) ==> InOrder(x, y, ascending)
  {
    var sorted := SortByScore(s, ascending);
    var k := if n < |s| then n else |s|;
    assert |sorted| == |s| by { assert |multiset(sorted)| == |multiset(s)|; }
    PrefixDominates(sorted, k, ascending);
    sorted[..k]
  }

  /**
   * In a sorted sequence the first `k` rows precede, in the sort
   * direction, every row after them.
   */
  lemma PrefixDominates(sorted: seq<ScoreRow>, k: nat, ascending: bool)
    requires SortedBy(sorted, ascending)
    requires k <= |sorted|
    ensures multiset(sorted) - multiset(sorted[..k]) == multiset(sorted[k..])
    ensures multiset(sorted[..k]) <= multiset(sorted)
    ensures forall x, y :: x in sorted[..k] && y in multiset(sorted) - multiset(sorted[..k]) ==>
      InOrder(x, y, ascending)
  {
    var t, u := sorted[..k], sorted[k..];
    assert sorted == t + u;
    assert multiset(sorted) == multiset(t) + multiset(u);
    forall x, y | x in t && y in multiset(sorted) - multiset(t) ensures InOrder(x, y, ascending) {
      assert y in multiset(u);
      var i :| 0 <= i < |t| && t[i] == x;
      var j :| 0 <= j < |u| && u[j] == y;
      assert sorted[i] == x && sorted[k + j] == y;
    }
  }

  /** `sort_values(by='credit_score', ascending=False).head(10)`. */
  function TopWallets(result: seq<ScoreRow>): (top: seq<ScoreRow>)
    ensures |top| == if TableSize < |result| then TableSize else |result|
    ensures SortedBy(top, false)
    ensures multiset(top) <= multiset(result)
    ensures forall x, y :: x in top && y in multiset(result) - multiset(top) ==> x.creditScore >= y.creditScore
  {
    TakeRanked(result, TableSize, false)
  }

  /** `sort_values(by='credit_score').head(10)`. */
  function BottomWallets(result: seq<ScoreRow>): (bottom: seq<ScoreRow>)
    ensures |bottom| == if TableSize < |result| then TableSize else |result|
    ensures SortedBy(bottom, true)
    ensures multiset(bottom) <= multiset(result)
    ensures forall x, y :: x in bottom && y in multiset(result) - multiset(bottom) ==> x.creditScore <= y.creditScore
  {
    TakeRanked(result, TableSize, true)
  }

  /**
   * The top and bottom tables only hold rows of the result table, so
   * their scores are among the result table's.
   */
  lemma TablesInTiers(result: seq<ScoreRow>)
    requires forall r :: r in result ==> r.creditScore in ScoreTiers
    ensures forall r :: r in TopWallets(result) ==> r.creditScore in ScoreTiers
    ensures forall r :: r in BottomWallets(result) ==> r.creditScore in ScoreTiers
  {
    var top, bottom := TopWallets(result), BottomWallets(result);
    forall r | r in top ensures r.creditScore in ScoreTiers {
      assert r in multiset(top);
      assert r in multiset(result);
    }
    forall r | r in bottom ensures r.creditScore in ScoreTiers {
      assert r in multiset(bottom);
      assert r in multiset(result);
    }
  }
}
