/**
 * `feature_engineering`: the kept records grouped by wallet, one feature row
 * per wallet in ascending wallet order (the order `groupby` sorts its keys
 * in), every undefined statistic filled with 0.
 */
module Features {
  import opened Wrappers
  import opened StringOrder
  import opened Records

  /** The five action names that get a count of their own. */
  const Deposit: string := "deposit"
  const Borrow: string := "borrow"
  const Repay: string := "repay"
  const Redeem: string := "redeemUnderlying"
  const Liquidation: string := "liquidationCall"

  /**
   * The sample standard deviation of a wallet's amounts: `Zero` is the NaN
   * that pandas computes for a single record and `fillna` replaces by 0;
   * `Sqrt(v)` is the square root of the sample variance `v` of two or more
   * records, which is 0 itself when all the amounts are equal.
   */
  datatype StdDev = Zero | Sqrt(variance: real)

  /** One row of `feature_df` after `reset_index`. */
  datatype FeatureRow = FeatureRow(
    wallet: string,
    totalTxns: nat,
    nDeposits: nat,
    nBorrows: nat,
    nRepays: nat,
    nRedeems: nat,
    nLiquidations: nat,
    totalAmount: real,
    avgAmount: real,
    stdAmount: StdDev,
    avgPriceUsd: real,
    uniqueAssets: nat)

  // ---------------------------------------------------------------------
  // Grouping

  /** The group keys: every wallet of the records once, in ascending order. */
  function WalletsOf(rs: seq<Record>): (ws: seq<string>)
    ensures StrictlyAscending(ws)
    ensures forall w :: w in ws <==> HasRecords(rs, w)
    ensures |ws| <= |rs|
  {
    if rs == [] then []
    else
      var rest := WalletsOf(rs[1..]);
      assert forall r :: r in rs[1..] ==> r in rs;
      InsertSorted(rs[0].wallet, rest)
  }

  /** Some row of the table is wallet `w`'s. */
  predicate HasRow(rows: seq<FeatureRow>, w: string)
  {
    exists i :: 0 <= i < |rows| && rows[i].wallet == w
  }

  /** The records of one wallet, in their original order. */
  function Group(rs: seq<Record>, w: string): (g: seq<Record>)
    ensures |g| <= |rs|
    ensures forall r :: r in g <==> r in rs && r.wallet == w
    ensures HasRecords(rs, w) ==> |g| > 0
  {
    if rs == [] then []
    else
      (if rs[0].wallet == w then [rs[0]] else []) + Group(rs[1..], w)
  }

  /**
   * A wallet's group holds each of that wallet's records as many times as
   * the records do, and nothing else.
   */
  lemma {:induction false} GroupMultiplicity(rs: seq<Record>, w: string)
    ensures forall r :: multiset(Group(rs, w))[r] == if r.wallet == w then multiset(rs)[r] else 0
  {
    if rs != [] {
      GroupMultiplicity(rs[1..], w);
      assert rs == [rs[0]] + rs[1..];
    }
  }

  // ---------------------------------------------------------------------
  // Per-group aggregates

  /** `(g['action'] == a).sum()`: a missing action equals no name. */
  function CountAction(g: seq<Record>, a: string): nat
  {
    if g == [] then 0
    else (if g[0].action == Some(a) then 1 else 0) + CountAction(g[1..], a)
  }

  function Amounts(g: seq<Record>): seq<real>
  {
    if g == [] then [] else [g[0].amount] + Amounts(g[1..])
  }

  /** The prices that are not NaN, which is what pandas' `mean` averages. */
  function PresentPrices(g: seq<Record>): seq<real>
  {
    if g == [] then []
    else (if g[0].priceUsd.Some? then [g[0].priceUsd.value] else []) + PresentPrices(g[1..])
  }

  /** The distinct non-null asset symbols, which is what `nunique` counts. */
  function AssetsOf(g: seq<Record>): set<string>
  {
    if g == [] then {}
    else (if g[0].asset.Some? then {g[0].asset.value} else {}) + AssetsOf(g[1..])
  }

  function Sum(xs: seq<real>): real
  {
    if xs == [] then 0.0 else xs[0] + Sum(xs[1..])
  }

  function Mean(xs: seq<real>): real
    requires |xs| > 0
  {
    Sum(xs) / (|xs| as real)
  }

  function SquaredDeviations(xs: seq<real>, m: real): real
  {
    if xs == [] then 0.0 else (xs[0] - m) * (xs[0] - m) + SquaredDeviations(xs[1..], m)
  }

  /** The sample variance (pandas' default `ddof=1`). */
  function SampleVariance(xs: seq<real>): real
    requires |xs| >= 2
  {
    SquaredDeviations(xs, Mean(xs)) / ((|xs| - 1) as real)
  }

  /** `std()` followed by `fillna(0)`. */
  function Std(xs: seq<real>): StdDev
    requires |xs| > 0
  {
    if |xs| == 1 then Zero else Sqrt(SampleVariance(xs))
  }

  /** `mean()` of the prices, skipping NaN, followed by `fillna(0)`. */
  function AvgPrice(g: seq<Record>): real
  {
    var ps := PresentPrices(g);
    if ps == [] then 0.0 else Mean(ps)
  }

  /** The feature row of one wallet's group. */
  function Row(w: string, g: seq<Record>): FeatureRow
    requires |g| > 0
  {
    var xs := Amounts(g);
    AmountsLength(g);
    FeatureRow(
      w,
      |g|,
      CountAction(g, Deposit),
      CountAction(g, Borrow),
      CountAction(g, Repay),
      CountAction(g, Redeem),
      CountAction(g, Liquidation),
      Sum(xs),
      Mean(xs),
      Std(xs),
      AvgPrice(g),
      |AssetsOf(g)|)
  }

  /** The rows of the given wallets, in the order given. */
  function RowsFor(rs: seq<Record>, ws: seq<string>): (rows: seq<FeatureRow>)
    requires forall w :: w in ws ==> HasRecords(rs, w)
    ensures |rows| == |ws|
    ensures forall i :: 0 <= i < |ws| ==> rows[i].wallet == ws[i]
    ensures forall i :: 0 <= i < |ws| ==> |Group(rs, ws[i])| > 0 && rows[i] == Row(ws[i], Group(rs, ws[i]))
  {
    seq(|ws|, i requires 0 <= i < |ws| =>
      assert ws[i] in ws;
      Row(ws[i], Group(rs, ws[i])))
  }

  /**
   * `feature_engineering`: one row per distinct wallet of the records, none
   * twice, in ascending wallet order, each row the aggregate of exactly
   * that wallet's records.
   */
  function FeatureEngineering(rs: seq<Record>): (rows: seq<FeatureRow>)
    ensures forall i, j :: 0 <= i < j < |rows| ==> Below(rows[i].wallet, rows[j].wallet)
    ensures forall w :: HasRow(rows, w) <==> HasRecords(rs, w)
    ensures forall i :: 0 <= i < |rows| ==>
      |Group(rs, rows[i].wallet)| > 0 && rows[i] == Row(rows[i].wallet, Group(rs, rows[i].wallet))
  {
    var ws := WalletsOf(rs);
    var rows := RowsFor(rs, ws);
    WalletColumnOrder(rows, ws);
    rows
  }

  /** Rows that follow a strictly ascending wallet list inherit its order and its members. */
  lemma WalletColumnOrder(rows: seq<FeatureRow>, ws: seq<string>)
    requires StrictlyAscending(ws)
    requires |rows| == |ws|
    requires forall i :: 0 <= i < |ws| ==> rows[i].wallet == ws[i]
    ensures forall i, j :: 0 <= i < j < |rows| ==> Below(rows[i].wallet, rows[j].wallet)
    ensures forall w :: HasRow(rows, w) <==> w in ws
  {
  }

  // ---------------------------------------------------------------------
  // Properties of one row

  lemma {:induction false} AmountsLength(g: seq<Record>)
    ensures |Amounts(g)| == |g|
  {
    if g != [] {
      AmountsLength(g[1..]);
    }
  }

  lemma {:induction false} ActionCountsBounded(g: seq<Record>)
    ensures CountAction(g, Deposit) + CountAction(g, Borrow) + CountAction(g, Repay)
      + CountAction(g, Redeem) + CountAction(g, Liquidation) <= |g|
  {
    if g != [] {
      ActionCountsBounded(g[1..]);
    }
  }

  lemma {:induction false} AssetsBounded(g: seq<Record>)
    ensures |AssetsOf(g)| <= |g|
  {
    if g != [] {
      AssetsBounded(g[1..]);
      var head: set<string> := if g[0].asset.Some? then {g[0].asset.value} else {};
      assert |head + AssetsOf(g[1..])| <= |head| + |AssetsOf(g[1..])|;
    }
  }

  lemma {:induction false} SquaredDeviationsNonNegative(xs: seq<real>, m: real)
    ensures SquaredDeviations(xs, m) >= 0.0
  {
    if xs != [] {
      SquaredDeviationsNonNegative(xs[1..], m);
      var d := xs[0] - m;
      assert d * d >= 0.0;
    }
  }

  /** Every element lies in [lo, hi], so the sum lies in [n * lo, n * hi]. */
  lemma {:induction false} SumBounds(xs: seq<real>, lo: real, hi: real)
    requires forall i :: 0 <= i < |xs| ==> lo <= xs[i] <= hi
    ensures (|xs| as real) * lo <= Sum(xs) <= (|xs| as real) * hi
  {
    if xs != [] {
      SumBounds(xs[1..], lo, hi);
    }
  }

  /** A mean lies between any lower and upper bound of its values. */
  lemma MeanBounds(xs: seq<real>, lo: real, hi: real)
    requires |xs| > 0
    requires forall i :: 0 <= i < |xs| ==> lo <= xs[i] <= hi
    ensures lo <= Mean(xs) <= hi
  {
    SumBounds(xs, lo, hi);
    MeanTimesCount(xs);
  }

  /**
   * The counting identities of one row: the five action counts together
   * are at most the transaction count (records with other actions count
   * only towards the total), and the distinct assets are at most the
   * transactions.
   */
  lemma RowCounts(w: string, g: seq<Record>)
    requires |g| > 0
    ensures Row(w, g).wallet == w
    ensures Row(w, g).totalTxns == |g|
    ensures Row(w, g).nDeposits + Row(w, g).nBorrows + Row(w, g).nRepays
      + Row(w, g).nRedeems + Row(w, g).nLiquidations <= Row(w, g).totalTxns
    ensures Row(w, g).uniqueAssets <= Row(w, g).totalTxns
  {
    ActionCountsBounded(g);
    AssetsBounded(g);
  }

  /**
   * The amount statistics of one row: the average times the count is the
   * total amount, and the standard deviation is the filled NaN (`Zero`)
   * exactly for a single record and otherwise the root of a non-negative
   * sample variance.
   */
  lemma RowAmounts(w: string, g: seq<Record>)
    requires |g| > 0
    ensures Row(w, g).avgAmount * (Row(w, g).totalTxns as real) == Row(w, g).totalAmount
    ensures Row(w, g).totalTxns == 1 <==> Row(w, g).stdAmount == Zero
    ensures Row(w, g).stdAmount.Sqrt? ==> Row(w, g).stdAmount.variance >= 0.0
  {
    var xs := Amounts(g);
    AmountsLength(g);
    var row := Row(w, g);
    assert row.totalTxns == |xs|;
    assert row.totalAmount == Sum(xs) && row.avgAmount == Mean(xs) && row.stdAmount == Std(xs);
    MeanTimesCount(xs);
    if |xs| >= 2 {
      VarianceNonNegative(xs);
    }
  }

  /** Two or more equal amounts have sample variance 0, so pandas' std is 0. */
  lemma EqualValuesNoSpread(xs: seq<real>, c: real)
    requires |xs| >= 2
    requires forall i :: 0 <= i < |xs| ==> xs[i] == c
    ensures SampleVariance(xs) == 0.0
  {
    SumOfConstant(xs, c);
    MeanTimesCount(xs);
    assert Mean(xs) == c;
    DeviationsFromConstant(xs, c);
  }

  lemma {:induction false} SumOfConstant(xs: seq<real>, c: real)
    requires forall i :: 0 <= i < |xs| ==> xs[i] == c
    ensures Sum(xs) == (|xs| as real) * c
  {
    if xs != [] {
      SumOfConstant(xs[1..], c);
    }
  }

  lemma {:induction false} DeviationsFromConstant(xs: seq<real>, c: real)
    requires forall i :: 0 <= i < |xs| ==> xs[i] == c
    ensures SquaredDeviations(xs, c) == 0.0
  {
    if xs != [] {
      DeviationsFromConstant(xs[1..], c);
    }
  }

  lemma MeanTimesCount(xs: seq<real>)
    requires |xs| > 0
    ensures Mean(xs) * (|xs| as real) == Sum(xs)
  {
  }

  lemma VarianceNonNegative(xs: seq<real>)
    requires |xs| >= 2
    ensures SampleVariance(xs) >= 0.0
  {
    SquaredDeviationsNonNegative(xs, Mean(xs));
    var n := (|xs| - 1) as real;
    assert n > 0.0;
  }

  /**
   * The average amount of a row lies between any lower and upper bound of
   * the wallet's amounts; a wallet without any numeric price has average
   * price 0.
   */
  lemma AveragesInRange(w: string, g: seq<Record>, lo: real, hi: real)
    requires |g| > 0
    requires forall r :: r in g ==> lo <= r.amount <= hi
    ensures lo <= Row(w, g).avgAmount <= hi
    ensures PresentPrices(g) == [] ==> Row(w, g).avgPriceUsd == 0.0
  {
    AmountsInRange(g, lo, hi);
    AmountsLength(g);
    MeanBounds(Amounts(g), lo, hi);
  }

  /**
   * The average price of a wallet with a numeric price lies between any
   * lower and upper bound of its numeric prices; NaN prices are skipped.
   */
  lemma AvgPriceInRange(w: string, g: seq<Record>, lo: real, hi: real)
    requires |g| > 0
    requires PresentPrices(g) != []
    requires forall i :: 0 <= i < |PresentPrices(g)| ==> lo <= PresentPrices(g)[i] <= hi
    ensures lo <= Row(w, g).avgPriceUsd <= hi
  {
    MeanBounds(PresentPrices(g), lo, hi);
  }

  lemma {:induction false} AmountsInRange(g: seq<Record>, lo: real, hi: real)
    requires forall r :: r in g ==> lo <= r.amount <= hi
    ensures forall i :: 0 <= i < |Amounts(g)| ==> lo <= Amounts(g)[i] <= hi
  {
    if g != [] {
      assert g[0] in g;
      assert forall r :: r in g[1..] ==> r in g;
      AmountsInRange(g[1..], lo, hi);
    }
  }

  // ---------------------------------------------------------------------
  // Properties of the whole table

  predicate Distinct(ws: seq<string>)
  {
    forall i, j :: 0 <= i < j < |ws| ==> ws[i] != ws[j]
  }

  lemma AscendingIsDistinct(ws: seq<string>)
    requires StrictlyAscending(ws)
    ensures Distinct(ws)
  {
    forall i, j | 0 <= i < j < |ws| ensures ws[i] != ws[j] {
      if ws[i] == ws[j] {
        BelowIrreflexive(ws[i]);
      }
    }
  }

  /** The sizes of the groups of the given wallets, added up. */
  function GroupSizes(rs: seq<Record>, ws: seq<string>): nat
  {
    if ws == [] then 0 else |Group(rs, ws[0])| + GroupSizes(rs, ws[1..])
  }

  /** The amount totals of the groups of the given wallets, added up. */
  function GroupAmounts(rs: seq<Record>, ws: seq<string>): real
  {
    if ws == [] then 0.0 else Sum(Amounts(Group(rs, ws[0]))) + GroupAmounts(rs, ws[1..])
  }

  function TotalTxnsSum(rows: seq<FeatureRow>): nat
  {
    if rows == [] then 0 else rows[0].totalTxns + TotalTxnsSum(rows[1..])
  }

  function TotalAmountSum(rows: seq<FeatureRow>): real
  {
    if rows == [] then 0.0 else rows[0].totalAmount + TotalAmountSum(rows[1..])
  }

  /** Peeling the first record off adds it to the one group it belongs to. */
  lemma {:induction false} GroupsPeel(r: Record, t: seq<Record>, ws: seq<string>)
    requires Distinct(ws)
    ensures GroupSizes([r] + t, ws) == (if r.wallet in ws then 1 else 0) + GroupSizes(t, ws)
    ensures GroupAmounts([r] + t, ws) == (if r.wallet in ws then r.amount else 0.0) + GroupAmounts(t, ws)
  {
    if ws != [] {
      var rs := [r] + t;
      assert rs[1..] == t;
      assert Distinct(ws[1..]) by {
        forall i, j | 0 <= i < j < |ws[1..]| ensures ws[1..][i] != ws[1..][j] {
          assert ws[1..][i] == ws[i + 1] && ws[1..][j] == ws[j + 1];
        }
      }
      GroupsPeel(r, t, ws[1..]);
      assert r.wallet in ws <==> r.wallet == ws[0] || r.wallet in ws[1..];
      assert r.wallet == ws[0] ==> r.wallet !in ws[1..];
      var g := Group(rs, ws[0]);
      if r.wallet == ws[0] {
        assert g == [r] + Group(t, ws[0]);
        assert Amounts(g) == [r.amount] + Amounts(Group(t, ws[0]));
      } else {
        assert g == Group(t, ws[0]);
      }
    }
  }

  /**
   * Grouping partitions the records: over a duplicate-free list of wallets
   * covering every record, the group sizes add up to the number of
   * records and the group totals to the total amount.
   */
  lemma {:induction false} GroupsPartition(rs: seq<Record>, ws: seq<string>)
    requires Distinct(ws)
    requires forall r :: r in rs ==> r.wallet in ws
    ensures GroupSizes(rs, ws) == |rs|
    ensures GroupAmounts(rs, ws) == Sum(Amounts(rs))
  {
    if rs == [] {
      EmptyGroups(ws);
    } else {
      assert rs == [rs[0]] + rs[1..];
      assert forall r :: r in rs[1..] ==> r in rs;
      GroupsPartition(rs[1..], ws);
      assert rs[0] in rs;
      GroupsPeel(rs[0], rs[1..], ws);
    }
  }

  lemma {:induction false} EmptyGroups(ws: seq<string>)
    ensures GroupSizes([], ws) == 0 && GroupAmounts([], ws) == 0.0
  {
    if ws != [] {
      EmptyGroups(ws[1..]);
    }
  }

  lemma RowsForSums(rs: seq<Record>, ws: seq<string>)
    requires forall w :: w in ws ==> HasRecords(rs, w)
    ensures TotalTxnsSum(RowsFor(rs, ws)) == GroupSizes(rs, ws)
    ensures TotalAmountSum(RowsFor(rs, ws)) == GroupAmounts(rs, ws)
  {
    var rows := RowsFor(rs, ws);
    forall i | 0 <= i < |ws|
      ensures rows[i].totalTxns == |Group(rs, ws[i])|
      ensures rows[i].totalAmount == Sum(Amounts(Group(rs, ws[i])))
    {
      RowTotalsOf(ws[i], Group(rs, ws[i]));
    }
    ColumnSums(rs, ws, rows);
  }

  lemma RowTotalsOf(w: string, g: seq<Record>)
    requires |g| > 0
    ensures Row(w, g).totalTxns == |g|
    ensures Row(w, g).totalAmount == Sum(Amounts(g))
  {
  }

  /** Rows that carry the size and total of each wallet's group add up to the group sums. */
  lemma {:induction false} ColumnSums(rs: seq<Record>, ws: seq<string>, rows: seq<FeatureRow>)
    requires |rows| == |ws|
    requires forall i :: 0 <= i < |ws| ==> rows[i].totalTxns == |Group(rs, ws[i])|
    requires forall i :: 0 <= i < |ws| ==> rows[i].totalAmount == Sum(Amounts(Group(rs, ws[i])))
    ensures TotalTxnsSum(rows) == GroupSizes(rs, ws)
    ensures TotalAmountSum(rows) == GroupAmounts(rs, ws)
  {
    if ws != [] {
      assert forall i :: 0 <= i < |ws| - 1 ==> rows[1..][i] == rows[i + 1] && ws[1..][i] == ws[i + 1];
      ColumnSums(rs, ws[1..], rows[1..]);
    }
  }

  /**
   * Over the whole table, `total_txns` adds up to the number of kept
   * records and `total_amount` to the sum of their amounts: every record
   * lands in exactly one row.
   */
  lemma TableTotals(rs: seq<Record>)
    ensures TotalTxnsSum(FeatureEngineering(rs)) == |rs|
    ensures TotalAmountSum(FeatureEngineering(rs)) == Sum(Amounts(rs))
  {
    var ws := WalletsOf(rs);
    AscendingIsDistinct(ws);
    RowsForSums(rs, ws);
    GroupsPartition(rs, ws);
  }
}
