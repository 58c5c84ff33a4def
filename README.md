# Wallet credit scores from lending-protocol events — a verified model

This project models the discrete core of `score_generator.py`, which turns
the raw events of a lending protocol (deposits, borrows, repayments,
redemptions, liquidations) into one credit score per wallet:

- **Record normalisation** (`Records`, `records.dfy`). The loop in
  `generate_scores` builds one record per raw event: the wallet
  (`userWallet`), the action, the amount, the asset symbol and the USD
  price. It is the method `BuildRecords`. A numeric field whose key is
  absent becomes 0. A field pandas cannot read as a number becomes NaN.
  `dropna(subset=['wallet', 'amount'])` then keeps the rows that have a
  wallet and a non-NaN amount (`DropNa`).
- **Feature aggregation** (`Features`, `features.dfy`). `feature_engineering`
  groups the kept records by wallet. It emits one row per wallet, in
  ascending wallet order, because `groupby` sorts its keys. Each row holds
  the transaction count, the counts of the five named actions, the sum,
  mean and sample standard deviation of the amounts, the mean of the
  non-NaN prices and the number of distinct non-null assets. NaN statistics
  are filled with 0.
- **Wallet order** (`StringOrder`, `string_order.dfy`). Python's string
  comparison: lexicographic on code points, with a prefix first. It is
  proved to be a strict total order.
- **Score mapping and the top/bottom tables** (`Ranking`, `ranking.dfy`).
  The cluster labels 0..4 map through the fixed table
  {0: 900, 1: 700, 2: 500, 3: 300, 4: 100}. The top table is the score
  table sorted by descending score and cut to 10 rows. The bottom table is
  sorted by ascending score and cut to 10 rows.
- **The pipeline** (`Pipeline`, `pipeline.dfy`). `GenerateScores` runs
  these steps in order. The cluster labels are an input, because
  `StandardScaler`, `PCA` and `KMeans` are not modelled. With fewer than
  five wallets the method returns an error, as `PCA(n_components=5)` and
  `KMeans(n_clusters=5)` raise one. With no wallet at all an earlier step raises first (`dropna` on a frame without the `wallet` and `amount` columns, or the scaler on an empty table); the outcome, an error and no files, is the same.

Amounts and prices are exact `real`s. A NaN or missing value is `None` of
an `Option`. The type `RawNumber = Absent | Numeric(value) | Unparsable`
says what a numeric field of `actionData` held before `pd.to_numeric`.

The model follows the code on amounts. `pd.to_numeric(..., errors='coerce')`
turns an unparsable amount into NaN, and the `dropna` on `amount` then
discards the record. Only an absent amount becomes 0
(`Records.SurvivalRule`). Separately, pandas' default `sort_values` does
not promise an order for equal scores, so no contract here states one.

## Model

| member | source | states |
|---|---|---|
| `Records.BuildRecords` | score_generator.py:28-39 | the loop yields `NormalizeAll(raw)`: exactly one record per raw event, in input order, each built from its event by `Normalize` (wallet, action, asset copied; amount and price through `ToNumeric`, the `pd.to_numeric` with its default of 0) |
| `Records.DropNa` | score_generator.py:41 | `dropna` keeps every row that has a wallet and an amount and only such rows, never more rows than it was given, all rows when none lacks either, and a single row exactly when it has both |
| `Records.DropNaConcat` | score_generator.py:41 | `dropna` works row by row: it keeps the rows in their original order, each as often as it occurs |
| `Records.SurvivalRule` | score_generator.py:31-41 | (about `Normalize` and `ToNumeric`) an event survives exactly when its wallet is present and its amount is absent or numeric; an absent amount becomes 0; an unparsable amount drops the event |
| `Records.PriceNeverDrops` | score_generator.py:38-41 | changing the price never changes whether an event survives; an absent price becomes 0, an unparsable one stays NaN |
| `Records.KeptWallets` | score_generator.py:28-41 | the kept records carry exactly the wallets of the surviving events |
| `Records.KeptCount` | score_generator.py:28-41 | there are exactly as many kept records as surviving events |
| `StringOrder.BelowIrreflexive` | score_generator.py:9 | no wallet sorts before itself |
| `StringOrder.BelowAsymmetric` | score_generator.py:9 | two wallets never sort before each other |
| `StringOrder.BelowTransitive` | score_generator.py:9 | the wallet order is transitive |
| `StringOrder.BelowTotal` | score_generator.py:9 | of two distinct wallets one sorts before the other |
| `StringOrder.InsertSorted` | score_generator.py:9 | adding a key to a strictly ascending key list keeps it strictly ascending, with exactly the old keys and the new one |
| `Features.WalletsOf` | score_generator.py:9 | the group keys are strictly ascending, hold exactly the wallets of the records, and are no more than the records |
| `Features.Group` | score_generator.py:9 | a wallet's group holds every record of that wallet and no other record, and is non-empty when the wallet has a record |
| `Features.GroupMultiplicity` | score_generator.py:9-11 | a wallet's group holds each of that wallet's records exactly as many times as the records do, and nothing else |
| `Features.FeatureEngineering` | score_generator.py:8-22 | one row per distinct wallet of the records and no other; rows in strictly ascending wallet order, so none is repeated; each row is the aggregate of that wallet's non-empty group |
| `Features.RowCounts` | score_generator.py:11-21 | (about `Row`) `total_txns` is the group size; the five action counts together are at most `total_txns`; `unique_assets` is at most `total_txns` |
| `Features.ActionCountsBounded` | score_generator.py:12-16 | the five `CountAction` counts of a group add up to at most its size |
| `Features.AssetsBounded` | score_generator.py:21 | a group has no more distinct non-null assets (`AssetsOf`) than records |
| `Features.RowAmounts` | score_generator.py:17-22 | (about `Row` and `Std`) `avg_amount * total_txns == total_amount`; `std_amount` is the filled NaN (`Zero`) exactly for a one-record wallet, and otherwise the root of a non-negative sample variance |
| `Features.EqualValuesNoSpread` | score_generator.py:19 | two or more equal amounts have `SampleVariance` 0, so their standard deviation is 0 |
| `Features.VarianceNonNegative` | score_generator.py:19 | the sample variance (`SampleVariance`, ddof 1) is never negative |
| `Features.MeanBounds` | score_generator.py:18 | a mean lies between any lower and upper bound of its values |
| `Features.AveragesInRange` | score_generator.py:18-22 | `avg_amount` lies between the smallest and the largest amount of the wallet; `avg_price_usd` (`AvgPrice`) is the filled 0 when no price of the wallet is numeric |
| `Features.AvgPriceInRange` | score_generator.py:20 | for a wallet with a numeric price, `avg_price_usd` lies between any lower and upper bound of its numeric prices, NaN prices skipped |
| `Features.GroupsPartition` | score_generator.py:9-17 | grouping partitions the records: over a duplicate-free wallet list covering them, group sizes add up to the record count and group totals to the total amount |
| `Features.TableTotals` | score_generator.py:11-17 | over the whole table, `total_txns` adds up to the number of kept records and `total_amount` to the sum of their amounts |
| `Ranking.ScoreOf` | score_generator.py:50-52 | the score of a label in [0, 5) is one of 100, 300, 500, 700, 900, namely 900 - 200 * label |
| `Ranking.ScoreMapDecreasing` | score_generator.py:50 | the score map is strictly decreasing on the labels, in both directions |
| `Ranking.AttachScores` | score_generator.py:51-52 | the score table keeps the wallet column and gives the i-th wallet the score of the i-th label |
| `Ranking.ScoresInTiers` | score_generator.py:50-52 | every score of the result table is one of the five tiers |
| `Ranking.SortByScore` | score_generator.py:56-57 | sorting yields a permutation of the rows ordered by score in the requested direction |
| `Ranking.TakeRanked` | score_generator.py:56-57 | sort-then-head(n) gives min(n, size) rows drawn from the table, ordered by score, every kept row ranking at least as well as every row left out |
| `Ranking.TopWallets` | score_generator.py:56 | the top table has min(10, n) rows drawn from the table, in descending score order, and every included score is at least every excluded score |
| `Ranking.BottomWallets` | score_generator.py:57 | the bottom table has min(10, n) rows drawn from the table, in ascending score order, and every included score is at most every excluded score |
| `Ranking.TablesInTiers` | score_generator.py:56-57 | the top and bottom tables hold only scores of the result table, so only the five tiers |
| `Pipeline.ScoreTable` | score_generator.py:51-54 | the result table has one row per cluster label, scored from that label |
| `Pipeline.ScoredWallets` | score_generator.py:41-54 | the result table lists exactly the wallets of the surviving events, in strictly ascending order, so each appears once |
| `Pipeline.TotalTxnsCountSurvivors` | score_generator.py:11-43 | (about `WalletFeatures`) the `total_txns` column adds up to the number of surviving raw events |
| `Pipeline.GroupCountsSurvivors` | score_generator.py:9-41 | a wallet's group among the kept records has one record per surviving raw event of that wallet |
| `Pipeline.TotalTxnsPerWallet` | score_generator.py:11-43 | each wallet's `total_txns` is the number of its surviving raw events |
| `Pipeline.GenerateScores` | score_generator.py:28-57 | fewer than five wallets is an error; otherwise the full table has one row per wallet of a surviving event, in ascending wallet order, each scored from its label, every score in the five tiers, and the top and bottom tables are its ten best and ten worst rows |

## Left out

- Reading the JSON file (score_generator.py:25-26), writing the three CSV files and the completion message (score_generator.py:55-58): I/O. `GenerateScores` takes the parsed events and returns the three tables.
- Timestamp parsing with `pd.to_datetime` (score_generator.py:33, 42): a library call whose result no feature uses.
- `StandardScaler`, `PCA` and `KMeans` (score_generator.py:45-48): floating-point numerics. The cluster labels are an input, constrained to [0, 5) and to one label per feature row, as `KMeans(n_clusters=5)` guarantees. Of the ways they can fail, only their refusal of fewer than five samples is modelled, as the error result of `GenerateScores`.
- Features.RowAmounts: the standard deviation for two or more records is kept as the square root of the exact sample variance (`Sqrt(variance)`), not evaluated, because square roots are not modelled.
- Floating-point rounding: amounts, prices, sums and means are exact reals.
- Non-finite numbers and float overflow: `json.load` and `pd.to_numeric` accept infinite amounts and prices (score_generator.py:26, 36, 38), which are not NaN and so survive `dropna`; `StandardScaler` then raises on the infinite feature (score_generator.py:46), as it does when a float sum overflows. These inputs are outside the model's domain: `GenerateScores` reports success for them where the source raises.
- Ranking.SortByScore: the model sorts with one particular insertion sort; pandas' default `sort_values` is not stable, so the order of equal scores in the top and bottom tables is not modelled and no contract speaks of it.
- The types of raw JSON values: a wallet, action or asset is a string or absent, and a numeric field is absent, numeric or unparsable (a JSON `null` counts as unparsable). An `actionData` that is present but not an object, which makes the source raise, is not modelled.
