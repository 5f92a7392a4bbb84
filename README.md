# Crypto ESG dashboard: merge, valuation and insight pipeline

This project models the aggregation core of the crypto ESG dashboard (`utils/esg_logic.py`) in Dafny and proves properties of that model. The pipeline has three stages:

- **Merge** (`merge_price_and_esg`, `compute_weighted_esg`, `categorize_esg_score`). The live price table is inner-joined with the static ESG reference table on the `market` symbol. Each joined row gets an ESG Score, the unweighted mean of `esg_e`, `esg_s` and `esg_g`. It also gets an ESG Rating from the threshold ladder 80 / 70 / 60 / 50 / 40.
- **Valuation** (`calculate_portfolio_metrics`). Each row gets its Holding from a holdings map. A symbol the map does not list gets 0. When no map is passed, a five-symbol sample portfolio is used. Each row also gets Value (USD) = Holding × last_price. From these columns come the total value, four value-weighted averages (ESG score, E, S, G) and the number of positive holdings. The averages are forced to 0 when the total is not positive.
- **Insights** (`get_esg_insights`). From the valued table it picks, in this order:
  - the first row with the highest ESG Score;
  - the first row with the lowest ESG Score;
  - the number of rows scoring at least 70, out of all rows;
  - the first row with the highest environmental score.

  An empty table is an error.

Tables are sequences of row records. A price that did not parse is the missing value (`None`), which the sums skip, just as the dataframe sums skip NaN. The holdings map is a `map<string, real>`. Arithmetic is exact over `real`.

Points of the code's behaviour that are easy to miss:

- A row whose price did not parse is **kept** by the join, with a missing price. Its value is missing too, so the sums skip it. It is still counted in `num_holdings` when its holding is positive.
- The default sample portfolio replaces only an **absent** holdings map. An empty map is used as given, so every holding is 0.
- The weighted averages are zeroed whenever the total is **not positive**, not only when it is exactly 0.
- The thresholds are closed: a score of exactly 40 is "C+ (Below Average)". `Scenario.SampleMerge` shows it on an example.
- The metrics are summed over **all** rows, not only over the positive holdings. Lemma `Portfolio.MetricsOverPositiveHoldings` shows the two agree when no quantity is negative.

Files:

| file | contents |
|---|---|
| `wrappers.dfy` | `Option` and `Result` |
| `rating.dfy` | the rating ladder |
| `merge.dfy` | the row types and the join |
| `portfolio.dfy` | holdings, values and metrics |
| `insights.dfy` | the four insights |
| `scenario.dfy` | a worked example on three symbols |

## Model

| member | source | states |
|---|---|---|
| `Merge.EsgScore` | utils/esg_logic.py:4-7 | the ESG Score lies between the least and the greatest of the three pillar scores; it is in [0, 100] when all three pillars are; three equal pillars give that value |
| `Rating.Categorize` | utils/esg_logic.py:9-22 | the rating is the highest-ranked category whose threshold the score reaches (≥80 A+, ≥70 A, ≥60 B+, ≥50 B, ≥40 C+, else C), i.e. the first match of the top-down ladder |
| `Rating.CategorizeMonotone` | utils/esg_logic.py:9-22 | a higher score never gets a lower-ranked rating |
| `Rating.LabelInjective` | utils/esg_logic.py:11-22 | the six labels are pairwise distinct, so the label text and the category determine each other |
| `Rating.HighScoreIffRatedA` | utils/esg_logic.py:13-14 | a score is at least 70 exactly when its rating is "A (Very Good)" or better |
| `Merge.Combine` | utils/esg_logic.py:30-36 | a joined row's score is the mean of its pillars and its rating is the category of that score |
| `Merge.JoinRow` | utils/esg_logic.py:30 | every row joined to a price row has that row's symbol and correctly derived score and rating |
| `Merge.MergePriceAndEsg` | utils/esg_logic.py:24-38 | an empty price table or ESG table gives an empty merge; every merged row's ESG Score is the mean of its pillars and its ESG Rating is `Categorize` of that score |
| `Merge.JoinRowMembership` | utils/esg_logic.py:30 | a row is joined to a price row exactly when it combines that price row with an ESG row of the same symbol |
| `Merge.MergeSound` | utils/esg_logic.py:30 | every merged row combines a price row and an ESG row of the same symbol |
| `Merge.MergeComplete` | utils/esg_logic.py:30 | every pair of a price row and an ESG row with the same symbol appears, combined, in the merge |
| `Merge.MergeMembership` | utils/esg_logic.py:30 | inner join, both directions: a row is in the merge exactly when it combines a price row and an ESG row that share their symbol |
| `Merge.MergeSymbols` | utils/esg_logic.py:30 | the symbols of the merge are exactly the symbols present in both tables |
| `Merge.JoinRowCount` | utils/esg_logic.py:30 | with unique ESG symbols, a price row joins with one ESG row if its symbol has ESG data, and with none otherwise |
| `Merge.MergeUniqueSymbols` | utils/esg_logic.py:30 | with unique symbols in both tables, no symbol appears twice in the merge |
| `Merge.MergeRowCount` | utils/esg_logic.py:30 | with unique symbols in both tables, the merge has exactly as many rows as the tables share symbols |
| `Portfolio.ApplyHoldings` | utils/esg_logic.py:53-56 | the valued table keeps every input row in order, including rows with zero holding; a row's Holding is its map quantity, or 0 when the map lacks the symbol; its Value is Holding × last_price, missing when the price is missing |
| `Portfolio.WeightedAverage` | utils/esg_logic.py:61-67 | with a positive total, the average times the total is the weighted sum; otherwise the average is exactly 0 |
| `Portfolio.PositiveHoldings` | utils/esg_logic.py:75 | the rows kept are exactly the rows with Holding > 0, and there are no more of them than rows |
| `Portfolio.PositiveHoldingsMultiset` | utils/esg_logic.py:75 | the filter keeps each row with Holding > 0 exactly as many times as the table has it and no other row, so its length, num_holdings, is the number of positive rows |
| `Portfolio.CalculatePortfolioMetrics` | utils/esg_logic.py:40-78 | uses the default portfolio only when no map is given; returns the valued table; total = sum of values; each weighted metric is the weighted average, and all four are 0 when the total is not positive; num_holdings = number of rows with Holding > 0, at most the row count |
| `Portfolio.NoValueZeroTotal` | utils/esg_logic.py:59 | when every value is 0 or missing, the total is 0 |
| `Portfolio.NoValueNoWeightedMetrics` | utils/esg_logic.py:59-67 | when every row has zero holding or a missing price, the total and all four weighted metrics are 0, with no division |
| `Portfolio.PositiveTotalHasPositiveRow` | utils/esg_logic.py:59-61 | with no negative value, a positive total implies some row of positive value |
| `Portfolio.WeightedSumAtLeast` | utils/esg_logic.py:62-65 | with no negative value, if every positively valued row's metric is ≥ lo, the weighted sum is ≥ lo × total |
| `Portfolio.WeightedSumAtMost` | utils/esg_logic.py:62-65 | with no negative value, if every positively valued row's metric is ≤ hi, the weighted sum is ≤ hi × total |
| `Portfolio.WeightedAverageBounds` | utils/esg_logic.py:61-65 | with no negative value and a positive total, each weighted metric lies in any interval that holds the metric of every positively valued row |
| `Portfolio.LeastPositiveExists` | utils/esg_logic.py:61-65 | when some row has a positive value, one such row has the least metric among them |
| `Portfolio.GreatestPositiveExists` | utils/esg_logic.py:61-65 | when some row has a positive value, one such row has the greatest metric among them |
| `Portfolio.WeightedAverageWithinPositiveRows` | utils/esg_logic.py:61-65 | with no negative value and a positive total, each weighted metric lies between the least and the greatest metric of the positively valued rows |
| `Portfolio.ZeroHoldingsAddNothing` | utils/esg_logic.py:53-65 | with no negative holding, dropping the zero-holding rows changes neither the total nor any weighted sum |
| `Portfolio.MetricsOverPositiveHoldings` | utils/esg_logic.py:53-76 | with no negative quantity in the map, the total and the four weighted metrics equal those computed over the positive holdings alone |
| `Portfolio.DefaultHoldingsPositive` | utils/esg_logic.py:44-50 | every quantity of the default sample portfolio is positive, so its positive symbols are all five of its symbols |
| `Portfolio.ScoreSumIsMeanOfPillarSums` | utils/esg_logic.py:62-65 | on merged rows, the score's weighted sum is the mean of the three pillars' weighted sums |
| `Portfolio.WeightedEsgIsMeanOfPillars` | utils/esg_logic.py:61-67 | on merged rows, weighted_esg is the mean of weighted_environmental, weighted_social and weighted_governance, also when all are forced to 0 |
| `Portfolio.ApplyHoldingsCons` | utils/esg_logic.py:53 | valuing a table row by row: the first row's holding is its map quantity and the rest is the rest valued |
| `Portfolio.PositiveHoldingsSymbols` | utils/esg_logic.py:53-75 | with unique symbols, num_holdings is the number of the table's symbols that the map gives a positive quantity |
| `Portfolio.DefaultNumHoldings` | utils/esg_logic.py:42-75 | with no map and unique symbols, num_holdings is the number of the table's symbols listed in the default sample portfolio |
| `Insights.IdxMax` | utils/esg_logic.py:85-98 | returns the first position holding the greatest value of a non-empty column |
| `Insights.IdxMin` | utils/esg_logic.py:86 | returns the first position holding the least value of a non-empty column |
| `Insights.FirstMaxUnique` | utils/esg_logic.py:85-98 | there is only one first position of the maximum, so the row chosen is determined |
| `Insights.Column` | utils/esg_logic.py:85-98 | the column has one entry per row, the row's ESG Score, esg_e, esg_s or esg_g |
| `Insights.CountAtLeast` | utils/esg_logic.py:92-93 | the number of entries at least the threshold is at most the number of rows |
| `Insights.GetEsgInsights` | utils/esg_logic.py:80-101 | an empty table is an error, and only an empty table is; otherwise exactly four insights, in this order: the first top-scoring row's name and score; the first bottom-scoring row's name and score; the count of scores ≥ 70 and the row count, the count being at most the row count; the first row with the highest esg_e, with its name and esg_e |
| `Insights.HighScoreCountIsRatedA` | utils/esg_logic.py:92 | on merged rows, the number scoring at least 70 is the number rated "A (Very Good)" or "A+ (Excellent)" |
| `Scenario.SampleMerge` | utils/esg_logic.py:24-38 | BTC 50000 and ETH 3000 with ESG 40/40/40 and 70/70/70, and XRP with no ESG entry: the merge is the BTC and ETH rows only, rated "C+ (Below Average)" and "A (Very Good)" |
| `Scenario.SampleValued` | utils/esg_logic.py:53-56 | one unit of each gives Holdings 1 and Values 50000 and 3000 |
| `Scenario.TwoRowSums` | utils/esg_logic.py:59-65 | on a two-row table, the total and the weighted sums are the sums of the two rows' terms |
| `Scenario.SampleMetrics` | utils/esg_logic.py:40-78 | the sample portfolio is worth 53000, its weighted ESG is (40·50000 + 70·3000)/53000, and it has 2 holdings |
| `Scenario.SampleInsights` | utils/esg_logic.py:80-101 | the sample insights are Ethereum highest (70), Bitcoin lowest (40), 1 of 2 rows ≥ 70, and Ethereum environmental leader (70) |

The pipeline is deterministic: the same inputs always give the same outputs. This holds by construction, since every stage is a function.

## Left out

- `app.py` is not part of this model. It holds the Streamlit page, the charts, the 30-second data cache and the auto-refresh. It builds a five-entry holdings map and filters `Holding > 0` (`Portfolio.PositiveHoldings` is that filter). Its display-side selections are left out too: the largest position by `Value (USD)` (`idxmax`, app.py:128) and the five-row ESG leaderboard (`nlargest(5, "ESG Score")`, app.py:317).
- `utils/coindcx_api.py` is not part of this model. It is an HTTP fetch of the price table. Reading the ESG table from its CSV file is left out too. Both tables are inputs.
- The text-to-number parsing done by `pd.to_numeric(..., errors='coerce')` is left out. The model takes the coerced column: a number, or `None` for a price that did not parse.
- Updating in place is left out. The source overwrites the caller's `last_price` column and writes the score, rating, Holding and Value columns into the caller's dataframe. `calculate_portfolio_metrics` returns that same object. The model returns new sequences instead, so it does not capture that the caller's tables are changed (aliasing).
- Floating point is left out. Sums, means and quotients are exact over `real`, so float rounding is not modelled. NaN appears only as a missing price. NaN in the ESG columns or in holdings quantities is not modelled.
- `Merge.MergePriceAndEsg` gives each matching price/ESG pair exactly once when a table repeats a symbol. It orders them by price row, then by ESG row. The order pandas uses among such duplicates is not claimed. The counting lemmas assume unique symbols.
- Column-name clashes between the two tables (pandas' `_x`/`_y` suffixes) are left out. The exchange's extra ticker fields are left out too.
- The wording of the four insight lines is left out: the emoji and the `:.1f` rounding. Each insight is a record of the chosen row's name and value, or of the two counts.
