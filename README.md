# Game player analytics views, modelled in Dafny

This project models the computational core of a Streamlit dashboard over a
table of game players. It covers the retention and funnel view, the
overview metrics, the two correlation views, the spending-prediction
evaluation, the cluster summary and the simulated monthly trend. Each view
receives the filtered player table and computes the numbers it then plots.
The model keeps those numbers, the guards around them, and the exceptions
pandas, plotly or the unguarded code would raise. Drawing is left out,
except the order of the panels `src/correlation.py` draws when `render` is set.

Modules:

- `Table` (`table.dfy`) holds the player table. A `Frame` is a set of column names plus rows in order. Every field of a row may be missing (`None` stands for NaN or NaT). The module also has the pandas column operations the views use: counting a boolean mask, `dropna` as an order-keeping filter, and sums and means that skip missing values. A missing column that pandas would raise on becomes `Err(MissingColumn(c))`. `c` is the first missing column in the order the code reads them.
- `Decimal` (`decimal.dfy`) is Python's `round(x, d)` on exact reals. It rounds half to even at `d` decimal places.
- `Retention` covers `retention.py`. `Overview` covers `overview.py`.
- `PairStats` holds what both correlation views share. `Correlation` covers `correlation.py`, which has an exception guard and returns a bare None when no pair survives. `SrcCorrelation` covers `src/correlation.py`, which has no exception guard, returns an empty table, and takes a `render` flag.
- `Prediction` covers `prediction.py`, `Clustering` covers `clustering.py`, and `Trend` covers `simulation_trend.py`.

Library results enter as parameters:

- `pearsonr` is a function from the value pairs to `(r, p)` or an exception.
- `train_test_split` with the logistic-regression fit is a function from the complete rows to an exception or to the test mask and the classifier's `predict`. The mask must put `ceil(0.3 n)` rows on the test side.
- k-means is a function from the complete rows to one label in {0, 1, 2} per row.
- The random JoinDate draw is a function from row position to date.

The trend view changes its copy of the table column by column. It is a class, `Trend.TrendFrame`, whose methods add the JoinDate, Month and PlayerID columns in place. The group-by that follows is a function. The correlation loops are methods whose loop invariants tie the collected rows to a specification function.

Numbers are exact reals. A mean over no present value is `None` (NaN).
Comparisons with a missing value are false.

## Model

| member | source | states |
|---|---|---|
| Table.FirstMissing | overview.py:10-16 | The column returned is absent and every column listed before it is present, so it is the first absent one. None is returned exactly when all are present |
| Table.MeanSkipNa | overview.py:12-14 | `Series.mean()` is defined exactly when some value is present |
| Table.Filter | clustering.py:19 | `dropna` keeps exactly as many rows as satisfy the completeness test, each one an input row that passes |
| Table.FilterAppend | clustering.py:19 | Filtering keeps the original order: filtering a concatenation concatenates the filtered parts |
| Table.MeanBounds | overview.py:12 | A mean lies between any lower and upper bound of its values |
| Table.SumBounds | retention.py:39 | A sum of n values between lo and hi lies between n·lo and n·hi |
| Table.CountMonotone | retention.py:15-17 | A weaker condition never counts fewer rows |
| Decimal.RoundIsNearest | overview.py:12 | `round(x, d)` is within half a unit of the d-th decimal place of x |
| Decimal.RoundMonotone | overview.py:12-14 | Rounding keeps the order of its arguments |
| Decimal.RoundWithinWhole | overview.py:12-14 | A value between two whole numbers stays between them after rounding |
| Retention.RetentionTable | retention.py:13-22 | No table for an empty input; otherwise the rows Day1, Day7, Day30 in that order |
| Retention.Funnel | retention.py:35-40 | Four stages in the order All, Active, Highly Engaged, Paying |
| Retention.RenderRetentionFunnel | retention.py:11-47 | Returns the retention table and funnel exactly when all three columns exist and there are rows. With the columns present but no rows, the never-assigned retention figure fails the return |
| Retention.RetentionRatesBoundedAndNested | retention.py:14-17 | Each rate is the number of players reaching 1, 2 or 4 sessions over the player count. Every rate lies in [0, 1], and Day30 <= Day7 <= Day1 |
| Retention.ReachingMonotone | retention.py:15-17 | A higher session threshold is reached by no more players |
| Retention.FunnelSharesDay7Numerator | retention.py:16-37 | The All stage is the row count, and the Active stage is the Day7 numerator |
| Retention.FunnelStagesBoundedByAll | retention.py:35-40 | Active and Highly Engaged never exceed All. With a 0/1 purchase flag, Paying lies in [0, All] |
| Retention.FunnelNotNarrowing | retention.py:35-40 | A two-player table where Paying (2) exceeds Active (0): the stages are independent counts, not a narrowing funnel |
| Overview.HighShare | overview.py:15 | The share of "High" rows is missing exactly on an empty table, and otherwise lies in [0, 100] after rounding |
| Overview.RenderOverview | overview.py:8-79 | Metrics are returned exactly when the four read columns and the four plotted columns all exist. Otherwise the failure names an absent read column (pandas) or, with every read column present, an absent plotted column (plotly), and every column listed before it is present. The player count is the row count |
| Overview.EmptyTableMetrics | overview.py:10-16 | With no rows the count is 0 and every mean and percentage is NaN |
| Overview.RoundedMeanWithinBounds | overview.py:12-14 | A rounded mean exists exactly when a value is present, and stays within whole-number bounds of the values |
| Overview.AverageAgeWithinRange | overview.py:12 | The average age stays within any whole-number range of the present ages |
| Overview.PayingPercentOfFlags | overview.py:13 | With a complete 0/1 flag, the paying percentage is 100·paid/n rounded to one place, in [0, 100] |
| Overview.HighlyEngagedPercentBounded | overview.py:15 | On a non-empty table the "High" percentage exists and lies in [0, 100] |
| PairStats.PairSeries | correlation.py:25 | The per-pair `dropna` yields at most one value pair per row |
| PairStats.PairSeriesExactly | correlation.py:25 | A value pair is kept exactly when some row has both values present and carries that pair |
| PairStats.PairSeriesLength | correlation.py:25-26 | The series has one pair per row where both values are present, which is the length the three-observation guard reads |
| PairStats.PairSeriesInOrder | correlation.py:25 | `dropna` keeps row order: the series of a concatenation is the concatenation of the series |
| PairStats.MakeRow | correlation.py:29-34 | The row names its pair, carries r and p within rounding error of 3 and 4 places, and is flagged exactly when the unrounded p < 0.05 |
| PairStats.LoopVisitsCandidates | correlation.py:20-23 | The nested loops visit exactly the six unordered pairs of the four numeric columns, in the listed order |
| PairStats.LoopPairIsCandidate | correlation.py:21-23 | Every (i, j) with i < j < 4 the loops reach is one of the six pairs |
| PairStats.InnerStep | correlation.py:21-23 | One pass of the inner loop extends the visited pairs by exactly the pair (i, j) |
| PairStats.CollectStep | correlation.py:24-36 | Visiting one more pair appends exactly that pair's row, if it has one |
| PairStats.CollectAppend | correlation.py:20-36 | The rows of two consecutive stretches of pairs are the rows of the first followed by those of the second |
| PairStats.PairRow | correlation.py:24-36 | One loop pass yields at most one row, and only for a pair with at least three complete observations. The row names that pair. `PairRowSpec` gives the row exactly |
| PairStats.Collect | correlation.py:20-36 | The loop appends at most one row per visited pair. `CollectedRow` states which rows |
| PairStats.CollectedRow | correlation.py:20-36 | A row is collected exactly when some visited pair has at least three complete observations, `pearsonr` returns (r, p) on it, and the row is the rounded result for that pair |
| PairStats.CollectEmpty | correlation.py:38-40 | Nothing is collected exactly when every visited pair is skipped |
| PairStats.Insert | correlation.py:43-47 | Inserting a row adds exactly that row to the multiset |
| PairStats.Rank | correlation.py:43-47 | The sort keeps every row: the ranked table is a permutation of its input |
| PairStats.RankSpec | correlation.py:43-47 | The ranked table is ordered by p ascending, then by absolute r descending, and is a permutation of the collected rows |
| PairStats.RankingKeys | correlation.py:43-47 | In a ranked table a smaller p, or an equal p with a larger absolute r, stands first |
| Correlation.CorrelationOf | correlation.py:11-47 | The four-None result comes exactly from a missing numeric column. A plot failure means GameGenre is absent. A ranking means GameGenre is present, with 1 to 6 rows |
| Correlation.RenderCorrelation | correlation.py:11-89 | The guarded pair loop returns exactly the outcome `CorrelationOf` specifies: missing columns, nothing computed, a plot failure, or the ranked table |
| Correlation.PairResults | correlation.py:20-36 | The guarded nested loop returns exactly the rows collected over the six pairs, in loop order |
| Correlation.VisitFrom | correlation.py:22-36 | The inner loop for column i extends the rows from the pairs before i to the pairs before i + 1 |
| Correlation.VisitPair | correlation.py:23-36 | One loop pass: too few observations or a raise skip the pair, coefficients append its row |
| Correlation.MissingColumnsExactly | correlation.py:14-17 | The four-None result comes exactly from a missing numeric column |
| Correlation.RankedTableIsPermutation | correlation.py:42-47 | The returned table is ranked, holds 1 to 6 rows, and is a permutation of the collected rows |
| Correlation.TableRowsExactly | correlation.py:19-47 | A row is in the table exactly when some candidate pair yields it |
| Correlation.NothingComputedExactly | correlation.py:38-40 | The bare None comes exactly when every pair has fewer than three observations or raised |
| Correlation.TwoObservationsExcluded | correlation.py:25-27 | A pair with only two complete observations never reaches the table |
| SrcCorrelation.CorrelationOf | src/correlation.py:11-59 | The four-None result comes exactly from a missing numeric column. A raise means `pearsonr` raised on one of the six pairs. A plot failure means GameGenre is absent. A ranking means GameGenre is present, with at most 6 rows |
| SrcCorrelation.PanelsFor | src/correlation.py:13-69 | Nothing is drawn once an exception leaves the function. A ranking is drawn under a subheader, and its table appears exactly when it has rows |
| SrcCorrelation.RenderCorrelation | src/correlation.py:11-71 | Returns exactly the outcome `CorrelationOf` specifies, whatever `render` is. It shows the panels of that outcome when `render` is set and nothing otherwise |
| SrcCorrelation.PairResults | src/correlation.py:18-32 | The unguarded pair loop raises exactly when `pearsonr` raises on a pair with at least three observations. Otherwise it returns the rows the specification collects |
| SrcCorrelation.VisitFrom | src/correlation.py:21-32 | The inner loop for column i either raises, and then some candidate raises, or extends the rows and the no-raise status to the pairs before i + 1 |
| SrcCorrelation.VisitPair | src/correlation.py:22-32 | One loop pass: too few observations skip the pair, a raise ends the loop, coefficients append its row |
| SrcCorrelation.ShowRanking | src/correlation.py:61-69 | The drawing order: subheader, the table only when it has rows, then heatmap, scatter and box plot |
| SrcCorrelation.PairStep | src/correlation.py:20-32 | One more pair leaves rows and raising status unchanged when skipped, and appends its row when `pearsonr` returns |
| SrcCorrelation.CandidateRaises | src/correlation.py:26 | A raise on any visited pair ends the whole view with that exception |
| SrcCorrelation.OutcomeCases | src/correlation.py:11-59 | The outcomes: missing columns exactly when a numeric column is absent, a raise exactly when `pearsonr` raises on one of the six pairs, a plot failure exactly when GameGenre is absent otherwise |
| SrcCorrelation.TableOutcome | src/correlation.py:34-38 | Without raises, the table is ranked, a permutation of the collected rows, and at most six rows. It is empty (not None) exactly when every pair is skipped |
| SrcCorrelation.AgreesWithGuardedVariant | src/correlation.py:34-38 | Where no call raises and a pair survives, both correlation views return the same ranked table |
| Prediction.ModelData | prediction.py:21 | `dropna` keeps as many samples as there are complete rows |
| Prediction.Accuracy | prediction.py:36 | `accuracy_score` lies in [0, 1] |
| Prediction.RenderPrediction | prediction.py:13-46 | Missing columns and too few rows (at most 50 complete) are each returned exactly under their condition. A raise is returned exactly when the learner raises or, with labels fixed to [0, 1], no actual test label is 0 or 1 (`confusion_matrix` raises). An evaluation has accuracy in [0, 1] |
| Prediction.TestSizeIsCeiling | prediction.py:29-31 | The test side has the least size k with 10k >= 3n, the ceiling of 0.3·n |
| Prediction.TestSideNonEmpty | prediction.py:22-31 | Past the guard both sides of the split are non-empty |
| Prediction.SplitPartition | prediction.py:29-31 | Train and test together hold every complete row exactly as often as the data does, and the test side has as many rows as the mask marks |
| Prediction.SideMembers | prediction.py:29-31 | A sample is on a side exactly when a position holding it is marked for that side |
| Prediction.ModelDataExactly | prediction.py:21 | A sample is in the model data exactly when some complete row gives it |
| Prediction.IncompleteRowIgnored | prediction.py:21-22 | A row with a missing modelling value is dropped before the size guard |
| Prediction.GuardBoundary | prediction.py:22-24 | 50 complete rows are too few, and 51 are enough |
| Prediction.CellsCoverFlags | prediction.py:41 | With 0/1 labels the four cells count every test sample once, and the diagonal counts the correct predictions |
| Prediction.CellsBounded | prediction.py:41 | For any labels, the cells count at most the test samples and at most the correct predictions on the diagonal |
| Prediction.AbsentClassRowZero | prediction.py:40-41 | A class absent from the actual labels has an all-zero row |
| Prediction.AccuracyFromDiagonal | prediction.py:36-41 | Accuracy is at least the diagonal over the test size, and equals it with 0/1 labels |
| Prediction.EvaluationOfTestSide | prediction.py:29-41 | The evaluation reads predictions on the test side only, which holds `ceil(0.3 n)` samples, at least one of them with actual label 0 or 1 |
| Prediction.BinaryLabelsAreEvaluated | prediction.py:21-41 | When every purchase label is 0 or 1, a fitted classifier is always evaluated: `confusion_matrix` does not raise |
| Prediction.Side | prediction.py:29-31 | One side of the split never holds more samples than the data |
| Prediction.Confusion | prediction.py:41 | A 2x2 matrix with rows for actual 0 and 1 and columns for predicted 0 and 1. Its cells count at most the test samples, and its diagonal at most the correct predictions |
| Clustering.ClusterData | clustering.py:19 | `dropna` keeps as many rows as have all three features |
| Clustering.RenderClustering | clustering.py:13-42 | Missing columns and too few rows (at most 10 complete) are returned exactly under their condition. Otherwise there is one assignment per complete row, in order, carrying the k-means label of that row, and the summary is the grouped means of those assignments |
| Clustering.Attach | clustering.py:31-32 | Row i of the copy keeps the features of complete row i and gets label i |
| Clustering.GroupRow | clustering.py:41 | The row is labelled with its cluster. `SummaryExactly` and `GroupMeanWithin` state its means |
| Clustering.Summary | clustering.py:41 | Every summary row is a non-empty group holding that group's means rounded to two places |
| Clustering.ClusterDataExactly | clustering.py:19 | A feature triple is kept exactly when some complete row carries it |
| Clustering.ClusterDataInOrder | clustering.py:19 | `dropna` keeps the original row order |
| Clustering.GuardBoundary | clustering.py:20-22 | 10 complete rows are too few, and 11 are enough |
| Clustering.GroupsPartition | clustering.py:28-32 | The three label groups together hold every row once |
| Clustering.GroupMembers | clustering.py:41 | A group holds the features of exactly the rows with that label |
| Clustering.LabelsAscending | clustering.py:41 | The labels `groupby` finds are strictly ascending |
| Clustering.LabelsComplete | clustering.py:41 | Every label with a non-empty group is found |
| Clustering.SummaryExactly | clustering.py:41 | One summary row per label that occurs, in ascending label order, each holding that group's means rounded to two places |
| Clustering.GroupMeanWithin | clustering.py:41 | A rounded group mean stays within whole-number bounds of its values |
| Clustering.SummaryAgesWithin | clustering.py:41 | Summary ages stay within any whole-number age range of the data |
| Trend.TrendFrame.Copy | simulation_trend.py:13 | The copy starts with the input's columns and rows |
| Trend.TrendFrame.AddJoinDate | simulation_trend.py:14-18 | The copy gains a JoinDate column from the draw only when it had none |
| Trend.TrendFrame.DeriveMonth | simulation_trend.py:19 | The copy gains one Month key per row, its rows unchanged |
| Trend.TrendFrame.AddPlayerId | simulation_trend.py:20-21 | The copy gains IDs 1..n only when it had no PlayerID column |
| Trend.GroupByMonth | simulation_trend.py:23-27 | Fails exactly when InGamePurchases or SessionsPerWeek is absent; otherwise one row per distinct key |
| Trend.Aggregate | simulation_trend.py:23-27 | A month's row carries its key, and it never counts more new players than the month has rows. `MonthAggregates` adds when the session mean exists |
| Trend.TrendOf | simulation_trend.py:12-33 | Fails exactly when InGamePurchases or SessionsPerWeek is absent. Otherwise it has at most one row per input row. `TrendTableShape` gives the rows |
| Trend.RenderTrend | simulation_trend.py:12-33 | Copying, adding the columns in place and grouping yields exactly `TrendOf` of the input |
| Trend.BeforeIsStrictTotal | simulation_trend.py:23 | The key order is a strict total order |
| Trend.InsertKeySpec | simulation_trend.py:23 | Inserting a key keeps the keys ascending and adds exactly that key |
| Trend.InsertKey | simulation_trend.py:23 | Inserting a key keeps it and adds at most one entry |
| Trend.GroupKeys | simulation_trend.py:23 | There are at most as many groups as rows, and none exactly when there are no rows |
| Trend.GroupKeysSpec | simulation_trend.py:23-27 | The group keys are strictly ascending and are exactly the keys present |
| Trend.TrendTableShape | simulation_trend.py:23-33 | The trend has one row per distinct month, in ascending order. Each row holds that month's non-missing ID count, purchase sum and session mean |
| Trend.TrendFailsExactly | simulation_trend.py:23-27 | The view fails exactly when InGamePurchases or SessionsPerWeek is absent |
| Trend.SynthesisedColumns | simulation_trend.py:12-21 | The copy has as many rows as the input. Synthesised IDs are 1..n, synthesised dates are the draw, and existing dates are kept |
| Trend.GroupsCoverRows | simulation_trend.py:23-27 | Grouping by distinct keys covering every row loses and duplicates no row |
| Trend.NewPlayersSumToRowCount | simulation_trend.py:20-27 | With synthesised IDs, the monthly new-player counts add up to the number of rows |
| Trend.MonthsOfOneYear | simulation_trend.py:15-19 | Strictly ascending months of one year number at most twelve |
| Trend.SynthesisedYearHasTwelveMonths | simulation_trend.py:14-27 | Dates drawn from 2024 give months of 2024 only, at most twelve of them |
| Trend.MonthAggregates | simulation_trend.py:23-27 | A month's new players never exceed its rows, and its session mean exists exactly when one of its rows has a session count |

## Left out

- Streamlit output (`st.*` calls) is not modelled, except the sequence of panels `src/correlation.py` draws under `render` (`SrcCorrelation.PanelsFor`). Plotly figure objects and figure contents are not modelled. The views' return values are modelled as the numbers, tables and outcomes above. The only figure behaviour modelled is that plotly raises when a figure names an absent column.
- Floating point is not modelled: all arithmetic is on exact reals. Display formatting (`:.1%`, `:.1f%`, `:.2f%`) is also left out. `Decimal.Round` rounds exact decimals half to even. Python rounds the binary double, so results can differ on values whose decimal form ends in an exact 5.
- The "Variable Pairs" display label (`"col1 vs col2"`) is not modelled as text. Each table row carries its two columns instead.
- The correlation heatmap's `corr()` matrix and the Styler highlighting are figure content and are left out.
- `pearsonr`, `StandardScaler`, `KMeans`, `train_test_split` and `LogisticRegression` are not modelled. They enter as opaque parameters, constrained only by what the code relies on: the mask size and one k-means label per row.
- Prediction.RenderPrediction: does not model which inputs make `train_test_split` or `fit` raise (a singleton class under stratification, a single-class training set), because those rules live in the library. That exception is part of the opaque learner result. The raise of `confusion_matrix` when no actual test label is 0 or 1 is modelled.
- Prediction.RenderPrediction: the stratified proportions and the shuffle order of the split are not modelled, only that it partitions the complete rows with `ceil(0.3 n)` on the test side.
- A `pearsonr` result of NaN (for example on a constant column) is not modelled. r and p are always reals.
- Plotly raising on missing or negative `size` values in the scatter plots is not modelled.
- `Trend.MonthKey` orders keys as the "YYYY-MM" strings sort, which assumes four-digit years. A JoinDate column that is not of datetime type makes `.dt` raise, and that is not modelled. Dates are `Date` values.
- The random JoinDate draw with seed 42 is a parameter `draw`. The model does not reproduce numpy's generator.
- The dashboard's filter step, the data loader, the PDF report export and the app entry point are not part of this model.
- pandas' exact exception types and messages are not modelled, only which column is missing.
