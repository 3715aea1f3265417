# Fraud detection core of `Failas.py`, modelled in Dafny

`Failas.py` reads card transactions or insurance claims from text lines and flags likely fraud
in two ways: a z-score threshold test on the amounts, and a search of the transaction graph
(card → merchant, policy → claim type) for cheap walks whose total still exceeds a minimum.
This project models the parts of that program that are neither I/O, plotting nor numeric
library calls. It proves what they compute:

- **Record parsing** (`TransactionData.__parse_data`). This is module `Transactions`, class
  `TransactionData`. Lines are stripped and split on commas. Blank lines are skipped. The
  fields are read in the order `__parse_data` reads them, so the first problem decides between
  `IndexError` and `ValueError`. Each field lands where `__parse_data` puts it.
  - The parse stops at the first line that raises.
  - Otherwise the three parallel lists get one entry per non-blank line, in input order.
  - An unknown data type yields no records.
- **Graph construction** (`build_transaction_graph`). A graph here is a value: the node list in
  first-appearance order and a map from ordered pairs to weights. This is module `Graphs`.
  - Each record adds one edge, weighted by its amount.
  - A repeated pair overwrites the weight; it does not add to it.
- **Path detector** (`GraphFraudDetector.detect`). This is module `GraphDetection`. Its two
  loops visit the pairs of node positions `i < j` in lexicographic order. For each pair, a
  verified cheapest-walk search stands in for `has_path` and `dijkstra_path`. An inner loop sums
  the walk's weights. The walk is reported when its total exceeds `min_path_amount`.
- **Threshold selection** (`ThresholdDetector.detect`). This is module `ThresholdDetection`.
  - It computes the absolute z-scores and the ascending positions above the threshold.
  - Each selected z-score is divided by the threshold.
  - For a positive threshold, and without division or square roots, this is the test
    `(a - mean)² > t²·variance`. A negative threshold flags every position.
- **Factories** (`DetectorFactory`, `ProcessorFactory`). This is module `Factories`:
  - dispatch on the kind's name;
  - the constructors' keyword defaults;
  - `ValueError` for an unknown kind and `TypeError` for a keyword the constructor lacks.

Modules `Wrappers` (Option, Result), `Text` (Python's `strip` and `split`) and `Sequences`
(de-duplication in first-appearance order) support these.

Where the code and the specification of this system disagree, the model follows the code:

- **Repeated pairs.** The specification asks for their weights to be added up. `DiGraph.add_edge`
  overwrites them, and `Transactions.TransactionGraphWeights` proves the overwrite.
- **Self-loops.** The specification says there are none. The code adds one whenever a record's
  source equals its destination, and so does the model.
- **The outlier example.** The specification says index 3 of the amounts 10, 12, 11, 500 is
  flagged at threshold 2. The code computes a z-score of about 1.73 for it, so nothing is
  flagged. `ThresholdDetection.OutlierExampleNotFlagged` proves that.

## Model

| member | source | states |
|---|---|---|
| `Text.Strip` | Failas.py:27-30 | The stripped line is empty exactly when the line is all whitespace. |
| `Text.StripIsSlice` | Failas.py:27-30 | The stripped line is the contiguous slice of the line that follows its leading whitespace. |
| `Text.StripRemovesOnlySpaces` | Failas.py:27-30 | Everything of the line before and after the stripped slice is whitespace. |
| `Text.StripTrimmed` | Failas.py:27-30 | A non-empty stripped line neither starts nor ends with whitespace. |
| `Text.Split` | Failas.py:30 | Splitting yields at least one piece, and no piece contains the separator. |
| `Text.JoinSplit` | Failas.py:30 | Joining the pieces of a split with the separator gives back the text. |
| `Text.SplitJoin` | Failas.py:30 | Splitting a join of separator-free pieces gives back the pieces. |
| `Transactions.BlankIffStripsToNothing` | Failas.py:27-28 | A line is skipped exactly when it is all whitespace. |
| `Transactions.Fields` | Failas.py:30 | A line's fields are comma-free pieces that join back, with commas, into the stripped line. |
| `Transactions.ParseLine` | Failas.py:26-60 | For one line: a blank line, or a line of an unknown data type, adds nothing. A non-blank line of a known type succeeds exactly when it has four fields and its numeric and date fields convert. A success yields an entry of the data type's kind. |
| `Transactions.FirstProblem` | Failas.py:33-53 | Of a sequence of field accesses, the exception of the first that fails. There is none exactly when every access succeeds. |
| `Transactions.ParseLineRaisesFirstProblem` | Failas.py:32-53 | A non-blank line of a known type raises exactly when one of its accesses fails, in the order `__parse_data` makes them. It raises that access's `IndexError` (missing field) or `ValueError` (failed conversion): card `float(parts[0])`, `float(parts[1])`, `parts[2]`, `parts[3]`; claim `parts[0]`, `float(parts[1])`, `parts[2]`, `parts[3]`, then the date conversion. |
| `Transactions.ParseLineFields` | Failas.py:33-53 | A parsed card takes its timestamp and amount from `float` of fields 0 and 1, its merchant from field 2 and its card from field 3. A parsed claim takes its date from field 0, its amount from `float` of field 1, its policy from field 2, its claim type from field 3, and its timestamp from converting its date. |
| `Transactions.CardLineRoundTrip` | Failas.py:30-45 | Four comma-free, convertible fields written as a card line parse back into a card transaction holding exactly those fields. |
| `Transactions.ClaimLineRoundTrip` | Failas.py:30-59 | Four comma-free fields with a convertible date and amount, written as a claim line, parse back into a claim holding exactly those fields, timestamped by the date. |
| `Transactions.Outcome` | Failas.py:26-60 | The loop over the lines' results keeps at most one entry per line. The lemmas below state which entries it keeps and which error it stops with. |
| `Transactions.ParseAll` | Failas.py:25-60 | The parse of a list of lines yields at most one entry per line. |
| `Transactions.OutcomeStops` | Failas.py:26-60 | Once a line raises, no later line changes the outcome. |
| `Transactions.OutcomeStep` | Failas.py:26-60 | Each further line either raises, ending the loop with its error, or appends the entry it yields. |
| `Transactions.OutcomeFailsAtFirstFailure` | Failas.py:26-60 | The loop raises exactly when some line raises, and it raises the first such line's error. |
| `Transactions.OutcomeInOrder` | Failas.py:26-60 | Without an exception, the loop keeps every yielded entry in input order. |
| `Transactions.OutcomeEntriesFromResults` | Failas.py:26-60 | Every kept entry is one that some line yielded. |
| `Transactions.ParseAllConsistent` | Failas.py:32-60 | Every parsed entry has the data type's record shape, and its amount is its record's amount. A card entry's timestamp is its record's. |
| `Transactions.UnknownTypeParsesNothing` | Failas.py:32-60 | A data type other than `credit_card` and `insurance` parses any input into no records and no error. |
| `Transactions.ParseAllFailsAtFirstBadLine` | Failas.py:26-60 | The parse raises exactly when some line's parse raises, and then with the first such line's error. |
| `Transactions.ProducedNonBlank` | Failas.py:26-30 | With a reader that yields an entry exactly for non-blank lines, the yielded entries match the non-blank lines one to one, in order. |
| `Transactions.ParseAllInOrder` | Failas.py:25-60 | A parse of a known type that raises nothing has one entry per non-blank line, in order, each the parse of its line. |
| `Transactions.Endpoints` | Failas.py:81-89 | Positions `2k` and `2k+1` hold record `k`'s source and destination. |
| `Transactions.TransactionGraph` | Failas.py:79-91 | The graph the records build: starting from an empty graph, each record in turn adds its edge, weighted by its amount. The lemmas below state its nodes, edges and weights. |
| `Transactions.TransactionGraphWellFormed` | Failas.py:79-91 | The built graph lists each node once, and every edge joins listed nodes. |
| `Transactions.TransactionGraphNonNegative` | Failas.py:79-91 | When every amount is non-negative, every edge weight of the built graph is non-negative. |
| `Transactions.TransactionGraphNodes` | Failas.py:79-91 | The nodes are the distinct record endpoints in first-appearance order, each source before its destination. |
| `Transactions.TransactionGraphEdges` | Failas.py:79-91 | The edges are exactly the ordered pairs the records join. |
| `Transactions.TransactionGraphWeights` | Failas.py:79-91 | An edge weighs the amount of the last record joining its pair, so a repeated pair overwrites. |
| `Transactions.TransactionData.constructor` | Failas.py:18-22 | A new dataset has its data type and three empty, parallel lists. |
| `Transactions.TransactionData.Append` | Failas.py:39-45 | One entry's record, timestamp and amount are appended to the three lists, which stay parallel. |
| `Transactions.TransactionData.ParseLines` | Failas.py:26-60 | The loop appends, list by list, exactly the entries of the outcome the line results define, and returns that outcome's error. |
| `Transactions.TransactionData.ParseData` | Failas.py:25-60 | The three lists grow by the records, timestamps and amounts of the parse of the lines, which the lemmas above characterise. The first error, if any, is returned. |
| `Transactions.TransactionData.FromLines` | Failas.py:18-23 | Construction either raises the parse's error or gives a fresh, valid dataset holding exactly the parsed entries. |
| `Transactions.TransactionData.GetTimeSeries` | Failas.py:67-68 | The two series run parallel to the records. Each amount is its record's amount, and a card timestamp is its record's. |
| `Transactions.TransactionData.GetTransactions` | Failas.py:70-71 | The returned records run parallel to the amount series. |
| `Transactions.TransactionData.GetTransactionCount` | Failas.py:73-74 | The count equals the length of each series. |
| `Transactions.TransactionData.BuildTransactionGraph` | Failas.py:79-91 | The loop builds the records' graph. It is well formed, and its nodes are the distinct endpoints in first-appearance order. |
| `Sequences.Dedup` | Failas.py:83-89 | The node list has no repeated element. |
| `Sequences.DedupElement` | Failas.py:83-89 | An identifier is a node exactly when some record mentions it. |
| `Sequences.DedupFirstAppearance` | Failas.py:83-89 | Nodes are listed in the order of their first appearance. |
| `Graphs.AddNode` | Failas.py:83-85 | Adding a node keeps the list, appends the node only if it is new, and keeps the list free of repeats. |
| `Graphs.AddEdge` | Failas.py:83-90 | `DiGraph.add_edge`: append each endpoint not yet listed, source first, and set the pair's weight, replacing an old one. The lemmas below state its effect. |
| `Graphs.AddEdgeWellFormed` | Failas.py:83-85 | Adding an edge keeps the graph well formed. A non-negative weight keeps all weights non-negative. |
| `Graphs.AddEdgeNodesGrow` | Failas.py:83-85 | Adding an edge keeps the existing nodes in place and appends only its two endpoints. |
| `Graphs.AddEdgeEdges` | Failas.py:83-85 | Adding an edge sets `(u, v)` to the new weight, replacing any old one, and leaves every other edge unchanged. |
| `Graphs.PathWeight` | Failas.py:195-197 | A walk's weight: the sum of the weights of its consecutive edges, and 0 for a walk of one node. |
| `Graphs.MinWeightPathsAgree` | Failas.py:193-197 | Any two minimum-weight walks between the same nodes weigh the same, so the choice between them never changes a total. |
| `Graphs.PathWeightNonNegative` | Failas.py:193 | With non-negative weights, every walk weighs at least zero. |
| `Graphs.PathWeightJoin` | Failas.py:195-197 | The weight of two joined walks is the sum of their weights. |
| `Graphs.CutCycle` | Failas.py:193 | Cutting out the part of a walk between two visits to the same node leaves a walk. |
| `Graphs.ShortenPath` | Failas.py:193 | With non-negative weights, every walk has a walk between the same nodes of at most as many nodes as the graph, weighing no more. |
| `Graphs.CutCycleLighter` | Failas.py:193 | With non-negative weights, cutting out a cycle leaves a shorter walk between the same nodes that weighs no more. |
| `Graphs.CoversNext` | Failas.py:193 | One relaxation round extends the best-known walks from walks of `k` nodes to walks of `k+1` nodes. |
| `Graphs.RelaxEdge` | Failas.py:193 | Looking at one edge into `v` keeps the candidate a walk from `s`, never makes it heavier, and makes it no heavier than the edge's extension of the best-known walk to its start. |
| `Graphs.RelaxInto` | Failas.py:193 | The candidate found for `v` is a walk from `s` and is no heavier than any best-known walk extended by one edge into `v`. |
| `Graphs.RelaxRound` | Failas.py:193 | A round keeps every best-known walk a walk from `s` and extends coverage by one node. |
| `Graphs.MinWeightPath` | Failas.py:191-193 | The search returns a minimum-weight walk from `s` to `t` when `t` is reachable. It returns nothing exactly when no walk exists. |
| `GraphDetection.PathTotal` | Failas.py:195-197 | The inner loop's total is the sum of the weights of the walk's consecutive edges. |
| `GraphDetection.ExaminePair` | Failas.py:189-202 | A pair yields a report exactly when it is reachable and its cheapest walk weighs more than the minimum. The report is a cheapest walk between the pair's nodes, with its weight. |
| `GraphDetection.SuspiciousPaths` | Failas.py:185-206 | The k-th report is a cheapest walk for the k-th flagged pair in loop order, and carries that walk's weight. |
| `GraphDetection.SuspiciousIffMinimumExceeds` | Failas.py:199-200 | Every walk weighs more than the minimum exactly when the cheapest one does. |
| `GraphDetection.InRowPrefix` | Failas.py:189-191 | The inner loop up to `j` flags exactly the pairs `(i, m)` with `i < m < j` that are suspicious. |
| `GraphDetection.InRows` | Failas.py:188-191 | The outer loop up to `n` flags exactly the suspicious pairs `i < j` with `i < n`. |
| `GraphDetection.FlaggedIff` | Failas.py:188-202 | A pair of positions is reported exactly when `i < j`, `nodes[j]` is reachable from `nodes[i]`, and the cheapest walk exceeds the minimum. A later node is never reported against an earlier one. |
| `GraphDetection.RowPrefixSorted` | Failas.py:189 | Within a row, pairs appear in increasing second position. |
| `GraphDetection.RowsSorted` | Failas.py:188-189 | Across rows, pairs appear in increasing lexicographic order. |
| `GraphDetection.FlaggedSorted` | Failas.py:188-202 | Reports appear in strictly increasing lexicographic `(i, j)` order, with no pair twice. |
| `GraphDetection.ReportProperties` | Failas.py:193-202 | Each report starts at `nodes[i]` and ends at `nodes[j]`, and each step is an edge. Its total is the sum of its edge weights and exceeds the minimum. No walk between the same nodes weighs less. |
| `GraphDetection.Detect` | Failas.py:185-206 | On the dataset's transaction graph, the reports are cheapest walks for exactly the flagged pairs, in loop order. |
| `ThresholdDetection.Mean` | Failas.py:165 | `np.mean`: the sum of the amounts divided by their number. |
| `ThresholdDetection.Variance` | Failas.py:166 | The square of `np.std`: the mean squared deviation from the mean. |
| `ThresholdDetection.VarianceNonNegative` | Failas.py:166 | The variance is never negative. |
| `ThresholdDetection.ZScores` | Failas.py:167 | There is one z-score per amount, and each is non-negative. |
| `ThresholdDetection.ZScoreScaled` | Failas.py:167 | A z-score times the standard deviation is the amount's distance from the mean. |
| `ThresholdDetection.Where` | Failas.py:168 | The selected positions are ascending, and a position is selected exactly when its score exceeds the threshold. |
| `ThresholdDetection.Scores` | Failas.py:169 | There is one confidence score per selected position. |
| `ThresholdDetection.DetectAmounts` | Failas.py:162-175 | The result has one z-score per amount and one confidence score per index. |
| `ThresholdDetection.Detect` | Failas.py:162-175 | The detector reads the dataset's amount series and yields one z-score per amount. |
| `ThresholdDetection.DetectSelects` | Failas.py:167-169 | All z-scores are non-negative. The indices ascend and are exactly the positions whose z-score exceeds the threshold. Each confidence score is its z-score divided by the threshold. |
| `ThresholdDetection.ScoresAboveOne` | Failas.py:168-169 | With a positive threshold, every confidence score exceeds 1. |
| `ThresholdDetection.ExceedsIffSquare` | Failas.py:167-168 | When `z·σ = d` and `σ² = v`, `z > t` exactly when `d² > t²·v`. |
| `ThresholdDetection.SelectedIffDeviation` | Failas.py:167-168 | Under any mean and deviation, a position is selected exactly when its squared deviation exceeds `t²·σ²`. |
| `ThresholdDetection.FlaggedIffDeviation` | Failas.py:165-168 | With a positive threshold, position `i` is flagged exactly when `(a[i] - mean)² > t²·variance`. |
| `ThresholdDetection.NegativeThresholdFlagsAll` | Failas.py:168 | A negative threshold flags every position. |
| `ThresholdDetection.WhereNone` | Failas.py:168 | When no score exceeds the threshold, nothing is selected. |
| `ThresholdDetection.OutlierExampleStatistics` | Failas.py:165-166 | The amounts 10, 12, 11, 500 have mean 133.25 and variance 44835.6875. |
| `ThresholdDetection.OutlierExampleNotFlagged` | Failas.py:162-175 | At threshold 2, the amounts 10, 12, 11, 500 flag nothing. |
| `Factories.Param` | Failas.py:159 | A keyword's value is the one passed, or the default when none is. |
| `Factories.CreateDetector` | Failas.py:216-222 | `threshold` and `graph` succeed exactly when every keyword is one the constructor accepts, and each gives its own detector kind. Any other name is a `ValueError` naming it. |
| `Factories.CreateProcessor` | Failas.py:227-233 | `fft` and `wavelet` succeed exactly when every keyword is one the constructor accepts, and each gives its own processor kind. Any other name is a `ValueError` naming it. |
| `Factories.DetectorDefaults` | Failas.py:159-183 | Without keywords, the detectors get threshold 2 and minimum path amount 5000. |
| `Factories.ProcessorDefaults` | Failas.py:120-135 | Without keywords, the processors get sample rate 1000, and wavelet `db4` at level 5. |
| `Factories.DetectorKeepsArguments` | Failas.py:216-220 | A passed parameter reaches the detector unchanged. |
| `Factories.ProcessorKeepsArguments` | Failas.py:227-231 | Passed parameters reach the processor unchanged, and an omitted one takes its default. |
| `Factories.ErrorsByKind` | Failas.py:216-233 | The name is checked before the keywords. An unknown name is a `ValueError` whatever the keywords. A known name fails only with a `TypeError`. |

## Left out

- File and console I/O is not modelled: `TextFileLoader.load`, the report file of `FraudAnalysisSystem.analyze`, and `main` with `input()`. Neither is plotting (`FraudVisualizer`).
- The numerics of `FFTProcessor.process` and `WaveletProcessor.process` call scipy and pywt, which are foreign libraries. Only the factories that build these processors are modelled. `get_name` and `get_data_type` only format or return a field and are not modelled.
- `float()` and `_convert_date_to_timestamp` are parameters of the model (`Conversions`), with `None` for the `ValueError` they raise. `strptime` and the local time zone are not modelled.
- Every float operation is modelled on exact reals, with no rounding, infinities or NaN.
- `Transactions.TransactionData.BuildTransactionGraph` omits the `timestamp` edge attribute, which nothing reads. For claims it therefore also omits the second date conversion. That conversion cannot fail for a date the parse already converted.
- `Graphs.MinWeightPath` replaces networkx's `has_path` and `dijkstra_path` with a round-based relaxation, proved to return a minimum-weight walk exactly when one exists. When several walks have the minimum weight, it may pick a different one than networkx; by `Graphs.MinWeightPathsAgree` every such walk has the same total, so the reported totals and the flagged pairs do not depend on the choice. It does not prove that the walk visits each node once. It requires non-negative weights, which Dijkstra's algorithm assumes.
- `GraphDetection.Detect` requires every amount in the dataset to be non-negative. For negative amounts networkx's Dijkstra may return a non-minimal path or raise an uncaught `ValueError` ("Contradictory paths found"), which `except nx.NetworkXNoPath` does not catch. The model does not cover either.
- `GraphDetection.SuspiciousPaths` omits the `NetworkXNoPath` handler. It can never fire, because reachability is checked first.
- `ThresholdDetection.DetectAmounts` takes the standard deviation as a parameter whose square is the variance, because Dafny has no square root. A constant amount series (numpy's `0/0` z-scores) and a zero threshold (division by zero) are outside its precondition.
- `ThresholdDetection.Detect` models only the selection result `indices`, `scores` and `z_scores`. The unused `processed_signal` argument is ignored.
- `Factories.CreateDetector` models keyword values as numbers or texts. The constructors store them unchecked. For a `TypeError` it does not model which keyword Python names or the message text.
- `Transactions.TransactionData.FromLines` does not model the partially filled object that an exception in `__init__` discards.
