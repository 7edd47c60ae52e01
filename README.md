# λF risk panel — a Dafny model of its retrieval-and-summary pipeline

The λF panel is a dashboard that reads the 30 most recent documents of the
store collection `lambdaF` and shows them. Each document carries a timestamp,
a composite instability score λF and an optional status label. This project
models what the panel script does with those documents:

- **History normalisation** (`History`). A null client gives the empty
  history. A query that raises gives the empty history and shows an error
  message. Otherwise one row is built per streamed document: timestamp, λF,
  and the status, which becomes `"N/A"` when the field is absent. Rows
  missing a timestamp or a λF are dropped. The rest are sorted ascending by
  timestamp. The loop that builds the rows is the method
  `FetchLambdaFData`; everything after the loop is a function.
- **Main metrics** (`Metrics`). The latest record, the λF of the record
  before it (or 0 when there is none), their difference, and the message box
  for the store's status string: `"Kritik"` gives an error box, `"Riskli"` a
  warning box, anything else a success box.
- **Chart and table** (`Charts`). An empty history gives no chart. Otherwise
  the chart has one point per record, a y-axis fixed to [0, 1] and reference
  lines at 0.7 and 0.5. The data table is the history sorted newest first.

Modelling choices:

- A document field is `Missing`, `Null` (stored as null) or a `Value`. A
  lookup without a default reads both `Missing` and `Null` as nothing. The
  `"N/A"` default replaces only a `Missing` status; a stored null status stays
  empty, and it shows the success box.
- The client is modelled by what its ordered query does: it streams a
  sequence of documents, or it raises. The query's limit of 30 is applied
  explicitly (`History.Limit`), so the bound on the history is proved, not
  assumed.
- Timestamps are integers: parsing them is left out. λF is an exact `real`,
  so the delta subtraction is exact.
- The script sorts with pandas' default algorithm, which is not stable. The
  sort's contracts therefore promise only "ascending and a permutation". The
  model's insertion sort keeps equal timestamps in stream order, one
  admissible order among several; `History.SortedFixpoint`,
  `History.SortIdempotent` and `Charts.TableIsReversedSeries` hold for that
  order only.
  `Charts.DescendingOrderIsReverse` shows that with distinct timestamps every
  newest-first ordering is the reverse of the chart series, whatever algorithm
  does the sorting.

The panel has no risk classification of its own: the status box shows the
store's status string verbatim (`Metrics.AlertIgnoresScore`). The values 0.5
and 0.7 appear only as chart lines and sidebar text, and the y-axis range is
fixed at [0, 1].

## Model

| member | source | states |
|---|---|---|
| `Records.Get` | lambda_f_panel.py:51-52 | a lookup without a default gives a value exactly when the field holds one, and that value |
| `Records.GetOr` | lambda_f_panel.py:53 | a lookup with a default gives the default for an absent field, nothing for a stored null, the value otherwise |
| `History.Limit` | lambda_f_panel.py:45 | the query delivers the whole ordered stream when it holds at most 30 documents, and exactly its first 30 otherwise |
| `History.RowOf` | lambda_f_panel.py:49-54 | the row `History.ToRow` appends for a document is complete exactly when the document has a timestamp and a λF, and then it carries the document's fields, with status "N/A" when absent |
| `History.DropIncomplete` | lambda_f_panel.py:60 | the rows kept are the complete rows: every kept record comes from a complete row, every complete row is kept, and as many records as complete rows |
| `History.Insert` | lambda_f_panel.py:62 | inserting into an ascending sequence keeps it ascending and adds exactly that record |
| `History.SortByTime` | lambda_f_panel.py:62 | the result is ascending by timestamp and a permutation of the input (no record lost or de-duplicated) |
| `History.SortedFixpoint` | lambda_f_panel.py:62 | for the model's stable tie order, sorting an ascending history returns it unchanged |
| `History.SortIdempotent` | lambda_f_panel.py:62 | for the model's stable tie order, sorting twice equals sorting once |
| `History.SortedUnique` | lambda_f_panel.py:62 | two ascending permutations of the same records with distinct timestamps are equal |
| `History.Normalise` | lambda_f_panel.py:59-63 | the normalised history is ascending by timestamp and no longer than the delivered documents |
| `History.HistoryOf` | lambda_f_panel.py:41-67 | the history is ascending and holds at most 30 records; a null client or a raising query gives the empty history; never longer than the stream |
| `History.FetchLambdaFData` | lambda_f_panel.py:36-67 | the loop-built rows, filtered and sorted, give exactly `HistoryOf(client)`; the error message is shown exactly when the query raises |
| `History.NormaliseSound` | lambda_f_panel.py:47-62 | every history record comes from a document with a timestamp and a λF, with its fields passed through and status "N/A" when absent |
| `History.NormaliseKeepsUsable` | lambda_f_panel.py:47-62 | every document with a timestamp and a λF leaves its record in the history |
| `History.NormaliseCount` | lambda_f_panel.py:56-62 | the history has exactly as many records as documents with both a timestamp and a λF |
| `History.NormaliseExact` | lambda_f_panel.py:47-62 | each record occurs in the history exactly as often as documents yield it |
| `Metrics.LatestSnapshot` | lambda_f_panel.py:115-123 | there is a snapshot exactly when the history is non-empty; it holds the last record; the delta is λF minus the previous record's λF, or λF itself when there is one record |
| `Metrics.AlertFor` | lambda_f_panel.py:138-143 | exactly one box: error iff the status is "Kritik", warning iff "Riskli", success for every other status or none |
| `Metrics.MainMetrics` | lambda_f_panel.py:115-147 | the empty history shows the no-data warning; otherwise the metric shows the last record's λF with its previous value and delta as `LatestSnapshot` gives them, and the box is chosen from the last record's status |
| `Metrics.SingleRecordDelta` | lambda_f_panel.py:122-123 | a one-record history is compared with zero, so its delta is its λF |
| `Metrics.TwoRecordDelta` | lambda_f_panel.py:117-123 | for two records the delta is the later λF minus the earlier |
| `Metrics.AppendDelta` | lambda_f_panel.py:117-123 | after appending a record, the old latest λF is the new baseline |
| `Metrics.LatestIsMostRecent` | lambda_f_panel.py:117 | on an ascending history the latest record has the greatest timestamp |
| `Metrics.NoStatusIsSuccess` | lambda_f_panel.py:138-143 | the "N/A" status and a null status both show the success box |
| `Metrics.AlertIgnoresScore` | lambda_f_panel.py:119 | the box depends only on the latest status, not on λF |
| `Charts.TimeSeriesChart` | lambda_f_panel.py:76-99 | no chart for the empty history; otherwise one (timestamp, λF) point per record in order, y-range [0, 1], reference lines at 0.7 then 0.5 |
| `Charts.ChartRunsForward` | lambda_f_panel.py:79-86 | on an ascending history the chart's points run forward in time |
| `Charts.TableView` | lambda_f_panel.py:169 | the table order is newest first and a permutation of the history |
| `Charts.DataTable` | lambda_f_panel.py:166-174 | no table for the empty history; otherwise the history newest first, same records |
| `Charts.TableIsReversedSeries` | lambda_f_panel.py:169 | for the model's stable tie order, the table of an ascending history is the chart series reversed |
| `Charts.DescendingOrderIsReverse` | lambda_f_panel.py:169 | with distinct timestamps, every newest-first permutation of an ascending history is its reverse |

## Left out

- Firebase credentials, app and client initialisation (lambda_f_panel.py:23-30) and page configuration (12-17): one-time setup against foreign libraries. The client is a parameter.
- The Firestore query itself (45): modelled as the documents it streams, or as raising. The store's own ordering and its exclusion of documents without a timestamp field are not modelled.
- The 600-second `st.cache_data` cache and the refresh button that clears it and reruns (35, 191-193): library-provided caching with no visible logic.
- `pd.to_datetime` (61): timestamps are already integers, so a parse failure is not modelled. It would raise and give the empty history with an error, like any other raise.
- A NaN λF: the store's doubles are modelled as exact reals, which have no NaN, so dropping NaN values is not modelled.
- Non-string status values: the status is a string or null.
- IEEE-754 rounding of the delta subtraction: exact reals are used.
- Plotly figure construction, titles, colours, dash styles, annotations, the `st.metric` / `st.error` / `st.warning` / `st.success` / `st.info` widgets, the `:.3f` formatting, the `datetime.now()` caption and the sidebar text (79-101, 108-109, 125-147, 151-193): presentation only. The model records which widget is chosen, not what it looks like.
- History.DropIncomplete: states membership in both directions and the count, not the multiplicity of each record; `History.NormaliseExact` states the multiplicities for the whole pipeline.
