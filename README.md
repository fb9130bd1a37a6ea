# Battery capacity estimation from SoC events: a Dafny model

`soh_prediction_init_soc.py` estimates how much charge a battery delivers between
"full" and "empty". It reads a year of logged rows `(Time, battery_voltage,
battery_current)` and performs these steps:

1. It marks rows as 100 % state-of-charge (FULL) or 0 % (EMPTY) candidates by
   voltage and current thresholds.
2. It merges candidates that are at most one hour apart into clusters.
3. It keeps one representative per cluster: the highest voltage for FULL, the
   lowest for EMPTY.
4. It pairs each FULL event with the earliest later EMPTY event, unless another
   FULL event comes first.
5. It integrates current over elapsed hours across the dataset rows of each pair.

This project models steps 1 to 5 on sequences of records and proves what each
step promises. The quadrature itself is left uninterpreted.

Files, one module each:

- `options.dfy`: `Option`.
- `sequences.dfy`: the order-preserving filter that boolean-mask indexing performs, and the subsequence relation.
- `telemetry.dfy`: the `Sample` row, plus time-order helpers.
- `detector.dfy`: the threshold masks.
- `grouper.dfy`: `group_points` as a loop, the fold it computes, and the clustering properties.
- `selector.dfy`: `select_extreme_points` and the stable arg-max/arg-min.
- `integrator.dfy`: the segment slice, elapsed hours, and the capacity call.
- `matcher.dfy`: the pairing loop and its per-entry decision.
- `pipeline.dfy`: the script's main line (lines 64-100) and a worked example.

Modelling choices:

- **Rows.** `Time` is an `int` (milliseconds since the epoch). Voltage and current are `real`, so 46.5 V is exact. `iterrows` hands `Time` over as a float64. Epoch milliseconds lie far below 2^53, so that conversion is exact and comparisons on `Time` behave as on integers.
- **Loops.** `group_points`, `select_extreme_points` and the pairing loop (lines 92-100) mutate accumulators in loops. They are Dafny methods with loops and invariants. Each method is proved equal to a pure specification function (`Clusters`, `Representatives`, `Matches`), and the properties are proved about those functions.
- **Mask and slice.** The masks and the slice are plain expressions in the script. They are functions here.
- **`max` and `min`.** CPython's `max`/`min` with a key keep the first element and replace it only on a strictly better key. `ExtremeIndex` does the same, so ties go to the earliest member.
- **Quadrature.** `scipy.integrate.simpson` is the parameter `simpson: Quadrature`. It is applied to the slice's currents and elapsed hours.
- **Order of the log.** Nothing requires the log to be sorted by time. The script finds end times with a filter and `min`, not by position, so the pairing properties hold for any order. Order only matters for the lemmas that say so (`SliceStartsAtStart`, `CandidatesTimeOrdered`).

Two points of the documented behaviour, read against the code:

- **Superseding FULL event (a clarification, not a difference).** The system's documented pairing rule keeps `(s, e)` only when `e` comes before the next selected FULL time, and line 98 does exactly that. Because the comparison is strict, a pair is dropped when a selected FULL event lies anywhere in `(s, e]`, including one at exactly `e`. The model follows line 98.
- **Empty outcomes (here the main model follows the documented intent, not the code).** The system's documented edge cases say two things. A FULL event with no later EMPTY event is skipped, not an error. No qualifying segment gives a valid, empty result table. The script raises instead. With no selected EMPTY event, line 94 raises KeyError (see Findings). With no qualifying pair at all, line 104 raises KeyError. `Matcher.Matches`, `Matcher.FilterCapacities`, `Pipeline.PairedSpans` and `Pipeline.EstimateCapacities` return the empty table in these cases. Only `Matcher.PairingAsWritten` and `Matcher.PairingAsWrittenRaises` model the line 94 raise. Line 104 is outside this model.

## Model

| member | source | states |
|---|---|---|
| `Sequences.Filter` | soh_prediction_init_soc.py:29-30 | a row is kept exactly when it is in the input and satisfies the mask, each kept row as many times as it occurs in the input; the result is never longer than the input |
| `Sequences.FilterIsSubsequence` | soh_prediction_init_soc.py:29-30 | the kept rows form an order-preserving subsequence of the input |
| `Sequences.FilterAppend` | soh_prediction_init_soc.py:29-30 | filtering distributes over concatenation, so each kept row appears once and in dataset order |
| `Telemetry.SubsequenceTimeOrdered` | soh_prediction_init_soc.py:29-30 | any order-preserving selection from a time-ordered log is time-ordered |
| `Detector.FullCandidates` | soh_prediction_init_soc.py:20-29 | a row is a FULL candidate iff it is in the data, voltage >= 55 and -2 <= current <= 2, and it is kept as often as it occurs; the list is a subsequence of the data |
| `Detector.EmptyCandidates` | soh_prediction_init_soc.py:20-30 | a row is an EMPTY candidate iff it is in the data, voltage <= 46.5 and -2 <= current <= 2, and it is kept as often as it occurs; the list is a subsequence of the data |
| `Detector.CandidatesTimeOrdered` | soh_prediction_init_soc.py:25-30 | on a time-ordered log both candidate lists are time-ordered, and no row is in both |
| `Grouper.Clusters` | soh_prediction_init_soc.py:33-49 | the fold yields no cluster exactly when there is no candidate |
| `Grouper.ExtendKeepsClustering` | soh_prediction_init_soc.py:39-40 | a candidate within `gap` of the previous one, appended to the last cluster, keeps every clustering property |
| `Grouper.OpenKeepsClustering` | soh_prediction_init_soc.py:41-43 | a candidate more than `gap` after the previous one, starting a new cluster, keeps every clustering property |
| `Grouper.ClustersIsClustering` | soh_prediction_init_soc.py:33-49 | the clusters concatenate back to the input, none is empty, consecutive times inside a cluster differ by at most `gap`, and the first time of each cluster exceeds the last time of the previous cluster by more than `gap` |
| `Grouper.ClusteringUnique` | soh_prediction_init_soc.py:33-49 | those properties admit exactly one clustering: any sequence of clusters satisfying them is the fold's |
| `Grouper.GroupPoints` | soh_prediction_init_soc.py:33-49 | the loop returns the fold's clusters, so it has all clustering properties, and it returns no group exactly for an empty input |
| `Selector.ExtremeIndex` | soh_prediction_init_soc.py:54-57 | the chosen member has the largest voltage (max) or the smallest voltage (min) of its cluster, and every earlier member is strictly worse, so ties go to the earliest |
| `Selector.ExtremeIndexUnique` | soh_prediction_init_soc.py:54-57 | any position with an extreme voltage and no earlier tie is the chosen one |
| `Selector.Representatives` | soh_prediction_init_soc.py:51-58 | exactly one representative per cluster, in cluster order, each a member of its own cluster |
| `Selector.SelectExtremePoints` | soh_prediction_init_soc.py:51-58 | the loop returns one element per cluster, in order, each the member `max`/`min` picks and a member of its cluster |
| `Integrator.Slice` | soh_prediction_init_soc.py:76 | the segment holds exactly the dataset rows with start <= Time <= end, each as often as it occurs in the data, as an order-preserving subsequence |
| `Integrator.SliceNonEmpty` | soh_prediction_init_soc.py:76-77 | when a row carries the start time and start <= end, the segment is non-empty, so `iloc[0]` exists |
| `Integrator.SliceStartsAtStart` | soh_prediction_init_soc.py:76-77 | on a time-ordered log the segment is time-ordered and its first row is at the start time |
| `Integrator.ElapsedHours` | soh_prediction_init_soc.py:77 | one value per row, 0 at the first row, differences equal to the time differences in hours, and monotone in time |
| `Integrator.CapacityBetween` | soh_prediction_init_soc.py:75-78 | the capacity of a pair is the quadrature of the slice's currents over its elapsed hours; it is defined only when a row carries the start time, which makes the slice non-empty |
| `Matcher.Later` | soh_prediction_init_soc.py:94 | exactly the listed times strictly after the given time |
| `Matcher.Min` | soh_prediction_init_soc.py:96 | the minimum is one of the times and no time is smaller |
| `Matcher.SpanFrom` | soh_prediction_init_soc.py:93-98 | a segment decided for a FULL time starts at that time |
| `Matcher.SpanFromSound` | soh_prediction_init_soc.py:94-98 | a decided segment ends at a selected EMPTY time after its start, no selected EMPTY time lies strictly between start and end, and every selected FULL time after the start is after the end |
| `Matcher.SpanFromNone` | soh_prediction_init_soc.py:94-98 | no segment is decided exactly when no selected EMPTY time follows the FULL time, or some later selected FULL time is no later than every later EMPTY time |
| `Matcher.Matches` | soh_prediction_init_soc.py:92-100 | the segments the loop emits, in FULL-list order: at most one per FULL entry, each from a selected FULL time to a strictly later selected EMPTY time |
| `Matcher.MatchesStep` | soh_prediction_init_soc.py:92-100 | one iteration of the loop over entry `i`: when the segments emitted so far plus those from entry `i` on make up all matches, appending entry `i`'s decision, if it is a segment, keeps that so for entry `i + 1` |
| `Matcher.MatchesSound` | soh_prediction_init_soc.py:92-100 | every emitted segment starts at a selected FULL time and is the decision for that time |
| `Matcher.MatchesComplete` | soh_prediction_init_soc.py:92-100 | every FULL entry whose decision is a segment contributes it |
| `Matcher.MatchesOrdered` | soh_prediction_init_soc.py:92-100 | segment start times are a subsequence of the FULL list: list order, at most one segment per entry |
| `Matcher.NoLaterEmptyNoSegments` | soh_prediction_init_soc.py:94-95 | when no EMPTY time follows any FULL time, no segment is emitted |
| `Matcher.PairingAsWritten` | soh_prediction_init_soc.py:72-94 | the loop as written fails exactly when there is a FULL event and no EMPTY event; otherwise it yields the same segments as `Matches` |
| `Matcher.PairingAsWrittenRaises` | soh_prediction_init_soc.py:72-94 | with FULL events and no EMPTY event the loop as written fails, while no segment qualifies |
| `Matcher.FilterCapacities` | soh_prediction_init_soc.py:92-100 | the rows emitted are exactly the matched segments in order; each starts at a FULL time, ends at a later EMPTY time, and carries the quadrature over its slice |
| `Pipeline.PairedSpans` | soh_prediction_init_soc.py:64-100 | the segments of lines 64-100 as one expression: at most one per FULL cluster, each from a FULL event of the data to a strictly later EMPTY event of the data |
| `Pipeline.SelectedEvents` | soh_prediction_init_soc.py:64-72 | every selected FULL time is the time of a data row passing the FULL mask, and every selected EMPTY time that of a row passing the EMPTY mask |
| `Pipeline.SelectedAreCandidates` | soh_prediction_init_soc.py:64-68 | every selected representative is a candidate of its class |
| `Pipeline.EstimateCapacities` | soh_prediction_init_soc.py:64-100 | the result rows are the pure pipeline's segments; each spans a FULL row of the data to a strictly later EMPTY row and carries the quadrature over the rows between |
| `Pipeline.DischargeScenario` | soh_prediction_init_soc.py:64-100 | on FULL rows at 0 and 30 min (56 V) and EMPTY rows at 2 h and 2 h 10 min (46 V), exactly one segment, from 0 to 2 h, results |

## Left out

- Loading the CSV, replacing `'undefined'`, `pd.to_numeric` and `dropna` (lines 10-16): file I/O and parsing. The model starts from the cleaned rows.
- `simpson` (line 78): floating-point quadrature in a library outside this model. It is the `Quadrature` parameter, so no property of the integral (zero current, constant current) is stated.
- The `abs_capacity` column and the epoch-to-datetime conversions (lines 104-108): float and date formatting.
- `print` diagnostics (lines 79-85, 137) and the matplotlib figure (lines 110-135): output.
- Floating point: voltages, currents and elapsed hours are exact reals, so rounding in the float64 columns is not modelled.
- `Selector.SelectExtremePoints`: requires non-empty clusters. `max([])` raises in the script, and `group_points` never yields an empty cluster.
- `Integrator.CapacityBetween`: requires a row at the start time. `iloc[0]` raises on an empty slice, and the loop only passes selected FULL times, which are rows of the data.
- `Matcher.SpanFrom`: its own contract states only the start time. Its full meaning is proved in `SpanFromSound` and `SpanFromNone`.

## Findings

| source | as written | input that shows it | evidently intended | confidence | as-written member | corrected member |
|---|---|---|---|---|---|---|
| soh_prediction_init_soc.py:72-94 | with no selected EMPTY event, `selected_0_df` is built from an empty list and has no `Time` column, so line 94 raises KeyError at the first FULL event | a log with FULL rows and no EMPTY row, e.g. `full = [0]`, `empty = []` | each FULL event is skipped, because no EMPTY event follows it, and the table is empty | not executed; medium (rests on pandas building a column-less frame from an empty list) | `Matcher.PairingAsWrittenRaises` | `Matcher.NoLaterEmptyNoSegments` |

The rest of the model uses the corrected behaviour. `Matcher.FilterCapacities` and `Pipeline.EstimateCapacities` return an empty table in this case.
