# Metric trackers and failure-window labels, modelled in Dafny

This project models two parts of the umlaut benchmarking repository.

**Metric trackers** (`e2ebench/e2ebench/metrics/valued_metrics.py`). Each tracker turns
a measurement into a payload and appends one `(description, measure type, payload, unit)`
entry to a benchmark log:

- `ConfusionMatrixTracker` logs the matrix and its labels.
- `HyperparameterTracker` collects a table, one row per accepted measurement. It logs the
  table column-wise when it is closed, which leaving a `with` block does.
- `TTATracker` and `LossTracker` log a list of values.
- `TTAVisualizer` reads logged payloads back as accuracy runs. It lays each run out on epochs
  `1..len(run)` and labels it with its start time.

**Failure-window labelling** (`add_failure_columns_to_df_with_one_serial_number` in
`src/feature_extraction/feature_extraction_pandas.py`). For the `n` daily rows of one disk
and a look-ahead of `d` days, it builds an `n × d` boolean matrix:

- If the disk ever failed, the rows are first sorted by date and the `failure` column is
  dropped. The matrix is then `fliplr(tril(ones, d - n)) != 0`.
- Otherwise the matrix is all false.
- Its columns are named `fails_within_1_days` … `fails_within_d_days`.

Files:

- `wrappers.dfy`: Option and Result.
- `payloads.dfy`: the payload objects the trackers pickle, one log entry, and the `Benchmark`
  log as a class holding an append-only sequence of entries.
- `hyperparameter_table.dfy`: which measurements `track` accepts, the row it keeps, and the
  column-wise dict of the table, with its inverse.
- `valued_metrics.dfy`: the tracker classes, the `with` block, the visualizer's decoding and
  its series.
- `decimal.dfy`, `timestamps.dfy`: decimal digits and `isoformat(' ', 'seconds')`, each with a
  parser that is its inverse.
- `failure_labels.dfy`: the numpy construction of the label matrix, its closed form, and the
  label column names.
- `feature_extraction.dfy`: the per-disk frame, sorted and stripped in place, joined to its
  labels.

The model follows the code as written, including where it departs from what the trackers are
evidently meant to do:

- `ConfusionMatrixTracker.track` does not check that the matrix is square, or that it has one
  label per row.
- `HyperparameterTracker.close` has no guard. It logs again on every call, and `track` still
  works after it.
- `TTAVisualizer.__init__` reads `pickle.loads(values)['accuracies']`, but `TTATracker`
  pickles a bare list, so a payload written by `TTATracker` never decodes there.
  - A list indexed by a string raises TypeError. This is `NotAMapping` in the model.
  - A dict without the key raises KeyError. This is `MissingKey`.
  - The one payload kind the visualizer accepts is a dict with an `accuracies` entry
    (`AccuracyRecord`). No tracker in the file writes that kind.
  - No round trip from tracker to visualizer is claimed.
- `HyperparameterTracker.track` reports a missing field through a failed `assert`. The model
  returns it as `Some(MissingField)`. This is the behaviour with assertions enabled.

## Model

| member | source | states |
|---|---|---|
| `Payloads.Benchmark.Log` | e2ebench/e2ebench/metrics/valued_metrics.py:21 | the sink only appends: its entries become the old entries plus exactly the one entry given |
| `ValuedMetrics.ConfusionMatrixTracker.Track` | e2ebench/e2ebench/metrics/valued_metrics.py:16-24 | appends exactly one entry: the given description, measure type "confusion-matrix", no unit, and a payload whose matrix and labels are the arguments, unchecked |
| `ValuedMetrics.HyperparameterTracker.constructor` | e2ebench/e2ebench/metrics/valued_metrics.py:29-36 | a new tracker keeps its arguments (`low_means_good` defaults to true), its columns are exactly `hyperparameters + [target]` in that order, and its table has no rows |
| `ValuedMetrics.HyperparameterTracker.Enter` | e2ebench/e2ebench/metrics/valued_metrics.py:38-39 | `__enter__` returns the tracker itself |
| `HyperparameterTable.FindMissing` | e2ebench/e2ebench/metrics/valued_metrics.py:45-47 | the assertion loop reports the first declared hyperparameter that is absent, else the target if absent, else nothing |
| `HyperparameterTable.MissingOfNone` | e2ebench/e2ebench/metrics/valued_metrics.py:44-47 | a measurement is accepted if and only if every declared hyperparameter and the target are keys of it |
| `HyperparameterTable.MissingOfFirstHyperparameter` | e2ebench/e2ebench/metrics/valued_metrics.py:45-46 | hyperparameter `p` is reported if and only if it is absent and every hyperparameter declared before it is present |
| `HyperparameterTable.MissingOfTarget` | e2ebench/e2ebench/metrics/valued_metrics.py:47 | the target is reported if and only if all hyperparameters are present and the target is not |
| `HyperparameterTable.ProjectAccepted` | e2ebench/e2ebench/metrics/valued_metrics.py:49 | the kept row of an accepted measurement has exactly the declared columns as keys, with the measurement's values; every other key is dropped |
| `ValuedMetrics.HyperparameterTracker.Track` | e2ebench/e2ebench/metrics/valued_metrics.py:44-50 | a rejected measurement leaves the table unchanged and names the missing field; an accepted one appends exactly one projected row after the earlier rows, with no deduplication |
| `HyperparameterTable.Column` | e2ebench/e2ebench/metrics/valued_metrics.py:59 | a column list has one value per row of the table |
| `HyperparameterTable.ColumnAt` | e2ebench/e2ebench/metrics/valued_metrics.py:59 | entry `i` of a column list is that column's value in row `i` |
| `HyperparameterTable.ToColumns` | e2ebench/e2ebench/metrics/valued_metrics.py:59 | `to_dict(orient='list')` has exactly the table's columns as keys, each mapped to a list as long as the table |
| `HyperparameterTable.ColumnsRoundTrip` | e2ebench/e2ebench/metrics/valued_metrics.py:59 | the rows, in order and with repeats, can be read back from the column-wise dict |
| `HyperparameterTable.AppendRowExtendsColumns` | e2ebench/e2ebench/metrics/valued_metrics.py:50 | appending a row adds its value to the end of every column and leaves the earlier entries unchanged |
| `ValuedMetrics.HyperparameterTracker.Serialize` | e2ebench/e2ebench/metrics/valued_metrics.py:56-62 | the record carries the hyperparameters, the target and `low_means_good`, and a dict with one list per column, each as long as the table, from which the tracked rows read back in call order |
| `ValuedMetrics.HyperparameterTracker.Close` | e2ebench/e2ebench/metrics/valued_metrics.py:52-54 | appends one entry: the stored description, measure type "hyperparameters", no unit, and the serialised table; a second call appends a second entry |
| `ValuedMetrics.HyperparameterTracker.Exit` | e2ebench/e2ebench/metrics/valued_metrics.py:41-42 | `__exit__` logs exactly what `close` logs |
| `ValuedMetrics.WithTracker` | e2ebench/e2ebench/metrics/valued_metrics.py:38-50 | a `with` block tracks measurements until the first is rejected, appends the accepted ones' rows in call order, and logs exactly one entry on exit, whether or not one was rejected; every logged column list has one value per successful `track` call |
| `ValuedMetrics.TTATracker.Track` | e2ebench/e2ebench/metrics/valued_metrics.py:70-72 | appends one entry: measure type "tta", unit "accuracy", and the accuracies unchanged as the payload |
| `ValuedMetrics.TTATracker.Serialize` | e2ebench/e2ebench/metrics/valued_metrics.py:74-81 | the payload is the bare list, and the visualizer's decoding rejects it as not a mapping |
| `ValuedMetrics.LossTracker.Track` | e2ebench/e2ebench/metrics/valued_metrics.py:110-115 | appends one entry: measure type "loss", unit "loss", and the loss values unchanged as the payload |
| `ValuedMetrics.DecodeAccuracies` | e2ebench/e2ebench/metrics/valued_metrics.py:81 | `['accuracies']` succeeds exactly on a dict that has that key; a list fails with TypeError and a dict without the key fails with KeyError |
| `ValuedMetrics.DecodeRuns` | e2ebench/e2ebench/metrics/valued_metrics.py:78-81 | the `__init__` loop yields the runs of all payloads, or the error of the first payload that does not decode |
| `ValuedMetrics.DecodeAllOk` | e2ebench/e2ebench/metrics/valued_metrics.py:78-81 | decoding succeeds if and only if every payload decodes, and then holds one run per payload, in input order |
| `ValuedMetrics.DecodeAllErr` | e2ebench/e2ebench/metrics/valued_metrics.py:80-81 | a decoding failure carries the error of the first payload that fails; no run is skipped |
| `ValuedMetrics.NewTTAVisualizer` | e2ebench/e2ebench/metrics/valued_metrics.py:78-81 | a visualizer is built exactly when every payload decodes, and then holds the decoded runs in input order |
| `ValuedMetrics.EpochAxisCounts` | e2ebench/e2ebench/metrics/valued_metrics.py:88-90 | the x-values of a run of length `n` are exactly `1, 2, …, n` |
| `ValuedMetrics.TTAVisualizer.Visualize` | e2ebench/e2ebench/metrics/valued_metrics.py:87-94 | one series per run, in order: its x-values are the epoch axis, its y-values are the run, and its legend is "Run from " plus that run's start; if there are fewer starts than runs, it fails at the first run without a start |
| `ValuedMetrics.RunLabelNamesStart` | e2ebench/e2ebench/metrics/valued_metrics.py:94 | a legend label is "Run from " followed by 19 characters that read back as the start time, truncated to the second |
| `Timestamps.IsoFormat` | e2ebench/e2ebench/metrics/valued_metrics.py:94 | `isoformat(' ', 'seconds')` is 19 characters: digit fields separated by '-', '-', ' ', ':', ':' |
| `Timestamps.IsoFormatRoundTrip` | e2ebench/e2ebench/metrics/valued_metrics.py:94 | parsing the formatted start gives back the start with its microseconds dropped |
| `Timestamps.IsoFormatDistinguishesSeconds` | e2ebench/e2ebench/metrics/valued_metrics.py:94 | two starts print the same if and only if they agree to the second |
| `Decimal.ZeroPaddedRoundTrip` | e2ebench/e2ebench/metrics/valued_metrics.py:94 | a zero-padded date field reads back as its number |
| `Decimal.DecimalRoundTrip` | src/feature_extraction/feature_extraction_pandas.py:41 | the decimal text of `n` in an f-string reads back as `n` |
| `Decimal.DecimalInjective` | src/feature_extraction/feature_extraction_pandas.py:41 | distinct numbers have distinct decimal texts |
| `FailureLabels.LabelMatrix` | src/feature_extraction/feature_extraction_pandas.py:30-39 | the label matrix has `entry_count` rows of `num_look_ahead_days` columns in both branches |
| `FailureLabels.NoFailureAllFalse` | src/feature_extraction/feature_extraction_pandas.py:38-39 | a disk that never failed has no true label |
| `FailureLabels.FailureLabelAt` | src/feature_extraction/feature_extraction_pandas.py:35-37 | for a failed disk, label `(r, c)` of the numpy construction is true if and only if `c >= n - 1 - r` |
| `FailureLabels.LatestRowAllTrue` | src/feature_extraction/feature_extraction_pandas.py:36-37 | the last row of a failed disk is true in every column |
| `FailureLabels.RowMonotone` | src/feature_extraction/feature_extraction_pandas.py:36 | along a row, true at column `c` implies true at `c + 1` |
| `FailureLabels.ColumnMonotone` | src/feature_extraction/feature_extraction_pandas.py:36 | down a column, true at row `r` implies true at row `r + 1` |
| `FailureLabels.FarRowAllFalse` | src/feature_extraction/feature_extraction_pandas.py:36-37 | a row with `n - 1 - r >= d` is all false |
| `FailureLabels.CountThreshold` | src/feature_extraction/feature_extraction_pandas.py:36 | a row that turns true at column `t` has `d - t` true labels, clamped to `0..d` |
| `FailureLabels.TrueCountOfRow` | src/feature_extraction/feature_extraction_pandas.py:36-37 | row `r` of a failed disk has `d - (n - 1 - r)` true labels, clamped to `0..d` |
| `FailureLabels.LaterRowsMoreTrue` | src/feature_extraction/feature_extraction_pandas.py:35-39 | a later row has at least as many true labels as an earlier one, in both branches |
| `FailureLabels.ColumnNames` | src/feature_extraction/feature_extraction_pandas.py:41 | there is one column name per look-ahead day |
| `FailureLabels.ColumnNameDays` | src/feature_extraction/feature_extraction_pandas.py:41 | column `i` is named `fails_within_{i+1}_days` and reads back as `i + 1` |
| `FailureLabels.ColumnNamesIncreasing` | src/feature_extraction/feature_extraction_pandas.py:41 | the column names are pairwise distinct and run in increasing order of days |
| `FeatureExtraction.SortByDate` | src/feature_extraction/feature_extraction_pandas.py:33 | the result is in ascending date order and is a permutation of the rows |
| `FeatureExtraction.Without` | src/feature_extraction/feature_extraction_pandas.py:34 | after the drop, a name remains a column if and only if it was one and is not the dropped name; every other name keeps its number of occurrences, and the dropped name has none |
| `FeatureExtraction.WithoutConcat` | src/feature_extraction/feature_extraction_pandas.py:34 | dropping from a concatenation drops from each part, so the kept columns stay in their original order |
| `FeatureExtraction.WithoutDistinct` | src/feature_extraction/feature_extraction_pandas.py:34 | when column names are distinct, the drop removes exactly the position holding `failure` and keeps every other column in place and in order |
| `FeatureExtraction.DataFrame.SortValuesByDate` | src/feature_extraction/feature_extraction_pandas.py:33 | sorts the frame's rows in place into ascending date order, as a permutation of the old rows, and keeps its columns |
| `FeatureExtraction.DataFrame.DropColumn` | src/feature_extraction/feature_extraction_pandas.py:34 | removes the column in place and keeps the rows |
| `FeatureExtraction.AddFailureColumns` | src/feature_extraction/feature_extraction_pandas.py:29-44 | the result keeps one row per input row, followed by the label columns `fails_within_1_days` … in order. Its labels are the label matrix of the branch taken. A failed disk's frame becomes a date-ascending permutation without the `failure` column. Otherwise the frame is left as given |
| `FeatureExtraction.LatestDateAllTrue` | src/feature_extraction/feature_extraction_pandas.py:33-37 | in a failed disk's result, the last row has the latest date and is labelled true in every column |

## Left out

- Plotting: the figure, axes, ticks, legend position, title and `plt.show`. The `'{:.1f}'` tick
  text and the unused `uuid` and `description` parameters of `visualize` are left out as well.
  The model keeps only what each line shows: its x-values, y-values and legend.
- Pickle bytes: payloads are the Python objects before pickling, as a tagged datatype. Byte
  round trips belong to the pickle library.
- The benchmark's own storage, run identity and timestamps. The sink is an append-only
  sequence of entries.
- Values are `real` or a small `Scalar` datatype. Floating point, numpy dtypes and pandas
  dtype coercion of table cells are not modelled.
- A hyperparameter listed twice, or equal to the target, gives pandas duplicate columns. The
  model treats the columns as a set of keys there.
- Timestamps with a time zone: `isoformat` would append an offset. Only naive timestamps are
  modelled.
- `pd.concat([df, failure_features], axis=1)` is an outer join on index labels, in both
  branches. `groupby('serial_number').apply` passes each group with the labels it had in the
  whole CSV frame, and neither branch resets them. The sort in the failing branch keeps them
  too. The label frame is indexed `0..n-1`. Unless a group's labels are exactly `0..n-1`,
  pandas returns more than `n` rows, up to `2n`: the group's rows get NaN labels, and extra
  rows appear with NaN features. `FeatureExtraction.AddFailureColumns` states the intended
  pairing instead: row `i` of the frame beside row `i` of the labels, with `n` rows. It makes
  no claim about what pandas' join returns.
- The `failure` values after the drop: the dropped column's values are gone from the pandas
  output. Each `Row` still carries its `failure` field, and the result passes it on. The
  model treats that field as outside the frame once "failure" is no longer among the
  columns.
- The order of rows with equal dates: pandas sorts with an unstable quicksort. The
  contract states only the ascending order and the permutation. The body uses one particular
  order, an insertion sort.
- `groupby('serial_number').apply`, `filter_columns_and_write_back`, CSV reads and writes, and
  the normalisation (`mean`, `std`, `fillna`, z-scores). These are file I/O and floating-point
  statistics.
- The unused plotly, sklearn, torch, argparse and re imports.
- `HyperparameterTracker.track` under `python -O`: the asserts are stripped, so a measurement
  missing a field is appended with NaN in the missing columns instead of being rejected. The
  model covers only the behaviour with assertions enabled.
- Aliasing of the `hyperparameters` list: the tracker keeps a reference to the caller's list,
  while the table's columns are fixed when the tracker is built. A caller that later mutates
  the list changes what `track` checks and what `close` logs. The model holds the names as an
  immutable sequence, so it does not capture this.
