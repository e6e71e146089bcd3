# Time-series aggregation, modelled in Dafny

This project models the aggregation package `aggregate/aggregate.go` and proves
properties of the model. The package takes several irregular time series of
`(Ts, Value)` samples and produces one evenly spaced series over a window
`[start, end]` with step `interval`:

- every timestamp is rounded up to a multiple of the interval (`FindClosestMultiple`);
- exact duplicate samples are dropped (`RemoveDuplicates`);
- each series becomes a bucket map where the first sample of a bucket wins (`ToMap`);
- the window is walked bucket by bucket, and empty buckets are filled with NaN (`FilterByTsRange`);
- two series are merged by timestamp, summing collisions with a NaN-aware sum (`Merge`, `SumNaNs`);
- `Aggregate` folds `Merge(FilterByTsRange(acc), FilterByTsRange(series))` over the input series.

Modules, one file each:

| file | module | models |
|---|---|---|
| samples.dfy | `Samples` | `Metric`, the value type (`Missing` stands for NaN), `SumNaNs` |
| alignment.dfy | `Alignment` | `FindClosestMultiple`, with its division and modulo facts |
| deduplication.dfy | `Deduplication` | `RemoveDuplicates` |
| bucketing.dfy | `Bucketing` | `ToMap` |
| rangefilter.dfy | `RangeFilter` | `FilterByTsRange` |
| merging.dfy | `Merging` | `Merge` |
| aggregation.dfy | `Aggregation` | `Aggregate` |
| scenarios.dfy | `Scenarios` | three cases from `aggregate/aggregate_test.go`, proved against the model |

Every loop of the source but one is a method with a loop and invariants. The
exception is the key-collecting loop of `Merge` (aggregate/aggregate.go:42-44),
which together with the sort that follows it is the function `SortedKeys`.
Each method is proved equal to a specification function:

- `RemoveDuplicates` equals `Deduplicated`.
- `ToMap` equals `Buckets`.
- `FilterByTsRange` equals `Densified`.
- `Merge` equals `Merged`.
- `Aggregate` equals `Aggregated`.

The properties are proved as lemmas about those functions. `Aggregated` also
has an independent reference definition: the series' bucket maps combined with
`SumNaNs` (`ColumnBuckets`) and laid out on the window. For at least one
series, `AggregatedIsFill` proves that the fold equals this reference. With
zero series the fold is empty (`AggregatedNoSeries`), while the reference
would be the all-Missing window.

Values are `Missing | Present(v: real)`. NaN is the only floating-point
behaviour the source tests (`math.IsNaN`). Timestamps are unbounded `nat`.

Four behaviours of the code, stated explicitly:

- With zero input series the result is empty, because the loop never runs. It is not an all-NaN window.
- A zero interval is a precondition (`interval > 0`), because the source divides by it and panics as soon as one series is filtered. With zero series it returns an empty result even for a zero interval. There is no error value.
- Samples whose value is NaN are never removed as duplicates, because NaN never equals itself as a map key.
- Exact copies of a sample are ignored wherever they are inserted after the original (`DensifiedIgnoresDuplicates`), but a copy placed before the original can change the result, because it claims its bucket first (`AggregatedCopyBeforeOriginal`).

## Model

| member | source | states |
|---|---|---|
| Samples.SumNaNs | aggregate/aggregate.go:118-126 | the sum is Missing exactly when both arguments are Missing |
| Samples.SumNaNsIdentity | aggregate/aggregate.go:119-124 | Missing is a left and a right identity, so Missing plus Missing is Missing |
| Samples.SumNaNsPresent | aggregate/aggregate.go:125 | two present values add |
| Samples.SumNaNsCommutative | aggregate/aggregate.go:118-126 | the sum is commutative |
| Samples.SumNaNsAssociative | aggregate/aggregate.go:118-126 | the sum is associative |
| Alignment.FindClosestMultiple | aggregate/aggregate.go:128-136 | the result is a multiple of `m` in `[n, n + m)`, and it is `n` itself when `n` is a multiple |
| Alignment.FindClosestMultipleIsLeast | aggregate/aggregate.go:128-136 | the result is the least multiple of `m` that is not below `n` |
| Alignment.FindClosestMultipleIdempotent | aggregate/aggregate.go:128-136 | aligning an aligned value changes nothing |
| Alignment.FindClosestMultipleU32 | aggregate/aggregate.go:128-136 | the source's uint32 computation stays below 2^32 and agrees with the unbounded one whenever that fits in 32 bits |
| Alignment.FindClosestMultipleU32Wraps | aggregate/aggregate.go:133-134 | for `n = 2^32 - 1` and `m = 10` the uint32 result is 4, while the true rounded-up value is `2^32 + 4` |
| Alignment.FindClosestMultipleU32WrapsToZero | aggregate/aggregate.go:133-134 | for `n = 2^32 - 1` and `m = 16` the uint32 result is 0, while the true rounded-up value is `2^32` |
| Deduplication.Deduplicated | aggregate/aggregate.go:83-96 | the output is no longer than the input and holds exactly the input's samples |
| Deduplication.RemoveDuplicates | aggregate/aggregate.go:83-96 | the loop over a set of seen samples returns `Deduplicated` of its input |
| Deduplication.DeduplicatedIsSubsequence | aggregate/aggregate.go:88-93 | the output is a subsequence of the input, in input order |
| Deduplication.DeduplicatedPrefix | aggregate/aggregate.go:88-93 | the output for a prefix of the input is a prefix of the output for the whole input |
| Deduplication.DeduplicatedKeepsFirst | aggregate/aggregate.go:89-92 | the first copy is the one kept: a sample that repeats nothing before it is emitted right after the output for the samples before it |
| Deduplication.DeduplicatedPresentOnce | aggregate/aggregate.go:89-92 | every distinct present-valued input sample occurs exactly once in the output |
| Deduplication.DeduplicatedKeepsMissing | aggregate/aggregate.go:84-92 | a Missing-valued sample occurs in the output as often as in the input |
| Deduplication.DeduplicatedIdempotent | aggregate/aggregate.go:83-96 | removing duplicates twice is the same as removing them once |
| Bucketing.Buckets | aggregate/aggregate.go:98-116 | every key is a multiple of the interval, and every sample's aligned timestamp is a key |
| Bucketing.BucketsKeys | aggregate/aggregate.go:101-111 | every key is the aligned timestamp of some input sample |
| Bucketing.ToMap | aggregate/aggregate.go:98-116 | the loop returns `Buckets` of its input |
| Bucketing.BucketsFirstWins | aggregate/aggregate.go:107-111 | a bucket holds the value of the first sample aligned to it, Missing included |
| Bucketing.BucketsIgnoreClaimed | aggregate/aggregate.go:107-111 | appending samples whose buckets are already claimed leaves the map unchanged |
| Bucketing.BucketsInsertRepeats | aggregate/aggregate.go:101-111 | copies of earlier samples inserted anywhere after them, `p + t + q` against `p + q`, leave the bucket map unchanged |
| Bucketing.BucketsOfDeduplicated | aggregate/aggregate.go:60 | bucketing the deduplicated series gives the same map as bucketing the raw series |
| RangeFilter.Fill | aggregate/aggregate.go:66-78 | the window has `(hi - lo) / interval + 1` samples (none when `lo > hi`), each inside `[lo, hi]` and carrying its bucket's value or Missing |
| RangeFilter.FillTimestamps | aggregate/aggregate.go:66 | the `j`-th sample of the window has timestamp `lo + j * interval` |
| RangeFilter.FillAscending | aggregate/aggregate.go:66 | window timestamps are strictly ascending |
| RangeFilter.FillDeterminedByBuckets | aggregate/aggregate.go:67-77 | two bucket maps that agree on the window's buckets fill it alike |
| RangeFilter.FilterByTsRange | aggregate/aggregate.go:57-81 | the method returns `Densified` of its input |
| RangeFilter.FillWindow | aggregate/aggregate.go:66-78 | the stepping loop returns `Fill` of the bucket map over `[lo, hi]` |
| RangeFilter.DensifiedShape | aggregate/aggregate.go:62-66 | with `S`, `E` the aligned ends, the output has `(E - S) / interval + 1` samples at `S, S + interval, ...`, ending on `E`, strictly ascending and aligned; it is empty when `S > E` |
| RangeFilter.DensifiedValues | aggregate/aggregate.go:67-77 | the sample at bucket `t` carries the bucket map's value at `t`, or Missing when `t` is not a key |
| RangeFilter.DensifiedIgnoresOutside | aggregate/aggregate.go:60-78 | dropping the samples whose aligned timestamp lies outside `[S, E]` does not change the output |
| RangeFilter.DensifiedIgnoresDuplicates | aggregate/aggregate.go:60 | copies of earlier samples inserted anywhere after them (`p + t + q` with every sample of `t` in `p`, against `p + q`) do not change the output |
| RangeFilter.DensifiedOfFill | aggregate/aggregate.go:57-81 | a series already laid out on the window is returned unchanged |
| RangeFilter.DensifiedSampleNearLimit | aggregate/aggregate.go:98-111 | the model leaves the sample `(2^32 - 1, 1.0)` out of the window `[0, 0]` with step 16, giving `(0, Missing)` |
| RangeFilter.DensifiedIdempotent | aggregate/aggregate.go:57-81 | filtering a filtered series changes nothing |
| Merging.Total | aggregate/aggregate.go:30-37 | the fold at a timestamp that no sample has is Missing |
| Merging.SumByTs | aggregate/aggregate.go:30-37 | each bucket holds the `SumNaNs` fold, in input order, of every value at its timestamp |
| Merging.SumByTsKeys | aggregate/aggregate.go:30-37 | the keys of the bucket map are exactly the input timestamps |
| Merging.SortedKeys | aggregate/aggregate.go:41-45 | the collected keys are every key of the map, once each, strictly ascending |
| Merging.SortedKeysUnique | aggregate/aggregate.go:41-45 | a strictly ascending sequence with exactly the map's keys is `SortedKeys` of them |
| Merging.EmitKeys | aggregate/aggregate.go:47-52 | one sample per key, in key order, carrying that key's bucket value |
| Merging.Merge | aggregate/aggregate.go:26-55 | the method returns `Merged` of its inputs |
| Merging.EmitInOrder | aggregate/aggregate.go:47-52 | the emitting loop returns `EmitKeys` of the bucket map and the keys |
| Merging.MergedAscending | aggregate/aggregate.go:41-52 | merged timestamps are strictly ascending, hence unique |
| Merging.MergedTimestamps | aggregate/aggregate.go:26-55 | the merged timestamps are the union of both inputs' timestamps |
| Merging.MergedValues | aggregate/aggregate.go:30-37 | each merged value is `SumNaNs` of the folds of both inputs at that timestamp |
| Merging.TotalAppend | aggregate/aggregate.go:27-37 | the fold over the concatenation is `SumNaNs` of the folds over each input |
| Merging.TotalMerged | aggregate/aggregate.go:26-55 | the fold of a merged series at any timestamp is `SumNaNs` of both inputs' folds there |
| Merging.MergedAssociative | aggregate/aggregate.go:26-55 | merging is associative |
| Merging.MergedCommutative | aggregate/aggregate.go:26-55 | merging is commutative |
| Merging.MergedAligned | aggregate/aggregate.go:26-55 | two series with the same strictly ascending timestamps merge position by position with `SumNaNs` |
| Merging.Combine | aggregate/aggregate.go:35 | every lookup in the combined map is `SumNaNs` of the lookups in both maps |
| Merging.MergedFills | aggregate/aggregate.go:17-20 | merging two windows of the same range gives the window of the combined bucket maps |
| Merging.MergedWithEmptySeries | aggregate/aggregate.go:17-20 | the filtered empty series (all Missing) is an identity of merging on either side |
| Aggregation.Aggregate | aggregate/aggregate.go:13-24 | the loop returns `Aggregated` of its input |
| Aggregation.AggregatedNoSeries | aggregate/aggregate.go:14-23 | with zero series the result is empty |
| Aggregation.ColumnBucketsLookup | aggregate/aggregate.go:16-21 | each combined bucket is the `SumNaNs` fold, over the series in order, of their first-wins values |
| Aggregation.AggregateStep | aggregate/aggregate.go:17-20 | one round of the fold keeps the accumulator equal to the window of the combined buckets of the series consumed so far |
| Aggregation.AggregatedIsFill | aggregate/aggregate.go:13-24 | with at least one series the fold equals the reference: the combined bucket maps laid out on the window |
| Aggregation.AggregatedShapeAndValues | aggregate/aggregate.go:13-24 | with at least one series the result has the window's shape, and each value is the `SumNaNs` fold of the series' bucket values |
| Aggregation.AggregatedSingle | aggregate/aggregate.go:13-24 | with one series the result equals that series passed through `FilterByTsRange` |
| Aggregation.AggregateFromRegularized | aggregate/aggregate.go:16-21 | the fold depends on each series only through its filtered form |
| Aggregation.AggregatedIgnoresDuplicates | aggregate/aggregate.go:13-24 | in any one series, copies of earlier samples inserted anywhere after them do not change the result |
| Aggregation.AggregatedCopyBeforeOriginal | aggregate/aggregate.go:107-111 | a copy placed before its original is not ignored: `[(5, 1.0), (10, 2.0)]` over `[10, 10]` with step 10 gives `(10, 1.0)`, and with `(10, 2.0)` prepended gives `(10, 2.0)` |
| Scenarios.ApplyRangeParams | aggregate/aggregate_test.go:82-106 | two series over `[100, 200]` with step 100 give `(100, 25.4), (200, 51.3)` |
| Scenarios.RepeatedSamplesIgnored | aggregate/aggregate_test.go:28-48 | on any window, the test's series with its middle sample repeated three times filters to the same output as the series without the copies |
| Scenarios.SingleSeriesWithRepeatedSamples | aggregate/aggregate_test.go:28-48 | a single series with a sample repeated three times gives each bucket once |
| Scenarios.ApplyRangeWhenMissingSamples | aggregate/aggregate_test.go:108-136 | two series over `[50, 450]` with step 50 give sums at 150, 250 and 350 and Missing at every other bucket |

## Left out

- Floating point: values are exact reals. IEEE rounding and NaN bit patterns are not modelled. The scenario sums are exact, for example 15.2 + 10.2 = 25.4.
- uint32 timestamps: timestamps are `nat`. `Alignment.FindClosestMultipleU32` models the wrap-around of the source's product, and the rest of the model uses the unbounded `FindClosestMultiple`.
- RangeFilter.FilterByTsRange: requires the aligned end plus one interval to stay below 2^32. Without it, either the aligned end wraps (aggregate/aggregate.go:134) and the source walks a window near 0, or `i + interval` wraps and the loop never ends. The aligned start is not bounded either: for `start = 4294967295`, `end = 100` and `interval = 10` the source aligns the start to 4 (aggregate/aggregate.go:62) and emits ten samples at 4, 14, ..., 94, off the interval grid, while the model aligns the start above the end and returns an empty window.
- Aggregation.Aggregate: carries the same requirement, because it calls `FilterByTsRange`.
- Bucketing.ToMap: does not model the wrap-around of `FindClosestMultiple` for timestamps within one interval of 2^32 (see Findings). When the interval divides 2^32, such a sample lands in bucket 0 in the source. For example, with interval 16 the sample `(4294967295, 1.0)` over the window `[0, 0]` gives `(0, 1.0)` in the source but `(0, Missing)` in the model (`RangeFilter.DensifiedSampleNearLimit`). `FilterByTsRange`'s requirement, which bounds only the aligned end, does not exclude this input.
- A zero interval: the source panics on the division. The model requires `interval > 0`.
- Go map iteration order and the `sort.Slice` algorithm in `Merge`: the collected and sorted keys are the function `SortedKeys`, the unique ascending enumeration of the key set.
- Slice aliasing in `append(metrics1, metrics2...)`: sequences are values, so neither input of `Merge` can change.
- Merging.EmitInOrder: the emitting loop is a separate method called from `Merge`. The source runs it inline.
- RangeFilter.FillWindow: the window loop is a separate method called from `FilterByTsRange`. The source runs it inline.
- The map of seen samples in `RemoveDuplicates` is a set of samples. A Missing sample is checked explicitly, because NaN never matches as a map key.
- The test helper `equal` and the Go test functions in `aggregate/aggregate_test.go` are not part of this model; three of their cases are restated as lemmas in `Scenarios`.

## Findings

| source | as written | input that shows it | evidently intended | confidence | as-written member | corrected member |
|---|---|---|---|---|---|---|
| aggregate/aggregate.go:133-134 | `m * (quotient + 1)` is computed in uint32 and wraps past 2^32 | `FindClosestMultiple(4294967295, 10)` returns 4, far below its argument; through `FilterByTsRange(s, 4294967295, 100, 10)` the window then starts at 4 and yields samples at 4, 14, ..., 94, off the grid, although the start lies beyond the end; with `m = 16`, the sample `(4294967295, 1.0)` is put in bucket 0 and shows up in the window `[0, 0]` | the least multiple of `m` not below `n` (never below `n`) | not executed; follows from uint32 arithmetic | Alignment.FindClosestMultipleU32Wraps, Alignment.FindClosestMultipleU32WrapsToZero | Alignment.FindClosestMultiple |
