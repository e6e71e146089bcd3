/**
 * The driver (`Aggregate`): a left fold that regularizes the accumulator and
 * the next series over the same window and merges them.
 */
module Aggregation {
  import opened Samples
  import opened Alignment
  import opened Deduplication
  import opened Bucketing
  import opened RangeFilter
  import opened Merging

  /** The fold from accumulator `acc` over the remaining `series`. */
  function AggregateFrom(acc: seq<Metric>, series: seq<seq<Metric>>, start: nat, end: nat, interval: nat): seq<Metric>
    requires interval > 0
    decreases |series|
  {
    if series == [] then acc
    else
      AggregateFrom(Step(acc, series[0], start, end, interval), series[1..], start, end, interval)
  }

  /** One round of the fold: the accumulator and the next series, both regularized, merged. */
  function Step(acc: seq<Metric>, x: seq<Metric>, start: nat, end: nat, interval: nat): seq<Metric>
    requires interval > 0
  {
    Merged(Densified(acc, start, end, interval), Densified(x, start, end, interval))
  }

  /** The aggregate of `series`: the fold from the empty accumulator. */
  function Aggregated(series: seq<seq<Metric>>, start: nat, end: nat, interval: nat): seq<Metric>
    requires interval > 0
  {
    AggregateFrom([], series, start, end, interval)
  }

  /** The source's loop, reassigning the accumulator once per input series. */
  method Aggregate(metrics: seq<seq<Metric>>, start: nat, end: nat, interval: nat) returns (result: seq<Metric>)
    requires interval > 0
    requires FindClosestMultiple(end, interval) + interval < U32Limit
    ensures result == Aggregated(metrics, start, end, interval)
  {
    result := [];
    for i := 0 to |metrics|
      invariant AggregateFrom(result, metrics[i..], start, end, interval) == Aggregated(metrics, start, end, interval)
    {
      var acc := FilterByTsRange(result, start, end, interval);
      var next := FilterByTsRange(metrics[i], start, end, interval);
      assert metrics[i..][0] == metrics[i] && metrics[i..][1..] == metrics[i + 1..];
      result := Merge(acc, next);
    }
  }

  /** The `SumNaNs` fold, over the series in order, of each series' first-wins value in bucket `t`. */
  function BucketSum(series: seq<seq<Metric>>, interval: nat, t: nat): Val
    requires interval > 0
  {
    if series == [] then Missing
    else SumNaNs(BucketSum(series[..|series| - 1], interval, t), Lookup(Buckets(series[|series| - 1], interval), t))
  }

  /** The bucket maps of all series combined with `SumNaNs`. */
  function ColumnBuckets(series: seq<seq<Metric>>, interval: nat): map<nat, Val>
    requires interval > 0
  {
    if series == [] then map[]
    else Combine(ColumnBuckets(series[..|series| - 1], interval), Buckets(series[|series| - 1], interval))
  }

  /** Each combined bucket is the `SumNaNs` fold of the series' own buckets. */
  lemma {:induction false} ColumnBucketsLookup(series: seq<seq<Metric>>, interval: nat, t: nat)
    requires interval > 0
    ensures Lookup(ColumnBuckets(series, interval), t) == BucketSum(series, interval, t)
  {
    if series != [] {
      ColumnBucketsLookup(series[..|series| - 1], interval, t);
    }
  }

  /** The accumulator invariant of the fold: the combined buckets of the series consumed so far, on the window. */
  ghost predicate AccumulatorHolds(acc: seq<Metric>, done: seq<seq<Metric>>, start: nat, end: nat, interval: nat)
    requires interval > 0
  {
    (done == [] && acc == []) ||
    acc == Fill(ColumnBuckets(done, interval), FindClosestMultiple(start, interval), FindClosestMultiple(end, interval), interval)
  }

  /** Regularizing the accumulator gives the accumulator's window of combined buckets. */
  lemma DensifiedAccumulator(acc: seq<Metric>, done: seq<seq<Metric>>, start: nat, end: nat, interval: nat)
    requires interval > 0 && AccumulatorHolds(acc, done, start, end, interval)
    ensures Densified(acc, start, end, interval) ==
      Fill(ColumnBuckets(done, interval), FindClosestMultiple(start, interval), FindClosestMultiple(end, interval), interval)
  {
    var cb := ColumnBuckets(done, interval);
    if done == [] && acc == [] {
      assert Deduplicated(acc) == [] && Buckets([], interval) == cb;
    } else {
      DensifiedOfFill(cb, start, end, interval);
    }
  }

  /** A regularized series is the window of its own buckets. */
  lemma DensifiedSeries(x: seq<Metric>, start: nat, end: nat, interval: nat)
    requires interval > 0
    ensures Densified(x, start, end, interval) ==
      Fill(Buckets(x, interval), FindClosestMultiple(start, interval), FindClosestMultiple(end, interval), interval)
  {
    BucketsOfDeduplicated(x, interval);
  }

  /** Consuming one more series combines its buckets into the column buckets. */
  lemma ColumnBucketsAppend(done: seq<seq<Metric>>, x: seq<Metric>, interval: nat)
    requires interval > 0
    ensures ColumnBuckets(done + [x], interval) == Combine(ColumnBuckets(done, interval), Buckets(x, interval))
  {
    assert (done + [x])[..|done + [x]| - 1] == done;
  }

  /** One step of the fold restores the accumulator invariant with one more series consumed. */
  lemma AggregateStep(acc: seq<Metric>, done: seq<seq<Metric>>, x: seq<Metric>, start: nat, end: nat, interval: nat)
    requires interval > 0 && AccumulatorHolds(acc, done, start, end, interval)
    ensures AccumulatorHolds(Step(acc, x, start, end, interval), done + [x], start, end, interval)
  {
    var lo, hi := FindClosestMultiple(start, interval), FindClosestMultiple(end, interval);
    var cb := ColumnBuckets(done, interval);
    DensifiedAccumulator(acc, done, start, end, interval);
    DensifiedSeries(x, start, end, interval);
    MergedFills(cb, Buckets(x, interval), lo, hi, interval);
    ColumnBucketsAppend(done, x, interval);
  }

  /** The fold ends with the combined buckets of every series (`all`, consumed or not) laid out on the window. */
  lemma {:induction false} AggregateFromFills(acc: seq<Metric>, done: seq<seq<Metric>>, rest: seq<seq<Metric>>,
                                              all: seq<seq<Metric>>, start: nat, end: nat, interval: nat)
    requires interval > 0 && all == done + rest && all != []
    requires AccumulatorHolds(acc, done, start, end, interval)
    ensures var lo, hi := FindClosestMultiple(start, interval), FindClosestMultiple(end, interval);
      AggregateFrom(acc, rest, start, end, interval) == Fill(ColumnBuckets(all, interval), lo, hi, interval)
    decreases |rest|
  {
    if rest == [] {
      assert all == done;
    } else {
      var x := rest[0];
      AggregateStep(acc, done, x, start, end, interval);
      MoveFirst(done, rest);
      AggregateFromFills(Step(acc, x, start, end, interval), done + [x], rest[1..], all, start, end, interval);
    }
  }

  lemma MoveFirst<T>(done: seq<T>, rest: seq<T>)
    requires rest != []
    ensures (done + [rest[0]]) + rest[1..] == done + rest
  {
    assert rest == [rest[0]] + rest[1..];
  }

  /** With no series the loop never runs: the result is empty, not a gap-filled window. */
  lemma AggregatedNoSeries(start: nat, end: nat, interval: nat)
    requires interval > 0
    ensures Aggregated([], start, end, interval) == []
  {
  }

  /** With at least one series the result is the combined buckets of all series laid out on the window. */
  lemma AggregatedIsFill(series: seq<seq<Metric>>, start: nat, end: nat, interval: nat)
    requires interval > 0 && series != []
    ensures Aggregated(series, start, end, interval) ==
      Fill(ColumnBuckets(series, interval), FindClosestMultiple(start, interval), FindClosestMultiple(end, interval), interval)
  {
    assert [] + series == series;
    AggregateFromFills([], [], series, series, start, end, interval);
  }

  /**
   * With at least one series the result has the shape of a regularized series
   * over the window, and each bucket holds the `SumNaNs` fold over the series
   * of their first-wins values in that bucket.
   */
  lemma AggregatedShapeAndValues(series: seq<seq<Metric>>, start: nat, end: nat, interval: nat)
    requires interval > 0 && series != []
    ensures var lo, hi := FindClosestMultiple(start, interval), FindClosestMultiple(end, interval);
      var r := Aggregated(series, start, end, interval);
      && |r| == (if lo <= hi then (hi - lo) / interval + 1 else 0)
      && (forall j :: 0 <= j < |r| ==> r[j].ts == lo + j * interval && r[j].ts % interval == 0)
      && (forall j :: 0 <= j < |r| ==> r[j].value == BucketSum(series, interval, r[j].ts))
  {
    var lo, hi := FindClosestMultiple(start, interval), FindClosestMultiple(end, interval);
    AggregatedIsFill(series, start, end, interval);
    FillTimestamps(ColumnBuckets(series, interval), lo, hi, interval);
    FillAligned(ColumnBuckets(series, interval), lo, hi, interval);
    var r := Aggregated(series, start, end, interval);
    forall j | 0 <= j < |r| ensures r[j].value == BucketSum(series, interval, r[j].ts) {
      ColumnBucketsLookup(series, interval, r[j].ts);
    }
  }

  /** With one series the result is that series regularized over the window. */
  lemma AggregatedSingle(s: seq<Metric>, start: nat, end: nat, interval: nat)
    requires interval > 0
    ensures Aggregated([s], start, end, interval) == Densified(s, start, end, interval)
  {
    assert [s][0] == s && [s][1..] == [];
    var e, d := Densified([], start, end, interval), Densified(s, start, end, interval);
    assert Aggregated([s], start, end, interval) == AggregateFrom(Step([], s, start, end, interval), [], start, end, interval);
    MergedWithEmptySeries(s, start, end, interval);
  }

  /** The fold depends on each series only through its regularized form. */
  lemma {:induction false} AggregateFromRegularized(acc: seq<Metric>, s1: seq<seq<Metric>>, s2: seq<seq<Metric>>,
                                                    start: nat, end: nat, interval: nat)
    requires interval > 0 && |s1| == |s2|
    requires forall i :: 0 <= i < |s1| ==> Densified(s1[i], start, end, interval) == Densified(s2[i], start, end, interval)
    ensures AggregateFrom(acc, s1, start, end, interval) == AggregateFrom(acc, s2, start, end, interval)
    decreases |s1|
  {
    if s1 != [] {
      AggregateFromRegularized(Step(acc, s1[0], start, end, interval), s1[1..], s2[1..], start, end, interval);
    }
  }

  /** Exact copies of earlier samples, inserted into one series after them, do not change the aggregate. */
  lemma AggregatedIgnoresDuplicates(series: seq<seq<Metric>>, i: nat, p: seq<Metric>, t: seq<Metric>, q: seq<Metric>,
                                    start: nat, end: nat, interval: nat)
    requires interval > 0 && i < |series|
    requires forall x :: x in t ==> x in p
    ensures Aggregated(series[i := p + t + q], start, end, interval) == Aggregated(series[i := p + q], start, end, interval)
  {
    DensifiedIgnoresDuplicates(p, t, q, start, end, interval);
    AggregateFromRegularized([], series[i := p + t + q], series[i := p + q], start, end, interval);
  }

  /** A series whose only bucket in the window [10, 10] holds `v` aggregates, alone, to that one sample. */
  lemma AggregatedOneBucket(s: seq<Metric>, v: Val)
    requires Lookup(Buckets(s, 10), 10) == v
    ensures Aggregated([s], 10, 10, 10) == [Metric(10, v)]
  {
    assert FindClosestMultiple(10, 10) == 10;
    AggregatedSingle(s, 10, 10, 10);
    BucketsOfDeduplicated(s, 10);
    assert Fill(Buckets(s, 10), 20, 10, 10) == [];
  }

  /**
   * A copy placed before its original is not ignored: it claims the bucket
   * first. Here the copy of the sample at 10 displaces the sample at 5,
   * which the original could not.
   */
  lemma AggregatedCopyBeforeOriginal()
    ensures var s := [Metric(5, Present(1.0)), Metric(10, Present(2.0))];
      && Aggregated([s], 10, 10, 10) == [Metric(10, Present(1.0))]
      && Aggregated([[Metric(10, Present(2.0))] + s], 10, 10, 10) == [Metric(10, Present(2.0))]
  {
    var s := [Metric(5, Present(1.0)), Metric(10, Present(2.0))];
    var s' := [Metric(10, Present(2.0))] + s;
    assert FindClosestMultiple(5, 10) == 10 && FindClosestMultiple(10, 10) == 10;
    BucketsFirstWins(s, 10, 0);
    BucketsFirstWins(s', 10, 0);
    AggregatedOneBucket(s, Present(1.0));
    AggregatedOneBucket(s', Present(2.0));
  }
}
