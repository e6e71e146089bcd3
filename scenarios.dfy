/** Concrete scenarios from the repository's tests, stated against the model. */
module Scenarios {
  import opened Samples
  import opened Alignment
  import opened Bucketing
  import opened RangeFilter
  import opened Merging
  import opened Aggregation

  function RangeSeriesA(): seq<Metric>
  {
    [Metric(0, Present(10.1)), Metric(100, Present(15.2)), Metric(200, Present(20.4)), Metric(300, Present(18.3))]
  }

  function RangeSeriesB(): seq<Metric>
  {
    [Metric(0, Present(10.1)), Metric(100, Present(10.2)), Metric(200, Present(30.9)), Metric(300, Present(78.3))]
  }

  lemma RangeSeriesABuckets()
    ensures Lookup(Buckets(RangeSeriesA(), 100), 100) == Present(15.2)
    ensures Lookup(Buckets(RangeSeriesA(), 100), 200) == Present(20.4)
  {
    assert FindClosestMultiple(0, 100) == 0 && FindClosestMultiple(100, 100) == 100;
    assert FindClosestMultiple(200, 100) == 200;
    BucketsFirstWins(RangeSeriesA(), 100, 1);
    BucketsFirstWins(RangeSeriesA(), 100, 2);
  }

  lemma RangeSeriesBBuckets()
    ensures Lookup(Buckets(RangeSeriesB(), 100), 100) == Present(10.2)
    ensures Lookup(Buckets(RangeSeriesB(), 100), 200) == Present(30.9)
  {
    assert FindClosestMultiple(0, 100) == 0 && FindClosestMultiple(100, 100) == 100;
    assert FindClosestMultiple(200, 100) == 200;
    BucketsFirstWins(RangeSeriesB(), 100, 1);
    BucketsFirstWins(RangeSeriesB(), 100, 2);
  }

  /** The combined buckets of the two series at the two window buckets. */
  lemma RangeColumnBuckets()
    ensures Lookup(ColumnBuckets([RangeSeriesA(), RangeSeriesB()], 100), 100) == Present(25.4)
    ensures Lookup(ColumnBuckets([RangeSeriesA(), RangeSeriesB()], 100), 200) == Present(51.3)
  {
    var series := [RangeSeriesA(), RangeSeriesB()];
    RangeSeriesABuckets();
    RangeSeriesBBuckets();
    assert series[..1] == [RangeSeriesA()] && [RangeSeriesA()][..0] == [];
    ColumnBucketsLookup(series, 100, 100);
    ColumnBucketsLookup(series, 100, 200);
  }

  /** Filling the window [100, 200] reads exactly the two buckets. */
  lemma RangeFill(cb: map<nat, Val>)
    requires Lookup(cb, 100) == Present(25.4) && Lookup(cb, 200) == Present(51.3)
    ensures Fill(cb, 100, 200, 100) == [Metric(100, Present(25.4)), Metric(200, Present(51.3))]
  {
    assert Fill(cb, 300, 200, 100) == [];
    assert Fill(cb, 200, 200, 100) == [Metric(200, Lookup(cb, 200))];
  }

  /** Two series summed over the window [100, 200] with interval 100; samples outside it are dropped. */
  lemma ApplyRangeParams()
    ensures Aggregated([RangeSeriesA(), RangeSeriesB()], 100, 200, 100)
      == [Metric(100, Present(25.4)), Metric(200, Present(51.3))]
  {
    var series := [RangeSeriesA(), RangeSeriesB()];
    AggregatedIsFill(series, 100, 200, 100);
    assert FindClosestMultiple(100, 100) == 100 && FindClosestMultiple(200, 100) == 200;
    RangeColumnBuckets();
    RangeFill(ColumnBuckets(series, 100));
  }

  /** A single series whose middle sample is repeated three times. */
  function RepeatedSeries(): seq<Metric>
  {
    [Metric(0, Present(10.1)), Metric(10, Present(15.2)), Metric(10, Present(15.2)),
     Metric(10, Present(15.2)), Metric(20, Present(20.4))]
  }

  lemma RepeatedSeriesBuckets()
    ensures Lookup(Buckets(RepeatedSeries(), 10), 0) == Present(10.1)
    ensures Lookup(Buckets(RepeatedSeries(), 10), 10) == Present(15.2)
    ensures Lookup(Buckets(RepeatedSeries(), 10), 20) == Present(20.4)
  {
    assert FindClosestMultiple(0, 10) == 0 && FindClosestMultiple(10, 10) == 10;
    assert FindClosestMultiple(20, 10) == 20;
    BucketsFirstWins(RepeatedSeries(), 10, 0);
    BucketsFirstWins(RepeatedSeries(), 10, 1);
    BucketsFirstWins(RepeatedSeries(), 10, 4);
  }

  /** Filling the window [0, 20] reads exactly its three buckets. */
  lemma RepeatedFill(cb: map<nat, Val>)
    requires Lookup(cb, 0) == Present(10.1) && Lookup(cb, 10) == Present(15.2) && Lookup(cb, 20) == Present(20.4)
    ensures Fill(cb, 0, 20, 10) == [Metric(0, Present(10.1)), Metric(10, Present(15.2)), Metric(20, Present(20.4))]
  {
    assert Fill(cb, 30, 20, 10) == [];
    assert Fill(cb, 20, 20, 10) == [Metric(20, Lookup(cb, 20))];
    assert Fill(cb, 10, 20, 10) == [Metric(10, Lookup(cb, 10))] + Fill(cb, 20, 20, 10);
  }

  /** A sample repeated right after itself is ignored by the range filter. */
  lemma RepeatedMiddleIgnored(x: Metric, y: Metric, z: Metric, start: nat, end: nat, interval: nat)
    requires interval > 0
    ensures Densified([x, y, y, y, z], start, end, interval) == Densified([x, y, z], start, end, interval)
  {
    var p, t, q := [x, y], [y, y], [z];
    DensifiedIgnoresDuplicates(p, t, q, start, end, interval);
    assert p + t + q == [x, y, y, y, z] && p + q == [x, y, z];
  }

  /**
   * The repeated samples are copies inserted after their original, so on any
   * window the range filter, and so the aggregate of the one series, ignores them.
   */
  lemma RepeatedSamplesIgnored(start: nat, end: nat, interval: nat)
    requires interval > 0
    ensures Densified(RepeatedSeries(), start, end, interval)
      == Densified([Metric(0, Present(10.1)), Metric(10, Present(15.2)), Metric(20, Present(20.4))], start, end, interval)
  {
    RepeatedMiddleIgnored(Metric(0, Present(10.1)), Metric(10, Present(15.2)), Metric(20, Present(20.4)), start, end, interval);
  }

  /** Repeated samples of one series are counted once. */
  lemma SingleSeriesWithRepeatedSamples()
    ensures Aggregated([RepeatedSeries()], 0, 20, 10)
      == [Metric(0, Present(10.1)), Metric(10, Present(15.2)), Metric(20, Present(20.4))]
  {
    var s := RepeatedSeries();
    AggregatedSingle(s, 0, 20, 10);
    assert FindClosestMultiple(0, 10) == 0 && FindClosestMultiple(20, 10) == 20;
    BucketsOfDeduplicated(s, 10);
    RepeatedSeriesBuckets();
    RepeatedFill(Buckets(s, 10));
  }

  function GapSeriesA(): seq<Metric>
  {
    [Metric(150, Present(30.2)), Metric(250, Present(70.4)), Metric(350, Present(18.3))]
  }

  function GapSeriesB(): seq<Metric>
  {
    [Metric(150, Present(10.2)), Metric(350, Present(12.3))]
  }

  lemma GapSeriesABuckets()
    ensures Buckets(GapSeriesA(), 50) == map[150 := Present(30.2), 250 := Present(70.4), 350 := Present(18.3)]
  {
    var s := GapSeriesA();
    assert FindClosestMultiple(150, 50) == 150 && FindClosestMultiple(250, 50) == 250 && FindClosestMultiple(350, 50) == 350;
    assert s[..1][..0] == [] && s[..2][..1] == s[..1] && s[..|s| - 1] == s[..2];
    assert Buckets(s[..1], 50) == map[150 := Present(30.2)];
    assert Buckets(s[..2], 50) == map[150 := Present(30.2), 250 := Present(70.4)];
  }

  lemma GapSeriesBBuckets()
    ensures Buckets(GapSeriesB(), 50) == map[150 := Present(10.2), 350 := Present(12.3)]
  {
    var s := GapSeriesB();
    assert FindClosestMultiple(150, 50) == 150 && FindClosestMultiple(350, 50) == 350;
    assert s[..|s| - 1] == s[..1] && s[..1][..0] == [];
  }

  /** The column buckets of two series are their bucket maps combined in order. */
  lemma ColumnBucketsOfTwo(a: seq<Metric>, b: seq<Metric>, interval: nat)
    requires interval > 0
    ensures ColumnBuckets([a, b], interval) == Combine(Combine(map[], Buckets(a, interval)), Buckets(b, interval))
  {
    assert [a, b][..1] == [a] && [a][..0] == [];
    assert ColumnBuckets([a], interval) == Combine(map[], Buckets(a, interval));
  }

  /** Combining the two bucket maps sums the buckets where both have a sample. */
  lemma GapCombinePresent(ba: map<nat, Val>, bb: map<nat, Val>)
    requires ba == map[150 := Present(30.2), 250 := Present(70.4), 350 := Present(18.3)]
    requires bb == map[150 := Present(10.2), 350 := Present(12.3)]
    ensures var cb := Combine(Combine(map[], ba), bb);
      Lookup(cb, 150) == Present(40.4) && Lookup(cb, 250) == Present(70.4) && Lookup(cb, 350) == Present(30.6)
  {
    var c1 := Combine(map[], ba);
    assert Lookup(c1, 150) == Present(30.2) && Lookup(c1, 250) == Present(70.4) && Lookup(c1, 350) == Present(18.3);
  }

  /** Combining the two bucket maps leaves Missing where neither has a sample. */
  lemma GapCombineMissing(ba: map<nat, Val>, bb: map<nat, Val>)
    requires ba == map[150 := Present(30.2), 250 := Present(70.4), 350 := Present(18.3)]
    requires bb == map[150 := Present(10.2), 350 := Present(12.3)]
    ensures var cb := Combine(Combine(map[], ba), bb);
      forall t :: t in {50, 100, 200, 300, 400, 450} ==> Lookup(cb, t) == Missing
  {
  }

  /** The last five buckets of the window [50, 450]. */
  lemma GapFillTail(cb: map<nat, Val>)
    requires Lookup(cb, 250) == Present(70.4) && Lookup(cb, 300) == Missing
    requires Lookup(cb, 350) == Present(30.6) && Lookup(cb, 400) == Missing && Lookup(cb, 450) == Missing
    ensures Fill(cb, 250, 450, 50) == [Metric(250, Present(70.4)), Metric(300, Missing),
      Metric(350, Present(30.6)), Metric(400, Missing), Metric(450, Missing)]
  {
    assert Fill(cb, 500, 450, 50) == [];
    assert Fill(cb, 450, 450, 50) == [Metric(450, Missing)];
    assert Fill(cb, 400, 450, 50) == [Metric(400, Missing)] + Fill(cb, 450, 450, 50);
    assert Fill(cb, 350, 450, 50) == [Metric(350, Present(30.6))] + Fill(cb, 400, 450, 50);
    assert Fill(cb, 300, 450, 50) == [Metric(300, Missing)] + Fill(cb, 350, 450, 50);
  }

  /** The whole window [50, 450]. */
  lemma GapFill(cb: map<nat, Val>)
    requires Lookup(cb, 50) == Missing && Lookup(cb, 100) == Missing && Lookup(cb, 150) == Present(40.4)
    requires Lookup(cb, 200) == Missing && Lookup(cb, 250) == Present(70.4) && Lookup(cb, 300) == Missing
    requires Lookup(cb, 350) == Present(30.6) && Lookup(cb, 400) == Missing && Lookup(cb, 450) == Missing
    ensures Fill(cb, 50, 450, 50) == [Metric(50, Missing), Metric(100, Missing), Metric(150, Present(40.4)),
      Metric(200, Missing), Metric(250, Present(70.4)), Metric(300, Missing),
      Metric(350, Present(30.6)), Metric(400, Missing), Metric(450, Missing)]
  {
    GapFillTail(cb);
    assert Fill(cb, 200, 450, 50) == [Metric(200, Missing)] + Fill(cb, 250, 450, 50);
    assert Fill(cb, 150, 450, 50) == [Metric(150, Present(40.4))] + Fill(cb, 200, 450, 50);
    assert Fill(cb, 100, 450, 50) == [Metric(100, Missing)] + Fill(cb, 150, 450, 50);
  }

  /** Buckets that no series has a sample for come out Missing. */
  lemma ApplyRangeWhenMissingSamples()
    ensures Aggregated([GapSeriesA(), GapSeriesB()], 50, 450, 50)
      == [Metric(50, Missing), Metric(100, Missing), Metric(150, Present(40.4)),
          Metric(200, Missing), Metric(250, Present(70.4)), Metric(300, Missing),
          Metric(350, Present(30.6)), Metric(400, Missing), Metric(450, Missing)]
  {
    var series := [GapSeriesA(), GapSeriesB()];
    AggregatedIsFill(series, 50, 450, 50);
    assert FindClosestMultiple(50, 50) == 50 && FindClosestMultiple(450, 50) == 450;
    GapSeriesABuckets();
    GapSeriesBBuckets();
    ColumnBucketsOfTwo(GapSeriesA(), GapSeriesB(), 50);
    GapCombinePresent(Buckets(GapSeriesA(), 50), Buckets(GapSeriesB(), 50));
    GapCombineMissing(Buckets(GapSeriesA(), 50), Buckets(GapSeriesB(), 50));
    GapFill(ColumnBuckets(series, 50));
  }
}
