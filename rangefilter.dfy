/**
 * The range filter (`FilterByTsRange`): the bucket map of a series laid out
 * on every bucket of the aligned window, with Missing where no sample landed.
 */
module RangeFilter {
  import opened Samples
  import opened Alignment
  import opened Deduplication
  import opened Bucketing

  /** The value of bucket `t`, or Missing (the source's NaN) when it has none. */
  function Lookup(b: map<nat, Val>, t: nat): Val
  {
    if t in b then b[t] else Missing
  }

  /** The number of buckets `lo`, `lo + interval`, ... that do not pass `hi`. */
  function BucketCount(lo: nat, hi: nat, interval: nat): nat
    requires interval > 0
  {
    if lo <= hi then (hi - lo) / interval + 1 else 0
  }

  /** One sample per bucket from `lo` up to `hi`, carrying the bucket's value from `b`. */
  function Fill(b: map<nat, Val>, lo: nat, hi: nat, interval: nat): (r: seq<Metric>)
    requires interval > 0
    ensures |r| == BucketCount(lo, hi, interval)
    ensures forall j :: 0 <= j < |r| ==> lo <= r[j].ts <= hi && r[j].value == Lookup(b, r[j].ts)
    decreases if lo <= hi then hi - lo + 1 else 0
  {
    if lo > hi then []
    else
      DivModStep(hi - lo - interval, interval);
      assert hi - lo < interval ==> (hi - lo) / interval == 0 by {
        if hi - lo < interval { DivModUnique(hi - lo, interval, 0, hi - lo); }
      }
      [Metric(lo, Lookup(b, lo))] + Fill(b, lo + interval, hi, interval)
  }

  /** The buckets of `Fill` are `lo`, `lo + interval`, `lo + 2 * interval`, ... */
  lemma {:induction false} FillTimestamps(b: map<nat, Val>, lo: nat, hi: nat, interval: nat)
    requires interval > 0
    ensures forall j :: 0 <= j < |Fill(b, lo, hi, interval)| ==>
      Fill(b, lo, hi, interval)[j].ts == lo + j * interval
    decreases if lo <= hi then hi - lo + 1 else 0
  {
    if lo <= hi {
      FillTimestamps(b, lo + interval, hi, interval);
      var r, tail := Fill(b, lo, hi, interval), Fill(b, lo + interval, hi, interval);
      forall j | 0 <= j < |r| ensures r[j].ts == lo + j * interval {
        if j > 0 {
          assert r[j] == tail[j - 1];
          assert lo + interval + (j - 1) * interval == lo + j * interval;
        }
      }
    }
  }

  /** The buckets of `Fill` are strictly ascending. */
  lemma FillAscending(b: map<nat, Val>, lo: nat, hi: nat, interval: nat)
    requires interval > 0
    ensures forall i, j :: 0 <= i < j < |Fill(b, lo, hi, interval)| ==>
      Fill(b, lo, hi, interval)[i].ts < Fill(b, lo, hi, interval)[j].ts
  {
    var r := Fill(b, lo, hi, interval);
    FillTimestamps(b, lo, hi, interval);
    forall i, j | 0 <= i < j < |r| ensures r[i].ts < r[j].ts {
      MulLess(i, j, interval);
    }
  }

  /** When the window starts on a bucket, every timestamp of `Fill` is a bucket. */
  lemma FillAligned(b: map<nat, Val>, lo: nat, hi: nat, interval: nat)
    requires interval > 0 && lo % interval == 0
    ensures forall j :: 0 <= j < |Fill(b, lo, hi, interval)| ==> Fill(b, lo, hi, interval)[j].ts % interval == 0
  {
    var r := Fill(b, lo, hi, interval);
    FillTimestamps(b, lo, hi, interval);
    forall j | 0 <= j < |r| ensures r[j].ts % interval == 0 {
      MultipleStep(lo, j, interval);
    }
  }

  lemma LastBucket(lo: nat, hi: nat, interval: nat)
    requires interval > 0 && lo % interval == 0 && hi % interval == 0 && lo <= hi
    ensures lo + ((hi - lo) / interval) * interval == hi
  {
    assert lo == interval * (lo / interval) && hi == interval * (hi / interval);
    DivModUnique(hi - lo, interval, hi / interval - lo / interval, 0);
  }

  /** When both ends are buckets, `Fill` ends exactly on `hi`. */
  lemma FillLast(b: map<nat, Val>, lo: nat, hi: nat, interval: nat)
    requires interval > 0 && lo % interval == 0 && hi % interval == 0 && lo <= hi
    ensures Fill(b, lo, hi, interval)[|Fill(b, lo, hi, interval)| - 1].ts == hi
  {
    FillTimestamps(b, lo, hi, interval);
    LastBucket(lo, hi, interval);
  }

  /** Two bucket maps that agree on the buckets of the window fill it alike. */
  lemma FillDeterminedByBuckets(b1: map<nat, Val>, b2: map<nat, Val>, lo: nat, hi: nat, interval: nat)
    requires interval > 0
    requires forall j :: 0 <= j < |Fill(b1, lo, hi, interval)| ==>
      Lookup(b2, Fill(b1, lo, hi, interval)[j].ts) == Fill(b1, lo, hi, interval)[j].value
    ensures Fill(b1, lo, hi, interval) == Fill(b2, lo, hi, interval)
  {
    FillTimestamps(b1, lo, hi, interval);
    FillTimestamps(b2, lo, hi, interval);
  }

  /** The regularized series of `s` over the aligned window of `start` and `end`. */
  function Densified(s: seq<Metric>, start: nat, end: nat, interval: nat): seq<Metric>
    requires interval > 0
  {
    Fill(Buckets(Deduplicated(s), interval),
      FindClosestMultiple(start, interval), FindClosestMultiple(end, interval), interval)
  }

  /**
   * The source's range filter: deduplicate, bucket, align both ends of the
   * window, then lay the buckets out over the window.
   */
  method FilterByTsRange(metrics: seq<Metric>, start: nat, end: nat, interval: nat)
    returns (result: seq<Metric>)
    requires interval > 0
    requires FindClosestMultiple(end, interval) + interval < U32Limit
    ensures result == Densified(metrics, start, end, interval)
  {
    var deduplicated := RemoveDuplicates(metrics);
    var bucket := ToMap(deduplicated, interval);
    var lo := FindClosestMultiple(start, interval);
    var hi := FindClosestMultiple(end, interval);
    result := FillWindow(bucket, lo, hi, interval);
  }

  /**
   * The source's window loop: it steps `i` from `lo` through `hi`. The source
   * uses uint32 arithmetic, so it only terminates when the step past the
   * last bucket does not wrap around.
   */
  method FillWindow(bucket: map<nat, Val>, lo: nat, hi: nat, interval: nat) returns (result: seq<Metric>)
    requires interval > 0 && hi + interval < U32Limit
    ensures result == Fill(bucket, lo, hi, interval)
  {
    result := [];
    var i := lo;
    while i <= hi
      invariant result + Fill(bucket, i, hi, interval) == Fill(bucket, lo, hi, interval)
      decreases if i <= hi then hi - i + 1 else 0
    {
      ghost var done, rest := result, Fill(bucket, i + interval, hi, interval);
      FillStep(bucket, i, hi, interval);
      if i in bucket {
        result := result + [Metric(i, bucket[i])];
      } else {
        result := result + [Metric(i, Missing)];
      }
      AppendStep(done, Metric(i, Lookup(bucket, i)), rest);
      i := i + interval;
    }
    assert result + [] == result;
  }

  /** `Fill` peels off its first bucket. */
  lemma FillStep(b: map<nat, Val>, lo: nat, hi: nat, interval: nat)
    requires interval > 0 && lo <= hi
    ensures Fill(b, lo, hi, interval) == [Metric(lo, Lookup(b, lo))] + Fill(b, lo + interval, hi, interval)
  {
  }

  lemma AppendStep(done: seq<Metric>, x: Metric, rest: seq<Metric>)
    ensures (done + [x]) + rest == done + ([x] + rest)
  {
  }

  /**
   * Shape of a regularized series: one sample per bucket of the aligned
   * window, in ascending order, from the aligned start to the aligned end;
   * empty when the aligned start lies past the aligned end.
   */
  lemma DensifiedShape(s: seq<Metric>, start: nat, end: nat, interval: nat)
    requires interval > 0
    ensures var lo, hi := FindClosestMultiple(start, interval), FindClosestMultiple(end, interval);
      var r := Densified(s, start, end, interval);
      && |r| == (if lo <= hi then (hi - lo) / interval + 1 else 0)
      && (forall j :: 0 <= j < |r| ==> r[j].ts == lo + j * interval && r[j].ts % interval == 0)
      && (forall i, j :: 0 <= i < j < |r| ==> r[i].ts < r[j].ts)
      && (lo <= hi ==> r[|r| - 1].ts == hi)
  {
    var lo, hi := FindClosestMultiple(start, interval), FindClosestMultiple(end, interval);
    var b := Buckets(Deduplicated(s), interval);
    FillTimestamps(b, lo, hi, interval);
    FillAscending(b, lo, hi, interval);
    FillAligned(b, lo, hi, interval);
    if lo <= hi {
      FillLast(b, lo, hi, interval);
    }
  }

  /** Each bucket carries the first-wins value of the raw series, or Missing. */
  lemma DensifiedValues(s: seq<Metric>, start: nat, end: nat, interval: nat)
    requires interval > 0
    ensures var r := Densified(s, start, end, interval);
      forall j :: 0 <= j < |r| ==> r[j].value == Lookup(Buckets(s, interval), r[j].ts)
  {
    BucketsOfDeduplicated(s, interval);
  }

  /** The samples of `s` whose aligned timestamp lies in `[lo, hi]`, in order. */
  function InWindow(s: seq<Metric>, lo: nat, hi: nat, interval: nat): (r: seq<Metric>)
    requires interval > 0
    ensures forall x :: x in r ==> x in s && lo <= FindClosestMultiple(x.ts, interval) <= hi
  {
    if s == [] then []
    else
      var p, x := s[..|s| - 1], s[|s| - 1];
      assert s == p + [x];
      if lo <= FindClosestMultiple(x.ts, interval) <= hi then InWindow(p, lo, hi, interval) + [x]
      else InWindow(p, lo, hi, interval)
  }

  /** `b1` and `b2` have the same buckets with the same values within `[lo, hi]`. */
  ghost predicate AgreeOn(b1: map<nat, Val>, b2: map<nat, Val>, lo: nat, hi: nat)
  {
    forall k :: lo <= k <= hi ==> (k in b1 <==> k in b2) && (k in b1 ==> b1[k] == b2[k])
  }

  /** Keeping only the samples of the window leaves its buckets as they were. */
  lemma {:induction false} BucketsInWindow(s: seq<Metric>, lo: nat, hi: nat, interval: nat)
    requires interval > 0
    ensures AgreeOn(Buckets(InWindow(s, lo, hi, interval), interval), Buckets(s, interval), lo, hi)
  {
    if s != [] {
      var p, x := s[..|s| - 1], s[|s| - 1];
      BucketsInWindow(p, lo, hi, interval);
      var wp := InWindow(p, lo, hi, interval);
      var bp, wb := Buckets(p, interval), Buckets(wp, interval);
      var k := FindClosestMultiple(x.ts, interval);
      var b := Buckets(s, interval);
      assert b == if k in bp then bp else bp[k := x.value];
      if lo <= k <= hi {
        var w := wp + [x];
        assert w[..|w| - 1] == wp;
        assert InWindow(s, lo, hi, interval) == w;
        var bw := Buckets(w, interval);
        assert bw == if k in wb then wb else wb[k := x.value];
        forall t | lo <= t <= hi ensures (t in bw <==> t in b) && (t in bw ==> bw[t] == b[t]) {
          assert (t in wb <==> t in bp) && (t in wb ==> wb[t] == bp[t]);
        }
      } else {
        assert InWindow(s, lo, hi, interval) == wp;
        forall t | lo <= t <= hi ensures (t in wb <==> t in b) && (t in wb ==> wb[t] == b[t]) {
          assert (t in wb <==> t in bp) && (t in wb ==> wb[t] == bp[t]);
        }
      }
    }
  }

  /** Samples whose aligned timestamp lies outside the window do not influence the output. */
  lemma DensifiedIgnoresOutside(s: seq<Metric>, start: nat, end: nat, interval: nat)
    requires interval > 0
    ensures var lo, hi := FindClosestMultiple(start, interval), FindClosestMultiple(end, interval);
      Densified(InWindow(s, lo, hi, interval), start, end, interval) == Densified(s, start, end, interval)
  {
    var lo, hi := FindClosestMultiple(start, interval), FindClosestMultiple(end, interval);
    var w := InWindow(s, lo, hi, interval);
    BucketsOfDeduplicated(s, interval);
    BucketsOfDeduplicated(w, interval);
    BucketsInWindow(s, lo, hi, interval);
    assert AgreeOn(Buckets(w, interval), Buckets(s, interval), lo, hi);
    FillDeterminedByBuckets(Buckets(s, interval), Buckets(w, interval), lo, hi, interval);
  }

  /**
   * Exact copies of earlier samples, inserted anywhere after them, do not
   * change the regularized form (a copy placed before its original can: see
   * `AggregatedCopyBeforeOriginal`).
   */
  lemma DensifiedIgnoresDuplicates(p: seq<Metric>, t: seq<Metric>, q: seq<Metric>, start: nat, end: nat, interval: nat)
    requires interval > 0
    requires forall x :: x in t ==> x in p
    ensures Densified(p + t + q, start, end, interval) == Densified(p + q, start, end, interval)
  {
    BucketsOfDeduplicated(p + t + q, interval);
    BucketsOfDeduplicated(p + q, interval);
    BucketsInsertRepeats(p, t, q, interval);
  }

  /** A series already laid out on the window's buckets is a fixed point of the range filter. */
  lemma DensifiedOfFill(b: map<nat, Val>, start: nat, end: nat, interval: nat)
    requires interval > 0
    ensures var g := Fill(b, FindClosestMultiple(start, interval), FindClosestMultiple(end, interval), interval);
      Densified(g, start, end, interval) == g
  {
    var lo, hi := FindClosestMultiple(start, interval), FindClosestMultiple(end, interval);
    var g := Fill(b, lo, hi, interval);
    BucketsOfDeduplicated(g, interval);
    FillAligned(b, lo, hi, interval);
    FillAscending(b, lo, hi, interval);
    forall j | 0 <= j < |g| ensures Lookup(Buckets(g, interval), g[j].ts) == g[j].value {
      BucketsFirstWins(g, interval, j);
    }
    FillDeterminedByBuckets(b, Buckets(g, interval), lo, hi, interval);
  }

  /** Regularizing a regularized series changes nothing. */
  lemma DensifiedIdempotent(s: seq<Metric>, start: nat, end: nat, interval: nat)
    requires interval > 0
    ensures Densified(Densified(s, start, end, interval), start, end, interval) == Densified(s, start, end, interval)
  {
    DensifiedOfFill(Buckets(Deduplicated(s), interval), start, end, interval);
  }

  /**
   * A sample within one interval of 2^32 is aligned to 2^32, outside the
   * window [0, 0]; the source's wrapped alignment would put it in bucket 0.
   */
  lemma DensifiedSampleNearLimit()
    ensures Densified([Metric(0xFFFF_FFFF, Present(1.0))], 0, 0, 16) == [Metric(0, Missing)]
  {
    var s := [Metric(0xFFFF_FFFF, Present(1.0))];
    FindClosestMultipleU32WrapsToZero();
    assert FindClosestMultiple(0, 16) == 0;
    BucketsOfDeduplicated(s, 16);
    var b := Buckets(s, 16);
    assert s[..0] == [];
    assert b == map[0x1_0000_0000 := Present(1.0)];
    assert Fill(b, 16, 0, 16) == [];
  }
}
