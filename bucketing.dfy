/**
 * The bucket map (`ToMap`): every sample is moved to its aligned bucket and
 * the first sample to reach a bucket keeps it.
 */
module Bucketing {
  import opened Samples
  import opened Alignment
  import opened Deduplication

  /** The bucket map of `s`, built by scanning `s` from the front. */
  function Buckets(s: seq<Metric>, interval: nat): (b: map<nat, Val>)
    requires interval > 0
    ensures forall k :: k in b ==> k % interval == 0
    ensures forall x :: x in s ==> FindClosestMultiple(x.ts, interval) in b
  {
    if s == [] then map[]
    else
      var p, x := s[..|s| - 1], s[|s| - 1];
      assert s == p + [x];
      var b := Buckets(p, interval);
      var k := FindClosestMultiple(x.ts, interval);
      if k in b then b else b[k := x.value]
  }

  /** Every key of the bucket map is the aligned timestamp of some sample. */
  lemma {:induction false} BucketsKeys(s: seq<Metric>, interval: nat, k: nat)
    requires interval > 0 && k in Buckets(s, interval)
    ensures exists i :: 0 <= i < |s| && FindClosestMultiple(s[i].ts, interval) == k
  {
    var p, x := s[..|s| - 1], s[|s| - 1];
    if k != FindClosestMultiple(x.ts, interval) {
      BucketsKeys(p, interval, k);
      var i :| 0 <= i < |p| && FindClosestMultiple(p[i].ts, interval) == k;
      assert s[i] == p[i];
    }
  }

  /** The source's loop over the samples, filling the map. */
  method ToMap(metrics: seq<Metric>, interval: nat) returns (bucket: map<nat, Val>)
    requires interval > 0
    ensures bucket == Buckets(metrics, interval)
  {
    bucket := map[];
    for i := 0 to |metrics|
      invariant bucket == Buckets(metrics[..i], interval)
    {
      var metric := metrics[i];
      assert metrics[..i + 1][..i] == metrics[..i];
      var ts := metric.ts;
      if ts % interval != 0 {
        ts := FindClosestMultiple(ts, interval);
      }
      if ts !in bucket {
        bucket := bucket[ts := metric.value];
      }
    }
    assert metrics[..|metrics|] == metrics;
  }

  /** A bucket holds the value of the first sample aligned to it; later ones are ignored. */
  lemma {:induction false} BucketsFirstWins(s: seq<Metric>, interval: nat, i: nat)
    requires interval > 0 && i < |s|
    requires forall j :: 0 <= j < i ==>
      FindClosestMultiple(s[j].ts, interval) != FindClosestMultiple(s[i].ts, interval)
    ensures FindClosestMultiple(s[i].ts, interval) in Buckets(s, interval)
    ensures Buckets(s, interval)[FindClosestMultiple(s[i].ts, interval)] == s[i].value
  {
    var p, x := s[..|s| - 1], s[|s| - 1];
    var k := FindClosestMultiple(s[i].ts, interval);
    var b := Buckets(p, interval);
    assert Buckets(s, interval) == (if FindClosestMultiple(x.ts, interval) in b then b
      else b[FindClosestMultiple(x.ts, interval) := x.value]);
    assert forall j :: 0 <= j < |p| ==> p[j] == s[j];
    if i == |s| - 1 && k in b {
      BucketsKeys(p, interval, k);
    } else if i < |s| - 1 {
      BucketsFirstWins(p, interval, i);
    }
  }

  /** Samples whose buckets are already claimed change nothing when appended. */
  lemma {:induction false} BucketsIgnoreClaimed(s: seq<Metric>, t: seq<Metric>, interval: nat)
    requires interval > 0
    requires forall x :: x in t ==> FindClosestMultiple(x.ts, interval) in Buckets(s, interval)
    ensures Buckets(s + t, interval) == Buckets(s, interval)
  {
    if t != [] {
      var p, x := t[..|t| - 1], t[|t| - 1];
      assert t == p + [x];
      assert x in t;
      assert s + t == (s + p) + [x];
      BucketsIgnoreClaimed(s, p, interval);
      BucketsAppendOne(s + p, x, interval);
    } else {
      assert s + t == s;
    }
  }

  /** Appending one sample claims its bucket unless the bucket is already claimed. */
  lemma BucketsAppendOne(s: seq<Metric>, x: Metric, interval: nat)
    requires interval > 0
    ensures var b, k := Buckets(s, interval), FindClosestMultiple(x.ts, interval);
      Buckets(s + [x], interval) == if k in b then b else b[k := x.value]
  {
    assert (s + [x])[..|s + [x]| - 1] == s;
  }

  /** Two series with the same bucket map keep the same map when the same samples are appended. */
  lemma {:induction false} BucketsSameAfterAppend(u: seq<Metric>, v: seq<Metric>, q: seq<Metric>, interval: nat)
    requires interval > 0 && Buckets(u, interval) == Buckets(v, interval)
    ensures Buckets(u + q, interval) == Buckets(v + q, interval)
  {
    if q == [] {
      assert u + q == u && v + q == v;
    } else {
      var p, y := q[..|q| - 1], q[|q| - 1];
      assert u + q == (u + p) + [y] && v + q == (v + p) + [y];
      BucketsSameAfterAppend(u, v, p, interval);
      BucketsAppendOne(u + p, y, interval);
      BucketsAppendOne(v + p, y, interval);
    }
  }

  /**
   * Copies of earlier samples, inserted anywhere after those samples, leave
   * the bucket map unchanged: each copy's bucket is already claimed.
   */
  lemma BucketsInsertRepeats(p: seq<Metric>, t: seq<Metric>, q: seq<Metric>, interval: nat)
    requires interval > 0
    requires forall x :: x in t ==> x in p
    ensures Buckets(p + t + q, interval) == Buckets(p + q, interval)
  {
    BucketsIgnoreClaimed(p, t, interval);
    BucketsSameAfterAppend(p + t, p, q, interval);
  }

  /** Removing duplicates first does not change the bucket map. */
  lemma {:induction false} BucketsOfDeduplicated(s: seq<Metric>, interval: nat)
    requires interval > 0
    ensures Buckets(Deduplicated(s), interval) == Buckets(s, interval)
  {
    if s != [] {
      var p, x := s[..|s| - 1], s[|s| - 1];
      BucketsOfDeduplicated(p, interval);
      var d := Deduplicated(p);
      if !IsRepeat(x, p) {
        assert (d + [x])[..|d + [x]| - 1] == d;
      }
    }
  }
}
