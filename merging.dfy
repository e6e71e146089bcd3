/**
 * The pairwise merge (`Merge`): the union of two series by timestamp, with
 * the values of a shared timestamp summed by `SumNaNs`, in ascending order.
 */
module Merging {
  import opened Samples
  import opened Alignment
  import opened Deduplication
  import opened Bucketing
  import opened RangeFilter

  /** The timestamps that occur in `s`. */
  function TsSet(s: seq<Metric>): set<nat>
  {
    set x | x in s :: x.ts
  }

  /** The `SumNaNs` fold, in input order, of every value of `s` at timestamp `t`. */
  function Total(s: seq<Metric>, t: nat): (r: Val)
    ensures t !in TsSet(s) ==> r == Missing
  {
    if s == [] then Missing
    else
      var p, x := s[..|s| - 1], s[|s| - 1];
      assert s == p + [x];
      var acc := Total(p, t);
      if x.ts == t then SumNaNs(acc, x.value) else acc
  }

  /** The source's bucket map: a timestamp's first value, then each later one added with `SumNaNs`. */
  function SumByTs(s: seq<Metric>): (m: map<nat, Val>)
    ensures forall t :: t in m ==> m[t] == Total(s, t)
    decreases |s|, 0
  {
    if s == [] then map[]
    else
      var p, x := s[..|s| - 1], s[|s| - 1];
      assert s == p + [x];
      var m := SumByTs(p);
      SumByTsKeys(p);
      if x.ts !in m then m[x.ts := x.value] else m[x.ts := SumNaNs(m[x.ts], x.value)]
  }

  /** The bucket map has one key per timestamp of the input. */
  lemma {:induction false} SumByTsKeys(s: seq<Metric>)
    ensures SumByTs(s).Keys == TsSet(s)
    decreases |s|, 1
  {
    if s != [] {
      var p, x := s[..|s| - 1], s[|s| - 1];
      assert s == p + [x];
      SumByTsKeys(p);
      assert TsSet(s) == TsSet(p) + {x.ts};
    }
  }

  predicate IsLeast(k: nat, ks: set<nat>)
  {
    k in ks && forall j :: j in ks ==> k <= j
  }

  lemma {:induction false} LeastExists(ks: set<nat>)
    requires ks != {}
    ensures exists k :: IsLeast(k, ks)
    decreases |ks|
  {
    var x :| x in ks;
    if ks != {x} {
      LeastExists(ks - {x});
      var y :| IsLeast(y, ks - {x});
      assert forall j :: j in ks ==> j == x || j in ks - {x};
      if x < y {
        assert IsLeast(x, ks);
      } else {
        assert IsLeast(y, ks);
      }
    } else {
      assert IsLeast(x, ks);
    }
  }

  /** The keys of the source's bucket map, collected and sorted in ascending order. */
  function SortedKeys(ks: set<nat>): (r: seq<nat>)
    ensures |r| == |ks|
    ensures forall k :: k in r <==> k in ks
    ensures forall i, j :: 0 <= i < j < |r| ==> r[i] < r[j]
    decreases |ks|
  {
    if ks == {} then []
    else
      LeastExists(ks);
      var k :| IsLeast(k, ks);
      var tail := SortedKeys(ks - {k});
      PrependLeast(k, ks, tail);
      [k] + tail
  }

  /** Putting the least key in front of an ascending enumeration of the others enumerates all keys in ascending order. */
  lemma PrependLeast(k: nat, ks: set<nat>, tail: seq<nat>)
    requires IsLeast(k, ks)
    requires |tail| == |ks - {k}|
    requires forall j :: j in tail <==> j in ks - {k}
    requires forall i, j :: 0 <= i < j < |tail| ==> tail[i] < tail[j]
    ensures |[k] + tail| == |ks|
    ensures forall j :: j in [k] + tail <==> j in ks
    ensures forall i, j :: 0 <= i < j < |[k] + tail| ==> ([k] + tail)[i] < ([k] + tail)[j]
  {
    assert |ks - {k}| == |ks| - 1;
    forall i | 0 <= i < |tail| ensures k < tail[i] {
      assert tail[i] in ks - {k};
    }
  }

  /** One sample per key of `keys`, in that order, carrying the key's bucket value. */
  function EmitKeys(bucket: map<nat, Val>, keys: seq<nat>): (r: seq<Metric>)
    requires forall k :: k in keys ==> k in bucket
    ensures |r| == |keys|
    ensures forall j :: 0 <= j < |r| ==> r[j] == Metric(keys[j], bucket[keys[j]])
  {
    if keys == [] then []
    else
      var p, k := keys[..|keys| - 1], keys[|keys| - 1];
      assert forall x :: x in p ==> x in keys;
      EmitKeys(bucket, p) + [Metric(k, bucket[k])]
  }

  /** The buckets of `bucket` as samples, by ascending timestamp. */
  function Emit(bucket: map<nat, Val>): seq<Metric>
  {
    EmitKeys(bucket, SortedKeys(bucket.Keys))
  }

  /** The merged series: one sample per timestamp of either input, in ascending order. */
  function Merged(a: seq<Metric>, b: seq<Metric>): seq<Metric>
  {
    Emit(SumByTs(a + b))
  }

  /**
   * The source's merge: it concatenates the inputs into a new sequence, fills
   * the bucket map in one pass, then emits the buckets by ascending key.
   * Both inputs are values, so neither can be modified.
   */
  method Merge(metrics1: seq<Metric>, metrics2: seq<Metric>) returns (result: seq<Metric>)
    ensures result == Merged(metrics1, metrics2)
  {
    var metrics := metrics1 + metrics2;
    var bucket: map<nat, Val> := map[];
    for i := 0 to |metrics|
      invariant bucket == SumByTs(metrics[..i])
    {
      var metric := metrics[i];
      assert metrics[..i + 1][..i] == metrics[..i];
      if metric.ts !in bucket {
        bucket := bucket[metric.ts := metric.value];
      } else {
        bucket := bucket[metric.ts := SumNaNs(bucket[metric.ts], metric.value)];
      }
    }
    assert metrics[..|metrics|] == metrics;
    var keys := SortedKeys(bucket.Keys);
    result := EmitInOrder(bucket, keys);
  }

  /** The source's emitting loop: one sample per key, in the order of `keys`. */
  method EmitInOrder(bucket: map<nat, Val>, keys: seq<nat>) returns (result: seq<Metric>)
    requires forall k :: k in keys ==> k in bucket
    ensures result == EmitKeys(bucket, keys)
  {
    result := [];
    for j := 0 to |keys|
      invariant result == EmitKeys(bucket, keys[..j])
    {
      assert keys[..j + 1][..j] == keys[..j];
      result := result + [Metric(keys[j], bucket[keys[j]])];
    }
    assert keys[..|keys|] == keys;
  }

  /** Two nonempty strictly ascending sequences with the same elements start alike. */
  lemma AscendingHeads(q: seq<nat>, r: seq<nat>)
    requires q != [] && r != []
    requires forall i, j :: 0 <= i < j < |q| ==> q[i] < q[j]
    requires forall i, j :: 0 <= i < j < |r| ==> r[i] < r[j]
    requires forall k :: k in q <==> k in r
    ensures q[0] == r[0]
  {
    assert q[0] in q && r[0] in r;
    var a :| 0 <= a < |r| && r[a] == q[0];
    var b :| 0 <= b < |q| && q[b] == r[0];
  }

  /** Two strictly ascending sequences with the same elements and the same head have tails with the same elements. */
  lemma AscendingTails(q: seq<nat>, r: seq<nat>)
    requires q != [] && r != [] && q[0] == r[0]
    requires forall i, j :: 0 <= i < j < |q| ==> q[i] < q[j]
    requires forall i, j :: 0 <= i < j < |r| ==> r[i] < r[j]
    requires forall k :: k in q <==> k in r
    ensures forall k :: k in q[1..] <==> k in r[1..]
  {
    forall k ensures k in q[1..] <==> k in r[1..] {
      if k in q[1..] {
        var i :| 1 <= i < |q| && q[i] == k;
        assert k in r;
        var i' :| 0 <= i' < |r| && r[i'] == k;
        assert r[1..][i' - 1] == k;
      }
      if k in r[1..] {
        var i :| 1 <= i < |r| && r[i] == k;
        assert k in q;
        var i' :| 0 <= i' < |q| && q[i'] == k;
        assert q[1..][i' - 1] == k;
      }
    }
  }

  /** Two strictly ascending sequences with the same elements are equal. */
  lemma {:induction false} AscendingUnique(q: seq<nat>, r: seq<nat>)
    requires forall i, j :: 0 <= i < j < |q| ==> q[i] < q[j]
    requires forall i, j :: 0 <= i < j < |r| ==> r[i] < r[j]
    requires forall k :: k in q <==> k in r
    ensures q == r
    decreases |q|
  {
    assert q == [] <==> r == [] by {
      if q != [] { assert q[0] in r; }
      if r != [] { assert r[0] in q; }
    }
    if q != [] {
      AscendingHeads(q, r);
      AscendingTails(q, r);
      AscendingUnique(q[1..], r[1..]);
      assert q == [q[0]] + q[1..] && r == [r[0]] + r[1..];
    }
  }

  /** A set has exactly one ascending enumeration. */
  lemma SortedKeysUnique(q: seq<nat>, ks: set<nat>)
    requires forall i, j :: 0 <= i < j < |q| ==> q[i] < q[j]
    requires forall k :: k in q <==> k in ks
    ensures SortedKeys(ks) == q
  {
    AscendingUnique(q, SortedKeys(ks));
  }

  /** The fold over a concatenation is the sum of the folds over its parts. */
  lemma {:induction false} TotalAppend(a: seq<Metric>, b: seq<Metric>, t: nat)
    ensures Total(a + b, t) == SumNaNs(Total(a, t), Total(b, t))
  {
    if b == [] {
      assert a + b == a;
    } else {
      var p, x := b[..|b| - 1], b[|b| - 1];
      assert (a + b)[..|a + b| - 1] == a + p;
      TotalAppend(a, p, t);
      SumNaNsAssociative(Total(a, t), Total(p, t), x.value);
    }
  }

  /** In a series with strictly ascending timestamps, the fold at a timestamp is that sample's value. */
  lemma {:induction false} TotalAscending(s: seq<Metric>, j: nat)
    requires j < |s|
    requires forall i, k :: 0 <= i < k < |s| ==> s[i].ts < s[k].ts
    ensures Total(s, s[j].ts) == s[j].value
  {
    var p := s[..|s| - 1];
    if j == |s| - 1 {
      assert s[j].ts !in TsSet(p);
    } else {
      TotalAscending(p, j);
    }
  }

  /** Merged timestamps are strictly ascending, hence unique. */
  lemma MergedAscending(a: seq<Metric>, b: seq<Metric>)
    ensures var r := Merged(a, b);
      forall i, j :: 0 <= i < j < |r| ==> r[i].ts < r[j].ts
  {
  }

  lemma TsSetAppend(a: seq<Metric>, b: seq<Metric>)
    ensures TsSet(a + b) == TsSet(a) + TsSet(b)
  {
    forall t ensures t in TsSet(a + b) <==> t in TsSet(a) + TsSet(b) {
      if t in TsSet(a + b) {
        var x :| x in a + b && x.ts == t;
      }
      if t in TsSet(a) {
        var x :| x in a && x.ts == t;
        assert x in a + b;
      }
      if t in TsSet(b) {
        var x :| x in b && x.ts == t;
        assert x in a + b;
      }
    }
  }

  /** The timestamps of the emitted series are the keys of the map. */
  lemma EmitTimestamps(m: map<nat, Val>)
    ensures TsSet(Emit(m)) == m.Keys
  {
    var r := Emit(m);
    var keys := SortedKeys(m.Keys);
    forall t ensures t in TsSet(r) <==> t in m.Keys {
      if t in m.Keys {
        var i :| 0 <= i < |keys| && keys[i] == t;
        assert r[i].ts == t;
      }
    }
  }

  /** The merged timestamps are the union of the timestamps of both inputs. */
  lemma MergedTimestamps(a: seq<Metric>, b: seq<Metric>)
    ensures TsSet(Merged(a, b)) == TsSet(a) + TsSet(b)
  {
    EmitTimestamps(SumByTs(a + b));
    SumByTsKeys(a + b);
    TsSetAppend(a, b);
  }

  /** Each merged value is the `SumNaNs` fold of every input value at its timestamp. */
  lemma MergedValues(a: seq<Metric>, b: seq<Metric>)
    ensures var r := Merged(a, b);
      forall j :: 0 <= j < |r| ==> r[j].value == SumNaNs(Total(a, r[j].ts), Total(b, r[j].ts))
  {
    var r := Merged(a, b);
    forall j | 0 <= j < |r| ensures r[j].value == SumNaNs(Total(a, r[j].ts), Total(b, r[j].ts)) {
      TotalAppend(a, b, r[j].ts);
    }
  }

  /** Merging is commutative. */
  lemma MergedCommutative(a: seq<Metric>, b: seq<Metric>)
    ensures Merged(a, b) == Merged(b, a)
  {
    var m1, m2 := SumByTs(a + b), SumByTs(b + a);
    SumByTsKeys(a + b);
    SumByTsKeys(b + a);
    TsSetAppend(a, b);
    TsSetAppend(b, a);
    forall t | t in m1 ensures m1[t] == m2[t] {
      TotalAppend(a, b, t);
      TotalAppend(b, a, t);
      SumNaNsCommutative(Total(a, t), Total(b, t));
    }
    assert m1 == m2;
  }

  /**
   * A series with strictly ascending timestamps, the union of the timestamps
   * of `a` and `b`, whose values sum their folds, folds to that sum everywhere.
   */
  lemma TotalOfAscendingSum(r: seq<Metric>, a: seq<Metric>, b: seq<Metric>, t: nat)
    requires forall i, j :: 0 <= i < j < |r| ==> r[i].ts < r[j].ts
    requires forall j :: 0 <= j < |r| ==> r[j].value == SumNaNs(Total(a, r[j].ts), Total(b, r[j].ts))
    requires TsSet(r) == TsSet(a) + TsSet(b)
    ensures Total(r, t) == SumNaNs(Total(a, t), Total(b, t))
  {
    if t in TsSet(r) {
      var x :| x in r && x.ts == t;
      var j :| 0 <= j < |r| && r[j] == x;
      TotalAscending(r, j);
    }
  }

  /** The fold of a merged series at any timestamp is the sum of both inputs' folds there. */
  lemma TotalMerged(a: seq<Metric>, b: seq<Metric>, t: nat)
    ensures Total(Merged(a, b), t) == SumNaNs(Total(a, t), Total(b, t))
  {
    MergedTimestamps(a, b);
    MergedAscending(a, b);
    MergedValues(a, b);
    TotalOfAscendingSum(Merged(a, b), a, b, t);
  }

  /** Both ways of bracketing three series fold to the same value at every timestamp. */
  lemma TotalRegrouped(a: seq<Metric>, b: seq<Metric>, c: seq<Metric>, t: nat)
    ensures Total(Merged(a, b) + c, t) == Total(a + Merged(b, c), t)
  {
    TotalAppend(Merged(a, b), c, t);
    TotalAppend(a, Merged(b, c), t);
    TotalMerged(a, b, t);
    TotalMerged(b, c, t);
    SumNaNsAssociative(Total(a, t), Total(b, t), Total(c, t));
  }

  /** Both ways of bracketing three series have the same timestamps. */
  lemma TsSetRegrouped(a: seq<Metric>, b: seq<Metric>, c: seq<Metric>)
    ensures TsSet(Merged(a, b) + c) == TsSet(a + Merged(b, c))
  {
    TsSetAppend(Merged(a, b), c);
    TsSetAppend(a, Merged(b, c));
    MergedTimestamps(a, b);
    MergedTimestamps(b, c);
  }

  /** Merging is associative. */
  lemma MergedAssociative(a: seq<Metric>, b: seq<Metric>, c: seq<Metric>)
    ensures Merged(Merged(a, b), c) == Merged(a, Merged(b, c))
  {
    var u, v := Merged(a, b) + c, a + Merged(b, c);
    SumByTsKeys(u);
    SumByTsKeys(v);
    TsSetRegrouped(a, b, c);
    forall t | t in SumByTs(u) ensures SumByTs(u)[t] == SumByTs(v)[t] {
      TotalRegrouped(a, b, c, t);
    }
    assert SumByTs(u) == SumByTs(v);
  }

  /** The timestamps of `s`, in order. */
  function Timestamps(s: seq<Metric>): (q: seq<nat>)
    ensures |q| == |s| && forall j :: 0 <= j < |s| ==> q[j] == s[j].ts
  {
    seq(|s|, j requires 0 <= j < |s| => s[j].ts)
  }

  /** Two series with the same strictly ascending timestamps have those as merged keys. */
  lemma MergedAlignedKeys(a: seq<Metric>, c: seq<Metric>)
    requires |a| == |c|
    requires forall j :: 0 <= j < |a| ==> a[j].ts == c[j].ts
    requires forall i, j :: 0 <= i < j < |a| ==> a[i].ts < a[j].ts
    ensures SortedKeys(SumByTs(a + c).Keys) == Timestamps(a)
  {
    var keys := Timestamps(a);
    var m := SumByTs(a + c);
    SumByTsKeys(a + c);
    TsSetAppend(a, c);
    forall k ensures k in keys <==> k in m.Keys {
      if k in TsSet(c) {
        var x :| x in c && x.ts == k;
        var j :| 0 <= j < |c| && c[j] == x;
        assert keys[j] == k;
      }
      if k in TsSet(a) {
        var x :| x in a && x.ts == k;
        var j :| 0 <= j < |a| && a[j] == x;
        assert keys[j] == k;
      }
      if k in keys {
        var j :| 0 <= j < |a| && keys[j] == k;
        assert a[j] in a;
      }
    }
    SortedKeysUnique(keys, m.Keys);
  }

  /**
   * Two series with the same strictly ascending timestamps merge position
   * by position: each sample's values are combined with `SumNaNs`.
   */
  lemma MergedAligned(a: seq<Metric>, c: seq<Metric>)
    requires |a| == |c|
    requires forall j :: 0 <= j < |a| ==> a[j].ts == c[j].ts
    requires forall i, j :: 0 <= i < j < |a| ==> a[i].ts < a[j].ts
    ensures var r := Merged(a, c);
      |r| == |a| && forall j :: 0 <= j < |a| ==> r[j] == Metric(a[j].ts, SumNaNs(a[j].value, c[j].value))
  {
    var m := SumByTs(a + c);
    MergedAlignedKeys(a, c);
    SumByTsKeys(a + c);
    forall j | 0 <= j < |a| ensures m[a[j].ts] == SumNaNs(a[j].value, c[j].value) {
      TotalAppend(a, c, a[j].ts);
      TotalAscending(a, j);
      assert forall i, k :: 0 <= i < k < |c| ==> c[i].ts < c[k].ts;
      TotalAscending(c, j);
    }
  }

  /** Pointwise `SumNaNs` of two bucket maps; a bucket in neither map stays absent. */
  function Combine(b1: map<nat, Val>, b2: map<nat, Val>): (b: map<nat, Val>)
    ensures forall t :: Lookup(b, t) == SumNaNs(Lookup(b1, t), Lookup(b2, t))
  {
    map t | t in b1.Keys + b2.Keys :: SumNaNs(Lookup(b1, t), Lookup(b2, t))
  }

  /** The window of the combined buckets, position by position, from the windows of each map. */
  lemma FillCombine(b1: map<nat, Val>, b2: map<nat, Val>, lo: nat, hi: nat, interval: nat)
    requires interval > 0
    ensures var a, c, f := Fill(b1, lo, hi, interval), Fill(b2, lo, hi, interval), Fill(Combine(b1, b2), lo, hi, interval);
      && |a| == |f| && |c| == |f|
      && forall j :: 0 <= j < |f| ==> a[j].ts == c[j].ts && f[j] == Metric(a[j].ts, SumNaNs(a[j].value, c[j].value))
  {
    var a, c, f := Fill(b1, lo, hi, interval), Fill(b2, lo, hi, interval), Fill(Combine(b1, b2), lo, hi, interval);
    FillTimestamps(b1, lo, hi, interval);
    FillTimestamps(b2, lo, hi, interval);
    FillTimestamps(Combine(b1, b2), lo, hi, interval);
    forall j | 0 <= j < |f| ensures a[j].ts == c[j].ts && f[j] == Metric(a[j].ts, SumNaNs(a[j].value, c[j].value)) {
      var t := f[j].ts;
      assert a[j].ts == t && c[j].ts == t;
      assert a[j].value == Lookup(b1, t) && c[j].value == Lookup(b2, t);
      assert f[j].value == SumNaNs(Lookup(b1, t), Lookup(b2, t));
    }
  }

  /** Merging two series filled over the same window fills it with the combined buckets. */
  lemma MergedFills(b1: map<nat, Val>, b2: map<nat, Val>, lo: nat, hi: nat, interval: nat)
    requires interval > 0
    ensures Merged(Fill(b1, lo, hi, interval), Fill(b2, lo, hi, interval)) == Fill(Combine(b1, b2), lo, hi, interval)
  {
    var a, c, f := Fill(b1, lo, hi, interval), Fill(b2, lo, hi, interval), Fill(Combine(b1, b2), lo, hi, interval);
    FillCombine(b1, b2, lo, hi, interval);
    FillAscending(b1, lo, hi, interval);
    MergedAligned(a, c);
    var r := Merged(a, c);
    assert forall j :: 0 <= j < |f| ==> r[j] == f[j];
  }

  /**
   * Missing is the identity of merging: merging a regularized series with the
   * all-Missing series of the same window (the regularized empty series), on
   * either side, gives it back unchanged.
   */
  lemma MergedWithEmptySeries(s: seq<Metric>, start: nat, end: nat, interval: nat)
    requires interval > 0
    ensures var d, e := Densified(s, start, end, interval), Densified([], start, end, interval);
      Merged(d, e) == d && Merged(e, d) == d
  {
    var lo, hi := FindClosestMultiple(start, interval), FindClosestMultiple(end, interval);
    var b := Buckets(Deduplicated(s), interval);
    assert Densified([], start, end, interval) == Fill(map[], lo, hi, interval);
    MergedWithMissingWindow(b, lo, hi, interval);
  }

  /** A window merged with the all-Missing window of the same buckets, on either side, is unchanged. */
  lemma MergedWithMissingWindow(b: map<nat, Val>, lo: nat, hi: nat, interval: nat)
    requires interval > 0
    ensures var d, e := Fill(b, lo, hi, interval), Fill(map[], lo, hi, interval);
      Merged(d, e) == d && Merged(e, d) == d
  {
    var e: map<nat, Val> := map[];
    MergedFills(b, e, lo, hi, interval);
    MergedFills(e, b, lo, hi, interval);
    CombineMissing(b);
    FillDeterminedByBuckets(b, Combine(b, e), lo, hi, interval);
    FillDeterminedByBuckets(b, Combine(e, b), lo, hi, interval);
  }

  /** Combining with the empty bucket map, on either side, keeps every lookup. */
  lemma CombineMissing(b: map<nat, Val>)
    ensures forall t :: Lookup(Combine(b, map[]), t) == Lookup(b, t) && Lookup(Combine(map[], b), t) == Lookup(b, t)
  {
  }
}
