/**
 * Removal of exact-duplicate samples (`RemoveDuplicates`). The source keys a
 * map by the whole sample; a NaN value never equals itself, so a sample whose
 * value is Missing is never found in that map and is never dropped.
 */
module Deduplication {
  import opened Samples

  /** Whether `x` repeats an earlier sample of `prefix` (never true of a Missing sample). */
  predicate IsRepeat(x: Metric, prefix: seq<Metric>)
  {
    x.value.Present? && x in prefix
  }

  /** The samples of `s` that do not repeat an earlier one, in input order. */
  function Deduplicated(s: seq<Metric>): (r: seq<Metric>)
    ensures |r| <= |s|
    ensures forall x :: x in r <==> x in s
  {
    if s == [] then []
    else
      var p, x := s[..|s| - 1], s[|s| - 1];
      assert s == p + [x];
      if IsRepeat(x, p) then Deduplicated(p) else Deduplicated(p) + [x]
  }

  /** The source's loop: a set of the samples seen so far stands for its map. */
  method RemoveDuplicates(metrics: seq<Metric>) returns (result: seq<Metric>)
    ensures result == Deduplicated(metrics)
  {
    var bucket: set<Metric> := {};
    result := [];
    for i := 0 to |metrics|
      invariant bucket == set j | 0 <= j < i :: metrics[j]
      invariant result == Deduplicated(metrics[..i])
    {
      var metric := metrics[i];
      assert metrics[..i + 1][..i] == metrics[..i];
      assert metric in bucket <==> metric in metrics[..i];
      if !(metric.value.Present? && metric in bucket) {
        bucket := bucket + {metric};
        result := result + [metric];
      }
    }
    assert metrics[..|metrics|] == metrics;
  }

  /** `a` is a subsequence of `b`: it is `b` with some elements left out, order kept. */
  ghost predicate Subsequence(a: seq<Metric>, b: seq<Metric>)
    decreases |b|
  {
    a == [] ||
    (b != [] &&
      ((a[|a| - 1] == b[|b| - 1] && Subsequence(a[..|a| - 1], b[..|b| - 1]))
       || Subsequence(a, b[..|b| - 1])))
  }

  /** The output keeps input order: it is a subsequence of the input. */
  lemma {:induction false} DeduplicatedIsSubsequence(s: seq<Metric>)
    ensures Subsequence(Deduplicated(s), s)
  {
    if s != [] {
      var p, x := s[..|s| - 1], s[|s| - 1];
      DeduplicatedIsSubsequence(p);
      var d := Deduplicated(p);
      if !IsRepeat(x, p) {
        assert (d + [x])[..|d + [x]| - 1] == d;
      }
    }
  }

  /** Extending the input only extends the output: what is kept from a prefix stays kept, in place. */
  lemma {:induction false} DeduplicatedPrefix(p: seq<Metric>, q: seq<Metric>)
    ensures Deduplicated(p) <= Deduplicated(p + q)
  {
    if q == [] {
      assert p + q == p;
    } else {
      var r, y := q[..|q| - 1], q[|q| - 1];
      assert p + q == (p + r) + [y];
      assert (p + q)[..|p + q| - 1] == p + r;
      DeduplicatedPrefix(p, r);
    }
  }

  /**
   * The first copy is the one kept: a sample that repeats nothing before it
   * is emitted right after the output of the samples before it.
   */
  lemma DeduplicatedKeepsFirst(s: seq<Metric>, i: nat)
    requires i < |s| && !IsRepeat(s[i], s[..i])
    ensures Deduplicated(s[..i]) + [s[i]] <= Deduplicated(s)
  {
    var p, x, q := s[..i], s[i], s[i + 1..];
    SplitAround(s, i);
    DeduplicatedKeepsNew(p, x, q);
  }

  /** A series is the samples before position `i`, the sample at `i`, and the samples after it. */
  lemma SplitAround(s: seq<Metric>, i: nat)
    requires i < |s|
    ensures s == (s[..i] + [s[i]]) + s[i + 1..]
  {
  }

  /** `DeduplicatedKeepsFirst` for a series split around the sample. */
  lemma DeduplicatedKeepsNew(p: seq<Metric>, x: Metric, q: seq<Metric>)
    requires !IsRepeat(x, p)
    ensures Deduplicated(p) + [x] <= Deduplicated((p + [x]) + q)
  {
    DeduplicatedAppendNew(p, x);
    DeduplicatedPrefix(p + [x], q);
  }

  /** A sample that repeats nothing before it is appended to the output. */
  lemma DeduplicatedAppendNew(p: seq<Metric>, x: Metric)
    requires !IsRepeat(x, p)
    ensures Deduplicated(p + [x]) == Deduplicated(p) + [x]
  {
    assert (p + [x])[..|p + [x]| - 1] == p;
  }

  /** Every distinct present-valued sample of the input appears exactly once in the output. */
  lemma {:induction false} DeduplicatedPresentOnce(s: seq<Metric>, x: Metric)
    requires x.value.Present? && x in s
    ensures multiset(Deduplicated(s))[x] == 1
  {
    var p, y := s[..|s| - 1], s[|s| - 1];
    assert s == p + [y];
    if x in p {
      DeduplicatedPresentOnce(p, x);
    } else {
      assert x == y;
      assert x !in Deduplicated(p);
    }
  }

  /** Missing-valued samples are never collapsed: each occurrence is kept. */
  lemma {:induction false} DeduplicatedKeepsMissing(s: seq<Metric>, x: Metric)
    requires x.value.Missing?
    ensures multiset(Deduplicated(s))[x] == multiset(s)[x]
  {
    if s != [] {
      var p, y := s[..|s| - 1], s[|s| - 1];
      assert s == p + [y];
      DeduplicatedKeepsMissing(p, x);
    }
  }

  /** Removing duplicates twice is the same as removing them once. */
  lemma {:induction false} DeduplicatedIdempotent(s: seq<Metric>)
    ensures Deduplicated(Deduplicated(s)) == Deduplicated(s)
  {
    if s != [] {
      var p, x := s[..|s| - 1], s[|s| - 1];
      DeduplicatedIdempotent(p);
      var d := Deduplicated(p);
      if !IsRepeat(x, p) {
        assert (d + [x])[..|d + [x]| - 1] == d;
        assert !IsRepeat(x, d);
      }
    }
  }
}
