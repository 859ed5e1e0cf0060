/**
 Histograms whose samples go into the first bucket that holds them, kept as
 maps from a bucket's upper bound to a count, and merged bucket by bucket.
 */
module Histograms {
  import opened ScrapeClock
  import opened Tallies

  datatype Histogram = Histogram(buckets: map<nat, nat>, count: nat, sum: int)

  const EMPTY := Histogram(map[], 0, 0)

  predicate Increasing(bounds: seq<nat>) {
    forall i, j | 0 <= i < j < |bounds| :: bounds[i] < bounds[j]
  }

  function At(h: Histogram, bound: nat): nat {
    CountAt(h.buckets, bound)
  }

  /** The index of the first bound the value does not exceed; |bounds| if it exceeds all. */
  function FirstFit(bounds: seq<nat>, value: int): (i: nat)
    ensures i <= |bounds|
    ensures i < |bounds| ==> value <= bounds[i]
    ensures forall j | 0 <= j < i :: bounds[j] < value
  {
    if bounds == [] || value <= bounds[0] then 0 else 1 + FirstFit(bounds[1..], value)
  }

  /** The histogram with one more sample. */
  function Recorded(h: Histogram, bounds: seq<nat>, value: int): Histogram {
    var i := FirstFit(bounds, value);
    Histogram(if i < |bounds| then h.buckets[bounds[i] := At(h, bounds[i]) + 1] else h.buckets,
              h.count + 1, h.sum + value)
  }

  function Merged(a: Histogram, b: Histogram): Histogram {
    Histogram(SumCounts(a.buckets, b.buckets), a.count + b.count, a.sum + b.sum)
  }

  /** The samples in the first k buckets. */
  function CountBelow(h: Histogram, bounds: seq<nat>, k: nat): nat
    requires k <= |bounds|
  {
    if k == 0 then 0 else CountBelow(h, bounds, k - 1) + At(h, bounds[k - 1])
  }

  /** What is exported for bucket i: the samples of this and all lower buckets. */
  function Cumulative(h: Histogram, bounds: seq<nat>, i: nat): nat
    requires i < |bounds|
  {
    CountBelow(h, bounds, i + 1)
  }

  // ---- against the samples themselves ----

  function CountAtMost(samples: seq<int>, bound: nat): nat {
    if samples == [] then 0
    else CountAtMost(samples[..|samples| - 1], bound) + if samples[|samples| - 1] <= bound then 1 else 0
  }

  /** The samples above the previous bound and up to this one. */
  function InBucket(samples: seq<int>, bounds: seq<nat>, i: nat): int
    requires i < |bounds|
  {
    CountAtMost(samples, bounds[i]) - if i == 0 then 0 else CountAtMost(samples, bounds[i - 1])
  }

  /** h is the histogram of exactly these samples. */
  ghost predicate IsHistogramOf(h: Histogram, bounds: seq<nat>, samples: seq<int>) {
    && h.count == |samples| && h.sum == SeqSum(samples)
    && forall i | 0 <= i < |bounds| :: At(h, bounds[i]) == InBucket(samples, bounds, i)
  }

  lemma RecordHolds(h: Histogram, bounds: seq<nat>, samples: seq<int>, value: int)
    requires Increasing(bounds) && IsHistogramOf(h, bounds, samples)
    ensures IsHistogramOf(Recorded(h, bounds, value), bounds, samples + [value])
  {
    assert (samples + [value])[..|samples|] == samples;
    var f := FirstFit(bounds, value);
    forall i | 0 <= i < |bounds|
      ensures At(Recorded(h, bounds, value), bounds[i]) == InBucket(samples + [value], bounds, i)
    {
      assert i < f ==> bounds[i] < value;
      assert f < i ==> value <= bounds[f] && bounds[f] < bounds[i] && bounds[f] <= bounds[i - 1];
    }
  }

  lemma {:induction false} CountSplits(a: seq<int>, b: seq<int>, bound: nat)
    ensures CountAtMost(a + b, bound) == CountAtMost(a, bound) + CountAtMost(b, bound)
    ensures SeqSum(a + b) == SeqSum(a) + SeqSum(b)
  {
    if b == [] {
      assert a + b == a;
    } else {
      CountSplits(a, b[..|b| - 1], bound);
      assert (a + b)[..|a + b| - 1] == a + b[..|b| - 1];
    }
  }

  /** Merging loses no sample and moves none to another bucket. */
  lemma MergeHolds(a: Histogram, b: Histogram, bounds: seq<nat>, s: seq<int>, t: seq<int>)
    requires IsHistogramOf(a, bounds, s) && IsHistogramOf(b, bounds, t)
    ensures IsHistogramOf(Merged(a, b), bounds, s + t)
  {
    CountSplits(s, t, 0);
    forall i | 0 <= i < |bounds|
      ensures At(Merged(a, b), bounds[i]) == InBucket(s + t, bounds, i)
    {
      CountSplits(s, t, bounds[i]);
      if i > 0 {
        CountSplits(s, t, bounds[i - 1]);
      }
      assert At(Merged(a, b), bounds[i]) == At(a, bounds[i]) + At(b, bounds[i]);
    }
  }

  /** The exported cumulative count of a bucket is the number of samples up to its bound. */
  lemma {:induction false} CumulativeExact(h: Histogram, bounds: seq<nat>, samples: seq<int>, i: nat)
    requires IsHistogramOf(h, bounds, samples) && i < |bounds|
    ensures Cumulative(h, bounds, i) == CountAtMost(samples, bounds[i])
  {
    assert CountBelow(h, bounds, i + 1) == CountBelow(h, bounds, i) + At(h, bounds[i]);
    if i > 0 {
      CumulativeExact(h, bounds, samples, i - 1);
    }
  }

  /** The prefix sums over the buckets, in the order of their bounds. */
  method CollectBuckets(h: Histogram, bounds: seq<nat>) returns (cumulativeBuckets: map<nat, nat>)
    requires Increasing(bounds)
    ensures forall b | b in cumulativeBuckets :: b in bounds
    ensures forall i | 0 <= i < |bounds| ::
              bounds[i] in cumulativeBuckets && cumulativeBuckets[bounds[i]] == Cumulative(h, bounds, i)
  {
    cumulativeBuckets := map[];
    var cumulativeCount := 0;
    for k := 0 to |bounds|
      invariant cumulativeCount == CountBelow(h, bounds, k)
      invariant forall b | b in cumulativeBuckets :: b in bounds
      invariant forall i | 0 <= i < k ::
                  bounds[i] in cumulativeBuckets && cumulativeBuckets[bounds[i]] == Cumulative(h, bounds, i)
    {
      cumulativeCount := cumulativeCount + At(h, bounds[k]);
      cumulativeBuckets := cumulativeBuckets[bounds[k] := cumulativeCount];
    }
  }

  /** Counts the value in its first fitting bucket, searched in order. */
  method Record(h: Histogram, bounds: seq<nat>, value: int) returns (r: Histogram)
    ensures r == Recorded(h, bounds, value)
  {
    r := h.(count := h.count + 1, sum := h.sum + value);
    for i := 0 to |bounds|
      invariant forall j | 0 <= j < i :: bounds[j] < value
      invariant r == h.(count := h.count + 1, sum := h.sum + value)
    {
      if value <= bounds[i] {
        return r.(buckets := r.buckets[bounds[i] := At(r, bounds[i]) + 1]);
      }
    }
  }

  /** Adds b into a, bucket by bucket. */
  method Merge(a: Histogram, b: Histogram) returns (total: Histogram)
    ensures total == Merged(a, b)
  {
    var buckets := AddCounts(a.buckets, b.buckets);
    total := Histogram(buckets, a.count + b.count, a.sum + b.sum);
  }
}
