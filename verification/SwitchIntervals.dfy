/**
 Context-switch metrics as a state machine: the time between consecutive
 switches of each CPU, bucketed by bit length and kept in buffers that are
 swapped and merged at each scrape. Times are nanoseconds.
 */
module SwitchIntervals {
  import opened ScrapeClock
  import opened Words

  const BUCKETS := 15
  const MICROSECOND := 1_000

  // ---- the bucket of an interval ----

  /** The number of bits needed for n. */
  function BitLength(n: nat): nat {
    if n == 0 then 0 else 1 + BitLength(n / 2)
  }

  lemma {:induction false} BitLengthExact(n: nat, k: nat)
    ensures BitLength(n) <= k <==> n < Pow2(k)
    decreases k
  {
    if k > 0 && n > 0 {
      BitLengthExact(n / 2, k - 1);
    }
  }

  function Micros(interval: nat): nat {
    interval / MICROSECOND
  }

  /** Position of the highest bit of the whole microseconds; everything too large goes into the last bucket. */
  function BucketIndex(interval: nat): (i: nat)
    ensures i < BUCKETS
  {
    var us := Micros(interval);
    var i := if us > 0 then BitLength(us) - 1 else 0;
    if i < BUCKETS then i else BUCKETS - 1
  }

  /** Bucket i and those below it take exactly the intervals of less than 2^(i + 1) whole microseconds. */
  lemma BucketIndexExact(interval: nat, i: nat)
    requires i < BUCKETS - 1
    ensures BucketIndex(interval) <= i <==> Micros(interval) < Pow2(i + 1)
  {
    BitLengthExact(Micros(interval), i + 1);
  }

  // ---- statistics of one CPU ----

  type Buckets = s: seq<nat> | |s| == BUCKETS witness seq(BUCKETS, _ => 0)

  datatype Stats = Stats(count: nat, sum: nat, buckets: Buckets)

  function NoStats(): Stats {
    Stats(0, 0, seq(BUCKETS, _ => 0))
  }

  function Added(st: Stats, interval: nat): Stats {
    var i := BucketIndex(interval);
    Stats(st.count + 1, st.sum + interval, st.buckets[i := st.buckets[i] + 1])
  }

  function Merged(a: Stats, b: Stats): Stats {
    Stats(a.count + b.count, a.sum + b.sum, seq(BUCKETS, i requires 0 <= i < BUCKETS => a.buckets[i] + b.buckets[i]))
  }

  /** The first k buckets together, as exported for bucket k - 1. */
  function Prefix(buckets: seq<nat>, k: nat): nat
    requires k <= |buckets|
  {
    if k == 0 then 0 else Prefix(buckets, k - 1) + buckets[k - 1]
  }

  function CountIn(intervals: seq<nat>, i: nat): nat {
    if intervals == [] then 0
    else CountIn(intervals[..|intervals| - 1], i) + if BucketIndex(intervals[|intervals| - 1]) == i then 1 else 0
  }

  /** st holds exactly these intervals. */
  ghost predicate IsStatsOf(st: Stats, intervals: seq<nat>) {
    && st.count == |intervals| && st.sum == SeqSum(intervals)
    && forall i | 0 <= i < BUCKETS :: st.buckets[i] == CountIn(intervals, i)
  }

  lemma AddKeepsStats(st: Stats, intervals: seq<nat>, interval: nat)
    requires IsStatsOf(st, intervals)
    ensures IsStatsOf(Added(st, interval), intervals + [interval])
  {
    hide BucketIndex;
    assert (intervals + [interval])[..|intervals|] == intervals;
  }

  lemma {:induction false} CountSplits(a: seq<nat>, b: seq<nat>, i: nat)
    ensures CountIn(a + b, i) == CountIn(a, i) + CountIn(b, i) && SeqSum(a + b) == SeqSum(a) + SeqSum(b)
  {
    if b == [] {
      assert a + b == a;
    } else {
      CountSplits(a, b[..|b| - 1], i);
      assert (a + b)[..|a + b| - 1] == a + b[..|b| - 1];
    }
  }

  lemma MergeKeepsStats(a: Stats, b: Stats, s: seq<nat>, t: seq<nat>)
    requires IsStatsOf(a, s) && IsStatsOf(b, t)
    ensures IsStatsOf(Merged(a, b), s + t)
  {
    CountSplits(s, t, 0);
    forall i | 0 <= i < BUCKETS
      ensures Merged(a, b).buckets[i] == CountIn(s + t, i)
    {
      CountSplits(s, t, i);
    }
  }

  // ---- what the exported cumulative buckets mean ----

  function CountMicrosBelow(intervals: seq<nat>, bound: nat): nat {
    if intervals == [] then 0
    else
      CountMicrosBelow(intervals[..|intervals| - 1], bound)
      + if Micros(intervals[|intervals| - 1]) < bound then 1 else 0
  }

  function CountUpTo(intervals: seq<nat>, k: nat): nat {
    if intervals == [] then 0
    else CountUpTo(intervals[..|intervals| - 1], k) + if BucketIndex(intervals[|intervals| - 1]) < k then 1 else 0
  }

  lemma {:induction false} CountUpToStep(intervals: seq<nat>, k: nat)
    ensures CountUpTo(intervals, k + 1) == CountUpTo(intervals, k) + CountIn(intervals, k)
    ensures CountUpTo(intervals, 0) == 0
  {
    if intervals != [] {
      CountUpToStep(intervals[..|intervals| - 1], k);
    }
  }

  lemma {:induction false} PrefixCounts(st: Stats, intervals: seq<nat>, k: nat)
    requires IsStatsOf(st, intervals) && k <= BUCKETS
    ensures Prefix(st.buckets, k) == CountUpTo(intervals, k)
  {
    CountUpToStep(intervals, if k == 0 then 0 else k - 1);
    if k > 0 {
      PrefixCounts(st, intervals, k - 1);
    }
  }

  lemma {:induction false} UpToIsBelow(intervals: seq<nat>, i: nat)
    requires i < BUCKETS - 1
    ensures CountUpTo(intervals, i + 1) == CountMicrosBelow(intervals, Pow2(i + 1))
    ensures CountUpTo(intervals, BUCKETS) == |intervals|
  {
    if intervals != [] {
      UpToIsBelow(intervals[..|intervals| - 1], i);
      BucketIndexExact(intervals[|intervals| - 1], i);
    }
  }

  /**
   Cumulative bucket i counts exactly the intervals of less than 2^(i + 1) whole microseconds, the
   last one all of them.
   */
  lemma CumulativeExact(st: Stats, intervals: seq<nat>, i: nat)
    requires IsStatsOf(st, intervals) && i < BUCKETS
    ensures i < BUCKETS - 1 ==> Prefix(st.buckets, i + 1) == CountMicrosBelow(intervals, Pow2(i + 1))
    ensures Prefix(st.buckets, BUCKETS) == st.count
  {
    PrefixCounts(st, intervals, i + 1);
    PrefixCounts(st, intervals, BUCKETS);
    UpToIsBelow(intervals, if i < BUCKETS - 1 then i else 0);
  }

  /** The intervals up to 2^i microseconds: what the bucket is labelled as counting. */
  function CountWithin(intervals: seq<nat>, bound: nat): nat {
    if intervals == [] then 0
    else CountWithin(intervals[..|intervals| - 1], bound) + if intervals[|intervals| - 1] <= bound then 1 else 0
  }

  /** Longer than the bucket's bound, yet counted in it. */
  predicate Misplaced(interval: nat, i: nat) {
    Pow2(i) * 1_000 < interval && (i < BUCKETS - 1 ==> Micros(interval) < Pow2(i + 1))
  }

  lemma {:induction false} LabelledCount(intervals: seq<nat>, i: nat)
    requires i < BUCKETS
    ensures CountWithin(intervals, Pow2(i) * 1_000) <= CountUpTo(intervals, i + 1)
    ensures CountWithin(intervals, Pow2(i) * 1_000) == CountUpTo(intervals, i + 1)
            <==> forall interval | interval in intervals :: !Misplaced(interval, i)
  {
    if intervals != [] {
      var rest, last := intervals[..|intervals| - 1], intervals[|intervals| - 1];
      LabelledCount(rest, i);
      LabelledOne(last, i);
      assert intervals == rest + [last];
      assert (forall interval | interval in intervals :: !Misplaced(interval, i))
          <==> (forall interval | interval in rest :: !Misplaced(interval, i)) && !Misplaced(last, i) by {
        assert last in intervals;
        assert forall interval | interval in rest :: interval in intervals;
      }
    }
  }

  lemma LabelledOne(interval: nat, i: nat)
    requires i < BUCKETS
    ensures interval <= Pow2(i) * 1_000 ==> BucketIndex(interval) < i + 1
    ensures BucketIndex(interval) < i + 1 <==> i == BUCKETS - 1 || Micros(interval) < Pow2(i + 1)
  {
    hide BucketIndex;
    if i < BUCKETS - 1 {
      BucketIndexExact(interval, i);
    }
  }

  /**
   The bucket labelled 2^i microseconds counts the intervals up to 2^i microseconds if and only
   if no interval is longer than that and still below 2^(i + 1) (for the last bucket: no interval
   is longer at all).
   */
  lemma LabelExact(st: Stats, intervals: seq<nat>, i: nat)
    requires IsStatsOf(st, intervals) && i < BUCKETS
    ensures Prefix(st.buckets, i + 1) == CountWithin(intervals, Pow2(i) * 1_000)
            <==> forall interval | interval in intervals :: !Misplaced(interval, i)
  {
    PrefixCounts(st, intervals, i + 1);
    LabelledCount(intervals, i);
  }

  /** One interval of 3 microseconds is counted in the bucket labelled 2 microseconds. */
  lemma MislabelledExample()
    ensures Prefix(Added(NoStats(), 3_000).buckets, 2) == 1 && CountWithin([3_000], Pow2(1) * 1_000) == 0
  {
    assert IsStatsOf(NoStats(), []);
    AddKeepsStats(NoStats(), [], 3_000);
    assert [] + [3_000] == [3_000];
    assert Misplaced(3_000, 1) && 3_000 in [3_000];
    LabelledCount([3_000], 1);
    PrefixCounts(Added(NoStats(), 3_000), [3_000], 2);
    assert [3_000][..0] == [];
  }

  function CountShorter(intervals: seq<nat>, limit: nat): nat {
    if intervals == [] then 0
    else CountShorter(intervals[..|intervals| - 1], limit) + if intervals[|intervals| - 1] < limit then 1 else 0
  }

  /** Less than so many whole microseconds is shorter than so many thousand nanoseconds. */
  lemma {:induction false} MicrosAreShorter(intervals: seq<nat>, bound: nat)
    ensures CountMicrosBelow(intervals, bound) == CountShorter(intervals, 1_000 * bound)
  {
    if intervals != [] {
      MicrosAreShorter(intervals[..|intervals| - 1], bound);
    }
  }
}
