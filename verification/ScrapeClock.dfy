/**
 The adaptive cleanup threshold: a ring buffer of the last scrape intervals,
 their mean, the grace period in scrape generations, and the generation below
 which a terminated entity may be deleted. Times and durations are nanoseconds.
 */
module ScrapeClock {
  import opened Words

  const SCRAPE_DURATION_SAMPLES := 4
  const MIN_TERMINATION_GRACE_PERIOD := 30_000_000_000

  /** Division as the program performs it: towards zero. */
  function TruncDiv(a: int, b: int): int
    requires 0 < b
  {
    if 0 <= a then a / b else -((-a) / b)
  }

  function CeilDiv(a: nat, b: nat): nat
    requires 0 < b
  {
    (a + b - 1) / b
  }

  function SeqSum(s: seq<int>): int {
    if s == [] then 0 else SeqSum(s[..|s| - 1]) + s[|s| - 1]
  }

  type Ring = s: seq<int> | |s| == SCRAPE_DURATION_SAMPLES witness [0, 0, 0, 0]

  datatype Clock = Clock(lastScrapeTime: int, durations: Ring, lastIndex: nat, full: bool) {
    predicate Valid() {
      lastIndex < SCRAPE_DURATION_SAMPLES
    }

    function SampleCount(): nat {
      if full then SCRAPE_DURATION_SAMPLES else lastIndex
    }
  }

  function Started(now: int): Clock {
    Clock(now, [0, 0, 0, 0], 0, false)
  }

  function Advance(c: Clock, now: int): (c': Clock)
    requires c.Valid()
    ensures c'.Valid() && 0 < c'.SampleCount() <= SCRAPE_DURATION_SAMPLES
  {
    var durations := c.durations[c.lastIndex := now - c.lastScrapeTime];
    if c.lastIndex + 1 >= SCRAPE_DURATION_SAMPLES
    then Clock(now, durations, 0, true)
    else Clock(now, durations, c.lastIndex + 1, c.full)
  }

  function AverageDuration(c: Clock): int
    requires 0 < c.SampleCount() <= SCRAPE_DURATION_SAMPLES
  {
    TruncDiv(SeqSum(c.durations[..c.SampleCount()]), c.SampleCount())
  }

  function GraceGenerations(average: int): (g: nat)
    ensures 1 <= g
  {
    if average > 0 then CeilDiv(MIN_TERMINATION_GRACE_PERIOD, average) else 1
  }

  predicate Override(duration: int) {
    duration > 2 * MIN_TERMINATION_GRACE_PERIOD
  }

  function CleanupThreshold(currentScrape: nat, grace: nat, duration: int): nat {
    if Override(duration) then currentScrape
    else if currentScrape > grace then currentScrape - grace
    else 0
  }

  /** Of the entities marked at these generations, the ones a cleanup at the threshold removes. */
  function Expired(terminated: map<uint64, nat>, threshold: nat): set<uint64> {
    set k | k in terminated && terminated[k] < threshold
  }

  /** What one cleanup computes: the clock it leaves and the threshold it applies. */
  function ThresholdAt(c: Clock, currentScrape: nat, now: int): (r: (Clock, nat))
    requires c.Valid()
    ensures r.0.Valid()
  {
    var c' := Advance(c, now);
    (c', CleanupThreshold(currentScrape, GraceGenerations(AverageDuration(c')), now - c.lastScrapeTime))
  }

  /** The threshold never runs past the current generation. */
  lemma ThresholdInRange(c: Clock, currentScrape: nat, now: int)
    requires c.Valid()
    ensures 0 <= ThresholdAt(c, currentScrape, now).1 <= currentScrape
  {
  }

  /** Delayed deletion, exactly: when an entity marked at generation g expires at cleanup n. */
  lemma ExpiryExact(g: nat, n: nat, grace: nat, duration: int)
    requires 1 <= grace
    ensures g < CleanupThreshold(n, grace, duration) <==> if Override(duration) then g < n else n > g + grace
    ensures !Override(duration) && g < CleanupThreshold(n, grace, duration) ==> g + 2 <= n
  {
  }

  /** The least number of whole intervals that spans the grace period. */
  lemma GraceSpansPeriod(average: int)
    requires 0 < average
    ensures MIN_TERMINATION_GRACE_PERIOD <= GraceGenerations(average) * average
    ensures (GraceGenerations(average) - 1) * average < MIN_TERMINATION_GRACE_PERIOD
  {
    var g := GraceGenerations(average);
    var p := MIN_TERMINATION_GRACE_PERIOD;
    assert (p + average - 1) == g * average + (p + average - 1) % average;
    assert (g - 1) * average == g * average - average;
  }

  // ---- the ring buffer against the list of all intervals ----

  function Min(a: nat, b: nat): nat {
    if a < b then a else b
  }

  /** The last four intervals, or all of them while there are fewer. */
  function Recent(intervals: seq<int>): seq<int> {
    intervals[|intervals| - Min(|intervals|, SCRAPE_DURATION_SAMPLES)..]
  }

  /** The integer mean of the recent intervals: the reference the ring buffer is measured against. */
  function RecentMean(intervals: seq<int>): int
    requires intervals != []
  {
    TruncDiv(SeqSum(Recent(intervals)), |Recent(intervals)|)
  }

  ghost predicate Holds(c: Clock, intervals: seq<int>) {
    var k := |intervals|;
    && c.lastIndex == k % SCRAPE_DURATION_SAMPLES
    && (c.full <==> k >= SCRAPE_DURATION_SAMPLES)
    && (forall i | k - Min(k, SCRAPE_DURATION_SAMPLES) <= i < k ::
          c.durations[i % SCRAPE_DURATION_SAMPLES] == intervals[i])
  }

  lemma HoldsStep(c: Clock, intervals: seq<int>, now: int)
    requires c.Valid() && Holds(c, intervals)
    ensures Holds(Advance(c, now), intervals + [now - c.lastScrapeTime])
  {
    var c' := Advance(c, now);
    var k := |intervals|;
    forall i | k + 1 - Min(k + 1, SCRAPE_DURATION_SAMPLES) <= i < k + 1
      ensures c'.durations[i % SCRAPE_DURATION_SAMPLES] == (intervals + [now - c.lastScrapeTime])[i]
    {
      if i < k {
        assert i % SCRAPE_DURATION_SAMPLES != k % SCRAPE_DURATION_SAMPLES;
      }
    }
  }

  lemma SumOfFour(s: seq<int>)
    requires |s| == 4
    ensures SeqSum(s) == s[0] + s[1] + s[2] + s[3]
  {
    assert s[..3][..2] == s[..2] && s[..2][..1] == s[..1] && s[..1][..0] == [];
    assert SeqSum(s[..1]) == s[0];
    assert SeqSum(s[..2]) == s[0] + s[1];
    assert SeqSum(s[..3]) == s[0] + s[1] + s[2];
  }

  lemma RotatedSum(ring: seq<int>, s: seq<int>, o: nat)
    requires |ring| == |s| == 4 && o < 4
    requires forall j | 0 <= j < 4 :: ring[(o + j) % 4] == s[j]
    ensures ring[0] + ring[1] + ring[2] + ring[3] == s[0] + s[1] + s[2] + s[3]
  {
    assert ring[(o + 0) % 4] == s[0];
    assert ring[(o + 1) % 4] == s[1];
    assert ring[(o + 2) % 4] == s[2];
    assert ring[(o + 3) % 4] == s[3];
  }

  /** The mean of the ring buffer is the mean of the last min(k, 4) intervals. */
  lemma RingAverage(c: Clock, intervals: seq<int>)
    requires intervals != [] && Holds(c, intervals)
    ensures c.SampleCount() == |Recent(intervals)| == Min(|intervals|, SCRAPE_DURATION_SAMPLES)
    ensures AverageDuration(c) == RecentMean(intervals)
  {
    hide SeqSum, TruncDiv;
    if |intervals| < SCRAPE_DURATION_SAMPLES {
      FillingRing(c, intervals);
    } else {
      hide Holds;
      FullRing(c, intervals);
      FullRingSum(c, intervals);
    }
  }

  lemma FillingRing(c: Clock, intervals: seq<int>)
    requires |intervals| < SCRAPE_DURATION_SAMPLES && Holds(c, intervals)
    ensures c.SampleCount() == |intervals| && Recent(intervals) == intervals
            && c.durations[..c.SampleCount()] == intervals
  {
    assert forall i | 0 <= i < |intervals| :: i % SCRAPE_DURATION_SAMPLES == i && c.durations[i] == intervals[i];
  }

  lemma FullRing(c: Clock, intervals: seq<int>)
    requires |intervals| >= SCRAPE_DURATION_SAMPLES && Holds(c, intervals)
    ensures c.SampleCount() == |Recent(intervals)| == SCRAPE_DURATION_SAMPLES
  {
  }

  lemma FullRingSum(c: Clock, intervals: seq<int>)
    requires |intervals| >= SCRAPE_DURATION_SAMPLES && Holds(c, intervals)
    ensures SeqSum(c.durations[..4]) == SeqSum(Recent(intervals))
  {
    hide SeqSum;
    var k, r := |intervals|, Recent(intervals);
    SumOfFour(r);
    assert c.durations[..4] == c.durations;
    SumOfFour(c.durations);
    forall j | 0 <= j < 4
      ensures c.durations[(k % 4 + j) % 4] == r[j]
    {
      assert c.durations[(k - 4 + j) % 4] == intervals[k - 4 + j];
      assert (k - 4 + j) % 4 == (k % 4 + j) % 4;
    }
    RotatedSum(c.durations, r, k % 4);
  }

  // ---- whole runs of cleanups ----

  /** The clock after the cleanups at the given times, the first of which follows the start. */
  function ClockAfter(start: int, times: seq<int>): (c: Clock)
    ensures c.Valid()
    ensures c.lastScrapeTime == if times == [] then start else times[|times| - 1]
  {
    if times == [] then Started(start)
    else Advance(ClockAfter(start, times[..|times| - 1]), times[|times| - 1])
  }

  function Intervals(start: int, times: seq<int>): seq<int> {
    seq(|times|, i requires 0 <= i < |times| => times[i] - (if i == 0 then start else times[i - 1]))
  }

  lemma {:induction false} ClockHoldsIntervals(start: int, times: seq<int>)
    ensures Holds(ClockAfter(start, times), Intervals(start, times))
  {
    if times != [] {
      var before, now := times[..|times| - 1], times[|times| - 1];
      ClockHoldsIntervals(start, before);
      HoldsStep(ClockAfter(start, before), Intervals(start, before), now);
      assert Intervals(start, times) == Intervals(start, before) + [now - ClockAfter(start, before).lastScrapeTime];
    }
  }

  /** The threshold applied by the last of the cleanups. */
  function LastThreshold(start: int, times: seq<int>): nat
    requires times != []
  {
    ThresholdAt(ClockAfter(start, times[..|times| - 1]), |times|, times[|times| - 1]).1
  }

  /** In every run the threshold is the one the mean of the recent intervals prescribes. */
  lemma ThresholdFromHistory(start: int, times: seq<int>)
    requires times != []
    ensures var d := Intervals(start, times);
            LastThreshold(start, times)
            == CleanupThreshold(|times|, GraceGenerations(RecentMean(d)), d[|d| - 1])
  {
    ClockHoldsIntervals(start, times);
    RingAverage(ClockAfter(start, times), Intervals(start, times));
  }

  lemma {:induction false} SteadySpan(times: seq<int>, lo: int, hi: int, d: int)
    requires 0 <= lo <= hi < |times|
    requires forall i | lo < i <= hi :: times[i] - times[i - 1] == d
    ensures times[hi] == times[lo] + (hi - lo) * d
    decreases hi - lo
  {
    if lo < hi {
      SteadySpan(times, lo, hi - 1, d);
    } else {
      assert (hi - lo) * d == 0;
    }
  }

  lemma {:induction false} TimesOrdered(times: seq<int>, i: nat, j: nat)
    requires i <= j < |times|
    requires forall k | 0 < k < |times| :: times[k - 1] <= times[k]
    ensures times[i] <= times[j]
    decreases j - i
  {
    if i < j {
      TimesOrdered(times, i, j - 1);
    }
  }

  function Max(a: nat, b: nat): nat {
    if a < b then b else a
  }

  lemma SteadyMean(intervals: seq<int>, d: int)
    requires |intervals| >= 4
    requires forall i | |intervals| - 4 <= i < |intervals| :: intervals[i] == d
    ensures RecentMean(intervals) == d
  {
    SumOfFour(Recent(intervals));
    assert 0 <= d ==> (4 * d) / 4 == d;
    assert d < 0 ==> (4 * -d) / 4 == -d;
  }

  /**
   An entity whose latest mark (at time `marked`, before cleanup g + 1) carries generation g
   and that the last cleanup of the run removes has been kept for at least the grace period,
   provided the last max(4, grace) intervals were all d, with 0 < d <= 60 s.
   */
  lemma SteadyScrapesKeepGracePeriod(start: int, times: seq<int>, g: nat, marked: int, d: int)
    requires times != [] && (forall k | 0 < k < |times| :: times[k - 1] <= times[k])
    requires 0 < d <= 2 * MIN_TERMINATION_GRACE_PERIOD
    requires Max(SCRAPE_DURATION_SAMPLES, GraceGenerations(d)) <= |times|
    requires forall i | |times| - Max(SCRAPE_DURATION_SAMPLES, GraceGenerations(d)) <= i < |times| ::
               Intervals(start, times)[i] == d
    requires g < LastThreshold(start, times)
    requires g < |times| ==> marked <= times[g]
    ensures MIN_TERMINATION_GRACE_PERIOD <= times[|times| - 1] - marked
  {
    var n := |times|;
    var grace := GraceGenerations(d);
    ThresholdFromHistory(start, times);
    SteadyMean(Intervals(start, times), d);
    assert n > g + grace;
    var from := n - 1 - grace;
    forall i | from < i <= n - 1
      ensures times[i] - times[i - 1] == d
    {
      assert Intervals(start, times)[i] == d;
    }
    SteadySpan(times, from, n - 1, d);
    TimesOrdered(times, g, from);
    GraceSpansPeriod(d);
  }

  /** The clock object: one ring buffer, overwritten in place at each cleanup. */
  class ScrapeTimer {
    var lastScrapeTime: int
    const scrapeDurations: array<int>
    var lastScrapeIndex: nat
    var scrapeDurationsFull: bool

    ghost predicate Valid()
      reads this
    {
      scrapeDurations.Length == SCRAPE_DURATION_SAMPLES && lastScrapeIndex < SCRAPE_DURATION_SAMPLES
    }

    ghost function View(): (c: Clock)
      reads this, scrapeDurations
      requires Valid()
      ensures c.Valid()
    {
      Clock(lastScrapeTime, scrapeDurations[..], lastScrapeIndex, scrapeDurationsFull)
    }

    constructor (now: int)
      ensures Valid() && fresh(scrapeDurations) && View() == Started(now)
    {
      lastScrapeTime := now;
      scrapeDurations := new int[SCRAPE_DURATION_SAMPLES](_ => 0);
      lastScrapeIndex := 0;
      scrapeDurationsFull := false;
    }

    method CalculateAdaptiveCleanupThreshold(currentScrape: nat, now: int) returns (cleanupThreshold: nat)
      requires Valid()
      modifies this, scrapeDurations
      ensures Valid()
      ensures (View(), cleanupThreshold) == ThresholdAt(old(View()), currentScrape, now)
    {
      var duration := now - lastScrapeTime;
      lastScrapeTime := now;

      scrapeDurations[lastScrapeIndex] := duration;
      lastScrapeIndex := lastScrapeIndex + 1;
      if lastScrapeIndex >= SCRAPE_DURATION_SAMPLES {
        lastScrapeIndex := 0;
        scrapeDurationsFull := true;
      }
      assert View() == Advance(old(View()), now);

      var averageScrapeDuration := 0;
      var totalDuration := 0;
      var sampleCount := SCRAPE_DURATION_SAMPLES;
      if !scrapeDurationsFull {
        sampleCount := lastScrapeIndex;
      }
      if sampleCount > 0 {
        for i := 0 to sampleCount
          invariant totalDuration == SeqSum(scrapeDurations[..i])
        {
          assert scrapeDurations[..i + 1][..i] == scrapeDurations[..i];
          totalDuration := totalDuration + scrapeDurations[i];
        }
        assert scrapeDurations[..][..sampleCount] == scrapeDurations[..sampleCount];
        averageScrapeDuration := TruncDiv(totalDuration, sampleCount);
      }

      var gracePeriodInGenerations := 1;
      if averageScrapeDuration > 0 {
        gracePeriodInGenerations := CeilDiv(MIN_TERMINATION_GRACE_PERIOD, averageScrapeDuration);
        if gracePeriodInGenerations < 1 {
          gracePeriodInGenerations := 1;
        }
      }

      cleanupThreshold := 0;
      if duration > MIN_TERMINATION_GRACE_PERIOD * 2 {
        cleanupThreshold := currentScrape;
      } else if currentScrape > gracePeriodInGenerations {
        cleanupThreshold := currentScrape - gracePeriodInGenerations;
      }
    }
  }
}
