/**
 Delayed deletion of processes, exactly, over whole runs: which cleanup removes
 a marked process, and how long it has been kept by then.
 */
module GracePeriod {
  import opened Words
  import opened Counters
  import opened ScrapeClock
  import opened Lifecycle
  import opened LifecycleRuns
  import opened CleanupExact
  import opened Retention

  // ---- the clock of a run ----

  /** The times of the cleanups among the events. */
  function CleanupTimes<Ref>(events: seq<Event<Ref>>): seq<int> {
    if events == [] then []
    else
      var e := events[|events| - 1];
      CleanupTimes(events[..|events| - 1]) + (if e.CleanedUp? then [e.now] else [])
  }

  lemma {:induction false} ResolveAllKeepsClock<Ref>(s: State<Ref>, order: seq<uint64>, lookup: Lookup)
    ensures ResolveAll(s, order, lookup).0.clock == s.clock
  {
    if order != [] {
      ResolveAllKeepsClock(s, order[..|order| - 1], lookup);
    }
  }

  lemma ClockStep<Ref>(s: State<Ref>, e: Event<Ref>)
    requires Closed(s)
    ensures Step(s, e).clock == if e.CleanedUp? then Advance(s.clock, e.now) else s.clock
  {
    hide ResolveAll, Insert, EnrichedInfo, NewProcess, Enabled, AddThread, ApplyService, RecordSample, Target,
         TerminatedInfo, Cleanup, Advance;
    if e.Aggregated? {
      ResolveAllKeepsClock(s, e.order, e.lookup);
    } else if e.CleanedUp? {
      ClockAfterCleanup(s, e.now, e.order);
    } else if e.ProcessStarted? {
      InsertKeepsRest(s, e.o, NewProcess(e.pid, e.startKey, e.name, e.parentPid, e.sessionId, e.now));
    } else if e.ThreadStarted? || e.ServiceSeen? || e.Sampled? {
      RecordingFrame(s, e);
    }
  }

  /** In every reachable state the clock is that of the cleanups so far, and the generation their number. */
  lemma {:induction false} ClockOfRun<Ref>(unknown: Ref, start: int,
      states: seq<State<Ref>>, events: seq<Event<Ref>>, n: nat)
    requires IsRun(unknown, start, states, events) && n <= |events|
    ensures states[n].clock == ClockAfter(start, CleanupTimes(events[..n]))
    ensures states[n].scrapeCounter == |CleanupTimes(events[..n])|
  {
    hide Step, Enabled, Advance;
    if n > 0 {
      var e, before, after := events[n - 1], CleanupTimes(events[..n - 1]), CleanupTimes(events[..n]);
      ClockOfRun(unknown, start, states, events, n - 1);
      assert Next(states[n - 1], events[n - 1], states[n - 1 + 1]);
      ClockStep(states[n - 1], events[n - 1]);
      GenerationStep(states[n - 1], events[n - 1]);
      assert events[..n][..n - 1] == events[..n - 1];
      assert after == before + (if e.CleanedUp? then [e.now] else []);
      if e.CleanedUp? {
        assert after == before + [e.now];
        ClockAppend(start, before, e.now);
      } else {
        assert after == before;
      }
    }
  }

  lemma ClockAppend(start: int, times: seq<int>, now: int)
    ensures ClockAfter(start, times + [now]) == Advance(ClockAfter(start, times), now)
  {
    assert (times + [now])[..|times|] == times;
  }

  /** The threshold of a cleanup in a run is the one that the mean of the recent intervals prescribes. */
  lemma ThresholdOfRun<Ref>(unknown: Ref, start: int, states: seq<State<Ref>>, events: seq<Event<Ref>>, j: nat)
    requires IsRun(unknown, start, states, events) && j < |events| && events[j].CleanedUp?
    ensures states[j].clock.Valid() && CleanupTimes(events[..j + 1]) != []
    ensures NextThreshold(states[j], events[j].now) == LastThreshold(start, CleanupTimes(events[..j + 1]))
    ensures var times := CleanupTimes(events[..j + 1]);
            var d := Intervals(start, times);
            NextThreshold(states[j], events[j].now)
            == CleanupThreshold(|times|, GraceGenerations(RecentMean(d)), d[|d| - 1])
  {
    hide Advance;
    ClockOfRun(unknown, start, states, events, j);
    assert events[..j + 1][..j] == events[..j];
    var before, times := CleanupTimes(events[..j]), CleanupTimes(events[..j + 1]);
    assert times == before + [events[j].now] && times[..|times| - 1] == before;
    ThresholdFromHistory(start, times);
  }

  // ---- which cleanup removes a process ----

  /** Event e is a cleanup whose threshold lies above generation g. */
  ghost predicate Reaches<Ref>(s: State<Ref>, e: Event<Ref>, g: nat) {
    e.CleanedUp? && s.clock.Valid() && g < NextThreshold(s, e.now)
  }

  /**
   The n-th cleanup of a run reaches a mark of generation g if and only if n > g + grace, or the
   override is in force.
   */
  lemma ReachesExactly<Ref>(unknown: Ref, start: int,
      states: seq<State<Ref>>, events: seq<Event<Ref>>, j: nat, g: nat)
    requires IsRun(unknown, start, states, events) && j < |events| && events[j].CleanedUp?
    ensures CleanupTimes(events[..j + 1]) != []
    ensures var times := CleanupTimes(events[..j + 1]);
            var d := Intervals(start, times);
            Reaches(states[j], events[j], g)
            <==> if Override(d[|d| - 1]) then g < |times| else |times| > g + GraceGenerations(RecentMean(d))
  {
    hide CleanupTimes, LastThreshold, RecentMean, GraceGenerations, NextThreshold;
    ThresholdOfRun(unknown, start, states, events, j);
    var d := Intervals(start, CleanupTimes(events[..j + 1]));
    ExpiryExact(g, |CleanupTimes(events[..j + 1])|, GraceGenerations(RecentMean(d)), d[|d| - 1]);
  }

  /** Rounding up, by multiplication. */
  lemma CeilExact(p: nat, a: nat, x: int)
    requires p > 0 && a > 0
    ensures x >= CeilDiv(p, a) <==> x * a >= p
  {
    var c := CeilDiv(p, a);
    assert p + a - 1 == c * a + (p + a - 1) % a;
    if x >= c {
      assert x * a >= c * a;
    } else {
      assert x * a <= (c - 1) * a;
      assert (c - 1) * a == c * a - a;
    }
  }

  /** The last four intervals, or all of them while there are fewer. */
  function LastFour(intervals: seq<int>): seq<int> {
    intervals[if |intervals| < 4 then 0 else |intervals| - 4..]
  }

  /** For cleanup n the latest interval is d[n - 1]; it reaches what was marked in generation g. */
  predicate InReach(d: seq<int>, n: nat, g: nat)
    requires d != []
  {
    var recent := LastFour(d);
    if d[|d| - 1] > 60_000_000_000 then n > g
    else if SeqSum(recent) < |recent| then n > g + 1
    else n > g + 1 && (n - g - 1) * (SeqSum(recent) / |recent|) >= 30_000_000_000
  }

  lemma ThresholdInReach(d: seq<int>, n: nat, g: nat)
    requires d != []
    ensures g < CleanupThreshold(n, GraceGenerations(RecentMean(d)), d[|d| - 1]) <==> InReach(d, n, g)
  {
    hide SeqSum, TruncDiv, CeilDiv, CleanupThreshold, RecentMean;
    var recent, a := LastFour(d), RecentMean(d);
    MeanOfLastFour(d);
    MeanIsFloor(SeqSum(recent), |recent|);
    ExpiryExact(g, n, GraceGenerations(a), d[|d| - 1]);
    if a > 0 {
      CeilExact(30_000_000_000, a, n - g - 1);
      assert a == SeqSum(recent) / |recent|;
    }
  }

  lemma MeanOfLastFour(d: seq<int>)
    requires d != []
    ensures LastFour(d) != [] && RecentMean(d) == TruncDiv(SeqSum(LastFour(d)), |LastFour(d)|)
  {
    hide SeqSum, TruncDiv;
    assert Recent(d) == LastFour(d);
  }

  /** The mean is positive from one nanosecond per interval on, and then the floor of the quotient. */
  lemma MeanIsFloor(sum: int, count: nat)
    requires count > 0
    ensures TruncDiv(sum, count) > 0 <==> sum >= count
    ensures sum >= count ==> TruncDiv(sum, count) == sum / count
  {
    if 0 <= sum {
      assert sum == (sum / count) * count + sum % count;
      if sum >= count {
        assert sum / count >= 1;
      }
    }
  }

  /**
   Which cleanup reaches which mark, by the times alone. After a gap of more than 60 s every mark is
   reached. Otherwise, with a the integer mean of the last four intervals, a mark of generation g is
   reached by the n-th cleanup if and only if n > g + 1 and the n - g - 1 mean intervals in between
   span 30 s; if there is no positive mean, from n > g + 1 on.
   */
  lemma ReachesByTimes<Ref>(unknown: Ref, start: int,
      states: seq<State<Ref>>, events: seq<Event<Ref>>, j: nat, g: nat)
    requires IsRun(unknown, start, states, events) && j < |events| && events[j].CleanedUp?
    ensures CleanupTimes(events[..j + 1]) != []
    ensures var times := CleanupTimes(events[..j + 1]);
            Reaches(states[j], events[j], g) <==> InReach(Intervals(start, times), |times|, g)
  {
    hide CleanupTimes, LastThreshold, RecentMean, GraceGenerations, NextThreshold, InReach, CleanupThreshold;
    ThresholdOfRun(unknown, start, states, events, j);
    var times := CleanupTimes(events[..j + 1]);
    ThresholdInReach(Intervals(start, times), |times|, g);
  }

  /**
   The end event i marks k, and up to state x the process neither ends again nor, once it is gone,
   starts again.
   */
  ghost predicate EndedAt<Ref>(states: seq<State<Ref>>, events: seq<Event<Ref>>, k: uint64, i: nat, x: nat) {
    && i < x <= |events| && |states| == |events| + 1 && Marks(states[i], events[i], k)
    && forall y | i < y < x ::
         && !Marks(states[y], events[y], k)
         && !(events[y].ProcessStarted? && events[y].startKey == k && k !in states[y].instanceData)
  }

  /** What one event makes of a marked process, or of one that is gone. */
  lemma ProcessStep<Ref>(s: State<Ref>, e: Event<Ref>, k: uint64)
    requires Closed(s) && Enabled(s, e) && !(e.ProcessStarted? && e.startKey == k && k !in s.instanceData)
    ensures k !in s.instanceData ==> k !in Step(s, e).instanceData
    ensures k in s.instanceData && k in s.terminatedProcesses ==>
              (k in Step(s, e).instanceData <==> !Reaches(s, e, s.terminatedProcesses[k]))
    ensures k in s.instanceData && k in s.terminatedProcesses && k in Step(s, e).instanceData && !Marks(s, e, k) ==>
              && k in Step(s, e).terminatedProcesses
              && Step(s, e).terminatedProcesses[k] == s.terminatedProcesses[k]
  {
    hide ResolveAll, EnrichedInfo, ServiceInfo, NewProcess, Enabled, Record, Target, TerminatedInfo, Cleanup,
         NextThreshold;
    if k !in s.instanceData {
      OnlyStartsAdd(s, e, k);
    } else if !e.CleanedUp? {
      OthersKeepInstances(s, e, k);
    }
    if e.CleanedUp? {
      InstancesAfterCleanup(s, e.now, e.order);
      MarksAfterCleanup(s, e.now, e.order);
    } else if e.ProcessEnded? {
      EndMarks(s, e);
    } else {
      OthersKeepMarks(s, e);
    }
  }

  /**
   Delayed deletion is exact: after its latest mark a process stays, in the same record and with the
   generation of that mark, until the first cleanup whose threshold lies above that generation, and
   no longer.
   */
  lemma {:induction false} LiveExactly<Ref>(unknown: Ref, start: int,
      states: seq<State<Ref>>, events: seq<Event<Ref>>, k: uint64, i: nat, x: nat)
    requires IsRun(unknown, start, states, events) && EndedAt(states, events, k, i, x)
    ensures k in states[x].instanceData
            <==> forall y | i < y < x :: !Reaches(states[y], events[y], states[i].scrapeCounter)
    ensures k in states[x].instanceData ==>
              && states[x].instanceData[k] == states[i].instanceData[k]
              && k in states[x].terminatedProcesses && states[x].terminatedProcesses[k] == states[i].scrapeCounter
    decreases x
  {
    hide Step, Enabled, Reaches, Marks;
    if x == i + 1 {
      MarkedAtOnce(unknown, start, states, events, k, i);
    } else {
      LiveExactly(unknown, start, states, events, k, i, x - 1);
      assert Next(states[x - 1], events[x - 1], states[x - 1 + 1]);
      ProcessStep(states[x - 1], events[x - 1], k);
      if k in states[x].instanceData {
        InstanceStep(states[x - 1], events[x - 1], k);
      }
    }
  }

  lemma MarkedAtOnce<Ref>(unknown: Ref, start: int, states: seq<State<Ref>>, events: seq<Event<Ref>>, k: uint64, i: nat)
    requires IsRun(unknown, start, states, events) && i < |events| && Marks(states[i], events[i], k)
    ensures k in states[i + 1].instanceData && states[i + 1].instanceData[k] == states[i].instanceData[k]
    ensures k in states[i + 1].terminatedProcesses
    ensures states[i + 1].terminatedProcesses[k] == states[i].scrapeCounter
  {
    hide TerminatedInfo;
    assert Next(states[i], events[i], states[i + 1]);
  }

  /** The cleanup at event j removes a process that has not been removed before if and only if it reaches its mark. */
  lemma RemovedExactly<Ref>(unknown: Ref, start: int,
      states: seq<State<Ref>>, events: seq<Event<Ref>>, k: uint64, i: nat, j: nat)
    requires IsRun(unknown, start, states, events) && j < |events| && EndedAt(states, events, k, i, j + 1)
    requires i < j && events[j].CleanedUp?
    requires forall y | i < y < j :: !Reaches(states[y], events[y], states[i].scrapeCounter)
    ensures k in states[j].instanceData && states[j].instanceData[k] == states[i].instanceData[k]
    ensures states[j].clock.Valid()
    ensures k !in states[j + 1].instanceData <==> states[i].scrapeCounter < NextThreshold(states[j], events[j].now)
  {
    hide Step, Enabled, NextThreshold;
    assert Next(states[j], events[j], states[j + 1]);
    LiveExactly(unknown, start, states, events, k, i, j);
    LiveExactly(unknown, start, states, events, k, i, j + 1);
  }

  // ---- how long a process is kept ----

  lemma {:induction false} CleanupsGrow<Ref>(events: seq<Event<Ref>>, a: nat, b: nat)
    requires a <= b <= |events|
    ensures |CleanupTimes(events[..a])| <= |CleanupTimes(events[..b])|
    decreases b - a
  {
    if a < b {
      assert events[..b][..b - 1] == events[..b - 1];
      CleanupsGrow(events, a, b - 1);
    }
  }

  /** The event behind the n-th time, counted from 0. */
  lemma {:induction false} NthCleanup<Ref>(events: seq<Event<Ref>>, n: nat) returns (c: nat)
    requires n < |CleanupTimes(events)|
    ensures c < |events| && events[c].CleanedUp? && events[c].now == CleanupTimes(events)[n]
    ensures |CleanupTimes(events[..c])| == n
  {
    var before := events[..|events| - 1];
    if n < |CleanupTimes(before)| {
      c := NthCleanup(before, n);
      assert before[..c] == events[..c];
    } else {
      c := |events| - 1;
    }
  }

  /** The first cleanup time not yet counted at event i belongs to a later event. */
  lemma LaterCleanup<Ref>(events: seq<Event<Ref>>, i: nat) returns (c: nat)
    requires i < |events| && !events[i].CleanedUp? && |CleanupTimes(events[..i])| < |CleanupTimes(events)|
    ensures i < c < |events| && events[c].CleanedUp?
    ensures events[c].now == CleanupTimes(events)[|CleanupTimes(events[..i])|]
  {
    c := NthCleanup(events, |CleanupTimes(events[..i])|);
    if c < i {
      assert events[..c + 1][..c] == events[..c];
      CleanupsGrow(events, c + 1, i);
    }
  }

  /** Up to event j the last m intervals were all d, with m at least 4 and large enough that they span 30 s. */
  ghost predicate SteadyUpTo<Ref>(start: int, events: seq<Event<Ref>>, j: nat, d: int, m: nat)
    requires j < |events|
  {
    var times := CleanupTimes(events[..j + 1]);
    && 4 <= m <= |times| && m * d >= 30_000_000_000 && (forall k | 0 < k < |times| :: times[k - 1] <= times[k])
    && forall k | |times| - m <= k < |times| :: Intervals(start, times)[k] == d
  }

  /**
   If the cleanup at event j recycles a process whose latest mark is event i, which was handled at the
   time `marked`, no later than the cleanups that followed it, then 30 s have passed since, provided
   scrapes have been steady, with intervals of at most 60 s.
   */
  lemma RecycledAfterGracePeriod<Ref>(unknown: Ref, start: int,
      states: seq<State<Ref>>, events: seq<Event<Ref>>, k: uint64, i: nat, j: nat, marked: int, d: int, m: nat)
    requires IsRun(unknown, start, states, events) && i < j < |events|
    requires Marks(states[i], events[i], k) && (forall y | i < y < j :: !Marks(states[y], events[y], k))
    requires Recycles(states[j], events[j], k)
    requires forall c | i < c <= j && events[c].CleanedUp? :: marked <= events[c].now
    requires 0 < d <= 60_000_000_000 && SteadyUpTo(start, events, j, d, m)
    ensures 30_000_000_000 <= events[j].now - marked
  {
    hide Inv, Step, Enabled, NextThreshold, LastThreshold, Intervals, GraceGenerations, CleanupTimes;
    var g, times := states[i].scrapeCounter, CleanupTimes(events[..j + 1]);
    MarkPersists(unknown, start, states, events, k, i, j, j);
    ThresholdOfRun(unknown, start, states, events, j);
    ClockOfRun(unknown, start, states, events, i);
    assert events[..j + 1][..i] == events[..i];
    if g < |times| {
      var c := LaterCleanup(events[..j + 1], i);
    }
    LastTime(events, j);
    GraceAtMost(d, m);
    SteadyScrapesKeepGracePeriod(start, times, g, marked, d);
  }

  lemma GraceAtMost(d: int, m: nat)
    requires d > 0 && m * d >= 30_000_000_000
    ensures GraceGenerations(d) <= m
  {
    CeilExact(30_000_000_000, d, m);
  }

  lemma LastTime<Ref>(events: seq<Event<Ref>>, j: nat)
    requires j < |events| && events[j].CleanedUp?
    ensures var times := CleanupTimes(events[..j + 1]); times != [] && times[|times| - 1] == events[j].now
  {
  }
}
