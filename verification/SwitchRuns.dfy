/** Runs of scheduler events with scrapes in between, and what the exported totals amount to. */
module SwitchRuns {
  import opened ScrapeClock
  import opened SwitchIntervals
  import opened Words

  const STATE_CREATED: nat := 0
  const STATE_RUNNING: nat := 1
  const STATE_READY: nat := 2
  const STATE_TERMINATED: nat := 3
  const STATE_WAITING: nat := 4
  const STATE_WAITING_OFFSET: nat := 40
  const WAIT_REASONS: nat := 38
  const STATE_COUNTERS: nat := STATE_WAITING_OFFSET + WAIT_REASONS

  datatype Cpu = Cpu(lastSwitch: int, active: Stats, merged: Stats, switches: nat)

  type Counters = s: seq<nat> | |s| == STATE_COUNTERS witness seq(STATE_COUNTERS, _ => 0)

  datatype State = State(cpus: seq<Cpu>, stateCounters: Counters)

  datatype Event =
    | SwitchedTo(cpu: uint16, time: int, oldWaitReason: uint8)
    | ThreadReady
    | ThreadCreated
    | ThreadTerminated
    | Scraped

  function Init(numCpus: nat): State {
    State(seq(numCpus, _ => Cpu(0, NoStats(), NoStats(), 0)), seq(STATE_COUNTERS, _ => 0))
  }

  /** The counter of a transition; waiting states follow the simple ones, one per wait reason. */
  function StateIndex(state: nat, waitReason: uint8): nat {
    if state == STATE_WAITING then STATE_WAITING_OFFSET + waitReason else state
  }

  function Transition(counters: Counters, state: nat, waitReason: uint8): Counters {
    var i := StateIndex(state, waitReason);
    if i < STATE_COUNTERS then counters[i := counters[i] + 1] else counters
  }

  /** The time since the CPU's previous switch, if there was one. */
  function Interval(c: Cpu, time: int): int {
    if c.lastSwitch > 0 then time - c.lastSwitch else 0
  }

  function SwitchRecorded(c: Cpu, time: int): Cpu {
    var interval := Interval(c, time);
    Cpu(time, if interval > 0 then Added(c.active, interval) else c.active, c.merged, c.switches + 1)
  }

  function ScrapedCpu(c: Cpu): Cpu {
    c.(active := NoStats(), merged := Merged(c.merged, c.active))
  }

  function Step(s: State, e: Event): State {
    match e
    case SwitchedTo(cpu, time, oldWaitReason) =>
      var counters := Transition(Transition(s.stateCounters, STATE_WAITING, oldWaitReason), STATE_RUNNING, 0);
      if cpu < |s.cpus| then State(s.cpus[cpu := SwitchRecorded(s.cpus[cpu], time)], counters)
      else s.(stateCounters := counters)
    case ThreadReady => s.(stateCounters := Transition(s.stateCounters, STATE_READY, 0))
    case ThreadCreated => s.(stateCounters := Transition(s.stateCounters, STATE_CREATED, 0))
    case ThreadTerminated => s.(stateCounters := Transition(s.stateCounters, STATE_TERMINATED, 0))
    case Scraped => s.(cpus := seq(|s.cpus|, c requires 0 <= c < |s.cpus| => ScrapedCpu(s.cpus[c])))
  }

  function After(numCpus: nat, events: seq<Event>): (s: State)
    ensures |s.cpus| == numCpus
  {
    if events == [] then Init(numCpus) else Step(After(numCpus, events[..|events| - 1]), events[|events| - 1])
  }

  // ---- intervals against timestamps ----

  /** The times of the switches on one CPU. */
  function Timestamps(events: seq<Event>, cpu: nat): seq<int> {
    if events == [] then []
    else
      var e := events[|events| - 1];
      Timestamps(events[..|events| - 1], cpu) + if e.SwitchedTo? && e.cpu == cpu then [e.time] else []
  }

  /** The strictly positive gaps that follow a positive timestamp. */
  function Intervals(times: seq<int>): seq<nat> {
    if times == [] then [] else Intervals(times[..|times| - 1]) + GapAfter(times[..|times| - 1], times[|times| - 1])
  }

  function GapAfter(times: seq<int>, time: int): seq<nat> {
    if times != [] && 0 < times[|times| - 1] < time then [time - times[|times| - 1]] else []
  }

  lemma IntervalsAppend(times: seq<int>, time: int)
    ensures Intervals(times + [time]) == Intervals(times) + GapAfter(times, time)
  {
    assert (times + [time])[..|times|] == times;
  }

  /** What the CPU holds amounts to exactly the intervals between the given switches. */
  ghost predicate Holds(c: Cpu, times: seq<int>) {
    && IsStatsOf(Merged(c.merged, c.active), Intervals(times))
    && c.switches == |times|
    && c.lastSwitch == if times == [] then 0 else times[|times| - 1]
  }

  lemma SwitchHolds(c: Cpu, times: seq<int>, time: int)
    requires Holds(c, times)
    ensures Holds(SwitchRecorded(c, time), times + [time])
  {
    hide IsStatsOf, Merged, Added, Intervals;
    IntervalsAppend(times, time);
    assert Intervals(times) + [] == Intervals(times);
    var interval := Interval(c, time);
    if interval > 0 {
      MergeAdded(c.merged, c.active, interval);
      AddKeepsStats(Merged(c.merged, c.active), Intervals(times), interval);
    }
  }

  lemma ScrapeHolds(c: Cpu, times: seq<int>)
    requires Holds(c, times)
    ensures Holds(ScrapedCpu(c), times)
  {
    hide IsStatsOf, Merged, Intervals;
    MergeNothing(Merged(c.merged, c.active));
  }

  /**
   Whatever scrapes interleave: merged and active statistics together hold exactly the intervals of
   the CPU's switches.
   */
  lemma {:induction false} CpuStatsExact(numCpus: nat, events: seq<Event>, cpu: nat)
    requires cpu < numCpus
    ensures Holds(After(numCpus, events).cpus[cpu], Timestamps(events, cpu))
  {
    hide Holds, SwitchRecorded, ScrapedCpu;
    if events == [] {
      StartHolds();
    } else {
      var before, e := events[..|events| - 1], events[|events| - 1];
      CpuStatsExact(numCpus, before, cpu);
      var c := After(numCpus, before).cpus[cpu];
      var times := Timestamps(before, cpu);
      assert times + [] == times;
      if e.SwitchedTo? && e.cpu == cpu {
        SwitchHolds(c, times, e.time);
      } else if e.Scraped? {
        ScrapeHolds(c, times);
      }
    }
  }

  lemma StartHolds()
    ensures Holds(Cpu(0, NoStats(), NoStats(), 0), [])
  {
    hide Merged, NoStats, IsStatsOf;
    NothingMerged();
  }

  lemma NothingMerged()
    ensures IsStatsOf(Merged(NoStats(), NoStats()), [])
  {
    MergeNothing(NoStats());
    hide Merged;
  }

  lemma MergeAdded(a: Stats, b: Stats, interval: nat)
    ensures Merged(a, Added(b, interval)) == Added(Merged(a, b), interval)
  {
    hide BucketIndex;
  }

  lemma MergeNothing(st: Stats)
    ensures Merged(st, NoStats()) == st
  {
  }

  /** The timestamps are positive and never go back. */
  predicate Rising(times: seq<int>) {
    && (forall i | 0 <= i < |times| :: 0 < times[i])
    && (forall i | 0 < i < |times| :: times[i - 1] <= times[i])
  }

  function StrictIncreases(times: seq<int>): nat {
    if |times| < 2 then 0
    else StrictIncreases(times[..|times| - 1]) + if times[|times| - 2] < times[|times| - 1] then 1 else 0
  }

  /** One timestamp more adds its distance to the last one, whether or not that makes an interval. */
  lemma GapTelescopes(intervals: seq<nat>, times: seq<int>, time: int)
    requires times != [] && 0 < times[|times| - 1] <= time
    ensures SeqSum(intervals + GapAfter(times, time)) == SeqSum(intervals) + time - times[|times| - 1]
    ensures |intervals + GapAfter(times, time)|
            == |intervals| + if times[|times| - 1] < time then 1 else 0
  {
    var gap := time - times[|times| - 1];
    if gap > 0 {
      assert (intervals + [gap])[..|intervals|] == intervals;
    } else {
      assert intervals + [] == intervals;
    }
  }

  lemma {:induction false} IntervalsTelescope(times: seq<int>)
    requires times != [] && Rising(times)
    ensures SeqSum(Intervals(times)) == times[|times| - 1] - times[0]
    ensures |Intervals(times)| == StrictIncreases(times)
  {
    hide SeqSum, GapAfter;
    if |times| == 1 {
      OneTimestamp(times);
    } else {
      var before, time := times[..|times| - 1], times[|times| - 1];
      assert before[|before| - 1] == times[|times| - 2] && before[0] == times[0];
      IntervalsTelescope(before);
      GapTelescopes(Intervals(before), before, time);
    }
  }

  lemma OneTimestamp(times: seq<int>)
    requires |times| == 1
    ensures Intervals(times) == [] && SeqSum([]) == 0
  {
    assert times[..0] == [];
  }

  /**
   For every CPU with rising timestamps: the sum is last minus first timestamp, the count the number
   of strict increases.
   */
  lemma SwitchTotalsTelescope(numCpus: nat, events: seq<Event>, cpu: nat)
    requires cpu < numCpus && Timestamps(events, cpu) != [] && Rising(Timestamps(events, cpu))
    ensures var c := After(numCpus, events).cpus[cpu];
            var times := Timestamps(events, cpu);
            && c.merged.sum + c.active.sum == times[|times| - 1] - times[0]
            && c.merged.count + c.active.count == StrictIncreases(times)
  {
    CpuStatsExact(numCpus, events, cpu);
    IntervalsTelescope(Timestamps(events, cpu));
  }

  /**
   What a scrape exports for a CPU: cumulative bucket i counts the whole run's intervals of less
   than 2^(i + 1) microseconds.
   */
  lemma ExportedBucketsExact(numCpus: nat, events: seq<Event>, cpu: nat, i: nat)
    requires cpu < numCpus && i < BUCKETS
    ensures var exported := After(numCpus, events + [Scraped]).cpus[cpu].merged;
            var intervals := Intervals(Timestamps(events, cpu));
            && (i < BUCKETS - 1 ==> Prefix(exported.buckets, i + 1) == CountMicrosBelow(intervals, Pow2(i + 1)))
            && Prefix(exported.buckets, BUCKETS) == exported.count == |intervals|
  {
    hide CountMicrosBelow, Prefix, SeqSum, Timestamps, Intervals, CountIn;
    assert (events + [Scraped])[..|events|] == events;
    CpuStatsExact(numCpus, events, cpu);
    var c := After(numCpus, events).cpus[cpu];
    CumulativeExact(Merged(c.merged, c.active), Intervals(Timestamps(events, cpu)), i);
  }

  // ---- thread states ----

  function TransitionsOf(e: Event): seq<(nat, uint8)> {
    match e
    case SwitchedTo(_, _, oldWaitReason) => [(STATE_WAITING, oldWaitReason), (STATE_RUNNING, 0)]
    case ThreadReady => [(STATE_READY, 0)]
    case ThreadCreated => [(STATE_CREATED, 0)]
    case ThreadTerminated => [(STATE_TERMINATED, 0)]
    case Scraped => []
  }

  predicate KnownState(state: nat, waitReason: uint8) {
    state <= STATE_WAITING && if state == STATE_WAITING then waitReason < WAIT_REASONS else waitReason == 0
  }

  /** How often an event makes exactly this transition. */
  function Occurrences(e: Event, state: nat, waitReason: uint8): nat {
    if (state, waitReason) in TransitionsOf(e) then 1 else 0
  }

  function TotalOccurrences(events: seq<Event>, state: nat, waitReason: uint8): nat {
    if events == [] then 0
    else
      TotalOccurrences(events[..|events| - 1], state, waitReason)
      + Occurrences(events[|events| - 1], state, waitReason)
  }

  lemma TransitionCounts(counters: Counters, s: nat, r: uint8, state: nat, waitReason: uint8)
    requires KnownState(state, waitReason) && (KnownState(s, r) || (s == STATE_WAITING && r >= WAIT_REASONS))
    ensures Transition(counters, s, r)[StateIndex(state, waitReason)]
            == counters[StateIndex(state, waitReason)] + if (s, r) == (state, waitReason) then 1 else 0
  {
  }

  /** Each counter counts exactly its own transition: no wait reason runs into another state's counter. */
  lemma {:induction false} StateCountersExact(numCpus: nat, events: seq<Event>, state: nat, waitReason: uint8)
    requires KnownState(state, waitReason)
    ensures After(numCpus, events).stateCounters[StateIndex(state, waitReason)]
            == TotalOccurrences(events, state, waitReason)
  {
    hide Transition;
    if events != [] {
      var before, e := events[..|events| - 1], events[|events| - 1];
      StateCountersExact(numCpus, before, state, waitReason);
      var counters := After(numCpus, before).stateCounters;
      match e {
        case SwitchedTo(_, _, r) =>
          TransitionCounts(counters, STATE_WAITING, r, state, waitReason);
          TransitionCounts(Transition(counters, STATE_WAITING, r), STATE_RUNNING, 0, state, waitReason);
        case ThreadReady => TransitionCounts(counters, STATE_READY, 0, state, waitReason);
        case ThreadCreated => TransitionCounts(counters, STATE_CREATED, 0, state, waitReason);
        case ThreadTerminated => TransitionCounts(counters, STATE_TERMINATED, 0, state, waitReason);
        case Scraped =>
      }
    }
  }

  /** How many events of the run are of a kind. */
  function CountOf(events: seq<Event>, kind: Event -> bool): nat {
    if events == [] then 0
    else CountOf(events[..|events| - 1], kind) + if kind(events[|events| - 1]) then 1 else 0
  }

  lemma {:induction false} CountsAgree(events: seq<Event>, state: nat, waitReason: uint8, kind: Event -> bool)
    requires forall e :: kind(e) <==> (state, waitReason) in TransitionsOf(e)
    ensures TotalOccurrences(events, state, waitReason) == CountOf(events, kind)
  {
    hide TransitionsOf;
    if events != [] {
      CountsAgree(events[..|events| - 1], state, waitReason, kind);
    }
  }

  /**
   The counters by their indices: 0 created, 1 running, 2 ready, 3 terminated, and 40 + r waiting for
   reason r, of which there are 38. A switch counts one thread as running and the other as waiting.
   */
  lemma StateCountersByIndex(numCpus: nat, events: seq<Event>, r: uint8)
    requires r < 38
    ensures var counters := After(numCpus, events).stateCounters;
            && |counters| == 78
            && counters[0] == CountOf(events, (e: Event) => e.ThreadCreated?)
            && counters[1] == CountOf(events, (e: Event) => e.SwitchedTo?)
            && counters[2] == CountOf(events, (e: Event) => e.ThreadReady?)
            && counters[3] == CountOf(events, (e: Event) => e.ThreadTerminated?)
            && counters[40 + r] == CountOf(events, (e: Event) => e.SwitchedTo? && e.oldWaitReason == r)
  {
    hide After, TotalOccurrences, CountOf;
    StateCountersExact(numCpus, events, 0, 0);
    CountsAgree(events, 0, 0, (e: Event) => e.ThreadCreated?);
    StateCountersExact(numCpus, events, 1, 0);
    CountsAgree(events, 1, 0, (e: Event) => e.SwitchedTo?);
    StateCountersExact(numCpus, events, 2, 0);
    CountsAgree(events, 2, 0, (e: Event) => e.ThreadReady?);
    StateCountersExact(numCpus, events, 3, 0);
    CountsAgree(events, 3, 0, (e: Event) => e.ThreadTerminated?);
    StateCountersExact(numCpus, events, 4, r);
    CountsAgree(events, 4, r, (e: Event) => e.SwitchedTo? && e.oldWaitReason == r);
  }

  /**
   What a scrape exports for a CPU, by time: cumulative bucket i counts the gaps of less than
   2^(i + 1) microseconds.
   */
  lemma ExportedBucketsByTime(numCpus: nat, events: seq<Event>, cpu: nat, i: nat)
    requires cpu < numCpus && i < 15
    ensures var exported := After(numCpus, events + [Scraped]).cpus[cpu].merged;
            var gaps := Intervals(Timestamps(events, cpu));
            && |exported.buckets| == 15 && exported.count == |gaps| && exported.sum == SeqSum(gaps)
            && Prefix(exported.buckets, i + 1) == if i < 14 then CountShorter(gaps, 1_000 * Pow2(i + 1)) else |gaps|
  {
    hide SeqSum, Prefix, CountMicrosBelow, CountShorter;
    ExportedBucketsExact(numCpus, events, cpu, i);
    ExportedSum(numCpus, events, cpu);
    if i < 14 {
      MicrosAreShorter(Intervals(Timestamps(events, cpu)), Pow2(i + 1));
    }
  }

  lemma ExportedSum(numCpus: nat, events: seq<Event>, cpu: nat)
    requires cpu < numCpus
    ensures After(numCpus, events + [Scraped]).cpus[cpu].merged.sum == SeqSum(Intervals(Timestamps(events, cpu)))
  {
    hide SeqSum;
    assert (events + [Scraped])[..|events|] == events;
    CpuStatsExact(numCpus, events, cpu);
  }
}
