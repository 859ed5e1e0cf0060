/** The exported interrupt histograms are the histograms of exactly the samples taken, across all swaps and merges. */
module InterruptHistograms {
  import opened Histograms
  import opened Interrupts
  import opened InterruptAccounts
  import opened ScrapeClock
  import opened Words

  lemma BoundsIncrease()
    ensures Increasing(LATENCY_BOUNDS) && Increasing(DURATION_BOUNDS)
    ensures |LATENCY_BOUNDS| == 11 && LATENCY_BOUNDS[0] == 1
            && forall i | 0 < i < 11 :: LATENCY_BOUNDS[i] == 5 * LATENCY_BOUNDS[i - 1]
    ensures |DURATION_BOUNDS| == 12 && DURATION_BOUNDS[0] == 1
            && forall i | 0 < i < 12 :: DURATION_BOUNDS[i] == 5 * DURATION_BOUNDS[i - 1]
  {
  }

  lemma EmptyHolds(bounds: seq<nat>)
    ensures IsHistogramOf(EMPTY, bounds, []) && IsHistogramOf(NewBuffer().latency, bounds, [])
  {
    assert forall i | 0 <= i < |bounds| :: At(NewBuffer().latency, bounds[i]) == 0;
  }

  // ---- ISR to DPC latency ----

  function Latencies(matches: seq<Match>): seq<int> {
    seq(|matches|, i requires 0 <= i < |matches| => LatencyMicros(matches[i].isr, matches[i].dpcTime))
  }

  /** How many of the matches lie before the last scrape. */
  ghost function MergedMatches(perDriver: bool, events: seq<Event>): nat {
    if events == [] then 0
    else if events[|events| - 1].Collected? then |Matches(perDriver, events)|
    else MergedMatches(perDriver, events[..|events| - 1])
  }

  lemma LatencyStep(perDriver: bool, s: State, e: Event, samples: seq<int>)
    requires IsHistogramOf(s.active.latency, LATENCY_BOUNDS, samples) && !e.Collected?
    ensures IsHistogramOf(Step(perDriver, s, e).active.latency, LATENCY_BOUNDS,
                          samples + Latencies(NewMatch(s.active, e)))
    ensures Step(perDriver, s, e).totals == s.totals
  {
    hide IsHistogramOf, Recorded, CountedAndTimed, SwapRemove, Closest;
    BoundsIncrease();
    assert samples + Latencies([]) == samples;
    if !e.IsrSeen? && Ends(s.active, e, e.cpu) {
      var dpcTime := s.active.lastDpcPerCpu[e.cpu].initialTime;
      var isrs := IsrsOn(s.active, e.cpu);
      var i := Closest(isrs, dpcTime);
      TimingKeepsIsrs(perDriver, s.active, e.cpu, s.active.lastDpcPerCpu[e.cpu], e.eventTime, e.resolve);
      if i != -1 {
        RecordHolds(s.active.latency, LATENCY_BOUNDS, samples, LatencyMicros(isrs[i], dpcTime));
        assert Latencies(NewMatch(s.active, e)) == [LatencyMicros(isrs[i], dpcTime)];
      }
    }
  }

  lemma TimingKeepsIsrs(perDriver: bool, b: Buffer, cpu: uint16, dpc: PendingDpc, endTime: int, resolve: Resolver)
    ensures var b' := CountedAndTimed(perDriver, b, cpu, dpc, endTime, resolve);
            b'.latency == b.latency && b'.pendingIsrs == b.pendingIsrs
  {
    hide Recorded, DurationMicros, HistogramOf;
  }

  /** The totals hold the matches up to the last scrape, the active buffer those since. */
  lemma {:induction false} LatencyHistogramsExact(perDriver: bool, events: seq<Event>)
    ensures var k := MergedMatches(perDriver, events);
            var all := Latencies(Matches(perDriver, events));
            && k <= |all|
            && IsHistogramOf(After(perDriver, events).totals.latency, LATENCY_BOUNDS, all[..k])
            && IsHistogramOf(After(perDriver, events).active.latency, LATENCY_BOUNDS, all[k..])
  {
    hide IsHistogramOf, Step, NewMatch;
    EmptyHolds(LATENCY_BOUNDS);
    if events != [] {
      var before, e := events[..|events| - 1], events[|events| - 1];
      LatencyHistogramsExact(perDriver, before);
      var s := After(perDriver, before);
      var matches, more := Matches(perDriver, before), NewMatch(s.active, e);
      var k := MergedMatches(perDriver, before);
      assert Latencies(matches + more) == Latencies(matches) + Latencies(more);
      OnlyEndsMatch(s.active, e);
      if e.Collected? {
        CollectedLatency(perDriver, s, e, Latencies(matches)[..k], Latencies(matches)[k..]);
        assert Latencies(matches)[..k] + Latencies(matches)[k..] == Latencies(matches);
        assert Latencies(matches + more)[|matches|..] == []
               && Latencies(matches + more)[..|matches|] == Latencies(matches);
      } else {
        LatencyStep(perDriver, s, e, Latencies(matches)[k..]);
        assert Latencies(matches + more)[k..] == Latencies(matches)[k..] + Latencies(more);
        assert Latencies(matches + more)[..k] == Latencies(matches)[..k];
      }
    } else {
      assert Latencies([]) == [] && Latencies([])[..0] == [] && Latencies([])[0..] == [];
    }
  }

  lemma CollectedLatency(perDriver: bool, s: State, e: Event, merged: seq<int>, active: seq<int>)
    requires e.Collected? && IsHistogramOf(s.totals.latency, LATENCY_BOUNDS, merged)
             && IsHistogramOf(s.active.latency, LATENCY_BOUNDS, active)
    ensures IsHistogramOf(Step(perDriver, s, e).totals.latency, LATENCY_BOUNDS, merged + active)
    ensures IsHistogramOf(Step(perDriver, s, e).active.latency, LATENCY_BOUNDS, [])
  {
    MergeHolds(s.totals.latency, s.active.latency, LATENCY_BOUNDS, merged, active);
    EmptyHolds(LATENCY_BOUNDS);
  }

  /**
   At a scrape the exported count of a bucket is the number of matches of the whole run with a
   latency up to its bound.
   */
  lemma ExportedLatencyExact(perDriver: bool, events: seq<Event>, cleanedImages: set<string>, i: nat)
    requires i < |LATENCY_BOUNDS|
    ensures var exported := After(perDriver, events + [Collected(cleanedImages)]).totals.latency;
            var all := Latencies(Matches(perDriver, events));
            && Cumulative(exported, LATENCY_BOUNDS, i) == CountAtMost(all, LATENCY_BOUNDS[i])
            && exported.count == |Matches(perDriver, events)| && exported.sum == SeqSum(all)
  {
    var scraped := events + [Collected(cleanedImages)];
    hide Step;
    LatencyHistogramsExact(perDriver, scraped);
    assert scraped[..|events|] == events;
    OnlyEndsMatch(After(perDriver, events).active, Collected(cleanedImages));
    var all := Latencies(Matches(perDriver, events));
    assert Matches(perDriver, scraped) == Matches(perDriver, events);
    assert all[..|all|] == all;
    CumulativeExact(After(perDriver, scraped).totals.latency, LATENCY_BOUNDS, all, i);
  }

  // ---- DPC durations by driver ----

  /** The duration that event e adds for a driver, if it adds one. */
  function NewDuration(perDriver: bool, b: Buffer, e: Event, name: string): seq<int> {
    if perDriver && name != "unknown" && (e.DpcSeen? || e.Switched?) && Ends(b, e, e.cpu)
       && e.resolve(b.lastDpcPerCpu[e.cpu].routineAddress) == name
    then [DurationMicros(b.lastDpcPerCpu[e.cpu], e.eventTime)]
    else []
  }

  /** The durations of a driver's DPCs since the last scrape. */
  ghost function RecentDurations(perDriver: bool, events: seq<Event>, name: string): seq<int> {
    if events == [] then []
    else
      var before, e := events[..|events| - 1], events[|events| - 1];
      if e.Collected? then []
      else RecentDurations(perDriver, before, name) + NewDuration(perDriver, After(perDriver, before).active, e, name)
  }

  /** The durations up to the last scrape, from the last scrape on that found an image of that name marked. */
  ghost function ScrapedDurations(perDriver: bool, events: seq<Event>, name: string): seq<int> {
    if events == [] then []
    else
      var before, e := events[..|events| - 1], events[|events| - 1];
      if !e.Collected? then ScrapedDurations(perDriver, before, name)
      else if name in e.cleanedImages then []
      else ScrapedDurations(perDriver, before, name) + RecentDurations(perDriver, before, name)
  }

  lemma DurationStep(perDriver: bool, s: State, e: Event, name: string, samples: seq<int>)
    requires IsHistogramOf(HistogramOf(s.active.durations, name), DURATION_BOUNDS, samples) && !e.Collected?
    ensures var s' := Step(perDriver, s, e);
            && IsHistogramOf(HistogramOf(s'.active.durations, name), DURATION_BOUNDS,
                             samples + NewDuration(perDriver, s.active, e, name))
            && s'.totals == s.totals
  {
    hide IsHistogramOf, Recorded, Correlated, DurationMicros;
    BoundsIncrease();
    assert samples + [] == samples;
    if !e.IsrSeen? && Ends(s.active, e, e.cpu) {
      var dpc := s.active.lastDpcPerCpu[e.cpu];
      CorrelateKeepsDurations(CountedAndTimed(perDriver, s.active, e.cpu, dpc, e.eventTime, e.resolve), e.cpu,
                              dpc.initialTime);
      RecordHolds(HistogramOf(s.active.durations, name), DURATION_BOUNDS, samples,
                  DurationMicros(dpc, e.eventTime));
    }
  }

  lemma CorrelateKeepsDurations(b: Buffer, cpu: uint16, dpcTime: int)
    ensures Correlated(b, cpu, dpcTime).durations == b.durations
  {
    hide Recorded, SwapRemove, Closest;
  }

  lemma CollectedDurations(perDriver: bool, s: State, e: Event, name: string, merged: seq<int>, active: seq<int>)
    requires e.Collected?
    requires IsHistogramOf(HistogramOf(s.totals.durations, name), DURATION_BOUNDS, merged)
    requires IsHistogramOf(HistogramOf(s.active.durations, name), DURATION_BOUNDS, active)
    ensures var s' := Step(perDriver, s, e);
            && IsHistogramOf(HistogramOf(s'.totals.durations, name), DURATION_BOUNDS,
                             if name in e.cleanedImages then [] else merged + active)
            && IsHistogramOf(HistogramOf(s'.active.durations, name), DURATION_BOUNDS, [])
  {
    EmptyHolds(DURATION_BOUNDS);
    var totals, more := s.totals.durations, s.active.durations;
    if name in totals || name in more {
      MergeHolds(HistogramOf(totals, name), HistogramOf(more, name), DURATION_BOUNDS, merged, active);
    }
  }

  /**
   Each driver's histogram holds exactly the durations of its DPCs since a scrape last found an image
   of its name marked.
   */
  lemma {:induction false} DurationHistogramsExact(perDriver: bool, events: seq<Event>, name: string)
    ensures var s := After(perDriver, events);
            && IsHistogramOf(HistogramOf(s.totals.durations, name), DURATION_BOUNDS,
                             ScrapedDurations(perDriver, events, name))
            && IsHistogramOf(HistogramOf(s.active.durations, name), DURATION_BOUNDS,
                             RecentDurations(perDriver, events, name))
  {
    hide IsHistogramOf, Step, NewDuration, HistogramOf;
    if events == [] {
      NoDurations(name);
    } else {
      var before, e := events[..|events| - 1], events[|events| - 1];
      DurationHistogramsExact(perDriver, before, name);
      var s := After(perDriver, before);
      if e.Collected? {
        CollectedDurations(perDriver, s, e, name, ScrapedDurations(perDriver, before, name),
                           RecentDurations(perDriver, before, name));
      } else {
        DurationStep(perDriver, s, e, name, RecentDurations(perDriver, before, name));
      }
    }
  }

  lemma NoDurations(name: string)
    ensures IsHistogramOf(HistogramOf(Init().totals.durations, name), DURATION_BOUNDS, [])
    ensures IsHistogramOf(HistogramOf(Init().active.durations, name), DURATION_BOUNDS, [])
  {
    EmptyHolds(DURATION_BOUNDS);
  }
}
