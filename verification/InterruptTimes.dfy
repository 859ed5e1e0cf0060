/**
 The interrupt metrics against the time stamps of the events: which DPC is pending,
 which ISRs wait, and how many of the run's gaps and spans each exported bucket counts.
 Times are nanoseconds; a bucket's bound is in microseconds, 1000 nanoseconds each.
 */
module InterruptTimes {
  import opened Histograms
  import opened Interrupts
  import opened InterruptAccounts
  import opened InterruptHistograms
  import opened ScrapeClock
  import opened Words

  // ---- what waits ----

  /** Event j is a DPC of the CPU that nothing since has ended or dropped. */
  predicate PendsFrom(events: seq<Event>, cpu: uint16, j: int) {
    && 0 <= j < |events| && events[j].DpcSeen? && events[j].cpu == cpu
    && forall y | j < y < |events| :: !events[y].Collected? && !(!events[y].IsrSeen? && events[y].cpu == cpu)
  }

  lemma PendsStep(before: seq<Event>, e: Event, cpu: uint16, j: int)
    ensures PendsFrom(before + [e], cpu, j)
            <==> if e.DpcSeen? && e.cpu == cpu then j == |before|
                 else PendsFrom(before, cpu, j) && !e.Collected? && !(e.Switched? && e.cpu == cpu)
  {
    var events := before + [e];
    assert events[|before|] == e && forall y | 0 <= y < |before| :: events[y] == before[y];
  }

  lemma PendingStep(perDriver: bool, s: State, e: Event, cpu: uint16)
    ensures Step(perDriver, s, e).active.lastDpcPerCpu.Keys
            == if e.Collected? then {}
               else if e.DpcSeen? then s.active.lastDpcPerCpu.Keys + {e.cpu}
               else if e.Switched? then s.active.lastDpcPerCpu.Keys - {e.cpu}
               else s.active.lastDpcPerCpu.Keys
    ensures cpu in Step(perDriver, s, e).active.lastDpcPerCpu ==>
              Step(perDriver, s, e).active.lastDpcPerCpu[cpu]
              == if e.DpcSeen? && e.cpu == cpu then PendingDpc(e.initialTime, e.routineAddress)
                 else if cpu in s.active.lastDpcPerCpu then s.active.lastDpcPerCpu[cpu] else PendingDpc(0, 0)
  {
    hide Closest, Recorded, CountedAndTimed, SwapRemove, MergedTotals, AgedOut;
    if (e.DpcSeen? || e.Switched?) && e.cpu in s.active.lastDpcPerCpu {
      TimingKeepsPending(perDriver, s.active, e.cpu, s.active.lastDpcPerCpu[e.cpu], e.eventTime, e.resolve);
    }
    if e.IsrSeen? {
      AgeingKeepsPending(Queued(s.active, e.cpu, Isr(e.initialTime, e.routineAddress, e.vector)), e.initialTime);
    }
  }

  lemma TimingKeepsPending(perDriver: bool, b: Buffer, cpu: uint16, dpc: PendingDpc, endTime: int, resolve: Resolver)
    ensures CountedAndTimed(perDriver, b, cpu, dpc, endTime, resolve).lastDpcPerCpu == b.lastDpcPerCpu
  {
  }

  lemma AgeingKeepsPending(b: Buffer, now: int)
    ensures AgedOut(b, now).lastDpcPerCpu == b.lastDpcPerCpu
  {
  }

  /** A DPC is pending if and only if an event of the run says so, with that event's time and routine. */
  lemma {:induction false} PendingExactly(perDriver: bool, events: seq<Event>, cpu: uint16)
    ensures cpu in After(perDriver, events).active.lastDpcPerCpu <==> exists j :: PendsFrom(events, cpu, j)
    ensures forall j | PendsFrom(events, cpu, j) ::
              cpu in After(perDriver, events).active.lastDpcPerCpu
              && After(perDriver, events).active.lastDpcPerCpu[cpu]
                 == PendingDpc(events[j].initialTime, events[j].routineAddress)
  {
    hide Step;
    if events == [] {
      assert NewBuffer().lastDpcPerCpu == map[];
    } else {
      var before, e := events[..|events| - 1], events[|events| - 1];
      assert events == before + [e];
      PendingExactly(perDriver, before, cpu);
      PendingStep(perDriver, After(perDriver, before), e, cpu);
      forall j
        ensures PendsFrom(events, cpu, j)
                <==> if e.DpcSeen? && e.cpu == cpu then j == |before|
                     else PendsFrom(before, cpu, j) && !e.Collected? && !(e.Switched? && e.cpu == cpu)
      {
        PendsStep(before, e, cpu, j);
      }
      if e.DpcSeen? && e.cpu == cpu {
        assert PendsFrom(events, cpu, |before|);
      }
    }
  }

  /** The ISR is one that an event of the run has raised on this CPU. */
  ghost predicate Raised(events: seq<Event>, cpu: uint16, isr: Isr) {
    exists j :: 0 <= j < |events| && Raises(events[j], cpu, isr)
  }

  predicate Raises(e: Event, cpu: uint16, isr: Isr) {
    && e.IsrSeen? && e.cpu == cpu && e.vector == isr.vector && e.initialTime == isr.initialTime
    && e.routineAddress == isr.routineAddress
  }

  lemma CorrelatedWaits(b: Buffer, cpu: uint16, dpcTime: int, c: uint16, isr: Isr)
    requires isr in IsrsOn(Correlated(b, cpu, dpcTime), c)
    ensures isr in IsrsOn(b, c)
  {
    hide Recorded, Closest, SwapRemove, LatencyMicros;
    var i := Closest(IsrsOn(b, cpu), dpcTime);
    if i != -1 {
      SwapRemoveExact(IsrsOn(b, cpu), i);
      assert c == cpu ==> isr in multiset(SwapRemove(IsrsOn(b, cpu), i));
    }
  }

  lemma FinalizedWaits(perDriver: bool, b: Buffer, cpu: uint16, endTime: int, resolve: Resolver, c: uint16, isr: Isr)
    requires isr in IsrsOn(Finalized(perDriver, b, cpu, endTime, resolve), c)
    ensures isr in IsrsOn(b, c)
  {
    hide Correlated, CountedAndTimed;
    if cpu in b.lastDpcPerCpu {
      var dpc := b.lastDpcPerCpu[cpu];
      TimingKeepsIsrs(perDriver, b, cpu, dpc, endTime, resolve);
      CorrelatedWaits(CountedAndTimed(perDriver, b, cpu, dpc, endTime, resolve), cpu, dpc.initialTime, c, isr);
    }
  }

  lemma AgedWaits(b: Buffer, now: int, c: uint16, isr: Isr)
    requires isr in IsrsOn(AgedOut(b, now), c)
    ensures isr in IsrsOn(b, c)
  {
    AgingSplits(IsrsOn(b, c), now);
  }

  lemma WaitingStep(perDriver: bool, s: State, e: Event, cpu: uint16, isr: Isr)
    requires isr in IsrsOn(Step(perDriver, s, e).active, cpu)
    ensures isr in IsrsOn(s.active, cpu) || Raises(e, cpu, isr)
  {
    hide Finalized, AgedOut, MergedTotals;
    if e.IsrSeen? {
      var queued := Queued(s.active, e.cpu, Isr(e.initialTime, e.routineAddress, e.vector));
      if AgesOut(queued) {
        AgedWaits(queued, e.initialTime, cpu, isr);
      }
    } else if !e.Collected? {
      FinalizedWaits(perDriver, s.active, e.cpu, e.eventTime, e.resolve, cpu, isr);
    }
  }

  /** Every ISR that waits was raised on its CPU. */
  lemma {:induction false} WaitingWereRaised(perDriver: bool, events: seq<Event>, cpu: uint16, isr: Isr)
    requires isr in IsrsOn(After(perDriver, events).active, cpu)
    ensures Raised(events, cpu, isr)
  {
    hide Step;
    if events != [] {
      var before, e := events[..|events| - 1], events[|events| - 1];
      WaitingStep(perDriver, After(perDriver, before), e, cpu, isr);
      if isr in IsrsOn(After(perDriver, before).active, cpu) {
        WaitingWereRaised(perDriver, before, cpu, isr);
        var j :| 0 <= j < |before| && Raises(before[j], cpu, isr);
        assert Raises(events[j], cpu, isr);
      } else {
        assert Raises(events[|before|], cpu, isr);
      }
    }
  }

  // ---- matches ----

  /** A match of the run: an ISR and a DPC that events raised on the CPU, the ISR first, by less than an hour. */
  ghost predicate FromRun(events: seq<Event>, m: Match) {
    && Raised(events, m.cpu, m.isr)
    && (exists j ::
          0 <= j < |events| && events[j].DpcSeen? && events[j].cpu == m.cpu && events[j].initialTime == m.dpcTime)
    && 0 <= m.dpcTime - m.isr.initialTime < 3_600_000_000_000
  }

  lemma FromLongerRun(before: seq<Event>, e: Event, m: Match)
    requires FromRun(before, m)
    ensures FromRun(before + [e], m)
  {
    var events := before + [e];
    var i :| 0 <= i < |before| && Raises(before[i], m.cpu, m.isr);
    assert Raises(events[i], m.cpu, m.isr);
    var j :| 0 <= j < |before| && before[j].DpcSeen? && before[j].cpu == m.cpu && before[j].initialTime == m.dpcTime;
    assert events[j] == before[j];
  }

  lemma NewMatchFromRun(perDriver: bool, events: seq<Event>, e: Event, m: Match)
    requires m in NewMatch(After(perDriver, events).active, e)
    ensures FromRun(events, m)
  {
    hide Closest, After;
    var b := After(perDriver, events).active;
    var dpcTime := b.lastDpcPerCpu[e.cpu].initialTime;
    ClosestExact(IsrsOn(b, e.cpu), dpcTime);
    WaitingWereRaised(perDriver, events, e.cpu, m.isr);
    PendingExactly(perDriver, events, e.cpu);
    var j :| PendsFrom(events, e.cpu, j);
    assert events[j].DpcSeen? && events[j].cpu == m.cpu && events[j].initialTime == m.dpcTime;
  }

  /** All matches are of events of the run. */
  lemma {:induction false} MatchesFromRun(perDriver: bool, events: seq<Event>, m: Match)
    requires m in Matches(perDriver, events)
    ensures FromRun(events, m)
  {
    hide NewMatch, FromRun, After;
    if events != [] {
      var before, e := events[..|events| - 1], events[|events| - 1];
      assert events == before + [e];
      if m in Matches(perDriver, before) {
        MatchesFromRun(perDriver, before, m);
      } else {
        NewMatchFromRun(perDriver, before, e, m);
      }
      FromLongerRun(before, e, m);
    }
  }

  // ---- exported latencies by time stamps ----

  /** m is the span in whole microseconds, towards zero. */
  predicate IsMicros(span: int, m: int) {
    if span >= 0 then 1_000 * m <= span < 1_000 * (m + 1) else 1_000 * (m - 1) < span <= 1_000 * m
  }

  lemma LatencyIsMicros(isr: Isr, dpcTime: int)
    ensures IsMicros(dpcTime - isr.initialTime, LatencyMicros(isr, dpcTime))
  {
  }

  lemma DurationIsMicros(dpc: PendingDpc, endTime: int)
    ensures IsMicros(endTime - dpc.initialTime, DurationMicros(dpc, endTime))
  {
  }

  /** Each sample is its span in whole microseconds. */
  ghost predicate AreMicros(spans: seq<int>, samples: seq<int>) {
    |spans| == |samples| && forall i | 0 <= i < |spans| :: IsMicros(spans[i], samples[i])
  }

  function CountShorter(spans: seq<int>, limit: int): nat {
    if spans == [] then 0
    else CountShorter(spans[..|spans| - 1], limit) + if spans[|spans| - 1] < limit then 1 else 0
  }

  /** A sample is within a bound exactly if its span is shorter than the next microsecond. */
  lemma {:induction false} WithinIsShorter(spans: seq<int>, samples: seq<int>, bound: nat)
    requires AreMicros(spans, samples)
    ensures CountAtMost(samples, bound) == CountShorter(spans, 1_000 * (bound + 1))
  {
    if spans != [] {
      WithinIsShorter(spans[..|spans| - 1], samples[..|samples| - 1], bound);
    }
  }

  /** The samples add up to the spans, less than a microsecond lost on each. */
  lemma {:induction false} SumOfMicros(spans: seq<int>, samples: seq<int>)
    requires AreMicros(spans, samples) && forall span | span in spans :: span >= 0
    ensures 1_000 * SeqSum(samples) <= SeqSum(spans) <= 1_000 * SeqSum(samples) + 999 * |spans|
  {
    if spans != [] {
      var n := |spans| - 1;
      assert forall span | span in spans[..n] :: span in spans;
      SumOfMicros(spans[..n], samples[..n]);
      assert spans[n] in spans && IsMicros(spans[n], samples[n]);
    }
  }

  function Gaps(matches: seq<Match>): seq<int> {
    seq(|matches|, i requires 0 <= i < |matches| => matches[i].dpcTime - matches[i].isr.initialTime)
  }

  lemma GapsAreMicros(matches: seq<Match>)
    ensures AreMicros(Gaps(matches), Latencies(matches))
  {
    hide LatencyMicros, IsMicros;
    forall i | 0 <= i < |matches|
      ensures IsMicros(Gaps(matches)[i], Latencies(matches)[i])
    {
      LatencyIsMicros(matches[i].isr, matches[i].dpcTime);
    }
  }

  /**
   At a scrape bucket i is the number of matches of the run whose DPC came less than one microsecond
   beyond its bound after their ISR; the count is that of all matches, and the sum that of their gaps,
   less than a microsecond lost on each.
   */
  lemma ExportedLatencyByTime(perDriver: bool, events: seq<Event>, cleanedImages: set<string>, i: nat)
    requires i < 11
    ensures var exported := After(perDriver, events + [Collected(cleanedImages)]).totals.latency;
            var gaps := Gaps(Matches(perDriver, events));
            var bounds := [1, 5, 25, 125, 625, 3125, 15625, 78125, 390625, 1953125, 9765625];
            && bounds == LATENCY_BOUNDS
            && Cumulative(exported, LATENCY_BOUNDS, i) == CountShorter(gaps, 1_000 * (bounds[i] + 1))
            && exported.count == |gaps|
            && 1_000 * exported.sum <= SeqSum(gaps) <= 1_000 * exported.sum + 999 * |gaps|
  {
    hide After, SeqSum, CountShorter, CountAtMost, Cumulative, AreMicros, Matches;
    var matches := Matches(perDriver, events);
    ExportedLatencyExact(perDriver, events, cleanedImages, i);
    GapsAreMicros(matches);
    WithinIsShorter(Gaps(matches), Latencies(matches), LATENCY_BOUNDS[i]);
    forall span | span in Gaps(matches)
      ensures span >= 0
    {
      var k :| 0 <= k < |matches| && span == Gaps(matches)[k];
      MatchesFromRun(perDriver, events, matches[k]);
    }
    SumOfMicros(Gaps(matches), Latencies(matches));
  }

  // ---- exported durations by time stamps ----

  /**
   The span of the DPC that event e ends, if its routine belongs to the driver: from the DPC's own
   initial time to the time of e.
   */
  ghost function EndedSpan(perDriver: bool, before: seq<Event>, e: Event, name: string): seq<int> {
    if perDriver && name != "unknown" && (e.DpcSeen? || e.Switched?) && exists j :: PendsFrom(before, e.cpu, j) then
      var j :| PendsFrom(before, e.cpu, j);
      if e.resolve(before[j].routineAddress) == name then [e.eventTime - before[j].initialTime] else []
    else []
  }

  /** The spans of a driver's DPCs since the last scrape. */
  ghost function RecentSpans(perDriver: bool, events: seq<Event>, name: string): seq<int> {
    if events == [] then []
    else
      var before, e := events[..|events| - 1], events[|events| - 1];
      if e.Collected? then [] else RecentSpans(perDriver, before, name) + EndedSpan(perDriver, before, e, name)
  }

  /** The spans up to the last scrape, from the last scrape on that pruned the driver. */
  ghost function ScrapedSpans(perDriver: bool, events: seq<Event>, name: string): seq<int> {
    if events == [] then []
    else
      var before, e := events[..|events| - 1], events[|events| - 1];
      if !e.Collected? then ScrapedSpans(perDriver, before, name)
      else if name in e.cleanedImages then []
      else ScrapedSpans(perDriver, before, name) + RecentSpans(perDriver, before, name)
  }

  lemma EndedIsMicros(perDriver: bool, before: seq<Event>, e: Event, name: string)
    ensures AreMicros(EndedSpan(perDriver, before, e, name),
                      NewDuration(perDriver, After(perDriver, before).active, e, name))
  {
    hide After, DurationMicros, IsMicros;
    if e.DpcSeen? || e.Switched? {
      PendingExactly(perDriver, before, e.cpu);
      var b := After(perDriver, before).active;
      if e.cpu in b.lastDpcPerCpu {
        DurationIsMicros(b.lastDpcPerCpu[e.cpu], e.eventTime);
      }
    }
  }

  lemma MicrosConcat(a: seq<int>, b: seq<int>, x: seq<int>, y: seq<int>)
    requires AreMicros(a, x) && AreMicros(b, y)
    ensures AreMicros(a + b, x + y)
  {
    hide IsMicros;
  }

  lemma {:induction false} SpansAreMicros(perDriver: bool, events: seq<Event>, name: string)
    ensures AreMicros(RecentSpans(perDriver, events, name), RecentDurations(perDriver, events, name))
    ensures AreMicros(ScrapedSpans(perDriver, events, name), ScrapedDurations(perDriver, events, name))
  {
    hide After, EndedSpan, NewDuration, AreMicros;
    NoMicros();
    if events != [] {
      var before, e := events[..|events| - 1], events[|events| - 1];
      SpansAreMicros(perDriver, before, name);
      EndedIsMicros(perDriver, before, e, name);
      MicrosConcat(RecentSpans(perDriver, before, name), EndedSpan(perDriver, before, e, name),
                   RecentDurations(perDriver, before, name),
                   NewDuration(perDriver, After(perDriver, before).active, e, name));
      MicrosConcat(ScrapedSpans(perDriver, before, name), RecentSpans(perDriver, before, name),
                   ScrapedDurations(perDriver, before, name), RecentDurations(perDriver, before, name));
    }
  }

  lemma NoMicros()
    ensures AreMicros([], [])
  {
  }

  /**
   At a scrape bucket i of a driver is the number of its DPCs, since a scrape last pruned it, that
   took less than one microsecond beyond the bound from their initial time to the event that ended
   them; and the count is that of all of them.
   */
  lemma ExportedDurationsByTime(perDriver: bool, events: seq<Event>, cleanedImages: set<string>, name: string, i: nat)
    requires i < 12 && name !in cleanedImages
    ensures var exported := HistogramOf(After(perDriver, events + [Collected(cleanedImages)]).totals.durations, name);
            var spans := ScrapedSpans(perDriver, events, name) + RecentSpans(perDriver, events, name);
            var bounds := [1, 5, 25, 125, 625, 3125, 15625, 78125, 390625, 1953125, 9765625, 48828125];
            && bounds == DURATION_BOUNDS
            && Cumulative(exported, DURATION_BOUNDS, i) == CountShorter(spans, 1_000 * (bounds[i] + 1))
            && exported.count == |spans|
  {
    hide After, CountShorter, CountAtMost, Cumulative, AreMicros, HistogramOf, EndedSpan, NewDuration;
    var scraped := events + [Collected(cleanedImages)];
    assert scraped[..|events|] == events;
    DurationHistogramsExact(perDriver, scraped, name);
    SpansAreMicros(perDriver, scraped, name);
    var h := HistogramOf(After(perDriver, scraped).totals.durations, name);
    var samples := ScrapedDurations(perDriver, scraped, name);
    CumulativeExact(h, DURATION_BOUNDS, samples, i);
    WithinIsShorter(ScrapedSpans(perDriver, scraped, name), samples, DURATION_BOUNDS[i]);
    SameLength(ScrapedSpans(perDriver, scraped, name), samples);
  }

  lemma SameLength(spans: seq<int>, samples: seq<int>)
    requires AreMicros(spans, samples)
    ensures |spans| == |samples|
  {
  }
}
