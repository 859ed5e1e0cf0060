/**
 Every ISR and every DPC is accounted for, on each CPU and over every run of
 events with scrapes in between; and the exported histograms are exact.
 */
module InterruptAccounts {
  import opened Histograms
  import opened Interrupts
  import opened Tallies
  import opened Words

  datatype Match = Match(cpu: uint16, isr: Isr, dpcTime: int)

  predicate Ends(b: Buffer, e: Event, cpu: uint16) {
    (e.DpcSeen? || e.Switched?) && e.cpu == cpu && cpu in b.lastDpcPerCpu
  }

  /** The match that event e makes, if it makes one. */
  function NewMatch(b: Buffer, e: Event): seq<Match> {
    if (e.DpcSeen? || e.Switched?) && Ends(b, e, e.cpu) then
      var dpcTime := b.lastDpcPerCpu[e.cpu].initialTime;
      var i := Closest(IsrsOn(b, e.cpu), dpcTime);
      if i == -1 then [] else [Match(e.cpu, IsrsOn(b, e.cpu)[i], dpcTime)]
    else []
  }

  function CountOn(matches: seq<Match>, cpu: uint16): nat {
    if matches == [] then 0
    else CountOn(matches[..|matches| - 1], cpu) + if matches[|matches| - 1].cpu == cpu then 1 else 0
  }

  lemma {:induction false} CountOnSplits(a: seq<Match>, b: seq<Match>, cpu: uint16)
    ensures CountOn(a + b, cpu) == CountOn(a, cpu) + CountOn(b, cpu)
  {
    if b == [] {
      assert a + b == a;
    } else {
      CountOnSplits(a, b[..|b| - 1], cpu);
      assert (a + b)[..|a + b| - 1] == a + b[..|b| - 1];
    }
  }

  /** All the matches of a run, in order. */
  ghost function Matches(perDriver: bool, events: seq<Event>): seq<Match> {
    if events == [] then []
    else
      var before := events[..|events| - 1];
      Matches(perDriver, before) + NewMatch(After(perDriver, before).active, events[|events| - 1])
  }

  // ---- one CPU's ledger ----

  /** What happened on one CPU; `scrapes` counts the buffer swaps. */
  datatype Ledger = Ledger(isrs: nat, dpcs: nat, matched: nat, aged: nat, isrsDropped: nat, dpcsDropped: nat,
                           scrapes: nat)

  function LedgerStep(l: Ledger, b: Buffer, e: Event, cpu: uint16): Ledger {
    match e
    case IsrSeen(c, vector, initialTime, routineAddress) =>
      var queued := Queued(b, c, Isr(initialTime, routineAddress, vector));
      l.(isrs := l.isrs + (if c == cpu then 1 else 0),
         aged := l.aged + (if AgesOut(queued) then CountOld(IsrsOn(queued, cpu), initialTime) else 0))
    case DpcSeen(c, _, _, _, _) =>
      l.(dpcs := l.dpcs + (if c == cpu then 1 else 0), matched := l.matched + CountOn(NewMatch(b, e), cpu))
    case Switched(_, _, _) => l.(matched := l.matched + CountOn(NewMatch(b, e), cpu))
    case Collected(_) =>
      l.(isrsDropped := l.isrsDropped + |IsrsOn(b, cpu)|,
         dpcsDropped := l.dpcsDropped + (if cpu in b.lastDpcPerCpu then 1 else 0),
         scrapes := l.scrapes + 1)
  }

  ghost function LedgerAfter(perDriver: bool, events: seq<Event>, cpu: uint16): Ledger {
    if events == [] then Ledger(0, 0, 0, 0, 0, 0, 0)
    else
      var before := events[..|events| - 1];
      LedgerStep(LedgerAfter(perDriver, before, cpu), After(perDriver, before).active, events[|events| - 1], cpu)
  }

  function ExecutedOn(s: State, cpu: uint16): nat {
    CountAt(s.totals.executed, cpu) + CountAt(s.active.executed, cpu)
  }

  function QueuedOn(s: State, cpu: uint16): nat {
    CountAt(s.totals.queued, cpu) + CountAt(s.active.queued, cpu)
  }

  ghost predicate Balanced(s: State, l: Ledger, cpu: uint16) {
    && l.dpcs == ExecutedOn(s, cpu) + (if cpu in s.active.lastDpcPerCpu then 1 else 0) + l.dpcsDropped
    && l.dpcsDropped <= l.scrapes
    && l.isrs == QueuedOn(s, cpu)
    && l.isrs == l.matched + |IsrsOn(s.active, cpu)| + l.aged + l.isrsDropped
    && l.matched <= ExecutedOn(s, cpu)
  }

  lemma IsrBalances(perDriver: bool, s: State, l: Ledger, e: Event, cpu: uint16)
    requires Balanced(s, l, cpu) && e.IsrSeen?
    ensures Balanced(Step(perDriver, s, e), LedgerStep(l, s.active, e, cpu), cpu)
  {
    var queued := Queued(s.active, e.cpu, Isr(e.initialTime, e.routineAddress, e.vector));
    AgingSplits(IsrsOn(queued, cpu), e.initialTime);
  }

  lemma CorrelateCounts(b: Buffer, cpu: uint16, dpcTime: int, c: uint16)
    ensures var b' := Correlated(b, cpu, dpcTime);
            && b'.executed == b.executed && b'.queued == b.queued && b'.lastDpcPerCpu == b.lastDpcPerCpu
            && |IsrsOn(b', c)| == |IsrsOn(b, c)| - if c == cpu && Closest(IsrsOn(b, cpu), dpcTime) != -1 then 1 else 0
  {
    hide Recorded, Closest, LatencyMicros;
  }

  /** Ending a DPC on one CPU: that CPU's counts move by at most one, all others stay. */
  lemma FinalizeCounts(perDriver: bool, b: Buffer, e: Event, endTime: int, resolve: Resolver, cpu: uint16)
    requires e.DpcSeen? || e.Switched?
    ensures var b' := Finalized(perDriver, b, e.cpu, endTime, resolve);
            && CountAt(b'.executed, cpu) == CountAt(b.executed, cpu) + (if Ends(b, e, cpu) then 1 else 0)
            && b'.queued == b.queued
            && |IsrsOn(b', cpu)| + CountOn(NewMatch(b, e), cpu) == |IsrsOn(b, cpu)|
            && CountOn(NewMatch(b, e), cpu) <= (if Ends(b, e, cpu) then 1 else 0)
            && (cpu in b'.lastDpcPerCpu <==> cpu in b.lastDpcPerCpu && cpu != e.cpu)
  {
    NewMatchCounts(b, e, cpu);
    hide Closest, Correlated, CountedAndTimed, NewMatch, CountOn;
    OneMoreCount(b.executed, e.cpu, cpu);
    hide CountAt;
    if e.cpu in b.lastDpcPerCpu {
      var dpc := b.lastDpcPerCpu[e.cpu];
      TimingKeepsCounts(perDriver, b, e.cpu, dpc, endTime, resolve);
      CorrelateCounts(CountedAndTimed(perDriver, b, e.cpu, dpc, endTime, resolve), e.cpu, dpc.initialTime, cpu);
    }
  }

  lemma OneMoreCount(counts: map<uint16, nat>, k: uint16, j: uint16)
    ensures CountAt(counts[k := CountAt(counts, k) + 1], j) == CountAt(counts, j) + if j == k then 1 else 0
  {
  }

  lemma NewMatchCounts(b: Buffer, e: Event, cpu: uint16)
    requires e.DpcSeen? || e.Switched?
    ensures CountOn(NewMatch(b, e), cpu)
            == if Ends(b, e, cpu) && Closest(IsrsOn(b, cpu), b.lastDpcPerCpu[cpu].initialTime) != -1 then 1 else 0
  {
    hide Closest;
  }

  lemma TimingKeepsCounts(perDriver: bool, b: Buffer, cpu: uint16, dpc: PendingDpc, endTime: int, resolve: Resolver)
    ensures var b' := CountedAndTimed(perDriver, b, cpu, dpc, endTime, resolve);
            && b'.executed == b.executed[cpu := CountAt(b.executed, cpu) + 1]
            && b'.queued == b.queued && b'.pendingIsrs == b.pendingIsrs && b'.lastDpcPerCpu == b.lastDpcPerCpu
  {
    hide Recorded, DurationMicros, HistogramOf;
  }

  lemma DpcBalances(perDriver: bool, s: State, l: Ledger, e: Event, cpu: uint16)
    requires Balanced(s, l, cpu) && (e.DpcSeen? || e.Switched?)
    ensures Balanced(Step(perDriver, s, e), LedgerStep(l, s.active, e, cpu), cpu)
  {
    hide Finalized, NewMatch;
    FinalizeCounts(perDriver, s.active, e, e.eventTime, e.resolve, cpu);
  }

  lemma CollectBalances(perDriver: bool, s: State, l: Ledger, e: Event, cpu: uint16)
    requires Balanced(s, l, cpu) && e.Collected?
    ensures Balanced(Step(perDriver, s, e), LedgerStep(l, s.active, e, cpu), cpu)
  {
    hide Merged, MergedDurations;
  }

  /**
   At every point of every run, on every CPU: DPC events are executed, pending, or were pending
   at a swap, at most one at each; ISR events are queued, and are matched, pending, aged out, or
   were pending at a swap; and no more ISRs are matched than DPCs executed.
   */
  lemma {:induction false} EveryInterruptAccounted(perDriver: bool, events: seq<Event>, cpu: uint16)
    ensures Balanced(After(perDriver, events), LedgerAfter(perDriver, events, cpu), cpu)
    ensures LedgerAfter(perDriver, events, cpu).matched == CountOn(Matches(perDriver, events), cpu)
  {
    hide Step, NewMatch;
    if events != [] {
      var before, e := events[..|events| - 1], events[|events| - 1];
      var s, l := After(perDriver, before), LedgerAfter(perDriver, before, cpu);
      EveryInterruptAccounted(perDriver, before, cpu);
      CountOnSplits(Matches(perDriver, before), NewMatch(s.active, e), cpu);
      OnlyEndsMatch(s.active, e);
      match e {
        case IsrSeen(_, _, _, _) => IsrBalances(perDriver, s, l, e, cpu);
        case DpcSeen(_, _, _, _, _) => DpcBalances(perDriver, s, l, e, cpu);
        case Switched(_, _, _) => DpcBalances(perDriver, s, l, e, cpu);
        case Collected(_) => CollectBalances(perDriver, s, l, e, cpu);
      }
    }
  }

  lemma OnlyEndsMatch(b: Buffer, e: Event)
    ensures e.IsrSeen? || e.Collected? ==> NewMatch(b, e) == []
  {
  }

  /** The ISR came before the DPC, by less than an hour. */
  predicate InTime(isr: Isr, dpcTime: int) {
    0 <= dpcTime - isr.initialTime < 3_600_000_000_000
  }

  /**
   The ISR that a match consumes was pending on the DPC's own CPU, came less than an hour before
   the DPC and is the closest such; exactly that one is taken off the list.
   */
  lemma MatchTakesClosest(perDriver: bool, b: Buffer, cpu: uint16, endTime: int, resolve: Resolver)
    requires cpu in b.lastDpcPerCpu
    ensures var e := Switched(cpu, endTime, resolve);
            var isrs := IsrsOn(b, cpu);
            var dpcTime := b.lastDpcPerCpu[cpu].initialTime;
            var b' := Finalized(perDriver, b, cpu, endTime, resolve);
            && (NewMatch(b, e) == [] <==> forall isr | isr in isrs :: !InTime(isr, dpcTime))
            && (NewMatch(b, e) == [] ==> b'.pendingIsrs == b.pendingIsrs && b'.latency == b.latency)
            && (NewMatch(b, e) != [] ==>
                  var m := NewMatch(b, e)[0];
                  && m.isr in isrs && InTime(m.isr, dpcTime) && m.dpcTime == dpcTime && m.cpu == cpu
                  && (forall isr | isr in isrs && InTime(isr, dpcTime) ::
                        dpcTime - m.isr.initialTime <= dpcTime - isr.initialTime)
                  && multiset(IsrsOn(b', cpu)) == multiset(isrs) - multiset{m.isr}
                  && (forall c | c != cpu :: IsrsOn(b', c) == IsrsOn(b, c)))
  {
    hide Recorded, SwapRemove;
    var isrs := IsrsOn(b, cpu);
    var dpcTime := b.lastDpcPerCpu[cpu].initialTime;
    ClosestExact(isrs, dpcTime);
    assert forall isr :: InTime(isr, dpcTime) <==> Eligible(isr, dpcTime);
    var i := Closest(isrs, dpcTime);
    if i != -1 {
      SwapRemoveExact(isrs, i);
    }
  }
}
