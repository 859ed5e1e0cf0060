/** The thread collector and its handler as objects: per-CPU statistics, swapped and merged at each scrape. */
module ThreadCollectors {
  import Counters
  import KernelState
  import Charging
  import Lifecycle
  import LifecycleRuns
  import opened SwitchIntervals
  import opened SwitchRuns
  import opened Words

  class IntervalStats {
    var count: nat
    var sum: nat
    var buckets: Buckets

    ghost function View(): Stats
      reads this
    {
      Stats(count, sum, buckets)
    }

    constructor ()
      ensures View() == NoStats()
    {
      count, sum, buckets := 0, 0, NoStats().buckets;
    }

    method Reset()
      modifies this
      ensures View() == NoStats()
    {
      count, sum := 0, 0;
      for i := 0 to BUCKETS
        invariant count == 0 && sum == 0
        invariant forall j | 0 <= j < i :: buckets[j] == 0
      {
        buckets := buckets[i := 0];
      }
      assert buckets == NoStats().buckets;
    }

    method RecordInterval(interval: nat)
      modifies this
      ensures View() == Added(old(View()), interval)
    {
      count := count + 1;
      sum := sum + interval;
      var intervalUs := interval / MICROSECOND;
      var idx := 0;
      if intervalUs > 0 {
        idx := BitLength(intervalUs) - 1;
      }
      if idx < |buckets| {
        buckets := buckets[idx := buckets[idx] + 1];
      } else {
        buckets := buckets[|buckets| - 1 := buckets[|buckets| - 1] + 1];
      }
    }

    /** Adds the other's counts to these. */
    method Absorb(other: IntervalStats)
      requires other != this
      modifies this
      ensures View() == Merged(old(View()), other.View())
    {
      count := count + other.count;
      sum := sum + other.sum;
      for i := 0 to BUCKETS
        invariant count == old(count) + other.count && sum == old(sum) + other.sum
        invariant forall j | 0 <= j < i :: buckets[j] == old(buckets)[j] + other.buckets[j]
        invariant forall j | i <= j < BUCKETS :: buckets[j] == old(buckets)[j]
      {
        buckets := buckets[i := buckets[i] + other.buckets[i]];
      }
      assert buckets == Merged(old(View()), other.View()).buckets;
    }
  }

  ghost predicate Distinct(s: seq<IntervalStats>) {
    forall i, j | 0 <= i < j < |s| :: s[i] != s[j]
  }

  ghost function Elements(s: seq<IntervalStats>): set<IntervalStats> {
    set st | st in s
  }

  /** What the collector holds for one CPU. */
  datatype Slot = Slot(active: Stats, merged: Stats, switches: nat)

  function SlotRecorded(slot: Slot, interval: int): Slot {
    Slot(if interval > 0 then Added(slot.active, interval) else slot.active, slot.merged, slot.switches + 1)
  }

  function SlotScraped(slot: Slot): Slot {
    Slot(NoStats(), Merged(slot.merged, slot.active), slot.switches)
  }

  lemma AppendDistinct(a: seq<IntervalStats>, b: seq<IntervalStats>)
    requires Distinct(a) && Distinct(b) && Elements(a) !! Elements(b)
    ensures Distinct(a + b)
  {
    forall i, j | 0 <= i < j < |a + b|
      ensures (a + b)[i] != (a + b)[j]
    {
      assert i < |a| ==> a[i] in Elements(a);
      assert |a| <= j ==> b[j - |a|] in Elements(b);
    }
  }

  lemma SwapKeepsDistinct(a: seq<IntervalStats>, c: seq<IntervalStats>, held: seq<IntervalStats>, cpu: nat,
                          st: IntervalStats)
    requires cpu < |a| && Distinct(a + c + held) && st !in a + c + held
    ensures Distinct(a[cpu := st] + c + (held + [a[cpu]]))
    ensures forall x :: x in a[cpu := st] + c + (held + [a[cpu]]) <==> x in a + c + held || x == st
  {
    var before, after := a + c + held, a[cpu := st] + c + (held + [a[cpu]]);
    assert |after| == |before| + 1;
    assert forall i | 0 <= i < |before| :: i != cpu ==> after[i] == before[i];
    assert after[cpu] == st && after[|before|] == a[cpu] && before[cpu] == a[cpu];
    forall i | 0 <= i < |before|
      ensures before[i] != st
    {
      assert before[i] in before;
    }
    forall x
      ensures x in after <==> x in before || x == st
    {
      if x in before {
        var i :| 0 <= i < |before| && before[i] == x;
        assert i == cpu || after[i] == x;
        assert x == after[|before|] || x in after;
      }
    }
  }

  lemma ReleaseKeepsDistinct(u: seq<IntervalStats>, held: seq<IntervalStats>)
    requires held != [] && Distinct(u + held)
    ensures Distinct(u + held[1..]) && held[0] !in u + held[1..] && held[0] in u + held
    ensures forall x | x in u + held[1..] :: x in u + held
  {
    var before, after := u + held, u + held[1..];
    assert before[|u|] == held[0];
    assert forall i | 0 <= i < |after| :: after[i] == before[if i < |u| then i else i + 1];
  }

  class ThreadCollector {
    const contextSwitchesPerCpu: array<nat>
    const contextSwitchIntervals: array<IntervalStats>
    const cumulativeIntervals: array<IntervalStats>
    const threadStateCounters: array<nat>
    var intervalStatsPool: multiset<IntervalStats>
    ghost var stats: set<IntervalStats>

    ghost function InUse(held: seq<IntervalStats>): seq<IntervalStats>
      reads contextSwitchIntervals, cumulativeIntervals
    {
      contextSwitchIntervals[..] + cumulativeIntervals[..] + held
    }

    /** The active, cumulative, pooled and currently held statistics are all different objects. */
    ghost predicate ValidWith(held: seq<IntervalStats>)
      reads this, contextSwitchIntervals, cumulativeIntervals
    {
      var n := contextSwitchesPerCpu.Length;
      && contextSwitchIntervals.Length == n && cumulativeIntervals.Length == n
      && threadStateCounters.Length == STATE_COUNTERS
      && contextSwitchIntervals != cumulativeIntervals && contextSwitchesPerCpu != threadStateCounters
      && (forall st | st in InUse(held) :: st in stats)
      && Distinct(InUse(held))
      && (forall st | st in intervalStatsPool :: st in stats && intervalStatsPool[st] == 1 && st !in InUse(held))
    }

    ghost predicate Valid()
      reads this, contextSwitchIntervals, cumulativeIntervals
    {
      ValidWith([])
    }

    ghost function View(): (slots: seq<Slot>)
      reads this, contextSwitchIntervals, cumulativeIntervals, contextSwitchesPerCpu, stats
      requires Valid()
      ensures |slots| == contextSwitchesPerCpu.Length
    {
      seq(contextSwitchesPerCpu.Length, i requires 0 <= i < contextSwitchesPerCpu.Length && Valid()
        reads this, contextSwitchIntervals, cumulativeIntervals, contextSwitchesPerCpu, stats =>
          Slot(contextSwitchIntervals[i].View(), cumulativeIntervals[i].View(), contextSwitchesPerCpu[i]))
    }

    constructor (numCpu: nat)
      ensures Valid() && |View()| == numCpu && forall i | 0 <= i < numCpu :: View()[i] == Slot(NoStats(), NoStats(), 0)
      ensures threadStateCounters[..] == seq(STATE_COUNTERS, _ => 0)
      ensures fresh(contextSwitchesPerCpu) && fresh(contextSwitchIntervals) && fresh(cumulativeIntervals)
      ensures fresh(threadStateCounters) && fresh(stats)
    {
      contextSwitchesPerCpu := new nat[numCpu](_ => 0);
      threadStateCounters := new nat[STATE_COUNTERS](_ => 0);
      intervalStatsPool := multiset{};
      var active := NewStatsList(numCpu);
      var cumulative := NewStatsList(numCpu);
      contextSwitchIntervals := new IntervalStats[numCpu](i requires 0 <= i < |active| => active[i]);
      cumulativeIntervals := new IntervalStats[numCpu](i requires 0 <= i < |cumulative| => cumulative[i]);
      stats := Elements(active) + Elements(cumulative);
      new;
      assert contextSwitchIntervals[..] == active && cumulativeIntervals[..] == cumulative;
      AppendDistinct(active, cumulative);
      assert InUse([]) == active + cumulative;
    }

    static method NewStatsList(n: nat) returns (list: seq<IntervalStats>)
      ensures |list| == n && Distinct(list) && fresh(Elements(list))
      ensures forall st | st in list :: fresh(st) && st.View() == NoStats()
    {
      list := [];
      for i := 0 to n
        invariant |list| == i && Distinct(list) && fresh(Elements(list))
        invariant forall st | st in list :: fresh(st) && st.View() == NoStats()
      {
        var st := new IntervalStats();
        assert Elements(list + [st]) == Elements(list) + {st};
        list := list + [st];
      }
    }

    lemma SlotInUse(cpu: nat, held: seq<IntervalStats>)
      requires ValidWith(held) && cpu < contextSwitchesPerCpu.Length
      ensures contextSwitchIntervals[cpu] in InUse(held) && cumulativeIntervals[cpu] in InUse(held)
      ensures forall i | 0 <= i < contextSwitchesPerCpu.Length ::
                && contextSwitchIntervals[cpu] != cumulativeIntervals[i]
                && contextSwitchIntervals[i] != cumulativeIntervals[cpu]
                && (i != cpu ==> contextSwitchIntervals[cpu] != contextSwitchIntervals[i])
                && (i != cpu ==> cumulativeIntervals[cpu] != cumulativeIntervals[i])
    {
      var n := contextSwitchesPerCpu.Length;
      var inUse := InUse(held);
      assert inUse[cpu] == contextSwitchIntervals[cpu] && inUse[n + cpu] == cumulativeIntervals[cpu];
      forall i | 0 <= i < n
        ensures contextSwitchIntervals[cpu] != cumulativeIntervals[i]
                && contextSwitchIntervals[i] != cumulativeIntervals[cpu]
        ensures i != cpu ==> contextSwitchIntervals[cpu] != contextSwitchIntervals[i]
        ensures i != cpu ==> cumulativeIntervals[cpu] != cumulativeIntervals[i]
      {
        assert inUse[i] == contextSwitchIntervals[i] && inUse[n + i] == cumulativeIntervals[i];
      }
    }

    // ---- recording ----

    method RecordInterval(cpu: nat, interval: nat)
      requires Valid() && cpu < contextSwitchesPerCpu.Length
      modifies contextSwitchIntervals[cpu]
      ensures Valid()
      ensures View() == old(View())[cpu := old(View())[cpu].(active := Added(old(View())[cpu].active, interval))]
    {
      SlotInUse(cpu, []);
      var st := contextSwitchIntervals[cpu];
      st.RecordInterval(interval);
    }

    method CountSwitch(cpu: nat)
      requires Valid() && cpu < contextSwitchesPerCpu.Length
      modifies contextSwitchesPerCpu
      ensures Valid()
      ensures View() == old(View())[cpu := old(View())[cpu].(switches := old(View())[cpu].switches + 1)]
    {
      contextSwitchesPerCpu[cpu] := contextSwitchesPerCpu[cpu] + 1;
    }

    /** One switch on a CPU, with the time since the previous one; 0 if there was none. */
    method RecordCpuContextSwitch(cpu: uint16, interval: int)
      requires Valid()
      modifies contextSwitchesPerCpu, stats
      ensures Valid()
      ensures View() == if cpu < |old(View())| then old(View())[cpu := SlotRecorded(old(View())[cpu], interval)]
                        else old(View())
    {
      hide Distinct, Added;
      if cpu < contextSwitchesPerCpu.Length {
        SlotInUse(cpu, []);
        CountSwitch(cpu);
      }
      if interval > 0 && cpu < contextSwitchIntervals.Length {
        RecordInterval(cpu, interval);
      }
    }

    method RecordThreadStateTransition(state: nat, waitReason: uint8)
      requires Valid()
      modifies threadStateCounters
      ensures Valid() && threadStateCounters[..] == Transition(old(threadStateCounters[..]), state, waitReason)
    {
      var idx := state;
      if state == STATE_WAITING {
        idx := STATE_WAITING_OFFSET + waitReason;
      }
      if idx < threadStateCounters.Length {
        threadStateCounters[idx] := threadStateCounters[idx] + 1;
      }
    }

    // ---- scrape, phase 1: swap every active statistics object for a clean one ----

    /** Objects in the pool. */
    ghost function Pooled(): set<IntervalStats>
      reads this
    {
      set st | st in intervalStatsPool
    }

    /** A statistics object that nobody uses, from the pool or new; its contents are those of its last use. */
    method GetStats(ghost held: seq<IntervalStats>) returns (st: IntervalStats)
      requires ValidWith(held)
      modifies this`intervalStatsPool, this`stats
      ensures ValidWith(held) && st in stats && st !in intervalStatsPool && st !in InUse(held)
      ensures st in old(Pooled()) || fresh(st)
      ensures stats == old(stats) + {st} && Pooled() <= old(Pooled())
    {
      if * {
        st := new IntervalStats();
        stats := stats + {st};
      } else if intervalStatsPool == multiset{} {
        st := new IntervalStats();
        stats := stats + {st};
      } else {
        st :| st in intervalStatsPool;
        intervalStatsPool := intervalStatsPool - multiset{st};
      }
    }

    method SwapOne(cpu: nat, ghost held: seq<IntervalStats>) returns (oldStats: IntervalStats)
      requires ValidWith(held) && cpu < contextSwitchesPerCpu.Length
      modifies this`intervalStatsPool, this`stats, contextSwitchIntervals, Pooled()
      ensures ValidWith(held + [oldStats]) && oldStats == old(contextSwitchIntervals[cpu])
      ensures contextSwitchIntervals[..] == old(contextSwitchIntervals[..])[cpu := contextSwitchIntervals[cpu]]
      ensures contextSwitchIntervals[cpu].View() == NoStats()
      ensures forall i | 0 <= i < contextSwitchIntervals.Length && i != cpu ::
                contextSwitchIntervals[i].View() == old(contextSwitchIntervals[i].View())
      ensures old(stats) <= stats && fresh(stats - old(stats)) && Pooled() <= old(Pooled())
    {
      var newStats := GetStats(held);
      newStats.Reset();
      oldStats := contextSwitchIntervals[cpu];
      SwapKeepsDistinct(contextSwitchIntervals[..], cumulativeIntervals[..], held, cpu, newStats);
      contextSwitchIntervals[cpu] := newStats;
      assert InUse(held + [oldStats])
             == old(contextSwitchIntervals[..])[cpu := newStats] + cumulativeIntervals[..] + (held + [oldStats]);
    }

    method SwapAll() returns (oldStatsList: seq<IntervalStats>)
      requires Valid()
      modifies this`intervalStatsPool, this`stats, contextSwitchIntervals, Pooled()
      ensures ValidWith(oldStatsList) && oldStatsList == old(contextSwitchIntervals[..])
      ensures forall i | 0 <= i < contextSwitchIntervals.Length :: contextSwitchIntervals[i].View() == NoStats()
      ensures old(stats) <= stats && fresh(stats - old(stats))
    {
      hide NoStats;
      oldStatsList := [];
      var active := contextSwitchIntervals;
      for cpu := 0 to active.Length
        invariant ValidWith(oldStatsList) && oldStatsList == old(active[..])[..cpu]
        invariant forall i | 0 <= i < cpu :: active[i].View() == NoStats()
        invariant forall i | cpu <= i < active.Length :: active[i] == old(active[i])
        invariant Pooled() <= old(Pooled())
        invariant old(stats) <= stats && fresh(stats - old(stats))
      {
        var oldStats := SwapOne(cpu, oldStatsList);
        oldStatsList := oldStatsList + [oldStats];
      }
    }

    // ---- scrape, phase 2: merge the old statistics, and pool them ----

    method MergeOne(cpu: nat, oldStats: IntervalStats, ghost held: seq<IntervalStats>)
      requires ValidWith(held) && cpu < contextSwitchesPerCpu.Length && held != [] && held[0] == oldStats
      modifies this`intervalStatsPool, cumulativeIntervals[cpu]
      ensures ValidWith(held[1..])
      ensures cumulativeIntervals[cpu].View() == Merged(old(cumulativeIntervals[cpu].View()), old(oldStats.View()))
      ensures forall i | 0 <= i < cumulativeIntervals.Length && i != cpu ::
                cumulativeIntervals[i].View() == old(cumulativeIntervals[i].View())
      ensures forall st | st in held :: st.View() == old(st.View())
    {
      hide Merged;
      SlotInUse(cpu, held);
      var u := contextSwitchIntervals[..] + cumulativeIntervals[..];
      ReleaseKeepsDistinct(u, held);
      SlotNotHeld(cpu, held);
      cumulativeIntervals[cpu].Absorb(oldStats);
      intervalStatsPool := intervalStatsPool + multiset{oldStats};
    }

    lemma SlotNotHeld(cpu: nat, held: seq<IntervalStats>)
      requires ValidWith(held) && cpu < contextSwitchesPerCpu.Length
      ensures contextSwitchIntervals[cpu] !in held && cumulativeIntervals[cpu] !in held
    {
      var n := contextSwitchesPerCpu.Length;
      var inUse := InUse(held);
      assert inUse[cpu] == contextSwitchIntervals[cpu] && inUse[n + cpu] == cumulativeIntervals[cpu];
      assert forall j | 0 <= j < |held| :: inUse[n + n + j] == held[j];
    }

    method MergeAll(oldStatsList: seq<IntervalStats>)
      requires ValidWith(oldStatsList) && |oldStatsList| == contextSwitchesPerCpu.Length
      modifies this`intervalStatsPool, Elements(cumulativeIntervals[..])
      ensures Valid()
      ensures forall i | 0 <= i < |oldStatsList| ::
                cumulativeIntervals[i].View() == Merged(old(cumulativeIntervals[i].View()), old(oldStatsList[i].View()))
    {
      hide Merged;
      for cpu := 0 to |oldStatsList|
        invariant ValidWith(oldStatsList[cpu..])
        invariant forall i | 0 <= i < cpu ::
                    cumulativeIntervals[i].View()
                      == Merged(old(cumulativeIntervals[i].View()), old(oldStatsList[i].View()))
        invariant forall i | cpu <= i < |oldStatsList| ::
                    && cumulativeIntervals[i].View() == old(cumulativeIntervals[i].View())
                    && oldStatsList[i].View() == old(oldStatsList[i].View())
      {
        assert oldStatsList[cpu..][1..] == oldStatsList[cpu + 1..];
        assert forall i | cpu <= i < |oldStatsList| :: oldStatsList[cpu..][i - cpu] == oldStatsList[i];
        MergeOne(cpu, oldStatsList[cpu], oldStatsList[cpu..]);
      }
    }

    lemma AllInUse(held: seq<IntervalStats>)
      requires ValidWith(held)
      ensures forall i | 0 <= i < contextSwitchesPerCpu.Length ::
                && contextSwitchIntervals[i] !in Pooled() && cumulativeIntervals[i] !in Pooled()
                && contextSwitchIntervals[i] in stats && cumulativeIntervals[i] in stats
                && contextSwitchIntervals[i] !in Elements(cumulativeIntervals[..])
    {
      forall i | 0 <= i < contextSwitchesPerCpu.Length
        ensures contextSwitchIntervals[i] !in Pooled() && cumulativeIntervals[i] !in Pooled()
        ensures contextSwitchIntervals[i] in stats && cumulativeIntervals[i] in stats
        ensures contextSwitchIntervals[i] !in Elements(cumulativeIntervals[..])
      {
        SlotInUse(i, held);
      }
    }

    /**
     The two phases of a scrape: nothing is merged before everything is swapped, so no object is
     pooled while still active.
     */
    method Collect()
      requires Valid()
      modifies this`intervalStatsPool, this`stats, contextSwitchIntervals, stats
      ensures Valid() && fresh(stats - old(stats))
      ensures |View()| == |old(View())| && forall i | 0 <= i < |View()| :: View()[i] == SlotScraped(old(View())[i])
    {
      hide Merged, NoStats, Distinct;
      AllInUse([]);
      var oldStatsList := SwapAll();
      AllInUse(oldStatsList);
      MergeAll(oldStatsList);
    }
  }

  class Handler {
    const lastCpuSwitch: array<int>
    const collector: ThreadCollector

    ghost predicate Valid()
      reads collector, collector.contextSwitchIntervals, collector.cumulativeIntervals
    {
      collector.Valid() && lastCpuSwitch.Length == collector.contextSwitchesPerCpu.Length
    }

    ghost function View(): (s: State)
      reads lastCpuSwitch, collector, collector.contextSwitchIntervals, collector.cumulativeIntervals,
            collector.contextSwitchesPerCpu, collector.stats, collector.threadStateCounters
      requires Valid()
      ensures |s.cpus| == lastCpuSwitch.Length
    {
      State(CpusOf(lastCpuSwitch[..], collector.View()), collector.threadStateCounters[..])
    }

    constructor (numCpu: nat)
      ensures Valid() && View() == Init(numCpu)
      ensures fresh(lastCpuSwitch) && fresh(collector) && fresh(collector.stats)
    {
      lastCpuSwitch := new int[numCpu](_ => 0);
      collector := new ThreadCollector(numCpu);
    }

    /** A context switch: the time since the CPU's last one, the incoming thread's process, and both threads' states. */
    method HandleContextSwitchRaw(manager: KernelState.KernelStateManager, newTid: uint32, oldWaitReason: uint8,
                                  cpu: uint16, time: int)
      requires Valid() && manager.Valid() && cpu < lastCpuSwitch.Length
      requires lastCpuSwitch != manager.timer.scrapeDurations
      modifies lastCpuSwitch, collector.contextSwitchesPerCpu, collector.stats, collector.threadStateCounters,
               manager.records
      ensures Valid() && View() == Step(old(View()), SwitchedTo(cpu, time, oldWaitReason))
      ensures manager.Valid()
      ensures LifecycleRuns.Next(old(manager.View()),
                LifecycleRuns.Sampled(Lifecycle.ByThread(newTid), Counters.ContextSwitch), manager.View())
      ensures Charging.Charges(old(manager.View()), manager.View(), Lifecycle.ByThread(newTid), Counters.ContextSwitch)
    {
      hide Charging.Charges, Handler.View, Handler.Valid, SwitchRecorded, Transition, LifecycleRuns.Next;
      hide KernelState.KernelStateManager.View, KernelState.KernelStateManager.Valid;
      SwitchThread(manager, newTid);
      RecordSwitch(cpu, time);
      RecordStates(oldWaitReason);
    }

    /** The outgoing thread waits, the incoming one runs. */
    method RecordStates(oldWaitReason: uint8)
      requires Valid()
      modifies collector.threadStateCounters
      ensures Valid()
      ensures View() == old(View()).(stateCounters :=
                Transition(Transition(old(View()).stateCounters, STATE_WAITING, oldWaitReason), STATE_RUNNING, 0))
    {
      hide Transition;
      collector.RecordThreadStateTransition(STATE_WAITING, oldWaitReason);
      collector.RecordThreadStateTransition(STATE_RUNNING, 0);
    }

    /** Takes the CPU's last timestamp in exchange for this one. */
    method RecordSwitch(cpu: uint16, time: int)
      requires Valid() && cpu < lastCpuSwitch.Length
      modifies lastCpuSwitch, collector.contextSwitchesPerCpu, collector.stats
      ensures Valid()
      ensures View() == old(View()).(cpus := old(View()).cpus[cpu := SwitchRecorded(old(View()).cpus[cpu], time)])
    {
      hide Added;
      var interval := 0;
      var lastSwitch := lastCpuSwitch[cpu];
      lastCpuSwitch[cpu] := time;
      if lastSwitch > 0 {
        interval := time - lastSwitch;
      }
      collector.RecordCpuContextSwitch(cpu, interval);
    }

    method SwitchThread(manager: KernelState.KernelStateManager, newTid: uint32)
      requires manager.Valid()
      modifies manager.records
      ensures manager.Valid()
      ensures LifecycleRuns.Next(old(manager.View()),
                LifecycleRuns.Sampled(Lifecycle.ByThread(newTid), Counters.ContextSwitch), manager.View())
      ensures Charging.Charges(old(manager.View()), manager.View(), Lifecycle.ByThread(newTid), Counters.ContextSwitch)
    {
      hide Charging.Charges, Lifecycle.Inv, Lifecycle.Closed, LifecycleRuns.Step, LifecycleRuns.Enabled,
           Lifecycle.Target, Lifecycle.RecordSample;
      KernelState.InvariantIsClosed(manager.View());
      KernelState.DirectStep(manager.View(), LifecycleRuns.Sampled(Lifecycle.ByThread(newTid), Counters.ContextSwitch));
      var _ := manager.Attribute(Lifecycle.ByThread(newTid), Counters.ContextSwitch);
    }

    /** A thread becomes ready, is created or terminates. */
    method RecordState(state: nat)
      requires Valid()
      modifies collector.threadStateCounters
      ensures Valid() && View() == old(View()).(stateCounters := Transition(old(View()).stateCounters, state, 0))
    {
      hide Transition;
      collector.RecordThreadStateTransition(state, 0);
    }

    method Scrape()
      requires Valid()
      modifies collector, collector.contextSwitchIntervals, collector.stats
      ensures Valid() && View() == Step(old(View()), Scraped)
      ensures fresh(collector.stats - old(collector.stats))
    {
      hide Merged, NoStats;
      collector.Collect();
    }
  }

  ghost function CpusOf(lastSwitches: seq<int>, slots: seq<Slot>): seq<Cpu>
    requires |lastSwitches| == |slots|
  {
    seq(|slots|,
        i requires 0 <= i < |slots| => Cpu(lastSwitches[i], slots[i].active, slots[i].merged, slots[i].switches))
  }

  /** Any sequence of scheduler events drives the handler to the state that the run of these events prescribes. */
  method Drive(h: Handler, events: seq<Event>)
    requires h.Valid() && h.View() == Init(h.lastCpuSwitch.Length)
    requires forall i | 0 <= i < |events| && events[i].SwitchedTo? :: events[i].cpu < h.lastCpuSwitch.Length
    modifies h.lastCpuSwitch, h.collector, h.collector.contextSwitchIntervals, h.collector.contextSwitchesPerCpu,
             h.collector.stats, h.collector.threadStateCounters
    ensures h.Valid() && h.View() == After(h.lastCpuSwitch.Length, events)
  {
    hide Transition, SwitchRecorded, Handler.View, ScrapedCpu, Init;
    for i := 0 to |events|
      invariant h.Valid() && h.View() == After(h.lastCpuSwitch.Length, events[..i])
      invariant fresh(h.collector.stats - old(h.collector.stats))
    {
      assert events[..i + 1][..i] == events[..i];
      match events[i] {
        case SwitchedTo(cpu, time, oldWaitReason) =>
          h.RecordSwitch(cpu, time);
          h.RecordStates(oldWaitReason);
        case ThreadReady => h.RecordState(STATE_READY);
        case ThreadCreated => h.RecordState(STATE_CREATED);
        case ThreadTerminated => h.RecordState(STATE_TERMINATED);
        case Scraped => h.Scrape();
      }
    }
    assert events[..|events|] == events;
  }
}
