/**
 Counts survive recycling. For any one metric, every amount an event stands
 for is held by a live process, was held by an instance when it was recycled,
 or belonged to an event that no process could be found for.
 */
module Conservation {
  import opened Words
  import opened Sums
  import opened Counters
  import opened ScrapeClock
  import opened Lifecycle
  import opened LifecycleRuns

  ghost function HeldBy<Ref>(instanceData: map<uint64, Ref>, heap: map<Ref, Proc>, m: Metric): uint64 -> int {
    (k: uint64) => if k in instanceData && instanceData[k] in heap then Count(heap[instanceData[k]].counters, m) else 0
  }

  /** What all live instances hold of metric m. */
  ghost function LiveSum<Ref>(instanceData: map<uint64, Ref>, heap: map<Ref, Proc>, m: Metric): int {
    Sum(instanceData.Keys, HeldBy(instanceData, heap, m))
  }

  ghost function LiveTotal<Ref>(s: State<Ref>, m: Metric): int {
    LiveSum(s.instanceData, s.heap, m)
  }

  /** What event e stands for. */
  ghost function Issued<Ref>(e: Event<Ref>, m: Metric): nat {
    if e.Sampled? then Amount(e.sample, m) else 0
  }

  /** What event e stands for if no process is found for it in state s. */
  ghost function Unattributed<Ref>(s: State<Ref>, e: Event<Ref>, m: Metric): nat {
    if e.Sampled? && Target(s, e.src) == None then Amount(e.sample, m) else 0
  }

  /** What the instances that event e recycles hold in state s. */
  ghost function Recycled<Ref>(s: State<Ref>, e: Event<Ref>, m: Metric): int
    requires s.clock.Valid()
  {
    if e.CleanedUp?
    then Sum(Expired(s.terminatedProcesses, NextThreshold(s, e.now)), HeldBy(s.instanceData, s.heap, m))
    else 0
  }

  /** Changing the contents of one live record changes the live sum by the difference. */
  lemma UpdateLiveSum<Ref>(instanceData: map<uint64, Ref>, heap: map<Ref, Proc>, o: Ref, proc: Proc, m: Metric)
    requires FiledByKey(instanceData, heap) && LiveIn(instanceData, heap, o)
    ensures LiveSum(instanceData, heap[o := proc], m)
            == LiveSum(instanceData, heap, m) + Count(proc.counters, m) - Count(heap[o].counters, m)
  {
    hide Sum;
    var k := heap[o].info.startKey;
    var before, after := HeldBy(instanceData, heap, m), HeldBy(instanceData, heap[o := proc], m);
    forall j | j in instanceData.Keys && j != k
      ensures before(j) == after(j)
    {
      assert instanceData[j] != o;
    }
    SumUpdate(instanceData.Keys, k, before, after);
  }

  /** A new instance in a record that holds no live one adds what it holds. */
  lemma InsertLiveSum<Ref>(instanceData: map<uint64, Ref>, heap: map<Ref, Proc>, k: uint64, o: Ref,
                           proc: Proc, m: Metric)
    requires FiledByKey(instanceData, heap) && !LiveIn(instanceData, heap, o) && k !in instanceData
    ensures LiveSum(instanceData[k := o], heap[o := proc], m)
            == LiveSum(instanceData, heap, m) + Count(proc.counters, m)
  {
    hide Sum;
    var before, after := HeldBy(instanceData, heap, m), HeldBy(instanceData[k := o], heap[o := proc], m);
    forall j | j in instanceData.Keys
      ensures before(j) == after(j)
    {
      assert LiveIn(instanceData, heap, instanceData[j]);
    }
    SumCongruence(instanceData.Keys, before, after);
    SumAdd(instanceData.Keys, k, after);
    assert instanceData[k := o].Keys == instanceData.Keys + {k};
  }

  /** Removing instances takes away exactly what they hold. */
  lemma RemoveLiveSum<Ref>(instanceData: map<uint64, Ref>, heap: map<Ref, Proc>, clean: set<uint64>, m: Metric)
    requires clean <= instanceData.Keys
    ensures LiveSum(instanceData - clean, heap, m)
            == LiveSum(instanceData, heap, m) - Sum(clean, HeldBy(instanceData, heap, m))
  {
    hide Sum;
    var before, after := HeldBy(instanceData, heap, m), HeldBy(instanceData - clean, heap, m);
    SumSplit(instanceData.Keys, clean, before);
    assert (instanceData - clean).Keys == instanceData.Keys - clean;
    forall j | j in instanceData.Keys - clean
      ensures before(j) == after(j)
    {
    }
    SumCongruence(instanceData.Keys - clean, before, after);
  }

  lemma WithInfoLiveTotal<Ref>(s: State<Ref>, o: Ref, info: ProcessInfo, m: Metric)
    requires Inv(s) && s.Live(o)
    ensures LiveTotal(s.WithInfo(o, info), m) == LiveTotal(s, m)
  {
    hide LiveSum;
    UpdateLiveSum(s.instanceData, s.heap, o, s.heap[o].(info := info), m);
  }

  lemma ResolveLiveTotal<Ref>(s: State<Ref>, o: Ref, attempted: set<uint32>, lookup: Lookup, m: Metric)
    requires Inv(s) && s.Live(o)
    ensures LiveTotal(Resolve(s, o, attempted, lookup).0, m) == LiveTotal(s, m)
  {
    hide LiveSum;
    var info := s.Info(o);
    if NeedsLookup(info, attempted) && lookup(info.pid, info.subProcessTag).Some? {
      var name := lookup(info.pid, info.subProcessTag).value;
      UpdateLiveSum(s.instanceData, s.heap, o, s.heap[o].(info := info.(serviceName := name)), m);
    }
  }

  lemma {:induction false} ResolveAllLiveTotal<Ref>(s: State<Ref>, order: seq<uint64>, lookup: Lookup, m: Metric)
    requires Inv(s)
    ensures LiveTotal(ResolveAll(s, order, lookup).0, m) == LiveTotal(s, m)
  {
    hide LiveSum;
    if order != [] {
      var before := ResolveAll(s, order[..|order| - 1], lookup);
      ResolveAllLiveTotal(s, order[..|order| - 1], lookup, m);
      ResolveAllKeepsInvariant(s, order[..|order| - 1], lookup);
      var k := order[|order| - 1];
      if k in s.instanceData {
        assert before.0.Live(before.0.instanceData[k]);
        ResolveLiveTotal(before.0, s.instanceData[k], before.1, lookup, m);
      }
    }
  }

  /** A cleanup changes no record and keeps exactly the instances it did not clean. */
  lemma CleanupKeepsRecords<Ref>(s: State<Ref>, now: int, order: seq<uint64>)
    requires Closed(s)
    ensures var s' := Cleanup(s, now, order);
            && s'.heap == s.heap
            && s'.instanceData == s.instanceData - Expired(s.terminatedProcesses, NextThreshold(s, now))
            && s'.terminatedProcesses == s.terminatedProcesses - Expired(s.terminatedProcesses, NextThreshold(s, now))
  {
    hide CleanupAt, Expired, NextThreshold;
    PassesKeepRecords(Tick(s, now), NextThreshold(s, now), order);
  }

  lemma PassesKeepRecords<Ref>(s: State<Ref>, threshold: nat, order: seq<uint64>)
    requires Closed(s)
    ensures var s' := CleanupAt(s, threshold, order);
            && s'.heap == s.heap && s'.instanceData == s.instanceData - Expired(s.terminatedProcesses, threshold)
            && s'.terminatedProcesses == s.terminatedProcesses - Expired(s.terminatedProcesses, threshold)
  {
    hide PidsWithout, TidsOf, UnexpiredTids, UnexpiredRecords, CleanPidKeys, RefsOf, Expired;
  }

  // ---- one event ----

  /** What e issues it leaves with a live process, or accounts for. */
  ghost predicate Conserves<Ref>(s: State<Ref>, e: Event<Ref>, m: Metric)
    requires Closed(s)
  {
    LiveTotal(Step(s, e), m) + Recycled(s, e, m) + Unattributed(s, e, m) == LiveTotal(s, m) + Issued(e, m)
  }

  lemma InsertLiveTotal<Ref>(s: State<Ref>, o: Ref, proc: Proc, m: Metric)
    requires Inv(s) && proc.info.startKey !in s.instanceData && Available(s, o)
    ensures LiveTotal(Insert(s, o, proc), m) == LiveTotal(s, m) + Count(proc.counters, m)
  {
    hide LiveSum, Count;
    InsertLives(s, o, proc);
    InsertLiveSum(s.instanceData, s.heap, proc.info.startKey, o, proc, m);
  }

  lemma StartConserves<Ref>(s: State<Ref>, e: Event<Ref>, m: Metric)
    requires Inv(s) && Enabled(s, e) && e.ProcessStarted?
    ensures Conserves(s, e, m)
  {
    hide LiveSum, Insert, Count;
    if e.startKey in s.instanceData {
      var known := s.instanceData[e.startKey];
      WithInfoLiveTotal(s, known, s.Info(known).(lastSeen := e.now), m);
    } else {
      var proc := NewProcess(e.pid, e.startKey, e.name, e.parentPid, e.sessionId, e.now);
      InsertLiveTotal(s, e.o, proc, m);
      NothingCounted(m);
    }
  }

  lemma EndConserves<Ref>(s: State<Ref>, e: Event<Ref>, m: Metric)
    requires Inv(s) && e.ProcessEnded?
    ensures Conserves(s, e, m)
  {
    hide LiveSum;
    if e.startKey in s.instanceData {
      var o := s.instanceData[e.startKey];
      WithInfoLiveTotal(s, o, TerminatedInfo(s.Info(o), e.terminationTime), m);
    }
  }

  lemma EnrichConserves<Ref>(s: State<Ref>, e: Event<Ref>, m: Metric)
    requires Inv(s) && e.ExeLoaded?
    ensures Conserves(s, e, m)
  {
    hide LiveSum;
    if e.pid in s.pidToCurrentStartKey && s.pidToCurrentStartKey[e.pid] in s.instanceData {
      var o := s.instanceData[s.pidToCurrentStartKey[e.pid]];
      WithInfoLiveTotal(s, o, EnrichedInfo(s.Info(o), e.checksum, e.imageName), m);
    }
  }

  lemma ApplyServiceLiveTotal<Ref>(s: State<Ref>, o: Ref, tag: uint32, m: Metric)
    requires Inv(s) && s.Live(o)
    ensures LiveTotal(ApplyService(s, o, tag), m) == LiveTotal(s, m)
  {
    hide LiveSum, ServiceInfo;
    WithInfoLiveTotal(s, o, ServiceInfo(s.Info(o), tag, s.serviceTags), m);
  }

  lemma CurrentIsLive<Ref>(s: State<Ref>, pid: uint32)
    requires Inv(s)
    ensures Closed(s) && (pid in s.pidToCurrentProcessData ==> s.Live(s.pidToCurrentProcessData[pid]))
  {
  }

  lemma TidsDontCount<Ref>(s: State<Ref>, tids: map<uint32, Ref>, m: Metric)
    ensures LiveTotal(s.(tidToCurrentProcessData := tids), m) == LiveTotal(s, m)
  {
  }

  lemma AddThreadLiveTotal<Ref>(s: State<Ref>, tid: uint32, pid: uint32, now: int, tag: uint32, m: Metric)
    requires Inv(s)
    ensures LiveTotal(AddThread(s, tid, pid, now, tag), m) == LiveTotal(s, m)
  {
    hide LiveTotal, ApplyService, Inv;
    CurrentIsLive(s, pid);
    if pid in s.pidToCurrentProcessData {
      var o := s.pidToCurrentProcessData[pid];
      MapTidKeepsInvariant(s, tid, o);
      ApplyServiceLiveTotal(s.(tidToCurrentProcessData := s.tidToCurrentProcessData[tid := o]), o, tag, m);
      TidsDontCount(s, s.tidToCurrentProcessData[tid := o], m);
    }
    if UNKNOWN_PROCESS_START_KEY in s.instanceData {
      TidsDontCount(s, s.tidToCurrentProcessData[tid := s.instanceData[UNKNOWN_PROCESS_START_KEY]], m);
    }
  }

  lemma ThreadConserves<Ref>(s: State<Ref>, e: Event<Ref>, m: Metric)
    requires Inv(s) && (e.ThreadStarted? || e.ThreadEnded?)
    ensures Conserves(s, e, m)
  {
    hide LiveSum, AddThread, Inv;
    if e.ThreadStarted? {
      AddThreadLiveTotal(s, e.tid, e.pid, e.now, e.tag, m);
    }
  }

  lemma ServiceConserves<Ref>(s: State<Ref>, e: Event<Ref>, m: Metric)
    requires Inv(s) && (e.TagRegistered? || e.ServiceSeen?)
    ensures Conserves(s, e, m)
  {
    hide LiveSum, ApplyService, Inv;
    TargetIsLive(s, ByPid(if e.ServiceSeen? then e.pid else 0));
    if e.ServiceSeen? && e.pid in s.pidToCurrentProcessData {
      ApplyServiceLiveTotal(s, s.pidToCurrentProcessData[e.pid], e.tag, m);
    }
  }

  lemma SampleConserves<Ref>(s: State<Ref>, e: Event<Ref>, m: Metric)
    requires Inv(s) && e.Sampled?
    ensures Conserves(s, e, m)
  {
    hide LiveSum;
    TargetIsLive(s, e.src);
    if Target(s, e.src).Some? {
      var o := Target(s, e.src).value;
      RecordAdds(s.heap[o].counters, e.sample, m);
      UpdateLiveSum(s.instanceData, s.heap, o, s.heap[o].(counters := Record(s.heap[o].counters, e.sample)), m);
    }
  }

  lemma CleanupConserves<Ref>(s: State<Ref>, e: Event<Ref>, m: Metric)
    requires Inv(s) && e.CleanedUp?
    ensures Conserves(s, e, m)
  {
    hide LiveSum;
    CleanupKeepsRecords(s, e.now, e.order);
    RemoveLiveSum(s.instanceData, s.heap, Expired(s.terminatedProcesses, NextThreshold(s, e.now)), m);
  }

  lemma AggregateConserves<Ref>(s: State<Ref>, e: Event<Ref>, m: Metric)
    requires Inv(s) && e.Aggregated?
    ensures Conserves(s, e, m)
  {
    hide LiveSum;
    ResolveAllLiveTotal(s, e.order, e.lookup, m);
  }

  /** No event creates or loses a count. */
  lemma StepConserves<Ref>(s: State<Ref>, e: Event<Ref>, m: Metric)
    requires Inv(s) && Enabled(s, e)
    ensures Conserves(s, e, m)
  {
    hide Conserves, Inv;
    match e {
      case ProcessStarted(_, _, _, _, _, _, _) => StartConserves(s, e, m);
      case ProcessEnded(_, _) => EndConserves(s, e, m);
      case ExeLoaded(_, _, _) => EnrichConserves(s, e, m);
      case ThreadStarted(_, _, _, _) => ThreadConserves(s, e, m);
      case ThreadEnded(_) => ThreadConserves(s, e, m);
      case TagRegistered(_, _) => ServiceConserves(s, e, m);
      case ServiceSeen(_, _) => ServiceConserves(s, e, m);
      case Sampled(_, _) => SampleConserves(s, e, m);
      case Aggregated(_, _) => AggregateConserves(s, e, m);
      case CleanedUp(_, _) => CleanupConserves(s, e, m);
    }
  }

  // ---- totals over a run ----

  ghost function TotalIssued<Ref>(events: seq<Event<Ref>>, m: Metric): int {
    if events == [] then 0 else TotalIssued(events[..|events| - 1], m) + Issued(events[|events| - 1], m)
  }

  /** Over the first n events. */
  ghost function TotalUnattributed<Ref>(states: seq<State<Ref>>, events: seq<Event<Ref>>, m: Metric, n: nat): int
    requires n <= |events| && n <= |states|
  {
    if n == 0 then 0
    else TotalUnattributed(states, events, m, n - 1) + Unattributed(states[n - 1], events[n - 1], m)
  }

  ghost function TotalRecycled<Ref>(states: seq<State<Ref>>, events: seq<Event<Ref>>, m: Metric, n: nat): int
    requires n <= |events| && n <= |states| && (forall i | 0 <= i < n :: states[i].clock.Valid())
  {
    if n == 0 then 0
    else TotalRecycled(states, events, m, n - 1) + Recycled(states[n - 1], events[n - 1], m)
  }

  lemma ClocksAreValid<Ref>(unknown: Ref, start: int, states: seq<State<Ref>>, events: seq<Event<Ref>>)
    requires IsRun(unknown, start, states, events)
    ensures forall i | 0 <= i < |events| :: states[i].clock.Valid()
  {
    forall i | 0 <= i < |events|
      ensures states[i].clock.Valid()
    {
      assert Next(states[i], events[i], states[i + 1]);
    }
  }

  /** Over every run, at every point, and for every metric: issued = live + recycled + unattributed. */
  lemma {:induction false} CountsSurviveRecycling<Ref>(unknown: Ref, start: int,
      states: seq<State<Ref>>, events: seq<Event<Ref>>, m: Metric, n: nat)
    requires IsRun(unknown, start, states, events) && n <= |events|
    ensures forall i | 0 <= i < n :: states[i].clock.Valid()
    ensures TotalIssued(events[..n], m)
            == LiveTotal(states[n], m) + TotalRecycled(states, events, m, n) + TotalUnattributed(states, events, m, n)
  {
    hide LiveTotal, Step, Recycled, Unattributed, Inv;
    ClocksAreValid(unknown, start, states, events);
    if n == 0 {
      InitHoldsNothing(unknown, start, m);
    } else {
      CountsSurviveRecycling(unknown, start, states, events, m, n - 1);
      RunKeepsInvariant(unknown, start, states, events, n - 1);
      assert Next(states[n - 1], events[n - 1], states[n - 1 + 1]);
      StepConserves(states[n - 1], events[n - 1], m);
      assert events[..n][..n - 1] == events[..n - 1];
    }
  }

  lemma InitHoldsNothing<Ref>(unknown: Ref, start: int, m: Metric)
    ensures LiveTotal(Init(unknown, start), m) == 0
  {
    var s := Init(unknown, start);
    NothingCounted(m);
    SumPick(s.instanceData.Keys, UNKNOWN_PROCESS_START_KEY, HeldBy(s.instanceData, s.heap, m));
    assert s.instanceData.Keys - {UNKNOWN_PROCESS_START_KEY} == {};
  }

  // ---- hard page faults ----

  /** The reserved "unknown" instance is live and has no termination record. */
  ghost predicate UnknownKept<Ref>(s: State<Ref>) {
    1 in s.instanceData && 1 !in s.terminatedProcesses
  }

  lemma {:induction false} ResolveAllKeepsUnknown<Ref>(s: State<Ref>, order: seq<uint64>, lookup: Lookup)
    ensures ResolveAll(s, order, lookup).0.terminatedProcesses == s.terminatedProcesses
  {
    if order != [] {
      ResolveAllKeepsUnknown(s, order[..|order| - 1], lookup);
    }
  }

  lemma StepKeepsUnknown<Ref>(s: State<Ref>, e: Event<Ref>)
    requires Closed(s) && Enabled(s, e) && UnknownKept(s)
    requires e.ProcessEnded? ==> e.startKey != 1
    ensures UnknownKept(Step(s, e))
  {
    hide ResolveAll, Cleanup, EnrichedInfo, ServiceInfo, NewProcess;
    if e.Aggregated? {
      ResolveAllKeepsUnknown(s, e.order, e.lookup);
    } else if e.CleanedUp? {
      CleanupKeepsRecords(s, e.now, e.order);
    }
  }

  lemma {:induction false} UnknownIsKept<Ref>(unknown: Ref, start: int,
      states: seq<State<Ref>>, events: seq<Event<Ref>>, n: nat)
    requires IsRun(unknown, start, states, events) && n <= |events|
    requires forall i | 0 <= i < |events| :: events[i].ProcessEnded? ==> events[i].startKey != 1
    ensures UnknownKept(states[n])
  {
    if n > 0 {
      hide Step, Enabled;
      UnknownIsKept(unknown, start, states, events, n - 1);
      assert Next(states[n - 1], events[n - 1], states[n - 1 + 1]);
      StepKeepsUnknown(states[n - 1], events[n - 1]);
    }
  }

  /**
   A hard fault whose thread could be read is never lost, as long as no process event
   carries the reserved start key 1.
   */
  lemma HardFaultsAlwaysAttributed<Ref>(unknown: Ref, start: int,
      states: seq<State<Ref>>, events: seq<Event<Ref>>, n: nat)
    requires IsRun(unknown, start, states, events) && n < |events|
    requires forall i | 0 <= i < |events| :: events[i].ProcessEnded? ==> events[i].startKey != 1
    requires events[n].Sampled? && events[n].src.ByThreadOrUnknown?
    ensures Target(states[n], events[n].src).Some? && states[n].Live(Target(states[n], events[n].src).value)
  {
    UnknownIsKept(unknown, start, states, events, n);
    RunKeepsInvariant(unknown, start, states, events, n);
    TargetIsLive(states[n], events[n].src);
  }
}
