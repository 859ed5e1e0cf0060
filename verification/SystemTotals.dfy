/**
 The system-wide counters that the disk and memory collectors keep next to the
 per-process ones, and the balance between the two over every run.
 */
module SystemTotals {
  import opened Words
  import opened Counters
  import opened Lifecycle
  import opened LifecycleRuns
  import opened CleanupExact
  import opened Conservation
  import opened ProcessRecords
  import opened KernelState
  import opened Charging
  import opened Snapshots

  /** What the disk collector sees: the events of the lifecycle, and flushes, which name no process. */
  datatype DiskEvent<Ref> = Observed(event: Event<Ref>) | DiskFlushed(disk: uint32)

  function AfterDiskEvent<Ref>(disks: map<uint32, DiskMetrics>, e: DiskEvent<Ref>): map<uint32, DiskMetrics> {
    match e
    case Observed(Sampled(_, DiskIO(disk, transferSize, isWrite))) =>
      disks[disk := RecordDisk(DiskAt(disks, disk), transferSize, isWrite)]
    case Observed(_) => disks
    case DiskFlushed(disk) => disks[disk := DiskAt(disks, disk).(flushOps := DiskAt(disks, disk).flushOps + 1)]
  }

  /** The system-wide disk counters after the given events. */
  function SystemDisks<Ref>(seen: seq<DiskEvent<Ref>>): map<uint32, DiskMetrics> {
    if seen == [] then map[] else AfterDiskEvent(SystemDisks(seen[..|seen| - 1]), seen[|seen| - 1])
  }

  /** The events of the lifecycle among the ones seen. */
  function LifecycleEvents<Ref>(seen: seq<DiskEvent<Ref>>): seq<Event<Ref>> {
    if seen == [] then []
    else
      var e := seen[|seen| - 1];
      LifecycleEvents(seen[..|seen| - 1]) + (if e.Observed? then [e.event] else [])
  }

  /** How many flushes of its disk a flush counter has to count; no other counter counts any. */
  function Flushes<Ref>(seen: seq<DiskEvent<Ref>>, m: Metric): nat {
    if seen == [] then 0
    else
      var e := seen[|seen| - 1];
      Flushes(seen[..|seen| - 1], m) + (if e.DiskFlushed? && m == DiskOps(e.disk, Flush) then 1 else 0)
  }

  predicate IsDiskMetric(m: Metric) {
    m.DiskOps? || m.DiskBytesRead? || m.DiskBytesWritten?
  }

  function SystemCount(disks: map<uint32, DiskMetrics>, m: Metric): nat
    requires IsDiskMetric(m)
  {
    match m
    case DiskOps(disk, op) => DiskAt(disks, disk).IOCount(op)
    case DiskBytesRead(disk) => DiskAt(disks, disk).bytesRead
    case DiskBytesWritten(disk) => DiskAt(disks, disk).bytesWritten
  }

  /** What one event adds to a counter of the system. */
  ghost function Added<Ref>(e: DiskEvent<Ref>, m: Metric): nat {
    match e
    case Observed(event) => Issued(event, m)
    case DiskFlushed(disk) => if m == DiskOps(disk, Flush) then 1 else 0
  }

  lemma DiskEventAdds<Ref>(disks: map<uint32, DiskMetrics>, e: DiskEvent<Ref>, m: Metric)
    requires IsDiskMetric(m)
    ensures SystemCount(AfterDiskEvent(disks, e), m) == SystemCount(disks, m) + Added(e, m)
  {
    if e.Observed? && e.event.Sampled? && e.event.sample.DiskIO? {
      var sample := e.event.sample;
      assert AfterDiskEvent(disks, e)
             == disks[sample.disk := RecordDisk(DiskAt(disks, sample.disk), sample.transferSize, sample.isWrite)];
    } else if e.Observed? {
      assert AfterDiskEvent(disks, e) == disks;
    }
  }

  lemma AddedCounts<Ref>(seen: seq<DiskEvent<Ref>>, m: Metric)
    requires seen != []
    ensures var before := seen[..|seen| - 1];
            TotalIssued(LifecycleEvents(seen), m) + Flushes(seen, m)
            == TotalIssued(LifecycleEvents(before), m) + Flushes(before, m) + Added(seen[|seen| - 1], m)
  {
    hide Issued;
    var before, e := LifecycleEvents(seen[..|seen| - 1]), seen[|seen| - 1];
    if e.Observed? {
      assert LifecycleEvents(seen) == before + [e.event] && (before + [e.event])[..|before|] == before;
    } else {
      assert LifecycleEvents(seen) == before;
    }
  }

  lemma {:induction false} SystemCountsIssued<Ref>(seen: seq<DiskEvent<Ref>>, m: Metric)
    requires IsDiskMetric(m)
    ensures SystemCount(SystemDisks(seen), m) == TotalIssued(LifecycleEvents(seen), m) + Flushes(seen, m)
  {
    hide Added, AfterDiskEvent;
    if seen != [] {
      SystemCountsIssued(seen[..|seen| - 1], m);
      DiskEventAdds(SystemDisks(seen[..|seen| - 1]), seen[|seen| - 1], m);
      AddedCounts(seen, m);
    }
  }

  /**
   Per disk and at every point of every run: system total = live + recycled + unattributed, and
   for the flush counter, which no process has, the flushes.
   */
  lemma DiskTotalsBalance<Ref>(unknown: Ref, start: int,
      states: seq<State<Ref>>, seen: seq<DiskEvent<Ref>>, m: Metric)
    requires IsRun(unknown, start, states, LifecycleEvents(seen)) && IsDiskMetric(m)
    ensures var events := LifecycleEvents(seen);
            && (forall i | 0 <= i < |events| :: states[i].clock.Valid())
            && SystemCount(SystemDisks(seen), m)
               == LiveTotal(states[|events|], m) + TotalRecycled(states, events, m, |events|)
                  + TotalUnattributed(states, events, m, |events|) + Flushes(seen, m)
  {
    hide IsRun, SystemCount, LiveTotal;
    var events := LifecycleEvents(seen);
    SystemCountsIssued(seen, m);
    CountsSurviveRecycling(unknown, start, states, events, m, |events|);
    assert events[..|events|] == events;
  }

  lemma {:induction false} NoProcessCountsFlushes<Ref>(events: seq<Event<Ref>>, disk: uint32)
    ensures TotalIssued(events, DiskOps(disk, Flush)) == 0
  {
    if events != [] {
      NoProcessCountsFlushes(events[..|events| - 1], disk);
    }
  }

  /** The flush counter of a disk is the number of its flushes. */
  lemma {:induction false} FlushCounterExact<Ref>(seen: seq<DiskEvent<Ref>>, disk: uint32)
    ensures DiskAt(SystemDisks(seen), disk).flushOps == Flushes(seen, DiskOps(disk, Flush))
  {
    hide SystemDisks, LifecycleEvents, Flushes;
    SystemCountsIssued(seen, DiskOps(disk, Flush));
    NoProcessCountsFlushes(LifecycleEvents(seen), disk);
  }

  // ---- hard page faults ----

  predicate IsFault<Ref>(e: Event<Ref>) {
    e.Sampled? && e.sample == HardPageFault
  }

  /** What the collector's own counter shows: every fault, whether or not its thread could be read. */
  function SystemFaults<Ref>(events: seq<Event<Ref>>): nat {
    if events == [] then 0 else SystemFaults(events[..|events| - 1]) + (if IsFault(events[|events| - 1]) then 1 else 0)
  }

  function UnreadableFaults<Ref>(events: seq<Event<Ref>>): nat {
    if events == [] then 0
    else
      var e := events[|events| - 1];
      UnreadableFaults(events[..|events| - 1]) + (if IsFault(e) && e.src.Unreadable? then 1 else 0)
  }

  lemma {:induction false} FaultsIssued<Ref>(events: seq<Event<Ref>>)
    ensures TotalIssued(events, HardPageFaults) == SystemFaults(events)
  {
    if events != [] {
      FaultsIssued(events[..|events| - 1]);
    }
  }

  lemma {:induction false} OnlyUnreadableLost<Ref>(unknown: Ref, start: int,
      states: seq<State<Ref>>, events: seq<Event<Ref>>, n: nat)
    requires IsRun(unknown, start, states, events) && n <= |events|
    requires forall i | 0 <= i < |events| :: events[i].ProcessEnded? ==> events[i].startKey != 1
    requires forall i | 0 <= i < |events| ::
               IsFault(events[i]) ==> events[i].src.ByThreadOrUnknown? || events[i].src.Unreadable?
    ensures TotalUnattributed(states, events, HardPageFaults, n) == UnreadableFaults(events[..n])
  {
    hide Target, Step, Enabled, Inv, Unattributed, IsRun, IsFault;
    if n > 0 {
      OnlyUnreadableLost(unknown, start, states, events, n - 1);
      assert events[..n][..n - 1] == events[..n - 1];
      FaultLost(unknown, start, states, events, n - 1);
    }
  }

  lemma FaultLost<Ref>(unknown: Ref, start: int, states: seq<State<Ref>>, events: seq<Event<Ref>>, n: nat)
    requires IsRun(unknown, start, states, events) && n < |events|
    requires forall i | 0 <= i < |events| :: events[i].ProcessEnded? ==> events[i].startKey != 1
    requires IsFault(events[n]) ==> events[n].src.ByThreadOrUnknown? || events[n].src.Unreadable?
    ensures Unattributed(states[n], events[n], HardPageFaults)
            == if IsFault(events[n]) && events[n].src.Unreadable? then 1 else 0
  {
    hide IsRun, Step, Enabled, Inv;
    if IsFault(events[n]) && events[n].src.ByThreadOrUnknown? {
      HardFaultsAlwaysAttributed(unknown, start, states, events, n);
    }
  }

  /**
   Every hard fault with a readable thread is held by a live process or was held by an instance
   when it was recycled; none is lost. Assumes, as the program does, that no process event
   carries the reserved start key 1.
   */
  lemma HardFaultsBalance<Ref>(unknown: Ref, start: int,
      states: seq<State<Ref>>, events: seq<Event<Ref>>, n: nat)
    requires IsRun(unknown, start, states, events) && n <= |events|
    requires forall i | 0 <= i < |events| :: events[i].ProcessEnded? ==> events[i].startKey != 1
    requires forall i | 0 <= i < |events| ::
               IsFault(events[i]) ==> events[i].src.ByThreadOrUnknown? || events[i].src.Unreadable?
    ensures forall i | 0 <= i < n :: states[i].clock.Valid()
    ensures SystemFaults(events[..n]) - UnreadableFaults(events[..n])
            == LiveTotal(states[n], HardPageFaults) + TotalRecycled(states, events, HardPageFaults, n)
  {
    FaultsIssued(events[..n]);
    OnlyUnreadableLost(unknown, start, states, events, n);
    CountsSurviveRecycling(unknown, start, states, events, HardPageFaults, n);
  }

  // ---- disk events without a process ----

  /** A disk event finds a process exactly when its thread, its header PID or the System process is known. */
  lemma DiskTargetExact<Ref>(s: State<Ref>, tid: uint32, headerPid: uint32)
    ensures Target(s, ByThreadPidOrSystem(tid, headerPid)).Some?
            <==> || (tid != 0 && tid != 0xFFFF_FFFF && tid in s.tidToCurrentProcessData)
                 || (headerPid != 0 && headerPid != 0xFFFF_FFFF && headerPid in s.pidToCurrentProcessData)
                 || 4 in s.pidToCurrentProcessData
  {
  }

  /** At the start no disk event finds a process, whatever it names: the System process is not yet known. */
  lemma NoDiskTargetAtStart<Ref>(unknown: Ref, start: int, tid: uint32, headerPid: uint32)
    ensures Target(Init(unknown, start), ByThreadPidOrSystem(tid, headerPid)) == None
  {
  }

  /** The System process is known and not marked. */
  ghost predicate SystemKnown<Ref>(s: State<Ref>)
    requires Closed(s)
  {
    && 4 in s.pidToCurrentProcessData
    && s.Info(s.pidToCurrentProcessData[4]).startKey !in s.terminatedProcesses
  }

  /** Event e ends an instance with the System process's PID. */
  ghost predicate EndsSystem<Ref>(s: State<Ref>, e: Event<Ref>)
    requires Closed(s)
  {
    e.ProcessEnded? && e.startKey in s.instanceData && s.Info(s.instanceData[e.startKey]).pid == 4
  }

  lemma StepKeepsSystem<Ref>(s: State<Ref>, e: Event<Ref>)
    requires Inv(s) && Enabled(s, e) && SystemKnown(s) && !EndsSystem(s, e)
    ensures Closed(Step(s, e)) && SystemKnown(Step(s, e))
  {
    StepKeepsInvariant(s, e);
    InvariantCloses(Step(s, e));
    hide Inv, Closed, SystemKnown, EndsSystem, SameProcesses, Enabled, Step;
    match e {
      case ProcessStarted(_, _, _, _, _, _, _) => StartKeepsSystem(s, e);
      case ProcessEnded(_, _) => EndKeepsSystem(s, e);
      case CleanedUp(_, _) => CleanupKeepsSystem(s, e);
      case Aggregated(_, _) =>
        AggregateKeepsProcesses(s, e);
        SameProcessesKeepSystem(s, Step(s, e));
      case ThreadStarted(_, _, _, _) =>
        ThreadKeepsProcesses(s, e);
        SameProcessesKeepSystem(s, Step(s, e));
      case ThreadEnded(_) =>
        ThreadKeepsProcesses(s, e);
        SameProcessesKeepSystem(s, Step(s, e));
      case ServiceSeen(_, _) =>
        ThreadKeepsProcesses(s, e);
        SameProcessesKeepSystem(s, Step(s, e));
      case ExeLoaded(_, _, _) =>
        ImageKeepsProcesses(s, e);
        SameProcessesKeepSystem(s, Step(s, e));
      case TagRegistered(_, _) =>
        OtherKeepsProcesses(s, e);
        SameProcessesKeepSystem(s, Step(s, e));
      case Sampled(_, _) =>
        OtherKeepsProcesses(s, e);
        SameProcessesKeepSystem(s, Step(s, e));
    }
  }

  lemma AggregateKeepsProcesses<Ref>(s: State<Ref>, e: Event<Ref>)
    requires Closed(s) && e.Aggregated?
    ensures SameProcesses(s, Step(s, e))
  {
    ResolveAllKeepsPids(s, e.order, e.lookup);
  }

  lemma StartKeepsSystem<Ref>(s: State<Ref>, e: Event<Ref>)
    requires Inv(s) && Enabled(s, e) && SystemKnown(s) && e.ProcessStarted? && Closed(Step(s, e))
    ensures SystemKnown(Step(s, e))
  {
    if e.startKey !in s.instanceData {
      InsertLives(s, e.o, NewProcess(e.pid, e.startKey, e.name, e.parentPid, e.sessionId, e.now));
    }
  }

  lemma CleanupKeepsSystem<Ref>(s: State<Ref>, e: Event<Ref>)
    requires Inv(s) && Enabled(s, e) && SystemKnown(s) && e.CleanedUp? && Closed(Step(s, e))
    ensures SystemKnown(Step(s, e))
  {
    hide Cleanup, NextThreshold, IsOrderOf;
    PidsCleanedExactly(s, e.now, e.order);
    CleanupKeepsRecords(s, e.now, e.order);
  }

  lemma {:induction false} ResolveAllKeepsPids<Ref>(s: State<Ref>, order: seq<uint64>, lookup: Lookup)
    ensures var s' := ResolveAll(s, order, lookup).0;
            && s'.pidToCurrentProcessData == s.pidToCurrentProcessData
            && s'.terminatedProcesses == s.terminatedProcesses
            && forall o | o in s.heap :: s'.Info(o).startKey == s.Info(o).startKey
  {
    if order != [] {
      ResolveAllKeepsPids(s, order[..|order| - 1], lookup);
    }
  }

  lemma EndKeepsSystem<Ref>(s: State<Ref>, e: Event<Ref>)
    requires Inv(s) && SystemKnown(s) && e.ProcessEnded? && !EndsSystem(s, e) && Closed(Step(s, e))
    ensures SystemKnown(Step(s, e))
  {
  }

  /** The PID map and the marks are as before, and no record has changed its start key. */
  ghost predicate SameProcesses<Ref>(s: State<Ref>, s': State<Ref>) {
    && s'.pidToCurrentProcessData == s.pidToCurrentProcessData && s'.terminatedProcesses == s.terminatedProcesses
    && forall o | o in s.heap :: o in s'.heap && s'.Info(o).startKey == s.Info(o).startKey
  }

  lemma SameProcessesKeepSystem<Ref>(s: State<Ref>, s': State<Ref>)
    requires Closed(s) && Closed(s') && SystemKnown(s) && SameProcesses(s, s')
    ensures SystemKnown(s')
  {
  }

  lemma ServiceKeepsProcesses<Ref>(s: State<Ref>, o: Ref, tag: uint32)
    requires o in s.heap
    ensures SameProcesses(s, ApplyService(s, o, tag))
  {
    hide ServiceInfo;
    ServiceKeepsKey(s.Info(o), tag, s.serviceTags);
  }

  lemma ThreadKeepsProcesses<Ref>(s: State<Ref>, e: Event<Ref>)
    requires Closed(s) && (e.ThreadStarted? || e.ThreadEnded? || e.ServiceSeen?)
    ensures SameProcesses(s, Step(s, e))
  {
    hide ApplyService, AddThread;
    if e.ThreadStarted? {
      AddThreadKeepsProcesses(s, e.tid, e.pid, e.now, e.tag);
    } else if e.ServiceSeen? && AtPid(s, e.pid).Some? {
      ServiceKeepsProcesses(s, AtPid(s, e.pid).value, e.tag);
    }
  }

  lemma AddThreadKeepsProcesses<Ref>(s: State<Ref>, tid: uint32, pid: uint32, now: int, tag: uint32)
    requires Closed(s)
    ensures SameProcesses(s, AddThread(s, tid, pid, now, tag))
  {
    hide ApplyService;
    if AtPid(s, pid).Some? {
      var o := AtPid(s, pid).value;
      ServiceKeepsProcesses(s.(tidToCurrentProcessData := s.tidToCurrentProcessData[tid := o]), o, tag);
    }
  }

  lemma ImageKeepsProcesses<Ref>(s: State<Ref>, e: Event<Ref>)
    requires Closed(s) && e.ExeLoaded?
    ensures SameProcesses(s, Step(s, e))
  {
    hide IsFullPath;
  }

  lemma RecordKeepsProcesses<Ref>(s: State<Ref>, src: Source, sample: Sample)
    requires Target(s, src).Some? ==> Target(s, src).value in s.heap
    ensures SameProcesses(s, RecordSample(s, src, sample))
  {
    hide Record, Target;
  }

  lemma OtherKeepsProcesses<Ref>(s: State<Ref>, e: Event<Ref>)
    requires Closed(s) && (e.TagRegistered? || e.Sampled?)
    ensures SameProcesses(s, Step(s, e))
  {
    hide RecordSample;
    if e.Sampled? {
      RecordKeepsProcesses(s, e.src, e.sample);
    }
  }

  /**
   Once the System process is known, and as long as no process of its PID ends, every disk read or
   write is charged to a live process: the last fallback never fails.
   */
  lemma {:induction false} DiskIoAlwaysAttributed<Ref>(unknown: Ref, start: int,
      states: seq<State<Ref>>, events: seq<Event<Ref>>, i: nat, n: nat, tid: uint32, headerPid: uint32)
    requires IsRun(unknown, start, states, events) && i <= n <= |events|
    requires Closed(states[i]) && SystemKnown(states[i])
    requires forall x | i <= x < n :: Closed(states[x]) && !EndsSystem(states[x], events[x])
    ensures Closed(states[n]) && SystemKnown(states[n])
    ensures var target := Target(states[n], ByThreadPidOrSystem(tid, headerPid));
            target.Some? && states[n].Live(target.value)
    decreases n - i
  {
    hide Step, Enabled, Inv, Closed, SystemKnown, EndsSystem, Target;
    RunKeepsInvariant(unknown, start, states, events, n);
    InvariantCloses(states[n]);
    if i < n {
      DiskIoAlwaysAttributed(unknown, start, states, events, i, n - 1, tid, headerPid);
      RunKeepsInvariant(unknown, start, states, events, n - 1);
      NthStep(unknown, start, states, events, n - 1);
      StepKeepsSystem(states[n - 1], events[n - 1]);
    }
    SystemCatchesAll(states[n], tid, headerPid);
    TargetIsLive(states[n], ByThreadPidOrSystem(tid, headerPid));
  }

  lemma NthStep<Ref>(unknown: Ref, start: int, states: seq<State<Ref>>, events: seq<Event<Ref>>, n: nat)
    requires IsRun(unknown, start, states, events) && n < |events|
    ensures Next(states[n], events[n], states[n + 1])
  {
  }

  lemma SystemCatchesAll<Ref>(s: State<Ref>, tid: uint32, headerPid: uint32)
    requires Closed(s) && SystemKnown(s)
    ensures Target(s, ByThreadPidOrSystem(tid, headerPid)).Some?
  {
  }

  // ---- the collector object ----

  datatype OpCounts = OpCounts(readOps: nat, writeOps: nat, flushOps: nat)

  class DiskCollector {
    var diskIOCount: map<uint32, OpCounts>
    var diskBytesRead: map<uint32, nat>
    var diskBytesWritten: map<uint32, nat>

    /** The three maps always have the same disks. */
    ghost predicate Valid()
      reads this
    {
      diskIOCount.Keys == diskBytesRead.Keys == diskBytesWritten.Keys
    }

    ghost function View(): (disks: map<uint32, DiskMetrics>)
      reads this
      requires Valid()
      ensures disks.Keys == diskIOCount.Keys
    {
      map disk | disk in diskIOCount ::
        DiskMetrics(diskIOCount[disk].readOps, diskIOCount[disk].writeOps, diskIOCount[disk].flushOps,
                    diskBytesRead[disk], diskBytesWritten[disk])
    }

    constructor ()
      ensures Valid() && View() == map[]
    {
      diskIOCount, diskBytesRead, diskBytesWritten := map[], map[], map[];
    }

    method EnsureDisk(disk: uint32)
      requires Valid()
      modifies this
      ensures Valid() && disk in View() && DiskAt(View(), disk) == DiskAt(old(View()), disk)
      ensures View() == if disk in old(View()) then old(View()) else old(View())[disk := NO_DISK_METRICS]
    {
      if disk !in diskIOCount {
        CreateDiskIoCounts(disk);
      }
    }

    method CreateDiskIoCounts(disk: uint32)
      requires Valid() && disk !in View()
      modifies this
      ensures Valid() && View() == old(View())[disk := NO_DISK_METRICS]
    {
      diskIOCount := diskIOCount[disk := OpCounts(0, 0, 0)];
      diskBytesRead := diskBytesRead[disk := 0];
      diskBytesWritten := diskBytesWritten[disk := 0];
    }

    method RecordSystemIO(disk: uint32, transferSize: uint32, isWrite: bool)
      requires Valid()
      modifies this
      ensures Valid()
      ensures View() == old(View())[disk := RecordDisk(DiskAt(old(View()), disk), transferSize, isWrite)]
    {
      hide DiskCollector.View;
      EnsureDisk(disk);
      ViewedAt(disk);
      var ops := diskIOCount[disk];
      if isWrite {
        AddWrite(disk, ops.(writeOps := ops.writeOps + 1), diskBytesWritten[disk] + transferSize);
      } else {
        AddRead(disk, ops.(readOps := ops.readOps + 1), diskBytesRead[disk] + transferSize);
      }
    }

    lemma ViewedAt(disk: uint32)
      requires Valid() && disk in View()
      ensures disk in diskIOCount
      ensures var d := View()[disk];
              && diskIOCount[disk] == OpCounts(d.readOps, d.writeOps, d.flushOps)
              && diskBytesRead[disk] == d.bytesRead && diskBytesWritten[disk] == d.bytesWritten
    {
    }

    method AddWrite(disk: uint32, ops: OpCounts, bytes: nat)
      requires Valid() && disk in View()
      modifies this`diskIOCount, this`diskBytesWritten
      ensures Valid()
      ensures View() == old(View())[
                disk := DiskMetrics(ops.readOps, ops.writeOps, ops.flushOps, diskBytesRead[disk], bytes)]
    {
      diskIOCount := diskIOCount[disk := ops];
      diskBytesWritten := diskBytesWritten[disk := bytes];
    }

    method AddRead(disk: uint32, ops: OpCounts, bytes: nat)
      requires Valid() && disk in View()
      modifies this`diskIOCount, this`diskBytesRead
      ensures Valid()
      ensures View() == old(View())[
                disk := DiskMetrics(ops.readOps, ops.writeOps, ops.flushOps, bytes, diskBytesWritten[disk])]
    {
      diskIOCount := diskIOCount[disk := ops];
      diskBytesRead := diskBytesRead[disk := bytes];
    }

    /** A flush names no process: only the system-wide counter knows it. */
    method RecordDiskFlush(disk: uint32)
      requires Valid()
      modifies this
      ensures Valid()
      ensures View() == old(View())[
                disk := DiskAt(old(View()), disk).(flushOps := DiskAt(old(View()), disk).flushOps + 1)]
    {
      EnsureDisk(disk);
      var ops := diskIOCount[disk];
      diskIOCount := diskIOCount[disk := ops.(flushOps := ops.flushOps + 1)];
    }

    /**
     One read or write event: the system counter grows in any case, the process's counter if a
     process is found, in the order thread, header PID, System.
     */
    method HandleDiskIO(manager: KernelStateManager, issuingTid: uint32, headerPid: uint32,
                        disk: uint32, transferSize: uint32, isWrite: bool)
      requires Valid() && manager.Valid()
      modifies this, manager.records
      ensures Valid() && manager.Valid()
      ensures View() == old(View())[disk := RecordDisk(DiskAt(old(View()), disk), transferSize, isWrite)]
      ensures var e := Sampled(ByThreadPidOrSystem(issuingTid, headerPid), DiskIO(disk, transferSize, isWrite));
              Next(old(manager.View()), e, manager.View())
      ensures ChargesDisk(old(manager.View()), manager.View(), issuingTid, headerPid,
                          DiskIO(disk, transferSize, isWrite))
    {
      hide ChargesDisk, Inv, KernelStateManager.View, KernelStateManager.Heap, Closed, Step, Enabled, Target,
           RecordSample;
      ghost var s := manager.View();
      InvariantIsClosed(s);
      var src := ByThreadPidOrSystem(issuingTid, headerPid);
      RecordSystemIO(disk, transferSize, isWrite);
      var _ := manager.Attribute(src, DiskIO(disk, transferSize, isWrite));
      DirectStep(s, Sampled(src, DiskIO(disk, transferSize, isWrite)));
      ChargedExactly(s, src, DiskIO(disk, transferSize, isWrite));
    }
  }

  /** The same, up to the choices of the manager. */
  ghost predicate SameObserved<Ref>(e: DiskEvent<Ref>, f: DiskEvent<Ref>) {
    match e
    case Observed(event) => f.Observed? && SameRequest(event, f.event)
    case DiskFlushed(_) => f == e
  }

  /** Reads and writes come with the thread and the PID of the disk handlers. */
  predicate FromDiskHandler<Ref>(e: DiskEvent<Ref>) {
    e.Observed? && e.event.Sampled? && e.event.sample.DiskIO? ==> e.event.src.ByThreadPidOrSystem?
  }

  lemma StartOfRun<Ref>(unknown: Ref, start: int)
    ensures IsRun(unknown, start, [Init(unknown, start)], LifecycleEvents([]))
    ensures LifecycleEvents<Ref>([]) == [] && SystemDisks<Ref>([]) == map[]
  {
  }

  /** One event more: the run grows by it, or not at all. */
  lemma GrowRun<Ref>(unknown: Ref, start: int, states: seq<State<Ref>>, fired: seq<DiskEvent<Ref>>,
                     e: DiskEvent<Ref>, s': State<Ref>)
    requires IsRun(unknown, start, states, LifecycleEvents(fired))
    requires var last := states[|LifecycleEvents(fired)|]; if e.Observed? then Next(last, e.event, s') else s' == last
    ensures var states' := if e.Observed? then states + [s'] else states;
            && IsRun(unknown, start, states', LifecycleEvents(fired + [e]))
            && |states'| == |LifecycleEvents(fired + [e])| + 1 && states'[|LifecycleEvents(fired + [e])|] == s'
    ensures SystemDisks(fired + [e]) == AfterDiskEvent(SystemDisks(fired), e)
  {
    hide Next, AfterDiskEvent;
    assert (fired + [e])[..|fired|] == fired;
    assert LifecycleEvents(fired + [e]) == LifecycleEvents(fired) + (if e.Observed? then [e.event] else []);
  }

  /** One event for the collector and the manager. */
  method HandleOne(c: DiskCollector, manager: KernelStateManager, e: DiskEvent<ProcessData?>)
    returns (ghost fired: DiskEvent<ProcessData?>)
    requires c.Valid() && manager.Valid() && manager.images.Valid() && manager.snapshots.Valid() && FromDiskHandler(e)
    modifies c, manager, manager.records, manager.timer, manager.timer.scrapeDurations, manager.images,
             manager.snapshots, manager.snapshots.resultMaps
    ensures c.Valid() && manager.Valid() && manager.images.Valid() && manager.snapshots.Valid()
    ensures manager.images.records == old(manager.images.records) && fresh(manager.records - old(manager.records))
    ensures fresh(manager.snapshots.resultMaps - old(manager.snapshots.resultMaps))
    ensures SameObserved(e, fired) && c.View() == AfterDiskEvent(old(c.View()), fired)
    ensures if fired.Observed? then Next(old(manager.View()), fired.event, manager.View())
            else manager.View() == old(manager.View())
  {
    hide Inv, Next, SameRequest, KernelStateManager.View, KernelStateManager.Valid, DiskCollector.View,
         DiskCollector.Valid, Images.ImageManager.Valid, SnapshotStore.Valid, RecordDisk;
    fired := e;
    if e.DiskFlushed? {
      c.RecordDiskFlush(e.disk);
    } else if e.event.Sampled? && e.event.sample.DiskIO? {
      SampleIsItself(e.event);
      c.HandleDiskIO(manager, e.event.src.tid, e.event.src.headerPid,
                     e.event.sample.disk, e.event.sample.transferSize, e.event.sample.isWrite);
    } else {
      ghost var handled := manager.Handle(e.event);
      fired := Observed(handled);
      NoDiskSample(e.event, handled, c.View());
    }
  }

  lemma SampleIsItself<Ref>(e: Event<Ref>)
    requires e.Sampled?
    ensures SameRequest(e, e)
  {
  }

  lemma NoDiskSample<Ref>(e: Event<Ref>, f: Event<Ref>, disks: map<uint32, DiskMetrics>)
    requires SameRequest(e, f) && !(e.Sampled? && e.sample.DiskIO?)
    ensures AfterDiskEvent(disks, Observed(f)) == disks
  {
  }

  /**
   Any sequence of events drives the manager along a run and the collector to that run's system
   counters: the balance of all runs holds between the two objects.
   */
  method Drive(c: DiskCollector, manager: KernelStateManager, seen: seq<DiskEvent<ProcessData?>>,
               ghost unknown: ProcessData?, ghost start: int)
    returns (ghost states: seq<State<ProcessData?>>, ghost fired: seq<DiskEvent<ProcessData?>>)
    requires manager.Valid() && manager.images.Valid() && manager.snapshots.Valid()
    requires c.Valid() && c.View() == map[] && manager.View() == Init(unknown, start)
    requires forall i | 0 <= i < |seen| :: FromDiskHandler(seen[i])
    modifies c, manager, manager.records, manager.timer, manager.timer.scrapeDurations, manager.images,
             manager.snapshots, manager.snapshots.resultMaps
    ensures |states| == |LifecycleEvents(fired)| + 1
    ensures |fired| == |seen| && forall i | 0 <= i < |seen| :: SameObserved(seen[i], fired[i])
    ensures IsRun(unknown, start, states, LifecycleEvents(fired))
    ensures manager.Valid() && manager.View() == states[|LifecycleEvents(fired)|]
    ensures c.Valid() && c.View() == SystemDisks(fired)
  {
    hide Inv, Next, SameObserved, Images.ImageManager.Valid, SnapshotStore.Valid, KernelStateManager.View,
         DiskCollector.View, DiskCollector.Valid, AfterDiskEvent, IsRun, LifecycleEvents, SystemDisks, Init;
    StartOfRun(unknown, start);
    states, fired := [manager.View()], [];
    for i := 0 to |seen|
      invariant c.Valid() && c.View() == SystemDisks(fired)
      invariant manager.Valid() && manager.images.Valid() && manager.snapshots.Valid()
      invariant manager.images.records == old(manager.images.records) && fresh(manager.records - old(manager.records))
      invariant fresh(manager.snapshots.resultMaps - old(manager.snapshots.resultMaps))
      invariant |fired| == i && forall j | 0 <= j < i :: SameObserved(seen[j], fired[j])
      invariant |states| == |LifecycleEvents(fired)| + 1 && IsRun(unknown, start, states, LifecycleEvents(fired))
      invariant states[|LifecycleEvents(fired)|] == manager.View()
    {
      ghost var e := HandleOne(c, manager, seen[i]);
      GrowRun(unknown, start, states, fired, e, manager.View());
      if e.Observed? {
        states := states + [manager.View()];
      }
      fired := fired + [e];
    }
  }
}
