/**
 Three runs of the manager, from its start: a PID keeps a placeholder, a thread
 that is running loses its TID, and two walks over one state show different counts.
 */
module ExampleRuns {
  import opened Words
  import opened Counters
  import opened ScrapeClock
  import opened Lifecycle
  import opened LifecycleRuns
  import opened CleanupExact
  import opened Conservation
  import opened Identity
  import opened PassOrder
  import opened SnapshotOrder

  /** What holds before the first cleanup of an example, read off its events. */
  datatype Facts = Facts(
    instances: map<uint64, nat>,
    marked: map<uint64, nat>,
    keys: map<uint32, uint64>,
    pids: map<uint32, nat>,
    tids: map<uint32, nat>,
    threads: map<uint32, TerminationRecord>,
    heap: map<nat, Proc>)

  ghost predicate Has(s: State<nat>, f: Facts) {
    && Inv(s) && s.scrapeCounter == 0 && s.clock == Started(0) && s.serviceTags == map[]
    && s.instanceData == f.instances && s.terminatedProcesses == f.marked && s.heap == f.heap
    && s.pidToCurrentStartKey == f.keys && s.pidToCurrentProcessData == f.pids
    && s.tidToCurrentProcessData == f.tids && s.terminatedThreads == f.threads
  }

  const AT_START := Facts(map[1 := 0], map[], map[], map[], map[], map[], map[0 := UnknownProcess(0)])

  lemma AtStart()
    ensures Has(Init(0, 0), AT_START)
  {
    InitKeepsInvariant(0, 0);
  }

  // ---- what each event adds ----

  function Joined(f: Facts, o: nat, pid: uint32, startKey: uint64, name: string): Facts {
    f.(instances := f.instances[startKey := o], keys := f.keys[pid := startKey], pids := f.pids[pid := o],
       heap := f.heap[o := NewProcess(pid, startKey, name, 0, 0, 0)])
  }

  lemma Joins(s: State<nat>, f: Facts, o: nat, pid: uint32, startKey: uint64, name: string) returns (s': State<nat>)
    requires Has(s, f) && startKey !in f.instances && o !in f.heap
    ensures Next(s, ProcessStarted(o, pid, startKey, name, 0, 0, 0), s') && Has(s', Joined(f, o, pid, startKey, name))
  {
    hide Inv, NewProcess;
    var e := ProcessStarted(o, pid, startKey, name, 0, 0, 0);
    InvariantCloses(s);
    StepKeepsInvariant(s, e);
    NewProcessKeys(e);
    s' := Step(s, e);
  }

  lemma NewProcessKeys<Ref>(e: Event<Ref>)
    requires e.ProcessStarted?
    ensures var info := NewProcess(e.pid, e.startKey, e.name, e.parentPid, e.sessionId, e.now).info;
            info.pid == e.pid && info.startKey == e.startKey
  {
  }

  function Left(f: Facts, o: nat, startKey: uint64): Facts
    requires o in f.heap
  {
    f.(marked := f.marked[startKey := 0],
       heap := f.heap[o := f.heap[o].(info := TerminatedInfo(f.heap[o].info, 1))])
  }

  lemma Leaves(s: State<nat>, f: Facts, o: nat, startKey: uint64) returns (s': State<nat>)
    requires Has(s, f) && o in f.heap && startKey in f.instances && f.instances[startKey] == o
    ensures Next(s, ProcessEnded(startKey, 1), s') && Has(s', Left(f, o, startKey))
  {
    hide Inv, TerminatedInfo;
    InvariantCloses(s);
    StepKeepsInvariant(s, ProcessEnded(startKey, 1));
    s' := Step(s, ProcessEnded(startKey, 1));
  }

  function ThreadOn(f: Facts, o: nat, tid: uint32, tag: uint32): Facts
    requires o in f.heap
  {
    f.(tids := f.tids[tid := o],
       heap := f.heap[o := f.heap[o].(info := ServiceInfo(f.heap[o].info, tag, map[]))])
  }

  lemma StartsThread(s: State<nat>, f: Facts, o: nat, tid: uint32, pid: uint32, tag: uint32) returns (s': State<nat>)
    requires Has(s, f) && o in f.heap && pid in f.pids && f.pids[pid] == o && f.heap[o].info.createTime == 0
    ensures Next(s, ThreadStarted(tid, pid, 0, tag), s') && Has(s', ThreadOn(f, o, tid, tag))
  {
    hide Inv, ServiceInfo;
    InvariantCloses(s);
    StepKeepsInvariant(s, ThreadStarted(tid, pid, 0, tag));
    s' := Step(s, ThreadStarted(tid, pid, 0, tag));
  }

  lemma EndsThread(s: State<nat>, f: Facts, o: nat, tid: uint32) returns (s': State<nat>)
    requires Has(s, f) && tid in f.tids && f.tids[tid] == o && o in f.heap
    ensures Next(s, ThreadEnded(tid), s')
    ensures Has(s', f.(threads := f.threads[tid := TerminationRecord(0, f.heap[o].info.startKey)]))
  {
    hide Inv;
    InvariantCloses(s);
    StepKeepsInvariant(s, ThreadEnded(tid));
    s' := Step(s, ThreadEnded(tid));
  }

  function FaultIn(f: Facts, o: nat): Facts
    requires o in f.heap
  {
    f.(heap := f.heap[o := f.heap[o].(counters := Record(f.heap[o].counters, HardPageFault))])
  }

  lemma Faults(s: State<nat>, f: Facts, o: nat, tid: uint32) returns (s': State<nat>)
    requires Has(s, f) && tid in f.tids && f.tids[tid] == o && o in f.heap
    ensures Next(s, Sampled(ByThreadOrUnknown(tid), HardPageFault), s') && Has(s', FaultIn(f, o))
  {
    hide Inv, Record;
    InvariantCloses(s);
    StepKeepsInvariant(s, Sampled(ByThreadOrUnknown(tid), HardPageFault));
    s' := Step(s, Sampled(ByThreadOrUnknown(tid), HardPageFault));
  }

  /** The next cleanup, after a gap of more than 60 s. */
  lemma Cleans(s: State<nat>, f: Facts, order: seq<uint64>) returns (s': State<nat>)
    requires Has(s, f) && IsOrderOf(order, f.marked.Keys) && forall k | k in f.marked :: f.marked[k] == 0
    ensures Next(s, CleanedUp(90_000_000_000, order), s') && Inv(s')
    ensures NextThreshold(s, 90_000_000_000) == 1
    ensures Cleaned(s, 90_000_000_000) == f.marked.Keys
    ensures s' == Cleanup(s, 90_000_000_000, order)
  {
    hide Inv, Cleanup;
    var e := CleanedUp(90_000_000_000, order);
    InvariantCloses(s);
    assert Cleaned(s, e.now) == f.marked.Keys;
    StepKeepsInvariant(s, e);
    s' := Step(s, e);
  }

  // ---- a PID keeps a placeholder ----

  /** Two processes of PID 7 start and end, and the newer one is cleaned first. */
  function PlaceholderEvents(): seq<Event<nat>> {
    [ProcessStarted(1, 7, 10, "a", 0, 0, 0), ProcessStarted(2, 7, 20, "b", 0, 0, 0),
     ProcessEnded(10, 1), ProcessEnded(20, 1), CleanedUp(90_000_000_000, [20, 10])]
  }

  ghost predicate TwoEnded(f: Facts) {
    && f.instances == map[1 := 0, 10 := 1, 20 := 2] && f.marked == map[10 := 0, 20 := 0]
    && f.keys == map[7 := 20] && f.pids == map[7 := 2] && f.heap.Keys == {0, 1, 2}
    && f.heap[0].info.pid == 0xFFFF_FFFF && f.heap[1].info.pid == 7 && f.heap[2].info.pid == 7
    && f.heap[2].info.startKey == 20
  }

  lemma UpToTheEnds() returns (states: seq<State<nat>>, f: Facts)
    ensures |states| == 5 && states[0] == Init(0, 0) && Has(states[4], f) && TwoEnded(f)
    ensures forall i | 0 <= i < 4 :: Next(states[i], PlaceholderEvents()[i], states[i + 1])
  {
    hide Next, Has;
    AtStart();
    var f0 := AT_START;
    var f1 := Joined(f0, 1, 7, 10, "a");
    var f2 := Joined(f1, 2, 7, 20, "b");
    var f3 := Left(f2, 1, 10);
    f := Left(f3, 2, 20);
    var s0 := Init(0, 0);
    var s1 := Joins(s0, f0, 1, 7, 10, "a");
    var s2 := Joins(s1, f1, 2, 7, 20, "b");
    var s3 := Leaves(s2, f2, 1, 10);
    var s4 := Leaves(s3, f3, 2, 20);
    states := [s0, s1, s2, s3, s4];
  }

  /** The walk meets the newer process first, forgets the PID, and leaves a placeholder for the older one. */
  lemma WalkLeavesPlaceholder()
    ensures CleanPidKeys(map[7 := 20], map[1 := 0xFFFF_FFFF, 10 := 7, 20 := 7], [20, 10]) == map[7 := 0]
  {
    var keys: map<uint32, uint64> := map[7 := 20];
    var pidOf: map<uint64, uint32> := map[1 := 0xFFFF_FFFF, 10 := 7, 20 := 7];
    var order: seq<uint64> := [20, 10];
    assert order[..1] == [20] && order[..1][..0] == [];
    assert CleanPidKeys(keys, pidOf, order[..1]) == map[];
  }

  lemma LeavesPlaceholder(s: State<nat>, f: Facts) returns (s': State<nat>)
    requires Has(s, f) && TwoEnded(f)
    ensures Next(s, PlaceholderEvents()[4], s')
    ensures s'.pidToCurrentStartKey == map[7 := 0] && 7 !in s'.pidToCurrentProcessData
  {
    hide Inv, Next, CleanPidKeys, Cleanup, NextThreshold, Cleaned, PidsOf, IsOrderOf;
    WalkLeavesPlaceholder();
    TwoInOrder(f);
    s' := Cleans(s, f, [20, 10]);
    InvariantCloses(s);
    PidKeysAfterCleanup(s, 90_000_000_000, [20, 10]);
    PidsCleanedExactly(s, 90_000_000_000, [20, 10]);
    PidsOfTwo(s, f);
  }

  lemma TwoInOrder(f: Facts)
    requires TwoEnded(f)
    ensures IsOrderOf([20, 10], f.marked.Keys) && 20 in f.marked.Keys
  {
  }

  lemma PidsOfTwo(s: State<nat>, f: Facts)
    requires Has(s, f) && TwoEnded(f)
    ensures PidsOf(s) == map[1 := 0xFFFF_FFFF, 10 := 7, 20 := 7]
  {
    hide Inv;
  }

  /** At the end of the run PID 7 has no process, and the start key 0. */
  lemma PlaceholderRun() returns (states: seq<State<nat>>)
    ensures IsRun(0, 0, states, PlaceholderEvents())
    ensures states[5].pidToCurrentStartKey == map[7 := 0] && 7 !in states[5].pidToCurrentProcessData
  {
    hide Next, Has;
    var first, f := UpToTheEnds();
    var s5 := LeavesPlaceholder(first[4], f);
    states := first + [s5];
  }

  // ---- a running thread loses its TID ----

  /** A thread ends, another one starts on its TID in the same process, and the old record expires. */
  function RestartEvents(): seq<Event<nat>> {
    [ProcessStarted(1, 7, 10, "a", 0, 0, 0), ThreadStarted(5, 7, 0, 0), ThreadEnded(5), ThreadStarted(5, 7, 0, 0),
     CleanedUp(90_000_000_000, [])]
  }

  /** At the end of the run the second thread has not ended, its process is live, and its TID leads nowhere. */
  lemma RestartRun() returns (states: seq<State<nat>>)
    ensures IsRun(0, 0, states, RestartEvents())
    ensures 5 in states[4].tidToCurrentProcessData && 5 !in states[5].tidToCurrentProcessData
    ensures 7 in states[5].pidToCurrentProcessData && 10 in states[5].instanceData
            && 10 !in states[5].terminatedProcesses
  {
    hide Next, Has;
    AtStart();
    var f0, s0 := AT_START, Init(0, 0);
    var f1 := Joined(f0, 1, 7, 10, "a");
    var s1 := Joins(s0, f0, 1, 7, 10, "a");
    var f2 := ThreadOn(f1, 1, 5, 0);
    var s2 := StartsThread(s1, f1, 1, 5, 7, 0);
    var f3 := f2.(threads := f2.threads[5 := TerminationRecord(0, f2.heap[1].info.startKey)]);
    var s3 := EndsThread(s2, f2, 1, 5);
    var f4 := ThreadOn(f3, 1, 5, 0);
    var s4 := StartsThread(s3, f3, 1, 5, 7, 0);
    var s5 := LosesThread(s4, f4);
    states := [s0, s1, s2, s3, s4, s5];
  }

  lemma LosesThread(s: State<nat>, f: Facts) returns (s': State<nat>)
    requires Has(s, f) && f.marked == map[] && f.instances == map[1 := 0, 10 := 1] && f.pids == map[7 := 1]
    requires f.tids == map[5 := 1] && f.threads == map[5 := TerminationRecord(0, 10)]
    requires 1 in f.heap && f.heap[1].info.startKey == 10
    ensures Next(s, RestartEvents()[4], s')
    ensures 5 in s.tidToCurrentProcessData && 5 !in s'.tidToCurrentProcessData
    ensures 7 in s'.pidToCurrentProcessData && 10 in s'.instanceData && 10 !in s'.terminatedProcesses
  {
    hide Inv, Next, Cleanup, NextThreshold, Cleaned;
    s' := Cleans(s, f, []);
    InvariantCloses(s);
    ThreadsCleanedExactly(s, 90_000_000_000, []);
    PidsCleanedExactly(s, 90_000_000_000, []);
    CleanupKeepsRecords(s, 90_000_000_000, []);
    ThreadExpires(s, f, NextThreshold(s, 90_000_000_000));
  }

  lemma ThreadExpires(s: State<nat>, f: Facts, threshold: nat)
    requires Has(s, f) && threshold == 1 && f.tids == map[5 := 1] && f.threads == map[5 := TerminationRecord(0, 10)]
    requires 1 in f.heap && f.heap[1].info.startKey == 10
    ensures ExpiredThread(s, 5, threshold)
  {
  }

  // ---- two walks show different counts ----

  /** Two programs, each with one process and a thread of the service tag 7; the first process has a fault. */
  function TwoServicesEvents(): seq<Event<nat>> {
    [ProcessStarted(1, 100, 10, "a", 0, 0, 0), ProcessStarted(2, 200, 20, "b", 0, 0, 0),
     ThreadStarted(5, 100, 0, 7), ThreadStarted(6, 200, 0, 7), Sampled(ByThreadOrUnknown(5), HardPageFault)]
  }

  ghost predicate TwoServices(f: Facts) {
    && f.instances == map[1 := 0, 10 := 1, 20 := 2] && 1 in f.heap && 2 in f.heap
    && Unresolved(f.heap[1].info) && KeyOf(f.heap[1].info) == ProgramKey("a", "", 0, 0)
    && Unresolved(f.heap[2].info) && KeyOf(f.heap[2].info) == ProgramKey("b", "", 0, 0)
    && f.heap[1].info.subProcessTag == f.heap[2].info.subProcessTag
    && Count(f.heap[1].counters, HardPageFaults) == 1
  }

  ghost predicate TwoWait(f: Facts) {
    && f.instances == map[1 := 0, 10 := 1, 20 := 2] && 1 in f.heap && 2 in f.heap && 5 in f.tids && f.tids[5] == 1
    && Unresolved(f.heap[1].info) && KeyOf(f.heap[1].info) == ProgramKey("a", "", 0, 0)
    && Unresolved(f.heap[2].info) && KeyOf(f.heap[2].info) == ProgramKey("b", "", 0, 0)
    && f.heap[1].info.subProcessTag == f.heap[2].info.subProcessTag
    && f.heap[1].counters == NoCounters()
  }

  lemma TwoPrograms() returns (states: seq<State<nat>>)
    ensures |states| == 3 && states[0] == Init(0, 0)
    ensures Has(states[2], Joined(Joined(AT_START, 1, 100, 10, "a"), 2, 200, 20, "b"))
    ensures Next(states[0], TwoServicesEvents()[0], states[1]) && Next(states[1], TwoServicesEvents()[1], states[2])
  {
    hide Next, Has;
    AtStart();
    var s1 := Joins(Init(0, 0), AT_START, 1, 100, 10, "a");
    var s2 := Joins(s1, Joined(AT_START, 1, 100, 10, "a"), 2, 200, 20, "b");
    states := [Init(0, 0), s1, s2];
  }

  lemma UpToTheThreads() returns (states: seq<State<nat>>, f: Facts)
    ensures |states| == 5 && states[0] == Init(0, 0) && Has(states[4], f) && TwoWait(f)
    ensures forall i | 0 <= i < 4 :: Next(states[i], TwoServicesEvents()[i], states[i + 1])
  {
    hide Next, Has, NoCounters, Init;
    var first := TwoPrograms();
    var f2 := Joined(Joined(AT_START, 1, 100, 10, "a"), 2, 200, 20, "b");
    var f3 := ThreadOn(f2, 1, 5, 7);
    var s3 := StartsThread(first[2], f2, 1, 5, 100, 7);
    f := ThreadOn(f3, 2, 6, 7);
    var s4 := StartsThread(s3, f3, 2, 6, 200, 7);
    states := first + [s3, s4];
  }

  lemma UpToTheFault() returns (states: seq<State<nat>>, f: Facts)
    ensures |states| == 6 && IsRun(0, 0, states, TwoServicesEvents()) && Has(states[5], f) && TwoServices(f)
  {
    hide Next, Has, Record, Count, NoCounters;
    var first, before := UpToTheThreads();
    f := FaultIn(before, 1);
    NothingCounted(HardPageFaults);
    RecordAdds(NoCounters(), HardPageFault, HardPageFaults);
    var s5 := Faults(first[4], before, 1, 5);
    states := first + [s5];
  }

  /** Two walks over the last state of the run: only the one shows the fault under the name of the service. */
  lemma TwoServicesRun() returns (states: seq<State<nat>>)
    ensures IsRun(0, 0, states, TwoServicesEvents()) && Closed(states[5])
    ensures var s, lookup := states[5], (pid: uint32, tag: uint32) => Some("Dhcp");
            && IsOrderOf([10, 20, 1], s.instanceData.Keys) && IsOrderOf([20, 10, 1], s.instanceData.Keys)
            && Shown(s, [10, 20, 1], lookup, ProgramKey("a", "Dhcp", 0, 0), HardPageFaults)
               == Shown(s, [20, 10, 1], lookup, ProgramKey("a", "Dhcp", 0, 0), HardPageFaults) + 1
  {
    hide Next, Has, Inv, Shown, Moves;
    var f;
    states, f := UpToTheFault();
    var s, lookup := states[5], (pid: uint32, tag: uint32) => Some("Dhcp");
    TwoServicesMove(s, f, lookup);
    assert [10, 20, 1] == [10, 20] + [1] && [20, 10, 1] == [20, 10] + [1];
    SwapShows(s, [1], lookup, 10, 20, ProgramKey("a", "Dhcp", 0, 0), HardPageFaults);
  }

  lemma TwoServicesMove(s: State<nat>, f: Facts, lookup: Lookup)
    requires Has(s, f) && TwoServices(f) && lookup == ((pid: uint32, tag: uint32) => Some("Dhcp"))
    ensures Inv(s) && Closed(s) && SameTag(s, 10, 20) && s.instanceData.Keys == {1, 10, 20}
    ensures Moves(s, lookup, 10, ProgramKey("a", "Dhcp", 0, 0), HardPageFaults) == 1
    ensures Moves(s, lookup, 20, ProgramKey("a", "Dhcp", 0, 0), HardPageFaults) == 0
  {
    hide Inv, Count;
    InvariantCloses(s);
  }
}
