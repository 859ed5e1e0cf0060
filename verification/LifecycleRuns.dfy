/**
 Every event the lifecycle reacts to, the invariant that each of them keeps,
 and what follows for whole runs.
 */
module LifecycleRuns {
  import opened Words
  import opened Counters
  import opened ScrapeClock
  import opened Lifecycle

  datatype Event<Ref> =
    | ProcessStarted(o: Ref, pid: uint32, startKey: uint64, name: string, parentPid: uint32,
                     sessionId: uint32, now: int)
    | ProcessEnded(startKey: uint64, terminationTime: int)
    | ExeLoaded(pid: uint32, checksum: uint64, imageName: string)
    | ThreadStarted(tid: uint32, pid: uint32, now: int, tag: uint32)
    | ThreadEnded(tid: uint32)
    | TagRegistered(tag: uint32, serviceName: string)
    | ServiceSeen(pid: uint32, tag: uint32)
    | Sampled(src: Source, sample: Sample)
    | Aggregated(order: seq<uint64>, lookup: Lookup)
    | CleanedUp(now: int, order: seq<uint64>)

  ghost predicate Enabled<Ref>(s: State<Ref>, e: Event<Ref>)
    requires s.clock.Valid()
  {
    match e
    case ProcessStarted(o, _, startKey, _, _, _, _) => startKey !in s.instanceData ==> Available(s, o)
    case Aggregated(order, _) => IsOrderOf(order, s.instanceData.Keys)
    case CleanedUp(now, order) => IsOrderOf(order, Expired(s.terminatedProcesses, NextThreshold(s, now)))
    case _ => true
  }

  ghost function Step<Ref>(s: State<Ref>, e: Event<Ref>): State<Ref>
    requires Closed(s)
  {
    match e
    case ProcessStarted(o, pid, startKey, name, parentPid, sessionId, now) =>
      AddProcess(s, o, pid, startKey, name, parentPid, sessionId, now)
    case ProcessEnded(startKey, terminationTime) => MarkProcess(s, startKey, terminationTime)
    case ExeLoaded(pid, checksum, imageName) => Enrich(s, pid, checksum, imageName)
    case ThreadStarted(tid, pid, now, tag) => AddThread(s, tid, pid, now, tag)
    case ThreadEnded(tid) => MarkThread(s, tid)
    case TagRegistered(tag, serviceName) => RegisterServiceTag(s, tag, serviceName)
    case ServiceSeen(pid, tag) =>
      if AtPid(s, pid).Some? then ApplyService(s, AtPid(s, pid).value, tag) else s
    case Sampled(src, sample) => RecordSample(s, src, sample)
    case Aggregated(order, lookup) => ResolveAll(s, order, lookup).0
    case CleanedUp(now, order) => Cleanup(s, now, order)
  }

  /** An event is always charged to a live record. */
  lemma TargetIsLive<Ref>(s: State<Ref>, src: Source)
    requires Inv(s)
    ensures Target(s, src).Some? ==> s.Live(Target(s, src).value)
  {
  }

  lemma FiledIsLive<Ref>(s: State<Ref>, k: uint64)
    requires Inv(s) && k in s.instanceData
    ensures s.Live(s.instanceData[k]) && s.Info(s.instanceData[k]).startKey == k
  {
  }

  lemma MarksHaveThreads<Ref>(s: State<Ref>)
    requires Inv(s)
    ensures s.terminatedThreads.Keys <= s.tidToCurrentProcessData.Keys
  {
  }

  lemma LiveSystemUntagged<Ref>(s: State<Ref>, o: Ref)
    requires Inv(s) && s.Live(o)
    ensures IsSystemName(s.Info(o).name) ==> Untagged(s.Info(o))
  {
  }

  // ---- the invariant, operation by operation ----

  lemma InitKeepsInvariant<Ref>(unknown: Ref, now: int)
    ensures Inv(Init(unknown, now))
  {
  }

  /** Replacing the contents of a live record, its key and PID apart. */
  lemma UpdateKeepsInvariant<Ref>(s: State<Ref>, o: Ref, proc: Proc)
    requires Inv(s) && s.Live(o)
    requires proc.info.startKey == s.Info(o).startKey && proc.info.pid == s.Info(o).pid
    requires IsSystemName(proc.info.name) ==> Untagged(proc.info)
    ensures Inv(s.(heap := s.heap[o := proc]))
  {
    var s' := s.(heap := s.heap[o := proc]);
    assert forall r | r in s.heap :: s'.Info(r).startKey == s.Info(r).startKey && s'.Info(r).pid == s.Info(r).pid;
    assert forall r :: s'.Live(r) <==> s.Live(r);
  }

  /** A new instance lives in the record it was given, and all others are untouched. */
  lemma InsertLives<Ref>(s: State<Ref>, o: Ref, proc: Proc)
    requires Inv(s) && proc.info.startKey !in s.instanceData && Available(s, o)
    ensures !s.Live(o) && Insert(s, o, proc).Live(o)
    ensures forall r | r != o :: Insert(s, o, proc).Live(r) <==> s.Live(r)
  {
    assert forall k | k in s.instanceData :: s.Live(s.instanceData[k]);
  }

  lemma InsertKeepsPool<Ref>(s: State<Ref>, o: Ref, proc: Proc)
    requires Inv(s) && proc.info.startKey !in s.instanceData && Available(s, o)
    ensures var s' := Insert(s, o, proc); PoolIsFree(s'.pool, s'.instanceData, s'.heap)
  {
    InsertLives(s, o, proc);
    var s' := Insert(s, o, proc);
    assert forall r | r != o :: s'.pool[r] == s.pool[r];
    assert s'.pool[o] == 0;
    assert forall r | r in s'.pool :: r in s.pool && !s'.Live(r);
  }

  lemma InsertKeepsPids<Ref>(s: State<Ref>, o: Ref, proc: Proc)
    requires Inv(s) && proc.info.startKey !in s.instanceData && Available(s, o)
    ensures var s' := Insert(s, o, proc);
            && PidsAreLive(s'.pidToCurrentProcessData, s'.instanceData, s'.heap)
            && PidMapsAgree(s'.pidToCurrentStartKey, s'.pidToCurrentProcessData, s'.heap)
  {
    InsertLives(s, o, proc);
  }

  lemma InsertKeepsTids<Ref>(s: State<Ref>, o: Ref, proc: Proc)
    requires Inv(s) && proc.info.startKey !in s.instanceData && Available(s, o)
    ensures var s' := Insert(s, o, proc); TidsAreLive(s'.tidToCurrentProcessData, s'.instanceData, s'.heap)
  {
    InsertLives(s, o, proc);
    hide Insert;
    assert forall t | t in s.tidToCurrentProcessData :: s.Live(s.tidToCurrentProcessData[t]);
    assert Insert(s, o, proc).tidToCurrentProcessData == s.tidToCurrentProcessData by {
      InsertKeepsRest(s, o, proc);
    }
  }

  /** A new instance concerns neither threads nor marks, services nor the clock. */
  lemma InsertKeepsRest<Ref>(s: State<Ref>, o: Ref, proc: Proc)
    ensures var s' := Insert(s, o, proc);
            && s'.tidToCurrentProcessData == s.tidToCurrentProcessData && s'.terminatedThreads == s.terminatedThreads
            && s'.terminatedProcesses == s.terminatedProcesses && s'.serviceTags == s.serviceTags
            && s'.scrapeCounter == s.scrapeCounter && s'.clock == s.clock
  {
  }

  lemma InsertKeepsKeys<Ref>(s: State<Ref>, o: Ref, proc: Proc)
    requires Inv(s) && proc.info.startKey !in s.instanceData && Available(s, o)
    requires Untagged(proc.info)
    ensures var s' := Insert(s, o, proc);
            FiledByKey(s'.instanceData, s'.heap) && SystemUntagged(s'.instanceData, s'.heap)
  {
    InsertLives(s, o, proc);
    assert forall k | k in s.instanceData :: s.Live(s.instanceData[k]);
  }

  lemma InsertKeepsInvariant<Ref>(s: State<Ref>, o: Ref, proc: Proc)
    requires Inv(s) && proc.info.startKey !in s.instanceData && Available(s, o)
    requires Untagged(proc.info)
    ensures Inv(Insert(s, o, proc))
  {
    InsertKeepsPool(s, o, proc);
    InsertKeepsPids(s, o, proc);
    InsertKeepsTids(s, o, proc);
    InsertKeepsKeys(s, o, proc);
  }

  lemma AddProcessKeepsInvariant<Ref>(s: State<Ref>, o: Ref, pid: uint32, startKey: uint64, name: string,
                                            parentPid: uint32, sessionId: uint32, now: int)
    requires Inv(s) && (startKey !in s.instanceData ==> Available(s, o))
    ensures Inv(AddProcess(s, o, pid, startKey, name, parentPid, sessionId, now))
  {
    if startKey in s.instanceData {
      var known := s.instanceData[startKey];
      UpdateKeepsInvariant(s, known, s.heap[known].(info := s.Info(known).(lastSeen := now)));
    } else {
      InsertKeepsInvariant(s, o, NewProcess(pid, startKey, name, parentPid, sessionId, now));
    }
  }

  lemma MarkProcessKeepsInvariant<Ref>(s: State<Ref>, startKey: uint64, terminationTime: int)
    requires Inv(s)
    ensures Inv(MarkProcess(s, startKey, terminationTime))
  {
  }

  lemma EnrichKeepsInvariant<Ref>(s: State<Ref>, pid: uint32, checksum: uint64, imageName: string)
    requires Inv(s)
    ensures Inv(Enrich(s, pid, checksum, imageName))
  {
    if pid in s.pidToCurrentStartKey && s.pidToCurrentStartKey[pid] in s.instanceData {
      var o := s.instanceData[s.pidToCurrentStartKey[pid]];
      UpdateKeepsInvariant(s, o, s.heap[o].(info := EnrichedInfo(s.Info(o), checksum, imageName)));
    }
  }

  lemma ApplyServiceKeepsInvariant<Ref>(s: State<Ref>, o: Ref, tag: uint32)
    requires Inv(s) && s.Live(o)
    ensures Inv(ApplyService(s, o, tag))
  {
    UpdateKeepsInvariant(s, o, s.heap[o].(info := ServiceInfo(s.Info(o), tag, s.serviceTags)));
  }

  lemma MapTidKeepsInvariant<Ref>(s: State<Ref>, tid: uint32, o: Ref)
    requires Inv(s) && s.Live(o)
    ensures Inv(s.(tidToCurrentProcessData := s.tidToCurrentProcessData[tid := o]))
  {
    var s' := s.(tidToCurrentProcessData := s.tidToCurrentProcessData[tid := o]);
    assert forall r :: s'.Live(r) <==> s.Live(r);
  }

  lemma AddThreadKeepsInvariant<Ref>(s: State<Ref>, tid: uint32, pid: uint32, now: int, tag: uint32)
    requires Inv(s)
    ensures Inv(AddThread(s, tid, pid, now, tag))
  {
    if pid in s.pidToCurrentProcessData && now > s.Info(s.pidToCurrentProcessData[pid]).createTime - MILLISECOND {
      var o := s.pidToCurrentProcessData[pid];
      MapTidKeepsInvariant(s, tid, o);
      ApplyServiceKeepsInvariant(s.(tidToCurrentProcessData := s.tidToCurrentProcessData[tid := o]), o, tag);
    } else if UNKNOWN_PROCESS_START_KEY in s.instanceData {
      MapTidKeepsInvariant(s, tid, s.instanceData[UNKNOWN_PROCESS_START_KEY]);
    }
  }

  lemma MarkThreadKeepsInvariant<Ref>(s: State<Ref>, tid: uint32)
    requires Inv(s)
    ensures Inv(MarkThread(s, tid))
  {
  }

  lemma RecordKeepsInvariant<Ref>(s: State<Ref>, src: Source, e: Sample)
    requires Inv(s)
    ensures Target(s, src).Some? ==> Target(s, src).value in s.heap
    ensures Inv(RecordSample(s, src, e))
  {
    TargetIsLive(s, src);
    if Target(s, src).Some? {
      var o := Target(s, src).value;
      UpdateKeepsInvariant(s, o, s.heap[o].(counters := Record(s.heap[o].counters, e)));
    }
  }

  lemma RegisterKeepsInvariant<Ref>(s: State<Ref>, tag: uint32, name: string)
    requires Inv(s)
    ensures Inv(RegisterServiceTag(s, tag, name))
  {
  }

  lemma NameServiceKeepsInvariant<Ref>(s: State<Ref>, o: Ref, serviceName: string)
    requires Inv(s) && s.Live(o) && s.Info(o).subProcessTag != 0
    ensures Inv(NameService(s, o, serviceName))
  {
    hide Inv, IsSystemName;
    LiveSystemUntagged(s, o);
    var cached := RegisterServiceTag(s, s.Info(o).subProcessTag, serviceName);
    RegisterKeepsInvariant(s, s.Info(o).subProcessTag, serviceName);
    UpdateKeepsInvariant(cached, o, s.heap[o].(info := s.Info(o).(serviceName := serviceName)));
  }

  lemma NameServiceFrame<Ref>(s: State<Ref>, o: Ref, serviceName: string)
    requires o in s.heap
    ensures var s' := NameService(s, o, serviceName);
            && s' == s.(heap := s'.heap, serviceTags := s'.serviceTags)
            && s'.heap == s.heap[o := s.heap[o].(info := s.Info(o).(serviceName := serviceName))]
  {
  }

  /** Visiting one record changes no other, and nothing else but the tag cache. */
  lemma ResolveFrame<Ref>(s: State<Ref>, o: Ref, attempted: set<uint32>, lookup: Lookup)
    requires o in s.heap
    ensures var s' := Resolve(s, o, attempted, lookup).0;
            && s' == s.(heap := s'.heap, serviceTags := s'.serviceTags)
            && forall r | r in s.heap && r != o :: r in s'.heap && s'.heap[r] == s.heap[r]
  {
    hide NameService;
    var info := s.Info(o);
    if NeedsLookup(info, attempted) {
      match lookup(info.pid, info.subProcessTag)
      case None =>
      case Some(name) => NameServiceFrame(s, o, name);
    }
  }

  lemma ResolveKeepsInvariant<Ref>(s: State<Ref>, o: Ref, attempted: set<uint32>, lookup: Lookup)
    requires Inv(s) && s.Live(o)
    ensures Inv(Resolve(s, o, attempted, lookup).0)
  {
    var info := s.Info(o);
    if NeedsLookup(info, attempted) && lookup(info.pid, info.subProcessTag).Some? {
      NameServiceKeepsInvariant(s, o, lookup(info.pid, info.subProcessTag).value);
    }
  }

  lemma {:induction false} ResolveAllKeepsInvariant<Ref>(s: State<Ref>, order: seq<uint64>, lookup: Lookup)
    requires Inv(s)
    ensures Inv(ResolveAll(s, order, lookup).0)
  {
    if order != [] {
      ResolveAllKeepsInvariant(s, order[..|order| - 1], lookup);
      var before := ResolveAll(s, order[..|order| - 1], lookup);
      var k := order[|order| - 1];
      if k in s.instanceData {
        assert before.0.Live(before.0.instanceData[k]);
        ResolveKeepsInvariant(before.0, s.instanceData[k], before.1, lookup);
      }
    }
  }

  lemma CleanThreadsOfKeepsInvariant<Ref>(s: State<Ref>, clean: set<uint64>)
    requires Inv(s)
    ensures Inv(CleanThreadsOf(s, clean))
    ensures forall t | t in CleanThreadsOf(s, clean).tidToCurrentProcessData ::
              s.Info(s.tidToCurrentProcessData[t]).startKey !in clean
  {
  }

  lemma CleanThreadsKeepsInvariant<Ref>(s: State<Ref>, threshold: nat)
    requires Inv(s)
    ensures Inv(CleanThreads(s, threshold))
  {
  }

  /** k is visited for PID p. */
  predicate VisitedFor(pidOf: map<uint64, uint32>, order: seq<uint64>, p: uint32, k: uint64) {
    k in order && k in pidOf && pidOf[k] == p
  }

  /** A PID that leads to an instance not being cleaned keeps its start key; any other key left behind is 0. */
  lemma {:induction false} CleanPidKeysReuseSafe(pids: map<uint32, uint64>, pidOf: map<uint64, uint32>,
                                                 order: seq<uint64>, p: uint32)
    ensures var after := CleanPidKeys(pids, pidOf, order);
            && (p in pids && !VisitedFor(pidOf, order, p, pids[p]) ==> p in after && after[p] == pids[p])
            && (p in after && after[p] != 0 ==>
                  p in pids && after[p] == pids[p] && !VisitedFor(pidOf, order, p, pids[p]))
  {
    if order != [] {
      CleanPidKeysReuseSafe(pids, pidOf, order[..|order| - 1], p);
      assert order == order[..|order| - 1] + [order[|order| - 1]];
    }
  }

  lemma CleanedPidMapsAgree<Ref>(s: State<Ref>, clean: set<uint64>, order: seq<uint64>)
    requires Inv(s) && IsOrderOf(order, clean)
    ensures PidMapsAgree(CleanPidKeys(s.pidToCurrentStartKey, PidsOf(s), order), PidsWithout(s, clean), s.heap)
  {
    var keys := CleanPidKeys(s.pidToCurrentStartKey, PidsOf(s), order);
    forall p
      ensures p in PidsWithout(s, clean) ==> p in keys && keys[p] == s.Info(s.pidToCurrentProcessData[p]).startKey
      ensures p in keys && keys[p] != 0 ==> p in PidsWithout(s, clean)
    {
      CleanPidKeysReuseSafe(s.pidToCurrentStartKey, PidsOf(s), order, p);
    }
  }

  /** Recycling exactly the instances of `clean`: what stays live was live and is not in `clean`. */
  lemma CleanedLives<Ref>(s: State<Ref>, clean: set<uint64>, o: Ref)
    requires Inv(s)
    ensures LiveIn(s.instanceData - clean, s.heap, o) <==> s.Live(o) && s.Info(o).startKey !in clean
  {
  }

  lemma CleanProcessesKeepsPool<Ref>(s: State<Ref>, clean: set<uint64>)
    requires Inv(s) && clean <= s.instanceData.Keys
    ensures PoolIsFree(s.pool + multiset(RefsOf(s, clean)), s.instanceData - clean, s.heap)
  {
    var refs := RefsOf(s, clean);
    forall o
      ensures (s.pool + multiset(refs))[o] <= 1
      ensures o in s.pool + multiset(refs) ==> o in s.heap && !LiveIn(s.instanceData - clean, s.heap, o)
    {
      CleanedLives(s, clean, o);
      if o in refs {
        assert s.Live(o);
      }
    }
  }

  lemma CleanProcessesKeepsInvariant<Ref>(s: State<Ref>, clean: set<uint64>, order: seq<uint64>)
    requires Inv(s) && IsOrderOf(order, clean) && clean <= s.instanceData.Keys
    requires s.terminatedProcesses.Keys !! clean
    requires forall t | t in s.tidToCurrentProcessData :: s.Info(s.tidToCurrentProcessData[t]).startKey !in clean
    ensures Inv(CleanProcesses(s, clean, order))
  {
    CleanedPidMapsAgree(s, clean, order);
    CleanProcessesKeepsPool(s, clean);
    var s' := CleanProcesses(s, clean, order);
    forall o ensures s'.Live(o) <==> s.Live(o) && s.Info(o).startKey !in clean {
      CleanedLives(s, clean, o);
    }
  }

  lemma CleanupAtKeepsInvariant<Ref>(s: State<Ref>, threshold: nat, order: seq<uint64>)
    requires Inv(s) && IsOrderOf(order, Expired(s.terminatedProcesses, threshold))
    ensures Inv(CleanupAt(s, threshold, order))
  {
    var clean := Expired(s.terminatedProcesses, threshold);
    var listed := s.(terminatedProcesses := s.terminatedProcesses - clean);
    assert Inv(listed);
    if clean == {} {
      CleanThreadsKeepsInvariant(listed, threshold);
    } else {
      CleanThreadsOfKeepsInvariant(listed, clean);
      CleanProcessesKeepsInvariant(CleanThreadsOf(listed, clean), clean, order);
      CleanThreadsKeepsInvariant(CleanProcesses(CleanThreadsOf(listed, clean), clean, order), threshold);
    }
  }

  lemma CleanupKeepsInvariant<Ref>(s: State<Ref>, now: int, order: seq<uint64>)
    requires Inv(s) && IsOrderOf(order, Expired(s.terminatedProcesses, NextThreshold(s, now)))
    ensures Inv(Cleanup(s, now, order))
  {
    assert Inv(Tick(s, now));
    CleanupAtKeepsInvariant(Tick(s, now), NextThreshold(s, now), order);
  }

  /** Every event keeps the invariant. */
  lemma StepKeepsInvariant<Ref>(s: State<Ref>, e: Event<Ref>)
    requires Inv(s) && Enabled(s, e)
    ensures Inv(Step(s, e))
  {
    match e
    case ProcessStarted(o, pid, startKey, name, parentPid, sessionId, now) =>
      AddProcessKeepsInvariant(s, o, pid, startKey, name, parentPid, sessionId, now);
    case ProcessEnded(startKey, terminationTime) => MarkProcessKeepsInvariant(s, startKey, terminationTime);
    case ExeLoaded(pid, checksum, imageName) => EnrichKeepsInvariant(s, pid, checksum, imageName);
    case ThreadStarted(tid, pid, now, tag) => AddThreadKeepsInvariant(s, tid, pid, now, tag);
    case ThreadEnded(tid) => MarkThreadKeepsInvariant(s, tid);
    case TagRegistered(tag, serviceName) => RegisterKeepsInvariant(s, tag, serviceName);
    case ServiceSeen(pid, tag) =>
      if AtPid(s, pid).Some? {
        ApplyServiceKeepsInvariant(s, AtPid(s, pid).value, tag);
      }
    case Sampled(src, sample) => RecordKeepsInvariant(s, src, sample);
    case Aggregated(order, lookup) => ResolveAllKeepsInvariant(s, order, lookup);
    case CleanedUp(now, order) => CleanupKeepsInvariant(s, now, order);
  }

  // ---- what an event leaves alone ----

  lemma ApplyServiceFrame<Ref>(s: State<Ref>, o: Ref, tag: uint32)
    requires o in s.heap
    ensures ApplyService(s, o, tag) == s.(heap := ApplyService(s, o, tag).heap)
  {
    hide ServiceInfo;
  }

  lemma AddThreadFrame<Ref>(s: State<Ref>, tid: uint32, pid: uint32, now: int, tag: uint32)
    requires Closed(s)
    ensures var s' := AddThread(s, tid, pid, now, tag);
            && s' == s.(heap := s'.heap, tidToCurrentProcessData := s'.tidToCurrentProcessData)
            && forall t | t != tid ::
                 && (t in s'.tidToCurrentProcessData <==> t in s.tidToCurrentProcessData)
                 && (t in s.tidToCurrentProcessData ==> s'.tidToCurrentProcessData[t] == s.tidToCurrentProcessData[t])
  {
    hide ApplyService;
    if AtPid(s, pid).Some? {
      var o := AtPid(s, pid).value;
      ApplyServiceFrame(s.(tidToCurrentProcessData := s.tidToCurrentProcessData[tid := o]), o, tag);
    }
  }

  lemma RecordFrame<Ref>(s: State<Ref>, src: Source, sample: Sample)
    requires Target(s, src).Some? ==> Target(s, src).value in s.heap
    ensures RecordSample(s, src, sample) == s.(heap := RecordSample(s, src, sample).heap)
  {
    hide Record, Target;
  }

  /** Threads, services and samples change one record and where one TID leads, at most. */
  lemma RecordingFrame<Ref>(s: State<Ref>, e: Event<Ref>)
    requires Closed(s) && (e.ThreadStarted? || e.ServiceSeen? || e.Sampled?)
    ensures var s' := Step(s, e);
            && s' == s.(heap := s'.heap, tidToCurrentProcessData := s'.tidToCurrentProcessData)
            && forall t | !(e.ThreadStarted? && e.tid == t) ::
                 && (t in s'.tidToCurrentProcessData <==> t in s.tidToCurrentProcessData)
                 && (t in s.tidToCurrentProcessData ==> s'.tidToCurrentProcessData[t] == s.tidToCurrentProcessData[t])
  {
    hide AddThread, ApplyService, RecordSample;
    if e.ThreadStarted? {
      AddThreadFrame(s, e.tid, e.pid, e.now, e.tag);
    } else if e.Sampled? {
      RecordFrame(s, e.src, e.sample);
    } else if AtPid(s, e.pid).Some? {
      ApplyServiceFrame(s, AtPid(s, e.pid).value, e.tag);
    }
  }

  // ---- whole runs ----

  ghost predicate Next<Ref>(s: State<Ref>, e: Event<Ref>, s': State<Ref>) {
    Closed(s) && Enabled(s, e) && s' == Step(s, e)
  }

  /** states[i + 1] is what event i makes of states[i], from the manager's start on. */
  ghost predicate IsRun<Ref>(unknown: Ref, start: int, states: seq<State<Ref>>, events: seq<Event<Ref>>) {
    && |states| == |events| + 1
    && states[0] == Init(unknown, start)
    && (forall i | 0 <= i < |events| :: Next(states[i], events[i], states[i + 1]))
  }

  /** In every reachable state the invariant holds: no PID or TID ever leads to a recycled record. */
  lemma {:induction false} RunKeepsInvariant<Ref>(unknown: Ref, start: int,
      states: seq<State<Ref>>, events: seq<Event<Ref>>, n: nat)
    requires IsRun(unknown, start, states, events) && n <= |events|
    ensures Inv(states[n])
  {
    if n == 0 {
      InitKeepsInvariant(unknown, start);
    } else {
      RunKeepsInvariant(unknown, start, states, events, n - 1);
      assert Next(states[n - 1], events[n - 1], states[n - 1 + 1]);
      StepKeepsInvariant(states[n - 1], events[n - 1]);
    }
  }

  /** No run is ever stuck: in a reachable state every lookup the next event makes is defined. */
  lemma RunsNeverStick<Ref>(unknown: Ref, start: int,
      states: seq<State<Ref>>, events: seq<Event<Ref>>, e: Event<Ref>)
    requires IsRun(unknown, start, states, events) && states[|events|].clock.Valid() && Enabled(states[|events|], e)
    ensures Closed(states[|events|])
    ensures IsRun(unknown, start, states + [Step(states[|events|], e)], events + [e])
  {
    RunKeepsInvariant(unknown, start, states, events, |events|);
  }

  /** In every state of every run, a live process named System or MemCompression has no tag and no service name. */
  lemma SystemProcessesUntagged<Ref>(unknown: Ref, start: int,
      states: seq<State<Ref>>, events: seq<Event<Ref>>, n: nat, o: Ref)
    requires IsRun(unknown, start, states, events) && n <= |events| && states[n].Live(o)
    ensures states[n].Info(o).name in {"System", "MemCompression"} ==>
              states[n].Info(o).subProcessTag == 0 && states[n].Info(o).serviceName == ""
  {
    hide Inv, Next;
    RunKeepsInvariant(unknown, start, states, events, n);
    LiveSystemUntagged(states[n], o);
  }
}
