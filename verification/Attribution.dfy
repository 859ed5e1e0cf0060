/** To which process threads and image information go when a PID is used again. */
module Attribution {
  import opened Words
  import opened Lifecycle
  import opened LifecycleRuns
  import opened CleanupExact
  import opened Retention
  import opened Conservation
  import opened Identity

  // ---- which process a PID or a TID leads to, over whole runs ----

  lemma {:induction false} ResolveAllKeepsIds<Ref>(s: State<Ref>, order: seq<uint64>, lookup: Lookup)
    ensures var s' := ResolveAll(s, order, lookup).0;
            && s'.pidToCurrentProcessData == s.pidToCurrentProcessData
            && s'.tidToCurrentProcessData == s.tidToCurrentProcessData
  {
    if order != [] {
      ResolveAllKeepsIds(s, order[..|order| - 1], lookup);
    }
  }

  /** Event e starts a process of this PID under a new start key. */
  predicate Restarts<Ref>(s: State<Ref>, e: Event<Ref>, pid: uint32) {
    e.ProcessStarted? && e.pid == pid && e.startKey !in s.instanceData
  }

  /** Event e starts a process, of whatever PID, in record o. */
  predicate Fills<Ref>(s: State<Ref>, e: Event<Ref>, o: Ref) {
    e.ProcessStarted? && e.startKey !in s.instanceData && e.o == o
  }

  /** Event e is a cleanup that removes the process the PID leads to. */
  ghost predicate ForgetsPid<Ref>(s: State<Ref>, e: Event<Ref>, pid: uint32) {
    && Closed(s) && e.CleanedUp? && pid in s.pidToCurrentProcessData
    && s.Info(s.pidToCurrentProcessData[pid]).startKey in Cleaned(s, e.now)
  }

  /** Event e is a cleanup that removes the process the TID leads to, or for which its own record has expired. */
  ghost predicate ForgetsTid<Ref>(s: State<Ref>, e: Event<Ref>, tid: uint32) {
    && Closed(s) && e.CleanedUp? && tid in s.tidToCurrentProcessData
    && (|| s.Info(s.tidToCurrentProcessData[tid]).startKey in Cleaned(s, e.now)
        || ExpiredThread(s, tid, NextThreshold(s, e.now)))
  }

  lemma OthersKeepPid<Ref>(s: State<Ref>, e: Event<Ref>, pid: uint32)
    requires Closed(s) && !e.CleanedUp? && !Restarts(s, e, pid)
    ensures pid in Step(s, e).pidToCurrentProcessData <==> pid in s.pidToCurrentProcessData
    ensures pid in s.pidToCurrentProcessData ==>
              Step(s, e).pidToCurrentProcessData[pid] == s.pidToCurrentProcessData[pid]
  {
    hide ResolveAll, EnrichedInfo, AddThread, ApplyService, RecordSample, Target;
    if e.Aggregated? {
      ResolveAllKeepsIds(s, e.order, e.lookup);
    } else if e.ThreadStarted? || e.ServiceSeen? || e.Sampled? {
      RecordingFrame(s, e);
    }
  }

  lemma OthersKeepTid<Ref>(s: State<Ref>, e: Event<Ref>, tid: uint32)
    requires Closed(s) && !e.CleanedUp? && !(e.ThreadStarted? && e.tid == tid)
    ensures tid in Step(s, e).tidToCurrentProcessData <==> tid in s.tidToCurrentProcessData
    ensures tid in s.tidToCurrentProcessData ==>
              Step(s, e).tidToCurrentProcessData[tid] == s.tidToCurrentProcessData[tid]
  {
    hide ResolveAll, EnrichedInfo, NewProcess, Insert, AddThread, ApplyService, RecordSample, Target;
    if e.Aggregated? {
      ResolveAllKeepsIds(s, e.order, e.lookup);
    } else if e.ProcessStarted? {
      InsertKeepsRest(s, e.o, NewProcess(e.pid, e.startKey, e.name, e.parentPid, e.sessionId, e.now));
    } else if e.ThreadStarted? || e.ServiceSeen? || e.Sampled? {
      RecordingFrame(s, e);
    }
  }

  /**
   One event, unless it gives the PID or the TID away: forgotten exactly when a cleanup says so,
   else the same record.
   */
  lemma IdStep<Ref>(s: State<Ref>, e: Event<Ref>, pid: uint32, tid: uint32)
    requires Inv(s) && Enabled(s, e)
    ensures !Restarts(s, e, pid) ==>
              && (pid in Step(s, e).pidToCurrentProcessData <==>
                    pid in s.pidToCurrentProcessData && !ForgetsPid(s, e, pid))
              && (pid in Step(s, e).pidToCurrentProcessData ==>
                    Step(s, e).pidToCurrentProcessData[pid] == s.pidToCurrentProcessData[pid])
    ensures !(e.ThreadStarted? && e.tid == tid) ==>
              && (tid in Step(s, e).tidToCurrentProcessData <==>
                    tid in s.tidToCurrentProcessData && !ForgetsTid(s, e, tid))
              && (tid in Step(s, e).tidToCurrentProcessData ==>
                    Step(s, e).tidToCurrentProcessData[tid] == s.tidToCurrentProcessData[tid])
  {
    hide Cleanup, Inv, ExpiredThread, Cleaned, NextThreshold;
    InvariantCloses(s);
    if e.CleanedUp? {
      CleanedInOrder(s, e);
      PidsCleanedExactly(s, e.now, e.order);
      ThreadsCleanedExactly(s, e.now, e.order);
    } else {
      if !Restarts(s, e, pid) {
        OthersKeepPid(s, e, pid);
      }
      if !(e.ThreadStarted? && e.tid == tid) {
        OthersKeepTid(s, e, tid);
      }
    }
  }

  lemma CleanedInOrder<Ref>(s: State<Ref>, e: Event<Ref>)
    requires Closed(s) && Enabled(s, e) && e.CleanedUp?
    ensures IsOrderOf(e.order, Cleaned(s, e.now))
  {
  }

  /** A record that lives before and after an event, under some PID or TID, holds the same instance. */
  lemma SameInstanceStep<Ref>(s: State<Ref>, e: Event<Ref>, o: Ref)
    requires Inv(s) && Enabled(s, e) && s.Live(o) && Step(s, e).Live(o)
    ensures Step(s, e).Info(o).startKey == s.Info(o).startKey
    ensures Step(s, e).Info(o).createTime == s.Info(o).createTime
  {
    hide Inv, Enabled, Step, Cleanup;
    var k := s.Info(o).startKey;
    InvariantCloses(s);
    StepKeepsInvariant(s, e);
    if e.CleanedUp? {
      CleanupStep(s, e);
      CleanupKeepsRecords(s, e.now, e.order);
    } else {
      OthersKeepInstances(s, e, k);
      InstanceStep(s, e, k);
      StepLearns(s, e, k);
      FiledIsLive(Step(s, e), k);
    }
  }

  /** The record o holds one and the same live instance in both states. */
  ghost predicate SameInstance<Ref>(s: State<Ref>, s': State<Ref>, o: Ref) {
    && s.Live(o) && s'.Live(o)
    && s'.Info(o).startKey == s.Info(o).startKey && s'.Info(o).createTime == s.Info(o).createTime
  }

  lemma IdsAreLive<Ref>(s: State<Ref>, pid: uint32, tid: uint32)
    requires Inv(s)
    ensures pid in s.pidToCurrentProcessData ==> SameInstance(s, s, s.pidToCurrentProcessData[pid])
    ensures tid in s.tidToCurrentProcessData ==> SameInstance(s, s, s.tidToCurrentProcessData[tid])
  {
  }

  lemma NthNext<Ref>(unknown: Ref, start: int, states: seq<State<Ref>>, events: seq<Event<Ref>>, n: nat)
    requires IsRun(unknown, start, states, events) && n < |events|
    ensures Inv(states[n]) && Inv(states[n + 1]) && Next(states[n], events[n], states[n + 1])
  {
    RunKeepsInvariant(unknown, start, states, events, n);
    RunKeepsInvariant(unknown, start, states, events, n + 1);
  }

  /** As long as no process of a PID starts, the PID leads to the same instance until a cleanup removes that one. */
  lemma {:induction false} PidKeepsProcess<Ref>(unknown: Ref, start: int,
      states: seq<State<Ref>>, events: seq<Event<Ref>>, pid: uint32, i: nat, n: nat)
    requires IsRun(unknown, start, states, events) && i <= n <= |events|
    requires pid in states[i].pidToCurrentProcessData
    requires forall x | i <= x < n :: !Restarts(states[x], events[x], pid)
    ensures pid in states[n].pidToCurrentProcessData
            <==> forall x | i <= x < n :: !ForgetsPid(states[x], events[x], pid)
    ensures pid in states[n].pidToCurrentProcessData ==>
              && states[n].pidToCurrentProcessData[pid] == states[i].pidToCurrentProcessData[pid]
              && SameInstance(states[i], states[n], states[i].pidToCurrentProcessData[pid])
    decreases n - i
  {
    hide Inv, Step, Enabled, Restarts, ForgetsPid, ForgetsTid;
    RunKeepsInvariant(unknown, start, states, events, n);
    IdsAreLive(states[n], pid, 0);
    if i < n {
      PidKeepsProcess(unknown, start, states, events, pid, i, n - 1);
      NthNext(unknown, start, states, events, n - 1);
      IdStep(states[n - 1], events[n - 1], pid, 0);
      if pid in states[n].pidToCurrentProcessData {
        SameInstanceStep(states[n - 1], events[n - 1], states[n].pidToCurrentProcessData[pid]);
      }
    }
  }

  /**
   As long as no thread starts on a TID, the TID's events are charged to the same instance until a
   cleanup removes that one or the TID's own expired record: whatever happens to the PID meanwhile,
   and never to an instance that took it over.
   */
  lemma {:induction false} OldThreadsKeepTheirProcess<Ref>(unknown: Ref, start: int,
      states: seq<State<Ref>>, events: seq<Event<Ref>>, tid: uint32, i: nat, n: nat)
    requires IsRun(unknown, start, states, events) && i <= n <= |events|
    requires tid in states[i].tidToCurrentProcessData
    requires forall x | i <= x < n :: !(events[x].ThreadStarted? && events[x].tid == tid)
    ensures Target(states[n], ByThread(tid)).Some? <==> forall x | i <= x < n :: !ForgetsTid(states[x], events[x], tid)
    ensures Target(states[n], ByThread(tid)).Some? ==>
              && Target(states[n], ByThread(tid)) == Target(states[i], ByThread(tid))
              && SameInstance(states[i], states[n], states[i].tidToCurrentProcessData[tid])
              && forall x | i <= x < n :: !Fills(states[x], events[x], states[i].tidToCurrentProcessData[tid])
    decreases n - i
  {
    hide Inv, Step, Enabled, Fills, ForgetsPid, ForgetsTid;
    RunKeepsInvariant(unknown, start, states, events, n);
    IdsAreLive(states[n], 0, tid);
    if i < n {
      OldThreadsKeepTheirProcess(unknown, start, states, events, tid, i, n - 1);
      NthNext(unknown, start, states, events, n - 1);
      IdStep(states[n - 1], events[n - 1], 0, tid);
      if tid in states[n].tidToCurrentProcessData {
        var o := states[n].tidToCurrentProcessData[tid];
        SameInstanceStep(states[n - 1], events[n - 1], o);
        ReuseTakesAnother(states[n - 1], events[n - 1], o);
      }
    }
  }

  lemma ReuseTakesAnother<Ref>(s: State<Ref>, e: Event<Ref>, o: Ref)
    requires Inv(s) && Enabled(s, e) && s.Live(o)
    ensures !Fills(s, e, o)
  {
  }

  lemma StartedIsCurrent<Ref>(s: State<Ref>, e: Event<Ref>, pid: uint32)
    requires Closed(s) && Restarts(s, e, pid)
    ensures var s' := Step(s, e);
            && pid in s'.pidToCurrentProcessData && s'.pidToCurrentProcessData[pid] == e.o && e.o in s'.heap
            && s'.Info(e.o).createTime == e.now
  {
  }

  lemma ThreadMaps<Ref>(s: State<Ref>, e: Event<Ref>)
    requires Closed(s) && e.ThreadStarted? && 1 in s.instanceData
    ensures var pids := s.pidToCurrentProcessData;
            var o := if e.pid in pids && e.now > s.Info(pids[e.pid]).createTime - 1_000_000 then pids[e.pid]
                     else s.instanceData[1];
            Step(s, e).tidToCurrentProcessData == s.tidToCurrentProcessData[e.tid := o]
  {
  }

  /**
   A process starts at event j, possibly on a PID used before, and is the last one of that PID to
   start before event t. The thread that starts there goes to that process if and only if the thread
   is not older by a millisecond or more and no cleanup has removed the process, else to the unknown
   process, as long as that one is there. Never to an earlier holder of the PID.
   */
  lemma ThreadGuardExact<Ref>(unknown: Ref, start: int,
      states: seq<State<Ref>>, events: seq<Event<Ref>>, j: nat, t: nat)
    requires IsRun(unknown, start, states, events) && j < t < |events| && events[t].ThreadStarted?
    requires Restarts(states[j], events[j], events[t].pid)
    requires forall x | j < x < t :: !Restarts(states[x], events[x], events[t].pid)
    requires 1 in states[t].instanceData
    ensures events[t].tid in states[t + 1].tidToCurrentProcessData
    ensures states[t + 1].tidToCurrentProcessData[events[t].tid]
            == if && (forall x | j < x < t :: !ForgetsPid(states[x], events[x], events[t].pid))
                  && events[t].now > events[j].now - 1_000_000
               then events[j].o else states[t].instanceData[1]
  {
    hide Inv, Step, Enabled, ForgetsPid, SameInstance;
    var pid := events[t].pid;
    NthNext(unknown, start, states, events, j);
    StartedIsCurrent(states[j], events[j], pid);
    PidKeepsProcess(unknown, start, states, events, pid, j + 1, t);
    NthNext(unknown, start, states, events, t);
    ThreadMaps(states[t], events[t]);
    SameCreateTime(states[j + 1], states[t], events[j].o);
  }

  lemma SameCreateTime<Ref>(s: State<Ref>, s': State<Ref>, o: Ref)
    ensures SameInstance(s, s', o) ==> o in s.heap && o in s'.heap && s'.Info(o).createTime == s.Info(o).createTime
  {
  }

  /**
   Image information is looked up through the PID-to-key map and yet lands on the PID's current
   record and on no other, as long as no instance has the start key 0 that placeholders carry.
   */
  lemma EnrichHitsCurrentOnly<Ref>(s: State<Ref>, pid: uint32, checksum: uint64, imageName: string, o: Ref)
    requires Inv(s) && 0 !in s.instanceData && o in s.heap
    ensures Enrich(s, pid, checksum, imageName).Info(o)
            == if pid in s.pidToCurrentProcessData && o == s.pidToCurrentProcessData[pid]
               then EnrichedInfo(s.Info(o), checksum, imageName) else s.Info(o)
  {
    hide EnrichedInfo;
  }

  /**
   Where image information goes, exactly and at every point of every run: to the PID's current record;
   if there is none but a placeholder, to the instance under the start key 0 that the placeholder names,
   if there is one; else nowhere.
   */
  lemma EnrichStraysExactly<Ref>(unknown: Ref, start: int, states: seq<State<Ref>>, events: seq<Event<Ref>>,
                                 n: nat, pid: uint32, checksum: uint64, imageName: string)
    requires IsRun(unknown, start, states, events) && n <= |events|
    ensures Closed(states[n])
    ensures var s := states[n];
            Enrich(s, pid, checksum, imageName)
            == if pid in s.pidToCurrentProcessData then
                 var o := s.pidToCurrentProcessData[pid]; s.WithInfo(o, EnrichedInfo(s.Info(o), checksum, imageName))
               else if pid in s.pidToCurrentStartKey && 0 in s.instanceData then
                 var o := s.instanceData[0]; s.WithInfo(o, EnrichedInfo(s.Info(o), checksum, imageName))
               else s
  {
    hide EnrichedInfo, Step, Enabled;
    RunKeepsInvariant(unknown, start, states, events, n);
  }

  // ---- whole runs without start key 0 ----

  /** When no process event carries the start key 0, image information never goes astray, at any point of any run. */
  lemma EnrichNeverStrays<Ref>(unknown: Ref, start: int, states: seq<State<Ref>>, events: seq<Event<Ref>>,
                                n: nat, pid: uint32, checksum: uint64, imageName: string, o: Ref)
    requires IsRun(unknown, start, states, events) && n <= |events|
    requires forall i | 0 <= i < |events| :: events[i].ProcessStarted? ==> events[i].startKey != 0
    requires o in states[n].heap
    ensures Closed(states[n]) && 0 !in states[n].instanceData
    ensures Enrich(states[n], pid, checksum, imageName).Info(o)
            == if pid in states[n].pidToCurrentProcessData && o == states[n].pidToCurrentProcessData[pid]
               then EnrichedInfo(states[n].Info(o), checksum, imageName) else states[n].Info(o)
  {
    hide Step, Enabled, Inv, Enrich, EnrichedInfo;
    NoZeroKey(unknown, start, states, events, n);
    RunKeepsInvariant(unknown, start, states, events, n);
    InvariantCloses(states[n]);
    EnrichHitsCurrentOnly(states[n], pid, checksum, imageName, o);
  }

  lemma {:induction false} NoZeroKey<Ref>(unknown: Ref, start: int, states: seq<State<Ref>>,
                                          events: seq<Event<Ref>>, n: nat)
    requires IsRun(unknown, start, states, events) && n <= |events|
    requires forall i | 0 <= i < |events| :: events[i].ProcessStarted? ==> events[i].startKey != 0
    ensures 0 !in states[n].instanceData
  {
    hide Step, Enabled;
    if n > 0 {
      NoZeroKey(unknown, start, states, events, n - 1);
      assert Next(states[n - 1], events[n - 1], states[n - 1 + 1]);
      OnlyStartsAdd(states[n - 1], events[n - 1], 0);
    }
  }
}
