/** How often the aggregation key of one process instance can change in its life. */
module Identity {
  import opened Words
  import opened Lifecycle
  import opened LifecycleRuns
  import opened CleanupExact
  import opened Conservation

  /** The fields under which program metrics are grouped. */
  datatype ProgramKey = ProgramKey(name: string, serviceName: string, uniqueHash: uint64, sessionId: uint32)

  function KeyOf(info: ProcessInfo): ProgramKey {
    ProgramKey(info.name, info.serviceName, info.uniqueHash, info.sessionId)
  }

  /** How many of the three late facts are known: full path, checksum, service name. */
  function Known(info: ProcessInfo): nat {
    (if IsFullPath(info.name) then 1 else 0) + (if info.uniqueHash != 0 then 1 else 0)
      + (if info.serviceName != "" then 1 else 0)
  }

  /** A fact once known never changes, and the key changes only by learning one. */
  ghost predicate Learns(before: ProcessInfo, after: ProcessInfo) {
    && before.sessionId == after.sessionId && before.createTime == after.createTime
    && (IsFullPath(before.name) ==> after.name == before.name)
    && (before.uniqueHash != 0 ==> after.uniqueHash == before.uniqueHash)
    && (before.serviceName != "" ==> after.serviceName == before.serviceName)
    && (after.name != before.name ==> IsFullPath(after.name))
  }

  lemma LearningCounts(before: ProcessInfo, after: ProcessInfo)
    requires Learns(before, after)
    ensures Known(before) + (if KeyOf(before) != KeyOf(after) then 1 else 0) <= Known(after)
  {
  }

  lemma EnrichLearns(info: ProcessInfo, checksum: uint64, imageName: string)
    ensures Learns(info, EnrichedInfo(info, checksum, imageName))
  {
  }

  lemma ServiceLearns(info: ProcessInfo, tag: uint32, serviceTags: map<uint32, string>)
    ensures Learns(info, ServiceInfo(info, tag, serviceTags))
  {
  }

  lemma UnchangedLearns(info: ProcessInfo)
    ensures Learns(info, info)
  {
  }

  lemma {:induction false} ResolveAllLearns<Ref>(s: State<Ref>, order: seq<uint64>, lookup: Lookup, o: Ref)
    requires o in s.heap
    ensures Learns(s.Info(o), ResolveAll(s, order, lookup).0.Info(o))
  {
    if order != [] {
      ResolveAllLearns(s, order[..|order| - 1], lookup, o);
    }
  }

  /** While an instance is live, every event either leaves its information alone or adds a fact to it. */
  lemma StepLearns<Ref>(s: State<Ref>, e: Event<Ref>, k: uint64)
    requires Inv(s) && Enabled(s, e) && k in s.instanceData && k in Step(s, e).instanceData
    ensures Step(s, e).instanceData[k] in Step(s, e).heap
    ensures Learns(s.Info(s.instanceData[k]), Step(s, e).Info(Step(s, e).instanceData[k]))
  {
    hide Inv, Learns, ServiceInfo, ResolveAll, Cleanup, ApplyService, AddThread;
    StepKeepsInvariant(s, e);
    InvariantCloses(s);
    InvariantCloses(Step(s, e));
    match e {
      case ProcessStarted(_, _, _, _, _, _, _) => StartLearns(s, e, k);
      case ProcessEnded(_, _) => RecordLearns(s, e, k);
      case ExeLoaded(_, _, _) => EnrichStepLearns(s, e, k);
      case ThreadStarted(tid, pid, now, tag) => AddThreadLearns(s, tid, pid, now, tag, s.instanceData[k]);
      case ThreadEnded(_) => RecordLearns(s, e, k);
      case TagRegistered(_, _) => RecordLearns(s, e, k);
      case ServiceSeen(pid, tag) =>
        UnchangedLearns(s.Info(s.instanceData[k]));
        if AtPid(s, pid).Some? {
          ApplyServiceLearns(s, AtPid(s, pid).value, tag, s.instanceData[k]);
        }
      case Sampled(_, _) => RecordLearns(s, e, k);
      case Aggregated(order, lookup) => ResolveAllLearns(s, order, lookup, s.instanceData[k]);
      case CleanedUp(now, order) =>
        CleanupKeepsRecords(s, now, order);
        UnchangedLearns(s.Info(s.instanceData[k]));
    }
  }

  lemma StartLearns<Ref>(s: State<Ref>, e: Event<Ref>, k: uint64)
    requires Inv(s) && Enabled(s, e) && e.ProcessStarted? && k in s.instanceData
    requires Step(s, e).instanceData[k] in Step(s, e).heap
    ensures Learns(s.Info(s.instanceData[k]), Step(s, e).Info(Step(s, e).instanceData[k]))
  {
    assert s.Live(s.instanceData[k]);
    UnchangedLearns(s.Info(s.instanceData[k]));
    hide Learns;
    if e.startKey !in s.instanceData {
      InsertLives(s, e.o, NewProcess(e.pid, e.startKey, e.name, e.parentPid, e.sessionId, e.now));
    } else {
      LastSeenLearns(s.Info(s.instanceData[e.startKey]), e.now);
    }
  }

  lemma LastSeenLearns(info: ProcessInfo, now: int)
    ensures Learns(info, info.(lastSeen := now)) && Learns(info, info.(terminationTime := now))
  {
  }

  lemma RecordLearns<Ref>(s: State<Ref>, e: Event<Ref>, k: uint64)
    requires Inv(s) && k in s.instanceData
    requires e.ProcessEnded? || e.ThreadEnded? || e.TagRegistered? || e.Sampled?
    requires Step(s, e).instanceData[k] in Step(s, e).heap
    ensures Learns(s.Info(s.instanceData[k]), Step(s, e).Info(Step(s, e).instanceData[k]))
  {
    hide Learns;
    UnchangedLearns(s.Info(s.instanceData[k]));
    if e.ProcessEnded? {
      LastSeenLearns(s.Info(s.instanceData[k]), e.terminationTime);
    }
  }

  lemma EnrichStepLearns<Ref>(s: State<Ref>, e: Event<Ref>, k: uint64)
    requires Inv(s) && k in s.instanceData && e.ExeLoaded?
    requires Step(s, e).instanceData[k] in Step(s, e).heap
    ensures Learns(s.Info(s.instanceData[k]), Step(s, e).Info(Step(s, e).instanceData[k]))
  {
    hide Learns, EnrichedInfo;
    UnchangedLearns(s.Info(s.instanceData[k]));
    EnrichLearns(s.Info(s.instanceData[k]), e.checksum, e.imageName);
  }

  lemma ApplyServiceLearns<Ref>(s: State<Ref>, target: Ref, tag: uint32, o: Ref)
    requires target in s.heap && o in s.heap
    ensures ApplyService(s, target, tag).instanceData == s.instanceData
    ensures Learns(s.Info(o), ApplyService(s, target, tag).Info(o))
  {
    hide Learns, ServiceInfo;
    UnchangedLearns(s.Info(o));
    ServiceLearns(s.Info(o), tag, s.serviceTags);
  }

  lemma AddThreadLearns<Ref>(s: State<Ref>, tid: uint32, pid: uint32, now: int, tag: uint32, o: Ref)
    requires Closed(s) && o in s.heap
    ensures AddThread(s, tid, pid, now, tag).instanceData == s.instanceData
    ensures o in AddThread(s, tid, pid, now, tag).heap
    ensures Learns(s.Info(o), AddThread(s, tid, pid, now, tag).Info(o))
  {
    hide Learns, ServiceInfo;
    UnchangedLearns(s.Info(o));
    if AtPid(s, pid).Some? {
      var target := AtPid(s, pid).value;
      ApplyServiceLearns(s.(tidToCurrentProcessData := s.tidToCurrentProcessData[tid := target]), target, tag, o);
    }
  }

  /** How many of the events i, .., j - 1 change the key of instance k. */
  ghost function KeyChanges<Ref>(states: seq<State<Ref>>, k: uint64, i: nat, j: nat): nat
    requires i <= j < |states|
    requires forall x | i <= x <= j :: k in states[x].instanceData && states[x].instanceData[k] in states[x].heap
    decreases j - i
  {
    if i == j then 0
    else
      KeyChanges(states, k, i, j - 1)
      + (if KeyOf(states[j - 1].Info(states[j - 1].instanceData[k])) != KeyOf(states[j].Info(states[j].instanceData[k]))
         then 1 else 0)
  }

  lemma {:induction false} ChangesBounded<Ref>(unknown: Ref, start: int,
      states: seq<State<Ref>>, events: seq<Event<Ref>>, k: uint64, i: nat, j: nat)
    requires IsRun(unknown, start, states, events) && i <= j <= |events|
    requires forall x | i <= x <= j :: k in states[x].instanceData
    ensures forall x | i <= x <= j :: states[x].instanceData[k] in states[x].heap
    ensures Known(states[i].Info(states[i].instanceData[k])) + KeyChanges(states, k, i, j)
            <= Known(states[j].Info(states[j].instanceData[k]))
    decreases j - i
  {
    hide Step, Enabled, Known, KeyOf, Learns;
    forall x | i <= x <= j
      ensures states[x].instanceData[k] in states[x].heap
    {
      RunKeepsInvariant(unknown, start, states, events, x);
    }
    if i < j {
      ChangesBounded(unknown, start, states, events, k, i, j - 1);
      RunKeepsInvariant(unknown, start, states, events, j - 1);
      assert Next(states[j - 1], events[j - 1], states[j - 1 + 1]);
      StepLearns(states[j - 1], events[j - 1], k);
      LearningCounts(states[j - 1].Info(states[j - 1].instanceData[k]), states[j].Info(states[j].instanceData[k]));
    }
  }

  /** In the whole life of an instance its aggregation key changes at most three times. */
  lemma KeyChangesAtMostThrice<Ref>(unknown: Ref, start: int,
      states: seq<State<Ref>>, events: seq<Event<Ref>>, k: uint64, i: nat, j: nat)
    requires IsRun(unknown, start, states, events) && i <= j <= |events|
    requires forall x | i <= x <= j :: k in states[x].instanceData
    ensures forall x | i <= x <= j :: states[x].instanceData[k] in states[x].heap
    ensures KeyChanges(states, k, i, j) <= 3
  {
    ChangesBounded(unknown, start, states, events, k, i, j);
  }
}
