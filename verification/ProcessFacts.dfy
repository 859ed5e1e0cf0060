/**
 What a process record says, field by field: what it starts with, what each event
 changes in it, and what it shows in the end over whole runs.
 */
module ProcessFacts {
  import opened Words
  import opened Counters
  import opened ScrapeClock
  import opened Lifecycle
  import opened LifecycleRuns
  import opened Conservation
  import opened Retention
  import opened Attribution

  // ---- one event ----

  /** A new record: the event's own fields, nothing learned yet, and every counter at zero. */
  predicate Fresh(proc: Proc, pid: uint32, startKey: uint64, name: string, parentPid: uint32,
                  sessionId: uint32, now: int) {
    && proc.info.pid == pid && proc.info.startKey == startKey && proc.info.name == name
    && proc.info.parentPid == parentPid
    && proc.info.sessionId == (if sessionId == 0xFFFF_FFFF || pid == 4 then 0 else sessionId)
    && proc.info.createTime == now && proc.info.lastSeen == now && proc.info.terminationTime == 0
    && proc.info.serviceName == "" && proc.info.subProcessTag == 0 && proc.info.uniqueHash == 0
    && proc.counters.disks == map[] && proc.counters.hardPageFaults == 0 && proc.counters.contextSwitches == 0
    && (forall i | 0 <= i < 512 :: proc.counters.operations[i] == 0)
    && proc.counters.network == NetworkCounters([0, 0], [0, 0], [0, 0], [0, 0], 0, map[])
  }

  /** The checksum if there was none; the full path if the name was none; nothing else. */
  predicate Enriched(i: ProcessInfo, i': ProcessInfo, checksum: uint64, imageName: string) {
    && i' == i.(uniqueHash := i'.uniqueHash, name := i'.name)
    && i'.uniqueHash == (if i.uniqueHash != 0 then i.uniqueHash else checksum)
    && i'.name == (if '\\' in imageName && '\\' !in i.name then imageName else i.name)
  }

  /** The tag, and its name if it is cached; but not to a system process, nor to one that has a name. */
  predicate Serviced(i: ProcessInfo, i': ProcessInfo, tag: uint32, serviceTags: map<uint32, string>) {
    && i' == i.(subProcessTag := i'.subProcessTag, serviceName := i'.serviceName)
    && if tag == 0 || i.name == "System" || i.name == "MemCompression" || i.serviceName != ""
       then i'.subProcessTag == i.subProcessTag && i'.serviceName == i.serviceName
       else i'.subProcessTag == tag && i'.serviceName == if tag in serviceTags then serviceTags[tag] else ""
  }

  /** PID p leads to the instance k. */
  ghost predicate LeadsTo<Ref>(s: State<Ref>, p: uint32, k: uint64) {
    p in s.pidToCurrentStartKey && s.pidToCurrentStartKey[p] == k
  }

  /** The information i of instance k in state s, and what event e makes of it. */
  ghost predicate InfoAfter<Ref>(s: State<Ref>, e: Event<Ref>, k: uint64, i: ProcessInfo, i': ProcessInfo) {
    match e
    case ProcessStarted(_, _, startKey, _, _, _, now) => i' == if startKey == k then i.(lastSeen := now) else i
    case ProcessEnded(startKey, terminationTime) =>
      i' == if startKey == k && i.terminationTime == 0 then i.(terminationTime := terminationTime) else i
    case ExeLoaded(pid, checksum, imageName) =>
      if LeadsTo(s, pid, k) then Enriched(i, i', checksum, imageName) else i' == i
    case ThreadStarted(_, pid, now, tag) =>
      if LeadsTo(s, pid, k) && pid in s.pidToCurrentProcessData && now > i.createTime - 1_000_000
      then Serviced(i, i', tag, s.serviceTags) else i' == i
    case ServiceSeen(pid, tag) =>
      if LeadsTo(s, pid, k) && pid in s.pidToCurrentProcessData then Serviced(i, i', tag, s.serviceTags) else i' == i
    case Aggregated(_, _) =>
      i' == i || (i.subProcessTag > 0 && i.serviceName == "" && i' == i.(serviceName := i'.serviceName))
    case _ => i' == i
  }

  lemma NewProcessFresh(pid: uint32, startKey: uint64, name: string, parentPid: uint32, sessionId: uint32, now: int)
    ensures Fresh(NewProcess(pid, startKey, name, parentPid, sessionId, now), pid, startKey, name, parentPid,
                  sessionId, now)
  {
  }

  /** The manager starts with one instance, the unknown process under key 1, and knows no PID, thread or service. */
  lemma InitExactly<Ref>(unknown: Ref, start: int)
    ensures var s := Init(unknown, start);
            && s.instanceData == map[1 := unknown] && s.heap.Keys == {unknown} && s.pool == multiset{}
            && s.heap[unknown].info.pid == 0xFFFF_FFFF && s.heap[unknown].info.startKey == 1
            && s.heap[unknown].info.name == "unknown_process" && s.heap[unknown].info.createTime == 0
            && s.heap[unknown].info.lastSeen == start + 100 * 365 * 24 * 3_600 * 1_000_000_000
            && s.terminatedProcesses == map[] && s.terminatedThreads == map[] && s.serviceTags == map[]
            && s.pidToCurrentStartKey == map[] && s.pidToCurrentProcessData == map[]
            && s.tidToCurrentProcessData == map[]
            && s.scrapeCounter == 0 && s.clock.lastScrapeTime == start
  {
  }

  /** A process that starts under a new key is filed under it, in a record that says just that. */
  lemma StartsFresh<Ref>(s: State<Ref>, e: Event<Ref>)
    requires Closed(s) && e.ProcessStarted? && e.startKey !in s.instanceData
    ensures var s' := Step(s, e);
            && e.startKey in s'.instanceData && s'.instanceData[e.startKey] == e.o && e.o in s'.heap
            && Fresh(s'.heap[e.o], e.pid, e.startKey, e.name, e.parentPid, e.sessionId, e.now)
  {
    hide Fresh;
    NewProcessFresh(e.pid, e.startKey, e.name, e.parentPid, e.sessionId, e.now);
    NewProcessKey(e.pid, e.startKey, e.name, e.parentPid, e.sessionId, e.now);
    hide NewProcess;
  }

  lemma NewProcessKey(pid: uint32, startKey: uint64, name: string, parentPid: uint32, sessionId: uint32, now: int)
    ensures NewProcess(pid, startKey, name, parentPid, sessionId, now).info.startKey == startKey
  {
  }

  lemma EnrichedFields(i: ProcessInfo, checksum: uint64, imageName: string)
    ensures Enriched(i, EnrichedInfo(i, checksum, imageName), checksum, imageName)
  {
  }

  lemma ServicedFields(i: ProcessInfo, tag: uint32, serviceTags: map<uint32, string>)
    ensures Serviced(i, ServiceInfo(i, tag, serviceTags), tag, serviceTags)
  {
  }

  /** Instances have records of their own. */
  lemma RecordsApart<Ref>(s: State<Ref>, j: uint64, k: uint64)
    requires Inv(s) && j in s.instanceData && k in s.instanceData
    ensures Closed(s) && (s.instanceData[j] == s.instanceData[k] ==> j == k)
  {
  }

  lemma InfoReplaced<Ref>(s: State<Ref>, o: Ref, info: ProcessInfo, r: Ref)
    requires o in s.heap && r in s.heap
    ensures var s' := s.WithInfo(o, info);
            s'.instanceData == s.instanceData && r in s'.heap && s'.Info(r) == if r == o then info else s.Info(r)
  {
  }

  lemma ImageStep<Ref>(s: State<Ref>, e: Event<Ref>, k: uint64)
    requires Inv(s) && e.ExeLoaded? && k in s.instanceData
    ensures Closed(s) && Step(s, e).instanceData == s.instanceData && s.instanceData[k] in Step(s, e).heap
    ensures InfoAfter(s, e, k, s.Info(s.instanceData[k]), Step(s, e).Info(s.instanceData[k]))
  {
    hide EnrichedInfo, Enriched, Inv, State.WithInfo;
    RecordsApart(s, k, k);
    if e.pid in s.pidToCurrentStartKey && s.pidToCurrentStartKey[e.pid] in s.instanceData {
      var j := s.pidToCurrentStartKey[e.pid];
      var o := s.instanceData[j];
      RecordsApart(s, j, k);
      InfoReplaced(s, o, EnrichedInfo(s.Info(o), e.checksum, e.imageName), s.instanceData[k]);
      EnrichedFields(s.Info(o), e.checksum, e.imageName);
    }
  }

  lemma TerminatedFields(i: ProcessInfo, terminationTime: int)
    ensures TerminatedInfo(i, terminationTime)
            == if i.terminationTime == 0 then i.(terminationTime := terminationTime) else i
  {
  }

  lemma EndStep<Ref>(s: State<Ref>, e: Event<Ref>, k: uint64)
    requires Inv(s) && e.ProcessEnded? && k in s.instanceData
    ensures Closed(s) && Step(s, e).instanceData == s.instanceData && s.instanceData[k] in Step(s, e).heap
    ensures InfoAfter(s, e, k, s.Info(s.instanceData[k]), Step(s, e).Info(s.instanceData[k]))
  {
    hide TerminatedInfo, Inv, State.WithInfo;
    RecordsApart(s, k, k);
    if e.startKey in s.instanceData {
      var o := s.instanceData[e.startKey];
      RecordsApart(s, e.startKey, k);
      InfoReplaced(s, o, TerminatedInfo(s.Info(o), e.terminationTime), s.instanceData[k]);
      TerminatedFields(s.Info(o), e.terminationTime);
    }
  }

  lemma SeenStep<Ref>(s: State<Ref>, e: Event<Ref>, k: uint64)
    requires Inv(s) && Enabled(s, e) && e.ProcessStarted? && k in s.instanceData
    ensures Closed(s) && k in Step(s, e).instanceData && Step(s, e).instanceData[k] == s.instanceData[k]
    ensures s.instanceData[k] in Step(s, e).heap
    ensures InfoAfter(s, e, k, s.Info(s.instanceData[k]), Step(s, e).Info(s.instanceData[k]))
  {
    assert s.Live(s.instanceData[k]);
    if e.startKey !in s.instanceData {
      hide NewProcess;
      NewProcessKey(e.pid, e.startKey, e.name, e.parentPid, e.sessionId, e.now);
      InsertLives(s, e.o, NewProcess(e.pid, e.startKey, e.name, e.parentPid, e.sessionId, e.now));
    }
  }

  lemma ServiceApplies<Ref>(s: State<Ref>, o: Ref, tag: uint32, r: Ref)
    requires o in s.heap && r in s.heap
    ensures ApplyService(s, o, tag).instanceData == s.instanceData && r in ApplyService(s, o, tag).heap
    ensures if r == o then Serviced(s.Info(r), ApplyService(s, o, tag).Info(r), tag, s.serviceTags)
            else ApplyService(s, o, tag).Info(r) == s.Info(r)
  {
    hide ServiceInfo, Serviced;
    ServicedFields(s.Info(o), tag, s.serviceTags);
  }

  /** A live PID leads to k exactly if its record is k's. */
  lemma LeadsExactly<Ref>(s: State<Ref>, pid: uint32, k: uint64)
    requires Inv(s) && k in s.instanceData
    ensures Closed(s)
    ensures pid in s.pidToCurrentProcessData ==>
              (LeadsTo(s, pid, k) <==> s.pidToCurrentProcessData[pid] == s.instanceData[k])
  {
  }

  lemma ThreadServices<Ref>(s: State<Ref>, e: Event<Ref>, k: uint64)
    requires Inv(s) && e.ThreadStarted? && k in s.instanceData
    ensures Closed(s) && Step(s, e).instanceData == s.instanceData && s.instanceData[k] in Step(s, e).heap
    ensures InfoAfter(s, e, k, s.Info(s.instanceData[k]), Step(s, e).Info(s.instanceData[k]))
  {
    hide ApplyService, Serviced, Inv;
    LeadsExactly(s, e.pid, k);
    if e.pid in s.pidToCurrentProcessData {
      var o := s.pidToCurrentProcessData[e.pid];
      ServiceApplies(s.(tidToCurrentProcessData := s.tidToCurrentProcessData[e.tid := o]), o, e.tag,
                     s.instanceData[k]);
    }
  }

  lemma SeenServices<Ref>(s: State<Ref>, e: Event<Ref>, k: uint64)
    requires Inv(s) && e.ServiceSeen? && k in s.instanceData
    ensures Closed(s) && Step(s, e).instanceData == s.instanceData && s.instanceData[k] in Step(s, e).heap
    ensures InfoAfter(s, e, k, s.Info(s.instanceData[k]), Step(s, e).Info(s.instanceData[k]))
  {
    hide ApplyService, Serviced, Inv;
    LeadsExactly(s, e.pid, k);
    if e.pid in s.pidToCurrentProcessData {
      ServiceApplies(s, s.pidToCurrentProcessData[e.pid], e.tag, s.instanceData[k]);
    }
  }

  lemma VisitNamesOnly<Ref>(s: State<Ref>, o: Ref, attempted: set<uint32>, lookup: Lookup, r: Ref)
    requires o in s.heap && r in s.heap
    ensures var i, i' := s.Info(r), Resolve(s, o, attempted, lookup).0.Info(r);
            i' == i || (i.subProcessTag > 0 && i.serviceName == "" && i' == i.(serviceName := i'.serviceName))
  {
  }

  lemma {:induction false} PassNamesOnly<Ref>(s: State<Ref>, order: seq<uint64>, lookup: Lookup, r: Ref)
    requires r in s.heap
    ensures var i, i' := s.Info(r), ResolveAll(s, order, lookup).0.Info(r);
            i' == i || (i.subProcessTag > 0 && i.serviceName == "" && i' == i.(serviceName := i'.serviceName))
  {
    hide Resolve;
    if order != [] {
      var before := ResolveAll(s, order[..|order| - 1], lookup);
      var k := order[|order| - 1];
      PassNamesOnly(s, order[..|order| - 1], lookup, r);
      if k in s.instanceData && s.instanceData[k] in s.heap {
        VisitNamesOnly(before.0, s.instanceData[k], before.1, lookup, r);
      }
    }
  }

  lemma QuietStep<Ref>(s: State<Ref>, e: Event<Ref>, k: uint64)
    requires Inv(s) && k in s.instanceData && (e.ThreadEnded? || e.TagRegistered? || e.Sampled?)
    ensures Closed(s) && Step(s, e).instanceData == s.instanceData && s.instanceData[k] in Step(s, e).heap
    ensures InfoAfter(s, e, k, s.Info(s.instanceData[k]), Step(s, e).Info(s.instanceData[k]))
  {
    hide RecordSample, Inv;
    RecordsApart(s, k, k);
    if e.Sampled? {
      SampleKeepsInfo(s, e.src, e.sample, s.instanceData[k]);
    }
  }

  lemma PassStep<Ref>(s: State<Ref>, e: Event<Ref>, k: uint64)
    requires Inv(s) && k in s.instanceData && e.Aggregated?
    ensures Closed(s) && Step(s, e).instanceData == s.instanceData && s.instanceData[k] in Step(s, e).heap
    ensures InfoAfter(s, e, k, s.Info(s.instanceData[k]), Step(s, e).Info(s.instanceData[k]))
  {
    hide ResolveAll, Inv;
    RecordsApart(s, k, k);
    PassNamesOnly(s, e.order, e.lookup, s.instanceData[k]);
    ResolveAllKeepsMarks(s, e.order, e.lookup);
  }

  lemma SampleKeepsInfo<Ref>(s: State<Ref>, src: Source, e: Sample, r: Ref)
    requires r in s.heap && (Target(s, src).Some? ==> Target(s, src).value in s.heap)
    ensures var s' := RecordSample(s, src, e);
            s'.instanceData == s.instanceData && r in s'.heap && s'.Info(r) == s.Info(r)
  {
    hide Record, Target;
    match Target(s, src)
    case None =>
    case Some(o) => CountersKeepInfo(s, o, Record(s.heap[o].counters, e), r);
  }

  lemma CountersKeepInfo<Ref>(s: State<Ref>, o: Ref, counters: Counters, r: Ref)
    requires o in s.heap && r in s.heap
    ensures var s' := s.(heap := s.heap[o := s.heap[o].(counters := counters)]);
            s'.instanceData == s.instanceData && r in s'.heap && s'.Info(r) == s.Info(r)
  {
  }

  lemma CleanStep<Ref>(s: State<Ref>, e: Event<Ref>, k: uint64)
    requires Inv(s) && e.CleanedUp? && k in s.instanceData
    ensures Closed(s) && (k in Step(s, e).instanceData ==> Step(s, e).instanceData[k] == s.instanceData[k])
    ensures s.instanceData[k] in Step(s, e).heap
    ensures InfoAfter(s, e, k, s.Info(s.instanceData[k]), Step(s, e).Info(s.instanceData[k]))
  {
    hide Cleanup, Inv;
    RecordsApart(s, k, k);
    CleanupKeepsRecords(s, e.now, e.order);
  }

  /** What every event makes of the information of an instance that is live before and after it. */
  lemma InfoStep<Ref>(s: State<Ref>, e: Event<Ref>, k: uint64)
    requires Inv(s) && Enabled(s, e) && Closed(s) && k in s.instanceData && k in Step(s, e).instanceData
    ensures Step(s, e).instanceData[k] == s.instanceData[k] && s.instanceData[k] in Step(s, e).heap
    ensures InfoAfter(s, e, k, s.Info(s.instanceData[k]), Step(s, e).Info(s.instanceData[k]))
  {
    hide Inv, Step, Enabled, InfoAfter;
    if e.ExeLoaded? {
      ImageStep(s, e, k);
    } else if e.ProcessEnded? {
      EndStep(s, e, k);
    } else if e.ProcessStarted? {
      SeenStep(s, e, k);
    } else if e.ThreadStarted? {
      ThreadServices(s, e, k);
    } else if e.ServiceSeen? {
      SeenServices(s, e, k);
    } else if e.CleanedUp? {
      CleanStep(s, e, k);
    } else if e.Aggregated? {
      PassStep(s, e, k);
    } else {
      QuietStep(s, e, k);
    }
  }

  // ---- over runs ----

  /** Event e sends the instance k a full path. */
  ghost predicate SendsPath<Ref>(s: State<Ref>, e: Event<Ref>, k: uint64) {
    e.ExeLoaded? && LeadsTo(s, e.pid, k) && '\\' in e.imageName
  }

  /** Event e sends the instance k a checksum. */
  ghost predicate SendsChecksum<Ref>(s: State<Ref>, e: Event<Ref>, k: uint64) {
    e.ExeLoaded? && LeadsTo(s, e.pid, k) && e.checksum != 0
  }

  /** Event e ends the instance k at a known time. */
  predicate SendsEnd<Ref>(e: Event<Ref>, k: uint64) {
    e.ProcessEnded? && e.startKey == k && e.terminationTime != 0
  }

  predicate SameIdentity(i: ProcessInfo, i': ProcessInfo) {
    && i'.pid == i.pid && i'.startKey == i.startKey && i'.parentPid == i.parentPid
    && i'.sessionId == i.sessionId && i'.createTime == i.createTime
  }

  lemma FieldStep<Ref>(s: State<Ref>, e: Event<Ref>, k: uint64, i: ProcessInfo, i': ProcessInfo)
    requires InfoAfter(s, e, k, i, i')
    ensures SameIdentity(i, i') && (i.serviceName != "" ==> i'.serviceName == i.serviceName)
    ensures i'.name == if SendsPath(s, e, k) && '\\' !in i.name then e.imageName else i.name
    ensures i'.uniqueHash == if SendsChecksum(s, e, k) && i.uniqueHash == 0 then e.checksum else i.uniqueHash
    ensures i'.terminationTime == if SendsEnd(e, k) && i.terminationTime == 0 then e.terminationTime
                                  else i.terminationTime
  {
  }

  /** The instance k is live in all states from a to n. */
  ghost predicate LiveThrough<Ref>(states: seq<State<Ref>>, k: uint64, a: nat, n: nat) {
    && a <= n < |states|
    && forall x | a <= x <= n :: k in states[x].instanceData && states[x].instanceData[k] in states[x].heap
  }

  /** The information of a live instance. */
  ghost function InfoOf<Ref>(s: State<Ref>, k: uint64): ProcessInfo
    requires k in s.instanceData && s.instanceData[k] in s.heap
  {
    s.Info(s.instanceData[k])
  }

  lemma NthField<Ref>(unknown: Ref, start: int, states: seq<State<Ref>>, events: seq<Event<Ref>>, k: uint64, n: nat)
    requires IsRun(unknown, start, states, events) && n < |events| && LiveThrough(states, k, n, n + 1)
    ensures InfoAfter(states[n], events[n], k, InfoOf(states[n], k), InfoOf(states[n + 1], k))
    ensures states[n + 1].instanceData[k] == states[n].instanceData[k]
  {
    hide Step, Enabled, Inv, InfoAfter;
    NthNext(unknown, start, states, events, n);
    InfoStep(states[n], events[n], k);
  }

  /** PID, key, parent, session and creation time never change; a service name once set stays. */
  lemma {:induction false} IdentityStays<Ref>(unknown: Ref, start: int,
      states: seq<State<Ref>>, events: seq<Event<Ref>>, k: uint64, a: nat, n: nat)
    requires IsRun(unknown, start, states, events) && LiveThrough(states, k, a, n)
    ensures states[n].instanceData[k] == states[a].instanceData[k]
    ensures SameIdentity(InfoOf(states[a], k), InfoOf(states[n], k))
    ensures InfoOf(states[a], k).serviceName != "" ==>
              InfoOf(states[n], k).serviceName == InfoOf(states[a], k).serviceName
    decreases n - a
  {
    hide Next, InfoAfter;
    if a < n {
      IdentityStays(unknown, start, states, events, k, a, n - 1);
      NthField(unknown, start, states, events, k, n - 1);
      FieldStep(states[n - 1], events[n - 1], k, InfoOf(states[n - 1], k), InfoOf(states[n], k));
    }
  }

  /** An instance keeps its name if that is a full path, or as long as none is sent to it. */
  lemma {:induction false} PathStays<Ref>(unknown: Ref, start: int,
      states: seq<State<Ref>>, events: seq<Event<Ref>>, k: uint64, a: nat, n: nat)
    requires IsRun(unknown, start, states, events) && LiveThrough(states, k, a, n)
    requires '\\' in InfoOf(states[a], k).name || forall x | a <= x < n :: !SendsPath(states[x], events[x], k)
    ensures InfoOf(states[n], k).name == InfoOf(states[a], k).name
    decreases n - a
  {
    hide Next, InfoAfter, SendsPath;
    if a < n {
      PathStays(unknown, start, states, events, k, a, n - 1);
      NthField(unknown, start, states, events, k, n - 1);
      FieldStep(states[n - 1], events[n - 1], k, InfoOf(states[n - 1], k), InfoOf(states[n], k));
    }
  }

  /** The first full path sent to an instance is the name it shows until it is recycled. */
  lemma FirstPathShown<Ref>(unknown: Ref, start: int,
      states: seq<State<Ref>>, events: seq<Event<Ref>>, k: uint64, a: nat, i: nat, n: nat)
    requires IsRun(unknown, start, states, events) && LiveThrough(states, k, a, n) && a <= i < n
    requires '\\' !in InfoOf(states[a], k).name && SendsPath(states[i], events[i], k)
    requires forall x | a <= x < i :: !SendsPath(states[x], events[x], k)
    ensures InfoOf(states[n], k).name == events[i].imageName
  {
    hide Next, InfoAfter, LeadsTo;
    PathStays(unknown, start, states, events, k, a, i);
    NthField(unknown, start, states, events, k, i);
    FieldStep(states[i], events[i], k, InfoOf(states[i], k), InfoOf(states[i + 1], k));
    PathStays(unknown, start, states, events, k, i + 1, n);
  }

  /** An instance keeps its checksum if it has one, or as long as none is sent to it. */
  lemma {:induction false} ChecksumStays<Ref>(unknown: Ref, start: int,
      states: seq<State<Ref>>, events: seq<Event<Ref>>, k: uint64, a: nat, n: nat)
    requires IsRun(unknown, start, states, events) && LiveThrough(states, k, a, n)
    requires InfoOf(states[a], k).uniqueHash != 0 || forall x | a <= x < n :: !SendsChecksum(states[x], events[x], k)
    ensures InfoOf(states[n], k).uniqueHash == InfoOf(states[a], k).uniqueHash
    decreases n - a
  {
    hide Next, InfoAfter, SendsChecksum;
    if a < n {
      ChecksumStays(unknown, start, states, events, k, a, n - 1);
      NthField(unknown, start, states, events, k, n - 1);
      FieldStep(states[n - 1], events[n - 1], k, InfoOf(states[n - 1], k), InfoOf(states[n], k));
    }
  }

  /** The first checksum sent to an instance is the one it shows until it is recycled. */
  lemma FirstChecksumShown<Ref>(unknown: Ref, start: int,
      states: seq<State<Ref>>, events: seq<Event<Ref>>, k: uint64, a: nat, i: nat, n: nat)
    requires IsRun(unknown, start, states, events) && LiveThrough(states, k, a, n) && a <= i < n
    requires InfoOf(states[a], k).uniqueHash == 0 && SendsChecksum(states[i], events[i], k)
    requires forall x | a <= x < i :: !SendsChecksum(states[x], events[x], k)
    ensures InfoOf(states[n], k).uniqueHash == events[i].checksum
  {
    hide Next, InfoAfter, LeadsTo;
    ChecksumStays(unknown, start, states, events, k, a, i);
    NthField(unknown, start, states, events, k, i);
    FieldStep(states[i], events[i], k, InfoOf(states[i], k), InfoOf(states[i + 1], k));
    ChecksumStays(unknown, start, states, events, k, i + 1, n);
  }

  /** An instance keeps its end if that is known, or as long as none is sent to it. */
  lemma {:induction false} EndStays<Ref>(unknown: Ref, start: int,
      states: seq<State<Ref>>, events: seq<Event<Ref>>, k: uint64, a: nat, n: nat)
    requires IsRun(unknown, start, states, events) && LiveThrough(states, k, a, n)
    requires InfoOf(states[a], k).terminationTime != 0 || forall x | a <= x < n :: !SendsEnd(events[x], k)
    ensures InfoOf(states[n], k).terminationTime == InfoOf(states[a], k).terminationTime
    decreases n - a
  {
    hide Next, InfoAfter, SendsEnd;
    if a < n {
      EndStays(unknown, start, states, events, k, a, n - 1);
      NthField(unknown, start, states, events, k, n - 1);
      FieldStep(states[n - 1], events[n - 1], k, InfoOf(states[n - 1], k), InfoOf(states[n], k));
    }
  }

  /** The first known end sent to an instance is the one it shows until it is recycled. */
  lemma FirstEndShown<Ref>(unknown: Ref, start: int,
      states: seq<State<Ref>>, events: seq<Event<Ref>>, k: uint64, a: nat, i: nat, n: nat)
    requires IsRun(unknown, start, states, events) && LiveThrough(states, k, a, n) && a <= i < n
    requires InfoOf(states[a], k).terminationTime == 0 && SendsEnd(events[i], k)
    requires forall x | a <= x < i :: !SendsEnd(events[x], k)
    ensures InfoOf(states[n], k).terminationTime == events[i].terminationTime
  {
    hide Next, InfoAfter, LeadsTo;
    EndStays(unknown, start, states, events, k, a, i);
    NthField(unknown, start, states, events, k, i);
    FieldStep(states[i], events[i], k, InfoOf(states[i], k), InfoOf(states[i + 1], k));
    EndStays(unknown, start, states, events, k, i + 1, n);
  }

  /** What an instance says of its start stays true until it is recycled: its session, with 0 for none and for PID 4. */
  lemma StartShown<Ref>(unknown: Ref, start: int,
      states: seq<State<Ref>>, events: seq<Event<Ref>>, c: nat, n: nat)
    requires IsRun(unknown, start, states, events) && c < n <= |events|
    requires events[c].ProcessStarted? && events[c].startKey !in states[c].instanceData
    requires LiveThrough(states, events[c].startKey, c + 1, n)
    ensures var e, i := events[c], InfoOf(states[n], events[c].startKey);
            && states[n].instanceData[e.startKey] == e.o
            && i.pid == e.pid && i.startKey == e.startKey && i.parentPid == e.parentPid && i.createTime == e.now
            && i.sessionId == if e.sessionId == 0xFFFF_FFFF || e.pid == 4 then 0 else e.sessionId
  {
    hide Step, Enabled, Inv;
    NthNext(unknown, start, states, events, c);
    StartsFresh(states[c], events[c]);
    IdentityStays(unknown, start, states, events, events[c].startKey, c + 1, n);
  }

  /** At every point of every run: what image information makes of the PID's current record, exactly. */
  lemma ImageTeaches<Ref>(unknown: Ref, start: int, states: seq<State<Ref>>, events: seq<Event<Ref>>, n: nat)
    requires IsRun(unknown, start, states, events) && n < |events| && events[n].ExeLoaded?
    requires events[n].pid in states[n].pidToCurrentProcessData
    ensures var o := states[n].pidToCurrentProcessData[events[n].pid];
            && o in states[n].heap && o in states[n + 1].heap
            && Enriched(states[n].Info(o), states[n + 1].Info(o), events[n].checksum, events[n].imageName)
            && states[n + 1].heap[o].counters == states[n].heap[o].counters
  {
    hide Inv, Step, Enabled, Enriched;
    NthNext(unknown, start, states, events, n);
    TeachesCurrent(states[n], events[n]);
  }

  lemma TeachesCurrent<Ref>(s: State<Ref>, e: Event<Ref>)
    requires Inv(s) && e.ExeLoaded? && e.pid in s.pidToCurrentProcessData
    ensures Closed(s)
    ensures var o, s' := s.pidToCurrentProcessData[e.pid], Step(s, e);
            && o in s.heap && o in s'.heap && Enriched(s.Info(o), s'.Info(o), e.checksum, e.imageName)
            && s'.heap[o].counters == s.heap[o].counters
  {
    hide Enriched, EnrichedInfo;
    EnrichedFields(s.Info(s.pidToCurrentProcessData[e.pid]), e.checksum, e.imageName);
  }

  lemma TagsAfterCleanup<Ref>(s: State<Ref>, now: int, order: seq<uint64>)
    requires Closed(s)
    ensures Cleanup(s, now, order).serviceTags == s.serviceTags
  {
    hide PidsWithout, CleanPidKeys, PidsOf, RefsOf, TidsOf, UnexpiredTids, UnexpiredRecords, NextThreshold, Expired;
  }

  /** A known tag is cached under its name; no other event but a pass changes the cache. */
  lemma TagsStep<Ref>(s: State<Ref>, e: Event<Ref>)
    requires Closed(s) && !e.Aggregated?
    ensures Step(s, e).serviceTags
            == if e.TagRegistered? && e.tag > 0 && e.serviceName != "" then s.serviceTags[e.tag := e.serviceName]
               else s.serviceTags
  {
    hide Insert, EnrichedInfo, NewProcess, AddThread, ApplyService, RecordSample, Target, TerminatedInfo, Cleanup;
    if e.CleanedUp? {
      TagsAfterCleanup(s, e.now, e.order);
    } else if e.ProcessStarted? {
      InsertKeepsRest(s, e.o, NewProcess(e.pid, e.startKey, e.name, e.parentPid, e.sessionId, e.now));
    } else if e.ThreadStarted? || e.ServiceSeen? || e.Sampled? {
      RecordingFrame(s, e);
    }
  }
}
