/**
 The kernel state manager as an object: the maps of its process, thread and
 service managers, its scrape timer, and the ProcessData records it creates,
 files, pools and hands out again. Each method is one event of the lifecycle,
 and leaves the state that the event prescribes.
 */
module KernelState {
  import opened Words
  import opened Counters
  import opened ScrapeClock
  import opened Lifecycle
  import opened LifecycleRuns
  import opened ProcessRecords
  import opened Identity
  import opened Aggregation
  import opened Charging
  import opened SnapshotFields
  import opened Snapshots
  import Images

  lemma UnexpiredTidsAre<Ref>(s: State<Ref>, threshold: nat, threadsToClean: map<uint32, uint64>,
                              tids: map<uint32, Ref>)
    requires Closed(s)
    requires forall t ::
               t in threadsToClean <==> t in s.terminatedThreads && s.terminatedThreads[t].generation < threshold
    requires forall t | t in threadsToClean :: threadsToClean[t] == s.terminatedThreads[t].startKey
    requires tids.Keys <= s.tidToCurrentProcessData.Keys
    requires forall t | t in tids :: tids[t] == s.tidToCurrentProcessData[t]
    requires forall t | t in s.tidToCurrentProcessData ::
               t !in tids <==> t in threadsToClean && s.Info(s.tidToCurrentProcessData[t]).startKey == threadsToClean[t]
    ensures tids == UnexpiredTids(s, threshold)
  {
  }

  lemma UnlistKeepsInvariant<Ref>(s: State<Ref>, clean: set<uint64>)
    requires Inv(s)
    ensures Inv(s.(terminatedProcesses := s.terminatedProcesses - clean))
    ensures s.terminatedProcesses.Keys <= s.instanceData.Keys
  {
  }

  lemma ExpiredWereMarked(terminated: map<uint64, nat>, threshold: nat)
    ensures Expired(terminated, threshold) <= terminated.Keys
  {
  }

  lemma TickKeepsInvariant<Ref>(s: State<Ref>, now: int)
    requires Inv(s)
    ensures Inv(Tick(s, now))
  {
  }

  lemma ClosedTick<Ref>(s: State<Ref>, now: int)
    requires Inv(s)
    ensures Closed(s) && Closed(Tick(s, now)) && Tick(s, now).terminatedProcesses == s.terminatedProcesses
  {
  }

  /** The same event, up to the choices that the manager makes itself: the record it takes and the order it walks in. */
  ghost predicate SameRequest<Ref>(e: Event<Ref>, f: Event<Ref>) {
    match e
    case ProcessStarted(_, pid, startKey, name, parentPid, sessionId, now) =>
      f.ProcessStarted? && (f.pid, f.startKey, f.name, f.parentPid, f.sessionId, f.now)
        == (pid, startKey, name, parentPid, sessionId, now)
    case Aggregated(_, lookup) => f.Aggregated? && f.lookup == lookup
    case CleanedUp(now, _) => f.CleanedUp? && f.now == now
    case _ => f == e
  }

  lemma StartStep<Ref>(s: State<Ref>, e: Event<Ref>)
    requires Closed(s) && e.ProcessStarted? && (e.startKey !in s.instanceData ==> Available(s, e.o))
    ensures Enabled(s, e)
    ensures Step(s, e) == AddProcess(s, e.o, e.pid, e.startKey, e.name, e.parentPid, e.sessionId, e.now)
  {
  }

  lemma AggregateStep<Ref>(s: State<Ref>, e: Event<Ref>)
    requires Closed(s) && e.Aggregated? && IsOrderOf(e.order, s.instanceData.Keys)
    ensures Enabled(s, e) && Step(s, e) == ResolveAll(s, e.order, e.lookup).0
  {
  }

  lemma CleanStep<Ref>(s: State<Ref>, e: Event<Ref>)
    requires Closed(s) && e.CleanedUp? && IsOrderOf(e.order, Expired(s.terminatedProcesses, NextThreshold(s, e.now)))
    ensures Enabled(s, e) && Step(s, e) == Cleanup(s, e.now, e.order)
  {
  }

  /** The events that leave nothing open. */
  lemma DirectStep<Ref>(s: State<Ref>, e: Event<Ref>)
    requires Closed(s) && !e.ProcessStarted? && !e.Aggregated? && !e.CleanedUp?
    ensures Enabled(s, e)
    ensures match e
            case ProcessEnded(startKey, terminationTime) => Step(s, e) == MarkProcess(s, startKey, terminationTime)
            case ExeLoaded(pid, checksum, imageName) => Step(s, e) == Enrich(s, pid, checksum, imageName)
            case ThreadStarted(tid, pid, now, tag) => Step(s, e) == AddThread(s, tid, pid, now, tag)
            case ThreadEnded(tid) => Step(s, e) == MarkThread(s, tid)
            case TagRegistered(tag, serviceName) => Step(s, e) == RegisterServiceTag(s, tag, serviceName)
            case ServiceSeen(pid, tag) =>
              Step(s, e) == if AtPid(s, pid).Some? then ApplyService(s, AtPid(s, pid).value, tag) else s
            case Sampled(src, sample) => Step(s, e) == RecordSample(s, src, sample)
            case _ => true
  {
  }

  /** The file name ends in ".exe", in any letter case. */
  predicate IsExecutable(fileName: string) {
    var n := |fileName|;
    n >= 4 && fileName[n - 4] == '.' && fileName[n - 3] in "eE" && fileName[n - 2] in "xX" && fileName[n - 1] in "eE"
  }

  /** Exactly the names that end in .exe, .Exe, .EXE and so on. */
  lemma ExecutableExactly(fileName: string)
    ensures IsExecutable(fileName)
            <==> exists stem: string, e, x, l ::
                   fileName == stem + ['.', e, x, l] && e in {'e', 'E'} && x in {'x', 'X'} && l in {'e', 'E'}
  {
    if IsExecutable(fileName) {
      var n := |fileName|;
      assert fileName == fileName[..n - 4] + ['.', fileName[n - 3], fileName[n - 2], fileName[n - 1]];
    }
  }

  lemma NothingCleaned<Ref>(s: State<Ref>)
    requires Closed(s)
    ensures PidsWithout(s, {}) == s.pidToCurrentProcessData && RefsOf(s, {}) == {}
    ensures CleanPidKeys(s.pidToCurrentStartKey, PidsOf(s), []) == s.pidToCurrentStartKey
    ensures IsOrderOf<uint64>([], {})
  {
  }

  lemma WalkOneMore(order: seq<uint64>, done: set<uint64>, k: uint64)
    requires IsOrderOf(order, done) && k !in done
    ensures IsOrderOf(order + [k], done + {k})
  {
  }

  lemma KeysOneMore<Ref>(s: State<Ref>, order: seq<uint64>, k: uint64)
    requires k in s.instanceData && s.instanceData[k] in s.heap
    ensures CleanPidKeys(s.pidToCurrentStartKey, PidsOf(s), order + [k])
            == CleanPidKey(CleanPidKeys(s.pidToCurrentStartKey, PidsOf(s), order), s.Info(s.instanceData[k]).pid, k)
  {
    hide CleanPidKey;
    assert (order + [k])[..|order|] == order;
  }

  lemma PidsOneMore<Ref>(s: State<Ref>, done: set<uint64>, k: uint64)
    requires Inv(s) && k in s.instanceData && k !in done
    ensures s.instanceData[k] in s.heap
    ensures var p := s.Info(s.instanceData[k]).pid;
            var pids := PidsWithout(s, done);
            && (p in pids ==> pids[p] in s.heap)
            && PidsWithout(s, done + {k}) == if p in pids && s.Info(pids[p]).startKey == k then pids - {p} else pids
  {
  }

  lemma RefsOneMore<Ref>(s: State<Ref>, done: set<uint64>, k: uint64)
    requires FiledByKey(s.instanceData, s.heap) && k in s.instanceData && k !in done
    ensures multiset(RefsOf(s, done + {k})) == multiset(RefsOf(s, done)) + multiset{s.instanceData[k]}
  {
    assert RefsOf(s, done + {k}) == RefsOf(s, done) + {s.instanceData[k]};
    assert s.instanceData[k] !in RefsOf(s, done);
  }

  /** What cleaning one more instance adds to the process pass. */
  lemma OneMoreCleaned<Ref>(s: State<Ref>, done: set<uint64>, k: uint64, order: seq<uint64>)
    requires Inv(s) && k in s.instanceData && k !in done && IsOrderOf(order, done)
    ensures s.instanceData[k] in s.heap && IsOrderOf(order + [k], done + {k})
    ensures CleanPidKeys(s.pidToCurrentStartKey, PidsOf(s), order + [k])
            == CleanPidKey(CleanPidKeys(s.pidToCurrentStartKey, PidsOf(s), order), s.Info(s.instanceData[k]).pid, k)
    ensures var p := s.Info(s.instanceData[k]).pid;
            var pids := PidsWithout(s, done);
            && (p in pids ==> pids[p] in s.heap)
            && PidsWithout(s, done + {k}) == if p in pids && s.Info(pids[p]).startKey == k then pids - {p} else pids
    ensures multiset(RefsOf(s, done + {k})) == multiset(RefsOf(s, done)) + multiset{s.instanceData[k]}
  {
    hide IsOrderOf, CleanPidKeys, CleanPidKey, PidsOf, PidsWithout, RefsOf, FiledByKey, PidMapsAgree, PoolIsFree,
         PidsAreLive, TidsAreLive, SystemUntagged;
    WalkOneMore(order, done, k);
    PidsOneMore(s, done, k);
    KeysOneMore(s, order, k);
    RefsOneMore(s, done, k);
  }

  class KernelStateManager {
    var instanceData: map<uint64, ProcessData?>
    var terminatedProcesses: map<uint64, nat>
    var pidToCurrentStartKey: map<uint32, uint64>
    var pidToCurrentProcessData: map<uint32, ProcessData?>
    var processDataPool: multiset<ProcessData?>
    var tidToCurrentProcessData: map<uint32, ProcessData?>
    var terminatedThreads: map<uint32, TerminationRecord>
    var serviceTags: map<uint32, string>
    var scrapeCounter: nat
    const timer: ScrapeTimer
    const images: Images.ImageManager
    const snapshots: SnapshotStore
    const processManagerEnabled: bool
    ghost var records: set<ProcessData>

    /** The contents of every record allocated so far. */
    ghost function Heap(): (h: map<ProcessData?, Proc>)
      reads this`records, records
      ensures h.Keys == records
    {
      map o: ProcessData | o in records :: o.View()
    }

    ghost function View(): State<ProcessData?>
      reads this, records, timer, timer.scrapeDurations
      requires timer.Valid()
    {
      State(instanceData, terminatedProcesses, pidToCurrentStartKey, pidToCurrentProcessData,
            tidToCurrentProcessData, terminatedThreads, serviceTags, processDataPool, Heap(), scrapeCounter,
            timer.View())
    }

    ghost predicate Valid()
      reads this, records, timer, timer.scrapeDurations
    {
      timer.Valid() && Inv(View())
    }

    constructor (timer: ScrapeTimer, images: Images.ImageManager, snapshots: SnapshotStore, processManagerEnabled: bool,
                 now: int)
      requires timer.Valid() && timer.View() == Started(now)
      ensures this.timer == timer && this.images == images && this.snapshots == snapshots
      ensures this.processManagerEnabled == processManagerEnabled
      ensures Valid() && fresh(records) && UNKNOWN_PROCESS_START_KEY in instanceData
      ensures View() == Init(instanceData[UNKNOWN_PROCESS_START_KEY], now)
    {
      terminatedProcesses, pidToCurrentStartKey, pidToCurrentProcessData := map[], map[], map[];
      tidToCurrentProcessData, terminatedThreads, serviceTags := map[], map[], map[];
      processDataPool := multiset{};
      scrapeCounter := 0;
      this.processManagerEnabled := processManagerEnabled;
      this.timer, this.images, this.snapshots := timer, images, snapshots;
      var unknown := new ProcessData();
      instanceData := map[UNKNOWN_PROCESS_START_KEY := unknown];
      records := {unknown};
      new;
      unknown.Reset();
      unknown.info := UnknownProcess(now).info;
      assert Heap() == map[unknown := UnknownProcess(now)];
      InitKeepsInvariant(instanceData[UNKNOWN_PROCESS_START_KEY], now);
    }

    /** When only one record has changed, or was added, the heap is an update of the earlier one. */
    twostate lemma HeapUpdated(new pData: ProcessData)
      requires records == old(records) + {pData}
      requires forall o: ProcessData | o in old(records) && o != pData :: unchanged(o)
      ensures Heap() == old(Heap())[pData := pData.View()]
    {
    }

    /** What the maps hold are allocated records. */
    lemma MapsLeadToRecords()
      requires Valid()
      ensures Closed(View())
      ensures forall k | k in instanceData :: instanceData[k] != null && instanceData[k] in records
      ensures forall p | p in pidToCurrentProcessData ::
                pidToCurrentProcessData[p] != null && pidToCurrentProcessData[p] in records
      ensures forall t | t in tidToCurrentProcessData ::
                tidToCurrentProcessData[t] != null && tidToCurrentProcessData[t] in records
      ensures forall o | o in processDataPool :: o != null && o in records
      ensures forall o: ProcessData | o in records :: Heap()[o] == o.View()
    {
      assert forall o: ProcessData? :: o in Heap() ==> o != null && o in records;
    }

    // ---- processes ----

    /** A pooled record, any of them, or a new one. */
    method GetFromPool() returns (pData: ProcessData)
      requires Valid()
      modifies this`processDataPool, this`records
      ensures (pData in old(processDataPool) && pData in old(records)) || fresh(pData)
      ensures processDataPool == old(processDataPool) - multiset{pData}
      ensures records == old(records) + {pData}
    {
      MapsLeadToRecords();
      if * {
        pData := new ProcessData();
      } else if processDataPool == multiset{} {
        pData := new ProcessData();
      } else {
        var pooled :| pooled in processDataPool;
        pData := pooled;
      }
      processDataPool := processDataPool - multiset{pData};
      records := records + {pData};
    }

    /** A record from the pool holding a new instance: whatever it held before is gone. */
    method NewProcessData(pid: uint32, startKey: uint64, name: string, parentPid: uint32, sessionId: uint32, now: int)
      returns (pData: ProcessData)
      requires Valid()
      modifies this`processDataPool, this`records, records
      ensures fresh(records - old(records))
      ensures pData in old(View()).pool || pData !in old(View()).heap
      ensures timer.Valid()
      ensures View() == old(View()).(pool := old(View()).pool - multiset{pData},
                                     heap := old(View()).heap[
                                               pData := NewProcess(pid, startKey, name, parentPid, sessionId, now)])
    {
      hide Inv, NewProcess;
      pData := GetFromPool();
      pData.Populate(pid, startKey, name, parentPid, sessionId, now);
      HeapUpdated(pData);
    }

    method FileProcess(pid: uint32, startKey: uint64, pData: ProcessData)
      requires timer.Valid()
      modifies this`instanceData, this`pidToCurrentStartKey, this`pidToCurrentProcessData
      ensures timer.Valid()
      ensures View() == old(View()).(instanceData := old(View()).instanceData[startKey := pData],
                                     pidToCurrentStartKey := old(View()).pidToCurrentStartKey[pid := startKey],
                                     pidToCurrentProcessData := old(View()).pidToCurrentProcessData[pid := pData])
    {
      instanceData := instanceData[startKey := pData];
      pidToCurrentStartKey := pidToCurrentStartKey[pid := startKey];
      pidToCurrentProcessData := pidToCurrentProcessData[pid := pData];
    }

    /** Files the new instance under its start key and makes it the current one of its PID. */
    method CreateProcess(pid: uint32, startKey: uint64, name: string, parentPid: uint32, sessionId: uint32, now: int)
      returns (pData: ProcessData)
      requires Valid() && startKey !in instanceData
      modifies this, records
      ensures Valid() && fresh(records - old(records))
      ensures Available(old(View()), pData)
      ensures View() == Insert(old(View()), pData, NewProcess(pid, startKey, name, parentPid, sessionId, now))
    {
      hide Inv, Heap;
      ghost var s := View();
      pData := NewProcessData(pid, startKey, name, parentPid, sessionId, now);
      FileProcess(pid, startKey, pData);
      InsertKeepsInvariant(s, pData, NewProcess(pid, startKey, name, parentPid, sessionId, now));
    }

    method AddProcess(pid: uint32, startKey: uint64, name: string, parentPid: uint32, sessionId: uint32, now: int)
      returns (ghost o: ProcessData?)
      requires Valid()
      modifies this, records
      ensures Valid() && fresh(records - old(records))
      ensures old(Closed(View())) && (startKey !in old(instanceData) ==> Available(old(View()), o))
      ensures View() == Lifecycle.AddProcess(old(View()), o, pid, startKey, name, parentPid, sessionId, now)
    {
      hide Inv, Heap;
      MapsLeadToRecords();
      o := null;
      ghost var s := View();
      if startKey in instanceData {
        var pData := instanceData[startKey];
        pData.SetLastSeen(now);
        HeapUpdated(pData);
        AddProcessKeepsInvariant(s, o, pid, startKey, name, parentPid, sessionId, now);
      } else {
        o := CreateProcess(pid, startKey, name, parentPid, sessionId, now);
      }
    }

    method MarkProcessForDeletion(startKey: uint64, terminationTime: int)
      requires Valid()
      modifies this`terminatedProcesses, records
      ensures Valid() && old(Closed(View()))
      ensures View() == MarkProcess(old(View()), startKey, terminationTime)
    {
      hide Inv, Heap, TerminatedInfo;
      MapsLeadToRecords();
      ghost var s := View();
      MarkProcessKeepsInvariant(s, startKey, terminationTime);
      if startKey !in instanceData {
        return;
      }
      var pData := instanceData[startKey];
      pData.SetTerminationTime(terminationTime);
      terminatedProcesses := terminatedProcesses[startKey := scrapeCounter];
      HeapUpdated(pData);
    }

    method EnrichProcessWithImageData(pid: uint32, checksum: uint64, imageName: string)
      requires Valid()
      modifies records
      ensures Valid() && old(Closed(View()))
      ensures View() == Enrich(old(View()), pid, checksum, imageName)
    {
      hide Inv, Heap, EnrichedInfo;
      MapsLeadToRecords();
      ghost var s := View();
      EnrichKeepsInvariant(s, pid, checksum, imageName);
      if pid in pidToCurrentStartKey {
        var startKey := pidToCurrentStartKey[pid];
        if startKey in instanceData {
          var pData := instanceData[startKey];
          pData.Enrich(checksum, imageName);
          HeapUpdated(pData);
        }
      }
    }

    // ---- services and threads ----

    method RegisterServiceTag(tag: uint32, name: string)
      requires Valid()
      modifies this`serviceTags
      ensures Valid()
      ensures View() == Lifecycle.RegisterServiceTag(old(View()), tag, name)
    {
      hide Inv, Heap;
      RegisterKeepsInvariant(View(), tag, name);
      if tag > 0 && name != "" {
        serviceTags := serviceTags[tag := name];
      }
    }

    method ResolveAndApplyServiceName(pData: ProcessData, subProcessTag: uint32)
      requires Valid() && pData in records && View().Live(pData)
      modifies records
      ensures Valid()
      ensures View() == ApplyService(old(View()), pData, subProcessTag)
    {
      hide Inv, Heap, ServiceInfo;
      MapsLeadToRecords();
      ApplyServiceKeepsInvariant(View(), pData, subProcessTag);
      pData.ApplyServiceTag(subProcessTag, serviceTags);
      HeapUpdated(pData);
    }

    method StoreThread(tid: uint32, pData: ProcessData?)
      requires Valid() && View().Live(pData)
      modifies this`tidToCurrentProcessData
      ensures Valid()
      ensures View() == old(View()).(tidToCurrentProcessData := old(View()).tidToCurrentProcessData[tid := pData])
    {
      hide Inv, Heap;
      MapTidKeepsInvariant(View(), tid, pData);
      tidToCurrentProcessData := tidToCurrentProcessData[tid := pData];
    }

    method AddThread(tid: uint32, pid: uint32, now: int, subProcessTag: uint32)
      requires Valid()
      modifies this`tidToCurrentProcessData, records
      ensures Valid() && old(Closed(View()))
      ensures View() == Lifecycle.AddThread(old(View()), tid, pid, now, subProcessTag)
    {
      hide Inv, Heap, ApplyService, Closed;
      ghost var s := View();
      assert Closed(s) && (pid in pidToCurrentProcessData ==>
        && pidToCurrentProcessData[pid] in records && pidToCurrentProcessData[pid] != null
        && s.Live(pidToCurrentProcessData[pid])
        && s.heap[pidToCurrentProcessData[pid]] == pidToCurrentProcessData[pid].View())
        && (UNKNOWN_PROCESS_START_KEY in instanceData ==> s.Live(instanceData[UNKNOWN_PROCESS_START_KEY])) by {
        MapsLeadToRecords();
        TargetIsLive(s, ByPid(pid));
        if UNKNOWN_PROCESS_START_KEY in instanceData {
          FiledIsLive(s, UNKNOWN_PROCESS_START_KEY);
        }
      }
      if pid in pidToCurrentProcessData {
        var pData := pidToCurrentProcessData[pid];
        if now > pData.info.createTime - MILLISECOND {
          StoreThread(tid, pData);
          ResolveAndApplyServiceName(pData, subProcessTag);
          return;
        }
      }
      if UNKNOWN_PROCESS_START_KEY in instanceData {
        StoreThread(tid, instanceData[UNKNOWN_PROCESS_START_KEY]);
      }
    }

    method MarkThreadForDeletion(tid: uint32)
      requires Valid()
      modifies this`terminatedThreads
      ensures Valid() && old(Closed(View()))
      ensures View() == MarkThread(old(View()), tid)
    {
      hide Inv, Heap;
      MapsLeadToRecords();
      MarkThreadKeepsInvariant(View(), tid);
      if tid in tidToCurrentProcessData {
        var pData := tidToCurrentProcessData[tid];
        terminatedThreads := terminatedThreads[tid := TerminationRecord(scrapeCounter, pData.info.startKey)];
      }
    }

    /** A service observed running under a PID. */
    method ServiceObserved(pid: uint32, tag: uint32)
      requires Valid()
      modifies records
      ensures Valid() && old(Closed(View()))
      ensures View() == if AtPid(old(View()), pid).Some?
                        then ApplyService(old(View()), AtPid(old(View()), pid).value, tag)
                        else old(View())
    {
      hide Inv, Heap, ApplyService;
      MapsLeadToRecords();
      if pid in pidToCurrentProcessData {
        var pData := pidToCurrentProcessData[pid];
        TargetIsLive(View(), ByPid(pid));
        ResolveAndApplyServiceName(pData, tag);
      }
    }

    // ---- recording ----

    /** The process an event is charged to, as its handler looks it up. */
    method FindTarget(src: Source) returns (pData: ProcessData?)
      requires Valid()
      ensures Target(View(), src) == if pData == null then None else Some(pData)
      ensures pData != null ==> pData in records
    {
      hide Inv, Heap;
      MapsLeadToRecords();
      match src
      case ByThreadOrUnknown(tid) =>
        if tid in tidToCurrentProcessData {
          return tidToCurrentProcessData[tid];
        }
        if UNKNOWN_PROCESS_START_KEY in instanceData {
          return instanceData[UNKNOWN_PROCESS_START_KEY];
        }
        return null;
      case ByThread(tid) =>
        if tid in tidToCurrentProcessData {
          return tidToCurrentProcessData[tid];
        }
        return null;
      case ByPid(pid) =>
        if pid in pidToCurrentProcessData {
          return pidToCurrentProcessData[pid];
        }
        return null;
      case ByThreadPidOrSystem(tid, headerPid) =>
        if tid != 0 && tid != 0xFFFF_FFFF && tid in tidToCurrentProcessData {
          return tidToCurrentProcessData[tid];
        }
        if headerPid != 0 && headerPid != 0xFFFF_FFFF && headerPid in pidToCurrentProcessData {
          return pidToCurrentProcessData[headerPid];
        }
        if SYSTEM_PROCESS_ID in pidToCurrentProcessData {
          return pidToCurrentProcessData[SYSTEM_PROCESS_ID];
        }
        return null;
      case Unreadable =>
        return null;
    }

    method Attribute(src: Source, e: Sample) returns (attributed: bool)
      requires Valid()
      modifies records
      ensures Valid() && attributed == old(Target(View(), src)).Some?
      ensures attributed ==> old(Target(View(), src)).value in old(View()).heap
      ensures View() == RecordSample(old(View()), src, e)
      ensures Charges(old(View()), View(), src, e)
    {
      hide Inv, Heap, Target, Record, Charges;
      RecordKeepsInvariant(View(), src, e);
      SampleCharges(View(), src, e);
      MapsLeadToRecords();
      var pData := FindTarget(src);
      attributed := pData != null;
      if attributed {
        pData.RecordAny(e);
        HeapUpdated(pData);
      }
    }

    // ---- cleanup ----

    method CollectThreadsOf(procsToClean: set<uint64>) returns (tids: set<uint32>)
      requires Valid()
      ensures Closed(View()) && tids == TidsOf(View(), procsToClean)
    {
      hide Inv, Heap;
      MapsLeadToRecords();
      tids := {};
      var todo := tidToCurrentProcessData.Keys;
      while todo != {}
        invariant todo <= tidToCurrentProcessData.Keys
        invariant tids == TidsOf(View(), procsToClean) - todo
      {
        var tid :| tid in todo;
        todo := todo - {tid};
        if tidToCurrentProcessData[tid].info.startKey in procsToClean {
          tids := tids + {tid};
        }
      }
    }

    /** The threads of the processes to be cleaned go, together with their own termination records. */
    method CleanupThreadsForTerminatedProcesses(procsToClean: set<uint64>)
      requires Valid()
      modifies this`tidToCurrentProcessData, this`terminatedThreads
      ensures Valid() && old(Closed(View()))
      ensures View() == CleanThreadsOf(old(View()), procsToClean)
    {
      hide Inv, Heap, TidsOf;
      var tidsForDeletion := CollectThreadsOf(procsToClean);
      CleanThreadsOfKeepsInvariant(View(), procsToClean);
      DeleteThreads(tidsForDeletion);
    }

    method DeleteThreads(tidsForDeletion: set<uint32>)
      modifies this`tidToCurrentProcessData, this`terminatedThreads
      ensures tidToCurrentProcessData == old(tidToCurrentProcessData) - tidsForDeletion
      ensures terminatedThreads == old(terminatedThreads) - tidsForDeletion
    {
      var todo := tidsForDeletion;
      while todo != {}
        invariant todo <= tidsForDeletion
        invariant tidToCurrentProcessData == old(tidToCurrentProcessData) - (tidsForDeletion - todo)
        invariant terminatedThreads == old(terminatedThreads) - (tidsForDeletion - todo)
      {
        var tid :| tid in todo;
        todo := todo - {tid};
        tidToCurrentProcessData := tidToCurrentProcessData - {tid};
        terminatedThreads := terminatedThreads - {tid};
      }
    }

    /** Takes the expired termination records off the list: each names a TID and the process it led to then. */
    method TakeExpiredThreads(cleanupThreshold: nat) returns (threadsToClean: map<uint32, uint64>)
      modifies this`terminatedThreads
      ensures terminatedThreads == UnexpiredRecords(old(terminatedThreads), cleanupThreshold)
      ensures forall t :: t in threadsToClean <==>
                t in old(terminatedThreads) && old(terminatedThreads)[t].generation < cleanupThreshold
      ensures forall t | t in threadsToClean :: threadsToClean[t] == old(terminatedThreads)[t].startKey
    {
      ghost var all := terminatedThreads;
      threadsToClean := map[];
      var todo := terminatedThreads.Keys;
      while todo != {}
        invariant todo <= all.Keys && todo <= terminatedThreads.Keys <= all.Keys
        invariant forall t | t in terminatedThreads :: terminatedThreads[t] == all[t]
        invariant forall t | t in all && t !in todo :: t in terminatedThreads <==> all[t].generation >= cleanupThreshold
        invariant forall t :: t in threadsToClean <==> t in all && t !in todo && all[t].generation < cleanupThreshold
        invariant forall t | t in threadsToClean :: threadsToClean[t] == all[t].startKey
      {
        var tid :| tid in todo;
        todo := todo - {tid};
        var record := terminatedThreads[tid];
        if record.generation < cleanupThreshold {
          threadsToClean := threadsToClean[tid := record.startKey];
          terminatedThreads := terminatedThreads - {tid};
        }
      }
    }

    /** A TID that leads to another process by now is left alone. */
    method DropThreads(threadsToClean: map<uint32, uint64>) returns (cleanedThreads: nat)
      requires forall t | t in threadsToClean :: t in tidToCurrentProcessData && tidToCurrentProcessData[t] != null
      modifies this`tidToCurrentProcessData
      ensures tidToCurrentProcessData.Keys <= old(tidToCurrentProcessData).Keys
      ensures forall t | t in tidToCurrentProcessData :: tidToCurrentProcessData[t] == old(tidToCurrentProcessData)[t]
      ensures forall t | t in old(tidToCurrentProcessData) ::
                t !in tidToCurrentProcessData <==>
                t in threadsToClean && old(tidToCurrentProcessData[t].info.startKey) == threadsToClean[t]
    {
      ghost var all := tidToCurrentProcessData;
      cleanedThreads := 0;
      var todo := threadsToClean.Keys;
      while todo != {}
        invariant todo <= threadsToClean.Keys && todo <= tidToCurrentProcessData.Keys <= all.Keys
        invariant forall t | t in tidToCurrentProcessData :: tidToCurrentProcessData[t] == all[t]
        invariant forall t | t in all ::
                    t !in tidToCurrentProcessData <==>
                    t in threadsToClean && t !in todo && all[t].info.startKey == threadsToClean[t]
      {
        var tid :| tid in todo;
        todo := todo - {tid};
        var current := tidToCurrentProcessData[tid];
        if current.info.startKey == threadsToClean[tid] {
          tidToCurrentProcessData := tidToCurrentProcessData - {tid};
        }
        cleanedThreads := cleanedThreads + 1;
      }
    }

    method DropExpiredThreads(cleanupThreshold: nat) returns (cleanedThreads: nat)
      requires Valid()
      modifies this`tidToCurrentProcessData, this`terminatedThreads
      ensures old(Closed(View()))
      ensures tidToCurrentProcessData == UnexpiredTids(old(View()), cleanupThreshold)
      ensures terminatedThreads == UnexpiredRecords(old(terminatedThreads), cleanupThreshold)
    {
      hide Inv, Heap, UnexpiredTids, UnexpiredRecords;
      ghost var s := View();
      MarksHaveThreads(s);
      MapsLeadToRecords();
      var threadsToClean := TakeExpiredThreads(cleanupThreshold);
      cleanedThreads := DropThreads(threadsToClean);
      UnexpiredTidsAre(s, cleanupThreshold, threadsToClean, tidToCurrentProcessData);
    }

    /** The pass over individually terminated threads. */
    method CleanupTerminatedThreads(cleanupThreshold: nat) returns (cleanedThreads: nat)
      requires Valid()
      modifies this`tidToCurrentProcessData, this`terminatedThreads
      ensures Valid() && old(Closed(View()))
      ensures View() == CleanThreads(old(View()), cleanupThreshold)
    {
      hide Inv, Heap, UnexpiredTids, UnexpiredRecords;
      CleanThreadsKeepsInvariant(View(), cleanupThreshold);
      cleanedThreads := DropExpiredThreads(cleanupThreshold);
    }

    /** Unfiles one instance and recycles its record; a PID that leads to another instance by now keeps it. */
    method RemoveProcess(startKey: uint64)
      requires startKey in instanceData && instanceData[startKey] != null
      requires var pid := instanceData[startKey].info.pid;
               pid in pidToCurrentProcessData ==> pidToCurrentProcessData[pid] != null
      modifies this`instanceData, this`pidToCurrentStartKey, this`pidToCurrentProcessData, this`processDataPool
      ensures instanceData == old(instanceData) - {startKey}
      ensures pidToCurrentStartKey
              == CleanPidKey(old(pidToCurrentStartKey), old(instanceData[startKey].info.pid), startKey)
      ensures var pid := old(instanceData[startKey].info.pid);
              pidToCurrentProcessData ==
              if pid in old(pidToCurrentProcessData) && old(pidToCurrentProcessData)[pid].info.startKey == startKey
              then old(pidToCurrentProcessData) - {pid} else old(pidToCurrentProcessData)
      ensures processDataPool == old(processDataPool) + multiset{old(instanceData)[startKey]}
    {
      var pData := instanceData[startKey];
      instanceData := instanceData - {startKey};
      var pid := pData.info.pid;

      if pid in pidToCurrentStartKey && pidToCurrentStartKey[pid] == startKey {
        pidToCurrentStartKey := pidToCurrentStartKey - {pid};
      } else {
        var current := if pid in pidToCurrentStartKey then pidToCurrentStartKey[pid] else 0;
        pidToCurrentStartKey := pidToCurrentStartKey[pid := current];
      }

      if pid in pidToCurrentProcessData && pidToCurrentProcessData[pid].info.startKey != startKey {
        pidToCurrentProcessData := pidToCurrentProcessData[pid := pidToCurrentProcessData[pid]];
      } else {
        pidToCurrentProcessData := pidToCurrentProcessData - {pid};
      }

      processDataPool := processDataPool + multiset{pData};
    }

    /** From state s on, the instances in `done` have been removed, in the given order. */
    ghost predicate Removed(s: State<ProcessData?>, done: set<uint64>, order: seq<uint64>)
      reads this
      requires Closed(s)
    {
      && IsOrderOf(order, done)
      && instanceData == s.instanceData - done
      && pidToCurrentStartKey == CleanPidKeys(s.pidToCurrentStartKey, PidsOf(s), order)
      && pidToCurrentProcessData == PidsWithout(s, done)
      && processDataPool == s.pool + multiset(RefsOf(s, done))
    }

    method RemoveNext(startKey: uint64, ghost s: State<ProcessData?>, ghost done: set<uint64>, ghost order: seq<uint64>)
      requires Inv(s) && Closed(s) && startKey in s.instanceData && startKey !in done && Removed(s, done, order)
      requires forall o | o in s.heap :: o != null && s.heap[o] == o.View()
      modifies this`instanceData, this`pidToCurrentStartKey, this`pidToCurrentProcessData, this`processDataPool
      ensures Removed(s, done + {startKey}, order + [startKey])
    {
      hide Inv, PidsWithout, CleanPidKeys, CleanPidKey, RefsOf, PidsOf, IsOrderOf;
      OneMoreCleaned(s, done, startKey, order);
      RemoveProcess(startKey);
      assert s.instanceData - (done + {startKey}) == s.instanceData - done - {startKey};
    }

    method RemoveProcesses(procsToClean: set<uint64>) returns (ghost order: seq<uint64>)
      requires Valid() && procsToClean <= instanceData.Keys
      modifies this`instanceData, this`pidToCurrentStartKey, this`pidToCurrentProcessData, this`processDataPool
      ensures old(Closed(View())) && Removed(old(View()), procsToClean, order)
    {
      hide Inv, Heap, Removed;
      ghost var s := View();
      assert Closed(s) && forall o | o in s.heap :: o != null && s.heap[o] == o.View() by {
        MapsLeadToRecords();
      }
      order := [];
      assert Removed(s, {}, order) by {
        NothingRemoved();
      }
      var todo := procsToClean;
      assert procsToClean - todo == {};
      while todo != {}
        invariant todo <= procsToClean && Removed(s, procsToClean - todo, order)
      {
        var startKey :| startKey in todo;
        ghost var done := procsToClean - todo;
        RemoveNext(startKey, s, done, order);
        todo := todo - {startKey};
        order := order + [startKey];
        assert procsToClean - todo == done + {startKey};
      }
      assert procsToClean - todo == procsToClean;
    }

    lemma NothingRemoved()
      requires Valid()
      ensures Closed(View()) && Removed(View(), {}, [])
    {
      MapsLeadToRecords();
      NothingCleaned(View());
      assert instanceData - {} == instanceData;
    }

    /** The process pass of a cleanup. */
    method CleanupProcesses(procsToClean: set<uint64>) returns (ghost order: seq<uint64>)
      requires Valid() && procsToClean <= instanceData.Keys && terminatedProcesses.Keys !! procsToClean
      requires Closed(View()) && forall t | t in tidToCurrentProcessData ::
                 View().Info(tidToCurrentProcessData[t]).startKey !in procsToClean
      modifies this`instanceData, this`pidToCurrentStartKey, this`pidToCurrentProcessData, this`processDataPool
      ensures Valid() && IsOrderOf(order, procsToClean)
      ensures View() == CleanProcesses(old(View()), procsToClean, order)
    {
      hide Inv, Heap, PidsWithout, CleanPidKeys, RefsOf, PidsOf, IsOrderOf;
      ghost var s := View();
      order := RemoveProcesses(procsToClean);
      CleanProcessesKeepsInvariant(s, procsToClean, order);
    }

    /** Takes the expired processes off the list of marked ones. */
    method TakeExpiredProcesses(cleanupThreshold: nat) returns (procsToClean: set<uint64>)
      modifies this`terminatedProcesses
      ensures procsToClean == Expired(old(terminatedProcesses), cleanupThreshold)
      ensures terminatedProcesses == old(terminatedProcesses) - procsToClean
    {
      ghost var all := terminatedProcesses;
      procsToClean := {};
      var todo := terminatedProcesses.Keys;
      while todo != {}
        invariant todo <= terminatedProcesses.Keys <= all.Keys
        invariant procsToClean == Expired(all, cleanupThreshold) - todo
        invariant terminatedProcesses == all - procsToClean
      {
        var startKey :| startKey in todo;
        todo := todo - {startKey};
        if terminatedProcesses[startKey] < cleanupThreshold {
          procsToClean := procsToClean + {startKey};
          terminatedProcesses := terminatedProcesses - {startKey};
        }
      }
    }

    method ListExpiredProcesses(cleanupThreshold: nat) returns (procsToClean: set<uint64>)
      requires Valid()
      modifies this`terminatedProcesses
      ensures Valid() && procsToClean <= instanceData.Keys && terminatedProcesses.Keys !! procsToClean
      ensures procsToClean == Expired(old(terminatedProcesses), cleanupThreshold)
      ensures View() == old(View()).(terminatedProcesses := old(View()).terminatedProcesses - procsToClean)
    {
      hide Inv, Heap, Expired;
      UnlistKeepsInvariant(View(), Expired(terminatedProcesses, cleanupThreshold));
      ExpiredWereMarked(terminatedProcesses, cleanupThreshold);
      procsToClean := TakeExpiredProcesses(cleanupThreshold);
    }

    /** Dependents first: once no TID leads to them any more, the processes go. */
    method CleanupThreadsAndProcesses(procsToClean: set<uint64>) returns (ghost order: seq<uint64>)
      requires Valid() && procsToClean <= instanceData.Keys && terminatedProcesses.Keys !! procsToClean
      modifies this
      ensures Valid() && old(Closed(View())) && IsOrderOf(order, procsToClean)
      ensures View() == CleanProcesses(CleanThreadsOf(old(View()), procsToClean), procsToClean, order)
      ensures records == old(records) && serviceTags == old(serviceTags)
    {
      hide Inv, Heap, CleanProcesses, IsOrderOf, TidsOf;
      MapsLeadToRecords();
      CleanThreadsOfKeepsInvariant(View(), procsToClean);
      CleanupThreadsForTerminatedProcesses(procsToClean);
      order := CleanupProcesses(procsToClean);
    }

    /** One cleanup: dependents first, then the processes, then individually terminated threads. */
    method CleanupAtThreshold(cleanupThreshold: nat) returns (ghost order: seq<uint64>)
      requires Valid()
      modifies this
      ensures Valid() && old(Closed(View()))
      ensures IsOrderOf(order, Expired(old(terminatedProcesses), cleanupThreshold))
      ensures View() == CleanupAt(old(View()), cleanupThreshold, order)
      ensures records == old(records) && serviceTags == old(serviceTags)
    {
      hide Inv, Heap, Expired, CleanThreads, CleanThreadsOf, CleanProcesses;
      MapsLeadToRecords();
      var procsToClean := ListExpiredProcesses(cleanupThreshold);
      if procsToClean == {} {
        order := [];
        NothingCleaned(View());
      } else {
        order := CleanupThreadsAndProcesses(procsToClean);
      }
      var _ := CleanupTerminatedThreads(cleanupThreshold);
    }

    method NextGeneration(now: int) returns (cleanupThreshold: nat)
      requires Valid()
      modifies this`scrapeCounter, timer, timer.scrapeDurations
      ensures Valid()
      ensures old(View()).clock.Valid() && cleanupThreshold == NextThreshold(old(View()), now)
      ensures View() == Tick(old(View()), now)
    {
      hide Inv, Heap;
      TickKeepsInvariant(View(), now);
      scrapeCounter := scrapeCounter + 1;
      cleanupThreshold := timer.CalculateAdaptiveCleanupThreshold(scrapeCounter, now);
    }

    /** The deletion of what was marked, after a scrape; images go by the same threshold. */
    method PostScrapeCleanup(now: int) returns (ghost order: seq<uint64>, ghost imageOrder: seq<uint64>)
      requires Valid() && images.Valid()
      modifies this, timer, timer.scrapeDurations, images
      ensures Valid() && old(Closed(View()))
      ensures IsOrderOf(order, Expired(old(terminatedProcesses), NextThreshold(old(View()), now)))
      ensures View() == Cleanup(old(View()), now, order)
      ensures images.Valid()
      ensures IsOrderOf(imageOrder, Expired(old(images.terminatedImages), NextThreshold(old(View()), now)))
      ensures images.View() == Images.RemoveAll(old(images.View()), imageOrder)
      ensures records == old(records) && images.records == old(images.records)
    {
      hide Inv, Heap, KernelStateManager.View, CleanupAt, Tick, NextThreshold, Images.Inv;
      ClosedTick(View(), now);
      var cleanupThreshold := NextGeneration(now);
      order := CleanupAtThreshold(cleanupThreshold);
      var _, removed := images.CleanupTerminated(cleanupThreshold);
      imageOrder := removed;
    }

    // ---- aggregation ----

    /** Looks up the name of a service the process has a tag for but no name yet, once per tag and pass. */
    method ResolveService(pData: ProcessData, attempted: set<uint32>, lookup: Lookup) returns (attempted': set<uint32>)
      requires Valid() && pData in records && View().Live(pData)
      modifies this`serviceTags, pData
      ensures Valid()
      ensures (View(), attempted') == Resolve(old(View()), pData, attempted, lookup)
    {
      hide Inv, Heap;
      ResolveKeepsInvariant(View(), pData, attempted, lookup);
      MapsLeadToRecords();
      attempted' := attempted;
      var tag := pData.info.subProcessTag;
      if tag > 0 && pData.info.serviceName == "" && tag !in attempted {
        attempted' := attempted + {tag};
        match lookup(pData.info.pid, tag)
        case None =>
        case Some(name) =>
          RegisterServiceTag(tag, name);
          if pData.info.serviceName == "" {
            pData.SetServiceName(name);
            HeapUpdated(pData);
          }
      }
    }

    /** Resolves and adds one instance to the pass's results. */
    method VisitProcess(startKey: uint64, attempted: set<uint32>, lookup: Lookup, results: ResultMap,
                        ghost done: set<uint64>)
      returns (attempted': set<uint32>)
      requires Valid() && startKey in instanceData && startKey !in done && done <= instanceData.Keys
      requires IsGroupedSum(results.entries, done, instanceData, Heap())
      modifies this`serviceTags, records, results
      ensures Valid()
      ensures Resolves(old(View()), startKey, attempted, lookup, View(), attempted')
      ensures IsGroupedSum(results.entries, done + {startKey}, instanceData, Heap())
    {
      hide Inv, Heap, IsGroupedSum, Resolve;
      MapsLeadToRecords();
      FiledIsLive(View(), startKey);
      ResolveKeepsGroups(View(), results.entries, done, startKey, attempted, lookup);
      var pData := instanceData[startKey];
      attempted' := ResolveService(pData, attempted, lookup);
      MapsLeadToRecords();
      ghost var entries := results.entries;
      ghost var metrics := AddInstance(results, pData);
      GroupedSumStep(entries, done, instanceData, Heap(), startKey, metrics);
    }

    /** Visits every live instance once, in no particular order. */
    method AggregateInto(results: ResultMap, lookup: Lookup) returns (ghost order: seq<uint64>)
      requires Valid() && results.entries == map[]
      modifies this`serviceTags, records, results
      ensures Valid() && IsOrderOf(order, instanceData.Keys)
      ensures View() == ResolveAll(old(View()), order, lookup).0
      ensures IsGroupedSum(results.entries, instanceData.Keys, instanceData, Heap())
    {
      hide Inv, Heap, IsGroupedSum, Resolve;
      ghost var s := View();
      var unknownTagsAttempted: set<uint32> := {};
      order := [];
      NoGroups(instanceData, Heap());
      MapsLeadToRecords();
      var todo := instanceData.Keys;
      while todo != {}
        invariant Valid() && todo <= instanceData.Keys && IsOrderOf(order, instanceData.Keys - todo)
        invariant (View(), unknownTagsAttempted) == ResolveAll(s, order, lookup)
        invariant IsGroupedSum(results.entries, instanceData.Keys - todo, instanceData, Heap())
      {
        hide ResolveAll;
        var startKey :| startKey in todo;
        ghost var done := instanceData.Keys - todo;
        ResolveOneMore(s, order, startKey, lookup);
        unknownTagsAttempted := VisitProcess(startKey, unknownTagsAttempted, lookup, results, done);
        todo := todo - {startKey};
        OrderOneMore(order, done, startKey);
        order := order + [startKey];
        assert instanceData.Keys - todo == done + {startKey};
      }
      assert instanceData.Keys - todo == instanceData.Keys;
    }

    /** One aggregation pass: the new snapshot is the grouped sum over the live instances, as the pass leaves them. */
    method AggregateMetrics(lookup: Lookup) returns (ghost order: seq<uint64>)
      requires Valid() && snapshots.Valid()
      modifies this`serviceTags, records, snapshots, snapshots.resultMaps
      ensures Valid() && snapshots.Valid() && fresh(snapshots.resultMaps - old(snapshots.resultMaps))
      ensures IsOrderOf(order, instanceData.Keys)
      ensures View() == ResolveAll(old(View()), order, lookup).0
      ensures IsGroupedSum(snapshots.Live(), instanceData.Keys, instanceData, Heap())
      ensures ShowsPrograms(snapshots.Live(), instanceData.Keys, instanceData, Heap())
    {
      hide Inv, Heap, KernelStateManager.View, KernelStateManager.Valid, IsGroupedSum, ShowsPrograms,
           ResolveAll, IsOrderOf, SnapshotStore.Valid, SnapshotStore.CheckedOut;
      var results := snapshots.Get();
      label taken:
      order := AggregateInto(results, lookup);
      snapshots.FillingKeepsValid@taken(results);
      snapshots.Publish(results);
      InstancesAreRecords();
      GroupedByFields(snapshots.Live(), instanceData.Keys, instanceData, Heap());
    }

    lemma InstancesAreRecords()
      requires Valid()
      ensures forall k | k in instanceData.Keys :: instanceData[k] in Heap()
    {
      MapsLeadToRecords();
    }

    // ---- images ----

    /** A loaded image is stored; if it is an executable it also tells the process's full name and checksum. */
    method AddImage(pid: uint32, imageBase: uint64, imageSize: uint64, fileName: string, imageName: string,
                    peChecksum: uint32)
      returns (ghost o: Images.ImageInfo?)
      requires Valid() && images.Valid()
      modifies records, images, images.records
      ensures Valid() && images.Valid() && old(Closed(View())) && fresh(images.records - old(images.records))
      ensures imageBase !in old(images.images) && imageBase != 0 && imageSize != 0 ==>
                Images.Available(old(images.View()), o)
      ensures images.View() == Images.Added(old(images.View()), o, imageBase, imageSize, imageName)
      ensures View() == if processManagerEnabled && IsExecutable(fileName)
                        then Enrich(old(View()), pid, peChecksum, fileName)
                        else old(View())
    {
      hide Inv, Heap, Images.Inv, Enrich, Images.Added, KernelStateManager.View, Images.ImageManager.View;
      MapsLeadToRecords();
      o := images.AddImage(imageBase, imageSize, imageName);
      if processManagerEnabled && IsExecutable(fileName) {
        EnrichProcessWithImageData(pid, peChecksum, fileName);
      }
    }

    method UnloadImage(imageBase: uint64)
      requires Valid() && images.Valid()
      modifies images, images.records
      ensures Valid() && images.Valid() && images.records == old(images.records)
      ensures images.View() == Images.Unloaded(old(images.View()), imageBase, scrapeCounter)
    {
      hide Inv, Heap, Images.Inv;
      images.UnloadImage(imageBase, scrapeCounter);
    }

    // ---- every event ----

    method HandleStart(e: Event<ProcessData?>) returns (ghost fired: Event<ProcessData?>)
      requires Valid() && e.ProcessStarted?
      modifies this, records
      ensures Valid() && SameRequest(e, fired) && Next(old(View()), fired, View())
      ensures fresh(records - old(records))
    {
      hide Inv, Heap, KernelStateManager.View, Step, Closed, Enabled, Lifecycle.AddProcess;
      ghost var s := View();
      ViewedInstances();
      ghost var o := AddProcess(e.pid, e.startKey, e.name, e.parentPid, e.sessionId, e.now);
      fired := e.(o := o);
      StartStep(s, fired);
    }

    lemma ViewedInstances()
      requires timer.Valid()
      ensures View().instanceData == instanceData && View().terminatedProcesses == terminatedProcesses
    {
    }

    method HandleAggregate(e: Event<ProcessData?>) returns (ghost fired: Event<ProcessData?>)
      requires Valid() && snapshots.Valid() && e.Aggregated?
      modifies this, records, snapshots, snapshots.resultMaps
      ensures Valid() && SameRequest(e, fired) && Next(old(View()), fired, View())
      ensures snapshots.Valid() && records == old(records) && fresh(snapshots.resultMaps - old(snapshots.resultMaps))
    {
      hide Inv, Heap, KernelStateManager.View, Step, Closed, Enabled, IsGroupedSum, IsOrderOf, ResolveAll;
      ghost var s := View();
      ViewedInstances();
      MapsLeadToRecords();
      ghost var order := AggregateMetrics(e.lookup);
      fired := Aggregated(order, e.lookup);
      AggregateStep(s, fired);
    }

    /** One cleanup, of processes and threads by one step and of images by another, at the same threshold. */
    method HandleCleanup(e: Event<ProcessData?>)
      returns (ghost fired: Event<ProcessData?>, ghost swept: Images.Event<Images.ImageInfo?>)
      requires Valid() && images.Valid() && e.CleanedUp?
      modifies this, timer, timer.scrapeDurations, images
      ensures Valid() && SameRequest(e, fired) && Next(old(View()), fired, View())
      ensures images.Valid() && images.records == old(images.records) && records == old(records)
      ensures old(Closed(View())) && swept.ImagesCleaned? && swept.threshold == NextThreshold(old(View()), e.now)
      ensures Images.Next(old(images.View()), swept, images.View())
    {
      hide Inv, Heap, KernelStateManager.View, Step, Enabled, Images.Inv, Images.ImageManager.Heap, Images.RemoveAll,
           IsOrderOf, Cleanup, NextThreshold, Expired;
      ghost var s := View();
      ViewedInstances();
      ghost var order, imageOrder := PostScrapeCleanup(e.now);
      fired := CleanedUp(e.now, order);
      swept := Images.ImagesCleaned(NextThreshold(s, e.now), imageOrder);
      CleanStep(s, fired);
    }

    method HandleDirect(e: Event<ProcessData?>)
      requires Valid() && !e.ProcessStarted? && !e.Aggregated? && !e.CleanedUp?
      modifies this, records
      ensures Valid() && Next(old(View()), e, View()) && records == old(records)
    {
      hide Inv, Heap, KernelStateManager.View, Step, Closed, Enabled, MarkProcess, Enrich,
           Lifecycle.AddThread, MarkThread, Lifecycle.RegisterServiceTag, ApplyService, RecordSample, Target;
      ghost var s := View();
      InvariantIsClosed(s);
      match e {
        case ProcessEnded(startKey, terminationTime) => MarkProcessForDeletion(startKey, terminationTime);
        case ExeLoaded(pid, checksum, imageName) => EnrichProcessWithImageData(pid, checksum, imageName);
        case ThreadStarted(tid, pid, now, tag) => AddThread(tid, pid, now, tag);
        case ThreadEnded(tid) => MarkThreadForDeletion(tid);
        case TagRegistered(tag, serviceName) => RegisterServiceTag(tag, serviceName);
        case ServiceSeen(pid, tag) => ServiceObserved(pid, tag);
        case Sampled(src, sample) => var _ := Attribute(src, sample);
      }
      DirectStep(s, e);
    }

    /** Each event moves the manager exactly one step of the lifecycle, for some choice of record or order. */
    method Handle(e: Event<ProcessData?>) returns (ghost fired: Event<ProcessData?>)
      requires Valid() && images.Valid() && snapshots.Valid()
      modifies this, records, timer, timer.scrapeDurations, images, snapshots, snapshots.resultMaps
      ensures Valid() && SameRequest(e, fired) && Next(old(View()), fired, View())
      ensures images.Valid() && snapshots.Valid() && images.records == old(images.records)
      ensures fresh(records - old(records)) && fresh(snapshots.resultMaps - old(snapshots.resultMaps))
      ensures !e.CleanedUp? ==> images.View() == old(images.View())
    {
      hide Inv, Heap, KernelStateManager.View, Next, Images.ImageManager.Valid, Images.ImageManager.View,
           SnapshotStore.Valid;
      if e.ProcessStarted? {
        fired := HandleStart(e);
      } else if e.Aggregated? {
        fired := HandleAggregate(e);
      } else if e.CleanedUp? {
        ghost var cleaned, _ := HandleCleanup(e);
        fired := cleaned;
      } else {
        HandleDirect(e);
        fired := e;
      }
    }
  }

  /**
   Any sequence of events drives the object along a run of the lifecycle: whatever holds of all
   runs holds of it.
   */
  method Drive(m: KernelStateManager, events: seq<Event<ProcessData?>>, ghost unknown: ProcessData?, ghost start: int)
    returns (ghost states: seq<State<ProcessData?>>, ghost fired: seq<Event<ProcessData?>>)
    requires m.Valid() && m.images.Valid() && m.snapshots.Valid() && m.View() == Init(unknown, start)
    modifies m, m.records, m.timer, m.timer.scrapeDurations, m.images, m.snapshots, m.snapshots.resultMaps
    ensures |fired| == |events| && forall i | 0 <= i < |events| :: SameRequest(events[i], fired[i])
    ensures IsRun(unknown, start, states, fired)
    ensures m.Valid() && m.View() == states[|fired|]
  {
    hide Inv, Next, SameRequest, Images.Inv, SnapshotStore.Valid, KernelStateManager.View;
    states, fired := [m.View()], [];
    for i := 0 to |events|
      invariant m.Valid() && m.images.Valid() && m.snapshots.Valid() && m.images.records == old(m.images.records)
      invariant fresh(m.records - old(m.records)) && fresh(m.snapshots.resultMaps - old(m.snapshots.resultMaps))
      invariant |fired| == i && forall j | 0 <= j < i :: SameRequest(events[j], fired[j])
      invariant |states| == i + 1 && states[i] == m.View() && IsRun(unknown, start, states, fired)
    {
      ghost var e := m.Handle(events[i]);
      fired := fired + [e];
      states := states + [m.View()];
    }
  }

  lemma InvariantIsClosed<Ref>(s: State<Ref>)
    requires Inv(s)
    ensures Closed(s) && forall src :: Target(s, src).Some? ==> Target(s, src).value in s.heap
  {
  }

  /** Adds the process into the entry of its program, created on first use. */
  method AddInstance(results: ResultMap, pData: ProcessData) returns (ghost metrics: ProgramMetrics)
    modifies results
    ensures results.entries == old(results.entries)[KeyOf(pData.info) := metrics]
    ensures forall m ::
              AggregateCount(metrics, m)
              == (if KeyOf(pData.info) in old(results.entries)
                  then AggregateCount(old(results.entries)[KeyOf(pData.info)], m) else 0)
                 + Count(pData.View().counters, m)
  {
    hide Count, AggregateCount;
    var key := KeyOf(pData.info);
    var aggMetrics := NO_METRICS;
    if key in results.entries {
      aggMetrics := results.entries[key];
    }
    NothingAggregated();
    var counters := Counters(pData.disks, pData.hardPageFaults, pData.network, pData.operations, pData.contextSwitches);
    var sum := Accumulate(aggMetrics, counters);
    results.entries := results.entries[key := sum];
    metrics := sum;
  }

  lemma NothingAggregated()
    ensures forall m :: AggregateCount(NO_METRICS, m) == 0
  {
  }

  lemma NoGroups<Ref>(instanceData: map<uint64, Ref>, heap: map<Ref, Proc>)
    ensures IsGroupedSum(map[], instanceData.Keys - instanceData.Keys, instanceData, heap)
  {
    assert instanceData.Keys - instanceData.Keys == {};
  }

  lemma OrderOneMore(order: seq<uint64>, done: set<uint64>, k: uint64)
    requires IsOrderOf(order, done) && k !in done
    ensures IsOrderOf(order + [k], done + {k})
  {
  }

  lemma ResolveOneMore<Ref>(s: State<Ref>, order: seq<uint64>, k: uint64, lookup: Lookup)
    requires Closed(s) && k in s.instanceData
    ensures s.instanceData[k] in ResolveAll(s, order, lookup).0.heap
    ensures var before := ResolveAll(s, order, lookup);
            ResolveAll(s, order + [k], lookup) == Resolve(before.0, s.instanceData[k], before.1, lookup)
  {
    assert (order + [k])[..|order|] == order;
  }

  /** From state s on, visiting the instance k leaves state s'. */
  ghost predicate Resolves<Ref>(s: State<Ref>, k: uint64, attempted: set<uint32>, lookup: Lookup,
                                s': State<Ref>, attempted': set<uint32>)
  {
    && k in s.instanceData && s.instanceData[k] in s.heap
    && (s', attempted') == Resolve(s, s.instanceData[k], attempted, lookup)
  }

  /** Resolving an instance not yet visited leaves the sums over the visited ones alone. */
  lemma ResolveKeepsGroups<Ref>(s: State<Ref>, entries: Results, done: set<uint64>, k: uint64,
                                attempted: set<uint32>, lookup: Lookup)
    requires Inv(s) && k in s.instanceData && k !in done && done <= s.instanceData.Keys
    requires IsGroupedSum(entries, done, s.instanceData, s.heap)
    ensures s.instanceData[k] in s.heap
    ensures var s' := Resolve(s, s.instanceData[k], attempted, lookup).0;
            s'.instanceData == s.instanceData && IsGroupedSum(entries, done, s'.instanceData, s'.heap)
  {
    hide IsGroupedSum, Resolve;
    var s' := Resolve(s, s.instanceData[k], attempted, lookup).0;
    ResolveFrame(s, s.instanceData[k], attempted, lookup);
    GroupedSumFrame(entries, done, s.instanceData, s.heap, s'.heap);
  }
}
