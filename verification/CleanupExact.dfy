/**
 What a cleanup removes, exactly, when PIDs and TIDs have been reused in the
 meantime, and the two places where it falls short of its own description.
 */
module CleanupExact {
  import opened Words
  import opened ScrapeClock
  import opened Lifecycle
  import opened LifecycleRuns

  /** The start keys the next cleanup recycles. */
  ghost function Cleaned<Ref>(s: State<Ref>, now: int): set<uint64>
    requires s.clock.Valid()
  {
    Expired(s.terminatedProcesses, NextThreshold(s, now))
  }

  /** A process is removed exactly when its mark has expired, and its record goes to the pool, once. */
  lemma ProcessesCleanedExactly<Ref>(s: State<Ref>, now: int, order: seq<uint64>)
    requires Inv(s) && IsOrderOf(order, Cleaned(s, now))
    ensures var s' := Cleanup(s, now, order);
            && (forall k :: k in s'.instanceData <==>
                  k in s.instanceData
                    && !(k in s.terminatedProcesses && s.terminatedProcesses[k] < NextThreshold(s, now)))
            && (forall k | k in s'.instanceData :: s'.instanceData[k] == s.instanceData[k])
            && (forall o :: s'.pool[o] == 1 <==> o in s.pool || (s.Live(o) && s.Info(o).startKey in Cleaned(s, now)))
  {
    PoolAfterCleanup(s, now, order);
    InstancesAfterCleanup(s, now, order);
    hide Cleanup;
    var refs := RefsOf(s, Cleaned(s, now));
    forall o
      ensures o in refs <==> s.Live(o) && s.Info(o).startKey in Cleaned(s, now)
      ensures o in refs ==> o !in s.pool
    {
      if o in s.heap && s.Info(o).startKey in s.instanceData && s.instanceData[s.Info(o).startKey] == o {
        assert s.Live(o);
      }
    }
  }

  lemma InstancesAfterCleanup<Ref>(s: State<Ref>, now: int, order: seq<uint64>)
    requires Closed(s)
    ensures Cleanup(s, now, order).instanceData == s.instanceData - Cleaned(s, now)
  {
  }

  /** A PID is forgotten exactly when the very instance it leads to is removed. */
  lemma PidsCleanedExactly<Ref>(s: State<Ref>, now: int, order: seq<uint64>)
    requires Inv(s) && IsOrderOf(order, Cleaned(s, now))
    ensures var s' := Cleanup(s, now, order);
            && (forall p :: p in s'.pidToCurrentProcessData <==>
                  p in s.pidToCurrentProcessData && s.Info(s.pidToCurrentProcessData[p]).startKey !in Cleaned(s, now))
            && (forall p | p in s'.pidToCurrentProcessData ::
                  s'.pidToCurrentProcessData[p] == s.pidToCurrentProcessData[p])
  {
    PidsAfterCleanup(s, now, order);
  }

  lemma PoolAfterCleanup<Ref>(s: State<Ref>, now: int, order: seq<uint64>)
    requires Inv(s) && IsOrderOf(order, Cleaned(s, now))
    ensures Cleanup(s, now, order).pool == s.pool + multiset(RefsOf(s, Cleaned(s, now)))
  {
    hide TidsOf, UnexpiredTids, UnexpiredRecords, CleanPidKeys, PidsOf, PidsWithout;
    var clean := Cleaned(s, now);
    var listed := Tick(s, now).(terminatedProcesses := s.terminatedProcesses - clean);
    if clean == {} {
      assert RefsOf(s, clean) == {};
    } else {
      assert RefsOf(CleanThreadsOf(listed, clean), clean) == RefsOf(s, clean);
    }
  }

  lemma PidKeysAfterCleanup<Ref>(s: State<Ref>, now: int, order: seq<uint64>)
    requires Inv(s) && IsOrderOf(order, Cleaned(s, now)) && Cleaned(s, now) != {}
    ensures Cleanup(s, now, order).pidToCurrentStartKey == CleanPidKeys(s.pidToCurrentStartKey, PidsOf(s), order)
  {
    hide TidsOf, UnexpiredTids, UnexpiredRecords, CleanPidKeys, PidsWithout, RefsOf;
    var clean := Cleaned(s, now);
    var listed := Tick(s, now).(terminatedProcesses := s.terminatedProcesses - clean);
    assert PidsOf(CleanThreadsOf(listed, clean)) == PidsOf(s);
  }

  lemma NoPidsOf<Ref>(s: State<Ref>)
    requires Closed(s)
    ensures PidsWithout(s, {}) == s.pidToCurrentProcessData
  {
  }

  lemma SamePids<Ref>(s: State<Ref>, s': State<Ref>, clean: set<uint64>)
    requires Closed(s) && s'.heap == s.heap && s'.pidToCurrentProcessData == s.pidToCurrentProcessData
    ensures PidsWithout(s', clean) == PidsWithout(s, clean)
  {
  }

  lemma PidsAfterCleanup<Ref>(s: State<Ref>, now: int, order: seq<uint64>)
    requires Inv(s) && IsOrderOf(order, Cleaned(s, now))
    ensures Cleanup(s, now, order).pidToCurrentProcessData == PidsWithout(s, Cleaned(s, now))
  {
    hide TidsOf, UnexpiredTids, UnexpiredRecords, CleanPidKeys, PidsOf, PidsWithout, RefsOf, Inv, IsOrderOf, Expired,
         NextThreshold;
    InvariantCloses(s);
    var clean := Cleaned(s, now);
    var listed := Tick(s, now).(terminatedProcesses := s.terminatedProcesses - clean);
    if clean == {} {
      NoPidsOf(s);
    } else {
      SamePids(s, CleanThreadsOf(listed, clean), clean);
    }
  }

  /**
   A TID is forgotten exactly when its process is removed, or when its own termination
   record has expired and still names the process the TID leads to.
   */
  lemma ThreadsCleanedExactly<Ref>(s: State<Ref>, now: int, order: seq<uint64>)
    requires Inv(s) && IsOrderOf(order, Cleaned(s, now))
    ensures var s' := Cleanup(s, now, order);
            && (forall t :: t in s'.tidToCurrentProcessData <==>
                  && t in s.tidToCurrentProcessData
                  && s.Info(s.tidToCurrentProcessData[t]).startKey !in Cleaned(s, now)
                  && !ExpiredThread(s, t, NextThreshold(s, now)))
            && (forall t | t in s'.tidToCurrentProcessData ::
                  s'.tidToCurrentProcessData[t] == s.tidToCurrentProcessData[t])
  {
    hide Inv, PidsWithout, CleanPidKeys, PidsOf, RefsOf, NextThreshold, Expired, IsOrderOf, TidsOf, CleanThreads,
         ExpiredThread;
    InvariantCloses(s);
    var clean := Cleaned(s, now);
    var listed := Tick(s, now).(terminatedProcesses := s.terminatedProcesses - clean);
    var processes := if clean == {} then listed else CleanProcesses(CleanThreadsOf(listed, clean), clean, order);
    assert Cleanup(s, now, order) == CleanThreads(processes, NextThreshold(s, now));
    if clean == {} {
      NoTidsOf(s);
    } else {
      assert TidsOf(listed, clean) == TidsOf(s, clean) by {
        SameTidsOf(s, listed, clean);
      }
    }
    ThreadsAfterPass(s, processes, clean, NextThreshold(s, now));
  }

  lemma NoTidsOf<Ref>(s: State<Ref>)
    requires Closed(s)
    ensures TidsOf(s, {}) == {}
  {
  }

  lemma SameTidsOf<Ref>(s: State<Ref>, s': State<Ref>, clean: set<uint64>)
    requires Closed(s) && s'.heap == s.heap && s'.tidToCurrentProcessData == s.tidToCurrentProcessData
    ensures TidsOf(s', clean) == TidsOf(s, clean)
  {
  }

  /** The pass over individual threads, after the threads of the cleaned processes have gone. */
  lemma ThreadsAfterPass<Ref>(s: State<Ref>, processes: State<Ref>, clean: set<uint64>, threshold: nat)
    requires Closed(s) && processes.heap == s.heap
    requires processes.tidToCurrentProcessData == s.tidToCurrentProcessData - TidsOf(s, clean)
    requires processes.terminatedThreads == s.terminatedThreads - TidsOf(s, clean)
    ensures var s' := CleanThreads(processes, threshold);
            && (forall t :: t in s'.tidToCurrentProcessData <==>
                  && t in s.tidToCurrentProcessData
                  && s.Info(s.tidToCurrentProcessData[t]).startKey !in clean
                  && !ExpiredThread(s, t, threshold))
            && (forall t | t in s'.tidToCurrentProcessData ::
                  s'.tidToCurrentProcessData[t] == s.tidToCurrentProcessData[t])
  {
  }

  // ---- a TID used again within one process ----

  /**
   A thread starts on a TID whose previous thread has a termination record. The new mapping
   survives the cleanups as its process does, unless the record expires first and names
   this very process: exactly then a living thread loses its mapping.
   */
  lemma ReusedTidLostExactly<Ref>(s: State<Ref>, tid: uint32, pid: uint32, started: int, tag: uint32,
                                  now: int, order: seq<uint64>)
    requires Inv(s) && tid in s.terminatedThreads
    requires pid in s.pidToCurrentProcessData
             && started > s.Info(s.pidToCurrentProcessData[pid]).createTime - 1_000_000
    requires IsOrderOf(order, Cleaned(AddThread(s, tid, pid, started, tag), now))
    ensures var s1 := AddThread(s, tid, pid, started, tag);
            var o := s.pidToCurrentProcessData[pid];
            && Closed(s1)
            && s1.tidToCurrentProcessData[tid] == o
            && (tid !in Cleanup(s1, now, order).tidToCurrentProcessData <==>
                  || s.Info(o).startKey in Cleaned(s1, now)
                  || (s.terminatedThreads[tid].generation < NextThreshold(s1, now)
                      && s.terminatedThreads[tid].startKey == s.Info(o).startKey))
  {
    hide Inv, ServiceInfo, Cleanup, Cleaned, NextThreshold;
    InvariantCloses(s);
    TargetIsLive(s, ByPid(pid));
    AddThreadKeepsInvariant(s, tid, pid, started, tag);
    var s1 := AddThread(s, tid, pid, started, tag);
    assert s1.Info(s.pidToCurrentProcessData[pid]).startKey == s.Info(s.pidToCurrentProcessData[pid]).startKey by {
      ServiceKeepsKey(s.Info(s.pidToCurrentProcessData[pid]), tag, s.serviceTags);
    }
    InvariantCloses(s1);
    ThreadsCleanedExactly(s1, now, order);
  }

  /** In particular a thread restarted in its process, on the TID its predecessor just gave up, is always lost. */
  lemma RestartedThreadLost<Ref>(s: State<Ref>, tid: uint32, pid: uint32, started: int, tag: uint32, threshold: nat)
    requires Inv(s) && pid in s.pidToCurrentProcessData && tid in s.tidToCurrentProcessData
    requires s.tidToCurrentProcessData[tid] == s.pidToCurrentProcessData[pid]
    requires started > s.Info(s.pidToCurrentProcessData[pid]).createTime - 1_000_000
    requires s.scrapeCounter < threshold
    ensures var s1 := AddThread(MarkThread(s, tid), tid, pid, started, tag);
            && Closed(s1)
            && s1.tidToCurrentProcessData[tid] == s.pidToCurrentProcessData[pid]
            && tid !in CleanThreads(s1, threshold).tidToCurrentProcessData
  {
    hide ServiceInfo;
    MarkThreadKeepsInvariant(s, tid);
    AddThreadKeepsInvariant(MarkThread(s, tid), tid, pid, started, tag);
    ServiceKeepsKey(s.Info(s.pidToCurrentProcessData[pid]), tag, s.serviceTags);
  }

  lemma ServiceKeepsKey(info: ProcessInfo, tag: uint32, serviceTags: map<uint32, string>)
    ensures ServiceInfo(info, tag, serviceTags).startKey == info.startKey
  {
  }

  lemma InvariantCloses<Ref>(s: State<Ref>)
    requires Inv(s)
    ensures Closed(s)
  {
  }

  // ---- placeholders left under a PID ----

  /** Was p visited, and for which start key last? */
  function LastVisit(pidOf: map<uint64, uint32>, order: seq<uint64>, p: uint32): Option<uint64> {
    if order == [] then None
    else if order[|order| - 1] in pidOf && pidOf[order[|order| - 1]] == p then Some(order[|order| - 1])
    else LastVisit(pidOf, order[..|order| - 1], p)
  }

  /**
   The PID-to-key map after the walk, exactly. A PID visited for instances of which the current
   one is the last is forgotten, as meant; if it is visited again after that, or was not mapped
   to begin with, it is left with the placeholder 0.
   */
  lemma {:induction false} PidKeysAfterWalk(pids: map<uint32, uint64>, pidOf: map<uint64, uint32>,
                                            order: seq<uint64>, p: uint32)
    requires 0 !in order && (forall i, j | 0 <= i < j < |order| :: order[i] != order[j])
    ensures var after := CleanPidKeys(pids, pidOf, order);
            if LastVisit(pidOf, order, p) == None
            then (p in after <==> p in pids) && (p in pids ==> after[p] == pids[p])
            else if p in pids && !VisitedFor(pidOf, order, p, pids[p]) then p in after && after[p] == pids[p]
            else if p in pids && LastVisit(pidOf, order, p) == Some(pids[p]) then p !in after
            else p in after && after[p] == 0
  {
    if order != [] {
      var before := order[..|order| - 1];
      var k := order[|order| - 1];
      forall j
        ensures j in order <==> j in before || j == k
      {
        assert order == before + [k];
      }
      assert k !in before;
      assert forall i, j | 0 <= i < j < |before| :: before[i] != before[j];
      PidKeysAfterWalk(pids, pidOf, before, p);
      LastVisitIsVisit(pidOf, before, p);
      assert p in pids ==>
          (VisitedFor(pidOf, order, p, pids[p])
           <==> VisitedFor(pidOf, before, p, pids[p]) || (k == pids[p] && k in pidOf && pidOf[k] == p));
    }
  }

  lemma {:induction false} LastVisitIsVisit(pidOf: map<uint64, uint32>, order: seq<uint64>, p: uint32)
    ensures LastVisit(pidOf, order, p).Some? ==> VisitedFor(pidOf, order, p, LastVisit(pidOf, order, p).value)
    ensures LastVisit(pidOf, order, p) == None ==> forall k :: !VisitedFor(pidOf, order, p, k)
  {
    if order != [] {
      var before := order[..|order| - 1];
      LastVisitIsVisit(pidOf, before, p);
      forall k
        ensures k in order <==> k in before || k == order[|order| - 1]
      {
        assert order == before + [order[|order| - 1]];
      }
      assert forall k | VisitedFor(pidOf, order, p, k) && k != order[|order| - 1] :: VisitedFor(pidOf, before, p, k);
    }
  }

  /** Two instances of PID 7 cleaned together: the order of the walk decides whether a placeholder stays. */
  lemma PlaceholderExample(older: uint64, newer: uint64)
    requires older != newer && older != 0 && newer != 0
    ensures var pidOf: map<uint64, uint32> := map[older := 7, newer := 7];
            && 7 !in CleanPidKeys(map[7 := newer], pidOf, [older, newer])
            && CleanPidKeys(map[7 := newer], pidOf, [newer, older]) == map[7 := 0]
  {
    var pidOf: map<uint64, uint32> := map[older := 7, newer := 7];
    assert [older, newer][..1] == [older] && [newer, older][..1] == [newer];
    assert [older][..0] == [] && [newer][..0] == [];
    assert CleanPidKeys(map[7 := newer], pidOf, [older]) == map[7 := newer];
    assert CleanPidKeys(map[7 := newer], pidOf, [newer]) == map[];
  }
}
