/** Delayed deletion of threads, exactly, over whole runs: which cleanup forgets the TID of an ended thread. */
module ThreadRetention {
  import opened Words
  import opened ScrapeClock
  import opened Lifecycle
  import opened LifecycleRuns
  import opened CleanupExact
  import opened Retention
  import opened GracePeriod
  import opened Attribution

  /** Event e ends a thread on a TID that leads to a process. */
  predicate MarksThread<Ref>(s: State<Ref>, e: Event<Ref>, tid: uint32) {
    e.ThreadEnded? && e.tid == tid && tid in s.tidToCurrentProcessData
  }

  predicate StartsThread<Ref>(e: Event<Ref>, tid: uint32) {
    e.ThreadStarted? && e.tid == tid
  }

  // ---- the record of an ended thread, event by event ----

  lemma {:induction false} ResolveAllKeepsRecords<Ref>(s: State<Ref>, order: seq<uint64>, lookup: Lookup)
    ensures ResolveAll(s, order, lookup).0.terminatedThreads == s.terminatedThreads
  {
    if order != [] {
      ResolveAllKeepsRecords(s, order[..|order| - 1], lookup);
    }
  }

  lemma OthersKeepRecords<Ref>(s: State<Ref>, e: Event<Ref>)
    requires Closed(s) && !e.ThreadEnded? && !e.CleanedUp?
    ensures Step(s, e).terminatedThreads == s.terminatedThreads
  {
    hide ResolveAll, Insert, EnrichedInfo, NewProcess, AddThread, ApplyService, RecordSample, Target, TerminatedInfo;
    if e.Aggregated? {
      ResolveAllKeepsRecords(s, e.order, e.lookup);
    } else if e.ProcessStarted? {
      InsertKeepsRest(s, e.o, NewProcess(e.pid, e.startKey, e.name, e.parentPid, e.sessionId, e.now));
    } else if e.ThreadStarted? || e.ServiceSeen? || e.Sampled? {
      RecordingFrame(s, e);
    }
  }

  lemma EndRecords<Ref>(s: State<Ref>, e: Event<Ref>)
    requires Closed(s) && e.ThreadEnded?
    ensures Step(s, e).terminatedThreads
            == if e.tid in s.tidToCurrentProcessData
               then s.terminatedThreads[e.tid := TerminationRecord(s.scrapeCounter,
                                                                   s.Info(s.tidToCurrentProcessData[e.tid]).startKey)]
               else s.terminatedThreads
  {
  }

  lemma CleanupRecords<Ref>(s: State<Ref>, now: int, order: seq<uint64>)
    requires Closed(s)
    ensures var clean, threshold := Cleaned(s, now), NextThreshold(s, now);
            Cleanup(s, now, order).terminatedThreads
            == UnexpiredRecords(s.terminatedThreads - TidsOf(s, clean), threshold)
  {
    hide PidsWithout, CleanPidKeys, PidsOf, RefsOf, NextThreshold, Expired, TidsOf, UnexpiredTids, UnexpiredRecords;
    var clean := Cleaned(s, now);
    var listed := Tick(s, now).(terminatedProcesses := s.terminatedProcesses - clean);
    var processes := if clean == {} then listed else CleanProcesses(CleanThreadsOf(listed, clean), clean, order);
    assert Cleanup(s, now, order) == CleanThreads(processes, NextThreshold(s, now));
    if clean == {} {
      NoTidsOf(s);
      assert s.terminatedThreads - {} == s.terminatedThreads;
    } else {
      SameTidsOf(s, listed, clean);
    }
  }

  /** Under the TID the record stands for the generation g of the end of a thread of the instance k in record o. */
  ghost predicate Ended<Ref>(s: State<Ref>, tid: uint32, o: Ref, k: uint64, g: nat) {
    && tid in s.tidToCurrentProcessData && s.tidToCurrentProcessData[tid] == o
    && s.Live(o) && s.Info(o).startKey == k
    && tid in s.terminatedThreads && s.terminatedThreads[tid] == TerminationRecord(g, k)
  }

  lemma EndsThread<Ref>(s: State<Ref>, e: Event<Ref>, tid: uint32)
    requires Inv(s) && MarksThread(s, e, tid)
    ensures Closed(s)
    ensures var o := s.tidToCurrentProcessData[tid];
            o in s.heap && Ended(Step(s, e), tid, o, s.Info(o).startKey, s.scrapeCounter)
  {
    hide Step;
    InvariantCloses(s);
    EndRecords(s, e);
    EndKeepsRest(s, e);
  }

  lemma EndKeepsRest<Ref>(s: State<Ref>, e: Event<Ref>)
    requires Closed(s) && e.ThreadEnded?
    ensures Step(s, e) == s.(terminatedThreads := Step(s, e).terminatedThreads)
  {
  }

  /** For an ended thread, a cleanup forgets the TID exactly if it reaches the generation or recycles the process. */
  lemma ForgetsEnded<Ref>(s: State<Ref>, e: Event<Ref>, tid: uint32, o: Ref, k: uint64, g: nat)
    requires Closed(s) && Ended(s, tid, o, k, g)
    ensures ForgetsTid(s, e, tid) <==> Reaches(s, e, g) || Recycles(s, e, k)
  {
    hide NextThreshold, Cleaned;
  }

  lemma RecordStep<Ref>(s: State<Ref>, e: Event<Ref>, tid: uint32, o: Ref, k: uint64, g: nat)
    requires Inv(s) && Closed(s) && Enabled(s, e) && Ended(s, tid, o, k, g)
    requires !MarksThread(s, e, tid) && !Reaches(s, e, g) && !Recycles(s, e, k)
    ensures tid in Step(s, e).terminatedThreads && Step(s, e).terminatedThreads[tid] == TerminationRecord(g, k)
  {
    hide Inv, Step, Enabled, Cleanup, Cleaned, NextThreshold;
    if e.CleanedUp? {
      CleanupStep(s, e);
      CleanupRecords(s, e.now, e.order);
    } else if e.ThreadEnded? {
      EndRecords(s, e);
    } else {
      OthersKeepRecords(s, e);
    }
  }

  /** One event: the TID of an ended thread is forgotten exactly by such a cleanup, and otherwise stays as it was. */
  lemma EndedStep<Ref>(s: State<Ref>, e: Event<Ref>, tid: uint32, o: Ref, k: uint64, g: nat)
    requires Inv(s) && Closed(s) && Enabled(s, e) && Ended(s, tid, o, k, g)
    requires !StartsThread(e, tid) && !MarksThread(s, e, tid)
    ensures if Reaches(s, e, g) || Recycles(s, e, k) then tid !in Step(s, e).tidToCurrentProcessData
            else Ended(Step(s, e), tid, o, k, g)
  {
    hide Inv, Step, Enabled, ForgetsTid, Reaches, Recycles;
    ForgetsEnded(s, e, tid, o, k, g);
    IdStep(s, e, 0, tid);
    if !Reaches(s, e, g) && !Recycles(s, e, k) {
      RecordStep(s, e, tid, o, k, g);
      StepKeepsInvariant(s, e);
      IdsAreLive(Step(s, e), 0, tid);
      SameInstanceStep(s, e, o);
    }
  }

  // ---- whole runs ----

  /** Event i ends a thread on the TID, and up to state x no other thread starts or ends there. */
  ghost predicate ThreadEndedAt<Ref>(states: seq<State<Ref>>, events: seq<Event<Ref>>, tid: uint32, i: nat, x: nat) {
    && i < x <= |events| && |states| == |events| + 1 && MarksThread(states[i], events[i], tid)
    && forall y | i < y < x :: !StartsThread(events[y], tid) && !MarksThread(states[y], events[y], tid)
  }

  /** Event e is a cleanup that reaches generation g or recycles the instance k. */
  ghost predicate Takes<Ref>(s: State<Ref>, e: Event<Ref>, k: uint64, g: nat) {
    Reaches(s, e, g) || Recycles(s, e, k)
  }

  lemma EndedIsMapped<Ref>(s: State<Ref>, tid: uint32)
    ensures forall o, k, g :: Ended(s, tid, o, k, g) ==> tid in s.tidToCurrentProcessData
  {
  }

  /**
   Delayed deletion of threads is exact: after a thread of the instance k has ended, its TID leads to
   that instance, with the record of its end, until the first cleanup that reaches the generation of
   the end or recycles k, and no longer.
   */
  lemma {:induction false} ThreadKeptExactly<Ref>(unknown: Ref, start: int,
      states: seq<State<Ref>>, events: seq<Event<Ref>>, tid: uint32, i: nat, x: nat)
    requires IsRun(unknown, start, states, events) && ThreadEndedAt(states, events, tid, i, x)
    ensures states[i].tidToCurrentProcessData[tid] in states[i].heap
    ensures var o, g := states[i].tidToCurrentProcessData[tid], states[i].scrapeCounter;
            var k := states[i].Info(o).startKey;
            && (tid in states[x].tidToCurrentProcessData
                <==> forall y | i < y < x :: !Takes(states[y], events[y], k, g))
            && (tid in states[x].tidToCurrentProcessData ==> Ended(states[x], tid, o, k, g))
    decreases x
  {
    hide Inv, Step, Enabled, Reaches, Recycles, Ended;
    if x == i + 1 {
      NthNext(unknown, start, states, events, i);
      EndsThread(states[i], events[i], tid);
      EndedIsMapped(states[x], tid);
    } else {
      ThreadKeptExactly(unknown, start, states, events, tid, i, x - 1);
      NthNext(unknown, start, states, events, x - 1);
      var o, g := states[i].tidToCurrentProcessData[tid], states[i].scrapeCounter;
      var k := states[i].Info(o).startKey;
      if tid in states[x - 1].tidToCurrentProcessData {
        EndedStep(states[x - 1], events[x - 1], tid, o, k, g);
      } else {
        IdStep(states[x - 1], events[x - 1], 0, tid);
      }
      EndedIsMapped(states[x], tid);
    }
  }
}
