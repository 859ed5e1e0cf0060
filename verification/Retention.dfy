/**
 Delayed deletion over whole runs: a terminated process stays for at least one
 more snapshot after its latest mark.
 */
module Retention {
  import opened Words
  import opened ScrapeClock
  import opened Lifecycle
  import opened LifecycleRuns
  import opened CleanupExact

  lemma {:induction false} ResolveAllKeepsMarks<Ref>(s: State<Ref>, order: seq<uint64>, lookup: Lookup)
    ensures var s' := ResolveAll(s, order, lookup).0;
            && s'.terminatedProcesses == s.terminatedProcesses && s'.scrapeCounter == s.scrapeCounter
            && s'.instanceData == s.instanceData
  {
    if order != [] {
      ResolveAllKeepsMarks(s, order[..|order| - 1], lookup);
    }
  }

  predicate Marks<Ref>(s: State<Ref>, e: Event<Ref>, k: uint64) {
    e.ProcessEnded? && e.startKey == k && k in s.instanceData
  }

  /** A mark stems from an end event for that process, and carries the generation of that moment. */
  lemma MarkOrigin<Ref>(s: State<Ref>, e: Event<Ref>, k: uint64)
    requires Closed(s) && Enabled(s, e) && k in Step(s, e).terminatedProcesses
    ensures if Marks(s, e, k) then Step(s, e).terminatedProcesses[k] == s.scrapeCounter
            else k in s.terminatedProcesses && s.terminatedProcesses[k] == Step(s, e).terminatedProcesses[k]
  {
    hide ResolveAll, Cleanup, Enabled, Step;
    if e.ProcessEnded? {
      EndMarks(s, e);
    } else if e.CleanedUp? {
      MarksAfterCleanup(s, e.now, e.order);
      CleanupStep(s, e);
    } else {
      OthersKeepMarks(s, e);
    }
  }

  lemma EndMarks<Ref>(s: State<Ref>, e: Event<Ref>)
    requires Closed(s) && e.ProcessEnded?
    ensures Step(s, e).terminatedProcesses
            == if e.startKey in s.instanceData then s.terminatedProcesses[e.startKey := s.scrapeCounter]
               else s.terminatedProcesses
  {
  }

  lemma CleanupStep<Ref>(s: State<Ref>, e: Event<Ref>)
    requires Closed(s) && e.CleanedUp?
    ensures Step(s, e) == Cleanup(s, e.now, e.order)
  {
  }

  lemma OthersKeepMarks<Ref>(s: State<Ref>, e: Event<Ref>)
    requires Closed(s) && !e.ProcessEnded? && !e.CleanedUp?
    ensures Step(s, e).terminatedProcesses == s.terminatedProcesses
  {
    hide ResolveAll, Insert, EnrichedInfo, NewProcess, AddThread, ApplyService, RecordSample, Target, TerminatedInfo;
    if e.Aggregated? {
      ResolveAllKeepsMarks(s, e.order, e.lookup);
    } else if e.ProcessStarted? {
      InsertKeepsRest(s, e.o, NewProcess(e.pid, e.startKey, e.name, e.parentPid, e.sessionId, e.now));
    } else if e.ThreadStarted? || e.ServiceSeen? || e.Sampled? {
      RecordingFrame(s, e);
    }
  }

  lemma MarksAfterCleanup<Ref>(s: State<Ref>, now: int, order: seq<uint64>)
    requires Closed(s)
    ensures Cleanup(s, now, order).terminatedProcesses == s.terminatedProcesses - Cleaned(s, now)
  {
  }

  /** Only a cleanup removes instances. */
  lemma OthersKeepInstances<Ref>(s: State<Ref>, e: Event<Ref>, k: uint64)
    requires Closed(s) && !e.CleanedUp? && k in s.instanceData
    ensures k in Step(s, e).instanceData
  {
    hide ResolveAll, EnrichedInfo, NewProcess, AddThread, ApplyService, RecordSample, Target, TerminatedInfo;
    if e.Aggregated? {
      ResolveAllKeepsMarks(s, e.order, e.lookup);
    } else if e.ThreadStarted? || e.ServiceSeen? || e.Sampled? {
      RecordingFrame(s, e);
    }
  }

  /** Only a start adds an instance. */
  lemma OnlyStartsAdd<Ref>(s: State<Ref>, e: Event<Ref>, k: uint64)
    requires Closed(s) && k !in s.instanceData && !(e.ProcessStarted? && e.startKey == k)
    ensures k !in Step(s, e).instanceData
  {
    hide ResolveAll, Cleanup, EnrichedInfo, AddThread, ApplyService, RecordSample, Target, TerminatedInfo;
    if e.Aggregated? {
      ResolveAllKeepsMarks(s, e.order, e.lookup);
    } else if e.ThreadStarted? || e.ServiceSeen? || e.Sampled? {
      RecordingFrame(s, e);
    } else if e.CleanedUp? {
      InstancesAfterCleanup(s, e.now, e.order);
    }
  }

  lemma ClockAfterCleanup<Ref>(s: State<Ref>, now: int, order: seq<uint64>)
    requires Closed(s)
    ensures Cleanup(s, now, order).scrapeCounter == s.scrapeCounter + 1
    ensures Cleanup(s, now, order).clock == Advance(s.clock, now)
  {
    hide PidsWithout, CleanPidKeys, PidsOf, RefsOf, TidsOf, UnexpiredTids, UnexpiredRecords, NextThreshold, Expired,
         Advance;
  }

  /** Only a cleanup moves the generation on, by one. */
  lemma GenerationStep<Ref>(s: State<Ref>, e: Event<Ref>)
    requires Closed(s) && Enabled(s, e)
    ensures Step(s, e).scrapeCounter == s.scrapeCounter + (if e.CleanedUp? then 1 else 0)
  {
    hide ResolveAll, Insert, EnrichedInfo, NewProcess, Enabled, AddThread, ApplyService, RecordSample, Target,
         TerminatedInfo, Cleanup;
    if e.Aggregated? {
      ResolveAllKeepsMarks(s, e.order, e.lookup);
    } else if e.CleanedUp? {
      ClockAfterCleanup(s, e.now, e.order);
    } else if e.ProcessStarted? {
      InsertKeepsRest(s, e.o, NewProcess(e.pid, e.startKey, e.name, e.parentPid, e.sessionId, e.now));
    } else if e.ThreadStarted? || e.ServiceSeen? || e.Sampled? {
      RecordingFrame(s, e);
    }
  }

  /** A record stays where it is filed for as long as its instance is live. */
  lemma InstanceStep<Ref>(s: State<Ref>, e: Event<Ref>, k: uint64)
    requires Closed(s) && Enabled(s, e) && k in s.instanceData && k in Step(s, e).instanceData
    ensures Step(s, e).instanceData[k] == s.instanceData[k]
  {
    hide EnrichedInfo, Cleanup, AddThread, ApplyService, RecordSample, Target, TerminatedInfo;
    if e.CleanedUp? {
      InstancesAfterCleanup(s, e.now, e.order);
    } else if e.ThreadStarted? || e.ServiceSeen? || e.Sampled? {
      RecordingFrame(s, e);
    }
  }

  lemma {:induction false} GenerationCounts<Ref>(unknown: Ref, start: int,
      states: seq<State<Ref>>, events: seq<Event<Ref>>, i: nat, j: nat)
    requires IsRun(unknown, start, states, events) && i <= j <= |events|
    requires forall c | i <= c < j :: !events[c].CleanedUp?
    ensures states[j].scrapeCounter == states[i].scrapeCounter
    decreases j - i
  {
    hide Step, Enabled;
    if i < j {
      GenerationCounts(unknown, start, states, events, i, j - 1);
      assert Next(states[j - 1], events[j - 1], states[j - 1 + 1]);
      GenerationStep(states[j - 1], events[j - 1]);
    }
  }

  /** Going back from a marked state: the mark was already there, right back to the event that set it. */
  lemma {:induction false} MarkPersists<Ref>(unknown: Ref, start: int,
      states: seq<State<Ref>>, events: seq<Event<Ref>>, k: uint64, i: nat, x: nat, j: nat)
    requires IsRun(unknown, start, states, events) && i < x <= j <= |events|
    requires Marks(states[i], events[i], k) && k in states[j].terminatedProcesses
    requires forall y | i < y < j :: !Marks(states[y], events[y], k)
    ensures k in states[x].terminatedProcesses && states[x].terminatedProcesses[k] == states[i].scrapeCounter
    ensures k in states[x].instanceData && k in states[j].instanceData
    ensures states[x].instanceData[k] == states[j].instanceData[k]
    decreases j - i
  {
    hide Step, Enabled, Inv;
    MarkedIsLive(unknown, start, states, events, k, j);
    assert Next(states[j - 1], events[j - 1], states[j - 1 + 1]);
    MarkOrigin(states[j - 1], events[j - 1], k);
    if i < j - 1 {
      MarkedIsLive(unknown, start, states, events, k, j - 1);
      InstanceStep(states[j - 1], events[j - 1], k);
      if x < j {
        MarkPersists(unknown, start, states, events, k, i, x, j - 1);
      } else {
        MarkPersists(unknown, start, states, events, k, i, j - 1, j - 1);
      }
    }
  }

  lemma MarkedIsLive<Ref>(unknown: Ref, start: int,
      states: seq<State<Ref>>, events: seq<Event<Ref>>, k: uint64, n: nat)
    requires IsRun(unknown, start, states, events) && n <= |events| && k in states[n].terminatedProcesses
    ensures k in states[n].instanceData
  {
    RunKeepsInvariant(unknown, start, states, events, n);
  }

  /**
   The cleanup at event j belongs to a scrape whose snapshot was taken after every earlier cleanup,
   as the metrics handler does it when scrapes do not overlap.
   */
  ghost predicate SnapshotBeforeCleanup<Ref>(events: seq<Event<Ref>>, j: nat)
    requires j < |events|
  {
    forall c | 0 <= c < j && events[c].CleanedUp? :: exists a :: c < a < j && events[a].Aggregated?
  }

  /** Event j is a cleanup that recycles the instance k. */
  ghost predicate Recycles<Ref>(s: State<Ref>, e: Event<Ref>, k: uint64) {
    e.CleanedUp? && s.clock.Valid() && k in Cleaned(s, e.now)
  }

  /**
   If the cleanup at event j recycles an instance whose latest mark is event i, and the 60 s
   override is not in force, then the instance, in the same record, was part of a snapshot taken
   after that mark.
   */
  lemma MarkedProcessIsSeenAgain<Ref>(unknown: Ref, start: int,
      states: seq<State<Ref>>, events: seq<Event<Ref>>, k: uint64, i: nat, j: nat) returns (a: nat)
    requires IsRun(unknown, start, states, events) && i < j < |events|
    requires SnapshotBeforeCleanup(events, j)
    requires Marks(states[i], events[i], k) && (forall y | i < y < j :: !Marks(states[y], events[y], k))
    requires Recycles(states[j], events[j], k)
    requires events[j].now - states[j].clock.lastScrapeTime <= 60_000_000_000
    ensures i < a < j && events[a].Aggregated?
    ensures k in states[a].instanceData && k in states[j].instanceData
    ensures states[a].instanceData[k] == states[j].instanceData[k]
  {
    hide Step, Enabled, Inv;
    MarkPersists(unknown, start, states, events, k, i, j, j);
    var c := CleanupBetween(unknown, start, states, events, k, i, j);
    a :| c < a < j && events[a].Aggregated?;
    MarkPersists(unknown, start, states, events, k, i, a, j);
  }

  /** Without the override, a whole cleanup passes between the latest mark and the removal. */
  lemma CleanupBetween<Ref>(unknown: Ref, start: int,
      states: seq<State<Ref>>, events: seq<Event<Ref>>, k: uint64, i: nat, j: nat) returns (c: nat)
    requires IsRun(unknown, start, states, events) && i < j < |events|
    requires Marks(states[i], events[i], k)
    requires k in states[j].terminatedProcesses && states[j].terminatedProcesses[k] == states[i].scrapeCounter
    requires Recycles(states[j], events[j], k)
    requires events[j].now - states[j].clock.lastScrapeTime <= 60_000_000_000
    ensures i < c < j && events[c].CleanedUp?
  {
    hide Step, Enabled, Inv;
    if forall y | i <= y < j :: !events[y].CleanedUp? {
      GenerationCounts(unknown, start, states, events, i, j);
      assert false;
    }
    c :| i <= c < j && events[c].CleanedUp?;
  }

  /**
   The exact condition: the first cleanup after a mark recycles the process if and only if the
   override is in force.
   */
  lemma RecycledAtOnceExactly<Ref>(s: State<Ref>, k: uint64, terminationTime: int, now: int)
    requires Inv(s) && k in s.instanceData
    ensures Closed(MarkProcess(s, k, terminationTime))
    ensures k in Cleaned(MarkProcess(s, k, terminationTime), now) <==> now - s.clock.lastScrapeTime > 60_000_000_000
  {
  }
}
