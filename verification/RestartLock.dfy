/**
 The restart lock: any number of goroutines that want a session restarted, and
 the set of session names that lets one of them at a time into the retry
 section. Each step is one atomic action of one goroutine; what the
 environment decides (whether a restart succeeds, whether the session runs
 again, whether the manager shuts down) is part of the event.
 */
module RestartLock {

  const MAX_ATTEMPTS := 10

  /**
   Checking: about to look whether a restart makes sense at all. Acquiring: about to try the lock.
   Sleeping: the name was taken. Retrying: in the section, after so many attempts, about to make one.
   Pausing: in the section, waiting after a failed attempt. Gone: has returned.
   */
  datatype Phase = Checking | Acquiring | Sleeping | Retrying(attempts: nat) | Pausing(attempts: nat) | Gone

  datatype Goroutine = Goroutine(name: string, phase: Phase, attemptsMade: nat)

  datatype State = State(restarting: set<string>, goroutines: seq<Goroutine>)

  datatype Event =
    | Requested(name: string)
    | Checked(g: nat, proceeds: bool)
    | TriedLock(g: nat)
    | WokeUp(g: nat, sessionRuns: bool)
    | Attempted(g: nat, success: bool)
    | PauseEnded(g: nat, shutdown: bool)

  const INIT := State({}, [])

  predicate Enabled(s: State, e: Event) {
    match e
    case Requested(_) => true
    case Checked(g, _) => g < |s.goroutines| && s.goroutines[g].phase.Checking?
    case TriedLock(g) => g < |s.goroutines| && s.goroutines[g].phase.Acquiring?
    case WokeUp(g, _) => g < |s.goroutines| && s.goroutines[g].phase.Sleeping?
    case Attempted(g, _) => g < |s.goroutines| && s.goroutines[g].phase.Retrying?
    case PauseEnded(g, _) => g < |s.goroutines| && s.goroutines[g].phase.Pausing?
  }

  function WithPhase(s: State, g: nat, phase: Phase): State
    requires g < |s.goroutines|
  {
    s.(goroutines := s.goroutines[g := s.goroutines[g].(phase := phase)])
  }

  /** Leaves the retry section: the deferred deletion of the name runs. */
  function Released(s: State, g: nat): State
    requires g < |s.goroutines|
  {
    WithPhase(s, g, Gone).(restarting := s.restarting - {s.goroutines[g].name})
  }

  function Step(s: State, e: Event): State
    requires Enabled(s, e)
  {
    match e
    case Requested(name) => s.(goroutines := s.goroutines + [Goroutine(name, Checking, 0)])
    case Checked(g, proceeds) => WithPhase(s, g, if proceeds then Acquiring else Gone)
    case TriedLock(g) =>
      var name := s.goroutines[g].name;
      if name in s.restarting then WithPhase(s, g, Sleeping)
      else WithPhase(s, g, Retrying(0)).(restarting := s.restarting + {name})
    case WokeUp(g, sessionRuns) => WithPhase(s, g, if sessionRuns then Gone else Acquiring)
    case Attempted(g, success) =>
      var counted :=
        s.(goroutines := s.goroutines[g := s.goroutines[g].(attemptsMade := s.goroutines[g].attemptsMade + 1)]);
      if success then Released(counted, g) else WithPhase(counted, g, Pausing(s.goroutines[g].phase.attempts + 1))
    case PauseEnded(g, shutdown) =>
      var attempts := s.goroutines[g].phase.attempts;
      if shutdown || attempts == MAX_ATTEMPTS then Released(s, g) else WithPhase(s, g, Retrying(attempts))
  }

  predicate InSection(g: Goroutine) {
    g.phase.Retrying? || g.phase.Pausing?
  }

  /** How many goroutines are in the retry section for a name. */
  function Holders(goroutines: seq<Goroutine>, name: string): nat {
    if goroutines == [] then 0
    else
      var last := goroutines[|goroutines| - 1];
      Holders(goroutines[..|goroutines| - 1], name) + if InSection(last) && last.name == name then 1 else 0
  }

  function Weight(g: Goroutine, name: string): nat {
    if InSection(g) && g.name == name then 1 else 0
  }

  lemma {:induction false} HoldersUpdate(goroutines: seq<Goroutine>, i: nat, g: Goroutine, name: string)
    requires i < |goroutines|
    ensures Holders(goroutines[i := g], name)
            == Holders(goroutines, name) + Weight(g, name) - Weight(goroutines[i], name)
  {
    var last := |goroutines| - 1;
    if i < last {
      HoldersUpdate(goroutines[..last], i, g, name);
      assert goroutines[i := g][..last] == goroutines[..last][i := g];
    } else {
      assert goroutines[i := g][..last] == goroutines[..last];
    }
  }

  lemma {:induction false} HolderCounts(goroutines: seq<Goroutine>, i: nat, name: string)
    requires i < |goroutines| && InSection(goroutines[i]) && goroutines[i].name == name
    ensures Holders(goroutines, name) >= 1
  {
    if i < |goroutines| - 1 {
      HolderCounts(goroutines[..|goroutines| - 1], i, name);
    }
  }

  /** A name is in the set exactly when one goroutine is in the section for it, and never are there two. */
  ghost predicate Exclusive(s: State, name: string) {
    Holders(s.goroutines, name) == if name in s.restarting then 1 else 0
  }

  /** The attempts made agree with the phase and stay within the limit. */
  predicate Bounded(g: Goroutine) {
    match g.phase
    case Checking => g.attemptsMade == 0
    case Acquiring => g.attemptsMade == 0
    case Sleeping => g.attemptsMade == 0
    case Retrying(n) => g.attemptsMade == n < 10
    case Pausing(n) => g.attemptsMade == n && 1 <= n <= 10
    case Gone => g.attemptsMade <= 10
  }

  lemma StepKeepsExclusive(s: State, e: Event, name: string)
    requires Enabled(s, e) && Exclusive(s, name)
    requires forall g | 0 <= g < |s.goroutines| && InSection(s.goroutines[g]) :: s.goroutines[g].name in s.restarting
    ensures Exclusive(Step(s, e), name)
  {
    var s' := Step(s, e);
    if e.Requested? {
      assert s'.goroutines[..|s.goroutines|] == s.goroutines;
    } else {
      HoldersUpdate(s.goroutines, e.g, s'.goroutines[e.g], name);
      assert s'.goroutines == s.goroutines[e.g := s'.goroutines[e.g]];
    }
  }

  lemma StepKeepsBounds(s: State, e: Event)
    requires Enabled(s, e)
    requires forall g | 0 <= g < |s.goroutines| :: Bounded(s.goroutines[g])
    ensures forall g | 0 <= g < |Step(s, e).goroutines| :: Bounded(Step(s, e).goroutines[g])
  {
  }

  ghost predicate IsRun(states: seq<State>, events: seq<Event>) {
    && |states| == |events| + 1 && states[0] == INIT
    && forall i | 0 <= i < |events| :: Enabled(states[i], events[i]) && states[i + 1] == Step(states[i], events[i])
  }

  /**
   Any number of goroutines, any interleaving: at every point a name is in the set exactly when one
   goroutine is in the retry section for it, and nobody makes more than ten attempts.
   */
  lemma {:induction false} LockIsExclusive(states: seq<State>, events: seq<Event>, n: nat)
    requires IsRun(states, events) && n <= |events|
    ensures forall name :: Exclusive(states[n], name)
    ensures forall g | 0 <= g < |states[n].goroutines| ::
              Bounded(states[n].goroutines[g]) && states[n].goroutines[g].attemptsMade <= 10
  {
    if n > 0 {
      hide Exclusive, Step, Enabled, Bounded;
      LockIsExclusive(states, events, n - 1);
      var s, e := states[n - 1], events[n - 1];
      assert Enabled(s, e) && states[n - 1 + 1] == Step(s, e);
      forall g | 0 <= g < |s.goroutines| && InSection(s.goroutines[g])
        ensures s.goroutines[g].name in s.restarting
      {
        SectionIsListed(s, g);
      }
      forall name
        ensures Exclusive(states[n], name)
      {
        StepKeepsExclusive(s, e, name);
      }
      StepKeepsBounds(s, e);
      BoundedAttempts(states[n]);
    } else {
      assert states[0] == INIT;
    }
  }

  lemma SectionIsListed(s: State, g: nat)
    requires g < |s.goroutines| && InSection(s.goroutines[g]) && Exclusive(s, s.goroutines[g].name)
    ensures s.goroutines[g].name in s.restarting
  {
    HolderCounts(s.goroutines, g, s.goroutines[g].name);
  }

  lemma BoundedAttempts(s: State)
    requires forall g | 0 <= g < |s.goroutines| :: Bounded(s.goroutines[g])
    ensures forall g | 0 <= g < |s.goroutines| :: s.goroutines[g].attemptsMade <= 10
  {
  }

  /** The set loses a name only by a step of the goroutine that holds it: a waiter that leaves releases nothing. */
  lemma OnlyHolderReleases(s: State, e: Event, name: string)
    requires Enabled(s, e) && name in s.restarting && name !in Step(s, e).restarting
    requires forall g | 0 <= g < |s.goroutines| :: Bounded(s.goroutines[g])
    ensures (e.Attempted? || e.PauseEnded?) && s.goroutines[e.g].name == name && InSection(s.goroutines[e.g])
    ensures Step(s, e).goroutines[e.g].phase.Gone?
    ensures e.Attempted? ==> e.success
    ensures e.PauseEnded? ==> e.shutdown || s.goroutines[e.g].attemptsMade == 10
  {
  }

  /**
   A goroutine returns exactly if a restart makes no sense, the session runs again, its attempt succeeds,
   or its pause ends in a shutdown or after the tenth attempt; and it is in the section afterwards exactly
   if it finds the name free, its attempt fails, or its pause ends otherwise. Only an attempt counts as one.
   */
  lemma LeavesExactly(s: State, e: Event)
    requires Enabled(s, e) && !e.Requested? && Bounded(s.goroutines[e.g])
    ensures var g, g' := s.goroutines[e.g], Step(s, e).goroutines[e.g];
            && (g'.phase.Gone? <==>
                  || (e.Checked? && !e.proceeds) || (e.WokeUp? && e.sessionRuns) || (e.Attempted? && e.success)
                  || (e.PauseEnded? && (e.shutdown || g.attemptsMade == 10)))
            && (InSection(g') <==>
                  || (e.TriedLock? && g.name !in s.restarting) || (e.Attempted? && !e.success)
                  || (e.PauseEnded? && !e.shutdown && g.attemptsMade < 10))
            && g'.attemptsMade == g.attemptsMade + (if e.Attempted? then 1 else 0) && g'.name == g.name
    ensures forall i | 0 <= i < |s.goroutines| && i != e.g :: Step(s, e).goroutines[i] == s.goroutines[i]
  {
  }
}
