/**
 The kernel state manager together with its image manager: unloads are marked
 with the generation of the one, and one cleanup sweeps both at one threshold.
 So delayed deletion of images is exact over the runs of the whole manager.
 */
module SystemRuns {
  import opened Words
  import opened ScrapeClock
  import opened Lifecycle
  import opened LifecycleRuns
  import opened GracePeriod
  import opened ProcessRecords
  import opened KernelState
  import opened Snapshots
  import Images

  datatype SystemState<Ref(==), Img(==)> = SystemState(kernel: State<Ref>, images: Images.State<Img>)

  /** What an event is for the processes, and what it is for the images. */
  datatype SystemEvent<Ref, Img> = SystemEvent(kernel: Option<Event<Ref>>, image: Option<Images.Event<Img>>)

  /** Unloads carry the current generation; images are cleaned with the processes, at the same threshold. */
  ghost predicate Synchronised<Ref, Img>(s: State<Ref>, e: SystemEvent<Ref, Img>) {
    && (e.image.Some? && e.image.value.ImageUnloaded? ==> e.image.value.generation == s.scrapeCounter)
    && (IsCleanup(e) <==> e.image.Some? && e.image.value.ImagesCleaned?)
    && (IsCleanup(e) ==> s.clock.Valid() && e.image.value.threshold == NextThreshold(s, e.kernel.value.now))
  }

  predicate IsCleanup<Ref, Img>(e: SystemEvent<Ref, Img>) {
    e.kernel.Some? && e.kernel.value.CleanedUp?
  }

  ghost predicate SystemNext<Ref, Img>(s: SystemState<Ref, Img>, e: SystemEvent<Ref, Img>, s': SystemState<Ref, Img>) {
    && Synchronised(s.kernel, e)
    && (if e.kernel.Some? then Next(s.kernel, e.kernel.value, s'.kernel) else s'.kernel == s.kernel)
    && (if e.image.Some? then Images.Next(s.images, e.image.value, s'.images) else s'.images == s.images)
  }

  ghost predicate IsSystemRun<Ref, Img>(unknown: Ref, start: int,
                                        states: seq<SystemState<Ref, Img>>, events: seq<SystemEvent<Ref, Img>>)
  {
    && |states| == |events| + 1
    && states[0] == SystemState(Init(unknown, start), Images.Init())
    && forall i | 0 <= i < |events| :: SystemNext(states[i], events[i], states[i + 1])
  }

  // ---- the lifecycle within a run of the whole ----

  function KernelEvents<Ref, Img>(events: seq<SystemEvent<Ref, Img>>): seq<Event<Ref>> {
    if events == [] then []
    else
      var e := events[|events| - 1];
      KernelEvents(events[..|events| - 1]) + (if e.kernel.Some? then [e.kernel.value] else [])
  }

  /** The states before and after these events, up to event n. */
  ghost function KernelStates<Ref, Img>(states: seq<SystemState<Ref, Img>>, events: seq<SystemEvent<Ref, Img>>, n: nat)
    : seq<State<Ref>>
    requires |states| == |events| + 1 && n <= |events|
  {
    if n == 0 then [states[0].kernel]
    else KernelStates(states, events, n - 1) + (if events[n - 1].kernel.Some? then [states[n].kernel] else [])
  }

  /** The lifecycle of the processes goes through a run of its own. */
  lemma {:induction false} KernelRuns<Ref, Img>(unknown: Ref, start: int,
      states: seq<SystemState<Ref, Img>>, events: seq<SystemEvent<Ref, Img>>, n: nat)
    requires IsSystemRun(unknown, start, states, events) && n <= |events|
    ensures var run, done := KernelStates(states, events, n), KernelEvents(events[..n]);
            IsRun(unknown, start, run, done) && run[|done|] == states[n].kernel
  {
    hide Next, Synchronised;
    if n > 0 {
      KernelRuns(unknown, start, states, events, n - 1);
      assert events[..n][..n - 1] == events[..n - 1];
      assert SystemNext(states[n - 1], events[n - 1], states[n - 1 + 1]);
    }
  }

  lemma {:induction false} ImagesKeepInvariant<Ref, Img>(unknown: Ref, start: int,
      states: seq<SystemState<Ref, Img>>, events: seq<SystemEvent<Ref, Img>>, n: nat)
    requires IsSystemRun(unknown, start, states, events) && n <= |events|
    ensures Images.Inv(states[n].images)
  {
    hide Next, Synchronised, Images.Inv, Images.Next;
    if n == 0 {
      Images.NothingLoaded<Img>();
    } else {
      ImagesKeepInvariant(unknown, start, states, events, n - 1);
      assert SystemNext(states[n - 1], events[n - 1], states[n - 1 + 1]);
      if events[n - 1].image.Some? {
        Images.StepKeepsInvariant(states[n - 1].images, events[n - 1].image.value, states[n].images);
      }
    }
  }

  // ---- which cleanup removes an image ----

  /** Event e is a cleanup whose threshold lies above generation g. */
  ghost predicate SystemReaches<Ref, Img>(s: SystemState<Ref, Img>, e: SystemEvent<Ref, Img>, g: nat) {
    e.kernel.Some? && Reaches(s.kernel, e.kernel.value, g)
  }

  lemma CleanupInRun<Ref, Img>(unknown: Ref, start: int,
      states: seq<SystemState<Ref, Img>>, events: seq<SystemEvent<Ref, Img>>, j: nat)
    requires IsSystemRun(unknown, start, states, events) && j < |events| && IsCleanup(events[j])
    ensures var run, done := KernelStates(states, events, j + 1), KernelEvents(events[..j + 1]);
            && done != [] && IsRun(unknown, start, run, done)
            && done[|done| - 1] == events[j].kernel.value && run[|done| - 1] == states[j].kernel
  {
    hide Next;
    KernelRuns(unknown, start, states, events, j);
    KernelRuns(unknown, start, states, events, j + 1);
    assert events[..j + 1][..j] == events[..j];
    assert KernelEvents(events[..j + 1]) == KernelEvents(events[..j]) + [events[j].kernel.value];
  }

  /** The n-th cleanup of a run reaches generation g if and only if n > g + grace, or the override is in force. */
  lemma SystemReachesExactly<Ref, Img>(unknown: Ref, start: int,
      states: seq<SystemState<Ref, Img>>, events: seq<SystemEvent<Ref, Img>>, j: nat, g: nat)
    requires IsSystemRun(unknown, start, states, events) && j < |events| && IsCleanup(events[j])
    ensures CleanupTimes(KernelEvents(events[..j + 1])) != []
    ensures var times := CleanupTimes(KernelEvents(events[..j + 1]));
            var d := Intervals(start, times);
            SystemReaches(states[j], events[j], g)
            <==> if Override(d[|d| - 1]) then g < |times| else |times| > g + GraceGenerations(RecentMean(d))
  {
    hide Next, CleanupTimes, KernelStates, KernelEvents, Intervals, RecentMean, GraceGenerations, Reaches;
    CleanupInRun(unknown, start, states, events, j);
    var run, done := KernelStates(states, events, j + 1), KernelEvents(events[..j + 1]);
    assert done[..|done|] == done && done[..|done| - 1 + 1] == done;
    ReachesExactly(unknown, start, run, done, |done| - 1, g);
  }

  /** The same by the times alone. */
  lemma SystemReachesByTimes<Ref, Img>(unknown: Ref, start: int,
      states: seq<SystemState<Ref, Img>>, events: seq<SystemEvent<Ref, Img>>, j: nat, g: nat)
    requires IsSystemRun(unknown, start, states, events) && j < |events| && IsCleanup(events[j])
    ensures CleanupTimes(KernelEvents(events[..j + 1])) != []
    ensures var times := CleanupTimes(KernelEvents(events[..j + 1]));
            SystemReaches(states[j], events[j], g) <==> InReach(Intervals(start, times), |times|, g)
  {
    hide Next, CleanupTimes, KernelStates, KernelEvents, InReach, Reaches;
    CleanupInRun(unknown, start, states, events, j);
    var run, done := KernelStates(states, events, j + 1), KernelEvents(events[..j + 1]);
    assert done[..|done|] == done && done[..|done| - 1 + 1] == done;
    ReachesByTimes(unknown, start, run, done, |done| - 1, g);
  }

  /** Event i drops the count of a loaded image to zero or below. */
  ghost predicate SystemDrops<Ref, Img>(s: SystemState<Ref, Img>, e: SystemEvent<Ref, Img>, base: uint64) {
    e.image.Some? && Images.Drops(s.images, e.image.value, base)
  }

  /** Event e stores an image under a base where none is loaded. */
  predicate Stores<Ref, Img>(s: SystemState<Ref, Img>, e: SystemEvent<Ref, Img>, base: uint64) {
    e.image.Some? && e.image.value.ImageLoaded? && e.image.value.base == base && base !in s.images.images
  }

  /** Event i drops the count of the image; up to state x no event does so again, or stores an image under its base. */
  ghost predicate DroppedAt<Ref, Img>(states: seq<SystemState<Ref, Img>>, events: seq<SystemEvent<Ref, Img>>,
                                      base: uint64, i: nat, x: nat)
  {
    && i < x <= |events| && |states| == |events| + 1 && SystemDrops(states[i], events[i], base)
    && forall y | i < y < x :: !SystemDrops(states[y], events[y], base) && !Stores(states[y], events[y], base)
  }

  lemma SystemImageStep<Ref, Img>(s: SystemState<Ref, Img>, e: SystemEvent<Ref, Img>, s': SystemState<Ref, Img>,
                                  base: uint64, g: nat)
    requires Images.Inv(s.images) && SystemNext(s, e, s') && !SystemDrops(s, e, base) && !Stores(s, e, base)
    requires base in s.images.images ==> base in s.images.terminated && s.images.terminated[base] == g
    ensures base in s'.images.images <==> base in s.images.images && !SystemReaches(s, e, g)
    ensures base in s'.images.images ==> base in s'.images.terminated && s'.images.terminated[base] == g
  {
    hide Images.Inv, Images.Next, Images.Drops, Next, NextThreshold;
    if e.image.Some? {
      Images.ImageStep(s.images, e.image.value, s'.images, base);
      if base in s'.images.images {
        Images.MarkStep(s.images, e.image.value, s'.images, base);
      }
    }
  }

  lemma DropMarks<Ref, Img>(s: SystemState<Ref, Img>, e: SystemEvent<Ref, Img>, s': SystemState<Ref, Img>, base: uint64)
    requires Images.Inv(s.images) && SystemNext(s, e, s') && SystemDrops(s, e, base)
    ensures base in s'.images.images
    ensures base in s'.images.terminated && s'.images.terminated[base] == s.kernel.scrapeCounter
  {
    hide Images.Inv, Images.Next, Next, NextThreshold;
    Images.ImageStep(s.images, e.image.value, s'.images, base);
    Images.MarkStep(s.images, e.image.value, s'.images, base);
  }

  /**
   Delayed deletion of images is exact: after its count has fallen to zero or below an image stays
   loaded until the first cleanup that reaches the generation of that unload, and no longer, in use
   again or not.
   */
  lemma {:induction false} ImageKeptExactly<Ref, Img>(unknown: Ref, start: int,
      states: seq<SystemState<Ref, Img>>, events: seq<SystemEvent<Ref, Img>>, base: uint64, i: nat, x: nat)
    requires IsSystemRun(unknown, start, states, events) && DroppedAt(states, events, base, i, x)
    ensures base in states[x].images.images
            <==> forall y | i < y < x :: !SystemReaches(states[y], events[y], states[i].kernel.scrapeCounter)
    ensures base in states[x].images.images ==>
              && base in states[x].images.terminated
              && states[x].images.terminated[base] == states[i].kernel.scrapeCounter
    decreases x
  {
    hide SystemNext, SystemDrops, SystemReaches, Stores, Images.Inv;
    ImagesKeepInvariant(unknown, start, states, events, x - 1);
    assert SystemNext(states[x - 1], events[x - 1], states[x - 1 + 1]);
    if x == i + 1 {
      DropMarks(states[i], events[i], states[x], base);
    } else {
      ImageKeptExactly(unknown, start, states, events, base, i, x - 1);
      SystemImageStep(states[x - 1], events[x - 1], states[x], base, states[i].kernel.scrapeCounter);
    }
  }

  // ---- the objects ----

  /** What comes in: an event of the lifecycle, or one of images, which for an executable is both. */
  datatype Request =
    | OfLifecycle(event: Event<ProcessData?>)
    | ImageArrives(pid: uint32, base: uint64, size: uint64, fileName: string, imageName: string, checksum: uint32)
    | ImageGoes(base: uint64)
    | AddressAsked(address: uint64)

  /** The event that a request becomes, up to the choices of the managers. */
  ghost predicate Answers(enrich: bool, r: Request, e: SystemEvent<ProcessData?, Images.ImageInfo?>) {
    match r
    case OfLifecycle(event) =>
      e.kernel.Some? && SameRequest(event, e.kernel.value) && (!event.CleanedUp? ==> e.image == None)
    case ImageArrives(pid, base, size, fileName, imageName, checksum) =>
      && e.kernel == (if enrich && IsExecutable(fileName) then Some(ExeLoaded(pid, checksum, fileName)) else None)
      && e.image.Some? && e.image.value.ImageLoaded?
      && (e.image.value.base, e.image.value.size, e.image.value.name) == (base, size, imageName)
    case ImageGoes(base) =>
      e.kernel == None && e.image.Some? && e.image.value.ImageUnloaded? && e.image.value.base == base
    case AddressAsked(address) =>
      e.kernel == None && e.image.Some? && e.image.value.AddressLookedUp? && e.image.value.address == address
  }

  ghost function ViewOf(m: KernelStateManager): SystemState<ProcessData?, Images.ImageInfo?>
    reads m, m.records, m.timer, m.timer.scrapeDurations, m.images, m.images.records
    requires m.timer.Valid()
  {
    SystemState(m.View(), m.images.View())
  }

  ghost predicate AllValid(m: KernelStateManager)
    reads m, m.records, m.timer, m.timer.scrapeDurations, m.images, m.images.records, m.snapshots,
    m.snapshots.resultMaps
  {
    m.timer.Valid() && m.Valid() && m.images.Valid() && m.snapshots.Valid()
  }

  method HandleLifecycle(m: KernelStateManager, event: Event<ProcessData?>)
    returns (ghost e: SystemEvent<ProcessData?, Images.ImageInfo?>)
    requires AllValid(m)
    modifies m, m.records, m.timer, m.timer.scrapeDurations, m.images, m.snapshots, m.snapshots.resultMaps
    ensures AllValid(m) && fresh(m.records - old(m.records)) && m.images.records == old(m.images.records)
    ensures fresh(m.snapshots.resultMaps - old(m.snapshots.resultMaps))
    ensures Answers(m.processManagerEnabled, OfLifecycle(event), e)
    ensures SystemNext(old(ViewOf(m)), e, ViewOf(m))
  {
    hide Inv, Next, KernelStateManager.View, Images.ImageManager.Valid, Images.ImageManager.View, SnapshotStore.Valid,
         Images.Next, SameRequest, NextThreshold;
    if event.CleanedUp? {
      ghost var fired, swept := m.HandleCleanup(event);
      e := SystemEvent(Some(fired), Some(swept));
      SameKind(event, fired);
    } else {
      ghost var fired := m.Handle(event);
      e := SystemEvent(Some(fired), None);
      SameKind(event, fired);
    }
  }

  lemma SameKind<Ref>(e: Event<Ref>, f: Event<Ref>)
    requires SameRequest(e, f)
    ensures e.CleanedUp? <==> f.CleanedUp?
    ensures e.CleanedUp? ==> e.now == f.now
  {
  }

  method HandleLoad(m: KernelStateManager, r: Request) returns (ghost e: SystemEvent<ProcessData?, Images.ImageInfo?>)
    requires AllValid(m) && r.ImageArrives?
    modifies m.records, m.images, m.images.records
    ensures AllValid(m) && fresh(m.images.records - old(m.images.records))
    ensures Answers(m.processManagerEnabled, r, e) && SystemNext(old(ViewOf(m)), e, ViewOf(m))
  {
    hide Inv, Closed, Step, Enabled, Enrich, KernelStateManager.View, Images.ImageManager.View,
         Images.ImageManager.Valid, SnapshotStore.Valid, Images.Added;
    ghost var s := m.View();
    InvariantIsClosed(s);
    ImagesAreFiled(m.images);
    ghost var o := m.AddImage(r.pid, r.base, r.size, r.fileName, r.imageName, r.checksum);
    ghost var exe: Event<ProcessData?> := ExeLoaded(r.pid, r.checksum, r.fileName);
    DirectStep(s, exe);
    e := SystemEvent(if m.processManagerEnabled && IsExecutable(r.fileName) then Some(exe) else None,
                     Some(Images.ImageLoaded(o, r.base, r.size, r.imageName)));
  }

  lemma ImagesAreFiled(images: Images.ImageManager)
    requires images.Valid()
    ensures forall b | b in images.View().images :: images.View().images[b] in images.View().heap
    ensures images.View().images == images.images
  {
  }

  method HandleUnload(m: KernelStateManager, base: uint64)
    returns (ghost e: SystemEvent<ProcessData?, Images.ImageInfo?>)
    requires AllValid(m)
    modifies m.images, m.images.records
    ensures AllValid(m) && m.images.records == old(m.images.records)
    ensures Answers(m.processManagerEnabled, ImageGoes(base), e) && SystemNext(old(ViewOf(m)), e, ViewOf(m))
  {
    hide Inv, Images.ImageManager.View, KernelStateManager.Heap, SnapshotStore.Valid, Images.Unloaded;
    ImagesAreFiled(m.images);
    m.UnloadImage(base);
    e := SystemEvent(None, Some(Images.ImageUnloaded(base, m.scrapeCounter)));
  }

  method HandleLookup(m: KernelStateManager, address: uint64)
    returns (ghost e: SystemEvent<ProcessData?, Images.ImageInfo?>)
    requires AllValid(m)
    modifies m.images`addressCache
    ensures AllValid(m) && m.images.records == old(m.images.records)
    ensures Answers(m.processManagerEnabled, AddressAsked(address), e) && SystemNext(old(ViewOf(m)), e, ViewOf(m))
  {
    hide Inv, Images.ImageManager.View, KernelStateManager.View, SnapshotStore.Valid, Images.Lookup,
         Images.IsScanResult;
    ghost var looked;
    var _, found := m.images.GetImageForAddress(address);
    looked := found;
    e := SystemEvent(None, Some(Images.AddressLookedUp(address, looked)));
  }

  method HandleRequest(m: KernelStateManager, r: Request)
    returns (ghost e: SystemEvent<ProcessData?, Images.ImageInfo?>)
    requires AllValid(m)
    modifies m, m.records, m.timer, m.timer.scrapeDurations, m.images, m.images.records, m.snapshots,
             m.snapshots.resultMaps
    ensures AllValid(m) && fresh(m.records - old(m.records)) && fresh(m.images.records - old(m.images.records))
    ensures fresh(m.snapshots.resultMaps - old(m.snapshots.resultMaps))
    ensures Answers(m.processManagerEnabled, r, e) && SystemNext(old(ViewOf(m)), e, ViewOf(m))
  {
    hide AllValid, ViewOf, SystemNext;
    match r
    case OfLifecycle(event) => e := HandleLifecycle(m, event);
    case ImageArrives(_, _, _, _, _, _) => e := HandleLoad(m, r);
    case ImageGoes(base) => e := HandleUnload(m, base);
    case AddressAsked(address) => e := HandleLookup(m, address);
  }

  /** Any sequence of requests drives the two managers along a run of the whole. */
  method Drive(m: KernelStateManager, requests: seq<Request>, ghost unknown: ProcessData?, ghost start: int)
    returns (ghost states: seq<SystemState<ProcessData?, Images.ImageInfo?>>,
             ghost fired: seq<SystemEvent<ProcessData?, Images.ImageInfo?>>)
    requires AllValid(m) && ViewOf(m) == SystemState(Init(unknown, start), Images.Init())
    modifies m, m.records, m.timer, m.timer.scrapeDurations, m.images, m.images.records, m.snapshots,
             m.snapshots.resultMaps
    ensures |fired| == |requests|
    ensures forall i | 0 <= i < |requests| :: Answers(m.processManagerEnabled, requests[i], fired[i])
    ensures IsSystemRun(unknown, start, states, fired)
    ensures AllValid(m) && ViewOf(m) == states[|fired|]
  {
    hide AllValid, ViewOf, SystemNext, Answers, Init, Images.Init;
    assert m.timer.Valid() by {
      TimerIsValid(m);
    }
    states, fired := [ViewOf(m)], [];
    for i := 0 to |requests|
      invariant m.timer.Valid() && AllValid(m)
      invariant fresh(m.records - old(m.records)) && fresh(m.images.records - old(m.images.records))
      invariant fresh(m.snapshots.resultMaps - old(m.snapshots.resultMaps))
      invariant |fired| == i && forall j | 0 <= j < i :: Answers(m.processManagerEnabled, requests[j], fired[j])
      invariant |states| == i + 1 && states[i] == ViewOf(m) && IsSystemRun(unknown, start, states, fired)
    {
      ghost var e := HandleRequest(m, requests[i]);
      TimerIsValid(m);
      fired := fired + [e];
      states := states + [ViewOf(m)];
    }
  }

  lemma TimerIsValid(m: KernelStateManager)
    requires AllValid(m)
    ensures m.timer.Valid()
  {
  }
}
