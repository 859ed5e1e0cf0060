/**
 The perf collector together with the image manager: a DPC's duration is counted
 under the image that covers its routine at the moment the DPC ends, and a scrape
 gives up the drivers whose images are marked at that moment.
 */
module DriverRuns {
  import opened Words
  import opened Interrupts
  import opened InterruptAccounts
  import opened InterruptHistograms
  import opened PerfCollectors
  import Images

  type ImageEvent = Images.Event<Images.ImageInfo?>

  datatype JointState = JointState(cpu: State, images: ImageState)

  /** What an event is for the collector, and what it is for the images. */
  datatype JointEvent = JointEvent(cpu: Option<Event>, image: Option<ImageEvent>)

  predicate EndsDpc(b: Buffer, e: Event) {
    (e.DpcSeen? || e.Switched?) && Ends(b, e, e.cpu)
  }

  /** The routine of the DPC that ends. */
  function Routine(b: Buffer, e: Event): uint64
    requires EndsDpc(b, e)
  {
    b.lastDpcPerCpu[e.cpu].routineAddress
  }

  /** The address table of event e is the image manager's answer, and it is asked only for the DPC that ends. */
  ghost predicate AsksImages(perDriver: bool, s: JointState, e: Event, image: Option<ImageEvent>) {
    if perDriver && EndsDpc(s.cpu.active, e) then
      && image.Some? && image.value.AddressLookedUp? && image.value.address == Routine(s.cpu.active, e)
      && e.resolve(image.value.address) == DriverName(s.images, image.value.address, image.value.found)
    else image == None
  }

  ghost predicate JointNext(perDriver: bool, s: JointState, e: JointEvent, s': JointState) {
    && (e.cpu.Some? ==> AsksImages(perDriver, s, e.cpu.value, e.image))
    && (e.cpu.Some? && e.cpu.value.Collected? ==> e.cpu.value.cleanedImages == Images.CleanedNames(s.images))
    && s'.cpu == (if e.cpu.Some? then Step(perDriver, s.cpu, e.cpu.value) else s.cpu)
    && (if e.image.Some? then Images.Next(s.images, e.image.value, s'.images) else s'.images == s.images)
  }

  ghost predicate IsJointRun(perDriver: bool, states: seq<JointState>, events: seq<JointEvent>) {
    && |states| == |events| + 1 && states[0] == JointState(Init(), Images.Init())
    && forall i | 0 <= i < |events| :: JointNext(perDriver, states[i], events[i], states[i + 1])
  }

  // ---- the two runs within ----

  function CpuEvents(events: seq<JointEvent>): seq<Event> {
    if events == [] then []
    else
      var e := events[|events| - 1];
      CpuEvents(events[..|events| - 1]) + (if e.cpu.Some? then [e.cpu.value] else [])
  }

  function ImageEvents(events: seq<JointEvent>): seq<ImageEvent> {
    if events == [] then []
    else
      var e := events[|events| - 1];
      ImageEvents(events[..|events| - 1]) + (if e.image.Some? then [e.image.value] else [])
  }

  function ImageStates(states: seq<JointState>, events: seq<JointEvent>, n: nat): seq<ImageState>
    requires |states| == |events| + 1 && n <= |events|
  {
    if n == 0 then [states[0].images]
    else ImageStates(states, events, n - 1) + (if events[n - 1].image.Some? then [states[n].images] else [])
  }

  /** The collector is in the state that its own events prescribe: all results about them hold of it. */
  lemma {:induction false} CollectorRuns(perDriver: bool, states: seq<JointState>, events: seq<JointEvent>, n: nat)
    requires IsJointRun(perDriver, states, events) && n <= |events|
    ensures states[n].cpu == After(perDriver, CpuEvents(events[..n]))
  {
    hide AsksImages, Images.Next, Step;
    if n > 0 {
      CollectorRuns(perDriver, states, events, n - 1);
      assert events[..n][..n - 1] == events[..n - 1];
      assert JointNext(perDriver, states[n - 1], events[n - 1], states[n - 1 + 1]);
      var before := CpuEvents(events[..n - 1]);
      if events[n - 1].cpu.Some? {
        assert CpuEvents(events[..n]) == before + [events[n - 1].cpu.value];
        assert (before + [events[n - 1].cpu.value])[..|before|] == before;
      } else {
        assert CpuEvents(events[..n]) == before;
      }
    }
  }

  /** The image manager goes through a run of its own: all results about these hold of it. */
  lemma {:induction false} ImagesRun(perDriver: bool, states: seq<JointState>, events: seq<JointEvent>, n: nat)
    requires IsJointRun(perDriver, states, events) && n <= |events|
    ensures var run, done := ImageStates(states, events, n), ImageEvents(events[..n]);
            Images.IsRun(run, done) && run[|done|] == states[n].images
  {
    hide AsksImages, Images.Next, Step;
    if n > 0 {
      ImagesRun(perDriver, states, events, n - 1);
      assert events[..n][..n - 1] == events[..n - 1];
      assert JointNext(perDriver, states[n - 1], events[n - 1], states[n - 1 + 1]);
    }
  }

  // ---- under which name a duration is counted ----

  /** An image of this name is loaded whose addresses, by its base and size, include this one. */
  ghost predicate CoveredBy(s: ImageState, address: uint64, name: string) {
    exists base :: Images.HasName(s, base, name) && Images.HoldsAddress(s, base, address)
  }

  /** The name a lookup answers with is that of a covering image, or there is none. */
  lemma DriverCovers(s: ImageState, address: uint64, found: Option<Images.ImageInfo?>)
    requires Images.Inv(s) && Images.IsScanResult(s, address, found)
    ensures CoveredBy(s, address, DriverName(s, address, found))
            || (DriverName(s, address, found) == "unknown" && forall name :: !CoveredBy(s, address, name))
  {
    hide Images.Inv, Images.Lookup, Images.IsScanResult;
    Images.LookupByAddress(s, address, found);
    match Images.Lookup(s, address, found).0
    case Some(o) =>
      var base :| Images.HoldsAddress(s, base, address) && s.images[base] == o;
      assert Images.HasName(s, base, s.heap[o].name);
    case None =>
  }

  /** With disjoint images an address is covered under one name at most. */
  lemma CoveredByOne(s: ImageState, address: uint64, a: string, b: string)
    requires Images.Inv(s) && Images.Disjoint(s) && CoveredBy(s, address, a) && CoveredBy(s, address, b)
    ensures a == b
  {
    hide Images.Covers, Images.Inv;
    var x :| Images.HasName(s, x, a) && Images.HoldsAddress(s, x, address);
    var y :| Images.HasName(s, y, b) && Images.HoldsAddress(s, y, address);
    Images.CoverExactly(s, x, address);
    Images.CoverExactly(s, y, address);
  }

  /**
   At every point of every run: a duration is counted under a name only if, at that moment, an image
   of this name is loaded and covers the routine of the DPC that ends. If loaded images are disjoint,
   it is counted under that name, unless the name is "unknown".
   */
  lemma DurationUnderCoveringImage(perDriver: bool, states: seq<JointState>, events: seq<JointEvent>, n: nat,
                                   name: string)
    requires IsJointRun(perDriver, states, events) && n < |events| && events[n].cpu.Some?
    ensures var b, e := states[n].cpu.active, events[n].cpu.value;
            && (NewDuration(perDriver, b, e, name) != [] ==>
                  EndsDpc(b, e) && CoveredBy(states[n].images, Routine(b, e), name))
            && (Images.Disjoint(states[n].images) ==>
                  (NewDuration(perDriver, b, e, name) != []
                   <==> perDriver && name != "unknown" && EndsDpc(b, e)
                        && CoveredBy(states[n].images, Routine(b, e), name)))
  {
    hide Step, Images.Inv, Images.Disjoint, Images.Covers, Images.IsScanResult, CoveredBy, DriverName;
    var s, e := states[n], events[n].cpu.value;
    assert JointNext(perDriver, s, events[n], states[n + 1]);
    ImagesRun(perDriver, states, events, n);
    Images.RunKeepsInvariant(ImageStates(states, events, n), ImageEvents(events[..n]), |ImageEvents(events[..n])|);
    if perDriver && EndsDpc(s.cpu.active, e) {
      var address, found := Routine(s.cpu.active, e), events[n].image.value.found;
      DriverCovers(s.images, address, found);
      if Images.Disjoint(s.images) && CoveredBy(s.images, address, name) {
        CoveredByOne(s.images, address, name, DriverName(s.images, address, found));
      }
    }
  }

  /**
   A scrape gives up a name if and only if an image of this name is loaded whose count fell to zero
   or below at some unload since it was stored.
   */
  lemma PrunedExactly(perDriver: bool, states: seq<JointState>, events: seq<JointEvent>, n: nat, name: string)
    requires IsJointRun(perDriver, states, events) && n < |events|
    requires events[n].cpu.Some? && events[n].cpu.value.Collected?
    ensures var run, done := ImageStates(states, events, n), ImageEvents(events[..n]);
            && |run| == |done| + 1
            && (name in events[n].cpu.value.cleanedImages
                <==> exists base, i :: Images.HasName(states[n].images, base, name)
                                       && Images.LastDrop(run, done, base, i, |done|))
  {
    hide Step, Images.LastDrop, Images.CleanedNames, Images.HasName;
    assert JointNext(perDriver, states[n], events[n], states[n + 1]);
    ImagesRun(perDriver, states, events, n);
    var run, done := ImageStates(states, events, n), ImageEvents(events[..n]);
    Images.CleanedNamesExactly(run, done, name, |done|);
  }

  // ---- the objects ----

  datatype Request =
    | IsrRaised(cpu: uint16, vector: uint16, initialTime: int, routineAddress: uint64)
    | DpcRaised(cpu: uint16, eventTime: int, initialTime: int, routineAddress: uint64)
    | ContextSwitched(cpu: uint16, eventTime: int)
    | Scraped
    | OfImages(event: ImageEvent)

  /** The event that a request becomes; what the image manager answers and marks is not part of the request. */
  ghost predicate Answers(r: Request, e: JointEvent) {
    match r
    case IsrRaised(cpu, vector, initialTime, routineAddress) =>
      e == JointEvent(Some(IsrSeen(cpu, vector, initialTime, routineAddress)), None)
    case DpcRaised(cpu, eventTime, initialTime, routineAddress) =>
      && e.cpu.Some? && e.cpu.value.DpcSeen?
      && e.cpu.value == DpcSeen(cpu, eventTime, initialTime, routineAddress, e.cpu.value.resolve)
    case ContextSwitched(cpu, eventTime) =>
      e.cpu.Some? && e.cpu.value.Switched? && e.cpu.value == Switched(cpu, eventTime, e.cpu.value.resolve)
    case Scraped => e.cpu.Some? && e.cpu.value.Collected?
    case OfImages(event) => e.cpu == None && e.image.Some? && Images.SameRequest(event, e.image.value)
  }

  ghost predicate AllValid(c: PerfCollector, images: Images.ImageManager)
    reads c, c.buffers, images, images.records
  {
    c.Valid() && images.Valid()
  }

  ghost function ViewOf(c: PerfCollector, images: Images.ImageManager): JointState
    reads c, c.activeBuffer, images, images.records
  {
    JointState(c.View(), images.View())
  }

  function LookedUp(b: Buffer, e: Event, asked: Asked): Option<ImageEvent> {
    if asked.Asked? && EndsDpc(b, e) then Some(Images.AddressLookedUp(Routine(b, e), asked.found)) else None
  }

  /** What a DPC asks makes the event one step of the joint machine. */
  lemma AskedStep(perDriver: bool, s: JointState, e: Event, asked: Asked, s': JointState)
    requires (e.DpcSeen? || e.Switched?) && e.resolve == ResolverOf(asked)
    requires Asks(perDriver, s.cpu.active, e.cpu, asked, s.images, s'.images) && s'.cpu == Step(perDriver, s.cpu, e)
    ensures JointNext(perDriver, s, JointEvent(Some(e), LookedUp(s.cpu.active, e, asked)), s')
  {
    hide Step, Images.Next, DriverName;
  }

  method HandleDpc(c: PerfCollector, images: Images.ImageManager, r: Request) returns (ghost e: JointEvent)
    requires AllValid(c, images) && (r.DpcRaised? || r.ContextSwitched?)
    modifies c.activeBuffer, images`addressCache
    ensures AllValid(c, images) && Answers(r, e)
    ensures JointNext(c.enablePerDriver, old(ViewOf(c, images)), e, ViewOf(c, images))
  {
    hide Step, Asks, JointNext, PerfCollector.Valid, PerfCollector.View, Images.ImageManager.Valid,
         Images.ImageManager.View, ResolverOf, LookedUp;
    ghost var s := ViewOf(c, images);
    ghost var event;
    ghost var asked;
    if r.DpcRaised? {
      ghost var answer := c.ProcessDPCEvent(r.cpu, r.eventTime, r.initialTime, r.routineAddress, images);
      asked := answer;
      event := DpcSeen(r.cpu, r.eventTime, r.initialTime, r.routineAddress, ResolverOf(asked));
    } else {
      ghost var answer := c.ProcessCSwitchEvent(r.cpu, r.eventTime, images);
      asked := answer;
      event := Switched(r.cpu, r.eventTime, ResolverOf(asked));
    }
    AskedStep(c.enablePerDriver, s, event, asked, ViewOf(c, images));
    e := JointEvent(Some(event), LookedUp(s.cpu.active, event, asked));
  }

  method HandleIsr(c: PerfCollector, images: Images.ImageManager, r: Request) returns (ghost e: JointEvent)
    requires AllValid(c, images) && r.IsrRaised?
    modifies c.activeBuffer
    ensures AllValid(c, images) && Answers(r, e)
    ensures JointNext(c.enablePerDriver, old(ViewOf(c, images)), e, ViewOf(c, images))
  {
    hide Step, PerfCollector.View, Images.ImageManager.Valid, Images.ImageManager.View;
    c.ProcessISREvent(r.cpu, r.vector, r.initialTime, r.routineAddress);
    e := JointEvent(Some(IsrSeen(r.cpu, r.vector, r.initialTime, r.routineAddress)), None);
  }

  method HandleScrape(c: PerfCollector, images: Images.ImageManager) returns (ghost e: JointEvent)
    requires AllValid(c, images)
    modifies c, c.buffers
    ensures AllValid(c, images) && Answers(Scraped, e) && fresh(c.buffers - old(c.buffers))
    ensures JointNext(c.enablePerDriver, old(ViewOf(c, images)), e, ViewOf(c, images))
  {
    hide Step, PerfCollector.View, Images.ImageManager.Valid, Images.ImageManager.View, Images.CleanedNames;
    c.Collect(images);
    e := JointEvent(Some(Collected(Images.CleanedNames(images.View()))), None);
  }

  method HandleImages(c: PerfCollector, images: Images.ImageManager, r: Request) returns (ghost e: JointEvent)
    requires AllValid(c, images) && r.OfImages?
    modifies images, images.records
    ensures AllValid(c, images) && Answers(r, e) && fresh(images.records - old(images.records))
    ensures JointNext(c.enablePerDriver, old(ViewOf(c, images)), e, ViewOf(c, images))
  {
    hide Step, PerfCollector.View, Images.ImageManager.Valid, Images.ImageManager.View, Images.Next, Images.SameRequest;
    ghost var fired := images.Handle(r.event);
    e := JointEvent(None, Some(fired));
  }

  method HandleRequest(c: PerfCollector, images: Images.ImageManager, r: Request) returns (ghost e: JointEvent)
    requires AllValid(c, images)
    modifies c, c.buffers, images, images.records
    ensures AllValid(c, images) && Answers(r, e)
    ensures fresh(c.buffers - old(c.buffers)) && fresh(images.records - old(images.records))
    ensures JointNext(c.enablePerDriver, old(ViewOf(c, images)), e, ViewOf(c, images))
  {
    ActiveIsKnown(c, images);
    hide AllValid, ViewOf, JointNext;
    match r
    case DpcRaised(_, _, _, _) => e := HandleDpc(c, images, r);
    case ContextSwitched(_, _) => e := HandleDpc(c, images, r);
    case IsrRaised(_, _, _, _) => e := HandleIsr(c, images, r);
    case Scraped => e := HandleScrape(c, images);
    case OfImages(_) => e := HandleImages(c, images, r);
  }

  /** Any sequence of requests drives collector and image manager along a joint run. */
  method Drive(c: PerfCollector, images: Images.ImageManager, requests: seq<Request>)
    returns (ghost states: seq<JointState>, ghost fired: seq<JointEvent>)
    requires AllValid(c, images) && ViewOf(c, images) == JointState(Init(), Images.Init())
    modifies c, c.buffers, images, images.records
    ensures |fired| == |requests| && forall i | 0 <= i < |requests| :: Answers(requests[i], fired[i])
    ensures IsJointRun(c.enablePerDriver, states, fired)
    ensures AllValid(c, images) && ViewOf(c, images) == states[|fired|]
  {
    hide AllValid, ViewOf, JointNext, Answers, Init, Images.Init;
    states, fired := [ViewOf(c, images)], [];
    for i := 0 to |requests|
      invariant AllValid(c, images)
      invariant fresh(c.buffers - old(c.buffers)) && fresh(images.records - old(images.records))
      invariant |fired| == i && forall j | 0 <= j < i :: Answers(requests[j], fired[j])
      invariant |states| == i + 1 && states[i] == ViewOf(c, images) && IsJointRun(c.enablePerDriver, states, fired)
    {
      ghost var e := HandleRequest(c, images, requests[i]);
      fired := fired + [e];
      states := states + [ViewOf(c, images)];
    }
  }

  lemma ActiveIsKnown(c: PerfCollector, images: Images.ImageManager)
    requires AllValid(c, images)
    ensures c.activeBuffer in c.buffers
  {
  }
}
