/**
 The event route table: per provider a growing slice for low event ids and a
 map for the others, and the two-stage dispatch of events over it.
 */
module RouteTable {
  import opened Tallies
  import opened Words

  const MAX_SLICE_EVENT_ID: uint16 := 256
  const CSWITCH_OPCODE: uint8 := 36

  datatype Guid = ThreadKernel | SystemScheduler | RegistryKernel | SystemRegistry | Provider(id: nat)

  datatype Counter =
    | DiskEvents | ProcessEvents | ThreadEvents | FileEvents | PerfInfoEvents | SystemConfigEvents
    | ImageEvents | PageFaultEvents | NetworkEvents | RegistryEvents | SessionWatcherEvents

  /** A route holds a prepared or a raw handler, or nothing; handlers are told apart by number. */
  datatype HandlerUnion = NoHandler | Prepared(handler: nat) | Raw(handler: nat)

  /** The handlers of one provider. */
  class ProviderHandlers {
    var slice: array<HandlerUnion>
    var overflowMap: map<uint16, HandlerUnion>

    /** What a lookup of the event id finds. */
    ghost function At(eventId: uint16): HandlerUnion
      reads this, slice
    {
      if eventId < MAX_SLICE_EVENT_ID then (if eventId < slice.Length then slice[eventId] else NoHandler)
      else if eventId in overflowMap then overflowMap[eventId]
      else NoHandler
    }

    constructor ()
      ensures fresh(slice) && forall eventId :: At(eventId) == NoHandler
    {
      slice := new HandlerUnion[0];
      overflowMap := map[];
    }

    method Get(eventId: uint16) returns (handler: HandlerUnion)
      ensures handler == At(eventId)
    {
      if eventId < MAX_SLICE_EVENT_ID {
        if eventId < slice.Length {
          return slice[eventId];
        }
        return NoHandler;
      }
      if eventId in overflowMap {
        return overflowMap[eventId];
      }
      return NoHandler;
    }

    /** Grows the slice as far as needed; no other route changes. */
    method Set(eventId: uint16, handler: HandlerUnion)
      modifies this, slice
      ensures slice == old(slice) || fresh(slice)
      ensures At(eventId) == handler
      ensures forall other | other != eventId :: At(other) == old(At(other))
    {
      if eventId < MAX_SLICE_EVENT_ID {
        if eventId >= slice.Length {
          var newSlice := new HandlerUnion[eventId + 1](_ => NoHandler);
          for i := 0 to slice.Length
            invariant slice == old(slice) && slice[..] == old(slice[..]) && overflowMap == old(overflowMap)
            invariant forall j | 0 <= j < i :: newSlice[j] == slice[j]
            invariant forall j | i <= j < newSlice.Length :: newSlice[j] == NoHandler
          {
            newSlice[i] := slice[i];
          }
          slice := newSlice;
        }
        slice[eventId] := handler;
      } else {
        overflowMap := overflowMap[eventId := handler];
      }
    }
  }

  /** One call that an event leads to. */
  datatype Invocation = ThreadSwitch | PerfSwitch | RegistryEvent | Routed(handler: nat)

  datatype Record = Record(provider: Guid, opcode: uint8, eventId: uint16)

  predicate IsContextSwitch(e: Record) {
    (e.provider == ThreadKernel || e.provider == SystemScheduler) && e.opcode == CSWITCH_OPCODE
  }

  predicate IsRegistryEvent(e: Record) {
    e.provider == RegistryKernel || e.provider == SystemRegistry
  }

  type Routes = map<(Guid, uint16), HandlerUnion>

  /** The last handler registered. */
  function RouteOf(registered: Routes, provider: Guid, eventId: uint16): HandlerUnion {
    if (provider, eventId) in registered then registered[(provider, eventId)] else NoHandler
  }

  /** The one counter an event belongs to, if it belongs to one. */
  function CounterOf(guidToCounter: map<Guid, Counter>, e: Record): Option<Counter> {
    if IsContextSwitch(e) then Some(ThreadEvents)
    else if IsRegistryEvent(e) then Some(RegistryEvents)
    else if e.provider in guidToCounter then Some(guidToCounter[e.provider])
    else None
  }

  function Incremented(counters: map<Counter, nat>, c: Option<Counter>): map<Counter, nat> {
    match c
    case Some(counter) => counters[counter := CountAt(counters, counter) + 1]
    case None => counters
  }

  /** The calls an event leads to. */
  function Invocations(registered: Routes, hasThread: bool, hasPerf: bool, hasRegistry: bool, e: Record)
    : seq<Invocation>
  {
    if IsContextSwitch(e) then (if hasThread then [ThreadSwitch] else []) + if hasPerf then [PerfSwitch] else []
    else if IsRegistryEvent(e) then (if hasRegistry then [RegistryEvent] else [])
    else
      match RouteOf(registered, e.provider, e.eventId)
      case NoHandler => []
      case Prepared(handler) => [Routed(handler)]
      case Raw(handler) => [Routed(handler)]
  }

  /** Exactly one counter grows, by one. */
  predicate GrowsByOne(before: map<Counter, nat>, after: map<Counter, nat>, c: Counter) {
    && after.Keys == before.Keys + {c} && (forall d | d in before && d != c :: after[d] == before[d])
    && after[c] == (if c in before then before[c] else 0) + 1
  }

  /**
   What becomes of an event. Opcode 36 of the two thread providers is counted under threads and goes to
   the thread handler and then to the perf handler, as far as there are such. Any event of the two
   registry providers is counted under registry and goes to the registry handler. All others are counted
   under their provider's counter, if it has one, and go to the handler registered for them, if there is one.
   */
  predicate Dispatches(registered: Routes, guidToCounter: map<Guid, Counter>,
                       hasThread: bool, hasPerf: bool, hasRegistry: bool, e: Record,
                       before: map<Counter, nat>, after: map<Counter, nat>, calls: seq<Invocation>)
  {
    if e.opcode == 36 && (e.provider == ThreadKernel || e.provider == SystemScheduler) then
      && GrowsByOne(before, after, ThreadEvents)
      && calls == (if hasThread && hasPerf then [ThreadSwitch, PerfSwitch] else if hasThread then [ThreadSwitch]
                   else if hasPerf then [PerfSwitch] else [])
    else if e.provider == RegistryKernel || e.provider == SystemRegistry then
      GrowsByOne(before, after, RegistryEvents) && calls == if hasRegistry then [RegistryEvent] else []
    else
      && (if e.provider in guidToCounter then GrowsByOne(before, after, guidToCounter[e.provider]) else after == before)
      && var route := if (e.provider, e.eventId) in registered then registered[(e.provider, e.eventId)] else NoHandler;
         calls == if route == NoHandler then [] else [Routed(route.handler)]
  }

  lemma DispatchExact(registered: Routes, guidToCounter: map<Guid, Counter>,
                      hasThread: bool, hasPerf: bool, hasRegistry: bool, e: Record, counters: map<Counter, nat>)
    ensures Dispatches(registered, guidToCounter, hasThread, hasPerf, hasRegistry, e, counters,
                       Incremented(counters, CounterOf(guidToCounter, e)),
                       Invocations(registered, hasThread, hasPerf, hasRegistry, e))
  {
  }

  lemma RouteAdded(registered: Routes, provider: Guid, eventId: uint16, handler: HandlerUnion, g: Guid, id: uint16)
    ensures RouteOf(registered[(provider, eventId) := handler], g, id)
            == if g == provider && id == eventId then handler else RouteOf(registered, g, id)
  {
  }

  class EventHandler {
    var routeMap: map<Guid, ProviderHandlers>
    const guidToCounter: map<Guid, Counter>
    var counters: map<Counter, nat>
    var threadHandler: bool
    var perfinfoHandler: bool
    var registryHandler: bool
    ghost var registered: Routes

    ghost function Slices(): set<array<HandlerUnion>>
      reads this, routeMap.Values
    {
      set g | g in routeMap :: routeMap[g].slice
    }

    /** The table answers every lookup with the last handler registered. */
    ghost predicate Valid()
      reads this, routeMap.Values, Slices()
    {
      && (forall g, h | g in routeMap && h in routeMap && g != h ::
            routeMap[g] != routeMap[h] && routeMap[g].slice != routeMap[h].slice)
      && (forall g, eventId: uint16 | g in routeMap :: routeMap[g].At(eventId) == RouteOf(registered, g, eventId))
      && (forall g, eventId: uint16 | g !in routeMap :: RouteOf(registered, g, eventId) == NoHandler)
    }

    constructor (guidToCounter: map<Guid, Counter>)
      ensures Valid() && registered == map[] && counters == map[] && this.guidToCounter == guidToCounter
      ensures fresh(Slices()) && routeMap == map[]
    {
      this.guidToCounter := guidToCounter;
      routeMap, counters := map[], map[];
      threadHandler, perfinfoHandler, registryHandler := false, false, false;
      registered := map[];
    }

    method AddProvider(provider: Guid)
      requires Valid() && provider !in routeMap
      modifies this`routeMap
      ensures Valid() && provider in routeMap && routeMap == old(routeMap)[provider := routeMap[provider]]
      ensures fresh(routeMap[provider]) && fresh(routeMap[provider].slice)
    {
      var added := new ProviderHandlers();
      routeMap := routeMap[provider := added];
    }

    method SetRoute(provider: Guid, eventId: uint16, handler: HandlerUnion)
      requires Valid() && provider in routeMap
      modifies `registered, routeMap[provider], routeMap[provider].slice
      ensures Valid() && registered == old(registered)[(provider, eventId) := handler]
      ensures routeMap[provider].slice == old(routeMap[provider].slice) || fresh(routeMap[provider].slice)
    {
      hide RouteOf, ProviderHandlers.At;
      var routes := routeMap[provider];
      routes.Set(eventId, handler);
      assert forall g, id: uint16 | g in routeMap && g != provider :: routeMap[g].At(id) == old(routeMap[g].At(id));
      registered := registered[(provider, eventId) := handler];
      forall g, id: uint16
        ensures g in routeMap ==> routeMap[g].At(id) == RouteOf(registered, g, id)
        ensures g !in routeMap ==> RouteOf(registered, g, id) == NoHandler
      {
        RouteAdded(old(registered), provider, eventId, handler, g, id);
      }
    }

    /** Registering replaces one route and leaves all others. */
    method AddRoute(provider: Guid, eventId: uint16, handler: HandlerUnion)
      requires Valid()
      modifies this`routeMap, this`registered, routeMap.Values, Slices()
      ensures Valid() && registered == old(registered)[(provider, eventId) := handler]
      ensures fresh(routeMap.Values - old(routeMap.Values)) && fresh(Slices() - old(Slices()))
    {
      if provider !in routeMap {
        AddProvider(provider);
      }
      assert routeMap[provider] in routeMap.Values;
      SetRoute(provider, eventId, handler);
    }

    method Count(c: Option<Counter>)
      modifies this`counters
      ensures counters == Incremented(old(counters), c)
    {
      if c.Some? {
        counters := counters[c.value := CountAt(counters, c.value) + 1];
      }
    }

    /** First stage: fast paths and raw routes. Answers whether the event goes on to the second stage. */
    method EventRecordCallback(e: Record) returns (goesOn: bool, calls: seq<Invocation>)
      requires Valid()
      modifies this`counters
      ensures Valid()
      ensures goesOn <==> !IsContextSwitch(e) && !IsRegistryEvent(e) && !RouteOf(registered, e.provider, e.eventId).Raw?
      ensures goesOn ==> counters == old(counters) && calls == []
      ensures !goesOn ==>
                && counters == Incremented(old(counters), CounterOf(guidToCounter, e))
                && calls == Invocations(registered, threadHandler, perfinfoHandler, registryHandler, e)
    {
      goesOn, calls := false, [];
      if (e.provider == ThreadKernel || e.provider == SystemScheduler) && e.opcode == CSWITCH_OPCODE {
        Count(Some(ThreadEvents));
        if threadHandler {
          calls := calls + [ThreadSwitch];
        }
        if perfinfoHandler {
          calls := calls + [PerfSwitch];
        }
        return;
      }
      if e.provider == RegistryKernel || e.provider == SystemRegistry {
        Count(Some(RegistryEvents));
        if registryHandler {
          calls := calls + [RegistryEvent];
        }
        return;
      }
      if e.provider in routeMap {
        var handler := routeMap[e.provider].Get(e.eventId);
        if handler.Raw? {
          if e.provider in guidToCounter {
            Count(Some(guidToCounter[e.provider]));
          }
          calls := calls + [Routed(handler.handler)];
          return;
        }
      }
      goesOn := true;
    }

    /** Second stage: prepared routes. */
    method RouteEvent(e: Record) returns (calls: seq<Invocation>)
      requires Valid()
      modifies this`counters
      ensures Valid()
      ensures counters
              == Incremented(old(counters),
                             if e.provider in guidToCounter then Some(guidToCounter[e.provider]) else None)
      ensures calls == match RouteOf(registered, e.provider, e.eventId)
                       case Prepared(handler) => [Routed(handler)]
                       case _ => []
    {
      calls := [];
      if e.provider in guidToCounter {
        Count(Some(guidToCounter[e.provider]));
      }
      if e.provider in routeMap {
        var handler := routeMap[e.provider].Get(e.eventId);
        if handler.Prepared? {
          calls := [Routed(handler.handler)];
        }
      }
    }

    /** Both stages: the event is counted once, under its counter if it has one, and runs what is registered for it. */
    method Process(e: Record) returns (calls: seq<Invocation>)
      requires Valid()
      modifies this`counters
      ensures Valid()
      ensures counters == Incremented(old(counters), CounterOf(guidToCounter, e))
      ensures calls == Invocations(registered, threadHandler, perfinfoHandler, registryHandler, e)
      ensures Dispatches(registered, guidToCounter, threadHandler, perfinfoHandler, registryHandler, e,
                         old(counters), counters, calls)
    {
      hide Dispatches;
      DispatchExact(registered, guidToCounter, threadHandler, perfinfoHandler, registryHandler, e, counters);
      var goesOn, first := EventRecordCallback(e);
      calls := first;
      if goesOn {
        calls := RouteEvent(e);
      }
    }
  }

  // ---- what this means for runs ----

  /** The routes after a sequence of registrations. */
  function RegisteredBy(registrations: seq<(Guid, uint16, HandlerUnion)>): Routes {
    if registrations == [] then map[]
    else
      var (provider, eventId, handler) := registrations[|registrations| - 1];
      RegisteredBy(registrations[..|registrations| - 1])[(provider, eventId) := handler]
  }

  /**
   After any sequence of registrations a lookup finds the last handler registered for the very
   provider and event id.
   */
  method RegisterAll(h: EventHandler, registrations: seq<(Guid, uint16, HandlerUnion)>)
    requires h.Valid() && h.registered == map[]
    modifies h, h.routeMap.Values, h.Slices()
    ensures h.Valid() && h.registered == RegisteredBy(registrations)
  {
    for i := 0 to |registrations|
      invariant h.Valid() && h.registered == RegisteredBy(registrations[..i])
      invariant fresh(h.routeMap.Values - old(h.routeMap.Values)) && fresh(h.Slices() - old(h.Slices()))
    {
      assert registrations[..i + 1][..i] == registrations[..i];
      var (provider, eventId, handler) := registrations[i];
      h.AddRoute(provider, eventId, handler);
    }
    assert registrations[..|registrations|] == registrations;
  }

  lemma {:induction false} LastRegistrationWins(registrations: seq<(Guid, uint16, HandlerUnion)>, provider: Guid,
                                                eventId: uint16)
    ensures var r := RouteOf(RegisteredBy(registrations), provider, eventId);
            || (r == NoHandler && (provider, eventId) !in RegisteredBy(registrations)
                && forall i | 0 <= i < |registrations| ::
                     (registrations[i].0, registrations[i].1) != (provider, eventId))
            || exists i :: 0 <= i < |registrations| && registrations[i] == (provider, eventId, r)
                           && forall j | i < j < |registrations| ::
                                (registrations[j].0, registrations[j].1) != (provider, eventId)
  {
    if registrations != [] {
      var last := |registrations| - 1;
      LastRegistrationWins(registrations[..last], provider, eventId);
      if (registrations[last].0, registrations[last].1) == (provider, eventId) {
        assert registrations[last] == (provider, eventId, registrations[last].2);
      } else {
        assert forall i | 0 <= i < last :: registrations[..last][i] == registrations[i];
      }
    }
  }

  function Total(counters: map<Counter, nat>): nat {
    CountAt(counters, DiskEvents) + CountAt(counters, ProcessEvents) + CountAt(counters, ThreadEvents)
    + CountAt(counters, FileEvents) + CountAt(counters, PerfInfoEvents) + CountAt(counters, SystemConfigEvents)
    + CountAt(counters, ImageEvents) + CountAt(counters, PageFaultEvents) + CountAt(counters, NetworkEvents)
    + CountAt(counters, RegistryEvents) + CountAt(counters, SessionWatcherEvents)
  }

  lemma CountOne(counters: map<Counter, nat>, c: Counter)
    ensures Total(Incremented(counters, Some(c))) == Total(counters) + 1
  {
    OnlyOneGrows(counters, c);
    hide CountAt, Incremented;
  }

  lemma OnlyOneGrows(counters: map<Counter, nat>, c: Counter)
    ensures forall d :: CountAt(Incremented(counters, Some(c)), d) == CountAt(counters, d) + if d == c then 1 else 0
  {
  }

  /** An event adds at most one to all the counters together, and runs at most one routed handler. */
  lemma AtMostOneCountAndRoute(counters: map<Counter, nat>, guidToCounter: map<Guid, Counter>, registered: Routes,
                               hasThread: bool, hasPerf: bool, hasRegistry: bool, e: Record)
    ensures Total(Incremented(counters, CounterOf(guidToCounter, e)))
            == Total(counters) + if CounterOf(guidToCounter, e).Some? then 1 else 0
    ensures var calls := Invocations(registered, hasThread, hasPerf, hasRegistry, e);
            && |calls| <= 2
            && (forall i, j | 0 <= i < j < |calls| :: !(calls[i].Routed? && calls[j].Routed?))
            && (forall call | call in calls && call.Routed? ::
                  !IsContextSwitch(e) && !IsRegistryEvent(e)
                  && RouteOf(registered, e.provider, e.eventId) in {Prepared(call.handler), Raw(call.handler)})
  {
    hide Total;
    if CounterOf(guidToCounter, e).Some? {
      CountOne(counters, CounterOf(guidToCounter, e).value);
    }
  }
}
