/**
 The interrupt metrics of the perf collector as a state machine: ISRs that
 wait for their DPC, DPCs that wait for their end, and the buffers that are
 swapped and merged at each scrape. Times are nanoseconds, latencies and
 durations whole microseconds.
 */
module Interrupts {
  import opened Histograms
  import opened ScrapeClock
  import opened Tallies
  import opened Words

  const LATENCY_BOUNDS: seq<nat> := [1, 5, 25, 125, 625, 3125, 15625, 78125, 390625, 1953125, 9765625]
  const DURATION_BOUNDS: seq<nat> := [1, 5, 25, 125, 625, 3125, 15625, 78125, 390625, 1953125, 9765625, 48828125]
  const MICROSECOND := 1_000
  const HOUR := 3_600_000_000_000
  const MAX_ISR_AGE := 10_000_000
  const UNKNOWN_DRIVER := "unknown"

  datatype Isr = Isr(initialTime: int, routineAddress: uint64, vector: uint16)

  datatype PendingDpc = PendingDpc(initialTime: int, routineAddress: uint64)

  datatype Buffer = Buffer(
    lastDpcPerCpu: map<uint16, PendingDpc>,
    pendingIsrs: map<uint16, seq<Isr>>,
    latency: Histogram,
    durations: map<string, Histogram>,
    queued: map<uint16, nat>,
    executed: map<uint16, nat>)

  datatype Totals = Totals(
    queued: map<uint16, nat>,
    executed: map<uint16, nat>,
    latency: Histogram,
    durations: map<string, Histogram>)

  datatype State = State(active: Buffer, totals: Totals)

  function NewBuffer(): Buffer {
    Buffer(map[], map[], Histogram(map bound | bound in LATENCY_BOUNDS :: 0, 0, 0), map[], map[], map[])
  }

  function Init(): State {
    State(NewBuffer(), Totals(map[], map[], EMPTY, map[]))
  }

  /** The driver an address belongs to, as the image table answers at that moment. */
  type Resolver = uint64 -> string

  datatype Event =
    | IsrSeen(cpu: uint16, vector: uint16, initialTime: int, routineAddress: uint64)
    | DpcSeen(cpu: uint16, eventTime: int, initialTime: int, routineAddress: uint64, resolve: Resolver)
    | Switched(cpu: uint16, eventTime: int, resolve: Resolver)
    | Collected(cleanedImages: set<string>)

  function IsrsOn(b: Buffer, cpu: uint16): seq<Isr> {
    if cpu in b.pendingIsrs then b.pendingIsrs[cpu] else []
  }

  // ---- which ISR a DPC answers ----

  /** How long before the DPC the ISR came, if that is a possible match. */
  function Gap(isr: Isr, dpcTime: int): int {
    dpcTime - isr.initialTime
  }

  predicate Eligible(isr: Isr, dpcTime: int) {
    0 <= Gap(isr, dpcTime) < HOUR
  }

  /** The index of the closest eligible ISR, the first of several equally close; -1 if there is none. */
  function Closest(isrs: seq<Isr>, dpcTime: int): (best: int)
    ensures -1 <= best < |isrs|
  {
    if isrs == [] then -1
    else
      var last := |isrs| - 1;
      var best := Closest(isrs[..last], dpcTime);
      if 0 <= Gap(isrs[last], dpcTime) < (if best == -1 then HOUR else Gap(isrs[best], dpcTime)) then last else best
  }

  lemma {:induction false} ClosestExact(isrs: seq<Isr>, dpcTime: int)
    ensures var best := Closest(isrs, dpcTime);
            && (best == -1 <==> forall i | 0 <= i < |isrs| :: !Eligible(isrs[i], dpcTime))
            && (best != -1 ==>
                  && Eligible(isrs[best], dpcTime)
                  && (forall i | 0 <= i < |isrs| && Eligible(isrs[i], dpcTime) ::
                        Gap(isrs[best], dpcTime) <= Gap(isrs[i], dpcTime))
                  && (forall i | 0 <= i < best && Eligible(isrs[i], dpcTime) ::
                        Gap(isrs[best], dpcTime) < Gap(isrs[i], dpcTime)))
  {
    if isrs != [] {
      var last := |isrs| - 1;
      ClosestExact(isrs[..last], dpcTime);
      assert forall i | 0 <= i < last :: isrs[i] == isrs[..last][i];
    }
  }

  /** Takes one element out of the list; the last one takes its place. */
  function SwapRemove(isrs: seq<Isr>, i: nat): seq<Isr>
    requires i < |isrs|
  {
    isrs[i := isrs[|isrs| - 1]][..|isrs| - 1]
  }

  /** Exactly that one is gone, once. */
  lemma SwapRemoveExact(isrs: seq<Isr>, i: nat)
    requires i < |isrs|
    ensures multiset(SwapRemove(isrs, i)) == multiset(isrs) - multiset{isrs[i]}
  {
    var last := |isrs| - 1;
    assert isrs == isrs[..last] + [isrs[last]];
    if i < last {
      var head := isrs[..last];
      assert head == head[..i] + [isrs[i]] + head[i + 1..];
      assert SwapRemove(isrs, i) == head[..i] + [isrs[last]] + head[i + 1..];
    } else {
      assert SwapRemove(isrs, i) == isrs[..last];
    }
  }

  // ---- steps ----

  function LatencyMicros(isr: Isr, dpcTime: int): int {
    TruncDiv(Gap(isr, dpcTime), MICROSECOND)
  }

  function Correlated(b: Buffer, cpu: uint16, dpcTime: int): Buffer {
    var isrs := IsrsOn(b, cpu);
    var i := Closest(isrs, dpcTime);
    if i == -1 then b
    else
      b.(latency := Recorded(b.latency, LATENCY_BOUNDS, LatencyMicros(isrs[i], dpcTime)),
         pendingIsrs := b.pendingIsrs[cpu := SwapRemove(isrs, i)])
  }

  function HistogramOf(histograms: map<string, Histogram>, name: string): Histogram {
    if name in histograms then histograms[name] else EMPTY
  }

  function DurationRecorded(b: Buffer, name: string, micros: int): Buffer {
    b.(durations := b.durations[name := Recorded(HistogramOf(b.durations, name), DURATION_BOUNDS, micros)])
  }

  function DurationMicros(dpc: PendingDpc, endTime: int): int {
    TruncDiv(endTime - dpc.initialTime, MICROSECOND)
  }

  /** Counts an executed DPC and, for a known driver, its duration. */
  function CountedAndTimed(perDriver: bool, b: Buffer, cpu: uint16, dpc: PendingDpc, endTime: int, resolve: Resolver)
    : Buffer
  {
    var counted := b.(executed := b.executed[cpu := CountAt(b.executed, cpu) + 1]);
    var driver := resolve(dpc.routineAddress);
    if perDriver && driver != UNKNOWN_DRIVER then DurationRecorded(counted, driver, DurationMicros(dpc, endTime))
    else counted
  }

  /** Ends the pending DPC of the CPU, if there is one. */
  function Finalized(perDriver: bool, b: Buffer, cpu: uint16, endTime: int, resolve: Resolver): Buffer {
    if cpu !in b.lastDpcPerCpu then b
    else
      var dpc := b.lastDpcPerCpu[cpu];
      var matched := Correlated(CountedAndTimed(perDriver, b, cpu, dpc, endTime, resolve), cpu, dpc.initialTime);
      matched.(lastDpcPerCpu := matched.lastDpcPerCpu - {cpu})
  }

  predicate IsOld(isr: Isr, now: int) {
    now - isr.initialTime > MAX_ISR_AGE
  }

  /** The ISRs that are not too old, in their order. */
  function Surviving(isrs: seq<Isr>, now: int): seq<Isr> {
    if isrs == [] then []
    else
      var last := |isrs| - 1;
      Surviving(isrs[..last], now) + if IsOld(isrs[last], now) then [] else [isrs[last]]
  }

  function CountOld(isrs: seq<Isr>, now: int): nat {
    if isrs == [] then 0
    else
      var last := |isrs| - 1;
      CountOld(isrs[..last], now) + if IsOld(isrs[last], now) then 1 else 0
  }

  lemma {:induction false} AgingSplits(isrs: seq<Isr>, now: int)
    ensures |Surviving(isrs, now)| + CountOld(isrs, now) == |isrs|
    ensures forall isr :: isr in Surviving(isrs, now) <==> isr in isrs && !IsOld(isr, now)
  {
    if isrs != [] {
      var last := |isrs| - 1;
      AgingSplits(isrs[..last], now);
      assert isrs == isrs[..last] + [isrs[last]];
    }
  }

  function AgedOut(b: Buffer, now: int): Buffer {
    b.(pendingIsrs := map cpu | cpu in b.pendingIsrs && Surviving(b.pendingIsrs[cpu], now) != [] ::
         Surviving(b.pendingIsrs[cpu], now))
  }

  /** Old ISRs are looked for only when the number of CPUs with a list is a multiple of 100. */
  predicate AgesOut(b: Buffer) {
    |b.pendingIsrs| % 100 == 0
  }

  function Queued(b: Buffer, cpu: uint16, isr: Isr): Buffer {
    b.(queued := b.queued[cpu := CountAt(b.queued, cpu) + 1],
       pendingIsrs := b.pendingIsrs[cpu := IsrsOn(b, cpu) + [isr]])
  }

  function IsrStep(b: Buffer, cpu: uint16, isr: Isr): Buffer {
    var queued := Queued(b, cpu, isr);
    if AgesOut(queued) then AgedOut(queued, isr.initialTime) else queued
  }

  function DpcStep(perDriver: bool, b: Buffer, cpu: uint16, eventTime: int, dpc: PendingDpc, resolve: Resolver)
    : Buffer
  {
    var ended := Finalized(perDriver, b, cpu, eventTime, resolve);
    ended.(lastDpcPerCpu := ended.lastDpcPerCpu[cpu := dpc])
  }

  function MergedDurations(totals: map<string, Histogram>, more: map<string, Histogram>): map<string, Histogram> {
    map name | name in totals.Keys + more.Keys :: Merged(HistogramOf(totals, name), HistogramOf(more, name))
  }

  function MergedTotals(t: Totals, b: Buffer, cleanedImages: set<string>): Totals {
    Totals(SumCounts(t.queued, b.queued), SumCounts(t.executed, b.executed), Merged(t.latency, b.latency),
           MergedDurations(t.durations, b.durations) - cleanedImages)
  }

  function Step(perDriver: bool, s: State, e: Event): State {
    match e
    case IsrSeen(cpu, vector, initialTime, routineAddress) =>
      s.(active := IsrStep(s.active, cpu, Isr(initialTime, routineAddress, vector)))
    case DpcSeen(cpu, eventTime, initialTime, routineAddress, resolve) =>
      s.(active := DpcStep(perDriver, s.active, cpu, eventTime, PendingDpc(initialTime, routineAddress), resolve))
    case Switched(cpu, eventTime, resolve) => s.(active := Finalized(perDriver, s.active, cpu, eventTime, resolve))
    case Collected(cleanedImages) => State(NewBuffer(), MergedTotals(s.totals, s.active, cleanedImages))
  }

  /** The state after a run of events. */
  ghost function After(perDriver: bool, events: seq<Event>): State {
    if events == [] then Init() else Step(perDriver, After(perDriver, events[..|events| - 1]), events[|events| - 1])
  }
}
