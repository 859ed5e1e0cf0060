/** The perf collector as objects: an active metrics buffer, swapped at each scrape with a clean one from a pool. */
module PerfCollectors {
  import opened Histograms
  import opened Interrupts
  import opened ScrapeClock
  import opened Tallies
  import opened Words
  import Images

  type ImageState = Images.State<Images.ImageInfo?>

  /** What the image manager was asked for while a DPC ended, if it was: the scan's answer, and the driver's name. */
  datatype Asked = NotAsked | Asked(found: Option<Images.ImageInfo?>, driver: string)

  /** The address table that the answer stands for. */
  function ResolverOf(asked: Asked): Resolver {
    (address: uint64) => if asked.Asked? then asked.driver else UNKNOWN_DRIVER
  }

  /** The name of the image that a lookup answers with. */
  ghost function DriverName(s: ImageState, address: uint64, found: Option<Images.ImageInfo?>): string {
    match Images.Lookup(s, address, found).0
    case Some(o) => if o in s.heap then s.heap[o].name else UNKNOWN_DRIVER
    case None => UNKNOWN_DRIVER
  }

  /** The answer is the image manager's, for this address at this moment. */
  ghost predicate IsAnswer(asked: Asked, address: uint64, before: ImageState, after: ImageState) {
    && asked.Asked? && Images.Next(before, Images.AddressLookedUp(address, asked.found), after)
    && asked.driver == DriverName(before, address, asked.found)
  }

  /** The image manager is asked exactly if a DPC ends and durations are kept by driver. */
  ghost predicate Asks(perDriver: bool, b: Buffer, cpu: uint16, asked: Asked, before: ImageState, after: ImageState) {
    if perDriver && cpu in b.lastDpcPerCpu then IsAnswer(asked, b.lastDpcPerCpu[cpu].routineAddress, before, after)
    else asked == NotAsked && after == before
  }

  lemma ViewedRecords(images: Images.ImageManager)
    requires images.Valid()
    ensures forall o | o in images.View().heap :: o != null && images.View().heap[o] == o.View()
  {
  }

  class MetricsBuffer {
    var lastDpcPerCpu: map<uint16, PendingDpc>
    var pendingIsrs: map<uint16, seq<Isr>>
    var latency: Histogram
    var durations: map<string, Histogram>
    var queued: map<uint16, nat>
    var executed: map<uint16, nat>

    ghost function View(): Buffer
      reads this
    {
      Buffer(lastDpcPerCpu, pendingIsrs, latency, durations, queued, executed)
    }

    constructor ()
      ensures View() == NewBuffer()
    {
      lastDpcPerCpu, pendingIsrs, durations := map[], map[], map[];
      latency := NewBuffer().latency;
      queued, executed := map[], map[];
    }

    /** Back to a new buffer's contents. */
    method Reset()
      modifies this
      ensures View() == NewBuffer()
    {
      lastDpcPerCpu, pendingIsrs, durations := map[], map[], map[];
      latency := NewBuffer().latency;
      queued, executed := map[], map[];
    }

    method QueueIsr(cpu: uint16, isr: Isr)
      modifies this
      ensures View() == Queued(old(View()), cpu, isr)
    {
      queued := queued[cpu := CountAt(queued, cpu) + 1];
      pendingIsrs := pendingIsrs[cpu := (if cpu in pendingIsrs then pendingIsrs[cpu] else []) + [isr]];
    }

    /** Scans the CPU's list for the closest earlier ISR, and takes it off the list. */
    method CorrelateISR(cpu: uint16, dpcInitialTime: int)
      modifies this
      ensures View() == Correlated(old(View()), cpu, dpcInitialTime)
    {
      var matchedIndex := -1;
      var closestTime := HOUR;
      if cpu in pendingIsrs {
        var isrsOnCpu := pendingIsrs[cpu];
        for i := 0 to |isrsOnCpu|
          invariant matchedIndex == Closest(isrsOnCpu[..i], dpcInitialTime)
          invariant closestTime == if matchedIndex == -1 then HOUR else Gap(isrsOnCpu[matchedIndex], dpcInitialTime)
        {
          assert isrsOnCpu[..i + 1][..i] == isrsOnCpu[..i];
          var timeDiff := dpcInitialTime - isrsOnCpu[i].initialTime;
          if timeDiff >= 0 && timeDiff < closestTime {
            closestTime := timeDiff;
            matchedIndex := i;
          }
        }
        assert isrsOnCpu[..|isrsOnCpu|] == isrsOnCpu;
      }
      if matchedIndex != -1 {
        var latencyMicros := TruncDiv(closestTime, MICROSECOND);
        latency := Record(latency, LATENCY_BOUNDS, latencyMicros);
        var isrsOnCpu := pendingIsrs[cpu];
        isrsOnCpu := isrsOnCpu[matchedIndex := isrsOnCpu[|isrsOnCpu| - 1]];
        pendingIsrs := pendingIsrs[cpu := isrsOnCpu[..|isrsOnCpu| - 1]];
      }
    }

    method RecordDPCDuration(driverName: string, durationMicros: int)
      modifies this`durations
      ensures View() == DurationRecorded(old(View()), driverName, durationMicros)
    {
      var hd := EMPTY;
      if driverName in durations {
        hd := durations[driverName];
      }
      hd := Record(hd, DURATION_BOUNDS, durationMicros);
      durations := durations[driverName := hd];
    }

    /** The name of the loaded image that covers the routine. */
    method ResolveDriverName(images: Images.ImageManager, routineAddress: uint64)
      returns (driverName: string, ghost asked: Asked)
      requires images.Valid()
      modifies images`addressCache
      ensures images.Valid() && IsAnswer(asked, routineAddress, old(images.View()), images.View())
      ensures driverName == ResolverOf(asked)(routineAddress)
    {
      hide Images.Inv, Images.Lookup, Images.IsScanResult, Images.ImageManager.Heap, Images.Covers, Images.Mapped;
      ViewedRecords(images);
      ghost var s := images.View();
      driverName := UNKNOWN_DRIVER;
      var imageInfo, found := images.GetImageForAddress(routineAddress);
      Images.LookupFindsExactly(s, routineAddress, found);
      if imageInfo != null {
        driverName := imageInfo.imageName;
      }
      asked := Asked(found, driverName);
    }

    /** Counts an ended DPC and times it, under the name that its driver's image has at this moment. */
    method CountAndTime(perDriver: bool, cpu: uint16, dpc: PendingDpc, endTime: int, images: Images.ImageManager)
      returns (ghost asked: Asked)
      requires images.Valid()
      modifies this`executed, this`durations, images`addressCache
      ensures images.Valid()
      ensures if perDriver then IsAnswer(asked, dpc.routineAddress, old(images.View()), images.View())
              else asked == NotAsked && images.View() == old(images.View())
      ensures View() == CountedAndTimed(perDriver, old(View()), cpu, dpc, endTime, ResolverOf(asked))
    {
      hide IsAnswer, ResolverOf, Recorded, TruncDiv, Images.ImageManager.Valid, Images.ImageManager.View;
      asked := NotAsked;
      executed := executed[cpu := CountAt(executed, cpu) + 1];
      if perDriver {
        var driverName, answer := ResolveDriverName(images, dpc.routineAddress);
        asked := answer;
        if driverName != UNKNOWN_DRIVER {
          RecordDPCDuration(driverName, TruncDiv(endTime - dpc.initialTime, MICROSECOND));
        }
      }
    }

    /** Ends the pending DPC of the CPU: counted, timed, matched with its ISR, and no longer pending. */
    method FinalizeAndClearPendingDPC(perDriver: bool, cpu: uint16, endTime: int, images: Images.ImageManager)
      returns (ghost asked: Asked)
      requires images.Valid()
      modifies this, images`addressCache
      ensures images.Valid() && Asks(perDriver, old(View()), cpu, asked, old(images.View()), images.View())
      ensures View() == Finalized(perDriver, old(View()), cpu, endTime, ResolverOf(asked))
    {
      hide Correlated, CountedAndTimed, IsAnswer, ResolverOf, Images.ImageManager.Valid, Images.ImageManager.View;
      asked := NotAsked;
      if cpu in lastDpcPerCpu {
        var lastDpc := lastDpcPerCpu[cpu];
        ghost var timed := CountAndTime(perDriver, cpu, lastDpc, endTime, images);
        asked := timed;
        CorrelateISR(cpu, lastDpc.initialTime);
        lastDpcPerCpu := lastDpcPerCpu - {cpu};
      }
    }

    /** Drops the ISRs older than 10 ms, and the lists that become empty. */
    method CleanupOldISRs(currentTime: int)
      modifies this`pendingIsrs
      ensures View() == AgedOut(old(View()), currentTime)
    {
      ghost var all := pendingIsrs;
      var todo := pendingIsrs.Keys;
      while todo != {}
        invariant todo <= pendingIsrs.Keys <= all.Keys
        invariant forall cpu | cpu in todo :: pendingIsrs[cpu] == all[cpu]
        invariant forall cpu | cpu in all && cpu !in todo ::
                    cpu in pendingIsrs <==> Surviving(all[cpu], currentTime) != []
        invariant forall cpu | cpu in pendingIsrs && cpu !in todo ::
                    pendingIsrs[cpu] == Surviving(all[cpu], currentTime)
      {
        var cpu :| cpu in todo;
        todo := todo - {cpu};
        var isrs := pendingIsrs[cpu];
        var surviving := [];
        for i := 0 to |isrs|
          invariant surviving == Surviving(isrs[..i], currentTime)
        {
          assert isrs[..i + 1][..i] == isrs[..i];
          if currentTime - isrs[i].initialTime <= MAX_ISR_AGE {
            surviving := surviving + [isrs[i]];
          }
        }
        assert isrs[..|isrs|] == isrs;
        if |surviving| > 0 {
          pendingIsrs := pendingIsrs[cpu := surviving];
        } else {
          pendingIsrs := pendingIsrs - {cpu};
        }
      }
      assert pendingIsrs == AgedOut(old(View()), currentTime).pendingIsrs;
    }
  }

  method MergeDurations(totals: map<string, Histogram>, more: map<string, Histogram>)
    returns (merged: map<string, Histogram>)
    ensures merged == MergedDurations(totals, more)
  {
    hide Merged;
    merged := totals;
    var todo := more.Keys;
    while todo != {}
      invariant todo <= more.Keys && merged.Keys == totals.Keys + (more.Keys - todo)
      invariant forall name | name in merged ::
                  merged[name] == if name in more && name !in todo then Merged(HistogramOf(totals, name), more[name])
                                  else totals[name]
    {
      var name :| name in todo;
      todo := todo - {name};
      var totalHd := EMPTY;
      if name in merged {
        totalHd := merged[name];
      }
      totalHd := Merge(totalHd, more[name]);
      merged := merged[name := totalHd];
    }
    forall name | name in merged
      ensures merged[name] == Merged(HistogramOf(totals, name), HistogramOf(more, name))
    {
      if name !in more {
        MergedWithNothing(totals[name]);
      }
    }
  }

  lemma MergedWithNothing(h: Histogram)
    ensures Merged(h, EMPTY) == h
  {
  }

  class PerfCollector {
    const enablePerDriver: bool
    var activeBuffer: MetricsBuffer
    var bufferPool: multiset<MetricsBuffer>
    var totalDpcQueuedCount: map<uint16, nat>
    var totalDpcExecutedCount: map<uint16, nat>
    var totalIsrToDpcLatency: Histogram
    var totalDpcDurations: map<string, Histogram>
    ghost var buffers: set<MetricsBuffer>

    /** Pooled buffers are clean, pooled once, and never the active one. */
    ghost predicate Valid()
      reads this`activeBuffer, this`bufferPool, this`buffers, buffers
    {
      && activeBuffer in buffers
      && forall b | b in bufferPool ::
           b in buffers && b != activeBuffer && bufferPool[b] == 1 && b.View() == NewBuffer()
    }

    ghost function View(): State
      reads this, activeBuffer
    {
      State(activeBuffer.View(),
            Totals(totalDpcQueuedCount, totalDpcExecutedCount, totalIsrToDpcLatency, totalDpcDurations))
    }

    constructor (enablePerDriver: bool)
      ensures Valid() && View() == Init() && fresh(buffers) && this.enablePerDriver == enablePerDriver
    {
      this.enablePerDriver := enablePerDriver;
      activeBuffer := new MetricsBuffer();
      bufferPool := multiset{};
      totalDpcQueuedCount, totalDpcExecutedCount, totalDpcDurations := map[], map[], map[];
      totalIsrToDpcLatency := EMPTY;
      buffers := {activeBuffer};
    }

    method ProcessISREvent(cpu: uint16, vector: uint16, initialTime: int, routineAddress: uint64)
      requires Valid()
      modifies activeBuffer
      ensures Valid() && View() == Step(enablePerDriver, old(View()), IsrSeen(cpu, vector, initialTime, routineAddress))
    {
      hide Queued, AgedOut;
      activeBuffer.QueueIsr(cpu, Isr(initialTime, routineAddress, vector));
      if |activeBuffer.pendingIsrs| % 100 == 0 {
        activeBuffer.CleanupOldISRs(initialTime);
      }
    }

    method ProcessDPCEvent(cpu: uint16, eventTime: int, initialTime: int, routineAddress: uint64,
                           images: Images.ImageManager)
      returns (ghost asked: Asked)
      requires Valid() && images.Valid()
      modifies activeBuffer, images`addressCache
      ensures Valid() && images.Valid()
      ensures Asks(enablePerDriver, old(View()).active, cpu, asked, old(images.View()), images.View())
      ensures View() == Step(enablePerDriver, old(View()),
                             DpcSeen(cpu, eventTime, initialTime, routineAddress, ResolverOf(asked)))
    {
      hide Finalized, Asks, ResolverOf, Images.Inv;
      asked := activeBuffer.FinalizeAndClearPendingDPC(enablePerDriver, cpu, eventTime, images);
      activeBuffer.lastDpcPerCpu := activeBuffer.lastDpcPerCpu[cpu := PendingDpc(initialTime, routineAddress)];
    }

    method ProcessCSwitchEvent(cpu: uint16, eventTime: int, images: Images.ImageManager) returns (ghost asked: Asked)
      requires Valid() && images.Valid()
      modifies activeBuffer, images`addressCache
      ensures Valid() && images.Valid()
      ensures Asks(enablePerDriver, old(View()).active, cpu, asked, old(images.View()), images.View())
      ensures View() == Step(enablePerDriver, old(View()), Switched(cpu, eventTime, ResolverOf(asked)))
    {
      hide Finalized, Asks, ResolverOf, Images.Inv;
      asked := activeBuffer.FinalizeAndClearPendingDPC(enablePerDriver, cpu, eventTime, images);
    }

    /** A pooled buffer, any of them, or a new one; clean in either case. */
    method GetBuffer() returns (buffer: MetricsBuffer)
      requires Valid()
      modifies this`bufferPool, this`buffers
      ensures Valid() && buffer in buffers && buffer != activeBuffer && buffer !in bufferPool
              && buffer.View() == NewBuffer()
      ensures old(buffers) <= buffers && fresh(buffers - old(buffers))
    {
      if * {
        buffer := new MetricsBuffer();
        buffers := buffers + {buffer};
      } else if bufferPool == multiset{} {
        buffer := new MetricsBuffer();
        buffers := buffers + {buffer};
      } else {
        buffer :| buffer in bufferPool;
        bufferPool := bufferPool - multiset{buffer};
      }
    }

    method MergeIntoTotals(buffer: MetricsBuffer)
      modifies this`totalDpcQueuedCount, this`totalDpcExecutedCount, this`totalIsrToDpcLatency, this`totalDpcDurations
      ensures totalDpcQueuedCount == SumCounts(old(totalDpcQueuedCount), buffer.queued)
      ensures totalDpcExecutedCount == SumCounts(old(totalDpcExecutedCount), buffer.executed)
      ensures totalIsrToDpcLatency == Merged(old(totalIsrToDpcLatency), buffer.latency)
      ensures totalDpcDurations == MergedDurations(old(totalDpcDurations), buffer.durations)
    {
      totalDpcQueuedCount := AddCounts(totalDpcQueuedCount, buffer.queued);
      totalDpcExecutedCount := AddCounts(totalDpcExecutedCount, buffer.executed);
      totalIsrToDpcLatency := Merge(totalIsrToDpcLatency, buffer.latency);
      totalDpcDurations := MergeDurations(totalDpcDurations, buffer.durations);
    }

    /** A scrape: the statistics of drivers whose images are marked at this moment are given up. */
    method Collect(images: Images.ImageManager)
      requires Valid() && images.Valid()
      modifies this, buffers
      ensures Valid() && fresh(buffers - old(buffers))
      ensures images.Valid() && images.View() == old(images.View())
      ensures View() == Step(enablePerDriver, old(View()), Collected(Images.CleanedNames(images.View())))
      ensures old(activeBuffer) in bufferPool
    {
      hide Step, Images.Inv, Images.CleanedNames, PerfCollector.View;
      var cleanedImages := images.GetCleanedImages();
      ghost var names := Images.CleanedNames(images.View());
      assert forall name :: name in names <==> name in cleanedImages;
      SwapAndMerge(cleanedImages, names);
    }

    /**
     Swaps in a clean buffer, merges the old one into the totals, prunes these, cleans the old
     buffer and pools it.
     */
    method SwapAndMerge(cleanedImages: seq<string>, ghost names: set<string>)
      requires Valid() && forall name :: name in names <==> name in cleanedImages
      modifies this, buffers
      ensures Valid() && fresh(buffers - old(buffers))
      ensures View() == Step(enablePerDriver, old(View()), Collected(names))
      ensures old(activeBuffer) in bufferPool
    {
      hide SumCounts, Merged, MergedDurations, NewBuffer, PerfCollector.Valid;
      ghost var before := View();
      var oldBuffer := Swap();
      MergeIntoTotals(oldBuffer);
      Prune(cleanedImages, names);
      assert View() == Step(enablePerDriver, before, Collected(names));
      Recycle(oldBuffer);
    }

    /** A clean buffer becomes the active one. */
    method Swap() returns (oldBuffer: MetricsBuffer)
      requires Valid()
      modifies this`activeBuffer, this`bufferPool, this`buffers
      ensures Valid() && old(buffers) <= buffers && fresh(buffers - old(buffers))
      ensures oldBuffer == old(activeBuffer) && oldBuffer in buffers && oldBuffer !in bufferPool
      ensures oldBuffer != activeBuffer && activeBuffer.View() == NewBuffer()
    {
      hide NewBuffer;
      var newBuffer := GetBuffer();
      oldBuffer := activeBuffer;
      activeBuffer := newBuffer;
    }

    /** Gives up the statistics of the drivers of these names. */
    method Prune(cleanedImages: seq<string>, ghost names: set<string>)
      requires forall name :: name in names <==> name in cleanedImages
      modifies this`totalDpcDurations
      ensures totalDpcDurations == old(totalDpcDurations) - names
    {
      for i := 0 to |cleanedImages|
        invariant totalDpcDurations.Keys == old(totalDpcDurations).Keys - set name | name in cleanedImages[..i]
        invariant forall name | name in totalDpcDurations :: totalDpcDurations[name] == old(totalDpcDurations)[name]
      {
        totalDpcDurations := totalDpcDurations - {cleanedImages[i]};
        assert cleanedImages[..i + 1] == cleanedImages[..i] + [cleanedImages[i]];
      }
      assert cleanedImages[..|cleanedImages|] == cleanedImages;
    }

    /** Cleans a buffer that is no longer active, and pools it. */
    method Recycle(buffer: MetricsBuffer)
      requires Valid() && buffer in buffers && buffer !in bufferPool && buffer != activeBuffer
      modifies this`bufferPool, buffer
      ensures Valid() && buffer in bufferPool
    {
      hide NewBuffer;
      buffer.Reset();
      bufferPool := bufferPool + multiset{buffer};
    }
  }
}
