/**
 When ISRs that never meet their DPC are given up. The collector means to drop
 them after 10 ms, but looks for them only when the number of CPUs with a list
 is a multiple of 100.
 */
module InterruptAgeing {
  import opened Interrupts
  import opened InterruptAccounts
  import opened Words

  /** No ISR that waits on any CPU is older than 10 ms. */
  ghost predicate NoneOld(b: Buffer, now: int) {
    forall cpu, isr | cpu in b.pendingIsrs && isr in b.pendingIsrs[cpu] :: now - isr.initialTime <= 10_000_000
  }

  /**
   After an ISR no list holds one of more than 10 ms if and only if the number of CPUs with a list, the
   ISR's own included, is a multiple of 100, or there was none to begin with.
   */
  lemma NoneOldExactly(b: Buffer, cpu: uint16, isr: Isr)
    ensures NoneOld(IsrStep(b, cpu, isr), isr.initialTime)
            <==> |b.pendingIsrs.Keys + {cpu}| % 100 == 0 || NoneOld(b, isr.initialTime)
  {
    var queued := Queued(b, cpu, isr);
    QueuedNoneOld(b, cpu, isr);
    assert queued.pendingIsrs.Keys == b.pendingIsrs.Keys + {cpu};
    assert |queued.pendingIsrs| == |queued.pendingIsrs.Keys|;
    if AgesOut(queued) {
      forall c, x | c in AgedOut(queued, isr.initialTime).pendingIsrs
        && x in AgedOut(queued, isr.initialTime).pendingIsrs[c]
        ensures isr.initialTime - x.initialTime <= 10_000_000
      {
        AgingSplits(queued.pendingIsrs[c], isr.initialTime);
      }
    }
  }

  /** The ISR that has just come is not old, so queueing it makes no difference. */
  lemma QueuedNoneOld(b: Buffer, cpu: uint16, isr: Isr)
    ensures NoneOld(Queued(b, cpu, isr), isr.initialTime) <==> NoneOld(b, isr.initialTime)
  {
    var queued := Queued(b, cpu, isr);
    assert queued.pendingIsrs[cpu] == IsrsOn(b, cpu) + [isr];
    if NoneOld(queued, isr.initialTime) {
      forall c, x | c in b.pendingIsrs && x in b.pendingIsrs[c]
        ensures isr.initialTime - x.initialTime <= 10_000_000
      {
        assert x in queued.pendingIsrs[c];
      }
    }
  }

  /** An ISR of an hour ago stays when the next one arrives: one CPU has a list, and 1 is no multiple of 100. */
  lemma StaleIsrStays(address: uint64, vector: uint16)
    ensures var stale, next := Isr(0, address, vector), Isr(3_600_000_000_000, address, vector);
            var b := IsrStep(IsrStep(NewBuffer(), 0, stale), 0, next);
            IsrsOn(b, 0) == [stale, next] && next.initialTime - stale.initialTime == 3_600_000_000_000
  {
    var stale, next := Isr(0, address, vector), Isr(3_600_000_000_000, address, vector);
    var first := Queued(NewBuffer(), 0, stale);
    OneList(first, 0);
    assert IsrStep(NewBuffer(), 0, stale) == first;
    OneList(Queued(first, 0, next), 0);
  }

  lemma OneList(b: Buffer, cpu: uint16)
    requires b.pendingIsrs.Keys == {cpu}
    ensures !AgesOut(b)
  {
    assert |b.pendingIsrs| == |b.pendingIsrs.Keys| == 1;
  }

  // ---- machines with fewer than 100 CPUs ----

  predicate NamesCpuOf(e: Event, cpus: set<uint16>) {
    !e.Collected? ==> e.cpu in cpus
  }

  /** The lists belong to the machine's CPUs. */
  ghost predicate ListsWithin(b: Buffer, cpus: set<uint16>) {
    b.pendingIsrs.Keys <= cpus
  }

  lemma SmallMachineKeepsAll(b: Buffer, cpus: set<uint16>, cpu: uint16, isr: Isr)
    requires ListsWithin(b, cpus) && cpu in cpus && |cpus| < 100
    ensures !AgesOut(Queued(b, cpu, isr)) && ListsWithin(IsrStep(b, cpu, isr), cpus)
  {
    var queued := Queued(b, cpu, isr);
    SubsetIsNoLarger(queued.pendingIsrs.Keys, cpus);
    assert cpu in queued.pendingIsrs.Keys && |queued.pendingIsrs| == |queued.pendingIsrs.Keys|;
  }

  lemma {:induction false} SubsetIsNoLarger(a: set<uint16>, b: set<uint16>)
    requires a <= b
    ensures |a| <= |b|
    decreases a
  {
    if a != {} {
      var x :| x in a;
      SubsetIsNoLarger(a - {x}, b - {x});
    }
  }

  lemma StepKeepsLists(perDriver: bool, s: State, e: Event, cpus: set<uint16>)
    requires ListsWithin(s.active, cpus) && NamesCpuOf(e, cpus) && |cpus| < 100
    ensures ListsWithin(Step(perDriver, s, e).active, cpus)
  {
    hide Closest, SwapRemove;
    if e.IsrSeen? {
      SmallMachineKeepsAll(s.active, cpus, e.cpu, Isr(e.initialTime, e.routineAddress, e.vector));
    }
  }

  /**
   On a machine with fewer than 100 CPUs no ISR is ever dropped for its age, in any run: it waits
   until a DPC matches it or a scrape swaps the buffer.
   */
  lemma {:induction false} SmallMachineNeverAges(perDriver: bool, events: seq<Event>, cpus: set<uint16>, cpu: uint16)
    requires |cpus| < 100 && forall i | 0 <= i < |events| :: NamesCpuOf(events[i], cpus)
    ensures ListsWithin(After(perDriver, events).active, cpus)
    ensures LedgerAfter(perDriver, events, cpu).aged == 0
  {
    hide Step, NewMatch;
    if events != [] {
      var before, e := events[..|events| - 1], events[|events| - 1];
      SmallMachineNeverAges(perDriver, before, cpus, cpu);
      var s := After(perDriver, before);
      StepKeepsLists(perDriver, s, e, cpus);
      if e.IsrSeen? {
        SmallMachineKeepsAll(s.active, cpus, e.cpu, Isr(e.initialTime, e.routineAddress, e.vector));
      }
    }
  }

  /** So on such a machine the ledger closes without ageing: queued = matched + pending + dropped at swaps. */
  lemma SmallMachineLedger(perDriver: bool, events: seq<Event>, cpus: set<uint16>, cpu: uint16)
    requires |cpus| < 100 && forall i | 0 <= i < |events| :: NamesCpuOf(events[i], cpus)
    ensures var s, l := After(perDriver, events), LedgerAfter(perDriver, events, cpu);
            QueuedOn(s, cpu) == CountOn(Matches(perDriver, events), cpu) + |IsrsOn(s.active, cpu)| + l.isrsDropped
  {
    SmallMachineNeverAges(perDriver, events, cpus, cpu);
    EveryInterruptAccounted(perDriver, events, cpu);
  }
}
