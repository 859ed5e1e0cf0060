/** Program-level metrics: adding one instance's counters into an aggregate, and what a grouped result means. */
module Aggregation {
  import opened Tallies
  import opened Words
  import opened Sums
  import opened Counters
  import opened Lifecycle
  import opened Conservation
  import opened Identity

  datatype RegistryKey = RegistryKey(opcode: uint8, result: RegistryResult)

  /** The aggregate of one program; a module is present once some instance has contributed to it. */
  datatype ProgramMetrics = ProgramMetrics(
    disk: Option<map<uint32, DiskMetrics>>,
    memory: Option<nat>,
    network: Option<NetworkCounters>,
    registry: Option<map<RegistryKey, nat>>,
    threads: Option<nat>)

  const NO_METRICS := ProgramMetrics(None, None, None, None, None)

  /** Any single counter of an aggregate; an absent module counts nothing. */
  ghost function AggregateCount(a: ProgramMetrics, m: Metric): nat {
    match m
    case DiskOps(disk, op) => if a.disk.Some? then DiskAt(a.disk.value, disk).IOCount(op) else 0
    case DiskBytesRead(disk) => if a.disk.Some? then DiskAt(a.disk.value, disk).bytesRead else 0
    case DiskBytesWritten(disk) => if a.disk.Some? then DiskAt(a.disk.value, disk).bytesWritten else 0
    case HardPageFaults => if a.memory.Some? then a.memory.value else 0
    case BytesSent(p) => if a.network.Some? then a.network.value.sent[p] else 0
    case BytesReceived(p) => if a.network.Some? then a.network.value.received[p] else 0
    case ConnectionsAttempted(p) => if a.network.Some? then a.network.value.attempted[p] else 0
    case ConnectionsAccepted(p) => if a.network.Some? then a.network.value.accepted[p] else 0
    case Retransmissions => if a.network.Some? then a.network.value.retransmissions else 0
    case ConnectionsFailed(key) => if a.network.Some? then CountAt(a.network.value.failed, key) else 0
    case RegistryOps(opcode, result) =>
      if a.registry.Some? then CountAt(a.registry.value, RegistryKey(opcode, result)) else 0
    case ContextSwitches => if a.threads.Some? then a.threads.value else 0
  }

  function SumDisks(a: map<uint32, DiskMetrics>, b: map<uint32, DiskMetrics>): map<uint32, DiskMetrics> {
    map disk | disk in a.Keys + b.Keys :: DiskAt(a, disk).Plus(DiskAt(b, disk))
  }

  lemma SumDisksStep(a: map<uint32, DiskMetrics>, b: map<uint32, DiskMetrics>, disk: uint32, v: DiskMetrics)
    requires disk !in b
    ensures SumDisks(a, b[disk := v]) == SumDisks(a, b)[disk := DiskAt(SumDisks(a, b), disk).Plus(v)]
  {
  }

  method AddDisks(total: map<uint32, DiskMetrics>, instance: map<uint32, DiskMetrics>)
    returns (sum: map<uint32, DiskMetrics>)
    ensures sum == SumDisks(total, instance)
  {
    sum := total;
    var todo := instance.Keys;
    ghost var done: map<uint32, DiskMetrics> := map[];
    assert SumDisks(total, done) == total;
    while todo != {}
      invariant todo <= instance.Keys && done.Keys == instance.Keys - todo
      invariant forall disk | disk in done :: done[disk] == instance[disk]
      invariant sum == SumDisks(total, done)
    {
      hide SumDisks;
      var disk :| disk in todo;
      todo := todo - {disk};
      SumDisksStep(total, done, disk, instance[disk]);
      done := done[disk := instance[disk]];
      if disk !in sum {
        sum := sum[disk := NO_DISK_METRICS];
      }
      sum := sum[disk := sum[disk].Plus(instance[disk])];
    }
    assert done == instance;
  }

  method AddNetwork(total: NetworkCounters, instance: NetworkCounters) returns (sum: NetworkCounters)
    ensures sum.retransmissions == total.retransmissions + instance.retransmissions
    ensures forall p | 0 <= p < PROTOCOL_MAX ::
              && sum.sent[p] == total.sent[p] + instance.sent[p]
              && sum.received[p] == total.received[p] + instance.received[p]
              && sum.attempted[p] == total.attempted[p] + instance.attempted[p]
              && sum.accepted[p] == total.accepted[p] + instance.accepted[p]
    ensures sum.failed == SumCounts(total.failed, instance.failed)
  {
    sum := total.(retransmissions := total.retransmissions + instance.retransmissions);
    for i := 0 to PROTOCOL_MAX
      invariant sum.retransmissions == total.retransmissions + instance.retransmissions && sum.failed == total.failed
      invariant forall p | 0 <= p < PROTOCOL_MAX ::
                  && sum.sent[p] == total.sent[p] + (if p < i then instance.sent[p] else 0)
                  && sum.received[p] == total.received[p] + (if p < i then instance.received[p] else 0)
                  && sum.attempted[p] == total.attempted[p] + (if p < i then instance.attempted[p] else 0)
                  && sum.accepted[p] == total.accepted[p] + (if p < i then instance.accepted[p] else 0)
    {
      sum := sum.(sent := sum.sent[i := sum.sent[i] + instance.sent[i]],
                  received := sum.received[i := sum.received[i] + instance.received[i]],
                  attempted := sum.attempted[i := sum.attempted[i] + instance.attempted[i]],
                  accepted := sum.accepted[i := sum.accepted[i] + instance.accepted[i]]);
    }
    var failed := AddCounts(sum.failed, instance.failed);
    sum := sum.(failed := failed);
  }

  /** Only the operations that occurred get an entry. */
  method AddOperations(total: map<RegistryKey, nat>, instance: Operations) returns (sum: map<RegistryKey, nat>)
    ensures forall key: RegistryKey ::
              CountAt(sum, key) == CountAt(total, key) + instance[RegistryIndex(key.opcode, key.result)]
    ensures forall key: RegistryKey ::
              key in sum <==> key in total || instance[RegistryIndex(key.opcode, key.result)] > 0
  {
    sum := total;
    for i := 0 to MAX_REGISTRY_ARRAY
      invariant forall key: RegistryKey ::
                  var j := RegistryIndex(key.opcode, key.result);
                  && CountAt(sum, key) == CountAt(total, key) + (if j < i then instance[j] else 0)
                  && (key in sum <==> key in total || (j < i && instance[j] > 0))
    {
      var count := instance[i];
      if count > 0 {
        var key := RegistryKey(RegistryOpcode(i), RegistryResultOf(i));
        sum := sum[key := CountAt(sum, key) + count];
      }
    }
  }

  predicate DiskAddsUp(x: DiskMetrics, y: DiskMetrics, z: DiskMetrics) {
    && z.readOps == x.readOps + y.readOps && z.writeOps == x.writeOps + y.writeOps
    && z.flushOps == x.flushOps + y.flushOps
    && z.bytesRead == x.bytesRead + y.bytesRead && z.bytesWritten == x.bytesWritten + y.bytesWritten
  }

  ghost predicate NetworkAddsUp(x: NetworkCounters, y: NetworkCounters, z: NetworkCounters) {
    && z.retransmissions == x.retransmissions + y.retransmissions
    && (forall p | 0 <= p < 2 ::
          && z.sent[p] == x.sent[p] + y.sent[p] && z.received[p] == x.received[p] + y.received[p]
          && z.attempted[p] == x.attempted[p] + y.attempted[p] && z.accepted[p] == x.accepted[p] + y.accepted[p])
    && (forall key: uint32 :: CountAt(z.failed, key) == CountAt(x.failed, key) + CountAt(y.failed, key))
  }

  ghost predicate OperationsAddUp(x: map<RegistryKey, nat>, y: Operations, z: map<RegistryKey, nat>) {
    forall key: RegistryKey :: CountAt(z, key) == CountAt(x, key) + y[2 * key.opcode + key.result]
  }

  function DisksOf(a: ProgramMetrics): map<uint32, DiskMetrics> {
    if a.disk.Some? then a.disk.value else map[]
  }

  function NetworkOf(a: ProgramMetrics): NetworkCounters {
    if a.network.Some? then a.network.value else NO_NETWORK
  }

  function OperationsOf(a: ProgramMetrics): map<RegistryKey, nat> {
    if a.registry.Some? then a.registry.value else map[]
  }

  function ValueOf(count: Option<nat>): nat {
    if count.Some? then count.value else 0
  }

  /** Field by field: what the aggregate r has is what a had and what c holds. */
  ghost predicate AddsUp(a: ProgramMetrics, c: Counters, r: ProgramMetrics) {
    && DisksOf(r).Keys == DisksOf(a).Keys + c.disks.Keys
    && (forall disk | disk in DisksOf(r) ::
          DiskAddsUp(DiskAt(DisksOf(a), disk), DiskAt(c.disks, disk), DisksOf(r)[disk]))
    && ValueOf(r.memory) == ValueOf(a.memory) + c.hardPageFaults
    && ValueOf(r.threads) == ValueOf(a.threads) + c.contextSwitches
    && NetworkAddsUp(NetworkOf(a), c.network, NetworkOf(r))
    && OperationsAddUp(OperationsOf(a), c.operations, OperationsOf(r))
  }

  lemma DisksAddUp(a: map<uint32, DiskMetrics>, b: map<uint32, DiskMetrics>)
    ensures SumDisks(a, b).Keys == a.Keys + b.Keys
    ensures forall disk | disk in SumDisks(a, b) :: DiskAddsUp(DiskAt(a, disk), DiskAt(b, disk), SumDisks(a, b)[disk])
  {
  }

  lemma NetworksAddUp(x: NetworkCounters, y: NetworkCounters, z: NetworkCounters)
    requires z.retransmissions == x.retransmissions + y.retransmissions && z.failed == SumCounts(x.failed, y.failed)
    requires forall p | 0 <= p < PROTOCOL_MAX ::
               && z.sent[p] == x.sent[p] + y.sent[p] && z.received[p] == x.received[p] + y.received[p]
               && z.attempted[p] == x.attempted[p] + y.attempted[p] && z.accepted[p] == x.accepted[p] + y.accepted[p]
    ensures NetworkAddsUp(x, y, z)
  {
  }

  lemma AllOperationsAddUp(x: map<RegistryKey, nat>, y: Operations, z: map<RegistryKey, nat>)
    requires forall key: RegistryKey ::
               CountAt(z, key) == CountAt(x, key) + y[RegistryIndex(key.opcode, key.result)]
    ensures OperationsAddUp(x, y, z)
  {
  }

  /** Adds one instance into its program's aggregate: every counter grows by exactly the instance's. */
  method Accumulate(a: ProgramMetrics, c: Counters) returns (r: ProgramMetrics)
    ensures forall m :: AggregateCount(r, m) == AggregateCount(a, m) + Count(c, m)
    ensures AddsUp(a, c, r) && r.disk.Some? && r.network.Some? && r.registry.Some?
    ensures r.memory.Some? <==> a.memory.Some? || c.hardPageFaults > 0
    ensures r.threads.Some? <==> a.threads.Some? || c.contextSwitches > 0
  {
    hide AggregateCount, Count, SumDisks, DiskAddsUp, NetworkAddsUp, OperationsAddUp, SumCounts, CountAt, DiskAt,
         RegistryIndex;
    var disks := AddDisks(DisksOf(a), c.disks);
    DisksAddUp(DisksOf(a), c.disks);
    var memory := a.memory;
    if c.hardPageFaults > 0 {
      memory := Some((if memory.Some? then memory.value else 0) + c.hardPageFaults);
    }
    var network := AddNetwork(NetworkOf(a), c.network);
    NetworksAddUp(NetworkOf(a), c.network, network);
    var operations := AddOperations(OperationsOf(a), c.operations);
    AllOperationsAddUp(OperationsOf(a), c.operations, operations);
    var threads := a.threads;
    if c.contextSwitches > 0 {
      threads := Some((if threads.Some? then threads.value else 0) + c.contextSwitches);
    }
    r := ProgramMetrics(Some(disks), memory, Some(network), Some(operations), threads);
    assert AddsUp(a, c, r);
    hide AddsUp;
    forall m
      ensures AggregateCount(r, m) == AggregateCount(a, m) + Count(c, m)
    {
      AccumulatedCount(a, c, r, m);
    }
  }

  /** Field by field addition is addition of every single counter. */
  lemma AccumulatedCount(a: ProgramMetrics, c: Counters, r: ProgramMetrics, m: Metric)
    requires AddsUp(a, c, r)
    ensures AggregateCount(r, m) == AggregateCount(a, m) + Count(c, m)
  {
    hide NetworkAddsUp, OperationsAddUp, DiskAddsUp;
    if m.DiskOps? || m.DiskBytesRead? || m.DiskBytesWritten? {
      DiskCountAdds(a, c, r, m);
    } else if m.RegistryOps? {
      RegistryCountAdds(a, c, r, m);
    } else if !m.HardPageFaults? && !m.ContextSwitches? {
      NetworkCountAdds(a, c, r, m);
    }
  }

  lemma NetworkCountAdds(a: ProgramMetrics, c: Counters, r: ProgramMetrics, m: Metric)
    requires NetworkAddsUp(NetworkOf(a), c.network, NetworkOf(r))
    requires m.BytesSent? || m.BytesReceived? || m.ConnectionsAttempted? || m.ConnectionsAccepted?
             || m.Retransmissions? || m.ConnectionsFailed?
    ensures AggregateCount(r, m) == AggregateCount(a, m) + Count(c, m)
  {
  }

  lemma DiskCountAdds(a: ProgramMetrics, c: Counters, r: ProgramMetrics, m: Metric)
    requires AddsUp(a, c, r) && (m.DiskOps? || m.DiskBytesRead? || m.DiskBytesWritten?)
    ensures AggregateCount(r, m) == AggregateCount(a, m) + Count(c, m)
  {
    hide NetworkAddsUp, OperationsAddUp;
    if m.disk in DisksOf(r) {
      assert DiskAddsUp(DiskAt(DisksOf(a), m.disk), DiskAt(c.disks, m.disk), DisksOf(r)[m.disk]);
    }
  }

  lemma RegistryCountAdds(a: ProgramMetrics, c: Counters, r: ProgramMetrics, m: Metric)
    requires AddsUp(a, c, r) && m.RegistryOps?
    ensures AggregateCount(r, m) == AggregateCount(a, m) + Count(c, m)
  {
    hide NetworkAddsUp, DiskAddsUp;
    assert RegistryKey(m.opcode, m.result).opcode == m.opcode;
  }

  // ---- what a result map means ----

  /** The aggregation key of each filed instance. */
  ghost function GroupKey<Ref>(instanceData: map<uint64, Ref>, heap: map<Ref, Proc>): uint64 -> ProgramKey {
    (k: uint64) =>
      if k in instanceData && instanceData[k] in heap then KeyOf(heap[instanceData[k]].info) else KeyOf(RESET_INFO)
  }

  /**
   The grouped sum over the given instances: one entry for each aggregation key that occurs,
   and under it, for every metric, the sum over the instances with that key.
   */
  ghost predicate IsGroupedSum<Ref>(result: map<ProgramKey, ProgramMetrics>, keys: set<uint64>,
                                    instanceData: map<uint64, Ref>, heap: map<Ref, Proc>) {
    && result.Keys == Groups(keys, GroupKey(instanceData, heap))
    && forall g, m | g in result ::
         AggregateCount(result[g], m)
           == Sum(Group(keys, GroupKey(instanceData, heap), g), HeldBy(instanceData, heap, m))
  }

  /** The total over all programs is the total over all live instances. */
  lemma GrandTotal<Ref>(result: map<ProgramKey, ProgramMetrics>, instanceData: map<uint64, Ref>,
                        heap: map<Ref, Proc>, m: Metric)
    requires IsGroupedSum(result, instanceData.Keys, instanceData, heap)
    ensures Sum(result.Keys, (g: ProgramKey) => if g in result then AggregateCount(result[g], m) else 0)
            == LiveSum(instanceData, heap, m)
  {
    hide Sum;
    var total := (g: ProgramKey) => if g in result then AggregateCount(result[g], m) else 0;
    forall g | g in Groups(instanceData.Keys, GroupKey(instanceData, heap))
      ensures total(g) == Sum(Group(instanceData.Keys, GroupKey(instanceData, heap), g), HeldBy(instanceData, heap, m))
    {
      assert g in result;
    }
    GroupTotals(instanceData.Keys, GroupKey(instanceData, heap), HeldBy(instanceData, heap, m), total);
  }

  /** Two results over the same records agree on every counter. */
  lemma GroupedSumUnique<Ref>(a: map<ProgramKey, ProgramMetrics>, b: map<ProgramKey, ProgramMetrics>,
                              keys: set<uint64>, instanceData: map<uint64, Ref>, heap: map<Ref, Proc>)
    requires IsGroupedSum(a, keys, instanceData, heap) && IsGroupedSum(b, keys, instanceData, heap)
    ensures a.Keys == b.Keys && forall g, m | g in a :: AggregateCount(a[g], m) == AggregateCount(b[g], m)
  {
    forall g, m | g in a
      ensures AggregateCount(a[g], m) == AggregateCount(b[g], m)
    {
      hide Sum;
      assert g in b && AggregateCount(b[g], m)
             == Sum(Group(keys, GroupKey(instanceData, heap), g), HeldBy(instanceData, heap, m));
      assert AggregateCount(a[g], m)
             == Sum(Group(keys, GroupKey(instanceData, heap), g), HeldBy(instanceData, heap, m));
    }
  }

  /** Adding one more instance to a grouped sum. */
  lemma GroupedSumStep<Ref>(result: map<ProgramKey, ProgramMetrics>, keys: set<uint64>,
                            instanceData: map<uint64, Ref>, heap: map<Ref, Proc>, k: uint64, metrics: ProgramMetrics)
    requires IsGroupedSum(result, keys, instanceData, heap)
    requires k !in keys && k in instanceData && instanceData[k] in heap
    requires var g := KeyOf(heap[instanceData[k]].info);
             forall m :: AggregateCount(metrics, m)
                         == (if g in result then AggregateCount(result[g], m) else 0)
                            + Count(heap[instanceData[k]].counters, m)
    ensures IsGroupedSum(result[KeyOf(heap[instanceData[k]].info) := metrics], keys + {k}, instanceData, heap)
  {
    hide Sum, AggregateCount, Count, KeyOf;
    var key := GroupKey(instanceData, heap);
    var g := key(k);
    var result' := result[g := metrics];
    assert Groups(keys + {k}, key) == Groups(keys, key) + {g};
    forall h, m | h in result'
      ensures AggregateCount(result'[h], m) == Sum(Group(keys + {k}, key, h), HeldBy(instanceData, heap, m))
    {
      GroupSumStep(keys, k, key, h, HeldBy(instanceData, heap, m));
    }
  }

  /** One more key adds its summand to its own group and to no other. */
  lemma GroupSumStep<K, G>(keys: set<K>, k: K, groupOf: K -> G, h: G, f: K -> int)
    requires k !in keys
    ensures Sum(Group(keys + {k}, groupOf, h), f)
            == Sum(Group(keys, groupOf, h), f) + (if groupOf(k) == h then f(k) else 0)
    ensures h !in Groups(keys, groupOf) ==> Sum(Group(keys, groupOf, h), f) == 0
  {
    hide Sum;
    if groupOf(k) == h {
      assert Group(keys + {k}, groupOf, h) == Group(keys, groupOf, h) + {k};
      SumAdd(Group(keys, groupOf, h), k, f);
    } else {
      assert Group(keys + {k}, groupOf, h) == Group(keys, groupOf, h);
    }
    if h !in Groups(keys, groupOf) {
      assert forall j | j in keys :: groupOf(j) in Groups(keys, groupOf);
      assert Group(keys, groupOf, h) == {};
      EmptySum(f);
    }
  }

  lemma EmptySum<K>(f: K -> int)
    ensures Sum({}, f) == 0
  {
  }

  /** Instances not in `keys` may change without affecting the grouped sum. */
  lemma GroupedSumFrame<Ref>(result: map<ProgramKey, ProgramMetrics>, keys: set<uint64>,
                             instanceData: map<uint64, Ref>, heap: map<Ref, Proc>, heap': map<Ref, Proc>)
    requires IsGroupedSum(result, keys, instanceData, heap)
    requires forall k | k in keys :: k in instanceData && instanceData[k] in heap && instanceData[k] in heap'
                                     && heap'[instanceData[k]] == heap[instanceData[k]]
    ensures IsGroupedSum(result, keys, instanceData, heap')
  {
    hide Sum, AggregateCount, Count, KeyOf;
    var key, key' := GroupKey(instanceData, heap), GroupKey(instanceData, heap');
    assert forall k | k in keys :: key(k) == key'(k);
    assert Groups(keys, key) == Groups(keys, key');
    forall g, m | g in result
      ensures AggregateCount(result[g], m) == Sum(Group(keys, key', g), HeldBy(instanceData, heap', m))
    {
      assert Group(keys, key', g) == Group(keys, key, g);
      SumCongruence(Group(keys, key, g), HeldBy(instanceData, heap, m), HeldBy(instanceData, heap', m));
    }
  }
}
