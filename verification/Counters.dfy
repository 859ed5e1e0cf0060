/**
 Per-process metric counters: what the disk, memory, network, registry and
 thread modules of one process hold, and how one recorded event changes them.
 `Count` reads any single counter, so that laws about all counters are stated
 once, for every metric.
 */
module Counters {
  import opened Tallies
  import opened Words

  const PROTOCOL_MAX := 2
  const RESULT_MAX := 2
  const MAX_REGISTRY_OPCODES := 256
  const MAX_REGISTRY_ARRAY := MAX_REGISTRY_OPCODES * RESULT_MAX

  datatype DiskOp = Read | Write | Flush

  type Protocol = p: int | 0 <= p < PROTOCOL_MAX
  type RegistryResult = r: int | 0 <= r < RESULT_MAX

  /** One name for every single counter a process carries. */
  datatype Metric =
    | DiskOps(disk: uint32, op: DiskOp)
    | DiskBytesRead(disk: uint32)
    | DiskBytesWritten(disk: uint32)
    | HardPageFaults
    | BytesSent(protocol: Protocol)
    | BytesReceived(protocol: Protocol)
    | ConnectionsAttempted(protocol: Protocol)
    | ConnectionsAccepted(protocol: Protocol)
    | Retransmissions
    | ConnectionsFailed(failureKey: uint32)
    | RegistryOps(opcode: uint8, result: RegistryResult)
    | ContextSwitches

  datatype DiskMetrics = DiskMetrics(readOps: nat, writeOps: nat, flushOps: nat, bytesRead: nat, bytesWritten: nat) {
    function IOCount(op: DiskOp): nat {
      match op
      case Read => readOps
      case Write => writeOps
      case Flush => flushOps
    }

    function Plus(other: DiskMetrics): DiskMetrics {
      DiskMetrics(readOps + other.readOps, writeOps + other.writeOps, flushOps + other.flushOps,
                  bytesRead + other.bytesRead, bytesWritten + other.bytesWritten)
    }
  }

  const NO_DISK_METRICS := DiskMetrics(0, 0, 0, 0, 0)

  function DiskAt(disks: map<uint32, DiskMetrics>, disk: uint32): DiskMetrics {
    if disk in disks then disks[disk] else NO_DISK_METRICS
  }

  type PerProtocol = s: seq<nat> | |s| == PROTOCOL_MAX witness [0, 0]
  const NO_PROTOCOL: PerProtocol := [0, 0]

  datatype NetworkCounters = NetworkCounters(
    sent: PerProtocol,
    received: PerProtocol,
    attempted: PerProtocol,
    accepted: PerProtocol,
    retransmissions: nat,
    failed: map<uint32, nat>)

  const NO_NETWORK := NetworkCounters(NO_PROTOCOL, NO_PROTOCOL, NO_PROTOCOL, NO_PROTOCOL, 0, map[])

  type Operations = s: seq<nat> | |s| == MAX_REGISTRY_ARRAY witness seq(MAX_REGISTRY_ARRAY, _ => 0)
  function NoOperations(): (s: Operations)
    ensures forall i | 0 <= i < MAX_REGISTRY_ARRAY :: s[i] == 0
  {
    seq(MAX_REGISTRY_ARRAY, _ => 0)
  }

  datatype Counters = Counters(
    disks: map<uint32, DiskMetrics>,
    hardPageFaults: nat,
    network: NetworkCounters,
    operations: Operations,
    contextSwitches: nat)

  function NoCounters(): Counters {
    Counters(map[], 0, NO_NETWORK, NoOperations(), 0)
  }

  /** Position of an (opcode, result) pair in the flat operations array. */
  function RegistryIndex(opcode: uint8, result: RegistryResult): (i: nat)
    ensures i < MAX_REGISTRY_ARRAY
  {
    opcode * RESULT_MAX + result
  }

  function RegistryOpcode(i: nat): (opcode: uint8)
    requires i < MAX_REGISTRY_ARRAY
  {
    i / RESULT_MAX
  }

  function RegistryResultOf(i: nat): RegistryResult {
    i % RESULT_MAX
  }

  /** Decoding inverts encoding and encoding inverts decoding, so no two pairs share a slot. */
  lemma RegistryIndexRoundTrip(opcode: uint8, result: RegistryResult, i: nat)
    requires i < MAX_REGISTRY_ARRAY
    ensures RegistryOpcode(RegistryIndex(opcode, result)) == opcode
    ensures RegistryResultOf(RegistryIndex(opcode, result)) == result
    ensures RegistryIndex(RegistryOpcode(i), RegistryResultOf(i)) == i
    ensures RegistryIndex(opcode, result) == i <==> opcode == RegistryOpcode(i) && result == RegistryResultOf(i)
  {
  }

  ghost function Count(c: Counters, m: Metric): nat {
    match m
    case DiskOps(disk, op) => DiskAt(c.disks, disk).IOCount(op)
    case DiskBytesRead(disk) => DiskAt(c.disks, disk).bytesRead
    case DiskBytesWritten(disk) => DiskAt(c.disks, disk).bytesWritten
    case HardPageFaults => c.hardPageFaults
    case BytesSent(p) => c.network.sent[p]
    case BytesReceived(p) => c.network.received[p]
    case ConnectionsAttempted(p) => c.network.attempted[p]
    case ConnectionsAccepted(p) => c.network.accepted[p]
    case Retransmissions => c.network.retransmissions
    case ConnectionsFailed(key) => CountAt(c.network.failed, key)
    case RegistryOps(opcode, result) => c.operations[RegistryIndex(opcode, result)]
    case ContextSwitches => c.contextSwitches
  }

  /** One metric event, as a handler hands it to a process. */
  datatype Sample =
    | DiskIO(disk: uint32, transferSize: uint32, isWrite: bool)
    | HardPageFault
    | DataSent(protocol: Protocol, bytes: uint32)
    | DataReceived(protocol: Protocol, bytes: uint32)
    | ConnectionAttempted(protocol: Protocol)
    | ConnectionAccepted(protocol: Protocol)
    | Retransmission
    | ConnectionFailed(failureKey: uint32)
    | RegistryOperation(opcode: uint8, status: uint32)
    | ContextSwitch

  function ResultOf(status: uint32): RegistryResult {
    if status != 0 then 1 else 0
  }

  /** How much of metric m one sample stands for. */
  function Amount(e: Sample, m: Metric): nat {
    match e
    case DiskIO(disk, size, isWrite) =>
      if m == DiskOps(disk, if isWrite then Write else Read) then 1
      else if m == (if isWrite then DiskBytesWritten(disk) else DiskBytesRead(disk)) then size
      else 0
    case HardPageFault => if m == HardPageFaults then 1 else 0
    case DataSent(p, bytes) => if m == BytesSent(p) then bytes else 0
    case DataReceived(p, bytes) => if m == BytesReceived(p) then bytes else 0
    case ConnectionAttempted(p) => if m == ConnectionsAttempted(p) then 1 else 0
    case ConnectionAccepted(p) => if m == ConnectionsAccepted(p) then 1 else 0
    case Retransmission => if m == Retransmissions then 1 else 0
    case ConnectionFailed(key) => if m == ConnectionsFailed(key) then 1 else 0
    case RegistryOperation(opcode, status) => if m == RegistryOps(opcode, ResultOf(status)) then 1 else 0
    case ContextSwitch => if m == ContextSwitches then 1 else 0
  }

  function RecordDisk(d: DiskMetrics, size: nat, isWrite: bool): DiskMetrics {
    if isWrite then d.(bytesWritten := d.bytesWritten + size, writeOps := d.writeOps + 1)
    else d.(bytesRead := d.bytesRead + size, readOps := d.readOps + 1)
  }

  /** The counters after one recorded sample. */
  function Record(c: Counters, e: Sample): Counters {
    match e
    case DiskIO(disk, size, isWrite) =>
      c.(disks := c.disks[disk := RecordDisk(DiskAt(c.disks, disk), size, isWrite)])
    case HardPageFault => c.(hardPageFaults := c.hardPageFaults + 1)
    case DataSent(p, bytes) =>
      c.(network := c.network.(sent := c.network.sent[p := c.network.sent[p] + bytes]))
    case DataReceived(p, bytes) =>
      c.(network := c.network.(received := c.network.received[p := c.network.received[p] + bytes]))
    case ConnectionAttempted(p) =>
      c.(network := c.network.(attempted := c.network.attempted[p := c.network.attempted[p] + 1]))
    case ConnectionAccepted(p) =>
      c.(network := c.network.(accepted := c.network.accepted[p := c.network.accepted[p] + 1]))
    case Retransmission =>
      c.(network := c.network.(retransmissions := c.network.retransmissions + 1))
    case ConnectionFailed(key) =>
      c.(network := c.network.(failed := c.network.failed[key := CountAt(c.network.failed, key) + 1]))
    case RegistryOperation(opcode, status) =>
      var i := RegistryIndex(opcode, ResultOf(status));
      c.(operations := c.operations[i := c.operations[i] + 1])
    case ContextSwitch => c.(contextSwitches := c.contextSwitches + 1)
  }

  /** Recording adds exactly the sample's amount to every counter, and nothing to any other. */
  lemma RecordAdds(c: Counters, e: Sample, m: Metric)
    ensures Count(Record(c, e), m) == Count(c, m) + Amount(e, m)
  {
    if e.RegistryOperation? && m.RegistryOps? {
      RegistryIndexRoundTrip(e.opcode, ResultOf(e.status), RegistryIndex(m.opcode, m.result));
      RegistryIndexRoundTrip(m.opcode, m.result, RegistryIndex(e.opcode, ResultOf(e.status)));
    }
  }

  lemma NothingCounted(m: Metric)
    ensures Count(NoCounters(), m) == 0
  {
  }
}
