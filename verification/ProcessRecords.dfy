/** The ProcessData record: the per-process state that handlers update in place and the pool recycles. */
module ProcessRecords {
  import opened Tallies
  import opened Words
  import opened Counters
  import opened Lifecycle

  class ProcessData {
    var info: ProcessInfo
    var disks: map<uint32, DiskMetrics>
    var hardPageFaults: nat
    var network: NetworkCounters
    var operations: Operations
    var contextSwitches: nat

    ghost function View(): Proc
      reads this
    {
      Proc(info, Counters(disks, hardPageFaults, network, operations, contextSwitches))
    }

    constructor ()
      ensures View() == Proc(RESET_INFO, NoCounters())
    {
      info := RESET_INFO;
      disks := map[];
      hardPageFaults := 0;
      network := NO_NETWORK;
      operations := NoOperations();
      contextSwitches := 0;
    }

    /** Clears every module and the information: nothing of a former instance is left. */
    method Reset()
      modifies this
      ensures View() == Proc(RESET_INFO, NoCounters())
    {
      disks := map[];
      hardPageFaults := 0;

      network := network.(retransmissions := 0);
      for i := 0 to PROTOCOL_MAX
        invariant network.retransmissions == 0
        invariant forall p | 0 <= p < i :: network.sent[p] == network.received[p] == 0
        invariant forall p | 0 <= p < i :: network.attempted[p] == network.accepted[p] == 0
        invariant disks == map[] && hardPageFaults == 0
      {
        network := network.(sent := network.sent[i := 0], received := network.received[i := 0],
                            attempted := network.attempted[i := 0], accepted := network.accepted[i := 0]);
      }
      network := network.(failed := map[]);
      assert network == NO_NETWORK;

      for i := 0 to MAX_REGISTRY_ARRAY
        invariant forall j | 0 <= j < i :: operations[j] == 0
        invariant disks == map[] && hardPageFaults == 0 && network == NO_NETWORK
      {
        operations := operations[i := 0];
      }
      assert operations == NoOperations();

      contextSwitches := 0;
      info := RESET_INFO;
    }

    /** Turns a record from the pool into a new instance: reset first, then filled from the event. */
    method Populate(pid: uint32, startKey: uint64, name: string, parentPid: uint32, sessionId: uint32, now: int)
      modifies this
      ensures View() == NewProcess(pid, startKey, name, parentPid, sessionId, now)
      ensures View().info.startKey == startKey && View().info.pid == pid && Untagged(View().info)
    {
      var session := sessionId;
      if sessionId == NO_SESSION || pid == SYSTEM_PROCESS_ID {
        session := 0;
      }
      Reset();
      info := info.(pid := pid, startKey := startKey, name := name, createTime := now, lastSeen := now,
                    parentPid := parentPid, sessionId := session);
    }

    method Enrich(checksum: uint64, imageName: string)
      modifies this
      ensures View() == old(View()).(info := EnrichedInfo(old(View()).info, checksum, imageName))
    {
      if info.uniqueHash == 0 {
        info := info.(uniqueHash := checksum);
      }
      if '\\' in imageName && '\\' !in info.name {
        info := info.(name := imageName);
      }
    }

    method SetTerminationTime(terminationTime: int)
      modifies this
      ensures View() == old(View()).(info := TerminatedInfo(old(View()).info, terminationTime))
    {
      if info.terminationTime == ZERO_TIME {
        info := info.(terminationTime := terminationTime);
      }
    }

    method SetLastSeen(now: int)
      modifies this
      ensures View() == old(View()).(info := old(View()).info.(lastSeen := now))
    {
      info := info.(lastSeen := now);
    }

    /** The tag and, if its name is cached, the service name; a name once set stays. */
    method ApplyServiceTag(tag: uint32, serviceTags: map<uint32, string>)
      modifies this
      ensures View() == old(View()).(info := ServiceInfo(old(View()).info, tag, serviceTags))
    {
      if tag == 0 {
        return;
      }
      if info.name == "System" || info.name == "MemCompression" {
        return;
      }
      if info.serviceName != "" {
        return;
      }
      if info.subProcessTag == 0 {
        info := info.(subProcessTag := tag);
      } else if info.subProcessTag != tag {
        info := info.(subProcessTag := tag);
      }
      if tag !in serviceTags {
        return;
      }
      info := info.(serviceName := serviceTags[tag]);
    }

    method SetServiceName(serviceName: string)
      modifies this
      ensures View() == old(View()).(info := old(View()).info.(serviceName := serviceName))
    {
      info := info.(serviceName := serviceName);
    }

    method RecordDiskIO(disk: uint32, transferSize: uint32, isWrite: bool)
      modifies this
      ensures View() == old(View()).(counters := Record(old(View()).counters, DiskIO(disk, transferSize, isWrite)))
    {
      if disk !in disks {
        disks := disks[disk := NO_DISK_METRICS];
      }
      var metrics := disks[disk];
      if isWrite {
        metrics := metrics.(bytesWritten := metrics.bytesWritten + transferSize);
        metrics := metrics.(writeOps := metrics.writeOps + 1);
      } else {
        metrics := metrics.(bytesRead := metrics.bytesRead + transferSize);
        metrics := metrics.(readOps := metrics.readOps + 1);
      }
      disks := disks[disk := metrics];
      assert disks == old(disks)[disk := RecordDisk(DiskAt(old(disks), disk), transferSize, isWrite)];
    }

    method RecordHardPageFault()
      modifies this
      ensures View() == old(View()).(counters := Record(old(View()).counters, HardPageFault))
    {
      hardPageFaults := hardPageFaults + 1;
    }

    method RecordDataSent(protocol: Protocol, bytes: uint32)
      modifies this
      ensures View() == old(View()).(counters := Record(old(View()).counters, DataSent(protocol, bytes)))
    {
      network := network.(sent := network.sent[protocol := network.sent[protocol] + bytes]);
    }

    method RecordDataReceived(protocol: Protocol, bytes: uint32)
      modifies this
      ensures View() == old(View()).(counters := Record(old(View()).counters, DataReceived(protocol, bytes)))
    {
      network := network.(received := network.received[protocol := network.received[protocol] + bytes]);
    }

    method RecordConnectionAttempted(protocol: Protocol)
      modifies this
      ensures View() == old(View()).(counters := Record(old(View()).counters, ConnectionAttempted(protocol)))
    {
      network := network.(attempted := network.attempted[protocol := network.attempted[protocol] + 1]);
    }

    method RecordConnectionAccepted(protocol: Protocol)
      modifies this
      ensures View() == old(View()).(counters := Record(old(View()).counters, ConnectionAccepted(protocol)))
    {
      network := network.(accepted := network.accepted[protocol := network.accepted[protocol] + 1]);
    }

    method RecordRetransmission()
      modifies this
      ensures View() == old(View()).(counters := Record(old(View()).counters, Retransmission))
    {
      network := network.(retransmissions := network.retransmissions + 1);
    }

    method RecordConnectionFailed(failureKey: uint32)
      modifies this
      ensures View() == old(View()).(counters := Record(old(View()).counters, ConnectionFailed(failureKey)))
    {
      if failureKey !in network.failed {
        network := network.(failed := network.failed[failureKey := 0]);
      }
      var count := network.failed[failureKey];
      network := network.(failed := network.failed[failureKey := count + 1]);
      assert network.failed == old(network.failed)[failureKey := CountAt(old(network.failed), failureKey) + 1];
    }

    method RecordRegistryOperation(opcode: uint8, status: uint32)
      modifies this
      ensures View() == old(View()).(counters := Record(old(View()).counters, RegistryOperation(opcode, status)))
    {
      var result: RegistryResult := 0;
      if status != 0 {
        result := 1;
      }
      var index := opcode * RESULT_MAX + result;
      operations := operations[index := operations[index] + 1];
    }

    method RecordContextSwitch()
      modifies this
      ensures View() == old(View()).(counters := Record(old(View()).counters, ContextSwitch))
    {
      contextSwitches := contextSwitches + 1;
    }

    /** Hands a sample to the module that records it. */
    method RecordAny(e: Sample)
      modifies this
      ensures View() == old(View()).(counters := Record(old(View()).counters, e))
    {
      match e
      case DiskIO(disk, transferSize, isWrite) => RecordDiskIO(disk, transferSize, isWrite);
      case HardPageFault => RecordHardPageFault();
      case DataSent(protocol, bytes) => RecordDataSent(protocol, bytes);
      case DataReceived(protocol, bytes) => RecordDataReceived(protocol, bytes);
      case ConnectionAttempted(protocol) => RecordConnectionAttempted(protocol);
      case ConnectionAccepted(protocol) => RecordConnectionAccepted(protocol);
      case Retransmission => RecordRetransmission();
      case ConnectionFailed(failureKey) => RecordConnectionFailed(failureKey);
      case RegistryOperation(opcode, status) => RecordRegistryOperation(opcode, status);
      case ContextSwitch => RecordContextSwitch();
    }
  }
}
