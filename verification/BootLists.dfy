/**
  What the lists made at boot hold, told from the configuration item by item: which hosts and device
  nodes are taken, under which ids, and which list a node goes to.
 */
module BootLists {
  import opened Bytes
  import opened Seqs
  import opened SList
  import opened Boot

  // ---------------------------------------------------------------- hosts

  /** A host is taken if it has a name and a priority of at most 200. */
  predicate TakesHost(c: HostConfig) {
    c.name.Some? && c.name.value != [] && c.priority.Some? && c.priority.value <= 200
  }

  /** How many hosts are taken. */
  function HostCount(config: seq<HostConfig>): nat {
    if config == [] then 0 else HostCount(config[..|config| - 1]) + if TakesHost(config[|config| - 1]) then 1 else 0
  }

  /** The k-th host of the configuration, if taken: its name, its priority, and the number of those before it as its id. */
  lemma {:induction false} HostAt(config: seq<HostConfig>, k: nat)
    requires k < |config| && TakesHost(config[k])
    ensures |HostInfos(config)| == HostCount(config) && HostCount(config[..k]) < HostCount(config)
    ensures HostInfos(config)[HostCount(config[..k])]
            == HostInfo(HostCount(config[..k]) % 0x10000, config[k].name.value, config[k].priority.value)
  {
    var n := |config| - 1;
    HostsCounted(config);
    HostInfosNext(config, n);
    assert config[..n + 1] == config;
    HostsCounted(config[..n]);
    if k < n {
      HostAt(config[..n], k);
      assert config[..n][..k] == config[..k];
    }
  }

  lemma {:induction false} HostsCounted(config: seq<HostConfig>)
    ensures |HostInfos(config)| == HostCount(config)
  {
    if config != [] {
      var n := |config| - 1;
      HostsCounted(config[..n]);
      HostInfosNext(config, n);
      assert config[..n + 1] == config;
    }
  }

  // ---------------------------------------------------------------- device nodes

  /** A device node is taken if it has a module and a service name and its numbers are in range. */
  predicate TakesNode(c: NodeConfig) {
    && c.moduleName.Some? && c.moduleName.value != [] && c.svcName.Some?
    && c.policy < 5 && c.priority <= 200 && c.preload < 3
  }

  function NodeCount(nodes: seq<NodeConfig>): nat {
    if nodes == [] then 0 else NodeCount(nodes[..|nodes| - 1]) + if TakesNode(nodes[|nodes| - 1]) then 1 else 0
  }

  lemma {:induction false} NodesCounted(nodes: seq<NodeConfig>, hostId: nat, deviceIdx: nat)
    requires deviceIdx < 0x10000
    ensures |NodeInfos(nodes, hostId, deviceIdx)| == NodeCount(nodes)
  {
    if nodes != [] {
      NodesCounted(nodes[..|nodes| - 1], hostId, deviceIdx);
    }
  }

  /** The attributes of a node are those configured, and its id is made of the ids of host, device and node. */
  predicate InfoOf(info: DeviceInfo, c: NodeConfig, hostId: nat, deviceIdx: nat, nodeIdx: nat) {
    && info.policy == c.policy && info.priority == c.priority && info.preload == c.preload
    && Some(info.moduleName) == c.moduleName && Some(info.svcName) == c.svcName
    && info.deviceId / 0x100_0000 == hostId % 0x100 && info.deviceId / 0x100 % 0x10000 == deviceIdx
    && info.deviceId % 0x100 == nodeIdx
  }

  lemma {:induction false} IdParts(hostId: nat, deviceIdx: nat, nodeIdx: nat)
    requires deviceIdx < 0x10000 && nodeIdx < 0x100
    ensures var id := MkDevId(hostId, deviceIdx, nodeIdx);
            id / 0x100_0000 == hostId % 0x100 && id / 0x100 % 0x10000 == deviceIdx && id % 0x100 == nodeIdx
  {
    var h := hostId % 0x100;
    assert MkDevId(hostId, deviceIdx, nodeIdx) == (h * 0x10000 + deviceIdx) * 0x100 + nodeIdx;
  }

  /** The k-th node of a device, if taken: the next node of the device has its attributes and the next id, from 1 on. */
  lemma {:induction false} NodeAt(nodes: seq<NodeConfig>, hostId: nat, deviceIdx: nat, k: nat)
    requires deviceIdx < 0x10000 && k < |nodes| && TakesNode(nodes[k])
    ensures |NodeInfos(nodes, hostId, deviceIdx)| == NodeCount(nodes) && NodeCount(nodes[..k]) < NodeCount(nodes)
    ensures InfoOf(NodeInfos(nodes, hostId, deviceIdx)[NodeCount(nodes[..k])], nodes[k], hostId, deviceIdx,
                   (1 + NodeCount(nodes[..k])) % 0x100)
  {
    hide MkDevId;
    var n := |nodes| - 1;
    NodesCounted(nodes, hostId, deviceIdx);
    NodesCounted(nodes[..n], hostId, deviceIdx);
    IdParts(hostId, deviceIdx, (1 + NodeCount(nodes[..n])) % 0x100);
    if k < n {
      NodeAt(nodes[..n], hostId, deviceIdx, k);
      assert nodes[..n][..k] == nodes[..k];
    }
  }

  /** How many nodes the devices have that are taken. */
  function AllCount(devices: seq<seq<NodeConfig>>): nat {
    if devices == [] then 0 else AllCount(devices[..|devices| - 1]) + NodeCount(devices[|devices| - 1])
  }

  /** The k-th node of device d, if taken, comes behind those before it, with device ids counted from 1. */
  lemma {:induction false} DeviceNodeAt(devices: seq<seq<NodeConfig>>, hostId: nat, d: nat, k: nat)
    requires d < |devices| && k < |devices[d]| && TakesNode(devices[d][k])
    ensures |DeviceInfos(devices, hostId)| == AllCount(devices)
    ensures var at := AllCount(devices[..d]) + NodeCount(devices[d][..k]);
            && at < AllCount(devices)
            && InfoOf(DeviceInfos(devices, hostId)[at], devices[d][k], hostId, (1 + d) % 0x10000,
                      (1 + NodeCount(devices[d][..k])) % 0x100)
  {
    hide NodeInfos, NodeCount, InfoOf;
    var n := |devices| - 1;
    AllCounted(devices, hostId);
    AllCounted(devices[..n], hostId);
    NodesCounted(devices[n], hostId, DeviceIdx(n));
    if d < n {
      DeviceNodeAt(devices[..n], hostId, d, k);
      assert devices[..n][..d] == devices[..d];
    } else {
      NodeAt(devices[n], hostId, DeviceIdx(n), k);
      assert devices[..d] == devices[..n];
    }
  }

  lemma {:induction false} AllCounted(devices: seq<seq<NodeConfig>>, hostId: nat)
    ensures |DeviceInfos(devices, hostId)| == AllCount(devices)
  {
    if devices != [] {
      var n := |devices| - 1;
      AllCounted(devices[..n], hostId);
      NodesCounted(devices[n], hostId, DeviceIdx(n));
    }
  }

  /** A device is accepted if and only if no allocation fails and the number of nodes taken is not 0 or 255 modulo 256. */
  lemma {:induction false} AcceptedWhen(nodes: seq<NodeConfig>, hostId: nat, deviceIdx: nat, mem: nat -> bool)
    requires deviceIdx < 0x10000
    ensures DeviceAccepted(nodes, hostId, deviceIdx, mem) <==>
            (forall i :: 0 <= i < |nodes| ==> mem(i)) && NodeCount(nodes) % 256 !in {0, 255}
  {
    NodesCounted(nodes, hostId, deviceIdx);
  }

  // ---------------------------------------------------------------- the two lists

  /**
    Of the nodes read, the disabled ones and no others are in the dynamic list, and the preloaded
    ones are in the other list in the order of their priority.
   */
  lemma {:induction false} ListsAre(clnt: DevHostServiceClnt)
    requires clnt.Valid()
    ensures forall i :: 0 <= i < |clnt.unloaded| ==> clnt.unloaded[i].data.preload != 2
    ensures forall i :: 0 <= i < |clnt.dynamics| ==> clnt.dynamics[i].data.preload == 2
    ensures |clnt.unloaded| + |clnt.dynamics| == |clnt.read|
    ensures |clnt.order| == |clnt.unloaded|
    ensures forall i, j :: 0 <= i < j < |clnt.unloaded| ==> Before(clnt, i, j)
  {
    var items, p := Filter(clnt.read, Preloaded), clnt.order;
    FilterWithin(clnt.read, Preloaded);
    FilterWithin(clnt.read, Dynamic);
    SplitInTwo(clnt.read);
    forall i, j | 0 <= i < j < |clnt.unloaded| ensures Before(clnt, i, j) {
      assert Precedes(DevicePriority, items, p[i], p[j]);
    }
    forall i | 0 <= i < |clnt.dynamics| ensures clnt.dynamics[i].data.preload == 2 {
      assert DataOf(clnt.dynamics)[i] == clnt.dynamics[i].data;
    }
  }

  /** The smaller priority number comes first, and of two with the same number the one read later. */
  ghost predicate Before(clnt: DevHostServiceClnt, i: nat, j: nat)
    requires i < |clnt.unloaded| == |clnt.order| && j < |clnt.unloaded|
    reads clnt
  {
    || clnt.unloaded[i].data.priority < clnt.unloaded[j].data.priority
    || (clnt.unloaded[i].data.priority == clnt.unloaded[j].data.priority && clnt.order[i] > clnt.order[j])
  }

  lemma {:induction false} SplitInTwo(read: seq<DeviceInfo>)
    ensures |Filter(read, Preloaded)| + |Filter(read, Dynamic)| == |read|
  {
    if read != [] {
      SplitInTwo(read[..|read| - 1]);
    }
  }
}
