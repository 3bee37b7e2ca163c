/**
  The lists made from the configuration at boot (core/common/src/hdf_attribute.c): hosts by
  priority, and for each host its devices by priority. The configuration tree is an input, and
  so is the success of each allocation.
 */
module Boot {
  import opened Bytes
  import opened Seqs
  import opened SList

  const MAX_PRIORITY_NUM := 200
  const SERVICE_POLICY_INVALID := 5

  // ---------------------------------------------------------------- insertion by priority

  /** Item a is placed before item b: the smaller priority first, and the later item first in a tie. */
  ghost predicate Precedes<T(!new)>(prio: T -> nat, items: seq<T>, a: nat, b: nat)
    requires a < |items| && b < |items|
  {
    prio(items[a]) < prio(items[b]) || (prio(items[a]) == prio(items[b]) && a > b)
  }

  ghost predicate Indices<T>(items: seq<T>, p: seq<nat>) {
    forall i :: 0 <= i < |p| ==> p[i] < |items|
  }

  /** p lists the positions of all items once each, by priority, ties in reverse order. */
  ghost predicate Arranged<T(!new)>(prio: T -> nat, items: seq<T>, p: seq<nat>) {
    && Indices(items, p) && |p| == |items|
    && (forall x :: 0 <= x < |items| ==> x in p)
    && (forall i, j :: 0 <= i < j < |p| ==> Precedes(prio, items, p[i], p[j]))
  }

  /** There is only one such arrangement. */
  lemma {:induction false} ArrangedUnique<T(!new)>(prio: T -> nat, items: seq<T>, p: seq<nat>, q: seq<nat>, k: nat)
    requires Arranged(prio, items, p) && Arranged(prio, items, q)
    requires k <= |items| && p[..k] == q[..k]
    ensures p == q
    decreases |items| - k
  {
    if k == |items| {
      assert p[..k] == p && q[..k] == q;
    } else {
      assert q[k] in p && p[k] in q;
      var i :| 0 <= i < |p| && p[i] == q[k];
      var j :| 0 <= j < |q| && q[j] == p[k];
      assert forall m :: 0 <= m < k ==> p[m] == p[..k][m] == q[..k][m] == q[m];
      assert forall m :: 0 <= m < k ==> Precedes(prio, items, q[m], q[k]) && Precedes(prio, items, p[m], p[k]);
      PrefixNext(p, q, k);
      ArrangedUnique(prio, items, p, q, k + 1);
    }
  }

  lemma PrefixNext<T>(p: seq<T>, q: seq<T>, k: nat)
    requires k < |p| && k < |q| && p[..k] == q[..k] && p[k] == q[k]
    ensures p[..k + 1] == q[..k + 1]
  {
    assert p[..k + 1] == p[..k] + [p[k]] && q[..k + 1] == q[..k] + [q[k]];
  }

  /** The list nodes carry the items in the order p. */
  ghost predicate Carries<T>(s: seq<Node<T>>, items: seq<T>, p: seq<nat>)
    requires Indices(items, p)
  {
    |s| == |p| && forall i :: 0 <= i < |s| ==> s[i].data == items[p[i]]
  }

  /** The list nodes carry exactly the items, by priority. */
  ghost predicate ByPriority<T(!new)>(prio: T -> nat, s: seq<Node<T>>, items: seq<T>, p: seq<nat>) {
    Arranged(prio, items, p) && Carries(s, items, p)
  }

  lemma {:induction false} ArrangedInsert<T(!new)>(prio: T -> nat, items: seq<T>, p: seq<nat>, x: T, k: nat)
    requires Arranged(prio, items, p) && k <= |p|
    requires forall i :: 0 <= i < k ==> prio(items[p[i]]) < prio(x)
    requires k < |p| ==> prio(x) <= prio(items[p[k]])
    ensures Arranged(prio, items + [x], InsertAt<nat>(p, k, |items|))
  {
    var all, q := items + [x], InsertAt<nat>(p, k, |items|);
    forall y | 0 <= y < |all| ensures y in q {
      if y == |items| {
        assert q[k] == y;
      } else {
        assert y in p;
        var i :| 0 <= i < |p| && p[i] == y;
        assert q[if i < k then i else i + 1] == y;
      }
    }
    forall i, j | 0 <= i < j < |q| ensures Precedes(prio, all, q[i], q[j]) {
      InsertPrecedes(prio, items, p, x, k, i, j);
    }
  }

  lemma {:induction false} InsertPrecedes<T(!new)>(prio: T -> nat, items: seq<T>, p: seq<nat>, x: T, k: nat, i: nat, j: nat)
    requires Arranged(prio, items, p) && k <= |p| && i < j <= |p|
    requires forall i :: 0 <= i < k ==> prio(items[p[i]]) < prio(x)
    requires k < |p| ==> prio(x) <= prio(items[p[k]])
    ensures var q := InsertAt<nat>(p, k, |items|);
            q[i] <= |items| && q[j] <= |items| && Precedes(prio, items + [x], q[i], q[j])
  {
    var a, b := if i < k then i else i - 1, if j < k then j else j - 1;
    if i == k {
      if b > k {
        assert Precedes(prio, items, p[k], p[b]);
      }
    } else if j != k {
      assert Precedes(prio, items, p[a], p[b]);
    }
  }

  lemma NothingArranged<T(!new)>(prio: T -> nat)
    ensures ByPriority<T>(prio, [], [], [])
  {
  }

  /** A new item goes into the list in front of the first one that is not smaller. */
  method InsertByPriority<T(!new)>(head: Node<T>, x: T, prio: T -> nat,
                                   ghost s: seq<Node<T>>, ghost items: seq<T>, ghost p: seq<nat>)
    returns (ghost s': seq<Node<T>>, ghost p': seq<nat>)
    requires IsList(head, s) && ByPriority(prio, s, items, p)
    modifies head, s
    ensures IsList(head, s') && ByPriority(prio, s', items + [x], p')
    ensures forall i :: 0 <= i < |s'| ==> s'[i] in s || fresh(s'[i])
  {
    hide IsList, ByPriority, InsertAt, FirstNotSmaller;
    var link := new Node(x);
    var le := (a: T, b: T) => prio(a) <= prio(b);
    ghost var d := DataOf(s);
    SortedData(prio, s, items, p, le);
    var ok;
    ghost var k;
    ok, k := AddOrder(head, link, le, s);
    PlacedByPriority(prio, s, items, p, le, link, k);
    s', p' := InsertAt(s, k, link), InsertAt<nat>(p, k, |items|);
    OldOrNew(s, k, link);
  }

  lemma OldOrNew<X>(s: seq<X>, k: nat, x: X)
    requires k <= |s|
    ensures forall i :: 0 <= i < |InsertAt(s, k, x)| ==> InsertAt(s, k, x)[i] in s || InsertAt(s, k, x)[i] == x
  {
  }

  lemma {:induction false} PlacedByPriority<T(!new)>(prio: T -> nat, s: seq<Node<T>>, items: seq<T>, p: seq<nat>,
                                                     le: (T, T) -> bool, link: Node<T>, k: nat)
    requires ByPriority(prio, s, items, p) && FirstNotSmaller(le, DataOf(s), link.data, k)
    requires forall a, b :: le(a, b) <==> prio(a) <= prio(b)
    ensures k <= |s| == |p|
    ensures ByPriority(prio, InsertAt(s, k, link), items + [link.data], InsertAt<nat>(p, k, |items|))
  {
    hide Arranged;
    LengthsAgree(prio, items, p);
    ArrangedInsert(prio, items, p, link.data, k);
  }

  lemma LengthsAgree<T(!new)>(prio: T -> nat, items: seq<T>, p: seq<nat>)
    requires Arranged(prio, items, p)
    ensures Indices(items, p) && |p| == |items|
  {
  }

  lemma {:induction false} SortedData<T(!new)>(prio: T -> nat, s: seq<Node<T>>, items: seq<T>, p: seq<nat>,
                                               le: (T, T) -> bool)
    requires ByPriority(prio, s, items, p)
    requires forall a, b :: le(a, b) <==> prio(a) <= prio(b)
    ensures SortedBy(le, DataOf(s)) && forall x: T :: TotalPreorderOn(le, DataOf(s) + [x])
  {
    var d := DataOf(s);
    forall i, j | 0 <= i < j < |d| ensures le(d[i], d[j]) {
      assert Precedes(prio, items, p[i], p[j]);
    }
  }

  // ---------------------------------------------------------------- hosts

  /** A host node of the configuration with its devices; an attribute that cannot be read is absent. */
  datatype HostConfig = HostConfig(name: Option<seq<byte>>, priority: Option<nat>, devices: seq<seq<NodeConfig>>)

  datatype HostInfo = HostInfo(hostId: nat, name: seq<byte>, priority: nat)

  /** GetHostInfo. */
  predicate ValidHost(c: HostConfig) {
    c.name.Some? && c.name.value != [] && c.priority.Some? && c.priority.value <= MAX_PRIORITY_NUM
  }

  /** The valid hosts in configuration order. */
  function ValidHosts(config: seq<HostConfig>): (v: seq<HostConfig>)
    ensures forall i :: 0 <= i < |v| ==> ValidHost(v[i])
  {
    if config == [] then []
    else
      var c := config[|config| - 1];
      ValidHosts(config[..|config| - 1]) + if ValidHost(c) then [c] else []
  }

  /** The id of the i-th valid host: ids count from 0 in a uint16_t. */
  function HostId(i: nat): nat {
    i % 0x10000
  }

  function HostInfos(config: seq<HostConfig>): (infos: seq<HostInfo>)
    ensures |infos| == |ValidHosts(config)|
    ensures forall i :: 0 <= i < |infos| ==>
              infos[i] == HostInfo(HostId(i), ValidHosts(config)[i].name.value, ValidHosts(config)[i].priority.value)
  {
    var v := ValidHosts(config);
    seq(|v|, i requires 0 <= i < |v| => HostInfo(HostId(i), v[i].name.value, v[i].priority.value))
  }

  function HostPriority(h: HostInfo): nat {
    h.priority
  }

  /** HdfAttributeManagerGetHostList on an empty list; the hosts are absent without a manager node. */
  method GetHostList(head: Node<HostInfo>, hosts: Option<seq<HostConfig>>, mem: nat -> bool)
    returns (ok: bool, ghost s: seq<Node<HostInfo>>, ghost p: seq<nat>)
    requires IsList(head, [])
    modifies head
    ensures ok <==> hosts.Some? && forall i :: 0 <= i < |hosts.value| ==> mem(i)
    ensures IsList(head, s) && (!ok ==> s == []) && forall j :: 0 <= j < |s| ==> fresh(s[j])
    ensures ok ==> ByPriority(HostPriority, s, HostInfos(hosts.value), p)
    ensures ok ==> HostsRise(s, p)
  {
    if hosts.None? {
      return false, [], [];
    }
    ok, s, p := ReadHosts(head, hosts.value, mem);
    if ok {
      ListedRise(s, HostInfos(hosts.value), p);
    }
  }

  /** Hosts of lower priority number first, and of two with the same number the later configured. */
  ghost predicate HostsRise(s: seq<Node<HostInfo>>, p: seq<nat>) {
    |p| == |s| && forall i, j :: 0 <= i < j < |s| ==>
                    || s[i].data.priority < s[j].data.priority
                    || (s[i].data.priority == s[j].data.priority && p[i] > p[j])
  }

  lemma {:induction false} ListedRise(s: seq<Node<HostInfo>>, infos: seq<HostInfo>, p: seq<nat>)
    requires ByPriority(HostPriority, s, infos, p)
    ensures HostsRise(s, p)
  {
    assert forall i, j :: 0 <= i < j < |p| ==> Precedes(HostPriority, infos, p[i], p[j]);
  }

  /** The loop over the hosts of the configuration. */
  method ReadHosts(head: Node<HostInfo>, config: seq<HostConfig>, mem: nat -> bool)
    returns (ok: bool, ghost s: seq<Node<HostInfo>>, ghost p: seq<nat>)
    requires IsList(head, [])
    modifies head
    ensures ok <==> forall i :: 0 <= i < |config| ==> mem(i)
    ensures IsList(head, s) && (!ok ==> s == []) && forall j :: 0 <= j < |s| ==> fresh(s[j])
    ensures ok ==> ByPriority(HostPriority, s, HostInfos(config), p)
  {
    hide IsList, ByPriority, HostInfos, ValidHosts, HostId;
    s, p := [], [];
    NothingArranged<HostInfo>(HostPriority);
    NoHosts(config);
    var hostId := 0;
    for i := 0 to |config|
      invariant IsList(head, s) && forall j :: 0 <= j < |s| ==> fresh(s[j])
      invariant ByPriority(HostPriority, s, HostInfos(config[..i]), p)
      invariant hostId == HostId(|HostInfos(config[..i])|)
      invariant forall j :: 0 <= j < i ==> mem(j)
    {
      if !mem(i) {
        var deleted := Flush(head, s);
        return false, [], [];
      }
      s, p, hostId := ReadHost(head, config, i, hostId, s, p);
    }
    assert config[..|config|] == config;
    ok := true;
  }

  /** One turn of the loop: a valid host goes into the list under the next id. */
  method ReadHost(head: Node<HostInfo>, config: seq<HostConfig>, i: nat, hostId: nat,
                  ghost s: seq<Node<HostInfo>>, ghost p: seq<nat>)
    returns (ghost s': seq<Node<HostInfo>>, ghost p': seq<nat>, hostId': nat)
    requires i < |config| && IsList(head, s) && ByPriority(HostPriority, s, HostInfos(config[..i]), p)
    requires hostId == HostId(|HostInfos(config[..i])|)
    modifies head, s
    ensures IsList(head, s') && ByPriority(HostPriority, s', HostInfos(config[..i + 1]), p')
    ensures forall j :: 0 <= j < |s'| ==> s'[j] in s || fresh(s'[j])
    ensures hostId' == HostId(|HostInfos(config[..i + 1])|)
  {
    hide IsList, ByPriority, HostInfos, ValidHosts, HostId;
    s', p', hostId' := s, p, hostId;
    var c := config[i];
    HostInfosNext(config, i);
    if ValidHost(c) {
      var info := HostInfo(hostId, c.name.value, c.priority.value);
      s', p' := InsertByPriority(head, info, HostPriority, s, HostInfos(config[..i]), p);
      hostId' := (hostId + 1) % 0x10000;
    }
  }

  lemma NoHosts(config: seq<HostConfig>)
    ensures HostInfos(config[..0]) == [] && HostId(0) == 0
  {
  }

  lemma {:induction false} HostInfosNext(config: seq<HostConfig>, i: nat)
    requires i < |config|
    ensures var before := HostInfos(config[..i]);
            HostInfos(config[..i + 1])
            == if ValidHost(config[i])
               then before + [HostInfo(HostId(|before|), config[i].name.value, config[i].priority.value)]
               else before
    ensures var before := HostInfos(config[..i]);
            HostId(|before| + 1) == (HostId(|before|) + 1) % 0x10000
  {
    assert config[..i + 1][..i] == config[..i];
  }

  // ---------------------------------------------------------------- devices

  const DEVICE_PRELOAD_ENABLE := 0
  const DEVICE_PRELOAD_ENABLE_STEP2 := 1
  const DEVICE_PRELOAD_DISABLE := 2
  const DEVICE_PRELOAD_INVALID := 3

  /** A device node of the configuration, with the defaults filled in for absent numbers. */
  datatype NodeConfig =
    NodeConfig(policy: nat, priority: nat, preload: nat, moduleName: Option<seq<byte>>, svcName: Option<seq<byte>>)

  datatype DeviceInfo = DeviceInfo(deviceId: nat, policy: nat, priority: nat, preload: nat,
                                   moduleName: seq<byte>, svcName: seq<byte>)

  /** GetDeviceNodeInfo with CheckDeviceInfo. */
  predicate ValidNode(c: NodeConfig) {
    && c.moduleName.Some? && c.svcName.Some?
    && c.policy < SERVICE_POLICY_INVALID && c.priority <= MAX_PRIORITY_NUM && c.preload < DEVICE_PRELOAD_INVALID
    && c.moduleName.value != []
  }

  /** MK_DEVID in 32 bits: eight bits of host id, sixteen of device id, eight of node id. */
  function MkDevId(hostId: nat, deviceIdx: nat, nodeIdx: nat): nat
    requires deviceIdx < 0x10000 && nodeIdx < 0x100
  {
    hostId % 0x100 * 0x100_0000 + deviceIdx * 0x100 + nodeIdx
  }

  /** The id of the i-th valid node: ids count from 1 in a uint8_t. */
  function NodeIdx(i: nat): (idx: nat)
    ensures idx < 0x100
  {
    (1 + i) % 0x100
  }

  lemma NodeIdxTested(n: nat)
    ensures NodeIdx(n) > 1 <==> n % 0x100 !in {0, 0xFF}
  {
  }

  /** The valid nodes of a device. */
  function NodeInfos(nodes: seq<NodeConfig>, hostId: nat, deviceIdx: nat): seq<DeviceInfo>
    requires deviceIdx < 0x10000
  {
    if nodes == [] then []
    else
      var c, before := nodes[|nodes| - 1], NodeInfos(nodes[..|nodes| - 1], hostId, deviceIdx);
      if !ValidNode(c) then before
      else before + [DeviceInfo(MkDevId(hostId, deviceIdx, NodeIdx(|before|)), c.policy, c.priority, c.preload,
                                c.moduleName.value, c.svcName.value)]
  }

  /** The id of the i-th device: ids count from 1 in a uint16_t. */
  function DeviceIdx(i: nat): (idx: nat)
    ensures idx < 0x10000
  {
    (1 + i) % 0x10000
  }

  lemma DeviceIdxNext(i: nat)
    ensures DeviceIdx(0) == 1 && DeviceIdx(i + 1) == (DeviceIdx(i) + 1) % 0x10000
  {
  }

  /** The nodes of all devices. */
  function DeviceInfos(devices: seq<seq<NodeConfig>>, hostId: nat): seq<DeviceInfo> {
    if devices == [] then []
    else
      var n := |devices| - 1;
      DeviceInfos(devices[..n], hostId) + NodeInfos(devices[n], hostId, DeviceIdx(n))
  }

  function DevicePriority(d: DeviceInfo): nat {
    d.priority
  }

  predicate Preloaded(d: DeviceInfo) {
    d.preload != DEVICE_PRELOAD_DISABLE
  }

  predicate Dynamic(d: DeviceInfo) {
    d.preload == DEVICE_PRELOAD_DISABLE
  }

  /**
    The device lists of a host. The ghost fields are the nodes of the two lists, the order of the
    first, and all device nodes read so far.
   */
  class DevHostServiceClnt {
    const hostId: nat
    const unloadDevInfos: Node<DeviceInfo>
    const dynamicDevInfos: Node<DeviceInfo>
    ghost var unloaded: seq<Node<DeviceInfo>>
    ghost var dynamics: seq<Node<DeviceInfo>>
    ghost var order: seq<nat>
    ghost var repr: set<Node<DeviceInfo>>
    ghost var read: seq<DeviceInfo>

    ghost predicate Separate()
      reads this
    {
      && unloadDevInfos != dynamicDevInfos && unloadDevInfos !in dynamics && dynamicDevInfos !in unloaded
      && forall i, j :: 0 <= i < |unloaded| && 0 <= j < |dynamics| ==> unloaded[i] != dynamics[j]
    }

    /** One list holds the preloaded devices by priority, the other the dynamic ones, last read first. */
    ghost predicate Valid()
      reads this, repr
    {
      && unloadDevInfos in repr && dynamicDevInfos in repr
      && (forall i :: 0 <= i < |unloaded| ==> unloaded[i] in repr)
      && (forall i :: 0 <= i < |dynamics| ==> dynamics[i] in repr)
      && Separate() && IsList(unloadDevInfos, unloaded) && IsList(dynamicDevInfos, dynamics)
      && ByPriority(DevicePriority, unloaded, Filter(read, Preloaded), order)
      && DataOf(dynamics) == Reversed(Filter(read, Dynamic))
    }

    constructor (hostId: nat)
      ensures Valid() && this.hostId == hostId && read == [] && unloaded == [] && dynamics == []
      ensures fresh(repr)
    {
      var none := DeviceInfo(0, 0, 0, 0, [], []);
      this.hostId := hostId;
      unloadDevInfos := new Node(none);
      dynamicDevInfos := new Node(none);
      unloaded, dynamics, order, read := [], [], [], [];
      repr := {unloadDevInfos, dynamicDevInfos};
      new;
      hide ByPriority;
      NothingArranged<DeviceInfo>(DevicePriority);
    }

    /** HdfSListIsEmpty of the preloaded devices. */
    method NonePreloaded() returns (b: bool)
      requires Valid()
      ensures b <==> unloaded == []
      ensures b <==> Filter(read, Preloaded) == []
    {
      b := unloadDevInfos.next == null;
    }

    method AddPreloaded(info: DeviceInfo)
      requires Valid() && info.preload != DEVICE_PRELOAD_DISABLE
      modifies this, repr
      ensures Valid() && read == old(read) + [info] && fresh(repr - old(repr))
    {
      hide ByPriority, IsList, Filter, DataOf;
      FilterSnoc(read, info, Preloaded);
      FilterSnoc(read, info, Dynamic);
      ghost var before := unloaded;
      unloaded, order := InsertByPriority(unloadDevInfos, info, DevicePriority, unloaded, Filter(read, Preloaded), order);
      assert forall i :: 0 <= i < |unloaded| ==> unloaded[i] in repr || fresh(unloaded[i]);
      repr := repr + set i | 0 <= i < |unloaded| :: unloaded[i];
      read := read + [info];
    }

    method AddDynamic(info: DeviceInfo)
      requires Valid() && info.preload == DEVICE_PRELOAD_DISABLE
      modifies this, repr
      ensures Valid() && read == old(read) + [info] && fresh(repr - old(repr))
    {
      hide ByPriority, IsList, Filter;
      FilterSnoc(read, info, Preloaded);
      FilterSnoc(read, info, Dynamic);
      var link := new Node(info);
      Add(dynamicDevInfos, link, dynamics);
      dynamics := [link] + dynamics;
      repr := repr + {link};
      read := read + [info];
    }

    /** A valid node goes into the list for its kind. */
    method AddNode(c: NodeConfig, deviceIdx: nat, nodeIdx: nat)
      requires Valid() && ValidNode(c) && deviceIdx < 0x10000 && nodeIdx < 0x100
      modifies this, repr
      ensures Valid() && fresh(repr - old(repr))
      ensures read == old(read) + [DeviceInfo(MkDevId(hostId, deviceIdx, nodeIdx), c.policy, c.priority, c.preload,
                                              c.moduleName.value, c.svcName.value)]
    {
      hide Valid, MkDevId;
      var info := DeviceInfo(MkDevId(hostId, deviceIdx, nodeIdx), c.policy, c.priority, c.preload,
                             c.moduleName.value, c.svcName.value);
      if info.preload != DEVICE_PRELOAD_DISABLE {
        AddPreloaded(info);
      } else {
        AddDynamic(info);
      }
    }

    /**
      GetDevcieNodeList: it reports success exactly when the number of valid nodes is not 0 or
      255 modulo 256, since the node counter that it tests has eight bits.
     */
    method GetDeviceNodeList(nodes: seq<NodeConfig>, deviceIdx: nat, mem: nat -> bool) returns (ok: bool)
      requires Valid() && deviceIdx < 0x10000
      modifies this, repr
      ensures Valid()
      ensures fresh(repr - old(repr))
      ensures ok <==> DeviceAccepted(nodes, hostId, deviceIdx, mem)
      ensures ok ==> read == old(read) + NodeInfos(nodes, hostId, deviceIdx)
    {
      hide Valid, NodeInfos, NodeIdx;
      NoNodes(nodes, hostId, deviceIdx);
      var deviceNodeIdx := 1;
      for i := 0 to |nodes|
        invariant Valid() && read == old(read) + NodeInfos(nodes[..i], hostId, deviceIdx)
        invariant fresh(repr - old(repr))
        invariant deviceNodeIdx == NodeIdx(|NodeInfos(nodes[..i], hostId, deviceIdx)|)
        invariant forall j :: 0 <= j < i ==> mem(j)
      {
        if !mem(i) {
          return false;
        }
        deviceNodeIdx := ReadNode(nodes[i], deviceIdx, deviceNodeIdx, nodes, i);
      }
      assert nodes[..|nodes|] == nodes;
      NodeIdxTested(|NodeInfos(nodes, hostId, deviceIdx)|);
      return deviceNodeIdx > 1;
    }

    /** One turn of the loop: a valid node goes into its list under the next id. */
    method ReadNode(c: NodeConfig, deviceIdx: nat, nodeIdx: nat, ghost nodes: seq<NodeConfig>, ghost i: nat)
      returns (nodeIdx': nat)
      requires Valid() && deviceIdx < 0x10000 && i < |nodes| && c == nodes[i]
      requires nodeIdx == NodeIdx(|NodeInfos(nodes[..i], hostId, deviceIdx)|)
      modifies this, repr
      ensures Valid() && fresh(repr - old(repr))
      ensures forall before :: old(read) == before + NodeInfos(nodes[..i], hostId, deviceIdx) ==>
                read == before + NodeInfos(nodes[..i + 1], hostId, deviceIdx)
      ensures nodeIdx' == NodeIdx(|NodeInfos(nodes[..i + 1], hostId, deviceIdx)|)
    {
      hide Valid, NodeInfos, MkDevId, NodeIdx;
      NodeInfosNext(nodes, hostId, deviceIdx, i);
      nodeIdx' := nodeIdx;
      if ValidNode(c) {
        AddNode(c, deviceIdx, nodeIdx);
        nodeIdx' := (nodeIdx + 1) % 0x100;
      }
    }

    /** HdfAttributeManagerGetDeviceList; the devices are absent if the host is not configured. */
    method GetDeviceList(config: Option<seq<seq<NodeConfig>>>, mem: nat -> nat -> bool) returns (ok: bool)
      requires Valid()
      modifies this, repr
      ensures Valid() && fresh(repr - old(repr))
      ensures ok <==> config.Some? && AllAccepted(config.value, hostId, mem)
      ensures ok ==> read == old(read) + DeviceInfos(config.value, hostId)
    {
      if config.None? {
        return false;
      }
      ok := ReadDevices(config.value, mem);
    }

    /** The loop over the devices of a host. */
    method ReadDevices(devices: seq<seq<NodeConfig>>, mem: nat -> nat -> bool) returns (ok: bool)
      requires Valid()
      modifies this, repr
      ensures Valid() && fresh(repr - old(repr))
      ensures ok <==> AllAccepted(devices, hostId, mem)
      ensures ok ==> read == old(read) + DeviceInfos(devices, hostId)
    {
      hide Valid, DeviceAccepted, NodeInfos, DeviceIdx, DeviceInfos;
      NoDevices(devices, hostId);
      DeviceIdxNext(0);
      var deviceIdx := 1;
      for i := 0 to |devices|
        invariant Valid() && read == old(read) + DeviceInfos(devices[..i], hostId) && deviceIdx == DeviceIdx(i)
        invariant fresh(repr - old(repr))
        invariant forall j :: 0 <= j < i ==> DeviceAccepted(devices[j], hostId, DeviceIdx(j), mem(j))
      {
        DeviceInfosNext(devices, hostId, i);
        DeviceIdxNext(i);
        var good := GetDeviceNodeList(devices[i], deviceIdx, mem(i));
        if !good {
          return false;
        }
        deviceIdx := (deviceIdx + 1) % 0x10000;
      }
      assert devices[..|devices|] == devices;
      return true;
    }
  }

  lemma NoNodes(nodes: seq<NodeConfig>, hostId: nat, deviceIdx: nat)
    requires deviceIdx < 0x10000
    ensures NodeInfos(nodes[..0], hostId, deviceIdx) == [] && NodeIdx(0) == 1
  {
  }

  lemma {:induction false} NodeInfosNext(nodes: seq<NodeConfig>, hostId: nat, deviceIdx: nat, i: nat)
    requires deviceIdx < 0x10000 && i < |nodes|
    ensures var c, before := nodes[i], NodeInfos(nodes[..i], hostId, deviceIdx);
            var idx := NodeIdx(|before|);
            && NodeInfos(nodes[..i + 1], hostId, deviceIdx)
               == (if !ValidNode(c) then before
                   else before + [DeviceInfo(MkDevId(hostId, deviceIdx, idx), c.policy, c.priority, c.preload,
                                             c.moduleName.value, c.svcName.value)])
            && NodeIdx(|before| + 1) == (idx + 1) % 0x100
  {
    assert nodes[..i + 1][..i] == nodes[..i];
  }

  lemma NoDevices(devices: seq<seq<NodeConfig>>, hostId: nat)
    ensures DeviceInfos(devices[..0], hostId) == []
  {
  }

  lemma {:induction false} DeviceInfosNext(devices: seq<seq<NodeConfig>>, hostId: nat, i: nat)
    requires i < |devices|
    ensures DeviceInfos(devices[..i + 1], hostId)
            == DeviceInfos(devices[..i], hostId) + NodeInfos(devices[i], hostId, DeviceIdx(i))
  {
    assert devices[..i + 1][..i] == devices[..i];
  }

  predicate Named(name: seq<byte>, c: HostConfig) {
    c.name == Some(name)
  }

  /** GetHostNode: the devices of the first host node with the name. */
  method GetHostNode(config: seq<HostConfig>, name: seq<byte>) returns (devices: Option<seq<seq<NodeConfig>>>)
    ensures devices == ConfiguredDevices(config, name)
    ensures devices.None? ==> forall j :: 0 <= j < |config| ==> config[j].name != Some(name)
    ensures devices.Some? ==>
              exists i :: 0 <= i < |config| && FirstWithName(config, name, i) && devices.value == config[i].devices
  {
    var i := Search(config, (c: HostConfig) => Named(name, c));
    devices := if i < |config| then Some(config[i].devices) else None;
    FirstNamed(config, name, i);
    assert forall j :: 0 <= j < i ==> !Named(name, config[j]);
    assert i < |config| ==> FirstWithName(config, name, i);
  }

  predicate FirstWithName(config: seq<HostConfig>, name: seq<byte>, i: nat)
    requires i < |config|
  {
    config[i].name == Some(name) && forall j :: 0 <= j < i ==> config[j].name != Some(name)
  }

  function ConfiguredDevices(config: seq<HostConfig>, name: seq<byte>): Option<seq<seq<NodeConfig>>> {
    if config == [] then None
    else if Named(name, config[0]) then Some(config[0].devices)
    else ConfiguredDevices(config[1..], name)
  }

  lemma {:induction false} FirstNamed(config: seq<HostConfig>, name: seq<byte>, i: nat)
    requires i <= |config| && (i < |config| ==> Named(name, config[i]))
    requires forall j :: 0 <= j < i ==> !Named(name, config[j])
    ensures ConfiguredDevices(config, name) == if i < |config| then Some(config[i].devices) else None
  {
    if i > 0 {
      assert forall j :: 0 <= j < i - 1 ==> config[1..][j] == config[j + 1];
      FirstNamed(config[1..], name, i - 1);
    }
  }

  predicate AllAccepted(devices: seq<seq<NodeConfig>>, hostId: nat, mem: nat -> nat -> bool) {
    forall i :: 0 <= i < |devices| ==> DeviceAccepted(devices[i], hostId, DeviceIdx(i), mem(i))
  }

  predicate DeviceAccepted(nodes: seq<NodeConfig>, hostId: nat, deviceIdx: nat, mem: nat -> bool)
    requires deviceIdx < 0x10000
  {
    && (forall i :: 0 <= i < |nodes| ==> mem(i))
    && |NodeInfos(nodes, hostId, deviceIdx)| % 0x100 !in {0, 0xFF}
  }

  /** A device of 255 valid nodes is refused although every node was read into its list. */
  lemma {:induction false} FullDeviceRefused(nodes: seq<NodeConfig>, hostId: nat, deviceIdx: nat, mem: nat -> bool)
    requires deviceIdx < 0x10000 && |nodes| == 255 && forall i :: 0 <= i < |nodes| ==> ValidNode(nodes[i])
    ensures |NodeInfos(nodes, hostId, deviceIdx)| == 255 && !DeviceAccepted(nodes, hostId, deviceIdx, mem)
  {
    AllNodesRead(nodes, hostId, deviceIdx);
  }

  lemma {:induction false} AllNodesRead(nodes: seq<NodeConfig>, hostId: nat, deviceIdx: nat)
    requires deviceIdx < 0x10000 && forall i :: 0 <= i < |nodes| ==> ValidNode(nodes[i])
    ensures |NodeInfos(nodes, hostId, deviceIdx)| == |nodes|
  {
    if nodes != [] {
      AllNodesRead(nodes[..|nodes| - 1], hostId, deviceIdx);
    }
  }

  // ---------------------------------------------------------------- device ids

  /** Node ids rise as long as the counter does not wrap. */
  lemma {:induction false} NodeIdsRise(nodes: seq<NodeConfig>, hostId: nat, deviceIdx: nat)
    requires deviceIdx < 0x10000 && |NodeInfos(nodes, hostId, deviceIdx)| <= 0xFF
    ensures var infos := NodeInfos(nodes, hostId, deviceIdx);
            forall i :: 0 <= i < |infos| ==> infos[i].deviceId == MkDevId(hostId, deviceIdx, 1 + i)
  {
    if nodes != [] {
      NodeIdsRise(nodes[..|nodes| - 1], hostId, deviceIdx);
    }
  }

  /**
    No two device nodes of a host have the same id, as long as no device has more than 255 valid
    nodes and the host has fewer than 65536 devices: ids rise in configuration order.
   */
  lemma {:induction false} DeviceIdsRise(devices: seq<seq<NodeConfig>>, hostId: nat)
    requires |devices| < 0x10000
    requires forall d :: 0 <= d < |devices| ==> |NodeInfos(devices[d], hostId, 1 + d)| <= 0xFF
    ensures IdsRise(DeviceInfos(devices, hostId))
  {
    if devices != [] {
      var n := |devices| - 1;
      var before, more := DeviceInfos(devices[..n], hostId), NodeInfos(devices[n], hostId, 1 + n);
      DeviceIdsRise(devices[..n], hostId);
      DeviceIdsBelow(devices[..n], hostId);
      NodeIdsRise(devices[n], hostId, 1 + n);
      assert forall i :: 0 <= i < |more| ==> more[i].deviceId == hostId % 0x100 * 0x100_0000 + (n + 1) * 0x100 + 1 + i;
      assert DeviceInfos(devices, hostId) == before + more;
      var all: seq<DeviceInfo> := before + more;
      forall i, j | 0 <= i < j < |all| ensures all[i].deviceId < all[j].deviceId {
        if i < |before| {
          assert all[i] == before[i];
        } else {
          assert all[i] == more[i - |before|];
        }
        if j < |before| {
          assert all[j] == before[j];
        } else {
          assert all[j] == more[j - |before|];
        }
      }
    }
  }

  ghost predicate IdsRise(infos: seq<DeviceInfo>) {
    forall i, j :: 0 <= i < j < |infos| ==> infos[i].deviceId < infos[j].deviceId
  }

  ghost predicate AllBelow(infos: seq<DeviceInfo>, bound: nat) {
    forall i :: 0 <= i < |infos| ==> infos[i].deviceId < bound
  }

  lemma {:induction false} DeviceIdsBelow(devices: seq<seq<NodeConfig>>, hostId: nat)
    requires |devices| < 0x10000
    requires forall d :: 0 <= d < |devices| ==> |NodeInfos(devices[d], hostId, 1 + d)| <= 0xFF
    ensures AllBelow(DeviceInfos(devices, hostId), hostId % 0x100 * 0x100_0000 + (|devices| + 1) * 0x100)
  {
    if devices != [] {
      var n := |devices| - 1;
      var before, more := DeviceInfos(devices[..n], hostId), NodeInfos(devices[n], hostId, 1 + n);
      DeviceIdsBelow(devices[..n], hostId);
      NodeIdsRise(devices[n], hostId, 1 + n);
      var all: seq<DeviceInfo> := before + more;
      forall i | 0 <= i < |all|
        ensures all[i].deviceId < hostId % 0x100 * 0x100_0000 + (n + 2) * 0x100
      {
        if i < |before| {
          assert all[i] == before[i];
        } else {
          assert all[i] == more[i - |before|];
        }
      }
      assert DeviceIdx(n) == 1 + n;
    }
  }
}
