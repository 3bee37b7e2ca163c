/**
  What the start of all hosts comes to, told from the configuration and the answers of the
  environment: which hosts start, which devices are tried, and which of their nodes resume reaches.
 */
module BootRuns {
  import opened Bytes
  import opened Seqs
  import opened Boot
  import opened BootLists
  import opened Load
  import opened Startup
  import PO = PowerOrder
  import PR = PowerRuns

  // ---------------------------------------------------------------- which hosts start

  /** All devices of a host can be read: memory is there, and no device has 0 or 255 nodes modulo 256. */
  ghost predicate CanBeRead(devices: seq<seq<NodeConfig>>, mem: nat -> nat -> bool) {
    forall d :: 0 <= d < |devices| ==>
      (forall k :: 0 <= k < |devices[d]| ==> mem(d)(k)) && NodeCount(devices[d]) % 256 !in {0, 255}
  }

  /** No node taken is to be loaded before it is asked for. */
  ghost predicate OnlyDynamic(devices: seq<seq<NodeConfig>>) {
    forall d :: 0 <= d < |devices| ==> DynamicNodes(devices[d])
  }

  ghost predicate DynamicNodes(nodes: seq<NodeConfig>) {
    forall k :: 0 <= k < |nodes| && TakesNode(nodes[k]) ==> nodes[k].preload == 2
  }

  lemma {:induction false} DynamicNext(nodes: seq<NodeConfig>)
    ensures nodes != [] ==>
              var n := |nodes| - 1;
              (DynamicNodes(nodes) <==> DynamicNodes(nodes[..n]) && (TakesNode(nodes[n]) ==> nodes[n].preload == 2))
    ensures nodes == [] ==> DynamicNodes(nodes)
  {
    if nodes != [] {
      assert forall k :: 0 <= k < |nodes| - 1 ==> nodes[..|nodes| - 1][k] == nodes[k];
    }
  }

  lemma {:induction false} FirstIsConfigured(config: seq<HostConfig>, name: seq<byte>, i: nat)
    requires i < |config| && FirstWithName(config, name, i)
    ensures ConfiguredDevices(config, name) == Some(config[i].devices)
  {
    assert forall j :: 0 <= j < i ==> !Named(name, config[j]);
    FirstNamed(config, name, i);
  }

  lemma {:induction false} PreloadedNodes(nodes: seq<NodeConfig>, hostId: nat, deviceIdx: nat)
    requires deviceIdx < 0x10000
    ensures Filter(NodeInfos(nodes, hostId, deviceIdx), Preloaded) == [] <==> DynamicNodes(nodes)
  {
    DynamicNext(nodes);
    if nodes != [] {
      hide MkDevId, NodeIdx, Filter, DynamicNodes;
      var n := |nodes| - 1;
      PreloadedNodes(nodes[..n], hostId, deviceIdx);
      var before := NodeInfos(nodes[..n], hostId, deviceIdx);
      if ValidNode(nodes[n]) {
        FilterSnoc(before, NodeInfos(nodes, hostId, deviceIdx)[|before|], Preloaded);
      }
    } else {
      assert Filter<DeviceInfo>([], Preloaded) == [];
    }
  }

  lemma {:induction false} PreloadedDevices(devices: seq<seq<NodeConfig>>, hostId: nat)
    ensures Filter(DeviceInfos(devices, hostId), Preloaded) == [] <==> OnlyDynamic(devices)
  {
    if devices != [] {
      hide NodeInfos, Filter, DynamicNodes;
      var n := |devices| - 1;
      PreloadedDevices(devices[..n], hostId);
      PreloadedNodes(devices[n], hostId, DeviceIdx(n));
      FilterConcat(DeviceInfos(devices[..n], hostId), NodeInfos(devices[n], hostId, DeviceIdx(n)), Preloaded);
      assert forall d :: 0 <= d < n ==> devices[..n][d] == devices[d];
    } else {
      assert Filter<DeviceInfo>([], Preloaded) == [];
    }
  }

  /**
    A host starts if and only if there is memory for its client, all devices of the first host node
    with its name can be read, and the installer makes its service; but a host of dynamic devices
    only needs no service.
   */
  lemma {:induction false} StartsWhen(config: seq<HostConfig>, info: HostInfo, env: HostEnv, i: nat)
    requires i < |config| && FirstWithName(config, info.name, i)
    ensures Starts(config, info, env) <==>
            && env.clntMem && CanBeRead(config[i].devices, env.mem)
            && (OnlyDynamic(config[i].devices) || env.installs)
    ensures PreloadedOf(config, info) == [] <==> OnlyDynamic(config[i].devices)
  {
    hide DeviceAccepted, NodeInfos, Filter, OnlyDynamic;
    var devices := config[i].devices;
    FirstIsConfigured(config, info.name, i);
    PreloadedDevices(devices, info.hostId);
    forall d | 0 <= d < |devices|
      ensures DeviceAccepted(devices[d], info.hostId, DeviceIdx(d), env.mem(d)) <==>
              (forall k :: 0 <= k < |devices[d]| ==> env.mem(d)(k)) && NodeCount(devices[d]) % 256 !in {0, 255}
    {
      AcceptedWhen(devices[d], info.hostId, DeviceIdx(d), env.mem(d));
    }
  }

  // ---------------------------------------------------------------- which devices are tried

  /** Tried at the start: what is not disabled, in quick mode without what is left for the second phase. */
  function TriedAtStart(quick: bool): DeviceInfo -> bool {
    (d: DeviceInfo) => d.preload != 2 && !(quick && d.preload == 1)
  }

  /** p lists all positions below n once each. */
  ghost predicate Permutes(n: nat, p: seq<nat>) {
    && |p| == n && (forall i :: 0 <= i < |p| ==> p[i] < n) && (forall i, j :: 0 <= i < j < |p| ==> p[i] != p[j])
    && forall x :: 0 <= x < n ==> x in p
  }

  lemma {:induction false} Permuted<T>(items: seq<T>, p: seq<nat>)
    requires Permutes(|items|, p)
    ensures multiset(Sorted(items, p)) == multiset(items)
    decreases |items|
  {
    if items == [] {
      assert Sorted(items, p) == [];
    } else {
      var n := |items| - 1;
      assert n in p;
      var k :| 0 <= k < |p| && p[k] == n;
      var q := Without(p, k);
      StillPermutes(n, p, q, k);
      Permuted(items[..n], q);
      OneTakenOut(items, p, k);
      assert items == items[..n] + [items[n]];
    }
  }

  lemma {:induction false} OneTakenOut<T>(items: seq<T>, p: seq<nat>, k: nat)
    requires items != [] && Permutes(|items|, p) && k < |p| && p[k] == |items| - 1
    ensures Permutes(|items| - 1, Without(p, k))
    ensures multiset(Sorted(items, p))
            == multiset(Sorted(items[..|items| - 1], Without(p, k))) + multiset{items[|items| - 1]}
  {
    var n, s := |items| - 1, Sorted(items, p);
    StillPermutes(n, p, Without(p, k), k);
    assert s == s[..k] + [items[n]] + s[k + 1..];
    assert Sorted(items[..n], Without(p, k)) == s[..k] + s[k + 1..];
  }

  lemma {:induction false} StillPermutes(n: nat, p: seq<nat>, q: seq<nat>, k: nat)
    requires Permutes(n + 1, p) && k < |p| && p[k] == n && q == Without(p, k)
    ensures Permutes(n, q)
  {
    assert forall i :: 0 <= i < |q| ==> q[i] == p[if i < k then i else i + 1];
    forall x | 0 <= x < n ensures x in q {
      assert x in p;
      var i :| 0 <= i < |p| && p[i] == x;
      assert q[if i < k then i else i - 1] == x;
    }
  }

  lemma {:induction false} FilterCounts<T>(a: seq<T>, keep: T -> bool, x: T)
    ensures multiset(Filter(a, keep))[x] == if keep(x) then multiset(a)[x] else 0
  {
    if a != [] {
      var n := |a| - 1;
      FilterCounts(a[..n], keep, x);
      assert a == a[..n] + [a[n]];
    }
  }

  /** Exactly the preloaded devices of the phase are tried, each as often as it is configured. */
  lemma {:induction false} TriedExactly(config: seq<HostConfig>, info: HostInfo, quick: bool, tried: seq<DeviceInfo>)
    requires TriedInOrder(config, info, quick, tried)
    ensures multiset(tried) == multiset(Filter(PreloadedOf(config, info), TriedAtStart(quick)))
  {
    var items := PreloadedOf(config, info);
    var order :| Arranged(DevicePriority, items, order) && tried == Filter(Sorted(items, order), TriesOf(quick));
    ArrangedPermutes(items, order);
    Permuted(items, order);
    forall d ensures multiset(tried)[d] == multiset(Filter(items, TriedAtStart(quick)))[d] {
      FilterCounts(Sorted(items, order), TriesOf(quick), d);
      FilterCounts(items, TriedAtStart(quick), d);
    }
  }

  lemma {:induction false} ArrangedPermutes(items: seq<DeviceInfo>, order: seq<nat>)
    requires Arranged(DevicePriority, items, order)
    ensures Permutes(|items|, order)
  {
    forall i, j | 0 <= i < j < |order| ensures order[i] != order[j] {
      assert Precedes(DevicePriority, items, order[i], order[j]);
    }
  }

  // ---------------------------------------------------------------- which nodes resume reaches

  /** A device tried meets the conditions under which its addition succeeds, in the service that those before it leave. */
  ghost predicate Succeeds(tried: seq<DeviceInfo>, e: Attempts, now: nat, k: nat)
    requires k < |tried|
  {
    var before, devId, a := Installed([], tried[..k], e, now), tried[k].deviceId, e.answers(k);
    var id := devId / 0x100 % 0x10000;
    && !PR.HasNode(PR.NodesOf(before, id), devId) && (PR.MadeAt(before, id).Some? || a.deviceMem)
    && a.driverFound && a.nodeMem && a.launches
  }

  /** The node of the k-th device tried is with its device at the end. */
  ghost predicate Installs(devs: seq<PO.Device>, d: DeviceInfo, powered: bool, at: nat) {
    PO.DeviceNode(d.deviceId, powered, at) in PR.NodesOf(devs, d.deviceId / 0x100 % 0x10000)
  }

  lemma {:induction false} InstalledUnique(tried: seq<DeviceInfo>, e: Attempts, now: nat)
    ensures PR.UniqueIds(Installed([], tried, e, now))
  {
    if tried != [] {
      hide PO.AddedDevice, PR.UniqueIds;
      var n := |tried| - 1;
      InstalledUnique(tried[..n], e, now);
      var before := Installed([], tried[..n], e, now);
      PR.AddedDeviceIs(before, tried[n].deviceId, e.powered(n), now + n, e.answers(n));
      UniqueAfter(before, tried[n], e, now, n);
    }
  }

  lemma {:induction false} UniqueAfter(before: seq<PO.Device>, d: DeviceInfo, e: Attempts, now: nat, n: nat)
    requires PR.UniqueIds(before)
    ensures PR.UniqueIds(Attempt(before, d, e, now, n).0)
  {
    hide PO.AddedDevice;
    PR.AddedDeviceIs(before, d.deviceId, e.powered(n), now + n, e.answers(n));
  }

  lemma {:induction false} InstalledHas(tried: seq<DeviceInfo>, e: Attempts, now: nat, k: nat)
    requires k < |tried| && Succeeds(tried, e, now, k)
    ensures Installs(Installed([], tried, e, now), tried[k], e.powered(k), now + k)
  {
    hide PO.AddedDevice, PR.UniqueIds, PR.NodesOf, PR.MadeAt, PR.HasNode;
    var n := |tried| - 1;
    var before := Installed([], tried[..n], e, now);
    InstalledUnique(tried[..n], e, now);
    PR.AddedDeviceIs(before, tried[n].deviceId, e.powered(n), now + n, e.answers(n));
    if k < n {
      assert tried[..n][..k] == tried[..k];
      InstalledHas(tried[..n], e, now, k);
    }
  }

  /**
    After the start of all hosts: the node of every device tried whose addition meets the conditions
    for success, if it has a power token, is reached by resume.
   */
  lemma {:induction false} BootReaches(config: seq<HostConfig>, infos: seq<HostInfo>, p: seq<nat>, env: nat -> HostEnv,
                                       quick: bool, ops: seq<PO.Op>, ranks: seq<nat>, tried: seq<seq<DeviceInfo>>,
                                       i: nat, k: nat) returns (v: PO.Visit)
    requires Indices(infos, p) && Booted(config, infos, p, env, quick, ops, ranks, tried, |p|) && i < |ranks|
    requires i < |tried| && i < |PO.After(ops)| && k < |tried[i]| && env(ranks[i]).attempts.powered(k)
    requires Succeeds(tried[i], env(ranks[i]).attempts, PO.After(ops)[i].started + 2, k)
    ensures v in PO.ResumeOrder(PO.After(ops)) && v.devId == tried[i][k].deviceId
    ensures v.host == PO.After(ops)[i].started && v.node == v.host + 2 + k
  {
    hide PO.ResumeOrder, PO.After, Booted, Succeeds, Installed, PR.NodesOf, Arranged;
    var hosts, e := PO.After(ops), env(ranks[i]).attempts;
    BootedService(config, infos, p, env, quick, ops, ranks, tried, i);
    InstalledHas(tried[i], e, hosts[i].started + 2, k);
    v := NodeReached(hosts, i, tried[i][k].deviceId, hosts[i].started + 2 + k);
  }

  /** The service of a host for which something was tried is what the additions make. */
  lemma {:induction false} BootedService(config: seq<HostConfig>, infos: seq<HostInfo>, p: seq<nat>, env: nat -> HostEnv,
                                         quick: bool, ops: seq<PO.Op>, ranks: seq<nat>, tried: seq<seq<DeviceInfo>>, i: nat)
    requires Indices(infos, p) && Booted(config, infos, p, env, quick, ops, ranks, tried, |p|) && i < |ranks|
    ensures i < |tried| && i < |PO.After(ops)|
    ensures tried[i] != [] ==>
              var h := PO.After(ops)[i];
              h.hostService == Some(Installed([], tried[i], env(ranks[i]).attempts, h.started + 2))
  {
    hide PO.After, TriedInOrder, StartsOf, StartOps, Installed, Filter;
    assert HostBooted(config, infos, p, env, quick, ops, i, ranks[i], tried[i]);
    if tried[i] != [] {
      SomethingTried(config, infos[p[ranks[i]]], quick, tried[i]);
    }
  }

  lemma {:induction false} SomethingTried(config: seq<HostConfig>, info: HostInfo, quick: bool, tried: seq<DeviceInfo>)
    requires TriedInOrder(config, info, quick, tried) && tried != []
    ensures PreloadedOf(config, info) != []
  {
    assert tried[0] in multiset(tried);
    TriedExactly(config, info, quick, tried);
  }

  lemma {:induction false} NodeReached(hosts: seq<PO.Host>, i: nat, devId: nat, at: nat) returns (v: PO.Visit)
    requires i < |hosts| && hosts[i].hostService.Some?
    requires PO.DeviceNode(devId, true, at) in PR.NodesOf(hosts[i].hostService.value, devId / 0x100 % 0x10000)
    ensures v in PO.ResumeOrder(hosts) && v.devId == devId && v.host == hosts[i].started && v.node == at
  {
    hide PO.ResumeOrder;
    var devs, d := hosts[i].hostService.value, devId / 0x100 % 0x10000;
    var j := Position(devs, PO.HasDeviceId(d));
    var nodes := devs[j].devNodes;
    var k: nat :| k < |nodes| && nodes[k] == PO.DeviceNode(devId, true, at);
    v := PO.Visit(hosts[i].started, devs[j].created, at, devId);
    assert PO.IsVisitOf(hosts, v, i, j, k);
    PO.ResumeReaches(hosts, v);
  }
}
