/**
  Starting the configured hosts (DevmgrServiceStartDeviceHosts of
  core/manager/src/devmgr_service.c) with the installer of core/manager/src/hdf_driver_installer.c,
  which attaches a host and adds its devices before the next host is started: the lists of Boot.dfy
  become the topology of PowerOrder.dfy, so that suspend and resume follow the configured priorities.
 */
module Startup {
  import opened Bytes
  import opened Seqs
  import opened SList
  import opened Boot
  import opened Load
  import PO = PowerOrder

  /** What the environment answers when a host is started. */
  datatype HostEnv = HostEnv(clntMem: bool, mem: nat -> nat -> bool, installs: bool, attempts: Attempts)

  /** The preloaded devices of a host, in configuration order. */
  function PreloadedOf(config: seq<HostConfig>, info: HostInfo): seq<DeviceInfo> {
    match ConfiguredDevices(config, info.name)
    case None => []
    case Some(devices) => Filter(DeviceInfos(devices, info.hostId), Preloaded)
  }

  /** The device list of the host can be read. */
  predicate Reads(config: seq<HostConfig>, info: HostInfo, env: HostEnv) {
    match ConfiguredDevices(config, info.name)
    case None => false
    case Some(devices) => env.clntMem && AllAccepted(devices, info.hostId, env.mem)
  }

  /** DevmgrServiceStartDeviceHost succeeds; a host with dynamic devices only needs no installer. */
  predicate Starts(config: seq<HostConfig>, info: HostInfo, env: HostEnv) {
    Reads(config, info, env) && (PreloadedOf(config, info) == [] || env.installs)
  }

  // ---------------------------------------------------------------- additions as operations

  /** The additions of a series, to host i. */
  function Adds(i: nat, tried: seq<DeviceInfo>, e: Attempts): (ops: seq<PO.Op>)
    ensures |ops| == |tried|
    ensures forall j :: 0 <= j < |ops| ==> ops[j] == PO.AddDev(i, tried[j].deviceId, e.powered(j), e.answers(j))
  {
    seq(|tried|, j requires 0 <= j < |tried| => PO.AddDev(i, tried[j].deviceId, e.powered(j), e.answers(j)))
  }

  lemma {:induction false} InstalledIsAdds(hosts: seq<PO.Host>, now: nat, i: nat, tried: seq<DeviceInfo>, e: Attempts)
    requires PO.Serves(hosts, i)
    ensures PO.Continue(hosts, now, Adds(i, tried, e))
            == PO.WithDevices(hosts, i, Installed(hosts[i].hostService.value, tried, e, now))
  {
    hide PO.AddedDevice;
    var devs := hosts[i].hostService.value;
    if tried == [] {
      assert PO.WithDevices(hosts, i, devs) == hosts;
    } else {
      var n := |tried| - 1;
      InstalledIsAdds(hosts, now, i, tried[..n], e);
      assert Adds(i, tried, e)[..n] == Adds(i, tried[..n], e);
    }
  }

  /** DevHostServiceClntInstallDriver on the service of host i: what it means for the topology. */
  method InstallAt(devmgr: PO.DevmgrService, i: nat, head: DevNode, quick: bool, user: bool, e: Attempts, now: nat,
                   ghost s: seq<DevNode>)
    returns (tried: seq<DevNode>)
    requires devmgr.Valid() && i < |devmgr.hosts| && devmgr.hosts[i].hostService != null && IsList(head, s)
    modifies head, s, devmgr.hosts[i].hostService
    ensures devmgr.Topology() == PO.Continue(old(devmgr.Topology()), now, Adds(i, DataOf(tried), e))
    ensures tried == Filter(s, FirstPhase(quick))
  {
    hide Filter, Installed, Loaded, IsList;
    ghost var t := devmgr.Topology();
    assert t[i] == devmgr.HostAt(i);
    var ok;
    ghost var loaded;
    ok, tried, loaded := InstallDriver(head, devmgr.hosts[i].hostService, quick, user, e, now, s);
    forall j | 0 <= j < |t| && j != i ensures devmgr.HostAt(j) == t[j] {
      assert devmgr.hosts[j].hostService != null ==> devmgr.hosts[j].hostService != devmgr.hosts[i].hostService;
    }
    InstalledIsAdds(t, now, i, DataOf(tried), e);
    assert devmgr.Topology() == PO.WithDevices(t, i, Installed(t[i].hostService.value, DataOf(tried), e, now));
  }

  // ---------------------------------------------------------------- the order of devices

  /** The items in the order of an arrangement. */
  function Sorted<T>(items: seq<T>, p: seq<nat>): (r: seq<T>)
    requires Indices(items, p)
    ensures |r| == |p| && forall i :: 0 <= i < |p| ==> r[i] == items[p[i]]
  {
    seq(|p|, i requires 0 <= i < |p| => items[p[i]])
  }

  function TriesOf(quick: bool): DeviceInfo -> bool {
    (d: DeviceInfo) => Tries(quick, d)
  }

  /** The devices tried are those of the phase, by priority, ties in reverse configuration order. */
  ghost predicate TriedInOrder(config: seq<HostConfig>, info: HostInfo, quick: bool, tried: seq<DeviceInfo>) {
    exists order ::
      Arranged(DevicePriority, PreloadedOf(config, info), order)
      && tried == Filter(Sorted(PreloadedOf(config, info), order), TriesOf(quick))
  }

  lemma {:induction false} DataOfFilter(s: seq<DevNode>, quick: bool)
    ensures DataOf(Filter(s, FirstPhase(quick))) == Filter(DataOf(s), TriesOf(quick))
  {
    if s == [] {
      assert DataOf(s) == [];
    } else {
      var n := |s| - 1;
      DataOfFilter(s[..n], quick);
      assert s == s[..n] + [s[n]] && DataOf(s) == DataOf(s[..n]) + [s[n].data];
      FilterSnoc(s[..n], s[n], FirstPhase(quick));
      FilterSnoc(DataOf(s[..n]), s[n].data, TriesOf(quick));
      if FirstPhase(quick)(s[n]) {
        assert DataOf(Filter(s[..n], FirstPhase(quick)) + [s[n]]) == DataOf(Filter(s[..n], FirstPhase(quick))) + [s[n].data];
      }
    }
  }

  lemma {:induction false} ListedInOrder(config: seq<HostConfig>, info: HostInfo, quick: bool, s: seq<DevNode>,
                                         order: seq<nat>)
    requires ByPriority(DevicePriority, s, PreloadedOf(config, info), order)
    ensures TriedInOrder(config, info, quick, DataOf(Filter(s, FirstPhase(quick))))
  {
    DataOfFilter(s, quick);
    assert DataOf(s) == Sorted(PreloadedOf(config, info), order);
  }

  lemma {:induction false} NothingInOrder(config: seq<HostConfig>, info: HostInfo, quick: bool)
    requires PreloadedOf(config, info) == []
    ensures TriedInOrder(config, info, quick, [])
  {
    var none: seq<nat> := [];
    assert Arranged(DevicePriority, PreloadedOf(config, info), none);
    assert Sorted(PreloadedOf(config, info), none) == [];
  }

  /** Priorities never fall along the devices tried. */
  lemma {:induction false} TriedByPriority(config: seq<HostConfig>, info: HostInfo, quick: bool, tried: seq<DeviceInfo>)
    requires TriedInOrder(config, info, quick, tried)
    ensures PrioritiesRise(tried)
  {
    var items := PreloadedOf(config, info);
    var order :| Arranged(DevicePriority, items, order) && tried == Filter(Sorted(items, order), TriesOf(quick));
    forall i, j | 0 <= i < j < |order| ensures Sorted(items, order)[i].priority <= Sorted(items, order)[j].priority {
      assert Precedes(DevicePriority, items, order[i], order[j]);
    }
    FilterRises(Sorted(items, order), TriesOf(quick));
  }

  ghost predicate PrioritiesRise(s: seq<DeviceInfo>) {
    forall i, j :: 0 <= i < j < |s| ==> s[i].priority <= s[j].priority
  }

  lemma {:induction false} FilterRises(s: seq<DeviceInfo>, keep: DeviceInfo -> bool)
    requires PrioritiesRise(s)
    ensures PrioritiesRise(Filter(s, keep))
  {
    if s != [] {
      var n := |s| - 1;
      FilterRises(s[..n], keep);
      FilterWithin(s[..n], keep);
    }
  }

  // ---------------------------------------------------------------- starting one host

  /** The operations of the start of a host that becomes the one at `index`. */
  ghost predicate StartRun(config: seq<HostConfig>, info: HostInfo, env: HostEnv, quick: bool, index: nat,
                           ops: seq<PO.Op>, tried: seq<DeviceInfo>) {
    if !Starts(config, info, env) then ops == [PO.StartHost(info.hostId, false)] && tried == []
    else
      && TriedInOrder(config, info, quick, tried)
      && ops == [PO.StartHost(info.hostId, true)]
                + if PreloadedOf(config, info) == [] then []
                  else [PO.AttachHost(info.hostId)] + Adds(index, tried, env.attempts)
  }

  /**
    DevmgrServiceStartDeviceHost: the device list is read, the host is put into the list, and the
    installer creates its service, attaches it and installs the drivers.
   */
  method StartDeviceHost(devmgr: PO.DevmgrService, config: seq<HostConfig>, info: HostInfo, env: HostEnv,
                         quick: bool, user: bool, now: nat)
    returns (ghost ops: seq<PO.Op>, ghost tried: seq<DeviceInfo>, count: nat)
    requires devmgr.Valid() && Position(devmgr.Topology(), PO.HasHostId(info.hostId)) == |devmgr.hosts|
    modifies devmgr
    ensures devmgr.Valid() && count == |ops|
    ensures devmgr.Topology() == PO.Continue(old(devmgr.Topology()), now, ops)
    ensures StartRun(config, info, env, quick, |old(devmgr.Topology())|, ops, tried)
  {
    hide Starts, Reads, PreloadedOf, TriedInOrder, PO.Continue, PO.DevmgrService.Topology, DevHostServiceClnt.Valid;
    ghost var t := devmgr.Topology();
    StartAlone(t, now, info.hostId);
    ops, tried, count := [PO.StartHost(info.hostId, false)], [], 1;
    StartCases(config, info, env);
    var clnt := NewClnt(config, info, env);
    if clnt == null {
      return;
    }
    devmgr.InsertHost(info.hostId, now);
    var none := clnt.NonePreloaded();
    if none {
      NothingInOrder(config, info, quick);
      ops := [PO.StartHost(info.hostId, true)];
      assert ops + [] == ops;
      return;
    }
    if !env.installs {
      LastIsNew(devmgr, t, PO.Host(info.hostId, now, None));
      devmgr.DropHost();
      assert (t + [PO.Host(info.hostId, now, None)])[..|t|] == t;
      return;
    }
    ops, tried, count := StartAndInstall(devmgr, config, info, clnt, env, quick, user, now, t);
  }

  lemma StartCases(config: seq<HostConfig>, info: HostInfo, env: HostEnv)
    ensures Starts(config, info, env) <==> Reads(config, info, env) && (PreloadedOf(config, info) == [] || env.installs)
  {
  }

  lemma {:induction false} LastIsNew(devmgr: PO.DevmgrService, t: seq<PO.Host>, h: PO.Host)
    requires devmgr.Topology() == t + [h] && h.hostService.None?
    ensures devmgr.hosts != [] && devmgr.hosts[|devmgr.hosts| - 1].hostService == null
  {
    assert devmgr.Topology()[|t|] == devmgr.HostAt(|t|);
  }

  /** A host client with its device lists, or null if it cannot be made or its devices cannot be read. */
  method NewClnt(config: seq<HostConfig>, info: HostInfo, env: HostEnv) returns (clnt: DevHostServiceClnt?)
    ensures clnt != null <==> Reads(config, info, env)
    ensures clnt != null ==> fresh(clnt) && fresh(clnt.repr) && clnt.Valid()
    ensures clnt != null ==> Filter(clnt.read, Preloaded) == PreloadedOf(config, info)
  {
    if !env.clntMem {
      return null;
    }
    var c := new DevHostServiceClnt(info.hostId);
    var devices := GetHostNode(config, info.name);
    var read := c.GetDeviceList(devices, env.mem);
    if !read {
      return null;
    }
    assert c.read == DeviceInfos(devices.value, info.hostId);
    return c;
  }

  /** Starting a host on its own: it comes last, or does not come. */
  lemma {:induction false} StartAlone(t: seq<PO.Host>, now: nat, hostId: nat)
    ensures PO.Continue(t, now, [PO.StartHost(hostId, true)]) == t + [PO.Host(hostId, now, None)]
    ensures PO.Continue(t, now, [PO.StartHost(hostId, false)]) == t
  {
    assert [PO.StartHost(hostId, true)][..0] == [] && [PO.StartHost(hostId, false)][..0] == [];
  }

  /** The work of the installer for the host that was put into the list last. */
  method StartAndInstall(devmgr: PO.DevmgrService, config: seq<HostConfig>, info: HostInfo, clnt: DevHostServiceClnt,
                         env: HostEnv, quick: bool, user: bool, now: nat, ghost t: seq<PO.Host>)
    returns (ghost ops: seq<PO.Op>, ghost tried: seq<DeviceInfo>, count: nat)
    requires devmgr.Valid() && devmgr.Topology() == t + [PO.Host(info.hostId, now, None)]
    requires Position(t, PO.HasHostId(info.hostId)) == |t|
    requires Starts(config, info, env) && PreloadedOf(config, info) != []
    requires clnt.Valid() && Filter(clnt.read, Preloaded) == PreloadedOf(config, info)
    modifies devmgr, clnt.repr
    ensures devmgr.Valid() && count == |ops|
    ensures devmgr.Topology() == PO.Continue(t, now, ops)
    ensures StartRun(config, info, env, quick, |t|, ops, tried)
  {
    hide ByPriority, IsList, TriedInOrder, Filter, PO.Continue, PO.DevmgrService.Topology;
    var i := AttachNew(devmgr, info, now, t);
    ghost var before, order := clnt.unloaded, clnt.order;
    var nodes := InstallAt(devmgr, i, clnt.unloadDevInfos, quick, user, env.attempts, now + 2, clnt.unloaded);
    tried := DataOf(nodes);
    ListedInOrder(config, info, quick, before, order);
    ops := [PO.StartHost(info.hostId, true)] + ([PO.AttachHost(info.hostId)] + Adds(|t|, tried, env.attempts));
    PO.ContinueConcat(t, now, [PO.StartHost(info.hostId, true), PO.AttachHost(info.hostId)], Adds(|t|, tried, env.attempts));
    assert ops == [PO.StartHost(info.hostId, true), PO.AttachHost(info.hostId)] + Adds(|t|, tried, env.attempts);
    count := 2 + |nodes|;
  }

  /** A new service attaches to the host that was put into the list last. */
  method AttachNew(devmgr: PO.DevmgrService, info: HostInfo, now: nat, ghost t: seq<PO.Host>) returns (i: nat)
    requires devmgr.Valid() && devmgr.Topology() == t + [PO.Host(info.hostId, now, None)]
    requires Position(t, PO.HasHostId(info.hostId)) == |t|
    modifies devmgr
    ensures devmgr.Valid() && i == |t| < |devmgr.hosts| && devmgr.hosts[i].hostService != null
    ensures fresh(devmgr.hosts[i].hostService)
    ensures devmgr.Topology() == PO.Continue(t, now, [PO.StartHost(info.hostId, true), PO.AttachHost(info.hostId)])
  {
    var service := new PO.DevHostService();
    LastHost(t, PO.Host(info.hostId, now, None));
    StartAttached(t, now, info.hostId);
    var code;
    code, i := devmgr.AttachDeviceHost(info.hostId, service);
  }

  lemma {:induction false} LastHost(t: seq<PO.Host>, h: PO.Host)
    requires Position(t, PO.HasHostId(h.hostId)) == |t|
    ensures Position(t + [h], PO.HasHostId(h.hostId)) == |t|
  {
    var p := Position(t + [h], PO.HasHostId(h.hostId));
    assert forall j :: 0 <= j < |t| ==> (t + [h])[j] == t[j];
    assert (t + [h])[|t|] == h && PO.HasHostId(h.hostId)(h);
  }

  lemma {:induction false} StartAttached(t: seq<PO.Host>, now: nat, hostId: nat)
    requires Position(t, PO.HasHostId(hostId)) == |t|
    ensures PO.Continue(t, now, [PO.StartHost(hostId, true), PO.AttachHost(hostId)])
            == PO.AttachedHost(t + [PO.Host(hostId, now, None)], hostId, [])
  {
    var ops := [PO.StartHost(hostId, true), PO.AttachHost(hostId)];
    assert ops[..1] == [PO.StartHost(hostId, true)];
    StartAlone(t, now, hostId);
  }

  // ---------------------------------------------------------------- starting all hosts

  predicate IsStart(op: PO.Op) {
    op.StartHost?
  }

  function IsAdd(i: nat): PO.Op -> bool {
    (op: PO.Op) => op.AddDev? && op.host == i
  }

  /** The host starts of a run. */
  function StartsOf(ops: seq<PO.Op>): seq<PO.Op> {
    Filter(ops, IsStart)
  }

  /** Host starts in the order of the boot list; `ok` tells which succeed. */
  function StartOps(infos: seq<HostInfo>, p: seq<nat>, ok: nat -> bool): (ops: seq<PO.Op>)
    requires Indices(infos, p)
    ensures |ops| == |p| && forall k :: 0 <= k < |p| ==> ops[k] == PO.StartHost(infos[p[k]].hostId, ok(k))
  {
    seq(|p|, k requires 0 <= k < |p| => PO.StartHost(infos[p[k]].hostId, ok(k)))
  }

  function StartsWell(config: seq<HostConfig>, infos: seq<HostInfo>, p: seq<nat>, env: nat -> HostEnv): nat -> bool
    requires Indices(infos, p)
  {
    (k: nat) => k < |p| && Starts(config, infos[p[k]], env(k))
  }

  /** Host i was the one of the given rank in the boot list, and its devices were added as its list says. */
  ghost predicate HostBooted(config: seq<HostConfig>, infos: seq<HostInfo>, p: seq<nat>, env: nat -> HostEnv, quick: bool,
                             ops: seq<PO.Op>, i: nat, rank: nat, tried: seq<DeviceInfo>)
    requires Indices(infos, p)
  {
    && rank < |p| && i < |PO.After(ops)| && PO.After(ops)[i].started < |ops|
    && PO.After(ops)[i].hostId == infos[p[rank]].hostId && Rank(ops, IsStart, PO.After(ops)[i].started) == rank
    && TriedInOrder(config, infos[p[rank]], quick, tried)
    && Filter(ops, IsAdd(i)) == Adds(i, tried, env(rank).attempts)
    && PO.After(ops)[i].hostService
       == ServiceAfter(config, infos[p[rank]], tried, env(rank).attempts, PO.After(ops)[i].started)
  }

  /** The service of a host after its start: none without preloaded devices, otherwise what their additions make. */
  function ServiceAfter(config: seq<HostConfig>, info: HostInfo, tried: seq<DeviceInfo>, e: Attempts, started: nat)
    : Option<seq<PO.Device>>
  {
    if PreloadedOf(config, info) == [] then None else Some(Installed([], tried, e, started + 2))
  }

  /** The first k hosts of the boot list have been started by the operations. */
  ghost predicate Booted(config: seq<HostConfig>, infos: seq<HostInfo>, p: seq<nat>, env: nat -> HostEnv, quick: bool,
                         ops: seq<PO.Op>, ranks: seq<nat>, tried: seq<seq<DeviceInfo>>, k: nat)
    requires Indices(infos, p)
  {
    && k <= |p| && StartsOf(ops) == StartOps(infos, p, StartsWell(config, infos, p, env))[..k]
    && |ranks| == |tried| == |PO.After(ops)|
    && (forall i :: 0 <= i < |ranks| ==>
          ranks[i] < k && HostBooted(config, infos, p, env, quick, ops, i, ranks[i], tried[i]))
    && (forall t :: 0 <= t < |ops| && ops[t].AddDev? ==> ops[t].host < |ranks|)
    && PO.NoDeletions(ops)
  }

  /** What the start of a host leaves of the others. */
  lemma {:induction false} RunShape(config: seq<HostConfig>, info: HostInfo, env: HostEnv, quick: bool, ops: seq<PO.Op>,
                                    more: seq<PO.Op>, tried: seq<DeviceInfo>)
    requires StartRun(config, info, env, quick, |PO.After(ops)|, more, tried)
    requires Position(PO.After(ops), PO.HasHostId(info.hostId)) == |PO.After(ops)|
    ensures var t, u := PO.After(ops), PO.After(ops + more);
            if Starts(config, info, env)
            then |u| == |t| + 1 && u[..|t|] == t && u[|t|].hostId == info.hostId && u[|t|].started == |ops|
                 && u[|t|].hostService == ServiceAfter(config, info, tried, env.attempts, |ops|)
            else u == t
  {
    hide PO.After, PO.AddedDevice, Starts, TriedInOrder;
    var t := PO.After(ops);
    PO.AfterContinues(ops, more);
    StartAlone(t, |ops|, info.hostId);
    if Starts(config, info, env) {
      var h := PO.Host(info.hostId, |ops|, None);
      if more == [PO.StartHost(info.hostId, true)] + [] {
        assert more == [PO.StartHost(info.hostId, true)];
      } else {
        InstalledShape(t, |ops|, info, env, more, tried);
      }
    }
  }

  lemma {:induction false} InstalledShape(t: seq<PO.Host>, now: nat, info: HostInfo, env: HostEnv, more: seq<PO.Op>,
                                          tried: seq<DeviceInfo>)
    requires more == [PO.StartHost(info.hostId, true)] + ([PO.AttachHost(info.hostId)] + Adds(|t|, tried, env.attempts))
    requires Position(t, PO.HasHostId(info.hostId)) == |t|
    ensures var u := PO.Continue(t, now, more);
            |u| == |t| + 1 && u[..|t|] == t
            && u[|t|] == PO.Host(info.hostId, now, Some(Installed([], tried, env.attempts, now + 2)))
  {
    hide PO.AddedDevice, PO.Continue, Installed;
    var h := PO.Host(info.hostId, now, None);
    var start := [PO.StartHost(info.hostId, true), PO.AttachHost(info.hostId)];
    assert more == start + Adds(|t|, tried, env.attempts);
    PO.ContinueConcat(t, now, start, Adds(|t|, tried, env.attempts));
    StartAttached(t, now, info.hostId);
    LastHost(t, h);
    var v := PO.AttachedHost(t + [h], info.hostId, []);
    InstalledIsAdds(v, now + 2, |t|, tried, env.attempts);
  }

  /** The starts and additions among the operations of one host start. */
  lemma {:induction false} RunFilters(config: seq<HostConfig>, info: HostInfo, env: HostEnv, quick: bool, index: nat,
                                      more: seq<PO.Op>, tried: seq<DeviceInfo>)
    requires StartRun(config, info, env, quick, index, more, tried)
    ensures StartsOf(more) == [PO.StartHost(info.hostId, Starts(config, info, env))]
    ensures forall i :: Filter(more, IsAdd(i)) == if i == index then Adds(index, tried, env.attempts) else []
    ensures forall t :: 0 <= t < |more| && more[t].AddDev? ==> more[t].host == index && Starts(config, info, env)
  {
    hide StartRun, Starts, Filter;
    StartsInRun(config, info, env, quick, index, more, tried);
    AddsInRun(config, info, env, quick, index, more, tried);
    forall i ensures Filter(more, IsAdd(i)) == if i == index then Adds(index, tried, env.attempts) else [] {
      if i != index {
        FilterNone(more, IsAdd(i));
      }
    }
  }

  lemma {:induction false} StartsInRun(config: seq<HostConfig>, info: HostInfo, env: HostEnv, quick: bool, index: nat,
                                       more: seq<PO.Op>, tried: seq<DeviceInfo>)
    requires StartRun(config, info, env, quick, index, more, tried)
    ensures StartsOf(more) == [PO.StartHost(info.hostId, Starts(config, info, env))]
    ensures forall t :: 0 <= t < |more| && more[t].AddDev? ==> more[t].host == index && Starts(config, info, env)
  {
    hide Starts, TriedInOrder, Filter;
    var start := PO.StartHost(info.hostId, Starts(config, info, env));
    assert more == [start] + more[1..];
    OneFiltered(start, IsStart);
    FilterConcat([start], more[1..], IsStart);
    FilterNone(more[1..], IsStart);
  }

  lemma {:induction false} AddsInRun(config: seq<HostConfig>, info: HostInfo, env: HostEnv, quick: bool, index: nat,
                                     more: seq<PO.Op>, tried: seq<DeviceInfo>)
    requires StartRun(config, info, env, quick, index, more, tried)
    ensures Filter(more, IsAdd(index)) == Adds(index, tried, env.attempts)
  {
    hide Starts, TriedInOrder, Filter, StartRun;
    NothingToAdd(config, info, env, quick, index, more, tried);
    NoAddFirst(config, info, env, quick, index, more, tried);
    if |more| == 1 {
      FilterNone(more, IsAdd(index));
    } else {
      var adds := Adds(index, tried, env.attempts);
      assert more == [more[0], more[1]] + adds;
      FilterNone([more[0], more[1]], IsAdd(index));
      FilterAll(adds, IsAdd(index));
      FilterConcat([more[0], more[1]], adds, IsAdd(index));
    }
  }

  lemma NoAddFirst(config: seq<HostConfig>, info: HostInfo, env: HostEnv, quick: bool, index: nat, more: seq<PO.Op>,
                   tried: seq<DeviceInfo>)
    requires StartRun(config, info, env, quick, index, more, tried)
    ensures more != [] && more[0].StartHost?
  {
  }

  lemma OneFiltered(op: PO.Op, keep: PO.Op -> bool)
    ensures Filter([op], keep) == if keep(op) then [op] else []
  {
    assert [op][..0] == [];
  }

  /** Without preloaded devices nothing is tried. */
  lemma {:induction false} NothingToAdd(config: seq<HostConfig>, info: HostInfo, env: HostEnv, quick: bool, index: nat,
                                        more: seq<PO.Op>, tried: seq<DeviceInfo>)
    requires StartRun(config, info, env, quick, index, more, tried)
    ensures |more| == 1 ==> tried == [] && Adds(index, tried, env.attempts) == []
    ensures more != [] && (|more| > 1 ==> more[1..] == [PO.AttachHost(info.hostId)] + Adds(index, tried, env.attempts))
  {
    if Starts(config, info, env) && PreloadedOf(config, info) == [] {
      var order :| Arranged(DevicePriority, PreloadedOf(config, info), order)
                   && tried == Filter(Sorted(PreloadedOf(config, info), order), TriesOf(quick));
      assert Sorted(PreloadedOf(config, info), order) == [];
    }
  }

  /** A host that was booted stays as it was when another one is started. */
  lemma {:induction false} StillBooted(config: seq<HostConfig>, infos: seq<HostInfo>, p: seq<nat>, env: nat -> HostEnv,
                                       quick: bool, ops: seq<PO.Op>, more: seq<PO.Op>, i: nat, rank: nat,
                                       tried: seq<DeviceInfo>)
    requires Indices(infos, p) && HostBooted(config, infos, p, env, quick, ops, i, rank, tried)
    requires i < |PO.After(ops + more)| && PO.After(ops + more)[i] == PO.After(ops)[i]
    requires Filter(more, IsAdd(i)) == []
    ensures HostBooted(config, infos, p, env, quick, ops + more, i, rank, tried)
  {
    hide TriedInOrder, PO.After;
    FilterConcat(ops, more, IsAdd(i));
    var t := PO.After(ops)[i].started;
    assert (ops + more)[..t] == ops[..t];
  }

  lemma {:induction false} JustBooted(config: seq<HostConfig>, infos: seq<HostInfo>, p: seq<nat>, env: nat -> HostEnv,
                                      quick: bool, ops: seq<PO.Op>, more: seq<PO.Op>, k: nat, tried: seq<DeviceInfo>)
    requires Indices(infos, p) && k < |p| && |StartsOf(ops)| == k && more != []
    requires TriedInOrder(config, infos[p[k]], quick, tried)
    requires var i := |PO.After(ops)|;
             && |PO.After(ops + more)| == i + 1 && PO.After(ops + more)[i].started == |ops|
             && PO.After(ops + more)[i].hostId == infos[p[k]].hostId
             && PO.After(ops + more)[i].hostService == ServiceAfter(config, infos[p[k]], tried, env(k).attempts, |ops|)
             && Filter(more, IsAdd(i)) == Adds(i, tried, env(k).attempts)
             && forall t :: 0 <= t < |ops| && ops[t].AddDev? ==> ops[t].host < i
    ensures HostBooted(config, infos, p, env, quick, ops + more, |PO.After(ops)|, k, tried)
  {
    hide TriedInOrder, PO.After;
    var i := |PO.After(ops)|;
    FilterConcat(ops, more, IsAdd(i));
    FilterNone(ops, IsAdd(i));
    assert (ops + more)[..|ops|] == ops;
  }

  lemma {:induction false} StartsGrow(config: seq<HostConfig>, infos: seq<HostInfo>, p: seq<nat>, env: nat -> HostEnv,
                                      ops: seq<PO.Op>, more: seq<PO.Op>, k: nat)
    requires Indices(infos, p) && k < |p|
    requires StartsOf(ops) == StartOps(infos, p, StartsWell(config, infos, p, env))[..k]
    requires StartsOf(more) == [PO.StartHost(infos[p[k]].hostId, Starts(config, infos[p[k]], env(k)))]
    ensures StartsOf(ops + more) == StartOps(infos, p, StartsWell(config, infos, p, env))[..k + 1]
  {
    hide Starts;
    FilterConcat(ops, more, IsStart);
  }

  /** Starting the next host of the list. */
  lemma {:induction false} BootedNext(config: seq<HostConfig>, infos: seq<HostInfo>, p: seq<nat>, env: nat -> HostEnv,
                                      quick: bool, ops: seq<PO.Op>, ranks: seq<nat>, tried: seq<seq<DeviceInfo>>, k: nat,
                                      more: seq<PO.Op>, t: seq<DeviceInfo>)
    requires Indices(infos, p) && Booted(config, infos, p, env, quick, ops, ranks, tried, k) && k < |p|
    requires StartRun(config, infos[p[k]], env(k), quick, |PO.After(ops)|, more, t)
    requires Position(PO.After(ops), PO.HasHostId(infos[p[k]].hostId)) == |PO.After(ops)|
    ensures var good := Starts(config, infos[p[k]], env(k));
            Booted(config, infos, p, env, quick, ops + more, if good then ranks + [k] else ranks,
                   if good then tried + [t] else tried, k + 1)
  {
    hide HostBooted, Starts, TriedInOrder, PO.After, StartOps, StartsOf, StartRun, Booted, Filter;
    var info, good := infos[p[k]], Starts(config, infos[p[k]], env(k));
    BootedParts(config, infos, p, env, quick, ops, ranks, tried, k);
    RunShape(config, info, env(k), quick, ops, more, t);
    RunFilters(config, info, env(k), quick, |PO.After(ops)|, more, t);
    StartsGrow(config, infos, p, env, ops, more, k);
    OthersBooted(config, infos, p, env, quick, ops, ranks, tried, k, more);
    RunDeletesNothing(config, info, env(k), quick, |PO.After(ops)|, more, t);
    AddsWithin(ops, more, |ranks|, if good then |ranks| + 1 else |ranks|);
    if good {
      StartsCounted(infos, p, StartsWell(config, infos, p, env), k);
      WasTried(config, info, env(k), quick, |PO.After(ops)|, more, t);
      JustBooted(config, infos, p, env, quick, ops, more, k, t);
      OneMoreBooted(config, infos, p, env, quick, ops + more, ranks, tried, k, t);
    } else {
      NoMoreBooted(config, infos, p, env, quick, ops + more, ranks, tried, k);
    }
  }

  lemma BootedParts(config: seq<HostConfig>, infos: seq<HostInfo>, p: seq<nat>, env: nat -> HostEnv, quick: bool,
                    ops: seq<PO.Op>, ranks: seq<nat>, tried: seq<seq<DeviceInfo>>, k: nat)
    requires Indices(infos, p) && Booted(config, infos, p, env, quick, ops, ranks, tried, k)
    ensures k <= |p| && StartsOf(ops) == StartOps(infos, p, StartsWell(config, infos, p, env))[..k]
    ensures |ranks| == |tried| == |PO.After(ops)| && forall i :: 0 <= i < |ranks| ==> ranks[i] < k
    ensures forall t :: 0 <= t < |ops| && ops[t].AddDev? ==> ops[t].host < |ranks|
    ensures PO.NoDeletions(ops)
  {
  }

  lemma OneMoreBooted(config: seq<HostConfig>, infos: seq<HostInfo>, p: seq<nat>, env: nat -> HostEnv, quick: bool,
                      ops: seq<PO.Op>, ranks: seq<nat>, tried: seq<seq<DeviceInfo>>, k: nat, t: seq<DeviceInfo>)
    requires Indices(infos, p) && k < |p| && |ranks| == |tried| && |PO.After(ops)| == |ranks| + 1
    requires StartsOf(ops) == StartOps(infos, p, StartsWell(config, infos, p, env))[..k + 1]
    requires forall i :: 0 <= i < |ranks| ==>
               ranks[i] < k && HostBooted(config, infos, p, env, quick, ops, i, ranks[i], tried[i])
    requires HostBooted(config, infos, p, env, quick, ops, |ranks|, k, t)
    requires PO.NoDeletions(ops) && forall t :: 0 <= t < |ops| && ops[t].AddDev? ==> ops[t].host < |ranks| + 1
    ensures Booted(config, infos, p, env, quick, ops, ranks + [k], tried + [t], k + 1)
  {
    hide HostBooted, StartsOf, StartOps, PO.After;
  }

  lemma NoMoreBooted(config: seq<HostConfig>, infos: seq<HostInfo>, p: seq<nat>, env: nat -> HostEnv, quick: bool,
                     ops: seq<PO.Op>, ranks: seq<nat>, tried: seq<seq<DeviceInfo>>, k: nat)
    requires Indices(infos, p) && k < |p| && |PO.After(ops)| == |ranks| == |tried|
    requires StartsOf(ops) == StartOps(infos, p, StartsWell(config, infos, p, env))[..k + 1]
    requires forall i :: 0 <= i < |ranks| ==>
               ranks[i] < k && HostBooted(config, infos, p, env, quick, ops, i, ranks[i], tried[i])
    requires PO.NoDeletions(ops) && forall t :: 0 <= t < |ops| && ops[t].AddDev? ==> ops[t].host < |ranks|
    ensures Booted(config, infos, p, env, quick, ops, ranks, tried, k + 1)
  {
    hide HostBooted, StartsOf, StartOps, PO.After;
  }

  /** The start of a host deletes no device. */
  lemma {:induction false} RunDeletesNothing(config: seq<HostConfig>, info: HostInfo, env: HostEnv, quick: bool, index: nat,
                                             more: seq<PO.Op>, tried: seq<DeviceInfo>)
    requires StartRun(config, info, env, quick, index, more, tried)
    ensures PO.NoDeletions(more)
  {
  }

  lemma WasTried(config: seq<HostConfig>, info: HostInfo, env: HostEnv, quick: bool, index: nat, more: seq<PO.Op>,
                 tried: seq<DeviceInfo>)
    requires StartRun(config, info, env, quick, index, more, tried) && Starts(config, info, env)
    ensures TriedInOrder(config, info, quick, tried) && more != []
  {
  }

  lemma {:induction false} OthersBooted(config: seq<HostConfig>, infos: seq<HostInfo>, p: seq<nat>, env: nat -> HostEnv,
                                        quick: bool, ops: seq<PO.Op>, ranks: seq<nat>, tried: seq<seq<DeviceInfo>>, k: nat,
                                        more: seq<PO.Op>)
    requires Indices(infos, p) && Booted(config, infos, p, env, quick, ops, ranks, tried, k)
    requires var before, after := PO.After(ops), PO.After(ops + more);
             && |before| <= |after| && after[..|before|] == before
             && forall i :: 0 <= i < |before| ==> Filter(more, IsAdd(i)) == []
    ensures forall i :: 0 <= i < |ranks| ==> HostBooted(config, infos, p, env, quick, ops + more, i, ranks[i], tried[i])
  {
    hide HostBooted, PO.After, StartOps, StartsOf;
    var before, after := PO.After(ops), PO.After(ops + more);
    forall i | 0 <= i < |ranks| ensures HostBooted(config, infos, p, env, quick, ops + more, i, ranks[i], tried[i]) {
      assert after[i] == after[..|before|][i] == before[i];
      StillBooted(config, infos, p, env, quick, ops, more, i, ranks[i], tried[i]);
    }
  }

  lemma AddsWithin(ops: seq<PO.Op>, more: seq<PO.Op>, n: nat, m: nat)
    requires n <= m
    requires forall t :: 0 <= t < |ops| && ops[t].AddDev? ==> ops[t].host < n
    requires forall t :: 0 <= t < |more| && more[t].AddDev? ==> more[t].host < m
    ensures forall t :: 0 <= t < |ops + more| && (ops + more)[t].AddDev? ==> (ops + more)[t].host < m
  {
  }

  lemma StartsCounted(infos: seq<HostInfo>, p: seq<nat>, ok: nat -> bool, k: nat)
    requires Indices(infos, p) && k <= |p|
    ensures |StartOps(infos, p, ok)[..k]| == k
  {
  }

  lemma {:induction false} NothingBooted(config: seq<HostConfig>, infos: seq<HostInfo>, p: seq<nat>, env: nat -> HostEnv,
                                         quick: bool)
    requires Indices(infos, p)
    ensures Booted(config, infos, p, env, quick, [], [], [], 0) && PO.After([]) == []
  {
  }

  /** Up to 65536 valid hosts have different ids, so that no earlier host is taken for the next one. */
  lemma {:induction false} IdIsNew(config: seq<HostConfig>, p: seq<nat>, env: nat -> HostEnv, quick: bool,
                                   ops: seq<PO.Op>, ranks: seq<nat>, tried: seq<seq<DeviceInfo>>, k: nat)
    requires Arranged(HostPriority, HostInfos(config), p) && |HostInfos(config)| <= 0x10000 && k < |p|
    requires Booted(config, HostInfos(config), p, env, quick, ops, ranks, tried, k)
    ensures Position(PO.After(ops), PO.HasHostId(HostInfos(config)[p[k]].hostId)) == |PO.After(ops)|
  {
    hide PO.After, TriedInOrder, StartsOf, StartOps, HostBooted, Arranged, HostInfos;
    ArrangedIndices(config, p);
    var infos, hosts := HostInfos(config), PO.After(ops);
    forall i | 0 <= i < |hosts| ensures !PO.HasHostId(infos[p[k]].hostId)(hosts[i]) {
      BootedId(config, infos, p, env, quick, ops, i, ranks[i], tried[i]);
      IdsDiffer(config, p, ranks[i], k);
    }
  }

  lemma BootedId(config: seq<HostConfig>, infos: seq<HostInfo>, p: seq<nat>, env: nat -> HostEnv, quick: bool,
                 ops: seq<PO.Op>, i: nat, rank: nat, tried: seq<DeviceInfo>)
    requires Indices(infos, p) && HostBooted(config, infos, p, env, quick, ops, i, rank, tried)
    ensures rank < |p| && i < |PO.After(ops)| && PO.After(ops)[i].hostId == infos[p[rank]].hostId
  {
  }

  lemma {:induction false} IdsDiffer(config: seq<HostConfig>, p: seq<nat>, a: nat, k: nat)
    requires Arranged(HostPriority, HostInfos(config), p) && |HostInfos(config)| <= 0x10000 && a < k < |p|
    ensures HostInfos(config)[p[a]].hostId != HostInfos(config)[p[k]].hostId
  {
    assert Precedes(HostPriority, HostInfos(config), p[a], p[k]);
    assert HostId(p[a]) == p[a] && HostId(p[k]) == p[k];
  }

  /**
    DevmgrServiceStartDeviceHosts on a new device manager, for up to 65536 valid hosts: the
    topology is that of a run that starts the valid hosts by priority, ties in reverse configuration
    order, and adds the devices of each within its start, by priority likewise.
   */
  method StartDeviceHosts(devmgr: PO.DevmgrService, hosts: Option<seq<HostConfig>>, mem: nat -> bool, env: nat -> HostEnv,
                          quick: bool, user: bool)
    returns (ghost p: seq<nat>, ghost ops: seq<PO.Op>, ghost ranks: seq<nat>, ghost tried: seq<seq<DeviceInfo>>)
    requires devmgr.hosts == [] && (hosts.Some? ==> |HostInfos(hosts.value)| <= 0x10000)
    modifies devmgr
    ensures devmgr.Valid() && devmgr.Topology() == PO.After(ops)
    ensures hosts.None? || (exists i :: 0 <= i < |hosts.value| && !mem(i)) ==> ops == []
    ensures hosts.Some? && (forall i :: 0 <= i < |hosts.value| ==> mem(i)) ==>
              && Arranged(HostPriority, HostInfos(hosts.value), p)
              && Booted(hosts.value, HostInfos(hosts.value), p, env, quick, ops, ranks, tried, |p|)
  {
    hide Booted, Arranged, HostInfos;
    var head := new Node(HostInfo(0, [], 0));
    var ok;
    ghost var s;
    ok, s, p := GetHostList(head, hosts, mem);
    ops, ranks, tried := [], [], [];
    if !ok {
      return;
    }
    ops, ranks, tried := StartListed(devmgr, head, hosts.value, env, quick, user, s, p);
    var deleted := Flush(head, s);
  }

  /** The loop over the boot list. */
  method StartListed(devmgr: PO.DevmgrService, head: Node<HostInfo>, config: seq<HostConfig>, env: nat -> HostEnv,
                     quick: bool, user: bool, ghost s: seq<Node<HostInfo>>, ghost p: seq<nat>)
    returns (ghost ops: seq<PO.Op>, ghost ranks: seq<nat>, ghost tried: seq<seq<DeviceInfo>>)
    requires devmgr.Valid() && devmgr.Topology() == [] && IsList(head, s)
    requires ByPriority(HostPriority, s, HostInfos(config), p) && |HostInfos(config)| <= 0x10000
    modifies devmgr
    ensures devmgr.Valid() && devmgr.Topology() == PO.After(ops) && IsList(head, s)
    ensures Booted(config, HostInfos(config), p, env, quick, ops, ranks, tried, |p|)
  {
    hide PO.After, PO.DevmgrService.Valid, PO.DevmgrService.Topology, Booted, Arranged, Reading, IsList, HostInfos;
    var it := new Iterator(head, s);
    StartReading(it, head, s);
    ArrangedIndices(config, p);
    NothingBooted(config, HostInfos(config), p, env, quick);
    ops, ranks, tried := [], [], [];
    var k, now := 0, 0;
    var more := More(it, head, s, 0);
    while more
      invariant fresh(it) && k <= |s| && Reading(it, head, s, k) && (more <==> k < |s|)
      invariant devmgr.Valid() && devmgr.Topology() == PO.After(ops) && now == |ops|
      invariant Booted(config, HostInfos(config), p, env, quick, ops, ranks, tried, k)
      decreases |s| - k
    {
      more, now, ops, ranks, tried := StartNext(devmgr, it, head, config, env, quick, user, now, k, s, p, ops, ranks, tried);
      k := k + 1;
    }
  }

  lemma ArrangedIndices(config: seq<HostConfig>, p: seq<nat>)
    requires Arranged(HostPriority, HostInfos(config), p)
    ensures Indices(HostInfos(config), p)
  {
  }

  /** One turn of the loop over the boot list. */
  method StartNext(devmgr: PO.DevmgrService, it: Iterator<HostInfo>, head: Node<HostInfo>, config: seq<HostConfig>,
                   env: nat -> HostEnv, quick: bool, user: bool, now: nat, k: nat, ghost s: seq<Node<HostInfo>>,
                   ghost p: seq<nat>, ghost ops: seq<PO.Op>, ghost ranks: seq<nat>, ghost tried: seq<seq<DeviceInfo>>)
    returns (more: bool, now': nat, ghost ops': seq<PO.Op>, ghost ranks': seq<nat>, ghost tried': seq<seq<DeviceInfo>>)
    requires ByPriority(HostPriority, s, HostInfos(config), p) && |HostInfos(config)| <= 0x10000
    requires k < |s| && Reading(it, head, s, k)
    requires devmgr.Valid() && devmgr.Topology() == PO.After(ops) && now == |ops|
    requires Booted(config, HostInfos(config), p, env, quick, ops, ranks, tried, k)
    modifies devmgr, it
    ensures Reading(it, head, s, k + 1) && (more <==> k + 1 < |s|)
    ensures devmgr.Valid() && devmgr.Topology() == PO.After(ops') && now' == |ops'|
    ensures Booted(config, HostInfos(config), p, env, quick, ops', ranks', tried', k + 1)
  {
    hide PO.After, PO.DevmgrService.Valid, PO.DevmgrService.Topology, PO.Continue, Booted, Arranged, Reading, HostInfos;
    hide StartRun, Starts, ByPriority, Position;
    var node;
    node, more := Advance(it, head, s, k);
    InfoAt(config, s, p, k);
    ghost var info := HostInfos(config)[p[k]];
    IdIsNew(config, p, env, quick, ops, ranks, tried, k);
    assert devmgr.Topology() == PO.After(ops);
    assert |devmgr.Topology()| == |devmgr.hosts|;
    assert node.data == info;
    ghost var t, run;
    var count;
    run, t, count := StartDeviceHost(devmgr, config, node.data, env(k), quick, user, now);
    PO.AfterContinues(ops, run);
    BootedNext(config, HostInfos(config), p, env, quick, ops, ranks, tried, k, run, t);
    ghost var good := Starts(config, info, env(k));
    ops', ranks', tried' := ops + run, if good then ranks + [k] else ranks, if good then tried + [t] else tried;
    now' := now + count;
  }

  lemma InfoAt(config: seq<HostConfig>, s: seq<Node<HostInfo>>, p: seq<nat>, k: nat)
    requires ByPriority(HostPriority, s, HostInfos(config), p) && k < |s|
    ensures Arranged(HostPriority, HostInfos(config), p) && Indices(HostInfos(config), p)
    ensures k < |p| == |s| && s[k].data == HostInfos(config)[p[k]]
  {
  }

  // ---------------------------------------------------------------- resume by priority

  /**
    Whatever the installer does and when: in every run whose host starts are those of the boot
    list in order, resume goes by the configured priority of the hosts, ties in reverse
    configuration order, and reaches only hosts that could be started; suspend goes the opposite way.
   */
  lemma {:induction false} ResumeByPriority(infos: seq<HostInfo>, p: seq<nat>, ok: nat -> bool, ops: seq<PO.Op>)
    requires Arranged(HostPriority, infos, p) && StartsOf(ops) == StartOps(infos, p, ok)
    ensures var visits := PO.ResumeOrder(PO.After(ops));
            && (forall i :: 0 <= i < |visits| ==>
                  && visits[i].host < |ops| && Rank(ops, IsStart, visits[i].host) < |p|
                  && ok(Rank(ops, IsStart, visits[i].host)))
            && (forall i, j :: 0 <= i < j < |visits| && visits[i].host != visits[j].host ==>
                  var a, b := p[Rank(ops, IsStart, visits[i].host)], p[Rank(ops, IsStart, visits[j].host)];
                  || infos[a].priority < infos[b].priority
                  || (infos[a].priority == infos[b].priority && a > b))
            && PO.SuspendOrder(PO.After(ops)) == Reversed(visits)
  {
    hide PO.ResumeOrder, PO.After, StartOps, Filter, Rank;
    var visits := PO.ResumeOrder(PO.After(ops));
    PO.ResumeIsLexicographic(ops);
    PO.SuspendMirrorsResume(PO.After(ops));
    forall i | 0 <= i < |visits|
      ensures visits[i].host < |ops| && Rank(ops, IsStart, visits[i].host) < |p| && ok(Rank(ops, IsStart, visits[i].host))
    {
      StartOfVisit(infos, p, ok, ops, visits[i]);
    }
    forall i, j | 0 <= i < j < |visits| && visits[i].host != visits[j].host
      ensures var a, b := p[Rank(ops, IsStart, visits[i].host)], p[Rank(ops, IsStart, visits[j].host)];
              || infos[a].priority < infos[b].priority
              || (infos[a].priority == infos[b].priority && a > b)
    {
      StartOfVisit(infos, p, ok, ops, visits[i]);
      StartOfVisit(infos, p, ok, ops, visits[j]);
      assert PO.Earlier(visits[i], visits[j]);
      RankRises(ops, IsStart, visits[i].host, visits[j].host);
      assert Precedes(HostPriority, infos, p[Rank(ops, IsStart, visits[i].host)], p[Rank(ops, IsStart, visits[j].host)]);
    }
  }

  lemma {:induction false} StartOfVisit(infos: seq<HostInfo>, p: seq<nat>, ok: nat -> bool, ops: seq<PO.Op>, v: PO.Visit)
    requires Indices(infos, p) && StartsOf(ops) == StartOps(infos, p, ok) && v in PO.ResumeOrder(PO.After(ops))
    ensures v.host < |ops| && ops[v.host].StartHost?
    ensures Rank(ops, IsStart, v.host) < |p| && ok(Rank(ops, IsStart, v.host))
  {
    hide PO.ResumeOrder, PO.After, Rank, Filter;
    var i := PO.VisitTimes(ops, v);
    FoundAtRank(ops, IsStart, v.host);
  }

  // ---------------------------------------------------------------- the order within a host

  /** The additions to host i are those of a series. */
  ghost predicate AddsAre(ops: seq<PO.Op>, i: nat, tried: seq<DeviceInfo>, e: Attempts) {
    Filter(ops, IsAdd(i)) == Adds(i, tried, e)
  }

  /** Among the devices tried for host i, the turn of the addition at time t. */
  function TurnAt(ops: seq<PO.Op>, i: nat, t: nat): nat
    requires t <= |ops|
  {
    Rank(ops, IsAdd(i), t)
  }

  /** The node of a visit, and the one for which its device was made, are among those tried. */
  lemma {:induction false} VisitTried(ops: seq<PO.Op>, i: nat, tried: seq<DeviceInfo>, e: Attempts, v: PO.Visit)
    requires AddsAre(ops, i, tried, e) && v in PO.ResumeOrder(PO.After(ops))
    requires i < |PO.After(ops)| && PO.After(ops)[i].started == v.host
    ensures v.device <= v.node < |ops| && ops[v.device].AddDev? && ops[v.device].host == i
    ensures ops[v.node].AddDev? && ops[v.node].host == i
    ensures var a, b := TurnAt(ops, i, v.device), TurnAt(ops, i, v.node);
            && a < |tried| && b < |tried| && tried[b].deviceId == v.devId
            && PO.DeviceIdOf(tried[a].deviceId) == PO.DeviceIdOf(v.devId)
  {
    hide PO.ResumeOrder, PO.After, Rank, Filter, PO.DeviceIdOf;
    var h := PO.VisitTimes(ops, v);
    SameHost(ops, h, i);
    FoundAtRank(ops, IsAdd(i), v.device);
    FoundAtRank(ops, IsAdd(i), v.node);
  }

  lemma {:induction false} SameHost(ops: seq<PO.Op>, h: nat, i: nat)
    requires h < |PO.After(ops)| && i < |PO.After(ops)| && PO.After(ops)[h].started == PO.After(ops)[i].started
    ensures h == i
  {
    PO.AlwaysInOrder(ops);
  }

  /**
    Within a host, resume goes through the nodes of a device in the order in which they were tried,
    and through the devices in the order in which the node was tried for which each was made.
   */
  lemma {:induction false} ResumeWithinHost(ops: seq<PO.Op>, i: nat, tried: seq<DeviceInfo>, e: Attempts, a: nat, b: nat)
    requires AddsAre(ops, i, tried, e) && i < |PO.After(ops)|
    requires var visits := PO.ResumeOrder(PO.After(ops));
             a < b < |visits| && visits[a].host == visits[b].host == PO.After(ops)[i].started
    ensures var v, w := PO.ResumeOrder(PO.After(ops))[a], PO.ResumeOrder(PO.After(ops))[b];
            && v.node < |ops| && w.node < |ops| && v.device < |ops| && w.device < |ops|
            && TurnAt(ops, i, v.node) < |tried| && tried[TurnAt(ops, i, v.node)].deviceId == v.devId
            && TurnAt(ops, i, w.node) < |tried| && tried[TurnAt(ops, i, w.node)].deviceId == w.devId
            && if v.device == w.device then TurnAt(ops, i, v.node) < TurnAt(ops, i, w.node)
               else TurnAt(ops, i, v.device) < TurnAt(ops, i, w.device) < |tried|
  {
    hide PO.ResumeOrder, PO.After, Rank, PO.DeviceIdOf, AddsAre;
    var visits := PO.ResumeOrder(PO.After(ops));
    PO.ResumeIsLexicographic(ops);
    var v, w := visits[a], visits[b];
    assert PO.Earlier(v, w);
    VisitTried(ops, i, tried, e, v);
    VisitTried(ops, i, tried, e, w);
    if v.device == w.device {
      RankRises(ops, IsAdd(i), v.node, w.node);
    } else {
      RankRises(ops, IsAdd(i), v.device, w.device);
    }
  }

  /**
    After boot: within a device resume goes by the configured priority of the nodes; devices are
    resumed in the order in which the node was tried for which each was made, by priority likewise.
    A device is as old as its first node if and only if the node it was made for got memory.
   */
  lemma {:induction false} BootResumesByPriority(config: seq<HostConfig>, infos: seq<HostInfo>, p: seq<nat>,
                                                 env: nat -> HostEnv, quick: bool, ops: seq<PO.Op>, ranks: seq<nat>,
                                                 tried: seq<seq<DeviceInfo>>, i: nat, a: nat, b: nat)
    requires Indices(infos, p) && Booted(config, infos, p, env, quick, ops, ranks, tried, |p|) && i < |ranks|
    requires var visits := PO.ResumeOrder(PO.After(ops));
             a < b < |visits| && visits[a].host == visits[b].host == PO.After(ops)[i].started
    ensures var v, w := PO.ResumeOrder(PO.After(ops))[a], PO.ResumeOrder(PO.After(ops))[b];
            var x, y := if v.device == w.device then v.node else v.device, if v.device == w.device then w.node else w.device;
            && x < |ops| && y < |ops|
            && TurnAt(ops, i, x) < TurnAt(ops, i, y) < |tried[i]|
            && tried[i][TurnAt(ops, i, x)].priority <= tried[i][TurnAt(ops, i, y)].priority
    ensures PO.AllFirstNodes(PO.After(ops), ops)
  {
    hide PO.ResumeOrder, PO.After, Rank, TriedInOrder, StartsOf, StartOps;
    PO.DevicesStartWithNodes(ops);
    var e := env(ranks[i]).attempts;
    assert HostBooted(config, infos, p, env, quick, ops, i, ranks[i], tried[i]);
    TriedByPriority(config, infos[p[ranks[i]]], quick, tried[i]);
    ResumeWithinHost(ops, i, tried[i], e, a, b);
  }
}
