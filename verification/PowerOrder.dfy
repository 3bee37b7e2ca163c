/**
  The order in which suspend and resume reach the device nodes: hosts of the device manager
  (core/manager/src/devmgr_service.c), devices of a host (core/host/src/devhost_service.c) and
  nodes of a device (core/host/src/hdf_device.c). Hosts, devices and nodes carry the time at
  which they were started, created and attached. The answers of the environment (memory,
  drivers, launches, power callbacks) are inputs.
 */
module PowerOrder {
  import opened Bytes
  import opened Seqs

  datatype DeviceNode = DeviceNode(devId: nat, powered: bool, attached: nat)

  datatype Device = Device(deviceId: nat, created: nat, devNodes: seq<DeviceNode>)

  /** A host client; its service holds the devices and is absent until the host has attached. */
  datatype Host = Host(hostId: nat, started: nat, hostService: Option<seq<Device>>)

  datatype Visit = Visit(host: nat, device: nat, node: nat, devId: nat)

  /** DEVICEID. */
  function DeviceIdOf(devId: nat): nat {
    devId / 0x100 % 0x10000
  }

  /** Of the states doze resume, doze suspend, resume and suspend, in this order. */
  predicate IsPowerWakeState(state: nat) {
    state == 0 || state == 2
  }

  // ---------------------------------------------------------------- traversals

  /** What the elements yield, first to last. */
  function Forward<T, R>(s: seq<T>, f: T -> seq<R>): seq<R> {
    if s == [] then [] else Forward(s[..|s| - 1], f) + f(s[|s| - 1])
  }

  /** What the elements yield, last to first. */
  function Backward<T, R>(s: seq<T>, f: T -> seq<R>): seq<R> {
    if s == [] then [] else Backward(s[1..], f) + f(s[0])
  }

  lemma {:induction false} ForwardSnoc<T, R>(s: seq<T>, x: T, f: T -> seq<R>)
    ensures Forward(s + [x], f) == Forward(s, f) + f(x)
  {
    assert (s + [x])[..|s|] == s;
  }

  lemma ForwardNone<T, R>(f: T -> seq<R>)
    ensures Forward([], f) == []
  {
  }

  lemma {:induction false} ForwardSplit<T, R>(s: seq<T>, f: T -> seq<R>)
    requires s != []
    ensures Forward(s, f) == f(s[0]) + Forward(s[1..], f)
  {
    hide Forward;
    var n := |s| - 1;
    if n == 0 {
      ForwardSnoc([], s[0], f);
      assert s[1..] == [] && [] + [s[0]] == s && Forward([], f) == [] by { ForwardNone(f); }
    } else {
      ForwardSplit(s[..n], f);
      ForwardSnoc(s[..n], s[n], f);
      ForwardSnoc(s[1..n], s[n], f);
      assert s == s[..n] + [s[n]] && s[1..] == s[1..n] + [s[n]] && s[..n][1..] == s[1..n];
    }
  }

  /** Going backward through what is itself reversed is the mirror image of going forward. */
  lemma {:induction false} Mirrored<T, R>(s: seq<T>, f: T -> seq<R>, g: T -> seq<R>)
    requires forall i :: 0 <= i < |s| ==> g(s[i]) == Reversed(f(s[i]))
    ensures Backward(s, g) == Reversed(Forward(s, f))
    ensures Forward(s, g) == Reversed(Backward(s, f))
  {
    if s != [] {
      assert forall i :: 0 <= i < |s[1..]| ==> s[1..][i] == s[i + 1];
      Mirrored(s[1..], f, g);
      ForwardSplit(s, f);
      ForwardSplit(s, g);
      ReversedConcat(f(s[0]), Forward(s[1..], f));
      ReversedConcat(Backward(s[1..], f), f(s[0]));
    }
  }

  function NodeVisits(h: Host, d: Device): DeviceNode -> seq<Visit> {
    (n: DeviceNode) => if n.powered then [Visit(h.started, d.created, n.attached, n.devId)] else []
  }

  /** ApplyDevicesPowerState for a wake state and for the others. */
  function DeviceWakes(h: Host): Device -> seq<Visit> {
    (d: Device) => Forward(d.devNodes, NodeVisits(h, d))
  }

  function DeviceSleeps(h: Host): Device -> seq<Visit> {
    (d: Device) => Backward(d.devNodes, NodeVisits(h, d))
  }

  /** DevHostServicePmNotify. */
  function HostWakes(h: Host): seq<Visit> {
    if h.hostService.None? then [] else Backward(h.hostService.value, DeviceWakes(h))
  }

  function HostSleeps(h: Host): seq<Visit> {
    if h.hostService.None? then [] else Forward(h.hostService.value, DeviceSleeps(h))
  }

  /** DevmgrServicePowerStateChange. */
  function ResumeOrder(hosts: seq<Host>): seq<Visit> {
    Forward(hosts, HostWakes)
  }

  function SuspendOrder(hosts: seq<Host>): seq<Visit> {
    Backward(hosts, HostSleeps)
  }

  /** Suspend reaches exactly the nodes that resume reaches, in the opposite order. */
  lemma {:induction false} SuspendMirrorsResume(hosts: seq<Host>)
    ensures SuspendOrder(hosts) == Reversed(ResumeOrder(hosts))
  {
    forall i | 0 <= i < |hosts| ensures HostSleeps(hosts[i]) == Reversed(HostWakes(hosts[i])) {
      HostMirrored(hosts[i]);
    }
    Mirrored(hosts, HostWakes, HostSleeps);
  }

  lemma {:induction false} HostMirrored(h: Host)
    ensures HostSleeps(h) == Reversed(HostWakes(h))
  {
    if h.hostService.Some? {
      var devs := h.hostService.value;
      forall i | 0 <= i < |devs| ensures DeviceSleeps(h)(devs[i]) == Reversed(DeviceWakes(h)(devs[i])) {
        var d := devs[i];
        assert forall k :: 0 <= k < |d.devNodes| ==>
                 NodeVisits(h, d)(d.devNodes[k]) == Reversed(NodeVisits(h, d)(d.devNodes[k]));
        Mirrored(d.devNodes, NodeVisits(h, d), NodeVisits(h, d));
      }
      Mirrored(devs, DeviceWakes(h), DeviceSleeps(h));
    }
  }

  // ---------------------------------------------------------------- who is reached

  lemma {:induction false} ForwardHas<T, R>(s: seq<T>, f: T -> seq<R>, x: R)
    ensures x in Forward(s, f) <==> exists i :: 0 <= i < |s| && x in f(s[i])
  {
    if s != [] {
      var n := |s| - 1;
      ForwardHas(s[..n], f, x);
      assert forall i :: 0 <= i < n ==> s[..n][i] == s[i];
      if x in Forward(s[..n], f) {
        var i :| 0 <= i < n && x in f(s[..n][i]);
        assert x in f(s[i]);
      }
    }
  }

  lemma {:induction false} BackwardHas<T, R>(s: seq<T>, f: T -> seq<R>, x: R)
    ensures x in Backward(s, f) <==> exists i :: 0 <= i < |s| && x in f(s[i])
  {
    if s != [] {
      BackwardHas(s[1..], f, x);
      assert forall i :: 0 <= i < |s| - 1 ==> s[1..][i] == s[i + 1];
      if x in Backward(s[1..], f) {
        var i :| 0 <= i < |s| - 1 && x in f(s[1..][i]);
        assert x in f(s[i + 1]);
      } else if i :| 0 <= i < |s| && x in f(s[i]) {
        assert i > 0 ==> x in f(s[1..][i - 1]);
      }
    }
  }

  /** Node k of device j of host i is one with a power token, and visit v is its visit. */
  predicate IsVisitOf(hosts: seq<Host>, v: Visit, i: nat, j: nat, k: nat) {
    && i < |hosts| && hosts[i].hostService.Some?
    && j < |hosts[i].hostService.value|
    && k < |hosts[i].hostService.value[j].devNodes|
    && var d := hosts[i].hostService.value[j];
       var n := d.devNodes[k];
       n.powered && v == Visit(hosts[i].started, d.created, n.attached, n.devId)
  }

  /** Resume reaches the nodes with a power token of the hosts that have attached, and no others. */
  lemma {:induction false} ResumeReaches(hosts: seq<Host>, v: Visit)
    ensures v in ResumeOrder(hosts) <==> exists i, j, k :: IsVisitOf(hosts, v, i, j, k)
  {
    ForwardHas(hosts, HostWakes, v);
    if v in ResumeOrder(hosts) {
      var i :| 0 <= i < |hosts| && v in HostWakes(hosts[i]);
      HostReaches(hosts, i, v);
    }
    if i, j, k :| IsVisitOf(hosts, v, i, j, k) {
      HostReaches(hosts, i, v);
    }
  }

  lemma {:induction false} HostReaches(hosts: seq<Host>, i: nat, v: Visit)
    requires i < |hosts|
    ensures v in HostWakes(hosts[i]) <==> exists j, k :: IsVisitOf(hosts, v, i, j, k)
  {
    var h := hosts[i];
    if h.hostService.Some? {
      var devs := h.hostService.value;
      BackwardHas(devs, DeviceWakes(h), v);
      forall j | 0 <= j < |devs| ensures v in DeviceWakes(h)(devs[j]) <==> exists k :: IsVisitOf(hosts, v, i, j, k) {
        DeviceReaches(hosts, i, j, v);
      }
    }
  }

  lemma {:induction false} DeviceReaches(hosts: seq<Host>, i: nat, j: nat, v: Visit)
    requires i < |hosts| && hosts[i].hostService.Some? && j < |hosts[i].hostService.value|
    ensures v in DeviceWakes(hosts[i])(hosts[i].hostService.value[j]) <==> exists k :: IsVisitOf(hosts, v, i, j, k)
  {
    var h, d := hosts[i], hosts[i].hostService.value[j];
    ForwardHas(d.devNodes, NodeVisits(h, d), v);
    forall k | 0 <= k < |d.devNodes| ensures v in NodeVisits(h, d)(d.devNodes[k]) <==> IsVisitOf(hosts, v, i, j, k) {
    }
  }

  // ---------------------------------------------------------------- building the topology

  datatype Code = Success | Failure | NoDevice | Busy | NoData | NoMemory | InvalidParam

  /** What the environment answers to DevHostServiceAddDevice. */
  datatype Answers = Answers(deviceMem: bool, driverFound: bool, nodeMem: bool, launches: bool)

  function HasDeviceId(deviceId: nat): Device -> bool {
    (d: Device) => d.deviceId == deviceId
  }

  function HasDevId(devId: nat): DeviceNode -> bool {
    (n: DeviceNode) => n.devId == devId
  }

  function HasHostId(hostId: nat): Host -> bool {
    (h: Host) => h.hostId == hostId
  }

  /** A device without nodes is dropped. */
  function Tidied(devs: seq<Device>, i: nat): seq<Device>
    requires i < |devs|
  {
    if devs[i].devNodes == [] then Without(devs, i) else devs
  }

  /** DevHostServiceQueryOrAddDevice: a new device comes first. */
  function QueryOrAdd(devs: seq<Device>, deviceId: nat, now: nat): seq<Device> {
    if Position(devs, HasDeviceId(deviceId)) < |devs| then devs else [Device(deviceId, now, [])] + devs
  }

  /** DevHostServiceAddDevice with HdfDeviceAttach. */
  function AddedDevice(devs: seq<Device>, devId: nat, powered: bool, now: nat, a: Answers): (seq<Device>, Code) {
    var id := DeviceIdOf(devId);
    if Position(devs, HasDeviceId(id)) == |devs| && !a.deviceMem then (devs, NoDevice)
    else
      var all := QueryOrAdd(devs, id, now);
      var i := Position(all, HasDeviceId(id));
      if i == |all| then (devs, NoDevice)
      else
        var d := all[i];
        if Position(d.devNodes, HasDevId(devId)) < |d.devNodes| then (all, Busy)
        else if !a.driverFound then (Tidied(all, i), NoData)
        else if !a.nodeMem then (all, NoMemory)
        else if !a.launches then (Tidied(all, i), Failure)
        else (all[i := d.(devNodes := d.devNodes + [DeviceNode(devId, powered, now)])], Success)
  }

  /** DevHostServiceDelDevice with HdfDeviceDetach. */
  function DeletedDevice(devs: seq<Device>, devId: nat): (seq<Device>, Code) {
    var i := Position(devs, HasDeviceId(DeviceIdOf(devId)));
    if i == |devs| then (devs, Success)
    else
      var d := devs[i];
      var k := Position(d.devNodes, HasDevId(devId));
      if k == |d.devNodes| then (devs, NoDevice)
      else (Tidied(devs[i := d.(devNodes := Without(d.devNodes, k))], i), Success)
  }

  // ---------------------------------------------------------------- the traversals

  /**
    ApplyDevicesPowerState: the nodes whose token is asked to change state, in order. What the
    callbacks answer is ignored.
   */
  method ApplyDevicesPowerState(h: Host, d: Device, state: nat, fails: nat -> bool)
    returns (code: Code, visits: seq<Visit>)
    ensures code == Success
    ensures visits == if IsPowerWakeState(state) then DeviceWakes(h)(d) else DeviceSleeps(h)(d)
  {
    visits := [];
    var nodes := d.devNodes;
    if IsPowerWakeState(state) {
      for i := 0 to |nodes|
        invariant visits == Forward(nodes[..i], NodeVisits(h, d))
      {
        assert nodes[..i + 1][..i] == nodes[..i];
        if nodes[i].powered {
          var failed := fails(nodes[i].devId);
          visits := visits + [Visit(h.started, d.created, nodes[i].attached, nodes[i].devId)];
        }
      }
      assert nodes[..|nodes|] == nodes;
    } else {
      for i := |nodes| downto 0
        invariant visits == Backward(nodes[i..], NodeVisits(h, d))
      {
        assert nodes[i..][1..] == nodes[i + 1..];
        if nodes[i].powered {
          var failed := fails(nodes[i].devId);
          visits := visits + [Visit(h.started, d.created, nodes[i].attached, nodes[i].devId)];
        }
      }
    }
    code := Success;
  }

  /** A host service with its devices, the newest first. */
  class DevHostService {
    var devices: seq<Device>

    constructor ()
      ensures devices == []
    {
      devices := [];
    }

    method AddDevice(devId: nat, powered: bool, now: nat, a: Answers) returns (code: Code)
      modifies this
      ensures (devices, code) == AddedDevice(old(devices), devId, powered, now, a)
    {
      var id := DeviceIdOf(devId);
      var i := Search(devices, HasDeviceId(id));
      if i == |devices| {
        if !a.deviceMem {
          return NoDevice;
        }
        devices := [Device(id, now, [])] + devices;
        i := 0;
      }
      assert i == Position(devices, HasDeviceId(id));
      var d := devices[i];
      var k := Search(d.devNodes, HasDevId(devId));
      if k < |d.devNodes| {
        return Busy;
      }
      if !a.driverFound {
        FreeIfEmpty(i);
        return NoData;
      }
      if !a.nodeMem {
        return NoMemory;
      }
      if !a.launches {
        FreeIfEmpty(i);
        return Failure;
      }
      devices := devices[i := d.(devNodes := d.devNodes + [DeviceNode(devId, powered, now)])];
      return Success;
    }

    method FreeIfEmpty(i: nat)
      requires i < |devices|
      modifies this
      ensures devices == Tidied(old(devices), i)
    {
      if devices[i].devNodes == [] {
        devices := devices[..i] + devices[i + 1..];
      }
    }

    method DelDevice(devId: nat) returns (code: Code)
      modifies this
      ensures (devices, code) == DeletedDevice(old(devices), devId)
    {
      var i := Search(devices, HasDeviceId(DeviceIdOf(devId)));
      if i == |devices| {
        return Success;
      }
      var d := devices[i];
      var k := Search(d.devNodes, HasDevId(devId));
      if k == |d.devNodes| {
        return NoDevice;
      }
      devices := devices[i := d.(devNodes := d.devNodes[..k] + d.devNodes[k + 1..])];
      FreeIfEmpty(i);
      return Success;
    }

    /** DevHostServicePmNotify. */
    method PmNotify(hostId: nat, started: nat, state: nat, fails: nat -> bool) returns (code: Code, visits: seq<Visit>)
      ensures code == Success
      ensures var h := Host(hostId, started, Some(devices));
              visits == if IsPowerWakeState(state) then HostWakes(h) else HostSleeps(h)
    {
      var h := Host(hostId, started, Some(devices));
      code, visits := Success, [];
      if IsPowerWakeState(state) {
        for i := |devices| downto 0
          invariant code == Success && visits == Backward(devices[i..], DeviceWakes(h))
        {
          assert devices[i..][1..] == devices[i + 1..];
          var c, v := ApplyDevicesPowerState(h, devices[i], state, fails);
          visits := visits + v;
          if c != Success {
            code := Failure;
          }
        }
      } else {
        for i := 0 to |devices|
          invariant code == Success && visits == Forward(devices[..i], DeviceSleeps(h))
        {
          assert devices[..i + 1][..i] == devices[..i];
          var c, v := ApplyDevicesPowerState(h, devices[i], state, fails);
          visits := visits + v;
          if c != Success {
            code := Failure;
          }
        }
        assert devices[..|devices|] == devices;
      }
    }
  }

  // ---------------------------------------------------------------- the device manager

  datatype HostClnt = HostClnt(hostId: nat, started: nat, hostService: DevHostService?)

  class DevmgrService {
    var hosts: seq<HostClnt>

    constructor ()
      ensures hosts == [] && Topology() == []
    {
      hosts := [];
    }

    ghost function Services(): set<DevHostService>
      reads this
    {
      set i | 0 <= i < |hosts| && hosts[i].hostService != null :: hosts[i].hostService
    }

    /** No two hosts share a service. */
    ghost predicate Valid()
      reads this
    {
      forall i, j :: 0 <= i < j < |hosts| && hosts[i].hostService != null ==> hosts[i].hostService != hosts[j].hostService
    }

    ghost function HostAt(i: nat): Host
      requires i < |hosts|
      reads this, Services()
    {
      var c := hosts[i];
      Host(c.hostId, c.started, if c.hostService == null then None else Some(c.hostService.devices))
    }

    /** The hosts with their devices and nodes. */
    ghost function Topology(): (t: seq<Host>)
      reads this, Services()
      ensures |t| == |hosts| && forall i :: 0 <= i < |t| ==> t[i] == HostAt(i)
    {
      seq(|hosts|, i reads this, Services() requires 0 <= i < |hosts| => HostAt(i))
    }

    /** A new host comes last, without a service. */
    method InsertHost(hostId: nat, now: nat)
      requires Valid()
      modifies this
      ensures Valid() && Topology() == old(Topology()) + [Host(hostId, now, None)] && Services() == old(Services())
    {
      hosts := hosts + [HostClnt(hostId, now, null)];
      assert forall i :: 0 <= i < |old(hosts)| ==> hosts[i] == old(hosts)[i];
      forall s ensures s in Services() <==> s in old(Services()) {
        if s in old(Services()) {
          var i :| 0 <= i < |old(hosts)| && old(hosts)[i].hostService == s;
          assert hosts[i].hostService == s;
        }
      }
    }

    /** A host that could not be started leaves the list again. */
    method DropHost()
      requires Valid() && hosts != [] && hosts[|hosts| - 1].hostService == null
      modifies this
      ensures Valid() && Topology() == old(Topology())[..|old(Topology())| - 1] && Services() == old(Services())
    {
      hosts := hosts[..|hosts| - 1];
    }

    /** DevmgrServiceFindDeviceHost: the first host with the id. */
    method FindDeviceHost(hostId: nat) returns (i: nat)
      ensures i == Position(Topology(), HasHostId(hostId))
    {
      i := 0;
      while i < |hosts| && hosts[i].hostId != hostId
        invariant i <= |hosts| && forall j :: 0 <= j < i ==> hosts[j].hostId != hostId
      {
        i := i + 1;
      }
      ghost var t := Topology();
      assert forall j :: 0 <= j < |t| ==> HasHostId(hostId)(t[j]) == (hosts[j].hostId == hostId);
    }

    /** DevmgrServiceAttachDeviceHost before it installs the drivers of the host it found. */
    method AttachDeviceHost(hostId: nat, service: DevHostService?) returns (code: Code, i: nat)
      requires Valid() && service !in Services()
      modifies this
      ensures Valid() && i == Position(old(Topology()), HasHostId(hostId)) && |hosts| == |old(hosts)|
      ensures code == if service == null || i == |hosts| then Failure else Success
      ensures Topology() == if code == Success then AttachedHost(old(Topology()), hostId, service.devices)
                            else old(Topology())
      ensures code == Success ==> hosts[i].hostService == service
      ensures forall s :: s in Services() ==> s in old(Services()) || s == service
    {
      i := FindDeviceHost(hostId);
      if i == |hosts| {
        return Failure, i;
      }
      if service == null {
        return Failure, i;
      }
      hosts := hosts[i := hosts[i].(hostService := service)];
      return Success, i;
    }

    /** A call of AddDevice on the service of a host. */
    method AddDevice(i: nat, devId: nat, powered: bool, now: nat, a: Answers) returns (code: Code)
      requires Valid() && i < |hosts| && hosts[i].hostService != null
      modifies Services()
      ensures var h := old(Topology())[i];
              var (devs, c) := AddedDevice(h.hostService.value, devId, powered, now, a);
              code == c && Topology() == old(Topology())[i := h.(hostService := Some(devs))]
    {
      code := hosts[i].hostService.AddDevice(devId, powered, now, a);
    }

    method DelDevice(i: nat, devId: nat) returns (code: Code)
      requires Valid() && i < |hosts| && hosts[i].hostService != null
      modifies Services()
      ensures var h := old(Topology())[i];
              var (devs, c) := DeletedDevice(h.hostService.value, devId);
              code == c && Topology() == old(Topology())[i := h.(hostService := Some(devs))]
    {
      code := hosts[i].hostService.DelDevice(devId);
    }

    /**
      DevmgrServicePowerStateChange: the nodes reached, in order, whatever their callbacks answer.
     */
    method PowerStateChange(state: nat, fails: nat -> bool) returns (code: Code, visits: seq<Visit>)
      ensures state >= 4 ==> code == InvalidParam && visits == []
      ensures state < 4 ==> code == Success
      ensures state == 0 || state == 2 ==> visits == ResumeOrder(Topology())   // doze resume, resume
      ensures state == 1 || state == 3 ==> visits == SuspendOrder(Topology())  // doze suspend, suspend
    {
      code, visits := Success, [];
      if !(state < 4) {
        return InvalidParam, [];
      }
      ghost var t := Topology();
      if IsPowerWakeState(state) {
        for i := 0 to |hosts|
          invariant code == Success && visits == Forward(t[..i], HostWakes)
        {
          assert t[..i + 1][..i] == t[..i] && t[i] == HostAt(i);
          var c := hosts[i];
          if c.hostService != null {
            var r, v := c.hostService.PmNotify(c.hostId, c.started, state, fails);
            visits := visits + v;
            if r != Success {
              code := Failure;
            }
          }
        }
        assert t[..|t|] == t == Topology();
      } else {
        for i := |hosts| downto 0
          invariant code == Success && visits == Backward(t[i..], HostSleeps)
        {
          assert t[i..][1..] == t[i + 1..] && t[i] == HostAt(i);
          var c := hosts[i];
          if c.hostService != null {
            var r, v := c.hostService.PmNotify(c.hostId, c.started, state, fails);
            visits := visits + v;
            if r != Success {
              code := Failure;
            }
          }
        }
        assert t[0..] == t == Topology();
      }
    }
  }

  function AttachedHost(hosts: seq<Host>, hostId: nat, devs: seq<Device>): seq<Host> {
    var i := Position(hosts, HasHostId(hostId));
    if i == |hosts| then hosts else hosts[i := hosts[i].(hostService := Some(devs))]
  }

  // ---------------------------------------------------------------- the order over whole runs

  datatype Op =
    | StartHost(hostId: nat, starts: bool)
    | AttachHost(hostId: nat)
    | AddDev(host: nat, devId: nat, powered: bool, answers: Answers)
    | DelDev(host: nat, devId: nat)

  /** The devices of a host, if it has a service. */
  predicate Serves(hosts: seq<Host>, i: nat) {
    i < |hosts| && hosts[i].hostService.Some?
  }

  function WithDevices(hosts: seq<Host>, i: nat, devs: seq<Device>): seq<Host>
    requires Serves(hosts, i)
  {
    hosts[i := hosts[i].(hostService := Some(devs))]
  }

  function Apply(hosts: seq<Host>, now: nat, op: Op): seq<Host> {
    match op
    case StartHost(hostId, starts) => if starts then hosts + [Host(hostId, now, None)] else hosts
    case AttachHost(hostId) => AttachedHost(hosts, hostId, [])
    case AddDev(i, devId, powered, answers) =>
      if Serves(hosts, i)
      then WithDevices(hosts, i, AddedDevice(hosts[i].hostService.value, devId, powered, now, answers).0) else hosts
    case DelDev(i, devId) =>
      if Serves(hosts, i)
      then WithDevices(hosts, i, DeletedDevice(hosts[i].hostService.value, devId).0) else hosts
  }

  /** The topology after a run; an operation's time is its position in the run. */
  function After(ops: seq<Op>): seq<Host> {
    if ops == [] then [] else Apply(After(ops[..|ops| - 1]), |ops| - 1, ops[|ops| - 1])
  }

  ghost predicate NodesInOrder(nodes: seq<DeviceNode>, now: nat) {
    && (forall i :: 0 <= i < |nodes| ==> nodes[i].attached < now)
    && (forall i, j :: 0 <= i < j < |nodes| ==> nodes[i].attached < nodes[j].attached)
  }

  ghost predicate DevicesInOrder(devs: seq<Device>, now: nat) {
    && (forall i :: 0 <= i < |devs| ==> devs[i].created < now && NodesInOrder(devs[i].devNodes, now))
    && (forall i, j :: 0 <= i < j < |devs| ==> devs[j].created < devs[i].created)
  }

  /** Hosts in the order of their start, devices newest first, nodes in the order of their attachment. */
  ghost predicate HostsInOrder(hosts: seq<Host>, now: nat) {
    && (forall i :: 0 <= i < |hosts| ==>
          hosts[i].started < now && (hosts[i].hostService.Some? ==> DevicesInOrder(hosts[i].hostService.value, now)))
    && (forall i, j :: 0 <= i < j < |hosts| ==> hosts[i].started < hosts[j].started)
  }

  lemma {:induction false} TidiedInOrder(devs: seq<Device>, i: nat, now: nat)
    requires i < |devs| && DevicesInOrder(devs, now)
    ensures DevicesInOrder(Tidied(devs, i), now)
  {
    var t := Tidied(devs, i);
    assert devs[i].devNodes == [] ==> forall j :: 0 <= j < |t| ==> t[j] == devs[if j < i then j else j + 1];
  }

  lemma {:induction false} WithoutNodeInOrder(nodes: seq<DeviceNode>, k: nat, now: nat)
    requires k < |nodes| && NodesInOrder(nodes, now)
    ensures NodesInOrder(Without(nodes, k), now)
  {
    var t := Without(nodes, k);
    assert forall j :: 0 <= j < |t| ==> t[j] == nodes[if j < k then j else j + 1];
  }

  lemma {:induction false} LaterInOrder(devs: seq<Device>, now: nat)
    requires DevicesInOrder(devs, now)
    ensures DevicesInOrder(devs, now + 1)
  {
    forall i | 0 <= i < |devs| ensures NodesInOrder(devs[i].devNodes, now + 1) {
      assert NodesInOrder(devs[i].devNodes, now);
    }
  }

  lemma {:induction false} AddedInOrder(devs: seq<Device>, devId: nat, powered: bool, now: nat, a: Answers)
    requires DevicesInOrder(devs, now)
    ensures DevicesInOrder(AddedDevice(devs, devId, powered, now, a).0, now + 1)
  {
    hide DevicesInOrder, Tidied, QueryOrAdd, DeviceIdOf;
    var id := DeviceIdOf(devId);
    var all := QueryOrAdd(devs, id, now);
    LaterInOrder(devs, now);
    QueriedInOrder(devs, id, now);
    var i := Position(all, HasDeviceId(id));
    if i < |all| {
      TidiedInOrder(all, i, now + 1);
      AttachedInOrder(all, i, DeviceNode(devId, powered, now), now);
    }
  }

  lemma {:induction false} QueriedInOrder(devs: seq<Device>, id: nat, now: nat)
    requires DevicesInOrder(devs, now)
    ensures var all := QueryOrAdd(devs, id, now);
            DevicesInOrder(all, now + 1) && forall i :: 0 <= i < |all| ==> NodesInOrder(all[i].devNodes, now)
  {
    hide NodesInOrder;
    LaterInOrder(devs, now);
    NoNodesInOrder(now);
  }

  lemma NoNodesInOrder(now: nat)
    ensures NodesInOrder([], now) && NodesInOrder([], now + 1)
  {
  }

  lemma {:induction false} AttachedInOrder(devs: seq<Device>, i: nat, n: DeviceNode, now: nat)
    requires i < |devs| && DevicesInOrder(devs, now + 1) && NodesInOrder(devs[i].devNodes, now) && n.attached == now
    ensures DevicesInOrder(devs[i := devs[i].(devNodes := devs[i].devNodes + [n])], now + 1)
  {
    assert NodesInOrder(devs[i].devNodes + [n], now + 1);
  }

  lemma {:induction false} DeletedInOrder(devs: seq<Device>, devId: nat, now: nat)
    requires DevicesInOrder(devs, now)
    ensures DevicesInOrder(DeletedDevice(devs, devId).0, now)
  {
    var i := Position(devs, HasDeviceId(DeviceIdOf(devId)));
    if i < |devs| {
      var d := devs[i];
      var k := Position(d.devNodes, HasDevId(devId));
      if k < |d.devNodes| {
        WithoutNodeInOrder(d.devNodes, k, now);
        var left := devs[i := d.(devNodes := Without(d.devNodes, k))];
        assert DevicesInOrder(left, now);
        TidiedInOrder(left, i, now);
      }
    }
  }

  lemma {:induction false} AlwaysInOrder(ops: seq<Op>)
    ensures HostsInOrder(After(ops), |ops|)
  {
    if ops != [] {
      var n := |ops| - 1;
      AlwaysInOrder(ops[..n]);
      StepInOrder(After(ops[..n]), n, ops[n]);
    }
  }

  lemma {:induction false} StepInOrder(hosts: seq<Host>, now: nat, op: Op)
    requires HostsInOrder(hosts, now)
    ensures HostsInOrder(Apply(hosts, now, op), now + 1)
  {
    hide DevicesInOrder, AddedDevice, DeletedDevice;
    HostsLater(hosts, now);
    match op {
      case StartHost(_, _) =>
      case AttachHost(hostId) =>
        var i := Position(hosts, HasHostId(hostId));
        NoDevicesInOrder(now + 1);
        if i < |hosts| {
          ServiceReplaced(hosts, i, [], now + 1);
        }
      case AddDev(i, devId, powered, answers) =>
        if Serves(hosts, i) {
          AddedInOrder(hosts[i].hostService.value, devId, powered, now, answers);
          ServiceReplaced(hosts, i, AddedDevice(hosts[i].hostService.value, devId, powered, now, answers).0, now + 1);
        }
      case DelDev(i, devId) =>
        if Serves(hosts, i) {
          DeletedInOrder(hosts[i].hostService.value, devId, now + 1);
          ServiceReplaced(hosts, i, DeletedDevice(hosts[i].hostService.value, devId).0, now + 1);
        }
    }
  }

  lemma {:induction false} HostsLater(hosts: seq<Host>, now: nat)
    requires HostsInOrder(hosts, now)
    ensures HostsInOrder(hosts, now + 1)
  {
    hide DevicesInOrder;
    forall i | 0 <= i < |hosts| && hosts[i].hostService.Some? ensures DevicesInOrder(hosts[i].hostService.value, now + 1) {
      LaterInOrder(hosts[i].hostService.value, now);
    }
  }

  lemma {:induction false} ServiceReplaced(hosts: seq<Host>, i: nat, devs: seq<Device>, now: nat)
    requires HostsInOrder(hosts, now) && i < |hosts| && DevicesInOrder(devs, now)
    ensures HostsInOrder(hosts[i := hosts[i].(hostService := Some(devs))], now)
  {
    hide DevicesInOrder;
  }

  lemma NoDevicesInOrder(now: nat)
    ensures DevicesInOrder([], now)
  {
  }

  // ---------------------------------------------------------------- where stamps come from

  lemma {:induction false} AfterSnoc(ops: seq<Op>, op: Op)
    ensures After(ops + [op]) == Apply(After(ops), |ops|, op)
  {
    assert (ops + [op])[..|ops|] == ops;
  }

  /** Going on from some hosts at some time. */
  function Continue(hosts: seq<Host>, now: nat, ops: seq<Op>): seq<Host> {
    if ops == [] then hosts
    else Apply(Continue(hosts, now, ops[..|ops| - 1]), now + |ops| - 1, ops[|ops| - 1])
  }

  lemma {:induction false} ContinueSnoc(hosts: seq<Host>, now: nat, ops: seq<Op>, op: Op)
    ensures Continue(hosts, now, ops + [op]) == Apply(Continue(hosts, now, ops), now + |ops|, op)
  {
    assert (ops + [op])[..|ops|] == ops;
  }

  lemma {:induction false} ContinueConcat(hosts: seq<Host>, now: nat, ops: seq<Op>, more: seq<Op>)
    ensures Continue(hosts, now, ops + more) == Continue(Continue(hosts, now, ops), now + |ops|, more)
  {
    if more == [] {
      assert ops + more == ops;
    } else {
      var n := |more| - 1;
      ContinueConcat(hosts, now, ops, more[..n]);
      assert ops + more == ops + more[..n] + [more[n]];
      ContinueSnoc(hosts, now, ops + more[..n], more[n]);
    }
  }

  lemma {:induction false} AfterContinues(ops: seq<Op>, more: seq<Op>)
    ensures After(ops + more) == Continue(After(ops), |ops|, more)
  {
    if more == [] {
      assert ops + more == ops;
    } else {
      var n := |more| - 1;
      AfterContinues(ops, more[..n]);
      assert ops + more == ops + more[..n] + [more[n]];
      AfterSnoc(ops + more[..n], more[n]);
    }
  }

  /** The operation at time t was an addition to host i of a node of the device, or of the node itself. */
  predicate AddedAt(ops: seq<Op>, t: nat, i: nat, deviceId: nat) {
    t < |ops| && ops[t].AddDev? && ops[t].host == i && DeviceIdOf(ops[t].devId) == deviceId
  }

  predicate Succeeds(a: Answers) {
    a.driverFound && a.nodeMem && a.launches
  }

  ghost predicate TracedNode(n: DeviceNode, d: Device, i: nat, ops: seq<Op>) {
    && d.created <= n.attached && AddedAt(ops, n.attached, i, d.deviceId)
    && ops[n.attached].devId == n.devId && ops[n.attached].powered == n.powered && Succeeds(ops[n.attached].answers)
  }

  ghost predicate TracedDevice(d: Device, i: nat, started: nat, ops: seq<Op>) {
    && started < d.created && AddedAt(ops, d.created, i, d.deviceId)
    && forall k :: 0 <= k < |d.devNodes| ==> TracedNode(d.devNodes[k], d, i, ops)
  }

  ghost predicate TracedDevices(devs: seq<Device>, i: nat, started: nat, ops: seq<Op>) {
    forall j :: 0 <= j < |devs| ==> TracedDevice(devs[j], i, started, ops)
  }

  ghost predicate TracedHost(h: Host, i: nat, ops: seq<Op>) {
    && h.started < |ops| && ops[h.started] == StartHost(h.hostId, true)
    && (h.hostService.Some? ==> TracedDevices(h.hostService.value, i, h.started, ops))
  }

  /** Every stamp is the time of the operation that it names. */
  ghost predicate Traced(hosts: seq<Host>, ops: seq<Op>) {
    forall i :: 0 <= i < |hosts| ==> TracedHost(hosts[i], i, ops)
  }

  lemma {:induction false} DevicesStillTraced(devs: seq<Device>, i: nat, started: nat, ops: seq<Op>, op: Op)
    requires TracedDevices(devs, i, started, ops)
    ensures TracedDevices(devs, i, started, ops + [op])
  {
    forall j | 0 <= j < |devs| ensures TracedDevice(devs[j], i, started, ops + [op]) {
      assert TracedDevice(devs[j], i, started, ops);
      forall k | 0 <= k < |devs[j].devNodes| ensures TracedNode(devs[j].devNodes[k], devs[j], i, ops + [op]) {
        assert TracedNode(devs[j].devNodes[k], devs[j], i, ops);
      }
    }
  }

  lemma {:induction false} TidiedTraced(devs: seq<Device>, j: nat, i: nat, started: nat, ops: seq<Op>)
    requires j < |devs| && TracedDevices(devs, i, started, ops)
    ensures TracedDevices(Tidied(devs, j), i, started, ops)
  {
    var t := Tidied(devs, j);
    assert devs[j].devNodes == [] ==> forall k :: 0 <= k < |t| ==> t[k] == devs[if k < j then k else k + 1];
  }

  lemma {:induction false} DeletedTraced(devs: seq<Device>, devId: nat, i: nat, started: nat, ops: seq<Op>)
    requires TracedDevices(devs, i, started, ops)
    ensures TracedDevices(DeletedDevice(devs, devId).0, i, started, ops)
  {
    hide TracedNode, AddedAt, Tidied;
    var j := Position(devs, HasDeviceId(DeviceIdOf(devId)));
    if j < |devs| {
      var d := devs[j];
      var k := Position(d.devNodes, HasDevId(devId));
      if k < |d.devNodes| {
        var e := d.(devNodes := Without(d.devNodes, k));
        FewerNodesTraced(d, k, i, started, ops);
        TidiedTraced(devs[j := e], j, i, started, ops);
      }
    }
  }

  lemma {:induction false} FewerNodesTraced(d: Device, k: nat, i: nat, started: nat, ops: seq<Op>)
    requires TracedDevice(d, i, started, ops) && k < |d.devNodes|
    ensures TracedDevice(d.(devNodes := Without(d.devNodes, k)), i, started, ops)
  {
    var e := d.(devNodes := Without(d.devNodes, k));
    forall m | 0 <= m < |e.devNodes| ensures TracedNode(e.devNodes[m], e, i, ops) {
      assert e.devNodes[m] == d.devNodes[if m < k then m else m + 1];
      assert TracedNode(d.devNodes[if m < k then m else m + 1], d, i, ops);
    }
  }

  lemma {:induction false} AddedTraced(devs: seq<Device>, i: nat, started: nat, ops: seq<Op>, op: Op)
    requires TracedDevices(devs, i, started, ops) && started < |ops| && op.AddDev? && op.host == i
    ensures TracedDevices(AddedDevice(devs, op.devId, op.powered, |ops|, op.answers).0, i, started, ops + [op])
  {
    hide TracedDevices, Tidied, QueryOrAdd, DeviceIdOf;
    var id, now := DeviceIdOf(op.devId), |ops|;
    var all := QueryOrAdd(devs, id, now);
    DevicesStillTraced(devs, i, started, ops, op);
    QueriedTraced(devs, i, started, ops, op);
    var j := Position(all, HasDeviceId(id));
    if j < |all| {
      TidiedTraced(all, j, i, started, ops + [op]);
      if Succeeds(op.answers) {
        AttachedTraced(all, j, i, started, ops, op);
      }
    }
  }

  lemma {:induction false} QueriedTraced(devs: seq<Device>, i: nat, started: nat, ops: seq<Op>, op: Op)
    requires TracedDevices(devs, i, started, ops + [op]) && started < |ops| && op.AddDev? && op.host == i
    ensures TracedDevices(QueryOrAdd(devs, DeviceIdOf(op.devId), |ops|), i, started, ops + [op])
  {
    var all := QueryOrAdd(devs, DeviceIdOf(op.devId), |ops|);
    forall j | 0 <= j < |all| ensures TracedDevice(all[j], i, started, ops + [op]) {
      if |all| > |devs| && j > 0 {
        assert all[j] == devs[j - 1];
      }
    }
  }

  lemma {:induction false} AttachedTraced(devs: seq<Device>, j: nat, i: nat, started: nat, ops: seq<Op>, op: Op)
    requires TracedDevices(devs, i, started, ops + [op]) && j < |devs| && op.AddDev? && op.host == i && Succeeds(op.answers)
    requires devs[j].deviceId == DeviceIdOf(op.devId)
    ensures var n := DeviceNode(op.devId, op.powered, |ops|);
            TracedDevices(devs[j := devs[j].(devNodes := devs[j].devNodes + [n])], i, started, ops + [op])
  {
    hide DeviceIdOf;
    var d := devs[j];
    var e := d.(devNodes := d.devNodes + [DeviceNode(op.devId, op.powered, |ops|)]);
    assert TracedDevice(d, i, started, ops + [op]);
    forall k | 0 <= k < |e.devNodes| ensures TracedNode(e.devNodes[k], e, i, ops + [op]) {
      if k < |d.devNodes| {
        assert TracedNode(d.devNodes[k], d, i, ops + [op]);
      }
    }
    assert TracedDevice(e, i, started, ops + [op]);
  }

  lemma {:induction false} AlwaysTraced(ops: seq<Op>)
    ensures Traced(After(ops), ops)
  {
    hide Apply;
    if ops != [] {
      var n := |ops| - 1;
      AlwaysTraced(ops[..n]);
      StepTraced(After(ops[..n]), ops[..n], ops[n]);
      assert ops[..n] + [ops[n]] == ops;
    }
  }

  lemma {:induction false} StepTraced(hosts: seq<Host>, ops: seq<Op>, op: Op)
    requires Traced(hosts, ops)
    ensures Traced(Apply(hosts, |ops|, op), ops + [op])
  {
    hide TracedDevices, AddedDevice, DeletedDevice;
    StillTraced(hosts, ops, op);
    match op {
      case StartHost(_, _) =>
      case AttachHost(hostId) =>
        var i := Position(hosts, HasHostId(hostId));
        if i < |hosts| {
          NoDevicesTraced(i, hosts[i].started, ops + [op]);
        }
      case AddDev(i, devId, powered, answers) =>
        if Serves(hosts, i) {
          assert TracedHost(hosts[i], i, ops);
          AddedTraced(hosts[i].hostService.value, i, hosts[i].started, ops, op);
        }
      case DelDev(i, devId) =>
        if Serves(hosts, i) {
          assert TracedHost(hosts[i], i, ops + [op]);
          DeletedTraced(hosts[i].hostService.value, devId, i, hosts[i].started, ops + [op]);
        }
    }
  }

  lemma NoDevicesTraced(i: nat, started: nat, ops: seq<Op>)
    ensures TracedDevices([], i, started, ops)
  {
  }

  lemma {:induction false} StillTraced(hosts: seq<Host>, ops: seq<Op>, op: Op)
    requires Traced(hosts, ops)
    ensures Traced(hosts, ops + [op])
  {
    hide TracedDevices;
    forall i | 0 <= i < |hosts| ensures TracedHost(hosts[i], i, ops + [op]) {
      assert TracedHost(hosts[i], i, ops);
      if hosts[i].hostService.Some? {
        DevicesStillTraced(hosts[i].hostService.value, i, hosts[i].started, ops, op);
      }
    }
  }

  /**
    A visit's stamps are the times of the start of its host, of the addition that made its device
    and of the addition of the node itself.
   */
  lemma {:induction false} VisitTimes(ops: seq<Op>, v: Visit) returns (i: nat)
    requires v in ResumeOrder(After(ops))
    ensures i < |After(ops)| && After(ops)[i].started == v.host
    ensures v.host < v.device <= v.node < |ops| && ops[v.host] == StartHost(After(ops)[i].hostId, true)
    ensures AddedAt(ops, v.device, i, DeviceIdOf(v.devId)) && AddedAt(ops, v.node, i, DeviceIdOf(v.devId))
    ensures ops[v.node].devId == v.devId && ops[v.node].powered && Succeeds(ops[v.node].answers)
  {
    var hosts := After(ops);
    AlwaysTraced(ops);
    ResumeReaches(hosts, v);
    var a: nat, j: nat, k: nat :| IsVisitOf(hosts, v, a, j, k);
    i := a;
    var d := hosts[i].hostService.value[j];
    assert TracedHost(hosts[i], i, ops) && TracedDevice(d, i, hosts[i].started, ops);
    assert TracedNode(d.devNodes[k], d, i, ops);
  }

  // ---------------------------------------------------------------- devices and their first nodes

  predicate NoDeletions(ops: seq<Op>) {
    forall t :: 0 <= t < |ops| ==> !ops[t].DelDev?
  }

  /** Whether a device is as old as its first node. */
  predicate StartsWithNode(d: Device) {
    d.devNodes != [] && d.devNodes[0].attached == d.created
  }

  /** The addition that made the device got memory for its node. */
  predicate MadeWithNode(d: Device, ops: seq<Op>) {
    d.created < |ops| && ops[d.created].AddDev? && ops[d.created].answers.nodeMem
  }

  ghost predicate FirstNodes(devs: seq<Device>, ops: seq<Op>) {
    forall j :: 0 <= j < |devs| ==> devs[j].created < |ops| && (StartsWithNode(devs[j]) <==> MadeWithNode(devs[j], ops))
  }

  ghost predicate AllFirstNodes(hosts: seq<Host>, ops: seq<Op>) {
    forall i :: 0 <= i < |hosts| && hosts[i].hostService.Some? ==> FirstNodes(hosts[i].hostService.value, ops)
  }

  lemma {:induction false} FirstNodesAfterAdd(devs: seq<Device>, ops: seq<Op>, op: Op)
    requires FirstNodes(devs, ops) && op.AddDev?
    ensures FirstNodes(AddedDevice(devs, op.devId, op.powered, |ops|, op.answers).0, ops + [op])
  {
    hide DeviceIdOf, FirstNodes;
    StillFirstNodes(devs, ops, op);
    if Position(devs, HasDeviceId(DeviceIdOf(op.devId))) < |devs| {
      OldDeviceFirstNodes(devs, ops, op);
    } else {
      NewDeviceFirstNodes(devs, ops, op);
    }
  }

  /** An addition to a device that is there: the others stay, and so does its own first node, if any. */
  lemma {:induction false} OldDeviceFirstNodes(devs: seq<Device>, ops: seq<Op>, op: Op)
    requires FirstNodes(devs, ops + [op]) && op.AddDev? && FirstNodes(devs, ops)
    requires Position(devs, HasDeviceId(DeviceIdOf(op.devId))) < |devs|
    ensures FirstNodes(AddedDevice(devs, op.devId, op.powered, |ops|, op.answers).0, ops + [op])
  {
    hide DeviceIdOf, FirstNodes, Tidied;
    var j := Position(devs, HasDeviceId(DeviceIdOf(op.devId)));
    TidiedFirstNodes(devs, j, ops + [op]);
    LaterNodeFirstNodes(devs, j, DeviceNode(op.devId, op.powered, |ops|), ops, op);
  }

  lemma {:induction false} TidiedFirstNodes(devs: seq<Device>, j: nat, ops: seq<Op>)
    requires FirstNodes(devs, ops) && j < |devs|
    ensures FirstNodes(Tidied(devs, j), ops)
  {
    var t := Tidied(devs, j);
    assert devs[j].devNodes == [] ==> forall k :: 0 <= k < |t| ==> t[k] == devs[if k < j then k else k + 1];
  }

  lemma {:induction false} LaterNodeFirstNodes(devs: seq<Device>, j: nat, n: DeviceNode, ops: seq<Op>, op: Op)
    requires FirstNodes(devs, ops + [op]) && FirstNodes(devs, ops) && j < |devs| && n.attached == |ops|
    ensures FirstNodes(devs[j := devs[j].(devNodes := devs[j].devNodes + [n])], ops + [op])
  {
    var e := devs[j].(devNodes := devs[j].devNodes + [n]);
    assert StartsWithNode(e) <==> StartsWithNode(devs[j]);
  }

  /** An addition that makes a device: it stays with its node, or without one if there was no memory for it. */
  lemma {:induction false} NewDeviceFirstNodes(devs: seq<Device>, ops: seq<Op>, op: Op)
    requires FirstNodes(devs, ops + [op]) && op.AddDev?
    requires Position(devs, HasDeviceId(DeviceIdOf(op.devId))) == |devs|
    ensures FirstNodes(AddedDevice(devs, op.devId, op.powered, |ops|, op.answers).0, ops + [op])
  {
    hide DeviceIdOf, FirstNodes, AddedDevice;
    var id, now := DeviceIdOf(op.devId), |ops|;
    AddedToNew(devs, op.devId, op.powered, now, op.answers);
    NewestFirstNodes(Device(id, now, [DeviceNode(op.devId, op.powered, now)]), devs, ops + [op]);
    NewestFirstNodes(Device(id, now, []), devs, ops + [op]);
  }

  /** What an addition of a node of an unknown device leaves. */
  lemma {:induction false} AddedToNew(devs: seq<Device>, devId: nat, powered: bool, now: nat, a: Answers)
    requires Position(devs, HasDeviceId(DeviceIdOf(devId))) == |devs|
    ensures AddedDevice(devs, devId, powered, now, a).0
            == if !a.deviceMem || !a.driverFound || (a.nodeMem && !a.launches) then devs
               else [Device(DeviceIdOf(devId), now, if a.nodeMem then [DeviceNode(devId, powered, now)] else [])] + devs
  {
    hide DeviceIdOf, Position, Tidied;
    var id := DeviceIdOf(devId);
    var all := [Device(id, now, [])] + devs;
    var n := DeviceNode(devId, powered, now);
    NewestFirst(Device(id, now, []), devs);
    assert [] + [n] == [n];
    assert all[0 := Device(id, now, [n])] == [Device(id, now, [n])] + devs;
  }

  lemma NewestFirst(d: Device, devs: seq<Device>)
    requires d.devNodes == []
    ensures Position([d] + devs, HasDeviceId(d.deviceId)) == 0 && Tidied([d] + devs, 0) == devs
    ensures forall devId :: Position(d.devNodes, HasDevId(devId)) == 0
  {
  }

  lemma NewestFirstNodes(d: Device, devs: seq<Device>, ops: seq<Op>)
    requires FirstNodes(devs, ops) && d.created < |ops|
    ensures (StartsWithNode(d) <==> MadeWithNode(d, ops)) ==> FirstNodes([d] + devs, ops)
  {
  }

  /**
    Without deletions a device is as old as its first node if and only if the addition that made
    it got memory for its node: a failed allocation of the node leaves an empty device behind.
   */
  lemma {:induction false} DevicesStartWithNodes(ops: seq<Op>)
    requires NoDeletions(ops)
    ensures AllFirstNodes(After(ops), ops)
  {
    hide FirstNodes, AddedDevice;
    if ops != [] {
      var n := |ops| - 1;
      DevicesStartWithNodes(ops[..n]);
      var hosts, op := After(ops[..n]), ops[n];
      assert ops[..n] + [op] == ops;
      forall i | 0 <= i < |hosts| && hosts[i].hostService.Some? ensures FirstNodes(hosts[i].hostService.value, ops) {
        StillFirstNodes(hosts[i].hostService.value, ops[..n], op);
      }
      NoFirstNodes(ops);
      if op.AddDev? && Serves(hosts, op.host) {
        FirstNodesAfterAdd(hosts[op.host].hostService.value, ops[..n], op);
      }
    }
  }

  lemma NoFirstNodes(ops: seq<Op>)
    ensures FirstNodes([], ops)
  {
  }

  lemma StillFirstNodes(devs: seq<Device>, ops: seq<Op>, op: Op)
    requires FirstNodes(devs, ops)
    ensures FirstNodes(devs, ops + [op])
  {
  }

  // ---------------------------------------------------------------- lexicographic order

  /** First by the start of the host, then by the creation of the device, then by the attachment. */
  predicate Earlier(v: Visit, w: Visit) {
    v.host < w.host || (v.host == w.host && (v.device < w.device || (v.device == w.device && v.node < w.node)))
  }

  ghost predicate AllEarlier(a: seq<Visit>, b: seq<Visit>) {
    forall i, j :: 0 <= i < |a| && 0 <= j < |b| ==> Earlier(a[i], b[j])
  }

  ghost predicate Lexicographic(a: seq<Visit>) {
    forall i, j :: 0 <= i < j < |a| ==> Earlier(a[i], a[j])
  }

  lemma LexicographicConcat(a: seq<Visit>, b: seq<Visit>)
    requires Lexicographic(a) && Lexicographic(b) && AllEarlier(a, b)
    ensures Lexicographic(a + b)
  {
  }

  lemma {:induction false} ForwardLexicographic<T>(s: seq<T>, f: T -> seq<Visit>)
    requires forall i :: 0 <= i < |s| ==> Lexicographic(f(s[i]))
    requires forall i, j :: 0 <= i < j < |s| ==> AllEarlier(f(s[i]), f(s[j]))
    ensures Lexicographic(Forward(s, f))
  {
    if s != [] {
      var n := |s| - 1;
      ForwardLexicographic(s[..n], f);
      ForwardAllEarlier(s[..n], f, f(s[n]));
      LexicographicConcat(Forward(s[..n], f), f(s[n]));
    }
  }

  lemma {:induction false} ForwardAllEarlier<T>(s: seq<T>, f: T -> seq<Visit>, b: seq<Visit>)
    requires forall i :: 0 <= i < |s| ==> AllEarlier(f(s[i]), b)
    ensures AllEarlier(Forward(s, f), b)
  {
    if s != [] {
      ForwardAllEarlier(s[..|s| - 1], f, b);
    }
  }

  lemma {:induction false} BackwardLexicographic<T>(s: seq<T>, f: T -> seq<Visit>)
    requires forall i :: 0 <= i < |s| ==> Lexicographic(f(s[i]))
    requires forall i, j :: 0 <= i < j < |s| ==> AllEarlier(f(s[j]), f(s[i]))
    ensures Lexicographic(Backward(s, f))
  {
    if s != [] {
      BackwardLexicographic(s[1..], f);
      BackwardAllEarlier(s[1..], f, f(s[0]));
      LexicographicConcat(Backward(s[1..], f), f(s[0]));
    }
  }

  lemma {:induction false} BackwardAllEarlier<T>(s: seq<T>, f: T -> seq<Visit>, b: seq<Visit>)
    requires forall i :: 0 <= i < |s| ==> AllEarlier(f(s[i]), b)
    ensures AllEarlier(Backward(s, f), b)
  {
    if s != [] {
      BackwardAllEarlier(s[1..], f, b);
    }
  }

  /** What a host, or a device of a host, yields carries its time. */
  lemma {:induction false} DeviceVisits(h: Host, d: Device, v: Visit)
    requires v in DeviceWakes(h)(d)
    ensures v.host == h.started && v.device == d.created
  {
    ForwardHas(d.devNodes, NodeVisits(h, d), v);
  }

  lemma {:induction false} HostVisits(h: Host, v: Visit)
    requires v in HostWakes(h)
    ensures v.host == h.started
  {
    var devs := h.hostService.value;
    BackwardHas(devs, DeviceWakes(h), v);
    var i :| 0 <= i < |devs| && v in DeviceWakes(h)(devs[i]);
    DeviceVisits(h, devs[i], v);
  }

  lemma {:induction false} HostLexicographic(h: Host, now: nat)
    requires h.hostService.Some? && DevicesInOrder(h.hostService.value, now)
    ensures Lexicographic(HostWakes(h))
  {
    var devs, f := h.hostService.value, DeviceWakes(h);
    forall i | 0 <= i < |devs| ensures Lexicographic(f(devs[i])) {
      assert NodesInOrder(devs[i].devNodes, now);
      ForwardLexicographic(devs[i].devNodes, NodeVisits(h, devs[i]));
    }
    forall i, j | 0 <= i < j < |devs| ensures AllEarlier(f(devs[j]), f(devs[i])) {
      forall a, b | 0 <= a < |f(devs[j])| && 0 <= b < |f(devs[i])| ensures Earlier(f(devs[j])[a], f(devs[i])[b]) {
        DeviceVisits(h, devs[j], f(devs[j])[a]);
        DeviceVisits(h, devs[i], f(devs[i])[b]);
      }
    }
    BackwardLexicographic(devs, f);
  }

  /**
    After any run of starts, attachments, additions and deletions, resume goes by the start of
    the host, then the creation of the device, then the attachment of the node; in particular it
    reaches no node twice.
   */
  lemma {:induction false} ResumeIsLexicographic(ops: seq<Op>)
    ensures Lexicographic(ResumeOrder(After(ops)))
  {
    var hosts := After(ops);
    AlwaysInOrder(ops);
    forall i | 0 <= i < |hosts| ensures Lexicographic(HostWakes(hosts[i])) {
      if hosts[i].hostService.Some? {
        HostLexicographic(hosts[i], |ops|);
      }
    }
    forall i, j | 0 <= i < j < |hosts| ensures AllEarlier(HostWakes(hosts[i]), HostWakes(hosts[j])) {
      HostsApart(hosts[i], hosts[j]);
    }
    ForwardLexicographic(hosts, HostWakes);
  }

  lemma {:induction false} HostsApart(g: Host, h: Host)
    requires g.started < h.started
    ensures AllEarlier(HostWakes(g), HostWakes(h))
  {
    forall a, b | 0 <= a < |HostWakes(g)| && 0 <= b < |HostWakes(h)| ensures Earlier(HostWakes(g)[a], HostWakes(h)[b]) {
      HostVisits(g, HostWakes(g)[a]);
      HostVisits(h, HostWakes(h)[b]);
    }
  }
}
