/**
  What a run of host starts, attachments, additions and deletions means for each device, told from
  the operations alone: which nodes a device has, in which order, and since when it is there.
 */
module PowerRuns {
  import opened Bytes
  import opened Seqs
  import opened PowerOrder

  // ---------------------------------------------------------------- one addition, one deletion

  /** The nodes of a device, if it is there. */
  function NodesOf(devs: seq<Device>, deviceId: nat): seq<DeviceNode> {
    var i := Position(devs, HasDeviceId(deviceId));
    if i < |devs| then devs[i].devNodes else []
  }

  /** When the device was made, if it is there. */
  function MadeAt(devs: seq<Device>, deviceId: nat): Option<nat> {
    var i := Position(devs, HasDeviceId(deviceId));
    if i < |devs| then Some(devs[i].created) else None
  }

  ghost predicate UniqueIds(devs: seq<Device>) {
    forall i, j :: 0 <= i < j < |devs| ==> devs[i].deviceId != devs[j].deviceId
  }

  predicate HasNode(nodes: seq<DeviceNode>, devId: nat) {
    exists k :: 0 <= k < |nodes| && nodes[k].devId == devId
  }

  /** Device id is as given, and the others are as before. */
  ghost predicate Becomes(before: seq<Device>, after: seq<Device>, id: nat, made: Option<nat>, nodes: seq<DeviceNode>) {
    && UniqueIds(after) && MadeAt(after, id) == made && NodesOf(after, id) == nodes
    && forall d :: d != id ==> MadeAt(after, d) == MadeAt(before, d) && NodesOf(after, d) == NodesOf(before, d)
  }

  lemma {:induction false} FoundAt(devs: seq<Device>, i: nat)
    requires UniqueIds(devs) && i < |devs|
    ensures Position(devs, HasDeviceId(devs[i].deviceId)) == i
  {
    assert HasDeviceId(devs[i].deviceId)(devs[i]);
  }

  lemma NotThere(devs: seq<Device>, id: nat, i: nat)
    requires Position(devs, HasDeviceId(id)) == |devs| && i < |devs|
    ensures devs[i].deviceId != id
  {
    assert !HasDeviceId(id)(devs[i]);
  }

  lemma {:induction false} NewestDevice(devs: seq<Device>, d: Device)
    requires UniqueIds(devs) && Position(devs, HasDeviceId(d.deviceId)) == |devs|
    ensures Becomes(devs, [d] + devs, d.deviceId, Some(d.created), d.devNodes)
    ensures Position([d] + devs, HasDeviceId(d.deviceId)) == 0
  {
    var all := [d] + devs;
    forall i | 0 <= i < |devs| ensures all[i + 1] == devs[i] && devs[i].deviceId != d.deviceId {
      NotThere(devs, d.deviceId, i);
    }
    forall id | id != d.deviceId
      ensures Position(all, HasDeviceId(id)) == Position(devs, HasDeviceId(id)) + 1
    {
      assert all[1..] == devs;
    }
  }

  lemma {:induction false} ChangedDevice(devs: seq<Device>, i: nat, d: Device)
    requires UniqueIds(devs) && i < |devs| && d.deviceId == devs[i].deviceId
    ensures Becomes(devs, devs[i := d], d.deviceId, Some(d.created), d.devNodes)
    ensures Position(devs[i := d], HasDeviceId(d.deviceId)) == i
  {
    var after := devs[i := d];
    FoundAt(after, i);
    forall id | id != d.deviceId
      ensures Position(after, HasDeviceId(id)) == Position(devs, HasDeviceId(id)) != i
    {
      SamePosition(devs, after, id);
      assert HasDeviceId(id)(devs[i]) == false;
    }
  }

  lemma {:induction false} SamePosition(devs: seq<Device>, after: seq<Device>, id: nat)
    requires |devs| == |after| && forall j :: 0 <= j < |devs| ==> devs[j].deviceId == after[j].deviceId
    ensures Position(after, HasDeviceId(id)) == Position(devs, HasDeviceId(id))
  {
    var p, q := Position(after, HasDeviceId(id)), Position(devs, HasDeviceId(id));
    assert forall j :: 0 <= j < |devs| ==> HasDeviceId(id)(after[j]) == HasDeviceId(id)(devs[j]);
  }

  lemma {:induction false} DroppedDevice(devs: seq<Device>, i: nat)
    requires UniqueIds(devs) && i < |devs|
    ensures Becomes(devs, Without(devs, i), devs[i].deviceId, None, [])
  {
    var after := Without(devs, i);
    assert forall j :: 0 <= j < |after| ==> after[j] == devs[if j < i then j else j + 1];
    var p := Position(after, HasDeviceId(devs[i].deviceId));
    forall id | id != devs[i].deviceId
      ensures MadeAt(after, id) == MadeAt(devs, id) && NodesOf(after, id) == NodesOf(devs, id)
    {
      StillThere(devs, after, i, id);
    }
  }

  lemma {:induction false} StillThere(devs: seq<Device>, after: seq<Device>, i: nat, id: nat)
    requires UniqueIds(devs) && UniqueIds(after) && i < |devs| && after == Without(devs, i) && id != devs[i].deviceId
    ensures MadeAt(after, id) == MadeAt(devs, id) && NodesOf(after, id) == NodesOf(devs, id)
  {
    var q := Position(devs, HasDeviceId(id));
    if q < |devs| {
      assert HasDeviceId(id)(devs[q]) && q != i;
      FoundAt(after, if q < i then q else q - 1);
    } else {
      var p := Position(after, HasDeviceId(id));
      if p < |after| {
        NotThere(devs, id, if p < i then p else p + 1);
      }
    }
  }

  lemma {:induction false} BecomesAgain(a: seq<Device>, b: seq<Device>, c: seq<Device>, id: nat, made: Option<nat>,
                                        nodes: seq<DeviceNode>, made': Option<nat>, nodes': seq<DeviceNode>)
    requires Becomes(a, b, id, made, nodes) && Becomes(b, c, id, made', nodes')
    ensures Becomes(a, c, id, made', nodes')
  {
  }

  /**
    DevHostServiceAddDevice, outcome by outcome: it succeeds if and only if no node of the device has
    the id, there is a device or memory for one, the driver is found, there is memory for the node
    and it launches; then the node is the last of its device. The nodes are left alone otherwise, and
    other devices always; a device left without nodes goes, unless it lacked memory for the node.
   */
  lemma {:induction false} AddedDeviceIs(devs: seq<Device>, devId: nat, powered: bool, now: nat, a: Answers)
    requires UniqueIds(devs)
    ensures var id := devId / 0x100 % 0x10000;
            var (after, code) := AddedDevice(devs, devId, powered, now, a);
            var made, nodes := MadeAt(devs, id), NodesOf(devs, id);
            && code == (if made.None? && !a.deviceMem then NoDevice
                        else if HasNode(nodes, devId) then Busy
                        else if !a.driverFound then NoData
                        else if !a.nodeMem then NoMemory
                        else if !a.launches then Failure
                        else Success)
            && var there := if made.Some? then made else Some(now);
               Becomes(devs, after, id,
                       match code
                       case NoDevice => None
                       case Success => there
                       case NoMemory => there
                       case _ => if nodes == [] then None else made,
                       if code == Success then nodes + [DeviceNode(devId, powered, now)] else nodes)
  {
    hide Becomes, Tidied, DeviceIdOf, UniqueIds;
    assert DeviceIdOf(devId) == devId / 0x100 % 0x10000 by { DeviceIdIs(devId); }
    var id := DeviceIdOf(devId);
    var i := Position(devs, HasDeviceId(id));
    NothingBecomes(devs, id);
    if i < |devs| {
      assert HasDeviceId(id)(devs[i]);
      AddedToOld(devs, i, devId, powered, now, a);
    } else if a.deviceMem {
      var all := [Device(id, now, [])] + devs;
      NewestDevice(devs, Device(id, now, []));
      UniqueNewest(devs, Device(id, now, []));
      SameAddition(devs, devId, powered, now, a);
      AddedToOld(all, 0, devId, powered, now, a);
      var (after, code) := AddedDevice(devs, devId, powered, now, a);
      BecomesAgain(devs, all, after, id, Some(now), [],
                   if code == NoData || code == Failure then None else Some(now),
                   if code == Success then [] + [DeviceNode(devId, powered, now)] else []);
    }
  }

  lemma UniqueNewest(devs: seq<Device>, d: Device)
    requires Becomes(devs, [d] + devs, d.deviceId, Some(d.created), d.devNodes)
    ensures UniqueIds([d] + devs)
  {
  }

  /** An addition that makes its device is one to the device just made. */
  lemma {:induction false} SameAddition(devs: seq<Device>, devId: nat, powered: bool, now: nat, a: Answers)
    requires Position(devs, HasDeviceId(DeviceIdOf(devId))) == |devs| && a.deviceMem
    requires var all := [Device(DeviceIdOf(devId), now, [])] + devs;
             Position(all, HasDeviceId(DeviceIdOf(devId))) == 0
    ensures var all := [Device(DeviceIdOf(devId), now, [])] + devs;
            AddedDevice(devs, devId, powered, now, a) == AddedDevice(all, devId, powered, now, a)
  {
    hide DeviceIdOf, Tidied;
  }

  lemma DeviceIdIs(devId: nat)
    ensures DeviceIdOf(devId) == devId / 0x100 % 0x10000
  {
  }

  lemma NothingBecomes(devs: seq<Device>, id: nat)
    requires UniqueIds(devs)
    ensures Becomes(devs, devs, id, MadeAt(devs, id), NodesOf(devs, id))
  {
  }

  lemma {:induction false} TidiedBecomes(devs: seq<Device>, i: nat)
    requires UniqueIds(devs) && i < |devs|
    ensures var d := devs[i];
            Becomes(devs, Tidied(devs, i), d.deviceId, if d.devNodes == [] then None else Some(d.created), d.devNodes)
  {
    FoundAt(devs, i);
    DroppedDevice(devs, i);
  }

  lemma {:induction false} NodeSought(nodes: seq<DeviceNode>, devId: nat)
    ensures HasNode(nodes, devId) <==> Position(nodes, HasDevId(devId)) < |nodes|
  {
    var k := Position(nodes, HasDevId(devId));
    if k < |nodes| {
      assert nodes[k].devId == devId;
    } else {
      assert forall j :: 0 <= j < |nodes| ==> !HasDevId(devId)(nodes[j]);
    }
  }

  lemma {:induction false} AddedToOld(devs: seq<Device>, i: nat, devId: nat, powered: bool, now: nat, a: Answers)
    requires UniqueIds(devs) && i < |devs| && devs[i].deviceId == DeviceIdOf(devId)
    requires i == Position(devs, HasDeviceId(DeviceIdOf(devId)))
    ensures var (after, code) := AddedDevice(devs, devId, powered, now, a);
            var d := devs[i];
            && code == (if HasNode(d.devNodes, devId) then Busy
                        else if !a.driverFound then NoData
                        else if !a.nodeMem then NoMemory
                        else if !a.launches then Failure
                        else Success)
            && Becomes(devs, after, d.deviceId,
                       if (code == NoData || code == Failure) && d.devNodes == [] then None else Some(d.created),
                       if code == Success then d.devNodes + [DeviceNode(devId, powered, now)] else d.devNodes)
  {
    hide Becomes, Tidied, DeviceIdOf, UniqueIds, HasNode;
    NothingBecomes(devs, devs[i].deviceId);
    TidiedBecomes(devs, i);
    ChangedDevice(devs, i, devs[i].(devNodes := devs[i].devNodes + [DeviceNode(devId, powered, now)]));
    NodeSought(devs[i].devNodes, devId);
  }

  /** The nodes without the one with the id. */
  function Less(nodes: seq<DeviceNode>, devId: nat): seq<DeviceNode> {
    if nodes == [] then []
    else if nodes[0].devId == devId then nodes[1..]
    else [nodes[0]] + Less(nodes[1..], devId)
  }

  lemma {:induction false} LessIsWithout(nodes: seq<DeviceNode>, devId: nat)
    ensures var k := Position(nodes, HasDevId(devId));
            Less(nodes, devId) == if k < |nodes| then Without(nodes, k) else nodes
  {
    var k := Position(nodes, HasDevId(devId));
    assert forall j :: 0 <= j < k ==> !HasDevId(devId)(nodes[j]);
    LessAt(nodes, devId, k);
  }

  lemma {:induction false} LessAt(nodes: seq<DeviceNode>, devId: nat, k: nat)
    requires k <= |nodes| && (forall j :: 0 <= j < k ==> nodes[j].devId != devId)
    requires k < |nodes| ==> nodes[k].devId == devId
    ensures Less(nodes, devId) == if k < |nodes| then Without(nodes, k) else nodes
  {
    if k > 0 {
      LessAt(nodes[1..], devId, k - 1);
      LessCons(nodes, k);
    }
  }

  lemma LessCons(nodes: seq<DeviceNode>, k: nat)
    requires 0 < k <= |nodes|
    ensures k < |nodes| ==> Without(nodes, k) == [nodes[0]] + Without(nodes[1..], k - 1)
    ensures nodes == [nodes[0]] + nodes[1..]
  {
  }

  /**
    DevHostServiceDelDevice: exactly the node with the id goes, its siblings stay in their order, and
    a device left without nodes goes; nothing else changes.
   */
  lemma {:induction false} DeletedDeviceIs(devs: seq<Device>, devId: nat)
    requires UniqueIds(devs)
    ensures var id := devId / 0x100 % 0x10000;
            var (after, code) := DeletedDevice(devs, devId);
            var made, nodes := MadeAt(devs, id), NodesOf(devs, id);
            && code == (if made.Some? && !HasNode(nodes, devId) then NoDevice else Success)
            && Becomes(devs, after, id, if HasNode(nodes, devId) && |nodes| == 1 then None else made, Less(nodes, devId))
  {
    hide Becomes, Tidied, DeviceIdOf, UniqueIds, HasNode;
    DeviceIdIs(devId);
    var id := DeviceIdOf(devId);
    var i := Position(devs, HasDeviceId(id));
    NothingBecomes(devs, id);
    NodeSought(NodesOf(devs, id), devId);
    LessIsWithout(NodesOf(devs, id), devId);
    if i < |devs| {
      assert HasDeviceId(id)(devs[i]);
      var d := devs[i];
      var k := Position(d.devNodes, HasDevId(devId));
      if k < |d.devNodes| {
        var e := d.(devNodes := Without(d.devNodes, k));
        ChangedDevice(devs, i, e);
        UniqueBecomes(devs, devs[i := e], id, Some(e.created), e.devNodes);
        TidiedBecomes(devs[i := e], i);
        BecomesAgain(devs, devs[i := e], Tidied(devs[i := e], i), id, Some(e.created), e.devNodes,
                     if e.devNodes == [] then None else Some(e.created), e.devNodes);
      }
    }
  }

  lemma UniqueBecomes(devs: seq<Device>, after: seq<Device>, id: nat, made: Option<nat>, nodes: seq<DeviceNode>)
    requires Becomes(devs, after, id, made, nodes)
    ensures UniqueIds(after)
  {
  }

  // ---------------------------------------------------------------- whole runs

  /** The ids of the hosts started, in order. */
  function HostIds(ops: seq<Op>): seq<nat> {
    if ops == [] then []
    else
      var last := ops[|ops| - 1];
      HostIds(ops[..|ops| - 1]) + if last.StartHost? && last.starts then [last.hostId] else []
  }

  /** The operation attaches host i: the first one started with the id. */
  predicate Attaches(before: seq<Op>, op: Op, i: nat) {
    var ids := HostIds(before);
    op.AttachHost? && i < |ids| && ids[i] == op.hostId && forall j :: 0 <= j < i ==> ids[j] != op.hostId
  }

  /** Host i has a service. */
  predicate Attached(ops: seq<Op>, i: nat) {
    ops != [] && (Attached(ops[..|ops| - 1], i) || Attaches(ops[..|ops| - 1], ops[|ops| - 1], i))
  }

  /** The operation is about device d of host i. */
  predicate Concerns(op: Op, i: nat, d: nat) {
    match op
    case AddDev(host, devId, _, _) => host == i && devId / 0x100 % 0x10000 == d
    case DelDev(host, devId) => host == i && devId / 0x100 % 0x10000 == d
    case _ => false
  }

  /** An addition, given what the device is before it, succeeds. */
  predicate AddsNode(made: Option<nat>, nodes: seq<DeviceNode>, op: Op) {
    && op.AddDev? && (made.Some? || op.answers.deviceMem) && !HasNode(nodes, op.devId)
    && op.answers.driverFound && op.answers.nodeMem && op.answers.launches
  }

  /** Since when device d of host i is there, if it is, and its nodes, told from the operations on it. */
  function DeviceRead(ops: seq<Op>, i: nat, d: nat): (Option<nat>, seq<DeviceNode>) {
    if ops == [] then (None, [])
    else
      var before, op := ops[..|ops| - 1], ops[|ops| - 1];
      var (made, nodes) := DeviceRead(before, i, d);
      if Attaches(before, op, i) then (None, [])
      else if !Concerns(op, i, d) || !Attached(before, i) then (made, nodes)
      else if AddsNode(made, nodes, op) then
        (if made.Some? then made else Some(|before|), nodes + [DeviceNode(op.devId, op.powered, |before|)])
      else if op.DelDev? then
        (if HasNode(nodes, op.devId) && |nodes| == 1 then None else made, Less(nodes, op.devId))
      else if HasNode(nodes, op.devId) || (made.None? && !op.answers.deviceMem) then (made, nodes)
      else if op.answers.driverFound && !op.answers.nodeMem then (if made.Some? then made else Some(|before|), nodes)
      else (if nodes == [] then None else made, nodes)
  }

  /** Device d of the service is as the operations on it say. */
  ghost predicate IsRead(devs: seq<Device>, ops: seq<Op>, i: nat, d: nat) {
    MadeAt(devs, d) == DeviceRead(ops, i, d).0 && NodesOf(devs, d) == DeviceRead(ops, i, d).1
  }

  /** The service of a host is as the operations say. */
  ghost predicate ServiceAs(devs: seq<Device>, ops: seq<Op>, i: nat) {
    UniqueIds(devs) && forall d :: IsRead(devs, ops, i, d)
  }

  ghost predicate TopologyAs(hosts: seq<Host>, ops: seq<Op>) {
    && |hosts| == |HostIds(ops)|
    && forall i :: 0 <= i < |hosts| ==>
         && hosts[i].hostId == HostIds(ops)[i] && (hosts[i].hostService.Some? <==> Attached(ops, i))
         && (hosts[i].hostService.Some? ==> ServiceAs(hosts[i].hostService.value, ops, i))
  }

  lemma {:induction false} HostIdsSnoc(ops: seq<Op>, op: Op)
    ensures HostIds(ops + [op]) == HostIds(ops) + if op.StartHost? && op.starts then [op.hostId] else []
  {
    assert (ops + [op])[..|ops|] == ops;
  }

  lemma {:induction false} AttachedSnoc(ops: seq<Op>, op: Op, i: nat)
    ensures Attached(ops + [op], i) <==> Attached(ops, i) || Attaches(ops, op, i)
    ensures Attached(ops, i) ==> i < |HostIds(ops)|
  {
    assert (ops + [op])[..|ops|] == ops;
    if ops != [] {
      AttachedSnoc(ops[..|ops| - 1], ops[|ops| - 1], i);
      assert ops[..|ops| - 1] + [ops[|ops| - 1]] == ops;
      HostIdsSnoc(ops[..|ops| - 1], ops[|ops| - 1]);
    }
  }

  /** What an operation makes of a device of an attached host. */
  lemma {:induction false} DeviceReadSnoc(ops: seq<Op>, op: Op, i: nat, d: nat)
    ensures Attaches(ops, op, i) ==> DeviceRead(ops + [op], i, d) == (None, [])
    ensures !Attaches(ops, op, i) && (!Concerns(op, i, d) || !Attached(ops, i)) ==>
              DeviceRead(ops + [op], i, d) == DeviceRead(ops, i, d)
    ensures !Attaches(ops, op, i) && Concerns(op, i, d) && Attached(ops, i) ==>
              var (made, nodes) := DeviceRead(ops, i, d);
              var there := if made.Some? then made else Some(|ops|);
              DeviceRead(ops + [op], i, d)
              == if op.DelDev? then
                   (if HasNode(nodes, op.devId) && |nodes| == 1 then None else made, Less(nodes, op.devId))
                 else
                   var a := op.answers;
                   if made.None? && !a.deviceMem then (made, nodes)
                   else if HasNode(nodes, op.devId) then (made, nodes)
                   else if !a.driverFound then (if nodes == [] then None else made, nodes)
                   else if !a.nodeMem then (there, nodes)
                   else if !a.launches then (if nodes == [] then None else made, nodes)
                   else (there, nodes + [DeviceNode(op.devId, op.powered, |ops|)])
  {
    hide HasNode, Attaches, Attached, Less;
    assert (ops + [op])[..|ops|] == ops;
  }

  lemma {:induction false} ServiceUntouched(devs: seq<Device>, ops: seq<Op>, op: Op, i: nat)
    requires ServiceAs(devs, ops, i) && !Attaches(ops, op, i) && forall d :: !Concerns(op, i, d)
    ensures ServiceAs(devs, ops + [op], i)
  {
    hide Concerns, Attaches, UniqueIds, MadeAt, NodesOf, DeviceRead;
    forall d ensures IsRead(devs, ops + [op], i, d) {
      assert IsRead(devs, ops, i, d);
      DeviceReadSnoc(ops, op, i, d);
    }
  }

  lemma {:induction false} ServiceNew(ops: seq<Op>, op: Op, i: nat)
    requires Attaches(ops, op, i)
    ensures ServiceAs([], ops + [op], i)
  {
    forall d ensures IsRead([], ops + [op], i, d) { DeviceReadSnoc(ops, op, i, d); }
  }

  lemma {:induction false} ServiceAdded(devs: seq<Device>, ops: seq<Op>, i: nat, devId: nat, powered: bool, a: Answers)
    requires ServiceAs(devs, ops, i) && Attached(ops, i)
    ensures ServiceAs(AddedDevice(devs, devId, powered, |ops|, a).0, ops + [AddDev(i, devId, powered, a)], i)
  {
    hide UniqueIds, MadeAt, NodesOf, DeviceRead, AddedDevice;
    var op := AddDev(i, devId, powered, a);
    AddedDeviceIs(devs, devId, powered, |ops|, a);
    var after := AddedDevice(devs, devId, powered, |ops|, a).0;
    forall d ensures IsRead(after, ops + [op], i, d) {
      assert IsRead(devs, ops, i, d);
      DeviceReadSnoc(ops, op, i, d);
    }
  }

  lemma {:induction false} ServiceDeleted(devs: seq<Device>, ops: seq<Op>, i: nat, devId: nat)
    requires ServiceAs(devs, ops, i) && Attached(ops, i)
    ensures ServiceAs(DeletedDevice(devs, devId).0, ops + [DelDev(i, devId)], i)
  {
    hide UniqueIds, MadeAt, NodesOf, DeviceRead, DeletedDevice, HasNode, Less;
    var op := DelDev(i, devId);
    DeletedDeviceIs(devs, devId);
    var after := DeletedDevice(devs, devId).0;
    forall d ensures IsRead(after, ops + [op], i, d) {
      assert IsRead(devs, ops, i, d);
      DeviceReadSnoc(ops, op, i, d);
    }
  }

  lemma {:induction false} AttachesFound(hosts: seq<Host>, ops: seq<Op>, hostId: nat)
    requires TopologyAs(hosts, ops)
    ensures var p := Position(hosts, HasHostId(hostId));
            forall i :: Attaches(ops, AttachHost(hostId), i) <==> i == p < |hosts|
  {
    hide Attached, ServiceAs;
    var p, ids := Position(hosts, HasHostId(hostId)), HostIds(ops);
    assert forall j :: 0 <= j < |hosts| ==> (HasHostId(hostId)(hosts[j]) <==> ids[j] == hostId);
    if p < |hosts| {
      assert HasHostId(hostId)(hosts[p]);
    }
  }

  lemma {:induction false} TopologyStep(hosts: seq<Host>, ops: seq<Op>, op: Op)
    requires TopologyAs(hosts, ops)
    ensures TopologyAs(Apply(hosts, |ops|, op), ops + [op])
  {
    hide Attached, Attaches, ServiceAs, AddedDevice, DeletedDevice, HostIds, Concerns;
    var after := Apply(hosts, |ops|, op);
    HostIdsSnoc(ops, op);
    forall i | 0 <= i < |after|
      ensures after[i].hostService.Some? <==> Attached(ops + [op], i)
      ensures after[i].hostService.Some? ==> ServiceAs(after[i].hostService.value, ops + [op], i)
    {
      AttachedSnoc(ops, op, i);
      HostStep(hosts, ops, op, i);
    }
  }

  lemma {:induction false} HostStep(hosts: seq<Host>, ops: seq<Op>, op: Op, i: nat)
    requires TopologyAs(hosts, ops) && i < |Apply(hosts, |ops|, op)|
    requires Attached(ops + [op], i) <==> Attached(ops, i) || Attaches(ops, op, i)
    requires Attached(ops, i) ==> i < |HostIds(ops)|
    ensures var h := Apply(hosts, |ops|, op)[i];
            && (h.hostService.Some? <==> Attached(ops + [op], i))
            && (h.hostService.Some? ==> ServiceAs(h.hostService.value, ops + [op], i))
  {
    hide Attached, ServiceAs, AddedDevice, DeletedDevice, HostIds;
    match op {
      case StartHost(hostId, starts) =>
        if i < |hosts| && hosts[i].hostService.Some? {
          ServiceUntouched(hosts[i].hostService.value, ops, op, i);
        }
      case AttachHost(hostId) =>
        AttachesFound(hosts, ops, hostId);
        if Attaches(ops, op, i) {
          ServiceNew(ops, op, i);
        } else if hosts[i].hostService.Some? {
          ServiceUntouched(hosts[i].hostService.value, ops, op, i);
        }
      case AddDev(host, devId, powered, a) =>
        if hosts[i].hostService.Some? {
          if host == i {
            ServiceAdded(hosts[i].hostService.value, ops, i, devId, powered, a);
          } else {
            ServiceUntouched(hosts[i].hostService.value, ops, op, i);
          }
        }
      case DelDev(host, devId) =>
        if hosts[i].hostService.Some? {
          if host == i {
            ServiceDeleted(hosts[i].hostService.value, ops, i, devId);
          } else {
            ServiceUntouched(hosts[i].hostService.value, ops, op, i);
          }
        }
    }
  }

  /**
    The topology after any run is what the operations say: which hosts there are, which have a
    service, and for each device since when it is there and which nodes it has, in which order.
   */
  lemma {:induction false} TopologyIs(ops: seq<Op>)
    ensures TopologyAs(After(ops), ops)
  {
    hide TopologyAs, Apply;
    if ops == [] {
      assert TopologyAs([], []) by { NoTopology(); }
    } else {
      var n := |ops| - 1;
      TopologyIs(ops[..n]);
      TopologyStep(After(ops[..n]), ops[..n], ops[n]);
      assert ops[..n] + [ops[n]] == ops;
    }
  }

  lemma NoTopology()
    ensures TopologyAs([], [])
  {
  }

  /** Neither is the node deleted nor its host attached anew by the operation. */
  predicate Spares(before: seq<Op>, op: Op, i: nat, devId: nat) {
    op != DelDev(i, devId) && !Attaches(before, op, i)
  }

  lemma {:induction false} LessKeeps(nodes: seq<DeviceNode>, devId: nat, n: DeviceNode)
    requires n in nodes && n.devId != devId
    ensures n in Less(nodes, devId)
  {
    if nodes[0].devId != devId && nodes[0] != n {
      LessKeeps(nodes[1..], devId, n);
    }
  }

  /** A node that was added stays with its device while it is spared. */
  lemma {:induction false} NodeStays(ops: seq<Op>, t: nat, i: nat, devId: nat)
    requires t < |ops| && ops[t].AddDev? && ops[t].host == i && ops[t].devId == devId && Attached(ops[..t], i)
    requires var (made, nodes) := DeviceRead(ops[..t], i, devId / 0x100 % 0x10000); AddsNode(made, nodes, ops[t])
    requires forall u :: t < u < |ops| ==> Spares(ops[..u], ops[u], i, devId)
    ensures DeviceNode(devId, ops[t].powered, t) in DeviceRead(ops, i, devId / 0x100 % 0x10000).1 && Attached(ops, i)
  {
    hide HasNode, Attaches, Attached, Less, DeviceRead;
    var n, d := |ops| - 1, devId / 0x100 % 0x10000;
    assert ops[..n] + [ops[n]] == ops;
    DeviceReadSnoc(ops[..n], ops[n], i, d);
    AttachedSnoc(ops[..n], ops[n], i);
    if t < n {
      assert ops[..n][..t] == ops[..t];
      assert forall u :: t < u < n ==> ops[..n][..u] == ops[..u];
      NodeStays(ops[..n], t, i, devId);
      if ops[n].DelDev? && ops[n].devId != devId {
        LessKeeps(DeviceRead(ops[..n], i, d).1, ops[n].devId, DeviceNode(devId, ops[t].powered, t));
      }
    } else {
      NotAttachedAnew(ops[..t], ops[t], i);
    }
  }

  lemma NotAttachedAnew(ops: seq<Op>, op: Op, i: nat)
    requires op.AddDev?
    ensures !Attaches(ops, op, i)
  {
  }

  /**
    The converse of PowerOrder.VisitTimes: a node with a power token whose addition at time t went
    to a host with a service and met the conditions for success is reached by resume, as the node
    of time t, unless it has been deleted or its host attached anew since.
   */
  lemma {:induction false} AddedIsVisited(ops: seq<Op>, t: nat, i: nat, devId: nat) returns (v: Visit)
    requires t < |ops| && ops[t].AddDev? && ops[t].host == i && ops[t].devId == devId && Attached(ops[..t], i)
    requires var (made, nodes) := DeviceRead(ops[..t], i, devId / 0x100 % 0x10000); AddsNode(made, nodes, ops[t])
    requires ops[t].powered && forall u :: t < u < |ops| ==> Spares(ops[..u], ops[u], i, devId)
    ensures v in ResumeOrder(After(ops)) && v.node == t && v.devId == devId
    ensures i < |After(ops)| && v.host == After(ops)[i].started
  {
    hide ResumeOrder, DeviceRead, AddsNode, HasNode, Spares;
    TopologyIs(ops);
    NodeStays(ops, t, i, devId);
    AttachedWithin(ops, i);
    var hosts, d := After(ops), devId / 0x100 % 0x10000;
    var devs := hosts[i].hostService.value;
    assert IsRead(devs, ops, i, d);
    var j := Position(devs, HasDeviceId(d));
    var nodes := devs[j].devNodes;
    var k: nat :| k < |nodes| && nodes[k] == DeviceNode(devId, true, t);
    v := Visit(hosts[i].started, devs[j].created, t, devId);
    assert IsVisitOf(hosts, v, i, j, k);
    ResumeReaches(hosts, v);
  }

  lemma AttachedWithin(ops: seq<Op>, i: nat)
    requires Attached(ops, i)
    ensures i < |HostIds(ops)|
  {
    AttachedSnoc(ops, StartHost(0, false), i);
  }
}
