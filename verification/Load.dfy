/**
  Loading the devices of the hosts in two phases: when a host attaches
  (core/manager/src/devhost_service_clnt.c) and, in quick mode, once the system is up
  (DevmgrServiceLoadLeftDriver of core/manager/src/devmgr_service.c). Devices are added to the
  service of the host; what the environment answers to each addition is an input.
 */
module Load {
  import opened Seqs
  import opened SList
  import opened Boot
  import PO = PowerOrder

  type DevNode = Node<DeviceInfo>

  /** The test of DevHostServiceClntInstallDriver. */
  predicate Tries(quick: bool, d: DeviceInfo) {
    if d.preload == DEVICE_PRELOAD_DISABLE then false
    else if quick && d.preload == DEVICE_PRELOAD_ENABLE_STEP2 then false
    else true
  }

  /** The devices DevHostServiceClntInstallDriver tries. */
  function FirstPhase(quick: bool): DevNode -> bool {
    (n: DevNode) => Tries(quick, n.data)
  }

  /** The devices DevmgrServiceLoadLeftDriver tries. */
  predicate SecondPhase(n: DevNode) {
    n.data.preload == DEVICE_PRELOAD_ENABLE_STEP2
  }

  /** A device stays in the list of unloaded ones unless it is tried and loads. */
  function Stays(phase: DevNode -> bool, loads: DevNode -> bool): DevNode -> bool {
    (n: DevNode) => !(phase(n) && loads(n))
  }

  /** The first phase leaves loaded devices in the list of a build with __USER__. */
  function FirstStays(quick: bool, user: bool, loads: DevNode -> bool): DevNode -> bool {
    if user then (n: DevNode) => true else Stays(FirstPhase(quick), loads)
  }

  // ---------------------------------------------------------------- what additions do

  /** For each addition in turn: whether the node has a power token, and what the environment answers. */
  datatype Attempts = Attempts(powered: nat -> bool, answers: nat -> PO.Answers)

  /** One addition, the j-th of a series that starts at time `now`. */
  function Attempt(devs: seq<PO.Device>, d: DeviceInfo, e: Attempts, now: nat, j: nat): (seq<PO.Device>, PO.Code) {
    PO.AddedDevice(devs, d.deviceId, e.powered(j), now + j, e.answers(j))
  }

  /** The devices of a service after a series of additions. */
  function Installed(devs: seq<PO.Device>, tried: seq<DeviceInfo>, e: Attempts, now: nat): seq<PO.Device> {
    if tried == [] then devs
    else
      var n := |tried| - 1;
      Attempt(Installed(devs, tried[..n], e, now), tried[n], e, now, n).0
  }

  /** The devices that were loaded. */
  ghost function Loaded(devs: seq<PO.Device>, tried: seq<DevNode>, e: Attempts, now: nat): set<DevNode> {
    if tried == [] then {}
    else
      var n := |tried| - 1;
      var before := Installed(devs, DataOf(tried[..n]), e, now);
      Loaded(devs, tried[..n], e, now)
      + if Attempt(before, tried[n].data, e, now, n).1 == PO.Success then {tried[n]} else {}
  }

  lemma {:induction false} OneMoreTried(devs: seq<PO.Device>, tried: seq<DevNode>, node: DevNode, e: Attempts, now: nat)
    ensures var before := Installed(devs, DataOf(tried), e, now);
            var (after, code) := Attempt(before, node.data, e, now, |tried|);
            && Installed(devs, DataOf(tried + [node]), e, now) == after
            && Loaded(devs, tried + [node], e, now)
               == Loaded(devs, tried, e, now) + if code == PO.Success then {node} else {}
  {
    assert DataOf(tried + [node])[..|tried|] == DataOf(tried) && (tried + [node])[..|tried|] == tried;
  }

  lemma {:induction false} LoadedWereTried(devs: seq<PO.Device>, tried: seq<DevNode>, e: Attempts, now: nat)
    ensures forall n :: n in Loaded(devs, tried, e, now) ==> n in tried
  {
    if tried != [] {
      LoadedWereTried(devs, tried[..|tried| - 1], e, now);
    }
  }

  function In(loaded: set<DevNode>): DevNode -> bool {
    (n: DevNode) => n in loaded
  }

  /** What is left of the list when the loaded devices are taken out, or not. */
  function Remains(removes: bool, loaded: set<DevNode>): DevNode -> bool {
    (n: DevNode) => !(removes && n in loaded)
  }

  // ---------------------------------------------------------------- the loops

  /** One turn of the loop: the next device is added if it is its phase, and taken out if it loads. */
  method Turn(it: Iterator<DeviceInfo>, head: DevNode, service: PO.DevHostService, phase: DevNode -> bool, removes: bool,
              e: Attempts, now: nat, j: nat, ghost c: Cursor<DevNode>)
    returns (tried: seq<DevNode>, loaded: bool, ghost c': Cursor<DevNode>)
    requires it.StandsAt(head, c) && c.rest != [] && !c.current.Gone?
    modifies it, head, c.Contents(), service
    ensures it.StandsAt(head, c') && !c'.current.Gone? && c'.rest == c.rest[1..]
    ensures Front(c') == if removes && loaded then Front(c) else Front(c) + [c.rest[0]]
    ensures tried == if phase(c.rest[0]) then [c.rest[0]] else []
    ensures tried == [] ==> service.devices == old(service.devices) && !loaded
    ensures tried != [] ==> var (devs, code) := Attempt(old(service.devices), c.rest[0].data, e, now, j);
                            service.devices == devs && (loaded <==> code == PO.Success)
  {
    var node := it.Next(head, c);
    c' := c.Next();
    assert c'.Contents() == c.Contents() by { assert c.rest == [c.rest[0]] + c.rest[1..]; }
    tried, loaded := [], false;
    if !phase(node) {
      return;
    }
    tried := [node];
    var code := service.AddDevice(node.data.deviceId, e.powered(j), now + j, e.answers(j));
    loaded := code == PO.Success;
    if !loaded || !removes {
      return;
    }
    assert c'.passed != [] ==> c'.passed[|c'.passed| - 1] == c'.Contents()[|c'.passed| - 1];
    it.Remove(head, c');
    c' := c'.Remove();
  }

  /** The loop over the list of unloaded devices that both phases have. */
  method LoadPhase(head: DevNode, service: PO.DevHostService, phase: DevNode -> bool, removes: bool, e: Attempts, now: nat,
                   ghost s: seq<DevNode>)
    returns (tried: seq<DevNode>, ghost loaded: set<DevNode>)
    requires IsList(head, s)
    modifies head, s, service
    ensures tried == Filter(s, phase)
    ensures service.devices == Installed(old(service.devices), DataOf(tried), e, now)
    ensures loaded == Loaded(old(service.devices), tried, e, now)
    ensures IsList(head, Filter(s, Remains(removes, loaded)))
  {
    hide Filter, Iterator.StandsAt, IsList, Cursor.Contents, Installed, Loaded, Progress;
    var it := new Iterator(head, s);
    ghost var c, n, devs := Start(s), 0, service.devices;
    tried, loaded := [], {};
    Begun(s, phase, removes);
    NothingTried(devs, e, now);
    DistinctNodes(head, s);
    var more := it.HasNext(head, c);
    while more
      invariant fresh(it) && it.StandsAt(head, c)
      invariant Progress(s, n, c, removes, loaded) && n <= |s| && (more <==> n < |s|)
      invariant tried == Filter(s[..n], phase)
      invariant service.devices == Installed(devs, DataOf(tried), e, now) && loaded == Loaded(devs, tried, e, now)
      decreases |s| - n
    {
      more, tried, loaded, c := NextTurn(it, head, service, phase, removes, e, now, tried, s, n, loaded, c, devs);
      n := n + 1;
    }
    Finished(head, it, s, c, removes, loaded);
    assert s[..n] == s;
  }

  /** The bookkeeping of one turn. */
  method NextTurn(it: Iterator<DeviceInfo>, head: DevNode, service: PO.DevHostService, phase: DevNode -> bool, removes: bool,
                  e: Attempts, now: nat, tried: seq<DevNode>, ghost s: seq<DevNode>, ghost n: nat,
                  ghost loaded: set<DevNode>, ghost c: Cursor<DevNode>, ghost devs: seq<PO.Device>)
    returns (more: bool, tried': seq<DevNode>, ghost loaded': set<DevNode>, ghost c': Cursor<DevNode>)
    requires n < |s| && it.StandsAt(head, c) && Progress(s, n, c, removes, loaded) && Different(s)
    requires tried == Filter(s[..n], phase) && service.devices == Installed(devs, DataOf(tried), e, now)
    requires loaded == Loaded(devs, tried, e, now)
    modifies it, head, s, service
    ensures it.StandsAt(head, c') && Progress(s, n + 1, c', removes, loaded') && (more <==> n + 1 < |s|)
    ensures tried' == Filter(s[..n + 1], phase) && service.devices == Installed(devs, DataOf(tried'), e, now)
    ensures loaded' == Loaded(devs, tried', e, now)
  {
    hide Filter, Iterator.StandsAt, IsList, Cursor.Contents, Installed, Loaded, Attempt, Progress, Different, Front;
    hide PO.AddedDevice, Cursor.Listed, Remains;
    FilterNext(s, n, phase);
    ContentsWithin(s, n, c, removes, loaded);
    var t, took;
    t, took, c' := Turn(it, head, service, phase, removes, e, now, |tried|, c);
    OneMoreTried(devs, tried, s[n], e, now);
    LoadedBefore(devs, tried, e, now, s, n, phase);
    ProgressNext(s, n, c, c', removes, loaded, took);
    tried' := tried + t;
    loaded' := loaded + if took then {s[n]} else {};
    ProgressRest(s, n + 1, c', removes, loaded');
    more := it.HasNext(head, c');
  }

  ghost predicate Different(s: seq<DevNode>) {
    forall i, j :: 0 <= i < j < |s| ==> s[i] != s[j]
  }

  lemma DistinctNodes(head: DevNode, s: seq<DevNode>)
    requires IsList(head, s)
    ensures Different(s)
  {
  }

  /** The iterator has handled n nodes; behind it are those of them that were not taken out. */
  ghost predicate Progress(s: seq<DevNode>, n: nat, c: Cursor<DevNode>, removes: bool, loaded: set<DevNode>) {
    n <= |s| && c.rest == s[n..] && Front(c) == Filter(s[..n], Remains(removes, loaded)) && !c.current.Gone?
  }

  lemma Begun(s: seq<DevNode>, phase: DevNode -> bool, removes: bool)
    ensures Filter(s[..0], phase) == [] && Progress(s, 0, Start(s), removes, {})
  {
  }

  lemma NothingTried(devs: seq<PO.Device>, e: Attempts, now: nat)
    ensures Installed(devs, DataOf([]), e, now) == devs && Loaded(devs, [], e, now) == {}
  {
  }

  lemma ProgressRest(s: seq<DevNode>, n: nat, c: Cursor<DevNode>, removes: bool, loaded: set<DevNode>)
    requires Progress(s, n, c, removes, loaded)
    ensures n <= |s| && (c.rest != [] <==> n < |s|) && !c.current.Gone? && (n < |s| ==> c.rest[0] == s[n])
  {
  }

  /** What was loaded so far was met before. */
  lemma {:induction false} LoadedBefore(devs: seq<PO.Device>, tried: seq<DevNode>, e: Attempts, now: nat,
                                        s: seq<DevNode>, n: nat, phase: DevNode -> bool)
    requires n <= |s| && tried == Filter(s[..n], phase)
    ensures forall x :: x in Loaded(devs, tried, e, now) ==> x in s[..n]
  {
    LoadedWereTried(devs, tried, e, now);
    FilterWithin(s[..n], phase);
  }

  lemma {:induction false} ProgressNext(s: seq<DevNode>, n: nat, c: Cursor<DevNode>, c': Cursor<DevNode>, removes: bool,
                                        loaded: set<DevNode>, took: bool)
    requires n < |s| && Different(s) && Progress(s, n, c, removes, loaded) && forall x :: x in loaded ==> x in s[..n]
    requires c'.rest == c.rest[1..] && !c'.current.Gone?
    requires Front(c') == if removes && took then Front(c) else Front(c) + [c.rest[0]]
    ensures Progress(s, n + 1, c', removes, loaded + if took then {s[n]} else {})
  {
    var loaded' := loaded + if took then {s[n]} else {};
    assert forall i :: 0 <= i < n ==> s[..n][i] == s[i] != s[n];
    FilterSame(s[..n], Remains(removes, loaded), Remains(removes, loaded'));
    FilterNext(s, n, Remains(removes, loaded'));
  }

  lemma {:induction false} Finished(head: DevNode, it: Iterator<DeviceInfo>, s: seq<DevNode>, c: Cursor<DevNode>,
                                    removes: bool, loaded: set<DevNode>)
    requires it.StandsAt(head, c) && Progress(s, |s|, c, removes, loaded)
    ensures IsList(head, Filter(s, Remains(removes, loaded)))
  {
    assert s[..|s|] == s && c.Contents() == Front(c);
  }

  lemma {:induction false} ContentsWithin(s: seq<DevNode>, n: nat, c: Cursor<DevNode>, removes: bool, loaded: set<DevNode>)
    requires Progress(s, n, c, removes, loaded) && n < |s|
    ensures forall i :: 0 <= i < |c.Contents()| ==> c.Contents()[i] in s
    ensures c.rest != [] && c.rest[0] == s[n] && !c.current.Gone?
  {
    FilterWithin(s[..n], Remains(removes, loaded));
    assert c.Contents() == Front(c) + c.rest;
  }

  /** Loaded devices were tried, so that what remains is what stays. */
  lemma {:induction false} RemainsIsStays(s: seq<DevNode>, phase: DevNode -> bool, loaded: set<DevNode>)
    requires forall n :: n in loaded ==> n in Filter(s, phase)
    ensures Filter(s, Remains(true, loaded)) == Filter(s, Stays(phase, In(loaded)))
  {
    FilterWithin(s, phase);
    FilterSame(s, Remains(true, loaded), Stays(phase, In(loaded)));
  }

  // ---------------------------------------------------------------- the two phases

  /**
    DevHostServiceClntInstallDriver: without a service of the host nothing happens; otherwise the
    devices of the phase are added to it one after the other, in list order.
   */
  method InstallDriver(head: DevNode, service: PO.DevHostService?, quick: bool, user: bool, e: Attempts, now: nat,
                       ghost s: seq<DevNode>)
    returns (ok: bool, tried: seq<DevNode>, ghost loaded: set<DevNode>)
    requires IsList(head, s)
    modifies head, s, if service == null then {} else {service}
    ensures ok <==> service != null
    ensures service == null ==> tried == [] && IsList(head, s)
    ensures service != null ==>
              && tried == Filter(s, FirstPhase(quick))
              && service.devices == Installed(old(service.devices), DataOf(tried), e, now)
              && loaded == Loaded(old(service.devices), tried, e, now)
              && IsList(head, Filter(s, FirstStays(quick, user, In(loaded))))
    ensures service != null && !quick ==>
              && tried == Filter(s, Not(HasPreload(DEVICE_PRELOAD_DISABLE)))
              && IsList(head, if user then s else Filter(s, Not(TakenAtOnce(In(loaded)))))
  {
    hide Filter, Installed, Loaded, IsList;
    SlowMode(s, user);
    if service == null {
      return false, [], {};
    }
    ok := true;
    ghost var devs := service.devices;
    tried, loaded := LoadPhase(head, service, FirstPhase(quick), !user, e, now, s);
    LoadedWereTried(devs, tried, e, now);
    if user {
      FilterSame(s, Remains(false, loaded), FirstStays(quick, true, In(loaded)));
    } else {
      RemainsIsStays(s, FirstPhase(quick), loaded);
    }
  }

  /** The hosts have nothing in common. */
  ghost predicate Apart(heads: seq<DevNode>, lists: seq<seq<DevNode>>, services: seq<PO.DevHostService?>)
    requires |heads| == |lists| == |services|
  {
    forall i, j :: 0 <= i < |heads| && 0 <= j < |heads| && i != j ==>
      && heads[i] != heads[j] && heads[i] !in lists[j] && (forall x :: x in lists[i] ==> x !in lists[j])
      && (services[i] != null ==> services[i] != services[j])
  }

  ghost function Nodes(lists: seq<seq<DevNode>>): set<DevNode> {
    set i, k | 0 <= i < |lists| && 0 <= k < |lists[i]| :: lists[i][k]
  }

  /** Host i has not attached, and has a device for the second phase. */
  ghost predicate CallsNobody(services: seq<PO.DevHostService?>, lists: seq<seq<DevNode>>, i: nat)
    requires |services| == |lists|
  {
    i < |lists| && services[i] == null && Filter(lists[i], SecondPhase) != []
  }

  /** Whether the list holds a device for the second phase. */
  method HasLeft(head: DevNode, ghost s: seq<DevNode>) returns (found: bool)
    requires IsList(head, s)
    ensures found <==> Filter(s, SecondPhase) != []
  {
    hide Filter, Reading;
    var it := new Iterator(head, s);
    assert Reading(it, head, s, 0) by { StartReading(it, head, s); }
    ghost var n := 0;
    Begun(s, SecondPhase, false);
    var more := More(it, head, s, 0);
    while more
      invariant fresh(it) && n <= |s| && Reading(it, head, s, n) && (more <==> n < |s|)
      invariant Filter(s[..n], SecondPhase) == []
      decreases |s| - n
    {
      var node;
      node, more := Advance(it, head, s, n);
      FilterNext(s, n, SecondPhase);
      n := n + 1;
      if SecondPhase(node) {
        FilterGrows(s, n, SecondPhase);
        return true;
      }
    }
    assert s[..n] == s;
    return false;
  }

  lemma {:induction false} FilterGrows<T>(s: seq<T>, n: nat, keep: T -> bool)
    requires n <= |s|
    ensures |Filter(s[..n], keep)| <= |Filter(s, keep)|
    decreases |s|
  {
    if n < |s| {
      var k := |s| - 1;
      assert s[..k][..n] == s[..n] && s[..k] + [s[k]] == s;
      FilterGrows(s[..k], n, keep);
      FilterSnoc(s[..k], s[k], keep);
    } else {
      assert s[..n] == s;
    }
  }

  /** What the second phase does for a host: the devices tried, those of its service, and the list left. */
  ghost predicate SecondDone(s: seq<DevNode>, left: seq<DevNode>, before: seq<PO.Device>, after: seq<PO.Device>,
                             tried: seq<DevNode>, e: Attempts, now: nat) {
    && tried == Filter(s, SecondPhase) && after == Installed(before, DataOf(tried), e, now)
    && left == Filter(s, Stays(SecondPhase, In(Loaded(before, tried, e, now))))
  }

  function DevicesOf(service: PO.DevHostService?): seq<PO.Device>
    reads if service == null then {} else {service}
  {
    if service == null then [] else service.devices
  }

  ghost function AllDevices(services: seq<PO.DevHostService?>): (r: seq<seq<PO.Device>>)
    reads set i | 0 <= i < |services| && services[i] != null :: services[i]
    ensures |r| == |services| && forall i :: 0 <= i < |r| ==> r[i] == DevicesOf(services[i])
  {
    if services == [] then [] else [DevicesOf(services[0])] + AllDevices(services[1..])
  }

  /** The second phase for one host. */
  method LoadHost(head: DevNode, service: PO.DevHostService?, e: Attempts, now: nat, ghost s: seq<DevNode>)
    returns (crashed: bool, tried: seq<DevNode>, ghost left: seq<DevNode>)
    requires IsList(head, s)
    modifies head, s, if service == null then {} else {service}
    ensures crashed <==> service == null && Filter(s, SecondPhase) != []
    ensures !crashed ==> IsList(head, left) && (forall i :: 0 <= i < |left| ==> left[i] in s)
    ensures !crashed ==> SecondDone(s, left, old(DevicesOf(service)), DevicesOf(service), tried, e, now)
  {
    hide Filter, Installed, Loaded, IsList;
    crashed, tried, left := false, [], s;
    if service == null {
      crashed := HasLeft(head, s);
      if !crashed {
        NothingTried([], e, now);
        NothingLeft(s, e, now);
      }
      return;
    }
    ghost var devs, loaded := service.devices, {};
    tried, loaded := LoadPhase(head, service, SecondPhase, true, e, now, s);
    LoadedWereTried(devs, tried, e, now);
    RemainsIsStays(s, SecondPhase, loaded);
    left := Filter(s, Stays(SecondPhase, In(loaded)));
    FilterWithin(s, Stays(SecondPhase, In(loaded)));
  }

  lemma {:induction false} NothingLeft(s: seq<DevNode>, e: Attempts, now: nat)
    requires Filter(s, SecondPhase) == []
    ensures Filter(s, Stays(SecondPhase, In(Loaded([], [], e, now)))) == s
  {
    FilterAll(s, Stays(SecondPhase, In(Loaded([], [], e, now))));
  }

  /** Every header leads to its list, which is made of nodes of the given ones. */
  ghost predicate AllLists(heads: seq<DevNode>, current: seq<seq<DevNode>>, lists: seq<seq<DevNode>>)
    requires |heads| == |current| == |lists|
    reads heads, Nodes(current)
  {
    forall j :: 0 <= j < |heads| ==> ListWithin(heads[j], current[j], lists[j])
  }

  ghost predicate ListWithin(head: DevNode, s: seq<DevNode>, within: seq<DevNode>)
    reads head, s
  {
    IsList(head, s) && forall k :: 0 <= k < |s| ==> s[k] in within
  }

  /** The second phase for host i, which leaves the other hosts alone. */
  method LoadAt(heads: seq<DevNode>, services: seq<PO.DevHostService?>, i: nat, e: Attempts, now: nat,
                ghost lists: seq<seq<DevNode>>, ghost current: seq<seq<DevNode>>)
    returns (crashed: bool, tried: seq<DevNode>, ghost current': seq<seq<DevNode>>)
    requires |heads| == |services| == |lists| == |current| && i < |heads| && Apart(heads, lists, services)
    requires AllLists(heads, current, lists) && current[i] == lists[i]
    modifies heads[i], lists[i], if services[i] == null then {} else {services[i]}
    ensures crashed <==> CallsNobody(services, lists, i)
    ensures !crashed ==> |current'| == |heads| && current' == current[i := current'[i]] && AllLists(heads, current', lists)
    ensures !crashed ==>
              AllDevices(services) == old(AllDevices(services))[i := DevicesOf(services[i])]
              && SecondDone(lists[i], current'[i], old(AllDevices(services))[i], AllDevices(services)[i], tried, e, now)
  {
    hide Filter, IsList, SecondDone, AllDevices;
    ghost var devs := AllDevices(services);
    ghost var left;
    assert ListWithin(heads[i], current[i], lists[i]);
    crashed, tried, left := LoadHost(heads[i], services[i], e, now, lists[i]);
    current' := current[i := left];
    if crashed {
      return;
    }
    assert AllLists(heads, current', lists) by {
      forall j | 0 <= j < |heads| ensures ListWithin(heads[j], current'[j], lists[j]) {
        if j != i {
          assert old(ListWithin(heads[j], current[j], lists[j]));
          assert heads[j] != heads[i] && heads[j] !in lists[i] && heads[i] !in lists[j];
          assert forall k :: 0 <= k < |current[j]| ==> current[j][k] in lists[j] && current[j][k] !in lists[i];
        }
      }
    }
    ghost var after := AllDevices(services);
    assert forall j :: 0 <= j < |services| && j != i ==> after[j] == devs[j] by {
      forall j | 0 <= j < |services| && j != i ensures after[j] == devs[j] {
        assert services[j] != null ==> services[j] != services[i];
      }
    }
    OneChanged(devs, after, i);
  }

  lemma OneChanged<T>(s: seq<T>, t: seq<T>, i: nat)
    requires |s| == |t| && i < |s| && forall j :: 0 <= j < |s| && j != i ==> t[j] == s[j]
    ensures t == s[i := t[i]]
  {
  }

  /**
    DevmgrServiceLoadLeftDriver over the lists of all hosts. The service of a host is used
    unchecked: the call crashes if and only if a host that has not attached has a device left
    for this phase.
   */
  method LoadLeftDriver(heads: seq<DevNode>, services: seq<PO.DevHostService?>, e: nat -> Attempts, now: nat -> nat,
                        ghost lists: seq<seq<DevNode>>)
    returns (crashed: bool, tried: seq<seq<DevNode>>, ghost left: seq<seq<DevNode>>)
    requires |heads| == |services| == |lists| && Apart(heads, lists, services) && AllLists(heads, lists, lists)
    modifies heads, Nodes(lists), set i | 0 <= i < |services| && services[i] != null :: services[i]
    ensures crashed <==> exists i :: CallsNobody(services, lists, i)
    ensures !crashed ==> |tried| == |left| == |heads| && AllLists(heads, left, lists)
    ensures !crashed ==> forall i :: 0 <= i < |heads| ==>
              SecondDone(lists[i], left[i], old(AllDevices(services))[i], AllDevices(services)[i], tried[i], e(i), now(i))
  {
    hide AllLists, SecondDone, AllDevices, CallsNobody, Half, Apart;
    ghost var before := AllDevices(services);
    tried, left := [], lists;
    NoneLoaded(lists, before, e, now);
    for i := 0 to |heads|
      invariant |left| == |heads| && |tried| == i && AllLists(heads, left, lists)
      invariant Half(lists, left, before, AllDevices(services), tried, e, now, i)
      invariant forall j :: 0 <= j < i ==> !CallsNobody(services, lists, j)
    {
      InNodes(lists, i);
      HalfAt(lists, left, before, AllDevices(services), tried, e, now, i);
      ghost var l, d := left, AllDevices(services);
      var c, t;
      c, t, left := LoadAt(heads, services, i, e(i), now(i), lists, left);
      if c {
        return true, tried, left;
      }
      HalfNext(lists, l, left, before, d, AllDevices(services), tried, t, e, now, i);
      tried := tried + [t];
    }
    crashed := false;
    AllLoaded(lists, left, before, AllDevices(services), tried, e, now);
    NobodyElse(services, lists);
  }

  /** The first i hosts have had their second phase, the others are as before. */
  ghost predicate Half(lists: seq<seq<DevNode>>, left: seq<seq<DevNode>>, before: seq<seq<PO.Device>>,
                       after: seq<seq<PO.Device>>, tried: seq<seq<DevNode>>, e: nat -> Attempts, now: nat -> nat, i: nat) {
    && |left| == |lists| == |before| == |after| && |tried| == i <= |lists|
    && (forall j :: 0 <= j < i ==> SecondDone(lists[j], left[j], before[j], after[j], tried[j], e(j), now(j)))
    && (forall j :: i <= j < |lists| ==> left[j] == lists[j] && after[j] == before[j])
  }

  lemma NoneLoaded(lists: seq<seq<DevNode>>, before: seq<seq<PO.Device>>, e: nat -> Attempts, now: nat -> nat)
    requires |before| == |lists|
    ensures Half(lists, lists, before, before, [], e, now, 0)
  {
  }

  lemma HalfAt(lists: seq<seq<DevNode>>, left: seq<seq<DevNode>>, before: seq<seq<PO.Device>>,
               after: seq<seq<PO.Device>>, tried: seq<seq<DevNode>>, e: nat -> Attempts, now: nat -> nat, i: nat)
    requires Half(lists, left, before, after, tried, e, now, i) && i < |lists|
    ensures |left| == |lists| == |before| == |after| && left[i] == lists[i] && after[i] == before[i]
  {
  }

  lemma InNodes(lists: seq<seq<DevNode>>, i: nat)
    requires i < |lists|
    ensures forall k :: 0 <= k < |lists[i]| ==> lists[i][k] in Nodes(lists)
  {
  }

  lemma HalfNext(lists: seq<seq<DevNode>>, left: seq<seq<DevNode>>, left': seq<seq<DevNode>>,
                 before: seq<seq<PO.Device>>, after: seq<seq<PO.Device>>, after': seq<seq<PO.Device>>,
                 tried: seq<seq<DevNode>>, t: seq<DevNode>, e: nat -> Attempts, now: nat -> nat, i: nat)
    requires Half(lists, left, before, after, tried, e, now, i) && i < |lists|
    requires |left'| == |lists| && left' == left[i := left'[i]]
    requires |after'| == |lists| && after' == after[i := after'[i]]
    requires SecondDone(lists[i], left'[i], before[i], after'[i], t, e(i), now(i))
    ensures Half(lists, left', before, after', tried + [t], e, now, i + 1)
  {
  }

  lemma AllLoaded(lists: seq<seq<DevNode>>, left: seq<seq<DevNode>>, before: seq<seq<PO.Device>>,
                  after: seq<seq<PO.Device>>, tried: seq<seq<DevNode>>, e: nat -> Attempts, now: nat -> nat)
    requires Half(lists, left, before, after, tried, e, now, |lists|)
    ensures |left| == |before| == |after| == |tried| == |lists|
    ensures forall j :: 0 <= j < |lists| ==> SecondDone(lists[j], left[j], before[j], after[j], tried[j], e(j), now(j))
  {
  }

  lemma NobodyElse(services: seq<PO.DevHostService?>, lists: seq<seq<DevNode>>)
    requires |services| == |lists|
    ensures forall i: nat :: CallsNobody(services, lists, i) ==> i < |lists|
  {
  }

  // ---------------------------------------------------------------- both phases together

  /** A device that is taken out of the list: loaded in the phase that is its own. */
  function TakenOut(user: bool, first: DevNode -> bool, second: DevNode -> bool): DevNode -> bool {
    (n: DevNode) => (n.data.preload == DEVICE_PRELOAD_ENABLE && !user && first(n))
                    || (n.data.preload == DEVICE_PRELOAD_ENABLE_STEP2 && second(n))
  }

  function HasPreload(preload: nat): DevNode -> bool {
    (n: DevNode) => n.data.preload == preload
  }

  function Not(p: DevNode -> bool): DevNode -> bool {
    (n: DevNode) => !p(n)
  }

  /**
    In quick mode, whatever AddDevice answers: phase one tries exactly the ENABLE devices and
    phase two exactly the STEP2 devices of the original list, in its order; what is left of the
    list is the original without the devices that loaded, those of phase one excepted in a build
    with __USER__.
   */
  lemma {:induction false} TwoPhases(s: seq<DevNode>, user: bool, first: DevNode -> bool, second: DevNode -> bool)
    requires forall i :: 0 <= i < |s| ==> s[i].data.preload < DEVICE_PRELOAD_INVALID
    ensures var left := Filter(s, FirstStays(true, user, first));
            && Filter(s, FirstPhase(true)) == Filter(s, HasPreload(DEVICE_PRELOAD_ENABLE))
            && Filter(left, SecondPhase) == Filter(s, HasPreload(DEVICE_PRELOAD_ENABLE_STEP2))
            && Filter(left, Stays(SecondPhase, second)) == Filter(s, Not(TakenOut(user, first, second)))
  {
    FilterSame(s, FirstPhase(true), HasPreload(DEVICE_PRELOAD_ENABLE));
    FilterTwice(s, FirstStays(true, user, first), SecondPhase, HasPreload(DEVICE_PRELOAD_ENABLE_STEP2));
    FilterTwice(s, FirstStays(true, user, first), Stays(SecondPhase, second), Not(TakenOut(user, first, second)));
  }

  /** A device that is taken out of the list in slow mode: it is not disabled, and loaded. */
  function TakenAtOnce(loads: DevNode -> bool): DevNode -> bool {
    (n: DevNode) => n.data.preload != DEVICE_PRELOAD_DISABLE && loads(n)
  }

  /**
    In slow mode the only phase tries exactly the devices that are not disabled, in list order; what
    is left is the original without those of them that loaded, or all of it in a build with __USER__.
   */
  lemma {:induction false} SlowMode(s: seq<DevNode>, user: bool)
    ensures Filter(s, FirstPhase(false)) == Filter(s, Not(HasPreload(DEVICE_PRELOAD_DISABLE)))
    ensures forall loads :: Filter(s, FirstStays(false, user, loads))
                            == if user then s else Filter(s, Not(TakenAtOnce(loads)))
  {
    FilterSame(s, FirstPhase(false), Not(HasPreload(DEVICE_PRELOAD_DISABLE)));
    forall loads ensures Filter(s, FirstStays(false, user, loads))
                         == if user then s else Filter(s, Not(TakenAtOnce(loads)))
    {
      if user {
        FilterAll(s, FirstStays(false, user, loads));
      } else {
        FilterSame(s, FirstStays(false, user, loads), Not(TakenAtOnce(loads)));
      }
    }
  }

  /** Every device that is not disabled is tried, at once in slow mode and in one of the two phases in quick mode. */
  lemma {:induction false} EveryDeviceTried(s: seq<DevNode>, quick: bool, user: bool, first: DevNode -> bool, n: DevNode)
    requires n in s && n.data.preload in {DEVICE_PRELOAD_ENABLE, DEVICE_PRELOAD_ENABLE_STEP2}
    ensures || n in Filter(s, FirstPhase(quick))
            || (quick && n in Filter(Filter(s, FirstStays(true, user, first)), SecondPhase))
  {
    if quick && n.data.preload == DEVICE_PRELOAD_ENABLE_STEP2 {
      FilterHas(s, FirstStays(true, user, first), n);
      FilterHas(Filter(s, FirstStays(true, user, first)), SecondPhase, n);
    } else {
      FilterHas(s, FirstPhase(quick), n);
    }
  }

  lemma {:induction false} FilterHas<T>(s: seq<T>, keep: T -> bool, x: T)
    requires x in s && keep(x)
    ensures x in Filter(s, keep)
  {
    if s[|s| - 1] != x {
      FilterHas(s[..|s| - 1], keep, x);
    }
  }

  /** The devices that count as loaded are those whose addition succeeds, in the service that those before it leave. */
  lemma {:induction false} LoadedWhen(devs: seq<PO.Device>, tried: seq<DevNode>, e: Attempts, now: nat, k: nat)
    requires k < |tried| && forall i, j :: 0 <= i < j < |tried| ==> tried[i] != tried[j]
    ensures var before := Installed(devs, DataOf(tried[..k]), e, now);
            tried[k] in Loaded(devs, tried, e, now) <==>
              PO.AddedDevice(before, tried[k].data.deviceId, e.powered(k), now + k, e.answers(k)).1 == PO.Success
  {
    hide PO.AddedDevice;
    var n := |tried| - 1;
    LoadedWereTried(devs, tried[..n], e, now);
    if k < n {
      LoadedWhen(devs, tried[..n], e, now, k);
      assert tried[..n][..k] == tried[..k];
    } else {
      assert tried[k] !in tried[..n];
    }
  }

  /** No device is tried twice: the devices tried are distinct, and the phases have none in common. */
  lemma {:induction false} TriedOnce(s: seq<DevNode>, user: bool, first: DevNode -> bool)
    requires forall i, j :: 0 <= i < j < |s| ==> s[i] != s[j]
    ensures var t := Filter(s, FirstPhase(true)) + Filter(Filter(s, FirstStays(true, user, first)), SecondPhase);
            forall i, j :: 0 <= i < j < |t| ==> t[i] != t[j]
  {
    var left := Filter(s, FirstStays(true, user, first));
    FilterDistinct(s, FirstPhase(true));
    FilterDistinct(s, FirstStays(true, user, first));
    FilterDistinct(left, SecondPhase);
    FilterWithin(s, FirstPhase(true));
    FilterWithin(left, SecondPhase);
  }
}
