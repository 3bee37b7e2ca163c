/**
  The service registry of core/manager/src/devsvc_manager.c: services are kept under the hash
  of their name, listeners are told of services whose class meets their mask. Calls are
  serialized; what a listener's NotifyStatus answers and whether memory is available are inputs.
 */
module Registry {
  import opened Bytes
  import opened Names
  import opened Seqs

  datatype Record = Record(key: nat, name: Name, devClass: bv16, value: nat, info: Option<Name>)

  datatype Listener = Listener(id: nat, listenClass: bv16, notifies: bool)

  datatype Status = Start | Change | Stop

  datatype Event = Event(listener: nat, status: Status, name: Name, devClass: bv16, info: Option<Name>)

  datatype Code = Success | Failure | NoDevice | MallocFail | InvalidParam

  /** What the registry holds, and every notification sent so far. */
  datatype State = State(services: seq<Record>, listeners: seq<Listener>, log: seq<Event>)

  predicate Meets(mask: bv16, devClass: bv16) {
    mask & devClass != 0
  }

  predicate Hears(l: Listener, r: Record) {
    Meets(l.listenClass, r.devClass) && l.notifies
  }

  function EventFor(l: Listener, r: Record, status: Status): Event {
    Event(l.id, status, r.name, r.devClass, r.info)
  }

  // ---------------------------------------------------------------- searching and notifying

  function HasKey(key: nat): Record -> bool {
    (r: Record) => r.key == key
  }

  /** The position of the service with the key, or the end. */
  function Find(services: seq<Record>, key: nat): nat {
    Position(services, HasKey(key))
  }

  /** The notifications NotifyServiceStatusLocked sends. */
  function Notices(ls: seq<Listener>, r: Record, status: Status): seq<Event> {
    if ls == [] then []
    else Notices(ls[..|ls| - 1], r, status)
         + if Hears(ls[|ls| - 1], r) then [EventFor(ls[|ls| - 1], r, status)] else []
  }

  /** The listeners left: one that is notified and fails is dropped. */
  function Left(ls: seq<Listener>, r: Record, fails: nat -> bool): seq<Listener> {
    if ls == [] then []
    else
      var l := ls[|ls| - 1];
      Left(ls[..|ls| - 1], r, fails) + if Hears(l, r) && fails(l.id) then [] else [l]
  }

  /** The notifications of NotifyServiceStatusOnRegisterLocked. */
  function Greetings(services: seq<Record>, l: Listener): seq<Event> {
    if services == [] then []
    else Greetings(services[..|services| - 1], l)
         + if Hears(l, services[|services| - 1]) then [EventFor(l, services[|services| - 1], Start)] else []
  }

  function Told(s: State, r: Record, status: Status, fails: nat -> bool): State {
    s.(log := s.log + Notices(s.listeners, r, status), listeners := Left(s.listeners, r, fails))
  }

  /** What the search for a key finds. */
  function Held(services: seq<Record>, key: nat): Option<Record> {
    var i := Find(services, key);
    if i < |services| then Some(services[i]) else None
  }

  /** Every service sits under the key of its name, and no key occurs twice. */
  ghost predicate KeysInv(services: seq<Record>) {
    && (forall i :: 0 <= i < |services| ==> services[i].key == KeyOf(services[i].name))
    && (forall i, j :: 0 <= i < j < |services| ==> services[i].key != services[j].key)
  }

  lemma {:induction false} HeldAt(services: seq<Record>, i: nat)
    requires KeysInv(services) && i < |services|
    ensures Held(services, services[i].key) == Some(services[i])
  {
    hide KeyOf;
    var p := Find(services, services[i].key);
    assert HasKey(services[i].key)(services[i]);
  }

  lemma {:induction false} HeldAfterAdd(services: seq<Record>, r: Record, key: nat)
    requires Find(services, r.key) == |services|
    ensures Held(services + [r], key) == if key == r.key then Some(r) else Held(services, key)
  {
    var t := services + [r];
    var p := Find(t, key);
    assert forall j :: 0 <= j < |services| ==> t[j] == services[j] && HasKey(key)(t[j]) == HasKey(key)(services[j]);
    assert HasKey(key)(t[|services|]) <==> key == r.key;
  }

  lemma {:induction false} HeldAfterChange(services: seq<Record>, i: nat, r: Record, key: nat)
    requires i < |services| && Find(services, r.key) == i
    ensures Held(services[i := r], key) == if key == r.key then Some(r) else Held(services, key)
  {
    var t := services[i := r];
    var p, q := Find(t, key), Find(services, key);
    assert forall j :: 0 <= j < |t| ==> HasKey(key)(t[j]) == HasKey(key)(services[j]);
  }

  lemma NotFound(services: seq<Record>, key: nat, k: nat)
    requires Find(services, key) == |services| && k < |services|
    ensures services[k].key != key
  {
    assert !HasKey(key)(services[k]);
  }

  lemma {:induction false} HeldAfterRemove(services: seq<Record>, i: nat, key: nat)
    requires KeysInv(services) && i < |services|
    ensures Held(services[..i] + services[i + 1..], key) == if key == services[i].key then None else Held(services, key)
  {
    hide KeyOf;
    var t := services[..i] + services[i + 1..];
    assert forall j :: 0 <= j < |t| ==> t[j] == services[if j < i then j else j + 1];
    var p, q := Find(t, key), Find(services, key);
    if p < |t| {
      var k := if p < i then p else p + 1;
      HeldAt(services, k);
      assert services[k].key == key != services[i].key;
    } else if q < |services| && q != i {
      NotFound(t, key, if q < i then q else q - 1);
    }
  }

  /** The object under a key, if there is one. */
  function ObjectOf(services: seq<Record>, key: nat): Option<nat> {
    if Held(services, key).Some? then Some(Held(services, key).value.value) else None
  }

  /** Whether one key has the object and the others have what they had. */
  ghost predicate Gives(before: seq<Record>, after: seq<Record>, key: nat, value: Option<nat>) {
    && ObjectOf(after, key) == value
    && forall k :: k != key ==> ObjectOf(after, k) == ObjectOf(before, k)
  }

  lemma {:induction false} AddedGives(services: seq<Record>, r: Record)
    requires Find(services, r.key) == |services|
    ensures Gives(services, services + [r], r.key, Some(r.value))
  {
    hide Held, Find;
    forall k ensures Held(services + [r], k) == if k == r.key then Some(r) else Held(services, k) {
      HeldAfterAdd(services, r, k);
    }
  }

  lemma {:induction false} ChangedGives(services: seq<Record>, i: nat, r: Record)
    requires i < |services| && Find(services, r.key) == i
    ensures Gives(services, services[i := r], r.key, Some(r.value))
  {
    var after := services[i := r];
    forall k ensures Held(after, k) == if k == r.key then Some(r) else Held(services, k) {
      HeldAfterChange(services, i, r, k);
    }
  }

  lemma {:induction false} RemovedGives(services: seq<Record>, i: nat)
    requires KeysInv(services) && i < |services|
    ensures Gives(services, services[..i] + services[i + 1..], services[i].key, None)
  {
    hide KeysInv;
    var after := services[..i] + services[i + 1..];
    forall k ensures Held(after, k) == if k == services[i].key then None else Held(services, k) {
      HeldAfterRemove(services, i, k);
    }
  }

  lemma AbsentGives(services: seq<Record>, key: nat)
    requires Find(services, key) == |services|
    ensures Gives(services, services, key, None)
  {
  }

  // ---------------------------------------------------------------- what the operations do

  function Added(s: State, name: Name, devClass: bv16, value: nat, info: Option<Name>, fails: nat -> bool): State {
    var i := Find(s.services, KeyOf(name));
    if i < |s.services| then s.(services := s.services[i := s.services[i].(value := value)])
    else
      var r := Record(KeyOf(name), name, devClass, value, info);
      Told(s.(services := s.services + [r]), r, Start, fails)
  }

  function Updated(s: State, name: Name, devClass: bv16, value: nat, info: Name, fails: nat -> bool): State {
    var i := Find(s.services, KeyOf(name));
    if i == |s.services| then s
    else
      var r := s.services[i].(value := value, devClass := devClass, info := Some(info));
      Told(s.(services := s.services[i := r]), r, Change, fails)
  }

  function Removed(s: State, name: Name, fails: nat -> bool): State {
    var i := Find(s.services, KeyOf(name));
    if i == |s.services| then s
    else
      var t := Told(s, s.services[i], Stop, fails);
      t.(services := s.services[..i] + s.services[i + 1..])
  }

  function Registered(s: State, l: Listener): State {
    s.(listeners := s.listeners + [l], log := s.log + Greetings(s.services, l))
  }

  lemma NobodyTold(ls: seq<Listener>, r: Record, status: Status, fails: nat -> bool)
    ensures Left(ls[..0], r, fails) == [] && Notices(ls[..0], r, status) == []
  {
  }

  lemma {:induction false} OneMoreTold(ls: seq<Listener>, n: nat, r: Record, status: Status, fails: nat -> bool)
    requires n < |ls|
    ensures Left(ls[..n + 1], r, fails)
            == if Hears(ls[n], r) && fails(ls[n].id) then Left(ls[..n], r, fails) else Left(ls[..n], r, fails) + [ls[n]]
    ensures Notices(ls[..n + 1], r, status)
            == if Hears(ls[n], r) then Notices(ls[..n], r, status) + [EventFor(ls[n], r, status)]
               else Notices(ls[..n], r, status)
  {
    assert ls[..n + 1][..n] == ls[..n];
  }

  class DevSvcManager {
    var services: seq<Record>
    var listeners: seq<Listener>
    var log: seq<Event>

    ghost function Snapshot(): State
      reads this
    {
      State(services, listeners, log)
    }

    constructor ()
      ensures Snapshot() == State([], [], [])
    {
      services, listeners, log := [], [], [];
    }

    /** DevSvcManagerSearchService. */
    method Search(key: nat) returns (i: nat)
      ensures i == Find(services, key)
    {
      i := Seqs.Search(services, HasKey(key));
    }

    /** NotifyServiceStatusLocked: a traversal that survives the removal of the current holder. */
    method Notify(r: Record, status: Status, fails: nat -> bool)
      modifies this`listeners, this`log
      ensures Snapshot() == Told(old(Snapshot()), r, status, fails)
    {
      hide Left, Notices;
      var i := 0;
      ghost var n, all := 0, listeners;
      NobodyTold(all, r, status, fails);
      while i < |listeners|
        invariant n <= |all| && i <= |listeners| && listeners[..i] == Left(all[..n], r, fails)
        invariant listeners[i..] == all[n..]
        invariant log == old(log) + Notices(all[..n], r, status)
        decreases |all| - n
      {
        var holder := listeners[i];
        OneMoreTold(all, n, r, status, fails);
        assert listeners[i..][1..] == all[n..][1..] == all[n + 1..];
        if Hears(holder, r) {
          log := log + [EventFor(holder, r, status)];
          if fails(holder.id) {
            listeners := listeners[..i] + listeners[i + 1..];
          } else {
            assert listeners[..i + 1] == listeners[..i] + [holder];
            i := i + 1;
          }
        } else {
          assert listeners[..i + 1] == listeners[..i] + [holder];
          i := i + 1;
        }
        n := n + 1;
      }
      assert all[..n] == all && listeners[..i] == listeners;
    }

    /** DevSvcManagerAddService; a null service is refused. */
    method AddService(name: Name, devClass: bv16, service: Option<nat>, info: Option<Name>,
                      recordMem: bool, nameMem: bool, infoMem: bool, fails: nat -> bool) returns (code: Code)
      modifies this
      ensures var s := old(Snapshot());
              var known := Find(s.services, KeyOf(name)) < |s.services|;
              if service.None? then code == Failure && Snapshot() == s
              else if known || (recordMem && nameMem) then
                && code == Success
                && Snapshot() == Added(s, name, devClass, service.value, if infoMem then info else None, fails)
              else code == (if recordMem then MallocFail else Failure) && Snapshot() == s
      ensures code == Success ==> Gives(old(services), services, KeyOf(name), service)
    {
      hide KeyOf, Held, Gives;
      if service.None? {
        return Failure;
      }
      var i := Search(KeyOf(name));
      if i < |services| {
        ChangedGives(services, i, services[i].(value := service.value));
        services := services[i := services[i].(value := service.value)];
        return Success;
      }
      if !recordMem {
        return Failure;
      }
      var record := Record(KeyOf(name), name, devClass, service.value, if infoMem then info else None);
      if !nameMem {
        return MallocFail;
      }
      AddedGives(services, record);
      services := services + [record];
      Notify(record, Start, fails);
      return Success;
    }

    /** DevSvcManagerUpdateService. */
    method UpdateService(name: Name, devClass: bv16, service: Option<nat>, info: Option<Name>,
                         infoMem: bool, fails: nat -> bool) returns (code: Code)
      modifies this
      ensures var s := old(Snapshot());
              var known := Find(s.services, KeyOf(name)) < |s.services|;
              if service.Some? && known && info.Some? && infoMem then
                code == Success && Snapshot() == Updated(s, name, devClass, service.value, info.value, fails)
              else
                && Snapshot() == s
                && code == if service.None? then Failure else if !known then NoDevice else MallocFail
      ensures code == Success ==> Gives(old(services), services, KeyOf(name), service)
    {
      hide KeyOf, Held, Gives;
      if service.None? {
        return Failure;
      }
      var i := Search(KeyOf(name));
      if i == |services| {
        return NoDevice;
      }
      if info.None? || !infoMem {
        return MallocFail;
      }
      var record := services[i].(value := service.value, devClass := devClass, info := info);
      ChangedGives(services, i, record);
      services := services[i := record];
      Notify(record, Change, fails);
      return Success;
    }

    /** DevSvcManagerRemoveService. */
    method RemoveService(name: Name, fails: nat -> bool)
      modifies this
      ensures Snapshot() == Removed(old(Snapshot()), name, fails)
      ensures KeysInv(old(services)) ==> Gives(old(services), services, KeyOf(name), None)
    {
      hide KeyOf, Held, Gives, KeysInv;
      var i := Search(KeyOf(name));
      if i == |services| {
        AbsentGives(services, KeyOf(name));
        return;
      }
      if KeysInv(services) {
        RemovedGives(services, i);
      }
      Notify(services[i], Stop, fails);
      services := services[..i] + services[i + 1..];
    }

    /** DevSvcManagerRegsterServListener; what NotifyStatus answers is ignored here. */
    method RegisterListener(l: Listener)
      modifies this
      ensures Snapshot() == Registered(old(Snapshot()), l)
    {
      listeners := listeners + [l];
      for i := 0 to |services|
        invariant services == old(services) && listeners == old(listeners) + [l]
        invariant log == old(log) + Greetings(services[..i], l)
      {
        assert services[..i + 1][..i] == services[..i];
        if Meets(l.listenClass, services[i].devClass) {
          if l.notifies {
            log := log + [EventFor(l, services[i], Start)];
          }
        }
      }
      assert services[..|services|] == services;
    }

    /** DevSvcManagerGetObject: the object registered under the name's key. */
    method GetObject(name: Name) returns (r: Option<nat>)
      ensures r == ObjectOf(services, KeyOf(name))
    {
      var i := Search(KeyOf(name));
      r := if i < |services| then Some(services[i].value) else None;
    }
  }

  // ---------------------------------------------------------------- views

  /** The services a listener has seen start and not stop. */
  function View(log: seq<Event>, id: nat): set<Name> {
    if log == [] then {}
    else
      var v, e := View(log[..|log| - 1], id), log[|log| - 1];
      if e.listener != id then v
      else match e.status
        case Start => v + {e.name}
        case Stop => v - {e.name}
        case Change => v
  }

  /** The names registered under a class that meets the mask. */
  function Visible(services: seq<Record>, mask: bv16): set<Name> {
    set i | 0 <= i < |services| && Meets(mask, services[i].devClass) :: services[i].name
  }

  ghost predicate Distinct(ls: seq<Listener>) {
    forall i, j :: 0 <= i < j < |ls| ==> ls[i].id != ls[j].id
  }

  /** The listener's view is the registry seen through its mask. */
  ghost predicate Agrees(s: State, l: Listener) {
    View(s.log, l.id) == Visible(s.services, l.listenClass)
  }

  ghost predicate Invariant(s: State) {
    && KeysInv(s.services) && Distinct(s.listeners)
    && forall i :: 0 <= i < |s.listeners| && s.listeners[i].notifies ==> Agrees(s, s.listeners[i])
  }

  function Seen(v: set<Name>, status: Status, name: Name): set<Name> {
    match status
    case Start => v + {name}
    case Stop => v - {name}
    case Change => v
  }

  lemma {:induction false} ViewSnoc(log: seq<Event>, e: Event, id: nat)
    ensures View(log + [e], id) == if e.listener == id then Seen(View(log, id), e.status, e.name) else View(log, id)
  {
    assert (log + [e])[..|log|] == log;
  }

  /** Some listener with this id hears the service. */
  predicate Heard(ls: seq<Listener>, r: Record, id: nat) {
    ls != [] && ((ls[|ls| - 1].id == id && Hears(ls[|ls| - 1], r)) || Heard(ls[..|ls| - 1], r, id))
  }

  lemma {:induction false} HeardByOwn(ls: seq<Listener>, r: Record, i: nat)
    requires Distinct(ls) && i < |ls|
    ensures Heard(ls, r, ls[i].id) <==> Hears(ls[i], r)
  {
    var n := |ls| - 1;
    if i < n {
      HeardByOwn(ls[..n], r, i);
    } else {
      HeardByOther(ls[..n], r, ls[n].id);
    }
  }

  lemma {:induction false} HeardByOther(ls: seq<Listener>, r: Record, id: nat)
    requires forall i :: 0 <= i < |ls| ==> ls[i].id != id
    ensures !Heard(ls, r, id)
  {
    if ls != [] {
      HeardByOther(ls[..|ls| - 1], r, id);
    }
  }

  /** A round of notifications tells a listener of the service if it hears it, and not otherwise. */
  lemma {:induction false} ViewAfterNotices(log: seq<Event>, ls: seq<Listener>, r: Record, status: Status, id: nat)
    ensures View(log + Notices(ls, r, status), id)
            == if Heard(ls, r, id) then Seen(View(log, id), status, r.name) else View(log, id)
  {
    if ls == [] {
      assert log + Notices(ls, r, status) == log;
    } else {
      var n := |ls| - 1;
      var p, l := ls[..n], ls[n];
      ViewAfterNotices(log, p, r, status, id);
      var before := log + Notices(p, r, status);
      if Hears(l, r) {
        assert log + Notices(ls, r, status) == before + [EventFor(l, r, status)];
        ViewSnoc(before, EventFor(l, r, status), id);
      } else {
        assert Notices(ls, r, status) == Notices(p, r, status);
      }
    }
  }

  lemma {:induction false} ViewAfterGreetings(log: seq<Event>, services: seq<Record>, l: Listener, id: nat)
    ensures View(log + Greetings(services, l), id)
            == if id == l.id && l.notifies then View(log, id) + Visible(services, l.listenClass) else View(log, id)
  {
    if services == [] {
      assert log + Greetings(services, l) == log;
    } else {
      var n := |services| - 1;
      var p, r := services[..n], services[n];
      ViewAfterGreetings(log, p, l, id);
      VisibleSnoc(p, r, l.listenClass);
      assert p + [r] == services;
      var before := log + Greetings(p, l);
      if Hears(l, r) {
        assert log + Greetings(services, l) == before + [EventFor(l, r, Start)];
        ViewSnoc(before, EventFor(l, r, Start), id);
      } else {
        assert Greetings(services, l) == Greetings(p, l);
      }
    }
  }

  lemma {:induction false} VisibleSnoc(services: seq<Record>, r: Record, mask: bv16)
    ensures Visible(services + [r], mask) == Visible(services, mask) + if Meets(mask, r.devClass) then {r.name} else {}
  {
    var t := services + [r];
    forall n: Name ensures n in Visible(t, mask) <==>
                           n in Visible(services, mask) || (Meets(mask, r.devClass) && n == r.name)
    {
      if n in Visible(services, mask) {
        var i :| 0 <= i < |services| && Meets(mask, services[i].devClass) && services[i].name == n;
        assert t[i].name == n && Meets(mask, t[i].devClass);
      }
      if Meets(mask, r.devClass) {
        assert t[|services|].name == r.name;
      }
    }
  }

  // ---------------------------------------------------------------- what every operation keeps

  /** Dropping listeners keeps the others, once each. */
  lemma {:induction false} LeftKeeps(ls: seq<Listener>, r: Record, fails: nat -> bool)
    requires Distinct(ls)
    ensures Distinct(Left(ls, r, fails))
    ensures forall l :: l in Left(ls, r, fails) ==> l in ls
  {
    if ls != [] {
      var n := |ls| - 1;
      LeftKeeps(ls[..n], r, fails);
      var q := Left(ls[..n], r, fails);
      forall j | 0 <= j < |q| ensures q[j].id != ls[n].id && q[j] in ls {
        assert q[j] in ls[..n];
        var i :| 0 <= i < n && ls[..n][i] == q[j];
        assert ls[i] == q[j];
      }
    }
  }

  /** If the notified change is what happened to the visible services, the views still agree. */
  lemma {:induction false} ToldAgrees(s: State, services: seq<Record>, r: Record, status: Status, fails: nat -> bool)
    requires Invariant(s) && KeysInv(services)
    requires forall mask :: Visible(services, mask)
                            == if Meets(mask, r.devClass) then Seen(Visible(s.services, mask), status, r.name)
                               else Visible(s.services, mask)
    ensures Invariant(State(services, Left(s.listeners, r, fails), s.log + Notices(s.listeners, r, status)))
  {
    var u := State(services, Left(s.listeners, r, fails), s.log + Notices(s.listeners, r, status));
    LeftKeeps(s.listeners, r, fails);
    forall j | 0 <= j < |u.listeners| && u.listeners[j].notifies ensures Agrees(u, u.listeners[j]) {
      var l := u.listeners[j];
      assert l in s.listeners;
      var i :| 0 <= i < |s.listeners| && s.listeners[i] == l;
      assert Agrees(s, l);
      HeardByOwn(s.listeners, r, i);
      ViewAfterNotices(s.log, s.listeners, r, status, l.id);
    }
  }

  lemma {:induction false} SameVisible(services: seq<Record>, i: nat, r: Record, mask: bv16)
    requires i < |services| && r.name == services[i].name && Meets(mask, r.devClass) == Meets(mask, services[i].devClass)
    ensures Visible(services[i := r], mask) == Visible(services, mask)
  {
    var t := services[i := r];
    forall n: Name ensures n in Visible(t, mask) <==> n in Visible(services, mask) {
      if n in Visible(services, mask) {
        var j :| 0 <= j < |services| && Meets(mask, services[j].devClass) && services[j].name == n;
        assert t[j].name == n && Meets(mask, t[j].devClass);
      }
      if n in Visible(t, mask) {
        var j :| 0 <= j < |t| && Meets(mask, t[j].devClass) && t[j].name == n;
        assert services[j].name == n && Meets(mask, services[j].devClass);
      }
    }
  }

  lemma {:induction false} VisibleWithout(services: seq<Record>, i: nat, mask: bv16)
    requires KeysInv(services) && i < |services|
    ensures Visible(services[..i] + services[i + 1..], mask)
            == if Meets(mask, services[i].devClass) then Visible(services, mask) - {services[i].name}
               else Visible(services, mask)
  {
    hide Meets, KeyOf, Visible;
    var now := Visible(services[..i] + services[i + 1..], mask);
    var all := Visible(services, mask);
    var name, met := services[i].name, Meets(mask, services[i].devClass);
    forall n: Name ensures n in now <==> n in all && !(met && n == name) {
      NotVisibleTwice(services, i, mask, n);
      if n in all && !(met && n == name) {
        StillVisible(services, i, mask, n);
      }
    }
    if met {
      assert now == all - {name};
    } else {
      assert now == all;
    }
  }

  lemma {:induction false} NotVisibleTwice(services: seq<Record>, i: nat, mask: bv16, n: Name)
    requires KeysInv(services) && i < |services|
    ensures n in Visible(services[..i] + services[i + 1..], mask) ==> n in Visible(services, mask) && n != services[i].name
  {
    hide Meets, KeyOf;
    var t := services[..i] + services[i + 1..];
    if n in Visible(t, mask) {
      var j :| 0 <= j < |t| && Meets(mask, t[j].devClass) && t[j].name == n;
      var k := if j < i then j else j + 1;
      assert t[j] == services[k] && services[k].key != services[i].key;
    }
  }

  lemma {:induction false} StillVisible(services: seq<Record>, i: nat, mask: bv16, n: Name)
    requires i < |services| && n in Visible(services, mask) && !(Meets(mask, services[i].devClass) && n == services[i].name)
    ensures n in Visible(services[..i] + services[i + 1..], mask)
  {
    hide Meets;
    var t := services[..i] + services[i + 1..];
    var k :| 0 <= k < |services| && Meets(mask, services[k].devClass) && services[k].name == n;
    assert t[if k < i then k else k - 1] == services[k];
  }

  lemma {:induction false} AddKeeps(s: State, name: Name, devClass: bv16, value: nat, info: Option<Name>, fails: nat -> bool)
    requires Invariant(s)
    ensures Invariant(Added(s, name, devClass, value, info, fails))
  {
    var i := Find(s.services, KeyOf(name));
    if i < |s.services| {
      var u := Added(s, name, devClass, value, info, fails);
      forall j | 0 <= j < |u.listeners| && u.listeners[j].notifies ensures Agrees(u, u.listeners[j]) {
        assert Agrees(s, s.listeners[j]);
        SameVisible(s.services, i, u.services[i], s.listeners[j].listenClass);
      }
    } else {
      var r := Record(KeyOf(name), name, devClass, value, info);
      forall mask ensures Visible(s.services + [r], mask)
                          == Visible(s.services, mask) + if Meets(mask, devClass) then {name} else {}
      {
        VisibleSnoc(s.services, r, mask);
      }
      ToldAgrees(s, s.services + [r], r, Start, fails);
    }
  }

  lemma {:induction false} UpdateKeeps(s: State, name: Name, devClass: bv16, value: nat, info: Name, fails: nat -> bool)
    requires Invariant(s)
    requires var i := Find(s.services, KeyOf(name)); i < |s.services| ==> s.services[i].devClass == devClass
    ensures Invariant(Updated(s, name, devClass, value, info, fails))
  {
    var i := Find(s.services, KeyOf(name));
    if i < |s.services| {
      var r := s.services[i].(value := value, devClass := devClass, info := Some(info));
      forall mask ensures Visible(s.services[i := r], mask) == Visible(s.services, mask) {
        SameVisible(s.services, i, r, mask);
      }
      ToldAgrees(s, s.services[i := r], r, Change, fails);
    }
  }

  lemma {:induction false} RemoveKeeps(s: State, name: Name, fails: nat -> bool)
    requires Invariant(s)
    ensures Invariant(Removed(s, name, fails))
  {
    hide Meets, KeyOf, Visible, Notices, Left;
    var i := Find(s.services, KeyOf(name));
    if i < |s.services| {
      var t := s.services[..i] + s.services[i + 1..];
      forall mask ensures Visible(t, mask) == if Meets(mask, s.services[i].devClass)
                                              then Visible(s.services, mask) - {s.services[i].name}
                                              else Visible(s.services, mask)
      {
        VisibleWithout(s.services, i, mask);
      }
      ToldAgrees(s, t, s.services[i], Stop, fails);
    }
  }

  /** A holder is registered once and its id is not reused. */
  predicate FreshListener(s: State, l: Listener) {
    && (forall i :: 0 <= i < |s.listeners| ==> s.listeners[i].id != l.id)
    && (forall i :: 0 <= i < |s.log| ==> s.log[i].listener != l.id)
  }

  lemma {:induction false} NoEventsNoView(log: seq<Event>, id: nat)
    requires forall i :: 0 <= i < |log| ==> log[i].listener != id
    ensures View(log, id) == {}
  {
    if log != [] {
      NoEventsNoView(log[..|log| - 1], id);
    }
  }

  lemma {:induction false} RegisterKeeps(s: State, l: Listener)
    requires Invariant(s) && FreshListener(s, l)
    ensures Invariant(Registered(s, l))
  {
    var u := Registered(s, l);
    NoEventsNoView(s.log, l.id);
    forall j | 0 <= j < |u.listeners| && u.listeners[j].notifies ensures Agrees(u, u.listeners[j]) {
      ViewAfterGreetings(s.log, s.services, l, u.listeners[j].id);
      if j < |s.listeners| {
        assert Agrees(s, s.listeners[j]);
      }
    }
  }

  // ---------------------------------------------------------------- whole runs

  datatype Op =
    | Add(name: Name, devClass: bv16, value: nat, optInfo: Option<Name>, fails: nat -> bool)
    | Update(name: Name, devClass: bv16, value: nat, info: Name, fails: nat -> bool)
    | Remove(name: Name, fails: nat -> bool)
    | Register(l: Listener)

  function Apply(s: State, op: Op): State {
    match op
    case Add(name, c, v, info, fails) => Added(s, name, c, v, info, fails)
    case Update(name, c, v, info, fails) => Updated(s, name, c, v, info, fails)
    case Remove(name, fails) => Removed(s, name, fails)
    case Register(l) => Registered(s, l)
  }

  /** Updates keep the class of the service; listeners are new when registered. */
  predicate Allowed(s: State, op: Op) {
    match op
    case Update(name, c, _, _, _) => var i := Find(s.services, KeyOf(name)); i < |s.services| ==> s.services[i].devClass == c
    case Register(l) => FreshListener(s, l)
    case _ => true
  }

  function After(ops: seq<Op>): State {
    if ops == [] then State([], [], []) else Apply(After(ops[..|ops| - 1]), ops[|ops| - 1])
  }

  predicate AllAllowed(ops: seq<Op>) {
    ops == [] || (AllAllowed(ops[..|ops| - 1]) && Allowed(After(ops[..|ops| - 1]), ops[|ops| - 1]))
  }

  /**
    Over any run every listener still registered, early or late, has a view that agrees with
    the registry; keys stay unique.
   */
  lemma {:induction false} ViewsAlwaysAgree(ops: seq<Op>)
    requires AllAllowed(ops)
    ensures Invariant(After(ops))
  {
    if ops != [] {
      var n := |ops| - 1;
      ViewsAlwaysAgree(ops[..n]);
      var s := After(ops[..n]);
      match ops[n] {
        case Add(name, c, v, info, fails) => AddKeeps(s, name, c, v, info, fails);
        case Update(name, c, v, info, fails) => UpdateKeeps(s, name, c, v, info, fails);
        case Remove(name, fails) => RemoveKeeps(s, name, fails);
        case Register(l) => RegisterKeeps(s, l);
      }
    }
  }

  /**
    An update that changes the class of a service keeps a listener's view right exactly when
    the listener's mask meets both the old and the new class or neither.
   */
  lemma {:induction false} ClassChangeBreaksView(s: State, name: Name, devClass: bv16, value: nat, info: Name,
                                                 fails: nat -> bool, k: nat)
    requires Invariant(s) && k < |s.listeners| && s.listeners[k].notifies
    requires Find(s.services, KeyOf(name)) < |s.services|
    ensures var i := Find(s.services, KeyOf(name));
            var mask := s.listeners[k].listenClass;
            Agrees(Updated(s, name, devClass, value, info, fails), s.listeners[k])
            <==> Meets(mask, devClass) == Meets(mask, s.services[i].devClass)
  {
    hide Meets, KeyOf, Visible;
    var i, l := Find(s.services, KeyOf(name)), s.listeners[k];
    var r := s.services[i].(value := value, devClass := devClass, info := Some(info));
    assert Agrees(s, l);
    ViewAfterNotices(s.log, s.listeners, r, Change, l.id);
    VisibleChanges(s.services, i, r, l.listenClass);
    var u := Updated(s, name, devClass, value, info, fails);
    assert u.services == s.services[i := r] && u.log == s.log + Notices(s.listeners, r, Change);
    assert View(u.log, l.id) == View(s.log, l.id);
  }

  lemma {:induction false} AfterSnoc(ops: seq<Op>, op: Op)
    ensures After(ops + [op]) == Apply(After(ops), op)
    ensures AllAllowed(ops + [op]) <==> AllAllowed(ops) && Allowed(After(ops), op)
  {
    assert (ops + [op])[..|ops|] == ops;
  }

  /** The registry after a listener registered and a service of class 1 was added. */
  lemma {:induction false} OneService(l: Listener, name: Name, value: nat, calm: nat -> bool)
    requires !calm(l.id)
    ensures var s := Added(Registered(State([], [], []), l), name, 1, value, None, calm);
            s.services == [Record(KeyOf(name), name, 1, value, None)] && s.listeners == [l]
  {
    hide KeyOf, Meets;
    var r := Record(KeyOf(name), name, 1, value, None);
    assert [l][..0] == [];
    assert Left([l], r, calm) == [l];
    assert Greetings([], l) == [];
  }

  /** An update that breaks a view, in a run: a listener for class 1 is left with a service of class 2. */
  lemma {:induction false} ClassChangeRun(l: Listener, name: Name, value: nat, info: Name, calm: nat -> bool)
    requires l.notifies && l.listenClass == 1 && !calm(l.id)
    ensures var before := [] + [Register(l)] + [Add(name, 1, value, None, calm)];
            && AllAllowed(before)
            && !Agrees(After(before + [Update(name, 2, value, info, calm)]), l)
  {
    hide KeyOf, Meets, After, Agrees, Added, Registered, Updated, Invariant;
    var before := [] + [Register(l)] + [Add(name, 1, value, None, calm)];
    assert After([]) == State([], [], []) && AllAllowed([]) by { NothingYet(); }
    AfterSnoc([], Register(l));
    AfterSnoc([] + [Register(l)], Add(name, 1, value, None, calm));
    AfterSnoc(before, Update(name, 2, value, info, calm));
    OneService(l, name, value, calm);
    ViewsAlwaysAgree(before);
    assert Meets(1, 1) && !Meets(1, 2) by { SomeMasks(); }
    ClassChangeBreaksView(After(before), name, 2, value, info, calm, 0);
  }

  lemma NothingYet()
    ensures After([]) == State([], [], []) && AllAllowed([])
  {
  }

  lemma SomeMasks()
    ensures Meets(1, 1) && !Meets(1, 2)
  {
  }

  lemma {:induction false} VisibleChanges(services: seq<Record>, i: nat, r: Record, mask: bv16)
    requires KeysInv(services) && i < |services| && r.name == services[i].name && r.key == services[i].key
    ensures Visible(services[i := r], mask) == Visible(services, mask)
            <==> Meets(mask, r.devClass) == Meets(mask, services[i].devClass)
  {
    hide Meets;
    var t := services[i := r];
    if Meets(mask, r.devClass) == Meets(mask, services[i].devClass) {
      SameVisible(services, i, r, mask);
    } else {
      OnlyName(services, i, mask);
      OnlyName(t, i, mask);
      assert t[i] == r;
    }
  }

  lemma {:induction false} OnlyName(services: seq<Record>, i: nat, mask: bv16)
    requires KeysInv(services) && i < |services|
    ensures services[i].name in Visible(services, mask) <==> Meets(mask, services[i].devClass)
  {
    if services[i].name in Visible(services, mask) {
      var j :| 0 <= j < |services| && Meets(mask, services[j].devClass) && services[j].name == services[i].name;
      assert services[j].key == services[i].key;
    }
  }
}
