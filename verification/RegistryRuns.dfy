/**
  What a run of the service registry means, told from its operations alone: which object, class and
  information a name has, and what every listener has been told.
 */
module RegistryRuns {
  import opened Bytes
  import opened Names
  import opened Seqs
  import opened Registry

  // ---------------------------------------------------------------- masks

  /** The sixteen single-bit masks. */
  const BITS: seq<bv16> := [1, 2, 4, 8, 0x10, 0x20, 0x40, 0x80, 0x100, 0x200, 0x400, 0x800, 0x1000, 0x2000, 0x4000, 0x8000]

  predicate Bit(x: bv16, b: bv16) {
    x & b != 0
  }

  lemma {:induction false} SomeBit(c: bv16)
    requires c != 0
    ensures exists i :: 0 <= i < |BITS| && Bit(c, BITS[i])
  {
    assert Bit(c, 1) || Bit(c, 2) || Bit(c, 4) || Bit(c, 8) || Bit(c, 0x10) || Bit(c, 0x20) || Bit(c, 0x40) || Bit(c, 0x80)
           || Bit(c, 0x100) || Bit(c, 0x200) || Bit(c, 0x400) || Bit(c, 0x800) || Bit(c, 0x1000) || Bit(c, 0x2000)
           || Bit(c, 0x4000) || Bit(c, 0x8000);
    assert Bit(c, BITS[0]) || Bit(c, BITS[1]) || Bit(c, BITS[2]) || Bit(c, BITS[3]) || Bit(c, BITS[4]) || Bit(c, BITS[5])
           || Bit(c, BITS[6]) || Bit(c, BITS[7]) || Bit(c, BITS[8]) || Bit(c, BITS[9]) || Bit(c, BITS[10])
           || Bit(c, BITS[11]) || Bit(c, BITS[12]) || Bit(c, BITS[13]) || Bit(c, BITS[14]) || Bit(c, BITS[15]);
  }

  lemma SingleBit(a: bv16, b: bv16, m: bv16)
    requires m & (m - 1) == 0 && m != 0
    ensures Bit(a & b, m) <==> Bit(a, m) && Bit(b, m)
  {
  }

  lemma {:induction false} BitOfBoth(a: bv16, b: bv16, i: nat)
    requires i < |BITS|
    ensures Bit(a & b, BITS[i]) <==> Bit(a, BITS[i]) && Bit(b, BITS[i])
  {
    var m := BITS[i];
    assert m & (m - 1) == 0 && m != 0;
    SingleBit(a, b, m);
  }

  /** Some bit is set in both. */
  ghost predicate Shares(mask: bv16, devClass: bv16) {
    exists i :: 0 <= i < |BITS| && Bit(mask, BITS[i]) && Bit(devClass, BITS[i])
  }

  /** A mask meets a class exactly when they have a bit in common. */
  lemma {:induction false} MeetsIsCommonBit(mask: bv16, devClass: bv16)
    ensures Meets(mask, devClass) <==> Shares(mask, devClass)
  {
    var c := mask & devClass;
    if c != 0 {
      SomeBit(c);
    }
    forall i | 0 <= i < |BITS| ensures Bit(c, BITS[i]) <==> Bit(mask, BITS[i]) && Bit(devClass, BITS[i]) {
      BitOfBoth(mask, devClass, i);
    }
  }

  // ---------------------------------------------------------------- what is registered

  /**
    What the registry holds under the key: adding a known service changes its object only, an
    update also its class and information, and nothing else touches it until it is removed.
   */
  function Current(ops: seq<Op>, key: nat): Option<Record> {
    if ops == [] then None
    else
      var was := Current(ops[..|ops| - 1], key);
      match ops[|ops| - 1]
      case Add(name, devClass, value, info, _) =>
        if KeyOf(name) != key then was
        else if was.Some? then Some(Record(key, was.value.name, was.value.devClass, value, was.value.info))
        else Some(Record(key, name, devClass, value, info))
      case Update(name, devClass, value, info, _) =>
        if KeyOf(name) != key || was.None? then was
        else Some(Record(key, was.value.name, devClass, value, Some(info)))
      case Remove(name, _) => if KeyOf(name) == key then None else was
      case Register(_) => was
  }

  /** When the service under the key was first added, of those that are registered now. */
  function Since(ops: seq<Op>, key: nat): nat {
    if ops == [] then 0
    else
      var before, last := ops[..|ops| - 1], ops[|ops| - 1];
      if last.Add? && KeyOf(last.name) == key && Current(before, key).None? then |before| else Since(before, key)
  }

  ghost predicate InOrder(ops: seq<Op>, services: seq<Record>) {
    && KeysInv(services)
    && forall i, j :: 0 <= i < j < |services| ==> Since(ops, services[i].key) < Since(ops, services[j].key)
  }

  ghost predicate SinceBefore(ops: seq<Op>, services: seq<Record>) {
    forall i :: 0 <= i < |services| ==> Since(ops, services[i].key) < |ops|
  }

  lemma {:induction false} OrderKept(ops: seq<Op>, services: seq<Record>, op: Op)
    requires InOrder(ops, services) && SinceBefore(ops, services)
    requires forall i :: 0 <= i < |services| ==> Since(ops + [op], services[i].key) == Since(ops, services[i].key)
    ensures InOrder(ops + [op], services) && SinceBefore(ops + [op], services)
  {
    hide KeyOf, Since;
  }

  lemma {:induction false} OrderWithout(ops: seq<Op>, services: seq<Record>, i: nat)
    requires InOrder(ops, services) && SinceBefore(ops, services) && i < |services|
    ensures InOrder(ops, services[..i] + services[i + 1..]) && SinceBefore(ops, services[..i] + services[i + 1..])
  {
    hide KeyOf, Since;
    var after := services[..i] + services[i + 1..];
    assert forall j :: 0 <= j < |after| ==> after[j] == services[if j < i then j else j + 1];
  }

  lemma {:induction false} OrderReplaced(ops: seq<Op>, services: seq<Record>, i: nat, r: Record)
    requires InOrder(ops, services) && SinceBefore(ops, services) && i < |services|
    requires r.key == services[i].key && r.name == services[i].name
    ensures InOrder(ops, services[i := r]) && SinceBefore(ops, services[i := r])
  {
    hide KeyOf, Since;
    var after := services[i := r];
    assert forall j :: 0 <= j < |after| ==> after[j].key == services[j].key && after[j].name == services[j].name;
  }

  lemma {:induction false} OrderGrows(ops: seq<Op>, services: seq<Record>, op: Op, r: Record)
    requires InOrder(ops, services) && SinceBefore(ops, services) && Find(services, r.key) == |services|
    requires forall i :: 0 <= i < |services| ==> Since(ops + [op], services[i].key) == Since(ops, services[i].key)
    requires r.key == KeyOf(r.name) && Since(ops + [op], r.key) == |ops|
    ensures InOrder(ops + [op], services + [r]) && SinceBefore(ops + [op], services + [r])
  {
    hide KeyOf, Since;
    var after := services + [r];
    assert forall j :: 0 <= j < |services| ==> after[j] == services[j] && !HasKey(r.key)(services[j]);
  }

  /** One operation: the record under every key, and the order of the records. */
  lemma {:induction false} RegistryStep(ops: seq<Op>, s: State, op: Op)
    requires InOrder(ops, s.services) && SinceBefore(ops, s.services)
    requires forall key :: Held(s.services, key) == Current(ops, key)
    ensures var after := Apply(s, op).services;
            && InOrder(ops + [op], after) && SinceBefore(ops + [op], after)
            && forall key :: Held(after, key) == Current(ops + [op], key)
  {
    hide KeyOf, InOrder, SinceBefore;
    assert (ops + [op])[..|ops|] == ops;
    var after := Apply(s, op).services;
    if op.Register? {
      SinceStays(ops, s.services, op);
      OrderKept(ops, s.services, op);
    } else {
      var i := Find(s.services, KeyOf(op.name));
      assert Held(s.services, KeyOf(op.name)) == Current(ops, KeyOf(op.name));
      SinceStays(ops, s.services, op);
      if i == |s.services| {
        NewOrUnknown(ops, s, op);
      } else {
        KnownChanged(ops, s, op, i);
      }
    }
  }

  lemma {:induction false} SinceStays(ops: seq<Op>, services: seq<Record>, op: Op)
    requires InOrder(ops, services) && forall key :: Held(services, key) == Current(ops, key)
    ensures forall i :: 0 <= i < |services| ==> Since(ops + [op], services[i].key) == Since(ops, services[i].key)
  {
    hide KeyOf, Current;
    assert (ops + [op])[..|ops|] == ops;
    forall i | 0 <= i < |services| ensures Since(ops + [op], services[i].key) == Since(ops, services[i].key) {
      HeldAt(services, i);
    }
  }

  lemma {:induction false} NewOrUnknown(ops: seq<Op>, s: State, op: Op)
    requires !op.Register? && Find(s.services, KeyOf(op.name)) == |s.services|
    requires InOrder(ops, s.services) && SinceBefore(ops, s.services)
    requires forall i :: 0 <= i < |s.services| ==> Since(ops + [op], s.services[i].key) == Since(ops, s.services[i].key)
    requires forall key :: Held(s.services, key) == Current(ops, key)
    ensures var after := Apply(s, op).services;
            && InOrder(ops + [op], after) && SinceBefore(ops + [op], after)
            && forall key :: Held(after, key) == Current(ops + [op], key)
  {
    hide KeyOf, InOrder, SinceBefore;
    assert (ops + [op])[..|ops|] == ops;
    var after := Apply(s, op).services;
    assert Held(s.services, KeyOf(op.name)).None?;
    if op.Add? {
      var r := Record(KeyOf(op.name), op.name, op.devClass, op.value, op.optInfo);
      assert after == s.services + [r];
      OrderGrows(ops, s.services, op, r);
      forall key ensures Held(after, key) == Current(ops + [op], key) { HeldAfterAdd(s.services, r, key); }
    } else {
      OrderKept(ops, s.services, op);
    }
  }

  lemma {:induction false} KnownChanged(ops: seq<Op>, s: State, op: Op, i: nat)
    requires !op.Register? && i < |s.services| && i == Find(s.services, KeyOf(op.name))
    requires InOrder(ops, s.services) && SinceBefore(ops, s.services)
    requires forall k :: 0 <= k < |s.services| ==> Since(ops + [op], s.services[k].key) == Since(ops, s.services[k].key)
    requires forall key :: Held(s.services, key) == Current(ops, key)
    ensures var after := Apply(s, op).services;
            && InOrder(ops + [op], after) && SinceBefore(ops + [op], after)
            && forall key :: Held(after, key) == Current(ops + [op], key)
  {
    hide KeyOf, SinceBefore, InOrder, Since;
    var after := Apply(s, op).services;
    OrderKept(ops, s.services, op);
    KeysOf(ops, s.services);
    if op.Remove? {
      OrderWithout(ops + [op], s.services, i);
    } else {
      OrderReplaced(ops + [op], s.services, i, after[i]);
    }
    forall k ensures Held(after, k) == Current(ops + [op], k) {
      HeldStep(ops, s, op, i, k);
    }
  }

  lemma KeysOf(ops: seq<Op>, services: seq<Record>)
    requires InOrder(ops, services)
    ensures KeysInv(services)
  {
  }

  /** What a known service's key holds after an operation on it. */
  lemma {:induction false} HeldStep(ops: seq<Op>, s: State, op: Op, i: nat, k: nat)
    requires !op.Register? && i < |s.services| && i == Find(s.services, KeyOf(op.name)) && KeysInv(s.services)
    requires Held(s.services, k) == Current(ops, k) && Held(s.services, KeyOf(op.name)) == Current(ops, KeyOf(op.name))
    ensures Held(Apply(s, op).services, k) == Current(ops + [op], k)
  {
    hide KeyOf, KeysInv;
    assert (ops + [op])[..|ops|] == ops;
    var after := Apply(s, op).services;
    assert HasKey(KeyOf(op.name))(s.services[i]);
    if op.Remove? {
      HeldAfterRemove(s.services, i, k);
    } else {
      HeldAfterChange(s.services, i, after[i], k);
    }
  }

  /**
    The registry after any run: under every key what the operations say, under the key of its own
    name, and in the order in which the services were first added.
   */
  lemma {:induction false} RegistryIs(ops: seq<Op>)
    ensures InOrder(ops, After(ops).services) && SinceBefore(ops, After(ops).services)
    ensures forall key :: Held(After(ops).services, key) == Current(ops, key)
  {
    hide InOrder, SinceBefore;
    if ops == [] {
      assert InOrder([], []) && SinceBefore([], []) by { EmptyInOrder(); }
    } else {
      var n := |ops| - 1;
      RegistryIs(ops[..n]);
      RegistryStep(ops[..n], After(ops[..n]), ops[n]);
      assert ops[..n] + [ops[n]] == ops;
    }
  }

  lemma EmptyInOrder()
    ensures InOrder([], []) && SinceBefore([], [])
  {
  }

  /** The object under a key: the one last added or updated since the last removal. */
  function Object(ops: seq<Op>, key: nat): Option<nat> {
    if ops == [] then None
    else
      var was := Object(ops[..|ops| - 1], key);
      match ops[|ops| - 1]
      case Add(name, _, value, _, _) => if KeyOf(name) == key then Some(value) else was
      case Update(name, _, value, _, _) => if KeyOf(name) == key && was.Some? then Some(value) else was
      case Remove(name, _) => if KeyOf(name) == key then None else was
      case Register(_) => was
  }

  /** What DevSvcManagerGetObject answers after any run: the object last added or updated since the last removal. */
  lemma {:induction false} ObjectIs(ops: seq<Op>, name: Name)
    ensures ObjectOf(After(ops).services, KeyOf(name)) == Object(ops, KeyOf(name))
  {
    RegistryIs(ops);
    assert Held(After(ops).services, KeyOf(name)) == Current(ops, KeyOf(name));
    ObjectOfCurrent(ops, KeyOf(name));
  }

  lemma {:induction false} ObjectOfCurrent(ops: seq<Op>, key: nat)
    ensures Object(ops, key) == if Current(ops, key).Some? then Some(Current(ops, key).value.value) else None
  {
    if ops != [] {
      ObjectOfCurrent(ops[..|ops| - 1], key);
    }
  }

  // ---------------------------------------------------------------- what listeners are told

  function ToId(id: nat): Event -> bool {
    (e: Event) => e.listener == id
  }

  function HasId(id: nat): Listener -> bool {
    (l: Listener) => l.id == id
  }

  /** What an operation announces: a service that starts, changes or stops, to those whose mask meets its class. */
  function Announced(ops: seq<Op>, op: Op): Option<(Record, Status, nat -> bool)> {
    match op
    case Add(name, _, _, _, fails) =>
      if Current(ops, KeyOf(name)).Some? then None else Some((Current(ops + [op], KeyOf(name)).value, Start, fails))
    case Update(name, _, _, _, fails) =>
      if Current(ops, KeyOf(name)).None? then None else Some((Current(ops + [op], KeyOf(name)).value, Change, fails))
    case Remove(name, fails) =>
      if Current(ops, KeyOf(name)).None? then None else Some((Current(ops, KeyOf(name)).value, Stop, fails))
    case Register(_) => None
  }

  /** A new listener is told that the services registered have started, if its mask has a bit of their class. */
  ghost function Greeted(services: seq<Record>, l: Listener): seq<Event> {
    if services == [] then []
    else
      var r := services[|services| - 1];
      Greeted(services[..|services| - 1], l)
      + if l.notifies && Shares(l.listenClass, r.devClass) then [Event(l.id, Start, r.name, r.devClass, r.info)] else []
  }

  /**
    What a listener is told that registers after the operations `before`, and whether it is still
    registered after the `later` ones: it is dropped when it answers a notification with a failure.
   */
  ghost function Told(before: seq<Op>, l: Listener, later: seq<Op>): (seq<Event>, bool) {
    if later == [] then (Greeted(After(before).services, l), true)
    else
      var n := |later| - 1;
      var (events, listens) := Told(before, l, later[..n]);
      match Announced(before + [Register(l)] + later[..n], later[n])
      case None => (events, listens)
      case Some((r, status, fails)) =>
        if !listens || !l.notifies || !Shares(l.listenClass, r.devClass) then (events, listens)
        else (events + [Event(l.id, status, r.name, r.devClass, r.info)], !fails(l.id))
  }

  lemma {:induction false} ToldSnoc(ls: seq<Listener>, l: Listener, r: Record, status: Status, fails: nat -> bool)
    ensures Notices(ls + [l], r, status)
            == if Hears(l, r) then Notices(ls, r, status) + [EventFor(l, r, status)] else Notices(ls, r, status)
    ensures Left(ls + [l], r, fails) == if Hears(l, r) && fails(l.id) then Left(ls, r, fails) else Left(ls, r, fails) + [l]
  {
    assert (ls + [l])[..|ls|] == ls;
  }

  lemma NobodyTold(r: Record, status: Status, fails: nat -> bool)
    ensures Notices([], r, status) == [] && Left([], r, fails) == []
  {
  }

  /** Notices to one listener are those to the listeners with its id, and so are droppings. */
  lemma {:induction false} ToldByOwn(ls: seq<Listener>, r: Record, status: Status, fails: nat -> bool, id: nat)
    ensures Filter(Notices(ls, r, status), ToId(id)) == Notices(Filter(ls, HasId(id)), r, status)
    ensures Filter(Left(ls, r, fails), HasId(id)) == Left(Filter(ls, HasId(id)), r, fails)
  {
    if ls == [] {
      NobodyTold(r, status, fails);
    } else {
      hide Filter, Notices, Left, Hears;
      var n := |ls| - 1;
      var p, l := ls[..n], ls[n];
      assert ls == p + [l];
      ToldByOwn(p, r, status, fails, id);
      ToldSnoc(p, l, r, status, fails);
      FilterSnoc(Notices(p, r, status), EventFor(l, r, status), ToId(id));
      FilterSnoc(Left(p, r, fails), l, HasId(id));
      FilterSnoc(p, l, HasId(id));
      ToldSnoc(Filter(p, HasId(id)), l, r, status, fails);
    }
  }

  lemma {:induction false} GreetingsTo(services: seq<Record>, l: Listener, id: nat)
    ensures Filter(Greetings(services, l), ToId(id)) == if id == l.id then Greeted(services, l) else []
  {
    if services != [] {
      hide Filter, Meets, Shares;
      MeetsIsCommonBit(l.listenClass, services[|services| - 1].devClass);
      var n := |services| - 1;
      var before := Greetings(services[..n], l);
      GreetingsTo(services[..n], l, id);
      FilterSnoc(before, EventFor(l, services[n], Start), ToId(id));
      assert before + [] == before;
    } else {
      assert Filter([], ToId(id)) == [];
    }
  }

  /** No other listener is registered with the id. */
  predicate OwnId(ops: seq<Op>, id: nat) {
    forall i :: 0 <= i < |ops| && ops[i].Register? ==> ops[i].l.id != id
  }

  ghost predicate ToldSo(s: State, l: Listener, events: seq<Event>, listens: bool) {
    && Filter(s.log, ToId(l.id)) == events
    && Filter(s.listeners, HasId(l.id)) == if listens then [l] else []
  }

  /** An operation tells the listeners what it announces, and nothing else. */
  lemma {:induction false} OperationTells(ops: seq<Op>, op: Op)
    requires !op.Register?
    ensures var s, u := After(ops), Apply(After(ops), op);
            match Announced(ops, op)
            case None => u.log == s.log && u.listeners == s.listeners
            case Some((r, status, fails)) =>
              u.log == s.log + Notices(s.listeners, r, status) && u.listeners == Left(s.listeners, r, fails)
  {
    hide KeyOf, Notices, Left;
    var s := After(ops);
    RegistryIs(ops);
    var key := KeyOf(op.name);
    assert Held(s.services, key) == Current(ops, key);
    assert (ops + [op])[..|ops|] == ops;
  }

  /** Before a listener registers nothing is addressed to it. */
  lemma {:induction false} NothingTold(ops: seq<Op>, id: nat)
    requires OwnId(ops, id)
    ensures Filter(After(ops).log, ToId(id)) == [] && Filter(After(ops).listeners, HasId(id)) == []
  {
    if ops != [] {
      hide Filter, Notices, Left, Greetings, Apply, Announced;
      var n := |ops| - 1;
      NothingTold(ops[..n], id);
      var s, op := After(ops[..n]), ops[n];
      assert op.Register? ==> op.l.id != id;
      OthersTold(ops[..n], op, id);
    } else {
      assert Filter<Event>([], ToId(id)) == [] && Filter<Listener>([], HasId(id)) == [];
    }
  }

  lemma {:induction false} OthersTold(ops: seq<Op>, op: Op, id: nat)
    requires op.Register? ==> op.l.id != id
    ensures var s, u := After(ops), Apply(After(ops), op);
            var mine := Filter(s.listeners, HasId(id));
            match Announced(ops, op)
            case None => Filter(u.log, ToId(id)) == Filter(s.log, ToId(id)) && Filter(u.listeners, HasId(id)) == mine
            case Some((r, status, fails)) =>
              && Filter(u.log, ToId(id)) == Filter(s.log, ToId(id)) + Notices(mine, r, status)
              && Filter(u.listeners, HasId(id)) == Left(mine, r, fails)
              && Notices([], r, status) == [] && Left([], r, fails) == []
  {
    hide Filter, Notices, Left, Greetings, KeyOf;
    var s := After(ops);
    match op {
      case Register(l) =>
        GreetingsTo(s.services, l, id);
        FilterConcat(s.log, Greetings(s.services, l), ToId(id));
        FilterSnoc(s.listeners, l, HasId(id));
        assert Filter(s.log, ToId(id)) + [] == Filter(s.log, ToId(id));
      case _ =>
        OperationTells(ops, op);
        match Announced(ops, op)
        case None =>
        case Some((r, status, fails)) =>
          RoundTo(s, r, status, fails, id);
          NobodyTold(r, status, fails);
    }
  }

  /** A round of notifications, as far as one id is concerned. */
  lemma {:induction false} RoundTo(s: State, r: Record, status: Status, fails: nat -> bool, id: nat)
    ensures var mine := Filter(s.listeners, HasId(id));
            && Filter(s.log + Notices(s.listeners, r, status), ToId(id))
               == Filter(s.log, ToId(id)) + Notices(mine, r, status)
            && Filter(Left(s.listeners, r, fails), HasId(id)) == Left(mine, r, fails)
  {
    ToldByOwn(s.listeners, r, status, fails, id);
    FilterConcat(s.log, Notices(s.listeners, r, status), ToId(id));
  }

  lemma {:induction false} OnlyOne(l: Listener, r: Record, status: Status, fails: nat -> bool)
    ensures Notices([l], r, status)
            == if l.notifies && Shares(l.listenClass, r.devClass)
               then [Event(l.id, status, r.name, r.devClass, r.info)] else []
    ensures Left([l], r, fails) == if l.notifies && Shares(l.listenClass, r.devClass) && fails(l.id) then [] else [l]
  {
    hide Meets, Shares;
    MeetsIsCommonBit(l.listenClass, r.devClass);
    NobodyTold(r, status, fails);
    assert [] + [l] == [l];
    ToldSnoc([], l, r, status, fails);
  }

  /**
    What a listener hears over any run, and whether it is still registered, is what the operations
    say: the services it may know at registration, and then every start, change and stop of such a
    service with its name, class and information, until it answers with a failure.
   */
  lemma {:induction false} ListenerHears(before: seq<Op>, l: Listener, later: seq<Op>)
    requires OwnId(before, l.id) && OwnId(later, l.id)
    ensures var s := After(before + [Register(l)] + later);
            var (events, listens) := Told(before, l, later);
            && Filter(s.log, ToId(l.id)) == events
            && Filter(s.listeners, HasId(l.id)) == if listens then [l] else []
  {
    hide Filter, Notices, Left, Greetings, Apply, Announced;
    var ops := before + [Register(l)] + later;
    if later == [] {
      assert ops[..|before|] == before && ops == before + [Register(l)];
      NothingTold(before, l.id);
      JustRegistered(After(before), l);
    } else {
      var n := |later| - 1;
      var earlier := before + [Register(l)] + later[..n];
      assert ops[..|ops| - 1] == earlier && ops[|ops| - 1] == later[n];
      ListenerHears(before, l, later[..n]);
      OthersTold(earlier, later[n], l.id);
      match Announced(earlier, later[n])
      case None =>
      case Some((r, status, fails)) => OnlyOne(l, r, status, fails);
    }
  }

  lemma {:induction false} JustRegistered(s: State, l: Listener)
    requires Filter(s.log, ToId(l.id)) == [] && Filter(s.listeners, HasId(l.id)) == []
    ensures var u := Apply(s, Register(l));
            Filter(u.log, ToId(l.id)) == Greeted(s.services, l) && Filter(u.listeners, HasId(l.id)) == [l]
  {
    hide Filter, Greetings;
    GreetingsTo(s.services, l, l.id);
    FilterConcat(s.log, Greetings(s.services, l), ToId(l.id));
    FilterSnoc(s.listeners, l, HasId(l.id));
  }
}
