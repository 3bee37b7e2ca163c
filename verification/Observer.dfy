/**
  The publish/subscribe observer of core/host/src/hdf_service_observer.c: one record per service
  key, holding the current publisher and the subscribers. Whether memory is available is an input.
 */
module Observer {
  import opened Bytes
  import opened Names
  import opened Seqs

  /** SERVICE_POLICY_PRIVATE. */
  const PRIVATE := 4

  datatype Subscriber = Subscriber(id: nat, devId: nat, connects: bool, ready: bool)

  /** What a record knows of its service. */
  datatype Topic = Topic(publisher: Option<nat>, devId: nat, policy: nat, subscribers: seq<Subscriber>)

  datatype Entry = Entry(key: nat, topic: Topic)

  /** A call of OnServiceConnected: whom it reaches and with which service. */
  datatype Call = Call(id: nat, service: Option<nat>)

  const NEW_TOPIC := Topic(None, 0, 0, [])

  // ---------------------------------------------------------------- the list of records as a map

  function HasKey(key: nat): Entry -> bool {
    (e: Entry) => e.key == key
  }

  function Topics(entries: seq<Entry>): map<nat, Topic> {
    if entries == [] then map[] else Topics(entries[1..])[entries[0].key := entries[0].topic]
  }

  ghost predicate UniqueKeys(entries: seq<Entry>) {
    forall i, j :: 0 <= i < j < |entries| ==> entries[i].key != entries[j].key
  }

  /** Searching the list is looking up the map. */
  lemma {:induction false} SearchIsLookup(entries: seq<Entry>, key: nat)
    ensures key in Topics(entries) <==> Position(entries, HasKey(key)) < |entries|
    ensures key in Topics(entries) ==> Topics(entries)[key] == entries[Position(entries, HasKey(key))].topic
  {
    if entries != [] && entries[0].key != key {
      SearchIsLookup(entries[1..], key);
    }
  }

  lemma {:induction false} EntryAdded(entries: seq<Entry>, e: Entry)
    requires UniqueKeys(entries) && Position(entries, HasKey(e.key)) == |entries|
    ensures UniqueKeys([e] + entries) && Topics([e] + entries) == Topics(entries)[e.key := e.topic]
  {
    assert ([e] + entries)[1..] == entries;
  }

  lemma {:induction false} EntryReplaced(entries: seq<Entry>, i: nat, topic: Topic)
    requires UniqueKeys(entries) && i < |entries|
    ensures UniqueKeys(entries[i := Entry(entries[i].key, topic)])
    ensures Topics(entries[i := Entry(entries[i].key, topic)]) == Topics(entries)[entries[i].key := topic]
  {
    var t := entries[i := Entry(entries[i].key, topic)];
    assert forall j :: 0 <= j < |t| ==> t[j].key == entries[j].key;
    if i == 0 {
      assert t[1..] == entries[1..];
    } else {
      EntryReplaced(entries[1..], i - 1, topic);
      assert t[1..] == entries[1..][i - 1 := Entry(entries[i].key, topic)];
    }
  }

  lemma {:induction false} EntryRemoved(entries: seq<Entry>, i: nat)
    requires UniqueKeys(entries) && i < |entries|
    ensures UniqueKeys(entries[..i] + entries[i + 1..])
    ensures Topics(entries[..i] + entries[i + 1..]) == Topics(entries) - {entries[i].key}
  {
    var t, key := entries[..i] + entries[i + 1..], entries[i].key;
    StillUnique(entries, i);
    if i == 0 {
      assert t == entries[1..];
      SearchIsLookup(t, key);
    } else {
      EntryRemoved(entries[1..], i - 1);
      assert t[1..] == entries[1..][..i - 1] + entries[1..][i..];
      assert Topics(t[1..]) == Topics(entries[1..]) - {key};
    }
  }

  lemma {:induction false} StillUnique(entries: seq<Entry>, i: nat)
    requires UniqueKeys(entries) && i < |entries|
    ensures UniqueKeys(entries[..i] + entries[i + 1..])
  {
    var t := entries[..i] + entries[i + 1..];
    assert forall j :: 0 <= j < |t| ==> t[j] == entries[if j < i then j else j + 1];
  }

  // ---------------------------------------------------------------- notification

  predicate Reaches(devId: nat, policy: nat, s: Subscriber) {
    devId == s.devId || policy != PRIVATE
  }

  /** The calls HdfServiceObserverRecordNotifySubscribers makes, in list order. */
  function Calls(subs: seq<Subscriber>, devId: nat, policy: nat, service: Option<nat>): seq<Call> {
    if subs == [] then []
    else Calls(subs[..|subs| - 1], devId, policy, service)
         + if Reaches(devId, policy, subs[|subs| - 1]) && subs[|subs| - 1].connects
           then [Call(subs[|subs| - 1].id, service)] else []
  }

  lemma CallsStart(subs: seq<Subscriber>, devId: nat, policy: nat, service: Option<nat>)
    ensures Calls(subs[..0], devId, policy, service) == []
  {
  }

  lemma {:induction false} CallsNext(subs: seq<Subscriber>, j: nat, devId: nat, policy: nat, service: Option<nat>)
    requires j < |subs|
    ensures var before := Calls(subs[..j], devId, policy, service);
            Calls(subs[..j + 1], devId, policy, service)
            == if Reaches(devId, policy, subs[j]) && subs[j].connects then before + [Call(subs[j].id, service)] else before
  {
    assert subs[..j + 1][..j] == subs[..j];
  }

  /** The subscribers afterwards. */
  function Readied(subs: seq<Subscriber>, devId: nat, policy: nat): (r: seq<Subscriber>)
    ensures |r| == |subs|
    ensures forall i :: 0 <= i < |r| ==> r[i] == if Reaches(devId, policy, subs[i]) then subs[i].(ready := true) else subs[i]
  {
    seq(|subs|, i requires 0 <= i < |subs| =>
      if Reaches(devId, policy, subs[i]) then subs[i].(ready := true) else subs[i])
  }

  // ---------------------------------------------------------------- the operations

  datatype State = State(topics: map<nat, Topic>, log: seq<Call>)

  /** The topic of a key; a key without a record is like one with a new record. */
  function TopicAt(s: State, key: nat): Topic {
    if key in s.topics then s.topics[key] else NEW_TOPIC
  }

  /** A subscriber is told at once of a service already published, if it may know it. */
  predicate ToldAtOnce(t: Topic, devId: nat, connects: bool) {
    t.publisher.Some? && connects && (t.policy != PRIVATE || t.devId == devId)
  }

  function Subscribed(s: State, key: nat, id: nat, devId: nat, connects: bool): State {
    var t := TopicAt(s, key);
    var told := ToldAtOnce(t, devId, connects);
    State(s.topics[key := t.(subscribers := [Subscriber(id, devId, connects, told)] + t.subscribers)],
          s.log + if told then [Call(id, t.publisher)] else [])
  }

  function Published(s: State, key: nat, devId: nat, policy: nat, service: Option<nat>): State {
    if key !in s.topics then s.(topics := s.topics[key := Topic(service, devId, policy, [])])
    else
      var t := s.topics[key];
      State(s.topics[key := t.(publisher := service, subscribers := Readied(t.subscribers, devId, policy))],
            s.log + Calls(t.subscribers, devId, policy, service))
  }

  class HdfServiceObserver {
    var services: seq<Entry>
    var log: seq<Call>

    ghost predicate Valid()
      reads this
    {
      UniqueKeys(services)
    }

    ghost function Snapshot(): State
      reads this
    {
      State(Topics(services), log)
    }

    /** HdfServiceObserverConstruct. */
    constructor ()
      ensures Valid() && Snapshot() == State(map[], [])
    {
      services, log := [], [];
    }

    /** HdfSListSearch with HdfServiceObserverRecordCompare. */
    method Search(key: nat) returns (i: nat)
      ensures i == Position(services, HasKey(key))
    {
      i := Seqs.Search(services, HasKey(key));
    }

    /** HdfServiceObserverRecordNotifySubscribers on the i-th record. */
    method NotifySubscribers(i: nat, devId: nat, policy: nat)
      requires i < |services|
      modifies this
      ensures var t := old(services[i].topic);
              && services == old(services)[i := Entry(old(services[i].key),
                                                      t.(subscribers := Readied(t.subscribers, devId, policy)))]
              && log == old(log) + Calls(t.subscribers, devId, policy, t.publisher)
    {
      hide Calls;
      var record := services[i];
      var subs := record.topic.subscribers;
      ghost var before := subs;
      ghost var readied := Readied(before, devId, policy);
      CallsStart(before, devId, policy, record.topic.publisher);
      for j := 0 to |subs|
        invariant |subs| == |before| && forall m :: j <= m < |subs| ==> subs[m] == before[m]
        invariant forall m :: 0 <= m < j ==> subs[m] == readied[m]
        invariant services == old(services)
        invariant log == old(log) + Calls(before[..j], devId, policy, record.topic.publisher)
      {
        CallsNext(before, j, devId, policy, record.topic.publisher);
        if devId == subs[j].devId || policy != PRIVATE {
          if subs[j].connects {
            log := log + [Call(subs[j].id, record.topic.publisher)];
          }
          subs := subs[j := subs[j].(ready := true)];
        }
      }
      assert before[..|before|] == before && subs == readied;
      services := services[i := record.(topic := record.topic.(subscribers := subs))];
    }

    /** HdfServiceObserverSubscribeService. */
    method SubscribeService(name: Name, id: nat, devId: nat, connects: bool, recordMem: bool, subscriberMem: bool)
      returns (ok: bool)
      requires Valid()
      modifies this
      ensures Valid()
      ensures ok <==> subscriberMem && (recordMem || KeyOf(name) in old(Snapshot()).topics)
      ensures Snapshot() == if ok then Subscribed(old(Snapshot()), KeyOf(name), id, devId, connects) else old(Snapshot())
    {
      hide Topics, UniqueKeys, KeyOf;
      var key := KeyOf(name);
      var i := Search(key);
      SearchIsLookup(services, key);
      if i == |services| {
        if !recordMem || !subscriberMem {
          return false;
        }
        EntryAdded(services, Entry(key, NEW_TOPIC));
        services := [Entry(key, NEW_TOPIC)] + services;
        i := 0;
      } else if !subscriberMem {
        return false;
      }
      AddSubscriber(i, key, id, devId, connects);
      return true;
    }

    /** The end of a subscription: the new subscriber is told of a service already there, and listed first. */
    method AddSubscriber(i: nat, key: nat, id: nat, devId: nat, connects: bool)
      requires Valid() && i < |services| && services[i].key == key
      requires Topics(services).Keys >= {key} && Topics(services)[key] == services[i].topic
      modifies this
      ensures Valid() && Snapshot() == Subscribed(old(Snapshot()), key, id, devId, connects)
    {
      hide Topics, UniqueKeys;
      var t := services[i].topic;
      var subscriber := Subscriber(id, devId, connects, false);
      if t.publisher.Some? && connects && (t.policy != PRIVATE || t.devId == devId) {
        subscriber := subscriber.(ready := true);
        log := log + [Call(id, t.publisher)];
      }
      EntryReplaced(services, i, t.(subscribers := [subscriber] + t.subscribers));
      services := services[i := Entry(services[i].key, t.(subscribers := [subscriber] + t.subscribers))];
    }

    /** HdfServiceObserverPublishService. */
    method PublishService(name: Name, devId: nat, policy: nat, service: Option<nat>, recordMem: bool) returns (ok: bool)
      requires Valid()
      modifies this
      ensures Valid()
      ensures ok <==> recordMem || KeyOf(name) in old(Snapshot()).topics
      ensures Snapshot() == if ok then Published(old(Snapshot()), KeyOf(name), devId, policy, service) else old(Snapshot())
    {
      hide Topics, Calls, UniqueKeys, KeyOf;
      var key := KeyOf(name);
      var i := Search(key);
      SearchIsLookup(services, key);
      if i == |services| {
        if !recordMem {
          return false;
        }
        EntryAdded(services, Entry(key, Topic(service, devId, policy, [])));
        services := [Entry(key, Topic(service, devId, policy, []))] + services;
      } else {
        var t := services[i].topic.(publisher := service);
        services := services[i := Entry(key, t)];
        NotifySubscribers(i, devId, policy);
        ghost var told := t.(subscribers := Readied(t.subscribers, devId, policy));
        EntryReplaced(old(services), i, told);
        assert services == old(services)[i := Entry(key, told)];
      }
      return true;
    }

    /** HdfServiceObserverRemoveRecord. */
    method RemoveRecord(name: Name)
      requires Valid()
      modifies this
      ensures Valid()
      ensures Snapshot() == State(old(Snapshot()).topics - {KeyOf(name)}, old(Snapshot()).log)
    {
      var i := Search(KeyOf(name));
      SearchIsLookup(services, KeyOf(name));
      if i < |services| {
        EntryRemoved(services, i);
        services := services[..i] + services[i + 1..];
      }
    }
  }

  // ---------------------------------------------------------------- whole runs

  datatype Op =
    | Subscribe(key: nat, id: nat, devId: nat, connects: bool, recordMem: bool, subscriberMem: bool)
    | Publish(key: nat, devId: nat, policy: nat, service: Option<nat>, recordMem: bool)
    | RemoveRecord(key: nat)

  function Apply(s: State, op: Op): State {
    match op
    case Subscribe(key, id, devId, connects, recordMem, subscriberMem) =>
      if subscriberMem && (recordMem || key in s.topics) then Subscribed(s, key, id, devId, connects) else s
    case Publish(key, devId, policy, service, recordMem) =>
      if recordMem || key in s.topics then Published(s, key, devId, policy, service) else s
    case RemoveRecord(key) => s.(topics := s.topics - {key})
  }

  function After(ops: seq<Op>): State {
    if ops == [] then State(map[], []) else Apply(After(ops[..|ops| - 1]), ops[|ops| - 1])
  }

  /** The services with which a subscriber was called, in order. */
  function HeardBy(log: seq<Call>, id: nat): seq<Option<nat>> {
    if log == [] then []
    else HeardBy(log[..|log| - 1], id) + if log[|log| - 1].id == id then [log[|log| - 1].service] else []
  }

  // What a run means, told from the operations alone.

  /** There is a record for the key. */
  predicate Known(ops: seq<Op>, key: nat) {
    if ops == [] then false
    else
      var before, op := Known(ops[..|ops| - 1], key), ops[|ops| - 1];
      if op.key != key then before
      else match op
        case Subscribe(_, _, _, _, recordMem, subscriberMem) => before || (recordMem && subscriberMem)
        case Publish(_, _, _, _, recordMem) => before || recordMem
        case RemoveRecord(_) => false
  }

  /** The service last published under the key. */
  function Current(ops: seq<Op>, key: nat): Option<nat> {
    if ops == [] then None
    else
      var op := ops[|ops| - 1];
      if op.key == key && op.Publish? && Known(ops, key) then op.service
      else if op.key == key && op.RemoveRecord? then None
      else Current(ops[..|ops| - 1], key)
  }

  /** Device and policy of the publish that made the record; a subscribe makes one without. */
  function Founder(ops: seq<Op>, key: nat): (nat, nat) {
    if !Known(ops, key) then (0, 0)
    else
      var op, before := ops[|ops| - 1], ops[..|ops| - 1];
      if op.key == key && !Known(before, key) then
        if op.Publish? then (op.devId, op.policy) else (0, 0)
      else Founder(before, key)
  }

  /** The k-th operation was a subscribe that succeeded, and its record is still there. */
  predicate Listening(ops: seq<Op>, k: nat)
    requires k < |ops| ==> ops[k].Subscribe?
  {
    if k >= |ops| then false
    else
      var n, op := |ops| - 1, ops[k];
      if k == n then op.subscriberMem && (op.recordMem || Known(ops[..n], op.key))
      else Listening(ops[..n], k) && ops[n] != RemoveRecord(op.key)
  }

  /** What the k-th operation's subscriber is told over the run. */
  function Heard(ops: seq<Op>, k: nat): seq<Option<nat>>
    requires k < |ops| ==> ops[k].Subscribe?
  {
    if k >= |ops| then []
    else
      var n, op, before := |ops| - 1, ops[k], ops[..|ops| - 1];
      if k == n then
        var (devId, policy) := Founder(before, op.key);
        if Listening(ops, k) && op.connects && Current(before, op.key).Some? && (policy != PRIVATE || devId == op.devId)
        then [Current(before, op.key)] else []
      else Heard(before, k)
           + match ops[n]
             case Publish(key, devId, policy, service, _) =>
               if key == op.key && Listening(before, k) && op.connects && (devId == op.devId || policy != PRIVATE)
               then [service] else []
             case _ => []
  }

  /** The state of a record is what the operations on its key say. */
  lemma {:induction false} TopicIsHistory(ops: seq<Op>, key: nat)
    ensures key in After(ops).topics <==> Known(ops, key)
    ensures var t := TopicAt(After(ops), key);
            t.publisher == Current(ops, key) && (t.devId, t.policy) == Founder(ops, key)
  {
    if ops != [] {
      TopicIsHistory(ops[..|ops| - 1], key);
    }
  }

  lemma {:induction false} HeardByConcat(log: seq<Call>, more: seq<Call>, id: nat)
    ensures HeardBy(log + more, id) == HeardBy(log, id) + HeardBy(more, id)
  {
    if more == [] {
      assert log + more == log;
    } else {
      var n := |more| - 1;
      assert (log + more)[..|log + more| - 1] == log + more[..n];
      HeardByConcat(log, more[..n], id);
    }
  }

  /** The subscribers with the given id: their device, and whether they have a callback. */
  function Mine(subs: seq<Subscriber>, id: nat): seq<(nat, bool)> {
    if subs == [] then []
    else
      var s := subs[|subs| - 1];
      Mine(subs[..|subs| - 1], id) + if s.id == id then [(s.devId, s.connects)] else []
  }

  lemma {:induction false} MineCons(s: Subscriber, subs: seq<Subscriber>, id: nat)
    ensures Mine([s] + subs, id) == (if s.id == id then [(s.devId, s.connects)] else []) + Mine(subs, id)
  {
    if subs == [] {
      assert [s] + subs == [s];
      assert [s][..0] == [];
    } else {
      var n := |subs| - 1;
      assert ([s] + subs)[..n + 1] == [s] + subs[..n];
      MineCons(s, subs[..n], id);
    }
  }

  lemma {:induction false} MineReadied(subs: seq<Subscriber>, devId: nat, policy: nat, id: nat)
    ensures Mine(Readied(subs, devId, policy), id) == Mine(subs, id)
  {
    if subs != [] {
      var n := |subs| - 1;
      assert Readied(subs, devId, policy)[..n] == Readied(subs[..n], devId, policy);
      MineReadied(subs[..n], devId, policy, id);
    }
  }

  /** A round of calls reaches a subscriber once if it is listed, and not otherwise. */
  lemma {:induction false} CallsToMine(subs: seq<Subscriber>, devId: nat, policy: nat, service: Option<nat>, id: nat)
    requires |Mine(subs, id)| <= 1
    ensures var m := Mine(subs, id);
            HeardBy(Calls(subs, devId, policy, service), id)
            == if m != [] && m[0].1 && (devId == m[0].0 || policy != PRIVATE) then [service] else []
  {
    if subs != [] {
      var n := |subs| - 1;
      CallsToMine(subs[..n], devId, policy, service, id);
      var more := Calls(subs, devId, policy, service)[|Calls(subs[..n], devId, policy, service)|..];
      assert Calls(subs, devId, policy, service) == Calls(subs[..n], devId, policy, service) + more;
      HeardByConcat(Calls(subs[..n], devId, policy, service), more, id);
      assert |more| <= 1;
      assert more != [] ==> HeardBy(more, id) == HeardBy([], id) + if more[0].id == id then [more[0].service] else [];
    }
  }

  /** The subscribe at position k is the only one with its id. */
  predicate OwnId(ops: seq<Op>, k: nat, op: Op) {
    && op.Subscribe?
    && (k < |ops| ==> ops[k] == op)
    && forall j :: 0 <= j < |ops| && j != k && ops[j].Subscribe? ==> ops[j].id != op.id
  }

  /** The subscriber of operation k is listed under its key while it listens, and nowhere else. */
  ghost predicate ListedRight(s: State, ops: seq<Op>, k: nat, op: Op)
    requires OwnId(ops, k, op)
  {
    && (Listening(ops, k) ==> op.key in s.topics)
    && forall key :: key in s.topics ==>
         Mine(s.topics[key].subscribers, op.id)
         == if key == op.key && Listening(ops, k) then [(op.devId, op.connects)] else []
  }

  lemma {:induction false} SubscriberListed(ops: seq<Op>, k: nat, op: Op)
    requires OwnId(ops, k, op)
    ensures ListedRight(After(ops), ops, k, op)
  {
    if ops != [] {
      var n := |ops| - 1;
      var before := ops[..n];
      SubscriberListed(before, k, op);
      var s := After(before);
      TopicIsHistory(before, ops[n].key);
      ListedStep(s, ops, k, op);
    }
  }

  lemma {:induction false} ListedStep(s: State, ops: seq<Op>, k: nat, op: Op)
    requires ops != [] && OwnId(ops, k, op) && ListedRight(s, ops[..|ops| - 1], k, op)
    requires ops[|ops| - 1].key in s.topics <==> Known(ops[..|ops| - 1], ops[|ops| - 1].key)
    ensures ListedRight(Apply(s, ops[|ops| - 1]), ops, k, op)
  {
    hide ListedRight, Known, Listening, Apply;
    match ops[|ops| - 1] {
      case Subscribe(_, _, _, _, _, _) => ListedAfterSubscribe(s, ops, k, op);
      case Publish(_, _, _, _, _) => ListedAfterPublish(s, ops, k, op);
      case RemoveRecord(_) => ListedAfterRemove(s, ops, k, op);
    }
  }

  lemma {:induction false} ListedAfterSubscribe(s: State, ops: seq<Op>, k: nat, op: Op)
    requires ops != [] && OwnId(ops, k, op) && ListedRight(s, ops[..|ops| - 1], k, op)
    requires ops[|ops| - 1].Subscribe?
    requires ops[|ops| - 1].key in s.topics <==> Known(ops[..|ops| - 1], ops[|ops| - 1].key)
    ensures ListedRight(Apply(s, ops[|ops| - 1]), ops, k, op)
  {
    hide Known, Mine;
    var n := |ops| - 1;
    var last := ops[n];
    var t := TopicAt(s, last.key);
    MineCons(Subscriber(last.id, last.devId, last.connects, ToldAtOnce(t, last.devId, last.connects)), t.subscribers, op.id);
    assert Mine([], op.id) == [] by { NoneMine(op.id); }
  }

  lemma NoneMine(id: nat)
    ensures Mine([], id) == []
  {
  }

  lemma {:induction false} ListedAfterPublish(s: State, ops: seq<Op>, k: nat, op: Op)
    requires ops != [] && OwnId(ops, k, op) && ListedRight(s, ops[..|ops| - 1], k, op)
    requires ops[|ops| - 1].Publish?
    ensures ListedRight(Apply(s, ops[|ops| - 1]), ops, k, op)
  {
    hide Known, Mine, Calls;
    var last := ops[|ops| - 1];
    MineReadied(TopicAt(s, last.key).subscribers, last.devId, last.policy, op.id);
    assert Mine([], op.id) == [] by { NoneMine(op.id); }
  }

  lemma {:induction false} ListedAfterRemove(s: State, ops: seq<Op>, k: nat, op: Op)
    requires ops != [] && OwnId(ops, k, op) && ListedRight(s, ops[..|ops| - 1], k, op)
    requires ops[|ops| - 1].RemoveRecord?
    ensures ListedRight(Apply(s, ops[|ops| - 1]), ops, k, op)
  {
    hide Known, Mine;
  }

  /**
    Over any run a subscriber is called exactly as the operations on its key say: once when it
    subscribes if the service is published, then once per publish while its record is there.
   */
  lemma {:induction false} SubscriberHears(ops: seq<Op>, k: nat, op: Op)
    requires OwnId(ops, k, op)
    ensures HeardBy(After(ops).log, op.id) == Heard(ops, k)
  {
    if ops != [] {
      var n := |ops| - 1;
      var before := ops[..n];
      SubscriberHears(before, k, op);
      SubscriberListed(before, k, op);
      TopicIsHistory(before, ops[n].key);
      HearsStep(After(before), ops, k, op);
    }
  }

  ghost predicate FollowsHistory(s: State, ops: seq<Op>, key: nat) {
    var t := TopicAt(s, key);
    && (key in s.topics <==> Known(ops, key))
    && t.publisher == Current(ops, key) && (t.devId, t.policy) == Founder(ops, key)
  }

  lemma {:induction false} HearsStep(s: State, ops: seq<Op>, k: nat, op: Op)
    requires ops != [] && OwnId(ops, k, op) && ListedRight(s, ops[..|ops| - 1], k, op)
    requires FollowsHistory(s, ops[..|ops| - 1], ops[|ops| - 1].key) && HeardBy(s.log, op.id) == Heard(ops[..|ops| - 1], k)
    ensures HeardBy(Apply(s, ops[|ops| - 1]).log, op.id) == Heard(ops, k)
  {
    hide ListedRight, FollowsHistory, HeardBy;
    match ops[|ops| - 1] {
      case Subscribe(_, _, _, _, _, _) => HearsAfterSubscribe(s, ops, k, op);
      case Publish(_, _, _, _, _) => HearsAfterPublish(s, ops, k, op);
      case RemoveRecord(_) =>
    }
  }

  lemma {:induction false} HearsAfterSubscribe(s: State, ops: seq<Op>, k: nat, op: Op)
    requires ops != [] && OwnId(ops, k, op) && ListedRight(s, ops[..|ops| - 1], k, op)
    requires FollowsHistory(s, ops[..|ops| - 1], ops[|ops| - 1].key) && HeardBy(s.log, op.id) == Heard(ops[..|ops| - 1], k)
    requires ops[|ops| - 1].Subscribe?
    ensures HeardBy(Apply(s, ops[|ops| - 1]).log, op.id) == Heard(ops, k)
  {
    hide ListedRight, Known, Current, Founder, HeardBy;
    var last := ops[|ops| - 1];
    var t := TopicAt(s, last.key);
    HeardByConcat(s.log, [Call(last.id, t.publisher)], op.id);
    OneCall(Call(last.id, t.publisher), op.id);
    assert s.log + [] == s.log;
  }

  lemma {:induction false} HearsAfterPublish(s: State, ops: seq<Op>, k: nat, op: Op)
    requires ops != [] && OwnId(ops, k, op) && ListedRight(s, ops[..|ops| - 1], k, op)
    requires FollowsHistory(s, ops[..|ops| - 1], ops[|ops| - 1].key) && HeardBy(s.log, op.id) == Heard(ops[..|ops| - 1], k)
    requires ops[|ops| - 1].Publish?
    ensures HeardBy(Apply(s, ops[|ops| - 1]).log, op.id) == Heard(ops, k)
  {
    hide Calls, Known, Current, Founder, HeardBy, Mine;
    var last := ops[|ops| - 1];
    if last.key in s.topics {
      var t := s.topics[last.key];
      CallsToMine(t.subscribers, last.devId, last.policy, last.service, op.id);
      HeardByConcat(s.log, Calls(t.subscribers, last.devId, last.policy, last.service), op.id);
    }
  }

  lemma {:induction false} OneCall(c: Call, id: nat)
    ensures HeardBy([c], id) == if c.id == id then [c.service] else []
  {
    assert [c][..0] == [];
  }

  // ---------------------------------------------------------------- runs without private services

  /** The services published under a key, in order. */
  function Services(ops: seq<Op>, key: nat): seq<Option<nat>> {
    if ops == [] then []
    else
      var op := ops[|ops| - 1];
      Services(ops[..|ops| - 1], key) + if op.Publish? && op.key == key then [op.service] else []
  }

  /** Subscribes and publishes of real services for everybody, all of which succeed. */
  predicate Plain(op: Op) {
    match op
    case Subscribe(_, _, _, _, recordMem, subscriberMem) => recordMem && subscriberMem
    case Publish(_, _, policy, service, recordMem) => policy != PRIVATE && service.Some? && recordMem
    case RemoveRecord(_) => false
  }

  function LastOf<T>(s: seq<T>): seq<T> {
    if s == [] then [] else [s[|s| - 1]]
  }

  lemma {:induction false} PlainHistory(ops: seq<Op>, key: nat)
    requires forall i :: 0 <= i < |ops| && ops[i].key == key ==> Plain(ops[i])
    ensures LastOf(Services(ops, key)) == if Current(ops, key).Some? then [Current(ops, key)] else []
    ensures Founder(ops, key).1 != PRIVATE
  {
    if ops != [] {
      PlainHistory(ops[..|ops| - 1], key);
    }
  }

  lemma {:induction false} PlainListening(ops: seq<Op>, k: nat)
    requires k < |ops| && ops[k].Subscribe?
    requires forall i :: 0 <= i < |ops| && ops[i].key == ops[k].key ==> Plain(ops[i])
    ensures Listening(ops, k)
  {
    if k < |ops| - 1 {
      PlainListening(ops[..|ops| - 1], k);
    }
  }

  /**
    On a key where only plain operations happen, a subscriber with a callback hears the current
    service when it subscribes, if there is one, and every service published later, in order.
   */
  lemma {:induction false} PlainSubscriberHears(ops: seq<Op>, k: nat)
    requires k < |ops| && OwnId(ops, k, ops[k]) && ops[k].connects
    requires forall i :: 0 <= i < |ops| && ops[i].key == ops[k].key ==> Plain(ops[i])
    ensures HeardBy(After(ops).log, ops[k].id)
            == LastOf(Services(ops[..k], ops[k].key)) + Services(ops[k + 1..], ops[k].key)
  {
    SubscriberHears(ops, k, ops[k]);
    PlainHeard(ops, k);
  }

  lemma {:induction false} PlainHeard(ops: seq<Op>, k: nat)
    requires k < |ops| && ops[k].Subscribe? && ops[k].connects
    requires forall i :: 0 <= i < |ops| && ops[i].key == ops[k].key ==> Plain(ops[i])
    ensures Heard(ops, k) == LastOf(Services(ops[..k], ops[k].key)) + Services(ops[k + 1..], ops[k].key)
  {
    hide Heard, Services, Listening, Plain, LastOf;
    var n, key := |ops| - 1, ops[k].key;
    if k == n {
      FirstHeard(ops, k);
      assert ops[k + 1..] == [] && Services([], key) == [] by { NoServices(key); }
    } else {
      PlainHeard(ops[..n], k);
      PlainListening(ops[..n], k);
      LaterHeard(ops, k);
      assert ops[..n][..k] == ops[..k] && ops[..n][k + 1..] == ops[k + 1..][..n - k - 1];
      ServicesSnoc(ops[k + 1..][..n - k - 1], ops[n], key);
      assert ops[k + 1..][..n - k - 1] + [ops[n]] == ops[k + 1..];
    }
  }

  lemma NoServices(key: nat)
    ensures Services([], key) == []
  {
  }

  lemma {:induction false} FirstHeard(ops: seq<Op>, k: nat)
    requires k == |ops| - 1 && ops[k].Subscribe? && ops[k].connects
    requires forall i :: 0 <= i < |ops| && ops[i].key == ops[k].key ==> Plain(ops[i])
    ensures Heard(ops, k) == LastOf(Services(ops[..k], ops[k].key))
  {
    hide Services, LastOf;
    PlainHistory(ops[..k], ops[k].key);
    PlainListening(ops, k);
  }

  lemma LaterHeard(ops: seq<Op>, k: nat)
    requires k < |ops| - 1 && ops[k].Subscribe? && ops[k].connects && Listening(ops[..|ops| - 1], k)
    requires ops[|ops| - 1].key == ops[k].key ==> Plain(ops[|ops| - 1])
    ensures var last := ops[|ops| - 1];
            Heard(ops, k) == Heard(ops[..|ops| - 1], k)
                             + if last.Publish? && last.key == ops[k].key then [last.service] else []
  {
  }

  lemma {:induction false} ServicesSnoc(ops: seq<Op>, op: Op, key: nat)
    ensures Services(ops + [op], key) == Services(ops, key) + if op.Publish? && op.key == key then [op.service] else []
  {
    assert (ops + [op])[..|ops|] == ops;
  }

  lemma {:induction false} ServicesSplit(ops: seq<Op>, k: nat, key: nat)
    requires k <= |ops|
    ensures Services(ops, key) == Services(ops[..k], key) + Services(ops[k..], key)
  {
    var n := |ops| - 1;
    if k == |ops| {
      assert ops[..k] == ops && ops[k..] == [];
    } else {
      ServicesSplit(ops[..n], k, key);
      assert ops[..n][..k] == ops[..k] && ops[..n][k..] == ops[k..][..n - k] && ops[k..][n - k] == ops[n];
    }
  }

  /**
    Order does not matter: whenever a subscriber came, what it heard last is what was published
    last, and it heard something exactly when something was published.
   */
  lemma {:induction false} EverybodyUpToDate(ops: seq<Op>, k: nat)
    requires k < |ops| && OwnId(ops, k, ops[k]) && ops[k].connects
    requires forall i :: 0 <= i < |ops| && ops[i].key == ops[k].key ==> Plain(ops[i])
    ensures LastOf(HeardBy(After(ops).log, ops[k].id)) == LastOf(Services(ops, ops[k].key))
  {
    var key := ops[k].key;
    PlainSubscriberHears(ops, k);
    ServicesSplit(ops, k, key);
    ServicesSplit(ops[k..], 1, key);
    assert ops[k..][1..] == ops[k + 1..] && ops[k..][..1] == [ops[k]];
    assert Services([ops[k]], key) == [] by { assert [ops[k]][..0] == []; }
    assert Services(ops[k..], key) == Services(ops[k + 1..], key);
  }

  /**
    Not so for private services: a publish does not store its policy in a record that a
    subscribe made. A newcomer is told at once of a published service exactly when the
    record was not made by a private publish of another device.
   */
  lemma {:induction false} NewcomerToldWhen(ops: seq<Op>, op: Op)
    requires OwnId(ops, |ops|, op) && op.connects && op.subscriberMem && op.recordMem
    requires Current(ops, op.key).Some?
    ensures var (devId, policy) := Founder(ops, op.key);
            HeardBy(After(ops + [op]).log, op.id)
            == if policy == PRIVATE && devId != op.devId then [] else [Current(ops, op.key)]
  {
    var all := ops + [op];
    assert all[..|ops|] == ops && all[|ops|] == op;
    SubscriberHears(all, |ops|, op);
  }

  /** The order of a private publish and the owner's subscribe decides what a stranger hears. */
  lemma {:induction false} PrivateDependsOnOrder()
    ensures var publish := Publish(1, 7, PRIVATE, Some(9), true);
            var owner := Subscribe(1, 100, 7, true, true, true);
            var stranger := Subscribe(1, 101, 8, true, true, true);
            && HeardBy(After([publish, owner, stranger]).log, 101) == []
            && HeardBy(After([owner, publish, stranger]).log, 101) == [Some(9)]
  {
    var publish := Publish(1, 7, PRIVATE, Some(9), true);
    var owner := Subscribe(1, 100, 7, true, true, true);
    var stranger := Subscribe(1, 101, 8, true, true, true);
    StrangerAfter(publish, owner, stranger, (7, PRIVATE));
    StrangerAfter(owner, publish, stranger, (0, 0));
  }

  /** The first of two operations on a key makes the record; the publish, whichever it is, sets the service. */
  lemma {:induction false} StrangerAfter(a: Op, b: Op, stranger: Op, founder: (nat, nat))
    requires a.key == b.key == stranger.key && !a.RemoveRecord? && a.recordMem && (a.Subscribe? ==> a.subscriberMem)
    requires (a.Publish? && b.Subscribe? && a.service.Some? && founder == (a.devId, a.policy))
             || (a.Subscribe? && b.Publish? && b.service.Some? && founder == (0, 0))
    requires OwnId([a, b], 2, stranger) && stranger.connects && stranger.subscriberMem && stranger.recordMem
    ensures HeardBy(After([a, b, stranger]).log, stranger.id)
            == if founder.1 == PRIVATE && founder.0 != stranger.devId then []
               else [if a.Publish? then a.service else b.service]
  {
    var ops := [a, b];
    assert ops[..1] == [a] && [a][..0] == [];
    assert Known(ops[..1], a.key);
    NewcomerToldWhen(ops, stranger);
    assert ops + [stranger] == [a, b, stranger];
  }
}
