/**
  What a run of the observer means as a whole, told from the operations alone: who is listed for a
  service and in which order, who has been reached, and every call made, in order.
 */
module ObserverRuns {
  import opened Bytes
  import opened Seqs
  import opened Observer

  /** A private service is known to its own device only. */
  predicate MayKnow(devId: nat, policy: nat, subscriber: nat) {
    policy != 4 || devId == subscriber
  }

  predicate Subscribes(ops: seq<Op>, op: Op) {
    op.Subscribe? && op.subscriberMem && (op.recordMem || Known(ops, op.key))
  }

  /** Whether a subscribe after the operations is told of the service at once. */
  predicate ToldNow(ops: seq<Op>, op: Op)
    requires op.Subscribe?
  {
    op.connects && Current(ops, op.key).Some? && MayKnow(Founder(ops, op.key).0, Founder(ops, op.key).1, op.devId)
  }

  /** The subscribes whose subscribers are listed under the key, newest first. */
  function ListedFor(ops: seq<Op>, key: nat): (ks: seq<nat>)
    ensures forall i :: 0 <= i < |ks| ==> ks[i] < |ops| && ops[ks[i]].Subscribe? && ops[ks[i]].key == key
  {
    if ops == [] then []
    else
      var before, op := ops[..|ops| - 1], ops[|ops| - 1];
      if op.key != key then ListedFor(before, key)
      else if op.RemoveRecord? then []
      else if Subscribes(before, op) then [|before|] + ListedFor(before, key)
      else ListedFor(before, key)
  }

  /** The k-th operation's subscriber has been told of the service, or would have been with a callback. */
  predicate Ready(ops: seq<Op>, k: nat)
    requires k < |ops| && ops[k].Subscribe?
  {
    var n := |ops| - 1;
    if k == n then ToldNow(ops[..n], ops[k])
    else
      Ready(ops[..n], k)
      || (ops[n].Publish? && ops[n].key == ops[k].key && MayKnow(ops[n].devId, ops[n].policy, ops[k].devId))
  }

  /** The subscribers as they are listed. */
  function SubscribersOf(ops: seq<Op>, ks: seq<nat>): (r: seq<Subscriber>)
    requires forall i :: 0 <= i < |ks| ==> ks[i] < |ops| && ops[ks[i]].Subscribe?
    ensures |r| == |ks|
    ensures forall i :: 0 <= i < |r| ==>
              r[i] == Subscriber(ops[ks[i]].id, ops[ks[i]].devId, ops[ks[i]].connects, Ready(ops, ks[i]))
  {
    seq(|ks|, i requires 0 <= i < |ks| =>
      Subscriber(ops[ks[i]].id, ops[ks[i]].devId, ops[ks[i]].connects, Ready(ops, ks[i])))
  }

  /** The calls a publish makes: to the listed subscribers that have a callback and may know, in list order. */
  function CallsTo(ops: seq<Op>, ks: seq<nat>, publish: Op): seq<Call>
    requires publish.Publish? && forall i :: 0 <= i < |ks| ==> ks[i] < |ops| && ops[ks[i]].Subscribe?
  {
    if ks == [] then []
    else
      var n := |ks| - 1;
      var op := ops[ks[n]];
      CallsTo(ops, ks[..n], publish)
      + if op.connects && MayKnow(publish.devId, publish.policy, op.devId) then [Call(op.id, publish.service)] else []
  }

  /** All calls of a run. */
  function AllCalls(ops: seq<Op>): seq<Call> {
    if ops == [] then []
    else
      var before, op := ops[..|ops| - 1], ops[|ops| - 1];
      AllCalls(before)
      + match op
        case Subscribe(key, id, _, _, _, _) =>
          if Subscribes(before, op) && ToldNow(before, op) then [Call(id, Current(before, key))] else []
        case Publish(key, _, _, _, _) => if Known(before, key) then CallsTo(before, ListedFor(before, key), op) else []
        case RemoveRecord(_) => []
  }

  lemma {:induction false} SamePeople(ops: seq<Op>, ks: seq<nat>, op: Op)
    requires forall i :: 0 <= i < |ks| ==> ks[i] < |ops| && ops[ks[i]].Subscribe?
    requires forall i :: 0 <= i < |ks| && op.Publish? ==> ops[ks[i]].key != op.key
    ensures SubscribersOf(ops + [op], ks) == SubscribersOf(ops, ks)
  {
    assert (ops + [op])[..|ops|] == ops;
  }

  lemma {:induction false} PeopleReached(ops: seq<Op>, ks: seq<nat>, op: Op)
    requires forall i :: 0 <= i < |ks| ==> ks[i] < |ops| && ops[ks[i]].Subscribe? && ops[ks[i]].key == op.key
    requires op.Publish?
    ensures SubscribersOf(ops + [op], ks) == Readied(SubscribersOf(ops, ks), op.devId, op.policy)
  {
    assert (ops + [op])[..|ops|] == ops;
  }

  lemma {:induction false} CallsAreTo(ops: seq<Op>, ks: seq<nat>, op: Op)
    requires op.Publish? && forall i :: 0 <= i < |ks| ==> ks[i] < |ops| && ops[ks[i]].Subscribe?
    ensures Calls(SubscribersOf(ops, ks), op.devId, op.policy, op.service) == CallsTo(ops, ks, op)
  {
    if ks != [] {
      var n := |ks| - 1;
      CallsAreTo(ops, ks[..n], op);
      assert SubscribersOf(ops, ks)[..n] == SubscribersOf(ops, ks[..n]);
    }
  }

  lemma {:induction false} NobodyListed(ops: seq<Op>, key: nat)
    ensures !Known(ops, key) ==> ListedFor(ops, key) == []
  {
    if ops != [] {
      NobodyListed(ops[..|ops| - 1], key);
    }
  }

  ghost predicate AsTold(s: State, ops: seq<Op>) {
    && s.log == AllCalls(ops)
    && forall key :: (key in s.topics <==> Known(ops, key))
                     && TopicAt(s, key).subscribers == SubscribersOf(ops, ListedFor(ops, key))
  }

  /** The observer after any run: the subscribers listed, in order and with their states, and the calls made, in order. */
  lemma {:induction false} ObserverIs(ops: seq<Op>)
    ensures AsTold(After(ops), ops)
  {
    hide AsTold, Apply, AllCalls, Known;
    if ops == [] {
      NothingTold();
    } else {
      var n := |ops| - 1;
      ObserverIs(ops[..n]);
      assert ops[..n] + [ops[n]] == ops;
      ObserverStep(After(ops[..n]), ops[..n], ops[n]);
    }
  }

  lemma NothingTold()
    ensures AsTold(State(map[], []), [])
  {
  }

  lemma {:induction false} ObserverStep(s: State, ops: seq<Op>, op: Op)
    requires s == After(ops) && AsTold(s, ops)
    ensures AsTold(Apply(s, op), ops + [op])
  {
    hide SubscribersOf, Calls, Readied, CallsTo, Current, Founder, AllCalls, Known;
    var more, u := ops + [op], Apply(s, op);
    assert more[..|ops|] == ops;
    TopicIsHistory(ops, op.key);
    forall key ensures (key in u.topics <==> Known(more, key))
                       && TopicAt(u, key).subscribers == SubscribersOf(more, ListedFor(more, key))
    {
      TopicIsHistory(more, key);
      TopicStep(s, ops, op, key);
    }
    LogStep(s, ops, op);
  }

  lemma {:induction false} TopicStep(s: State, ops: seq<Op>, op: Op, key: nat)
    requires s == After(ops) && AsTold(s, ops)
    ensures TopicAt(Apply(s, op), key).subscribers == SubscribersOf(ops + [op], ListedFor(ops + [op], key))
  {
    hide Calls, Readied, CallsTo, Current, Founder, AllCalls, Known, SubscribersOf;
    var more := ops + [op];
    assert more[..|ops|] == ops;
    TopicIsHistory(ops, op.key);
    assert TopicAt(s, key).subscribers == SubscribersOf(ops, ListedFor(ops, key));
    NobodyListed(ops, key);
    assert SubscribersOf(more, []) == [] && SubscribersOf(ops, []) == [] by { NoPeople(more); NoPeople(ops); }
    if op.key != key {
      SamePeople(ops, ListedFor(ops, key), op);
    } else if op.Publish? {
      PeopleReached(ops, ListedFor(ops, key), op);
      NobodyReached(op.devId, op.policy);
    } else if op.Subscribe? {
      SamePeople(ops, ListedFor(ops, key), op);
      if Subscribes(ops, op) {
        NewPerson(ops, op, ListedFor(ops, key));
      }
    }
  }

  lemma NoPeople(ops: seq<Op>)
    ensures SubscribersOf(ops, []) == []
  {
  }

  lemma NobodyReached(devId: nat, policy: nat)
    ensures Readied([], devId, policy) == []
  {
  }

  lemma {:induction false} NewPerson(ops: seq<Op>, op: Op, ks: seq<nat>)
    requires op.Subscribe? && forall i :: 0 <= i < |ks| ==> ks[i] < |ops| && ops[ks[i]].Subscribe?
    ensures SubscribersOf(ops + [op], [|ops|] + ks)
            == [Subscriber(op.id, op.devId, op.connects, ToldNow(ops, op))] + SubscribersOf(ops + [op], ks)
  {
    assert (ops + [op])[..|ops|] == ops;
  }

  lemma {:induction false} LogStep(s: State, ops: seq<Op>, op: Op)
    requires s == After(ops) && AsTold(s, ops)
    ensures Apply(s, op).log == AllCalls(ops + [op])
  {
    hide Calls, Readied, CallsTo, Current, Founder, Known, SubscribersOf;
    assert (ops + [op])[..|ops|] == ops;
    TopicIsHistory(ops, op.key);
    assert TopicAt(s, op.key).subscribers == SubscribersOf(ops, ListedFor(ops, op.key));
    assert s.log + [] == s.log;
    if op.Publish? {
      CallsAreTo(ops, ListedFor(ops, op.key), op);
    }
  }
}
