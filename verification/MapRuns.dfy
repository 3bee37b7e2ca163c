/**
  What a run of the map means, told from the operations on each key: the answers of the map are
  those of the last value stored, with no map in between.
 */
module MapRuns {
  import opened Bytes
  import opened HashTable
  import opened HashMap

  /** A key and a value of sizes that are accepted. */
  predicate Sized(key: Key, value: seq<byte>) {
    0 < |value| <= 1000 && |key| <= 1000
  }

  /** Buckets are allocated by the first accepted set that gets memory for them, and go with the map. */
  predicate HasBuckets(ops: seq<MapOp>) {
    if ops == [] then false
    else
      var before := HasBuckets(ops[..|ops| - 1]);
      match ops[|ops| - 1]
      case DoSet(key, value, resizeMem, _) => before || (resizeMem && Sized(key, value))
      case DoDelete => false
      case _ => before
  }

  /** The value under the key: a set stores a new key, overwrites a value of the same size, and does nothing else. */
  function Stored(ops: seq<MapOp>, key: Key): Option<seq<byte>> {
    if ops == [] then None
    else
      var before, was := ops[..|ops| - 1], Stored(ops[..|ops| - 1], key);
      match ops[|ops| - 1]
      case DoSet(k, value, resizeMem, nodeMem) =>
        if k != key || !Sized(k, value) then was
        else if was.Some? then (if |was.value| == |value| then Some(value) else was)
        else if nodeMem && (HasBuckets(before) || resizeMem) then Some(value)
        else None
      case DoErase(k) => if k == key then None else was
      case DoDelete => None
      case DoGet(_) => was
  }

  /** What an operation answers after the others. */
  ghost function Reply(ops: seq<MapOp>, op: MapOp): Answer {
    match op
    case DoSet(key, value, resizeMem, nodeMem) =>
      if !Sized(key, value) then Did(InvalidParam)
      else if Stored(ops, key).Some? then Did(if |Stored(ops, key).value| == |value| then Success else InvalidObject)
      else if !nodeMem then Did(InvalidObject)
      else Did(if HasBuckets(ops) || resizeMem then Success else NullBuckets)
    case DoGet(key) => Got(Stored(ops, key))
    case DoErase(key) =>
      if Stored(ops, key).Some? then Did(Success)
      else Did(if forall k: Key :: Stored(ops, k).None? then InvalidParam else Failure)
    case DoDelete => Done
  }

  lemma {:induction false} StoredIsContents(ops: seq<MapOp>, key: Key)
    ensures HashTable.Get(SpecRun(ops).contents, key) == Stored(ops, key)
    ensures SpecRun(ops).buckets == HasBuckets(ops)
  {
    if ops != [] {
      StoredIsContents(ops[..|ops| - 1], key);
      if ops[|ops| - 1].DoSet? {
        StoredIsContents(ops[..|ops| - 1], ops[|ops| - 1].key);
      }
    }
  }

  /** The answers of a finite map are what the operations on each key say. */
  lemma {:induction false} AnswerIsReply(ops: seq<MapOp>, op: MapOp)
    ensures SpecAnswer(SpecRun(ops), op) == Reply(ops, op)
  {
    hide SpecRun, Stored, HasBuckets;
    if !op.DoDelete? {
      StoredIsContents(ops, op.key);
    }
    if op.DoErase? {
      forall k: Key ensures Stored(ops, k).None? <==> k !in SpecRun(ops).contents {
        StoredIsContents(ops, k);
      }
    }
  }

  /** Every answer of a run from MapInit is what the operations before it say. */
  lemma {:induction false} RunAnswers(ops: seq<MapOp>, answers: seq<Answer>, i: nat)
    requires Answered(ops, answers) && i < |answers|
    ensures answers[i] == Reply(ops[..i], ops[i])
  {
    AnswerIsReply(ops[..i], ops[i]);
  }

  /** An operation that does not touch the key's value. */
  predicate Spares(op: MapOp, key: Key) {
    match op
    case DoSet(k, _, _, _) => k != key
    case DoErase(k) => k != key
    case DoDelete => false
    case DoGet(_) => true
  }

  /** A value that was stored stays until the key is set or erased or the map deleted. */
  lemma {:induction false} StaysStored(ops: seq<MapOp>, i: nat, key: Key)
    requires i <= |ops| && forall j :: i <= j < |ops| ==> Spares(ops[j], key)
    ensures Stored(ops, key) == Stored(ops[..i], key)
  {
    if i == |ops| {
      assert ops[..i] == ops;
    } else {
      StaysStored(ops[..|ops| - 1], i, key);
      assert ops[..|ops| - 1][..i] == ops[..i];
    }
  }

  /**
    A set of accepted sizes succeeds if and only if the key has a value of the same size, or is new
    and there is memory for its node and there are buckets or memory for them; a get after a set
    that succeeded, with the key left alone between, answers the value set.
   */
  lemma {:induction false} SetThenGet(ops: seq<MapOp>, answers: seq<Answer>, i: nat, j: nat)
    requires Answered(ops, answers) && i < j < |answers|
    requires ops[i].DoSet? && ops[j] == DoGet(ops[i].key) && forall k :: i < k < j ==> Spares(ops[k], ops[i].key)
    ensures answers[i] == Did(Success) <==>
            var was := Stored(ops[..i], ops[i].key);
            && 0 < |ops[i].value| <= 1000 && |ops[i].key| <= 1000
            && (was.Some? ==> |was.value| == |ops[i].value|)
            && (was.None? ==> ops[i].nodeMem && (HasBuckets(ops[..i]) || ops[i].resizeMem))
    ensures answers[j] == Got(if answers[i] == Did(Success) then Some(ops[i].value) else Stored(ops[..i], ops[i].key))
  {
    var key := ops[i].key;
    RunAnswers(ops, answers, i);
    RunAnswers(ops, answers, j);
    assert ops[..i + 1][..i] == ops[..i];
    StaysStored(ops[..j], i + 1, key);
    assert ops[..j][..i + 1] == ops[..i + 1];
  }
}
