/**
  The timestamp-ordered message queue of utils/src/osal_msg_queue.c: what one call of
  Enqueue and Next does to the list, on heap nodes through the list iterator.
 */
module MessageQueue {
  import opened Seqs
  import opened SList

  /** The position of the first stamp later than t, or the end. */
  function FirstLater(stamps: seq<nat>, t: nat): (k: nat)
    ensures k <= |stamps|
    ensures k < |stamps| ==> stamps[k] > t
    ensures forall i :: 0 <= i < k ==> stamps[i] <= t
  {
    if stamps == [] || stamps[0] > t then 0 else 1 + FirstLater(stamps[1..], t)
  }

  /** The position of the first stamp that is due at `now`, or the end. */
  function FirstDue(stamps: seq<nat>, now: nat): (k: nat)
    ensures k <= |stamps|
    ensures k < |stamps| ==> stamps[k] <= now
    ensures forall i :: 0 <= i < k ==> stamps[i] > now
  {
    if stamps == [] || stamps[0] <= now then 0 else 1 + FirstDue(stamps[1..], now)
  }

  ghost predicate Ascending(stamps: seq<nat>) {
    forall i, j :: 0 <= i < j < |stamps| ==> stamps[i] <= stamps[j]
  }

  /** Enqueueing behind all stamps not later keeps the list in order. */
  lemma {:induction false} EnqueueKeepsOrder(stamps: seq<nat>, t: nat)
    requires Ascending(stamps)
    ensures Ascending(InsertAt(stamps, FirstLater(stamps, t), t))
  {
    var k := FirstLater(stamps, t);
    var r := InsertAt(stamps, k, t);
    forall i, j | 0 <= i < j < |r| ensures r[i] <= r[j] {
      if k < |stamps| && j > k {
        assert r[j] == stamps[j - 1] && stamps[k] <= stamps[j - 1];
      }
    }
  }

  /** On an ordered list only the head can be the first due message. */
  lemma DueIsHead(stamps: seq<nat>, now: nat)
    requires Ascending(stamps)
    ensures FirstDue(stamps, now) == 0 || FirstDue(stamps, now) == |stamps|
    ensures FirstDue(stamps, now) == |stamps| <==> forall i :: 0 <= i < |stamps| ==> stamps[i] > now
  {
  }

  /** A queued message; the payload identifies it. */
  datatype Message = Message(id: nat, timeStamp: nat)

  ghost function Stamps(s: seq<Node<Message>>): (r: seq<nat>)
    ensures |r| == |s| && forall i :: 0 <= i < |s| ==> r[i] == s[i].data.timeStamp
  {
    seq(|s|, i requires 0 <= i < |s| => s[i].data.timeStamp)
  }

  method InsertHere(it: Iterator<Message>, ghost head: Node<Message>, entry: Node<Message>,
                    ghost s: seq<Node<Message>>, ghost n: nat)
    requires 0 < n <= |s| && Reading(it, head, s, n) && entry !in s && entry != head
    modifies it, head, entry, s
    ensures IsList(head, InsertAt(s, n - 1, entry))
  {
    hide IsList, InsertAt;
    VisitingContents(s, n);
    InsertedContents(Visiting(s, n), entry);
    it.Insert(head, entry, Visiting(s, n));
  }

  method RemoveHere(it: Iterator<Message>, ghost head: Node<Message>, ghost s: seq<Node<Message>>, ghost n: nat)
    requires 0 < n <= |s| && Reading(it, head, s, n)
    modifies it, head, s
    ensures IsList(head, Without(s, n - 1))
  {
    VisitingContents(s, n);
    RemovedContents(Visiting(s, n));
    it.Remove(head, Visiting(s, n));
  }

  /** The loop of HdfMessageQueueEnqueue: stop behind the first later message. */
  method SeekLater(it: Iterator<Message>, ghost head: Node<Message>, t: nat, ghost s: seq<Node<Message>>)
    returns (found: bool)
    requires Reading(it, head, s, 0)
    modifies it
    ensures var k := FirstLater(Stamps(s), t);
            && (found <==> k < |s|) && (found ==> Reading(it, head, s, k + 1))
  {
    ghost var n := 0;
    hide Reading;
    var more := More(it, head, s, 0);
    while more
      invariant n <= |s| && Reading(it, head, s, n)
      invariant forall i :: 0 <= i < n ==> Stamps(s)[i] <= t
      invariant more <==> n < |s|
      decreases |s| - n
    {
      var next;
      next, more := Advance(it, head, s, n);
      n := n + 1;
      if next.data.timeStamp > t {
        LaterFound(Stamps(s), t, n - 1);
        return true;
      }
    }
    LaterFound(Stamps(s), t, n);
    return false;
  }

  /** HdfMessageQueueEnqueue between locking and unlocking, for a message already stamped. */
  method Enqueue(head: Node<Message>, entry: Node<Message>, ghost s: seq<Node<Message>>)
    requires IsList(head, s) && entry !in s && entry != head
    modifies head, entry, s
    ensures IsList(head, InsertAt(s, FirstLater(Stamps(s), entry.data.timeStamp), entry))
  {
    hide IsList, InsertAt;
    var it := new Iterator(head, s);
    assert Reading(it, head, s, 0);
    var found := SeekLater(it, head, entry.data.timeStamp, s);
    if found {
      InsertHere(it, head, entry, s, FirstLater(Stamps(s), entry.data.timeStamp) + 1);
    } else {
      AddTail(head, entry, s);
      InsertAtEnd(s, entry);
    }
  }

  /** HdfMessageQueueEnqueue of a message that carries its delay: it is stamped with the time first. */
  method EnqueueAt(head: Node<Message>, id: nat, delay: nat, now: nat, ghost s: seq<Node<Message>>)
    returns (entry: Node<Message>, ghost k: nat)
    requires IsList(head, s)
    modifies head, s
    ensures fresh(entry) && entry.data == Message(id, delay + now)
    ensures k <= |s| && IsList(head, InsertAt(s, k, entry))
    ensures forall i :: 0 <= i < k ==> s[i].data.timeStamp <= delay + now
    ensures k < |s| ==> s[k].data.timeStamp > delay + now
  {
    entry := new Node(Message(id, delay + now));
    k := FirstLater(Stamps(s), delay + now);
    Enqueue(head, entry, s);
  }

  lemma InsertAtEnd<T>(s: seq<T>, x: T)
    ensures InsertAt(s, |s|, x) == s + [x]
  {
  }

  lemma LaterFound(stamps: seq<nat>, t: nat, k: nat)
    requires k <= |stamps| && (k < |stamps| ==> stamps[k] > t)
    requires forall i :: 0 <= i < k ==> stamps[i] <= t
    ensures FirstLater(stamps, t) == k
  {
  }

  /** The loop of HdfMessageQueueNext: stop behind the first due message. */
  method SeekDue(it: Iterator<Message>, ghost head: Node<Message>, now: nat, ghost s: seq<Node<Message>>)
    returns (found: bool)
    requires Reading(it, head, s, 0)
    modifies it
    ensures var k := FirstDue(Stamps(s), now);
            && (found <==> k < |s|) && (found ==> Reading(it, head, s, k + 1))
  {
    ghost var n := 0;
    hide Reading;
    var more := More(it, head, s, 0);
    while more
      invariant n <= |s| && Reading(it, head, s, n)
      invariant forall i :: 0 <= i < n ==> Stamps(s)[i] > now
      invariant more <==> n < |s|
      decreases |s| - n
    {
      var next;
      next, more := Advance(it, head, s, n);
      n := n + 1;
      if next.data.timeStamp <= now {
        DueFound(Stamps(s), now, n - 1);
        return true;
      }
    }
    DueFound(Stamps(s), now, n);
    return false;
  }

  /** HdfMessageQueueNext between locking and unlocking, at the sampled time. */
  method Next(head: Node<Message>, now: nat, ghost s: seq<Node<Message>>) returns (message: Node?<Message>)
    requires IsList(head, s)
    modifies head, s
    ensures var k := FirstDue(Stamps(s), now);
            if k < |s| then message == s[k] && IsList(head, Without(s, k))
            else message == null && IsList(head, s)
  {
    var it := new Iterator(head, s);
    assert Reading(it, head, s, 0);
    var found := SeekDue(it, head, now, s);
    if !found {
      return null;
    }
    message := it.curr;
    RemoveHere(it, head, s, FirstDue(Stamps(s), now) + 1);
  }

  lemma DueFound(stamps: seq<nat>, now: nat, k: nat)
    requires k <= |stamps| && (k < |stamps| ==> stamps[k] <= now)
    requires forall i :: 0 <= i < k ==> stamps[i] > now
    ensures FirstDue(stamps, now) == k
  {
  }

  /** HdfMessageQueueFlush: every message is recycled once, in list order. */
  method FlushQueue(head: Node<Message>, ghost s: seq<Node<Message>>) returns (recycled: seq<Node<Message>>)
    requires IsList(head, s)
    modifies head, s
    ensures IsList(head, []) && recycled == s
  {
    recycled := Flush(head, s);
  }
}
