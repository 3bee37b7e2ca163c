/**
  The intrusive doubly linked ring of include/utils/hdf_dlist.h on heap nodes.

  `Ring(head, s)` says that walking `next` from the head meets exactly the nodes
  `s` before coming back, and that `prev` undoes `next` everywhere.
 */
module DList {

  class Node {
    var next: Node?
    var prev: Node?
  }

  /** The node at position i of the ring with head at both ends. */
  ghost function After(head: Node, s: seq<Node>, i: nat): Node {
    if i + 1 < |s| then s[i + 1] else head
  }

  ghost function Before(head: Node, s: seq<Node>, i: nat): Node {
    if 0 < i <= |s| then s[i - 1] else head
  }

  ghost predicate Ring(head: Node, s: seq<Node>)
    reads head, s
  {
    && head !in s
    && (forall i, j :: 0 <= i < j < |s| ==> s[i] != s[j])
    && head.next == (if s == [] then head else s[0])
    && head.prev == (if s == [] then head else s[|s| - 1])
    && (forall i {:trigger s[i].next} :: 0 <= i < |s| ==> s[i].next == After(head, s, i))
    && (forall i {:trigger s[i].prev} :: 0 <= i < |s| ==> s[i].prev == Before(head, s, i))
  }

  /** In a ring next and prev are mutually inverse, the head included. */
  lemma {:induction false} NextPrevInverse(head: Node, s: seq<Node>, n: Node)
    requires Ring(head, s) && n in [head] + s
    ensures n.next in [head] + s && n.prev in [head] + s
    ensures n.next.prev == n && n.prev.next == n
  {
    if n != head {
      var i :| 0 <= i < |s| && s[i] == n;
      assert s[i].next == After(head, s, i) && s[i].prev == Before(head, s, i);
      if i + 1 < |s| {
        assert s[i + 1].prev == Before(head, s, i + 1);
      }
      if i > 0 {
        assert s[i - 1].next == After(head, s, i - 1);
      }
    } else if s != [] {
      assert s[0].prev == Before(head, s, 0) && s[|s| - 1].next == After(head, s, |s| - 1);
    }
  }

  /** The heap determines the sequence of a ring. */
  lemma {:induction false} RingUnique(head: Node, s: seq<Node>, t: seq<Node>, k: nat)
    requires Ring(head, s) && Ring(head, t)
    requires k <= |s| && k <= |t| && s[..k] == t[..k]
    ensures s == t
    decreases |s| - k
  {
    if k > 0 {
      assert s[k - 1] == s[..k][k - 1] == t[..k][k - 1] == t[k - 1];
      assert s[k - 1].next == After(head, s, k - 1) && t[k - 1].next == After(head, t, k - 1);
    }
    if k < |s| && k < |t| {
      assert s[..k + 1] == s[..k] + [s[k]] && t[..k + 1] == t[..k] + [t[k]];
      RingUnique(head, s, t, k + 1);
    } else {
      assert s[..k] == s && t[..k] == t;
    }
  }

  /** The ring of h shares no node with the ring of head. */
  ghost predicate Apart(h: Node, t: seq<Node>, head: Node, s: seq<Node>) {
    h != head && h !in s && head !in t && forall i, j :: 0 <= i < |t| && 0 <= j < |s| ==> t[i] != s[j]
  }

  method HeadInit(head: Node)
    modifies head
    ensures Ring(head, [])
  {
    head.next := head;
    head.prev := head;
  }

  method IsEmpty(head: Node, ghost s: seq<Node>) returns (b: bool)
    requires Ring(head, s)
    ensures b <==> s == []
  {
    b := head.next == head;
  }

  method InsertHead(entry: Node, head: Node, ghost s: seq<Node>)
    requires Ring(head, s) && entry != head && entry !in s
    modifies entry, head, head.next
    ensures Ring(head, [entry] + s)
  {
    entry.next := head.next;
    entry.prev := head;
    head.next.prev := entry;
    head.next := entry;
  }

  method InsertTail(entry: Node, head: Node, ghost s: seq<Node>)
    requires Ring(head, s) && entry != head && entry !in s
    modifies entry, head, head.prev
    ensures Ring(head, s + [entry])
  {
    entry.next := head;
    entry.prev := head.prev;
    head.prev.next := entry;
    head.prev := entry;
  }

  method Remove(entry: Node, ghost head: Node, ghost s: seq<Node>, ghost k: nat)
    requires Ring(head, s) && k < |s| && s[k] == entry
    modifies entry, entry.next, entry.prev
    ensures Ring(head, s[..k] + s[k + 1..])
    ensures entry.next == null && entry.prev == null
  {
    entry.prev.next := entry.next;
    entry.next.prev := entry.prev;
    entry.prev := null;
    entry.next := null;
    assert forall i :: 0 <= i < |s| && i != k ==> s[i] != entry;
    forall i | 0 <= i < |s| && i != k
      ensures s[i].next == (if i + 1 == k then After(head, s, k) else After(head, s, i))
      ensures s[i].prev == (if i == k + 1 then Before(head, s, k) else Before(head, s, i))
    {
      assert old(s[i].next) == After(head, s, i) && old(s[i].prev) == Before(head, s, i);
    }
    Removed(head, s, k);
  }

  lemma {:induction false} Removed(head: Node, s: seq<Node>, k: nat)
    requires k < |s| && head !in s
    requires forall i, j :: 0 <= i < j < |s| ==> s[i] != s[j]
    requires head.next == if k == 0 then After(head, s, 0) else s[0]
    requires head.prev == if k == |s| - 1 then Before(head, s, k) else s[|s| - 1]
    requires forall i {:trigger s[i].next} :: 0 <= i < |s| && i != k ==>
               s[i].next == if i + 1 == k then After(head, s, k) else After(head, s, i)
    requires forall i {:trigger s[i].prev} :: 0 <= i < |s| && i != k ==>
               s[i].prev == if i == k + 1 then Before(head, s, k) else Before(head, s, i)
    ensures Ring(head, s[..k] + s[k + 1..])
  {
    var r := s[..k] + s[k + 1..];
    forall i | 0 <= i < |r|
      ensures r[i].next == After(head, r, i) && r[i].prev == Before(head, r, i)
    {
      var j := if i < k then i else i + 1;
      assert r[i] == s[j];
      assert s[j].next == if j + 1 == k then After(head, s, k) else After(head, s, j);
      assert s[j].prev == if j == k + 1 then Before(head, s, k) else Before(head, s, j);
    }
    DistinctWithout(s, k);
  }

  lemma {:induction false} DistinctWithout(s: seq<Node>, k: nat)
    requires k < |s| && forall i, j :: 0 <= i < j < |s| ==> s[i] != s[j]
    ensures var r := s[..k] + s[k + 1..]; forall i, j :: 0 <= i < j < |r| ==> r[i] != r[j]
  {
    var r := s[..k] + s[k + 1..];
    forall i, j | 0 <= i < j < |r| ensures r[i] != r[j] {
      assert r[i] == s[if i < k then i else i + 1] && r[j] == s[if j < k then j else j + 1];
    }
  }

  method Merge(list: Node, head: Node, ghost ls: seq<Node>, ghost hs: seq<Node>)
    requires Ring(list, ls) && Ring(head, hs)
    requires Apart(list, ls, head, hs)
    modifies list, head, list.next, list.prev, head.next
    ensures Ring(head, ls + hs) <==> ls != []
    ensures Ring(list, [])
    ensures ls == [] ==> forall t :: !Ring(head, t)
  {
    list.next.prev := head;
    list.prev.next := head.next;
    head.next.prev := list.prev;
    head.next := list.next;
    HeadInit(list);
    if ls != [] {
      Merged(head, ls, hs);
    } else {
      forall t: seq<Node> ensures !Ring(head, t) {
        NoRingThrough(head, list, t);
      }
      assert ls + hs == hs;
    }
  }

  /** A head that leads to a node pointing to itself is the head of no ring. */
  lemma {:induction false} NoRingThrough(head: Node, n: Node, t: seq<Node>)
    requires head.next == n && n != head && n.next == n
    ensures !Ring(head, t)
  {
    if 0 < |t| && t[0].next == After(head, t, 0) {
    }
  }

  lemma {:induction false} Merged(head: Node, ls: seq<Node>, hs: seq<Node>)
    requires ls != [] && head !in ls + hs
    requires forall i, j :: 0 <= i < j < |ls| ==> ls[i] != ls[j]
    requires forall i, j :: 0 <= i < j < |hs| ==> hs[i] != hs[j]
    requires forall i, j :: 0 <= i < |ls| && 0 <= j < |hs| ==> ls[i] != hs[j]
    requires head.next == ls[0] && head.prev == Before(head, ls + hs, |ls + hs|)
    requires forall i {:trigger ls[i].next} :: 0 <= i < |ls| ==> ls[i].next == After(head, ls + hs, i)
    requires forall i {:trigger ls[i].prev} :: 0 <= i < |ls| ==> ls[i].prev == Before(head, ls + hs, i)
    requires forall i {:trigger hs[i].next} :: 0 <= i < |hs| ==> hs[i].next == After(head, ls + hs, |ls| + i)
    requires forall i {:trigger hs[i].prev} :: 0 <= i < |hs| ==> hs[i].prev == Before(head, ls + hs, |ls| + i)
    ensures Ring(head, ls + hs)
  {
    var r := ls + hs;
    forall i | 0 <= i < |r| ensures r[i].next == After(head, r, i) && r[i].prev == Before(head, r, i) {
      if i >= |ls| {
        assert r[i] == hs[i - |ls|];
      }
    }
  }

  /**
    Removing a node from one ring and appending it to another, as the queues do:
    both rings change as sequences do and a third ring is untouched.
   */
  method Move(entry: Node, ghost a: Node, ghost s: seq<Node>, ghost k: nat, b: Node, ghost t: seq<Node>,
              ghost c: Node, ghost u: seq<Node>)
    requires Ring(a, s) && Ring(b, t) && Ring(c, u) && k < |s| && s[k] == entry
    requires Apart(a, s, b, t) && Apart(a, s, c, u) && Apart(b, t, c, u)
    modifies entry, entry.next, entry.prev, b, b.prev
    ensures Ring(a, s[..k] + s[k + 1..]) && Ring(b, t + [entry]) && Ring(c, u)
  {
    assert s[k].next == After(a, s, k) && s[k].prev == Before(a, s, k);
    Remove(entry, a, s, k);
    InsertTail(entry, b, t);
  }

  method GetCount(head: Node, ghost s: seq<Node>) returns (count: nat)
    requires Ring(head, s)
    ensures count == |s|
  {
    var next := head.next;
    count := 0;
    while next != head
      invariant count <= |s| && next == if count < |s| then s[count] else head
      decreases |s| - count
    {
      assert s[count].next == After(head, s, count);
      next := next.next;
      count := count + 1;
    }
  }
}
