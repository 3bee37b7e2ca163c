/**
  The intrusive singly linked list of utils/src/hdf_slist.c on heap nodes.

  A list header is itself a node: the C code casts `struct HdfSList *` to
  `struct HdfSListNode *`, so that the header's root is the header's `next`.
  A list with header `head` holds the nodes `s` when `IsList(head, s)`.
 */
module SList {
  import opened Seqs

  class Node<T> {
    const data: T
    var next: Node?<T>

    constructor (data: T)
      ensures this.data == data && next == null
    {
      this.data := data;
      next := null;
    }
  }

  /** The i-th node of s, or null past the end. */
  ghost function At<T>(s: seq<Node<T>>, i: nat): Node?<T> {
    if i < |s| then s[i] else null
  }

  ghost predicate IsList<T>(head: Node<T>, s: seq<Node<T>>)
    reads head, s
  {
    && head !in s
    && (forall i, j :: 0 <= i < j < |s| ==> s[i] != s[j])
    && head.next == At(s, 0)
    && (forall i {:trigger s[i].next} :: 0 <= i < |s| ==> s[i].next == At(s, i + 1))
  }

  /** The heap determines the node sequence of a list. */
  lemma {:induction false} IsListUnique<T>(head: Node<T>, s: seq<Node<T>>, t: seq<Node<T>>, k: nat)
    requires IsList(head, s) && IsList(head, t)
    requires k <= |s| && k <= |t| && s[..k] == t[..k]
    ensures s == t
    decreases |s| - k
  {
    assert At(s, k) == At(t, k) by {
      if k > 0 {
        assert s[k - 1] == s[..k][k - 1] == t[..k][k - 1] == t[k - 1];
        assert s[k - 1].next == At(s, k) && t[k - 1].next == At(t, k);
      }
    }
    if k < |s| {
      assert s[..k + 1] == s[..k] + [s[k]] && t[..k + 1] == t[..k] + [t[k]];
      IsListUnique(head, s, t, k + 1);
    } else {
      assert s[..k] == s && t[..k] == t;
    }
  }

  /** A list but for the link of the node before position k. */
  ghost predicate IsListButFor<T>(head: Node<T>, s: seq<Node<T>>, k: nat)
    reads head, s
  {
    && head !in s
    && (forall i, j :: 0 <= i < j < |s| ==> s[i] != s[j])
    && (k != 0 ==> head.next == At(s, 0))
    && (forall i {:trigger s[i].next} :: 0 <= i < |s| && i + 1 != k ==> s[i].next == At(s, i + 1))
  }

  /** Linking `link` behind `prev`, the node before position k, inserts it at k. */
  lemma {:induction false} Linked<T>(head: Node<T>, link: Node<T>, prev: Node<T>, s: seq<Node<T>>, k: nat)
    requires IsListButFor(head, s, k) && link !in s && link != head
    requires k <= |s| && prev == if k == 0 then head else s[k - 1]
    requires prev.next == link && link.next == At(s, k)
    ensures IsList(head, InsertAt(s, k, link))
  {
    var r := InsertAt(s, k, link);
    forall i {:trigger r[i].next} | 0 <= i < |r| ensures r[i].next == At(r, i + 1) {
      if i < k {
        assert r[i] == s[i];
      } else if i > k {
        assert r[i] == s[i - 1];
      }
    }
  }

  /** Pointing `prev`, the node before position k, past the k-th node takes that node out. */
  lemma {:induction false} Unlinked<T>(head: Node<T>, prev: Node<T>, s: seq<Node<T>>, k: nat)
    requires IsListButFor(head, s, k) && k < |s|
    requires prev == if k == 0 then head else s[k - 1]
    requires prev.next == At(s, k + 1)
    ensures IsList(head, Without(s, k))
  {
    var r := Without(s, k);
    forall i, j | 0 <= i < j < |r| ensures r[i] != r[j] {
      assert r[i] == s[if i < k then i else i + 1] && r[j] == s[if j < k then j else j + 1];
    }
    forall i {:trigger r[i].next} | 0 <= i < |r| ensures r[i].next == At(r, i + 1) {
      if i < k {
        assert r[i] == s[i];
      } else {
        assert r[i] == s[i + 1];
      }
    }
  }

  /** Changing the link of the node before position k, and nothing else. */
  method Redirect<T>(prev: Node<T>, to: Node?<T>, ghost head: Node<T>, ghost s: seq<Node<T>>, ghost k: nat)
    requires IsList(head, s) && k <= |s| && prev == if k == 0 then head else s[k - 1]
    modifies prev
    ensures prev.next == to && IsListButFor(head, s, k)
    ensures to == At(s, k) ==> IsList(head, s)
  {
    prev.next := to;
  }

  method Add<T>(head: Node<T>, link: Node<T>, ghost s: seq<Node<T>>)
    requires IsList(head, s) && link !in s && link != head
    modifies head`next, link`next
    ensures IsList(head, [link] + s)
  {
    link.next := head.next;
    head.next := link;
    Linked(head, link, head, s, 0);
    assert InsertAt(s, 0, link) == [link] + s;
  }

  /** Appends the node unless it is already listed, in which case nothing changes. */
  method AddTail<T>(head: Node<T>, link: Node<T>, ghost s: seq<Node<T>>)
    requires IsList(head, s) && link != head
    modifies head, link, s
    ensures link in s ==> IsList(head, s) && forall n :: n in s ==> n.next == old(n.next)
    ensures link !in s ==> IsList(head, s + [link])
  {
    var p := head;
    ghost var k := 0;
    while p.next != null
      invariant 0 <= k <= |s|
      invariant p == if k == 0 then head else s[k - 1]
      invariant p.next == At(s, k)
      invariant link !in s[..k]
      invariant IsList(head, s)
      invariant forall n :: n in s ==> n.next == old(n.next)
      decreases |s| - k
    {
      if p.next == link {
        return;
      }
      assert s[k].next == At(s, k + 1);
      assert s[..k + 1] == s[..k] + [s[k]];
      p := p.next;
      k := k + 1;
    }
    assert s[..k] == s;
    link.next := null;
    p.next := link;
    Linked(head, link, p, s, |s|);
    assert InsertAt(s, |s|, link) == s + [link];
  }

  /** Removes the node wherever it is; the removed node keeps its own link. */
  method Remove<T>(head: Node<T>, link: Node<T>, ghost s: seq<Node<T>>, ghost at: nat)
    requires IsList(head, s) && link != head
    requires link in s ==> at < |s| && s[at] == link
    modifies head, s
    ensures link in s ==> IsList(head, Without(s, at)) && link.next == old(link.next) == At(s, at + 1)
    ensures link !in s ==> IsList(head, s) && forall n :: n in s ==> n.next == old(n.next)
  {
    var p: Node?<T> := head;
    ghost var k := 0;
    while p != null
      invariant 0 <= k <= |s| + 1
      invariant p == if k == 0 then head else At(s, k - 1)
      invariant k <= |s| ==> p != null && p.next == At(s, k)
      invariant link !in s[..if k <= |s| then k else |s|]
      invariant IsList(head, s)
      invariant forall n :: n in s ==> n.next == old(n.next)
      decreases |s| + 1 - k
    {
      if p.next == link {
        assert s[k] == link && k == at;
        p.next := link.next;
        Unlinked(head, p, s, k);
        return;
      }
      if k < |s| {
        assert s[k].next == At(s, k + 1);
        assert s[..k + 1] == s[..k] + [s[k]];
      }
      p := p.next;
      k := k + 1;
    }
    assert s[..|s|] == s;
  }

  method Count<T>(head: Node<T>, ghost s: seq<Node<T>>) returns (n: nat)
    requires IsList(head, s)
    ensures n == |s|
  {
    var p: Node<T> := head;
    n := 0;
    while p.next != null
      invariant n <= |s| && p.next == At(s, n)
      decreases |s| - n
    {
      assert s[n].next == At(s, n + 1);
      p := p.next;
      n := n + 1;
    }
  }

  // ---------------------------------------------------------------- ordered insertion

  ghost function DataOf<T>(s: seq<Node<T>>): (d: seq<T>)
    ensures |d| == |s| && forall i :: 0 <= i < |s| ==> d[i] == s[i].data
  {
    seq(|s|, i requires 0 <= i < |s| => s[i].data)
  }

  ghost predicate TotalPreorderOn<T>(le: (T, T) -> bool, d: seq<T>) {
    && (forall i, j :: 0 <= i < |d| && 0 <= j < |d| ==> le(d[i], d[j]) || le(d[j], d[i]))
    && (forall i, j, k :: 0 <= i < |d| && 0 <= j < |d| && 0 <= k < |d| && le(d[i], d[j]) && le(d[j], d[k])
          ==> le(d[i], d[k]))
  }

  ghost predicate SortedBy<T>(le: (T, T) -> bool, d: seq<T>) {
    forall i, j :: 0 <= i < j < |d| ==> le(d[i], d[j])
  }

  /** k is the position of the first element of d that is not smaller than x. */
  ghost predicate FirstNotSmaller<T>(le: (T, T) -> bool, d: seq<T>, x: T, k: nat) {
    && k <= |d|
    && (forall i :: 0 <= i < k ==> !le(x, d[i]))
    && (k < |d| ==> le(x, d[k]))
  }

  lemma {:induction false} InsertKeepsSorted<T>(le: (T, T) -> bool, d: seq<T>, x: T, k: nat)
    requires SortedBy(le, d) && TotalPreorderOn(le, d + [x]) && FirstNotSmaller(le, d, x, k)
    ensures SortedBy(le, InsertAt(d, k, x))
  {
    var e := d + [x];
    var r := InsertAt(d, k, x);
    forall i, j | 0 <= i < j < |r| ensures le(r[i], r[j]) {
      if i == k {
        assert e[|d|] == x && e[k] == d[k] && e[j - 1] == d[j - 1];
        if j - 1 > k {
          assert le(e[|d|], e[k]) && le(e[k], e[j - 1]);
        }
      } else if j == k {
        assert e[|d|] == x && e[i] == d[i];
        assert le(e[i], e[|d|]);
      }
    }
  }

  /**
    HdfSListAddOrder. The loop tests both neighbours; on a sorted list under a
    total preorder that finds exactly the first element not smaller than the new one.
   */
  method AddOrder<T>(head: Node<T>, link: Node<T>, le: (T, T) -> bool, ghost s: seq<Node<T>>)
    returns (ok: bool, ghost k: nat)
    requires IsList(head, s) && link != head
    modifies head, link, s
    ensures ok <==> link !in s
    ensures !ok ==> IsList(head, s)
    ensures ok ==> k <= |s| && IsList(head, InsertAt(s, k, link))
    ensures ok && SortedBy(le, DataOf(s)) && TotalPreorderOn(le, DataOf(s) + [link.data])
            ==> FirstNotSmaller(le, DataOf(s), link.data, k)
  {
    k := 0;
    var p := head.next;
    while p != null
      invariant k <= |s| && p == At(s, k)
      invariant link !in s[..k]
      invariant IsList(head, s)
      decreases |s| - k
    {
      if p == link {
        ok := false;
        return;
      }
      assert s[k].next == At(s, k + 1);
      assert s[..k + 1] == s[..k] + [s[k]];
      p := p.next;
      k := k + 1;
    }
    assert s[..k] == s;
    ok := true;
    if head.next == null || le(link.data, head.next.data) {
      link.next := head.next;
      head.next := link;
      Linked(head, link, head, s, 0);
      k := 0;
      return;
    }
    ghost var d := DataOf(s);
    var q := head.next;
    k := 1;
    while q.next != null
      invariant 1 <= k <= |s| && q == s[k - 1] && q.next == At(s, k)
      invariant IsList(head, s)
      invariant !le(link.data, d[0])
      invariant forall i :: 1 <= i < k ==> !(le(d[i - 1], link.data) && le(link.data, d[i]))
      decreases |s| - k
    {
      if le(q.data, link.data) && le(link.data, q.next.data) {
        break;
      }
      assert s[k].next == At(s, k + 1);
      q := q.next;
      k := k + 1;
    }
    link.next := q.next;
    q.next := link;
    Linked(head, link, q, s, k);
    if SortedBy(le, d) && TotalPreorderOn(le, d + [link.data]) {
      SkippedAreSmaller(le, d, link.data, k);
    }
  }

  /** What the neighbour test of AddOrder skips is smaller than the new element. */
  lemma {:induction false} SkippedAreSmaller<T>(le: (T, T) -> bool, d: seq<T>, x: T, k: nat)
    requires 1 <= k <= |d| && TotalPreorderOn(le, d + [x])
    requires !le(x, d[0])
    requires forall i :: 1 <= i < k ==> !(le(d[i - 1], x) && le(x, d[i]))
    ensures forall i :: 0 <= i < k ==> !le(x, d[i])
  {
    if k > 1 {
      SkippedAreSmaller(le, d, x, k - 1);
      var e := d + [x];
      assert e[|d|] == x && e[k - 2] == d[k - 2];
      assert le(e[k - 2], e[|d|]) || le(e[|d|], e[k - 2]);
    }
  }

  // ---------------------------------------------------------------- iterator

  /** What the iterator knows of the node it returned last. */
  datatype Current<T> =
    | Fresh            // nothing returned since the start or the last removal
    | Live(node: T)    // returned and still listed
    | Gone(node: T)    // returned, then taken out by HdfSListRemove

  /**
    The abstract position of an iterator: the nodes behind it, the node it
    returned last, and the nodes it has still to return.
   */
  datatype Cursor<T> = Cursor(passed: seq<T>, current: Current<T>, rest: seq<T>) {
    function Listed(): (s: seq<T>) {
      if current.Live? then [current.node] else []
    }

    /** The list the cursor stands in. */
    function Contents(): (s: seq<T>) {
      passed + Listed() + rest
    }

    /** HdfSListIteratorNext, lines 226-245. */
    function Next(): (c: Cursor<T>) {
      if rest == [] then Cursor(passed + Listed(), Fresh, [])
      else Cursor(passed + Listed(), Live(rest[0]), rest[1..])
    }

    /** HdfSListIteratorRemove, lines 247-256. Without a node returned it drops the next one. */
    function Remove(): (c: Cursor<T>) {
      if current.Fresh? && rest != [] then Cursor(passed, Fresh, rest[1..])
      else Cursor(passed, Fresh, rest)
    }

    /** HdfSListIteratorInsert, lines 258-267. A node taken out by HdfSListRemove comes back. */
    function Insert(x: T): (c: Cursor<T>) {
      Cursor(passed + [x], if current.Gone? then Live(current.node) else current, rest)
    }

    /** HdfSListRemove applied to the node returned last. */
    function RemoveCurrent(): (c: Cursor<T>) {
      if current.Live? then Cursor(passed, Gone(current.node), rest) else this
    }
  }

  function Start<T>(s: seq<T>): (c: Cursor<T>) {
    Cursor([], Fresh, s)
  }

  lemma InsertedContents<T>(c: Cursor<T>, x: T)
    ensures c.Insert(x).Contents() ==
            if c.current.Gone? then InsertAt(InsertAt(c.Contents(), |c.passed|, c.current.node), |c.passed|, x)
            else InsertAt(c.Contents(), |c.passed|, x)
  {
  }

  lemma RemovedContents<T>(c: Cursor<T>)
    ensures c.Remove().Contents() ==
            if c.current.Gone? || (c.current.Fresh? && c.rest == []) then c.Contents()
            else Without(c.Contents(), |c.passed|)
  {
  }

  class Iterator<T> {
    var prev: Node<T>
    var curr: Node?<T>
    var stepOnNext: bool

    /** HdfSListIteratorInit. */
    constructor (head: Node<T>, ghost s: seq<Node<T>>)
      requires IsList(head, s)
      ensures StandsAt(head, Start(s))
    {
      prev := head;
      curr := head.next;
      stepOnNext := false;
      new;
      assert Start(s).Contents() == s;
    }

    ghost predicate StandsAt(head: Node<T>, c: Cursor<Node<T>>)
      reads this, head, c.Contents(), if c.current.Gone? then {c.current.node} else {}
    {
      && IsList(head, c.Contents())
      && prev == (if c.passed == [] then head else c.passed[|c.passed| - 1])
      && match c.current
         case Fresh => curr == At(c.rest, 0) && (c.rest != [] ==> !stepOnNext)
         case Live(n) => curr == n && stepOnNext
         case Gone(n) => curr == n && stepOnNext && n !in c.Contents() && n != head && n.next == At(c.rest, 0)
    }

    lemma {:induction false} Links(head: Node<T>, c: Cursor<Node<T>>)
      requires StandsAt(head, c)
      ensures prev.next == if c.current.Live? then c.current.node else At(c.rest, 0)
      ensures c.current.Live? ==> c.current.node.next == At(c.rest, 0)
      ensures c.current.Fresh? && c.rest != [] ==> c.rest[0].next == At(c.rest, 1)
    {
      var s, k := c.Contents(), |c.passed|;
      if k > 0 {
        assert s[k - 1] == prev;
        assert s[k - 1].next == At(s, k);
      }
      if c.current.Fresh? && c.rest != [] {
        assert s[k] == c.rest[0] && s[k].next == At(s, k + 1);
      }
      if c.current.Live? {
        assert s[k] == c.current.node;
        assert s[k].next == At(s, k + 1);
      }
    }

    lemma ListOf(head: Node<T>, c: Cursor<Node<T>>)
      requires StandsAt(head, c)
      ensures IsList(head, c.Contents())
    {
    }

    method HasNext(ghost head: Node<T>, ghost c: Cursor<Node<T>>) returns (b: bool)
      requires StandsAt(head, c)
      ensures StandsAt(head, c)
      ensures b <==> c.rest != []
    {
      hide IsList;
      Links(head, c);
      if curr == null {
        return false;
      }
      if !stepOnNext {
        return curr != null;
      }
      if prev.next != curr {
        // the current node has been removed
        return prev.next != null;
      }
      return curr.next != null;
    }

    method Next(ghost head: Node<T>, ghost c: Cursor<Node<T>>) returns (r: Node?<T>)
      requires StandsAt(head, c)
      modifies this
      ensures StandsAt(head, c.Next())
      ensures r == At(c.rest, 0)
    {
      hide IsList;
      Links(head, c);
      assert c.rest != [] ==> c.rest == [c.rest[0]] + c.rest[1..];
      assert c.Next().Contents() == c.Contents();
      if curr == null {
        return null;
      }
      if stepOnNext {
        if prev.next == curr {
          prev := curr;
          curr := curr.next;
        } else {
          curr := prev.next;
        }
      } else {
        stepOnNext := true;
      }
      return curr;
    }

    method Remove(ghost head: Node<T>, ghost c: Cursor<Node<T>>)
      requires StandsAt(head, c)
      modifies this, prev
      ensures StandsAt(head, c.Remove())
    {
      hide IsList, IsListButFor, Without;
      Links(head, c);
      RemovedContents(c);
      if curr == null {
        return;
      }
      ghost var s, k := c.Contents(), |c.passed|;
      assert c.current.Gone? || curr.next == At(s, k + 1);
      curr := curr.next;
      Redirect(prev, curr, head, s, k);
      stepOnNext := false;
      if !c.current.Gone? {
        Unlinked(head, prev, s, k);
      }
    }

    method Insert(ghost head: Node<T>, link: Node<T>, ghost c: Cursor<Node<T>>)
      requires StandsAt(head, c) && link !in c.Contents() && link != head
      requires c.current.Gone? ==> link != c.current.node
      modifies this, prev, link
      ensures StandsAt(head, c.Insert(link))
    {
      hide IsList, IsListButFor, InsertAt;
      Links(head, c);
      InsertedContents(c, link);
      ghost var s, k, d := c.Contents(), |c.passed|, c.Insert(link);
      link.next := curr;
      Redirect(prev, link, head, s, k);
      if c.current.Gone? {
        Relinked(head, link, prev, c.current.node, s, k);
      } else {
        Linked(head, link, prev, s, k);
      }
      prev := link;
      assert d.passed[|d.passed| - 1] == link && d.rest == c.rest;
    }
  }

  /** A node that was taken out but kept its link is back in the list but for the link that leads to it. */
  lemma {:induction false} GoneBack<T>(head: Node<T>, gone: Node<T>, s: seq<Node<T>>, k: nat)
    requires IsListButFor(head, s, k) && gone !in s && gone != head
    requires k <= |s| && gone.next == At(s, k)
    ensures IsListButFor(head, InsertAt(s, k, gone), k)
  {
    var r := InsertAt(s, k, gone);
    forall i, j | 0 <= i < j < |r| ensures r[i] != r[j] {
      assert r[i] == (if i < k then s[i] else if i == k then gone else s[i - 1]);
      assert r[j] == (if j < k then s[j] else if j == k then gone else s[j - 1]);
    }
    forall i {:trigger r[i].next} | 0 <= i < |r| && i + 1 != k ensures r[i].next == At(r, i + 1) {
      if i < k {
        assert r[i] == s[i];
      } else if i > k {
        assert r[i] == s[i - 1];
      }
    }
  }

  /** Linking in front of a node that was taken out but kept its link puts both back. */
  lemma {:induction false} Relinked<T>(head: Node<T>, link: Node<T>, prev: Node<T>, gone: Node<T>, s: seq<Node<T>>, k: nat)
    requires IsListButFor(head, s, k)
    requires link !in s && link != head && gone !in s && gone != head && gone != link
    requires k <= |s| && prev == if k == 0 then head else s[k - 1]
    requires prev.next == link && link.next == gone && gone.next == At(s, k)
    ensures IsList(head, InsertAt(InsertAt(s, k, gone), k, link))
  {
    hide IsList, IsListButFor;
    GoneBack(head, gone, s, k);
    Linked(head, link, prev, InsertAt(s, k, gone), k);
  }

  // ---------------------------------------------------------------- reading a list

  /** The position an iterator has reached in a list it does not change. */
  ghost function Visiting<T>(s: seq<T>, n: nat): Cursor<T>
    requires n <= |s|
  {
    if n == 0 then Start(s) else Cursor(s[..n - 1], Live(s[n - 1]), s[n..])
  }

  lemma {:induction false} VisitNext<T>(s: seq<T>, n: nat)
    requires n < |s|
    ensures Visiting(s, n).Next() == Visiting(s, n + 1) && Visiting(s, n).rest == s[n..]
  {
    if n > 0 {
      assert s[..n] == s[..n - 1] + [s[n - 1]];
    }
    assert s[n..][1..] == s[n + 1..];
  }

  lemma {:induction false} VisitingContents<T>(s: seq<T>, n: nat)
    requires n <= |s|
    ensures Visiting(s, n).Contents() == s && Visiting(s, n).rest == s[n..]
  {
    if n > 0 {
      assert s == s[..n - 1] + [s[n - 1]] + s[n..];
    }
  }

  /** The iterator has returned the first n nodes of the unchanged list s. */
  ghost predicate Reading<T>(it: Iterator<T>, head: Node<T>, s: seq<Node<T>>, n: nat)
    reads it, head, s
  {
    n <= |s| && (VisitingContents(s, n); it.StandsAt(head, Visiting(s, n)))
  }

  lemma StartReading<T>(it: Iterator<T>, head: Node<T>, s: seq<Node<T>>)
    requires it.StandsAt(head, Start(s))
    ensures Reading(it, head, s, 0)
  {
  }

  /** Moving an iterator on by one node. */
  method Advance<T>(it: Iterator<T>, ghost head: Node<T>, ghost s: seq<Node<T>>, ghost n: nat)
    returns (next: Node<T>, more: bool)
    requires n < |s| && Reading(it, head, s, n)
    modifies it
    ensures Reading(it, head, s, n + 1) && next == s[n] && (more <==> n + 1 < |s|)
  {
    VisitNext(s, n);
    next := it.Next(head, Visiting(s, n));
    more := More(it, head, s, n + 1);
  }

  method More<T>(it: Iterator<T>, ghost head: Node<T>, ghost s: seq<Node<T>>, ghost n: nat)
    returns (more: bool)
    requires Reading(it, head, s, n)
    ensures more <==> n < |s|
  {
    VisitingContents(s, n);
    more := it.HasNext(head, Visiting(s, n));
  }

  // ---------------------------------------------------------------- flushing

  /** HdfSListFlush: the sequence of nodes handed to the deleter. */
  method Flush<T>(head: Node<T>, ghost s: seq<Node<T>>) returns (deleted: seq<Node<T>>)
    requires IsList(head, s)
    modifies head, s
    ensures IsList(head, [])
    ensures deleted == s
  {
    hide IsList, Iterator.StandsAt;
    var it := new Iterator(head, s);
    ghost var n := 0;
    deleted := [];
    var more := it.HasNext(head, Start(s));
    while more
      invariant n <= |s| && it.StandsAt(head, Start(s[n..]))
      invariant fresh(it) && deleted == s[..n]
      invariant more <==> n < |s|
      decreases |s| - n
    {
      var node := TakeFirst(it, head, s[n..]);
      assert s[n..][1..] == s[n + 1..] && s[..n + 1] == s[..n] + [s[n]];
      deleted := deleted + [node];
      n := n + 1;
      more := it.HasNext(head, Start(s[n..]));
    }
    it.ListOf(head, Start(s[n..]));
  }

  /** One turn of the loop of HdfSListFlush. */
  method TakeFirst<T>(it: Iterator<T>, head: Node<T>, ghost r: seq<Node<T>>) returns (node: Node<T>)
    requires it.StandsAt(head, Start(r)) && r != []
    modifies it, head
    ensures it.StandsAt(head, Start(r[1..])) && node == r[0]
  {
    ghost var c := Start(r);
    node := it.Next(head, c);
    assert c.Next() == Cursor([], Live(r[0]), r[1..]);
    it.Remove(head, c.Next());
    assert c.Next().Remove() == Start(r[1..]);
  }

  // ---------------------------------------------------------------- whole runs of an iterator

  datatype Op<T> =
    | DoNext
    | DoInsert(node: T)
    | DoRemove          // HdfSListIteratorRemove
    | DoRemoveCurrent   // HdfSListRemove of the node returned last

  /** A node the iterator returned, and whether the caller took it out. */
  datatype Visit<T> = Visit(node: T, removed: bool)

  /** A run so far: the cursor, the nodes returned and the nodes inserted. */
  datatype Trace<T> = Trace(cursor: Cursor<T>, visits: seq<Visit<T>>, inserted: seq<T>)

  ghost function MarkLast<T>(visits: seq<Visit<T>>): seq<Visit<T>> {
    if visits == [] then [] else visits[|visits| - 1 := visits[|visits| - 1].(removed := true)]
  }

  ghost function Step<T>(t: Trace<T>, op: Op<T>): Trace<T> {
    var c := t.cursor;
    match op
    case DoNext =>
      t.(cursor := c.Next(), visits := t.visits + if c.rest == [] then [] else [Visit(c.rest[0], false)])
    case DoInsert(x) => t.(cursor := c.Insert(x), inserted := t.inserted + [x])
    case DoRemove => t.(cursor := c.Remove(), visits := MarkLast(t.visits))
    case DoRemoveCurrent => t.(cursor := c.RemoveCurrent(), visits := MarkLast(t.visits))
  }

  ghost function Run<T>(s: seq<T>, ops: seq<Op<T>>): Trace<T> {
    if ops == [] then Trace(Start(s), [], [])
    else Step(Run(s, ops[..|ops| - 1]), ops[|ops| - 1])
  }

  /**
    The discipline of the callers: a node is removed only after Next returned it,
    nodes inserted are not among the originals, and nothing is inserted between
    HdfSListRemove of the current node and the following Next.
   */
  ghost predicate Allowed<T>(s: seq<T>, c: Cursor<T>, op: Op<T>) {
    match op
    case DoNext => true
    case DoInsert(x) => x !in s && !c.current.Gone?
    case DoRemove => !c.current.Fresh?
    case DoRemoveCurrent => c.current.Live?
  }

  ghost predicate Disciplined<T>(s: seq<T>, ops: seq<Op<T>>) {
    ops == [] ||
    (Disciplined(s, ops[..|ops| - 1]) && Allowed(s, Run(s, ops[..|ops| - 1]).cursor, ops[|ops| - 1]))
  }

  /** The nodes returned, in order. */
  ghost function Returned<T>(visits: seq<Visit<T>>): seq<T> {
    seq(|visits|, i requires 0 <= i < |visits| => visits[i].node)
  }

  /** The nodes returned and not taken out, in order. */
  ghost function Survivors<T>(visits: seq<Visit<T>>): seq<T> {
    if visits == [] then []
    else Survivors(visits[..|visits| - 1]) + if visits[|visits| - 1].removed then [] else [visits[|visits| - 1].node]
  }

  /** The elements of r that occur in s, in order. */
  ghost function Restrict<T>(r: seq<T>, s: seq<T>): seq<T> {
    if r == [] then [] else Restrict(r[..|r| - 1], s) + if r[|r| - 1] in s then [r[|r| - 1]] else []
  }

  lemma {:induction false} RestrictConcat<T>(r: seq<T>, q: seq<T>, s: seq<T>)
    ensures Restrict(r + q, s) == Restrict(r, s) + Restrict(q, s)
  {
    if q == [] {
      assert r + q == r;
    } else {
      var n := |q| - 1;
      assert (r + q)[..|r + q| - 1] == r + q[..n];
      RestrictConcat(r, q[..n], s);
    }
  }

  lemma {:induction false} RestrictAll<T>(r: seq<T>, s: seq<T>)
    requires forall x :: x in r ==> x in s
    ensures Restrict(r, s) == r
  {
    if r != [] {
      RestrictAll(r[..|r| - 1], s);
      assert r == r[..|r| - 1] + [r[|r| - 1]];
    }
  }

  lemma {:induction false} RestrictSnoc<T>(r: seq<T>, x: T, s: seq<T>)
    ensures Restrict(r + [x], s) == Restrict(r, s) + if x in s then [x] else []
  {
    assert (r + [x])[..|r|] == r;
  }

  lemma {:induction false} RestrictInsert<T>(r: seq<T>, x: T, q: seq<T>, s: seq<T>)
    requires x !in s
    ensures Restrict(r + [x] + q, s) == Restrict(r + q, s)
  {
    RestrictConcat(r, q, s);
    RestrictConcat(r + [x], q, s);
    RestrictSnoc(r, x, s);
  }

  lemma {:induction false} SurvivorsSnoc<T>(visits: seq<Visit<T>>, x: T)
    ensures Survivors(visits + [Visit(x, false)]) == Survivors(visits) + [x]
  {
    assert (visits + [Visit(x, false)])[..|visits|] == visits;
  }

  lemma {:induction false} SurvivorsMarked<T>(visits: seq<Visit<T>>)
    requires visits != [] && !visits[|visits| - 1].removed
    ensures Survivors(visits) == Survivors(MarkLast(visits)) + [visits[|visits| - 1].node]
  {
    assert MarkLast(visits)[..|visits| - 1] == visits[..|visits| - 1];
  }

  /** The part of the list the iterator has passed, its current node included. */
  ghost function Front<T>(c: Cursor<T>): seq<T> {
    c.passed + c.Listed()
  }

  /** The nodes returned so far and those to come are the originals. */
  ghost predicate PathInvariant<T>(s: seq<T>, t: Trace<T>) {
    var c, m := t.cursor, |t.visits| - 1;
    && Returned(t.visits) + c.rest == s
    && (c.current.Live? ==> m >= 0 && t.visits[m] == Visit(c.current.node, false))
    && (c.current.Gone? ==> m >= 0 && t.visits[m] == Visit(c.current.node, true))
  }

  /** The list behind the iterator holds the survivors in order and the inserted nodes. */
  ghost predicate FrontInvariant<T>(s: seq<T>, t: Trace<T>) {
    && (forall x :: x in t.inserted ==> x !in s)
    && Restrict(Front(t.cursor), s) == Survivors(t.visits)
    && multiset(Front(t.cursor)) == multiset(Survivors(t.visits)) + multiset(t.inserted)
  }

  lemma {:induction false} RunKeepsInvariants<T>(s: seq<T>, ops: seq<Op<T>>)
    requires Disciplined(s, ops)
    ensures PathInvariant(s, Run(s, ops)) && FrontInvariant(s, Run(s, ops))
  {
    if ops == [] {
      assert Front(Start(s)) == [];
    } else {
      var n := |ops| - 1;
      RunKeepsInvariants(s, ops[..n]);
      var t := Run(s, ops[..n]);
      PathKept(s, t, ops[n]);
      match ops[n] {
        case DoNext => NextKeepsFront(s, t);
        case DoInsert(x) => InsertKeepsFront(s, t, x);
        case DoRemove => RemovalKeepsFront(s, t, DoRemove);
        case DoRemoveCurrent => RemovalKeepsFront(s, t, DoRemoveCurrent);
      }
    }
  }

  lemma {:induction false} PathKept<T>(s: seq<T>, t: Trace<T>, op: Op<T>)
    requires PathInvariant(s, t) && Allowed(s, t.cursor, op)
    ensures PathInvariant(s, Step(t, op))
  {
    var c, u := t.cursor, Step(t, op);
    if op.DoNext? && c.rest != [] {
      assert Returned(u.visits) == Returned(t.visits) + [c.rest[0]];
      assert c.rest == [c.rest[0]] + c.rest[1..];
    } else {
      assert Returned(u.visits) == Returned(t.visits);
    }
  }

  lemma {:induction false} NextKeepsFront<T>(s: seq<T>, t: Trace<T>)
    requires PathInvariant(s, t) && FrontInvariant(s, t)
    ensures FrontInvariant(s, Step(t, DoNext))
  {
    var c, u := t.cursor, Step(t, DoNext);
    if c.rest == [] {
      assert u.visits == t.visits;
      assert Front(u.cursor) == Front(c);
    } else {
      var x := c.rest[0];
      assert x in s by { assert s[|t.visits|] == x; }
      assert Front(u.cursor) == Front(c) + [x];
      RestrictSnoc(Front(c), x, s);
      SurvivorsSnoc(t.visits, x);
    }
  }

  lemma {:induction false} InsertKeepsFront<T>(s: seq<T>, t: Trace<T>, x: T)
    requires FrontInvariant(s, t) && Allowed(s, t.cursor, DoInsert(x))
    ensures FrontInvariant(s, Step(t, DoInsert(x)))
  {
    var c, u := t.cursor, Step(t, DoInsert(x));
    assert Front(u.cursor) == c.passed + [x] + c.Listed();
    RestrictInsert(c.passed, x, c.Listed(), s);
    OneMore(c.passed, x, c.Listed(), multiset(Survivors(t.visits)), t.inserted);
  }

  lemma {:induction false} OneMore<T>(a: seq<T>, x: T, b: seq<T>, survivors: multiset<T>, inserted: seq<T>)
    requires multiset(a + b) == survivors + multiset(inserted)
    ensures multiset(a + [x] + b) == survivors + multiset(inserted + [x])
  {
    assert multiset(a + [x] + b) == multiset(a + b) + multiset{x};
  }

  lemma {:induction false} RemovalKeepsFront<T>(s: seq<T>, t: Trace<T>, op: Op<T>)
    requires PathInvariant(s, t) && FrontInvariant(s, t)
    requires (op.DoRemove? || op.DoRemoveCurrent?) && Allowed(s, t.cursor, op)
    ensures FrontInvariant(s, Step(t, op))
  {
    var c, u, m := t.cursor, Step(t, op), |t.visits| - 1;
    assert Front(u.cursor) == c.passed;
    if c.current.Gone? {
      assert u.visits == t.visits;
      assert Front(c) == c.passed;
    } else {
      var x := c.current.node;
      assert x in s by { assert Returned(t.visits)[m] == x; }
      SurvivorsMarked(t.visits);
      LastTakenOff(c.passed, x, s, Survivors(u.visits), multiset(t.inserted));
    }
  }

  lemma {:induction false} LastTakenOff<T>(passed: seq<T>, x: T, s: seq<T>, survivors: seq<T>, inserted: multiset<T>)
    requires x in s && Restrict(passed + [x], s) == survivors + [x]
    requires multiset(passed + [x]) == multiset(survivors + [x]) + inserted
    ensures Restrict(passed, s) == survivors && multiset(passed) == multiset(survivors) + inserted
  {
    RestrictSnoc(passed, x, s);
    var r := Restrict(passed, s);
    assert r == (r + [x])[..|r|] && survivors == (survivors + [x])[..|survivors|];
    assert multiset(passed) == multiset(passed + [x]) - multiset{x};
  }

  /**
    Over any disciplined run the iterator returns the original nodes once each and
    in order and never an inserted node; the list is left with the originals that
    were not taken out, in their order, and with exactly the inserted nodes besides.
   */
  lemma {:induction false} IteratorRun<T>(s: seq<T>, ops: seq<Op<T>>)
    requires Disciplined(s, ops)
    ensures var t := Run(s, ops);
            var left := Survivors(t.visits) + t.cursor.rest;
            && Returned(t.visits) + t.cursor.rest == s
            && (forall x :: x in t.inserted ==> x !in Returned(t.visits))
            && Restrict(t.cursor.Contents(), s) == left
            && multiset(t.cursor.Contents()) == multiset(left) + multiset(t.inserted)
  {
    RunKeepsInvariants(s, ops);
    var t := Run(s, ops);
    assert forall x :: x in Returned(t.visits) ==> x in s;
    RestOfRun(s, t);
  }

  lemma {:induction false} RestOfRun<T>(s: seq<T>, t: Trace<T>)
    requires PathInvariant(s, t) && FrontInvariant(s, t)
    ensures var left := Survivors(t.visits) + t.cursor.rest;
            && Restrict(t.cursor.Contents(), s) == left
            && multiset(t.cursor.Contents()) == multiset(left) + multiset(t.inserted)
  {
    hide Restrict, Survivors, Returned;
    var c := t.cursor;
    assert forall x :: x in c.rest ==> x in s;
    assert c.Contents() == Front(c) + c.rest;
    RestrictAll(c.rest, s);
    RestrictConcat(Front(c), c.rest, s);
  }

  /**
    An insertion puts the new node directly before the node returned last, and
    nothing else changes, exactly when that node was not taken out by HdfSListRemove;
    otherwise the insertion undoes that removal.
   */
  lemma {:induction false} InsertPosition<T>(c: Cursor<T>, x: T)
    ensures c.Insert(x).Contents() == InsertAt(c.Contents(), |c.passed|, x) <==> !c.current.Gone?
    ensures c.current.Live? ==> c.RemoveCurrent().Insert(x) == c.Insert(x)
  {
    InsertedContents(c, x);
    if c.current.Gone? {
      assert |c.Insert(x).Contents()| == |c.Contents()| + 2;
    }
  }

  // ---------------------------------------------------------------- runs on the heap

  /**
    HdfSListRemove applied to the node the iterator returned last. The iterator is not told; it
    finds out at its next step.
   */
  method RemoveCurrent<T>(it: Iterator<T>, head: Node<T>, ghost c: Cursor<Node<T>>)
    requires it.StandsAt(head, c) && c.current.Live?
    modifies head, c.Contents()
    ensures it.StandsAt(head, c.RemoveCurrent()) && c.RemoveCurrent().Contents() == Without(c.Contents(), |c.passed|)
  {
    hide IsList;
    it.Links(head, c);
    it.ListOf(head, c);
    ghost var s, k := c.Contents(), |c.passed|;
    assert s[k] == it.curr && Without(s, k) == c.RemoveCurrent().Contents();
    OffTheList(head, s, k);
    Remove(head, it.curr, s, k);
  }

  lemma OffTheList<T>(head: Node<T>, s: seq<Node<T>>, k: nat)
    requires IsList(head, s) && k < |s|
    ensures s[k] != head && s[k] !in Without(s, k)
  {
  }

  /**
    HdfSListRemove of the current node and then an insertion at the cursor: the list is the one
    that the insertion alone would have made, the removed node included.
   */
  method RemoveThenInsert<T>(it: Iterator<T>, head: Node<T>, link: Node<T>, ghost c: Cursor<Node<T>>)
    requires it.StandsAt(head, c) && c.current.Live? && link !in c.Contents() && link != head
    modifies it, head, c.Contents(), link
    ensures it.StandsAt(head, c.Insert(link)) && IsList(head, InsertAt(c.Contents(), |c.passed|, link))
    ensures c.current.node in c.Insert(link).Contents()
  {
    hide IsList;
    ghost var d := c.RemoveCurrent();
    RemoveCurrent(it, head, c);
    assert forall x :: x in d.Contents() ==> x in c.Contents();
    assert c.passed != [] ==> c.passed[|c.passed| - 1] in c.Contents();
    it.Insert(head, link, d);
    InsertPosition(c, link);
    it.ListOf(head, c.Insert(link));
  }

  /** What the C code asks of the heap: an inserted node is not listed, and the node removed is. */
  ghost predicate Possible<T>(head: Node<T>, c: Cursor<Node<T>>, op: Op<Node<T>>) {
    match op
    case DoInsert(x) => x != head && x !in c.Contents() && (c.current.Gone? ==> x != c.current.node)
    case DoRemoveCurrent => c.current.Live?
    case _ => true
  }

  ghost predicate AllPossible<T>(head: Node<T>, s: seq<Node<T>>, ops: seq<Op<Node<T>>>) {
    ops == [] ||
    (AllPossible(head, s, ops[..|ops| - 1]) && Possible(head, Run(s, ops[..|ops| - 1]).cursor, ops[|ops| - 1]))
  }

  /** The nodes a cursor knows of. */
  ghost function Known<T>(c: Cursor<T>): set<T> {
    (set x | x in c.Contents()) + if c.current.Gone? then {c.current.node} else {}
  }

  ghost function InsertedBy<T>(ops: seq<Op<T>>): set<T> {
    set i | 0 <= i < |ops| && ops[i].DoInsert? :: ops[i].node
  }

  lemma KnownAfter<T>(t: Trace<T>, op: Op<T>)
    ensures Known(Step(t, op).cursor) <= Known(t.cursor) + if op.DoInsert? then {op.node} else {}
  {
  }

  /** One operation of a run, and the node it returns. */
  method Perform<T>(it: Iterator<T>, head: Node<T>, op: Op<Node<T>>, ghost t: Trace<Node<T>>, ghost footprint: set<Node<T>>)
    returns (returned: seq<Node<T>>)
    requires it.StandsAt(head, t.cursor) && Possible(head, t.cursor, op)
    requires head in footprint && Known(t.cursor) <= footprint && (op.DoInsert? ==> op.node in footprint)
    modifies it, footprint
    ensures it.StandsAt(head, Step(t, op).cursor) && Known(Step(t, op).cursor) <= footprint
    ensures returned == if op.DoNext? && t.cursor.rest != [] then [t.cursor.rest[0]] else []
  {
    hide IsList;
    ghost var c := t.cursor;
    KnownAfter(t, op);
    assert c.passed != [] ==> c.passed[|c.passed| - 1] in c.Contents();
    returned := [];
    match op {
      case DoNext =>
        var node := it.Next(head, c);
        if node != null {
          returned := [node];
        }
      case DoInsert(x) => it.Insert(head, x, c);
      case DoRemove => it.Remove(head, c);
      case DoRemoveCurrent => RemoveCurrent(it, head, c);
    }
  }

  /**
    Any run of one iterator on the heap, removals by HdfSListRemove included, returns the nodes
    and leaves the list that the run on cursors gives; under the callers' discipline that is what
    IteratorRun says.
   */
  method RunOnHeap<T>(head: Node<T>, ops: seq<Op<Node<T>>>, ghost s: seq<Node<T>>)
    returns (it: Iterator<T>, returned: seq<Node<T>>)
    requires IsList(head, s) && AllPossible(head, s, ops)
    modifies head, s, InsertedBy(ops)
    ensures fresh(it) && it.StandsAt(head, Run(s, ops).cursor)
    ensures returned == Returned(Run(s, ops).visits)
    ensures IsList(head, Run(s, ops).cursor.Contents())
    ensures Disciplined(s, ops) ==>
              var t := Run(s, ops);
              && returned + t.cursor.rest == s
              && Restrict(t.cursor.Contents(), s) == Survivors(t.visits) + t.cursor.rest
  {
    hide IsList, Iterator.StandsAt, Step, Known;
    it := new Iterator(head, s);
    returned := [];
    ghost var footprint := {head} + (set x | x in s) + InsertedBy(ops);
    Begin(s);
    assert ops[..0] == [];
    for i := 0 to |ops|
      invariant fresh(it) && it.StandsAt(head, Run(s, ops[..i]).cursor)
      invariant Known(Run(s, ops[..i]).cursor) <= footprint
      invariant returned == Returned(Run(s, ops[..i]).visits)
    {
      ghost var t := Run(s, ops[..i]);
      PrefixPossible(head, s, ops, i);
      var more := Perform(it, head, ops[i], t, footprint);
      ReturnedMore(t, ops[i]);
      returned := returned + more;
    }
    assert ops[..|ops|] == ops;
    it.ListOf(head, Run(s, ops).cursor);
    if Disciplined(s, ops) {
      IteratorRun(s, ops);
    }
  }

  lemma Begin<T>(s: seq<T>)
    ensures Run(s, []) == Trace(Start(s), [], []) && Known(Start(s)) <= (set x | x in s)
    ensures Returned<T>([]) == []
  {
  }

  lemma {:induction false} PrefixPossible<T>(head: Node<T>, s: seq<Node<T>>, ops: seq<Op<Node<T>>>, i: nat)
    requires AllPossible(head, s, ops) && i < |ops|
    ensures Possible(head, Run(s, ops[..i]).cursor, ops[i])
    ensures Run(s, ops[..i + 1]) == Step(Run(s, ops[..i]), ops[i])
    decreases |ops|
  {
    var n := |ops| - 1;
    assert ops[..i + 1][..i] == ops[..i];
    if i < n {
      PrefixPossible(head, s, ops[..n], i);
      assert ops[..n][..i] == ops[..i];
    }
  }

  lemma ReturnedMore<T>(t: Trace<T>, op: Op<T>)
    ensures Returned(Step(t, op).visits)
            == Returned(t.visits) + if op.DoNext? && t.cursor.rest != [] then [t.cursor.rest[0]] else []
  {
  }
}
