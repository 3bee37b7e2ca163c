/**
  The chained hash map of utils/src/hdf_map.c on heap nodes, proved against the
  tables of HashTable.dfy and, through them, against a finite map.
 */
module HashMap {
  import opened Bytes
  import opened HashTable

  class MapNode {
    const hash: nat
    const key: Key
    var value: seq<byte>
    var next: MapNode?

    /** MapCreateNode. */
    constructor (key: Key, hash: nat, value: seq<byte>)
      ensures this.key == key && this.hash == hash && this.value == value
    {
      this.key, this.hash, this.value, this.next := key, hash, value, null;
    }
  }

  ghost function At(c: seq<MapNode>, p: nat): MapNode? {
    if p < |c| then c[p] else null
  }

  /** The nodes reached from `first` by next pointers are c. */
  ghost predicate Linked(first: MapNode?, c: seq<MapNode>)
    reads c
  {
    first == At(c, 0) && forall p {:trigger c[p].next} :: 0 <= p < |c| ==> c[p].next == At(c, p + 1)
  }

  ghost predicate Distinct(c: seq<MapNode>) {
    forall p, q :: 0 <= p < q < |c| ==> c[p] != c[q]
  }

  /** The nodes of c carry the hash of their key and belong in bucket i of b. */
  ghost predicate Belong(c: seq<MapNode>, b: nat, i: nat)
    requires b > 0
  {
    forall p :: 0 <= p < |c| ==> c[p].hash == Hash(c[p].key) && HashIdx(b, c[p].hash) == i
  }

  ghost function EntriesOf(c: seq<MapNode>): (r: Chain)
    reads c
    ensures |r| == |c| && forall p :: 0 <= p < |c| ==> r[p] == Entry(c[p].key, c[p].value)
  {
    seq(|c|, p requires 0 <= p < |c| reads c => Entry(c[p].key, c[p].value))
  }

  ghost predicate AllIn(chains: seq<seq<MapNode>>, repr: set<MapNode>) {
    forall i, p :: 0 <= i < |chains| && 0 <= p < |chains[i]| ==> chains[i][p] in repr
  }

  ghost function TableOf(chains: seq<seq<MapNode>>, repr: set<MapNode>): (t: Table)
    requires AllIn(chains, repr)
    reads repr
    ensures |t| == |chains| && forall i :: 0 <= i < |chains| ==> t[i] == EntriesOf(chains[i])
  {
    seq(|chains|, i requires 0 <= i < |chains| reads repr => EntriesOf(chains[i]))
  }

  /** The buckets hold the chains, and every node is in the bucket of its hash. */
  ghost predicate Buckets(nodes: array<MapNode?>, chains: seq<seq<MapNode>>, repr: set<MapNode>)
    requires AllIn(chains, repr)
    reads nodes, repr
  {
    && nodes.Length == |chains| > 0 && BucketSize(|chains|)
    && (forall i :: 0 <= i < |chains| ==> Linked(nodes[i], chains[i]))
    && (forall i :: 0 <= i < |chains| ==> Belong(chains[i], |chains|, i))
  }

  /** A node pushed in front of its chain. */
  lemma {:induction false} TableOfPush(chains: seq<seq<MapNode>>, repr: set<MapNode>, idx: nat, node: MapNode)
    requires AllIn(chains, repr) && node in repr && |chains| > 0 && BucketSize(|chains|)
    requires node.hash == Hash(node.key) && idx == HashIdx(|chains|, node.hash) < |chains|
    ensures AllIn(chains[idx := [node] + chains[idx]], repr)
    ensures TableOf(chains[idx := [node] + chains[idx]], repr)
            == AddEntry(TableOf(chains, repr), Entry(node.key, node.value))
  {
    var t := TableOf(chains, repr);
    var e := Entry(node.key, node.value);
    assert Home(t, e.key) == idx;
    assert EntriesOf([node] + chains[idx]) == [e] + EntriesOf(chains[idx]);
    assert TableOf(chains[idx := [node] + chains[idx]], repr) == t[idx := [e] + t[idx]];
  }

  /** MapAddNode, on the buckets. */
  method AddNode(nodes: array<MapNode?>, node: MapNode, ghost chains: seq<seq<MapNode>>, ghost repr: set<MapNode>)
    returns (ghost chains': seq<seq<MapNode>>)
    requires AllIn(chains, repr) && Buckets(nodes, chains, repr)
    requires node !in repr && node.hash == Hash(node.key)
    modifies nodes, node`next
    ensures AllIn(chains', repr + {node}) && Buckets(nodes, chains', repr + {node}) && |chains'| == |chains|
    ensures TableOf(chains', repr + {node})
            == AddEntry(old(TableOf(chains, repr)), Entry(node.key, node.value))
  {
    var idx := HashIdx(nodes.Length, node.hash);
    HashIdxIsMod(nodes.Length, node.hash);
    ghost var heads := nodes[..];
    node.next := nodes[idx];
    nodes[idx] := node;
    chains' := chains[idx := [node] + chains[idx]];
    assert TableOf(chains, repr + {node}) == old(TableOf(chains, repr)) by {
      assert forall i :: 0 <= i < |chains| ==> EntriesOf(chains[i]) == old(EntriesOf(chains[i]));
    }
    TableOfPush(chains, repr + {node}, idx, node);
    assert forall i :: 0 <= i < |chains| ==> Linked(heads[i], chains[i]);
    LinkedPush(node, chains[idx]);
    BelongPush(node, chains[idx], |chains|, idx);
    assert forall i :: 0 <= i < |chains'| ==> Linked(nodes[i], chains'[i]);
  }

  lemma {:induction false} LinkedPush(node: MapNode, c: seq<MapNode>)
    requires Linked(node.next, c)
    ensures Linked(node, [node] + c)
  {
    var d := [node] + c;
    forall p {:trigger d[p].next} | 0 <= p < |d| ensures d[p].next == At(d, p + 1) {
      if p > 0 {
        assert d[p] == c[p - 1];
      }
    }
  }

  lemma BelongPush(node: MapNode, c: seq<MapNode>, b: nat, i: nat)
    requires b > 0 && Belong(c, b, i) && node.hash == Hash(node.key) && HashIdx(b, node.hash) == i
    ensures Belong([node] + c, b, i)
  {
  }

  /** The first p nodes of the chain c hang in the buckets, and the others still one behind the other. */
  ghost predicate Shifting(nodes: array<MapNode?>, node: MapNode?, c: seq<MapNode>, p: nat, es: Chain, t: Table,
                           to: seq<seq<MapNode>>, done: set<MapNode>)
    reads nodes, c, done
  {
    && p <= |c| && node == At(c, p) && Linked(node, c[p..]) && Distinct(c) && es == EntriesOf(c)
    && (forall q :: 0 <= q < |c| ==> c[q].hash == Hash(c[q].key))
    && (forall q :: p <= q < |c| ==> c[q] !in done)
    && AllIn(to, done) && Buckets(nodes, to, done)
    && |t| > 0 && BucketSize(|t|) && TableOf(to, done) == MoveChain(es[..p], t)
  }

  /** One turn of the inner loop of MapResize. */
  method MoveFront(nodes: array<MapNode?>, node: MapNode, ghost c: seq<MapNode>, ghost p: nat, ghost es: Chain,
                   ghost t: Table, ghost to: seq<seq<MapNode>>, ghost done: set<MapNode>)
    returns (next: MapNode?, ghost to': seq<seq<MapNode>>)
    requires p < |c| && Shifting(nodes, node, c, p, es, t, to, done)
    modifies nodes, node`next
    ensures Shifting(nodes, next, c, p + 1, es, t, to', done + {node}) && |to'| == |to| && node in c
  {
    hide AddEntry, Buckets, BucketSize, TableOf;
    MoveChainNext(es, p, t);
    RestLinked(node, c, p);
    next := node.next;
    to' := AddNode(nodes, node, to, done);
    assert Linked(next, c[p + 1..]);
  }

  lemma {:induction false} RestLinked(node: MapNode, c: seq<MapNode>, p: nat)
    requires p < |c| && c[p] == node && Linked(node, c[p..]) && Distinct(c)
    ensures Linked(node.next, c[p + 1..]) && node.next == At(c, p + 1) && node !in c[p + 1..]
  {
    LinkedTail(c[p..]);
    assert c[p..][1..] == c[p + 1..];
  }

  /** The inner loop of MapResize: a whole chain is relinked, front to back. */
  method MoveBucket(nodes: array<MapNode?>, first: MapNode?, ghost c: seq<MapNode>,
                    ghost chains: seq<seq<MapNode>>, ghost repr: set<MapNode>)
    returns (ghost chains': seq<seq<MapNode>>, ghost repr': set<MapNode>)
    requires AllIn(chains, repr) && Buckets(nodes, chains, repr)
    requires Linked(first, c) && Distinct(c)
    requires forall p :: 0 <= p < |c| ==> c[p] !in repr && c[p].hash == Hash(c[p].key)
    modifies nodes, c
    ensures EntriesOf(c) == old(EntriesOf(c))
    ensures repr <= repr' && forall n :: n in repr' ==> n in repr || n in c
    ensures AllIn(chains', repr') && Buckets(nodes, chains', repr') && |chains'| == |chains|
    ensures TableOf(chains', repr') == MoveChain(old(EntriesOf(c)), old(TableOf(chains, repr)))
  {
    ghost var es, t := EntriesOf(c), TableOf(chains, repr);
    ghost var p := 0;
    chains', repr' := chains, repr;
    var node := first;
    assert c[0..] == c && es[..0] == [];
    assert Shifting(nodes, node, c, p, es, t, chains', repr');
    ShiftingNode(nodes, node, c, p, es, t, chains', repr');
    hide Shifting, Buckets, BucketSize, AllIn, TableOf, MoveChain, Linked, Distinct;
    while node != null
      invariant p <= |c| && Shifting(nodes, node, c, p, es, t, chains', repr') && |chains'| == |chains|
      invariant node == At(c, p)
      invariant repr <= repr' && forall n :: n in repr' ==> n in repr || n in c
      decreases |c| - p
    {
      ghost var moved: MapNode := node;
      node, chains' := MoveFront(nodes, node, c, p, es, t, chains', repr');
      repr' := repr' + {moved};
      p := p + 1;
      ShiftingNode(nodes, node, c, p, es, t, chains', repr');
    }
    Shifted(nodes, c, es, t, chains', repr');
  }

  lemma ShiftingNode(nodes: array<MapNode?>, node: MapNode?, c: seq<MapNode>, p: nat, es: Chain,
                     t: Table, to: seq<seq<MapNode>>, done: set<MapNode>)
    requires Shifting(nodes, node, c, p, es, t, to, done)
    ensures p <= |c| && node == At(c, p)
  {
  }

  lemma {:induction false} Shifted(nodes: array<MapNode?>, c: seq<MapNode>, es: Chain, t: Table,
                                   to: seq<seq<MapNode>>, done: set<MapNode>)
    requires Shifting(nodes, null, c, |c|, es, t, to, done)
    ensures es == EntriesOf(c) && AllIn(to, done) && Buckets(nodes, to, done)
    ensures |t| > 0 && BucketSize(|t|) && TableOf(to, done) == MoveChain(es, t)
  {
    assert es[..|c|] == es;
  }

  lemma {:induction false} LinkedTail(c: seq<MapNode>)
    requires c != [] && Linked(c[0], c)
    ensures Linked(c[0].next, c[1..])
  {
    var d := c[1..];
    assert c[0].next == At(c, 1) == At(d, 0);
    forall p {:trigger d[p].next} | 0 <= p < |d| ensures d[p].next == At(d, p + 1) {
      assert d[p] == c[p + 1] && c[p + 1].next == At(c, p + 2);
    }
  }

  lemma Elsewhere(c: seq<MapNode>, d: seq<MapNode>, b: nat, i: nat, j: nat)
    requires b > 0 && i != j && Belong(c, b, i) && Belong(d, b, j)
    ensures forall p :: 0 <= p < |d| ==> d[p] !in c
  {
  }

  /** Allocating empty buckets. */
  method NewBuckets(size: nat, ghost t: Table)
    returns (nodes: array<MapNode?>, ghost chains: seq<seq<MapNode>>)
    requires size > 0 && BucketSize(size)
    ensures fresh(nodes) && |chains| == size && AllIn(chains, {}) && Buckets(nodes, chains, {})
    ensures TableOf(chains, {}) == MoveTable(t, 0, size)
  {
    nodes := new MapNode?[size](_ => null);
    chains := seq(size, _ => []);
    assert TableOf(chains, {}) == MoveTable(t, 0, size);
  }

  /** Every chain is made of different nodes that belong in its bucket. */
  ghost predicate Homed(chains: seq<seq<MapNode>>) {
    forall j :: 0 <= j < |chains| ==> Belong(chains[j], |chains|, j) && Distinct(chains[j])
  }

  /** The chains from i on still hang in the old buckets, with their entries. */
  ghost predicate Pending(tmp: array<MapNode?>, chains: seq<seq<MapNode>>, repr: set<MapNode>, i: nat, t: Table)
    requires AllIn(chains, repr)
    reads tmp, repr
  {
    && tmp.Length == |chains| == |t|
    && forall j :: i <= j < |chains| ==> Linked(tmp[j], chains[j]) && EntriesOf(chains[j]) == t[j]
  }

  /** The first i chains of the old buckets hang in the new ones, rehashed. */
  ghost predicate Moving(nodes: array<MapNode?>, tmp: array<MapNode?>, i: nat, chains: seq<seq<MapNode>>,
                         repr: set<MapNode>, t: Table, to: seq<seq<MapNode>>, done: set<MapNode>)
    reads nodes, tmp, repr, done
  {
    && i <= |chains| && |chains| > 0 && tmp != nodes && AllIn(chains, repr) && Homed(chains)
    && Pending(tmp, chains, repr, i, t)
    && AllIn(to, done) && Buckets(nodes, to, done) && done <= repr
    && (forall n :: n in done ==> HashIdx(|chains|, n.hash) < i)
    && |to| > 0 && BucketSize(|to|) && TableOf(to, done) == MoveTable(t, i, |to|)
  }

  /** The outer loop of MapResize: all chains of the old buckets move to new ones. */
  method Relink(tmp: array<MapNode?>, size: nat, ghost chains: seq<seq<MapNode>>, ghost repr: set<MapNode>)
    returns (nodes: array<MapNode?>, ghost chains': seq<seq<MapNode>>, ghost repr': set<MapNode>)
    requires AllIn(chains, repr) && Buckets(tmp, chains, repr)
    requires forall i :: 0 <= i < |chains| ==> Distinct(chains[i])
    requires size > 0 && BucketSize(size)
    modifies repr
    ensures fresh(nodes) && |chains'| == size && repr' <= repr
    ensures AllIn(chains', repr') && Buckets(nodes, chains', repr')
    ensures TableOf(chains', repr') == Rehash(old(TableOf(chains, repr)), size)
  {
    hide Moving, Buckets, TableOf, AllIn, Distinct, BucketSize, Rehash, MoveTable;
    ghost var t := TableOf(chains, repr);
    nodes, chains' := NewBuckets(size, t);
    NothingMoved(nodes, tmp, chains, repr, t, chains');
    chains', repr' := MoveBuckets(nodes, tmp, chains, repr, t, chains');
    AllMoved(nodes, tmp, chains, repr, t, chains', repr');
  }

  /** The outer loop itself. */
  method MoveBuckets(nodes: array<MapNode?>, tmp: array<MapNode?>, ghost chains: seq<seq<MapNode>>,
                     ghost repr: set<MapNode>, ghost t: Table, ghost to: seq<seq<MapNode>>)
    returns (ghost to': seq<seq<MapNode>>, ghost done: set<MapNode>)
    requires tmp.Length == |chains| && Moving(nodes, tmp, 0, chains, repr, t, to, {})
    modifies nodes, repr
    ensures Moving(nodes, tmp, |chains|, chains, repr, t, to', done) && |to'| == |to|
  {
    hide Moving;
    to', done := to, {};
    for i := 0 to tmp.Length
      invariant Moving(nodes, tmp, i, chains, repr, t, to', done) && |to'| == |to|
    {
      to', done := MoveBucketOf(nodes, tmp, i, chains, repr, t, to', done);
    }
  }

  lemma {:induction false} NothingMoved(nodes: array<MapNode?>, tmp: array<MapNode?>, chains: seq<seq<MapNode>>,
                                        repr: set<MapNode>, t: Table, to: seq<seq<MapNode>>)
    requires AllIn(chains, repr) && Buckets(tmp, chains, repr) && t == TableOf(chains, repr) && tmp != nodes
    requires forall i :: 0 <= i < |chains| ==> Distinct(chains[i])
    requires AllIn(to, {}) && Buckets(nodes, to, {}) && TableOf(to, {}) == MoveTable(t, 0, |to|)
    ensures tmp.Length == |chains| && Moving(nodes, tmp, 0, chains, repr, t, to, {})
  {
    hide MoveTable, BucketSize;
  }

  lemma AllMoved(nodes: array<MapNode?>, tmp: array<MapNode?>, chains: seq<seq<MapNode>>,
                 repr: set<MapNode>, t: Table, to: seq<seq<MapNode>>, done: set<MapNode>)
    requires Moving(nodes, tmp, |chains|, chains, repr, t, to, done)
    ensures AllIn(to, done) && Buckets(nodes, to, done) && done <= repr
    ensures |to| > 0 && BucketSize(|to|) && TableOf(to, done) == Rehash(t, |to|)
  {
  }

  /** One turn of the outer loop of MapResize. */
  method MoveBucketOf(nodes: array<MapNode?>, tmp: array<MapNode?>, i: nat,
                      ghost chains: seq<seq<MapNode>>, ghost repr: set<MapNode>, ghost t: Table,
                      ghost to: seq<seq<MapNode>>, ghost done: set<MapNode>)
    returns (ghost to': seq<seq<MapNode>>, ghost done': set<MapNode>)
    requires i < |chains| && Moving(nodes, tmp, i, chains, repr, t, to, done)
    modifies nodes, repr
    ensures Moving(nodes, tmp, i + 1, chains, repr, t, to', done') && |to'| == |to|
  {
    hide Buckets, TableOf, BucketSize;
    ghost var c := chains[i];
    assert forall p :: 0 <= p < |c| ==> c[p] in repr;
    assert Belong(c, |chains|, i);
    to', done' := MoveBucket(nodes, tmp[i], c, to, done);
    forall j | i < j < |chains| ensures Linked(tmp[j], chains[j]) && EntriesOf(chains[j]) == t[j] {
      assert old(Linked(tmp[j], chains[j]) && EntriesOf(chains[j]) == t[j]);
      Elsewhere(c, chains[j], |chains|, i, j);
    }
  }

  /** The walk along a chain that MapSet, MapGet and MapErase share, with the node before the one found. */
  method Walk(first: MapNode?, hash: nat, key: Key, ghost c: seq<MapNode>)
    returns (node: MapNode?, prev: MapNode?, ghost p: nat)
    requires Linked(first, c) && hash == Hash(key)
    requires forall q :: 0 <= q < |c| ==> c[q].hash == Hash(c[q].key)
    ensures p <= |c| && node == At(c, p) && prev == if p == 0 then node else c[p - 1]
    ensures forall q :: 0 <= q < p ==> c[q].key != key
    ensures node != null ==> node.key == key
  {
    node, prev, p := first, first, 0;
    while node != null && (node.hash != hash || node.key != key)
      invariant p <= |c| && node == At(c, p)
      invariant prev == if p == 0 then node else c[p - 1]
      invariant forall q :: 0 <= q < p ==> c[q].key != key
      decreases |c| - p
    {
      assert c[p].next == At(c, p + 1);
      prev := node;
      node := node.next;
      p := p + 1;
    }
  }

  /** NullBuckets stands for the crash of MapAddNode on a map that has no buckets. */
  datatype Status = Success | InvalidParam | InvalidObject | Failure | NullBuckets

  const MAX_KEY := 1000
  const MAX_VALUE := 1000

  /** Overwriting a value in place patches one entry of the table. */
  method UpdateNode(node: MapNode, value: seq<byte>, ghost chains: seq<seq<MapNode>>, ghost repr: set<MapNode>,
                    ghost idx: nat, ghost p: nat)
    requires AllIn(chains, repr) && idx < |chains| && p < |chains[idx]| && chains[idx][p] == node
    requires forall j :: 0 <= j < |chains| ==> Belong(chains[j], |chains|, j)
    requires Distinct(chains[idx])
    modifies node`value
    ensures TableOf(chains, repr) == Patched(old(TableOf(chains, repr)), idx, p, [Entry(node.key, value)])
  {
    ghost var t, c := TableOf(chains, repr), chains[idx];
    ghost var r := Patched(t, idx, p, [Entry(node.key, value)]);
    node.value := value;
    assert EntriesOf(c) == r[idx] by {
      assert forall q :: 0 <= q < |c| && q != p ==> c[q] != node;
      assert forall q :: 0 <= q < |c| && q != p ==> EntriesOf(c)[q] == t[idx][q];
    }
    forall j | 0 <= j < |chains| && j != idx ensures EntriesOf(chains[j]) == r[j] {
      assert Belong(chains[j], |chains|, j) && Belong(c, |chains|, idx);
      Elsewhere(c, chains[j], |chains|, idx, j);
      assert old(EntriesOf(chains[j])) == t[j];
    }
    assert TableOf(chains, repr) == r;
  }

  /** Taking the p-th node out of the chain of bucket idx, as MapErase does. */
  method UnlinkNode(nodes: array<MapNode?>, idx: nat, node: MapNode, prev: MapNode,
                    ghost chains: seq<seq<MapNode>>, ghost repr: set<MapNode>, ghost p: nat)
    returns (ghost chains': seq<seq<MapNode>>)
    requires AllIn(chains, repr) && Buckets(nodes, chains, repr)
    requires idx < |chains| && p < |chains[idx]| && chains[idx][p] == node && Distinct(chains[idx])
    requires prev == if p == 0 then node else chains[idx][p - 1]
    modifies nodes, prev`next
    ensures AllIn(chains', repr) && Buckets(nodes, chains', repr) && |chains'| == |chains|
    ensures TableOf(chains', repr) == Patched(old(TableOf(chains, repr)), idx, p, [])
  {
    hide BucketSize, Patched;
    ghost var c := chains[idx];
    chains' := chains[idx := c[..p] + c[p + 1..]];
    TableOfWithout(chains, repr, idx, p);
    NotElsewhere(chains, idx, prev);
    assert Linked(nodes[idx], c) && c[p].next == At(c, p + 1);
    ghost var heads := nodes[..];
    if nodes[idx] == node {
      nodes[idx] := node.next;
    } else {
      prev.next := node.next;
    }
    assert forall j :: 0 <= j < |chains| && j != idx ==> Linked(heads[j], chains[j]);
    Unhooked(nodes, idx, chains, p);
    assert TableOf(chains', repr) == old(TableOf(chains', repr)) by {
      assert forall j :: 0 <= j < |chains'| ==> EntriesOf(chains'[j]) == old(EntriesOf(chains'[j]));
    }
  }

  lemma {:induction false} NotElsewhere(chains: seq<seq<MapNode>>, idx: nat, node: MapNode)
    requires forall j :: 0 <= j < |chains| ==> Belong(chains[j], |chains|, j)
    requires idx < |chains| && node in chains[idx]
    ensures forall j :: 0 <= j < |chains| && j != idx ==> node !in chains[j]
  {
    forall j | 0 <= j < |chains| && j != idx ensures node !in chains[j] {
      assert Belong(chains[j], |chains|, j) && Belong(chains[idx], |chains|, idx);
      Elsewhere(chains[idx], chains[j], |chains|, idx, j);
    }
  }

  /** Once the link to the p-th node of a chain goes past it, the buckets hold the chains without it. */
  lemma {:induction false} Unhooked(nodes: array<MapNode?>, idx: nat, chains: seq<seq<MapNode>>, p: nat)
    requires nodes.Length == |chains| && idx < |chains| && p < |chains[idx]|
    requires forall j :: 0 <= j < |chains| ==> Belong(chains[j], |chains|, j)
    requires forall j :: 0 <= j < |chains| && j != idx ==> Linked(nodes[j], chains[j])
    requires var c := chains[idx];
             && nodes[idx] == At(c, if p == 0 then 1 else 0)
             && (forall q {:trigger c[q].next} :: 0 <= q < |c| && q + 1 != p ==> c[q].next == At(c, q + 1))
             && (p > 0 ==> c[p - 1].next == At(c, p + 1))
    ensures var chains' := chains[idx := chains[idx][..p] + chains[idx][p + 1..]];
            && (forall j :: 0 <= j < |chains| ==> Linked(nodes[j], chains'[j]))
            && (forall j :: 0 <= j < |chains| ==> Belong(chains'[j], |chains|, j))
  {
    var c := chains[idx];
    LinkedWithout(nodes[idx], c, p);
    assert Belong(c, |chains|, idx);
    assert Belong(c[..p] + c[p + 1..], |chains|, idx);
  }

  lemma {:induction false} TableOfWithout(chains: seq<seq<MapNode>>, repr: set<MapNode>, idx: nat, p: nat)
    requires AllIn(chains, repr) && idx < |chains| && p < |chains[idx]|
    ensures AllIn(chains[idx := chains[idx][..p] + chains[idx][p + 1..]], repr)
    ensures TableOf(chains[idx := chains[idx][..p] + chains[idx][p + 1..]], repr)
            == Patched(TableOf(chains, repr), idx, p, [])
  {
    var c, t := chains[idx], TableOf(chains, repr);
    var d := c[..p] + c[p + 1..];
    assert EntriesOf(d) == t[idx][..p] + [] + t[idx][p + 1..];
    assert TableOf(chains[idx := d], repr) == Patched(t, idx, p, []);
  }

  lemma {:induction false} LinkedWithout(first: MapNode?, c: seq<MapNode>, p: nat)
    requires p < |c| && first == At(c, if p == 0 then 1 else 0)
    requires forall q {:trigger c[q].next} :: 0 <= q < |c| && q + 1 != p ==> c[q].next == At(c, q + 1)
    requires p > 0 ==> c[p - 1].next == At(c, p + 1)
    ensures Linked(first, c[..p] + c[p + 1..])
  {
    var d := c[..p] + c[p + 1..];
    forall q {:trigger d[q].next} | 0 <= q < |d| ensures d[q].next == At(d, q + 1) {
      assert d[q] == c[if q < p then q else q + 1];
    }
  }

  // ---------------------------------------------------------------- buckets standing for a finite map

  /** What the heap structure stands for: its chains, the nodes it may touch, the finite map. */
  datatype Layout = Layout(chains: seq<seq<MapNode>>, repr: set<MapNode>, contents: map<Key, seq<byte>>)

  ghost predicate Stores(nodes: array?<MapNode?>, nodeSize: nat, bucketSize: nat, g: Layout)
    reads nodes, g.repr
  {
    && AllIn(g.chains, g.repr) && |g.chains| == bucketSize <= TWO_31
    && (nodes == null ==> bucketSize == 0)
    && (nodes != null ==> Buckets(nodes, g.chains, g.repr))
    && Represents(TableOf(g.chains, g.repr), nodeSize, g.contents)
  }

  lemma {:induction false} StoresNothing()
    ensures Stores(null, 0, 0, Layout([], {}, map[]))
  {
    EmptyRepresents();
    assert TableOf([], {}) == [];
  }

  lemma {:induction false} NodesDistinct(nodes: array?<MapNode?>, n: nat, b: nat, g: Layout, i: nat)
    requires Stores(nodes, n, b, g) && i < |g.chains|
    ensures Distinct(g.chains[i])
  {
    var t, c := TableOf(g.chains, g.repr), g.chains[i];
    forall p, q | 0 <= p < q < |c| ensures c[p] != c[q] {
      ChainKeysDistinct(t, i, p, q);
      assert t[i][p] == Entry(c[p].key, c[p].value) && t[i][q] == Entry(c[q].key, c[q].value);
    }
  }

  lemma {:induction false} NoNodes(nodes: array?<MapNode?>, n: nat, b: nat, g: Layout, key: Key)
    requires Stores(nodes, n, b, g) && (n == 0 || nodes == null)
    ensures n == 0 && key !in g.contents
  {
    if nodes == null {
      assert TableOf(g.chains, g.repr) == [];
    }
    NothingStored(TableOf(g.chains, g.repr), g.contents, key);
  }

  /** With a node count of 0, gone round or not, or without buckets, no key is seen. */
  lemma {:induction false} NothingSeen(nodes: array?<MapNode?>, count: nat, b: nat, g: Layout, key: Key)
    requires Stores(nodes, |g.contents|, b, g) && count == Counter(|g.contents|) && (count == 0 || nodes == null)
    ensures count == 0 && Seen(g.contents, key).None? && (key in g.contents ==> Overflown(g.contents))
  {
    CounterRange(0);
    if nodes == null || g.contents == map[] {
      NoNodes(nodes, |g.contents|, b, g, key);
    }
  }

  /** The bucket count is 0 or 8 * 4^j, and the node count is the sum of the chain lengths. */
  lemma {:induction false} SizeFacts(nodes: array?<MapNode?>, n: nat, b: nat, g: Layout)
    requires Stores(nodes, n, b, g)
    ensures BucketSize(b) && (nodes == null <==> b == 0) && b <= TWO_31
    ensures AllIn(g.chains, g.repr) && n == Count(TableOf(g.chains, g.repr))
  {
    if nodes == null {
      assert TableOf(g.chains, g.repr) == [];
    }
  }

  /** The search of MapSet, MapGet and MapErase. */
  method Find(nodes: array<MapNode?>, bucketSize: nat, key: Key, ghost n: nat, ghost g: Layout)
    returns (node: MapNode?, prev: MapNode?, ghost idx: nat, ghost p: nat)
    requires Stores(nodes, n, bucketSize, g)
    ensures node == null ==> key !in g.contents
    ensures node != null ==>
              && bucketSize > 0 && idx == HashIdx(bucketSize, Hash(key)) < |g.chains| && p < |g.chains[idx]|
              && g.chains[idx][p] == node && node.key == key
              && prev == (if p == 0 then node else g.chains[idx][p - 1])
              && key in g.contents && g.contents[key] == node.value
  {
    hide Represents;
    var hash := Hash(key);
    idx := HashIdx(bucketSize, hash);
    HashIdxIsMod(bucketSize, hash);
    assert Linked(nodes[idx], g.chains[idx]) && Belong(g.chains[idx], |g.chains|, idx);
    node, prev, p := Walk(nodes[HashIdx(bucketSize, hash)], hash, key, g.chains[idx]);
    ghost var t := TableOf(g.chains, g.repr);
    assert t[idx] == EntriesOf(g.chains[idx]) && Home(t, key) == idx;
    if node == null {
      NotStored(t, n, g.contents, key);
    } else {
      StoredEntry(t, n, g.contents, idx, p);
    }
  }

  /** MapSet once the key is found, lines 144-149. */
  method Overwrite(nodes: array<MapNode?>, node: MapNode, value: seq<byte>,
                   ghost n: nat, ghost b: nat, ghost g: Layout, ghost idx: nat, ghost p: nat)
    requires Stores(nodes, n, b, g) && idx < |g.chains| && p < |g.chains[idx]| && g.chains[idx][p] == node
    modifies g.repr
    ensures Stores(nodes, n, b, g.(contents := g.contents[node.key := value]))
  {
    hide Represents;
    ghost var t := TableOf(g.chains, g.repr);
    NodesDistinct(nodes, n, b, g, idx);
    UpdateRepresents(t, n, g.contents, idx, p, value);
    assert t[idx][p].key == node.key && node in g.repr;
    UpdateNode(node, value, g.chains, g.repr, idx, p);
  }

  /** MapResize with its allocation successful. */
  method Resize(nodes: array?<MapNode?>, size: nat, ghost n: nat, ghost b: nat, ghost g: Layout)
    returns (nodes': array<MapNode?>, ghost g': Layout)
    requires Stores(nodes, n, b, g) && 0 < size <= TWO_31 && BucketSize(size)
    modifies g.repr
    ensures fresh(nodes') && Stores(nodes', n, size, g') && g'.contents == g.contents && g'.repr <= g.repr
    ensures TableOf(g'.chains, g'.repr) == Rehash(old(TableOf(g.chains, g.repr)), size)
  {
    ghost var t := TableOf(g.chains, g.repr);
    RehashRepresents(t, n, g.contents, size);
    hide Represents, Rehash;
    ghost var chains', repr';
    if nodes == null {
      nodes', chains' := NewBuckets(size, t);
      repr' := {};
    } else {
      forall i | 0 <= i < |g.chains| ensures Distinct(g.chains[i]) { NodesDistinct(nodes, n, b, g, i); }
      nodes', chains', repr' := Relink(nodes, size, g.chains, g.repr);
    }
    g' := Layout(chains', repr', g.contents);
  }

  /** Adding a node for a key that is not stored. */
  method InsertNode(nodes: array<MapNode?>, node: MapNode, ghost n: nat, ghost b: nat, ghost g: Layout)
    returns (ghost g': Layout)
    requires Stores(nodes, n, b, g) && node !in g.repr && node.hash == Hash(node.key) && node.key !in g.contents
    modifies nodes, node`next
    ensures Stores(nodes, n + 1, b, g') && g'.repr == g.repr + {node}
    ensures g'.contents == g.contents[node.key := node.value]
  {
    ghost var t := TableOf(g.chains, g.repr);
    assert |t| > 0;
    hide Represents, Buckets, AddEntry;
    AddRepresents(t, n, g.contents, Entry(node.key, node.value));
    ghost var chains' := AddNode(nodes, node, g.chains, g.repr);
    g' := Layout(chains', g.repr + {node}, g.contents[node.key := node.value]);
  }

  /** MapErase once the key is found, lines 212-219. */
  method EraseNode(nodes: array<MapNode?>, at: nat, node: MapNode, prev: MapNode,
                   ghost n: nat, ghost b: nat, ghost g: Layout, ghost p: nat)
    returns (ghost g': Layout)
    requires Stores(nodes, n, b, g) && at < |g.chains| && p < |g.chains[at]| && g.chains[at][p] == node
    requires prev == if p == 0 then node else g.chains[at][p - 1]
    modifies nodes, g.repr
    ensures n > 0 && Stores(nodes, n - 1, b, g') && g'.repr == g.repr && g'.contents == g.contents - {node.key}
  {
    ghost var t := TableOf(g.chains, g.repr);
    NodesDistinct(nodes, n, b, g, at);
    assert prev in g.repr && t[at][p] == Entry(node.key, node.value);
    hide Represents, Buckets;
    EraseRepresents(t, n, g.contents, at, p);
    ghost var chains' := UnlinkNode(nodes, at, node, prev, g.chains, g.repr, p);
    g' := Layout(chains', g.repr, g.contents - {node.key});
  }

  // ---------------------------------------------------------------- the map

  /** The node count is a uint32_t. */
  function Counter(n: nat): (c: nat)
    ensures c < TWO_32
  {
    n % TWO_32
  }

  lemma CounterSteps(n: nat)
    ensures Counter(n + 1) == (Counter(n) + 1) % TWO_32
    ensures Counter(n + 1) > 0 ==> Counter(n + 1) - 1 == Counter(n)
  {
  }

  lemma CounterRange(n: nat)
    ensures n < TWO_32 ==> Counter(n) == n
    ensures n == TWO_32 ==> Counter(n) == 0
  {
  }

  /** The node count has gone round to 0: the map takes itself for empty. */
  predicate Overflown(m: map<Key, seq<byte>>) {
    m != map[] && Counter(|m|) == 0
  }

  /** What MapGet answers. */
  function Seen(m: map<Key, seq<byte>>, key: Key): Option<seq<byte>> {
    if Overflown(m) then None else HashTable.Get(m, key)
  }

  /** Every key is seen with its value if and only if the node count has not gone round. */
  lemma {:induction false} SeenWhen(m: map<Key, seq<byte>>)
    ensures (forall key :: Seen(m, key) == HashTable.Get(m, key)) <==> !Overflown(m)
  {
    if Overflown(m) {
      var key :| key in m;
      assert Seen(m, key) != HashTable.Get(m, key);
    }
  }

  /** A map of fewer than 2^32 keys is seen as it is, and grows by no more than one key. */
  lemma {:induction false} FewAreSeen(m: map<Key, seq<byte>>, key: Key, value: seq<byte>)
    requires |m| < TWO_32
    ensures !Overflown(m) && Seen(m, key) == HashTable.Get(m, key)
    ensures |m - {key}| <= |m| && 0 < |m[key := value]| <= |m| + 1 && (Counter(|m|) == 0 <==> m == map[])
  {
    CounterRange(|m|);
    assert key in m[key := value];
    if key in m {
      assert (m - {key})[key := m[key]] == m;
    } else {
      assert m - {key} == m;
    }
  }

  /** The bucket count after setting a new key: 8 at first, then four times as many when there are no more than nodes. */
  function BucketsFor(nodeSize: nat, bucketSize: nat, mem: bool): nat {
    if nodeSize < bucketSize || !mem || bucketSize == TWO_31 then bucketSize
    else if bucketSize == 0 then 8 else 4 * bucketSize
  }

  /** As many buckets as nodes, or as many as there can be. */
  predicate Roomy(n: nat, bucketSize: nat) {
    n <= bucketSize || bucketSize == TWO_31
  }

  class HdfMap {
    var nodes: array?<MapNode?>
    var nodeSize: nat
    var bucketSize: nat
    ghost var layout: Layout

    ghost predicate Valid()
      reads this, nodes, layout.repr
    {
      Stores(nodes, |layout.contents|, bucketSize, layout) && nodeSize == Counter(|layout.contents|)
    }

    /** The finite map the table stands for. */
    ghost function Contents(): map<Key, seq<byte>>
      reads this
    {
      layout.contents
    }

    /** MapInit. */
    constructor ()
      ensures Valid() && Contents() == map[] && nodes == null && nodeSize == bucketSize == 0 && layout.repr == {}
    {
      nodes, nodeSize, bucketSize := null, 0, 0;
      layout := Layout([], {}, map[]);
      new;
      StoresNothing();
    }

    /** MapGet. */
    method Get(key: Key) returns (r: Option<seq<byte>>)
      requires Valid()
      ensures r == Seen(Contents(), key)
    {
      hide Stores, Counter;
      if nodeSize == 0 || nodes == null {
        NothingSeen(nodes, nodeSize, bucketSize, layout, key);
        return None;
      }
      var node, prev, idx, p := Find(nodes, bucketSize, key, |layout.contents|, layout);
      if node == null {
        return None;
      }
      return Some(node.value);
    }

    /**
      MapSet, unless the node count has gone round and the key is there: it would be stored twice.
      The result of MapResize is ignored: if there are no buckets and none can be allocated,
      adding a node dereferences a null pointer.
     */
    method Set(key: Key, value: seq<byte>, resizeMem: bool, nodeMem: bool) returns (s: Status)
      requires Valid() && !(Overflown(Contents()) && key in Contents())
      modifies this, nodes, layout.repr
      ensures Valid() && (nodes == old(nodes) || fresh(nodes)) && fresh(layout.repr - old(layout.repr))
      ensures s == SetStatus(old(Contents()), old(nodes) != null || resizeMem, key, value, nodeMem)
      ensures value == [] || |value| > 1000 || |key| > 1000 <==> s == InvalidParam
      ensures s != InvalidParam && key in old(Contents()) ==>
                s == if |old(Contents())[key]| == |value| then Success else InvalidObject
      ensures s != InvalidParam && key !in old(Contents()) ==>
                s == if !nodeMem then InvalidObject else if old(nodes) != null || resizeMem then Success else NullBuckets
      ensures Contents() == if s == Success then old(Contents())[key := value] else old(Contents())
      ensures nodes != null <==> old(nodes) != null || (resizeMem && Settable(key, value))
      ensures s != NullBuckets && resizeMem && old(Roomy(|Contents()|, bucketSize)) ==> Roomy(|Contents()|, bucketSize)
      ensures bucketSize == if s == InvalidParam || key in old(Contents()) then old(bucketSize)
                            else BucketsFor(old(nodeSize), old(bucketSize), resizeMem)
      ensures bucketSize == old(bucketSize) ==> nodes == old(nodes)
    {
      hide Stores, Counter;
      if value == [] || |value| > MAX_KEY || |key| > MAX_VALUE {
        return InvalidParam;
      }
      if nodeSize > 0 && nodes != null {
        var node, prev, idx, p := Find(nodes, bucketSize, key, |layout.contents|, layout);
        if node != null {
          if |node.value| != |value| {
            return InvalidObject;
          }
          Overwrite(nodes, node, value, |layout.contents|, bucketSize, layout, idx, p);
          layout := layout.(contents := layout.contents[key := value]);
          return Success;
        }
      } else {
        NothingSeen(nodes, nodeSize, bucketSize, layout, key);
      }
      s := SetNew(key, value, resizeMem, nodeMem);
    }

    /** MapSet for a key that is not stored, lines 152-166. */
    method SetNew(key: Key, value: seq<byte>, resizeMem: bool, nodeMem: bool) returns (s: Status)
      requires Valid() && key !in Contents()
      modifies this, nodes, layout.repr
      ensures Valid() && (nodes == old(nodes) || fresh(nodes)) && fresh(layout.repr - old(layout.repr))
      ensures s == if !nodeMem then InvalidObject else if old(nodes) != null || resizeMem then Success else NullBuckets
      ensures Contents() == if s == Success then old(Contents())[key := value] else old(Contents())
      ensures nodes != null <==> old(nodes) != null || resizeMem
      ensures s != NullBuckets && resizeMem && old(Roomy(|Contents()|, bucketSize)) ==> Roomy(|Contents()|, bucketSize)
      ensures bucketSize == BucketsFor(old(nodeSize), old(bucketSize), resizeMem)
      ensures bucketSize == old(bucketSize) ==> nodes == old(nodes)
    {
      hide Stores, Counter;
      Enlarge(resizeMem);
      if !nodeMem {
        return InvalidObject;
      }
      var node := new MapNode(key, Hash(key), value);
      if nodes == null {
        return NullBuckets;
      }
      layout := InsertNode(nodes, node, |layout.contents|, bucketSize, layout);
      CounterSteps(|old(layout.contents)|);
      nodeSize := (nodeSize + 1) % TWO_32;
      return Success;
    }

    /**
      The enlargement at lines 152-157, with the result of MapResize ignored. With 2^31 buckets the
      size asked for is cut to 0, and nothing is allocated.
     */
    method Enlarge(mem: bool)
      requires Valid()
      modifies this, layout.repr
      ensures Valid() && Contents() == old(Contents()) && nodeSize == old(nodeSize)
      ensures (nodes == old(nodes) || fresh(nodes)) && layout.repr <= old(layout.repr)
      ensures nodes != null <==> old(nodes) != null || mem
      ensures mem && old(Roomy(|Contents()|, bucketSize)) ==> Roomy(|Contents()| + 1, bucketSize)
      ensures bucketSize == BucketsFor(nodeSize, old(bucketSize), mem)
      ensures bucketSize == old(bucketSize) ==> nodes == old(nodes)
    {
      hide Stores, Counter, BucketSize, EnlargedSize, Rehash, TableOf;
      SizeFacts(nodes, |layout.contents|, bucketSize, layout);
      CounterRange(|layout.contents|);
      if nodeSize >= bucketSize {
        EnlargedIsBucketSize(bucketSize);
        var size := EnlargedSize(bucketSize);
        if mem && size > 0 {
          nodes, layout := Resize(nodes, size, |layout.contents|, bucketSize, layout);
          bucketSize := size;
        }
      }
    }

    /** MapErase. */
    method Erase(key: Key) returns (s: Status)
      requires Valid()
      modifies this, nodes, layout.repr
      ensures Valid() && nodes == old(nodes) && layout.repr == old(layout.repr) && bucketSize == old(bucketSize)
      ensures s == Success <==> Seen(old(Contents()), key).Some?
      ensures s != Success ==> s == if old(nodeSize) == 0 then InvalidParam else Failure
      ensures Contents() == if s == Success then old(Contents()) - {key} else old(Contents())
    {
      hide Stores, Counter;
      if nodeSize == 0 || nodes == null {
        NothingSeen(nodes, nodeSize, bucketSize, layout, key);
        return InvalidParam;
      }
      var node, prev, idx, p := Find(nodes, bucketSize, key, |layout.contents|, layout);
      if node == null {
        return Failure;
      }
      ghost var n := |layout.contents|;
      layout := EraseNode(nodes, HashIdx(bucketSize, Hash(key)), node, prev, n, bucketSize, layout, p);
      NodesAreKeys(nodes, n - 1, bucketSize, layout);
      CounterSteps(n - 1);
      nodeSize := nodeSize - 1;
      return Success;
    }

    /** MapDelete: every node of every chain is freed once. */
    method Delete() returns (freed: seq<MapNode>)
      requires Valid()
      modifies this
      ensures Valid() && Contents() == map[] && nodeSize == bucketSize == 0 && nodes == null && layout.repr == {}
      ensures Distinct(freed) && freed == Concat(old(layout.chains)) && |freed| == |old(Contents())|
    {
      hide Stores, BucketSize, Distinct, Counter;
      CounterRange(0);
      NodesOfChains(nodes, |layout.contents|, bucketSize, layout);
      freed := [];
      if nodes != null {
        freed := FreeChains(nodes, bucketSize, |layout.contents|, layout);
      }
      nodes, nodeSize, bucketSize := null, 0, 0;
      layout := Layout([], {}, map[]);
      StoresNothing();
    }
  }

  /** The nodes of all chains. */
  function Concat(chains: seq<seq<MapNode>>): seq<MapNode> {
    if chains == [] then [] else Concat(chains[..|chains| - 1]) + chains[|chains| - 1]
  }

  lemma {:induction false} ConcatCounts(chains: seq<seq<MapNode>>, repr: set<MapNode>)
    requires AllIn(chains, repr)
    ensures |Concat(chains)| == Count(TableOf(chains, repr))
  {
    if chains == [] {
      assert TableOf(chains, repr) == [];
    } else {
      var n := |chains| - 1;
      ConcatCounts(chains[..n], repr);
      assert TableOf(chains, repr)[..n] == TableOf(chains[..n], repr);
    }
  }

  lemma {:induction false} NodesOfChains(nodes: array?<MapNode?>, n: nat, b: nat, g: Layout)
    requires Stores(nodes, n, b, g)
    ensures |Concat(g.chains)| == n && (nodes == null ==> Concat(g.chains) == []) && Distinct([])
  {
    hide Represents, TableOf, Entries;
    SizeFacts(nodes, n, b, g);
    ConcatCounts(g.chains, g.repr);
  }

  lemma {:induction false} InSomeChain(chains: seq<seq<MapNode>>, node: MapNode)
    requires node in Concat(chains)
    ensures exists i :: 0 <= i < |chains| && node in chains[i]
  {
    if node in chains[|chains| - 1] {
    } else {
      InSomeChain(chains[..|chains| - 1], node);
    }
  }

  /** No node hangs in two places. */
  lemma {:induction false} ConcatDistinct(chains: seq<seq<MapNode>>, n: nat)
    requires n <= |chains| && Homed(chains)
    ensures Distinct(Concat(chains[..n]))
  {
    if n > 0 {
      ConcatDistinct(chains, n - 1);
      assert chains[..n][..n - 1] == chains[..n - 1];
      var before, last := Concat(chains[..n - 1]), chains[n - 1];
      forall p | 0 <= p < |before| ensures before[p] !in last {
        InSomeChain(chains[..n - 1], before[p]);
        var i :| 0 <= i < n - 1 && before[p] in chains[i];
        assert Belong(chains[i], |chains|, i) && Belong(last, |chains|, n - 1);
        Elsewhere(chains[i], last, |chains|, i, n - 1);
      }
      assert Distinct(last);
    }
  }

  /** The loops of MapDelete. */
  method FreeChains(nodes: array<MapNode?>, bucketSize: nat, ghost n: nat, ghost g: Layout) returns (freed: seq<MapNode>)
    requires Stores(nodes, n, bucketSize, g)
    ensures freed == Concat(g.chains) && Distinct(freed)
  {
    hide Stores, Linked, Homed, Distinct;
    ChainsHang(nodes, n, bucketSize, g);
    freed := [];
    for i := 0 to bucketSize
      invariant freed == Concat(g.chains[..i])
    {
      assert g.chains[..i + 1][..i] == g.chains[..i];
      var more := FreeChain(nodes[i], g.chains[i]);
      freed := freed + more;
    }
    assert g.chains[..|g.chains|] == g.chains;
    ConcatDistinct(g.chains, |g.chains|);
  }

  lemma {:induction false} ChainsHang(nodes: array<MapNode?>, n: nat, b: nat, g: Layout)
    requires Stores(nodes, n, b, g)
    ensures nodes.Length == b == |g.chains| && Homed(g.chains)
    ensures forall i :: 0 <= i < b ==> Linked(nodes[i], g.chains[i])
  {
    hide Represents, TableOf;
    forall i | 0 <= i < |g.chains| ensures Distinct(g.chains[i]) { NodesDistinct(nodes, n, b, g, i); }
  }

  method FreeChain(first: MapNode?, ghost c: seq<MapNode>) returns (freed: seq<MapNode>)
    requires Linked(first, c)
    ensures freed == c
  {
    freed := [];
    var node := first;
    while node != null
      invariant |freed| <= |c| && freed == c[..|freed|] && node == At(c, |freed|)
      decreases |c| - |freed|
    {
      assert c[|freed|].next == At(c, |freed| + 1);
      var next := node.next;
      freed := freed + [node];
      node := next;
    }
  }

  /** A key and a value of sizes that MapSet accepts. */
  predicate Settable(key: Key, value: seq<byte>) {
    value != [] && |value| <= MAX_KEY && |key| <= MAX_VALUE
  }

  /** What MapSet answers, as a function of the finite map and of whether there are buckets. */
  function SetStatus(m: map<Key, seq<byte>>, buckets: bool, key: Key, value: seq<byte>, nodeMem: bool): Status {
    if !Settable(key, value) then InvalidParam
    else if key in m then (if |m[key]| == |value| then Success else InvalidObject)
    else if !nodeMem then InvalidObject
    else if buckets then Success else NullBuckets
  }

  // ---------------------------------------------------------------- whole runs

  datatype MapOp =
    | DoSet(key: Key, value: seq<byte>, resizeMem: bool, nodeMem: bool)
    | DoGet(key: Key)
    | DoErase(key: Key)
    | DoDelete

  datatype Answer = Did(status: Status) | Got(value: Option<seq<byte>>) | Done

  /** A plain finite map, and whether buckets have been allocated. */
  datatype SpecMap = SpecMap(contents: map<Key, seq<byte>>, buckets: bool)

  /** The same operations on a finite map. */
  function SpecAnswer(m: SpecMap, op: MapOp): Answer {
    match op
    case DoSet(key, value, resizeMem, nodeMem) => Did(SetStatus(m.contents, m.buckets || resizeMem, key, value, nodeMem))
    case DoGet(key) => Got(HashTable.Get(m.contents, key))
    case DoErase(key) => Did(if key in m.contents then Success else if m.contents == map[] then InvalidParam else Failure)
    case DoDelete => Done
  }

  function SpecNext(m: SpecMap, op: MapOp): SpecMap {
    match op
    case DoSet(key, value, resizeMem, _) =>
      SpecMap(if SpecAnswer(m, op) == Did(Success) then m.contents[key := value] else m.contents,
              m.buckets || (resizeMem && Settable(key, value)))
    case DoGet(_) => m
    case DoErase(key) => m.(contents := m.contents - {key})
    case DoDelete => SpecMap(map[], false)
  }

  function SpecRun(ops: seq<MapOp>): SpecMap {
    if ops == [] then SpecMap(map[], false) else SpecNext(SpecRun(ops[..|ops| - 1]), ops[|ops| - 1])
  }

  lemma NothingRun(ops: seq<MapOp>)
    ensures SpecRun(ops[..0]) == SpecMap(map[], false) && Roomy(0, 0)
  {
  }

  lemma {:induction false} RunNext(ops: seq<MapOp>, i: nat)
    requires i < |ops|
    ensures SpecRun(ops[..i + 1]) == SpecNext(SpecRun(ops[..i]), ops[i])
  {
    assert ops[..i + 1][..i] == ops[..i];
  }

  /** The node count is the number of keys. */
  lemma {:induction false} NodesAreKeys(nodes: array?<MapNode?>, n: nat, b: nat, g: Layout)
    requires Stores(nodes, n, b, g)
    ensures n == |g.contents|
  {
    KeysCount(Entries(TableOf(g.chains, g.repr)), g.contents);
  }

  /** Setting a new key on a map without buckets, with memory for the node only, crashes. */
  lemma {:induction false} NullBucketsReached(key: Key, value: seq<byte>)
    requires Settable(key, value)
    ensures SpecAnswer(SpecRun([]), DoSet(key, value, false, true)) == Did(NullBuckets)
  {
  }

  /** One operation on a map that is not full. */
  method Step(m: HdfMap, op: MapOp) returns (a: Answer, full: bool)
    requires m.Valid() && |m.Contents()| < TWO_32
    modifies m, m.nodes, m.layout.repr
    ensures m.Valid() && (m.nodes == old(m.nodes) || m.nodes == null || fresh(m.nodes))
    ensures fresh(m.layout.repr - old(m.layout.repr))
    ensures var s := SpecMap(old(m.Contents()), old(m.nodes) != null);
            a == SpecAnswer(s, op) && SpecMap(m.Contents(), m.nodes != null) == SpecNext(s, op)
    ensures |m.Contents()| <= TWO_32 && (full <==> |m.Contents()| == TWO_32)
    ensures (op.DoSet? ==> op.resizeMem) && old(Roomy(|m.Contents()|, m.bucketSize)) ==>
              Roomy(|m.Contents()|, m.bucketSize)
  {
    hide Stores, HdfMap.Valid, Overflown, Seen, SetStatus, Counter;
    full := false;
    match op {
      case DoSet(key, value, resizeMem, nodeMem) =>
        a, full := StepSet(m, key, value, resizeMem, nodeMem);
      case DoGet(key) =>
        FewAreSeen(m.Contents(), key, []);
        var v := m.Get(key);
        a := Got(v);
      case DoErase(key) =>
        a := StepErase(m, key);
      case DoDelete =>
        var freed := m.Delete();
        a := Done;
    }
  }

  method StepSet(m: HdfMap, key: Key, value: seq<byte>, resizeMem: bool, nodeMem: bool) returns (a: Answer, full: bool)
    requires m.Valid() && |m.Contents()| < TWO_32
    modifies m, m.nodes, m.layout.repr
    ensures m.Valid() && (m.nodes == old(m.nodes) || fresh(m.nodes)) && fresh(m.layout.repr - old(m.layout.repr))
    ensures var s, op := SpecMap(old(m.Contents()), old(m.nodes) != null), DoSet(key, value, resizeMem, nodeMem);
            a == SpecAnswer(s, op) && SpecMap(m.Contents(), m.nodes != null) == SpecNext(s, op)
    ensures |m.Contents()| <= TWO_32 && (full <==> |m.Contents()| == TWO_32)
    ensures resizeMem && old(Roomy(|m.Contents()|, m.bucketSize)) ==> Roomy(|m.Contents()|, m.bucketSize)
  {
    hide Stores, Overflown, Seen, SetStatus, Counter;
    FewAreSeen(m.Contents(), key, value);
    NoCrash(m.Contents(), m.nodes != null || resizeMem, key, value, nodeMem);
    var s := m.Set(key, value, resizeMem, nodeMem);
    a := Did(s);
    CounterRange(|m.Contents()|);
    full := s == Success && m.nodeSize == 0;
  }

  method StepErase(m: HdfMap, key: Key) returns (a: Answer)
    requires m.Valid() && |m.Contents()| < TWO_32
    modifies m, m.nodes, m.layout.repr
    ensures m.Valid() && m.nodes == old(m.nodes) && m.layout.repr == old(m.layout.repr)
    ensures var s := SpecMap(old(m.Contents()), old(m.nodes) != null);
            a == SpecAnswer(s, DoErase(key)) && SpecMap(m.Contents(), m.nodes != null) == SpecNext(s, DoErase(key))
    ensures |m.Contents()| <= old(|m.Contents()|) && m.bucketSize == old(m.bucketSize)
  {
    hide Stores, Overflown, Seen, Counter;
    FewAreSeen(m.Contents(), key, []);
    var s := m.Erase(key);
    a := Did(s);
    assert key !in old(m.Contents()) ==> old(m.Contents()) - {key} == old(m.Contents());
  }

  lemma CountIsKeys(m: HdfMap)
    requires m.Valid()
    ensures m.nodeSize == Counter(|m.Contents()|)
  {
  }

  lemma NoCrash(m: map<Key, seq<byte>>, buckets: bool, key: Key, value: seq<byte>, nodeMem: bool)
    ensures buckets ==> SetStatus(m, buckets, key, value, nodeMem) != NullBuckets
  {
  }

  /**
    Every run from MapInit answers as a finite map does, whatever allocations fail on the way, up
    to the first set of a new key that finds no buckets and gets memory for the node only, or that
    makes the keys 2^32. At its end the node count is the number of keys, and with no failed bucket
    allocation there are as many buckets, or 2^31.
   */
  method RunFromInit(ops: seq<MapOp>) returns (answers: seq<Answer>, nodeSize: nat, bucketSize: nat)
    ensures Answered(ops, answers)
    ensures nodeSize == Counter(|SpecRun(ops[..|answers|]).contents|)
    ensures (forall i :: 0 <= i < |ops| && ops[i].DoSet? ==> ops[i].resizeMem) ==>
              Roomy(|SpecRun(ops[..|answers|]).contents|, bucketSize)
    ensures |answers| < |ops| ==>
              && answers != []
              && (answers[|answers| - 1] == Did(NullBuckets) || |SpecRun(ops[..|answers|]).contents| == TWO_32)
  {
    hide Stores, HdfMap.Valid, SpecAnswer, SpecNext, SpecRun, Answered, Roomy;
    var m := new HdfMap();
    answers, nodeSize, bucketSize := [], 0, 0;
    NothingRun(ops);
    NothingAnswered(ops);
    for i := 0 to |ops|
      invariant fresh(m) && (m.nodes == null || fresh(m.nodes)) && fresh(m.layout.repr)
      invariant nodeSize == m.nodeSize == Counter(|m.Contents()|) && |m.Contents()| < TWO_32 && bucketSize == m.bucketSize
      invariant (forall k :: 0 <= k < |ops| && ops[k].DoSet? ==> ops[k].resizeMem) ==> Roomy(|m.Contents()|, m.bucketSize)
      invariant m.Valid() && SpecMap(m.Contents(), m.nodes != null) == SpecRun(ops[..i])
      invariant |answers| == i && Answered(ops, answers)
      invariant answers != [] ==> answers[i - 1] != Did(NullBuckets)
    {
      var a, full := Step(m, ops[i]);
      AnsweredNext(ops, answers, a);
      answers := answers + [a];
      RunNext(ops, i);
      CountIsKeys(m);
      nodeSize, bucketSize := m.nodeSize, m.bucketSize;
      if full || a == Did(NullBuckets) {
        return;
      }
    }
  }

  /** The answers are those of the finite map, and only the last one can be a crash. */
  ghost predicate Answered(ops: seq<MapOp>, answers: seq<Answer>) {
    && |answers| <= |ops|
    && (forall k :: 0 <= k < |answers| ==> answers[k] == SpecAnswer(SpecRun(ops[..k]), ops[k]))
    && (forall k :: 0 <= k < |answers| - 1 ==> answers[k] != Did(NullBuckets))
  }

  lemma NothingAnswered(ops: seq<MapOp>)
    ensures Answered(ops, [])
  {
  }

  lemma AnsweredNext(ops: seq<MapOp>, before: seq<Answer>, a: Answer)
    requires Answered(ops, before) && |before| < |ops|
    requires before != [] ==> before[|before| - 1] != Did(NullBuckets)
    requires a == SpecAnswer(SpecRun(ops[..|before|]), ops[|before|])
    ensures Answered(ops, before + [a])
  {
    hide SpecAnswer, SpecRun;
    var after := before + [a];
    forall k | 0 <= k < |after| ensures after[k] == SpecAnswer(SpecRun(ops[..k]), ops[k]) {
      assert k < |before| ==> after[k] == before[k];
    }
    forall k | 0 <= k < |after| - 1 ensures after[k] != Did(NullBuckets) {
      assert after[k] == before[k];
    }
  }
}
