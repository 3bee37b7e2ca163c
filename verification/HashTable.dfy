/**
  The chained hash table of utils/src/hdf_map.c on values: buckets of entries, the
  bucket arithmetic, and what resizing preserves. The heap form is in HashMap.dfy.
 */
module HashTable {
  import opened Bytes

  // ---------------------------------------------------------------- bucket arithmetic

  function Pow2(k: nat): (r: nat)
    ensures r >= 1
  {
    if k == 0 then 1 else 2 * Pow2(k - 1)
  }

  /** Bitwise and of unsigned integers. */
  function BitAnd(x: nat, y: nat): nat {
    if x == 0 || y == 0 then 0
    else 2 * BitAnd(x / 2, y / 2) + if x % 2 == 1 && y % 2 == 1 then 1 else 0
  }

  lemma {:induction false} BitAndMask(x: nat, k: nat)
    ensures BitAnd(x, Pow2(k) - 1) == x % Pow2(k)
  {
    if k > 0 {
      BitAndMask(x / 2, k - 1);
      MaskTwice(x, Pow2(k - 1));
    }
  }

  lemma {:induction false} MaskTwice(x: nat, p: nat)
    requires p > 0 && BitAnd(x / 2, p - 1) == x / 2 % p
    ensures BitAnd(x, 2 * p - 1) == x % (2 * p)
  {
    hide BitAnd;
    BitAndStep(x, p);
    ModTwice(x, p);
  }

  lemma {:induction false} BitAndStep(x: nat, p: nat)
    requires p > 0
    ensures BitAnd(x, 2 * p - 1) == 2 * BitAnd(x / 2, p - 1) + x % 2
  {
    var y := 2 * p - 1;
    assert y / 2 == p - 1 && y % 2 == 1;
  }

  lemma {:induction false} ModTwice(x: nat, p: nat)
    requires p > 0
    ensures x % (2 * p) == 2 * (x / 2 % p) + x % 2
  {
    var q, r := x / 2 / p, x / 2 % p;
    assert x == 2 * (q * p + r) + x % 2;
    assert x == q * (2 * p) + (2 * r + x % 2) by { assert 2 * (q * p) == q * (2 * p); }
    ModUnique(x, 2 * p, q, 2 * r + x % 2);
  }

  const MIN_MAP_SIZE := 8
  const ENLARGE_FACTOR := 4   // a shift by HDF_ENLARGE_FACTOR == 2

  /** The sizes a table can have: 0 and 8 * 4^j. */
  ghost predicate BucketSize(b: nat) {
    b == 0 || exists j: nat :: b == Pow2(2 * j + 3)
  }

  /** The size MapSet asks MapResize for. */
  function EnlargedSize(bucketSize: nat): nat {
    if bucketSize < MIN_MAP_SIZE then MIN_MAP_SIZE else bucketSize * ENLARGE_FACTOR % TWO_32
  }

  /** The next size is again such a size and larger, except that after 2^31 it is cut to 0. */
  lemma {:induction false} EnlargedIsBucketSize(b: nat)
    requires BucketSize(b) && b <= TWO_31
    ensures BucketSize(EnlargedSize(b)) && EnlargedSize(b) <= TWO_31
    ensures EnlargedSize(b) == if b == 0 then 8 else if b < TWO_31 then 4 * b else 0
    ensures b < TWO_31 ==> b < EnlargedSize(b)
  {
    hide Pow2;
    if b == 0 {
      PowersOfTwo();
      assert EnlargedSize(b) == Pow2(2 * 0 + 3);
    } else if b < TWO_31 {
      var j: nat :| b == Pow2(2 * j + 3);
      SmallPower(2 * j + 3);
      FourTimes(b);
      NextPower(j);
      assert EnlargedSize(b) == Pow2(2 * (j + 1) + 3);
    } else {
      assert EnlargedSize(b) == 0;
    }
  }

  lemma FourTimes(b: nat)
    requires 8 <= b <= 0x2000_0000
    ensures EnlargedSize(b) == 4 * b
  {
  }

  lemma {:induction false} NextPower(j: nat)
    ensures Pow2(2 * (j + 1) + 3) == 4 * Pow2(2 * j + 3)
  {
    assert Pow2(2 * j + 5) == 2 * Pow2(2 * j + 4);
    assert Pow2(2 * j + 4) == 2 * Pow2(2 * j + 3);
  }

  /** A power of two at least 8 and below 2^31 with an odd exponent is at most 2^29. */
  lemma {:induction false} SmallPower(k: nat)
    requires k % 2 == 1 && 3 <= k && Pow2(k) < TWO_31
    ensures 8 <= Pow2(k) <= 0x2000_0000
  {
    assert Pow2(3) == 8 && Pow2(29) == 0x2000_0000 && Pow2(31) == TWO_31 by { PowersOfTwo(); }
    PowMonotone(3, k);
    if k > 29 {
      PowMonotone(31, k);
    } else {
      PowMonotone(k, 29);
    }
  }

  lemma {:induction false} PowersOfTwo()
    ensures Pow2(3) == 8 && Pow2(29) == 0x2000_0000 && Pow2(31) == TWO_31
  {
    assert Pow2(8) == 256;
    assert Pow2(16) == 0x1_0000 by { assert Pow2(12) == 16 * Pow2(8); assert Pow2(16) == 16 * Pow2(12); }
    assert Pow2(24) == 0x100_0000 by { assert Pow2(20) == 16 * Pow2(16); assert Pow2(24) == 16 * Pow2(20); }
    assert Pow2(28) == 16 * Pow2(24);
    assert Pow2(29) == 2 * Pow2(28) && Pow2(31) == 4 * Pow2(29);
  }

  lemma {:induction false} PowMonotone(a: nat, b: nat)
    requires a <= b
    ensures Pow2(a) <= Pow2(b)
    decreases b
  {
    if a < b {
      PowMonotone(a, b - 1);
    }
  }

  // ---------------------------------------------------------------- keys and hashing

  /** A char of a key: nonzero, and signed or unsigned as the platform has it. */
  type KeyChar = c: int | -128 <= c < 256 && c != 0 witness 1

  type Key = seq<KeyChar>

  const HASH_SEED := 131

  /** The loop of MapHash, in 32-bit arithmetic. */
  function HashLoop(key: Key): (h: nat)
    ensures h < TWO_32
  {
    if key == [] then 0 else (HashLoop(key[..|key| - 1]) * HASH_SEED + key[|key| - 1]) % TWO_32
  }

  function Hash(key: Key): (h: nat) {
    BitAnd(HashLoop(key), 0x7FFF_FFFF)
  }

  /** The characters as digits to the base 131, without a limit. */
  function Digits(key: Key): int {
    if key == [] then 0 else Digits(key[..|key| - 1]) * 131 + key[|key| - 1]
  }

  /** MapHash is the key read as a number to the base 131, modulo 2^31. */
  lemma {:induction false} HashIsNumber(key: Key)
    ensures Hash(key) == Digits(key) % 0x8000_0000
  {
    LoopIsNumber(key);
    assert Pow2(31) == TWO_31 by { PowersOfTwo(); }
    BitAndMask(HashLoop(key), 31);
    ModOfMod(Digits(key));
  }

  lemma {:induction false} ModOfMod(d: int)
    ensures d % TWO_32 % 0x8000_0000 == d % 0x8000_0000
  {
    var r := d % TWO_32;
    ModUnique(d, 0x8000_0000, 2 * (d / TWO_32) + r / 0x8000_0000, r % 0x8000_0000);
  }

  /** One more digit may be added before or after the number is cut to 32 bits. */
  lemma {:induction false} NextDigit(d: int, c: int)
    ensures (d % TWO_32 * 131 + c) % TWO_32 == (d * 131 + c) % TWO_32
  {
    var q, e := d / TWO_32, d % TWO_32 * 131 + c;
    assert d == q * TWO_32 + d % TWO_32;
    ModUnique(d * 131 + c, TWO_32, q * 131 + e / TWO_32, e % TWO_32);
  }

  lemma {:induction false} LoopIsNumber(key: Key)
    ensures HashLoop(key) == Digits(key) % TWO_32
  {
    if key != [] {
      var d := Digits(key[..|key| - 1]);
      LoopIsNumber(key[..|key| - 1]);
      NextDigit(d, key[|key| - 1]);
    }
  }

  /** MapHashIdx. */
  function HashIdx(bucketSize: nat, hash: nat): nat
    requires bucketSize > 0
  {
    BitAnd(hash, bucketSize - 1)
  }

  /** For the sizes that occur, the masked hash is the hash modulo the size. */
  lemma {:induction false} HashIdxIsMod(bucketSize: nat, hash: nat)
    requires bucketSize > 0 && BucketSize(bucketSize)
    ensures HashIdx(bucketSize, hash) == hash % bucketSize < bucketSize
  {
    var j: nat :| bucketSize == Pow2(2 * j + 3);
    BitAndMask(hash, 2 * j + 3);
  }

  // ---------------------------------------------------------------- tables

  datatype Entry = Entry(key: Key, value: seq<byte>)

  type Chain = seq<Entry>

  type Table = seq<Chain>

  function Home(t: Table, key: Key): (i: nat)
    requires |t| > 0
  {
    HashIdx(|t|, Hash(key))
  }

  function FindInChain(c: Chain, key: Key): Option<seq<byte>> {
    if c == [] then None
    else if c[0].key == key then Some(c[0].value)
    else FindInChain(c[1..], key)
  }

  /** Every entry sits in the chain of its own index. */
  ghost predicate Placed(t: Table) {
    && BucketSize(|t|)
    && forall i, e :: 0 <= i < |t| && e in t[i] ==> Home(t, e.key) == i
  }

  lemma {:induction false} HomeInRange(t: Table, key: Key)
    requires |t| > 0 && BucketSize(|t|)
    ensures Home(t, key) < |t|
  {
    HashIdxIsMod(|t|, Hash(key));
  }

  ghost function Lookup(t: Table, key: Key): Option<seq<byte>>
    requires BucketSize(|t|)
  {
    if |t| == 0 then None else
      HomeInRange(t, key);
      FindInChain(t[Home(t, key)], key)
  }

  /** All entries of a table, with multiplicity. */
  ghost function Entries(t: Table): multiset<Entry> {
    if t == [] then multiset{} else Entries(t[..|t| - 1]) + multiset(t[|t| - 1])
  }

  /** The sum of the chain lengths. */
  ghost function Count(t: Table): nat {
    |Entries(t)|
  }

  ghost predicate KeysUnique(es: multiset<Entry>) {
    forall e, f :: e in es && f in es && e.key == f.key ==> e == f && es[e] == 1
  }

  ghost predicate WellFormed(t: Table) {
    Placed(t) && KeysUnique(Entries(t))
  }

  lemma {:induction false} EntriesUpdate(t: Table, i: nat, c: Chain)
    requires i < |t|
    ensures Entries(t[i := c]) + multiset(t[i]) == Entries(t) + multiset(c)
  {
    var n := |t| - 1;
    if i == n {
      assert t[i := c][..n] == t[..n];
    } else {
      var p := t[..n];
      assert t[i := c][..n] == p[i := c];
      EntriesUpdate(p, i, c);
      assert Entries(t[i := c]) == Entries(p[i := c]) + multiset(t[n]);
      assert Entries(t) == Entries(p) + multiset(t[n]) && p[i] == t[i];
      Regroup(Entries(p[i := c]), multiset(t[i]), multiset(t[n]));
      Regroup(Entries(p), multiset(c), multiset(t[n]));
    }
  }

  lemma Regroup<T>(x: multiset<T>, y: multiset<T>, z: multiset<T>)
    ensures x + z + y == x + y + z
  {
  }

  lemma {:induction false} Cancel<T>(x: multiset<T>, y: multiset<T>, z: multiset<T>)
    requires x + z == y + z
    ensures x == y
  {
    assert x == x + z - z && y == y + z - z;
  }

  lemma {:induction false} ChainInEntries(t: Table, i: nat)
    requires i < |t|
    ensures multiset(t[i]) <= Entries(t)
  {
    if i < |t| - 1 {
      ChainInEntries(t[..|t| - 1], i);
    }
  }

  lemma {:induction false} EntryInChain(t: Table, e: Entry)
    requires e in Entries(t)
    ensures exists i :: 0 <= i < |t| && e in t[i]
  {
    var n := |t| - 1;
    if e in t[n] {
    } else {
      EntryInChain(t[..n], e);
      var i :| 0 <= i < n && e in t[..n][i];
      assert e in t[i];
    }
  }

  lemma {:induction false} FindMeansMember(c: Chain, key: Key)
    ensures FindInChain(c, key).Some? ==> Entry(key, FindInChain(c, key).value) in c
    ensures FindInChain(c, key).None? ==> forall e :: e in c ==> e.key != key
  {
    if c != [] {
      assert forall e :: e in c <==> e == c[0] || e in c[1..];
      FindMeansMember(c[1..], key);
    }
  }

  /** In a well-formed table a key is found with exactly the value of its entry. */
  lemma {:induction false} LookupIsEntry(t: Table, key: Key, value: seq<byte>)
    requires WellFormed(t)
    ensures Lookup(t, key) == Some(value) <==> Entry(key, value) in Entries(t)
  {
    if |t| > 0 {
      HomeInRange(t, key);
      var i := Home(t, key);
      FindMeansMember(t[i], key);
      ChainInEntries(t, i);
      var e := Entry(key, value);
      if e in Entries(t) {
        EntryInChain(t, e);
        assert e in t[i];
        var v := FindInChain(t[i], key).value;
        assert Entry(key, v) in Entries(t);
      }
    }
  }

  // ---------------------------------------------------------------- adding and resizing

  /** MapAddNode. */
  ghost function AddEntry(t: Table, e: Entry): (r: Table)
    requires |t| > 0 && BucketSize(|t|)
    ensures |r| == |t|
  {
    HomeInRange(t, e.key);
    var i := Home(t, e.key);
    t[i := [e] + t[i]]
  }

  lemma {:induction false} AddEntryKeeps(t: Table, e: Entry)
    requires |t| > 0 && Placed(t)
    ensures Placed(AddEntry(t, e))
    ensures Entries(AddEntry(t, e)) == Entries(t) + multiset{e}
  {
    HomeInRange(t, e.key);
    var i := Home(t, e.key);
    EntriesUpdate(t, i, [e] + t[i]);
    assert Entries(t) + multiset([e] + t[i]) == Entries(t) + multiset{e} + multiset(t[i]);
    Cancel(Entries(AddEntry(t, e)), Entries(t) + multiset{e}, multiset(t[i]));
  }

  /** The inner loop of MapResize: a chain moved entry by entry into t. */
  ghost function MoveChain(c: Chain, t: Table): (r: Table)
    requires |t| > 0 && BucketSize(|t|)
    ensures |r| == |t|
  {
    if c == [] then t else MoveChain(c[1..], AddEntry(t, c[0]))
  }

  lemma {:induction false} HeadAndTail(c: Chain, es: multiset<Entry>)
    requires c != []
    ensures es + multiset{c[0]} + multiset(c[1..]) == es + multiset(c)
  {
    assert c == [c[0]] + c[1..];
  }

  lemma {:induction false} MoveChainKeeps(c: Chain, t: Table)
    requires |t| > 0 && Placed(t)
    ensures Placed(MoveChain(c, t))
    ensures Entries(MoveChain(c, t)) == Entries(t) + multiset(c)
  {
    if c != [] {
      var u := AddEntry(t, c[0]);
      AddEntryKeeps(t, c[0]);
      MoveChainKeeps(c[1..], u);
      HeadAndTail(c, Entries(t));
    }
  }

  lemma {:induction false} MoveChainSnoc(c: Chain, e: Entry, t: Table)
    requires |t| > 0 && BucketSize(|t|)
    ensures MoveChain(c + [e], t) == AddEntry(MoveChain(c, t), e)
  {
    if c == [] {
      assert c + [e] == [e] && [e][1..] == [];
    } else {
      assert (c + [e])[1..] == c[1..] + [e];
      MoveChainSnoc(c[1..], e, AddEntry(t, c[0]));
    }
  }

  lemma {:induction false} MoveChainNext(c: Chain, p: nat, t: Table)
    requires p < |c| && |t| > 0 && BucketSize(|t|)
    ensures MoveChain(c[..p + 1], t) == AddEntry(MoveChain(c[..p], t), c[p])
  {
    assert c[..p + 1] == c[..p] + [c[p]];
    MoveChainSnoc(c[..p], c[p], t);
  }

  /** The outer loop of MapResize: the first n chains moved into an empty table. */
  ghost function MoveTable(source: Table, n: nat, size: nat): (r: Table)
    requires n <= |source| && size > 0 && BucketSize(size)
    ensures |r| == size
  {
    if n == 0 then seq(size, _ => []) else MoveChain(source[n - 1], MoveTable(source, n - 1, size))
  }

  ghost function Rehash(t: Table, size: nat): (r: Table)
    requires size > 0 && BucketSize(size)
  {
    MoveTable(t, |t|, size)
  }

  lemma {:induction false} EmptyTable(size: nat)
    ensures Entries(seq(size, _ => [])) == multiset{}
  {
    if size > 0 {
      EmptyTable(size - 1);
      var t: Table := seq(size, _ => []);
      assert t[..size - 1] == seq(size - 1, _ => []);
    }
  }

  lemma {:induction false} MoveTableKeeps(t: Table, n: nat, size: nat)
    requires n <= |t| && size > 0 && BucketSize(size)
    ensures Placed(MoveTable(t, n, size))
    ensures Entries(MoveTable(t, n, size)) == Entries(t[..n])
  {
    if n == 0 {
      EmptyTable(size);
      assert t[..0] == [];
    } else {
      var p := t[..n];
      MoveTableKeeps(t, n - 1, size);
      MoveChainKeeps(t[n - 1], MoveTable(t, n - 1, size));
      assert p[..n - 1] == t[..n - 1] && p[n - 1] == t[n - 1];
      assert Entries(p) == Entries(p[..n - 1]) + multiset(p[n - 1]);
    }
  }

  /** Resizing loses, duplicates and alters nothing. */
  lemma {:induction false} RehashKeepsEntries(t: Table, size: nat)
    requires WellFormed(t) && size > 0 && BucketSize(size)
    ensures WellFormed(Rehash(t, size)) && |Rehash(t, size)| == size
    ensures Entries(Rehash(t, size)) == Entries(t)
  {
    MoveTableKeeps(t, |t|, size);
    assert t[..|t|] == t;
  }

  /** After resizing every key is found with the value it had. */
  lemma {:induction false} RehashKeepsLookup(t: Table, size: nat, key: Key)
    requires WellFormed(t) && size > 0 && BucketSize(size)
    ensures BucketSize(|Rehash(t, size)|) && Lookup(Rehash(t, size), key) == Lookup(t, key)
  {
    RehashKeepsEntries(t, size);
    SameEntriesSameLookup(t, Rehash(t, size), key);
  }

  lemma {:induction false} SameEntriesSameLookup(t: Table, r: Table, key: Key)
    requires WellFormed(t) && WellFormed(r) && Entries(t) == Entries(r)
    ensures Lookup(r, key) == Lookup(t, key)
  {
    if Lookup(t, key).Some? {
      LookupIsEntry(t, key, Lookup(t, key).value);
      LookupIsEntry(r, key, Lookup(t, key).value);
    } else if Lookup(r, key).Some? {
      LookupIsEntry(r, key, Lookup(r, key).value);
      LookupIsEntry(t, key, Lookup(r, key).value);
    }
  }

  // ---------------------------------------------------------------- agreement with a finite map

  /** The entries are exactly the associations of m. */
  ghost predicate Agrees(es: multiset<Entry>, m: map<Key, seq<byte>>) {
    forall e :: e in es <==> e.key in m && m[e.key] == e.value
  }

  function Get(m: map<Key, seq<byte>>, key: Key): Option<seq<byte>> {
    if key in m then Some(m[key]) else None
  }

  lemma {:induction false} LookupAgrees(t: Table, m: map<Key, seq<byte>>, key: Key)
    requires WellFormed(t) && Agrees(Entries(t), m)
    ensures Lookup(t, key) == Get(m, key)
  {
    if Lookup(t, key).Some? {
      LookupIsEntry(t, key, Lookup(t, key).value);
      assert Entry(key, Lookup(t, key).value) in Entries(t);
    } else if key in m {
      LookupIsEntry(t, key, m[key]);
      assert Entry(key, m[key]) in Entries(t);
    }
  }

  lemma AgreesInsert(es: multiset<Entry>, m: map<Key, seq<byte>>, e: Entry)
    requires KeysUnique(es) && Agrees(es, m) && e.key !in m
    ensures KeysUnique(es + multiset{e}) && Agrees(es + multiset{e}, m[e.key := e.value])
  {
  }

  lemma {:induction false} AgreesRemove(es: multiset<Entry>, es': multiset<Entry>, m: map<Key, seq<byte>>, e: Entry)
    requires KeysUnique(es) && Agrees(es, m) && es' + multiset{e} == es
    ensures KeysUnique(es') && Agrees(es', m - {e.key}) && e.key in m
  {
    assert e in es && es[e] == 1;
    assert forall f :: es[f] == es'[f] + multiset{e}[f];
  }

  lemma Reinserted(m: map<Key, seq<byte>>, key: Key, value: seq<byte>)
    ensures (m - {key})[key := value] == m[key := value]
  {
  }

  lemma {:induction false} Exchanged(es: multiset<Entry>, es': multiset<Entry>, e: Entry, f: Entry)
    requires e in es && es' + multiset{e} == es + multiset{f}
    ensures es' == es - multiset{e} + multiset{f}
  {
    var rest := es - multiset{e};
    assert es + multiset{f} == rest + multiset{f} + multiset{e};
    Cancel(es', rest + multiset{f}, multiset{e});
  }

  lemma {:induction false} AgreesReplace(es: multiset<Entry>, es': multiset<Entry>, m: map<Key, seq<byte>>,
                                         e: Entry, value: seq<byte>)
    requires KeysUnique(es) && Agrees(es, m) && e in es
    requires es' + multiset{e} == es + multiset{Entry(e.key, value)}
    ensures KeysUnique(es') && Agrees(es', m[e.key := value])
  {
    var rest, f := es - multiset{e}, Entry(e.key, value);
    AgreesRemove(es, rest, m, e);
    AgreesInsert(rest, m - {e.key}, f);
    Exchanged(es, es', e, f);
    Reinserted(m, e.key, value);
  }

  /** Replacing an element of one chain by others changes the entries accordingly. */
  lemma {:induction false} ChainReplaced(t: Table, i: nat, p: nat, mid: Chain)
    requires i < |t| && p < |t[i]| && Placed(t)
    requires forall e :: e in mid ==> e.key == t[i][p].key
    ensures var t' := t[i := t[i][..p] + mid + t[i][p + 1..]];
            Placed(t') && Entries(t') + multiset{t[i][p]} == Entries(t) + multiset(mid)
  {
    var c, x := t[i], t[i][p];
    var d := c[..p] + mid + c[p + 1..];
    var t' := t[i := d];
    assert c == c[..p] + [x] + c[p + 1..];
    EntriesUpdate(t, i, d);
    SwapMiddle(Entries(t'), Entries(t), c[..p], x, mid, c[p + 1..]);
    StillPlaced(t, i, p, mid);
  }

  lemma {:induction false} StillPlaced(t: Table, i: nat, p: nat, mid: Chain)
    requires i < |t| && p < |t[i]| && Placed(t)
    requires forall e :: e in mid ==> e.key == t[i][p].key
    ensures Placed(t[i := t[i][..p] + mid + t[i][p + 1..]])
  {
    var c := t[i];
    var t' := t[i := c[..p] + mid + c[p + 1..]];
    forall j, e: Entry | 0 <= j < |t'| && e in t'[j] ensures Home(t', e.key) == j {
      if j == i {
        assert e in c[..p] || e in mid || e in c[p + 1..];
        assert c[p] in c && (e in c || e.key == c[p].key);
      }
    }
  }

  lemma {:induction false} SwapMiddle(x: multiset<Entry>, y: multiset<Entry>, a: Chain, e: Entry, mid: Chain, b: Chain)
    requires x + multiset(a + [e] + b) == y + multiset(a + mid + b)
    ensures x + multiset{e} == y + multiset(mid)
  {
    var z := multiset(a) + multiset(b);
    assert multiset(a + [e] + b) == multiset{e} + z;
    assert multiset(a + mid + b) == multiset(mid) + z;
    assert x + multiset{e} + z == x + (multiset{e} + z);
    assert y + multiset(mid) + z == y + (multiset(mid) + z);
    Cancel(x + multiset{e}, y + multiset(mid), z);
  }

  /** Two positions of a chain of a well-formed table hold different keys. */
  lemma {:induction false} ChainKeysDistinct(t: Table, i: nat, p: nat, q: nat)
    requires WellFormed(t) && i < |t| && p < q < |t[i]|
    ensures t[i][p].key != t[i][q].key
  {
    ChainInEntries(t, i);
    var c := t[i];
    assert c[p] in c && c[q] in c;
    assert c[p] in Entries(t) && c[q] in Entries(t);
    if c[p] == c[q] {
      TwiceInChain(c, p, q);
    }
  }

  lemma {:induction false} TwiceInChain(c: Chain, p: nat, q: nat)
    requires p < q < |c| && c[p] == c[q]
    ensures multiset(c)[c[p]] >= 2
  {
    assert c == c[..q] + [c[q]] + c[q + 1..] && c[..q][p] == c[p];
    assert multiset(c) == multiset(c[..q]) + multiset{c[q]} + multiset(c[q + 1..]);
  }

  // ---------------------------------------------------------------- a table of n entries standing for m

  /** There are as many entries as keys. */
  lemma {:induction false} KeysCount(es: multiset<Entry>, m: map<Key, seq<byte>>)
    requires KeysUnique(es) && Agrees(es, m)
    ensures |es| == |m|
    decreases |m|
  {
    if m == map[] {
      assert forall e :: e !in es;
      assert es == multiset{};
    } else {
      var key :| key in m;
      var e := Entry(key, m[key]);
      assert e in es;
      var rest := es - multiset{e};
      assert rest + multiset{e} == es;
      AgreesRemove(es, rest, m, e);
      assert m.Keys == (m - {key}).Keys + {key};
      KeysCount(rest, m - {key});
    }
  }

  ghost predicate Represents(t: Table, n: nat, m: map<Key, seq<byte>>) {
    WellFormed(t) && n == Count(t) && Agrees(Entries(t), m)
  }

  lemma EmptyRepresents()
    ensures Represents([], 0, map[])
  {
  }

  lemma {:induction false} RehashRepresents(t: Table, n: nat, m: map<Key, seq<byte>>, size: nat)
    requires Represents(t, n, m) && size > 0 && BucketSize(size)
    ensures Represents(Rehash(t, size), n, m)
  {
    RehashKeepsEntries(t, size);
  }

  lemma {:induction false} AddRepresents(t: Table, n: nat, m: map<Key, seq<byte>>, e: Entry)
    requires Represents(t, n, m) && |t| > 0 && e.key !in m
    ensures Represents(AddEntry(t, e), n + 1, m[e.key := e.value])
  {
    AddEntryKeeps(t, e);
    AgreesInsert(Entries(t), m, e);
    assert |Entries(t) + multiset{e}| == |Entries(t)| + 1;
  }

  /** The table with the p-th entry of chain i replaced. */
  function Patched(t: Table, i: nat, p: nat, mid: Chain): (r: Table)
    requires i < |t| && p < |t[i]|
  {
    t[i := t[i][..p] + mid + t[i][p + 1..]]
  }

  lemma {:induction false} StoredEntry(t: Table, n: nat, m: map<Key, seq<byte>>, i: nat, p: nat)
    requires Represents(t, n, m) && i < |t| && p < |t[i]|
    ensures t[i][p] in Entries(t) && t[i][p].key in m && m[t[i][p].key] == t[i][p].value
  {
    ChainInEntries(t, i);
    assert t[i][p] in t[i];
  }

  lemma {:induction false} UpdateRepresents(t: Table, n: nat, m: map<Key, seq<byte>>, i: nat, p: nat, value: seq<byte>)
    requires Represents(t, n, m) && i < |t| && p < |t[i]|
    ensures var key := t[i][p].key;
            Represents(Patched(t, i, p, [Entry(key, value)]), n, m[key := value])
  {
    var e := t[i][p];
    var f := Entry(e.key, value);
    var r := Patched(t, i, p, [f]);
    StoredEntry(t, n, m, i, p);
    ChainReplaced(t, i, p, [f]);
    assert multiset([f]) == multiset{f};
    AgreesReplace(Entries(t), Entries(r), m, e, value);
    SameSize(Entries(t), Entries(r), e, f);
  }

  lemma {:induction false} SameSize(es: multiset<Entry>, es': multiset<Entry>, e: Entry, f: Entry)
    requires es' + multiset{e} == es + multiset{f}
    ensures |es'| == |es|
  {
    assert |es' + multiset{e}| == |es'| + 1 && |es + multiset{f}| == |es| + 1;
  }

  lemma {:induction false} EraseRepresents(t: Table, n: nat, m: map<Key, seq<byte>>, i: nat, p: nat)
    requires Represents(t, n, m) && i < |t| && p < |t[i]|
    ensures n > 0 && Represents(Patched(t, i, p, []), n - 1, m - {t[i][p].key})
  {
    var e, r := t[i][p], Patched(t, i, p, []);
    ChainReplaced(t, i, p, []);
    assert Entries(r) + multiset{e} == Entries(t);
    AgreesRemove(Entries(t), Entries(r), m, e);
    assert |Entries(r) + multiset{e}| == |Entries(r)| + 1;
  }

  /** A key that its own chain does not hold is not stored. */
  lemma {:induction false} NotStored(t: Table, n: nat, m: map<Key, seq<byte>>, key: Key)
    requires Represents(t, n, m)
    requires |t| > 0 ==> Home(t, key) < |t| && forall e :: e in t[Home(t, key)] ==> e.key != key
    ensures key !in m
  {
    LookupAgrees(t, m, key);
    if |t| > 0 {
      FindMeansMember(t[Home(t, key)], key);
    }
  }

  lemma {:induction false} NothingStored(t: Table, m: map<Key, seq<byte>>, key: Key)
    requires Represents(t, 0, m)
    ensures key !in m
  {
    var v := if key in m then m[key] else [];
    assert Entry(key, v) !in Entries(t);
  }
}
