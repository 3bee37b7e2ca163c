/**
  The reply of the device manager to a listing request: the names of the services registered
  under a class, written one after the other and ended by a null string.
 */
module ServiceList {
  import opened Bytes
  import opened SbufFormat
  import opened Sbuf
  import opened SbufChannel
  import opened Names
  import opened Registry

  /** The names of the services of the class, in registration order. */
  function Listed(services: seq<Record>, devClass: bv16): (names: seq<Name>)
    ensures forall n: Name :: n in names <==>
              exists i :: 0 <= i < |services| && services[i].devClass == devClass && services[i].name == n
  {
    if services == [] then []
    else
      var k := |services| - 1;
      var r := services[k];
      assert services[..k] + [r] == services;
      Listed(services[..k], devClass) + if r.devClass == devClass then [r.name] else []
  }

  /** How many services are registered under the class. */
  function ClassCount(services: seq<Record>, devClass: bv16): nat {
    if services == [] then 0
    else ClassCount(services[..|services| - 1], devClass) + if services[|services| - 1].devClass == devClass then 1 else 0
  }

  /** A service of the class is listed behind those of the class that were registered before it, and no other is listed. */
  lemma {:induction false} ListedAt(services: seq<Record>, devClass: bv16, i: nat)
    requires i < |services|
    ensures |Listed(services, devClass)| == ClassCount(services, devClass)
    ensures services[i].devClass == devClass ==>
              && ClassCount(services[..i], devClass) < ClassCount(services, devClass)
              && Listed(services, devClass)[ClassCount(services[..i], devClass)] == services[i].name
  {
    var k := |services| - 1;
    ListedCounted(services, devClass);
    ListedCounted(services[..k], devClass);
    if i < k {
      ListedAt(services[..k], devClass, i);
      assert services[..k][..i] == services[..i];
    }
  }

  lemma {:induction false} ListedCounted(services: seq<Record>, devClass: bv16)
    ensures |Listed(services, devClass)| == ClassCount(services, devClass)
  {
    if services != [] {
      ListedCounted(services[..|services| - 1], devClass);
    }
  }

  /** What a reader gets by reading strings until the first null. */
  function Strings(u: seq<byte>): (names: seq<seq<byte>>)
    decreases |u|
  {
    match Parse(StrKind, u)
    case Found(Str(Some(v)), rest) => assert |rest| < |u|; [v] + Strings(rest)
    case _ => []
  }

  /** A name that a reader can read back, with its terminator. */
  predicate Short(name: Name) {
    |name| < MAX_STRING
  }

  /** The names before the first one that is too long. */
  function ShortPrefix(names: seq<Name>): (p: seq<Name>)
    ensures |p| <= |names| && p == names[..|p|] && (forall i :: 0 <= i < |p| ==> Short(p[i]))
    ensures |p| < |names| ==> !Short(names[|p|])
  {
    if names == [] || !Short(names[0]) then [] else [names[0]] + ShortPrefix(names[1..])
  }

  function Items(names: seq<Name>): (items: seq<Item>)
    ensures |items| == |names|
    ensures forall i :: 0 <= i < |names| ==> items[i] == Str(Some(names[i]))
    ensures (forall i :: 0 <= i < |names| ==> Short(names[i])) ==> AllSendable(items)
  {
    seq(|names|, i requires 0 <= i < |names| => Str(Some(names[i])))
  }

  /** t does not start with a string. */
  ghost predicate Ends(t: seq<byte>) {
    match Parse(StrKind, t)
    case Found(item, _) => item.text.None?
    case Nothing => true
  }

  /** Reading back names that are followed by no further string gives exactly those names. */
  lemma {:induction false} StringsBack(names: seq<Name>, p: seq<byte>, t: seq<byte>)
    requires (forall i :: 0 <= i < |names| ==> Short(names[i])) && Holds(Items(names), p) && Ends(t)
    ensures Strings(p + t) == names
  {
    if names == [] {
      assert p + t == t;
    } else {
      var item := Str(Some(names[0]));
      var n := PaddedSize(item);
      assert Items(names)[1..] == Items(names[1..]);
      StringsBack(names[1..], p[n..], t);
      FirstString(names[0], p, n, t);
      assert [names[0]] + names[1..] == names;
    }
  }

  lemma {:induction false} FirstString(name: Name, p: seq<byte>, n: nat, t: seq<byte>)
    requires Short(name) && n == PaddedSize(Str(Some(name))) <= |p| && Encodes(Str(Some(name)), p[..n])
    ensures Strings(p + t) == [name] + Strings(p[n..] + t)
  {
    hide Parse, Encodes, PaddedSize, Strings;
    ParseEncoded(Str(Some(name)), p[..n], p[n..] + t);
    assert p[..n] + (p[n..] + t) == p + t;
    StringsStep(name, p + t, p[n..] + t);
  }

  lemma StringsStep(name: seq<byte>, u: seq<byte>, rest: seq<byte>)
    requires Parse(StrKind, u) == Found(Str(Some(name)), rest)
    ensures Strings(u) == [name] + Strings(rest)
  {
  }

  /** A length header no reader accepts. */
  ghost predicate Blocks(t: seq<byte>) {
    |t| >= 4 && Header(t) > MAX_STRING
  }

  /** u holds the names that precede the first one too long, then what blocks the reader. */
  ghost predicate Written(names: seq<Name>, u: seq<byte>) {
    exists k :: 0 <= k <= |u| && WrittenAt(names, u, k)
  }

  ghost predicate WrittenAt(names: seq<Name>, u: seq<byte>, k: nat)
    requires k <= |u|
  {
    var p := ShortPrefix(names);
    Holds(Items(p), u[..k]) && if p == names then k == |u| else Blocks(u[k..])
  }

  lemma {:induction false} ShortPrefixSnoc(names: seq<Name>, name: Name)
    ensures ShortPrefix(names + [name])
            == if ShortPrefix(names) == names && Short(name) then names + [name] else ShortPrefix(names)
  {
    if names != [] {
      assert (names + [name])[1..] == names[1..] + [name];
      assert [names[0]] + names[1..] == names;
      ShortPrefixSnoc(names[1..], name);
    } else {
      assert names + [name] == [name];
    }
  }

  /** One more name written behind the others. */
  lemma {:induction false} WrittenSnoc(names: seq<Name>, u: seq<byte>, name: Name, w: seq<byte>)
    requires Written(names, u) && |name| + 1 < TWO_31
    requires ExtendsTwice(u, w, LittleEndian(|name| + 1, 4), name + [0])
    ensures Written(names + [name], w)
    ensures |w| == |u| + 4 + AlignSize(|name| + 1)
  {
    hide Holds, LittleEndian, ShortPrefix, Header;
    var v :| Extends(u, v, LittleEndian(|name| + 1, 4)) && Extends(v, w, name + [0]);
    TwoParts(u, v, w, LittleEndian(|name| + 1, 4), name + [0]);
    var k :| 0 <= k <= |u| && WrittenAt(names, u, k);
    ShortPrefixSnoc(names, name);
    assert w[..|u|] == u && w[..k] == u[..k];
    if ShortPrefix(names) != names {
      StillBlocked(u, w, k);
      assert WrittenAt(names + [name], w, k);
    } else if Short(name) {
      ShortNameWritten(names, u, name, w);
    } else {
      LongHeader(w[k..], |name| + 1);
      assert WrittenAt(names + [name], w, k);
    }
  }

  lemma {:induction false} StillBlocked(u: seq<byte>, w: seq<byte>, k: nat)
    requires k <= |u| <= |w| && w[..|u|] == u && Blocks(u[k..])
    ensures Blocks(w[k..])
  {
    assert w[k..][..4] == w[..|u|][k..][..4] == u[k..][..4];
  }

  lemma {:induction false} ShortNameWritten(names: seq<Name>, u: seq<byte>, name: Name, w: seq<byte>)
    requires ShortPrefix(names) == names && Short(name) && WrittenAt(names, u, |u|)
    requires ExtendsTwice(u, w, LittleEndian(|name| + 1, 4), name + [0])
    ensures Written(names + [name], w)
  {
    hide Holds, LittleEndian, ShortPrefix;
    ShortPrefixSnoc(names, name);
    assert u[..|u|] == u && w[..|w|] == w;
    AppendedPayload(Items(names), u, w, Str(Some(name)));
    assert Items(names) + [Str(Some(name))] == Items(names + [name]);
    assert WrittenAt(names + [name], w, |w|);
  }

  lemma {:induction false} LongHeader(t: seq<byte>, n: nat)
    requires |t| >= 4 && t[..4] == LittleEndian(n, 4) && n < TWO_31
    ensures Header(t) == n
  {
    assert Pow256(4) == TWO_32;
    LittleEndianRoundTrip(n, 4);
  }

  /** Whatever happens to the final null string, the reader stops where the names stop. */
  lemma {:induction false} ReadBack(names: seq<Name>, u: seq<byte>, w: seq<byte>)
    requires Written(names, u)
    requires w == u || ExtendsTwice(u, w, LittleEndian(0, 4), [])
    ensures Strings(w) == ShortPrefix(names)
  {
    hide Holds, LittleEndian, Parse, Strings, Header;
    var k :| 0 <= k <= |u| && WrittenAt(names, u, k);
    if w != u {
      var v :| Extends(u, v, LittleEndian(0, 4)) && Extends(v, w, []);
      TwoParts(u, v, w, LittleEndian(0, 4), []);
    }
    var t := w[k..];
    assert w[..|u|] == u && w[..k] == u[..k] && w[..k] + t == w;
    if ShortPrefix(names) != names {
      StillBlocked(u, w, k);
    } else if w != u {
      LongHeader(t, 0);
    }
    NoString(t);
    StringsBack(ShortPrefix(names), u[..k], t);
  }

  lemma NoString(t: seq<byte>)
    requires t == [] || Blocks(t) || (|t| >= 4 && Header(t) == 0)
    ensures Ends(t)
  {
  }

  // ---------------------------------------------------------------- writing and reading the reply

  /** strncpy_s, with which HdfStringCopy makes the registered name, refuses longer ones. */
  ghost predicate NamesBounded(services: seq<Record>) {
    forall i :: 0 <= i < |services| ==> |services[i].name| + 1 < TWO_31
  }

  /** The space the names of a class take in a reply. */
  ghost function Needed(services: seq<Record>, devClass: bv16): nat
    requires NamesBounded(services)
  {
    if services == [] then 0
    else
      var k := |services| - 1;
      Needed(services[..k], devClass)
      + if services[k].devClass == devClass then 4 + AlignSize(|services[k].name| + 1) else 0
  }

  lemma {:induction false} NeededGrows(services: seq<Record>, devClass: bv16, i: nat)
    requires NamesBounded(services) && i <= |services|
    ensures Needed(services[..i], devClass) <= Needed(services, devClass)
    decreases |services|
  {
    if i < |services| {
      var k := |services| - 1;
      NeededGrows(services[..k], devClass, i);
      assert services[..k][..i] == services[..i];
    } else {
      assert services[..i] == services;
    }
  }

  /** The names whose write succeeded. */
  function Kept(names: seq<Name>, oks: seq<bool>): (kept: seq<Name>)
    requires |oks| == |names|
    ensures (forall i :: 0 <= i < |oks| ==> oks[i]) ==> kept == names
  {
    if names == [] then []
    else
      var k := |names| - 1;
      Kept(names[..k], oks[..k]) + if oks[k] then [names[k]] else []
  }

  lemma {:induction false} KeptSnoc(names: seq<Name>, oks: seq<bool>, name: Name, ok: bool)
    requires |oks| == |names|
    ensures Kept(names + [name], oks + [ok]) == if ok then Kept(names, oks) + [name] else Kept(names, oks)
  {
    assert (names + [name])[..|names|] == names && (oks + [ok])[..|oks|] == oks;
  }

  // What becomes of the names, write by write.

  /** How a reply can grow: whether it has data and is not bound, and when memory is available. */
  datatype Growth = Growth(present: bool, grows: bool, headerMem: nat -> bool, bodyMem: nat -> bool)

  /** Capacity and position of a reply, and the outcomes of the writes so far. */
  datatype Space = Space(capacity: nat, writePos: nat, oks: seq<bool>)

  ghost predicate Within(s: Space) {
    s.writePos <= s.capacity < TWO_63
  }

  /** Whether a name of n bytes, terminator included, can be written for the i-th service. */
  ghost predicate NameFits(s: Space, g: Growth, i: nat, n: nat)
    requires Within(s) && n < TWO_31
  {
    g.present && BufferFits(s.capacity, s.writePos, n, g.grows && g.headerMem(i), g.grows && g.bodyMem(i))
  }

  ghost function NameWritten(s: Space, g: Growth, i: nat, n: nat): (r: Space)
    requires Within(s) && n < TWO_31
    ensures Within(r)
  {
    var h, b := g.grows && g.headerMem(i), g.grows && g.bodyMem(i);
    FittingIsWithin(s.capacity, s.writePos, n, h, b);
    Space(if g.present then CapacityAfterBuffer(s.capacity, s.writePos, n, h, b) else s.capacity,
          s.writePos + if NameFits(s, g, i, n) then 4 + AlignSize(n) else 0,
          s.oks + [NameFits(s, g, i, n)])
  }

  lemma {:induction false} FittingIsWithin(capacity: nat, writePos: nat, n: nat, headerMem: bool, bodyMem: bool)
    requires writePos <= capacity < TWO_63 && n < TWO_31
    ensures BufferFits(capacity, writePos, n, headerMem, bodyMem)
            ==> writePos + 4 + AlignSize(n) <= CapacityAfterBuffer(capacity, writePos, n, headerMem, bodyMem)
  {
    if BufferFits(capacity, writePos, n, headerMem, bodyMem) {
      RoomIsWithin(capacity, writePos, 4, headerMem);
      var c := CapacityAfter(capacity, writePos, 4, headerMem);
      assert AlignSize(4) == 4;
      if n > 0 {
        RoomIsWithin(c, writePos + 4, n, bodyMem);
      }
    }
  }

  lemma {:induction false} RoomIsWithin(capacity: nat, writePos: nat, n: nat, mayGrow: bool)
    requires writePos <= capacity < TWO_63 && 0 < n < TWO_31 && RoomFor(capacity, writePos, n, mayGrow)
    ensures writePos + AlignSize(n) <= CapacityAfter(capacity, writePos, n, mayGrow)
  {
    if AlignSize(n) > capacity - writePos {
      GrowthSuffices(capacity, writePos, n);
    }
  }

  /** The outcomes of all writes, with capacity and position folded through them. */
  ghost function Outcomes(services: seq<Record>, devClass: bv16, start: Space, g: Growth): (r: Space)
    requires NamesBounded(services) && Within(start)
    ensures Within(r)
  {
    if services == [] then start
    else
      var k := |services| - 1;
      var s := Outcomes(services[..k], devClass, start, g);
      if services[k].devClass == devClass then NameWritten(s, g, k, |services[k].name| + 1) else s
  }

  lemma {:induction false} OutcomesOfListed(services: seq<Record>, devClass: bv16, start: Space, g: Growth)
    requires NamesBounded(services) && Within(start)
    ensures |Outcomes(services, devClass, start, g).oks| == |start.oks| + |Listed(services, devClass)|
  {
    hide NameFits, Within, AlignSize, CapacityAfterBuffer;
    if services != [] {
      OutcomesOfListed(services[..|services| - 1], devClass, start, g);
    }
  }

  /**
    Enough space for writing up to the given position: at hand, or, with memory for growing, up to
    half of the limit less what two default growths take.
   */
  ghost predicate Roomy(capacity: nat, g: Growth, end: nat) {
    && g.present
    && (end <= capacity
        || (g.grows && (forall i :: g.headerMem(i) && g.bodyMem(i)) && 2 * end + 2 * (GROW_SIZE_DEFAULT + 4) <= MAX_SIZE))
  }

  lemma {:induction false} RoomyFits(s: Space, g: Growth, i: nat, n: nat)
    requires Within(s) && n < TWO_31 && Roomy(s.capacity, g, s.writePos + 4 + AlignSize(n))
    ensures NameFits(s, g, i, n)
  {
    if 4 + AlignSize(n) <= s.capacity - s.writePos {
      RoomAtHand(s.capacity, s.writePos, n, g.grows && g.headerMem(i), g.grows && g.bodyMem(i));
    } else {
      AmpleRoomFits(s.capacity, s.writePos, n, true);
    }
  }

  lemma {:induction false} RoomAtHand(capacity: nat, writePos: nat, n: nat, headerMem: bool, bodyMem: bool)
    requires writePos <= capacity < TWO_63 && n < TWO_32 && 4 + AlignSize(n) <= capacity - writePos
    ensures BufferFits(capacity, writePos, n, headerMem, bodyMem)
  {
    assert AlignSize(4) == 4;
  }

  /** With enough space for all names every write succeeds. */
  lemma {:induction false} RoomyOutcomes(services: seq<Record>, devClass: bv16, start: Space, g: Growth, i: nat)
    requires NamesBounded(services) && Within(start) && start.oks == [] && i <= |services|
    requires Roomy(start.capacity, g, start.writePos + Needed(services, devClass))
    ensures var s := Outcomes(services[..i], devClass, start, g);
            && s.writePos == start.writePos + Needed(services[..i], devClass) && start.capacity <= s.capacity
            && forall j :: 0 <= j < |s.oks| ==> s.oks[j]
  {
    hide NameFits, AlignSize, CapacityAfterBuffer;
    if i > 0 {
      RoomyOutcomes(services, devClass, start, g, i - 1);
      assert services[..i][..i - 1] == services[..i - 1];
      NeededGrows(services, devClass, i);
      if services[i - 1].devClass == devClass {
        RoomyFits(Outcomes(services[..i - 1], devClass, start, g), g, i - 1, |services[i - 1].name| + 1);
      }
    }
  }

  method WriteName(b: SbufRaw, name: Name, i: nat, headerMem: nat -> bool, bodyMem: nat -> bool, ghost names: seq<Name>,
                   ghost oks: seq<bool>)
    returns (ok: bool)
    requires b.Valid() && |name| + 1 < TWO_31 && Written(names, b.Unread())
    modifies b, b.data
    ensures b.Valid() && (b.data == old(b.data) || fresh(b.data))
    ensures Written(if ok then names + [name] else names, b.Unread())
    ensures b.isBind == old(b.isBind) && (b.data == null <==> old(b.data) == null)
    ensures var g := Growth(b.data != null, !b.isBind, headerMem, bodyMem);
            Space(b.capacity, b.writePos, oks + [ok])
            == NameWritten(Space(old(b.capacity), old(b.writePos), oks), g, i, |name| + 1)
  {
    hide Written, RoomFor, BufferFits, ExtendsTwice, AlignSize, CapacityAfter, CapacityAfterBuffer;
    ghost var u := b.Unread();
    ok := b.WriteString(Some(name), headerMem(i), bodyMem(i));
    if ok {
      WrittenSnoc(names, u, name, b.Unread());
    }
  }

  /** A reply as the writes find it. */
  ghost function SpaceOf(b: SbufRaw, oks: seq<bool>): Space
    reads b
  {
    Space(b.capacity, b.writePos, oks)
  }

  ghost function GrowthOf(b: SbufRaw, headerMem: nat -> bool, bodyMem: nat -> bool): Growth
    reads b
  {
    Growth(b.data != null, !b.isBind, headerMem, bodyMem)
  }

  /**
    DevSvcManagerListService on a flushed reply. What a write answers is ignored; the names
    written are those of the class, less the ones whose write failed, and which these are
    follows from the capacity of the reply.
   */
  method ListService(b: SbufRaw, manager: DevSvcManager, devClass: bv16, headerMem: nat -> bool, bodyMem: nat -> bool)
    returns (ghost oks: seq<bool>)
    requires b.Valid() && b.Unread() == [] && NamesBounded(manager.services)
    modifies b, b.data
    ensures b.Valid() && (b.data == old(b.data) || fresh(b.data))
    ensures |oks| == |Listed(manager.services, devClass)|
    ensures Written(Kept(Listed(manager.services, devClass), oks), b.Unread())
    ensures oks == Outcomes(manager.services, devClass, old(SpaceOf(b, [])), old(GrowthOf(b, headerMem, bodyMem))).oks
  {
    hide Listed, Kept, Written, Outcomes, GrowthOf;
    oks := [];
    ghost var all := manager.services;
    ghost var start, g := SpaceOf(b, []), GrowthOf(b, headerMem, bodyMem);
    NothingWritten(b.Unread(), all, devClass, start, g);
    for i := 0 to |manager.services|
      invariant b.Valid() && (b.data == old(b.data) || fresh(b.data)) && g == GrowthOf(b, headerMem, bodyMem)
      invariant |oks| == |Listed(all[..i], devClass)| && Written(Kept(Listed(all[..i], devClass), oks), b.Unread())
      invariant SpaceOf(b, oks) == Outcomes(all[..i], devClass, start, g)
    {
      oks := ListOne(b, manager.services[i], i, devClass, headerMem, bodyMem, all, start, oks);
    }
    assert all[..|all|] == all;
  }

  /** One turn of the loop. */
  method ListOne(b: SbufRaw, record: Record, i: nat, devClass: bv16, headerMem: nat -> bool, bodyMem: nat -> bool,
                 ghost all: seq<Record>, ghost start: Space, ghost oks: seq<bool>)
    returns (ghost oks': seq<bool>)
    requires b.Valid() && NamesBounded(all) && i < |all| && record == all[i] && Within(start)
    requires |oks| == |Listed(all[..i], devClass)| && Written(Kept(Listed(all[..i], devClass), oks), b.Unread())
    requires SpaceOf(b, oks) == Outcomes(all[..i], devClass, start, GrowthOf(b, headerMem, bodyMem))
    modifies b, b.data
    ensures b.Valid() && (b.data == old(b.data) || fresh(b.data))
    ensures GrowthOf(b, headerMem, bodyMem) == old(GrowthOf(b, headerMem, bodyMem))
    ensures |oks'| == |Listed(all[..i + 1], devClass)| && Written(Kept(Listed(all[..i + 1], devClass), oks'), b.Unread())
    ensures SpaceOf(b, oks') == Outcomes(all[..i + 1], devClass, start, GrowthOf(b, headerMem, bodyMem))
  {
    hide Listed, Kept, Written, Outcomes, NameWritten;
    OneMore(all, devClass, i, start, GrowthOf(b, headerMem, bodyMem));
    oks' := oks;
    if record.devClass == devClass {
      ghost var names := Listed(all[..i], devClass);
      var ok := WriteName(b, record.name, i, headerMem, bodyMem, Kept(names, oks), oks);
      KeptSnoc(names, oks, record.name, ok);
      oks' := oks + [ok];
    }
  }

  lemma {:induction false} NothingWritten(u: seq<byte>, all: seq<Record>, devClass: bv16, start: Space, g: Growth)
    requires u == [] && Within(start)
    ensures Listed(all[..0], devClass) == Kept([], []) == [] && Written([], u)
    ensures Outcomes(all[..0], devClass, start, g) == start
  {
    assert WrittenAt([], u, 0);
  }

  lemma {:induction false} OneMore(all: seq<Record>, devClass: bv16, i: nat, start: Space, g: Growth)
    requires NamesBounded(all) && i < |all| && Within(start)
    ensures Listed(all[..i + 1], devClass)
            == if all[i].devClass == devClass then Listed(all[..i], devClass) + [all[i].name] else Listed(all[..i], devClass)
    ensures Outcomes(all[..i + 1], devClass, start, g)
            == var s := Outcomes(all[..i], devClass, start, g);
               if all[i].devClass == devClass then NameWritten(s, g, i, |all[i].name| + 1) else s
  {
    assert all[..i + 1][..i] == all[..i];
  }

  /** Whether all names of a class can be written to a reply of the capacity, from its start. */
  ghost predicate AllFit(services: seq<Record>, devClass: bv16, capacity: nat, g: Growth)
    requires NamesBounded(services) && capacity < TWO_63
  {
    var oks := Outcomes(services, devClass, Space(capacity, 0, []), g).oks;
    forall i :: 0 <= i < |oks| ==> oks[i]
  }

  /**
    GetDeviceServiceNameByClass: reading strings from the reply until the first null gives the
    names of the class whose write succeeded, up to the first one too long to be read. It gives
    exactly the names registered under the class if and only if all of them fit and none is too
    long.
   */
  method GetDeviceServiceNameByClass(b: SbufRaw, manager: DevSvcManager, devClass: bv16,
                                     headerMem: nat -> bool, bodyMem: nat -> bool)
    returns (ghost oks: seq<bool>)
    requires b.Valid() && NamesBounded(manager.services)
    modifies b, b.data
    ensures b.Valid() && |oks| == |Listed(manager.services, devClass)|
    ensures Strings(b.Unread()) == ShortPrefix(Kept(Listed(manager.services, devClass), oks))
    ensures Strings(b.Unread()) == Listed(manager.services, devClass)
            <==> old(AllFit(manager.services, devClass, b.capacity, GrowthOf(b, headerMem, bodyMem)))
                 && AllShort(Listed(manager.services, devClass))
  {
    hide Listed, Written, Kept, ShortPrefix, AllShort, Strings, Outcomes;
    b.Flush();
    oks := ListService(b, manager, devClass, headerMem, bodyMem);
    ghost var names := Listed(manager.services, devClass);
    EndListing(b, headerMem(|manager.services|), bodyMem(|manager.services|), Kept(names, oks));
    WhenExact(names, oks);
  }

  /** All names fit when there is enough space. */
  lemma {:induction false} RoomyMeansAllFit(services: seq<Record>, devClass: bv16, capacity: nat, g: Growth)
    requires NamesBounded(services) && capacity < TWO_63 && Roomy(capacity, g, Needed(services, devClass))
    ensures AllFit(services, devClass, capacity, g)
  {
    RoomyOutcomes(services, devClass, Space(capacity, 0, []), g, |services|);
    assert services[..|services|] == services;
  }

  /** The null string at the end of a listing, which may fail like any other. */
  method EndListing(b: SbufRaw, headerMem: bool, bodyMem: bool, ghost names: seq<Name>)
    requires b.Valid() && Written(names, b.Unread())
    modifies b, b.data
    ensures b.Valid() && Strings(b.Unread()) == ShortPrefix(names)
  {
    hide Written, ShortPrefix, Strings, BufferFits, LittleEndian;
    ghost var u := b.Unread();
    var ended := b.WriteString(None, headerMem, bodyMem);
    ReadBack(names, u, b.Unread());
  }

  ghost predicate AllShort(names: seq<Name>) {
    forall n: Name :: n in names ==> |n| < MAX_STRING
  }

  lemma {:induction false} WhenExact(names: seq<Name>, oks: seq<bool>)
    requires |oks| == |names|
    ensures ShortPrefix(Kept(names, oks)) == names <==> (forall i :: 0 <= i < |oks| ==> oks[i]) && AllShort(names)
  {
    forall i | 0 <= i < |names| ensures names[i] in names {
    }
    KeptShorter(names, oks);
  }

  /** Every failed write costs a name. */
  lemma {:induction false} KeptShorter(names: seq<Name>, oks: seq<bool>)
    requires |oks| == |names|
    ensures |Kept(names, oks)| <= |names|
    ensures |Kept(names, oks)| == |names| <==> forall i :: 0 <= i < |oks| ==> oks[i]
  {
    if names != [] {
      KeptShorter(names[..|names| - 1], oks[..|names| - 1]);
    }
  }

  /** A name too long to be read hides itself and everything after it. */
  lemma {:induction false} LongNameEndsListing(before: seq<Name>, long: Name, after: seq<Name>)
    requires (forall i :: 0 <= i < |before| ==> Short(before[i])) && !Short(long)
    ensures ShortPrefix(before + [long] + after) == before
  {
    hide Short;
    var names := before + [long] + after;
    if before == [] {
      assert names[0] == long;
    } else {
      LongNameEndsListing(before[1..], long, after);
      assert names[0] == before[0] && names[1..] == before[1..] + [long] + after;
    }
  }

  /** The reader: strings until the first null. */
  method ReadNames(b: SbufRaw) returns (names: seq<seq<byte>>)
    requires b.Valid()
    modifies b`readPos, b.data
    ensures b.Valid() && names == Strings(old(b.Unread()))
  {
    hide Strings, Parse;
    names := [];
    ghost var all := Strings(b.Unread());
    var text := ReadName(b);
    while text.Some?
      invariant b.Valid()
      invariant all == names + if text.Some? then [text.value] + Strings(b.Unread()) else []
      decreases |b.Unread()|, if text.Some? then 1 else 0
    {
      ghost var s := Strings(b.Unread());
      ghost var read := names + [text.value];
      assert all == read + s;
      names := names + [text.value];
      text := ReadName(b);
    }
  }

  method ReadName(b: SbufRaw) returns (text: Option<seq<byte>>)
    requires b.Valid()
    modifies b`readPos, b.data
    ensures b.Valid() && (text.Some? ==> |b.Unread()| < |old(b.Unread())|) && |b.Unread()| <= |old(b.Unread())|
    ensures Strings(old(b.Unread())) == if text.Some? then [text.value] + Strings(b.Unread()) else []
  {
    hide Strings, Parse;
    StringsUnfold(b.Unread());
    text := b.ReadString();
  }

  lemma StringsUnfold(u: seq<byte>)
    ensures match Parse(StrKind, u)
            case Nothing => Strings(u) == []
            case Found(item, rest) =>
              |rest| < |u| && item.Str? && Strings(u) == if item.text.Some? then [item.text.value] + Strings(rest) else []
  {
  }
}
