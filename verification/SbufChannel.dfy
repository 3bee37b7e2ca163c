/**
  The raw sbuf as a channel: over any interleaving of typed writes and reads it is
  a first-in first-out queue of items, across every growth.
 */
module SbufChannel {
  import opened Bytes
  import opened SbufFormat
  import opened Sbuf

  lemma {:induction false} AppendedNum(items: seq<Item>, u: seq<byte>, w: seq<byte>, item: Item)
    requires AllSendable(items) && Holds(items, u) && Sendable(item) && item.Num?
    requires Extends(u, w, LittleEndian(Pattern(item.value, item.width), item.width))
    ensures Holds(items + [item], w) && |w| == |u| + PaddedSize(item)
  {
    hide LittleEndian, Pattern, Holds;
    var p := w[|u|..];
    SliceOfTail(w, |u|, item.width);
    HoldsSnoc(items, u, item, p);
    assert u + p == w;
  }

  lemma SliceOfTail<T>(w: seq<T>, n: nat, k: nat)
    requires n + k <= |w|
    ensures w[n..][..k] == w[n..n + k]
  {
  }

  lemma {:induction false} AppendedPayload(items: seq<Item>, u: seq<byte>, w: seq<byte>, item: Item)
    requires AllSendable(items) && Holds(items, u) && Sendable(item) && !item.Num?
    requires ExtendsTwice(u, w, LittleEndian(|Payload(item)|, 4), Payload(item))
    ensures Holds(items + [item], w) && |w| == |u| + PaddedSize(item)
  {
    hide LittleEndian, Holds;
    var b := Payload(item);
    var v :| Extends(u, v, LittleEndian(|b|, 4)) && Extends(v, w, b);
    var p := w[|u|..];
    TwoParts(u, v, w, LittleEndian(|b|, 4), b);
    HoldsSnoc(items, u, item, p);
  }

  lemma {:induction false} TwoParts(u: seq<byte>, v: seq<byte>, w: seq<byte>, header: seq<byte>, body: seq<byte>)
    requires |header| == 4 && Extends(u, v, header) && Extends(v, w, body)
    ensures |w| == |u| + 4 + AlignSize(|body|) && w == u + w[|u|..]
    ensures w[|u|..][..4] == header && w[|u|..][4..4 + |body|] == body
  {
    assert AlignSize(4) == 4;
    assert w[..|u|] == v[..|u|] by { assert w[..|u|] == w[..|v|][..|u|]; }
    assert w[|u|..][..4] == v[|u|..|u| + 4] by { assert w[|u|..][..4] == w[..|v|][|u|..|u| + 4]; }
    assert w[|u|..][4..4 + |body|] == w[|v|..|v| + |body|];
  }

  // ---------------------------------------------------------------- whether there is room

  /** Where a buffer stands: its capacity and how much of it has been written. */
  datatype Room = Room(capacity: nat, written: nat)

  ghost predicate RoomOk(r: Room) {
    r.written <= r.capacity < TWO_63
  }

  /** An item fits: its bytes, or its header and then its bytes. */
  ghost predicate Fits(item: Item, r: Room, headerMem: bool, bodyMem: bool)
    requires Sendable(item) && RoomOk(r)
  {
    if item.Num? then RoomFor(r.capacity, r.written, item.width, headerMem)
    else BufferFits(r.capacity, r.written, |Payload(item)|, headerMem, bodyMem)
  }

  ghost function CapacityAfterItem(item: Item, r: Room, headerMem: bool, bodyMem: bool): (c: nat)
    requires Sendable(item) && RoomOk(r)
    ensures r.capacity <= c && (c == r.capacity || c <= MAX_SIZE)
  {
    if item.Num? then CapacityAfter(r.capacity, r.written, item.width, headerMem)
    else CapacityAfterBuffer(r.capacity, r.written, |Payload(item)|, headerMem, bodyMem)
  }

  ghost function RoomOf(b: SbufRaw): Room
    reads b
  {
    Room(b.capacity, b.writePos)
  }

  /** Writing an item through the operation for its type. */
  method Send(b: SbufRaw, item: Item, headerMem: bool, bodyMem: bool, ghost queue: seq<Item>) returns (ok: bool)
    requires b.Valid() && Sendable(item) && AllSendable(queue) && Holds(queue, b.Unread())
    modifies b, b.data
    ensures b.Valid() && (b.data == old(b.data) || fresh(b.data))
    ensures old(b.capacity) <= MAX_SIZE ==> b.capacity <= MAX_SIZE
    ensures Holds(if ok then queue + [item] else queue, b.Unread())
    ensures b.isBind == old(b.isBind)
    ensures old(b.data) != null ==>
              var mayGrow := !old(b.isBind);
              && (ok <==> Fits(item, old(RoomOf(b)), mayGrow && headerMem, mayGrow && bodyMem))
              && b.capacity == CapacityAfterItem(item, old(RoomOf(b)), mayGrow && headerMem, mayGrow && bodyMem)
              && b.writePos == old(b.writePos) + (if ok then PaddedSize(item) else 0)
  {
    hide RoomFor, BufferFits, CapacityAfter, CapacityAfterBuffer, Holds, LittleEndian, Pattern, Extends, ExtendsTwice;
    hide PaddedSize, AlignSize;
    ghost var u := b.Unread();
    match item {
      case Num(w, s, v) =>
        ok := b.WriteNum(w, v, headerMem);
        if ok { AppendedNum(queue, u, b.Unread(), item); }
      case Blob(bs) =>
        ok := b.WriteBuffer(bs, headerMem, bodyMem);
        if ok { AppendedPayload(queue, u, b.Unread(), item); }
      case Str(text) =>
        ok := b.WriteString(text, headerMem, bodyMem);
        if ok { AppendedPayload(queue, u, b.Unread(), item); }
    }
  }

  /** Reading with the operation that matches the oldest item. */
  method Receive(b: SbufRaw, kind: Kind, ghost queue: seq<Item>) returns (item: Item)
    requires b.Valid() && b.data != null && AllSendable(queue) && queue != [] && Holds(queue, b.Unread())
    requires kind == KindOf(queue[0])
    modifies b, b.data
    ensures b.Valid() && b.data == old(b.data) && b.isBind == old(b.isBind) && RoomOf(b) == old(RoomOf(b))
    ensures item == queue[0] && Holds(queue[1..], b.Unread())
  {
    ParseHead(queue, b.Unread());
    match kind {
      case NumKind(w, s) =>
        var ok, v := b.ReadNum(w, s);
        item := Num(w, s, v);
      case BlobKind =>
        var ok, pos, size := b.ReadBuffer();
        item := Blob(b.data[pos..pos + size]);
      case StrKind =>
        var text := b.ReadString();
        item := Str(text);
    }
  }

  datatype Action = Put(item: Item, headerMem: bool, bodyMem: bool) | Take

  /** The queue an observer expects: what was received, and what is still to come. */
  datatype Fifo = Fifo(received: seq<Item>, queue: seq<Item>)

  function FifoStep(f: Fifo, action: Action, ok: bool): Fifo {
    match action
    case Put(item, _, _) => if ok then f.(queue := f.queue + [item]) else f
    case Take => if f.queue == [] then f else Fifo(f.received + [f.queue[0]], f.queue[1..])
  }

  function Replay(actions: seq<Action>, oks: seq<bool>): (f: Fifo)
    requires |oks| == |actions|
  {
    if actions == [] then Fifo([], [])
    else
      var n := |actions| - 1;
      FifoStep(Replay(actions[..n], oks[..n]), actions[n], oks[n])
  }

  /** The items whose write succeeded, in the order of the writes. */
  function Sent(actions: seq<Action>, oks: seq<bool>): (s: seq<Item>)
    requires |oks| == |actions|
  {
    if actions == [] then []
    else
      var n := |actions| - 1;
      Sent(actions[..n], oks[..n]) + if actions[n].Put? && oks[n] then [actions[n].item] else []
  }

  /** Received and outstanding items together are what was sent, in order. */
  lemma {:induction false} ReplayIsFifo(actions: seq<Action>, oks: seq<bool>)
    requires |oks| == |actions|
    ensures Replay(actions, oks).received + Replay(actions, oks).queue == Sent(actions, oks)
  {
    if actions != [] {
      var n := |actions| - 1;
      ReplayIsFifo(actions[..n], oks[..n]);
      var f := Replay(actions[..n], oks[..n]);
      if actions[n].Take? && f.queue != [] {
        assert f.queue == [f.queue[0]] + f.queue[1..];
      }
    }
  }

  /** Where the buffer stands after one more action: writing uses room up, reading does not give it back. */
  ghost function RoomNext(action: Action, r: Room, grows: bool): Room
    requires action.Put? ==> Sendable(action.item)
  {
    if action.Take? || !RoomOk(r) then r
    else
      var fits := Fits(action.item, r, grows && action.headerMem, grows && action.bodyMem);
      Room(CapacityAfterItem(action.item, r, grows && action.headerMem, grows && action.bodyMem),
           r.written + if fits then PaddedSize(action.item) else 0)
  }

  predicate PutsSendable(actions: seq<Action>) {
    forall i :: 0 <= i < |actions| && actions[i].Put? ==> Sendable(actions[i].item)
  }

  ghost function RoomAfter(actions: seq<Action>, r: Room, grows: bool): Room
    requires PutsSendable(actions)
  {
    if actions == [] then r
    else RoomNext(actions[|actions| - 1], RoomAfter(actions[..|actions| - 1], r, grows), grows)
  }

  /** What an action answers: a write whether the item fits, a read whether there is an item. */
  ghost predicate Answers(action: Action, ok: bool, f: Fifo, r: Room, grows: bool)
    requires action.Put? ==> Sendable(action.item)
  {
    match action
    case Put(item, headerMem, bodyMem) => RoomOk(r) && (ok <==> Fits(item, r, grows && headerMem, grows && bodyMem))
    case Take => ok <==> f.queue != []
  }

  lemma {:induction false} RoomStep(actions: seq<Action>, n: nat, r: Room, grows: bool)
    requires n < |actions| && PutsSendable(actions)
    ensures RoomAfter(actions[..n + 1], r, grows) == RoomNext(actions[n], RoomAfter(actions[..n], r, grows), grows)
  {
    assert actions[..n + 1][..n] == actions[..n];
  }

  /** One action; the reader knows the kinds of the outstanding items. */
  method Act(b: SbufRaw, action: Action, received: seq<Item>, kinds: seq<Kind>, ghost f: Fifo)
    returns (ok: bool, received': seq<Item>, kinds': seq<Kind>)
    requires b.Valid() && b.data != null && b.capacity <= MAX_SIZE
    requires action.Put? ==> Sendable(action.item)
    requires AllSendable(f.queue) && Holds(f.queue, b.Unread())
    requires f.received == received && kinds == KindsOf(f.queue)
    modifies b, b.data
    ensures b.Valid() && b.data != null && b.capacity <= MAX_SIZE && (b.data == old(b.data) || fresh(b.data))
    ensures var g := FifoStep(f, action, ok);
            && AllSendable(g.queue) && Holds(g.queue, b.Unread())
            && g.received == received' && kinds' == KindsOf(g.queue)
    ensures b.isBind == old(b.isBind) && Answers(action, ok, f, old(RoomOf(b)), !b.isBind)
    ensures RoomOf(b) == RoomNext(action, old(RoomOf(b)), !b.isBind)
  {
    hide Holds, Sendable;
    received', kinds' := received, kinds;
    match action {
      case Put(item, headerMem, bodyMem) =>
        ok := Send(b, item, headerMem, bodyMem, f.queue);
        if ok {
          kinds' := kinds + [KindOf(item)];
        }
      case Take =>
        ok := kinds != [];
        if ok {
          var item := Receive(b, kinds[0], f.queue);
          received', kinds' := received + [item], kinds[1..];
        }
    }
  }

  /**
    Running any actions on an obtained buffer: the items received are those the queue
    gives, the unread bytes hold the outstanding items, and once everything sent has
    been received the two cursors meet. A write succeeds exactly when the item fits, a read exactly
    when an item is outstanding.
   */
  method Exchange(b: SbufRaw, actions: seq<Action>) returns (received: seq<Item>, oks: seq<bool>)
    requires b.Valid() && b.data != null && b.Unread() == [] && b.capacity <= MAX_SIZE
    requires PutsSendable(actions)
    modifies b, b.data
    ensures b.Valid() && b.capacity <= MAX_SIZE && |oks| == |actions|
    ensures received == Replay(actions, oks).received
    ensures AllSendable(Replay(actions, oks).queue) && Holds(Replay(actions, oks).queue, b.Unread())
    ensures received == Sent(actions, oks) ==> b.readPos == b.writePos
    ensures AllAnswered(actions, oks, old(RoomOf(b)), !old(b.isBind))
  {
    hide Answers, RoomNext, RoomAfter, Replay, FifoStep, Holds, AllAnswered, Sent;
    ghost var room, grows := RoomOf(b), !b.isBind;
    received, oks := [], [];
    NothingExchanged(actions, room, grows);
    ghost var f := Fifo([], []);
    var kinds: seq<Kind> := [];
    for n := 0 to |actions|
      invariant b.Valid() && b.data != null && b.capacity <= MAX_SIZE
      invariant b.data == old(b.data) || fresh(b.data)
      invariant |oks| == n && f == Replay(actions[..n], oks) && f.received == received
      invariant AllSendable(f.queue) && Holds(f.queue, b.Unread()) && kinds == KindsOf(f.queue)
      invariant b.isBind == old(b.isBind) && RoomOf(b) == RoomAfter(actions[..n], room, grows)
      invariant AllAnswered(actions, oks, room, grows)
    {
      var ok;
      RoomStep(actions, n, room, grows);
      ok, received, kinds := Act(b, actions[n], received, kinds, f);
      AnsweredNext(actions, oks, ok, room, grows);
      f := FifoStep(f, actions[n], ok);
      ReplayStep(actions, n, oks, ok);
      oks := oks + [ok];
    }
    assert actions[..|actions|] == actions;
    ReplayIsFifo(actions, oks);
    if received == Sent(actions, oks) {
      assert f.queue == [] by { assert |f.received + f.queue| == |f.received|; }
      NothingHeld(b.Unread());
    }
  }

  lemma NothingExchanged(actions: seq<Action>, r: Room, grows: bool)
    requires PutsSendable(actions)
    ensures Replay(actions[..0], []) == Fifo([], []) && RoomAfter(actions[..0], r, grows) == r
    ensures AllAnswered(actions, [], r, grows) && AllSendable([]) && Holds([], []) && KindsOf([]) == []
  {
  }

  lemma NothingHeld(u: seq<byte>)
    requires Holds([], u)
    ensures u == []
  {
  }

  /** Every action is answered as the actions before it say. */
  ghost predicate AllAnswered(actions: seq<Action>, oks: seq<bool>, r: Room, grows: bool)
    requires PutsSendable(actions) && |oks| <= |actions|
  {
    forall n :: 0 <= n < |oks| ==>
      Answers(actions[n], oks[n], Replay(actions[..n], oks[..n]), RoomAfter(actions[..n], r, grows), grows)
  }

  lemma {:induction false} AnsweredNext(actions: seq<Action>, oks: seq<bool>, ok: bool, r: Room, grows: bool)
    requires PutsSendable(actions) && |oks| < |actions| && AllAnswered(actions, oks, r, grows)
    requires Answers(actions[|oks|], ok, Replay(actions[..|oks|], oks), RoomAfter(actions[..|oks|], r, grows), grows)
    ensures AllAnswered(actions, oks + [ok], r, grows)
  {
    hide Answers, Replay, RoomAfter;
    var more := oks + [ok];
    forall n | 0 <= n < |more|
      ensures Answers(actions[n], more[n], Replay(actions[..n], more[..n]), RoomAfter(actions[..n], r, grows), grows)
    {
      assert more[..n] == oks[..n];
      assert n == |oks| ==> oks[..n] == oks;
    }
  }

  lemma {:induction false} ReplayStep(actions: seq<Action>, n: nat, oks: seq<bool>, ok: bool)
    requires n < |actions| && |oks| == n
    ensures Replay(actions[..n + 1], oks + [ok]) == FifoStep(Replay(actions[..n], oks), actions[n], ok)
  {
    assert actions[..n + 1][..n] == actions[..n];
    assert (oks + [ok])[..n] == oks;
  }

  // ---------------------------------------------------------------- runs in which everything fits

  /** The padded sizes of all items written. */
  function TotalSize(actions: seq<Action>): nat
    requires PutsSendable(actions)
  {
    if actions == [] then 0
    else
      var last := actions[|actions| - 1];
      TotalSize(actions[..|actions| - 1]) + if last.Put? then PaddedSize(last.item) else 0
  }

  /** An item fits, and leaves room for itself, when twice what has been written by then stays 520 bytes below the limit. */
  lemma {:induction false} AmpleItem(item: Item, r: Room)
    requires Sendable(item) && RoomOk(r) && 2 * (r.written + PaddedSize(item)) + 520 <= MAX_SIZE
    ensures Fits(item, r, true, true) && r.written + PaddedSize(item) <= CapacityAfterItem(item, r, true, true)
  {
    if item.Num? {
      AmpleBytes(r.capacity, r.written, item.width);
    } else {
      AmpleBuffer(r.capacity, r.written, |Payload(item)|);
    }
  }

  lemma {:induction false} AmpleBytes(capacity: nat, writePos: nat, n: nat)
    requires writePos <= capacity < TWO_63 && n < TWO_31 && 2 * (writePos + AlignSize(n)) + 520 <= MAX_SIZE
    ensures RoomFor(capacity, writePos, n, true) && writePos + AlignSize(n) <= CapacityAfter(capacity, writePos, n, true)
  {
    if AlignSize(n) > capacity - writePos {
      SmallGrowthAccepted(capacity, n);
      if n > 0 {
        GrowthSuffices(capacity, writePos, n);
      }
    }
  }

  lemma {:induction false} AmpleBuffer(capacity: nat, writePos: nat, n: nat)
    requires writePos <= capacity < TWO_63 && n < TWO_31 && 2 * (writePos + 4 + AlignSize(n)) + 520 <= MAX_SIZE
    ensures BufferFits(capacity, writePos, n, true, true)
    ensures writePos + 4 + AlignSize(n) <= CapacityAfterBuffer(capacity, writePos, n, true, true)
  {
    hide RoomFor, CapacityAfter;
    FourIsAligned();
    AmpleBytes(capacity, writePos, 4);
    AmpleBytes(CapacityAfter(capacity, writePos, 4, true), writePos + 4, n);
  }

  /**
    With memory at hand every write of a run succeeds, if twice the padded sizes of everything written
    stays 520 bytes below the limit of 512 KB.
   */
  lemma {:induction false} AmpleRun(actions: seq<Action>, r: Room)
    requires PutsSendable(actions) && RoomOk(r) && 2 * (r.written + TotalSize(actions)) + 520 <= MAX_SIZE
    requires forall i :: 0 <= i < |actions| && actions[i].Put? ==> actions[i].headerMem && actions[i].bodyMem
    ensures RoomOk(RoomAfter(actions, r, true)) && RoomAfter(actions, r, true).written == r.written + TotalSize(actions)
    ensures forall n :: 0 <= n < |actions| && actions[n].Put? ==>
              RoomOk(RoomAfter(actions[..n], r, true)) && Fits(actions[n].item, RoomAfter(actions[..n], r, true), true, true)
  {
    if actions != [] {
      hide Fits;
      var k := |actions| - 1;
      AmpleRun(actions[..k], r);
      assert forall n :: 0 <= n < k ==> actions[..k][..n] == actions[..n];
      if actions[k].Put? {
        AmpleItem(actions[k].item, RoomAfter(actions[..k], r, true));
      }
    }
  }

  /** In such a run what is received and what is outstanding is everything written, in order. */
  lemma {:induction false} AmpleExchange(actions: seq<Action>, oks: seq<bool>, r: Room)
    requires PutsSendable(actions) && RoomOk(r) && 2 * (r.written + TotalSize(actions)) + 520 <= MAX_SIZE
    requires forall i :: 0 <= i < |actions| && actions[i].Put? ==> actions[i].headerMem && actions[i].bodyMem
    requires |oks| == |actions| && AllAnswered(actions, oks, r, true)
    ensures forall n :: 0 <= n < |actions| && actions[n].Put? ==> oks[n]
    ensures var f := Replay(actions, oks); f.received + f.queue == ItemsOf(actions)
  {
    AmpleRun(actions, r);
    forall n | 0 <= n < |actions| && actions[n].Put? ensures oks[n] {
      assert Answers(actions[n], oks[n], Replay(actions[..n], oks[..n]), RoomAfter(actions[..n], r, true), true);
    }
    ReplayIsFifo(actions, oks);
    AllSent(actions, oks);
  }

  /** The items of all writes. */
  function ItemsOf(actions: seq<Action>): seq<Item> {
    if actions == [] then []
    else
      var last := actions[|actions| - 1];
      ItemsOf(actions[..|actions| - 1]) + if last.Put? then [last.item] else []
  }

  lemma {:induction false} AllSent(actions: seq<Action>, oks: seq<bool>)
    requires |oks| == |actions| && forall n :: 0 <= n < |actions| && actions[n].Put? ==> oks[n]
    ensures Sent(actions, oks) == ItemsOf(actions)
  {
    if actions != [] {
      AllSent(actions[..|actions| - 1], oks[..|actions| - 1]);
    }
  }
}
