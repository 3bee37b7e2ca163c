/**
  What the bytes of a raw sbuf mean: typed items laid out one after the other,
  each padded to four bytes, the padding bytes being unspecified.
 */
module SbufFormat {
  import opened Bytes

  datatype Item =
    | Num(width: nat, signed: bool, value: int)   // 8- to 64-bit integers
    | Blob(bytes: seq<byte>)                      // a buffer; a null buffer is empty
    | Str(text: Option<seq<byte>>)                // a string without its terminator, or a null string

  datatype Kind = NumKind(width: nat, signed: bool) | BlobKind | StrKind

  function KindOf(item: Item): Kind {
    match item
    case Num(w, s, _) => NumKind(w, s)
    case Blob(_) => BlobKind
    case Str(_) => StrKind
  }

  /** The longest string, terminator included, that SbufRawImplReadString accepts (INT16_MAX). */
  const MAX_STRING := 32767

  predicate Sendable(item: Item) {
    match item
    case Num(w, s, v) => w in {1, 2, 4, 8} && InRange(v, w, s)
    case Blob(b) => |b| < TWO_31
    case Str(None) => true
    case Str(Some(v)) => 0 !in v && |v| < MAX_STRING
  }

  /** The bytes of a length-prefixed item. */
  function Payload(item: Item): seq<byte>
    requires !item.Num?
  {
    match item
    case Blob(b) => b
    case Str(None) => []
    case Str(Some(v)) => v + [0]
  }

  /** u' is u followed by bs and padding. */
  ghost predicate Extends(u: seq<byte>, u': seq<byte>, bs: seq<byte>) {
    && |bs| < TWO_32
    && |u'| == |u| + AlignSize(|bs|)
    && u'[..|u|] == u
    && u'[|u|..|u| + |bs|] == bs
  }

  function PaddedSize(item: Item): nat
    requires Sendable(item)
  {
    if item.Num? then AlignSize(item.width) else 4 + AlignSize(|Payload(item)|)
  }

  ghost predicate Encodes(item: Item, p: seq<byte>)
    requires Sendable(item)
  {
    && |p| == PaddedSize(item)
    && if item.Num? then p[..item.width] == LittleEndian(Pattern(item.value, item.width), item.width)
       else p[..4] == LittleEndian(|Payload(item)|, 4) && p[4..4 + |Payload(item)|] == Payload(item)
  }

  predicate AllSendable(items: seq<Item>) {
    forall i :: 0 <= i < |items| ==> Sendable(items[i])
  }

  /** The unread bytes u are the items, oldest first, and nothing else. */
  ghost predicate Holds(items: seq<Item>, u: seq<byte>)
    requires AllSendable(items)
  {
    if items == [] then u == []
    else
      var n := PaddedSize(items[0]);
      n <= |u| && Encodes(items[0], u[..n]) && Holds(items[1..], u[n..])
  }

  lemma SplitConcat<T>(u: seq<T>, p: seq<T>, n: nat)
    requires n <= |u|
    ensures (u + p)[..n] == u[..n] && (u + p)[n..] == u[n..] + p
  {
  }

  lemma {:induction false} HoldsSnoc(items: seq<Item>, u: seq<byte>, item: Item, p: seq<byte>)
    requires AllSendable(items) && Holds(items, u) && Sendable(item) && Encodes(item, p)
    ensures Holds(items + [item], u + p)
  {
    if items == [] {
      assert items + [item] == [item];
      assert u + p == p && p[..|p|] == p;
    } else {
      var n := PaddedSize(items[0]);
      HoldsSnoc(items[1..], u[n..], item, p);
      assert (items + [item])[1..] == items[1..] + [item];
      SplitConcat(u, p, n);
    }
  }

  // ---------------------------------------------------------------- parsing

  /** What reading an item of a kind finds at the front of u: the item and the bytes after it. */
  datatype Parsed = Nothing | Found(item: Item, rest: seq<byte>)

  /** The length header at the front of u, as a signed 32-bit integer. */
  function Header(u: seq<byte>): (h: int)
    requires |u| >= 4
    ensures -TWO_31 <= h < TWO_31
  {
    assert Pow256(4) == TWO_32;
    Meaning(FromLittleEndian(u[..4]), 4, true)
  }

  /** A C string: the bytes before the first zero. */
  function CString(bs: seq<byte>): seq<byte> {
    if bs == [] || bs[0] == 0 then [] else [bs[0]] + CString(bs[1..])
  }

  lemma {:induction false} CStringStops(bs: seq<byte>)
    ensures CString(bs + [0]) == CString(bs)
  {
    if bs != [] && bs[0] != 0 {
      assert (bs + [0])[1..] == bs[1..] + [0];
      CStringStops(bs[1..]);
    }
  }

  function Parse(kind: Kind, u: seq<byte>): (r: Parsed)
    requires kind.NumKind? ==> kind.width in {1, 2, 4, 8}
  {
    match kind
    case NumKind(w, s) =>
      if |u| < AlignSize(w) then Nothing
      else Found(Num(w, s, Meaning(FromLittleEndian(u[..w]), w, s)), u[AlignSize(w)..])
    case BlobKind =>
      if |u| < 4 || Header(u) < 0 || |u| < 4 + AlignSize(Header(u)) then Nothing
      else Found(Blob(u[4..4 + Header(u)]), u[4 + AlignSize(Header(u))..])
    case StrKind =>
      if |u| < 4 then Nothing
      else if Header(u) <= 0 then Found(Str(None), u[4..])
      else if Header(u) > MAX_STRING || |u| < 4 + AlignSize(Header(u)) then Nothing
      else Found(Str(Some(CString(u[4..3 + Header(u)]))), u[4 + AlignSize(Header(u))..])
  }

  /** Reading back an encoded item gives the item, whatever the padding and whatever follows. */
  lemma {:induction false} ParseEncoded(item: Item, p: seq<byte>, u: seq<byte>)
    requires Sendable(item) && Encodes(item, p)
    ensures Parse(KindOf(item), p + u) == Found(item, u)
  {
    var n := |p|;
    assert (p + u)[n..] == u;
    if item.Num? {
      var w := item.width;
      assert (p + u)[..w] == p[..w];
      LittleEndianRoundTrip(Pattern(item.value, w), w);
      PatternRoundTrip(item.value, w, item.signed);
    } else {
      var b := Payload(item);
      assert (p + u)[..4] == p[..4] && (p + u)[4..4 + |b|] == p[4..4 + |b|];
      assert Pow256(4) == TWO_32;
      LittleEndianRoundTrip(|b|, 4);
      assert Header(p + u) == |b|;
      if item.Str? && item.text.Some? {
        StringBack(item.text.value, p, u);
      }
    }
  }

  lemma {:induction false} StringBack(v: seq<byte>, p: seq<byte>, u: seq<byte>)
    requires 0 !in v && |p| >= 5 + |v| && p[4..5 + |v|] == v + [0]
    ensures CString((p + u)[4..4 + |v|]) == v
  {
    assert (p + u)[4..4 + |v|] == p[4..5 + |v|][..|v|] == v;
    CStringOfWhole(v);
  }

  lemma {:induction false} CStringOfWhole(v: seq<byte>)
    requires 0 !in v
    ensures CString(v) == v
  {
    if v != [] {
      CStringOfWhole(v[1..]);
    }
  }

  /** Reading items of the given kinds one after the other. */
  function ParseAll(kinds: seq<Kind>, u: seq<byte>): (r: (seq<Item>, seq<byte>))
    requires forall i :: 0 <= i < |kinds| && kinds[i].NumKind? ==> kinds[i].width in {1, 2, 4, 8}
  {
    if kinds == [] then ([], u)
    else match Parse(kinds[0], u)
      case Nothing => ([], u)
      case Found(item, rest) => var (items, left) := ParseAll(kinds[1..], rest); ([item] + items, left)
  }

  function KindsOf(items: seq<Item>): (r: seq<Kind>)
    ensures |r| == |items| && forall i :: 0 <= i < |items| ==> r[i] == KindOf(items[i])
  {
    seq(|items|, i requires 0 <= i < |items| => KindOf(items[i]))
  }

  lemma {:induction false} ParseHead(items: seq<Item>, u: seq<byte>)
    requires AllSendable(items) && items != [] && Holds(items, u)
    ensures Parse(KindOf(items[0]), u) == Found(items[0], u[PaddedSize(items[0])..])
  {
    var n := PaddedSize(items[0]);
    ParseEncoded(items[0], u[..n], u[n..]);
    assert u[..n] + u[n..] == u;
  }

  /** Reading everything with matching kinds gives back what was written and leaves nothing. */
  lemma {:induction false} ParseAllHeld(items: seq<Item>, u: seq<byte>)
    requires AllSendable(items) && Holds(items, u)
    ensures ParseAll(KindsOf(items), u) == (items, [])
  {
    if items == [] {
      assert KindsOf(items) == [];
    } else {
      var n := PaddedSize(items[0]);
      ParseHead(items, u);
      ParseAllHeld(items[1..], u[n..]);
      ParseAllStep(items, u, u[n..]);
    }
  }

  lemma {:induction false} ParseAllStep(items: seq<Item>, u: seq<byte>, rest: seq<byte>)
    requires AllSendable(items) && items != []
    requires Parse(KindOf(items[0]), u) == Found(items[0], rest)
    requires ParseAll(KindsOf(items[1..]), rest) == (items[1..], [])
    ensures ParseAll(KindsOf(items), u) == (items, [])
  {
    assert KindsOf(items)[1..] == KindsOf(items[1..]);
    assert [items[0]] + items[1..] == items;
  }
}
