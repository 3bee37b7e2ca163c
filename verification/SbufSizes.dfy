/**
  The sizes and byte patterns of the raw sbuf in plain numbers: when there is room, what the capacity
  becomes, how items are laid out and how they are read.
 */
module SbufSizes {
  import opened Bytes
  import opened SbufFormat
  import opened Sbuf

  /** The next multiple of four. */
  function Up(n: nat): nat {
    (n + 3) / 4 * 4
  }

  /** The growth asked for: 256 bytes, and the padded size besides if that is larger than 256. */
  function Want(n: nat): nat {
    if Up(n) > 256 then Up(n) + 256 else 256
  }

  /** A growth by a multiple of four is accepted when the padded sum is at most 512 KB, and then this is the new capacity. */
  lemma {:induction false} AcceptedWhen(capacity: nat, g: nat)
    requires capacity < TWO_63 && g < TWO_32 && g % 4 == 0
    ensures GrowthAccepted(capacity, g) <==> Up(capacity + g) <= 524288
    ensures GrowthAccepted(capacity, g) ==> GrownSize(capacity, g) == Up(capacity + g)
  {
    var n := Up(capacity + g);
    assert AlignSize(capacity + g) == n;
    if n >= TWO_32 && capacity <= 524288 {
      assert n % TWO_32 == n - TWO_32;
    }
  }

  /**
    There is room for n bytes if the padded size is left, or if memory is available and the padded sum
    of capacity and growth is at most 512 KB.
   */
  lemma {:induction false} RoomWhen(capacity: nat, writePos: nat, n: nat, mayGrow: bool)
    requires writePos <= capacity < TWO_63 && n < TWO_32
    ensures RoomFor(capacity, writePos, n, mayGrow) <==>
            Up(n) <= capacity - writePos || (mayGrow && Up(capacity + Want(n)) <= 524288)
  {
    assert AlignSize(n) == Up(n);
    hide GrowthAccepted, GrownSize;
    AcceptedWhen(capacity, WantedGrowth(Up(n)) % TWO_32);
  }

  /** The capacity after a write of n bytes below 2^31: what it was, or the padded sum with the growth. */
  lemma {:induction false} CapacityIs(capacity: nat, writePos: nat, n: nat, mayGrow: bool)
    requires writePos <= capacity < TWO_63 && n < TWO_31
    ensures CapacityAfter(capacity, writePos, n, mayGrow)
            == if n == 0 || Up(n) <= capacity - writePos || !mayGrow || Up(capacity + Want(n)) > 524288 then capacity
               else Up(capacity + Want(n))
  {
    assert AlignSize(n) == Up(n);
    hide GrowthAccepted, GrownSize;
    assert WantedGrowth(Up(n)) % TWO_32 == Want(n);
    AcceptedWhen(capacity, Want(n));
  }

  /** A header and n bytes can be written when the header has room and, at the capacity it leaves, the bytes have. */
  lemma {:induction false} BufferFitsWhen(capacity: nat, writePos: nat, n: nat, headerMem: bool, bodyMem: bool)
    requires writePos <= capacity < TWO_63 && n < TWO_31
    ensures var c := if capacity - writePos >= 4 then capacity else Up(capacity + 256);
            BufferFits(capacity, writePos, n, headerMem, bodyMem) <==>
            && (capacity - writePos >= 4 || (headerMem && c <= 524288))
            && (n == 0 || Up(n) <= c - (writePos + 4) || (bodyMem && Up(c + Want(n)) <= 524288))
  {
    hide RoomFor, CapacityAfter, GrowthAccepted;
    RoomWhen(capacity, writePos, 4, headerMem);
    CapacityIs(capacity, writePos, 4, headerMem);
    var c := CapacityAfter(capacity, writePos, 4, headerMem);
    if writePos + 4 <= c {
      RoomWhen(c, writePos + 4, n, bodyMem);
    }
  }

  // ---------------------------------------------------------------- layout

  /** Byte i of an integer has the digit of 256^i. */
  lemma {:induction false} LittleEndianDigit(v: nat, n: nat, i: nat)
    requires i < n
    ensures LittleEndian(v, n)[i] == v / Pow256(i) % 256
  {
    if i > 0 {
      LittleEndianDigit(v / 256, n - 1, i - 1);
      DivideTwice(v, Pow256(i - 1));
    }
  }

  lemma {:induction false} DivideTwice(v: nat, p: nat)
    requires p > 0
    ensures v / 256 / p == v / (256 * p)
  {
    var q, r := v / 256 / p, v / 256 % p;
    assert v / 256 == q * p + r && v == 256 * (v / 256) + v % 256;
    assert v == q * (256 * p) + (256 * r + v % 256) by { assert 256 * (q * p) == q * (256 * p); }
    DivUnique(v, 256 * p, q, 256 * r + v % 256);
  }

  lemma {:induction false} DivUnique(a: nat, p: nat, q: nat, r: nat)
    requires p > 0 && r < p && a == q * p + r
    ensures a / p == q
  {
    ModUnique(a, p, q, r);
    Cancel(a / p, q, p);
    Cancel(q, a / p, p);
  }

  lemma {:induction false} Cancel(x: int, y: int, p: nat)
    requires p > 0 && x * p == y * p
    ensures x <= y
  {
    if x > y {
      assert (x - y) * p == x * p - y * p;
      MulAtLeast(x - y, p);
    }
  }

  /** An integer takes its width, padded, in two's complement, the low byte first. */
  lemma {:induction false} NumLayout(item: Item, p: seq<byte>, i: nat)
    requires Sendable(item) && item.Num? && Encodes(item, p) && i < item.width
    ensures |p| == Up(item.width)
    ensures p[i] == (if item.value >= 0 then item.value else item.value + Pow256(item.width)) / Pow256(i) % 256
  {
    var v, w := item.value, item.width;
    PatternIs(v, w, item.signed);
    LittleEndianDigit(Pattern(v, w), w, i);
    assert p[i] == p[..w][i];
  }

  lemma {:induction false} PatternIs(v: int, n: nat, signed: bool)
    requires InRange(v, n, signed)
    ensures Pattern(v, n) == if v >= 0 then v else v + Pow256(n)
  {
    if v >= 0 {
      ModUnique(v, Pow256(n), 0, v);
    } else {
      ModUnique(v, Pow256(n), -1, v + Pow256(n));
    }
  }

  /** A buffer or string takes four bytes of length, the low one first, and its bytes, padded; a string ends in a zero. */
  lemma {:induction false} PayloadLayout(item: Item, p: seq<byte>)
    requires Sendable(item) && !item.Num? && Encodes(item, p)
    ensures var bytes := match item
                         case Blob(b) => b
                         case Str(None) => []
                         case Str(Some(v)) => v + [0];
            && |p| == 4 + Up(|bytes|) && p[4..4 + |bytes|] == bytes
            && p[0] == |bytes| % 256 && p[1] == |bytes| / 256 % 256
            && p[2] == |bytes| / 65536 % 256 && p[3] == |bytes| / 16777216 % 256
  {
    var n := |Payload(item)|;
    assert Pow256(1) == 256 && Pow256(2) == 65536 && Pow256(3) == 16777216;
    forall i | 0 <= i < 4 ensures p[i] == n / Pow256(i) % 256 {
      LittleEndianDigit(n, 4, i);
      assert p[i] == p[..4][i];
    }
    assert Pow256(0) == 1;
  }

  /** What can be sent: integers in the range of their type, buffers below 2^31 bytes, strings of up to 32766 bytes. */
  lemma SendableIs(item: Item)
    ensures Sendable(item) <==>
            match item
            case Num(w, signed, v) =>
              && w in {1, 2, 4, 8}
              && if signed then -(Pow256(w) as int) <= 2 * v < Pow256(w) else 0 <= v < Pow256(w)
            case Blob(b) => |b| < 0x8000_0000
            case Str(text) => text.Some? ==> 0 !in text.value && |text.value| <= 32766
  {
  }

  // ---------------------------------------------------------------- reading

  /** The length header: four bytes, the low one first, as a signed number. */
  function LengthOf(u: seq<byte>): int
    requires |u| >= 4
  {
    var a: int, b: int, c: int, d: int := u[0], u[1], u[2], u[3];
    var n := a + 256 * b + 65536 * c + 16777216 * d;
    if n >= 0x8000_0000 then n - 0x1_0000_0000 else n
  }

  lemma {:induction false} HeaderIs(u: seq<byte>)
    requires |u| >= 4
    ensures Header(u) == LengthOf(u)
  {
    var h := u[..4];
    assert h[1..] == u[1..4] && u[1..4][1..] == u[2..4] && u[2..4][1..] == u[3..4] && u[3..4][1..] == [];
    assert FromLittleEndian(u[3..4]) == u[3] + 256 * FromLittleEndian([]);
    assert FromLittleEndian(u[2..4]) == u[2] + 256 * FromLittleEndian(u[3..4]);
    assert FromLittleEndian(u[1..4]) == u[1] + 256 * FromLittleEndian(u[2..4]);
    assert FromLittleEndian(h) == u[0] + 256 * FromLittleEndian(u[1..4]);
    assert Pow256(4) == TWO_32;
  }

  /** Reading a buffer: a length that is not negative and as many bytes behind it, padded. */
  lemma {:induction false} ReadsBuffer(u: seq<byte>)
    ensures Parse(BlobKind, u)
            == if |u| < 4 || LengthOf(u) < 0 || |u| < 4 + Up(LengthOf(u)) then Nothing
               else Found(Blob(u[4..4 + LengthOf(u)]), u[4 + Up(LengthOf(u))..])
  {
    if |u| >= 4 {
      HeaderIs(u);
    }
  }

  /**
    Reading a string: a length that is not positive gives the null string and is consumed; a length
    over 32767 or without as many bytes behind it gives nothing; otherwise the string goes up to its
    first zero, and to the last byte but one at most.
   */
  lemma {:induction false} ReadsString(u: seq<byte>)
    ensures |u| < 4 ==> Parse(StrKind, u) == Nothing
    ensures |u| >= 4 && LengthOf(u) <= 0 ==> Parse(StrKind, u) == Found(Str(None), u[4..])
    ensures |u| >= 4 && LengthOf(u) > 0 && (LengthOf(u) > 32767 || |u| < 4 + Up(LengthOf(u))) ==>
              Parse(StrKind, u) == Nothing
    ensures |u| >= 4 && 0 < LengthOf(u) <= 32767 && |u| >= 4 + Up(LengthOf(u)) ==>
              exists text: seq<byte> ::
                && Parse(StrKind, u) == Found(Str(Some(text)), u[4 + Up(LengthOf(u))..])
                && 0 !in text && |text| < LengthOf(u) && text == u[4..4 + |text|]
                && (|text| == LengthOf(u) - 1 || u[4 + |text|] == 0)
  {
    if |u| >= 4 {
      HeaderIs(u);
      if 0 < LengthOf(u) <= 32767 && |u| >= 4 + Up(LengthOf(u)) {
        var bs := u[4..3 + LengthOf(u)];
        CStringIs(bs);
        var text := CString(bs);
        assert text == u[4..4 + |text|];
        assert Parse(StrKind, u) == Found(Str(Some(text)), u[4 + Up(LengthOf(u))..]);
      }
    }
  }

  lemma {:induction false} CStringIs(bs: seq<byte>)
    ensures var t := CString(bs);
            0 !in t && |t| <= |bs| && t == bs[..|t|] && (|t| == |bs| || bs[|t|] == 0)
  {
    if bs != [] && bs[0] != 0 {
      CStringIs(bs[1..]);
    }
  }
}
