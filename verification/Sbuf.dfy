/**
  The raw serialization buffer of utils/src/hdf_sbuf_impl_raw.c.

  Memory comes from the environment: each operation that may allocate takes a
  flag telling whether the allocation succeeds. size_t has 64 bits.
 */
module Sbuf {
  import opened Bytes
  import opened SbufFormat

  const GROW_SIZE_DEFAULT := 256
  const MAX_SIZE := 512 * 1024

  /** The growth SbufRawImplWrite asks for, before it is cut to 32 bits at the call. */
  function WantedGrowth(alignSize: nat): nat {
    if alignSize > GROW_SIZE_DEFAULT then alignSize + GROW_SIZE_DEFAULT else GROW_SIZE_DEFAULT
  }

  /** The new capacity SbufRawImplGrow computes in a uint32_t. */
  function GrownSize(capacity: nat, growSize: nat): nat
    requires capacity < TWO_63 && growSize < TWO_32
  {
    AlignSize(capacity + growSize) % TWO_32
  }

  predicate GrowthAccepted(capacity: nat, growSize: nat)
    requires capacity < TWO_63 && growSize < TWO_32
  {
    capacity <= GrownSize(capacity, growSize) <= MAX_SIZE
  }

  /**
    An accepted growth makes room for the write exactly when the padded size plus the
    default growth fits in 32 bits; for every write below 2^31 bytes it does.
   */
  lemma {:induction false} GrowthSuffices(capacity: nat, writePos: nat, size: nat)
    requires writePos <= capacity <= MAX_SIZE && 0 < size < TWO_32
    requires AlignSize(size) > capacity - writePos
    requires GrowthAccepted(capacity, WantedGrowth(AlignSize(size)) % TWO_32)
    ensures size <= GrownSize(capacity, WantedGrowth(AlignSize(size)) % TWO_32) - writePos
            <==> AlignSize(size) + GROW_SIZE_DEFAULT < TWO_32
    ensures AlignSize(size) + GROW_SIZE_DEFAULT < TWO_32
            ==> AlignSize(size) <= GrownSize(capacity, WantedGrowth(AlignSize(size)) % TWO_32) - writePos
    ensures size < TWO_31 ==> AlignSize(size) + GROW_SIZE_DEFAULT < TWO_32
  {
    var a := AlignSize(size);
    var g := WantedGrowth(a) % TWO_32;
    var n := AlignSize(capacity + g);
    if a + GROW_SIZE_DEFAULT < TWO_32 {
      assert g == WantedGrowth(a);
    } else {
      assert g <= 256;
    }
  }

  /**
    The branch that growth is meant to rule out is reached: a write of 2^32 - 256 bytes asks for a
    growth that is cut to 0, gets it, and has no more room than before.
   */
  lemma {:induction false} NoRoomAfterGrowth(capacity: nat)
    requires capacity <= MAX_SIZE && capacity % 4 == 0
    ensures var size := TWO_32 - 256;
            var growSize := WantedGrowth(AlignSize(size)) % TWO_32;
            AlignSize(size) > capacity && GrowthAccepted(capacity, growSize) && size > GrownSize(capacity, growSize)
  {
    assert WantedGrowth(AlignSize(TWO_32 - 256)) == TWO_32;
    assert (capacity + 3) / 4 * 4 == capacity;
  }

  /** Whether SbufRawImplWrite finds or makes room for n bytes. */
  ghost predicate RoomFor(capacity: nat, writePos: nat, n: nat, mayGrow: bool)
    requires writePos <= capacity < TWO_63 && n < TWO_32
  {
    || AlignSize(n) <= capacity - writePos
    || (mayGrow && GrowthAccepted(capacity, WantedGrowth(AlignSize(n)) % TWO_32)
        && AlignSize(n) + GROW_SIZE_DEFAULT < TWO_32)
  }

  /** The capacity SbufRawImplWrite leaves behind. */
  ghost function CapacityAfter(capacity: nat, writePos: nat, n: nat, mayGrow: bool): (c: nat)
    requires writePos <= capacity < TWO_63 && n < TWO_32
    ensures capacity <= c && (c == capacity || c <= MAX_SIZE)
  {
    var growSize := WantedGrowth(AlignSize(n)) % TWO_32;
    if n == 0 || AlignSize(n) <= capacity - writePos || !mayGrow || !GrowthAccepted(capacity, growSize) then capacity
    else GrownSize(capacity, growSize)
  }

  /** Whether a header and then n bytes can be written. */
  ghost predicate BufferFits(capacity: nat, writePos: nat, n: nat, headerMem: bool, bodyMem: bool)
    requires writePos <= capacity < TWO_63 && n < TWO_32
  {
    var c := CapacityAfter(capacity, writePos, 4, headerMem);
    && RoomFor(capacity, writePos, 4, headerMem)
    && (n == 0 || (writePos + 4 <= c && RoomFor(c, writePos + 4, n, bodyMem)))
  }

  /** The capacity left behind by writing a header and then n bytes. */
  ghost function CapacityAfterBuffer(capacity: nat, writePos: nat, n: nat, headerMem: bool, bodyMem: bool): (c: nat)
    requires writePos <= capacity < TWO_63 && n < TWO_32
    ensures capacity <= c && (c == capacity || c <= MAX_SIZE)
  {
    var c := CapacityAfter(capacity, writePos, 4, headerMem);
    if !RoomFor(capacity, writePos, 4, headerMem) || c < writePos + 4 then c
    else CapacityAfter(c, writePos + 4, n, bodyMem)
  }

  lemma {:induction false} SmallGrowthAccepted(capacity: nat, n: nat)
    requires n < TWO_32 && capacity + AlignSize(n) + GROW_SIZE_DEFAULT + 4 <= MAX_SIZE
    ensures GrowthAccepted(capacity, WantedGrowth(AlignSize(n)) % TWO_32)
    ensures GrownSize(capacity, WantedGrowth(AlignSize(n)) % TWO_32) <= capacity + WantedGrowth(AlignSize(n)) + 3
  {
    var g := WantedGrowth(AlignSize(n));
    assert g % TWO_32 == g && AlignSize(capacity + g) % TWO_32 == AlignSize(capacity + g);
  }

  /** A header and n bytes fit when there is room at hand, or room to grow well below the limit. */
  lemma {:induction false} AmpleRoomFits(capacity: nat, writePos: nat, n: nat, mayGrow: bool)
    requires writePos <= capacity < TWO_63 && n < TWO_32
    requires 4 + AlignSize(n) <= capacity - writePos
             || (mayGrow && capacity + AlignSize(n) + 2 * (GROW_SIZE_DEFAULT + 4) <= MAX_SIZE)
    ensures BufferFits(capacity, writePos, n, mayGrow, mayGrow)
  {
    assert AlignSize(4) == 4;
    if !(4 + AlignSize(n) <= capacity - writePos) {
      SmallGrowthAccepted(capacity, 4);
      if capacity - writePos < 4 {
        GrowthSuffices(capacity, writePos, 4);
      }
      SmallGrowthAccepted(CapacityAfter(capacity, writePos, 4, mayGrow), n);
    }
  }

  /** memcpy_s into a buffer with room for the bytes. */
  method CopyInto(dest: array<byte>, at: nat, bs: seq<byte>)
    requires at + |bs| <= dest.Length
    modifies dest
    ensures dest[at..at + |bs|] == bs
    ensures dest[..at] == old(dest[..at])
    ensures dest[at + |bs|..] == old(dest[at + |bs|..])
  {
    forall i | 0 <= i < |bs| {
      dest[at + i] := bs[i];
    }
  }

  lemma {:induction false} Spliced(before: seq<byte>, after: seq<byte>, r: nat, w: nat, w': nat, bs: seq<byte>)
    requires r <= w && w + |bs| <= w' <= |before| == |after|
    requires after[..w] == before[..w] && after[w..w + |bs|] == bs
    ensures after[r..w'][..w - r] == before[r..w]
    ensures after[r..w'][w - r..w - r + |bs|] == bs
  {
    var v := after[r..w'];
    forall i | 0 <= i < w - r ensures v[i] == before[r..w][i] {
      assert after[..w][r + i] == before[..w][r + i];
    }
    forall i | 0 <= i < |bs| ensures v[w - r..w - r + |bs|][i] == bs[i] {
      assert after[w..w + |bs|][i] == bs[i];
    }
  }

  lemma Dropped(s: seq<byte>, r: nat, w: nat, n: nat)
    requires r + n <= w <= |s|
    ensures s[r..w][n..] == s[r + n..w]
  {
  }

  /** The bytes SbufRawImplWriteString writes: the length, terminator included, is cut to 32 bits at the call. */
  function StringBytes(text: Option<seq<byte>>): (r: seq<byte>)
    ensures |r| < TWO_32
    ensures |Payload(Str(text))| < TWO_32 ==> r == Payload(Str(text))
  {
    match text
    case None => []
    case Some(v) => (v + [0])[..(|v| + 1) % TWO_32]
  }

  /** A length header that ReadBuffer takes for an empty buffer although it is negative. */
  predicate CorruptHeader(u: seq<byte>) {
    |u| >= 4 && -3 <= Header(u) < 0
  }

  /** Three such headers. */
  lemma {:induction false} CorruptHeaders(h: nat)
    requires TWO_32 - 3 <= h < TWO_32
    ensures CorruptHeader(LittleEndian(h, 4)) && Header(LittleEndian(h, 4)) == h - TWO_32
  {
    assert Pow256(4) == TWO_32;
    LittleEndianRoundTrip(h, 4);
    assert LittleEndian(h, 4)[..4] == LittleEndian(h, 4);
  }

  lemma ParsesBlob(u: seq<byte>)
    ensures Parse(BlobKind, u).Found? <==> |u| >= 4 && Header(u) >= 0 && |u| >= 4 + AlignSize(Header(u))
    ensures Parse(BlobKind, u).Found? ==>
              Parse(BlobKind, u) == Found(Blob(u[4..4 + Header(u)]), u[4 + AlignSize(Header(u))..])
    ensures |u| >= 4 ==> -TWO_31 <= Header(u) < TWO_31
  {
  }

  /** A negative length, sign-extended: only the three largest wrap to an aligned size of 0. */
  lemma NegativeSize(h: int)
    requires -TWO_31 <= h < 0
    ensures AlignSize(TWO_64 + h) == 0 <==> h >= -3
    ensures h < -3 ==> AlignSize(TWO_64 + h) > TWO_63
  {
  }

  lemma FourIsAligned()
    ensures AlignSize(4) == 4
  {
  }

  class SbufRaw {
    var writePos: nat
    var readPos: nat
    var capacity: nat
    var data: array?<byte>
    var isBind: bool

    ghost predicate Valid()
      reads this
    {
      && readPos <= writePos <= capacity < TWO_63
      && capacity == if data == null then 0 else data.Length
    }

    /** The bytes written and not yet read. */
    ghost function Unread(): (u: seq<byte>)
      requires Valid()
      reads this, data
      ensures |u| == writePos - readPos
    {
      if data == null then [] else data[readPos..writePos]
    }

    /** SbufObtainRaw, for a size within the limit. */
    constructor Obtain(size: nat)
      requires size <= MAX_SIZE
      ensures Valid() && fresh(data) && capacity == size && !isBind && readPos == writePos == 0
      ensures data != null
    {
      data := new byte[size](_ => 0);
      capacity := size;
      writePos := 0;
      readPos := 0;
      isBind := false;
    }

    /** SbufBindRaw: everything in the given memory counts as written. */
    constructor Bind(base: array<byte>)
      requires 0 < base.Length < TWO_63
      ensures Valid() && data == base && capacity == base.Length && isBind && Unread() == base[..]
    {
      data := base;
      capacity := base.Length;
      writePos := base.Length;
      readPos := 0;
      isBind := true;
      new;
      assert base[0..base.Length] == base[..];
    }

    function LeftWriteSize(): nat
      reads this
    {
      if capacity < writePos then 0 else capacity - writePos
    }

    function LeftReadSize(): nat
      reads this
    {
      if writePos < readPos then 0 else writePos - readPos
    }

    method Grow(growSize: nat, mem: bool) returns (ok: bool)
      requires Valid() && growSize < TWO_32
      modifies this
      ensures Valid() && readPos == old(readPos) && writePos == old(writePos) && isBind == old(isBind)
      ensures Unread() == old(Unread())
      ensures ok <==> !isBind && mem && GrowthAccepted(old(capacity), growSize)
      ensures ok ==> data != null && fresh(data) && capacity == GrownSize(old(capacity), growSize)
      ensures !ok ==> data == old(data) && capacity == old(capacity)
    {
      if isBind {
        return false;
      }
      var newSize := GrownSize(capacity, growSize);
      if newSize < capacity {
        return false;
      }
      if newSize > MAX_SIZE {
        return false;
      }
      if !mem {
        return false;
      }
      var newData := new byte[newSize](_ => 0);
      if data != null {
        forall i | 0 <= i < writePos {
          newData[i] := data[i];
        }
      }
      data := newData;
      capacity := newSize;
      return true;
    }

    ghost predicate HasRoom(n: nat, mem: bool)
      requires Valid() && n < TWO_32
      reads this
    {
      RoomFor(capacity, writePos, n, !isBind && mem)
    }

    /** The unread bytes after a header are the bytes of the array from the read position. */
    lemma {:induction false} SliceOfUnread(u: seq<byte>, n: nat)
      requires Valid() && data != null && |u| >= 4 && Unread() == u[4..] && n <= |Unread()|
      ensures data[readPos..readPos + n] == u[4..4 + n]
    {
      var s, d := u[4..4 + n], data[readPos..readPos + n];
      forall i | 0 <= i < n ensures s[i] == d[i] {
        assert Unread()[i] == data[readPos + i] && u[4..][i] == u[4 + i];
      }
    }

    /** The copy at the end of SbufRawImplWrite, once there is room. */
    method Append(bs: seq<byte>)
      requires Valid() && data != null && |bs| < TWO_32 && AlignSize(|bs|) <= capacity - writePos
      modifies this`writePos, data
      ensures Valid() && Extends(old(Unread()), Unread(), bs)
    {
      ghost var u, w, before := Unread(), writePos, data[..];
      CopyInto(data, writePos, bs);
      writePos := writePos + AlignSize(|bs|);
      ghost var v, after := Unread(), data[..];
      assert after[..w] == before[..w] && after[w..w + |bs|] == bs;
      assert u == before[readPos..w] && v == after[readPos..writePos];
      Spliced(before, after, readPos, w, writePos, bs);
    }

    method Write(bs: seq<byte>, mem: bool) returns (ok: bool)
      requires Valid() && |bs| < TWO_32
      modifies this, data
      ensures Valid() && readPos == old(readPos) && isBind == old(isBind)
      ensures data == old(data) || fresh(data)
      ensures old(data) == null ==> data == null && !ok
      ensures old(data) != null ==> data != null
      ensures old(data) != null ==>
                capacity == CapacityAfter(old(capacity), old(writePos), |bs|, !isBind && mem)
      ensures !ok ==> writePos == old(writePos) && Unread() == old(Unread())
      ensures ok ==> Extends(old(Unread()), Unread(), bs)
      ensures ok <==> old(data) != null && (|bs| == 0 || old(HasRoom(|bs|, mem)))
    {
      if data == null {
        return false;
      }
      var size := |bs|;
      if size == 0 {
        return true;
      }
      var alignSize := AlignSize(size);   // at least size, for a 32-bit size in a 64-bit size_t
      var writeable := LeftWriteSize();
      if alignSize > writeable {
        var grown := Grow(WantedGrowth(alignSize) % TWO_32, mem);
        if !grown {
          return false;
        }
        GrowthSuffices(old(capacity), writePos, size);
        writeable := LeftWriteSize();
      }
      if size > writeable {
        // memcpy_s refuses; see GrowthSuffices for when this happens
        return false;
      }
      Append(bs);
      return true;
    }

    /** Moving the read cursor over n unread bytes. */
    method Advance(n: nat)
      requires Valid() && n <= |Unread()|
      modifies this`readPos
      ensures Valid() && readPos == old(readPos) + n && Unread() == old(Unread())[n..]
    {
      if data != null {
        Dropped(data[..], readPos, writePos, n);
        assert data[..][readPos..writePos] == data[readPos..writePos];
        assert data[..][readPos + n..writePos] == data[readPos + n..writePos];
      }
      readPos := readPos + n;
    }

    method Read(n: nat) returns (ok: bool, out: seq<byte>)
      requires Valid() && n < TWO_32
      modifies this`readPos
      ensures Valid()
      ensures ok <==> data != null && AlignSize(n) <= |old(Unread())|
      ensures ok ==> out == old(Unread())[..n] && Unread() == old(Unread())[AlignSize(n)..]
      ensures !ok ==> readPos == old(readPos)
    {
      out := [];
      if data == null {
        return false, out;
      }
      if n == 0 {
        return true, out;
      }
      var alignSize := AlignSize(n);
      if alignSize > LeftReadSize() {
        return false, out;
      }
      out := data[readPos..readPos + n];
      assert out == Unread()[..n];
      Advance(alignSize);
      return true, out;
    }

    /** The write cursor goes back by the padded size, if it is at least that. */
    method WriteRollback(size: nat) returns (ok: bool)
      requires Valid() && size < TWO_32
      modifies this`writePos
      ensures ok <==> AlignSize(size) <= old(writePos)
      ensures writePos == if ok then old(writePos) - AlignSize(size) else old(writePos)
      ensures AlignSize(size) <= |old(Unread())| ==>
                ok && Valid() && Unread() == old(Unread())[..|old(Unread())| - AlignSize(size)]
    {
      var alignSize := AlignSize(size);
      if writePos < alignSize {
        return false;
      }
      writePos := writePos - alignSize;
      return true;
    }

    method ReadRollback(size: nat) returns (ok: bool)
      requires Valid() && size < TWO_32
      modifies this`readPos
      ensures Valid() && (ok <==> AlignSize(size) <= old(readPos))
      ensures readPos == if ok then old(readPos) - AlignSize(size) else old(readPos)
    {
      var alignSize := AlignSize(size);
      if readPos < alignSize {
        return false;
      }
      readPos := readPos - alignSize;
      return true;
    }

    // -------------------------------------------------------------- integers

    /** SbufRawImplWrite{U,}int{8,16,32,64}. */
    method WriteNum(width: nat, value: int, mem: bool) returns (ok: bool)
      requires Valid() && width in {1, 2, 4, 8}
      modifies this, data
      ensures Valid() && readPos == old(readPos) && isBind == old(isBind)
      ensures data == old(data) || fresh(data)
      ensures data == null <==> old(data) == null
      ensures old(data) != null ==>
                capacity == CapacityAfter(old(capacity), old(writePos), width, !isBind && mem)
      ensures !ok ==> writePos == old(writePos) && Unread() == old(Unread())
      ensures ok ==> Extends(old(Unread()), Unread(), LittleEndian(Pattern(value, width), width))
      ensures ok <==> old(data) != null && old(HasRoom(width, mem))
    {
      ok := Write(LittleEndian(Pattern(value, width), width), mem);
    }

    /** SbufRawImplRead{U,}int{8,16,32,64}. */
    method ReadNum(width: nat, signed: bool) returns (ok: bool, value: int)
      requires Valid() && width in {1, 2, 4, 8}
      modifies this`readPos
      ensures Valid()
      ensures match Parse(NumKind(width, signed), old(Unread()))
              case Nothing => !ok && readPos == old(readPos)
              case Found(item, rest) => ok && value == item.value && Unread() == rest
    {
      var bs;
      ok, bs := Read(width);
      value := if ok then Meaning(FromLittleEndian(bs), width, signed) else 0;
    }

    // -------------------------------------------------------------- buffers and strings

    /** Reading the length header of a buffer or string. */
    method ReadHeader() returns (ok: bool, h: int)
      requires Valid()
      modifies this`readPos
      ensures Valid()
      ensures ok <==> data != null && |old(Unread())| >= 4
      ensures ok ==> h == Header(old(Unread())) && Unread() == old(Unread())[4..] && readPos == old(readPos) + 4
      ensures !ok ==> readPos == old(readPos)
    {
      assert AlignSize(4) == 4;
      var bs;
      ok, bs := Read(4);
      h := if ok then Meaning(FromLittleEndian(bs), 4, true) else 0;
    }

    /** Writing the length header of a buffer or string. */
    method WriteHeader(n: nat, mem: bool) returns (ok: bool)
      requires Valid() && n < TWO_32
      modifies this, data
      ensures Valid() && readPos == old(readPos) && isBind == old(isBind)
      ensures data == old(data) || fresh(data)
      ensures data == null <==> old(data) == null
      ensures old(data) != null ==> capacity == CapacityAfter(old(capacity), old(writePos), 4, !isBind && mem)
      ensures !ok ==> writePos == old(writePos) && Unread() == old(Unread())
      ensures ok ==> Extends(old(Unread()), Unread(), LittleEndian(n, 4)) && writePos == old(writePos) + 4
      ensures ok <==> old(data) != null && RoomFor(old(capacity), old(writePos), 4, !isBind && mem)
    {
      assert Pattern(n, 4) == n by { assert Pow256(4) == TWO_32; }
      assert AlignSize(4) == 4;
      ok := WriteNum(4, n, mem);
    }

    /**
      SbufRawImplWriteBuffer of a non-null buffer of the given size. A failure after the
      header was written takes the header back.
     */
    method WriteBuffer(bs: seq<byte>, headerMem: bool, bodyMem: bool) returns (ok: bool)
      requires Valid() && |bs| < TWO_32
      modifies this, data
      ensures Valid() && readPos == old(readPos) && isBind == old(isBind)
      ensures data == old(data) || fresh(data)
      ensures data == null <==> old(data) == null
      ensures old(capacity) <= capacity && (old(capacity) <= MAX_SIZE ==> capacity <= MAX_SIZE)
      ensures old(data) != null ==>
                capacity == CapacityAfterBuffer(old(capacity), old(writePos), |bs|, !isBind && headerMem, !isBind && bodyMem)
      ensures !ok ==> writePos == old(writePos) && Unread() == old(Unread())
      ensures ok ==> ExtendsTwice(old(Unread()), Unread(), LittleEndian(|bs|, 4), bs)
      ensures ok <==> old(data) != null
                      && BufferFits(old(capacity), old(writePos), |bs|, !isBind && headerMem, !isBind && bodyMem)
    {
      hide RoomFor, GrowthAccepted, GrownSize, CapacityAfter, AlignSize, LittleEndian, Pattern;
      ghost var u := Unread();
      var headed := WriteHeader(|bs|, headerMem);
      if !headed {
        return false;
      }
      ghost var v := Unread();
      assert AlignSize(4) == 4 by { FourIsAligned(); }
      ok := Write(bs, bodyMem);
      if !ok {
        var undone := WriteRollback(4);
        return false;
      }
      assert Extends(u, v, LittleEndian(|bs|, 4)) && Extends(v, Unread(), bs);
    }

    /** SbufRawImplWriteBuffer of a null buffer: a zero header. */
    method WriteNullBuffer(mem: bool) returns (ok: bool)
      requires Valid()
      modifies this, data
      ensures Valid() && readPos == old(readPos) && isBind == old(isBind)
      ensures data == old(data) || fresh(data)
      ensures data == null <==> old(data) == null
      ensures old(capacity) <= capacity && (old(capacity) <= MAX_SIZE ==> capacity <= MAX_SIZE)
      ensures old(data) != null ==>
                capacity == CapacityAfterBuffer(old(capacity), old(writePos), 0, !isBind && mem, !isBind && mem)
      ensures !ok ==> writePos == old(writePos) && Unread() == old(Unread())
      ensures ok ==> ExtendsTwice(old(Unread()), Unread(), LittleEndian(0, 4), [])
      ensures ok <==> old(data) != null && BufferFits(old(capacity), old(writePos), 0, !isBind && mem, !isBind && mem)
    {
      ok := WriteNum(4, 0, mem);
      if ok {
        assert Pattern(0, 4) == 0;
        assert Extends(old(Unread()), Unread(), LittleEndian(0, 4)) && Extends(Unread(), Unread(), []);
      }
    }

    /** SbufRawImplWriteString. */
    method WriteString(text: Option<seq<byte>>, headerMem: bool, bodyMem: bool) returns (ok: bool)
      requires Valid()
      modifies this, data
      ensures Valid() && readPos == old(readPos) && isBind == old(isBind)
      ensures data == old(data) || fresh(data)
      ensures data == null <==> old(data) == null
      ensures old(capacity) <= capacity && (old(capacity) <= MAX_SIZE ==> capacity <= MAX_SIZE)
      ensures old(data) != null ==>
                capacity == CapacityAfterBuffer(old(capacity), old(writePos), |StringBytes(text)|,
                                                !isBind && headerMem, !isBind && bodyMem)
      ensures !ok ==> writePos == old(writePos) && Unread() == old(Unread())
      ensures ok ==> ExtendsTwice(old(Unread()), Unread(), LittleEndian(|StringBytes(text)|, 4), StringBytes(text))
      ensures ok <==> old(data) != null && BufferFits(old(capacity), old(writePos), |StringBytes(text)|,
                                                      !isBind && headerMem, !isBind && bodyMem)
    {
      match text {
        case None => ok := WriteNullBuffer(headerMem);
        case Some(v) =>
          ok := WriteBuffer((v + [0])[..(|v| + 1) % TWO_32], headerMem, bodyMem);
      }
    }

    /**
      SbufRawImplReadBuffer: where the buffer starts and its size. A header of -1, -2 or -3
      is sign-extended, wraps to an aligned size of 0 and is let through.
     */
    method ReadBuffer() returns (ok: bool, pos: nat, size: nat)
      requires Valid()
      modifies this`readPos
      ensures Valid()
      ensures !ok ==> readPos == old(readPos)
      ensures ok <==> Parse(BlobKind, old(Unread())).Found? || CorruptHeader(old(Unread()))
      ensures CorruptHeader(old(Unread())) ==>
                Unread() == old(Unread())[4..] && size == TWO_32 + Header(old(Unread()))
      ensures match Parse(BlobKind, old(Unread()))
              case Nothing => true
              case Found(item, rest) =>
                && Unread() == rest && size == |item.bytes|
                && data != null && pos + size <= data.Length && data[pos..pos + size] == item.bytes
    {
      hide Parse, Header;
      ghost var u := Unread();
      pos, size := 0, 0;
      var h;
      ok, h := ReadHeader();
      ParsesBlob(u);
      if !ok {
        return;
      }
      if h == 0 {
        return;
      }
      var alignSize := AlignSize(if h < 0 then TWO_64 + h else h);
      if h < 0 {
        NegativeSize(h);
      }
      if alignSize > LeftReadSize() {
        var undone := ReadRollback(4);
        ok := false;
        return;
      }
      pos := readPos;
      size := if h < 0 then TWO_32 + h else h;
      if h > 0 {
        SliceOfUnread(u, h);
      }
      Advance(alignSize);
      assert u[4..][alignSize..] == u[4 + alignSize..];
    }

    /** SbufRawImplReadString; the terminator is forced into the buffer. */
    method ReadString() returns (r: Option<seq<byte>>)
      requires Valid()
      modifies this`readPos, data
      ensures Valid()
      ensures match Parse(StrKind, old(Unread()))
              case Nothing => r == None && readPos == old(readPos) && Unread() == old(Unread())
              case Found(item, rest) => r == item.text && Unread() == rest
    {
      ghost var u := Unread();
      var ok, h := ReadHeader();
      if !ok {
        return None;
      }
      if h <= 0 {
        return None;
      }
      if h > MAX_STRING || AlignSize(h) > LeftReadSize() {
        var undone := ReadRollback(4);
        return None;
      }
      var s := TakeString(h);
      assert u[4..][..h - 1] == u[4..3 + h] && u[4..][AlignSize(h)..] == u[4 + AlignSize(h)..];
      return Some(s);
    }

    /** Reading a string of which the length, terminator included, is known. */
    method TakeString(h: nat) returns (s: seq<byte>)
      requires Valid() && data != null && 0 < h <= MAX_STRING && AlignSize(h) <= |Unread()|
      modifies this`readPos, data
      ensures Valid() && Unread() == old(Unread())[AlignSize(h)..]
      ensures s == CString(old(Unread())[..h - 1])
    {
      ghost var u := Unread();
      var pos := readPos;
      assert data[pos..pos + h - 1] == u[..h - 1];
      Advance(AlignSize(h));
      data[pos + h - 1] := 0;
      assert data[pos..pos + h] == data[pos..pos + h - 1] + [0];
      CStringStops(u[..h - 1]);
      s := CString(data[pos..pos + h]);
    }

    // -------------------------------------------------------------- whole-buffer operations

    method Flush()
      requires Valid()
      modifies this`readPos, this`writePos
      ensures Valid() && Unread() == [] && writePos == 0
    {
      readPos := 0;
      writePos := 0;
    }

    method SetDataSize(size: nat)
      requires Valid()
      modifies this`readPos, this`writePos
      ensures Valid()
      ensures size <= capacity ==> readPos == 0 && writePos == size
      ensures size > capacity ==> readPos == old(readPos) && writePos == old(writePos)
    {
      if size <= capacity {
        readPos := 0;
        writePos := size;
      }
    }

    method TransDataOwnership()
      requires Valid()
      modifies this`isBind
      ensures Valid() && !isBind
    {
      isBind := false;
    }

    /** SbufRawImplCopy: a new buffer in which everything written is unread again. */
    method Copy(mem: bool) returns (r: SbufRaw?)
      requires Valid()
      ensures r != null <==> data != null && 0 < capacity <= MAX_SIZE && mem
      ensures r != null ==> fresh(r) && r.Valid() && fresh(r.data) && !r.isBind && r.capacity == capacity
      ensures r != null ==> r.Unread() == data[..writePos]
    {
      if data == null || capacity > MAX_SIZE || !mem || capacity == 0 {
        // memcpy_s refuses a destination of size 0
        return null;
      }
      r := new SbufRaw.Obtain(capacity);
      r.writePos := writePos;
      var source := data;
      forall i | 0 <= i < capacity {
        r.data[i] := source[i];
      }
      assert r.Unread() == data[..writePos];
    }

    /** SbufRawImplMove: the data goes to a new buffer and this one is left empty. */
    method Move(mem: bool) returns (r: SbufRaw?)
      requires Valid()
      modifies this
      ensures Valid() && (r != null <==> !old(isBind) && mem)
      ensures r != null ==> fresh(r) && r.Valid() && r.data == old(data) && r.capacity == old(capacity) && !r.isBind
      ensures r != null ==> r.readPos == 0 && r.writePos == old(writePos)
      ensures r != null ==> data == null && Unread() == []
      ensures r == null ==> readPos == old(readPos) && writePos == old(writePos) && data == old(data)
    {
      if isBind || !mem {
        return null;
      }
      r := new SbufRaw.Obtain(0);
      r.capacity, r.readPos, r.writePos, r.data := capacity, 0, writePos, data;
      data := null;
      capacity := 0;
      readPos, writePos := 0, 0;
    }
  }

  /** A header and a body appended one after the other. */
  ghost predicate ExtendsTwice(u: seq<byte>, w: seq<byte>, header: seq<byte>, body: seq<byte>) {
    exists v :: Extends(u, v, header) && Extends(v, w, body)
  }

  /** SbufObtainRaw. */
  method SbufObtainRaw(capacity: nat, objectMem: bool, dataMem: bool) returns (r: SbufRaw?)
    ensures r != null <==> capacity <= MAX_SIZE && objectMem && dataMem
    ensures r != null ==> fresh(r) && r.Valid() && fresh(r.data) && r.capacity == capacity && !r.isBind && r.Unread() == []
  {
    if capacity > MAX_SIZE || !objectMem || !dataMem {
      return null;
    }
    r := new SbufRaw.Obtain(capacity);
  }

  /** SbufBindRaw, for memory of which `aligned` tells whether it starts at a multiple of four. */
  method SbufBindRaw(base: array?<byte>, aligned: bool, objectMem: bool) returns (r: SbufRaw?)
    requires base != null ==> base.Length < TWO_63
    ensures r != null <==> base != null && base.Length != 0 && aligned && objectMem
    ensures r != null ==> fresh(r) && r.Valid() && r.data == base && r.isBind && r.Unread() == base[..]
  {
    if base == null || base.Length == 0 || !aligned || !objectMem {
      return null;
    }
    r := new SbufRaw.Bind(base);
  }
}
