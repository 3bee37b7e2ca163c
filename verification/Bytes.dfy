/** Bytes, fixed-width integers and 4-byte alignment. */
module Bytes {

  type byte = x: int | 0 <= x < 256

  datatype Option<T> = None | Some(value: T)

  const TWO_31 := 0x8000_0000
  const TWO_32 := 0x1_0000_0000
  const TWO_63 := 0x8000_0000_0000_0000
  const TWO_64 := 0x1_0000_0000_0000_0000

  /** 256 to the power n: the number of values of an n-byte integer. */
  function Pow256(n: nat): (r: nat)
    ensures r >= 1
  {
    if n == 0 then 1 else 256 * Pow256(n - 1)
  }

  /** The n low bytes of v, least significant first. */
  function LittleEndian(v: nat, n: nat): (s: seq<byte>)
    ensures |s| == n
  {
    if n == 0 then [] else [v % 256] + LittleEndian(v / 256, n - 1)
  }

  function FromLittleEndian(s: seq<byte>): (v: nat)
    ensures v < Pow256(|s|)
  {
    if s == [] then 0 else s[0] + 256 * FromLittleEndian(s[1..])
  }

  lemma {:induction false} LittleEndianRoundTrip(v: nat, n: nat)
    requires v < Pow256(n)
    ensures FromLittleEndian(LittleEndian(v, n)) == v
  {
    if n > 0 {
      LittleEndianRoundTrip(v / 256, n - 1);
      assert LittleEndian(v, n)[1..] == LittleEndian(v / 256, n - 1);
    }
  }

  /** The bit pattern of a possibly negative value in n bytes (two's complement). */
  function Pattern(v: int, n: nat): (r: nat)
    ensures r < Pow256(n)
  {
    v % Pow256(n)
  }

  /** The value of an n-byte pattern read as a signed or an unsigned integer. */
  function Meaning(r: nat, n: nat, signed: bool): (v: int) {
    if signed && 2 * r >= Pow256(n) then r - Pow256(n) else r
  }

  predicate InRange(v: int, n: nat, signed: bool) {
    if signed then -(Pow256(n) as int) <= 2 * v < Pow256(n) else 0 <= v < Pow256(n)
  }

  lemma {:induction false} PatternRoundTrip(v: int, n: nat, signed: bool)
    requires InRange(v, n, signed)
    ensures Meaning(Pattern(v, n), n, signed) == v
  {
    if v >= 0 {
      ModUnique(v, Pow256(n), 0, v);
    } else {
      ModUnique(v, Pow256(n), -1, v + Pow256(n));
    }
  }

  lemma {:induction false} ModUnique(a: int, p: nat, q: int, r: nat)
    requires p > 0 && r < p && a == q * p + r
    ensures a % p == r
  {
    var q', r' := a / p, a % p;
    assert (q - q') * p == r' - r;
    if q > q' {
      MulAtLeast(q - q', p);
    } else if q < q' {
      assert (q' - q) * p == -((q - q') * p);
      MulAtLeast(q' - q, p);
    }
  }

  lemma {:induction false} MulAtLeast(k: int, p: nat)
    requires k >= 1
    ensures k * p >= p
  {
    assert k * p == (k - 1) * p + p;
  }

  /**
    SbufRawImplGetAlignSize on a 64-bit size_t: clearing the two low bits of the sum
    rounds it down to a multiple of four, and a sum that wraps is 0, 1 or 2.
   */
  function AlignSize(size: nat): (r: nat)
    requires size < TWO_64
    ensures r % 4 == 0
    ensures size + 3 < TWO_64 ==> size <= r <= size + 3
  {
    if size + 3 < TWO_64 then (size + 3) / 4 * 4 else 0
  }
}
