/** Service names and the keys they are stored under (utils/src/hdf_cstring.c). */
module Names {
  import opened Bytes
  import HashTable

  /** A C string. */
  type Name = n: seq<byte> | 0 !in n

  /** HdfStringMakeHashKey(name, 0). */
  function KeyLoop(name: seq<byte>): nat {
    if name == [] then 0 else (KeyLoop(name[..|name| - 1]) * 131 + name[|name| - 1]) % TWO_32
  }

  function KeyOf(name: seq<byte>): nat {
    HashTable.BitAnd(KeyLoop(name), 0x7FFF_FFFF)
  }

  /** The characters as digits to the base 131, without a limit. */
  function Digits(name: seq<byte>): nat {
    if name == [] then 0 else Digits(name[..|name| - 1]) * 131 + name[|name| - 1]
  }

  /** A key is the name read as a number to the base 131, modulo 2^31. */
  lemma {:induction false} KeyIsNumber(name: seq<byte>)
    ensures KeyOf(name) == Digits(name) % 0x8000_0000
  {
    LoopIsNumber(name);
    assert HashTable.Pow2(31) == TWO_31 by { HashTable.PowersOfTwo(); }
    HashTable.BitAndMask(KeyLoop(name), 31);
    HashTable.ModOfMod(Digits(name));
  }

  lemma {:induction false} LoopIsNumber(name: seq<byte>)
    ensures KeyLoop(name) == Digits(name) % TWO_32
  {
    if name != [] {
      var d := Digits(name[..|name| - 1]);
      LoopIsNumber(name[..|name| - 1]);
      HashTable.NextDigit(d, name[|name| - 1]);
    }
  }
}
