/** Bytes, 512-byte sectors and the little-endian loads and stores of the on-disk format. */
module Bytes {

  type Byte = x: int | 0 <= x < 256

  type Sector = s: seq<Byte> | |s| == 512 witness seq(512, _ => 0)

  /** The first byte of a directory entry says that it is free, or free like all entries after it. */
  const ENTRY_FREE: Byte := 0xE5
  const ENTRY_END: Byte := 0x00

  function ZeroSector(): (s: Sector)
    ensures forall i :: 0 <= i < 512 ==> s[i] == 0
  {
    seq(512, _ => 0)
  }

  function Rd16(s: seq<Byte>, o: nat): (v: nat)
    requires o + 2 <= |s|
    ensures v < 0x1_0000
  {
    s[o] as int + 0x100 * (s[o + 1] as int)
  }

  function Rd32(s: seq<Byte>, o: nat): (v: nat)
    requires o + 4 <= |s|
    ensures v < 0x1_0000_0000
  {
    Rd16(s, o) + 0x1_0000 * Rd16(s, o + 2)
  }

  /** Stores the low sixteen bits of `v`; every other byte keeps its value. */
  function Wr16(s: seq<Byte>, o: nat, v: nat): (t: seq<Byte>)
    requires o + 2 <= |s|
    ensures |t| == |s|
    ensures Rd16(t, o) == v % 0x1_0000
    ensures forall i :: 0 <= i < |s| && !(o <= i < o + 2) ==> t[i] == s[i]
  {
    var w := v % 0x1_0000;
    s[o := w % 0x100][o + 1 := w / 0x100]
  }

  /** Stores the low thirty-two bits of `v`; every other byte keeps its value. */
  function Wr32(s: seq<Byte>, o: nat, v: nat): (t: seq<Byte>)
    requires o + 4 <= |s|
    ensures |t| == |s|
    ensures Rd32(t, o) == v % 0x1_0000_0000
    ensures forall i :: 0 <= i < |s| && !(o <= i < o + 4) ==> t[i] == s[i]
  {
    var w := v % 0x1_0000_0000;
    Wr16(Wr16(s, o, w % 0x1_0000), o + 2, w / 0x1_0000)
  }

  lemma Rd16Frame(s: seq<Byte>, t: seq<Byte>, o: nat)
    requires o + 2 <= |s| == |t| && s[o] == t[o] && s[o + 1] == t[o + 1]
    ensures Rd16(s, o) == Rd16(t, o)
  {
  }
}
