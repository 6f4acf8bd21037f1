/** Bytes as the kernel sees them, and the little-endian words it reads out of raw sectors. */
module Bytes {

  type Byte = x: int | 0 <= x < 256 witness 0

  const TWO_28: nat := 0x1000_0000
  const TWO_32: nat := 0x1_0000_0000

  /** `*(uint16_t*)(s + off)` on a little-endian machine. */
  function Half(s: seq<Byte>, off: nat): (h: nat)
    requires off + 2 <= |s|
    ensures h < 0x1_0000
  {
    (s[off] as int) + 0x100 * (s[off + 1] as int)
  }

  /** `*(uint32_t*)(s + off)`. */
  function Word(s: seq<Byte>, off: nat): (w: nat)
    requires off + 4 <= |s|
    ensures w < TWO_32
  {
    (s[off] as int) + 0x100 * (s[off + 1] as int) + 0x1_0000 * (s[off + 2] as int) + 0x100_0000 * (s[off + 3] as int)
  }

  /** The four bytes of a word, lowest first. */
  function WordBytes(v: nat): (b: seq<Byte>)
    requires v < TWO_32
    ensures |b| == 4
  {
    [v % 0x100, v / 0x100 % 0x100, v / 0x1_0000 % 0x100, v / 0x100_0000]
  }

  /** The buffer after `*(uint32_t*)(s + off) = v`. */
  function PutWord(s: seq<Byte>, off: nat, v: nat): (r: seq<Byte>)
    requires off + 4 <= |s| && v < TWO_32
    ensures |r| == |s|
    ensures forall i | 0 <= i < |s| && !(off <= i < off + 4) :: r[i] == s[i]
  {
    s[..off] + WordBytes(v) + s[off + 4..]
  }

  /** The buffer after `*(uint16_t*)(s + off) = v`. */
  function PutHalf(s: seq<Byte>, off: nat, v: nat): (r: seq<Byte>)
    requires off + 2 <= |s| && v < 0x1_0000
    ensures |r| == |s|
    ensures forall i | 0 <= i < |s| && !(off <= i < off + 2) :: r[i] == s[i]
  {
    s[..off] + [v % 0x100, v / 0x100] + s[off + 2..]
  }

  lemma WordBytesSum(v: nat)
    requires v < TWO_32
    ensures Word(WordBytes(v), 0) == v
  {
    var h := v / 0x100;
    assert v / 0x1_0000 == h / 0x100 && v / 0x100_0000 == h / 0x100 / 0x100;
  }

  /** A stored word reads back as itself, and every word clear of it reads as before. */
  lemma PutWordReads(s: seq<Byte>, off: nat, v: nat)
    requires off + 4 <= |s| && v < TWO_32
    ensures Word(PutWord(s, off, v), off) == v
    ensures var r := PutWord(s, off, v);
            && r[off] == v % 0x100 && r[off + 1] == v / 0x100 % 0x100
            && r[off + 2] == v / 0x1_0000 % 0x100 && r[off + 3] == v / 0x100_0000
    ensures forall o: nat | o + 4 <= |s| && (o + 4 <= off || off + 4 <= o) :: Word(PutWord(s, off, v), o) == Word(s, o)
  {
    var r, b := PutWord(s, off, v), WordBytes(v);
    WordBytesSum(v);
    assert r[off] == b[0] && r[off + 1] == b[1] && r[off + 2] == b[2] && r[off + 3] == b[3];
  }

  lemma PutHalfReads(s: seq<Byte>, off: nat, v: nat)
    requires off + 2 <= |s| && v < 0x1_0000
    ensures Half(PutHalf(s, off, v), off) == v
    ensures PutHalf(s, off, v)[off] == v % 0x100 && PutHalf(s, off, v)[off + 1] == v / 0x100
  {
  }
}
