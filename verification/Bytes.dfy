/** Bytes, 32-bit words stored little-endian in byte strings, and disk blocks. */
module Bytes {
  import opened Params

  type byte = x: int | 0 <= x < 256
  type word = x: int | 0 <= x < 0x1_0000_0000
  type Block = s: seq<byte> | |s| == BSIZE witness seq(BSIZE, _ => 0)

  /** The unsigned int that starts at byte `off`. */
  function Word(b: seq<byte>, off: nat): word
    requires off + 4 <= |b|
  {
    b[off] as int + 0x100 * (b[off + 1] as int) + 0x1_0000 * (b[off + 2] as int) + 0x100_0000 * (b[off + 3] as int)
  }

  /** `b` with the unsigned int `v` stored at byte `off`. */
  function PutWord(b: seq<byte>, off: nat, v: word): (r: seq<byte>)
    requires off + 4 <= |b|
    ensures |r| == |b|
    ensures Word(r, off) == v
    ensures forall i :: 0 <= i < |b| && !(off <= i < off + 4) ==> r[i] == b[i]
  {
    var v1 := v / 0x100;
    var v2 := v1 / 0x100;
    b[off := v % 0x100][off + 1 := v1 % 0x100][off + 2 := v2 % 0x100][off + 3 := v2 / 0x100]
  }

  /** `bytes` from offset o on are replaced by `src`: memmove into a page or a block. */
  function Patch(bytes: seq<byte>, o: nat, src: seq<byte>): (r: seq<byte>)
    requires o + |src| <= |bytes|
    ensures |r| == |bytes|
    ensures forall i :: 0 <= i < |bytes| ==> r[i] == if o <= i < o + |src| then src[i - o] else bytes[i]
  {
    bytes[..o] + src + bytes[o + |src|..]
  }

  /** The least significant byte comes first. */
  lemma LowByteFirst(b: seq<byte>, off: nat, v: word)
    requires off + 4 <= |b|
    ensures var r := PutWord(b, off, v);
            && r[off] == v % 256 && r[off + 1] == v / 256 % 256
            && r[off + 2] == v / 256 / 256 % 256 && r[off + 3] == v / 256 / 256 / 256
  {
  }

  /** Storing one word leaves every word that does not overlap it alone. */
  lemma PutWordFrame(b: seq<byte>, off: nat, v: word, other: nat)
    requires off + 4 <= |b| && other + 4 <= |b|
    requires other + 4 <= off || off + 4 <= other
    ensures Word(PutWord(b, off, v), other) == Word(b, other)
  {
  }
}
