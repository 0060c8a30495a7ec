/** The on-disk layout of the file system: superblock, inode blocks, free bitmap (include/fs.h). */
module FsLayout {
  import opened Params
  import opened Bytes
  import opened Bits

  const NDIRECT: nat := 12
  const NINDIRECT: nat := BSIZE / 4
  const MAXFILE: nat := NDIRECT + NINDIRECT
  const BPB: nat := BSIZE * 8        // bitmap bits in a block
  const DINODE: nat := 64            // bytes of an on-disk inode
  const IPB: nat := BSIZE / DINODE

  function ZeroBlock(): (b: Block)
    ensures forall i :: 0 <= i < BSIZE ==> b[i] == 0
  {
    seq(BSIZE, _ => 0)
  }

  /** The blocks of a file system as bread shows them. */
  type Blocks = map<nat, Block>

  datatype Superblock = Superblock(size: nat, ninodes: nat, inodestart: nat, bmapstart: nat) {
    /** Block of the free map containing the bit for block b. */
    function BBlock(b: nat): nat {
      b / BPB + bmapstart
    }

    /** Block containing inode i. */
    function IBlock(i: nat): nat {
      i / IPB + inodestart
    }

    function DataStart(): nat {
      bmapstart + size / BPB + 1
    }

    /** Boot block, superblock and log come first, then inodes, then the bitmap, then data. */
    predicate Ok() {
      2 <= inodestart && inodestart + ninodes / IPB < bmapstart && DataStart() <= size < 0x8000_0000
    }

    predicate Covers(blocks: Blocks) {
      forall b: nat :: b < size ==> b in blocks
    }
  }

  // ---- the bitmap ----

  /** Is block b marked in use? */
  predicate InUse(sb: Superblock, blocks: Blocks, b: nat) {
    sb.BBlock(b) in blocks && Bit(blocks[sb.BBlock(b)][b % BPB / 8], b % 8)
  }

  function MarkUsed(bm: Block, bi: nat): Block
    requires bi < BPB
  {
    bm[bi / 8 := ByteSet(bm[bi / 8], bi % 8)]
  }

  function MarkFree(bm: Block, bi: nat): Block
    requires bi < BPB
  {
    bm[bi / 8 := ByteClear(bm[bi / 8], bi % 8)]
  }

  /** Marking one block changes the bit of that block and no other. */
  lemma MarkUsedReads(sb: Superblock, blocks: Blocks, b: nat, c: nat)
    requires sb.BBlock(b) in blocks
    ensures var blocks' := blocks[sb.BBlock(b) := MarkUsed(blocks[sb.BBlock(b)], b % BPB)];
            InUse(sb, blocks', c) <==> c == b || InUse(sb, blocks, c)
  {
    if sb.BBlock(c) == sb.BBlock(b) && c % BPB / 8 == b % BPB / 8 {
      SetBitReads(blocks[sb.BBlock(b)][b % BPB / 8], b % BPB % 8, c % 8);
      SameBit(b, c);
    }
  }

  lemma MarkFreeReads(sb: Superblock, blocks: Blocks, b: nat, c: nat)
    requires sb.BBlock(b) in blocks
    ensures var blocks' := blocks[sb.BBlock(b) := MarkFree(blocks[sb.BBlock(b)], b % BPB)];
            InUse(sb, blocks', c) <==> c != b && InUse(sb, blocks, c)
  {
    if sb.BBlock(c) == sb.BBlock(b) && c % BPB / 8 == b % BPB / 8 {
      ClearBitReads(blocks[sb.BBlock(b)][b % BPB / 8], b % BPB % 8, c % 8);
      SameBit(b, c);
    }
  }

  lemma BitIndex(b: nat)
    ensures b % BPB % 8 == b % 8 && b == b / BPB * BPB + b % BPB / 8 * 8 + b % 8
  {
    var q, r := b / BPB, b % BPB;
    EighthsUnique(b, 512 * q + r / 8, r % 8);
  }

  /** The blocks of one bitmap block. */
  lemma SameMap(b: nat, bi: nat)
    requires b % BPB == 0 && bi < BPB
    ensures (b + bi) / BPB == b / BPB && (b + bi) % BPB == bi
  {
  }

  lemma NextMap(b: nat)
    requires b % BPB == 0
    ensures (b + BPB) % BPB == 0
  {
  }

  lemma EighthsUnique(b: nat, q: nat, t: nat)
    requires b == 8 * q + t && t < 8
    ensures b / 8 == q && b % 8 == t
  {
  }

  lemma SameBit(b: nat, c: nat)
    ensures b % BPB % 8 == b % 8
    ensures b / BPB == c / BPB && b % BPB / 8 == c % BPB / 8 && b % 8 == c % 8 ==> b == c
  {
    BitIndex(b);
    BitIndex(c);
  }

  // ---- inodes ----

  type half = x: int | 0 <= x < 0x1_0000
  type Addrs = s: seq<word> | |s| == NDIRECT + 1 witness seq(NDIRECT + 1, _ => 0)

  datatype Dinode = Dinode(kind: half, major: half, minor: half, nlink: half, size: word, addrs: Addrs)

  function Half(b: seq<byte>, off: nat): half
    requires off + 2 <= |b|
  {
    b[off] as int + 0x100 * (b[off + 1] as int)
  }

  function PutHalf(b: seq<byte>, off: nat, v: half): (r: seq<byte>)
    requires off + 2 <= |b|
    ensures |r| == |b| && Half(r, off) == v
    ensures forall i :: 0 <= i < |b| && !(off <= i < off + 2) ==> r[i] == b[i]
  {
    b[off := v % 0x100][off + 1 := v / 0x100]
  }

  /** Consecutive words. */
  function Words(b: seq<byte>, off: nat, n: nat): (ws: seq<word>)
    requires off + 4 * n <= |b|
    ensures |ws| == n
  {
    seq(n, i requires 0 <= i < n => Word(b, off + 4 * i))
  }

  function PutWords(b: seq<byte>, off: nat, ws: seq<word>): (r: seq<byte>)
    requires off + 4 * |ws| <= |b|
    ensures |r| == |b|
    ensures forall i :: 0 <= i < |b| && !(off <= i < off + 4 * |ws|) ==> r[i] == b[i]
    decreases |ws|
  {
    if ws == [] then b else PutWord(PutWords(b, off, ws[..|ws| - 1]), off + 4 * (|ws| - 1), ws[|ws| - 1])
  }

  lemma {:induction false} PutWordsAt(b: seq<byte>, off: nat, ws: seq<word>, i: nat)
    requires off + 4 * |ws| <= |b| && i < |ws|
    ensures Word(PutWords(b, off, ws), off + 4 * i) == ws[i]
    decreases |ws|
  {
    var k := |ws| - 1;
    if i < k {
      PutWordsAt(b, off, ws[..k], i);
      PutWordFrame(PutWords(b, off, ws[..k]), off + 4 * k, ws[k], off + 4 * i);
    }
  }

  lemma PutWordsReads(b: seq<byte>, off: nat, ws: seq<word>)
    requires off + 4 * |ws| <= |b|
    ensures Words(PutWords(b, off, ws), off, |ws|) == ws
  {
    var r := PutWords(b, off, ws);
    var got := Words(r, off, |ws|);
    forall i | 0 <= i < |ws| ensures got[i] == ws[i] {
      PutWordsAt(b, off, ws, i);
    }
  }

  /** The on-disk inode in slot s of an inode block. */
  function DinodeAt(b: Block, s: nat): Dinode
    requires s < IPB
  {
    var o := s * DINODE;
    Dinode(Half(b, o), Half(b, o + 2), Half(b, o + 4), Half(b, o + 6), Word(b, o + 8), Words(b, o + 12, NDIRECT + 1))
  }

  /** iupdate's stores into an inode block. */
  function PutDinode(b: Block, s: nat, d: Dinode): (r: Block)
    requires s < IPB
    ensures forall i :: 0 <= i < BSIZE && !(s * DINODE <= i < s * DINODE + DINODE) ==> r[i] == b[i]
  {
    var o := s * DINODE;
    var b1 := PutHalf(PutHalf(b, o, d.kind), o + 2, d.major);
    var b2 := PutHalf(PutHalf(b1, o + 4, d.minor), o + 6, d.nlink);
    PutWords(PutWord(b2, o + 8, d.size), o + 12, d.addrs)
  }

  /** What iupdate stores, ilock reads back. */
  lemma DinodeRoundTrip(b: Block, s: nat, d: Dinode)
    requires s < IPB
    ensures DinodeAt(PutDinode(b, s, d), s) == d
  {
    var o := s * DINODE;
    var b1 := PutHalf(PutHalf(b, o, d.kind), o + 2, d.major);
    var b2 := PutHalf(PutHalf(b1, o + 4, d.minor), o + 6, d.nlink);
    PutWordsReads(PutWord(b2, o + 8, d.size), o + 12, d.addrs);
  }

  /** Where iupdate stores the fields: the layout of struct dinode, 64 bytes to an inode. */
  lemma DinodeFormat(b: Block, s: nat, d: Dinode, k: nat)
    requires s < 8 && k < 13
    ensures var r := PutDinode(b, s, d);
            && Half(r, 64 * s) == d.kind && Half(r, 64 * s + 2) == d.major
            && Half(r, 64 * s + 4) == d.minor && Half(r, 64 * s + 6) == d.nlink
            && Word(r, 64 * s + 8) == d.size && Word(r, 64 * s + 12 + 4 * k) == d.addrs[k]
  {
    DinodeRoundTrip(b, s, d);
    assert DinodeAt(PutDinode(b, s, d), s).addrs[k] == d.addrs[k];
  }

  /** Storing one inode leaves the others in its block alone. */
  lemma DinodeFrame(b: Block, s: nat, d: Dinode, t: nat)
    requires s < IPB && t < IPB && s != t
    ensures DinodeAt(PutDinode(b, s, d), t) == DinodeAt(b, t)
  {
    var r, o := PutDinode(b, s, d), t * DINODE;
    assert forall i :: o <= i < o + DINODE ==> r[i] == b[i];
    assert Words(r, o + 12, NDIRECT + 1) == Words(b, o + 12, NDIRECT + 1);
  }
}
