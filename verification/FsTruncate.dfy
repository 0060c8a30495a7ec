/** Freeing a file's blocks: bfree and itrunc (system/storage/fs.c). */
module FsTruncate {
  import opened FsLayout
  import opened FsVolume

  /** Block b is one of file i's first n data blocks, or its indirect block once that is freed. */
  ghost predicate Gone(v: Vol, i: nat, n: nat, indirect: bool, b: nat) {
    && b in v.owner && v.owner[b].inum == i
    && (if v.owner[b].Data? then v.owner[b].k < n else indirect)
  }

  ghost predicate BitGone(v: Vol, blocks: Blocks, i: nat, n: nat, indirect: bool, b: nat) {
    b < v.sb.size ==> (InUse(v.sb, blocks, b) <==> InUse(v.sb, v.blocks, b) && !Gone(v, i, n, indirect, b))
  }

  /** `blocks` is what v has after itrunc has freed that many of file i's blocks. */
  ghost predicate Freed(v: Vol, blocks: Blocks, i: nat, n: nat, indirect: bool) {
    && v.sb.Covers(blocks)
    && (forall c: nat :: c in v.blocks && !(v.sb.bmapstart <= c < v.sb.DataStart()) ==>
         c in blocks && blocks[c] == v.blocks[c])
    && (forall b: nat :: BitGone(v, blocks, i, n, indirect, b))
  }

  function FreeBit(sb: Superblock, blocks: Blocks, b: nat): Blocks
    requires sb.BBlock(b) in blocks
  {
    blocks[sb.BBlock(b) := MarkFree(blocks[sb.BBlock(b)], b % BPB)]
  }

  /** The next block to free is marked in use, so bfree does not panic; freeing it frees one more. */
  lemma FreeStep(v: Vol, blocks: Blocks, i: nat, n: nat, indirect: bool, b: nat)
    requires Good(v) && i < v.sb.ninodes && Freed(v, blocks, i, n, indirect)
    requires Owns(v, b, Data(i, n)) || (Owns(v, b, Indirect(i)) && !indirect)
    ensures b < v.sb.size && InUse(v.sb, blocks, b) && v.sb.BBlock(b) in blocks
    ensures if v.owner[b].Data? then Freed(v, FreeBit(v.sb, blocks, b), i, n + 1, indirect)
            else Freed(v, FreeBit(v.sb, blocks, b), i, n, true)
  {
    assert OwnerOk(v, b) && BitOk(v, b) && BitGone(v, blocks, i, n, indirect, b);
    Regions(v.sb);
    var blocks' := FreeBit(v.sb, blocks, b);
    var n', indirect' := if v.owner[b].Data? then n + 1 else n, if v.owner[b].Data? then indirect else true;
    forall c: nat ensures BitGone(v, blocks', i, n', indirect', c) {
      assert BitGone(v, blocks, i, n, indirect, c) && OwnerOk(v, c);
      MarkFreeReads(v.sb, blocks, b, c);
    }
  }

  /** File i emptied, its blocks gone from the map of owners. */
  ghost function Emptied(v: Vol, blocks: Blocks, i: nat): Vol
    requires i < |v.inodes| == |v.lists|
  {
    Vol(v.sb, blocks,
        v.inodes[i := v.inodes[i].(addrs := seq(NDIRECT + 1, _ => 0), size := 0)],
        v.lists[i := []],
        map b | b in v.owner && v.owner[b].inum != i :: v.owner[b])
  }

  lemma EmptiedBlock(v: Vol, blocks: Blocks, i: nat, b: nat)
    requires Good(v) && i < v.sb.ninodes && Freed(v, blocks, i, |v.lists[i]|, true)
    ensures OwnerOk(Emptied(v, blocks, i), b) && BitOk(Emptied(v, blocks, i), b)
  {
    assert OwnerOk(v, b) && BitOk(v, b) && BitGone(v, blocks, i, |v.lists[i]|, true, b);
  }

  lemma EmptiedInode(v: Vol, blocks: Blocks, i: nat, j: nat)
    requires Good(v) && i < v.sb.ninodes && j < v.sb.ninodes && Freed(v, blocks, i, |v.lists[i]|, true)
    ensures InodeOk(Emptied(v, blocks, i), j)
  {
    assert InodeOk(v, j) && OwnerOk(v, v.inodes[j].addrs[NDIRECT]);
    if j != i {
      forall k | 0 <= k < |v.lists[j]| ensures Owns(Emptied(v, blocks, i), v.lists[j][k], Data(j, k)) {
        assert Owns(v, v.lists[j][k], Data(j, k));
      }
    }
  }

  lemma EmptiedKeeps(v: Vol, blocks: Blocks, i: nat)
    requires Good(v) && i < v.sb.ninodes && Freed(v, blocks, i, |v.lists[i]|, true)
    ensures Good(Emptied(v, blocks, i))
  {
    var v' := Emptied(v, blocks, i);
    forall b: nat ensures OwnerOk(v', b) && BitOk(v', b) {
      EmptiedBlock(v, blocks, i, b);
    }
    forall j: nat | j < v.sb.ninodes ensures InodeOk(v', j) {
      EmptiedInode(v, blocks, i, j);
    }
  }

  lemma EmptiedStays(v: Vol, blocks: Blocks, i: nat, j: nat)
    requires Good(v) && i < v.sb.ninodes && j < v.sb.ninodes && j != i && Freed(v, blocks, i, |v.lists[i]|, true)
    requires StoredOk(v, j)
    ensures Shape(Emptied(v, blocks, i)) && StoredOk(Emptied(v, blocks, i), j)
  {
    Regions(v.sb);
    assert v.sb.IBlock(j) in v.blocks && v.sb.IBlock(j) < v.sb.bmapstart;
  }

  // ---- how many blocks come free ----

  /** The first n data blocks of file i. */
  ghost function FirstBlocks(v: Vol, i: nat, n: nat): set<nat>
    requires i < |v.lists| && n <= |v.lists[i]|
  {
    if n == 0 then {} else FirstBlocks(v, i, n - 1) + {v.lists[i][n - 1]}
  }

  ghost predicate FirstAt(v: Vol, i: nat, n: nat, b: nat)
    requires i < |v.lists| && n <= |v.lists[i]|
  {
    b in FirstBlocks(v, i, n) <==> b in v.owner && v.owner[b].Data? && v.owner[b].inum == i && v.owner[b].k < n
  }

  lemma {:induction false} FirstBlocksAre(v: Vol, i: nat, n: nat, b: nat)
    requires Good(v) && i < v.sb.ninodes && n <= |v.lists[i]|
    ensures FirstAt(v, i, n, b)
  {
    if n > 0 {
      FirstBlocksAre(v, i, n - 1, b);
      assert InodeOk(v, i) && Owns(v, v.lists[i][n - 1], Data(i, n - 1));
      assert OwnerOk(v, b);
    }
  }

  lemma {:induction false} FirstBlocksCount(v: Vol, i: nat, n: nat)
    requires Good(v) && i < v.sb.ninodes && n <= |v.lists[i]|
    ensures |FirstBlocks(v, i, n)| == n
  {
    if n > 0 {
      FirstBlocksCount(v, i, n - 1);
      FirstBlocksAre(v, i, n - 1, v.lists[i][n - 1]);
      assert InodeOk(v, i) && Owns(v, v.lists[i][n - 1], Data(i, n - 1));
    }
  }

  /** The data blocks of file i and its indirect block. */
  ghost function OwnBlocks(v: Vol, i: nat): set<nat>
    requires i < |v.lists| == |v.inodes|
  {
    FirstBlocks(v, i, |v.lists[i]|) + if v.inodes[i].addrs[NDIRECT] == 0 then {}
        else {v.inodes[i].addrs[NDIRECT] as nat}
  }

  lemma OwnBlocksAre(v: Vol, i: nat, b: nat)
    requires Good(v) && i < v.sb.ninodes
    ensures b in OwnBlocks(v, i) <==> b in v.owner && v.owner[b].inum == i
  {
    FirstBlocksAre(v, i, |v.lists[i]|, b);
    assert InodeOk(v, i) && OwnerOk(v, b);
  }

  lemma OwnBlocksCount(v: Vol, i: nat)
    requires Good(v) && i < v.sb.ninodes && SizeOk(v, i)
    ensures |OwnBlocks(v, i)| == BlocksUsed(v.inodes[i].size)
  {
    FirstBlocksCount(v, i, |v.lists[i]|);
    FirstBlocksAre(v, i, |v.lists[i]|, v.inodes[i].addrs[NDIRECT]);
    assert InodeOk(v, i);
  }

  /** Emptying a file frees its data blocks and its indirect block. */
  lemma EmptiedFree(v: Vol, blocks: Blocks, i: nat)
    requires Good(v) && i < v.sb.ninodes && SizeOk(v, i)
    ensures Free(Emptied(v, blocks, i)) == Free(v) + BlocksUsed(v.inodes[i].size)
  {
    var e, own := Emptied(v, blocks, i), OwnBlocks(v, i);
    OwnBlocksCount(v, i);
    forall b: nat ensures b in FreeBlocks(e) <==> b in FreeBlocks(v) || b in own {
      OwnBlocksAre(v, i, b);
      assert OwnerOk(v, b);
    }
    forall b: nat | b in own ensures b !in FreeBlocks(v) {
      OwnBlocksAre(v, i, b);
    }
    assert FreeBlocks(e) == FreeBlocks(v) + own;
  }
}
