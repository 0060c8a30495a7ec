/** Block allocation, the block map, and reading and writing inode contents (system/storage/fs.c).
    `blocks` is what bread shows; storing into it is a change followed by log_write, which also adds
    the block to `logged`, the blocks the current transaction has logged. */
module Fs {
  import opened Params
  import opened Bytes
  import opened Bits
  import opened FsLayout
  import opened FsVolume
  import opened FsTruncate

  /** How many blocks have to be allocated to map block bn of file i. */
  ghost function Takes(v: Vol, i: nat, bn: nat): nat
    requires i < |v.lists| == |v.inodes|
  {
    if bn < |v.lists[i]| then 0 else if bn >= NDIRECT && v.inodes[i].addrs[NDIRECT] == 0 then 2 else 1
  }

  /** What allocating for a file leaves as it was: inode blocks and file data. */
  ghost predicate Kept(v: Vol, b: nat) {
    b in v.blocks && (b < v.sb.bmapstart || (b in v.owner && v.owner[b].Data?))
  }

  /** v' is v with the data block `addr`, zeroed, appended to file i. */
  ghost predicate Grown(v: Vol, v': Vol, i: nat, addr: word) {
    && i < |v.inodes| == |v.lists| && v'.sb == v.sb && |v'.inodes| == |v.inodes|
    && v'.lists == v.lists[i := v.lists[i] + [addr]]
    && v'.inodes == v.inodes[i := v.inodes[i].(addrs := v'.inodes[i].addrs)]
    && addr in v'.blocks && v'.blocks[addr] == ZeroBlock()
    && addr !in v.owner
    && (forall b :: Kept(v, b) ==> b in v'.blocks && v'.blocks[b] == v.blocks[b])
  }

  lemma GrownDirect(v: Vol, i: nat, r: word)
    requires Good(v) && i < v.sb.ninodes && |v.lists[i]| < NDIRECT && r < v.sb.size && !InUse(v.sb, v.blocks, r)
    ensures v.sb.BBlock(r) in v.blocks && Grown(v, AppendDirect(v, i, r), i, r)
  {
    AllocatedFrame(v, r);
    Regions(v.sb);
    forall b: nat | Kept(v, b) ensures b != r && b != v.sb.BBlock(r) {
      assert OwnerOk(v, b);
    }
  }

  /** v' is v with an indirect block added to file i. */
  ghost predicate Indirected(v: Vol, v': Vol, i: nat) {
    && i < |v.inodes| == |v.lists| && v'.sb == v.sb && v'.lists == v.lists && |v'.inodes| == |v.inodes|
    && v'.inodes == v.inodes[i := v.inodes[i].(addrs := v'.inodes[i].addrs)]
    && (forall b :: b in v.owner ==> b in v'.owner && v'.owner[b] == v.owner[b])
    && (forall b :: Kept(v, b) ==> Kept(v', b) && v'.blocks[b] == v.blocks[b])
  }

  lemma AddIndirectIs(v: Vol, i: nat, r: word)
    requires Good(v) && i < v.sb.ninodes && r < v.sb.size && !InUse(v.sb, v.blocks, r)
    ensures v.sb.BBlock(r) in v.blocks && Indirected(v, AddIndirect(v, i, r), i)
  {
    AllocatedFrame(v, r);
    Regions(v.sb);
    forall b: nat | Kept(v, b) ensures b != r && b != v.sb.BBlock(r) {
      assert OwnerOk(v, b);
    }
  }

  lemma GrownIndirect(v: Vol, i: nat, r: word)
    requires Good(v) && i < v.sb.ninodes && NDIRECT <= |v.lists[i]| < MAXFILE && v.inodes[i].addrs[NDIRECT] != 0
    requires r < v.sb.size && !InUse(v.sb, v.blocks, r)
    ensures v.sb.BBlock(r) in v.blocks && v.inodes[i].addrs[NDIRECT] in Allocated(v.sb, v.blocks, r)
    ensures Grown(v, AppendIndirect(v, i, r), i, r)
  {
    AllocatedFrame(v, r);
    Regions(v.sb);
    var ind := v.inodes[i].addrs[NDIRECT];
    assert InodeOk(v, i) && OwnerOk(v, ind);
    forall b: nat | Kept(v, b) ensures b != r && b != v.sb.BBlock(r) && b != ind {
      assert OwnerOk(v, b);
    }
  }

  /** Allocation leaves the indirect block alone. */
  lemma IndirectStays(v: Vol, i: nat, r: word)
    requires Good(v) && i < v.sb.ninodes && v.inodes[i].addrs[NDIRECT] != 0
    requires r < v.sb.size && !InUse(v.sb, v.blocks, r)
    ensures v.sb.BBlock(r) in v.blocks
    ensures var ind := v.inodes[i].addrs[NDIRECT];
            && v.sb.inodestart <= ind < v.sb.size && ind in v.blocks && ind in Allocated(v.sb, v.blocks, r)
            && Allocated(v.sb, v.blocks, r)[ind] == v.blocks[ind]
  {
    AllocatedFrame(v, r);
    var ind := v.inodes[i].addrs[NDIRECT];
    assert InodeOk(v, i) && OwnerOk(v, ind);
    Regions(v.sb);
    assert v.sb.BBlock(r) < v.sb.DataStart();
  }

  lemma UnderIndirect(v: Vol, i: nat, r: word)
    requires Good(v) && i < v.sb.ninodes && NDIRECT <= |v.lists[i]| < MAXFILE && v.inodes[i].addrs[NDIRECT] != 0
    requires r < v.sb.size && !InUse(v.sb, v.blocks, r)
    ensures v.sb.BBlock(r) in v.blocks && v.inodes[i].addrs[NDIRECT] in Allocated(v.sb, v.blocks, r)
    ensures var w := AppendIndirect(v, i, r);
            Good(w) && Grown(v, w, i, r) && Free(v) == Free(w) + 1
  {
    AppendIndirectKeeps(v, i, r);
    GrownIndirect(v, i, r);
    OneTaken(v, AppendIndirect(v, i, r), r, Data(i, |v.lists[i]|));
  }

  // ---- bytes ----

  /** File j has the same inode, the same blocks and the same bytes in both. */
  ghost predicate SameFile(v: Vol, v': Vol, j: nat)
    requires Good(v) && Good(v') && j < v.sb.ninodes && v'.sb == v.sb
  {
    && v'.inodes[j] == v.inodes[j] && v'.lists[j] == v.lists[j]
    && (StoredOk(v, j) ==> StoredOk(v', j))
    && (forall p: nat :: p < |v.lists[j]| * BSIZE ==> ByteAt(v', j, p) == ByteAt(v, j, p))
  }

  /** v' is v after the bytes `data` have gone into the blocks of file i at `off`; blocks that v does
      not have are zero elsewhere. */
  ghost predicate Written(v: Vol, v': Vol, i: nat, off: nat, data: seq<byte>)
    requires Good(v) && Good(v') && i < v.sb.ninodes && v'.sb == v.sb
  {
    && |v.lists[i]| <= |v'.lists[i]| && off + |data| <= |v'.lists[i]| * BSIZE
    && (forall p: nat :: p < |v'.lists[i]| * BSIZE ==>
          ByteAt(v', i, p) ==
          if off <= p < off + |data| then data[p - off]
          else if p < |v.lists[i]| * BSIZE then ByteAt(v, i, p) else 0)
  }

  lemma GrownOthers(v: Vol, v': Vol, i: nat, addr: word, j: nat)
    requires Good(v) && Good(v') && i < v.sb.ninodes && j < v.sb.ninodes && j != i && Grown(v, v', i, addr)
    ensures SameFile(v, v', j)
  {
    Regions(v.sb);
    assert Kept(v, v.sb.IBlock(j));
    assert InodeOk(v, j);
    forall p: nat | p < |v.lists[j]| * BSIZE ensures ByteAt(v', j, p) == ByteAt(v, j, p) {
      assert OwnerOk(v, v.lists[j][p / BSIZE]);
      assert Kept(v, v.lists[j][p / BSIZE]);
    }
  }

  lemma GrownBytes(v: Vol, v': Vol, i: nat, addr: word)
    requires Good(v) && Good(v') && i < v.sb.ninodes && Grown(v, v', i, addr)
    ensures Written(v, v', i, 0, [])
  {
    var n := |v.lists[i]|;
    assert InodeOk(v, i);
    forall p: nat | p < (n + 1) * BSIZE
      ensures ByteAt(v', i, p) == if p < n * BSIZE then ByteAt(v, i, p) else 0
    {
      if p < n * BSIZE {
        assert v'.lists[i][p / BSIZE] == v.lists[i][p / BSIZE];
        assert OwnerOk(v, v.lists[i][p / BSIZE]);
        assert Kept(v, v.lists[i][p / BSIZE]);
      } else {
        assert p / BSIZE == n;
      }
    }
  }

  /** The volume after `data` has gone into one block of file i. */
  function Patched(v: Vol, i: nat, off: nat, data: seq<byte>): Vol
    requires i < |v.lists| && off / BSIZE < |v.lists[i]| && off % BSIZE + |data| <= BSIZE
    requires v.lists[i][off / BSIZE] in v.blocks
  {
    var addr := v.lists[i][off / BSIZE];
    v.(blocks := v.blocks[addr := Patch(v.blocks[addr], off % BSIZE, data)])
  }

  lemma PatchedKeeps(v: Vol, i: nat, off: nat, data: seq<byte>)
    requires Good(v) && i < v.sb.ninodes && off / BSIZE < |v.lists[i]| && off % BSIZE + |data| <= BSIZE
    ensures v.sb.inodestart <= v.lists[i][off / BSIZE] < v.sb.size
    ensures v.lists[i][off / BSIZE] in v.blocks && Good(Patched(v, i, off, data))
    ensures forall j: nat :: j < v.sb.ninodes && StoredOk(v, j) ==> StoredOk(Patched(v, i, off, data), j)
  {
    assert InodeOk(v, i);
    var addr := v.lists[i][off / BSIZE];
    assert OwnerOk(v, addr);
    WriteDataKeeps(v, addr, Patch(v.blocks[addr], off % BSIZE, data));
  }

  lemma PatchedOthers(v: Vol, i: nat, off: nat, data: seq<byte>, j: nat)
    requires Good(v) && i < v.sb.ninodes && off / BSIZE < |v.lists[i]| && off % BSIZE + |data| <= BSIZE
    requires j < v.sb.ninodes && j != i
    requires v.lists[i][off / BSIZE] in v.blocks && Good(Patched(v, i, off, data))
    ensures SameFile(v, Patched(v, i, off, data), j)
  {
    PatchedKeeps(v, i, off, data);
    var v' := Patched(v, i, off, data);
    assert InodeOk(v, i) && InodeOk(v, j);
    assert Owns(v, v.lists[i][off / BSIZE], Data(i, off / BSIZE));
    forall p: nat | p < |v.lists[j]| * BSIZE ensures ByteAt(v', j, p) == ByteAt(v, j, p) {
      assert Owns(v, v.lists[j][p / BSIZE], Data(j, p / BSIZE));
    }
  }

  lemma PatchedBytes(v: Vol, i: nat, off: nat, data: seq<byte>)
    requires Good(v) && i < v.sb.ninodes && off / BSIZE < |v.lists[i]| && off % BSIZE + |data| <= BSIZE
    requires v.lists[i][off / BSIZE] in v.blocks && Good(Patched(v, i, off, data))
    ensures Written(v, Patched(v, i, off, data), i, off, data)
  {
    var v' := Patched(v, i, off, data);
    assert InodeOk(v, i);
    assert Owns(v, v.lists[i][off / BSIZE], Data(i, off / BSIZE));
    forall p: nat | p < |v.lists[i]| * BSIZE
      ensures ByteAt(v', i, p) == if off <= p < off + |data| then data[p - off] else ByteAt(v, i, p)
    {
      assert Owns(v, v.lists[i][p / BSIZE], Data(i, p / BSIZE));
      if p / BSIZE == off / BSIZE {
        assert p - off == p % BSIZE - off % BSIZE;
      }
    }
  }

  lemma SameFileTrans(v: Vol, v1: Vol, v2: Vol, j: nat)
    requires Good(v) && Good(v1) && Good(v2) && v1.sb == v.sb && v2.sb == v.sb && j < v.sb.ninodes
    requires SameFile(v, v1, j) && SameFile(v1, v2, j)
    ensures SameFile(v, v2, j)
  {
  }

  lemma WrittenTrans(v: Vol, v1: Vol, v2: Vol, i: nat, off: nat, a: seq<byte>, b: seq<byte>)
    requires Good(v) && Good(v1) && Good(v2) && v1.sb == v.sb && v2.sb == v.sb && i < v.sb.ninodes
    requires Written(v, v1, i, off, a) && Written(v1, v2, i, off + |a|, b)
    ensures Written(v, v2, i, off, a + b)
  {
  }

  class Inode {
    const inum: nat
    var d: Dinode     // the copy of the on-disk inode

    constructor (inum: nat, d: Dinode)
      ensures this.inum == inum && this.d == d
    {
      this.inum, this.d := inum, d;
    }
  }

  class FileSystem {
    const sb: Superblock
    var blocks: Blocks
    ghost var logged: set<nat>
    ghost var inodes: seq<Dinode>
    ghost var lists: seq<seq<word>>
    ghost var owner: map<nat, Slot>

    constructor (v: Vol)
      requires Good(v)
      ensures Volume() == v && logged == {}
    {
      sb, blocks, logged := v.sb, v.blocks, {};
      inodes, lists, owner := v.inodes, v.lists, v.owner;
    }

    ghost function Volume(): Vol
      reads this
    {
      Vol(sb, blocks, inodes, lists, owner)
    }

    // ---- blocks ----

    /** balloc: the lowest free block, marked in use and zeroed; 0 stands for the panic when every
        block is in use. */
    method Balloc() returns (r: word)
      requires Good(Volume())
      modifies this`blocks, this`logged
      ensures r == 0 ==> blocks == old(blocks) && logged == old(logged) && forall c: nat :: c < sb.size ==>
                InUse(sb, blocks, c)
      ensures r != 0 ==> r < sb.size && !InUse(sb, old(blocks), r) && forall c: nat :: c < r ==>
                InUse(sb, old(blocks), c)
      ensures r != 0 ==> sb.BBlock(r) in old(blocks) && blocks == Allocated(sb, old(blocks), r)
      ensures r != 0 ==> logged == old(logged) + {sb.BBlock(r), r}
      ensures r == 0 <==> Free(old(Volume())) == 0
      ensures Tracked(sb, old(blocks), old(logged), blocks, logged)
    {
      Regions(sb);
      var b := 0;
      while b < sb.size
        invariant b % BPB == 0
        invariant forall c: nat :: c < b && c < sb.size ==> InUse(sb, blocks, c)
        invariant blocks == old(blocks) && logged == old(logged)
      {
        var bi := FindFree(b);
        if bi < BPB && b + bi < sb.size {
          r := TakeBlock(b, bi);
          return;
        }
        NextMap(b);
        b := b + BPB;
      }
      r := 0;
      NoneFree(Volume());
    }

    /** balloc once it has found a free block: set the bit, bzero the block. */
    method TakeBlock(b: nat, bi: nat) returns (r: word)
      requires Good(Volume()) && b % BPB == 0 && bi < BPB && b + bi < sb.size && !InUse(sb, blocks, b + bi)
      modifies this`blocks, this`logged
      ensures r == b + bi != 0 && sb.BBlock(r) in old(blocks) && blocks == Allocated(sb, old(blocks), r)
      ensures logged == old(logged) + {sb.BBlock(r), r} && Tracked(sb, old(blocks), old(logged), blocks, logged)
      ensures Free(old(Volume())) > 0
    {
      r := b + bi;
      ghost var v := Volume();
      SameMap(b, bi);
      FreeAre(v, r);
      AllocatedFrame(v, r);
      BitRegion(sb, r);
      var n := sb.BBlock(b);
      TrackedTwo(sb, blocks, logged, n, MarkUsed(blocks[n], bi), r, ZeroBlock());
      blocks := blocks[n := MarkUsed(blocks[n], bi)];
      logged := logged + {n};
      blocks := blocks[r := ZeroBlock()];
      logged := logged + {r};
    }

    /** balloc's scan of one bitmap block. */
    method FindFree(b: nat) returns (bi: nat)
      requires b % BPB == 0 && b < sb.size && sb.BBlock(b) in blocks
      ensures bi <= BPB
      ensures forall c: nat :: b <= c < b + bi && c < sb.size ==> InUse(sb, blocks, c)
      ensures bi < BPB && b + bi < sb.size ==> !InUse(sb, blocks, b + bi)
    {
      bi := 0;
      while bi < BPB && b + bi < sb.size
        invariant bi <= BPB
        invariant forall c: nat :: b <= c < b + bi && c < sb.size ==> InUse(sb, blocks, c)
      {
        BitIndex(b + bi);
        SameMap(b, bi);
        if !Bit(blocks[sb.BBlock(b)][bi / 8], bi % 8) {
          return;
        }
        bi := bi + 1;
      }
    }

    // ---- the block map ----

    /** bmap for a direct block. */
    method BmapDirect(ip: Inode, bn: nat) returns (addr: word, ghost maps: set<nat>)
      requires Good(Volume()) && ip.inum < sb.ninodes && inodes[ip.inum] == ip.d
      requires bn < NDIRECT && bn <= |lists[ip.inum]|
      modifies this, ip`d
      ensures addr != 0 ==> Good(Volume()) && inodes[ip.inum] == ip.d
      ensures addr != 0 ==> bn < |lists[ip.inum]| && lists[ip.inum][bn] == addr
      ensures bn < |old(lists[ip.inum])| ==>
                addr != 0 && Volume() == old(Volume()) && logged == old(logged) && maps == {}
      ensures addr != 0 && bn == |old(lists[ip.inum])| ==> Grown(old(Volume()), Volume(), ip.inum, addr)
      ensures addr != 0 ==> ip.d.addrs[NDIRECT] == old(ip.d.addrs[NDIRECT])
      ensures addr != 0 && bn == |old(lists[ip.inum])| ==> |maps| <= 1 && logged == old(logged) + maps + {addr}
      ensures addr != 0 <==> Takes(old(Volume()), ip.inum, bn) <= Free(old(Volume()))
      ensures addr != 0 ==> Free(old(Volume())) == Free(Volume()) + Takes(old(Volume()), ip.inum, bn)
      ensures Tracked(sb, old(blocks), old(logged), blocks, logged)
    {
      maps := {};
      assert InodeOk(Volume(), ip.inum);
      assert bn < |lists[ip.inum]| ==> OwnerOk(Volume(), lists[ip.inum][bn]);
      addr := ip.d.addrs[bn];
      if addr == 0 {
        ghost var v := Volume();
        addr := Balloc();
        if addr == 0 { return; }
        OneTaken(v, AppendDirect(v, ip.inum, addr), addr, Data(ip.inum, bn));
        AppendDirectKeeps(v, ip.inum, addr);
        GrownDirect(v, ip.inum, addr);
        ip.d := WithAddr(ip.d, bn, addr);
        inodes := inodes[ip.inum := ip.d];
        lists := lists[ip.inum := lists[ip.inum] + [addr]];
        owner := owner[addr := Data(ip.inum, bn)];
        assert Volume() == AppendDirect(v, ip.inum, addr);
        maps := {sb.BBlock(addr)};
      }
    }

    /** bmap's first step past the direct blocks: the indirect block, allocated if there is none. */
    method LoadIndirect(ip: Inode) returns (ind: word, ghost maps: set<nat>)
      requires Good(Volume()) && ip.inum < sb.ninodes && inodes[ip.inum] == ip.d
      modifies this, ip`d
      ensures ind != 0 ==> Good(Volume()) && inodes[ip.inum] == ip.d && ip.d.addrs[NDIRECT] == ind
      ensures ind != 0 ==> |lists| == |old(lists)| && lists == old(lists)
      ensures old(ip.d.addrs[NDIRECT]) != 0 ==>
                ind != 0 && Volume() == old(Volume()) && logged == old(logged) && maps == {}
      ensures ind != 0 && old(ip.d.addrs[NDIRECT]) == 0 ==> Indirected(old(Volume()), Volume(), ip.inum)
      ensures ind != 0 && old(ip.d.addrs[NDIRECT]) == 0 ==> |maps| <= 1 && logged == old(logged) + maps + {ind}
      ensures ind == 0 <==> old(ip.d.addrs[NDIRECT]) == 0 && Free(old(Volume())) == 0
      ensures ind != 0 ==> Free(old(Volume())) == Free(Volume()) + if old(ip.d.addrs[NDIRECT]) == 0 then 1 else 0
      ensures Tracked(sb, old(blocks), old(logged), blocks, logged)
    {
      maps := {};
      ind := ip.d.addrs[NDIRECT];
      if ind == 0 {
        ghost var v := Volume();
        ind := Balloc();
        if ind == 0 { return; }
        OneTaken(v, AddIndirect(v, ip.inum, ind), ind, Indirect(ip.inum));
        AddIndirectKeeps(v, ip.inum, ind);
        AddIndirectIs(v, ip.inum, ind);
        ip.d := WithAddr(ip.d, NDIRECT, ind);
        inodes := inodes[ip.inum := ip.d];
        owner := owner[ind := Indirect(ip.inum)];
        assert Volume() == AddIndirect(v, ip.inum, ind);
        maps := {sb.BBlock(ind)};
      }
    }

    /** bmap's second step: the entry in the indirect block, allocated if it is zero. */
    method IndirectBlock(ip: Inode, bn: nat, ind: word) returns (addr: word, ghost maps: set<nat>)
      requires Good(Volume()) && ip.inum < sb.ninodes && inodes[ip.inum] == ip.d
      requires NDIRECT <= bn < MAXFILE && bn <= |lists[ip.inum]| && ind == ip.d.addrs[NDIRECT] != 0
      modifies this
      ensures addr != 0 ==> Good(Volume()) && inodes == old(inodes)
      ensures addr != 0 ==> bn < |lists[ip.inum]| && lists[ip.inum][bn] == addr
      ensures bn < |old(lists[ip.inum])| ==>
                addr != 0 && Volume() == old(Volume()) && logged == old(logged) && maps == {}
      ensures addr != 0 && bn == |old(lists[ip.inum])| ==> Grown(old(Volume()), Volume(), ip.inum, addr)
      ensures addr != 0 && bn == |old(lists[ip.inum])| ==> |maps| <= 1 && logged == old(logged) + maps + {addr, ind}
      ensures addr == 0 <==> bn == |old(lists[ip.inum])| && Free(old(Volume())) == 0
      ensures addr != 0 ==> Free(old(Volume())) == Free(Volume()) + if bn == |old(lists[ip.inum])| then 1 else 0
      ensures Tracked(sb, old(blocks), old(logged), blocks, logged)
    {
      maps := {};
      assert InodeOk(Volume(), ip.inum);
      assert bn < |lists[ip.inum]| ==> OwnerOk(Volume(), lists[ip.inum][bn]);
      addr := IndirectEntry(blocks[ind], bn - NDIRECT);
      assert addr == Entry(lists[ip.inum], NDIRECT + (bn - NDIRECT));
      if addr == 0 {
        addr := AddIndirectBlock(ip, bn, ind);
        maps := {sb.BBlock(addr)};
      }
    }

    /** A new block under the indirect block. */
    method AddIndirectBlock(ip: Inode, bn: nat, ind: word) returns (addr: word)
      requires Good(Volume()) && ip.inum < sb.ninodes && inodes[ip.inum] == ip.d
      requires NDIRECT <= bn < MAXFILE && bn == |lists[ip.inum]| && ind == ip.d.addrs[NDIRECT] != 0
      modifies this
      ensures addr != 0 ==> Good(Volume()) && inodes == old(inodes) && lists[ip.inum] == old(lists[ip.inum]) + [addr]
      ensures addr != 0 ==> Grown(old(Volume()), Volume(), ip.inum, addr)
      ensures addr != 0 ==> logged == old(logged) + {sb.BBlock(addr), addr, ind}
      ensures addr == 0 <==> Free(old(Volume())) == 0
      ensures addr != 0 ==> Free(old(Volume())) == Free(Volume()) + 1
      ensures Tracked(sb, old(blocks), old(logged), blocks, logged)
    {
      ghost var v := Volume();
      assert InodeOk(v, ip.inum) && OwnerOk(v, ind);
      var a := blocks[ind];
      addr := Balloc();
      if addr == 0 { return; }
      ghost var mid, before := blocks, logged;
      IndirectStays(v, ip.inum, addr);
      UnderIndirect(v, ip.inum, addr);
      blocks := blocks[ind := SetIndirectEntry(a, bn - NDIRECT, addr)];
      logged := logged + {ind};
      TrackedOne(sb, v.blocks, old(logged), mid, before, ind, blocks[ind]);
      lists := lists[ip.inum := lists[ip.inum] + [addr]];
      owner := owner[addr := Data(ip.inum, bn)];
      assert Volume() == AppendIndirect(v, ip.inum, addr);
    }

    /** bmap: the address of block bn of a file, which is allocated when the file has exactly bn
        blocks; 0 stands for the panic of balloc. */
    method Bmap(ip: Inode, bn: nat) returns (addr: word, ghost maps: set<nat>)
      requires Good(Volume()) && ip.inum < sb.ninodes && inodes[ip.inum] == ip.d
      requires bn < MAXFILE && bn <= |lists[ip.inum]|
      modifies this, ip`d
      ensures addr != 0 ==> Good(Volume()) && inodes[ip.inum] == ip.d
      ensures addr != 0 ==> bn < |lists[ip.inum]| && lists[ip.inum][bn] == addr
      ensures bn < |old(lists[ip.inum])| ==>
                addr != 0 && Volume() == old(Volume()) && logged == old(logged) && maps == {}
      ensures addr != 0 && bn == |old(lists[ip.inum])| ==> Grown(old(Volume()), Volume(), ip.inum, addr)
      ensures addr != 0 && bn < NDIRECT ==> ip.d.addrs[NDIRECT] == old(ip.d.addrs[NDIRECT])
      ensures addr != 0 && bn >= NDIRECT ==> ip.d.addrs[NDIRECT] != 0
      ensures addr != 0 && old(ip.d.addrs[NDIRECT]) != 0 ==> ip.d.addrs[NDIRECT] == old(ip.d.addrs[NDIRECT])
      ensures addr != 0 && bn == |old(lists[ip.inum])| ==>
                && |maps| <= (if ip.d.addrs[NDIRECT] == old(ip.d.addrs[NDIRECT]) then 1 else 2)
                && logged == old(logged) + maps + {addr} + (if bn < NDIRECT then {} else {ip.d.addrs[NDIRECT]})
      ensures addr != 0 <==> Takes(old(Volume()), ip.inum, bn) <= Free(old(Volume()))
      ensures addr != 0 ==> Free(old(Volume())) == Free(Volume()) + Takes(old(Volume()), ip.inum, bn)
      ensures Tracked(sb, old(blocks), old(logged), blocks, logged)
    {
      if bn < NDIRECT {
        addr, maps := BmapDirect(ip, bn);
        return;
      }
      ghost var v := Volume();
      assert InodeOk(v, ip.inum);
      addr := 0;
      var ind;
      ind, maps := LoadIndirect(ip);
      if ind == 0 { return; }
      ghost var more, mid, before := {}, blocks, logged;
      addr, more := IndirectBlock(ip, bn, ind);
      maps := maps + more;
      TrackedOn(sb, v.blocks, old(logged), mid, before, blocks, logged);
    }

    // ---- contents ----

    /** One turn of writei's loop: map the block, copy the bytes in, log it. */
    method PutBytes(ip: Inode, off: nat, data: seq<byte>) returns (addr: word, ghost maps: set<nat>)
      requires Good(Volume()) && ip.inum < sb.ninodes && inodes[ip.inum] == ip.d
      requires off / BSIZE <= |lists[ip.inum]| && off / BSIZE < MAXFILE && 0 < |data| <= BSIZE - off % BSIZE
      modifies this, ip`d
      ensures addr != 0 ==> Wrote(old(Volume()), Volume(), ip.inum, off, data) && inodes[ip.inum] == ip.d
      ensures off / BSIZE < |old(lists[ip.inum])| ==> addr != 0
      ensures addr != 0 ==> LogRun(old(logged), logged, maps, {addr}, ip.d.addrs[NDIRECT])
      ensures addr != 0 ==> |maps| <= NewBlocks(old(Volume()), Volume(), ip.inum)
      ensures addr != 0 <==> Takes(old(Volume()), ip.inum, off / BSIZE) <= Free(old(Volume()))
      ensures addr != 0 ==> Free(old(Volume())) == Free(Volume()) + NewBlocks(old(Volume()), Volume(), ip.inum)
      ensures Tracked(sb, old(blocks), old(logged), blocks, logged)
    {
      ghost var v := Volume();
      addr, maps := Bmap(ip, off / BSIZE);
      if addr == 0 { return; }
      ghost var v1, before := Volume(), logged;
      PatchedKeeps(v1, ip.inum, off, data);
      blocks := blocks[addr := Patch(blocks[addr], off % BSIZE, data)];
      logged := logged + {addr};
      TrackedOne(sb, v.blocks, old(logged), v1.blocks, before, addr, blocks[addr]);
      assert Volume() == Patched(v1, ip.inum, off, data);
      PutWrote(v, v1, ip.inum, off, data, addr);
    }

    /** writei's loop. */
    method WriteLoop(ip: Inode, src: seq<byte>, off: nat) returns (ok: bool, ghost maps: set<nat>, ghost data: set<nat>)
      requires Good(Volume()) && ip.inum < sb.ninodes && inodes[ip.inum] == ip.d
      requires off <= |lists[ip.inum]| * BSIZE && off + |src| <= MAXFILE * BSIZE
      modifies this, ip`d
      ensures ok ==> Wrote(old(Volume()), Volume(), ip.inum, off, src) && inodes[ip.inum] == ip.d
      ensures ok ==> LogRun(old(logged), logged, maps, data, ip.d.addrs[NDIRECT])
      ensures ok ==> |maps| <= NewBlocks(old(Volume()), Volume(), ip.inum) && |data| <= Touched(off, |src|)
      ensures ok <==> Needs(old(Volume()), ip.inum, off, |src|) <= Free(old(Volume()))
      ensures ok ==> Free(old(Volume())) == Free(Volume()) + Needs(old(Volume()), ip.inum, off, |src|)
      ensures Tracked(sb, old(blocks), old(logged), blocks, logged)
    {
      ok, maps, data := true, {}, {};
      ghost var v := Volume();
      WroteNothing(v, ip.inum, off);
      TrackedNone(sb, blocks, logged);
      var tot := 0;
      assert src[..0] == [];
      while tot < |src|
        invariant tot <= |src| && Boundary(off, tot, |src|)
        invariant Halfway(v, Volume(), ip.inum, off, src[..tot], old(logged), logged, maps, data)
        invariant inodes[ip.inum] == ip.d
      {
        ok, tot, maps, data := WriteTurn(ip, src, off, tot, v, old(logged), maps, data);
        if !ok { return; }
      }
      assert src[..tot] == src;
      NeedsExactly(v, Volume(), ip.inum, off, src);
    }

    /** One turn of writei's loop, at byte tot of `src`. */
    method WriteTurn(ip: Inode, src: seq<byte>, off: nat, tot: nat, ghost v: Vol, ghost was: set<nat>,
                     ghost maps: set<nat>, ghost data: set<nat>)
      returns (ok: bool, next: nat, ghost maps': set<nat>, ghost data': set<nat>)
      requires tot < |src| && Boundary(off, tot, |src|)
      requires Halfway(v, Volume(), ip.inum, off, src[..tot], was, logged, maps, data) && inodes[ip.inum] == ip.d
      requires off <= |v.lists[ip.inum]| * BSIZE && off + |src| <= MAXFILE * BSIZE
      modifies this, ip`d
      ensures tot < next <= |src| && Boundary(off, next, |src|)
      ensures ok ==> Halfway(v, Volume(), ip.inum, off, src[..next], was, logged, maps', data')
      ensures ok ==> inodes[ip.inum] == ip.d
      ensures !ok ==> Needs(v, ip.inum, off, |src|) > Free(v) && Tracked(sb, v.blocks, was, blocks, logged)
    {
      ok, maps', data' := true, maps, data;
      var at := off + tot;
      next := tot + Chunk(at, |src| - tot);
      ChunkFacts(|v.lists[ip.inum]|, off, tot, |src|, at, next);
      ghost var done := src[..tot];
      var part := src[tot..next];
      assert src[..next] == done + part;
      ghost var v1, mid := Volume(), logged;
      var addr;
      ghost var more;
      addr, more := PutBytes(ip, at, part);
      TrackedOn(sb, v.blocks, was, v1.blocks, mid, blocks, logged);
      if addr == 0 {
        NeedsMore(v, v1, ip.inum, off, tot, |src|, done, at);
        ok := false;
        return;
      }
      ghost var w := Volume();
      HalfwayOn(v, v1, w, ip.inum, off, done, at, part, was, mid, logged, maps, data, more, addr);
      maps', data' := maps + more, data + {addr as nat};
    }

    /** iupdate: copy the in-memory inode to its slot on the disk. */
    method Iupdate(ip: Inode)
      requires Good(Volume()) && ip.inum < sb.ninodes && inodes[ip.inum] == ip.d
      modifies this`blocks, this`logged
      ensures sb.IBlock(ip.inum) in old(blocks) && Volume() == Stored(old(Volume()), ip.inum)
      ensures logged == old(logged) + {sb.IBlock(ip.inum)} && Tracked(sb, old(blocks), old(logged), blocks, logged)
    {
      Regions(sb);
      var n := sb.IBlock(ip.inum);
      blocks := blocks[n := PutDinode(blocks[n], ip.inum % IPB, ip.d)];
      logged := logged + {n};
    }

    /** writei on a file or directory: -1 for a bad range, else all the bytes are written and nothing
        else changes.  `ok` is false when balloc has panicked. */
    method Writei(ip: Inode, src: seq<byte>, off: word) returns (ok: bool, r: int, ghost added: set<nat>)
      requires Settled(Volume()) && ip.inum < sb.ninodes && inodes[ip.inum] == ip.d && |src| < UINT
      modifies this, ip`d
      ensures ok ==> |inodes| == |old(inodes)| && inodes[ip.inum] == ip.d
      ensures BadWrite(old(ip.d.size), off, |src|) ==>
                ok && r == -1 && Volume() == old(Volume()) && logged == old(logged)
      ensures ok && !BadWrite(old(ip.d.size), off, |src|) ==>
                r == |src| && Finished(old(Volume()), Volume(), ip.inum, off, src)
      ensures ok ==> ip.d == old(ip.d).(addrs := ip.d.addrs, size := ip.d.size)
      ensures ok ==> old(logged) <= logged <= old(logged) + added && |added| <= LogBound(off, |src|)
      ensures ok <==> BadWrite(old(ip.d.size), off, |src|) || Affords(old(Volume()), old(ip.d.size), off, |src|)
      ensures ok && !BadWrite(old(ip.d.size), off, |src|) ==>
                && ip.d.size == SizeAfter(old(ip.d.size), off, |src|)
                && Free(Volume()) + BlocksUsed(ip.d.size) == Free(old(Volume())) + BlocksUsed(old(ip.d.size))
      ensures Tracked(sb, old(blocks), old(logged), blocks, logged)
    {
      ok, r, added := true, -1, {};
      TrackedNone(sb, blocks, logged);
      if off > ip.d.size || (off + |src|) % UINT < off {
        return;
      }
      if (off + |src|) % UINT > MAXFILE * BSIZE {
        return;
      }
      ok, added := WriteRange(ip, src, off);
      r := |src|;
    }

    /** writei once its tests have passed: the loop, then the size. */
    method WriteRange(ip: Inode, src: seq<byte>, off: word) returns (ok: bool, ghost added: set<nat>)
      requires Settled(Volume()) && ip.inum < sb.ninodes && inodes[ip.inum] == ip.d
      requires !BadWrite(ip.d.size, off, |src|)
      modifies this, ip`d
      ensures ok ==> |inodes| == |old(inodes)| && inodes[ip.inum] == ip.d
      ensures ok ==> Finished(old(Volume()), Volume(), ip.inum, off, src)
      ensures ok ==> old(logged) <= logged <= old(logged) + added && |added| <= LogBound(off, |src|)
      ensures ok <==> Affords(old(Volume()), old(ip.d.size), off, |src|)
      ensures ok ==> ip.d.size == SizeAfter(old(ip.d.size), off, |src|)
      ensures ok ==> Free(Volume()) + BlocksUsed(ip.d.size) == Free(old(Volume())) + BlocksUsed(old(ip.d.size))
      ensures Tracked(sb, old(blocks), old(logged), blocks, logged)
    {
      ghost var v := Volume();
      assert SizeOk(v, ip.inum);
      NeedsSettled(v, ip.inum, off, |src|);
      ghost var maps, data;
      ok, maps, data := WriteLoop(ip, src, off);
      added := {};
      if !ok { return; }
      ghost var w, mid := Volume(), logged;
      if |src| > 0 && off + |src| > ip.d.size {
        EndGrown(ip, src, off, v, w);
        TrackedOn(sb, v.blocks, old(logged), w.blocks, mid, blocks, logged);
        added := LogTotal(v, w, ip.inum, off, src, old(logged), mid, logged, maps, data);
        return;
      }
      FinishSame(v, w, ip.inum, off, src);
      added := LogTotal(v, w, ip.inum, off, src, old(logged), mid, logged, maps, data);
    }

    /** writei's ending for a file that has grown. */
    method EndGrown(ip: Inode, src: seq<byte>, off: word, ghost v: Vol, ghost w: Vol)
      requires w == Volume() && ip.inum < sb.ninodes && Wrote(v, w, ip.inum, off, src) && w.inodes[ip.inum] == ip.d
      requires Settled(v) && !BadWrite(ip.d.size, off, |src|) && |src| > 0 && off + |src| > ip.d.size
      modifies this`blocks, this`logged, this`inodes, ip`d
      ensures |inodes| == |old(inodes)| && inodes[ip.inum] == ip.d
      ensures SizeOk(v, ip.inum) && Finished(v, Volume(), ip.inum, off, src)
      ensures logged == old(logged) + {sb.IBlock(ip.inum)} && Tracked(sb, old(blocks), old(logged), blocks, logged)
      ensures ip.d.size == off + |src| && Free(Volume()) == Free(w)
    {
      var size: word := off + |src|;
      ghost var u := FinishGrown(v, w, ip.inum, off, src, size);
      SetSize(ip, size, w, u);
      FreeSame(w, u);
    }

    /** writei's last lines: a larger size, written through. */
    method SetSize(ip: Inode, size: word, ghost w: Vol, ghost u: Vol)
      requires w == Volume() && Good(w) && ip.inum < sb.ninodes && inodes[ip.inum] == ip.d
      requires w.sb.IBlock(ip.inum) in w.blocks && u == Stored(Resized(w, ip.inum, size), ip.inum)
      modifies this`blocks, this`logged, this`inodes, ip`d
      ensures |inodes| == |old(inodes)| && inodes[ip.inum] == ip.d
      ensures Volume() == u && ip.d.size == size
      ensures logged == old(logged) + {sb.IBlock(ip.inum)} && Tracked(sb, old(blocks), old(logged), blocks, logged)
    {
      ResizedKeeps(w, ip.inum, size);
      ip.d := ip.d.(size := size);
      inodes := inodes[ip.inum := ip.d];
      assert Volume() == Resized(w, ip.inum, size);
      Iupdate(ip);
    }

    /** readi on a file or directory: -1 for a bad range, else the bytes asked for, as far as the file
        goes.  Nothing is allocated and nothing changes. */
    method Readi(ip: Inode, off: word, n: word) returns (r: int, dst: seq<byte>)
      requires Settled(Volume()) && ip.inum < sb.ninodes && inodes[ip.inum] == ip.d
      modifies this, ip`d
      ensures Volume() == old(Volume()) && logged == old(logged) && ip.d == old(ip.d)
      ensures r == -1 <==> off > ip.d.size || off + n >= UINT
      ensures r != -1 ==> r == (if off + n > ip.d.size then ip.d.size - off else n)
      ensures r != -1 ==> SizeOk(Volume(), ip.inum) && dst == Content(Volume(), ip.inum)[off..off + r]
    {
      r, dst := -1, [];
      assert SizeOk(Volume(), ip.inum);
      WrapTest(off, n);
      if off > ip.d.size || (off + n) % UINT < off {
        return;
      }
      r := if off + n > ip.d.size then ip.d.size - off else n;
      dst := ReadRange(ip, off, r);
    }

    /** readi's loop. */
    method ReadRange(ip: Inode, off: nat, len: nat) returns (dst: seq<byte>)
      requires Good(Volume()) && ip.inum < sb.ninodes && inodes[ip.inum] == ip.d && SizeOk(Volume(), ip.inum)
      requires off + len <= ip.d.size
      modifies this, ip`d
      ensures Volume() == old(Volume()) && logged == old(logged) && ip.d == old(ip.d)
      ensures dst == Content(Volume(), ip.inum)[off..off + len]
    {
      ghost var v := Volume();
      dst := [];
      while |dst| < len
        invariant |dst| <= len && Volume() == v && logged == old(logged) && ip.d == old(ip.d)
        invariant dst == Content(v, ip.inum)[off..off + |dst|]
      {
        var at := off + |dst|;
        var m := Chunk(at, len - |dst|);
        BlockSlice(v, ip.inum, off, at, m);
        var addr;
        ghost var maps;
        addr, maps := Bmap(ip, at / BSIZE);
        dst := dst + blocks[addr][at % BSIZE..at % BSIZE + m];
        assert off + |dst| == at + m;
      }
    }

    // ---- truncation ----

    /** bfree: clear the block's bit; false is the panic on a block that is already free. */
    method Bfree(b: nat) returns (ok: bool)
      requires sb.BBlock(b) in blocks
      modifies this`blocks, this`logged
      ensures ok <==> InUse(sb, old(blocks), b)
      ensures ok ==> blocks == FreeBit(sb, old(blocks), b) && logged == old(logged) + {sb.BBlock(b)}
      ensures sb.BBlock(b) < sb.DataStart() ==> MapLogged(sb, old(blocks), old(logged), blocks, logged)
    {
      var n, bi := sb.BBlock(b), b % BPB;
      BitIndex(b);
      ok := Bit(blocks[n][bi / 8], bi % 8);
      if ok {
        blocks := blocks[n := MarkFree(blocks[n], bi)];
        logged := logged + {n};
      }
    }

    /** itrunc's first loop: the direct blocks. */
    method FreeDirect(ip: Inode) returns (ok: bool)
      requires Good(Volume()) && ip.inum < sb.ninodes && inodes[ip.inum] == ip.d
      modifies this`blocks, this`logged, ip`d
      ensures ok && Freed(old(Volume()), blocks, ip.inum, Least(NDIRECT, |lists[ip.inum]|), false)
      ensures ip.d == old(ip.d).(addrs := ip.d.addrs) && ip.d.addrs[NDIRECT] == old(ip.d.addrs[NDIRECT])
      ensures forall k :: 0 <= k < NDIRECT ==> ip.d.addrs[k] == 0
      ensures MapLogged(sb, old(blocks), old(logged), blocks, logged)
    {
      ok := true;
      ghost var v := Volume();
      ghost var list := lists[ip.inum];
      assert InodeOk(v, ip.inum);
      FreedNone(v, ip.inum);
      MapNone(sb, blocks, logged);
      for i := 0 to NDIRECT
        invariant ok && Freed(v, blocks, ip.inum, Least(i, |list|), false)
        invariant ip.d == v.inodes[ip.inum].(addrs := ip.d.addrs)
        invariant forall k :: 0 <= k < i ==> ip.d.addrs[k] == 0
        invariant forall k :: i <= k <= NDIRECT ==> ip.d.addrs[k] == v.inodes[ip.inum].addrs[k]
        invariant MapLogged(sb, v.blocks, old(logged), blocks, logged)
      {
        ghost var mid, before := blocks, logged;
        ok := FreeSlot(ip, i, v);
        MapOn(sb, v.blocks, old(logged), mid, before, blocks, logged);
      }
    }

    /** One round of that loop. */
    method FreeSlot(ip: Inode, i: nat, ghost v: Vol) returns (ok: bool)
      requires Good(v) && v.sb == sb && ip.inum < sb.ninodes && i < NDIRECT
      requires Freed(v, blocks, ip.inum, Least(i, |v.lists[ip.inum]|), false)
      requires ip.d.addrs[i] == v.inodes[ip.inum].addrs[i]
      modifies this`blocks, this`logged, ip`d
      ensures ok && Freed(v, blocks, ip.inum, Least(i + 1, |v.lists[ip.inum]|), false)
      ensures ip.d == WithAddr(old(ip.d), i, 0) && MapLogged(sb, old(blocks), old(logged), blocks, logged)
    {
      ok := true;
      assert InodeOk(v, ip.inum);
      FreeNext(v, blocks, ip.inum, i);
      MapNone(sb, blocks, logged);
      if ip.d.addrs[i] != 0 {
        ok := Bfree(ip.d.addrs[i]);
        ip.d := WithAddr(ip.d, i, 0);
      } else {
        assert ip.d.addrs[i := 0] == ip.d.addrs;
      }
    }

    /** itrunc's second loop: the blocks the indirect block names. */
    method FreeIndirect(a: Block, ghost v: Vol, ghost i: nat) returns (ok: bool)
      requires Good(v) && v.sb == sb && i < sb.ninodes && v.inodes[i].addrs[NDIRECT] != 0
      requires v.inodes[i].addrs[NDIRECT] in v.blocks && a == v.blocks[v.inodes[i].addrs[NDIRECT]]
      requires Freed(v, blocks, i, Least(NDIRECT, |v.lists[i]|), false)
      modifies this`blocks, this`logged
      ensures ok && Freed(v, blocks, i, |v.lists[i]|, false)
      ensures MapLogged(sb, old(blocks), old(logged), blocks, logged)
    {
      ok := true;
      MapNone(sb, blocks, logged);
      ghost var list := v.lists[i];
      assert InodeOk(v, i);
      for j := 0 to NINDIRECT
        invariant ok && Freed(v, blocks, i, Least(NDIRECT + j, |list|), false)
        invariant MapLogged(sb, old(blocks), old(logged), blocks, logged)
      {
        FreeNext(v, blocks, i, NDIRECT + j);
        if IndirectEntry(a, j) != 0 {
          ghost var mid, before := blocks, logged;
          ok := Bfree(IndirectEntry(a, j));
          MapOn(sb, old(blocks), old(logged), mid, before, blocks, logged);
        }
      }
    }

    /** itrunc: the file becomes empty; exactly its own blocks are freed, and bfree's panic cannot
        happen. */
    method Itrunc(ip: Inode) returns (ok: bool)
      requires Settled(Volume()) && ip.inum < sb.ninodes && inodes[ip.inum] == ip.d
      modifies this, ip`d
      ensures ok && Settled(Volume()) && inodes[ip.inum] == ip.d
      ensures ip.d == old(ip.d).(addrs := ip.d.addrs, size := 0) && lists == old(lists)[ip.inum := []]
      ensures forall j: nat :: j < sb.ninodes && j != ip.inum ==> SameFile(old(Volume()), Volume(), j)
      ensures forall b: nat :: BitGone(old(Volume()), blocks, ip.inum, MAXFILE, true, b)
      ensures Free(Volume()) == Free(old(Volume())) + BlocksUsed(old(ip.d.size))
      ensures Tracked(sb, old(blocks), old(logged), blocks, logged)
      ensures sb.IBlock(ip.inum) in logged && forall b: nat :: MapAt(sb, old(logged) + {sb.IBlock(ip.inum)}, logged, b)
    {
      ghost var v := Volume();
      assert InodeOk(v, ip.inum) && SizeOk(v, ip.inum);
      ok := FreeDirect(ip);
      ghost var one, first := blocks, logged;
      var ind := ip.d.addrs[NDIRECT];
      if ind != 0 {
        ok := FreeTable(ip, ind, v);
        MapOn(sb, v.blocks, old(logged), one, first, blocks, logged);
      } else {
        NoIndirect(v, blocks, ip.inum);
      }
      ghost var mid, mark := blocks, logged;
      MapTracked(sb, v.blocks, old(logged), mid, mark);
      EndTrunc(ip, v, blocks);
      TrackedOn(sb, v.blocks, old(logged), mid, mark, blocks, logged);
      forall b: nat ensures MapAt(sb, old(logged) + {sb.IBlock(ip.inum)}, logged, b) {
        assert MapAt(sb, old(logged), mark, b);
      }
    }

    /** itrunc's part for a file with an indirect block. */
    method FreeTable(ip: Inode, ind: word, ghost v: Vol) returns (ok: bool)
      requires Good(v) && Volume() == v.(blocks := blocks) && ip.inum < sb.ninodes
      requires ind == v.inodes[ip.inum].addrs[NDIRECT] != 0
      requires Freed(v, blocks, ip.inum, Least(NDIRECT, |v.lists[ip.inum]|), false)
      modifies this`blocks, this`logged, ip`d
      ensures ok && Freed(v, blocks, ip.inum, |v.lists[ip.inum]|, true) && ip.d == WithAddr(old(ip.d), NDIRECT, 0)
      ensures MapLogged(sb, old(blocks), old(logged), blocks, logged)
    {
      assert InodeOk(v, ip.inum) && OwnerOk(v, ind);
      Regions(sb);
      ok := FreeIndirect(blocks[ind], v, ip.inum);
      FreeStep(v, blocks, ip.inum, |lists[ip.inum]|, false, ind);
      ghost var mid, before := blocks, logged;
      ok := Bfree(ind);
      MapOn(sb, old(blocks), old(logged), mid, before, blocks, logged);
      ip.d := WithAddr(ip.d, NDIRECT, 0);
    }

    /** itrunc's last lines: size 0, written through. */
    method EndTrunc(ip: Inode, ghost v: Vol, ghost freed: Blocks)
      requires Settled(v) && ip.inum < v.sb.ninodes && Freed(v, freed, ip.inum, |v.lists[ip.inum]|, true)
      requires Volume() == v.(blocks := freed) && ip.d == v.inodes[ip.inum].(addrs := ip.d.addrs)
      requires forall k :: 0 <= k <= NDIRECT ==> ip.d.addrs[k] == 0
      modifies this, ip`d
      ensures Settled(Volume()) && inodes[ip.inum] == ip.d
      ensures ip.d == old(ip.d).(size := 0) && lists == old(lists)[ip.inum := []]
      ensures forall j: nat :: j < sb.ninodes && j != ip.inum ==> SameFile(v, Volume(), j)
      ensures forall b: nat :: BitGone(v, blocks, ip.inum, MAXFILE, true, b)
      ensures Free(Volume()) == Free(v) + BlocksUsed(old(ip.d.size))
      ensures logged == old(logged) + {sb.IBlock(ip.inum)} && Tracked(sb, freed, old(logged), blocks, logged)
    {
      EmptiedStored(v, freed, ip.inum);
      assert SizeOk(v, ip.inum);
      EmptiedFree(v, freed, ip.inum);
      ip.d := ip.d.(size := 0);
      assert ip.d.addrs == seq(NDIRECT + 1, _ => 0);
      inodes := inodes[ip.inum := ip.d];
      lists := lists[ip.inum := []];
      owner := map b | b in owner && owner[b].inum != ip.inum :: owner[b];
      assert Volume() == Emptied(v, freed, ip.inum);
      Iupdate(ip);
      FreeSame(Emptied(v, freed, ip.inum), Volume());
      EmptiedBits(v, freed, ip.inum, blocks);
    }
  }

  /** The test for off + n < off in 32-bit arithmetic. */
  lemma WrapTest(off: word, n: word)
    ensures (off + n) % UINT < off <==> off + n >= UINT
  {
  }

  /** w is v after writei has put `data` into file i at `off`, with the size and the inode on the disk
      still to be brought up to date. */
  ghost predicate Wrote(v: Vol, w: Vol, i: nat, off: nat, data: seq<byte>) {
    && Good(v) && Good(w) && w.sb == v.sb && i < v.sb.ninodes
    && w.inodes[i] == v.inodes[i].(addrs := w.inodes[i].addrs)
    && Written(v, w, i, off, data)
    && (forall j: nat :: j < v.sb.ninodes && j != i ==> SameFile(v, w, j))
    && |w.lists[i]| == Covering(|v.lists[i]|, off, |data|)
    && (|w.lists[i]| == |v.lists[i]| ==> w.inodes[i] == v.inodes[i] && (StoredOk(v, i) ==> StoredOk(w, i)))
    && IndirectRun(|w.lists[i]|, |v.lists[i]|, v.inodes[i].addrs[NDIRECT], w.inodes[i].addrs[NDIRECT])
  }

  /** How many blocks, the indirect block included, file i has gained. */
  ghost function NewBlocks(v: Vol, w: Vol, i: nat): int
    requires i < |v.lists| == |v.inodes| && i < |w.lists| == |w.inodes|
  {
    |w.lists[i]| - |v.lists[i]| + (if w.inodes[i].addrs[NDIRECT] == v.inodes[i].addrs[NDIRECT] then 0 else 1)
  }

  /** writei's loop has written `done`: what it has taken and what it has logged, with `was` logged before. */
  ghost predicate Halfway(v: Vol, w: Vol, i: nat, off: nat, done: seq<byte>, was: set<nat>, now: set<nat>,
                          maps: set<nat>, data: set<nat>)
  {
    && Wrote(v, w, i, off, done)
    && LogRun(was, now, maps, data, w.inodes[i].addrs[NDIRECT])
    && |maps| <= NewBlocks(v, w, i) && |data| <= Touched(off, |done|)
    && Free(v) == Free(w) + NewBlocks(v, w, i)
    && Tracked(v.sb, v.blocks, was, w.blocks, now)
  }

  /** How many blocks have to be allocated to write n bytes at `off` to file i. */
  ghost function Needs(v: Vol, i: nat, off: nat, n: nat): nat
    requires i < |v.lists| == |v.inodes|
  {
    var had, covering := |v.lists[i]|, Covering(|v.lists[i]|, off, n);
    if covering <= had then 0
    else covering - had + (if covering > NDIRECT && v.inodes[i].addrs[NDIRECT] == 0 then 1 else 0)
  }

  lemma NeedsExactly(v: Vol, w: Vol, i: nat, off: nat, data: seq<byte>)
    requires Wrote(v, w, i, off, data)
    ensures NewBlocks(v, w, i) == Needs(v, i, off, |data|)
  {
  }

  /** The size of a file after n bytes have been written at `off`. */
  function SizeAfter(size: nat, off: nat, n: nat): nat {
    if n > 0 && off + n > size then off + n else size
  }

  /** There are enough free blocks for a file to become that large. */
  ghost predicate Affords(v: Vol, size: nat, off: nat, n: nat) {
    Free(v) + BlocksUsed(size) >= BlocksUsed(SizeAfter(size, off, n))
  }

  lemma NeedsSettled(v: Vol, i: nat, off: nat, n: nat)
    requires Good(v) && i < v.sb.ninodes && SizeOk(v, i) && off <= v.inodes[i].size
    ensures Needs(v, i, off, n) + BlocksUsed(v.inodes[i].size) == BlocksUsed(SizeAfter(v.inodes[i].size, off, n))
  {
    var size := v.inodes[i].size;
    if n > 0 && off + n > size {
      BlocksForMono(size, off + n);
    } else if n > 0 {
      BlocksForMono(off + n, size);
    }
  }

  /** When the block at byte tot of n cannot be had, neither can all that the n bytes need. */
  lemma NeedsMore(v: Vol, w: Vol, i: nat, off: nat, tot: nat, n: nat, done: seq<byte>, at: nat)
    requires Wrote(v, w, i, off, done) && |done| == tot < n && at == off + tot && Boundary(off, tot, n)
    requires off <= |v.lists[i]| * BSIZE && off + n <= MAXFILE * BSIZE
    requires Free(v) == Free(w) + NewBlocks(v, w, i) && Takes(w, i, at / BSIZE) > Free(w)
    ensures Needs(v, i, off, n) > Free(v)
  {
    var next := tot + Chunk(at, n - tot);
    ChunkFacts(|v.lists[i]|, off, tot, n, at, next);
    OneBlock(at, next - tot);
    BlocksForMono(off + next, off + n);
  }

  /** What has been logged: bitmap blocks, data blocks and perhaps the indirect block. */
  ghost predicate LogRun(was: set<nat>, now: set<nat>, maps: set<nat>, data: set<nat>, ind: nat) {
    was <= now <= was + maps + data + (if ind == 0 then {} else {ind})
  }

  /** How the indirect block's address may change while a file grows from `was` to `now` blocks. */
  ghost predicate IndirectRun(now: nat, was: nat, before: word, after: word) {
    && (before != 0 ==> after == before)
    && (now == was || now <= NDIRECT ==> after == before)
    && (now != was && now > NDIRECT ==> after != 0)
  }

  /** How many blocks a file has after n bytes at `off` have been written, having had `had`. */
  function Covering(had: nat, off: nat, n: nat): nat {
    if n == 0 || BlocksFor(off + n) <= had then had else BlocksFor(off + n)
  }

  /** How many blocks n bytes at `off` touch. */
  function Touched(off: nat, n: nat): nat {
    if n == 0 then 0 else (off + n - 1) / BSIZE - off / BSIZE + 1
  }

  lemma OneBlock(off: nat, n: nat)
    requires 0 < n <= BSIZE - off % BSIZE
    ensures BlocksFor(off + n) == off / BSIZE + 1
    ensures n == BSIZE - off % BSIZE ==> (off + n) % BSIZE == 0
  {
  }

  /** How many of the `left` bytes go into the block at `off`. */
  function Chunk(off: nat, left: nat): nat {
    if left < BSIZE - off % BSIZE then left else BSIZE - off % BSIZE
  }

  /** After the first `tot` of n bytes at `off` comes the end or a block boundary. */
  predicate Boundary(off: nat, tot: nat, n: nat) {
    0 < tot < n ==> (off + tot) % BSIZE == 0
  }

  /** The next bytes lie in one block, which is mapped or is the next to map. */
  lemma ChunkFacts(had: nat, off: nat, tot: nat, n: nat, at: nat, next: nat)
    requires off <= had * BSIZE && tot < n && Boundary(off, tot, n) && off + n <= MAXFILE * BSIZE
    requires at == off + tot && next == tot + Chunk(at, n - tot)
    ensures 0 < next - tot <= BSIZE - at % BSIZE && next <= n && Boundary(off, next, n)
    ensures Touched(off, next) == Touched(off, tot) + 1
    ensures at / BSIZE <= Covering(had, off, tot) && at / BSIZE < MAXFILE
  {
    OneBlock(at, next - tot);
    assert (off + next - 1) / BSIZE == at / BSIZE;
  }

  lemma WroteNothing(v: Vol, i: nat, off: nat)
    requires Good(v) && i < v.sb.ninodes && off <= |v.lists[i]| * BSIZE
    ensures Wrote(v, v, i, off, [])
  {
  }

  /** Writing on from an aligned offset: two writes make one. */
  lemma WroteTrans(v: Vol, v1: Vol, w: Vol, i: nat, off: nat, a: seq<byte>, at: nat, b: seq<byte>)
    requires Wrote(v, v1, i, off, a) && at == off + |a| && Wrote(v1, w, i, at, b) && b != []
    ensures Wrote(v, w, i, off, a + b)
    ensures NewBlocks(v, w, i) == NewBlocks(v, v1, i) + NewBlocks(v1, w, i)
  {
    WrittenTrans(v, v1, w, i, off, a, b);
    forall j: nat | j < v.sb.ninodes && j != i ensures SameFile(v, w, j) {
      SameFileTrans(v, v1, w, j);
    }
  }

  lemma LogTrans(was: set<nat>, mid: set<nat>, now: set<nat>,
                 maps: set<nat>, data: set<nat>, ind: nat, more: set<nat>, addr: nat, ind': nat)
    requires LogRun(was, mid, maps, data, ind) && LogRun(mid, now, more, {addr}, ind') && (ind != 0 ==> ind' == ind)
    ensures LogRun(was, now, maps + more, data + {addr}, ind')
    ensures |maps + more| <= |maps| + |more| && |data + {addr}| <= |data| + 1
  {
  }

  lemma HalfwayOn(v: Vol, v1: Vol, w: Vol, i: nat, off: nat, done: seq<byte>, at: nat, part: seq<byte>,
                  was: set<nat>, mid: set<nat>, now: set<nat>, maps: set<nat>, data: set<nat>, more: set<nat>,
                  addr: nat)
    requires Halfway(v, v1, i, off, done, was, mid, maps, data)
    requires at == off + |done| && Wrote(v1, w, i, at, part) && part != []
    requires LogRun(mid, now, more, {addr}, w.inodes[i].addrs[NDIRECT]) && |more| <= NewBlocks(v1, w, i)
    requires Free(v1) == Free(w) + NewBlocks(v1, w, i) && Tracked(v.sb, v.blocks, was, w.blocks, now)
    requires Touched(off, |done + part|) == Touched(off, |done|) + 1
    ensures Halfway(v, w, i, off, done + part, was, now, maps + more, data + {addr})
  {
    WroteTrans(v, v1, w, i, off, done, at, part);
    LogTrans(was, mid, now, maps, data, v1.inodes[i].addrs[NDIRECT], more, addr, w.inodes[i].addrs[NDIRECT]);
  }

  /** Mapping a block, if need be, and copying bytes into it. */
  lemma PutWrote(v: Vol, v1: Vol, i: nat, off: nat, data: seq<byte>, addr: word)
    requires Good(v) && Good(v1) && i < v.sb.ninodes && v1.sb == v.sb && |v1.inodes| == |v.inodes|
    requires off / BSIZE <= |v.lists[i]| && off / BSIZE < |v1.lists[i]| && 0 < |data| <= BSIZE - off % BSIZE
    requires v1 == v || (off / BSIZE == |v.lists[i]| && Grown(v, v1, i, addr))
    requires v1.lists[i][off / BSIZE] in v1.blocks && Good(Patched(v1, i, off, data))
    requires IndirectRun(|v1.lists[i]|, |v.lists[i]|, v.inodes[i].addrs[NDIRECT], v1.inodes[i].addrs[NDIRECT])
    ensures Wrote(v, Patched(v1, i, off, data), i, off, data)
  {
    var w := Patched(v1, i, off, data);
    PatchedKeeps(v1, i, off, data);
    PatchedBytes(v1, i, off, data);
    if v1 != v {
      GrownBytes(v, v1, i, addr);
    }
    forall j: nat | j < v.sb.ninodes && j != i ensures SameFile(v, w, j) {
      PatchedOthers(v1, i, off, data, j);
      if v1 != v {
        GrownOthers(v, v1, i, addr, j);
      }
    }
    OneBlock(off, |data|);
  }

  /** The byte string with `src` laid over it at `off`, growing it as needed. */
  function Splice(was: seq<byte>, off: nat, src: seq<byte>): seq<byte>
    requires off <= |was|
  {
    was[..off] + src + (if off + |src| < |was| then was[off + |src|..] else [])
  }

  /** writei's tests, in 32-bit arithmetic, for a write of n bytes at `off` to a file of `size` bytes. */
  predicate BadWrite(size: nat, off: nat, n: nat) {
    off > size || off + n >= UINT || off + n > 140 * 512   // MAXFILE * BSIZE
  }

  /** The most blocks a write can log: the data blocks it touches, a bitmap block for each block it
      allocates, the indirect block and its bitmap block, and the inode block. */
  function LogBound(off: nat, n: nat): nat {
    Touched(off, n) + (BlocksFor(off + n) - BlocksFor(off)) + 3
  }

  lemma LogTotal(v: Vol, w: Vol, i: nat, off: nat, src: seq<byte>,
                 was: set<nat>, mid: set<nat>, now: set<nat>, maps: set<nat>, data: set<nat>)
    returns (added: set<nat>)
    requires Wrote(v, w, i, off, src) && |v.lists[i]| >= BlocksFor(off)
    requires LogRun(was, mid, maps, data, w.inodes[i].addrs[NDIRECT]) && mid <= now <= mid + {v.sb.IBlock(i)}
    requires |maps| <= NewBlocks(v, w, i) && |data| <= Touched(off, |src|)
    ensures was <= now <= was + added && |added| <= LogBound(off, |src|)
  {
    var last := {w.inodes[i].addrs[NDIRECT], v.sb.IBlock(i)};
    added := maps + data + last;
    assert |added| <= |maps| + |data| + |last|;
  }

  function Resized(w: Vol, i: nat, size: word): Vol
    requires i < |w.inodes|
  {
    w.(inodes := w.inodes[i := w.inodes[i].(size := size)])
  }

  lemma ResizedKeeps(w: Vol, i: nat, size: word)
    requires Good(w) && i < w.sb.ninodes
    ensures Good(Resized(w, i, size))
  {
    var w' := Resized(w, i, size);
    forall c: nat ensures OwnerOk(w', c) && BitOk(w', c) {
      assert OwnerOk(w, c) && BitOk(w, c);
    }
    forall j: nat | j < w.sb.ninodes ensures InodeOk(w', j) {
      assert InodeOk(w, j);
    }
  }

  lemma BlocksForMono(a: nat, b: nat)
    requires a <= b
    ensures BlocksFor(a) <= BlocksFor(b)
  {
  }

  /** Storing a resized inode touches no file data and no other inode. */
  lemma StoredFiles(w: Vol, i: nat, size: word)
    requires Good(w) && i < w.sb.ninodes
    ensures Good(Resized(w, i, size)) && w.sb.IBlock(i) in w.blocks
    ensures var u := Stored(Resized(w, i, size), i);
            && Good(u) && StoredOk(u, i)
            && (forall j: nat :: j < w.sb.ninodes && j != i ==> SameFile(w, u, j))
            && (forall p: nat :: p < |w.lists[i]| * BSIZE ==> ByteAt(u, i, p) == ByteAt(w, i, p))
  {
    ResizedKeeps(w, i, size);
    var r := Resized(w, i, size);
    StoredKeeps(r, i);
    var u := Stored(r, i);
    forall j: nat, p: nat | j < w.sb.ninodes && p < |w.lists[j]| * BSIZE ensures ByteAt(u, j, p) == ByteAt(w, j, p) {
      StoredBytes(w, i, size, j, p);
    }
    forall j: nat | j < w.sb.ninodes && j != i ensures SameFile(w, u, j) {
      assert StoredOk(w, j) ==> StoredOk(r, j);
    }
  }

  lemma StoredBytes(w: Vol, i: nat, size: word, j: nat, p: nat)
    requires Good(w) && i < w.sb.ninodes && Good(Resized(w, i, size)) && w.sb.IBlock(i) in w.blocks
    requires Good(Stored(Resized(w, i, size), i)) && j < w.sb.ninodes && p < |w.lists[j]| * BSIZE
    ensures ByteAt(Stored(Resized(w, i, size), i), j, p) == ByteAt(w, j, p)
  {
    InodeRegion(w.sb, i);
    InBlock(p, |w.lists[j]|);
    assert InodeOk(w, j) && OwnerOk(w, w.lists[j][p / BSIZE]);
  }

  /** The bytes of the file after either ending. */
  lemma FinishContent(v: Vol, w: Vol, u: Vol, i: nat, off: nat, src: seq<byte>)
    requires Good(v) && Good(u) && i < v.sb.ninodes && Wrote(v, w, i, off, src) && off <= v.inodes[i].size
    requires u.sb == v.sb && SizeOk(v, i) && SizeOk(u, i) && u.lists[i] == w.lists[i]
    requires forall p: nat :: p < |w.lists[i]| * BSIZE ==> ByteAt(u, i, p) == ByteAt(w, i, p)
    requires u.inodes[i].size == if |src| > 0 && off + |src| > v.inodes[i].size then off + |src| else v.inodes[i].size
    ensures Content(u, i) == Splice(Content(v, i), off, src)
  {
    var a, b := Content(u, i), Splice(Content(v, i), off, src);
    assert |a| == |b|;
    forall p | 0 <= p < |a| ensures a[p] == b[p] {
      assert a[p] == ByteAt(w, i, p);
    }
  }

  /** The end of writei when the file has grown: raise the size and store the inode. */
  lemma FinishGrown(v: Vol, w: Vol, i: nat, off: nat, src: seq<byte>, size: word) returns (u: Vol)
    requires Settled(v) && i < v.sb.ninodes && Wrote(v, w, i, off, src) && !BadWrite(v.inodes[i].size, off, |src|)
    requires |src| > 0 && size == off + |src| > v.inodes[i].size
    ensures w.sb.IBlock(i) in w.blocks && u == Stored(Resized(w, i, size), i)
    ensures SizeOk(v, i) && Finished(v, u, i, off, src)
  {
    assert SizeOk(v, i);
    StoredFiles(w, i, size);
    u := Stored(Resized(w, i, size), i);
    BlocksForMono(v.inodes[i].size, size);
    assert SizeOk(u, i);
    OthersSettled(v, w, u, i);
    FinishContent(v, w, u, i, off, src);
  }

  /** Files that are the same as in a settled volume are settled. */
  lemma OthersSettled(v: Vol, w: Vol, u: Vol, i: nat)
    requires Settled(v) && Good(w) && Good(u) && w.sb == v.sb && u.sb == v.sb && i < v.sb.ninodes
    requires forall j: nat :: j < v.sb.ninodes && j != i ==> SameFile(v, w, j) && SameFile(w, u, j)
    requires StoredOk(u, i) && SizeOk(u, i)
    ensures Settled(u) && forall j: nat :: j < v.sb.ninodes && j != i ==> SameFile(v, u, j)
  {
    forall j: nat | j < v.sb.ninodes && j != i ensures SameFile(v, u, j) && StoredOk(u, j) && SizeOk(u, j) {
      SameFileTrans(v, w, u, j);
      assert StoredOk(v, j) && SizeOk(v, j);
    }
  }

  /** The end of writei when the file has not grown: then no block was allocated, and the inode on the
      disk is still right. */
  lemma FinishSame(v: Vol, w: Vol, i: nat, off: nat, src: seq<byte>)
    requires Settled(v) && i < v.sb.ninodes && Wrote(v, w, i, off, src) && !BadWrite(v.inodes[i].size, off, |src|)
    requires |src| == 0 || off + |src| <= v.inodes[i].size
    ensures SizeOk(v, i) && Finished(v, w, i, off, src)
  {
    assert SizeOk(v, i) && StoredOk(v, i);
    if |src| > 0 {
      BlocksForMono(off + |src|, v.inodes[i].size);
    }
    forall j: nat | j < v.sb.ninodes && j != i ensures StoredOk(w, j) && SizeOk(w, j) {
      assert SameFile(v, w, j) && StoredOk(v, j) && SizeOk(v, j);
    }
    FinishContent(v, w, w, i, off, src);
  }

  ghost predicate Finished(v: Vol, u: Vol, i: nat, off: nat, src: seq<byte>)
    requires Good(v) && i < v.sb.ninodes && SizeOk(v, i) && off <= v.inodes[i].size
  {
    && Settled(u) && u.sb == v.sb
    && (forall j: nat :: j < v.sb.ninodes && j != i ==> SameFile(v, u, j))
    && Content(u, i) == Splice(Content(v, i), off, src)
    && u.inodes[i] == v.inodes[i].(addrs := u.inodes[i].addrs, size := u.inodes[i].size)
  }

  /** Bytes from `off` up to `at`, then a run within one block of the file. */
  lemma BlockSlice(v: Vol, i: nat, off: nat, at: nat, m: nat)
    requires Good(v) && i < v.sb.ninodes && SizeOk(v, i)
    requires off <= at && 0 < m <= BSIZE - at % BSIZE && at + m <= v.inodes[i].size
    ensures at / BSIZE < |v.lists[i]| <= MAXFILE && v.lists[i][at / BSIZE] in v.blocks
    ensures Content(v, i)[off..at + m] ==
            Content(v, i)[off..at] + v.blocks[v.lists[i][at / BSIZE]][at % BSIZE..at % BSIZE + m]
  {
    assert InodeOk(v, i);
    assert OwnerOk(v, v.lists[i][at / BSIZE]);
    var a, b := Content(v, i)[at..at + m], v.blocks[v.lists[i][at / BSIZE]][at % BSIZE..at % BSIZE + m];
    forall q | 0 <= q < m ensures a[q] == b[q] {
      SameBlock(at, q);
    }
    assert Content(v, i)[off..at + m] == Content(v, i)[off..at] + a;
  }

  lemma SameBlock(at: nat, q: nat)
    requires at % BSIZE + q < BSIZE
    ensures (at + q) / BSIZE == at / BSIZE && (at + q) % BSIZE == at % BSIZE + q
  {
  }

  function Least(a: nat, b: nat): nat {
    if a < b then a else b
  }

  /** Free the k-th block of a file, if it has one. */
  lemma FreeNext(v: Vol, blocks: Blocks, i: nat, k: nat)
    requires Good(v) && i < v.sb.ninodes && Freed(v, blocks, i, Least(k, |v.lists[i]|), false)
    ensures var b := Entry(v.lists[i], k);
            if b == 0 then Freed(v, blocks, i, Least(k + 1, |v.lists[i]|), false)
            else InUse(v.sb, blocks, b) && v.sb.BBlock(b) in blocks && v.sb.BBlock(b) < v.sb.DataStart() &&
                 Freed(v, FreeBit(v.sb, blocks, b), i, Least(k + 1, |v.lists[i]|), false)
  {
    assert InodeOk(v, i);
    if k < |v.lists[i]| {
      assert OwnerOk(v, v.lists[i][k]);
      FreeStep(v, blocks, i, k, false, v.lists[i][k]);
      Regions(v.sb);
    }
  }

  lemma FreedNone(v: Vol, i: nat)
    requires Good(v)
    ensures Freed(v, v.blocks, i, 0, false)
  {
  }

  /** Without an indirect block there is none to free. */
  lemma NoIndirect(v: Vol, blocks: Blocks, i: nat)
    requires Good(v) && i < v.sb.ninodes && v.inodes[i].addrs[NDIRECT] == 0
    requires Freed(v, blocks, i, |v.lists[i]|, false)
    ensures Freed(v, blocks, i, |v.lists[i]|, true)
  {
    forall b: nat ensures BitGone(v, blocks, i, |v.lists[i]|, true, b) {
      assert BitGone(v, blocks, i, |v.lists[i]|, false, b) && OwnerOk(v, b);
    }
  }

  /** itrunc's last step: the emptied inode stored. */
  lemma EmptiedStored(v: Vol, blocks: Blocks, i: nat)
    requires Settled(v) && i < v.sb.ninodes && Freed(v, blocks, i, |v.lists[i]|, true)
    ensures Good(Emptied(v, blocks, i)) && v.sb.IBlock(i) in blocks
    ensures var u := Stored(Emptied(v, blocks, i), i);
            && Settled(u)
            && (forall j: nat :: j < v.sb.ninodes && j != i ==> SameFile(v, u, j))
  {
    EmptiedKeeps(v, blocks, i);
    var e := Emptied(v, blocks, i);
    StoredKeeps(e, i);
    var u := Stored(e, i);
    InodeRegion(v.sb, i);
    forall j: nat | j < v.sb.ninodes && j != i ensures SameFile(v, u, j) && StoredOk(u, j) && SizeOk(u, j) {
      EmptiedSame(v, blocks, i, j);
    }
  }

  lemma EmptiedBits(v: Vol, blocks: Blocks, i: nat, now: Blocks)
    requires Good(v) && i < v.sb.ninodes && Freed(v, blocks, i, |v.lists[i]|, true) && v.sb.IBlock(i) in blocks
    requires now == Stored(Emptied(v, blocks, i), i).blocks
    ensures forall b: nat :: BitGone(v, now, i, MAXFILE, true, b)
  {
    Regions(v.sb);
    forall b: nat ensures BitGone(v, now, i, MAXFILE, true, b) {
      assert BitGone(v, blocks, i, |v.lists[i]|, true, b) && OwnerOk(v, b) && InodeOk(v, i);
    }
  }

  lemma EmptiedBytes(v: Vol, blocks: Blocks, i: nat, j: nat, p: nat)
    requires Good(v) && i < v.sb.ninodes && j < v.sb.ninodes && j != i && Freed(v, blocks, i, |v.lists[i]|, true)
    requires v.sb.IBlock(i) in blocks && Good(Stored(Emptied(v, blocks, i), i)) && p < |v.lists[j]| * BSIZE
    ensures ByteAt(Stored(Emptied(v, blocks, i), i), j, p) == ByteAt(v, j, p)
  {
    InodeRegion(v.sb, i);
    InBlock(p, |v.lists[j]|);
    var b := v.lists[j][p / BSIZE];
    assert InodeOk(v, j) && OwnerOk(v, b);
    assert blocks[b] == v.blocks[b] && b != v.sb.IBlock(i);
  }

  lemma InBlock(p: nat, n: nat)
    requires p < n * BSIZE
    ensures p / BSIZE < n
  {
  }

  lemma EmptiedSame(v: Vol, blocks: Blocks, i: nat, j: nat)
    requires Settled(v) && i < v.sb.ninodes && j < v.sb.ninodes && j != i && Freed(v, blocks, i, |v.lists[i]|, true)
    requires v.sb.IBlock(i) in blocks && Good(Emptied(v, blocks, i)) && Good(Stored(Emptied(v, blocks, i), i))
    ensures var u := Stored(Emptied(v, blocks, i), i);
            SameFile(v, u, j) && StoredOk(u, j) && SizeOk(u, j)
  {
    var e := Emptied(v, blocks, i);
    assert StoredOk(v, j) && SizeOk(v, j);
    EmptiedStays(v, blocks, i, j);
    StoredKeeps(e, i);
    forall p: nat | p < |v.lists[j]| * BSIZE ensures ByteAt(Stored(e, i), j, p) == ByteAt(v, j, p) {
      EmptiedBytes(v, blocks, i, j, p);
    }
  }
}
