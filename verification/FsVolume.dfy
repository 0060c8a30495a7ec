/** What a consistent file system is, and the steps that keep it so (system/storage/fs.c).
    `inodes` holds each inode as the kernel sees it, `lists` the blocks of each file in order, and
    `owner` says for every allocated data block which file has it and where. */
module FsVolume {
  import opened Params
  import opened Bytes
  import opened FsLayout

  datatype Slot = Data(inum: nat, k: nat) | Indirect(inum: nat)

  datatype Vol = Vol(
    sb: Superblock, blocks: Blocks,
    inodes: seq<Dinode>, lists: seq<seq<word>>, owner: map<nat, Slot>)

  // ---- the block map of one inode ----

  /** bmap's table: direct entries, then the words of the indirect block; zero past the end. */
  ghost predicate MapOk(blocks: Blocks, d: Dinode, list: seq<word>) {
    && |list| <= MAXFILE
    && (forall k :: 0 <= k < NDIRECT ==> d.addrs[k] == Entry(list, k))
    && (|list| > NDIRECT ==> d.addrs[NDIRECT] != 0)
    && (d.addrs[NDIRECT] != 0 ==>
          && d.addrs[NDIRECT] in blocks
          && (forall j :: 0 <= j < NINDIRECT ==>
                IndirectEntry(blocks[d.addrs[NDIRECT]], j) == Entry(list, NDIRECT + j)))
  }

  function Entry(list: seq<word>, k: nat): word {
    if k < |list| then list[k] else 0
  }

  function IndirectEntry(b: Block, j: nat): word
    requires j < NINDIRECT
  {
    Word(b, 4 * j)
  }

  function SetIndirectEntry(b: Block, j: nat, v: word): Block
    requires j < NINDIRECT
  {
    PutWord(b, 4 * j, v)
  }

  lemma SetIndirectReads(b: Block, j: nat, v: word)
    requires j < NINDIRECT
    ensures IndirectEntry(SetIndirectEntry(b, j, v), j) == v
    ensures forall i :: 0 <= i < NINDIRECT && i != j ==>
              IndirectEntry(SetIndirectEntry(b, j, v), i) == IndirectEntry(b, i)
  {
    forall i | 0 <= i < NINDIRECT && i != j
      ensures IndirectEntry(SetIndirectEntry(b, j, v), i) == IndirectEntry(b, i)
    {
      PutWordFrame(b, 4 * j, v, 4 * i);
    }
  }

  // ---- the invariant ----

  ghost predicate Shape(v: Vol) {
    v.sb.Ok() && v.sb.Covers(v.blocks) && |v.inodes| == |v.lists| == v.sb.ninodes
  }

  ghost predicate Owns(v: Vol, b: nat, s: Slot) {
    b in v.owner && v.owner[b] == s
  }

  /** Inode i's table is well formed, and its blocks are its own. */
  ghost predicate InodeOk(v: Vol, i: nat)
    requires Shape(v) && i < v.sb.ninodes
  {
    && MapOk(v.blocks, v.inodes[i], v.lists[i])
    && (forall k :: 0 <= k < |v.lists[i]| ==> Owns(v, v.lists[i][k], Data(i, k)))
    && (v.inodes[i].addrs[NDIRECT] != 0 ==> Owns(v, v.inodes[i].addrs[NDIRECT], Indirect(i)))
  }

  /** An owned block is a data block, and its owner has it. */
  ghost predicate OwnerOk(v: Vol, b: nat)
    requires Shape(v)
  {
    b in v.owner ==>
      && v.sb.DataStart() <= b < v.sb.size
      && match v.owner[b]
         case Data(i, k) => i < v.sb.ninodes && k < |v.lists[i]| && v.lists[i][k] == b
         case Indirect(i) => i < v.sb.ninodes && v.inodes[i].addrs[NDIRECT] == b
  }

  /** The bitmap marks the metadata blocks and the owned blocks, and nothing else. */
  ghost predicate BitOk(v: Vol, b: nat) {
    b < v.sb.size ==> (InUse(v.sb, v.blocks, b) <==> b < v.sb.DataStart() || b in v.owner)
  }

  ghost predicate Good(v: Vol) {
    && Shape(v)
    && (forall i: nat :: i < v.sb.ninodes ==> InodeOk(v, i))
    && (forall b: nat :: OwnerOk(v, b))
    && (forall b: nat :: BitOk(v, b))
  }

  /** The inode on the disk is the inode in memory. */
  ghost predicate StoredOk(v: Vol, i: nat)
    requires Shape(v) && i < v.sb.ninodes
  {
    DinodeAt(v.blocks[v.sb.IBlock(i)], i % IPB) == v.inodes[i]
  }

  function BlocksFor(size: nat): nat {
    (size + BSIZE - 1) / BSIZE
  }

  /** The blocks a file of this size occupies, its indirect block included. */
  function BlocksUsed(size: nat): nat {
    BlocksFor(size) + if BlocksFor(size) > NDIRECT then 1 else 0
  }

  /** No holes: the blocks mapped are exactly those the size needs. */
  ghost predicate SizeOk(v: Vol, i: nat)
    requires Shape(v) && i < v.sb.ninodes
  {
    && |v.lists[i]| == BlocksFor(v.inodes[i].size)
    && (v.inodes[i].addrs[NDIRECT] != 0 <==> |v.lists[i]| > NDIRECT)
  }

  /** Between operations: everything above, for every inode. */
  ghost predicate Settled(v: Vol) {
    Good(v) && forall i: nat :: i < v.sb.ninodes ==> StoredOk(v, i) && SizeOk(v, i)
  }

  lemma SizeBound(v: Vol, i: nat)
    requires Settled(v) && i < v.sb.ninodes
    ensures v.inodes[i].size <= MAXFILE * BSIZE
  {
    assert SizeOk(v, i) && InodeOk(v, i);
  }

  /** A file's bytes. */
  ghost function Content(v: Vol, i: nat): seq<byte>
    requires Good(v) && i < v.sb.ninodes && SizeOk(v, i)
  {
    seq(v.inodes[i].size, p requires 0 <= p < v.inodes[i].size => ByteAt(v, i, p))
  }

  /** Byte p of a file's blocks. */
  ghost function ByteAt(v: Vol, i: nat, p: nat): byte
    requires Good(v) && i < v.sb.ninodes && p < |v.lists[i]| * BSIZE
  {
    assert InodeOk(v, i);
    assert OwnerOk(v, v.lists[i][p / BSIZE]);
    v.blocks[v.lists[i][p / BSIZE]][p % BSIZE]
  }

  // ---- free blocks ----

  ghost function FreeBlocks(v: Vol): set<nat> {
    set b: nat | v.sb.DataStart() <= b < v.sb.size && b !in v.owner
  }

  /** How many blocks are still to be had. */
  ghost function Free(v: Vol): nat {
    |FreeBlocks(v)|
  }

  lemma FreeAre(v: Vol, b: nat)
    requires Good(v) && b < v.sb.size
    ensures b in FreeBlocks(v) <==> !InUse(v.sb, v.blocks, b)
  {
    assert BitOk(v, b);
  }

  /** A bitmap with every bit set leaves nothing to be had. */
  lemma NoneFree(v: Vol)
    requires Good(v) && forall b: nat :: b < v.sb.size ==> InUse(v.sb, v.blocks, b)
    ensures Free(v) == 0
  {
    forall b | b in FreeBlocks(v) ensures false {
      FreeAre(v, b);
    }
  }

  /** Giving a free block an owner leaves one block less. */
  lemma OneTaken(v: Vol, w: Vol, b: nat, s: Slot)
    requires Good(v) && b < v.sb.size && !InUse(v.sb, v.blocks, b) && w.sb == v.sb && w.owner == v.owner[b := s]
    ensures Free(v) == Free(w) + 1
  {
    FreeAre(v, b);
    assert FreeBlocks(v) == FreeBlocks(w) + {b};
  }

  lemma FreeSame(v: Vol, w: Vol)
    requires w.sb == v.sb && w.owner == v.owner
    ensures Free(w) == Free(v)
  {
    assert FreeBlocks(w) == FreeBlocks(v);
  }

  // ---- what a transaction has logged ----

  ghost predicate LoggedAt(was: Blocks, now: Blocks, logged: set<nat>, b: nat) {
    b in was && b in now && now[b] != was[b] ==> b in logged
  }

  /** Every block whose contents have changed has been logged. */
  ghost predicate AllLogged(was: Blocks, now: Blocks, logged: set<nat>) {
    now.Keys == was.Keys && forall b: nat :: LoggedAt(was, now, logged, b)
  }

  lemma LoggedOne(was: Blocks, mid: Blocks, before: set<nat>, n: nat, data: Block, logged: set<nat>)
    requires AllLogged(was, mid, before) && n in mid && before <= logged && n in logged
    ensures AllLogged(was, mid[n := data], logged)
  {
    var now := mid[n := data];
    forall b: nat ensures LoggedAt(was, now, logged, b) {
      assert LoggedAt(was, mid, before, b);
    }
  }

  lemma LoggedOn(was: Blocks, mid: Blocks, now: Blocks, before: set<nat>, logged: set<nat>)
    requires AllLogged(was, mid, before) && AllLogged(mid, now, logged) && before <= logged
    ensures AllLogged(was, now, logged)
  {
    forall b: nat ensures LoggedAt(was, now, logged, b) {
      assert LoggedAt(was, mid, before, b) && LoggedAt(mid, now, logged, b);
    }
  }

  ghost predicate PlacedAt(sb: Superblock, before: set<nat>, logged: set<nat>, b: nat) {
    b in logged && b !in before ==> sb.inodestart <= b < sb.size
  }

  /** From `was`, with `before` logged, to `now`: every block that has changed has been logged, and nothing has
      been logged but inode, bitmap and data blocks. */
  ghost predicate Tracked(sb: Superblock, was: Blocks, before: set<nat>, now: Blocks, logged: set<nat>) {
    AllLogged(was, now, logged) && before <= logged && forall b: nat :: PlacedAt(sb, before, logged, b)
  }

  lemma TrackedNone(sb: Superblock, was: Blocks, logged: set<nat>)
    ensures Tracked(sb, was, logged, was, logged)
  {
  }

  lemma TrackedOne(sb: Superblock, was: Blocks, before: set<nat>, mid: Blocks, mark: set<nat>, n: nat, data: Block)
    requires Tracked(sb, was, before, mid, mark) && n in mid && sb.inodestart <= n < sb.size
    ensures Tracked(sb, was, before, mid[n := data], mark + {n})
  {
    LoggedOne(was, mid, mark, n, data, mark + {n});
    var logged := mark + {n};
    forall b: nat ensures PlacedAt(sb, before, logged, b) {
      assert PlacedAt(sb, before, mark, b);
    }
  }

  lemma TrackedTwo(sb: Superblock, was: Blocks, before: set<nat>, n: nat, x: Block, r: nat, y: Block)
    requires n in was && sb.inodestart <= n < sb.size && r in was && sb.inodestart <= r < sb.size
    ensures Tracked(sb, was, before, was[n := x][r := y], before + {n} + {r})
  {
    TrackedNone(sb, was, before);
    TrackedOne(sb, was, before, was, before, n, x);
    TrackedOne(sb, was, before, was[n := x], before + {n}, r, y);
  }

  lemma TrackedOn(sb: Superblock, was: Blocks, before: set<nat>, mid: Blocks, mark: set<nat>, now: Blocks,
                  logged: set<nat>)
    requires Tracked(sb, was, before, mid, mark) && Tracked(sb, mid, mark, now, logged)
    ensures Tracked(sb, was, before, now, logged)
  {
    LoggedOn(was, mid, now, mark, logged);
    forall b: nat ensures PlacedAt(sb, before, logged, b) {
      assert PlacedAt(sb, before, mark, b) && PlacedAt(sb, mark, logged, b);
    }
  }

  ghost predicate MapAt(sb: Superblock, before: set<nat>, logged: set<nat>, b: nat) {
    b in logged && b !in before ==> sb.bmapstart <= b < sb.DataStart()
  }

  /** The same with nothing logged but bitmap blocks. */
  ghost predicate MapLogged(sb: Superblock, was: Blocks, before: set<nat>, now: Blocks, logged: set<nat>) {
    AllLogged(was, now, logged) && before <= logged && forall b: nat :: MapAt(sb, before, logged, b)
  }

  lemma MapNone(sb: Superblock, was: Blocks, logged: set<nat>)
    ensures MapLogged(sb, was, logged, was, logged)
  {
  }

  lemma MapOn(sb: Superblock, was: Blocks, before: set<nat>, mid: Blocks, mark: set<nat>, now: Blocks,
              logged: set<nat>)
    requires MapLogged(sb, was, before, mid, mark) && MapLogged(sb, mid, mark, now, logged)
    ensures MapLogged(sb, was, before, now, logged)
  {
    LoggedOn(was, mid, now, mark, logged);
    forall b: nat ensures MapAt(sb, before, logged, b) {
      assert MapAt(sb, before, mark, b) && MapAt(sb, mark, logged, b);
    }
  }

  lemma MapTracked(sb: Superblock, was: Blocks, before: set<nat>, now: Blocks, logged: set<nat>)
    requires sb.Ok() && MapLogged(sb, was, before, now, logged)
    ensures Tracked(sb, was, before, now, logged)
  {
    forall b: nat ensures PlacedAt(sb, before, logged, b) {
      assert MapAt(sb, before, logged, b);
    }
  }

  /** An operation that has run as part of a transaction: the volume it left and the blocks it logged. */
  datatype Done = Done(after: Vol, logged: set<nat>)

  /** The volume that operation i started from. */
  function Before(v: Vol, ops: seq<Done>, i: nat): Vol
    requires i <= |ops|
  {
    if i == 0 then v else ops[i - 1].after
  }

  ghost predicate StepAt(v: Vol, ops: seq<Done>, i: nat)
    requires i < |ops|
  {
    && Settled(ops[i].after) && ops[i].after.sb == v.sb
    && Tracked(v.sb, Before(v, ops, i).blocks, {}, ops[i].after.blocks, ops[i].logged)
  }

  /** Operations one after the other, from v on. */
  ghost predicate Group(v: Vol, ops: seq<Done>) {
    Settled(v) && forall i: nat :: i < |ops| ==> StepAt(v, ops, i)
  }

  lemma GroupMore(v: Vol, ops: seq<Done>, op: Done)
    requires Group(v, ops) && Settled(op.after) && op.after.sb == v.sb
    requires Tracked(v.sb, Before(v, ops, |ops|).blocks, {}, op.after.blocks, op.logged)
    ensures Group(v, ops + [op])
  {
    forall i: nat | i < |ops + [op]| ensures StepAt(v, ops + [op], i) {
      assert i < |ops| ==> StepAt(v, ops, i);
      assert Before(v, ops + [op], i) == Before(v, ops, i);
    }
  }

  // ---- steps that keep the invariant ----

  lemma BitRegion(sb: Superblock, b: nat)
    requires sb.Ok() && b < sb.size
    ensures sb.inodestart < sb.bmapstart <= sb.BBlock(b) < sb.DataStart() <= sb.size
    ensures sb.BBlock(b) == sb.bmapstart + b / 4096
  {
    assert b / BPB <= sb.size / BPB;
  }

  lemma InodeRegion(sb: Superblock, i: nat)
    requires sb.Ok() && i < sb.ninodes
    ensures sb.inodestart <= sb.IBlock(i) < sb.bmapstart < sb.DataStart() <= sb.size
    ensures sb.IBlock(i) == sb.inodestart + i / 8
  {
    assert i / IPB <= sb.ninodes / IPB;
  }

  lemma Regions(sb: Superblock)
    requires sb.Ok()
    ensures forall b: nat :: b < sb.size ==> sb.bmapstart <= sb.BBlock(b) < sb.DataStart() <= sb.size
    ensures forall i: nat :: i < sb.ninodes ==> sb.inodestart <= sb.IBlock(i) < sb.bmapstart
  {
    forall b: nat | b < sb.size ensures sb.bmapstart <= sb.BBlock(b) < sb.DataStart() {
      BitRegion(sb, b);
    }
    forall i: nat | i < sb.ninodes ensures sb.IBlock(i) < sb.bmapstart {
      InodeRegion(sb, i);
    }
  }

  /** Writing a block of file data concerns nothing but that data. */
  lemma WriteDataKeeps(v: Vol, b: nat, data: Block)
    requires Good(v) && b in v.owner && v.owner[b].Data?
    ensures var v' := v.(blocks := v.blocks[b := data]);
            && Good(v')
            && (forall i: nat :: i < v.sb.ninodes ==>
                  (StoredOk(v', i) <==> StoredOk(v, i)) && (SizeOk(v', i) <==> SizeOk(v, i)))
  {
    var v' := v.(blocks := v.blocks[b := data]);
    Regions(v.sb);
    assert OwnerOk(v, b);
    forall c: nat ensures OwnerOk(v', c) && BitOk(v', c) {
      assert OwnerOk(v, c) && BitOk(v, c);
    }
    forall i: nat | i < v.sb.ninodes ensures InodeOk(v', i) {
      assert InodeOk(v, i);
    }
  }

  /** The blocks after balloc has handed out r: its bit set, its contents zeroed. */
  function Allocated(sb: Superblock, blocks: Blocks, r: nat): Blocks
    requires sb.BBlock(r) in blocks
  {
    blocks[sb.BBlock(r) := MarkUsed(blocks[sb.BBlock(r)], r % BPB)][r := ZeroBlock()]
  }

  /** What allocation leaves alone: everything but the bitmap block and the new block. */
  lemma AllocatedFrame(v: Vol, r: nat)
    requires Good(v) && r < v.sb.size && !InUse(v.sb, v.blocks, r)
    ensures v.sb.DataStart() <= r && r !in v.owner && v.sb.BBlock(r) in v.blocks
    ensures v.sb.Covers(Allocated(v.sb, v.blocks, r)) && Allocated(v.sb, v.blocks, r)[r] == ZeroBlock()
    ensures forall c: nat :: c in v.blocks && c != r && c != v.sb.BBlock(r) ==>
              c in Allocated(v.sb, v.blocks, r) && Allocated(v.sb, v.blocks, r)[c] == v.blocks[c]
    ensures forall c: nat :: c < v.sb.size ==>
              (InUse(v.sb, Allocated(v.sb, v.blocks, r), c) <==> c == r || InUse(v.sb, v.blocks, c))
  {
    Regions(v.sb);
    assert BitOk(v, r);
    var marked := v.blocks[v.sb.BBlock(r) := MarkUsed(v.blocks[v.sb.BBlock(r)], r % BPB)];
    forall c: nat | c < v.sb.size
      ensures InUse(v.sb, Allocated(v.sb, v.blocks, r), c) <==> c == r || InUse(v.sb, v.blocks, c)
    {
      MarkUsedReads(v.sb, v.blocks, r, c);
      assert v.sb.BBlock(c) < r;
    }
  }

  /** An inode with entry k of its table set. */
  function WithAddr(d: Dinode, k: nat, r: word): Dinode
    requires k <= NDIRECT
  {
    d.(addrs := d.addrs[k := r])
  }

  /** A fresh block becomes the next direct block of a file. */
  function AppendDirect(v: Vol, i: nat, r: word): Vol
    requires i < |v.inodes| == |v.lists| && |v.lists[i]| < NDIRECT && v.sb.BBlock(r) in v.blocks
  {
    Vol(v.sb, Allocated(v.sb, v.blocks, r),
        v.inodes[i := WithAddr(v.inodes[i], |v.lists[i]|, r)],
        v.lists[i := v.lists[i] + [r]],
        v.owner[r := Data(i, |v.lists[i]|)])
  }

  lemma AppendDirectKeeps(v: Vol, i: nat, r: word)
    requires Good(v) && i < v.sb.ninodes && |v.lists[i]| < NDIRECT
    requires r < v.sb.size && !InUse(v.sb, v.blocks, r)
    ensures v.sb.BBlock(r) in v.blocks && Good(AppendDirect(v, i, r))
  {
    AllocatedFrame(v, r);
    Regions(v.sb);
    var v' := AppendDirect(v, i, r);
    forall c: nat ensures OwnerOk(v', c) && BitOk(v', c) {
      assert OwnerOk(v, c) && BitOk(v, c);
    }
    forall j: nat | j < v.sb.ninodes ensures InodeOk(v', j) {
      assert InodeOk(v, j) && OwnerOk(v, v.inodes[j].addrs[NDIRECT]);
    }
  }

  /** A fresh block becomes the indirect block of a file. */
  function AddIndirect(v: Vol, i: nat, r: word): Vol
    requires i < |v.inodes| && v.sb.BBlock(r) in v.blocks
  {
    Vol(v.sb, Allocated(v.sb, v.blocks, r),
        v.inodes[i := WithAddr(v.inodes[i], NDIRECT, r)], v.lists, v.owner[r := Indirect(i)])
  }

  lemma AddIndirectKeeps(v: Vol, i: nat, r: word)
    requires Good(v) && i < v.sb.ninodes && v.inodes[i].addrs[NDIRECT] == 0
    requires r < v.sb.size && !InUse(v.sb, v.blocks, r)
    ensures v.sb.BBlock(r) in v.blocks && Good(AddIndirect(v, i, r))
  {
    AllocatedFrame(v, r);
    Regions(v.sb);
    var v' := AddIndirect(v, i, r);
    forall c: nat ensures OwnerOk(v', c) && BitOk(v', c) {
      assert OwnerOk(v, c) && BitOk(v, c);
    }
    forall j: nat | j < v.sb.ninodes ensures InodeOk(v', j) {
      assert InodeOk(v, j) && OwnerOk(v, v.inodes[j].addrs[NDIRECT]);
      if j == i {
        ZeroEntries();
      }
    }
  }

  lemma ZeroEntries()
    ensures forall j :: 0 <= j < NINDIRECT ==> IndirectEntry(ZeroBlock(), j) == 0
  {
  }

  /** A fresh block becomes the next block named by the indirect block. */
  function AppendIndirect(v: Vol, i: nat, r: word): Vol
    requires i < |v.inodes| == |v.lists| && NDIRECT <= |v.lists[i]| < MAXFILE && v.sb.BBlock(r) in v.blocks
    requires v.inodes[i].addrs[NDIRECT] in Allocated(v.sb, v.blocks, r)
  {
    var ind, blocks := v.inodes[i].addrs[NDIRECT], Allocated(v.sb, v.blocks, r);
    Vol(v.sb, blocks[ind := SetIndirectEntry(blocks[ind], |v.lists[i]| - NDIRECT, r)],
        v.inodes, v.lists[i := v.lists[i] + [r]], v.owner[r := Data(i, |v.lists[i]|)])
  }

  lemma AppendIndirectMap(b: Block, list: seq<word>, r: word)
    requires NDIRECT <= |list| < MAXFILE
    requires forall j :: 0 <= j < NINDIRECT ==> IndirectEntry(b, j) == Entry(list, NDIRECT + j)
    ensures var b', list' := SetIndirectEntry(b, |list| - NDIRECT, r), list + [r];
            forall j :: 0 <= j < NINDIRECT ==> IndirectEntry(b', j) == Entry(list', NDIRECT + j)
  {
    SetIndirectReads(b, |list| - NDIRECT, r);
  }

  lemma AppendIndirectKeeps(v: Vol, i: nat, r: word)
    requires Good(v) && i < v.sb.ninodes && NDIRECT <= |v.lists[i]| < MAXFILE && v.inodes[i].addrs[NDIRECT] != 0
    requires r < v.sb.size && !InUse(v.sb, v.blocks, r)
    ensures v.sb.BBlock(r) in v.blocks && v.inodes[i].addrs[NDIRECT] in Allocated(v.sb, v.blocks, r)
    ensures Good(AppendIndirect(v, i, r))
  {
    AllocatedFrame(v, r);
    Regions(v.sb);
    var ind := v.inodes[i].addrs[NDIRECT];
    assert InodeOk(v, i) && OwnerOk(v, ind);
    var v' := AppendIndirect(v, i, r);
    forall c: nat ensures OwnerOk(v', c) && BitOk(v', c) {
      assert OwnerOk(v, c) && BitOk(v, c);
    }
    forall j: nat | j < v.sb.ninodes ensures InodeOk(v', j) {
      AppendIndirectInode(v, i, r, j);
    }
  }

  lemma AppendIndirectInode(v: Vol, i: nat, r: word, j: nat)
    requires Good(v) && i < v.sb.ninodes && NDIRECT <= |v.lists[i]| < MAXFILE && v.inodes[i].addrs[NDIRECT] != 0
    requires r < v.sb.size && !InUse(v.sb, v.blocks, r) && j < v.sb.ninodes
    requires v.sb.BBlock(r) in v.blocks && v.inodes[i].addrs[NDIRECT] in Allocated(v.sb, v.blocks, r)
    ensures InodeOk(AppendIndirect(v, i, r), j)
  {
    AllocatedFrame(v, r);
    BitRegion(v.sb, r);
    var ind := v.inodes[i].addrs[NDIRECT];
    assert InodeOk(v, i) && OwnerOk(v, ind) && InodeOk(v, j) && OwnerOk(v, v.inodes[j].addrs[NDIRECT]);
    if j == i {
      AppendIndirectMap(v.blocks[ind], v.lists[i], r);
    }
  }

  /** iupdate: the in-memory inode goes to its slot on the disk. */
  function Stored(v: Vol, i: nat): Vol
    requires i < |v.inodes| && v.sb.IBlock(i) in v.blocks
  {
    v.(blocks := v.blocks[v.sb.IBlock(i) := PutDinode(v.blocks[v.sb.IBlock(i)], i % IPB, v.inodes[i])])
  }

  /** Storing one inode changes no other on the disk. */
  lemma StoredOthers(v: Vol, i: nat, j: nat)
    requires Shape(v) && i < v.sb.ninodes && j < v.sb.ninodes && v.sb.IBlock(i) in v.blocks
    requires v.sb.IBlock(j) in v.blocks
    ensures v.sb.IBlock(j) in Stored(v, i).blocks
    ensures DinodeAt(Stored(v, i).blocks[v.sb.IBlock(j)], j % IPB) ==
            if j == i then v.inodes[i] else DinodeAt(v.blocks[v.sb.IBlock(j)], j % IPB)
  {
    if j == i {
      DinodeRoundTrip(v.blocks[v.sb.IBlock(i)], i % IPB, v.inodes[i]);
    } else if v.sb.IBlock(j) == v.sb.IBlock(i) {
      assert j % IPB != i % IPB;
      DinodeFrame(v.blocks[v.sb.IBlock(i)], i % IPB, v.inodes[i], j % IPB);
    }
  }

  lemma StoredKeeps(v: Vol, i: nat)
    requires Good(v) && i < v.sb.ninodes
    ensures v.sb.IBlock(i) in v.blocks && Good(Stored(v, i)) && StoredOk(Stored(v, i), i)
    ensures forall j: nat :: j < v.sb.ninodes && StoredOk(v, j) ==> StoredOk(Stored(v, i), j)
  {
    Regions(v.sb);
    StoredGood(v, i);
    StoredOthers(v, i, i);
    forall j: nat | j < v.sb.ninodes && StoredOk(v, j) ensures StoredOk(Stored(v, i), j) {
      StoredOthers(v, i, j);
    }
  }

  lemma StoredGood(v: Vol, i: nat)
    requires Good(v) && i < v.sb.ninodes && v.sb.IBlock(i) in v.blocks && v.sb.IBlock(i) < v.sb.bmapstart
    ensures Good(Stored(v, i))
  {
    Regions(v.sb);
    var v' := Stored(v, i);
    forall c: nat ensures OwnerOk(v', c) && BitOk(v', c) {
      assert OwnerOk(v, c) && BitOk(v, c);
    }
    forall j: nat | j < v.sb.ninodes ensures InodeOk(v', j) {
      StoredInode(v, i, j);
    }
  }

  lemma StoredInode(v: Vol, i: nat, j: nat)
    requires Good(v) && i < v.sb.ninodes && v.sb.IBlock(i) in v.blocks && v.sb.IBlock(i) < v.sb.bmapstart
    requires j < v.sb.ninodes
    ensures InodeOk(Stored(v, i), j)
  {
    InodeRegion(v.sb, i);
    var b := v.inodes[j].addrs[NDIRECT];
    assert InodeOk(v, j) && OwnerOk(v, b);
    if b != 0 {
      assert Stored(v, i).blocks[b] == v.blocks[b];
    }
  }
}
