/** File-system operations and the log together: a crash anywhere in the commit of an operation leaves, after
    recovery, a volume with all of the operation or with none of it (system/core/file.c over
    system/storage/fs.c and system/storage/log.c). */
module FsCrash {
  import opened Params
  import opened Bytes
  import opened FsLayout
  import opened FsVolume
  import opened Fs
  import opened Directory
  import opened File
  import opened LogCrash
  import opened Sets

  /** The log lies between the superblock and the inode blocks (include/fs.h:8-10). */
  predicate LogPlaced(g: Geometry, sb: Superblock) {
    2 <= g.start && g.start + g.size <= sb.inodestart
  }

  /** The file system's own blocks are the same in both. */
  ghost predicate Agree(sb: Superblock, a: Blocks, b: Blocks) {
    sb.Covers(a) && sb.Covers(b) && forall n: nat :: sb.inodestart <= n < sb.size ==> a[n] == b[n]
  }

  lemma AgreeGood(v: Vol, d: Blocks)
    requires Good(v) && Agree(v.sb, v.blocks, d)
    ensures Good(v.(blocks := d))
  {
    var u := v.(blocks := d);
    Regions(v.sb);
    forall b: nat ensures OwnerOk(u, b) && BitOk(u, b) {
      assert OwnerOk(v, b) && BitOk(v, b);
    }
    forall i: nat | i < v.sb.ninodes ensures InodeOk(u, i) {
      assert InodeOk(v, i) && OwnerOk(v, v.inodes[i].addrs[NDIRECT]);
    }
  }

  lemma AgreeFile(v: Vol, d: Blocks, j: nat)
    requires Settled(v) && j < v.sb.ninodes && Agree(v.sb, v.blocks, d) && Good(v.(blocks := d))
    ensures var u := v.(blocks := d);
            && StoredOk(u, j) && SizeOk(u, j) && SizeOk(v, j)
            && Content(u, j) == Content(v, j)
  {
    var u := v.(blocks := d);
    Regions(v.sb);
    assert StoredOk(v, j) && SizeOk(v, j) && InodeOk(v, j);
    forall p: nat | p < v.inodes[j].size ensures ByteAt(u, j, p) == ByteAt(v, j, p) {
      assert OwnerOk(v, v.lists[j][p / BSIZE]);
    }
  }

  /** A volume is judged by the file system's own blocks. */
  lemma AgreeSettled(v: Vol, d: Blocks)
    requires Settled(v) && Agree(v.sb, v.blocks, d)
    ensures var u := v.(blocks := d);
            && Settled(u)
            && (forall j: nat :: j < v.sb.ninodes ==> SizeOk(u, j) && SizeOk(v, j) && Content(u, j) == Content(v, j))
  {
    AgreeGood(v, d);
    forall j: nat | j < v.sb.ninodes
      ensures var u := v.(blocks := d); StoredOk(u, j) && SizeOk(u, j) && SizeOk(v, j) && Content(u, j) == Content(v, j)
    {
      AgreeFile(v, d, j);
    }
  }

  /** The list holds the logged blocks, each once, in the order of their log_writes. */
  ghost predicate Lists(list: seq<word>, logged: set<nat>) {
    |list| == |logged| && forall b: nat :: b in list <==> b in logged
  }

  /** An operation on volume v that has changed the cached blocks to those of w. */
  ghost predicate Operation(g: Geometry, v: Vol, w: Vol, logged: set<nat>, list: seq<word>) {
    && Settled(v) && Settled(w) && w.sb == v.sb && LogPlaced(g, v.sb) && Empty(g, v.blocks)
    && Tracked(v.sb, v.blocks, {}, w.blocks, logged) && 0 < |logged| <= LOGSIZE && Lists(list, logged)
  }

  lemma OperationTxn(g: Geometry, v: Vol, w: Vol, logged: set<nat>, list: seq<word>)
    requires Operation(g, v, w, logged, list)
    ensures TxnOk(g, v.blocks, Txn(list, w.blocks))
  {
    forall i | 0 <= i < |list| ensures list[i] in w.blocks && list[i] in v.blocks && !g.InLog(list[i]) {
      assert list[i] in list && PlacedAt(v.sb, {}, logged, list[i]);
    }
  }

  /** Installing what was logged makes the disk's home blocks those of the cache. */
  lemma OperationApplied(g: Geometry, v: Vol, w: Vol, logged: set<nat>, list: seq<word>)
    requires Operation(g, v, w, logged, list)
    ensures Applied(Home(g, v.blocks), Txn(list, w.blocks)) == Home(g, w.blocks)
  {
    forall b | b in v.blocks && b !in list ensures w.blocks[b] == v.blocks[b] {
      assert LoggedAt(v.blocks, w.blocks, logged, b);
    }
  }

  /** The disk after a crash that lets the first k writes of the operation's commit out, any number of crashes
      during recovery, and a recovery that completes. */
  function AfterCrash(g: Geometry, d: Disk, t: Txn, k: nat, crashes: seq<nat>): Disk
    requires Empty(g, d) && TxnOk(g, d, t) && k <= |CommitWrites(g, d[g.start], t)|
  {
    CrashAtomicity(g, d, t, k, crashes);
    Recovered(g, CrashedRecoveries(g, Replay(d, CommitWrites(g, d[g.start], t)[..k]), crashes))
  }

  lemma HomesAgree(g: Geometry, sb: Superblock, a: Blocks, d: Blocks)
    requires sb.Ok() && LogPlaced(g, sb) && sb.Covers(a) && g.Covers(d) && Home(g, d) == Home(g, a)
    ensures Agree(sb, a, d)
  {
    forall n: nat | n < sb.size && !g.InLog(n) ensures n in d && d[n] == a[n] {
      assert n in Home(g, a) && Home(g, a)[n] == a[n];
      assert n in Home(g, d) && Home(g, d)[n] == d[n];
    }
    forall n: nat | n < sb.size ensures n in d {
      assert g.InLog(n) ==> n in d;
    }
  }

  /** The volume recovered from that disk: before the header is written the one the operation started from,
      afterwards the one it made, on the recovered blocks. */
  ghost function Left(g: Geometry, v: Vol, w: Vol, list: seq<word>, k: nat, crashes: seq<nat>): Vol
    requires Empty(g, v.blocks) && TxnOk(g, v.blocks, Txn(list, w.blocks))
    requires k <= |CommitWrites(g, v.blocks[g.start], Txn(list, w.blocks))|
  {
    (if k <= |list| then v else w).(blocks := AfterCrash(g, v.blocks, Txn(list, w.blocks), k, crashes))
  }

  /** What a crash leaves is sound, and file by file what was there before or what the operation made. */
  ghost predicate Survives(g: Geometry, v: Vol, w: Vol, list: seq<word>, k: nat, crashes: seq<nat>)
    requires Settled(v) && Settled(w) && w.sb == v.sb && Empty(g, v.blocks)
  {
    var t := Txn(list, w.blocks);
    && TxnOk(g, v.blocks, t)
    && (k <= |CommitWrites(g, v.blocks[g.start], t)| ==>
          var made, u := if k <= |list| then v else w, Left(g, v, w, list, k, crashes);
          && Settled(u)
          && forall j: nat :: j < v.sb.ninodes ==> SizeOk(u, j) && SizeOk(made, j) && Content(u, j) == Content(made, j))
  }

  lemma OperationSurvives(g: Geometry, v: Vol, w: Vol, logged: set<nat>, list: seq<word>, k: nat, crashes: seq<nat>)
    requires Operation(g, v, w, logged, list)
    ensures Survives(g, v, w, list, k, crashes)
  {
    var t := Txn(list, w.blocks);
    OperationTxn(g, v, w, logged, list);
    if k <= |CommitWrites(g, v.blocks[g.start], t)| {
      var made, d := if k <= |list| then v else w, AfterCrash(g, v.blocks, t, k, crashes);
      CrashAtomicity(g, v.blocks, t, k, crashes);
      RecoveredHome(g, CrashedRecoveries(g, Replay(v.blocks, CommitWrites(g, v.blocks[g.start], t)[..k]), crashes));
      OperationApplied(g, v, w, logged, list);
      HomesAgree(g, v.sb, made.blocks, d);
      AgreeSettled(made, d);
    }
  }

  /** However the logged blocks are ordered in the list, and wherever commit and the recoveries after it crash. */
  ghost predicate AlwaysSurvives(g: Geometry, v: Vol, w: Vol, logged: set<nat>)
    requires Settled(v) && Settled(w) && w.sb == v.sb && Empty(g, v.blocks)
  {
    forall list: seq<word>, k: nat, crashes: seq<nat> :: Lists(list, logged) ==> Survives(g, v, w, list, k, crashes)
  }

  lemma AlwaysSurvive(g: Geometry, v: Vol, w: Vol, logged: set<nat>)
    requires Settled(v) && Settled(w) && w.sb == v.sb && LogPlaced(g, v.sb) && Empty(g, v.blocks)
    requires Tracked(v.sb, v.blocks, {}, w.blocks, logged) && 0 < |logged| <= LOGSIZE
    ensures AlwaysSurvives(g, v, w, logged)
  {
    forall list: seq<word>, k: nat, crashes: seq<nat> | Lists(list, logged)
      ensures Survives(g, v, w, list, k, crashes)
    {
      OperationSurvives(g, v, w, logged, list, k, crashes);
    }
  }

  /** File i is `was` in the recovered volume if the header had not been written, and `now` if it had. */
  ghost predicate OldOrNew(g: Geometry, v: Vol, w: Vol, list: seq<word>, k: nat, crashes: seq<nat>, i: nat,
                           was: seq<byte>, now: seq<byte>)
    requires Empty(g, v.blocks)
  {
    && TxnOk(g, v.blocks, Txn(list, w.blocks))
    && (k <= |CommitWrites(g, v.blocks[g.start], Txn(list, w.blocks))| ==>
          var u := Left(g, v, w, list, k, crashes);
          Settled(u) && i < u.sb.ninodes && SizeOk(u, i) && Content(u, i) == if k <= |list| then was else now)
  }

  ghost predicate AlwaysOldOrNew(g: Geometry, v: Vol, w: Vol, logged: set<nat>, i: nat, was: seq<byte>, now: seq<byte>)
    requires Empty(g, v.blocks)
  {
    forall list: seq<word>, k: nat, crashes: seq<nat> :: Lists(list, logged) ==>
      OldOrNew(g, v, w, list, k, crashes, i, was, now)
  }

  /** What survival means for one file. */
  lemma FileSurvives(g: Geometry, v: Vol, w: Vol, logged: set<nat>, i: nat)
    requires Settled(v) && Settled(w) && w.sb == v.sb && Empty(g, v.blocks) && AlwaysSurvives(g, v, w, logged)
    requires i < v.sb.ninodes && SizeOk(v, i) && SizeOk(w, i)
    ensures AlwaysOldOrNew(g, v, w, logged, i, Content(v, i), Content(w, i))
  {
    forall list: seq<word>, k: nat, crashes: seq<nat> | Lists(list, logged)
      ensures OldOrNew(g, v, w, list, k, crashes, i, Content(v, i), Content(w, i))
    {
      assert Survives(g, v, w, list, k, crashes);
    }
  }

  // ---- operations ----

  /** One transaction of filewrite, on a disk with an empty log: the recovered file is the old text or the
      spliced text, and every other file is as it was. */
  method ChunkSurvives(fs: FileSystem, f: OpenFile, src: seq<byte>, g: Geometry) returns (ok: bool, r: int)
    requires Usable(fs, f) && |src| <= MAXCHUNK && LogPlaced(g, fs.sb) && Empty(g, fs.blocks)
    modifies fs, f, f.ip
    ensures ok ==> Usable(fs, f) && r == if BadWrite(|old(Text(fs, f))|, old(f.off), |src|) then -1 else |src|
    ensures ok && r != -1 ==> Text(fs, f) == Splice(old(Text(fs, f)), old(f.off), src)
    ensures ok && r != -1 ==>
              forall j: nat :: j < fs.sb.ninodes && j != f.ip.inum ==> SameFile(old(fs.Volume()), fs.Volume(), j)
    ensures ok && fs.logged != {} ==> AlwaysSurvives(g, old(fs.Volume()), fs.Volume(), fs.logged)
    ensures ok && fs.logged != {} ==>
              AlwaysOldOrNew(g, old(fs.Volume()), fs.Volume(), fs.logged, f.ip.inum, old(Text(fs, f)), Text(fs, f))
  {
    ghost var v := fs.Volume();
    ok, r := WriteChunk(fs, f, src);
    if ok && fs.logged != {} {
      AlwaysSurvive(g, v, fs.Volume(), fs.logged);
      FileSurvives(g, v, fs.Volume(), fs.logged, f.ip.inum);
    }
  }

  /** The header of the log is none of the file system's blocks, so a log that was empty stays so. */
  lemma StaysEmpty(g: Geometry, v: Vol, ops: seq<Done>, i: nat)
    requires Group(v, ops) && i <= |ops| && LogPlaced(g, v.sb) && Empty(g, v.blocks)
    ensures Empty(g, Before(v, ops, i).blocks)
    decreases i
  {
    if i > 0 {
      StaysEmpty(g, v, ops, i - 1);
      assert StepAt(v, ops, i - 1);
      assert PlacedAt(v.sb, {}, ops[i - 1].logged, g.start);
      assert LoggedAt(Before(v, ops, i - 1).blocks, ops[i - 1].after.blocks, ops[i - 1].logged, g.start);
    }
  }

  /** filewrite as the transactions it makes.  In whatever part of it the machine crashes, and however often it
      crashes in recovery, the recovered file is the old text with the first so many chunks spliced in: those of the
      transactions before, or those and the one that was being committed. */
  method WriteSurvives(fs: FileSystem, f: OpenFile, src: seq<byte>, g: Geometry)
    returns (ok: bool, r: int, ghost done: nat, ghost txns: seq<Done>)
    requires Usable(fs, f) && LogPlaced(g, fs.sb) && Empty(g, fs.blocks)
    modifies fs, f, f.ip
    ensures ok ==> Group(old(fs.Volume()), txns) && Before(old(fs.Volume()), txns, |txns|) == fs.Volume()
    ensures ok ==> done <= |src| && |txns| == (done + 1535) / 1536
    ensures ok ==> forall i: nat :: i < |txns| ==>
              TxnSurvives(g, old(fs.Volume()), txns, i, f.ip.inum, old(Text(fs, f)), old(f.off), src)
  {
    ghost var v, text, off := fs.Volume(), Text(fs, f), f.off;
    ok, r, done, txns := FileWrite(fs, f, src);
    if ok {
      forall i: nat | i < |txns| ensures TxnSurvives(g, v, txns, i, f.ip.inum, text, off, src) {
        assert ChunkAt(v, txns, i, f.ip.inum, text, off, src);
        EachSurvives(g, v, txns, i, f.ip.inum, text, off, src);
      }
    }
  }

  ghost predicate TxnSurvives(g: Geometry, v: Vol, txns: seq<Done>, i: nat, inum: nat, text: seq<byte>, off: nat,
                              src: seq<byte>)
    requires i < |txns|
  {
    && off <= |text| && Empty(g, Before(v, txns, i).blocks)
    && (txns[i].logged != {} ==>
          AlwaysOldOrNew(g, Before(v, txns, i), txns[i].after, txns[i].logged, inum,
                         Splice(text, off, src[..Least(i * MAXCHUNK, |src|)]),
                         Splice(text, off, src[..Least((i + 1) * MAXCHUNK, |src|)])))
  }

  lemma EachSurvives(g: Geometry, v: Vol, txns: seq<Done>, i: nat, inum: nat, text: seq<byte>, off: nat, src: seq<byte>)
    requires Group(v, txns) && i < |txns| && inum < v.sb.ninodes && LogPlaced(g, v.sb) && Empty(g, v.blocks)
    requires SizeOk(v, inum) && text == Content(v, inum) && off <= |text|
    requires forall k: nat :: k < |txns| ==> ChunkAt(v, txns, k, inum, text, off, src)
    ensures TxnSurvives(g, v, txns, i, inum, text, off, src)
  {
    var was, now := Before(v, txns, i), txns[i].after;
    StaysEmpty(g, v, txns, i);
    assert StepAt(v, txns, i) && ChunkAt(v, txns, i, inum, text, off, src);
    if i > 0 {
      assert StepAt(v, txns, i - 1) && ChunkAt(v, txns, i - 1, inum, text, off, src);
    } else {
      assert Splice(text, off, src[..0]) == text;
    }
    if txns[i].logged != {} {
      AlwaysSurvive(g, was, now, txns[i].logged);
      FileSurvives(g, was, now, txns[i].logged, inum);
    }
  }

  /** dirlink as a transaction: the recovered directory is the old listing, or the one in which the name leads to
      the inode and every other name where it did. */
  method LinkSurvives(fs: FileSystem, dp: Inode, name: seq<byte>, inum: Inum, g: Geometry) returns (ok: bool, r: int)
    requires IsDir(fs, dp) && inum != 0 && LogPlaced(g, fs.sb) && Empty(g, fs.blocks)
    modifies fs, dp`d
    ensures ok ==> IsDir(fs, dp) && r == if Lookup(old(Listing(fs, dp)), Key(name)) != 0 then -1 else 0
    ensures ok && r == 0 ==> LinkedTo(old(Listing(fs, dp)), Listing(fs, dp), name, inum)
    ensures ok && fs.logged != {} ==> AlwaysSurvives(g, old(fs.Volume()), fs.Volume(), fs.logged)
    ensures ok && fs.logged != {} ==>
              AlwaysOldOrNew(g, old(fs.Volume()), fs.Volume(), fs.logged, dp.inum, old(Listing(fs, dp)),
                             Listing(fs, dp))
  {
    fs.logged := {};   // begin_op
    ghost var v, slot := fs.Volume(), FirstFree(Listing(fs, dp), 0);
    ok, r := DirLink(fs, dp, name, inum);
    if ok && fs.logged != {} {
      ChunkFitsLog(slot * ENTRY, ENTRY);
      AlwaysSurvive(g, v, fs.Volume(), fs.logged);
      FileSurvives(g, v, fs.Volume(), fs.logged, dp.inum);
    }
  }

  /** itrunc as a transaction, on a volume whose bitmap leaves room in the log for the inode: the recovered file
      is whole or empty, and every other file is as it was. */
  method TruncateSurvives(fs: FileSystem, ip: Inode, g: Geometry)
    requires Settled(fs.Volume()) && ip.inum < fs.sb.ninodes && fs.inodes[ip.inum] == ip.d
    requires LogPlaced(g, fs.sb) && Empty(g, fs.blocks) && fs.sb.DataStart() - fs.sb.bmapstart < LOGSIZE
    modifies fs, ip`d
    ensures Settled(fs.Volume()) && fs.inodes[ip.inum] == ip.d && ip.d.size == 0
    ensures forall j: nat :: j < fs.sb.ninodes && j != ip.inum ==> SameFile(old(fs.Volume()), fs.Volume(), j)
    ensures SizeOk(old(fs.Volume()), ip.inum) && AlwaysSurvives(g, old(fs.Volume()), fs.Volume(), fs.logged)
    ensures AlwaysOldOrNew(g, old(fs.Volume()), fs.Volume(), fs.logged, ip.inum, Content(old(fs.Volume()), ip.inum), [])
  {
    fs.logged := {};   // begin_op
    ghost var v := fs.Volume();
    assert SizeOk(v, ip.inum);
    var _ := fs.Itrunc(ip);
    assert {} + {fs.sb.IBlock(ip.inum)} == {fs.sb.IBlock(ip.inum)};
    TruncateFits(fs.sb, ip.inum, fs.logged);
    AlwaysSurvive(g, v, fs.Volume(), fs.logged);
    assert SizeOk(fs.Volume(), ip.inum) && Content(fs.Volume(), ip.inum) == [];
    FileSurvives(g, v, fs.Volume(), fs.logged, ip.inum);
  }

  /** Truncation logs bitmap blocks and one inode block. */
  lemma TruncateFits(sb: Superblock, i: nat, logged: set<nat>)
    requires sb.Ok() && forall b: nat :: MapAt(sb, {sb.IBlock(i)}, logged, b)
    ensures |logged| <= sb.DataStart() - sb.bmapstart + 1
  {
    var maps := Range(sb.bmapstart, sb.DataStart());
    RangeSize(sb.bmapstart, sb.DataStart());
    forall b | b in logged ensures b in maps + {sb.IBlock(i)} {
      assert MapAt(sb, {sb.IBlock(i)}, logged, b) && (Inside(sb.bmapstart, sb.DataStart(), b) || b == sb.IBlock(i));
    }
    NoMore(logged, maps + {sb.IBlock(i)});
    OneMore(maps, sb.IBlock(i));
  }

  // ---- groups of operations ----

  /** What the operations have logged between them. */
  function LoggedBy(ops: seq<Done>): set<nat> {
    if ops == [] then {} else LoggedBy(ops[..|ops| - 1]) + ops[|ops| - 1].logged
  }

  lemma {:induction false} GroupTracked(v: Vol, ops: seq<Done>)
    requires Group(v, ops)
    ensures Settled(Before(v, ops, |ops|)) && Before(v, ops, |ops|).sb == v.sb
    ensures Tracked(v.sb, v.blocks, {}, Before(v, ops, |ops|).blocks, LoggedBy(ops))
    decreases |ops|
  {
    if ops == [] {
      TrackedNone(v.sb, v.blocks, {});
    } else {
      var n := |ops| - 1;
      var first := ops[..n];
      forall i: nat | i < n ensures StepAt(v, first, i) {
        assert StepAt(v, ops, i) && Before(v, first, i) == Before(v, ops, i);
      }
      GroupTracked(v, first);
      assert StepAt(v, ops, n) && Before(v, first, n) == Before(v, ops, n);
      TrackedJoin(v.sb, v.blocks, Before(v, ops, n).blocks, ops[n].after.blocks, LoggedBy(first), ops[n].logged);
    }
  }

  lemma TrackedJoin(sb: Superblock, was: Blocks, mid: Blocks, now: Blocks, one: set<nat>, two: set<nat>)
    requires Tracked(sb, was, {}, mid, one) && Tracked(sb, mid, {}, now, two)
    ensures Tracked(sb, was, {}, now, one + two)
  {
    forall b: nat ensures LoggedAt(was, now, one + two, b) && PlacedAt(sb, {}, one + two, b) {
      assert LoggedAt(was, mid, one, b) && LoggedAt(mid, now, two, b);
      assert PlacedAt(sb, {}, one, b) && PlacedAt(sb, {}, two, b);
    }
  }

  /** A group of operations that end_op commits together survives together: after any crash every file is as it
      was before the first of them or as the last one left it. */
  lemma GroupSurvives(g: Geometry, v: Vol, ops: seq<Done>)
    requires Group(v, ops) && LogPlaced(g, v.sb) && Empty(g, v.blocks) && 0 < |LoggedBy(ops)| <= LOGSIZE
    ensures Settled(Before(v, ops, |ops|)) && Before(v, ops, |ops|).sb == v.sb
    ensures AlwaysSurvives(g, v, Before(v, ops, |ops|), LoggedBy(ops))
  {
    GroupTracked(v, ops);
    AlwaysSurvive(g, v, Before(v, ops, |ops|), LoggedBy(ops));
  }

  /** As many operations as begin_op admits into an empty log, each within its share, fit the log together. */
  lemma {:induction false} GroupFits(ops: seq<Done>)
    requires forall i :: 0 <= i < |ops| ==> |ops[i].logged| <= MAXOPBLOCKS
    ensures |LoggedBy(ops)| <= |ops| * MAXOPBLOCKS && (|ops| * MAXOPBLOCKS <= LOGSIZE ==> |LoggedBy(ops)| <= LOGSIZE)
  {
    if ops != [] {
      GroupFits(ops[..|ops| - 1]);
      Together(LoggedBy(ops[..|ops| - 1]), ops[|ops| - 1].logged);
    }
  }
}
