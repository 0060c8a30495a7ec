/** Reading and writing through an open file: the shared offset and filewrite's transactions
    (system/core/file.c). */
module File {
  import opened Params
  import opened Bytes
  import opened FsLayout
  import opened FsVolume
  import opened Fs
  import opened Sets

  /** The most bytes filewrite puts into one transaction. */
  const MAXCHUNK: nat := (MAXOPBLOCKS - 1 - 1 - 2) / 2 * 512

  /** A chunk never logs more blocks than one operation may: an unaligned chunk touches one data block
      more than it can allocate, because no hole precedes the end of the file. */
  lemma ChunkFitsLog(off: nat, n: nat)
    requires n <= MAXCHUNK
    ensures LogBound(off, n) <= MAXOPBLOCKS
  {
    var k := MAXCHUNK / BSIZE;
    assert BlocksFor(off + n) <= BlocksFor(off) + k;
    assert n > 0 ==> (off + n - 1) / BSIZE <= off / BSIZE + k;
  }

  class OpenFile {
    const ip: Inode
    var off: word

    constructor (ip: Inode)
      ensures this.ip == ip && off == 0
    {
      this.ip, off := ip, 0;
    }
  }

  ghost predicate Usable(fs: FileSystem, f: OpenFile)
    reads fs, f, f.ip
  {
    Settled(fs.Volume()) && f.ip.inum < fs.sb.ninodes && fs.inodes[f.ip.inum] == f.ip.d
  }

  /** The bytes of the file f is open on. */
  ghost function Text(fs: FileSystem, f: OpenFile): seq<byte>
    requires Usable(fs, f)
    reads fs, f, f.ip
  {
    assert SizeOk(fs.Volume(), f.ip.inum);
    Content(fs.Volume(), f.ip.inum)
  }

  /** The free blocks and the blocks of the file together. */
  ghost function Worth(fs: FileSystem, f: OpenFile): nat
    requires Usable(fs, f)
    reads fs, f, f.ip
  {
    Free(fs.Volume()) + BlocksUsed(|Text(fs, f)|)
  }

  /** fileread: the next bytes, and the offset moves past them. */
  method FileRead(fs: FileSystem, f: OpenFile, n: word) returns (r: int, dst: seq<byte>)
    requires Usable(fs, f)
    modifies fs, f, f.ip
    ensures Usable(fs, f) && fs.Volume() == old(fs.Volume()) && fs.logged == old(fs.logged)
    ensures r == -1 <==> old(f.off) > |Text(fs, f)| || old(f.off) + n >= UINT
    ensures r == -1 ==> f.off == old(f.off)
    ensures r != -1 ==> r >= 0 && f.off == old(f.off) + r && f.off <= |Text(fs, f)|
    ensures r != -1 ==> dst == Text(fs, f)[old(f.off)..f.off]
    ensures r != -1 ==> r == n || f.off == |Text(fs, f)|
  {
    r, dst := fs.Readi(f.ip, f.off, n);
    if r > 0 {
      f.off := f.off + r;
    }
  }

  /** One turn of filewrite's loop: one transaction. */
  method WriteChunk(fs: FileSystem, f: OpenFile, src: seq<byte>) returns (ok: bool, r: int)
    requires Usable(fs, f) && |src| <= MAXCHUNK
    modifies fs, f, f.ip
    ensures ok ==> Usable(fs, f) && |fs.logged| <= MAXOPBLOCKS
    ensures ok ==> r == if BadWrite(|old(Text(fs, f))|, old(f.off), |src|) then -1 else |src|
    ensures ok && r == -1 ==> fs.Volume() == old(fs.Volume()) && f.off == old(f.off)
    ensures ok && r != -1 ==> Text(fs, f) == Splice(old(Text(fs, f)), old(f.off), src) && f.off == old(f.off) + |src|
    ensures ok ==> forall j: nat :: j < fs.sb.ninodes && j != f.ip.inum ==> SameFile(old(fs.Volume()), fs.Volume(), j)
    ensures ok ==> f.ip.d == old(f.ip.d).(addrs := f.ip.d.addrs, size := f.ip.d.size)
    ensures ok <==> || BadWrite(|old(Text(fs, f))|, old(f.off), |src|)
                    || Affords(old(fs.Volume()), |old(Text(fs, f))|, old(f.off), |src|)
    ensures ok ==> Worth(fs, f) == old(Worth(fs, f))
    ensures Tracked(fs.sb, old(fs.blocks), {}, fs.blocks, fs.logged)
  {
    fs.logged := {};   // begin_op
    assert SizeOk(fs.Volume(), f.ip.inum);
    ghost var added;
    ok, r, added := fs.Writei(f.ip, src, f.off);
    if !ok { return; }
    ChunkFitsLog(f.off, |src|);
    NoMore(fs.logged, added);
    if r > 0 {
      f.off := f.off + r;
    }
  }

  /** How many of n bytes at `off` filewrite takes: all if they fit the largest file, else whole chunks. */
  function Accepted(off: nat, n: nat): nat {
    if off + n <= MAXFILE * BSIZE then n
    else if off > MAXFILE * BSIZE then 0
    else (MAXFILE * BSIZE - off) / MAXCHUNK * MAXCHUNK
  }

  /** A chunk that fits the largest file is among those accepted. */
  lemma AcceptedNext(off: nat, n: nat, i: nat, next: nat)
    requires i < n && OnChunk(i, n) && next == i + Least(MAXCHUNK, n - i)
    ensures off + next <= MAXFILE * BSIZE ==> next <= Accepted(off, n)
    ensures off + i <= MAXFILE * BSIZE < off + next ==> i == Accepted(off, n)
  {
    var room := MAXFILE * BSIZE - off;
    if off + next <= MAXFILE * BSIZE < off + n {
      WholeChunks(room, i);
    } else if off + i <= MAXFILE * BSIZE < off + next {
      WholeChunks(room, i);
    }
  }

  lemma WholeChunks(room: nat, i: nat)
    requires i % MAXCHUNK == 0 && i <= room
    ensures i + MAXCHUNK <= room ==> i + MAXCHUNK <= room / MAXCHUNK * MAXCHUNK
    ensures room < i + MAXCHUNK ==> i == room / MAXCHUNK * MAXCHUNK
  {
    assert MAXCHUNK == 1536;
    var t, q := i / 1536, room / 1536;
    assert i == 1536 * t && room == 1536 * q + room % 1536;
  }

  lemma Unaffordable(v: Vol, size: nat, off: nat, a: nat, b: nat)
    requires a <= b && !Affords(v, size, off, a)
    ensures !Affords(v, size, off, b)
  {
    BlocksForMono(SizeAfter(size, off, a), SizeAfter(size, off, b));
  }

  /** filewrite: chunk after chunk.  `done` bytes go in at the offset: all of them when the whole range is
      acceptable, else whole chunks up to the largest file size, and none past the end of the file.  `ok` is
      false where balloc panics, which is exactly when the file cannot grow that far on the free blocks.  Each chunk
      is a transaction of its own, which logs all it changes and no more than MAXOPBLOCKS blocks. */
  method FileWrite(fs: FileSystem, f: OpenFile, src: seq<byte>)
    returns (ok: bool, r: int, ghost done: nat, ghost txns: seq<Done>)
    requires Usable(fs, f)
    modifies fs, f, f.ip
    ensures ok ==> Usable(fs, f) && done <= |src| && f.off == old(f.off) + done
    ensures ok ==> r == if done == |src| then |src| else -1
    ensures ok ==> done == if old(f.off) <= |old(Text(fs, f))| then Accepted(old(f.off), |src|) else 0
    ensures ok && old(f.off) <= |old(Text(fs, f))| ==> Text(fs, f) == Splice(old(Text(fs, f)), old(f.off), src[..done])
    ensures ok && old(f.off) > |old(Text(fs, f))| ==> fs.Volume() == old(fs.Volume())
    ensures ok ==> forall j: nat :: j < fs.sb.ninodes && j != f.ip.inum ==> SameFile(old(fs.Volume()), fs.Volume(), j)
    ensures ok ==> f.ip.d == old(f.ip.d).(addrs := f.ip.d.addrs, size := f.ip.d.size)
    ensures ok <==> || old(f.off) > |old(Text(fs, f))|
                    || Affords(old(fs.Volume()), |old(Text(fs, f))|, old(f.off), Accepted(old(f.off), |src|))
    ensures ok ==> Worth(fs, f) == old(Worth(fs, f))
    ensures ok ==> Group(old(fs.Volume()), txns) && Before(old(fs.Volume()), txns, |txns|) == fs.Volume()
    ensures ok ==> |txns| == (done + 1535) / 1536
    ensures ok ==> forall i: nat :: i < |txns| ==>
              ChunkAt(old(fs.Volume()), txns, i, f.ip.inum, old(Text(fs, f)), old(f.off), src)
  {
    ghost var v, text, off := fs.Volume(), Text(fs, f), f.off;
    SizeBound(v, f.ip.inum);
    var i;
    ok, i, txns := WriteRounds(fs, f, src, v, text, off);
    done, r := i, if i == |src| then |src| else -1;
    if ok {
      ChunkCount(|txns|, i, |src|);
    }
  }

  /** Transaction i of a filewrite: it keeps within its share of the log, and leaves the file with i + 1 chunks. */
  ghost predicate ChunkAt(v: Vol, txns: seq<Done>, i: nat, inum: nat, text: seq<byte>, off: nat, src: seq<byte>)
    requires i < |txns|
  {
    var u := txns[i].after;
    && |txns[i].logged| <= MAXOPBLOCKS && off <= |text|
    && Good(u) && inum < u.sb.ninodes && SizeOk(u, inum)
    && Content(u, inum) == Splice(text, off, src[..Least((i + 1) * MAXCHUNK, |src|)])
  }

  /** The transactions of the first i bytes. */
  ghost predicate Chunked(v: Vol, txns: seq<Done>, inum: nat, text: seq<byte>, off: nat, src: seq<byte>, i: nat) {
    && Group(v, txns) && i == Least(|txns| * MAXCHUNK, |src|) && (txns == [] || (|txns| - 1) * MAXCHUNK < i)
    && forall k: nat :: k < |txns| ==> ChunkAt(v, txns, k, inum, text, off, src)
  }

  lemma ChunkCount(n: nat, i: nat, len: nat)
    requires i == Least(n * MAXCHUNK, len) && (n == 0 || (n - 1) * MAXCHUNK < i)
    ensures n == (i + MAXCHUNK - 1) / MAXCHUNK
  {
    assert MAXCHUNK == 1536;
  }

  lemma ChunkedMore(v: Vol, txns: seq<Done>, op: Done, inum: nat, text: seq<byte>, off: nat, src: seq<byte>, i: nat,
                    next: nat)
    requires Chunked(v, txns, inum, text, off, src, i) && i < |src| && next == i + Least(MAXCHUNK, |src| - i)
    requires Settled(op.after) && op.after.sb == v.sb && |op.logged| <= MAXOPBLOCKS && off <= |text|
    requires Tracked(v.sb, Before(v, txns, |txns|).blocks, {}, op.after.blocks, op.logged)
    requires inum < v.sb.ninodes && SizeOk(op.after, inum)
    requires Content(op.after, inum) == Splice(text, off, src[..next])
    ensures Chunked(v, txns + [op], inum, text, off, src, next)
  {
    GroupMore(v, txns, op);
    OneChunkMore(|txns|, i, |src|, next);
    forall k: nat | k < |txns + [op]| ensures ChunkAt(v, txns + [op], k, inum, text, off, src) {
      if k < |txns| {
        assert ChunkAt(v, txns, k, inum, text, off, src);
      }
    }
  }

  lemma OneChunkMore(n: nat, i: nat, len: nat, next: nat)
    requires i == Least(n * MAXCHUNK, len) && (n == 0 || (n - 1) * MAXCHUNK < i) && i < len
    requires next == i + Least(MAXCHUNK, len - i)
    ensures next == Least((n + 1) * MAXCHUNK, len) && n * MAXCHUNK < next
  {
    assert MAXCHUNK == 1536;
  }

  /** filewrite's loop. */
  method WriteRounds(fs: FileSystem, f: OpenFile, src: seq<byte>, ghost v: Vol, ghost text: seq<byte>, ghost off: nat)
    returns (ok: bool, i: nat, ghost txns: seq<Done>)
    requires Progress(fs, f, v, text, off, []) && |text| <= MAXFILE * BSIZE
    modifies fs, f, f.ip
    ensures ok ==> i <= |src| && Progress(fs, f, v, text, off, src[..i])
    ensures ok ==> i == if off <= |text| then Accepted(off, |src|) else 0
    ensures ok <==> off > |text| || Affords(v, |text|, off, Accepted(off, |src|))
    ensures ok ==> Chunked(v, txns, f.ip.inum, text, off, src, i) && Before(v, txns, |txns|) == fs.Volume()
  {
    ok, i, txns := true, 0, [];
    assert src[..0] == [];
    while i < |src|
      invariant ok && i <= |src| && OnChunk(i, |src|) && Progress(fs, f, v, text, off, src[..i])
      invariant Chunked(v, txns, f.ip.inum, text, off, src, i) && Before(v, txns, |txns|) == fs.Volume()
    {
      var r, next;
      ok, r, next := WriteRound(fs, f, v, text, off, src, i);
      AcceptedNext(off, |src|, i, next);
      if !ok {
        Unaffordable(v, |text|, off, next, Accepted(off, |src|));
        return;
      }
      if r < 0 {
        break;
      }
      ChunkedMore(v, txns, Done(fs.Volume(), fs.logged), f.ip.inum, text, off, src, i, next);
      txns := txns + [Done(fs.Volume(), fs.logged)];
      i := next;
    }
    AffordsDone(fs, f, v, text, off, src[..i]);
  }

  lemma AffordsDone(fs: FileSystem, f: OpenFile, v: Vol, text: seq<byte>, off: nat, done: seq<byte>)
    requires Progress(fs, f, v, text, off, done)
    ensures off <= |text| ==> Affords(v, |text|, off, |done|)
  {
    if off <= |text| {
      assert |Text(fs, f)| == SizeAfter(|text|, off, |done|);
    }
  }

  /** filewrite has put `done` into a file that held `text` at `off`. */
  ghost predicate Progress(fs: FileSystem, f: OpenFile, v: Vol, text: seq<byte>, off: nat, done: seq<byte>)
    reads fs, f, f.ip
  {
    && Usable(fs, f) && Settled(v) && v.sb == fs.sb && f.off == off + |done|
    && (if off <= |text| then Text(fs, f) == Splice(text, off, done) else done == [])
    && (done == [] ==> fs.Volume() == v && Text(fs, f) == text)
    && (done != [] ==> off + |done| <= MAXFILE * BSIZE)
    && Worth(fs, f) == Free(v) + BlocksUsed(|text|)
    && f.ip.d == v.inodes[f.ip.inum].(addrs := f.ip.d.addrs, size := f.ip.d.size)
    && (forall j: nat :: j < fs.sb.ninodes && j != f.ip.inum ==> SameFile(v, fs.Volume(), j))
  }

  /** The next chunk of a filewrite in progress. */
  method NextWrite(fs: FileSystem, f: OpenFile, ghost v: Vol, ghost text: seq<byte>, ghost off: nat,
                   ghost done: seq<byte>,
                   chunk: seq<byte>)
    returns (ok: bool, r: int)
    requires Progress(fs, f, v, text, off, done) && 0 < |chunk| <= MAXCHUNK
    modifies fs, f, f.ip
    ensures ok ==> r == if off > |text| || off + |done| + |chunk| > MAXFILE * BSIZE then -1 else |chunk|
    ensures ok ==> Progress(fs, f, v, text, off, if r == -1 then done else done + chunk)
    ensures !ok ==> off <= |text| && off + |done| + |chunk| <= MAXFILE * BSIZE
    ensures !ok ==> !Affords(v, |text|, off, |done| + |chunk|)
    ensures ok && r == -1 ==> fs.Volume() == old(fs.Volume())
    ensures ok ==> |fs.logged| <= MAXOPBLOCKS && Tracked(fs.sb, old(fs.blocks), {}, fs.blocks, fs.logged)
  {
    ghost var v1 := fs.Volume();
    AffordsOn(fs, f, v, text, off, done, |chunk|);
    ok, r := WriteChunk(fs, f, chunk);
    if !ok || r == -1 { return; }
    SpliceOn(text, off, done, chunk);
    forall j: nat | j < fs.sb.ninodes && j != f.ip.inum ensures SameFile(v, fs.Volume(), j) {
      SameFileTrans(v, v1, fs.Volume(), j);
    }
  }

  lemma AffordsOn(fs: FileSystem, f: OpenFile, v: Vol, text: seq<byte>, off: nat, done: seq<byte>, n: nat)
    requires Progress(fs, f, v, text, off, done) && 0 < n <= MAXCHUNK
    ensures BadWrite(|Text(fs, f)|, f.off, n) <==> off > |text| || off + |done| + n > MAXFILE * BSIZE
    ensures off <= |text| ==> (Affords(fs.Volume(), |Text(fs, f)|, f.off, n) <==> Affords(v, |text|, off, |done| + n))
  {
    if off <= |text| {
      assert |Text(fs, f)| == SizeAfter(|text|, off, |done|);
      assert SizeAfter(|Text(fs, f)|, f.off, n) == SizeAfter(|text|, off, |done| + n);
    }
  }

  /** One turn of filewrite's loop, at byte i of `src`. */
  method WriteRound(fs: FileSystem, f: OpenFile, ghost v: Vol, ghost text: seq<byte>, ghost off: nat, src: seq<byte>,
                    i: nat)
    returns (ok: bool, r: int, next: nat)
    requires i < |src| && OnChunk(i, |src|) && Progress(fs, f, v, text, off, src[..i])
    modifies fs, f, f.ip
    ensures i < next <= |src| && next == i + Least(MAXCHUNK, |src| - i) && OnChunk(next, |src|)
    ensures ok ==> r == if off > |text| || off + next > MAXFILE * BSIZE then -1 else next - i
    ensures ok ==> Progress(fs, f, v, text, off, src[..if r == -1 then i else next])
    ensures !ok ==> off <= |text| && off + next <= MAXFILE * BSIZE && !Affords(v, |text|, off, next)
    ensures ok && r == -1 ==> fs.Volume() == old(fs.Volume())
    ensures ok ==> |fs.logged| <= MAXOPBLOCKS && Tracked(fs.sb, old(fs.blocks), {}, fs.blocks, fs.logged)
  {
    var n1 := if |src| - i > MAXCHUNK then MAXCHUNK else |src| - i;
    next := i + n1;
    NextChunk(i, |src|, next);
    assert src[..next] == src[..i] + src[i..next];
    ok, r := NextWrite(fs, f, v, text, off, src[..i], src[i..next]);
  }

  /** Laying bytes down in two runs is laying them down in one. */
  lemma SpliceOn(text: seq<byte>, off: nat, a: seq<byte>, b: seq<byte>)
    requires off <= |text|
    ensures Splice(Splice(text, off, a), off + |a|, b) == Splice(text, off, a + b)
  {
  }

  predicate OnChunk(i: nat, n: nat) {
    i < n ==> i % MAXCHUNK == 0
  }

  lemma NextChunk(i: nat, n: nat, next: nat)
    requires i < n && OnChunk(i, n) && next == i + Least(MAXCHUNK, n - i)
    ensures i < next <= n && next - i <= MAXCHUNK && OnChunk(next, n)
  {
  }
}
