/** The write-ahead log: group commit and recovery over the block cache (system/storage/log.c).
    A method that returns false stands for the machine stopping in bget's panic: the writes made so
    far are then a prefix of the ones promised, which is what a crash leaves as well. */
module Log {
  import opened Params
  import opened Bytes
  import opened LogCrash
  import opened BufferCache
  import opened LogAdmission
  import opened Sets

  /** Block writes that copy log block i to the i-th block of a list. */
  function Installs(g: Geometry, list: seq<word>, d: Disk): (ws: seq<Write>)
    requires g.Covers(d) && |list| <= LOGSIZE
  {
    seq(|list|, i requires 0 <= i < |list| => Write(list[i], d[g.start + 1 + i]))
  }

  /** What commit or recovery starts from: the writes made so far, the disk, the recorded contents and the
      dirty blocks. */
  datatype Start = Start(trace: seq<Write>, disk: Disk, latest: Disk, dirty: set<nat>) {
    /** After writes that clean nothing. */
    ghost function After(ws: seq<Write>): Start {
      Start(trace + ws, ReplayTo(disk, ws, |ws|), ReplayTo(latest, ws, |ws|), dirty)
    }
  }

  class Log {
    const cache: BCache
    const g: Geometry
    var lh: seq<word>          // lh.block[0..lh.n], the in-memory header
    var outstanding: int
    var committing: bool

    constructor (cache: BCache, g: Geometry)
      ensures this.cache == cache && this.g == g && lh == [] && outstanding == 0 && !committing
    {
      this.cache, this.g, lh := cache, g, [];
      outstanding, committing := 0, false;
    }

    /** The in-memory header names home blocks. */
    ghost predicate Listing(disk: Disk)
      reads this
    {
      |lh| <= LOGSIZE && g.Covers(disk) && forall i :: 0 <= i < |lh| ==> lh[i] in disk && !g.InLog(lh[i])
    }

    /** The dirty blocks are exactly those the in-memory header names, each once. */
    ghost predicate Pinned(dirty: set<nat>)
      reads this
    {
      NoRepeat(lh) && dirty == BlocksFrom(lh, 0)
    }

    ghost predicate ListOk(disk: Disk, dirty: set<nat>)
      reads this
    {
      Listing(disk) && Pinned(dirty)
    }

    /** The cache is sound and nobody uses a buffer. */
    ghost predicate Quiet()
      reads cache, cache.ide
    {
      cache.Listed() && cache.Valid() && cache.Idle()
    }

    ghost predicate Ready()
      reads this, cache, cache.ide
    {
      Quiet() && ListOk(cache.ide.disk, cache.Dirty())
    }

    /** What installation starts from: a transaction that is pinned in the cache, or, in recovery, a header
        just read and nothing dirty. */
    ghost predicate Loaded()
      reads this, cache, cache.ide
    {
      Quiet() && Listing(cache.ide.disk) && (cache.Dirty() == {} || Pinned(cache.Dirty()))
    }

    lemma PinnedSize()
      requires Pinned(cache.Dirty())
      ensures |cache.Dirty()| == |lh|
    {
      BlocksCount(lh, 0);
    }

    /** Copy a log block to a home block or back, through the cache: the loop body that install_trans
        and write_log share.  Both read the log block first.  It needs one buffer that is not dirty, and
        another one only if the home block is not dirty. */
    method CopyBlock(logb: nat, home: nat, install: bool) returns (ok: bool)
      requires Quiet() && logb in cache.ide.disk && home in cache.ide.disk && logb != home
      requires logb !in cache.Dirty() && (home in cache.Dirty() || |cache.Dirty()| + 1 < NBUF)
      modifies cache, cache.ide
      ensures ok <==> |old(cache.Dirty())| < NBUF
      ensures !ok ==> cache.ide.trace == old(cache.ide.trace) && cache.ide.disk == old(cache.ide.disk)
      ensures ok ==> Quiet()
      ensures ok ==> var (src, dst) := if install then (logb, home) else (home, logb);
                     && cache.latest == old(cache.latest)[dst := old(cache.latest)[src]]
                     && cache.ide.disk == old(cache.ide.disk)[dst := old(cache.latest)[src]]
                     && cache.ide.trace == old(cache.ide.trace) + [Write(dst, old(cache.latest)[src])]
                     && cache.Dirty() == old(cache.Dirty()) - {dst}
    {
      ok := false;
      FullCache(logb);
      var a := cache.Bread(logb);
      if a == HEAD { return; }
      assert CountAt(old(cache.buf), {}, a);
      InUseNow(old(cache.buf), {}, cache.buf, {a}, a);
      SecondBuffer(a, home);
      ghost var was := cache.buf;
      var b := cache.Bread(home);
      assert CountAt(was, {a}, b);
      InUseNow(was, {a}, cache.buf, {a, b}, b);
      if install {
        Move(a, b);
      } else {
        Move(b, a);
      }
      ok := true;
    }

    /** bread of a block that is not dirty, on an idle cache, fails exactly if every buffer is dirty. */
    lemma FullCache(n: nat)
      requires Quiet() && n !in cache.Dirty()
      ensures !cache.Cached(n) && cache.Full() <==> |cache.Dirty()| == NBUF
      ensures |cache.Dirty()| <= NBUF && cache.Held() == {}
    {
      cache.FullWhenIdle();
      if |cache.Dirty()| == NBUF {
        cache.DirtyFillsCache(n);
      }
    }

    lemma SecondBuffer(a: nat, home: nat)
      requires cache.Valid() && a < NBUF && InUse(cache.buf, {a})
      requires home in cache.Dirty() || |cache.Dirty()| + 1 < NBUF
      ensures cache.Cached(home) || !cache.Full()
    {
      if home in cache.Dirty() {
        cache.DirtyIsCached(home);
      } else {
        cache.RoomForTwo(a);
      }
    }

    /** memmove between two locked buffers, bwrite the target, release both. */
    method Move(from: nat, to: nat)
      requires cache.Listed() && cache.Valid() && from != to && cache.Held() == {from, to}
      requires from < |cache.buf| && cache.Holds(from, cache.buf[from].blockno)
      requires cache.buf[from].blockno in cache.latest
      requires to < |cache.buf| && cache.Holds(to, cache.buf[to].blockno)
      requires cache.buf[from].data == cache.latest[cache.buf[from].blockno]
      requires cache.buf[from].blockno != cache.buf[to].blockno
      requires InUse(cache.buf, {from, to})
      modifies cache, cache.ide
      ensures Quiet()
      ensures var dst, data := old(cache.buf[to].blockno), old(cache.buf[from].data);
              && cache.latest == old(cache.latest)[dst := data]
              && cache.ide.disk == old(cache.ide.disk)[dst := data]
              && cache.ide.trace == old(cache.ide.trace) + [Write(dst, data)]
              && cache.Dirty() == old(cache.Dirty()) - {dst}
    {
      ghost var was, both := cache.buf, {from, to};
      assert CountAt(was, both, from) && CountAt(was, both, to);
      cache.SetData(to, cache.buf[from].data);
      cache.Bwrite(to);
      InUseNow(was, both, cache.buf, both, to);
      was := cache.buf;
      cache.Brelse(from);
      InUseNow(was, both, cache.buf, {to}, from);
      was := cache.buf;
      cache.Brelse(to);
      InUseNow(was, {to}, cache.buf, {}, to);
    }

    ghost function Now(): Start
      reads cache, cache.ide
    {
      Start(cache.ide.trace, cache.ide.disk, cache.latest, cache.Dirty())
    }

    /** The cache is idle after the first k of a planned sequence of writes, and these blocks are dirty. */
    ghost predicate Done(ws: seq<Write>, k: nat, s: Start, dirty: set<nat>)
      requires k <= |ws|
      reads cache, cache.ide
    {
      && Quiet() && cache.Dirty() == dirty && cache.ide.disk.Keys == s.latest.Keys
      && cache.ide.trace == s.trace + ws[..k]
      && cache.ide.disk == ReplayTo(s.disk, ws, k)
      && cache.latest == ReplayTo(s.latest, ws, k)
    }

    lemma NothingDone(ws: seq<Write>, s: Start)
      requires Quiet() && s == Now()
      ensures Done(ws, 0, s, s.dirty)
    {
      assert s.trace + ws[..0] == s.trace;
    }

    /** The machine has stopped with the disk as it was. */
    ghost predicate Unwritten(s: Start)
      reads cache.ide
    {
      cache.ide.trace == s.trace && cache.ide.disk == s.disk
    }

    /** CopyBlock as the k-th of a planned sequence of writes. */
    method CopyNext(logb: nat, home: nat, install: bool, ghost ws: seq<Write>, ghost k: nat, ghost s: Start,
                    ghost dirty: set<nat>) returns (ok: bool)
      requires k < |ws| && Done(ws, k, s, dirty)
      requires logb in cache.ide.disk && home in cache.ide.disk && logb != home
      requires logb !in dirty && (home in dirty || |dirty| + 1 < NBUF)
      requires ws[k] == if install then Write(home, cache.latest[logb]) else Write(logb, cache.latest[home])
      modifies cache, cache.ide
      ensures ok <==> |dirty| < NBUF
      ensures !ok ==> cache.ide.trace == s.trace + ws[..k] && cache.ide.disk == ReplayTo(s.disk, ws, k)
      ensures ok ==> Done(ws, k + 1, s, dirty - {ws[k].block})
    {
      ok := CopyBlock(logb, home, install);
      assert s.trace + ws[..k + 1] == s.trace + ws[..k] + [ws[k]];
    }

    /** The blocks still dirty before round k of install_trans. */
    ghost function Left(dirty: set<nat>, k: nat): set<nat>
      requires k <= |lh|
      reads this
    {
      if dirty == {} then {} else BlocksFrom(lh, k)
    }

    /** install_trans: copy each log block to the home block the in-memory header names.  It completes
        exactly if there is nothing to copy or some buffer is not dirty, and otherwise stops before any write. */
    method InstallTrans(ghost s: Start) returns (ok: bool)
      requires Loaded() && s == Now()
      modifies cache, cache.ide
      ensures ok <==> lh == [] || |s.dirty| < NBUF
      ensures ok ==> Done(Installs(g, lh, s.latest), |lh|, s, {})
      ensures !ok ==> Unwritten(s)
    {
      ok := true;
      NothingDone(Installs(g, lh, s.latest), s);
      var tail := 0;
      while tail < |lh|
        invariant 0 <= tail <= |lh| && (tail > 0 ==> |s.dirty| < NBUF)
        invariant Done(Installs(g, lh, s.latest), tail, s, Left(s.dirty, tail))
      {
        ok := InstallNext(tail, s);
        if !ok { return; }
        tail := tail + 1;
      }
    }

    /** One round of install_trans. */
    method InstallNext(tail: nat, ghost s: Start) returns (ok: bool)
      requires tail < |lh| && Listing(s.latest) && (s.dirty == {} || Pinned(s.dirty)) && (tail > 0 ==> |s.dirty| < NBUF)
      requires Done(Installs(g, lh, s.latest), tail, s, Left(s.dirty, tail))
      modifies cache, cache.ide
      ensures ok <==> |s.dirty| < NBUF
      ensures ok ==> Done(Installs(g, lh, s.latest), tail + 1, s, Left(s.dirty, tail + 1))
      ensures !ok ==> Unwritten(s)
    {
      ghost var ws := Installs(g, lh, s.latest);
      InstallSource(g, lh, s.latest, tail);
      InstallRoom(s.dirty, tail);
      var logb := g.start + tail + 1;
      ReplayToFrame(s.latest, ws, tail, logb);
      assert g.InLog(logb) && logb in cache.ide.disk;
      ok := CopyNext(logb, lh[tail], true, ws, tail, s, Left(s.dirty, tail));
    }

    /** Before round k the home block is still dirty, unless nothing is. */
    lemma InstallRoom(dirty: set<nat>, k: nat)
      requires k < |lh| && (forall i :: 0 <= i < |lh| ==> !g.InLog(lh[i])) && (dirty == {} || Pinned(dirty))
      ensures lh[k] in Left(dirty, k) || |Left(dirty, k)| + 1 < NBUF
      ensures |Left(dirty, k)| <= |dirty| && (k == 0 ==> Left(dirty, k) == dirty)
      ensures Left(dirty, k) - {lh[k]} == Left(dirty, k + 1)
      ensures forall b :: g.InLog(b) ==> b !in Left(dirty, k)
    {
      if dirty != {} {
        BlocksCount(lh, 0);
        BlocksCount(lh, k);
        BlocksAre(lh, k);
      }
    }

    /** write_log: copy each block the in-memory header names, as cached, to its log block.  It completes
        exactly if some buffer is not dirty, and otherwise stops before any write. */
    method WriteLog(ghost s: Start, ghost t: Txn) returns (ok: bool)
      requires Ready() && s == Now() && t == Current()
      modifies cache, cache.ide
      ensures ok <==> |t.list| < NBUF
      ensures ok ==> Done(LogWrites(g, t), |t.list|, s, s.dirty)
      ensures !ok ==> Unwritten(s)
    {
      PinnedSize();
      NothingDone(LogWrites(g, t), s);
      ok := LogAll(s, LogWrites(g, t));
    }

    /** The writes planned for write_log. */
    ghost predicate Planned(s: Start, ws: seq<Write>)
      reads this
    {
      ListOk(s.latest, s.dirty) && ws == LogWrites(g, Txn(lh, s.latest))
    }

    /** The loop of write_log. */
    method LogAll(ghost s: Start, ghost ws: seq<Write>) returns (ok: bool)
      requires Planned(s, ws) && |s.dirty| == |lh| == |ws| && Done(ws, 0, s, s.dirty)
      modifies cache, cache.ide
      ensures ok <==> |lh| < NBUF
      ensures ok ==> Done(ws, |lh|, s, s.dirty)
      ensures !ok ==> Unwritten(s)
    {
      ok := true;
      var tail := 0;
      while tail < |lh|
        invariant 0 <= tail <= |lh| && (tail > 0 ==> |s.dirty| < NBUF)
        invariant Done(ws, tail, s, s.dirty)
      {
        ok := LogNext(tail, s, ws);
        if !ok { return; }
        tail := tail + 1;
      }
    }

    /** One round of write_log. */
    method LogNext(tail: nat, ghost s: Start, ghost ws: seq<Write>) returns (ok: bool)
      requires Planned(s, ws) && tail < |lh| == |ws| && (tail > 0 ==> |s.dirty| < NBUF)
      requires Done(ws, tail, s, s.dirty)
      modifies cache, cache.ide
      ensures ok <==> |s.dirty| < NBUF
      ensures ok ==> Done(ws, tail + 1, s, s.dirty)
      ensures !ok ==> Unwritten(s)
    {
      LogSource(g, lh, s.latest, tail);
      BlocksAre(lh, 0);
      var logb := g.start + tail + 1;
      assert g.InLog(logb) && logb in cache.ide.disk;
      assert s.dirty - {logb} == s.dirty;
      ok := CopyNext(logb, lh[tail], false, ws, tail, s, s.dirty);
    }

    /** write_head's stores into the header block. */
    method FillHead(was: Block) returns (hb: Block)
      requires |lh| <= LOGSIZE
      ensures hb == EncodeHead(was, lh, |lh|)
    {
      hb := PutWord(was, 0, |lh|);
      for i := 0 to |lh|
        invariant hb == EncodeHead(was, lh[..i], |lh|)
      {
        hb := PutWord(hb, 4 + 4 * i, lh[i]);
        assert lh[..i + 1][..i] == lh[..i];
      }
      assert lh[..|lh|] == lh;
    }

    /** Fill the only locked buffer, write it out and release it. */
    method Store(b: nat, data: Block)
      requires cache.Listed() && cache.Valid() && cache.Held() == {b}
      requires b < |cache.buf| && cache.Holds(b, cache.buf[b].blockno) && cache.buf[b].blockno !in cache.Dirty()
      requires InUse(cache.buf, {b})
      modifies cache, cache.ide
      ensures Quiet()
      ensures var n := old(cache.buf[b].blockno);
              && cache.latest == old(cache.latest)[n := data]
              && cache.ide.disk == old(cache.ide.disk)[n := data]
              && cache.ide.trace == old(cache.ide.trace) + [Write(n, data)]
              && cache.Dirty() == old(cache.Dirty())
    {
      ghost var was := cache.buf;
      assert CountAt(was, {b}, b);
      cache.SetData(b, data);
      cache.Bwrite(b);
      cache.Brelse(b);
      InUseNow(was, {b}, cache.buf, {}, b);
    }

    /** write_head: store the in-memory header over the header block and write it out. */
    method WriteHead() returns (ok: bool)
      requires Quiet() && g.Covers(cache.ide.disk) && |lh| <= LOGSIZE && g.start !in cache.Dirty()
      modifies cache, cache.ide
      ensures ok <==> |old(cache.Dirty())| < NBUF
      ensures !ok ==> cache.ide.trace == old(cache.ide.trace) && cache.ide.disk == old(cache.ide.disk)
      ensures ok ==> Quiet()
      ensures ok ==> var h := EncodeHead(old(cache.latest[g.start]), lh, |lh|);
                     && cache.ide.trace == old(cache.ide.trace) + [Write(g.start, h)]
                     && cache.latest == old(cache.latest)[g.start := h]
                     && cache.ide.disk == old(cache.ide.disk)[g.start := h]
                     && cache.Dirty() == old(cache.Dirty())
    {
      ok := false;
      FullCache(g.start);
      var b := cache.Bread(g.start);
      if b == HEAD { return; }
      assert CountAt(old(cache.buf), {}, b);
      InUseNow(old(cache.buf), {}, cache.buf, {b}, b);
      var hb := FillHead(cache.buf[b].data);
      Store(b, hb);
      ok := true;
    }

    /** read_head: load the in-memory header from the header block. */
    method ReadHead() returns (ok: bool)
      requires Quiet() && g.Covers(cache.ide.disk) && g.start !in cache.Dirty()
      requires HeadCount(cache.latest[g.start]) <= LOGSIZE
      modifies this`lh, cache, cache.ide
      ensures cache.ide.trace == old(cache.ide.trace) && cache.ide.disk == old(cache.ide.disk)
      ensures ok <==> |old(cache.Dirty())| < NBUF
      ensures ok ==> Quiet() && cache.latest == old(cache.latest) && cache.Dirty() == old(cache.Dirty())
      ensures ok ==> lh == HeadList(cache.latest[g.start], HeadCount(cache.latest[g.start]))
    {
      ok := false;
      FullCache(g.start);
      var b := cache.Bread(g.start);
      if b == HEAD { return; }
      assert CountAt(old(cache.buf), {}, b);
      var h := cache.buf[b].data;
      var list: seq<word> := [];
      for i := 0 to HeadCount(h)
        invariant list == HeadList(h, i)
      {
        list := list + [HeadBlock(h, i)];
      }
      lh := list;
      cache.Brelse(b);
      InUseNow(old(cache.buf), {}, cache.buf, {}, b);
      ok := true;
    }

    /** The transaction the in-memory header and the cache hold. */
    ghost function Current(): Txn
      reads this, cache
    {
      Txn(lh, cache.latest)
    }

    lemma HeadClean()
      requires Ready()
      ensures g.start !in cache.Dirty() && cache.latest[g.start] == cache.ide.disk[g.start]
    {
      assert g.InLog(g.start);
      BlocksAre(lh, 0);
      cache.CleanAgrees(g.start);
    }

    /** The first k writes of two plans are the same. */
    lemma DoneOn(ws: seq<Write>, plan: seq<Write>, k: nat, s: Start, dirty: set<nat>)
      requires k <= |ws| && k <= |plan| && plan[..k] == ws[..k] && Done(ws, k, s, dirty)
      ensures Done(plan, k, s, dirty)
    {
      SamePrefix(s.disk, ws, plan, k);
      SamePrefix(s.latest, ws, plan, k);
    }

    /** write_head as the k-th of a planned sequence of writes. */
    method HeadNext(ghost ws: seq<Write>, ghost k: nat, ghost s: Start, ghost dirty: set<nat>) returns (ok: bool)
      requires k < |ws| && Done(ws, k, s, dirty) && g.Covers(cache.ide.disk) && |lh| <= LOGSIZE
      requires g.start !in dirty && ws[k] == Write(g.start, EncodeHead(cache.latest[g.start], lh, |lh|))
      modifies cache, cache.ide
      ensures ok <==> |dirty| < NBUF
      ensures ok ==> Done(ws, k + 1, s, dirty)
    {
      ok := WriteHead();
      assert s.trace + ws[..k + 1] == s.trace + ws[..k] + [ws[k]];
    }

    /** The first half of commit: the log blocks, then the header. */
    method CommitLog(ghost s: Start, ghost t: Txn) returns (ok: bool)
      requires Ready() && s == Now() && t == Current() && Empty(g, s.latest) && TxnOk(g, s.latest, t)
      modifies cache, cache.ide
      ensures ok <==> |t.list| < NBUF
      ensures ok ==> Done(LogPart(g, s.latest, t), |t.list| + 1, s, s.dirty)
      ensures !ok ==> Unwritten(s)
    {
      PinnedSize();
      HeadClean();
      ok := WriteLog(s, t);
      if ok {
        HeadReady(s, t);
        ok := HeadNext(LogPart(g, s.latest, t), |t.list|, s, s.dirty);
      }
    }

    /** What write_head finds after write_log. */
    lemma HeadReady(s: Start, t: Txn)
      requires Empty(g, s.latest) && TxnOk(g, s.latest, t) && t.list == lh
      requires Done(LogWrites(g, t), |t.list|, s, s.dirty)
      ensures Done(LogPart(g, s.latest, t), |t.list|, s, s.dirty) && g.Covers(cache.ide.disk) && g.start in cache.latest
      ensures LogPart(g, s.latest, t)[|t.list|] == Write(g.start, EncodeHead(cache.latest[g.start], lh, |lh|))
    {
      var ws, plan := LogWrites(g, t), LogPart(g, s.latest, t);
      LogPartHead(g, s.latest, t);
      ReplayToAll(s.latest, ws);
      assert ws[..|t.list|] == plan[..|t.list|];
      DoneOn(ws, plan, |t.list|, s, s.dirty);
    }

    /** The second half of commit, and all of recovery once the header is in memory: install, then
        clear the header. */
    method InstallAndClear(ghost s: Start) returns (ok: bool)
      requires Loaded() && s == Now() && (lh != [] || s.dirty == {})
      modifies this`lh, cache, cache.ide
      ensures ok <==> |s.dirty| < NBUF
      ensures ok ==> Done(ClearPart(g, old(lh), s.latest), |old(lh)| + 1, s, {}) && lh == []
      ensures !ok ==> Unwritten(s)
    {
      ghost var list := lh;
      ok := InstallTrans(s);
      if ok {
        ClearReady(list, s);
        lh := [];
        ok := HeadNext(ClearPart(g, list, s.latest), |list|, s, {});
      }
    }

    /** What write_head finds after install_trans. */
    lemma ClearReady(list: seq<word>, s: Start)
      requires g.Covers(s.latest) && |list| <= LOGSIZE && (forall i :: 0 <= i < |list| ==> !g.InLog(list[i]))
      requires Done(Installs(g, list, s.latest), |list|, s, {})
      ensures Done(ClearPart(g, list, s.latest), |list|, s, {}) && g.Covers(cache.ide.disk) && g.start in cache.latest
      ensures ClearPart(g, list, s.latest)[|list|] == Write(g.start, ClearHead(cache.latest[g.start]))
    {
      var ws, plan := Installs(g, list, s.latest), ClearPart(g, list, s.latest);
      ClearPartHead(g, list, s.latest);
      ReplayToAll(s.latest, ws);
      assert ws[..|list|] == plan[..|list|];
      DoneOn(ws, plan, |list|, s, {});
    }

    /** Off the blocks to be committed the disk is up to date. */
    lemma HomeUpToDate()
      requires Ready()
      ensures Applied(Home(g, cache.ide.disk), Current()) == Home(g, cache.latest)
    {
      assert cache.latest.Keys == cache.ide.disk.Keys;
      BlocksAre(lh, 0);
      forall b | b in cache.ide.disk && b !in lh ensures cache.latest[b] == cache.ide.disk[b] {
        cache.CleanAgrees(b);
      }
    }

    /** Commit extends the trace by `CommitWrites`.  Whatever part of those writes reaches the disk, recovery,
        however often it is interrupted, finds the home blocks either all as they were on the disk or all
        as cached. */
    lemma CommitCrash(ws: seq<Write>, crashes: seq<nat>)
      requires Ready() && lh != [] && Empty(g, cache.ide.disk)
      requires ws <= CommitWrites(g, cache.ide.disk[g.start], Current())
      ensures HeadOk(g, Replay(cache.ide.disk, ws))
      ensures Home(g, Recovered(g, CrashedRecoveries(g, Replay(cache.ide.disk, ws), crashes))) ==
              if |ws| <= |lh| then Home(g, cache.ide.disk) else Home(g, cache.latest)
    {
      var d, t := cache.ide.disk, Current();
      assert CommitWrites(g, d[g.start], t)[..|ws|] == ws;
      CrashAtomicity(g, d, t, |ws|, crashes);
      HomeUpToDate();
    }

    /** With nothing dirty the disk is the recorded contents. */
    lemma NothingDirty()
      requires cache.Valid() && cache.Dirty() == {}
      ensures cache.latest == cache.ide.disk
    {
      assert cache.latest.Keys == cache.ide.disk.Keys;
      forall b | b in cache.ide.disk ensures cache.latest[b] == cache.ide.disk[b] {
        cache.CleanAgrees(b);
      }
    }

    /** commit of a list that is not empty. */
    method CommitSome(ghost s: Start, ghost t: Txn) returns (ok: bool)
      requires Ready() && s == Now() && t == Current() && Empty(g, s.latest) && TxnOk(g, s.latest, t)
      modifies this`lh, cache, cache.ide
      ensures ok <==> |t.list| < NBUF
      ensures ok ==> Done(CommitWrites(g, s.latest[g.start], t), 2 * |t.list| + 2, s, {}) && lh == []
      ensures !ok ==> Unwritten(s)
    {
      PinnedSize();
      ok := CommitLog(s, t);
      if ok {
        ghost var mid := Now();
        MidCommit(s, t);
        ok := InstallAndClear(mid);
        AllCommitted(s, t, mid);
      }
    }

    /** The commit point. */
    lemma MidCommit(s: Start, t: Txn)
      requires Empty(g, s.latest) && TxnOk(g, s.latest, t) && t.list == lh && Pinned(s.dirty)
      requires Done(LogPart(g, s.latest, t), |t.list| + 1, s, s.dirty)
      ensures cache.latest == Committed(g, s.latest, t) && cache.latest.Keys == s.latest.Keys
      ensures Loaded() && Now() == s.After(LogPart(g, s.latest, t))
    {
      var one := LogPart(g, s.latest, t);
      ReplayToAll(s.latest, one);
      assert one[..|t.list|] == LogWrites(g, t);
      assert one[..|t.list| + 1] == one;
    }

    lemma AllCommitted(s: Start, t: Txn, mid: Start)
      requires Empty(g, s.latest) && TxnOk(g, s.latest, t) && mid == s.After(LogPart(g, s.latest, t))
      requires mid.latest == Committed(g, s.latest, t) && g.Covers(mid.latest) && mid.latest.Keys == s.latest.Keys
      requires Done(ClearPart(g, t.list, mid.latest), |t.list| + 1, mid, {})
      ensures Done(CommitWrites(g, s.latest[g.start], t), 2 * |t.list| + 2, s, {})
    {
      var one, two := LogPart(g, s.latest, t), ClearPart(g, t.list, mid.latest);
      DoneBoth(one, two, s, mid);
      CommitParts(g, s.latest, t);
      assert |one + two| == 2 * |t.list| + 2;
    }

    /** Two plans carried out one after the other. */
    lemma DoneBoth(one: seq<Write>, two: seq<Write>, s: Start, mid: Start)
      requires mid == s.After(one) && mid.latest.Keys == s.latest.Keys && Done(two, |two|, mid, {})
      ensures Done(one + two, |one + two|, s, {})
    {
      assert two[..|two|] == two && (one + two)[..|one + two|] == one + two;
      assert s.trace + one + two == s.trace + (one + two);
      ReplayBoth(s.disk, one, two, |two|);
      ReplayBoth(s.latest, one, two, |two|);
    }

    /** commit: the whole protocol.  It completes exactly if the list leaves a buffer over, and then its
        writes are those of `CommitWrites`, the cached contents of every home block are on the disk and the
        log is empty.  A list of NBUF blocks, which log_write admits because LOGSIZE is NBUF, stops it in
        bget's panic before the first write. */
    method Commit() returns (ok: bool)
      requires Ready() && Empty(g, cache.ide.disk)
      modifies this`lh, cache, cache.ide
      ensures ok <==> |old(lh)| < NBUF
      ensures !ok || old(lh) == [] ==> Unwritten(old(Now()))
      ensures ok && old(lh) != [] ==> var ws := old(CommitWrites(g, cache.ide.disk[g.start], Current()));
                cache.ide.trace == old(cache.ide.trace) + ws && cache.ide.disk == Replay(old(cache.ide.disk), ws)
      ensures ok ==> Ready() && lh == [] && Empty(g, cache.ide.disk) && cache.ide.disk == cache.latest
      ensures ok ==> Home(g, cache.ide.disk) == old(Home(g, cache.latest))
    {
      ok := true;
      if |lh| > 0 {
        ghost var s, t := Now(), Current();
        HeadClean();
        ok := CommitSome(s, t);
        if !ok { return; }
        AllHome(s, t);
      }
      assert cache.Dirty() == {};
      NothingDirty();
    }

    /** The disk once all of commit's writes are out. */
    lemma AllHome(s: Start, t: Txn)
      requires Empty(g, s.latest) && TxnOk(g, s.latest, t) && t.cache == s.latest
      requires Done(CommitWrites(g, s.latest[g.start], t), 2 * |t.list| + 2, s, {})
      ensures var ws := CommitWrites(g, s.latest[g.start], t);
              cache.ide.trace == s.trace + ws && cache.ide.disk == Replay(s.disk, ws)
      ensures Empty(g, cache.ide.disk) && Home(g, cache.ide.disk) == Home(g, s.latest)
    {
      AllOut(CommitWrites(g, s.latest[g.start], t), s);
      CommitFinal(g, s.latest, t);
    }

    /** A plan carried out to its end, with nothing left dirty. */
    lemma AllOut(ws: seq<Write>, s: Start)
      requires Done(ws, |ws|, s, {})
      ensures cache.ide.trace == s.trace + ws && cache.ide.disk == Replay(s.disk, ws)
      ensures cache.ide.disk == Replay(s.latest, ws)
    {
      assert ws[..|ws|] == ws;
      ReplayToAll(s.disk, ws);
      ReplayToAll(s.latest, ws);
      NothingDirty();
    }

    /** recover_from_log, on a cache that boot has just emptied: it always completes, with exactly the
        writes of `RecoverWrites`, and then nothing is left in the log. */
    method RecoverFromLog() returns (ok: bool)
      requires Quiet() && cache.Dirty() == {} && HeadOk(g, cache.ide.disk)
      modifies this`lh, cache, cache.ide
      ensures ok && Ready() && lh == [] && cache.ide.trace == old(cache.ide.trace + RecoverWrites(g, cache.ide.disk))
      ensures cache.ide.disk == old(Recovered(g, cache.ide.disk)) && cache.latest == cache.ide.disk
    {
      NothingDirty();
      ghost var d := cache.ide.disk;
      ok := ReadHead();
      ghost var s, ws := Now(), ClearPart(g, lh, d);
      InstallsAreRecovery(g, d, lh);
      ok := InstallAndClear(s);
      assert ws[..|ws|] == ws;
      ReplayToAll(d, ws);
      NothingDirty();
    }

    // ---- the interface to file-system operations ----

    /** log_write: the holder's data becomes the block's contents for this transaction.  False is one
        of the two panics. */
    method LogWrite(b: nat) returns (ok: bool)
      requires cache.Valid() && ListOk(cache.ide.disk, cache.Dirty())
      requires b < |cache.buf| && cache.Holds(b, cache.buf[b].blockno) && cache.buf[b].blockno < UINT
      requires !g.InLog(cache.buf[b].blockno)
      modifies this`lh, cache`buf, cache`latest
      ensures cache.Valid() && ListOk(cache.ide.disk, cache.Dirty())
      ensures ok <==> !TooBig(old(lh), g.size) && outstanding >= 1
      ensures !ok ==> lh == old(lh) && cache.latest == old(cache.latest) && cache.buf == old(cache.buf)
      ensures ok ==> lh == Absorb(old(lh), old(cache.buf[b].blockno))
      ensures ok ==> cache.buf == old(cache.buf)[b := old(cache.buf[b]).(dirty := true)]
      ensures ok ==> cache.latest == old(cache.latest[cache.buf[b].blockno := cache.buf[b].data])
    {
      ok := false;
      if |lh| >= LOGSIZE || |lh| >= g.size - 1 || outstanding < 1 { return; }
      assert CellOk(cache.buf, cache.latest, cache.ide.disk, b);
      var n := cache.buf[b].blockno;
      var i := FindBlock(n);
      Appended(lh, n);
      if i == |lh| {
        lh := lh + [n];
      }
      cache.Pin(b);
      ok := true;
    }

    /** log_write's scan for a block already logged. */
    method FindBlock(n: word) returns (i: nat)
      ensures i <= |lh| && (i < |lh| ==> lh[i] == n) && (i == |lh| <==> n !in lh)
    {
      i := 0;
      while i < |lh|
        invariant i <= |lh| && n !in lh[..i]
      {
        if lh[i] == n { return; }
        i := i + 1;
      }
    }

    /** begin_op, until it is admitted or goes to sleep (false): the whole group together may add what is
        left of the log. */
    method BeginOp() returns (admitted: bool)
      modifies this`outstanding
      ensures admitted <==> !committing && |lh| + (old(outstanding) + 1) * MAXOPBLOCKS <= LOGSIZE
      ensures outstanding == old(outstanding) + if admitted then 1 else 0
    {
      admitted := false;
      if committing {
      } else if |lh| + (outstanding + 1) * MAXOPBLOCKS > LOGSIZE {
      } else {
        outstanding := outstanding + 1;
        admitted := true;
      }
    }

    /** How an operation updates a block: bread, new contents, log_write, brelse.  On an idle cache this
        fails, in bget's panic or in log_write's, exactly if the list is full. */
    method UpdateBlock(n: word, data: Block) returns (ok: bool)
      requires Ready() && outstanding >= 1 && n in cache.ide.disk && !g.InLog(n)
      modifies this`lh, cache, cache.ide
      ensures Unwritten(old(Now())) && (ok <==> |old(lh)| < LOGSIZE)
      ensures ok ==> Ready() && lh == Absorb(old(lh), n) && cache.latest == old(cache.latest)[n := data]
    {
      ok := false;
      EnoughBuffers(n);
      var b := cache.Bread(n);
      if b == HEAD { return; }
      assert CountAt(old(cache.buf), {}, b);
      InUseNow(old(cache.buf), {}, cache.buf, {b}, b);
      ok := Record(b, data);
    }

    lemma EnoughBuffers(n: nat)
      requires Ready()
      ensures |cache.Dirty()| == |lh| && cache.Held() == {} && (!cache.Cached(n) && cache.Full() ==> |lh| == NBUF)
    {
      PinnedSize();
      cache.FullWhenIdle();
    }

    method Record(b: nat, data: Block) returns (ok: bool)
      requires cache.Listed() && cache.Valid() && cache.Held() == {b} && InUse(cache.buf, {b}) && outstanding >= 1
      requires b < |cache.buf| && cache.Holds(b, cache.buf[b].blockno) && cache.buf[b].blockno < UINT
      requires ListOk(cache.ide.disk, cache.Dirty()) && !g.InLog(cache.buf[b].blockno)
      modifies this`lh, cache
      ensures ok <==> |old(lh)| < LOGSIZE
      ensures ok ==> Ready() && lh == Absorb(old(lh), old(cache.buf[b].blockno))
      ensures ok ==> cache.latest == old(cache.latest)[old(cache.buf[b].blockno) := data]
    {
      ghost var was := cache.buf;
      assert CountAt(was, {b}, b);
      cache.SetData(b, data);
      ok := LogWrite(b);
      if ok {
        cache.Brelse(b);
        InUseNow(was, {b}, cache.buf, {}, b);
      }
    }

    /** end_op: the last operation out commits for the whole group. */
    method EndOp() returns (ok: bool)
      requires outstanding >= 1 && !committing
      requires outstanding == 1 ==> Ready() && Empty(g, cache.ide.disk)
      modifies this, cache, cache.ide
      ensures outstanding == old(outstanding) - 1
      ensures outstanding > 0 ==> ok && !committing && lh == old(lh)
      ensures outstanding > 0 ==> unchanged(cache) && unchanged(cache.ide)
      ensures ok <==> outstanding > 0 || |old(lh)| < NBUF
      ensures !ok ==> cache.ide.trace == old(cache.ide.trace) && cache.ide.disk == old(cache.ide.disk)
      ensures outstanding == 0 && ok ==> !committing && lh == [] && Ready() && Empty(g, cache.ide.disk)
      ensures outstanding == 0 && ok ==> Home(g, cache.ide.disk) == old(Home(g, cache.latest))
      ensures outstanding == 0 && ok ==> old(cache.ide.trace) <= cache.ide.trace
      ensures outstanding == 0 && ok ==>
                Atomic(g, old(cache.ide.disk), cache.ide.trace[|old(cache.ide.trace)|..],
                       old(Home(g, cache.ide.disk)), old(Home(g, cache.latest)))
    {
      ok := true;
      outstanding := outstanding - 1;
      if outstanding == 0 {
        ghost var d, before, latest := cache.ide.disk, cache.ide.trace, cache.latest;
        ghost var ws := PlannedWrites();
        CommitAtomic();
        committing := true;
        ok := Commit();
        committing := false;
        assert ok ==> cache.ide.trace[|before|..] == ws;
      }
    }

    /** What commit is to write. */
    ghost function PlannedWrites(): seq<Write>
      requires Ready() && Empty(g, cache.ide.disk)
      reads this, cache, cache.ide
    {
      if lh == [] then [] else CommitWrites(g, cache.ide.disk[g.start], Current())
    }

    lemma CommitAtomic()
      requires Ready() && Empty(g, cache.ide.disk)
      ensures Atomic(g, cache.ide.disk, PlannedWrites(), Home(g, cache.ide.disk), Home(g, cache.latest))
    {
      var d, ws := cache.ide.disk, PlannedWrites();
      forall k: nat, crashes: seq<nat> | k <= |ws|
        ensures AtomicAt(g, d, ws, k, crashes, Home(g, d), Home(g, cache.latest))
      {
        if lh == [] {
          NothingToCommit(d, crashes);
        } else {
          CommitCrash(ws[..k], crashes);
        }
      }
    }

    lemma NothingToCommit(d: Disk, crashes: seq<nat>)
      requires Empty(g, d)
      ensures HeadOk(g, d) && Home(g, Recovered(g, CrashedRecoveries(g, d, crashes))) == Home(g, d)
    {
      RepeatedRecoveryCrash(g, d, crashes);
      RecoverEmpty(g, d);
    }
  }

  /** A crash that lets the first k of these writes out, and recovery, interrupted or not, lead to one of two states
      of the home blocks. */
  ghost predicate AtomicAt(g: Geometry, d: Disk, ws: seq<Write>, k: nat, crashes: seq<nat>, was: Disk, now: Disk)
    requires k <= |ws|
  {
    && HeadOk(g, Replay(d, ws[..k]))
    && var left := Home(g, Recovered(g, CrashedRecoveries(g, Replay(d, ws[..k]), crashes)));
       left == was || left == now
  }

  ghost predicate Atomic(g: Geometry, d: Disk, ws: seq<Write>, was: Disk, now: Disk) {
    forall k: nat, crashes: seq<nat> :: k <= |ws| ==> AtomicAt(g, d, ws, k, crashes, was, now)
  }

  /** Replaying the first k of a sequence of writes, by counting. */
  ghost function ReplayTo(d: Disk, ws: seq<Write>, k: nat): Disk
    requires k <= |ws|
  {
    if k == 0 then d else ReplayTo(d, ws, k - 1)[ws[k - 1].block := ws[k - 1].data]
  }

  lemma {:induction false} ReplayToIs(d: Disk, ws: seq<Write>, k: nat)
    requires k <= |ws|
    ensures ReplayTo(d, ws, k) == Replay(d, ws[..k])
  {
    if k > 0 {
      ReplayToIs(d, ws, k - 1);
      assert ws[..k][..k - 1] == ws[..k - 1];
    }
  }

  lemma {:induction false} ReplayToFrame(d: Disk, ws: seq<Write>, k: nat, b: nat)
    requires k <= |ws| && b in d && forall i :: 0 <= i < k ==> ws[i].block != b
    ensures b in ReplayTo(d, ws, k) && ReplayTo(d, ws, k)[b] == d[b]
  {
    if k > 0 {
      ReplayToFrame(d, ws, k - 1, b);
    }
  }

  lemma ReplayToAll(d: Disk, ws: seq<Write>)
    ensures ReplayTo(d, ws, |ws|) == Replay(d, ws)
  {
    ReplayToIs(d, ws, |ws|);
    assert ws[..|ws|] == ws;
  }

  lemma {:induction false} SamePrefix(d: Disk, a: seq<Write>, b: seq<Write>, k: nat)
    requires k <= |a| && k <= |b| && a[..k] == b[..k]
    ensures ReplayTo(d, a, k) == ReplayTo(d, b, k)
  {
    if k > 0 {
      assert a[..k][k - 1] == b[..k][k - 1] && a[..k - 1] == a[..k][..k - 1] && b[..k - 1] == b[..k][..k - 1];
      SamePrefix(d, a, b, k - 1);
    }
  }

  lemma {:induction false} ReplayBoth(d: Disk, a: seq<Write>, b: seq<Write>, k: nat)
    requires k <= |b|
    ensures ReplayTo(d, a + b, |a| + k) == ReplayTo(ReplayTo(d, a, |a|), b, k)
  {
    if k == 0 {
      assert (a + b)[..|a|] == a[..|a|];
      SamePrefix(d, a + b, a, |a|);
    } else {
      ReplayBoth(d, a, b, k - 1);
    }
  }

  ghost predicate Apart(list: seq<word>, i: nat, j: nat) {
    i < j < |list| ==> list[i] != list[j]
  }

  ghost predicate NoRepeat(list: seq<word>) {
    forall i: nat, j: nat :: Apart(list, i, j)
  }

  /** The blocks of a list from the k-th on. */
  ghost function BlocksFrom(list: seq<word>, k: nat): set<nat>
    requires k <= |list|
    decreases |list| - k
  {
    if k == |list| then {} else {list[k] as nat} + BlocksFrom(list, k + 1)
  }

  lemma {:induction false} BlocksAre(list: seq<word>, k: nat)
    requires k <= |list|
    ensures forall b :: b in BlocksFrom(list, k) <==> exists i :: k <= i < |list| && list[i] == b
    decreases |list| - k
  {
    if k < |list| {
      BlocksAre(list, k + 1);
    }
  }

  /** Without repetition the blocks from k on lose the k-th for good, and there are as many as places. */
  lemma {:induction false} BlocksCount(list: seq<word>, k: nat)
    requires NoRepeat(list) && k <= |list|
    ensures |BlocksFrom(list, k)| == |list| - k
    ensures k < |list| ==> BlocksFrom(list, k) - {list[k]} == BlocksFrom(list, k + 1)
    decreases |list| - k
  {
    if k < |list| {
      BlocksCount(list, k + 1);
      BlocksAre(list, k + 1);
      forall i: nat | k < i < |list| ensures list[i] != list[k] {
        assert Apart(list, k, i);
      }
      OneMore(BlocksFrom(list, k + 1), list[k]);
    }
  }

  /** A block joins a list that does not have it. */
  lemma Appended(list: seq<word>, n: word)
    requires NoRepeat(list)
    ensures n in list ==> n in BlocksFrom(list, 0)
    ensures BlocksFrom(list + [n], 0) == BlocksFrom(list, 0) + {n}
    ensures n !in list ==> NoRepeat(list + [n])
  {
    var longer := list + [n];
    BlocksAre(list, 0);
    BlocksAre(longer, 0);
    assert longer[|list|] == n && forall i :: 0 <= i < |list| ==> longer[i] == list[i];
    if n !in list {
      forall i: nat, j: nat ensures Apart(longer, i, j) {
        assert Apart(list, i, j);
      }
    }
  }

  /** Installing home blocks leaves the log blocks still to be read alone. */
  lemma InstallSource(g: Geometry, list: seq<word>, d: Disk, k: nat)
    requires g.Covers(d) && |list| <= LOGSIZE && k < |list|
    requires forall i :: 0 <= i < |list| ==> !g.InLog(list[i])
    ensures g.start + 1 + k in d && Installs(g, list, d)[k] == Write(list[k], d[g.start + 1 + k])
    ensures forall i :: 0 <= i < k ==> Installs(g, list, d)[i].block != g.start + 1 + k
  {
    assert g.InLog(g.start + 1 + k);
  }

  /** Filling the log leaves the home blocks still to be read alone. */
  lemma LogSource(g: Geometry, list: seq<word>, d: Disk, k: nat)
    requires g.Covers(d) && |list| <= LOGSIZE && k < |list|
    requires forall i :: 0 <= i < |list| ==> list[i] in d && !g.InLog(list[i])
    ensures var ws := LogWrites(g, Txn(list, d));
            var e := ReplayTo(d, ws, k);
            list[k] in e && ws[k] == Write(g.start + 1 + k, e[list[k]])
  {
    ReplayToFrame(d, LogWrites(g, Txn(list, d)), k, list[k]);
  }

  /** Commit's writes up to and including the header. */
  function LogPart(g: Geometry, d: Disk, t: Txn): (ws: seq<Write>)
    requires Empty(g, d) && TxnOk(g, d, t)
  {
    LogWrites(g, t) + [Write(g.start, EncodeHead(d[g.start], t.list, |t.list|))]
  }

  lemma LogPartHead(g: Geometry, d: Disk, t: Txn)
    requires Empty(g, d) && TxnOk(g, d, t)
    ensures g.start in Replay(d, LogWrites(g, t)) && Replay(d, LogWrites(g, t))[g.start] == d[g.start]
  {
    assert !Writes(LogWrites(g, t), g.start);
    ReplayFrame(d, LogWrites(g, t), g.start);
  }

  /** Installing a list and then clearing the header. */
  function ClearPart(g: Geometry, list: seq<word>, d: Disk): (ws: seq<Write>)
    requires g.Covers(d) && |list| <= LOGSIZE
  {
    Installs(g, list, d) + [Write(g.start, ClearHead(d[g.start]))]
  }

  lemma ClearPartHead(g: Geometry, list: seq<word>, d: Disk)
    requires g.Covers(d) && |list| <= LOGSIZE && forall i :: 0 <= i < |list| ==> !g.InLog(list[i])
    ensures g.start in Replay(d, Installs(g, list, d)) && Replay(d, Installs(g, list, d))[g.start] == d[g.start]
    ensures Replay(d, ClearPart(g, list, d)) == Replay(d, Installs(g, list, d))[g.start := ClearHead(d[g.start])]
  {
    var ws := Installs(g, list, d);
    assert !Writes(ws, g.start);
    ReplayFrame(d, ws, g.start);
    assert ClearPart(g, list, d)[..|list|] == ws;
  }

  /** Recovery from the commit point makes the rest of commit's writes. */
  lemma CommitRest(g: Geometry, d: Disk, t: Txn)
    requires Empty(g, d) && TxnOk(g, d, t)
    ensures var c := Committed(g, d, t);
            c.Keys == d.Keys && HeadOk(g, c) && ClearPart(g, t.list, c) == RecoverWrites(g, c)
  {
    CommittedFrame(g, d, t);
    CommittedHead(g, d, t);
    CommittedList(g, d, t);
    InstallsAreRecovery(g, Committed(g, d, t), t.list);
  }

  /** What recovery installs is what the header on the disk lists. */
  lemma InstallsAreRecovery(g: Geometry, d: Disk, list: seq<word>)
    requires HeadOk(g, d) && HeadCount(d[g.start]) == |list|
    requires forall i :: 0 <= i < |list| ==> HeadBlock(d[g.start], i) == list[i]
    ensures Installs(g, list, d) == InstallWrites(g, d) && ClearPart(g, list, d) == RecoverWrites(g, d)
  {
    var a, b := Installs(g, list, d), InstallWrites(g, d);
    forall i | 0 <= i < |list| ensures a[i] == b[i] {
      assert HeadBlock(d[g.start], i) == list[i];
    }
  }

  /** Commit's writes are its two halves. */
  lemma CommitParts(g: Geometry, d: Disk, t: Txn)
    requires Empty(g, d) && TxnOk(g, d, t)
    ensures Committed(g, d, t).Keys == d.Keys
    ensures LogPart(g, d, t) + ClearPart(g, t.list, Committed(g, d, t)) == CommitWrites(g, d[g.start], t)
  {
    CommitRest(g, d, t);
    var pre, post := CommitSplit(g, d, t);
    assert (pre + post)[..|pre|] == LogPart(g, d, t);
    assert (pre + post)[|pre|..] == post;
  }

  /** Committing the cached contents changes none of them, and empties the log. */
  lemma CommitFinal(g: Geometry, d: Disk, t: Txn)
    requires Empty(g, d) && TxnOk(g, d, t) && t.cache == d
    ensures var e := Replay(d, CommitWrites(g, d[g.start], t));
            e.Keys == d.Keys && Empty(g, e) && Home(g, e) == Home(g, d)
  {
    CommitComplete(g, d, t);
    assert Applied(Home(g, d), t) == Home(g, d);
  }

  /** A group of operations that each keep within their share and are all admitted can still be one that
      never commits.  From boot: recovery, three operations begin, they log LOGSIZE blocks between them,
      and the last end_op stops in bget's panic with nothing written. */
  method FullGroupStops(image: Disk, g: Geometry, blocks: seq<word>, data: Block) returns (log: Log, ok: bool)
    requires HeadOk(g, image) && |blocks| == LOGSIZE && NoRepeat(blocks)
    requires forall i :: 0 <= i < LOGSIZE ==> blocks[i] in image && !g.InLog(blocks[i])
    ensures !ok && log.cache.ide.disk == Recovered(g, image) && log.cache.ide.trace == RecoverWrites(g, image)
  {
    var cache := new BCache(image);
    log := new Log(cache, g);
    ok := log.RecoverFromLog();
    RecoveredHome(g, image);
    FillGroup(log, blocks, data);
    ok := log.EndOp();
  }

  /** Three operations are admitted, log the blocks, and two of them end. */
  method FillGroup(log: Log, blocks: seq<word>, data: Block)
    requires log.Ready() && log.lh == [] && log.outstanding == 0 && !log.committing
    requires |blocks| == LOGSIZE && NoRepeat(blocks)
    requires forall i :: 0 <= i < LOGSIZE ==> blocks[i] in log.cache.ide.disk && !log.g.InLog(blocks[i])
    modifies log, log.cache, log.cache.ide
    ensures log.Ready() && log.lh == blocks && log.outstanding == 1 && !log.committing
    ensures log.Unwritten(old(log.Now()))
  {
    var a := log.BeginOp();
    var b := log.BeginOp();
    var c := log.BeginOp();
    assert a && b && c;
    for i := 0 to LOGSIZE
      invariant log.Ready() && log.lh == blocks[..i] && log.outstanding == 3 && !log.committing
      invariant log.Unwritten(old(log.Now()))
    {
      FreshBlock(blocks, i);
      var logged := log.UpdateBlock(blocks[i], data);
      assert logged;
    }
    a := log.EndOp();
    b := log.EndOp();
  }

  lemma FreshBlock(blocks: seq<word>, i: nat)
    requires i < |blocks| && NoRepeat(blocks)
    ensures Absorb(blocks[..i], blocks[i]) == blocks[..i + 1]
  {
    forall j: nat | j < i ensures blocks[j] != blocks[i] {
      assert Apart(blocks, j, i);
    }
    assert blocks[..i + 1] == blocks[..i] + [blocks[i]];
  }
}
