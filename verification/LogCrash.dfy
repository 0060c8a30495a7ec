/** The on-disk redo log as a sequence of atomic block writes, and what a crash between any two of
    those writes can leave behind (system/storage/log.c). */
module LogCrash {
  import opened Params
  import opened Bytes

  /** Block number to contents. */
  type Disk = map<nat, Block>

  datatype Write = Write(block: nat, data: Block)

  /** Where the log lives: the header is block `start`, log block i is `start + 1 + i`. */
  datatype Geometry = Geometry(start: nat, size: nat) {
    predicate InLog(b: nat) {
      start <= b < start + size
    }

    predicate Covers(d: Disk) {
      size > LOGSIZE && forall b: nat :: start <= b < start + size ==> b in d
    }
  }

  // ---- the header block ----

  function HeadCount(b: Block): word {
    Word(b, 0)
  }

  function HeadBlock(b: Block, i: nat): word
    requires i < LOGSIZE
  {
    Word(b, 4 + 4 * i)
  }

  /** The first `n` block numbers of a header. */
  function HeadList(b: Block, n: nat): (s: seq<nat>)
    requires n <= LOGSIZE
  {
    seq(n, i requires 0 <= i < n => HeadBlock(b, i))
  }

  /** Header bytes after storing a count and a block list over the old contents `b`. */
  function EncodeHead(b: Block, list: seq<word>, n: word): (r: Block)
    requires |list| <= LOGSIZE
    decreases |list|
  {
    if list == [] then PutWord(b, 0, n)
    else PutWord(EncodeHead(b, list[..|list| - 1], n), 4 + 4 * (|list| - 1), list[|list| - 1])
  }

  lemma {:induction false} EncodeHeadReads(b: Block, list: seq<word>, n: word)
    requires |list| <= LOGSIZE
    ensures HeadCount(EncodeHead(b, list, n)) == n
    ensures forall i :: 0 <= i < |list| ==> HeadBlock(EncodeHead(b, list, n), i) == list[i]
    decreases |list|
  {
    if list != [] {
      var k := |list| - 1;
      EncodeHeadReads(b, list[..k], n);
      var prev := EncodeHead(b, list[..k], n);
      PutWordFrame(prev, 4 + 4 * k, list[k], 0);
      forall i | 0 <= i < |list| ensures HeadBlock(EncodeHead(b, list, n), i) == list[i] {
        if i < k {
          PutWordFrame(prev, 4 + 4 * k, list[k], 4 + 4 * i);
        }
      }
    }
  }

  function ClearHead(b: Block): (r: Block) {
    EncodeHead(b, [], 0)
  }

  // ---- replaying block writes ----

  function Replay(d: Disk, ws: seq<Write>): Disk {
    if ws == [] then d
    else
      var w := ws[|ws| - 1];
      Replay(d, ws[..|ws| - 1])[w.block := w.data]
  }

  predicate Writes(ws: seq<Write>, b: nat) {
    exists i :: 0 <= i < |ws| && ws[i].block == b
  }

  lemma {:induction false} ReplayAppend(d: Disk, a: seq<Write>, b: seq<Write>)
    ensures Replay(d, a + b) == Replay(Replay(d, a), b)
    decreases |b|
  {
    if b == [] {
      assert a + b == a;
    } else {
      ReplayAppend(d, a, b[..|b| - 1]);
      assert (a + b)[..|a + b| - 1] == a + b[..|b| - 1];
    }
  }

  lemma {:induction false} ReplayFrame(d: Disk, ws: seq<Write>, b: nat)
    requires !Writes(ws, b)
    ensures b in Replay(d, ws) <==> b in d
    ensures b in d ==> Replay(d, ws)[b] == d[b]
    decreases |ws|
  {
    if ws != [] {
      var pre := ws[..|ws| - 1];
      assert forall i :: 0 <= i < |pre| ==> pre[i] == ws[i];
      ReplayFrame(d, pre, b);
    }
  }

  lemma {:induction false} ReplayKeys(d: Disk, ws: seq<Write>)
    requires forall i :: 0 <= i < |ws| ==> ws[i].block in d
    ensures Replay(d, ws).Keys == d.Keys
    decreases |ws|
  {
    if ws != [] {
      ReplayKeys(d, ws[..|ws| - 1]);
    }
  }

  /** Two disks that agree off the blocks `ws` writes are made equal by replaying `ws`. */
  lemma {:induction false} ReplayAgree(d: Disk, e: Disk, ws: seq<Write>, b: nat)
    requires Writes(ws, b) || (b in d && b in e && d[b] == e[b])
    ensures b in Replay(d, ws) && b in Replay(e, ws) && Replay(d, ws)[b] == Replay(e, ws)[b]
    decreases |ws|
  {
    if ws != [] {
      var pre, w := ws[..|ws| - 1], ws[|ws| - 1];
      if w.block != b {
        if Writes(ws, b) {
          var i :| 0 <= i < |ws| && ws[i].block == b;
          assert pre[i].block == b;
        }
        ReplayAgree(d, e, pre, b);
      }
    }
  }

  /** Replaying everything after a part of it has been replayed is the same as replaying it once. */
  lemma ReplayAgain(d: Disk, ws: seq<Write>, k: nat)
    requires k <= |ws| && forall i :: 0 <= i < |ws| ==> ws[i].block in d
    ensures Replay(Replay(d, ws[..k]), ws) == Replay(d, ws)
  {
    var e := Replay(d, ws[..k]);
    ReplayKeys(d, ws[..k]);
    ReplayKeys(d, ws);
    ReplayKeys(e, ws);
    forall b | b in d ensures Replay(e, ws)[b] == Replay(d, ws)[b] {
      if !Writes(ws, b) {
        assert forall i :: 0 <= i < |ws[..k]| ==> ws[..k][i] == ws[i];
        assert !Writes(ws[..k], b);
        ReplayFrame(d, ws[..k], b);
      }
      ReplayAgree(d, e, ws, b);
    }
  }

  /** When every write to `b` stores `v`, and there is one, replaying leaves `v` there. */
  lemma {:induction false} ReplayValue(d: Disk, ws: seq<Write>, b: nat, v: Block)
    requires Writes(ws, b)
    requires forall i :: 0 <= i < |ws| && ws[i].block == b ==> ws[i].data == v
    ensures b in Replay(d, ws) && Replay(d, ws)[b] == v
    decreases |ws|
  {
    var pre := ws[..|ws| - 1];
    if ws[|ws| - 1].block != b {
      var i :| 0 <= i < |ws| && ws[i].block == b;
      assert pre[i].block == b;
      ReplayValue(d, pre, b, v);
    }
  }

  // ---- recovery ----

  /** The home blocks: everything outside the log. */
  ghost function Home(g: Geometry, d: Disk): Disk {
    map b | b in d && !g.InLog(b) :: d[b]
  }

  /** A header recovery may trust: it fits the log, and it names home blocks only. */
  predicate HeadOk(g: Geometry, d: Disk) {
    && g.Covers(d)
    && var h := d[g.start];
    && HeadCount(h) <= LOGSIZE
    && forall i :: 0 <= i < HeadCount(h) ==> HeadBlock(h, i) in d && !g.InLog(HeadBlock(h, i))
  }

  predicate Empty(g: Geometry, d: Disk) {
    g.Covers(d) && HeadCount(d[g.start]) == 0
  }

  /** install_trans: copy log block i to the home block the header names. */
  function InstallWrites(g: Geometry, d: Disk): (ws: seq<Write>)
    requires HeadOk(g, d)
  {
    seq(HeadCount(d[g.start]), i requires 0 <= i < HeadCount(d[g.start]) =>
      Write(HeadBlock(d[g.start], i), d[g.start + 1 + i]))
  }

  /** recover_from_log: install, then clear the header. */
  function RecoverWrites(g: Geometry, d: Disk): (ws: seq<Write>)
    requires HeadOk(g, d)
  {
    InstallWrites(g, d) + [Write(g.start, ClearHead(d[g.start]))]
  }

  function Recovered(g: Geometry, d: Disk): Disk
    requires HeadOk(g, d)
  {
    Replay(d, RecoverWrites(g, d))
  }

  lemma InstallKeepsLog(g: Geometry, d: Disk, k: nat)
    requires HeadOk(g, d) && k <= HeadCount(d[g.start])
    ensures var e := Replay(d, InstallWrites(g, d)[..k]);
            && e.Keys == d.Keys && HeadOk(g, e) && e[g.start] == d[g.start]
            && InstallWrites(g, e) == InstallWrites(g, d)
  {
    var ws := InstallWrites(g, d)[..k];
    ReplayKeys(d, ws);
    forall b: nat | g.InLog(b) ensures b in d && Replay(d, ws)[b] == d[b] {
      assert !Writes(ws, b);
      ReplayFrame(d, ws, b);
    }
  }

  /** What full recovery leaves: the header's blocks installed, the header empty. */
  lemma RecoveredHome(g: Geometry, d: Disk)
    requires HeadOk(g, d)
    ensures Recovered(g, d).Keys == d.Keys
    ensures Empty(g, Recovered(g, d))
    ensures Home(g, Recovered(g, d)) == Home(g, Replay(d, InstallWrites(g, d)))
  {
    var ws := InstallWrites(g, d);
    assert ws[..|ws|] == ws;
    InstallKeepsLog(g, d, |ws|);
    var last := [Write(g.start, ClearHead(d[g.start]))];
    ReplayAppend(d, ws, last);
    var e := Replay(d, ws);
    assert last[..0] == [];
    assert Replay(e, last) == e[g.start := ClearHead(d[g.start])];
    EncodeHeadReads(d[g.start], [], 0);
  }

  /** Recovery of a disk whose log is empty changes no home block. */
  lemma RecoverEmpty(g: Geometry, d: Disk)
    requires Empty(g, d)
    ensures HeadOk(g, d) && Home(g, Recovered(g, d)) == Home(g, d)
  {
    RecoveredHome(g, d);
    assert InstallWrites(g, d) == [];
  }

  /** A crash after any number of recovery's writes: recovering again gives the same home blocks. */
  lemma RecoveryCrash(g: Geometry, d: Disk, k: nat)
    requires HeadOk(g, d) && k <= |RecoverWrites(g, d)|
    ensures var e := Replay(d, RecoverWrites(g, d)[..k]);
            HeadOk(g, e) && Home(g, Recovered(g, e)) == Home(g, Recovered(g, d))
  {
    var all, ws := RecoverWrites(g, d), InstallWrites(g, d);
    RecoveredHome(g, d);
    if k == |all| {
      assert all[..k] == all;
      RecoverEmpty(g, Recovered(g, d));
    } else {
      assert all[..k] == ws[..k];
      InstallKeepsLog(g, d, k);
      RecoveredHome(g, Replay(d, ws[..k]));
      ReplayAgain(d, ws, k);
    }
  }

  /** Recovery attempts that each crash after the given number of writes. */
  function CrashedRecoveries(g: Geometry, d: Disk, crashes: seq<nat>): (e: Disk)
    requires HeadOk(g, d)
    ensures HeadOk(g, e)
    decreases |crashes|
  {
    if crashes == [] then d
    else
      var e := CrashedRecoveries(g, d, crashes[..|crashes| - 1]);
      var ws := RecoverWrites(g, e);
      var k := if crashes[|crashes| - 1] <= |ws| then crashes[|crashes| - 1] else |ws|;
      RecoveryCrash(g, e, k);
      Replay(e, ws[..k])
  }

  /** However often and wherever recovery itself crashes, one that completes ends in the same place. */
  lemma {:induction false} RepeatedRecoveryCrash(g: Geometry, d: Disk, crashes: seq<nat>)
    requires HeadOk(g, d)
    ensures Home(g, Recovered(g, CrashedRecoveries(g, d, crashes))) == Home(g, Recovered(g, d))
    decreases |crashes|
  {
    if crashes != [] {
      RepeatedRecoveryCrash(g, d, crashes[..|crashes| - 1]);
      var e := CrashedRecoveries(g, d, crashes[..|crashes| - 1]);
      var ws := RecoverWrites(g, e);
      var k := if crashes[|crashes| - 1] <= |ws| then crashes[|crashes| - 1] else |ws|;
      RecoveryCrash(g, e, k);
    }
  }

  // ---- commit ----

  /** A transaction: the blocks logged, in order, and the cached contents of each. */
  datatype Txn = Txn(list: seq<word>, cache: Disk)

  predicate TxnOk(g: Geometry, d: Disk, t: Txn) {
    && 0 < |t.list| <= LOGSIZE
    && forall i :: 0 <= i < |t.list| ==>
         t.list[i] in t.cache && t.list[i] in d && !g.InLog(t.list[i])
  }

  /** write_log: copy each cached block to its log block. */
  function LogWrites(g: Geometry, t: Txn): (ws: seq<Write>)
    requires forall i :: 0 <= i < |t.list| ==> t.list[i] in t.cache
  {
    seq(|t.list|, i requires 0 <= i < |t.list| => Write(g.start + 1 + i, t.cache[t.list[i]]))
  }

  /** Installation, as commit performs it. */
  function HomeWrites(t: Txn): (ws: seq<Write>)
    requires forall i :: 0 <= i < |t.list| ==> t.list[i] in t.cache
  {
    seq(|t.list|, i requires 0 <= i < |t.list| => Write(t.list[i], t.cache[t.list[i]]))
  }

  /** commit: log blocks, then the header, then the home blocks, then the header again. */
  function CommitWrites(g: Geometry, head: Block, t: Txn): (ws: seq<Write>)
    requires 0 < |t.list| <= LOGSIZE
    requires forall i :: 0 <= i < |t.list| ==> t.list[i] in t.cache
  {
    var h := EncodeHead(head, t.list, |t.list|);
    LogWrites(g, t) + [Write(g.start, h)] + HomeWrites(t) + [Write(g.start, ClearHead(h))]
  }

  /** The home blocks after all of a transaction. */
  ghost function Applied(home: Disk, t: Txn): Disk {
    map b | b in home :: if b in t.list && b in t.cache then t.cache[b] else home[b]
  }

  /** The disk just after the header write, which is the point where the transaction commits. */
  function Committed(g: Geometry, d: Disk, t: Txn): Disk
    requires Empty(g, d) && TxnOk(g, d, t)
  {
    Replay(d, LogWrites(g, t))[g.start := EncodeHead(d[g.start], t.list, |t.list|)]
  }

  lemma LogWritten(g: Geometry, d: Disk, t: Txn, i: nat)
    requires TxnOk(g, d, t) && i < |t.list|
    ensures g.start + 1 + i in Replay(d, LogWrites(g, t))
    ensures Replay(d, LogWrites(g, t))[g.start + 1 + i] == t.cache[t.list[i]]
  {
    assert LogWrites(g, t)[i].block == g.start + 1 + i;
    ReplayValue(d, LogWrites(g, t), g.start + 1 + i, t.cache[t.list[i]]);
  }

  lemma CommittedFrame(g: Geometry, d: Disk, t: Txn)
    requires Empty(g, d) && TxnOk(g, d, t)
    ensures Committed(g, d, t).Keys == d.Keys && Home(g, Committed(g, d, t)) == Home(g, d)
  {
    LogOnly(g, d, LogWrites(g, t));
    var e := Replay(d, LogWrites(g, t));
    assert forall b :: b in d && !g.InLog(b) ==> Home(g, e)[b] == e[b] && Home(g, d)[b] == d[b];
  }

  lemma CommittedList(g: Geometry, d: Disk, t: Txn)
    requires Empty(g, d) && TxnOk(g, d, t)
    ensures Committed(g, d, t)[g.start] == EncodeHead(d[g.start], t.list, |t.list|)
    ensures HeadCount(Committed(g, d, t)[g.start]) == |t.list|
    ensures forall i :: 0 <= i < |t.list| ==> HeadBlock(Committed(g, d, t)[g.start], i) == t.list[i]
  {
    EncodeHeadReads(d[g.start], t.list, |t.list|);
  }

  /** A header and log blocks that spell out a transaction make recovery install it. */
  lemma SpelledOut(g: Geometry, e: Disk, t: Txn)
    requires g.Covers(e) && TxnOk(g, e, t) && HeadCount(e[g.start]) == |t.list|
    requires forall i :: 0 <= i < |t.list| ==>
               HeadBlock(e[g.start], i) == t.list[i] && e[g.start + 1 + i] == t.cache[t.list[i]]
    ensures HeadOk(g, e) && InstallWrites(g, e) == HomeWrites(t)
  {
    forall i | 0 <= i < HeadCount(e[g.start])
      ensures HeadBlock(e[g.start], i) in e && !g.InLog(HeadBlock(e[g.start], i))
    {
      assert HeadBlock(e[g.start], i) == t.list[i];
    }
    var ws, hw := InstallWrites(g, e), HomeWrites(t);
    forall i | 0 <= i < |t.list| ensures ws[i] == hw[i] {
      assert HeadBlock(e[g.start], i) == t.list[i];
    }
  }

  /** At the commit point the header and the log blocks describe exactly the transaction. */
  lemma CommittedHead(g: Geometry, d: Disk, t: Txn)
    requires Empty(g, d) && TxnOk(g, d, t)
    ensures HeadOk(g, Committed(g, d, t))
    ensures InstallWrites(g, Committed(g, d, t)) == HomeWrites(t)
  {
    CommittedFrame(g, d, t);
    CommittedList(g, d, t);
    forall i | 0 <= i < |t.list| ensures Committed(g, d, t)[g.start + 1 + i] == t.cache[t.list[i]] {
      LogWritten(g, d, t, i);
    }
    SpelledOut(g, Committed(g, d, t), t);
  }

  /** Commit's writes are: up to the commit point, then recovery's writes from there. */
  lemma CommitSplit(g: Geometry, d: Disk, t: Txn) returns (pre: seq<Write>, post: seq<Write>)
    requires Empty(g, d) && TxnOk(g, d, t)
    ensures CommitWrites(g, d[g.start], t) == pre + post
    ensures |pre| == |t.list| + 1 && Replay(d, pre) == Committed(g, d, t)
    ensures HeadOk(g, Committed(g, d, t)) && post == RecoverWrites(g, Committed(g, d, t))
  {
    var h := EncodeHead(d[g.start], t.list, |t.list|);
    pre, post := LogWrites(g, t) + [Write(g.start, h)], HomeWrites(t) + [Write(g.start, ClearHead(h))];
    assert pre[..|pre| - 1] == LogWrites(g, t);
    CommittedHead(g, d, t);
  }

  /** Installing a transaction on a disk whose home blocks are those of `d`. */
  lemma HomeInstalled(g: Geometry, d: Disk, e: Disk, t: Txn)
    requires TxnOk(g, d, t) && e.Keys == d.Keys && Home(g, e) == Home(g, d)
    ensures Home(g, Replay(e, HomeWrites(t))) == Applied(Home(g, d), t)
  {
    var hw := HomeWrites(t);
    ReplayKeys(e, hw);
    forall b | b in d && !g.InLog(b)
      ensures Replay(e, hw)[b] == if b in t.list then t.cache[b] else d[b]
    {
      assert Home(g, e)[b] == Home(g, d)[b];
      if b in t.list {
        var i :| 0 <= i < |t.list| && t.list[i] == b;
        assert hw[i].block == b;
        ReplayValue(e, hw, b, t.cache[b]);
      } else {
        assert !Writes(hw, b);
        ReplayFrame(e, hw, b);
      }
    }
  }

  /** Writes into the log area leave the home blocks alone. */
  lemma LogOnly(g: Geometry, d: Disk, ws: seq<Write>)
    requires g.Covers(d) && forall i :: 0 <= i < |ws| ==> g.InLog(ws[i].block)
    ensures Replay(d, ws).Keys == d.Keys && Home(g, Replay(d, ws)) == Home(g, d)
  {
    ReplayKeys(d, ws);
    forall b | b in d && !g.InLog(b) ensures Replay(d, ws)[b] == d[b] {
      assert !Writes(ws, b);
      ReplayFrame(d, ws, b);
    }
  }

  /** Before the header write, recovery finds the old home blocks. */
  lemma CrashBeforeHead(g: Geometry, d: Disk, t: Txn, k: nat)
    requires Empty(g, d) && TxnOk(g, d, t) && k <= |t.list|
    ensures var e := Replay(d, CommitWrites(g, d[g.start], t)[..k]);
            HeadOk(g, e) && Home(g, Recovered(g, e)) == Home(g, d)
  {
    var ws := LogWrites(g, t)[..k];
    assert CommitWrites(g, d[g.start], t)[..k] == ws;
    LogOnly(g, d, ws);
    assert !Writes(ws, g.start);
    ReplayFrame(d, ws, g.start);
    RecoverEmpty(g, Replay(d, ws));
  }

  lemma CommittedHome(g: Geometry, d: Disk, t: Txn)
    requires Empty(g, d) && TxnOk(g, d, t)
    ensures HeadOk(g, Committed(g, d, t))
    ensures Home(g, Recovered(g, Committed(g, d, t))) == Applied(Home(g, d), t)
  {
    CommittedHead(g, d, t);
    CommittedFrame(g, d, t);
    RecoveredHome(g, Committed(g, d, t));
    HomeInstalled(g, d, Committed(g, d, t), t);
  }

  /** From the header write on, recovery finds the whole transaction. */
  lemma CrashAfterHead(g: Geometry, d: Disk, t: Txn, k: nat)
    requires Empty(g, d) && TxnOk(g, d, t)
    requires |t.list| < k <= |CommitWrites(g, d[g.start], t)|
    ensures var e := Replay(d, CommitWrites(g, d[g.start], t)[..k]);
            HeadOk(g, e) && Home(g, Recovered(g, e)) == Applied(Home(g, d), t)
  {
    var pre, post := CommitSplit(g, d, t);
    var j := k - |pre|;
    assert (pre + post)[..k] == pre + post[..j];
    ReplayAppend(d, pre, post[..j]);
    CommittedHome(g, d, t);
    RecoveryCrash(g, Committed(g, d, t), j);
  }

  /** A commit that finishes leaves an empty log and the whole transaction at home. */
  lemma CommitComplete(g: Geometry, d: Disk, t: Txn)
    requires Empty(g, d) && TxnOk(g, d, t)
    ensures var e := Replay(d, CommitWrites(g, d[g.start], t));
            e.Keys == d.Keys && Empty(g, e) && Home(g, e) == Applied(Home(g, d), t)
  {
    var pre, post := CommitSplit(g, d, t);
    ReplayAppend(d, pre, post);
    CommittedFrame(g, d, t);
    CommittedHome(g, d, t);
    RecoveredHome(g, Committed(g, d, t));
  }

  /** A crash after the k-th write of commit, any number of crashes during recovery, then a
      recovery that completes: the home blocks are exactly those before the transaction when the
      header had not been written, and exactly those after all of it otherwise. */
  lemma CrashAtomicity(g: Geometry, d: Disk, t: Txn, k: nat, crashes: seq<nat>)
    requires Empty(g, d) && TxnOk(g, d, t)
    requires k <= |CommitWrites(g, d[g.start], t)|
    ensures var e := Replay(d, CommitWrites(g, d[g.start], t)[..k]);
            && HeadOk(g, e)
            && Home(g, Recovered(g, CrashedRecoveries(g, e, crashes))) ==
               if k <= |t.list| then Home(g, d) else Applied(Home(g, d), t)
  {
    if k <= |t.list| {
      CrashBeforeHead(g, d, t, k);
    } else {
      CrashAfterHead(g, d, t, k);
    }
    RepeatedRecoveryCrash(g, Replay(d, CommitWrites(g, d[g.start], t)[..k]), crashes);
  }

  // ---- whole runs ----

  /** What happens to the disk: a commit that gets `k` writes out (all of them, or a crash), and a
      boot whose recovery crashes after each count in `crashes` and then completes. */
  datatype Event = Commit(t: Txn, k: nat) | Boot(crashes: seq<nat>)

  /** Commits start only on an empty log; after a crash the machine boots first. */
  ghost predicate Enabled(g: Geometry, d: Disk, ev: Event) {
    && HeadOk(g, d)
    && (ev.Commit? ==> Empty(g, d) && TxnOk(g, d, ev.t) && ev.k <= |CommitWrites(g, d[g.start], ev.t)|)
  }

  function Step(g: Geometry, d: Disk, ev: Event): Disk
    requires Enabled(g, d, ev)
  {
    match ev
    case Commit(t, k) => Replay(d, CommitWrites(g, d[g.start], t)[..k])
    case Boot(crashes) => Recovered(g, CrashedRecoveries(g, d, crashes))
  }

  ghost predicate IsRun(g: Geometry, d: Disk, evs: seq<Event>)
    decreases |evs|
  {
    evs == [] || (Enabled(g, d, evs[0]) && IsRun(g, Step(g, d, evs[0]), evs[1..]))
  }

  function Run(g: Geometry, d: Disk, evs: seq<Event>): Disk
    requires IsRun(g, d, evs)
    decreases |evs|
  {
    if evs == [] then d else Run(g, Step(g, d, evs[0]), evs[1..])
  }

  /** The file system's own view of a run: each transaction happens as a whole or not at all, and
      it happens exactly when its header was written. */
  ghost function Ideal(home: Disk, evs: seq<Event>): Disk
    decreases |evs|
  {
    if evs == [] then home
    else
      var next := if evs[0].Commit? && evs[0].k > |evs[0].t.list| then Applied(home, evs[0].t) else home;
      Ideal(next, evs[1..])
  }

  lemma StepIdeal(g: Geometry, d: Disk, ev: Event)
    requires Enabled(g, d, ev)
    ensures var e := Step(g, d, ev);
            && HeadOk(g, e)
            && (ev.Boot? ==> Empty(g, e))
            && Home(g, Recovered(g, e)) ==
               if ev.Commit? && ev.k > |ev.t.list| then Applied(Home(g, Recovered(g, d)), ev.t)
               else Home(g, Recovered(g, d))
  {
    match ev
    case Commit(t, k) =>
      RecoverEmpty(g, d);
      if k <= |t.list| {
        CrashBeforeHead(g, d, t, k);
      } else {
        CrashAfterHead(g, d, t, k);
      }
    case Boot(crashes) =>
      var e := CrashedRecoveries(g, d, crashes);
      RepeatedRecoveryCrash(g, d, crashes);
      RecoveredHome(g, e);
      RecoverEmpty(g, Recovered(g, e));
  }

  /** Over every run of commits, crashes and boots, recovering the disk yields the ideal history. */
  lemma {:induction false} RunAtomicity(g: Geometry, d: Disk, evs: seq<Event>)
    requires HeadOk(g, d) && IsRun(g, d, evs)
    ensures HeadOk(g, Run(g, d, evs))
    ensures Home(g, Recovered(g, Run(g, d, evs))) == Ideal(Home(g, Recovered(g, d)), evs)
    decreases |evs|
  {
    if evs != [] {
      StepIdeal(g, d, evs[0]);
      RunAtomicity(g, Step(g, d, evs[0]), evs[1..]);
    }
  }
}
