/** The block cache: a ring of buffers in most-recently-used order over one disk (system/storage/bio.c,
    with the disk request contract of system/storage/memide.c).  A buffer pointer is an index into
    the buffer table, and the prev/next links are tables beside it with one more entry for the head. */
module BufferCache {
  import opened Params
  import opened Bytes
  import opened LogCrash
  import opened Sets

  const ROOTDEV: nat := 1
  const HEAD: nat := NBUF

  // ---- the doubly linked ring ----

  /** The i-th node of a ring: the head stands at -1 and again at the end. */
  function Node(ring: seq<nat>, i: int): nat
    requires -1 <= i <= |ring|
  {
    if 0 <= i < |ring| then ring[i] else HEAD
  }

  /** Some of the buffers, each once. */
  ghost predicate Distinct(ring: seq<nat>) {
    && (forall i :: 0 <= i < |ring| ==> ring[i] < NBUF)
    && (forall i, j :: 0 <= i < j < |ring| ==> ring[i] != ring[j])
  }

  /** Following `next` from the head visits `ring` in order and returns. */
  ghost predicate Forward(next: seq<nat>, ring: seq<nat>) {
    && |next| == NBUF + 1 && next[HEAD] == Node(ring, 0)
    && forall i {:trigger next[ring[i]]} :: 0 <= i < |ring| && ring[i] < NBUF ==> next[ring[i]] == Node(ring, i + 1)
  }

  /** Following `prev` from the head visits `ring` in the opposite order. */
  ghost predicate Backward(prev: seq<nat>, ring: seq<nat>) {
    && |prev| == NBUF + 1 && prev[HEAD] == Node(ring, |ring| - 1)
    && forall i {:trigger prev[ring[i]]} :: 0 <= i < |ring| && ring[i] < NBUF ==> prev[ring[i]] == Node(ring, i - 1)
  }

  ghost predicate Chain(prev: seq<nat>, next: seq<nat>, ring: seq<nat>) {
    Distinct(ring) && Forward(next, ring) && Backward(prev, ring)
  }

  /** The ring holds every buffer exactly once. */
  ghost predicate Linked(prev: seq<nat>, next: seq<nat>, ring: seq<nat>) {
    Chain(prev, next, ring) && forall b: nat :: b < NBUF ==> b in ring
  }

  function Without(ring: seq<nat>, k: nat): (r: seq<nat>)
    requires k < |ring|
    ensures |r| == |ring| - 1
    ensures forall i :: 0 <= i < k ==> r[i] == ring[i]
    ensures forall i :: k <= i < |r| ==> r[i] == ring[i + 1]
  {
    ring[..k] + ring[k + 1..]
  }

  /** Moving one buffer to the front of a ring that holds every buffer once. */
  lemma FrontCovers(ring: seq<nat>, k: nat)
    requires Distinct(ring) && k < |ring| && forall b: nat :: b < NBUF ==> b in ring
    ensures Distinct(Without(ring, k)) && ring[k] !in Without(ring, k)
    ensures Distinct([ring[k]] + Without(ring, k))
    ensures forall b: nat :: b < NBUF ==> b in [ring[k]] + Without(ring, k)
  {
    var r := [ring[k]] + Without(ring, k);
    forall b: nat | b < NBUF ensures b in r {
      assert b in ring;
      var i :| 0 <= i < |ring| && ring[i] == b;
      assert i == k || r[if i < k then i + 1 else i] == b;
    }
  }

  lemma UnlinkForward(next: seq<nat>, ring: seq<nat>, k: nat)
    requires Distinct(ring) && Forward(next, ring) && k < |ring|
    ensures next[ring[k]] == Node(ring, k + 1)
    ensures Forward(next[Node(ring, k - 1) := Node(ring, k + 1)], Without(ring, k))
  {
    var rest, n := Without(ring, k), next[Node(ring, k - 1) := Node(ring, k + 1)];
    forall i {:trigger n[rest[i]]} | 0 <= i < |rest| && rest[i] < NBUF ensures n[rest[i]] == Node(rest, i + 1) {
      var j := if i < k then i else i + 1;
      assert rest[i] == ring[j] && next[ring[j]] == Node(ring, j + 1);
    }
  }

  lemma UnlinkBackward(prev: seq<nat>, ring: seq<nat>, k: nat)
    requires Distinct(ring) && Backward(prev, ring) && k < |ring|
    ensures prev[ring[k]] == Node(ring, k - 1)
    ensures Backward(prev[Node(ring, k + 1) := Node(ring, k - 1)], Without(ring, k))
  {
    var rest, p := Without(ring, k), prev[Node(ring, k + 1) := Node(ring, k - 1)];
    forall i {:trigger p[rest[i]]} | 0 <= i < |rest| && rest[i] < NBUF ensures p[rest[i]] == Node(rest, i - 1) {
      var j := if i < k then i else i + 1;
      assert rest[i] == ring[j] && prev[ring[j]] == Node(ring, j - 1);
    }
  }

  lemma LinkFrontForward(next: seq<nat>, ring: seq<nat>, b: nat)
    requires Distinct(ring) && Forward(next, ring) && b < NBUF && b !in ring
    ensures Forward(next[b := Node(ring, 0)][HEAD := b], [b] + ring)
  {
    var longer, n := [b] + ring, next[b := Node(ring, 0)][HEAD := b];
    forall i {:trigger n[longer[i]]} | 0 <= i < |longer| && longer[i] < NBUF
      ensures n[longer[i]] == Node(longer, i + 1)
    {
      if i > 0 {
        assert next[ring[i - 1]] == Node(ring, i);
      }
    }
  }

  lemma LinkFrontBackward(prev: seq<nat>, ring: seq<nat>, b: nat)
    requires Distinct(ring) && Backward(prev, ring) && b < NBUF && b !in ring
    ensures Backward(prev[b := HEAD][Node(ring, 0) := b], [b] + ring)
  {
    var longer, p := [b] + ring, prev[b := HEAD][Node(ring, 0) := b];
    forall i {:trigger p[longer[i]]} | 0 <= i < |longer| && longer[i] < NBUF
      ensures p[longer[i]] == Node(longer, i - 1)
    {
      if i == 1 {
        assert longer[1] == Node(ring, 0);
      } else if i > 1 {
        assert longer[i] == ring[i - 1] != ring[0];
        assert prev[ring[i - 1]] == Node(ring, i - 2);
      }
    }
  }

  // ---- coherence ----

  datatype Buf = Buf(
    dev: nat, blockno: nat,
    valid: bool,    // B_VALID
    dirty: bool,    // B_DIRTY
    refcnt: nat,
    locked: bool,   // the buffer's sleep lock
    data: Block)

  const ZEROED := Buf(0, 0, false, false, 0, false, seq(BSIZE, _ => 0))

  /** Buffer `b` is unused, or it is the buffer that `at` gives for its block. */
  ghost predicate SlotOk(buf: seq<Buf>, at: map<nat, nat>, b: nat) {
    b < |buf| && (buf[b].dev == 0 || (buf[b].dev == ROOTDEV && buf[b].blockno in at && at[buf[b].blockno] == b))
  }

  ghost predicate EntryOk(buf: seq<Buf>, at: map<nat, nat>, n: nat) {
    n in at ==> at[n] < |buf| && buf[at[n]].dev == ROOTDEV && buf[at[n]].blockno == n
  }

  /** `at` says which buffer holds a block of the disk; no two buffers hold the same one. */
  ghost predicate Indexed(buf: seq<Buf>, at: map<nat, nat>) {
    && |buf| == NBUF
    && (forall b: nat :: b < NBUF ==> SlotOk(buf, at, b))
    && (forall n: nat :: EntryOk(buf, at, n))
  }

  /** Two buffers on the same block of a real device are the same buffer. */
  lemma AtMostOneBuffer(buf: seq<Buf>, at: map<nat, nat>, b: nat, c: nat)
    requires Indexed(buf, at) && b < NBUF && c < NBUF
    requires buf[b].dev == buf[c].dev != 0 && buf[b].blockno == buf[c].blockno
    ensures b == c
  {
    assert SlotOk(buf, at, b) && SlotOk(buf, at, c);
  }

  /** One buffer beside the last recorded contents of its block and the disk's: when nobody has it
      locked a valid buffer shows the recorded contents, and only a dirty one is ahead of the disk. */
  ghost predicate BufOk(b: Buf, latest: Disk, disk: Disk) {
    && (b.locked ==> b.refcnt > 0)
    && (b.dirty ==> b.valid)
    && (b.dev == 0 ==> !b.dirty && b.refcnt == 0)
    && (b.dev != 0 ==> b.blockno in latest && b.blockno in disk)
    && (b.dev != 0 && !b.dirty ==> latest[b.blockno] == disk[b.blockno])
    && (b.dev != 0 && b.valid && !b.locked ==> b.data == latest[b.blockno])
  }

  ghost predicate CellOk(buf: seq<Buf>, latest: Disk, disk: Disk, b: nat) {
    b < |buf| && BufOk(buf[b], latest, disk)
  }

  /** A block no buffer holds is as recorded. */
  ghost predicate UncachedOk(at: map<nat, nat>, latest: Disk, disk: Disk, n: nat) {
    n in latest && n in disk && n !in at ==> latest[n] == disk[n]
  }

  /** `latest` is what bwrite and log_write last recorded for each block. */
  ghost predicate Coherent(buf: seq<Buf>, at: map<nat, nat>, latest: Disk, disk: Disk) {
    && latest.Keys == disk.Keys
    && (forall b: nat :: b < NBUF ==> CellOk(buf, latest, disk, b))
    && (forall n: nat :: UncachedOk(at, latest, disk, n))
  }

  ghost predicate CountAt(buf: seq<Buf>, who: set<nat>, c: nat) {
    c < |buf| ==> buf[c].refcnt == if c in who then 1 else 0
  }

  /** The buffers in use are these, by one caller each. */
  ghost predicate InUse(buf: seq<Buf>, who: set<nat>) {
    forall c: nat :: CountAt(buf, who, c)
  }

  /** One buffer changes, and with it perhaps whether it is in use. */
  lemma InUseNow(was: seq<Buf>, before: set<nat>, buf: seq<Buf>, after: set<nat>, b: nat)
    requires InUse(was, before) && b < |was| == |buf| && buf == was[b := buf[b]]
    requires after == before || after == before + {b} || after == before - {b}
    requires buf[b].refcnt == if b in after then 1 else 0
    ensures InUse(buf, after)
  {
    forall c: nat ensures CountAt(buf, after, c) {
      assert CountAt(was, before, c);
    }
  }

  predicate Reusable(b: Buf) {
    b.refcnt == 0 && !b.dirty
  }

  /** Buffer `b` given over to another block. */
  function Recycle(buf: seq<Buf>, b: nat, blockno: nat): seq<Buf>
    requires b < |buf|
  {
    buf[b := buf[b].(dev := ROOTDEV, blockno := blockno, valid := false, dirty := false, refcnt := 1)]
  }

  function Reindex(buf: seq<Buf>, at: map<nat, nat>, b: nat, blockno: nat): map<nat, nat>
    requires b < |buf|
  {
    (if buf[b].dev == ROOTDEV then at - {buf[b].blockno} else at)[blockno := b]
  }

  /** A buffer may be given to another block as long as it is neither in use nor ahead of the disk. */
  lemma RecycleKeeps(buf: seq<Buf>, at: map<nat, nat>, latest: Disk, disk: Disk, b: nat, blockno: nat)
    requires Indexed(buf, at) && Coherent(buf, at, latest, disk)
    requires b < NBUF && Reusable(buf[b]) && blockno !in at && blockno in disk
    ensures Indexed(Recycle(buf, b, blockno), Reindex(buf, at, b, blockno))
    ensures Coherent(Recycle(buf, b, blockno), Reindex(buf, at, b, blockno), latest, disk)
  {
    var buf', at' := Recycle(buf, b, blockno), Reindex(buf, at, b, blockno);
    assert SlotOk(buf, at, b) && CellOk(buf, latest, disk, b) && UncachedOk(at, latest, disk, blockno);
    forall c: nat | c < NBUF ensures SlotOk(buf', at', c) && CellOk(buf', latest, disk, c) {
      assert SlotOk(buf, at, c) && CellOk(buf, latest, disk, c);
    }
    forall n: nat ensures EntryOk(buf', at', n) && UncachedOk(at', latest, disk, n) {
      assert EntryOk(buf, at, n) && UncachedOk(at, latest, disk, n);
    }
  }

  /** Changing one buffer in place, while it stays on its block, is judged by that buffer alone. */
  lemma UpdateKeeps(buf: seq<Buf>, at: map<nat, nat>, latest: Disk, disk: Disk, b: nat, r: Buf)
    requires Indexed(buf, at) && Coherent(buf, at, latest, disk)
    requires b < NBUF && r.dev == buf[b].dev && r.blockno == buf[b].blockno && BufOk(r, latest, disk)
    ensures Indexed(buf[b := r], at) && Coherent(buf[b := r], at, latest, disk)
  {
    var buf' := buf[b := r];
    forall c: nat | c < NBUF ensures SlotOk(buf', at, c) && CellOk(buf', latest, disk, c) {
      assert SlotOk(buf, at, c) && CellOk(buf, latest, disk, c);
    }
    forall n: nat ensures EntryOk(buf', at, n) {
      assert EntryOk(buf, at, n);
    }
  }

  /** Recording new contents for one block, in the cache and perhaps on the disk, concerns only the
      buffer that holds the block. */
  lemma RecordKeeps(buf: seq<Buf>, at: map<nat, nat>, latest: Disk, disk: Disk, b: nat, r: Buf, disk': Disk)
    requires Indexed(buf, at) && Coherent(buf, at, latest, disk)
    requires b < NBUF && r.dev == buf[b].dev == ROOTDEV && r.blockno == buf[b].blockno
    requires disk' == disk || disk' == disk[r.blockno := r.data]
    requires BufOk(r, latest[r.blockno := r.data], disk')
    ensures Indexed(buf[b := r], at)
    ensures Coherent(buf[b := r], at, latest[r.blockno := r.data], disk')
  {
    var buf', latest' := buf[b := r], latest[r.blockno := r.data];
    assert SlotOk(buf, at, b) && CellOk(buf, latest, disk, b);
    forall c: nat | c < NBUF ensures SlotOk(buf', at, c) && CellOk(buf', latest', disk', c) {
      assert SlotOk(buf, at, c) && CellOk(buf, latest, disk, c);
    }
    forall n: nat ensures EntryOk(buf', at, n) && UncachedOk(at, latest', disk', n) {
      assert EntryOk(buf, at, n) && UncachedOk(at, latest, disk, n);
    }
  }

  /** The buffers some caller has locked. */
  ghost function HeldIn(buf: seq<Buf>): set<nat> {
    set b | 0 <= b < |buf| && buf[b].locked
  }

  ghost predicate IsDirty(buf: seq<Buf>, b: nat) {
    b < |buf| && buf[b].dirty
  }

  /** The blocks whose buffer is dirty. */
  ghost function DirtyIn(buf: seq<Buf>): set<nat> {
    set b: nat {:trigger IsDirty(buf, b)} | b < |buf| && IsDirty(buf, b) :: buf[b].blockno
  }

  lemma DirtyWhere(buf: seq<Buf>, n: nat) returns (b: nat)
    requires n in DirtyIn(buf)
    ensures b < |buf| && buf[b].dirty && buf[b].blockno == n
  {
    b :| b < |buf| && IsDirty(buf, b) && buf[b].blockno == n;
  }

  lemma DirtyThere(buf: seq<Buf>, b: nat)
    requires b < |buf| && buf[b].dirty
    ensures buf[b].blockno in DirtyIn(buf)
  {
    assert IsDirty(buf, b);
  }

  /** The same among the first k buffers, for counting. */
  ghost function DirtyTo(buf: seq<Buf>, k: nat): set<nat>
    requires k <= |buf|
  {
    if k == 0 then {} else DirtyTo(buf, k - 1) + if buf[k - 1].dirty then {buf[k - 1].blockno} else {}
  }

  lemma {:induction false} DirtyAre(buf: seq<Buf>, k: nat)
    requires k <= |buf|
    ensures forall n: nat :: n in DirtyTo(buf, k) <==> exists b: nat :: b < k && IsDirty(buf, b) && buf[b].blockno == n
  {
    if k > 0 {
      DirtyAre(buf, k - 1);
      forall n: nat | n in DirtyTo(buf, k)
        ensures exists b: nat :: b < k && IsDirty(buf, b) && buf[b].blockno == n
      {
        assert n in DirtyTo(buf, k - 1) || IsDirty(buf, k - 1);
      }
      forall b: nat | b < k && IsDirty(buf, b) ensures buf[b].blockno in DirtyTo(buf, k) {
        assert b == k - 1 || buf[b].blockno in DirtyTo(buf, k - 1);
      }
    }
  }

  lemma DirtyToIs(buf: seq<Buf>)
    ensures DirtyIn(buf) == DirtyTo(buf, |buf|)
  {
    DirtyAre(buf, |buf|);
    forall n | n in DirtyIn(buf) ensures n in DirtyTo(buf, |buf|) {
      var b := DirtyWhere(buf, n);
      assert IsDirty(buf, b);
    }
  }

  lemma UpdateSets(buf: seq<Buf>, b: nat, r: Buf)
    requires b < |buf|
    ensures HeldIn(buf[b := r]) == if r.locked then HeldIn(buf) + {b} else HeldIn(buf) - {b}
    ensures r.dirty == buf[b].dirty && (r.dirty ==> r.blockno == buf[b].blockno) ==>
              DirtyIn(buf[b := r]) == DirtyIn(buf)
  {
    var buf' := buf[b := r];
    assert forall c :: 0 <= c < |buf| && c != b ==> buf'[c] == buf[c];
    if r.dirty == buf[b].dirty && (r.dirty ==> r.blockno == buf[b].blockno) {
      forall n | n in DirtyIn(buf) ensures n in DirtyIn(buf') {
        var c := DirtyWhere(buf, n);
        DirtyThere(buf', c);
      }
      forall n | n in DirtyIn(buf') ensures n in DirtyIn(buf) {
        var c := DirtyWhere(buf', n);
        DirtyThere(buf, c);
      }
    }
  }

  /** Each dirty block needs a buffer of its own. */
  lemma {:induction false} DirtyCount(buf: seq<Buf>, k: nat)
    requires k <= |buf|
    ensures |DirtyTo(buf, k)| <= k
    ensures |DirtyTo(buf, k)| == k ==> forall b: nat :: b < k ==> IsDirty(buf, b)
  {
    if k > 0 {
      DirtyCount(buf, k - 1);
      OneMore(DirtyTo(buf, k - 1), buf[k - 1].blockno);
      if |DirtyTo(buf, k)| == k {
        forall b: nat | b < k ensures IsDirty(buf, b) {
          assert b < k - 1 ==> IsDirty(buf, b);
        }
      }
    }
  }

  lemma DirtyBound(buf: seq<Buf>)
    ensures |DirtyIn(buf)| <= |buf|
    ensures |DirtyIn(buf)| == |buf| ==> forall b :: 0 <= b < |buf| ==> buf[b].dirty
  {
    DirtyCount(buf, |buf|);
    DirtyToIs(buf);
    if |DirtyIn(buf)| == |buf| {
      forall b | 0 <= b < |buf| ensures buf[b].dirty {
        assert IsDirty(buf, b);
      }
    }
  }

  /** No two dirty buffers are on the same block. */
  ghost predicate DirtyApart(buf: seq<Buf>) {
    forall i, j :: 0 <= i < j < |buf| && buf[i].dirty && buf[j].dirty ==> buf[i].blockno != buf[j].blockno
  }

  /** If all of the first k buffers but perhaps `skip` are dirty, there are as many dirty blocks. */
  lemma {:induction false} DirtyAtLeast(buf: seq<Buf>, k: nat, skip: nat)
    requires k <= |buf| && DirtyApart(buf) && forall b :: 0 <= b < |buf| && b != skip ==> buf[b].dirty
    ensures |DirtyTo(buf, k)| >= if skip < k then k - 1 else k
  {
    if k > 0 {
      DirtyAtLeast(buf, k - 1, skip);
      OneMore(DirtyTo(buf, k - 1), buf[k - 1].blockno);
      if k - 1 != skip {
        DirtyAre(buf, k - 1);
        assert buf[k - 1].blockno !in DirtyTo(buf, k - 1);
      }
    }
  }

  lemma ApartInCache(buf: seq<Buf>, at: map<nat, nat>, latest: Disk, disk: Disk)
    requires Indexed(buf, at) && Coherent(buf, at, latest, disk)
    ensures DirtyApart(buf)
  {
    forall i: nat, j: nat | i < j < |buf| && buf[i].dirty && buf[j].dirty ensures buf[i].blockno != buf[j].blockno {
      assert SlotOk(buf, at, i) && SlotOk(buf, at, j) && CellOk(buf, latest, disk, i) && CellOk(buf, latest, disk, j);
    }
  }

  /** Setting or clearing one buffer's dirty flag adds or removes its block and no other. */
  lemma DirtySets(buf: seq<Buf>, at: map<nat, nat>, latest: Disk, disk: Disk, b: nat, r: Buf)
    requires Indexed(buf, at) && b < NBUF && buf[b].dev == ROOTDEV && r.blockno == buf[b].blockno
    requires Coherent(buf, at, latest, disk)
    ensures DirtyIn(buf[b := r]) == if r.dirty then DirtyIn(buf) + {r.blockno} else DirtyIn(buf) - {r.blockno}
  {
    var buf' := buf[b := r];
    forall n | n in DirtyIn(buf) && n != r.blockno ensures n in DirtyIn(buf') {
      var c := DirtyWhere(buf, n);
      DirtyThere(buf', c);
    }
    forall n | n in DirtyIn(buf') ensures n == r.blockno || n in DirtyIn(buf) {
      var c := DirtyWhere(buf', n);
      if c != b {
        DirtyThere(buf, c);
      }
    }
    if r.dirty {
      DirtyThere(buf', b);
    } else {
      forall c: nat | c < NBUF && IsDirty(buf', c) ensures buf'[c].blockno != r.blockno {
        assert SlotOk(buf, at, c) && SlotOk(buf, at, b) && CellOk(buf, latest, disk, c);
      }
    }
  }

  /** The disk; `trace` records every block write since boot. */
  class Ide {
    var disk: Disk
    ghost var trace: seq<Write>

    constructor (image: Disk)
      ensures disk == image && trace == []
    {
      disk := image;
      trace := [];
    }

    /** iderw: write a dirty buffer out, or read an invalid one in. */
    method Rw(b: Buf) returns (r: Buf)
      requires b.locked && (b.dirty || !b.valid) && b.dev == ROOTDEV && b.blockno in disk
      modifies this
      ensures disk.Keys == old(disk.Keys)
      ensures b.dirty ==> r == b.(dirty := false, valid := true)
      ensures b.dirty ==> disk == old(disk)[b.blockno := b.data] && trace == old(trace) + [Write(b.blockno, b.data)]
      ensures !b.dirty ==> r == b.(data := disk[b.blockno], valid := true) && disk == old(disk) && trace == old(trace)
    {
      r := b;
      if b.dirty {
        r := r.(dirty := false);
        disk := disk[b.blockno := b.data];
        trace := trace + [Write(b.blockno, b.data)];
      } else {
        r := r.(data := disk[b.blockno]);
      }
      r := r.(valid := true);
    }
  }

  class BCache {
    const ide: Ide
    var buf: seq<Buf>
    var prev: seq<nat>
    var next: seq<nat>
    ghost var ring: seq<nat>          // most recently used first
    ghost var at: map<nat, nat>
    ghost var latest: Disk

    /** The list is sound. */
    ghost predicate Listed()
      reads this`prev, this`next, this`ring
    {
      Linked(prev, next, ring)
    }

    /** The contents are sound. */
    ghost predicate Valid()
      reads this`buf, this`at, this`latest, ide
    {
      Indexed(buf, at) && Coherent(buf, at, latest, ide.disk)
    }

    ghost predicate Cached(n: nat)
      reads this
    {
      n in at
    }

    /** binit: every buffer zeroed and linked in. */
    constructor (image: Disk)
      ensures Listed() && Valid() && fresh(ide)
      ensures ide.disk == image && ide.trace == [] && latest == image
      ensures Idle() && Dirty() == {} && forall b :: 0 <= b < NBUF ==> Reusable(buf[b]) && !buf[b].locked
    {
      var p: seq<nat>, n: seq<nat> := seq(NBUF + 1, _ => HEAD), seq(NBUF + 1, _ => HEAD);
      ghost var r: seq<nat> := [];
      for b := 0 to NBUF
        invariant Chain(p, n, r) && forall c: nat :: c in r <==> c < b
      {
        LinkFrontForward(n, r, b);
        LinkFrontBackward(p, r, b);
        p, n, r := p[b := HEAD][n[HEAD] := b], n[b := n[HEAD]][HEAD := b], [b] + r;
      }
      prev, next, ring := p, n, r;
      at, latest := map[], image;
      buf := seq(NBUF, _ => ZEROED);
      ide := new Ide(image);
    }

    // ---- bget, bread, bwrite, brelse ----

    /** bget's first scan, forward through the ring: is the block already cached? */
    method Lookup(dev: nat, blockno: nat) returns (b: nat)
      requires Listed() && Valid() && dev == ROOTDEV
      ensures b == if Cached(blockno) then at[blockno] else HEAD
      ensures Cached(blockno) ==> b < HEAD
    {
      b := next[HEAD];
      ghost var i := 0;
      while b != HEAD
        invariant 0 <= i <= |ring| && b == Node(ring, i)
        invariant forall j :: 0 <= j < i ==> !(buf[ring[j]].dev == dev && buf[ring[j]].blockno == blockno)
        decreases |ring| - i
      {
        assert SlotOk(buf, at, b);
        if buf[b].dev == dev && buf[b].blockno == blockno {
          return;
        }
        assert next[ring[i]] == Node(ring, i + 1);
        b, i := next[b], i + 1;
      }
      assert EntryOk(buf, at, blockno);
      forall c: nat | c < NBUF ensures !(buf[c].dev == dev && buf[c].blockno == blockno) {
        assert c in ring;
      }
    }

    /** Buffer b can be recycled, and none can that was used less recently: released ones go to the front of the
        ring. */
    ghost predicate LeastRecent(b: nat)
      requires Listed() && |buf| == NBUF
      reads this
    {
      exists k :: 0 <= k < |ring| && ring[k] == b && Reusable(buf[b]) &&
        forall j :: k < j < |ring| ==> !Reusable(buf[ring[j]])
    }

    /** bget's second scan, backward: the least recently used buffer nobody needs. */
    method FindReusable() returns (b: nat)
      requires Listed() && |buf| == NBUF
      ensures b <= HEAD
      ensures b == HEAD <==> forall c :: 0 <= c < NBUF ==> !Reusable(buf[c])
      ensures b != HEAD ==> Reusable(buf[b]) && LeastRecent(b)
    {
      b := prev[HEAD];
      ghost var i := |ring| - 1;
      while b != HEAD
        invariant -1 <= i < |ring| && b == Node(ring, i)
        invariant forall j :: i < j < |ring| ==> !Reusable(buf[ring[j]])
        decreases i
      {
        if buf[b].refcnt == 0 && !buf[b].dirty {
          return;
        }
        assert prev[ring[i]] == Node(ring, i - 1);
        b, i := prev[b], i - 1;
      }
      forall c: nat | c < NBUF ensures !Reusable(buf[c]) {
        assert c in ring;
      }
    }

    ghost function Held(): set<nat>
      reads this`buf
    {
      HeldIn(buf)
    }

    ghost function Dirty(): set<nat>
      reads this`buf
    {
      DirtyIn(buf)
    }

    /** Nothing to recycle: every buffer is referenced or dirty. */
    ghost predicate Full()
      reads this
    {
      forall c :: 0 <= c < |buf| ==> !Reusable(buf[c])
    }

    /** bget, under the cache lock: find the block's buffer, or recycle one; HEAD stands for the
        panic for want of a buffer. */
    method Bget(dev: nat, blockno: nat) returns (b: nat)
      requires Listed() && Valid() && dev == ROOTDEV && blockno in ide.disk
      modifies this`buf, this`at
      ensures Valid() && b <= HEAD
      ensures b == HEAD <==> old(!Cached(blockno) && Full())
      ensures b == HEAD ==> buf == old(buf) && at == old(at)
      ensures Held() == old(Held()) && Dirty() == old(Dirty())
      ensures b != HEAD ==> buf[b].dev == ROOTDEV && buf[b].blockno == blockno
      ensures b != HEAD && old(Cached(blockno)) ==>
                b == old(at[blockno]) && at == old(at) && buf == old(buf[b := buf[b].(refcnt := buf[b].refcnt + 1)])
      ensures b != HEAD && !old(Cached(blockno)) ==>
                old(LeastRecent(b)) && buf == old(Recycle(buf, b, blockno)) && at == old(Reindex(buf, at, b, blockno))
    {
      b := Lookup(dev, blockno);
      if b != HEAD {
        assert EntryOk(buf, at, blockno) && CellOk(buf, latest, ide.disk, b);
        Update(b, buf[b].(refcnt := buf[b].refcnt + 1));
        return;
      }
      b := FindReusable();
      if b != HEAD {
        Reuse(b, blockno);
      }
    }

    /** Store new contents in the buffer structure `b`, which stays on its block. */
    method Update(b: nat, r: Buf)
      requires Valid() && b < NBUF && r.dev == buf[b].dev && r.blockno == buf[b].blockno
      requires BufOk(buf[b], latest, ide.disk) ==> BufOk(r, latest, ide.disk)
      modifies this`buf
      ensures Valid() && buf == old(buf)[b := r]
      ensures Held() == if r.locked then old(Held()) + {b} else old(Held()) - {b}
      ensures r.dirty == old(buf[b].dirty) ==> Dirty() == old(Dirty())
    {
      UpdateSets(buf, b, r);
      assert CellOk(buf, latest, ide.disk, b);
      UpdateKeeps(buf, at, latest, ide.disk, b, r);
      buf := buf[b := r];
    }

    method Reuse(b: nat, blockno: nat)
      requires Valid() && b < NBUF && Reusable(buf[b]) && !Cached(blockno) && blockno in ide.disk
      modifies this`buf, this`at
      ensures Valid() && buf == old(Recycle(buf, b, blockno)) && at == old(Reindex(buf, at, b, blockno))
      ensures Held() == old(Held()) && Dirty() == old(Dirty())
    {
      assert CellOk(buf, latest, ide.disk, b);
      UpdateSets(buf, b, Recycle(buf, b, blockno)[b]);
      RecycleKeeps(buf, at, latest, ide.disk, b, blockno);
      at := Reindex(buf, at, b, blockno);
      buf := Recycle(buf, b, blockno);
    }

    /** bread: the block's buffer, locked, showing the contents last recorded for the block.  The
        sleep lock has been granted, so nobody else holds it. */
    method Bread(blockno: nat) returns (b: nat)
      requires Listed() && Valid() && blockno in ide.disk
      requires forall c :: c in Held() ==> buf[c].blockno != blockno
      modifies this`buf, this`at, ide
      ensures Valid() && b <= HEAD && ide.disk == old(ide.disk) && ide.trace == old(ide.trace)
      ensures b == HEAD <==> old(!Cached(blockno) && Full())
      ensures b == HEAD ==> buf == old(buf) && at == old(at)
      ensures b != HEAD ==> Holds(b, blockno) && buf[b].data == latest[blockno]
      ensures b != HEAD ==> b !in old(Held()) && Held() == old(Held()) + {b} && Dirty() == old(Dirty())
      ensures b != HEAD ==> buf == old(buf)[b := buf[b]] && buf[b].refcnt == old(buf[b].refcnt) + 1
      ensures b != HEAD ==> if old(Cached(blockno)) then b == old(at[blockno]) else old(LeastRecent(b))
    {
      b := Bget(ROOTDEV, blockno);
      if b != HEAD {
        assert CellOk(buf, latest, ide.disk, b) && CellOk(old(buf), latest, ide.disk, b);
        var r := buf[b].(locked := true);
        if !r.valid {
          r := ide.Rw(r);
        }
        Update(b, r);
      }
    }

    /** The caller has buffer `b`, for block `blockno`, locked and filled. */
    ghost predicate Holds(b: nat, blockno: nat)
      reads this
    {
      b < |buf| && buf[b].locked && buf[b].valid && buf[b].dev == ROOTDEV && buf[b].blockno == blockno
    }

    /** Nobody has a reference to a buffer. */
    ghost predicate Idle()
      reads this`buf
    {
      InUse(buf, {})
    }

    /** An idle cache is full exactly if every buffer is dirty. */
    lemma FullWhenIdle()
      requires Valid() && Idle()
      ensures Held() == {} && (Full() <==> |Dirty()| == NBUF) && |Dirty()| <= NBUF
    {
      ApartInCache(buf, at, latest, ide.disk);
      DirtyBound(buf);
      DirtyToIs(buf);
      if Full() {
        forall c | 0 <= c < |buf| ensures buf[c].dirty {
          assert CountAt(buf, {}, c);
        }
        DirtyAtLeast(buf, |buf|, NBUF);
      }
      forall c: nat | c < |buf| ensures !buf[c].locked {
        assert CellOk(buf, latest, ide.disk, c) && CountAt(buf, {}, c);
      }
    }

    /** With one buffer in use there is still another as long as two are not dirty. */
    lemma RoomForTwo(b: nat)
      requires Valid() && b < NBUF && InUse(buf, {b}) && |Dirty()| + 1 < NBUF
      ensures !Full()
    {
      ApartInCache(buf, at, latest, ide.disk);
      DirtyToIs(buf);
      if Full() {
        forall c | 0 <= c < |buf| && c != b ensures buf[c].dirty {
          assert CountAt(buf, {b}, c);
        }
        DirtyAtLeast(buf, |buf|, b);
      }
    }

    lemma DirtyIsCached(n: nat)
      requires Valid() && n in Dirty()
      ensures Cached(n)
    {
      var b := DirtyWhere(buf, n);
      assert SlotOk(buf, at, b) && CellOk(buf, latest, ide.disk, b);
    }

    /** NBUF dirty blocks fill the cache: bread of any other block then panics. */
    lemma DirtyFillsCache(n: nat)
      requires Valid() && |Dirty()| == NBUF && n !in Dirty()
      ensures !Cached(n) && Full()
    {
      DirtyBound(buf);
      assert EntryOk(buf, at, n);
      if n in at {
        DirtyThere(buf, at[n]);
      }
    }

    /** Only a dirty buffer is ahead of the disk. */
    lemma CleanAgrees(n: nat)
      requires Valid() && n in ide.disk && n !in Dirty()
      ensures latest[n] == ide.disk[n]
    {
      assert EntryOk(buf, at, n) && UncachedOk(at, latest, ide.disk, n);
      if n in at {
        assert CellOk(buf, latest, ide.disk, at[n]);
        if buf[at[n]].dirty {
          DirtyThere(buf, at[n]);
        }
      }
    }

    /** The holder of a buffer changes its data. */
    method SetData(b: nat, data: Block)
      requires Valid() && b in Held()
      modifies this`buf
      ensures Valid() && buf == old(buf)[b := old(buf[b]).(data := data)]
      ensures Held() == old(Held()) && Dirty() == old(Dirty())
    {
      Update(b, buf[b].(data := data));
    }

    /** The effect of log_write on the buffer: its data is the block's contents from now on, and it
        stays in the cache until commit has written it. */
    method Pin(b: nat)
      requires Valid() && b < |buf| && Holds(b, buf[b].blockno)
      modifies this`buf, this`latest
      ensures Valid() && buf == old(buf)[b := old(buf[b]).(dirty := true)]
      ensures latest == old(latest)[buf[b].blockno := buf[b].data]
      ensures Held() == old(Held()) && Dirty() == old(Dirty()) + {buf[b].blockno}
    {
      var r := buf[b].(dirty := true);
      assert CellOk(buf, latest, ide.disk, b);
      RecordKeeps(buf, at, latest, ide.disk, b, r, ide.disk);
      UpdateSets(buf, b, r);
      DirtySets(buf, at, latest, ide.disk, b, r);
      latest := latest[r.blockno := r.data];
      buf := buf[b := r];
    }

    /** bwrite: the data goes to the disk, and the buffer is clean. */
    method Bwrite(b: nat)
      requires Valid() && b < |buf| && Holds(b, buf[b].blockno)
      modifies this`buf, this`latest, ide
      ensures Valid() && buf == old(buf)[b := old(buf[b]).(dirty := false)]
      ensures latest == old(latest)[buf[b].blockno := buf[b].data]
      ensures ide.disk == old(ide.disk)[buf[b].blockno := buf[b].data]
      ensures ide.trace == old(ide.trace) + [Write(buf[b].blockno, buf[b].data)]
      ensures Held() == old(Held()) && Dirty() == old(Dirty()) - {buf[b].blockno}
    {
      assert CellOk(buf, latest, ide.disk, b);
      var r := ide.Rw(buf[b].(dirty := true));
      RecordKeeps(buf, at, latest, old(ide.disk), b, r, ide.disk);
      UpdateSets(buf, b, r);
      DirtySets(buf, at, latest, old(ide.disk), b, r);
      latest := latest[r.blockno := r.data];
      buf := buf[b := r];
    }

    /** brelse: unlock, drop the reference, and make the buffer the most recently used when nobody
        waits for it.  What the holder did to the data must have been recorded. */
    method Brelse(b: nat)
      requires Listed() && Valid() && b < |buf| && Holds(b, buf[b].blockno)
      requires buf[b].blockno in latest && buf[b].data == latest[buf[b].blockno]
      modifies this`buf, this`prev, this`next, this`ring
      ensures Listed() && Valid()
      ensures buf == old(buf)[b := old(buf[b]).(locked := false, refcnt := buf[b].refcnt)]
      ensures buf[b].refcnt + 1 == old(buf[b].refcnt)
      ensures Held() == old(Held()) - {b} && Dirty() == old(Dirty())
      ensures buf[b].refcnt > 0 ==> ring == old(ring)
      ensures buf[b].refcnt == 0 ==>
                exists k :: 0 <= k < |old(ring)| && old(ring)[k] == b && ring == [b] + Without(old(ring), k)
    {
      assert CellOk(buf, latest, ide.disk, b);
      Update(b, buf[b].(locked := false, refcnt := buf[b].refcnt - 1));
      if buf[b].refcnt == 0 {
        assert b in ring;
        ghost var k :| 0 <= k < |ring| && ring[k] == b;
        MoveToFront(b, k);
      }
    }

    /** The six pointer assignments of brelse. */
    method MoveToFront(b: nat, ghost k: nat)
      requires Listed() && k < |ring| && ring[k] == b
      modifies this`prev, this`next, this`ring
      ensures Listed() && ring == [b] + Without(old(ring), k)
    {
      UnlinkForward(next, ring, k);
      UnlinkBackward(prev, ring, k);
      ghost var rest := Without(ring, k);
      FrontCovers(ring, k);
      prev := prev[next[b] := prev[b]];
      next := next[prev[b] := next[b]];
      LinkFrontForward(next, rest, b);
      LinkFrontBackward(prev, rest, b);
      next := next[b := next[HEAD]];
      prev := prev[b := HEAD];
      prev := prev[next[HEAD] := b];
      next := next[HEAD := b];
      ring := [b] + rest;
    }
  }
}
