/** The user-level allocator: a circular free list in address order with first fit and coalescing
    (user/lib/umalloc.c).  Addresses count header-sized units; 0 is the null pointer. */
module Umalloc {
  import opened Params
  import opened Sets

  const HEADER: nat := 8          // bytes of a header
  const GROW: nat := 4096         // least number of units asked of sbrk

  // ---- sizes ----

  /** malloc's rounding, in 32-bit arithmetic. */
  function Units(nbytes: nat): nat {
    (nbytes + HEADER - 1) % UINT / HEADER + 1
  }

  /** The block malloc looks for has room for the request exactly when the rounding does not wrap. */
  lemma UnitsEnough(nbytes: nat)
    requires nbytes < UINT
    ensures (Units(nbytes) - 1) * HEADER >= nbytes <==> nbytes <= UINT - HEADER
  {
  }

  /** The largest request asks for a block with no room at all. */
  lemma UnitsWrap()
    ensures Units(UINT - 1) == 1
  {
  }

  /** The requests whose size is not positive as sbrk's signed argument: from 2^31 - 15 bytes on, up to where the
      rounding wraps. */
  lemma TooLarge(nbytes: nat)
    requires nbytes < UINT
    ensures Units(nbytes) * HEADER >= UINT / 2 <==> UINT / 2 - 15 <= nbytes <= UINT - HEADER
  {
    assert nbytes <= UINT - HEADER ==> Units(nbytes) == (nbytes + HEADER - 1) / HEADER + 1;
  }

  // ---- the heap ----

  /** `ring` lists the free blocks in address order, the static header first; `live` the blocks handed
      out; `cell` says for every unit obtained from sbrk which block it is in. */
  datatype Heap = Heap(
    base: nat, ptr: map<nat, nat>, size: map<nat, nat>,
    ring: seq<nat>, live: map<nat, nat>, cell: map<nat, nat>)

  ghost predicate Increasing(ring: seq<nat>) {
    forall i, j :: 0 <= i < j < |ring| ==> ring[i] < ring[j]
  }

  function Next(ring: seq<nat>, i: nat): nat
    requires i < |ring|
  {
    if i + 1 < |ring| then ring[i + 1] else ring[0]
  }

  ghost predicate LinkOk(ptr: map<nat, nat>, ring: seq<nat>, i: nat) {
    i < |ring| ==> ring[i] in ptr && ptr[ring[i]] == Next(ring, i)
  }

  /** Following s.ptr goes around the ring. */
  ghost predicate Linked(ptr: map<nat, nat>, ring: seq<nat>) {
    forall i: nat :: LinkOk(ptr, ring, i)
  }

  /** The block at h is n units long and all of them are its own. */
  ghost predicate Extent(h: Heap, a: nat, n: nat) {
    n > 0 && a in h.size && h.size[a] == n && forall u :: a <= u < a + n ==> u in h.cell && h.cell[u] == a
  }

  ghost predicate FreeOk(h: Heap, i: nat)
    requires i < |h.ring|
  {
    h.ring[i] in h.size && Extent(h, h.ring[i], h.size[h.ring[i]])
  }

  ghost predicate LiveOk(h: Heap, a: nat) {
    a in h.live ==> a !in h.ring && Extent(h, a, h.live[a])
  }

  /** Every unit is in exactly one block, free or live. */
  ghost predicate CellOk(h: Heap, u: nat) {
    u in h.cell ==>
      && h.base < u
      && (h.cell[u] in h.live || (h.cell[u] in h.ring && h.cell[u] != h.base))
      && h.cell[u] in h.size && h.cell[u] <= u < h.cell[u] + h.size[h.cell[u]]
  }

  ghost predicate Sound(h: Heap) {
    && 0 < h.base && |h.ring| >= 1 && h.ring[0] == h.base
    && h.base in h.size && h.size[h.base] == 0
    && Increasing(h.ring) && Linked(h.ptr, h.ring)
    && (forall i :: 1 <= i < |h.ring| ==> FreeOk(h, i))
    && (forall a :: LiveOk(h, a))
    && (forall u :: CellOk(h, u))
  }

  ghost predicate GapOk(h: Heap, i: nat) {
    1 <= i && i + 1 < |h.ring| ==> h.ring[i] in h.size && h.ring[i] + h.size[h.ring[i]] < h.ring[i + 1]
  }

  /** No two free blocks touch. */
  ghost predicate Coalesced(h: Heap) {
    forall i: nat :: GapOk(h, i)
  }

  /** Free block k is at least n units long. */
  ghost predicate HasRoom(h: Heap, k: nat, n: nat) {
    k < |h.ring| && h.ring[k] in h.size && h.size[h.ring[k]] >= n
  }

  ghost predicate SomeRoom(h: Heap, n: nat) {
    exists k: nat :: HasRoom(h, k, n)
  }

  lemma RoomForLess(h: Heap, n: nat, m: nat)
    requires SomeRoom(h, n) && m <= n
    ensures SomeRoom(h, m)
  {
    var k: nat :| HasRoom(h, k, n);
    assert HasRoom(h, k, m);
  }

  /** Live blocks do not overlap each other or any free block. */
  lemma Disjoint(h: Heap, a: nat, b: nat, u: nat)
    requires Sound(h) && a in h.live && a != b && a <= u < a + h.live[a]
    ensures b in h.live ==> !(b <= u < b + h.live[b])
    ensures b in h.ring && b != h.base && b in h.size ==> !(b <= u < b + h.size[b])
  {
    assert LiveOk(h, a) && LiveOk(h, b) && u in h.cell;
    if b in h.ring && b != h.base {
      var i :| 0 <= i < |h.ring| && h.ring[i] == b;
      assert FreeOk(h, i);
    }
  }

  ghost predicate InLive(h: Heap, a: nat, u: nat) {
    a in h.live && a <= u < a + h.live[a]
  }

  ghost predicate InFree(h: Heap, k: nat, u: nat) {
    1 <= k < |h.ring| && h.ring[k] in h.size && h.ring[k] <= u < h.ring[k] + h.size[h.ring[k]]
  }

  /** The live and the free blocks together are exactly the units sbrk granted. */
  lemma Covered(h: Heap, u: nat)
    requires Sound(h)
    ensures u in h.cell <==> (exists a :: InLive(h, a, u)) || (exists k :: InFree(h, k, u))
  {
    assert CellOk(h, u);
    if u in h.cell {
      var a := h.cell[u];
      assert LiveOk(h, a);
      if a in h.live {
        assert InLive(h, a, u);
      } else {
        var k :| 0 <= k < |h.ring| && h.ring[k] == a;
        assert InFree(h, k, u);
      }
    }
    forall a | InLive(h, a, u) ensures u in h.cell {
      assert LiveOk(h, a);
    }
    forall k | InFree(h, k, u) ensures u in h.cell {
      assert FreeOk(h, k);
    }
  }

  // ---- free ----

  /** Block b belongs between free block j and the next one. */
  ghost predicate Between(h: Heap, j: nat, b: nat) {
    j < |h.ring| && h.ring[j] < b && (j + 1 < |h.ring| ==> b < h.ring[j + 1])
  }

  /** A live block lies wholly between its free neighbours. */
  lemma Fits(h: Heap, j: nat, b: nat)
    requires Sound(h) && b in h.live && Between(h, j, b)
    ensures b in h.size && h.ring[j] in h.size && h.ring[j] + h.size[h.ring[j]] <= b
    ensures j + 1 < |h.ring| ==> b + h.size[b] <= h.ring[j + 1]
  {
    assert LiveOk(h, b);
    assert b in h.cell;
    if j > 0 {
      assert FreeOk(h, j);
    }
    if j + 1 < |h.ring| {
      assert FreeOk(h, j + 1);
      assert h.ring[j + 1] in h.cell;
    }
  }

  /** Put a live block on the free list after entry j. */
  function Insert(h: Heap, j: nat, b: nat): Heap
    requires j < |h.ring|
  {
    h.(ptr := h.ptr[b := Next(h.ring, j)][h.ring[j] := b],
       ring := h.ring[..j + 1] + [b] + h.ring[j + 1..],
       live := h.live - {b})
  }

  lemma InsertLinked(ptr: map<nat, nat>, ring: seq<nat>, j: nat, b: nat)
    requires j < |ring| && Increasing(ring) && Linked(ptr, ring) && ring[j] < b && (j + 1 < |ring| ==> b < ring[j + 1])
    ensures Increasing(ring[..j + 1] + [b] + ring[j + 1..])
    ensures Linked(ptr[b := Next(ring, j)][ring[j] := b], ring[..j + 1] + [b] + ring[j + 1..])
  {
    var r, p := ring[..j + 1] + [b] + ring[j + 1..], ptr[b := Next(ring, j)][ring[j] := b];
    forall i: nat ensures LinkOk(p, r, i) {
      assert LinkOk(ptr, ring, i) && (i > 0 ==> LinkOk(ptr, ring, i - 1));
    }
  }

  lemma InsertSound(h: Heap, j: nat, b: nat)
    requires Sound(h) && b in h.live && Between(h, j, b)
    ensures Sound(Insert(h, j, b))
  {
    var h' := Insert(h, j, b);
    assert LiveOk(h, b);
    InsertLinked(h.ptr, h.ring, j, b);
    forall i | 1 <= i < |h'.ring| ensures FreeOk(h', i) {
      if i <= j {
        assert FreeOk(h, i);
      } else if i > j + 1 {
        assert FreeOk(h, i - 1);
      }
    }
    forall a ensures LiveOk(h', a) {
      assert LiveOk(h, a);
    }
    forall u ensures CellOk(h', u) {
      assert CellOk(h, u);
      if u in h.cell {
        InsertMember(h.ring, j, b, h.cell[u]);
      }
    }
  }

  lemma InsertMember(ring: seq<nat>, j: nat, b: nat, x: nat)
    requires j < |ring|
    ensures x in ring[..j + 1] + [b] + ring[j + 1..] <==> x == b || x in ring
  {
    assert ring == ring[..j + 1] + ring[j + 1..];
  }

  /** Join free block k with the one after it, which starts where k ends. */
  function Merge(h: Heap, k: nat): Heap
    requires k + 1 < |h.ring| && h.ring[k] in h.size && h.ring[k + 1] in h.size
  {
    var a, b := h.ring[k], h.ring[k + 1];
    h.(ptr := h.ptr[a := Next(h.ring, k + 1)],
       size := h.size[a := h.size[a] + h.size[b]],
       ring := h.ring[..k + 1] + h.ring[k + 2..],
       cell := map u | u in h.cell :: if h.cell[u] == b then a else h.cell[u])
  }

  lemma MergeLinked(ptr: map<nat, nat>, ring: seq<nat>, k: nat)
    requires 1 <= k && k + 1 < |ring| && Increasing(ring) && Linked(ptr, ring)
    ensures Increasing(ring[..k + 1] + ring[k + 2..])
    ensures Linked(ptr[ring[k] := Next(ring, k + 1)], ring[..k + 1] + ring[k + 2..])
  {
    var r, p := ring[..k + 1] + ring[k + 2..], ptr[ring[k] := Next(ring, k + 1)];
    forall i: nat ensures LinkOk(p, r, i) {
      assert LinkOk(ptr, ring, i) && LinkOk(ptr, ring, i + 1);
    }
  }

  lemma MergeMember(ring: seq<nat>, k: nat, x: nat)
    requires k + 1 < |ring|
    ensures x in ring ==> x == ring[k + 1] || x in ring[..k + 1] + ring[k + 2..]
    ensures x in ring[..k + 1] + ring[k + 2..] ==> x in ring
  {
    assert ring == ring[..k + 1] + [ring[k + 1]] + ring[k + 2..];
  }

  lemma MergeSound(h: Heap, k: nat)
    requires Sound(h) && 1 <= k && k + 1 < |h.ring|
    requires h.ring[k] in h.size && h.ring[k] + h.size[h.ring[k]] == h.ring[k + 1]
    ensures h.ring[k + 1] in h.size && Sound(Merge(h, k))
  {
    assert FreeOk(h, k) && FreeOk(h, k + 1);
    var h' := Merge(h, k);
    var a, b := h.ring[k], h.ring[k + 1];
    MergeLinked(h.ptr, h.ring, k);
    forall i | 1 <= i < |h'.ring| ensures FreeOk(h', i) {
      if i < k {
        assert FreeOk(h, i);
      } else if i > k {
        assert FreeOk(h, i + 1);
      }
    }
    forall c ensures LiveOk(h', c) {
      assert LiveOk(h, c);
      MergeMember(h.ring, k, c);
    }
    forall u ensures CellOk(h', u) {
      assert CellOk(h, u);
      if u in h.cell {
        MergeMember(h.ring, k, h.cell[u]);
      }
    }
  }

  lemma RingSized(h: Heap)
    requires Sound(h)
    ensures forall i :: 0 <= i < |h.ring| ==> h.ring[i] in h.size
  {
    forall i | 0 <= i < |h.ring| ensures h.ring[i] in h.size {
      if i > 0 {
        assert FreeOk(h, i);
      }
    }
  }

  lemma InsertGaps(h: Heap, j: nat, b: nat)
    requires Sound(h) && Coalesced(h) && j < |h.ring|
    ensures forall i: nat :: i == j || i == j + 1 || GapOk(Insert(h, j, b), i)
  {
    forall i: nat | i != j && i != j + 1 ensures GapOk(Insert(h, j, b), i) {
      assert GapOk(h, i) && (i > 0 ==> GapOk(h, i - 1));
    }
  }

  lemma MergeGaps(h: Heap, k: nat, j: nat)
    requires Sound(h) && j < k && k + 1 < |h.ring| && h.ring[k] in h.size && h.ring[k + 1] in h.size
    requires h.ring[k] + h.size[h.ring[k]] == h.ring[k + 1]
    requires forall i: nat :: i == j || i == k || GapOk(h, i)
    ensures forall i: nat :: i == j || GapOk(Merge(h, k), i)
  {
    forall i: nat | i != j ensures GapOk(Merge(h, k), i) {
      assert (i < k ==> GapOk(h, i)) && (i >= k ==> GapOk(h, i + 1));
    }
  }

  /** The heap after the block has been inserted and joined with the block above it. */
  function InsertedUp(h: Heap, j: nat, b: nat): Heap
    requires j < |h.ring| && b in h.size && forall i :: 0 <= i < |h.ring| ==> h.ring[i] in h.size
  {
    var h1 := Insert(h, j, b);
    if j + 1 < |h.ring| && b + h.size[b] == h.ring[j + 1] then Merge(h1, j + 1) else h1
  }

  lemma InsertedUpOk(h: Heap, j: nat, b: nat)
    requires Sound(h) && Coalesced(h) && b in h.live && Between(h, j, b)
    ensures b in h.size && forall i :: 0 <= i < |h.ring| ==> h.ring[i] in h.size
    ensures var h2 := InsertedUp(h, j, b);
            && Sound(h2) && j + 1 < |h2.ring| && h2.ring[j] == h.ring[j] && h2.ring[j + 1] == b
            && (forall i: nat :: i == j || GapOk(h2, i))
            && h2.live == h.live - {b} && h2.cell.Keys == h.cell.Keys && h2.size[h.ring[j]] == h.size[h.ring[j]]
            && b in h2.size && h2.size[b] >= h.size[b]
  {
    RingSized(h);
    Fits(h, j, b);
    InsertSound(h, j, b);
    InsertGaps(h, j, b);
    var h1 := Insert(h, j, b);
    if j + 1 < |h.ring| && b + h.size[b] == h.ring[j + 1] {
      MergeSound(h1, j + 1);
      MergeGaps(h1, j + 1, j);
    } else {
      assert GapOk(h1, j + 1);
    }
  }

  /** The free list after free has put block b back after entry j, joined with its neighbours. */
  function Released(h: Heap, j: nat, b: nat): Heap
    requires j < |h.ring| && b in h.size && forall i :: 0 <= i < |h.ring| ==> h.ring[i] in h.size
    requires var h2 := InsertedUp(h, j, b); j + 1 < |h2.ring| && h2.ring[j] in h2.size && h2.ring[j + 1] in h2.size
  {
    var h2 := InsertedUp(h, j, b);
    if j > 0 && h.ring[j] + h.size[h.ring[j]] == b then Merge(h2, j) else h2
  }

  /** free keeps the heap sound and coalesced, and returns exactly one block. */
  lemma ReleasedOk(h: Heap, j: nat, b: nat)
    requires Sound(h) && Coalesced(h) && b in h.live && Between(h, j, b)
    ensures b in h.size && forall i :: 0 <= i < |h.ring| ==> h.ring[i] in h.size
    ensures var h2 := InsertedUp(h, j, b); j + 1 < |h2.ring| && h2.ring[j] in h2.size && h2.ring[j + 1] in h2.size
    ensures Sound(Released(h, j, b)) && Coalesced(Released(h, j, b))
    ensures Released(h, j, b).live == h.live - {b} && Released(h, j, b).cell.Keys == h.cell.Keys
    ensures j < |Released(h, j, b).ring| && Released(h, j, b).ring[j] == h.ring[j]
    ensures SomeRoom(Released(h, j, b), h.size[b])
  {
    InsertedUpOk(h, j, b);
    Fits(h, j, b);
    var h2 := InsertedUp(h, j, b);
    RingSized(h2);
    if j > 0 {
      if h.ring[j] + h.size[h.ring[j]] == b {
        MergeSound(h2, j);
        MergeGaps(h2, j, 0);
        assert GapOk(Merge(h2, j), 0);
        assert HasRoom(Merge(h2, j), j, h.size[b]);
        return;
      }
    }
    assert GapOk(h2, j);
    assert HasRoom(h2, j + 1, h.size[b]);
  }

  /** The pointer fields after free's assignments, with p the free block below b. */
  function FreePtr(h: Heap, p: nat, b: nat): map<nat, nat>
    requires p in h.ptr && b in h.size && p in h.size && h.ptr[p] in h.ptr
  {
    var m := h.ptr[b := if b + h.size[b] == h.ptr[p] then h.ptr[h.ptr[p]] else h.ptr[p]];
    m[p := if p + h.size[p] == b then m[b] else b]
  }

  /** The size fields after free's assignments. */
  function FreeSize(h: Heap, p: nat, b: nat): map<nat, nat>
    requires p in h.ptr && b in h.size && p in h.size && h.ptr[p] in h.size
  {
    var m := if b + h.size[b] == h.ptr[p] then h.size[b := h.size[b] + h.size[h.ptr[p]]] else h.size;
    if p + h.size[p] == b then m[p := h.size[p] + m[b]] else m
  }

  /** The links around the place where b goes. */
  lemma PlaceLinks(h: Heap, j: nat, b: nat)
    requires Sound(h) && b in h.live && Between(h, j, b)
    ensures var p := h.ring[j];
            && p in h.ptr && h.ptr[p] == Next(h.ring, j) && p in h.size
            && h.ptr[p] in h.size && h.ptr[p] in h.ptr
            && (j + 1 < |h.ring| ==> h.ptr[h.ptr[p]] == Next(h.ring, j + 1))
            && (j + 1 == |h.ring| ==> h.ptr[p] < b)
            && (j == 0 ==> p + h.size[p] < b)
  {
    RingSized(h);
    assert LinkOk(h.ptr, h.ring, j) && LinkOk(h.ptr, h.ring, j + 1) && LinkOk(h.ptr, h.ring, 0);
  }

  lemma InsertNext(ring: seq<nat>, j: nat, b: nat)
    requires j < |ring|
    ensures var r := ring[..j + 1] + [b] + ring[j + 1..];
            && r[j] == ring[j] && r[j + 1] == b && Next(r, j + 1) == Next(ring, j)
            && (j + 1 < |ring| ==> r[j + 2] == ring[j + 1] && Next(r, j + 2) == Next(ring, j + 1))
  {
  }

  lemma MergeNext(ring: seq<nat>, k: nat)
    requires k + 1 < |ring|
    ensures var r := ring[..k + 1] + ring[k + 2..];
            k < |r| && r[k] == ring[k] && Next(r, k) == Next(ring, k + 1) && (k > 0 ==> r[k - 1] == ring[k - 1])
  {
  }

  lemma UpFields(h: Heap, j: nat, b: nat)
    requires Sound(h) && Coalesced(h) && b in h.live && Between(h, j, b)
    ensures b in h.size && forall i :: 0 <= i < |h.ring| ==> h.ring[i] in h.size
    ensures var up := j + 1 < |h.ring| && b + h.size[b] == h.ring[j + 1];
            var h2 := InsertedUp(h, j, b);
            && j + 1 < |h2.ring| && h2.ring[j] == h.ring[j] && h2.ring[j + 1] == b
            && Next(h2.ring, j + 1) == (if up then Next(h.ring, j + 1) else Next(h.ring, j))
            && h2.ptr == h.ptr[b := Next(h2.ring, j + 1)][h.ring[j] := b]
            && h2.size == (if up then h.size[b := h.size[b] + h.size[h.ring[j + 1]]] else h.size)
  {
    RingSized(h);
    assert LiveOk(h, b);
    InsertNext(h.ring, j, b);
    var h1 := Insert(h, j, b);
    if j + 1 < |h.ring| && b + h.size[b] == h.ring[j + 1] {
      MergeNext(h1.ring, j + 1);
      var y := Next(h.ring, j + 1);
      assert h1.ptr[b := y] == h.ptr[b := y][h.ring[j] := b];
    }
  }

  lemma FreeAssigns(h: Heap, j: nat, b: nat)
    requires Sound(h) && Coalesced(h) && b in h.live && Between(h, j, b)
    ensures b in h.size && forall i :: 0 <= i < |h.ring| ==> h.ring[i] in h.size
    ensures var h2 := InsertedUp(h, j, b); j + 1 < |h2.ring| && h2.ring[j] in h2.size && h2.ring[j + 1] in h2.size
    ensures var p := h.ring[j]; p in h.ptr && p in h.size && h.ptr[p] in h.ptr && h.ptr[p] in h.size
    ensures Released(h, j, b).ptr == FreePtr(h, h.ring[j], b)
    ensures Released(h, j, b).size == FreeSize(h, h.ring[j], b)
  {
    UpFields(h, j, b);
    PlaceLinks(h, j, b);
    var h2, p := InsertedUp(h, j, b), h.ring[j];
    var m := h.ptr[b := Next(h2.ring, j + 1)];
    assert FreePtr(h, p, b) == m[p := if p + h.size[p] == b then m[b] else b];
    assert h2.size[p] == h.size[p];
  }

  lemma FreeLeaves(h: Heap, j: nat, b: nat) returns (r: Heap)
    requires Sound(h) && Coalesced(h) && b in h.live && Between(h, j, b)
    ensures var p := h.ring[j];
            && b in h.size && p in h.ptr && p in h.size && h.ptr[p] in h.ptr && h.ptr[p] in h.size
            && r.ptr == FreePtr(h, p, b) && r.size == FreeSize(h, p, b) && p in r.ring
    ensures r.base == h.base && Sound(r) && Coalesced(r) && r.live == h.live - {b} && r.cell.Keys == h.cell.Keys
    ensures SomeRoom(r, h.size[b]) && h.size[b] == h.live[b]
  {
    assert LiveOk(h, b);
    ReleasedOk(h, j, b);
    FreeAssigns(h, j, b);
    r := Released(h, j, b);
  }

  // ---- malloc ----

  /** Hand out all of free block k. */
  function TakeWhole(h: Heap, k: nat): Heap
    requires 1 <= k < |h.ring| && h.ring[k] in h.size
  {
    h.(ptr := h.ptr[h.ring[k - 1] := Next(h.ring, k)],
       ring := h.ring[..k] + h.ring[k + 1..],
       live := h.live[h.ring[k] := h.size[h.ring[k]]])
  }

  lemma TakeLinked(ptr: map<nat, nat>, ring: seq<nat>, k: nat)
    requires 1 <= k < |ring| && Increasing(ring) && Linked(ptr, ring)
    ensures Increasing(ring[..k] + ring[k + 1..])
    ensures Linked(ptr[ring[k - 1] := Next(ring, k)], ring[..k] + ring[k + 1..])
  {
    var r, p := ring[..k] + ring[k + 1..], ptr[ring[k - 1] := Next(ring, k)];
    forall i: nat ensures LinkOk(p, r, i) {
      assert LinkOk(ptr, ring, i) && LinkOk(ptr, ring, i + 1);
    }
  }

  lemma TakeMember(ring: seq<nat>, k: nat, x: nat)
    requires k < |ring| && Increasing(ring)
    ensures x in ring[..k] + ring[k + 1..] <==> x in ring && x != ring[k]
  {
    assert ring == ring[..k] + [ring[k]] + ring[k + 1..];
  }

  lemma TakeWholeOk(h: Heap, k: nat)
    requires Sound(h) && Coalesced(h) && 1 <= k < |h.ring| && h.ring[k] in h.size
    ensures Sound(TakeWhole(h, k)) && Coalesced(TakeWhole(h, k)) && h.ring[k] !in h.live
  {
    var h', b := TakeWhole(h, k), h.ring[k];
    assert FreeOk(h, k) && LiveOk(h, b);
    TakeLinked(h.ptr, h.ring, k);
    forall i | 1 <= i < |h'.ring| ensures FreeOk(h', i) {
      assert FreeOk(h, if i < k then i else i + 1);
    }
    forall a ensures LiveOk(h', a) {
      assert LiveOk(h, a);
      TakeMember(h.ring, k, a);
    }
    forall u ensures CellOk(h', u) {
      assert CellOk(h, u);
      if u in h.cell {
        TakeMember(h.ring, k, h.cell[u]);
      }
    }
    forall i: nat ensures GapOk(h', i) {
      assert GapOk(h, i) && GapOk(h, i + 1);
      assert i + 2 < |h.ring| && i + 1 == k ==> h.ring[k] < h.ring[k + 1];
    }
  }

  /** Hand out the last n units of free block k. */
  function TakeTail(h: Heap, k: nat, n: nat): Heap
    requires k < |h.ring| && h.ring[k] in h.size && 0 < n < h.size[h.ring[k]]
  {
    var a := h.ring[k];
    var b := a + (h.size[a] - n);
    h.(size := h.size[a := h.size[a] - n][b := n],
       live := h.live[b := n],
       cell := map u | u in h.cell :: if b <= u < b + n then b else h.cell[u])
  }

  /** A unit inside a block is nobody's header. */
  lemma InnerUnit(h: Heap, u: nat)
    requires Sound(h) && u in h.cell && h.cell[u] != u
    ensures u !in h.ring && u !in h.live
  {
    assert CellOk(h, u) && LiveOk(h, u);
    forall i | 0 <= i < |h.ring| ensures h.ring[i] != u {
      if i > 0 {
        assert FreeOk(h, i);
      }
    }
  }

  lemma TakeTailOk(h: Heap, k: nat, n: nat)
    requires Sound(h) && Coalesced(h) && 1 <= k < |h.ring| && h.ring[k] in h.size && 0 < n < h.size[h.ring[k]]
    ensures Sound(TakeTail(h, k, n)) && Coalesced(TakeTail(h, k, n))
    ensures h.ring[k] + (h.size[h.ring[k]] - n) !in h.live
    ensures TakeTail(h, k, n).cell.Keys == h.cell.Keys
  {
    var h', a := TakeTail(h, k, n), h.ring[k];
    var b := a + (h.size[a] - n);
    assert FreeOk(h, k) && b in h.cell;
    InnerUnit(h, b);
    forall i | 1 <= i < |h'.ring| ensures FreeOk(h', i) {
      assert FreeOk(h, i);
    }
    forall c ensures LiveOk(h', c) {
      assert LiveOk(h, c);
    }
    forall u ensures CellOk(h', u) {
      assert CellOk(h, u);
    }
    forall i: nat ensures GapOk(h', i) {
      assert GapOk(h, i);
    }
  }

  /** New memory from sbrk, as one live block. */
  function Granted(h: Heap, a: nat, n: nat): Heap {
    var units := Range(a, a + n);
    h.(size := h.size[a := n], live := h.live[a := n], cell := h.cell + map u | u in units :: a)
  }

  lemma GrantedOk(h: Heap, a: nat, n: nat)
    requires Sound(h) && Coalesced(h) && n > 0 && h.base < a && forall u :: u in h.cell ==> u < a
    ensures Sound(Granted(h, a, n)) && Coalesced(Granted(h, a, n)) && a !in h.live
    ensures Granted(h, a, n).cell.Keys == h.cell.Keys + Range(a, a + n)
  {
    var h' := Granted(h, a, n);
    forall i | 0 <= i < |h.ring| ensures h.ring[i] < a && h.ring[i] in h.size {
      if i > 0 {
        assert FreeOk(h, i) && h.ring[i] in h.cell;
      }
    }
    forall i | 1 <= i < |h'.ring| ensures FreeOk(h', i) {
      assert FreeOk(h, i);
    }
    forall c ensures LiveOk(h', c) {
      assert LiveOk(h, c);
      assert c in h.live ==> c in h.cell;
    }
    assert LiveOk(h, a) && (a in h.live ==> a in h.cell);
    forall u ensures CellOk(h', u) {
      assert CellOk(h, u);
    }
    forall i: nat ensures GapOk(h', i) {
      assert GapOk(h, i);
    }
  }

  // ---- the allocator ----

  lemma {:induction false} FindSlot(ring: seq<nat>, b: nat, n: nat) returns (j: nat)
    requires 1 <= n <= |ring| && Increasing(ring) && ring[0] < b && b !in ring && (n < |ring| ==> b < ring[n])
    ensures j < n && ring[j] < b && (j + 1 < |ring| ==> b < ring[j + 1])
    decreases n
  {
    if ring[n - 1] < b {
      j := n - 1;
    } else {
      assert ring[n - 1] != b;
      j := FindSlot(ring, b, n - 1);
    }
  }

  class Allocator {
    const base: nat              // the static header
    const limit: nat             // where the kernel stops granting memory
    var brk: nat                 // the next unit sbrk will grant
    var freep: nat
    var ptr: map<nat, nat>       // s.ptr of each header
    var size: map<nat, nat>      // s.size of each header
    ghost var ring: seq<nat>
    ghost var live: map<nat, nat>
    ghost var cell: map<nat, nat>

    ghost function View(): Heap
      reads this
    {
      Heap(base, ptr, size, ring, live, cell)
    }

    ghost predicate Valid()
      reads this
    {
      && 0 < base < brk <= limit
      && (forall u :: u in cell ==> u < brk)
      && if freep == 0 then ring == [] && live == map[] && cell == map[]
         else Sound(View()) && Coalesced(View()) && freep in ring
    }

    constructor (base: nat, brk: nat, limit: nat)
      requires 0 < base < brk <= limit
      ensures Valid() && freep == 0 && this.base == base && this.brk == brk && this.limit == limit
    {
      this.base, this.limit, this.brk, freep := base, limit, brk, 0;
      ptr, size, ring, live, cell := map[], map[], [], map[], map[];
    }

    /** free's search: the free block after which bp belongs.  It walks at most once around the ring. */
    method FindPlace(bp: nat) returns (p: nat, ghost j: nat)
      requires Valid() && bp in live
      ensures Between(View(), j, bp) && p == ring[j]
    {
      ghost var h := View();
      assert LiveOk(h, bp) && bp in cell && CellOk(h, bp);
      j := FindSlot(ring, bp, |ring|);
      p := freep;
      ghost var i: nat :| i < |ring| && ring[i] == freep;
      while true
        invariant i < |ring| && p == ring[i]
        decreases if i <= j then j - i else |ring| - i + j
      {
        assert LinkOk(ptr, ring, i);
        if bp > p && bp < ptr[p] {
          break;
        }
        if p >= ptr[p] && (bp > p || bp < ptr[p]) {
          break;
        }
        p := ptr[p];
        i := if i + 1 < |ring| then i + 1 else 0;
      }
    }

    /** free: the block goes back on the list, joined with the free blocks it touches. */
    method Free(ap: nat)
      requires Valid() && ap > 0 && ap - 1 in live
      modifies this`freep, this`ptr, this`size, this`ring, this`live, this`cell
      ensures Valid() && freep != 0
      ensures live == old(live) - {ap - 1} && cell.Keys == old(cell).Keys
      ensures SomeRoom(View(), old(live)[ap - 1])
      ensures exists j: nat :: old(Between(View(), j, ap - 1)) && freep == old(ring[j])
    {
      var bp := ap - 1;
      ghost var h := View();
      var p;
      ghost var j;
      p, j := FindPlace(bp);
      ghost var r := FreeLeaves(h, j, bp);
      LinkIn(p, bp);
      ring, live, cell := r.ring, r.live, r.cell;
      assert View() == r;
    }

    /** free's assignments, once the place is known. */
    method LinkIn(p: nat, bp: nat)
      requires p in ptr && bp in size && p in size && ptr[p] in ptr && ptr[p] in size
      modifies this`freep, this`ptr, this`size
      ensures freep == p && ptr == old(FreePtr(View(), p, bp)) && size == old(FreeSize(View(), p, bp))
    {
      var above := ptr[p];
      if bp + size[bp] == above {
        size := size[bp := size[bp] + size[above]];
        ptr := ptr[bp := ptr[above]];
      } else {
        ptr := ptr[bp := above];
      }
      if p + size[p] == bp {
        size := size[p := size[p] + size[bp]];
        ptr := ptr[p := ptr[bp]];
      } else {
        ptr := ptr[p := bp];
      }
      freep := p;
    }

    /** sbrk: the old break, or 0 when the kernel refuses. */
    method Sbrk(n: nat) returns (p: nat)
      requires Valid()
      modifies this`brk
      ensures Valid()
      ensures if old(brk) + n > limit then p == 0 && brk == old(brk) else p == old(brk) && brk == old(brk) + n
    {
      if brk + n > limit {
        p := 0;
      } else {
        p, brk := brk, brk + n;
      }
    }

    /** morecore's header for the memory it has obtained. */
    method Grant(p: nat, n: nat)
      requires Valid() && freep != 0 && n > 0 && base < p && p + n <= brk && forall u :: u in cell ==> u < p
      modifies this`size, this`live, this`cell
      ensures Valid() && p !in old(live) && live == old(live)[p := n] && cell.Keys == old(cell).Keys + Range(p, p + n)
    {
      ghost var h := View();
      GrantedOk(h, p, n);
      size := size[p := n];
      live := live[p := n];
      cell := Granted(h, p, n).cell;
      assert View() == Granted(h, p, n);
    }

    /** The new memory becomes a free block. */
    method Add(p: nat, n: nat)
      requires Valid() && freep != 0 && n > 0 && base < p && p + n <= brk && forall u :: u in cell ==> u < p
      modifies this`freep, this`ptr, this`size, this`ring, this`live, this`cell
      ensures Valid() && freep != 0 && live == old(live) && cell.Keys == old(cell).Keys + Range(p, p + n)
      ensures SomeRoom(View(), n)
    {
      Grant(p, n);
      Free(p + 1);
      assert live == old(live);
    }

    /** morecore: at least GROW new units, put on the free list through free. */
    method Morecore(nu: nat) returns (p: nat)
      requires Valid() && freep != 0 && nu > 0
      modifies this
      ensures Valid() && live == old(live)
      ensures p == 0 <==> old(brk) + Most(nu, 4096) > limit
      ensures p == 0 ==> View() == old(View()) && freep == old(freep) && brk == old(brk)
      ensures p != 0 ==> p == freep && brk == old(brk) + Most(nu, GROW)
      ensures p != 0 ==> cell.Keys == old(cell).Keys + Range(old(brk), brk)
      ensures p != 0 ==> SomeRoom(View(), nu)
    {
      var n := if nu < GROW then GROW else nu;
      p := Sbrk(n);
      if p == 0 { return; }
      Add(p, n);
      RoomForLess(View(), n, nu);
      p := freep;
    }

    /** malloc's first call: the static header alone on the list. */
    method InitBase()
      requires Valid() && freep == 0
      modifies this`freep, this`ptr, this`size, this`ring
      ensures Valid() && freep != 0 && live == old(live) && cell == old(cell) && brk == old(brk)
      ensures forall n: nat :: n > 0 ==> !SomeRoom(View(), n) && !old(SomeRoom(View(), n))
    {
      ptr, size := ptr[base := base], size[base := 0];
      freep, ring := base, [base];
    }

    /** A block of exactly the right size leaves the ring. */
    method TakeExact(p: nat, prevp: nat, ghost i: nat)
      requires Valid() && freep != 0 && 1 <= i < |ring| && p == ring[i]
      requires prevp == ring[i - 1] && p in size && size[p] > 0
      modifies this`freep, this`ptr, this`ring, this`live
      ensures Valid() && p !in old(live) && live == old(live)[p := size[p]] && freep == prevp
    {
      ghost var h := View();
      assert LinkOk(ptr, ring, i);
      TakeWholeOk(h, i);
      ptr := ptr[prevp := ptr[p]];
      ring, live := TakeWhole(h, i).ring, live[p := size[p]];
      assert View() == TakeWhole(h, i);
      assert ring[i - 1] == prevp;
      freep := prevp;
    }

    /** A larger block is shortened and its end handed out. */
    method TakeEnd(p: nat, prevp: nat, nunits: nat, ghost i: nat) returns (r: nat)
      requires Valid() && freep != 0 && 1 <= i < |ring| && p == ring[i] && prevp == ring[i - 1]
      requires 0 < nunits && p in size && size[p] > nunits
      modifies this`freep, this`size, this`live, this`cell
      ensures Valid() && r > 0 && r !in old(live) && live == old(live)[r := nunits]
      ensures cell.Keys == old(cell).Keys && freep == prevp && r == p + old(size[p]) - nunits
    {
      ghost var h := View();
      TakeTailOk(h, i, nunits);
      size := size[p := size[p] - nunits];
      r := p + size[p];
      size := size[r := nunits];
      live, cell := live[r := nunits], TakeTail(h, i, nunits).cell;
      assert View() == TakeTail(h, i, nunits);
      freep := prevp;
    }

    /** malloc's two ways of using free block i, found with prevp before it. */
    method Take(p: nat, prevp: nat, nunits: nat, ghost i: nat) returns (r: nat)
      requires Valid() && freep != 0 && 1 <= i < |ring| && p == ring[i] && prevp == ring[i - 1]
      requires 0 < nunits && p in size && size[p] >= nunits
      modifies this`freep, this`ptr, this`size, this`ring, this`live, this`cell
      ensures Valid() && r > 0 && r - 1 !in old(live) && live == old(live)[r - 1 := nunits]
      ensures cell.Keys == old(cell).Keys && freep == prevp && r - 1 == p + old(size[p]) - nunits
    {
      if size[p] == nunits {
        TakeExact(p, prevp, i);
        r := p + 1;
      } else {
        r := TakeEnd(p, prevp, nunits, i);
        r := r + 1;
      }
    }

    /** malloc's walk around the ring from the roving pointer, ending at the first block that fits or
        back where it started. */
    method Search(nunits: nat) returns (found: bool, p: nat, prevp: nat, ghost i: nat, ghost s: nat)
      requires Valid() && freep != 0 && nunits > 0
      ensures s < |ring| && ring[s] == freep
      ensures found <==> SomeRoom(View(), nunits)
      ensures found ==> 1 <= i < |ring| && p == ring[i] && prevp == ring[i - 1] && HasRoom(View(), i, nunits)
      ensures found ==> forall t: nat :: Seen(s, i, t) ==> !HasRoom(View(), t, nunits)
    {
      RingSized(View());
      prevp := freep;
      s :| s < |ring| && ring[s] == freep;
      assert LinkOk(ptr, ring, s);
      p, i := ptr[prevp], Succ(s, |ring|);
      while size[p] < nunits
        invariant i < |ring| && ring[i] == p && prevp == ring[Pred(i, |ring|)]
        invariant forall t: nat :: Seen(s, i, t) ==> !HasRoom(View(), t, nunits)
        decreases if i > s then |ring| - i + s else s - i
      {
        if p == freep {
          assert i == s;
          found := false;
          return;
        }
        assert LinkOk(ptr, ring, i);
        prevp, p, i := p, ptr[p], Succ(i, |ring|);
      }
      found := true;
      assert HasRoom(View(), i, nunits);
    }

    /** Block a is the end of the first free block with room for n units, going around from the roving pointer. */
    ghost predicate FirstFit(n: nat, a: int)
      reads this
    {
      exists s: nat, i: nat :: FitsFirst(View(), freep, n, a, s, i)
    }

    /** malloc: first fit from the roving pointer, growing the heap when nothing fits.  No live block is
        touched, and the block has room for the request exactly if the rounding does not wrap; 0 is returned
        exactly when nothing fits and the kernel refuses to grow the heap.  `stopped` is the one case in
        which the heap is lost: nothing fits and the size is not positive as sbrk's signed argument, so that
        morecore's header would lie at the old break with no memory added. */
    method Malloc(nbytes: nat) returns (r: nat, stopped: bool)
      requires Valid() && nbytes < UINT
      modifies this
      ensures stopped <==> !old(SomeRoom(View(), Units(nbytes))) && Units(nbytes) * HEADER >= UINT / 2
      ensures Valid() && brk >= old(brk)
      ensures r != 0 ==> r - 1 !in old(live) && live == old(live)[r - 1 := Units(nbytes)]
      ensures r != 0 ==> ((Units(nbytes) - 1) * HEADER >= nbytes <==> nbytes <= UINT - HEADER)
      ensures r != 0 && old(freep) != 0 && old(SomeRoom(View(), Units(nbytes))) ==> old(FirstFit(Units(nbytes), r - 1))
      ensures r == 0 ==> live == old(live) && brk == old(brk) && !SomeRoom(View(), Units(nbytes))
      ensures r == 0 <==> stopped ||
                          (!old(SomeRoom(View(), Units(nbytes))) && old(brk) + Most(Units(nbytes), GROW) > limit)
      ensures cell.Keys == old(cell).Keys || cell.Keys == old(cell).Keys + Range(old(brk), brk)
    {
      UnitsEnough(nbytes);
      var nunits := Units(nbytes);
      r, stopped := 0, false;
      if freep == 0 {
        InitBase();
      }
      while true
        invariant Valid() && freep != 0 && live == old(live) && old(brk) <= brk
        invariant cell.Keys == old(cell).Keys || cell.Keys == old(cell).Keys + Range(old(brk), brk)
        invariant SomeRoom(View(), nunits) || (brk == old(brk) && cell.Keys == old(cell).Keys)
        invariant brk == old(brk) ==> (SomeRoom(View(), nunits) <==> old(SomeRoom(View(), nunits)))
        invariant brk > old(brk) ==> old(brk) + Most(nunits, GROW) <= limit && nunits * HEADER < UINT / 2
        invariant brk > old(brk) ==> !old(SomeRoom(View(), nunits))
        invariant brk == old(brk) && old(freep) != 0 ==> View() == old(View()) && freep == old(freep)
        decreases !SomeRoom(View(), nunits)
      {
        var found, p, prevp;
        ghost var i, s;
        found, p, prevp, i, s := Search(nunits);
        if found {
          assert FitsFirst(View(), freep, nunits, p + size[p] - nunits, s, i);
          r := Take(p, prevp, nunits, i);
          return;
        }
        if nunits * HEADER >= UINT / 2 {
          stopped := true;
          return;
        }
        p := Morecore(nunits);
        if p == 0 { return; }
      }
    }
  }

  /** A program whose first request is that large loses its heap, whatever its memory. */
  method FirstMalloc(base: nat, brk: nat, limit: nat, nbytes: nat) returns (heap: Allocator, r: nat, stopped: bool)
    requires 0 < base < brk <= limit && nbytes < UINT
    ensures stopped <==> UINT / 2 - 15 <= nbytes <= UINT - HEADER
  {
    heap := new Allocator(base, brk, limit);
    r, stopped := heap.Malloc(nbytes);
    TooLarge(nbytes);
  }

  function Succ(i: nat, n: nat): nat
    requires i < n
  {
    if i + 1 < n then i + 1 else 0
  }

  function Pred(i: nat, n: nat): nat
    requires i < n
  {
    if i > 0 then i - 1 else n - 1
  }

  /** Going around from just after s, entry t comes before entry i. */
  predicate Seen(s: nat, i: nat, t: nat) {
    if i > s then s < t < i else t > s || t < i
  }

  ghost predicate FitsFirst(h: Heap, freep: nat, n: nat, a: int, s: nat, i: nat) {
    && s < |h.ring| && h.ring[s] == freep && 1 <= i < |h.ring| && HasRoom(h, i, n)
    && a == h.ring[i] + h.size[h.ring[i]] - n
    && forall t: nat :: Seen(s, i, t) ==> !HasRoom(h, t, n)
  }

  function Most(a: nat, b: nat): nat {
    if a < b then b else a
  }
}
