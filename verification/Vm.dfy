/** The page allocator and the page tables as the code changes them (system/memory/kalloc.c,
    system/memory/vm.c).  Pages are named by their numbers, so that a page-aligned address a is a / PGSIZE;
    page 0 is the null pointer, which the allocator never manages. */
module Vm {
  import opened Params
  import opened VmFrames

  const KERNBASE: nat := KERNVPN * PGSIZE
  const USERPERM := Flags(true, true, 0)   // PTE_W | PTE_U

  /** Only page tables of pg were added. */
  ghost predicate Grew(own: Uses, own': Uses, pg: nat) {
    own'.Keys == own.Keys && forall f: nat {:trigger GrewAt(own, own', pg, f)} :: f in own ==> GrewAt(own, own', pg, f)
  }

  ghost predicate GrewAt(own: Uses, own': Uses, pg: nat, f: nat)
    requires f in own && f in own'
  {
    own'[f] == own[f] || (own[f] == OnFree && own'[f].Tab? && own'[f].pg == pg)
  }

  /** Pages that stay in use keep their contents, apart from the directory and the tables of pg. */
  ghost predicate Untouched(m: Memory, own: Uses, m': Memory, own': Uses, pg: nat) {
    forall f: nat {:trigger StaysAt(m, own, m', own', pg, f)} :: f in own && f in own' ==>
        StaysAt(m, own, m', own', pg, f)
  }

  ghost predicate StaysAt(m: Memory, own: Uses, m': Memory, own': Uses, pg: nat, f: nat)
    requires f in own && f in own'
  {
    own[f] != OnFree && own'[f] != OnFree && f != pg && !(own[f].Tab? && own[f].pg == pg) ==>
        f in m && f in m' && m'[f] == m[f]
  }

  /** The free list does not notice changes to pages that are not on it. */
  lemma ChainKept(m: Memory, m': Memory, own: Uses, head: nat, chain: seq<nat>)
    requires ChainOk(m, head, chain) && FreeOk(own, chain)
    requires forall f: nat :: IsFree(own, f) && f in m ==> f in m' && m'[f] == m[f]
    ensures ChainOk(m', head, chain)
  {
    forall i | 0 <= i < |chain| ensures LinkOk(m', chain, i) {
      assert LinkOk(m, chain, i) && chain[i] in chain;
    }
  }

  /** Memory is exhausted. */
  ghost predicate NoneFree(own: Uses) {
    forall f: nat :: !IsFree(own, f)
  }

  // ---- what mapping costs ----

  predicate Tabled(m: Memory, pg: nat, i: nat) {
    i < NENTRIES && IsTable(m, pg) && Ent(m, pg, i).p
  }

  /** The page addresses from lo up to hi, of which there is one, have a part under directory entry i. */
  predicate InSpan(lo: nat, hi: nat, i: nat) {
    lo < hi && lo / NENTRIES <= i <= (hi - 1) / NENTRIES
  }

  /** Page address w, reached from lo on, is the first under a directory entry that has no table. */
  predicate NeedsTable(m: Memory, pg: nat, lo: nat, w: nat) {
    !Tabled(m, pg, w / NENTRIES) && (w == lo || w % NENTRIES == 0)
  }

  /** How many tables have to be added to map the page addresses from lo up to hi. */
  function NewTables(m: Memory, pg: nat, lo: nat, hi: nat): nat
    decreases hi
  {
    if hi <= lo then 0 else NewTables(m, pg, lo, hi - 1) + if NeedsTable(m, pg, lo, hi - 1) then 1 else 0
  }

  /** How many pages it takes to give page addresses lo up to hi a page each. */
  function PagesFor(m: Memory, pg: nat, lo: nat, hi: nat): nat
    requires lo <= hi
  {
    hi - lo + NewTables(m, pg, lo, hi)
  }

  /** m' is m with tables for all of these page addresses. */
  ghost predicate Extended(m: Memory, m': Memory, pg: nat, lo: nat, hi: nat) {
    forall i: nat {:trigger Tabled(m', pg, i)} ::
      i < NENTRIES ==> (Tabled(m', pg, i) <==> Tabled(m, pg, i) || InSpan(lo, hi, i))
  }

  lemma ExtendedMore(m: Memory, m1: Memory, m2: Memory, pg: nat, lo: nat, v: nat)
    requires Extended(m, m1, pg, lo, v) && Extended(m1, m2, pg, v, v + 1) && lo <= v < NVPN
    ensures Extended(m, m2, pg, lo, v + 1)
  {
    forall i: nat | i < NENTRIES ensures Tabled(m2, pg, i) <==> Tabled(m, pg, i) || InSpan(lo, v + 1, i) {
      assert Tabled(m1, pg, i) <==> Tabled(m, pg, i) || InSpan(lo, v, i);
      SpanNext(lo, v, i);
      SpanNext(v, v, i);
    }
  }

  lemma TableNeeded(m: Memory, m1: Memory, pg: nat, lo: nat, v: nat)
    requires Extended(m, m1, pg, lo, v) && lo <= v < NVPN
    ensures NeedsTable(m, pg, lo, v) <==> !Tabled(m1, pg, v / NENTRIES)
  {
    assert Tabled(m1, pg, v / NENTRIES) <==> Tabled(m, pg, v / NENTRIES) || InSpan(lo, v, v / NENTRIES);
    SpanNext(lo, v, v / NENTRIES);
  }

  lemma SpanNext(lo: nat, v: nat, i: nat)
    requires lo <= v
    ensures InSpan(lo, v + 1, i) <==> InSpan(lo, v, i) || i == v / NENTRIES
    ensures InSpan(lo, v, v / NENTRIES) <==> lo < v && v % NENTRIES != 0
  {
  }

  lemma TableForOne(m: Memory, pg: nat, v: nat)
    ensures NewTables(m, pg, v, v + 1) == if Tabled(m, pg, v / NENTRIES) then 0 else 1
  {
    assert NewTables(m, pg, v, v) == 0;
  }

  lemma {:induction false} NewTablesMore(m: Memory, pg: nat, lo: nat, v: nat, hi: nat)
    requires v <= hi
    ensures NewTables(m, pg, lo, v) <= NewTables(m, pg, lo, hi)
    decreases hi
  {
    if v < hi {
      NewTablesMore(m, pg, lo, v, hi - 1);
    }
  }

  lemma SameDirectory(m: Memory, m1: Memory, m2: Memory, pg: nat, v: nat)
    requires Extended(m, m1, pg, v, v + 1) && pg in m1 && pg in m2 && m2[pg] == m1[pg]
    ensures Extended(m, m2, pg, v, v + 1)
  {
    forall i: nat | i < NENTRIES ensures Tabled(m2, pg, i) <==> Tabled(m, pg, i) || InSpan(v, v + 1, i) {
      assert Tabled(m1, pg, i) <==> Tabled(m2, pg, i);
    }
  }

  lemma SameTabled(m: Memory, m1: Memory, m2: Memory, pg: nat, v: nat)
    requires Extended(m1, m2, pg, v, v + 1) && pg in m && pg in m1 && m1[pg] == m[pg]
    ensures Extended(m, m2, pg, v, v + 1)
  {
    forall i: nat | i < NENTRIES ensures Tabled(m2, pg, i) <==> Tabled(m, pg, i) || InSpan(v, v + 1, i) {
      assert Tabled(m1, pg, i) <==> Tabled(m, pg, i);
    }
  }

  lemma OneTabled(m: Memory, m': Memory, pg: nat, v: nat)
    requires v < NVPN && IsTable(m, pg) && IsTable(m', pg) && Ent(m', pg, v / NENTRIES).p
    requires forall j: nat :: j < NENTRIES && j != v / NENTRIES ==> Ent(m', pg, j) == Ent(m, pg, j)
    ensures Extended(m, m', pg, v, v + 1)
  {
    forall i: nat | i < NENTRIES ensures Tabled(m', pg, i) <==> Tabled(m, pg, i) || InSpan(v, v + 1, i) {
      SpanNext(v, v, i);
    }
  }

  lemma FreeKept(own: Uses, own': Uses, chain: seq<nat>)
    requires FreeOk(own, chain) && forall f: nat :: IsFree(own', f) <==> IsFree(own, f)
    ensures FreeOk(own', chain)
  {
  }

  /** A free page becomes an empty table of an address space: no entry changes. */
  lemma TableAdded(m: Memory, own: Uses, pg: nat, i: nat, f: nat, zero: Page, e: Entry)
    requires Good(m, own) && pg in own && own[pg] == Dir && i < NENTRIES && IsTable(m, pg) && !Ent(m, pg, i).p
    requires f in own && own[f] == OnFree && zero.Table? && |zero.entries| == NENTRIES
    requires (forall t: nat :: t < NENTRIES ==> zero.entries[t] == NONE)
    requires e.p && e.ppn == f && e.flags == Flags(true, true, 0)
    ensures var m', own' := SetEnt(m[f := zero], pg, i, e), own[f := Tab(pg, i)];
      && Good(m', own') && Grew(own, own', pg) && Untouched(m, own, m', own', pg)
      && forall w: nat :: w < NVPN ==> Pte(m', pg, w) == Pte(m, pg, w)
  {
    var own1 := own[f := Other];
    TakeKeeps(m, own, f);
    PutKeeps(m, own1, f, zero, Other);
    assert own1[f := Other] == own1 && own1[f := Tab(pg, i)] == own[f := Tab(pg, i)];
    LinkTable(m[f := zero], own1, pg, i, f, e);
    forall w: nat | w < NVPN ensures Pte(SetEnt(m[f := zero], pg, i, e), pg, w) == Pte(m, pg, w) {
      PteLink(m[f := zero], own1, pg, i, f, e, pg, w);
      PteSame(m, own, m[f := zero], pg, w);
    }
  }

  /** struct kmem and the pages. */
  class Physical {
    var mem: Memory
    var freelist: nat
    ghost var chain: seq<nat>
    ghost var own: Uses

    ghost predicate Valid()
      reads this
    {
      Good(mem, own) && ChainOk(mem, freelist, chain) && FreeOk(own, chain)
    }

    /** The given pages, none of them free yet. */
    constructor (pages: set<nat>)
      requires forall f: nat :: f in pages ==> 0 < f < NVPN
      ensures Valid() && own.Keys == pages && forall f: nat :: f in own ==> own[f] == Other
    {
      mem := map f: nat | f in pages :: ZeroPage();
      freelist, chain := 0, [];
      own := map f: nat | f in pages :: Other;
    }

    /** freerange, given the first whole page and the end of the range. */
    method FreeRange(first: nat, end: nat)
      requires Valid() && first <= end && forall f: nat :: first <= f < end ==> f in own && own[f] == Other
      modifies this
      ensures Valid() && own.Keys == old(own).Keys
      ensures forall f: nat :: f in own ==> own[f] == if first <= f < end then OnFree else old(own)[f]
      ensures Kept(old(mem), old(own), mem, own)
    {
      forall f: nat | f in own ensures f in mem {
        assert PageOk(mem, own, f);
      }
      for p := first to end
        invariant Valid() && own.Keys == old(own).Keys
        invariant forall f: nat :: f in own ==> own[f] == if first <= f < p then OnFree else old(own)[f]
        invariant forall f: nat :: f in own && old(own)[f] != OnFree && own[f] != OnFree ==>
                    f in old(mem) && f in mem && mem[f] == old(mem)[f]
      {
        Kfree(p);
      }
    }

    /** kalloc */
    method Kalloc() returns (f: nat)
      requires Valid()
      modifies `freelist, `chain, `own
      ensures Valid()
      ensures f == old(freelist) && (f == 0 ==> own == old(own) && NoneFree(own))
      ensures f != 0 ==> f in old(own) && old(own)[f] == OnFree && own == old(own)[f := Other]
      ensures if old(chain) == [] then f == 0 && chain == [] else f != 0 && |chain| == |old(chain)| - 1
    {
      assert chain != [] ==> chain[0] in chain;
      f := freelist;
      if f != 0 {
        assert LinkOk(mem, chain, 0) && chain[0] in chain;
        freelist := mem[f].next;
        TakeKeeps(mem, own, f);
        chain, own := chain[1..], own[f := Other];
        forall g: nat ensures IsFree(own, g) <==> g in chain {
          assert IsFree(old(own), g) <==> g in old(chain);
        }
        assert ChainOk(mem, freelist, chain) by {
          forall i | 0 <= i < |chain| ensures LinkOk(mem, chain, i) {
            assert LinkOk(mem, old(chain), i + 1);
          }
          assert |old(chain)| > 1 ==> LinkOk(mem, old(chain), 1);
        }
      }
    }

    /** kfree of a page that kalloc handed out */
    method Kfree(f: nat)
      requires Valid() && f in own && own[f] == Other
      modifies this
      ensures Valid() && own == old(own)[f := OnFree] && |chain| == |old(chain)| + 1
      ensures mem == old(mem)[f := Link(old(freelist))] && freelist == f
    {
      assert !IsFree(own, f);
      PutKeeps(mem, own, f, Link(freelist), OnFree);
      mem := mem[f := Link(freelist)];
      freelist := f;
      chain, own := [f] + chain, own[f := OnFree];
      forall i | 0 <= i < |chain| ensures LinkOk(mem, chain, i) {
        assert i > 0 ==> LinkOk(old(mem), old(chain), i - 1) && old(chain)[i - 1] in old(chain);
      }
      forall g: nat ensures IsFree(own, g) <==> g in chain {
        assert IsFree(old(own), g) <==> g in old(chain);
      }
    }

    /** Filling a page that kalloc handed out (memset, memmove). */
    method Fill(f: nat, page: Page)
      requires Valid() && f in own && own[f] == Other
      modifies `mem
      ensures Valid() && mem == old(mem)[f := page]
    {
      PutKeeps(mem, own, f, page, Other);
      mem := mem[f := page];
      assert own[f := Other] == own;
      ChainKept(old(mem), mem, own, freelist, chain);
    }

    /** walkpgdir for page address v: the page of the table that holds its entry, or 0. */
    method WalkPgdir(pg: nat, v: nat, alloc: bool) returns (tab: nat)
      requires Valid() && pg in own && own[pg] == Dir && v < NVPN
      modifies this
      ensures Valid() && Grew(old(own), own, pg) && Untouched(old(mem), old(own), mem, own, pg)
      ensures forall w: nat :: w < NVPN ==> Pte(mem, pg, w) == old(Pte(mem, pg, w))
      ensures IsTable(old(mem), pg) && IsTable(mem, pg)
      ensures !alloc || tab == 0 ==> mem == old(mem) && own == old(own) && chain == old(chain)
      ensures alloc ==> (tab == 0 <==> old(chain == [] && !Tabled(mem, pg, v / NENTRIES)))
      ensures alloc && tab != 0 ==> Extended(old(mem), mem, pg, v, v + 1)
      ensures alloc && tab != 0 ==> |old(chain)| == |chain| + if old(Tabled(mem, pg, v / NENTRIES)) then 0 else 1
      ensures tab == 0 <==> !Ent(mem, pg, v / NENTRIES).p
      ensures tab == 0 && alloc ==> NoneFree(own)
      ensures tab != 0 ==> tab in own && own[tab] == Tab(pg, v / NENTRIES) && IsTable(mem, tab)
      ensures tab != 0 ==> Pte(mem, pg, v) == Ent(mem, tab, v % NENTRIES)
      ensures tab != 0 ==> Ent(mem, pg, v / NENTRIES) == Entry(tab, true, Flags(true, true, 0))
    {
      TableOf(mem, own, pg, v);
      var i := v / NENTRIES;
      if Ent(mem, pg, i).p {
        OneTabled(mem, mem, pg, v);
        return Ent(mem, pg, i).ppn;
      }
      if !alloc {
        return 0;
      }
      tab := AddTable(pg, v);
    }

    /** walkpgdir without allocation, and the entry it leads to. */
    method FindPte(pg: nat, v: nat) returns (e: Entry)
      requires Valid() && pg in own && own[pg] == Dir && v < NVPN
      modifies this
      ensures Valid() && mem == old(mem) && own == old(own) && chain == old(chain) && e == Pte(mem, pg, v)
    {
      var tab := WalkPgdir(pg, v, false);
      e := NONE;
      TableOf(mem, own, pg, v);
      if tab != 0 {
        e := Ent(mem, tab, v % NENTRIES);
      }
    }

    /** walkpgdir's allocation of an empty table for a directory entry that has none. */
    method AddTable(pg: nat, v: nat) returns (tab: nat)
      requires Valid() && pg in own && own[pg] == Dir && v < NVPN && IsTable(mem, pg) && !Ent(mem, pg, v / NENTRIES).p
      modifies this
      ensures Valid() && Grew(old(own), own, pg) && Untouched(old(mem), old(own), mem, own, pg)
      ensures forall w: nat :: w < NVPN ==> Pte(mem, pg, w) == old(Pte(mem, pg, w))
      ensures IsTable(mem, pg)
      ensures tab == 0 ==> mem == old(mem) && own == old(own) && NoneFree(own)
      ensures if old(chain) == [] then tab == 0 && chain == [] else tab != 0 && |chain| == |old(chain)| - 1
      ensures tab != 0 ==> Extended(old(mem), mem, pg, v, v + 1)
      ensures tab != 0 ==> Ent(mem, pg, v / NENTRIES).p && tab in own && own[tab] == Tab(pg, v / NENTRIES)
      ensures tab != 0 ==> IsTable(mem, tab) && Pte(mem, pg, v) == Ent(mem, tab, v % NENTRIES)
      ensures tab != 0 ==> Ent(mem, pg, v / NENTRIES) == Entry(tab, true, Flags(true, true, 0))
    {
      tab := Kalloc();
      if tab == 0 {
        return;
      }
      var zero := Table(seq(NENTRIES, _ => NONE));
      var i, e := v / NENTRIES, Entry(tab, true, USERPERM);
      ghost var o := own;
      TableAdded(mem, old(own), pg, i, tab, zero, e);
      mem := SetEnt(mem[tab := zero], pg, i, e);
      own := old(own)[tab := Tab(pg, i)];
      ChainKept(old(mem), mem, o, freelist, chain);
      FreeKept(o, own, chain);
      TableOf(mem, own, pg, v);
      OneTabled(old(mem), mem, pg, v);
    }

    /** Writing entry v of address space pg, whose table is `tab`: a page is mapped, or a kernel address. */
    method SetPte(pg: nat, v: nat, tab: nat, ppn: nat, perm: Flags)
      requires Valid() && pg in own && own[pg] == Dir && v < NVPN && ppn < NVPN
      requires tab in own && own[tab] == Tab(pg, v / NENTRIES) && IsTable(mem, tab) && !Ent(mem, tab, v % NENTRIES).p
      requires v < KERNVPN ==>
                 ppn in own && own[ppn] == Other && ppn in mem && mem[ppn].Data? && |mem[ppn].bytes| == PGSIZE
      modifies `mem, `own
      ensures Valid() && own == if v < KERNVPN then old(own)[ppn := User(pg, v)] else old(own)
      ensures Untouched(old(mem), old(own), mem, own, pg)
      ensures forall w: nat :: w < NVPN ==>
                Pte(mem, pg, w) == if w == v then Entry(ppn, true, perm) else old(Pte(mem, pg, w))
      ensures pg in mem && pg in old(mem) && mem[pg] == old(mem)[pg]
    {
      ghost var m, o := mem, own;
      var e := Entry(ppn, true, perm);
      if v < KERNVPN {
        MapUser(mem, own, pg, v, tab, ppn, e);
        own := own[ppn := User(pg, v)];
      } else {
        MapKernel(mem, own, pg, v / NENTRIES, tab, v % NENTRIES, e);
      }
      mem := SetEnt(mem, tab, v % NENTRIES, e);
      ChainKept(m, mem, o, freelist, chain);
      forall w: nat | w < NVPN ensures Pte(mem, pg, w) == if w == v then e else Pte(m, pg, w) {
        PteSet(m, o, pg, v, tab, e, pg, w);
      }
    }

    /** One round of mappages. */
    method MapOne(pg: nat, v: nat, ppn: nat, perm: Flags) returns (ok: bool, ghost grown: Uses)
      requires Valid() && pg in own && own[pg] == Dir && v < NVPN && ppn < NVPN && !Pte(mem, pg, v).p
      requires v < KERNVPN ==>
                 ppn in own && own[ppn] == Other && ppn in mem && mem[ppn].Data? && |mem[ppn].bytes| == PGSIZE
      modifies this
      ensures Valid() && Untouched(old(mem), old(own), mem, own, pg)
      ensures Grew(old(own), grown, pg) && own == if ok && v < KERNVPN then grown[ppn := User(pg, v)] else grown
      ensures forall w: nat :: w < NVPN ==>
                Pte(mem, pg, w) == if ok && w == v then Entry(ppn, true, perm) else old(Pte(mem, pg, w))
      ensures !ok ==> own == old(own) && mem == old(mem) && NoneFree(own)
      ensures ok <==> old(chain != [] || Tabled(mem, pg, v / NENTRIES))
      ensures ok ==> Extended(old(mem), mem, pg, v, v + 1)
      ensures |old(chain)| == |chain| + if ok && !old(Tabled(mem, pg, v / NENTRIES)) then 1 else 0
    {
      var tab := WalkPgdir(pg, v, true);
      grown := own;
      if tab == 0 {
        return false, own;
      }
      assert GrewAt(old(own), own, pg, pg);
      if v < KERNVPN {
        assert GrewAt(old(own), own, pg, ppn) && StaysAt(old(mem), old(own), mem, own, pg, ppn);
      }
      ghost var m := mem;
      SetPte(pg, v, tab, ppn, perm);
      ok := true;
      GrewUntouched(old(mem), old(own), m, grown, mem, own, pg);
      SameDirectory(old(mem), m, mem, pg, v);
    }

    /** mappages has got to page address `upto`; m0, own0 and free0 are memory, uses and the number of free
        pages at its start. */
    ghost predicate Mapping(m0: Memory, own0: Uses, free0: nat, pg: nat, first: nat, upto: nat, ppn: nat, perm: Flags)
      requires first <= upto
      reads this
    {
      && Valid() && Untouched(m0, own0, mem, own, pg) && Mapped(own0, own, pg, first, upto, ppn)
      && (forall w: nat :: w < NVPN ==>
            Pte(mem, pg, w) == if first <= w < upto then Entry(ppn + (w - first), true, perm) else Pte(m0, pg, w))
      && Extended(m0, mem, pg, first, upto) && free0 == |chain| + NewTables(m0, pg, first, upto)
    }

    /** mappages from page address `first` to `last`, which is reached by equality; `upto` is how far it got.
        Where the range lies in the user's half its pages must be handed out and not yet in use.  It fails exactly
        if there are not enough free pages for the tables that are missing. */
    method MapPages(pg: nat, first: nat, last: nat, ppn: nat, perm: Flags) returns (ok: bool, ghost upto: nat)
      requires Valid() && pg in own && own[pg] == Dir && first <= last < NVPN && ppn + (last - first) < NVPN
      requires forall w: nat :: first <= w <= last ==> !Pte(mem, pg, w).p
      requires Ready(mem, own, first, last, ppn)
      modifies this
      ensures first <= upto <= last + 1 && (ok <==> upto == last + 1)
      ensures Mapping(old(mem), old(own), |old(chain)|, pg, first, upto, ppn, perm)
      ensures !ok ==> chain == [] && NeedsTable(old(mem), pg, first, upto)
      ensures ok <==> |old(chain)| >= NewTables(old(mem), pg, first, last + 1)
    {
      ghost var m0 := mem;
      ok, upto := MapLoop(pg, first, last, ppn, perm);
      OneTableMore(m0, pg, first, upto, last + 1);
    }

    /** The loop of mappages. */
    method MapLoop(pg: nat, first: nat, last: nat, ppn: nat, perm: Flags) returns (ok: bool, ghost upto: nat)
      requires Valid() && pg in own && own[pg] == Dir && first <= last < NVPN && ppn + (last - first) < NVPN
      requires forall w: nat :: first <= w <= last ==> !Pte(mem, pg, w).p
      requires Ready(mem, own, first, last, ppn)
      modifies this
      ensures first <= upto <= last + 1 && (ok <==> upto == last + 1)
      ensures Mapping(old(mem), old(own), |old(chain)|, pg, first, upto, ppn, perm)
      ensures !ok ==> chain == [] && NeedsTable(old(mem), pg, first, upto)
    {
      ghost var m0, own0, free0 := mem, own, |chain|;
      var a, p := first, ppn;
      ok, upto := true, first;
      NothingMapped(pg, first, ppn, perm);
      while true
        invariant first <= a <= last && p == ppn + (a - first) && upto == a
        invariant Mapping(m0, own0, free0, pg, first, a, ppn, perm)
        decreases last - a
      {
        ok := MapNext(pg, a, p, perm, m0, own0, free0, first, last, ppn);
        if !ok { return; }
        upto := a + 1;
        if a == last { return; }
        a, p := a + 1, p + 1;
      }
    }

    lemma NothingMapped(pg: nat, first: nat, ppn: nat, perm: Flags)
      requires Valid()
      ensures Mapping(mem, own, |chain|, pg, first, first, ppn, perm)
    {
      forall f: nat | f in own ensures StaysAt(mem, own, mem, own, pg, f) {
        assert PageOk(mem, own, f);
      }
    }

    /** One round of mappages, at page address a. */
    method MapNext(pg: nat, a: nat, p: nat, perm: Flags, ghost m0: Memory, ghost own0: Uses, ghost free0: nat,
                   ghost first: nat, ghost last: nat, ghost ppn: nat) returns (ok: bool)
      requires first <= a <= last < NVPN && p == ppn + (a - first) < NVPN && pg in own0 && own0[pg] == Dir
      requires Mapping(m0, own0, free0, pg, first, a, ppn, perm) && !Pte(m0, pg, a).p
      requires Ready(m0, own0, first, last, ppn)
      modifies this
      ensures Mapping(m0, own0, free0, pg, first, if ok then a + 1 else a, ppn, perm)
      ensures !ok ==> chain == [] && NeedsTable(m0, pg, first, a)
    {
      ghost var m, o, grown := mem, own, own;
      StillReady(m0, own0, mem, own, pg, first, last, a, ppn);
      ok, grown := MapOne(pg, a, p, perm);
      TableNeeded(m0, m, pg, first, a);
      if ok {
        MappedMore(own0, o, grown, own, pg, first, a, ppn);
        MappedUntouched(m0, own0, m, o, mem, own, pg, first, a, ppn);
        ExtendedMore(m0, m, mem, pg, first, a);
      }
    }

    /** Clearing the entry of a user page. */
    method ClearPte(pg: nat, v: nat, tab: nat, f: nat)
      requires Valid() && pg in own && own[pg] == Dir && v < KERNVPN && tab in own && own[tab] == Tab(pg, v / NENTRIES)
      requires PointsTo(mem, tab, v % NENTRIES, f) && f in own && own[f] == User(pg, v)
      modifies `mem, `own
      ensures Valid() && own == old(own)[f := Other] && Untouched(old(mem), old(own), mem, own, pg)
      ensures forall w: nat :: w < NVPN ==> Pte(mem, pg, w) == if w == v then NONE else old(Pte(mem, pg, w))
    {
      UnmapUser(mem, own, pg, v, tab, f, NONE);
      ghost var m, o := mem, own;
      mem := SetEnt(mem, tab, v % NENTRIES, NONE);
      own := own[f := Other];
      ChainKept(m, mem, o, freelist, chain);
      FreeKept(o, own, chain);
      forall w: nat | w < NVPN ensures Pte(mem, pg, w) == if w == v then NONE else Pte(m, pg, w) {
        PteSet(m, o, pg, v, tab, NONE, pg, w);
      }
    }

    /** deallocuvm's work on one page address whose table is `tab`: the page, if there is one, is taken out
        and freed (the code frees it first and then clears the entry, which nobody reads in between). */
    method DropPage(pg: nat, v: nat, tab: nat)
      requires Valid() && pg in own && own[pg] == Dir && v < KERNVPN && tab in own && own[tab] == Tab(pg, v / NENTRIES)
      requires IsTable(mem, tab) && Pte(mem, pg, v) == Ent(mem, tab, v % NENTRIES)
      modifies this
      ensures Valid() && Dropped(old(own), own, pg, v, v + 1) && Untouched(old(mem), old(own), mem, own, pg)
      ensures forall w: nat :: w < NVPN ==>
                Pte(mem, pg, w) == if w == v && old(Pte(mem, pg, v)).p then NONE else old(Pte(mem, pg, w))
    {
      var pte := Ent(mem, tab, v % NENTRIES);
      NoUser(mem, own, pg, v);
      if !pte.p {
        return;
      }
      var f := pte.ppn;
      UserPte(mem, own, pg, v, f);
      ClearPte(pg, v, tab, f);
      ghost var m, o := mem, own;
      Kfree(f);
      forall w: nat | w < NVPN ensures Pte(mem, pg, w) == Pte(m, pg, w) {
        PteSame(m, o, mem, pg, w);
      }
      forall g: nat | g in own ensures StaysAt(old(mem), old(own), mem, own, pg, g) {
        assert StaysAt(old(mem), old(own), m, o, pg, g);
      }
    }

    /** One round of deallocuvm's loop at the 32-bit address `a`: where there is no table the walk skips to the
        next one.  `v` and `next` are the page addresses before and after. */
    method DropNext(pg: nat, a: nat, ghost v: nat) returns (b: nat, ghost next: nat)
      requires Valid() && pg in own && own[pg] == Dir && v < KERNVPN && a == v * PGSIZE
      modifies this
      ensures Valid() && v < next <= KERNVPN && b == next * PGSIZE && Untouched(old(mem), old(own), mem, own, pg)
      ensures next != v + 1 ==> mem == old(mem) && own == old(own) && forall w: nat :: v <= w < next ==>
                !Pte(mem, pg, w).p
      ensures next == v + 1 ==> Dropped(old(own), own, pg, v, v + 1)
      ensures next == v + 1 ==> forall w: nat :: w < NVPN ==>
                Pte(mem, pg, w) == if w == v && old(Pte(mem, pg, v)).p then NONE else old(Pte(mem, pg, w))
    {
      Quotient(v, 0);
      var tab := WalkPgdir(pg, a / PGSIZE, false);
      b, next := a, v + 1;
      if tab == 0 {
        next := (v / NENTRIES + 1) * NENTRIES;
        b := (PgAddr(a / 0x40_0000 + 1) - PGSIZE) % UINT;
        SkipArith(v);
        NoTable(mem, own, pg, v);
        if next == v + 1 {
          NoUser(mem, own, pg, v);
        }
      } else {
        DropPage(pg, a / PGSIZE, tab);
      }
      b := (b + PGSIZE) % UINT;
    }

    /** deallocuvm */
    method DeallocUvm(pg: nat, oldsz: nat, newsz: nat) returns (sz: nat)
      requires Valid() && pg in own && own[pg] == Dir && oldsz <= KERNBASE && newsz < UINT
      modifies this
      ensures Valid() && sz == if newsz >= oldsz then oldsz else newsz
      ensures newsz >= oldsz ==> mem == old(mem) && own == old(own)
      ensures Dropped(old(own), own, pg, Up(newsz), Up(oldsz)) && Untouched(old(mem), old(own), mem, own, pg)
      ensures forall w: nat :: w < NVPN ==>
                Pte(mem, pg, w) ==
                if Up(newsz) <= w < Up(oldsz) && old(Pte(mem, pg, w)).p then NONE else old(Pte(mem, pg, w))
    {
      if newsz >= oldsz {
        UpMonotone(oldsz, newsz);
        return oldsz;
      }
      UpMonotone(newsz, oldsz);
      var a := (newsz + PGSIZE - 1) % UINT / PGSIZE * PGSIZE;
      ghost var v, lo, hi := Up(newsz), Up(newsz), Up(oldsz);
      ghost var done := v;
      while a < oldsz
        invariant a == v * PGSIZE && lo <= v <= KERNVPN && done == (if v < hi then v else hi) && Valid()
        invariant Dropped(old(own), own, pg, lo, done) && Untouched(old(mem), old(own), mem, own, pg)
        invariant forall w: nat :: w < NVPN ==>
                    Pte(mem, pg, w) == if lo <= w < done && old(Pte(mem, pg, w)).p then NONE else old(Pte(mem, pg, w))
        decreases KERNVPN - v
      {
        UpBound(v, oldsz);
        assert DroppedAt(old(own), own, pg, lo, done, pg);
        ghost var m, o, v0 := mem, own, v;
        a, v := DropNext(pg, a, v);
        if v == v0 + 1 {
          DroppedUntouched(old(mem), old(own), m, o, mem, own, pg, lo, v0);
        } else {
          DroppedMore(old(own), own, mem, pg, lo, v0, v);
        }
        done := if v < hi then v else hi;
      }
      UpBound(v, oldsz);
      return newsz;
    }

    /** One round of freevm's loop over the directory; m and o are memory and uses before the loop. */
    method FreeEntry(pg: nat, i: nat, ghost m: Memory, ghost o: Uses)
      requires Good(m, o) && pg in o && o[pg] == Dir && i < NENTRIES && IsTable(m, pg)
      requires Valid() && pg in mem && mem[pg] == m[pg] && TabsFreed(o, own, pg, i) && Kept(m, o, mem, own)
      modifies this
      ensures Valid() && pg in mem && mem[pg] == m[pg] && TabsFreed(o, own, pg, i + 1) && Kept(m, o, mem, own)
    {
      TabOfEntry(m, o, pg, i);
      var e := Ent(mem, pg, i);
      if e.p {
        assert TabsFreedAt(o, own, pg, i, e.ppn);
        Kfree(e.ppn);
      }
      forall f: nat | f in o ensures TabsFreedAt(o, own, pg, i + 1, f) && KeptAt(m, o, mem, own, f) {
        assert TabsFreedAt(o, old(own), pg, i, f) && KeptAt(m, o, old(mem), old(own), f);
      }
    }

    /** freevm's last part: with no user page left, the tables and then the directory are freed. */
    method FreeTables(pg: nat)
      requires Valid() && pg in own && own[pg] == Dir
      requires forall f: nat :: f in own ==> !(own[f].User? && own[f].pg == pg)
      modifies this
      ensures Valid() && Released(old(own), own, pg) && Kept(old(mem), old(own), mem, own)
    {
      TableOf(mem, own, pg, 0);
      ghost var m, o := mem, own;
      Disown(mem, own, pg);
      own := Disowned(own, pg);
      FreeKept(o, own, chain);
      for i := 0 to NENTRIES
        invariant Valid() && pg in mem && mem[pg] == m[pg] && TabsFreed(o, own, pg, i) && Kept(m, o, mem, own)
      {
        FreeEntry(pg, i, m, o);
      }
      assert TabsFreedAt(o, own, pg, NENTRIES, pg);
      ghost var m1, own1 := mem, own;
      Kfree(pg);
      forall f: nat | f in o ensures ReleasedAt(o, own, pg, f) && KeptAt(m, o, mem, own, f) {
        assert TabsFreedAt(o, own1, pg, NENTRIES, f) && PageOk(m, o, f) && KeptAt(m, o, m1, own1, f);
      }
    }

    /** freevm */
    method FreeVm(pg: nat)
      requires Valid() && pg in own && own[pg] == Dir
      modifies this
      ensures Valid() && Released(old(own), own, pg) && Kept(old(mem), old(own), mem, own)
    {
      ghost var o := own;
      var _ := DeallocUvm(pg, KERNBASE, 0);
      ghost var m1, o1 := mem, own;
      assert DroppedAt(o, own, pg, 0, KERNVPN, pg);
      forall f: nat | f in own ensures !(own[f].User? && own[f].pg == pg) {
        assert DroppedAt(o, own, pg, 0, KERNVPN, f) && PageOk(mem, own, f);
      }
      FreeTables(pg);
      forall f: nat | f in o ensures ReleasedAt(o, own, pg, f) && KeptAt(old(mem), o, mem, own, f) {
        assert DroppedAt(o, o1, pg, 0, KERNVPN, f) && ReleasedAt(o1, own, pg, f) &&
                 StaysAt(old(mem), o, m1, o1, pg, f) && KeptAt(m1, o1, mem, own, f);
      }
    }

    /** kalloc and memset of a directory */
    method NewDirectory() returns (pg: nat)
      requires Valid()
      modifies this
      ensures Valid()
      ensures pg == 0 ==> own == old(own) && mem == old(mem)
      ensures if old(chain) == [] then pg == 0 else pg != 0 && |chain| == |old(chain)| - 1
      ensures pg != 0 ==> forall i: nat :: !Tabled(mem, pg, i)
      ensures pg != 0 ==> IsFree(old(own), pg) && own == old(own)[pg := Dir] && Kept(old(mem), old(own), mem, own)
      ensures pg != 0 ==> forall w: nat :: w < NVPN ==> Pte(mem, pg, w) == NONE
    {
      pg := Kalloc();
      if pg == 0 {
        return;
      }
      Fill(pg, Table(seq(NENTRIES, _ => NONE)));
      VmFrames.NewDir(mem, own, pg);
      ghost var o := own;
      own := own[pg := Dir];
      FreeKept(o, own, chain);
    }

    /** Freeing an address space that is still being built; m0 and own0 are memory and uses before it was begun. */
    method Abandon(d: nat, ghost m0: Memory, ghost own0: Uses)
      requires Valid() && Good(m0, own0) && IsFree(own0, d) && Built(own0, own, d)
      requires own[d] == Dir && Kept(m0, own0, mem, own)
      modifies this
      ensures Valid() && own == own0 && Kept(m0, own0, mem, own)
    {
      ghost var m, o := mem, own;
      FreeVm(d);
      Unbuilt(m0, own0, m, o, mem, own, d);
    }

    /** setupkvm; ks is the table of kernel mappings. */
    method SetupKvm(ks: seq<Kmap>) returns (pg: nat)
      requires Valid() && KmapsOk(ks)
      modifies this
      ensures Valid() && own.Keys == old(own).Keys && Kept(old(mem), old(own), mem, own)
      ensures pg == 0 ==> own == old(own)
      ensures pg != 0 ==> IsFree(old(own), pg) && Grew(old(own)[pg := Dir], own, pg)
      ensures pg != 0 ==> forall w: nat :: w < NVPN ==> Pte(mem, pg, w) == KernelPte(ks, |ks|, w)
      ensures pg != 0 <==> |old(chain)| > KernelTables(ks, |ks|)
      ensures pg != 0 ==> |old(chain)| == |chain| + 1 + KernelTables(ks, |ks|) && TabledFor(mem, pg, ks, |ks|)
    {
      pg := NewDirectory();
      if pg == 0 {
        return;
      }
      ghost var m := mem;
      var i := 0;
      StaysSame(pg);
      while i < |ks|
        invariant i <= |ks| && SettingUp(old(own), |old(chain)|, m, pg, ks, i)
      {
        var ok := KvmRound(pg, ks, i, old(mem), old(own), |old(chain)|, m);
        if !ok {
          return 0;
        }
        i := i + 1;
      }
      UndoSetup(old(mem), old(own), m, mem, own, pg);
    }

    /** setupkvm has mapped the first i ranges; m is memory with the new directory pg, own0 and free0 are uses and
        the number of free pages before that. */
    ghost predicate SettingUp(own0: Uses, free0: nat, m: Memory, pg: nat, ks: seq<Kmap>, i: nat)
      requires i <= |ks|
      reads this
    {
      && Valid() && Grew(own0[pg := Dir], own, pg) && Untouched(m, own0[pg := Dir], mem, own, pg)
      && (forall w: nat :: w < NVPN ==> Pte(mem, pg, w) == KernelPte(ks, i, w))
      && free0 == |chain| + 1 + KernelTables(ks, i) && TabledFor(mem, pg, ks, i)
    }

    lemma StaysSame(pg: nat)
      requires Valid()
      ensures Grew(own, own, pg) && Untouched(mem, own, mem, own, pg)
    {
      forall f: nat | f in own ensures StaysAt(mem, own, mem, own, pg, f) {
        assert PageOk(mem, own, f);
      }
    }

    /** One round of setupkvm's loop, and what follows when it fails; m0, own0 and free0 are memory, uses and the
        number of free pages at the start of setupkvm. */
    method KvmRound(pg: nat, ks: seq<Kmap>, i: nat, ghost m0: Memory, ghost own0: Uses, ghost free0: nat,
                    ghost m: Memory)
      returns (ok: bool)
      requires KmapsOk(ks) && i < |ks| && Good(m0, own0) && IsFree(own0, pg) && Kept(m0, own0, m, own0[pg := Dir])
      requires SettingUp(own0, free0, m, pg, ks, i)
      modifies this
      ensures ok ==> SettingUp(own0, free0, m, pg, ks, i + 1)
      ensures !ok ==> Valid() && own == own0 && Kept(m0, own0, mem, own) && free0 <= KernelTables(ks, |ks|)
    {
      ghost var o, m1, o1 := own0[pg := Dir], mem, own;
      assert GrewAt(o, own, pg, pg);
      NotYetMapped(ks, i);
      ghost var upto;
      ok, upto := MapPages(pg, First(ks[i]), Last(ks[i]), ks[i].start / PGSIZE, ks[i].perm);
      KernelMapped(o1, own, pg, First(ks[i]), upto, ks[i].start / PGSIZE);
      RangeCount(m1, pg, ks, i, upto);
      GrewJoin(o, o1, own, pg);
      GrewUntouched(m, o, m1, o1, mem, own, pg);
      if ok {
        RangeTabled(m1, mem, pg, ks, i);
      } else {
        KernelTablesMore(ks, i + 1, |ks|);
        UndoSetup(m0, own0, m, mem, own, pg);
        NewlyBuilt(m0, own0, own, pg);
        Abandon(pg, m0, own0);
      }
    }

    /** A round of allocuvm's or copyuvm's loop: a new page with the given contents for page address v.  When
        it cannot be mapped it is freed here; allocuvm does so after it has undone its earlier rounds. */
    method Place(pg: nat, v: nat, content: Page, perm: Flags) returns (ok: bool)
      requires Valid() && pg in own && own[pg] == Dir && v < KERNVPN && !Pte(mem, pg, v).p
      requires content.Data? && |content.bytes| == PGSIZE
      modifies this
      ensures Valid() && Untouched(old(mem), old(own), mem, own, pg)
      ensures !ok ==> Grew(old(own), own, pg) && forall w: nat :: w < NVPN ==> Pte(mem, pg, w) == old(Pte(mem, pg, w))
      ensures ok ==> Added(old(own), own, pg, v, v + 1) && HoldsAt(mem, pg, v, content, perm)
      ensures ok ==> IsFree(old(own), Pte(mem, pg, v).ppn)
      ensures ok ==> forall w: nat :: w < NVPN && w != v ==> Pte(mem, pg, w) == old(Pte(mem, pg, w))
      ensures ok <==> |old(chain)| > if old(Tabled(mem, pg, v / NENTRIES)) then 0 else 1
      ensures ok ==> |old(chain)| == |chain| + 1 + if old(Tabled(mem, pg, v / NENTRIES)) then 0 else 1
      ensures ok ==> Extended(old(mem), mem, pg, v, v + 1)
    {
      var page := Kalloc();
      if page == 0 {
        return false;
      }
      ghost var o := own;
      Fill(page, content);
      ghost var m := mem;
      forall w: nat | w < NVPN ensures Pte(mem, pg, w) == old(Pte(mem, pg, w)) {
        PteSame(old(mem), old(own), mem, pg, w);
      }
      assert mem[pg] == old(mem)[pg] && (Tabled(mem, pg, v / NENTRIES) <==> old(Tabled(mem, pg, v / NENTRIES)));
      TableForOne(mem, pg, v);
      assert forall w: nat :: v <= w <= v ==> ReadyAt(mem, own, v, page, w);
      var mapped, _ := MapPages(pg, v, v, page, perm);
      ok := mapped;
      if !ok {
        KernelMapped(o, own, pg, v, v, page);
        assert GrewAt(o, own, pg, page) && GrewAt(o, own, pg, pg);
        GiveBack(pg, page, m, old(own));
        forall f: nat | f in own ensures StaysAt(old(mem), old(own), mem, own, pg, f) {
          assert StaysAt(m, old(own), mem, own, pg, f);
        }
      } else {
        PageMapped(o, own, pg, v, page);
        ghost var grown := own[page := Other];
        assert GrewAt(o, grown, pg, page) && GrewAt(o, grown, pg, pg) && StaysAt(m, o, mem, own, pg, page);
        GrownAdded(old(mem), old(own), m, mem, grown, own, pg, page, v);
        SameTabled(old(mem), m, mem, pg, v);
      }
    }

    /** kfree of a page that could not be mapped. */
    method GiveBack(pg: nat, page: nat, ghost m: Memory, ghost o: Uses)
      requires Valid() && pg in own && own[pg] == Dir && page in own && own[page] == Other && IsFree(o, page)
      requires Grew(o[page := Other], own, pg) && Untouched(m, o[page := Other], mem, own, pg)
      modifies this
      ensures Valid() && Grew(o, own, pg) && Untouched(m, o, mem, own, pg)
      ensures forall w: nat :: w < NVPN ==> Pte(mem, pg, w) == old(Pte(mem, pg, w))
    {
      Kfree(page);
      forall f: nat | f in o ensures GrewAt(o, own, pg, f) && StaysAt(m, o, mem, own, pg, f) {
        assert GrewAt(o[page := Other], old(own), pg, f) && StaysAt(m, o[page := Other], old(mem), old(own), pg, f);
      }
      forall w: nat | w < NVPN ensures Pte(mem, pg, w) == old(Pte(mem, pg, w)) {
        PteSame(old(mem), old(own), mem, pg, w);
      }
    }

    /** allocuvm's deallocuvm after a failure at page address v; m0 and own0 are memory and uses at its start. */
    method UndoGrowth(pg: nat, newsz: nat, oldsz: nat, ghost m0: Memory, ghost own0: Uses, ghost v: nat)
      requires Valid() && pg in own && own[pg] == Dir && oldsz <= newsz < KERNBASE && Up(oldsz) <= v <= Up(newsz)
      requires Good(m0, own0) && pg in own0 && own0[pg] == Dir
      requires forall w: nat :: Up(oldsz) <= w < Up(newsz) && w < KERNVPN ==> !Pte(m0, pg, w).p
      requires Added(own0, own, pg, Up(oldsz), v) && Untouched(m0, own0, mem, own, pg)
      requires forall w: nat :: w < NVPN && !(Up(oldsz) <= w < Up(newsz)) ==> Pte(mem, pg, w) == Pte(m0, pg, w)
      modifies this
      ensures Valid() && Grew(own0, own, pg) && Untouched(m0, own0, mem, own, pg)
      ensures forall w: nat :: Up(oldsz) <= w < Up(newsz) && w < KERNVPN ==> !Pte(mem, pg, w).p
      ensures forall w: nat :: w < NVPN && !(Up(oldsz) <= w < Up(newsz)) ==> Pte(mem, pg, w) == Pte(m0, pg, w)
    {
      ghost var m, o := mem, own;
      var _ := DeallocUvm(pg, newsz, oldsz);
      UpMonotone(oldsz, newsz);
      Regained(m0, own0, m, o, mem, own, pg, Up(oldsz), v, Up(newsz));
    }

    /** One round of allocuvm's loop; m0, own0 and free0 are memory, uses and the number of free pages at its
        start. */
    method GrowRound(pg: nat, v: nat, ghost m0: Memory, ghost own0: Uses, ghost free0: nat, ghost lo: nat)
      returns (ok: bool)
      requires Valid() && pg in own0 && own0[pg] == Dir && lo <= v < KERNVPN && Growing(m0, own0, mem, own, pg, lo, v)
      requires free0 == |chain| + PagesFor(m0, pg, lo, v) && !Pte(m0, pg, v).p
      modifies this
      ensures Valid() && pg in own && own[pg] == Dir && Untouched(old(mem), old(own), mem, own, pg)
      ensures ok <==> free0 >= PagesFor(m0, pg, lo, v + 1)
      ensures ok ==> Growing(m0, own0, mem, own, pg, lo, v + 1) && free0 == |chain| + PagesFor(m0, pg, lo, v + 1)
      ensures !ok ==> Grew(old(own), own, pg) && forall w: nat :: w < NVPN ==> Pte(mem, pg, w) == old(Pte(mem, pg, w))
    {
      assert AddedAt(own0, own, pg, lo, v, pg);
      TableNeeded(m0, mem, pg, lo, v);
      ok := Place(pg, v, ZeroPage(), USERPERM);
      if ok {
        assert AddedAt(old(own), own, pg, v, v + 1, pg);
        GrowingNext(m0, own0, old(mem), old(own), mem, own, pg, lo, v);
      } else {
        assert GrewAt(old(own), own, pg, pg);
      }
    }

    /** The same round, and what follows when it fails. */
    method GrowOrUndo(pg: nat, v: nat, oldsz: nat, newsz: nat, ghost m0: Memory, ghost own0: Uses, ghost free0: nat,
                      ghost lo: nat, ghost hi: nat) returns (ok: bool)
      requires Valid() && Good(m0, own0) && pg in own0 && own0[pg] == Dir && oldsz <= newsz < KERNBASE
      requires lo == Up(oldsz) <= v < hi == Up(newsz) <= KERNVPN && Growing(m0, own0, mem, own, pg, lo, v)
      requires free0 == |chain| + PagesFor(m0, pg, lo, v) && forall w: nat :: lo <= w < hi ==> !Pte(m0, pg, w).p
      modifies this
      ensures Valid()
      ensures ok ==> Growing(m0, own0, mem, own, pg, lo, v + 1) && free0 == |chain| + PagesFor(m0, pg, lo, v + 1)
      ensures !ok ==> free0 < PagesFor(m0, pg, lo, hi) && Grew(own0, own, pg) && Untouched(m0, own0, mem, own, pg)
      ensures !ok ==> forall w: nat :: lo <= w < hi ==> !Pte(mem, pg, w).p
      ensures !ok ==> forall w: nat :: w < NVPN && !(lo <= w < hi) ==> Pte(mem, pg, w) == Pte(m0, pg, w)
    {
      ghost var m, o := mem, own;
      ok := GrowRound(pg, v, m0, own0, free0, lo);
      if !ok {
        NewTablesMore(m0, pg, lo, v + 1, hi);
        GrownGrew(m0, own0, m, o, mem, own, pg, lo, v);
        UndoGrowth(pg, newsz, oldsz, m0, own0, v);
      }
    }

    /** allocuvm.  `ok` tells a new size from the 0 that stands for failure. */
    method AllocUvm(pg: nat, oldsz: nat, newsz: nat) returns (sz: nat, ghost ok: bool)
      requires Valid() && pg in own && own[pg] == Dir && oldsz < UINT && newsz < UINT
      requires forall w: nat :: Up(oldsz) <= w < Up(newsz) && w < KERNVPN ==> !Pte(mem, pg, w).p
      modifies this
      ensures Valid() && Untouched(old(mem), old(own), mem, own, pg)
      ensures sz == if !ok then 0 else if newsz < oldsz then oldsz else newsz
      ensures newsz >= KERNBASE || newsz < oldsz ==> ok == (newsz < KERNBASE) && mem == old(mem) && own == old(own)
      ensures ok ==> Added(old(own), own, pg, Up(oldsz), Up(newsz)) && forall w: nat ::
                Up(oldsz) <= w < Up(newsz) && w < NVPN ==> ZeroAt(mem, pg, w)
      ensures !ok ==> Grew(old(own), own, pg) && forall w: nat :: Up(oldsz) <= w < Up(newsz) && w < KERNVPN ==>
                !Pte(mem, pg, w).p
      ensures forall w: nat :: w < NVPN && !(Up(oldsz) <= w < Up(newsz)) ==> Pte(mem, pg, w) == old(Pte(mem, pg, w))
      ensures oldsz <= newsz < KERNBASE ==> (ok <==> |old(chain)| >= PagesFor(old(mem), pg, Up(oldsz), Up(newsz)))
      ensures oldsz <= newsz < KERNBASE && ok ==> |old(chain)| == |chain| + PagesFor(old(mem), pg, Up(oldsz), Up(newsz))
      ensures oldsz <= newsz < KERNBASE && ok ==> Extended(old(mem), mem, pg, Up(oldsz), Up(newsz))
    {
      if newsz >= KERNBASE {
        return 0, false;
      }
      if newsz < oldsz {
        UpMonotone(newsz, oldsz);
        return oldsz, true;
      }
      UpMonotone(oldsz, newsz);
      var grown := GrowLoop(pg, oldsz, newsz, Up(oldsz), Up(newsz));
      return if grown then newsz else 0, grown;
    }

    /** allocuvm's loop, and its undoing when a page cannot be had. */
    method GrowLoop(pg: nat, oldsz: nat, newsz: nat, ghost lo: nat, ghost hi: nat) returns (ok: bool)
      requires Valid() && pg in own && own[pg] == Dir && oldsz <= newsz < KERNBASE
      requires lo == Up(oldsz) <= hi == Up(newsz) <= KERNVPN && forall w: nat :: lo <= w < hi ==> !Pte(mem, pg, w).p
      modifies this
      ensures Valid() && Untouched(old(mem), old(own), mem, own, pg)
      ensures ok ==> Growing(old(mem), old(own), mem, own, pg, lo, hi)
      ensures !ok ==> Grew(old(own), own, pg) && forall w: nat :: lo <= w < hi ==> !Pte(mem, pg, w).p
      ensures !ok ==> forall w: nat :: w < NVPN && !(lo <= w < hi) ==> Pte(mem, pg, w) == old(Pte(mem, pg, w))
      ensures ok <==> |old(chain)| >= PagesFor(old(mem), pg, lo, hi)
      ensures ok ==> |old(chain)| == |chain| + PagesFor(old(mem), pg, lo, hi)
    {
      var a := (oldsz + PGSIZE - 1) % UINT / PGSIZE * PGSIZE;
      ghost var v := lo;
      GrowingStart(mem, own, pg, lo);
      while a < newsz
        invariant a == v * PGSIZE && lo <= v <= hi && Valid() && Growing(old(mem), old(own), mem, own, pg, lo, v)
        invariant |old(chain)| == |chain| + PagesFor(old(mem), pg, lo, v)
        decreases hi - v
      {
        UpBound(v, newsz);
        Quotient(v, 0);
        ok := GrowOrUndo(pg, a / PGSIZE, oldsz, newsz, old(mem), old(own), |old(chain)|, lo, hi);
        if !ok { return; }
        a, v := (a + PGSIZE) % UINT, v + 1;
      }
      UpBound(v, newsz);
      ok := true;
    }

    /** One round of copyuvm's loop, and what follows `bad` when it fails; m0 and own0 are memory and uses at the
        start of copyuvm, m1 and free1 are memory and the number of free pages at the start of the loop. */
    method CopyRound(pg: nat, d: nat, v: nat, ghost m0: Memory, ghost own0: Uses, ghost ks: seq<Kmap>,
                     ghost m1: Memory, ghost free1: nat) returns (ok: bool)
      requires Valid() && Good(m0, own0) && pg in own0 && own0[pg] == Dir && v < KERNVPN && Pte(m0, pg, v).p
      requires KmapsOk(ks) && Copying(m0, own0, mem, own, pg, d, v, ks)
      requires Extended(m1, mem, d, 0, v) && free1 == |chain| + PagesFor(m1, d, 0, v)
      modifies this
      ensures Valid() && (ok <==> free1 >= PagesFor(m1, d, 0, v + 1))
      ensures ok ==> Copying(m0, own0, mem, own, pg, d, v + 1, ks)
      ensures ok ==> Extended(m1, mem, d, 0, v + 1) && free1 == |chain| + PagesFor(m1, d, 0, v + 1)
      ensures !ok ==> own == own0 && Kept(m0, own0, mem, own)
    {
      ghost var m, o := mem, own;
      CopyingSource(m0, own0, mem, own, pg, d, v, ks);
      TableNeeded(m1, mem, d, 0, v);
      var e := FindPte(pg, v);
      ok := Place(d, v, mem[e.ppn], e.flags);
      if ok {
        CopyingNext(m0, own0, m, o, mem, own, pg, d, v, ks);
        ExtendedMore(m1, m, mem, d, 0, v);
      } else {
        GrewIsAdded(o, own, d, v);
        BuiltMore(m0, own0, m, o, mem, own, d, v);
        Abandon(d, m0, own0);
      }
    }

    /** copyuvm of a process of sz bytes, all of whose pages are mapped.  It fails exactly if there are fewer free
        pages than the directory, the tables and the pages of the copy take, and then gives all of them back. */
    method CopyUvm(pg: nat, sz: nat, ks: seq<Kmap>) returns (d: nat)
      requires Valid() && pg in own && own[pg] == Dir && sz <= KERNBASE && KmapsOk(ks)
      requires forall w: nat :: w < Up(sz) && w < NVPN ==> Pte(mem, pg, w).p
      modifies this
      ensures Valid() && own.Keys == old(own).Keys && Kept(old(mem), old(own), mem, own)
      ensures d == 0 ==> own == old(own)
      ensures d != 0 ==> IsFree(old(own), d) && own[d] == Dir && Built(old(own), own, d)
      ensures d != 0 ==> forall w: nat :: w < Up(sz) && w < NVPN ==> CopiedAt(old(mem), old(own), mem, pg, d, w)
      ensures d != 0 ==> forall w: nat :: Up(sz) <= w < NVPN ==> Pte(mem, d, w) == KernelPte(ks, |ks|, w)
      ensures d != 0 <==> |old(chain)| >= 1 + KernelTables(ks, |ks|) + Up(sz) + UserTables(Up(sz))
    {
      d := SetupKvm(ks);
      if d == 0 {
        return;
      }
      NewlyBuilt(old(mem), old(own), own, d);
      UpMonotone(sz, sz);
      SameNeed(mem, d, ks, |ks|, 0, Up(sz));
      UserTablesAre(ks, |ks|, Up(sz));
      var copied := CopyLoop(pg, d, sz, old(mem), old(own), ks);
      if !copied {
        return 0;
      }
    }

    /** copyuvm's loop. */
    method CopyLoop(pg: nat, d: nat, sz: nat, ghost m0: Memory, ghost own0: Uses, ghost ks: seq<Kmap>)
      returns (ok: bool)
      requires Valid() && Good(m0, own0) && pg in own0 && own0[pg] == Dir && sz <= KERNBASE && Up(sz) <= KERNVPN
      requires forall w: nat :: w < Up(sz) && w < NVPN ==> Pte(m0, pg, w).p
      requires KmapsOk(ks) && Copying(m0, own0, mem, own, pg, d, 0, ks)
      modifies this
      ensures Valid() && (ok <==> |old(chain)| >= PagesFor(old(mem), d, 0, Up(sz)))
      ensures ok ==> Copying(m0, own0, mem, own, pg, d, Up(sz), ks)
      ensures !ok ==> own == own0 && Kept(m0, own0, mem, own)
    {
      ghost var m1, free1, v := mem, |chain|, 0;
      var i := 0;
      ok := true;
      while i < sz
        invariant i == v * PGSIZE && v <= Up(sz) && Valid() && Copying(m0, own0, mem, own, pg, d, v, ks)
        invariant Extended(m1, mem, d, 0, v) && free1 == |chain| + PagesFor(m1, d, 0, v)
        decreases Up(sz) - v
      {
        UpBound(v, sz);
        Quotient(v, 0);
        ok := CopyRound(pg, d, i / PGSIZE, m0, own0, ks, m1, free1);
        if !ok {
          NewTablesMore(m1, d, 0, v + 1, Up(sz));
          return;
        }
        i, v := (i + PGSIZE) % UINT, v + 1;
      }
      UpBound(v, sz);
      ok := true;
    }
  }

  // ---- copying ----

  /** Free pages were taken for the new address space d and nothing else changed its use. */
  ghost predicate Built(own: Uses, own': Uses, d: nat) {
    own'.Keys == own.Keys && forall f: nat {:trigger BuiltAt(own, own', d, f)} :: f in own ==> BuiltAt(own, own', d, f)
  }

  ghost predicate BuiltAt(own: Uses, own': Uses, d: nat, f: nat)
    requires f in own && f in own'
  {
    own'[f] == own[f] || (own[f] == OnFree && PartOf(own'[f], f, d))
  }

  /** Page address w of d has the flags and the bytes of that of pg, on a page that was free. */
  ghost predicate CopiedAt(m: Memory, own: Uses, m': Memory, pg: nat, d: nat, w: nat)
    requires w < NVPN
  {
    var e := Pte(m, pg, w);
    e.ppn in m && HoldsAt(m', d, w, m[e.ppn], e.flags) && IsFree(own, Pte(m', d, w).ppn)
  }

  /** copyuvm has got to page address v. */
  ghost predicate Copying(m0: Memory, own0: Uses, m: Memory, own: Uses, pg: nat, d: nat, v: nat, ks: seq<Kmap>)
    requires v <= NVPN
  {
    && d in own && own[d] == Dir && IsFree(own0, d) && Built(own0, own, d) && Kept(m0, own0, m, own)
    && (forall w: nat :: w < v ==> CopiedAt(m0, own0, m, pg, d, w))
    && forall w: nat :: v <= w < NVPN ==> Pte(m, d, w) == KernelPte(ks, |ks|, w)
  }

  /** The address space that is copied is as it was. */
  lemma CopyingSource(m0: Memory, own0: Uses, m: Memory, own: Uses, pg: nat, d: nat, v: nat, ks: seq<Kmap>)
    requires Good(m0, own0) && pg in own0 && own0[pg] == Dir && v < KERNVPN
    requires Copying(m0, own0, m, own, pg, d, v, ks) && KmapsOk(ks)
    requires Pte(m0, pg, v).p
    ensures pg in own && own[pg] == Dir && Pte(m, pg, v) == Pte(m0, pg, v) && !Pte(m, d, v).p
    ensures var f := Pte(m0, pg, v).ppn; f in m0 && f in m && m[f] == m0[f] && m[f].Data? && |m[f].bytes| == PGSIZE
  {
    var f := Pte(m0, pg, v).ppn;
    UserPte(m0, own0, pg, v, f);
    assert BuiltAt(own0, own, d, pg) && BuiltAt(own0, own, d, f) && KeptAt(m0, own0, m, own, f) && PageOk(m0, own0, f);
    forall g: nat | g in own0 && (g == pg || (own0[g].Tab? && own0[g].pg == pg))
      ensures g in m0 && g in m && m[g] == m0[g]
    {
      assert BuiltAt(own0, own, d, g) && KeptAt(m0, own0, m, own, g);
    }
    PteSame(m0, own0, m, pg, v);
    NoKernelPte(ks, |ks|, v);
  }

  lemma GrewIsAdded(own: Uses, own': Uses, pg: nat, v: nat)
    requires Grew(own, own', pg)
    ensures Added(own, own', pg, v, v + 1)
  {
    forall f: nat | f in own ensures AddedAt(own, own', pg, v, v + 1, f) {
      assert GrewAt(own, own', pg, f);
    }
  }

  lemma BuiltMore(m0: Memory, own0: Uses, m1: Memory, own1: Uses, m2: Memory, own2: Uses, d: nat, v: nat)
    requires Good(m0, own0) && IsFree(own0, d) && Built(own0, own1, d) && Kept(m0, own0, m1, own1) && own1[d] == Dir
    requires Added(own1, own2, d, v, v + 1) && Untouched(m1, own1, m2, own2, d)
    ensures Built(own0, own2, d) && Kept(m0, own0, m2, own2) && own2[d] == Dir
  {
    assert AddedAt(own1, own2, d, v, v + 1, d);
    forall f: nat | f in own0 ensures BuiltAt(own0, own2, d, f) && KeptAt(m0, own0, m2, own2, f) {
      assert BuiltAt(own0, own1, d, f) && AddedAt(own1, own2, d, v, v + 1, f) && PageOk(m0, own0, f);
      assert KeptAt(m0, own0, m1, own1, f) && StaysAt(m1, own1, m2, own2, d, f);
    }
  }

  /** Giving up the new address space restores every use. */
  lemma Unbuilt(m0: Memory, own0: Uses, m1: Memory, own1: Uses, m2: Memory, own2: Uses, d: nat)
    requires Good(m0, own0) && IsFree(own0, d) && Built(own0, own1, d) && Released(own1, own2, d)
    requires Kept(m0, own0, m1, own1) && Kept(m1, own1, m2, own2)
    ensures own2 == own0 && Kept(m0, own0, m2, own2)
  {
    forall f: nat | f in own0 ensures own2[f] == own0[f] && KeptAt(m0, own0, m2, own2, f) {
      assert BuiltAt(own0, own1, d, f) && ReleasedAt(own1, own2, d, f) && PageOk(m0, own0, f);
      assert KeptAt(m0, own0, m1, own1, f) && KeptAt(m1, own1, m2, own2, f);
    }
  }

  lemma CopyingNext(m0: Memory, own0: Uses, m1: Memory, own1: Uses, m2: Memory, own2: Uses, pg: nat, d: nat, v: nat,
                    ks: seq<Kmap>)
    requires Good(m0, own0) && Good(m1, own1) && v < KERNVPN && Copying(m0, own0, m1, own1, pg, d, v, ks)
    requires Added(own1, own2, d, v, v + 1) && Untouched(m1, own1, m2, own2, d)
    requires Pte(m0, pg, v).ppn in m0 && HoldsAt(m2, d, v, m0[Pte(m0, pg, v).ppn], Pte(m0, pg, v).flags)
    requires IsFree(own1, Pte(m2, d, v).ppn)
    requires forall w: nat :: w < NVPN && w != v ==> Pte(m2, d, w) == Pte(m1, d, w)
    ensures Copying(m0, own0, m2, own2, pg, d, v + 1, ks)
  {
    BuiltMore(m0, own0, m1, own1, m2, own2, d, v);
    forall w: nat | w < v + 1 ensures CopiedAt(m0, own0, m2, pg, d, w) {
      if w < v {
        assert CopiedAt(m0, own0, m1, pg, d, w);
        HoldsKept(m1, own1, m2, own2, d, v, w, m0[Pte(m0, pg, w).ppn], Pte(m0, pg, w).flags);
      } else {
        assert BuiltAt(own0, own1, d, Pte(m2, d, v).ppn);
      }
    }
  }

  lemma NoKernelPte(ks: seq<Kmap>, n: nat, v: nat)
    requires KmapsOk(ks) && n <= |ks| && v < KERNVPN
    ensures KernelPte(ks, n, v) == NONE
  {
    if n > 0 {
      assert ks[n - 1] in ks;
      NoKernelPte(ks, n - 1, v);
    }
  }

  lemma NewlyBuilt(m: Memory, own: Uses, own': Uses, d: nat)
    requires Good(m, own) && IsFree(own, d) && Grew(own[d := Dir], own', d)
    ensures Built(own, own', d) && own'[d] == Dir
  {
    assert GrewAt(own[d := Dir], own', d, d);
    forall f: nat | f in own ensures BuiltAt(own, own', d, f) {
      assert GrewAt(own[d := Dir], own', d, f);
    }
  }

  // ---- growing ----

  function ZeroPage(): (page: Page)
    ensures page.Data? && |page.bytes| == PGSIZE && forall i :: 0 <= i < PGSIZE ==> page.bytes[i] == 0
  {
    Data(seq(PGSIZE, _ => 0))
  }

  /** Page address v is mapped with these flags to a page with this content. */
  ghost predicate HoldsAt(m: Memory, pg: nat, v: nat, content: Page, perm: Flags)
    requires v < NVPN
  {
    var e := Pte(m, pg, v);
    e.p && e.flags == perm && e.ppn in m && m[e.ppn] == content
  }

  ghost predicate ZeroAt(m: Memory, pg: nat, v: nat)
    requires v < NVPN
  {
    HoldsAt(m, pg, v, ZeroPage(), Flags(true, true, 0))
  }

  /** Only free pages were taken: for tables of pg and for its page addresses from lo to hi. */
  ghost predicate Added(own: Uses, own': Uses, pg: nat, lo: nat, hi: nat) {
    own'.Keys == own.Keys && forall f: nat {:trigger AddedAt(own, own', pg, lo, hi, f)} :: f in own ==>
        AddedAt(own, own', pg, lo, hi, f)
  }

  ghost predicate AddedAt(own: Uses, own': Uses, pg: nat, lo: nat, hi: nat, f: nat)
    requires f in own && f in own'
  {
    || own'[f] == own[f]
    || (own[f] == OnFree && own'[f].Tab? && own'[f].pg == pg)
    || (own[f] == OnFree && own'[f].User? && own'[f].pg == pg && lo <= own'[f].v < hi)
  }

  /** allocuvm has got to page address v. */
  ghost predicate Growing(m0: Memory, own0: Uses, m: Memory, own: Uses, pg: nat, lo: nat, v: nat)
    requires v <= NVPN
  {
    && Added(own0, own, pg, lo, v) && Untouched(m0, own0, m, own, pg)
    && Extended(m0, m, pg, lo, v) && (forall w: nat :: lo <= w < v ==> ZeroAt(m, pg, w))
    && forall w: nat :: w < NVPN && !(lo <= w < v) ==> Pte(m, pg, w) == Pte(m0, pg, w)
  }

  lemma GrowingStart(m: Memory, own: Uses, pg: nat, lo: nat)
    requires Good(m, own) && lo <= NVPN
    ensures Growing(m, own, m, own, pg, lo, lo)
  {
    assert Extended(m, m, pg, lo, lo);
    forall f: nat | f in own ensures StaysAt(m, own, m, own, pg, f) {
      assert PageOk(m, own, f);
    }
  }

  lemma GrowingNext(m0: Memory, own0: Uses, m1: Memory, own1: Uses, m2: Memory, own2: Uses, pg: nat, lo: nat, v: nat)
    requires lo <= v < KERNVPN && Growing(m0, own0, m1, own1, pg, lo, v)
    requires Good(m1, own1) && pg in own1 && own1[pg] == Dir
    requires Added(own1, own2, pg, v, v + 1) && Untouched(m1, own1, m2, own2, pg) && ZeroAt(m2, pg, v)
    requires Extended(m1, m2, pg, v, v + 1)
    requires forall w: nat :: w < NVPN && w != v ==> Pte(m2, pg, w) == Pte(m1, pg, w)
    ensures Growing(m0, own0, m2, own2, pg, lo, v + 1)
  {
    AddedMore(m0, own0, m1, own1, m2, own2, pg, lo, v);
    ExtendedMore(m0, m1, m2, pg, lo, v);
    forall w: nat | lo <= w < v + 1 ensures ZeroAt(m2, pg, w) {
      if w < v {
        assert ZeroAt(m1, pg, w);
        HoldsKept(m1, own1, m2, own2, pg, v, w, ZeroPage(), Flags(true, true, 0));
      }
    }
  }

  lemma AddedMore(m0: Memory, own0: Uses, m1: Memory, own1: Uses, m2: Memory, own2: Uses, pg: nat, lo: nat, v: nat)
    requires Added(own0, own1, pg, lo, v) && Added(own1, own2, pg, v, v + 1) && lo <= v
    requires Untouched(m0, own0, m1, own1, pg) && Untouched(m1, own1, m2, own2, pg)
    ensures Added(own0, own2, pg, lo, v + 1) && Untouched(m0, own0, m2, own2, pg)
  {
    forall f: nat | f in own0 ensures AddedAt(own0, own2, pg, lo, v + 1, f) && StaysAt(m0, own0, m2, own2, pg, f) {
      assert AddedAt(own0, own1, pg, lo, v, f) && AddedAt(own1, own2, pg, v, v + 1, f);
      assert StaysAt(m0, own0, m1, own1, pg, f) && StaysAt(m1, own1, m2, own2, pg, f);
    }
  }

  lemma HoldsKept(m1: Memory, own1: Uses, m2: Memory, own2: Uses, pg: nat, v: nat, w: nat, content: Page, perm: Flags)
    requires Good(m1, own1) && pg in own1 && own1[pg] == Dir && w < KERNVPN && HoldsAt(m1, pg, w, content, perm)
    requires Added(own1, own2, pg, v, v + 1) && Untouched(m1, own1, m2, own2, pg) && Pte(m2, pg, w) == Pte(m1, pg, w)
    ensures HoldsAt(m2, pg, w, content, perm)
  {
    var f := Pte(m1, pg, w).ppn;
    UserPte(m1, own1, pg, w, f);
    assert AddedAt(own1, own2, pg, v, v + 1, f) && StaysAt(m1, own1, m2, own2, pg, f);
  }

  /** The pages added are dropped again: only tables remain. */
  lemma Regained(m0: Memory, own0: Uses, m1: Memory, own1: Uses, m2: Memory, own2: Uses, pg: nat, lo: nat, v: nat,
                 hi: nat)
    requires Good(m0, own0) && pg in own0 && own0[pg] == Dir && lo <= v <= hi <= KERNVPN
    requires forall w: nat :: lo <= w < hi ==> !Pte(m0, pg, w).p
    requires Added(own0, own1, pg, lo, v) && Dropped(own1, own2, pg, lo, hi)
    requires Untouched(m0, own0, m1, own1, pg) && Untouched(m1, own1, m2, own2, pg)
    ensures Grew(own0, own2, pg) && Untouched(m0, own0, m2, own2, pg)
  {
    forall f: nat | f in own0 ensures GrewAt(own0, own2, pg, f) && StaysAt(m0, own0, m2, own2, pg, f) {
      assert AddedAt(own0, own1, pg, lo, v, f) && DroppedAt(own1, own2, pg, lo, hi, f);
      assert StaysAt(m0, own0, m1, own1, pg, f) && StaysAt(m1, own1, m2, own2, pg, f);
      if own0[f].User? && own0[f].pg == pg && lo <= own0[f].v < hi {
        NoUser(m0, own0, pg, own0[f].v);
      }
    }
  }

  lemma GrownGrew(m0: Memory, own0: Uses, m1: Memory, own1: Uses, m2: Memory, own2: Uses, pg: nat, lo: nat, v: nat)
    requires Added(own0, own1, pg, lo, v) && Grew(own1, own2, pg) && Untouched(m0, own0, m1, own1, pg)
    requires Untouched(m1, own1, m2, own2, pg)
    ensures Added(own0, own2, pg, lo, v) && Untouched(m0, own0, m2, own2, pg)
  {
    forall f: nat | f in own0 ensures AddedAt(own0, own2, pg, lo, v, f) && StaysAt(m0, own0, m2, own2, pg, f) {
      assert AddedAt(own0, own1, pg, lo, v, f) && GrewAt(own1, own2, pg, f);
      assert StaysAt(m0, own0, m1, own1, pg, f) && StaysAt(m1, own1, m2, own2, pg, f);
    }
  }

  lemma GrownAdded(m0: Memory, own0: Uses, m1: Memory, m2: Memory, grown: Uses, own2: Uses, pg: nat, page: nat, v: nat)
    requires IsFree(own0, page) && page in grown && Grew(own0[page := Other], grown, pg)
    requires own2 == grown[page := User(pg, v)]
    requires page in m1 && m1 == m0[page := m1[page]]
    requires Untouched(m1, own0[page := Other], m2, own2, pg) && Good(m0, own0)
    ensures Added(own0, own2, pg, v, v + 1) && Untouched(m0, own0, m2, own2, pg)
  {
    forall f: nat | f in own0 ensures AddedAt(own0, own2, pg, v, v + 1, f) && StaysAt(m0, own0, m2, own2, pg, f) {
      assert GrewAt(own0[page := Other], grown, pg, f) && StaysAt(m1, own0[page := Other], m2, own2, pg, f);
    }
  }

  // ---- kernel mappings ----

  /** struct kmap: addresses, of which `end` may have wrapped to 0. */
  datatype Kmap = Kmap(virt: nat, start: nat, end: nat, perm: Flags)

  function First(k: Kmap): nat {
    k.virt / PGSIZE
  }

  /** The page of the last byte: PGROUNDDOWN(virt + size - 1) */
  function Last(k: Kmap): nat {
    (k.virt + (k.end - k.start) % UINT - 1) % UINT / PGSIZE
  }

  predicate Covers(k: Kmap, w: nat) {
    First(k) <= w <= Last(k)
  }

  /** The ranges lie in the kernel half and do not overlap. */
  ghost predicate KmapsOk(ks: seq<Kmap>) {
    && (forall k :: k in ks ==> KERNVPN <= First(k) <= Last(k) < NVPN && k.start / PGSIZE + (Last(k) - First(k)) < NVPN)
    && forall i, j, w: nat :: 0 <= i < j < |ks| && Covers(ks[i], w) ==> !Covers(ks[j], w)
  }

  /** The entry that the first n ranges give to page address w. */
  function KernelPte(ks: seq<Kmap>, n: nat, w: nat): Entry
    requires n <= |ks|
  {
    if n == 0 then NONE
    else if Covers(ks[n - 1], w) then Entry(ks[n - 1].start / PGSIZE + (w - First(ks[n - 1])), true, ks[n - 1].perm)
    else KernelPte(ks, n - 1, w)
  }

  /** One of the first n ranges has a part under directory entry i. */
  predicate Spanned(ks: seq<Kmap>, n: nat, i: nat)
    requires n <= |ks|
  {
    n > 0 && (Spanned(ks, n - 1, i) || InSpan(First(ks[n - 1]), Last(ks[n - 1]) + 1, i))
  }

  /** How many tables the page addresses from lo up to hi need beside those of the first n ranges. */
  function RangeTables(ks: seq<Kmap>, n: nat, lo: nat, hi: nat): nat
    requires n <= |ks|
    decreases hi
  {
    if hi <= lo then 0
    else RangeTables(ks, n, lo, hi - 1) +
         if !Spanned(ks, n, (hi - 1) / NENTRIES) && (hi - 1 == lo || (hi - 1) % NENTRIES == 0) then 1 else 0
  }

  /** How many tables the first n ranges need. */
  function KernelTables(ks: seq<Kmap>, n: nat): nat
    requires n <= |ks|
  {
    if n == 0 then 0 else KernelTables(ks, n - 1) + RangeTables(ks, n - 1, First(ks[n - 1]), Last(ks[n - 1]) + 1)
  }

  lemma {:induction false} KernelTablesMore(ks: seq<Kmap>, n: nat, k: nat)
    requires n <= k <= |ks|
    ensures KernelTables(ks, n) <= KernelTables(ks, k)
    decreases k
  {
    if n < k {
      KernelTablesMore(ks, n, k - 1);
    }
  }

  /** The directory has tables exactly for the first n ranges. */
  ghost predicate TabledFor(m: Memory, pg: nat, ks: seq<Kmap>, n: nat)
    requires n <= |ks|
  {
    forall i: nat {:trigger Tabled(m, pg, i)} :: i < NENTRIES ==> (Tabled(m, pg, i) <==> Spanned(ks, n, i))
  }

  lemma {:induction false} SameNeed(m: Memory, pg: nat, ks: seq<Kmap>, n: nat, lo: nat, hi: nat)
    requires n <= |ks| && hi <= NVPN && TabledFor(m, pg, ks, n)
    ensures NewTables(m, pg, lo, hi) == RangeTables(ks, n, lo, hi)
    decreases hi
  {
    if lo < hi {
      SameNeed(m, pg, ks, n, lo, hi - 1);
      assert Tabled(m, pg, (hi - 1) / NENTRIES) <==> Spanned(ks, n, (hi - 1) / NENTRIES);
    }
  }

  /** What mapping the i-th range, as far as `upto`, means for the number of tables. */
  lemma RangeCount(m: Memory, pg: nat, ks: seq<Kmap>, i: nat, upto: nat)
    requires KmapsOk(ks) && i < |ks| && TabledFor(m, pg, ks, i) && First(ks[i]) <= upto <= Last(ks[i]) + 1
    ensures upto == Last(ks[i]) + 1 ==>
              KernelTables(ks, i + 1) == KernelTables(ks, i) + NewTables(m, pg, First(ks[i]), upto)
    ensures upto <= Last(ks[i]) && NeedsTable(m, pg, First(ks[i]), upto) ==>
              KernelTables(ks, i + 1) > KernelTables(ks, i) + NewTables(m, pg, First(ks[i]), upto)
  {
    assert ks[i] in ks;
    SameNeed(m, pg, ks, i, First(ks[i]), Last(ks[i]) + 1);
    OneTableMore(m, pg, First(ks[i]), upto, Last(ks[i]) + 1);
  }

  lemma OneTableMore(m: Memory, pg: nat, lo: nat, v: nat, hi: nat)
    requires lo <= v <= hi
    ensures v < hi && NeedsTable(m, pg, lo, v) ==> NewTables(m, pg, lo, hi) > NewTables(m, pg, lo, v)
  {
    if v < hi {
      NewTablesMore(m, pg, lo, v + 1, hi);
    }
  }

  lemma RangeTabled(m: Memory, m': Memory, pg: nat, ks: seq<Kmap>, i: nat)
    requires i < |ks| && TabledFor(m, pg, ks, i) && Extended(m, m', pg, First(ks[i]), Last(ks[i]) + 1)
    ensures TabledFor(m', pg, ks, i + 1)
  {
    forall j: nat | j < NENTRIES ensures Tabled(m', pg, j) <==> Spanned(ks, i + 1, j) {
      assert Tabled(m, pg, j) <==> Spanned(ks, i, j);
    }
  }

  /** How many tables the first n page addresses need. */
  function UserTables(n: nat): nat {
    (n + NENTRIES - 1) / NENTRIES
  }

  lemma {:induction false} KernelHalf(ks: seq<Kmap>, n: nat, v: nat)
    requires KmapsOk(ks) && n <= |ks| && v < KERNVPN
    ensures !Spanned(ks, n, v / NENTRIES)
  {
    if n > 0 {
      KernelHalf(ks, n - 1, v);
      assert ks[n - 1] in ks;
    }
  }

  /** The kernel's ranges share no table with user addresses. */
  lemma {:induction false} UserTablesAre(ks: seq<Kmap>, n: nat, hi: nat)
    requires KmapsOk(ks) && n <= |ks| && hi <= KERNVPN
    ensures RangeTables(ks, n, 0, hi) == UserTables(hi)
  {
    if hi > 0 {
      UserTablesAre(ks, n, hi - 1);
      KernelHalf(ks, n, hi - 1);
      UserTablesNext(hi - 1);
    }
  }

  lemma UserTablesNext(v: nat)
    ensures UserTables(v + 1) == UserTables(v) + if v % NENTRIES == 0 then 1 else 0
  {
  }

  lemma NotYetMapped(ks: seq<Kmap>, i: nat)
    requires KmapsOk(ks) && i < |ks|
    ensures forall w: nat :: Covers(ks[i], w) ==> KernelPte(ks, i, w) == NONE
  {
    forall w: nat | Covers(ks[i], w) ensures KernelPte(ks, i, w) == NONE {
      NotMappedBefore(ks, i, i, w);
    }
  }

  lemma NotMappedBefore(ks: seq<Kmap>, n: nat, i: nat, w: nat)
    requires KmapsOk(ks) && n <= i < |ks| && Covers(ks[i], w)
    ensures KernelPte(ks, n, w) == NONE
  {
    if n > 0 {
      NotMappedBefore(ks, n - 1, i, w);
    }
  }

  /** setupkvm has touched nothing that was in use. */
  lemma UndoSetup(m0: Memory, own0: Uses, m1: Memory, m2: Memory, own2: Uses, pg: nat)
    requires Good(m0, own0) && IsFree(own0, pg) && Kept(m0, own0, m1, own0[pg := Dir])
    requires Grew(own0[pg := Dir], own2, pg) && Untouched(m1, own0[pg := Dir], m2, own2, pg)
    ensures own2.Keys == own0.Keys && Kept(m0, own0, m2, own2) && pg in own2 && own2[pg] == Dir
  {
    var own1 := own0[pg := Dir];
    assert GrewAt(own1, own2, pg, pg);
    forall f: nat | f in own0 ensures KeptAt(m0, own0, m2, own2, f) {
      assert GrewAt(own1, own2, pg, f) && KeptAt(m0, own0, m1, own1, f) && StaysAt(m1, own1, m2, own2, pg, f) &&
               PageOk(m0, own0, f);
    }
  }

  /** Every part of address space pg is free, and every other page is in its former use. */
  ghost predicate Released(own: Uses, own': Uses, pg: nat) {
    own'.Keys == own.Keys && forall f: nat {:trigger ReleasedAt(own, own', pg, f)} :: f in own ==>
        ReleasedAt(own, own', pg, f)
  }

  ghost predicate ReleasedAt(own: Uses, own': Uses, pg: nat, f: nat)
    requires f in own && f in own'
  {
    own'[f] == if PartOf(own[f], f, pg) then OnFree else own[f]
  }

  /** Pages that stay in use keep their contents. */
  ghost predicate Kept(m: Memory, own: Uses, m': Memory, own': Uses) {
    forall f: nat {:trigger KeptAt(m, own, m', own', f)} :: f in own && f in own' ==> KeptAt(m, own, m', own', f)
  }

  ghost predicate KeptAt(m: Memory, own: Uses, m': Memory, own': Uses, f: nat)
    requires f in own && f in own'
  {
    own[f] != OnFree && own'[f] != OnFree ==> f in m && f in m' && m'[f] == m[f]
  }

  /** The uses in the middle of freevm's loop. */
  ghost predicate TabsFreed(own: Uses, own': Uses, pg: nat, i: nat) {
    own'.Keys == own.Keys && forall f: nat {:trigger TabsFreedAt(own, own', pg, i, f)} :: f in own ==>
        TabsFreedAt(own, own', pg, i, f)
  }

  ghost predicate TabsFreedAt(own: Uses, own': Uses, pg: nat, i: nat, f: nat)
    requires f in own && f in own'
  {
    own'[f] == if PartOf(own[f], f, pg) then (if own[f].Tab? && own[f].i < i && f != pg then OnFree else Other)
        else own[f]
  }

  /** The table of a directory entry is the page that the entry names, if it is present. */
  lemma TabOfEntry(m: Memory, own: Uses, pg: nat, i: nat)
    requires Good(m, own) && pg in own && own[pg] == Dir && i < NENTRIES && IsTable(m, pg)
    ensures Ent(m, pg, i).p ==> Ent(m, pg, i).ppn in own && own[Ent(m, pg, i).ppn] == Tab(pg, i)
    ensures forall f: nat :: f in own && own[f] == Tab(pg, i) ==> Ent(m, pg, i).p && f == Ent(m, pg, i).ppn
  {
    assert PageOk(m, own, pg) && DirEntOk(m, own, pg, i);
    forall f: nat | f in own && own[f] == Tab(pg, i) ensures Ent(m, pg, i).p && f == Ent(m, pg, i).ppn {
      assert PageOk(m, own, f);
    }
  }

  /** PGADDR(d, 0, 0) */
  function PgAddr(d: nat): nat {
    d * 0x40_0000 % UINT
  }

  lemma SkipArith(v: nat)
    requires v < KERNVPN
    ensures var next := (v / NENTRIES + 1) * NENTRIES;
      v < next <= KERNVPN && ((PgAddr(v * PGSIZE / 0x40_0000 + 1) - PGSIZE) % UINT + PGSIZE) % UINT == next * PGSIZE
  {
    var d := v / NENTRIES;
    assert v * PGSIZE / 0x40_0000 == d by {
      assert d * 0x40_0000 <= v * PGSIZE < (d + 1) * 0x40_0000;
    }
    assert (d + 1) * 0x40_0000 == (d + 1) * NENTRIES * PGSIZE;
  }

  lemma UpBound(v: nat, x: nat)
    ensures v * PGSIZE < x <==> v < Up(x)
  {
  }

  /** Without a table there is no entry from v to the end of the table. */
  lemma NoTable(m: Memory, own: Uses, pg: nat, v: nat)
    requires Good(m, own) && pg in own && own[pg] == Dir && v < KERNVPN && IsTable(m, pg) && !Ent(m, pg, v / NENTRIES).p
    ensures forall w: nat :: v <= w < (v / NENTRIES + 1) * NENTRIES && w < NVPN ==> Pte(m, pg, w) == NONE
  {
    forall w: nat | v <= w < (v / NENTRIES + 1) * NENTRIES && w < NVPN ensures Pte(m, pg, w) == NONE {
      assert w / NENTRIES == v / NENTRIES;
    }
  }

  /** Page addresses without an entry have nothing to drop. */
  lemma DroppedMore(own0: Uses, own: Uses, m: Memory, pg: nat, lo: nat, v: nat, next: nat)
    requires Dropped(own0, own, pg, lo, v) && Good(m, own) && pg in own && own[pg] == Dir && lo <= v <= next <= KERNVPN
    requires forall w: nat :: v <= w < next ==> !Pte(m, pg, w).p
    ensures forall hi: nat :: v <= hi <= next ==> Dropped(own0, own, pg, lo, hi)
  {
    forall hi: nat, f: nat | v <= hi <= next && f in own0 ensures DroppedAt(own0, own, pg, lo, hi, f) {
      assert DroppedAt(own0, own, pg, lo, v, f);
      if own0[f].User? && own0[f].pg == pg && v <= own0[f].v < hi {
        NoUser(m, own, pg, own0[f].v);
      }
    }
  }

  lemma DroppedUntouched(m0: Memory, own0: Uses, m1: Memory, own1: Uses, m2: Memory, own2: Uses, pg: nat, lo: nat,
                         v: nat)
    requires Dropped(own0, own1, pg, lo, v) && Dropped(own1, own2, pg, v, v + 1) && lo <= v
    requires Untouched(m0, own0, m1, own1, pg) && Untouched(m1, own1, m2, own2, pg)
    ensures Dropped(own0, own2, pg, lo, v + 1) && Untouched(m0, own0, m2, own2, pg)
  {
    forall f: nat | f in own0 ensures DroppedAt(own0, own2, pg, lo, v + 1, f) && StaysAt(m0, own0, m2, own2, pg, f) {
      assert DroppedAt(own0, own1, pg, lo, v, f) && DroppedAt(own1, own2, pg, v, v + 1, f);
      assert StaysAt(m0, own0, m1, own1, pg, f) && StaysAt(m1, own1, m2, own2, pg, f);
    }
  }

  /** Pages needed for x bytes: PGROUNDUP(x) / PGSIZE */
  function Up(x: nat): nat {
    (x + PGSIZE - 1) / PGSIZE
  }

  lemma UpMonotone(x: nat, y: nat)
    requires x <= y
    ensures Up(x) <= Up(y)
    ensures y <= KERNBASE ==> Up(y) <= KERNVPN
  {
  }

  /** User pages of pg from page address lo to hi are free, and every other page is in its former use. */
  ghost predicate Dropped(own: Uses, own': Uses, pg: nat, lo: nat, hi: nat) {
    own'.Keys == own.Keys && forall f: nat {:trigger DroppedAt(own, own', pg, lo, hi, f)} :: f in own ==>
        DroppedAt(own, own', pg, lo, hi, f)
  }

  ghost predicate DroppedAt(own: Uses, own': Uses, pg: nat, lo: nat, hi: nat, f: nat)
    requires f in own && f in own'
  {
    own'[f] == if own[f].User? && own[f].pg == pg && lo <= own[f].v < hi then OnFree else own[f]
  }

  /** Only the entry of v can name a page in use for v. */
  lemma NoUser(m: Memory, own: Uses, pg: nat, v: nat)
    requires Good(m, own) && pg in own && own[pg] == Dir && v < KERNVPN
    ensures forall f: nat :: f in own && own[f] == User(pg, v) ==> Pte(m, pg, v).p && Pte(m, pg, v).ppn == f
  {
    forall f: nat | f in own && own[f] == User(pg, v) ensures Pte(m, pg, v).p && Pte(m, pg, v).ppn == f {
      UserPte(m, own, pg, v, f);
    }
  }

  lemma GrewJoin(own0: Uses, own1: Uses, own2: Uses, pg: nat)
    requires Grew(own0, own1, pg) && Grew(own1, own2, pg)
    ensures Grew(own0, own2, pg)
  {
    forall f: nat | f in own0 ensures GrewAt(own0, own2, pg, f) {
      assert GrewAt(own0, own1, pg, f) && GrewAt(own1, own2, pg, f);
    }
  }

  /** The page for page address w is handed out, holds bytes and is not yet in use. */
  ghost predicate ReadyAt(m: Memory, own: Uses, first: nat, ppn: nat, w: nat)
    requires first <= w
  {
    var f := ppn + (w - first);
    f in own && own[f] == Other && f in m && m[f].Data? && |m[f].bytes| == PGSIZE
  }

  ghost predicate Ready(m: Memory, own: Uses, first: nat, last: nat, ppn: nat) {
    forall w: nat {:trigger ReadyAt(m, own, first, ppn, w)} ::
      first <= w <= last && w < KERNVPN ==> ReadyAt(m, own, first, ppn, w)
  }

  /** Uses after the page addresses from `first` up to `upto` have been mapped: the user's among them own their
      pages, and tables of pg may have been added. */
  ghost predicate Mapped(own0: Uses, own1: Uses, pg: nat, first: nat, upto: nat, ppn: nat) {
    own1.Keys == own0.Keys && forall f: nat {:trigger MappedAt(own0, own1, pg, first, upto, ppn, f)} ::
      f in own0 ==> MappedAt(own0, own1, pg, first, upto, ppn, f)
  }

  ghost predicate MappedAt(own0: Uses, own1: Uses, pg: nat, first: nat, upto: nat, ppn: nat, f: nat)
    requires f in own0 && f in own1
  {
    if ppn <= f && first + (f - ppn) < upto && first + (f - ppn) < KERNVPN then own1[f] == User(pg, first + (f - ppn))
    else GrewAt(own0, own1, pg, f)
  }

  /** The page to be mapped next is still as it was, and so is the directory. */
  lemma StillReady(m0: Memory, own0: Uses, m1: Memory, own1: Uses, pg: nat, first: nat, last: nat, a: nat, ppn: nat)
    requires first <= a <= last && Ready(m0, own0, first, last, ppn) && pg in own0 && own0[pg] == Dir
    requires Mapped(own0, own1, pg, first, a, ppn) && Untouched(m0, own0, m1, own1, pg)
    ensures pg in own1 && own1[pg] == Dir && (a < KERNVPN ==> ReadyAt(m1, own1, first, ppn, a))
  {
    assert MappedAt(own0, own1, pg, first, a, ppn, pg);
    assert ppn <= pg && first + (pg - ppn) < a && first + (pg - ppn) < KERNVPN ==>
        ReadyAt(m0, own0, first, ppn, first + (pg - ppn));
    if a < KERNVPN {
      var f := ppn + (a - first);
      assert ReadyAt(m0, own0, first, ppn, a);
      assert MappedAt(own0, own1, pg, first, a, ppn, f) && StaysAt(m0, own0, m1, own1, pg, f);
    }
  }

  lemma MappedMore(own0: Uses, own1: Uses, grown: Uses, own2: Uses, pg: nat, first: nat, a: nat, ppn: nat)
    requires first <= a && Mapped(own0, own1, pg, first, a, ppn) && Grew(own1, grown, pg)
    requires own2 == if a < KERNVPN then grown[ppn + (a - first) := User(pg, a)] else grown
    requires a < KERNVPN ==> ppn + (a - first) in own1
    ensures Mapped(own0, own2, pg, first, a + 1, ppn)
  {
    forall f: nat | f in own0 ensures MappedAt(own0, own2, pg, first, a + 1, ppn, f) {
      assert MappedAt(own0, own1, pg, first, a, ppn, f) && GrewAt(own1, grown, pg, f);
    }
  }

  lemma MappedUntouched(m0: Memory, own0: Uses, m1: Memory, own1: Uses, m2: Memory, own2: Uses, pg: nat,
                        first: nat, a: nat, ppn: nat)
    requires Mapped(own0, own1, pg, first, a, ppn) && own1.Keys == own2.Keys
    requires Untouched(m0, own0, m1, own1, pg) && Untouched(m1, own1, m2, own2, pg)
    ensures Untouched(m0, own0, m2, own2, pg)
  {
    forall f: nat | f in own0 && f in own2 ensures StaysAt(m0, own0, m2, own2, pg, f) {
      assert MappedAt(own0, own1, pg, first, a, ppn, f);
      assert StaysAt(m0, own0, m1, own1, pg, f) && StaysAt(m1, own1, m2, own2, pg, f);
    }
  }

  /** A range of the kernel's half, or an empty one, takes no page but for tables. */
  lemma KernelMapped(own0: Uses, own1: Uses, pg: nat, first: nat, upto: nat, ppn: nat)
    requires Mapped(own0, own1, pg, first, upto, ppn) && (first >= KERNVPN || upto == first)
    ensures Grew(own0, own1, pg)
  {
    forall f: nat | f in own0 ensures GrewAt(own0, own1, pg, f) {
      assert MappedAt(own0, own1, pg, first, upto, ppn, f);
    }
  }

  /** One page of the user's. */
  lemma PageMapped(own0: Uses, own1: Uses, pg: nat, v: nat, page: nat)
    requires Mapped(own0, own1, pg, v, v + 1, page) && v < KERNVPN && page in own0 && own0[page] == Other
    ensures Grew(own0, own1[page := Other], pg) && own1 == own1[page := Other][page := User(pg, v)]
  {
    assert MappedAt(own0, own1, pg, v, v + 1, page, page);
    forall f: nat | f in own0 ensures GrewAt(own0, own1[page := Other], pg, f) {
      assert MappedAt(own0, own1, pg, v, v + 1, page, f);
    }
  }

  lemma GrewUntouched(m0: Memory, own0: Uses, m1: Memory, own1: Uses, m2: Memory, own2: Uses, pg: nat)
    requires Grew(own0, own1, pg) && own1.Keys == own2.Keys
    requires Untouched(m0, own0, m1, own1, pg) && Untouched(m1, own1, m2, own2, pg)
    ensures Untouched(m0, own0, m2, own2, pg)
  {
    forall f: nat | f in own0 && f in own2 ensures StaysAt(m0, own0, m2, own2, pg, f) {
      assert GrewAt(own0, own1, pg, f) && StaysAt(m0, own0, m1, own1, pg, f) && StaysAt(m1, own1, m2, own2, pg, f);
    }
  }

  // ---- no sharing ----

  /** A page mapped in the user half of an address space is mapped nowhere else there or in another address
      space, is not free and is no table. */
  lemma NoSharing(m: Memory, own: Uses, pg: nat, v: nat, pg': nat, v': nat)
    requires Good(m, own) && pg in own && own[pg] == Dir && pg' in own && own[pg'] == Dir && v < KERNVPN && v' < KERNVPN
    requires Pte(m, pg, v).p
    ensures var f := Pte(m, pg, v).ppn;
      f in own && !IsFree(own, f) && own[f] != Dir && !own[f].Tab? &&
          (Pte(m, pg', v').p && Pte(m, pg', v').ppn == f ==> pg == pg' && v == v')
  {
    UserPte(m, own, pg, v, Pte(m, pg, v).ppn);
    UserPte(m, own, pg', v', Pte(m, pg, v).ppn);
  }

  /** Whatever is done to one address space, the entries and the pages of another stay what they are. */
  lemma OthersKept(m: Memory, own: Uses, m': Memory, own': Uses, pg: nat, other: nat, v: nat)
    requires Good(m, own) && other in own && own[other] == Dir && other != pg && v < NVPN
    requires pg in own && (own[pg] == Dir || own[pg] == OnFree) && Untouched(m, own, m', own', pg)
    requires forall f: nat :: f in own && own[f] != OnFree && !PartOf(own[f], f, pg) ==> f in own' && own'[f] == own[f]
    ensures Pte(m', other, v) == Pte(m, other, v)
    ensures var e := Pte(m, other, v); v < KERNVPN && e.p ==> e.ppn in m && e.ppn in m' && m'[e.ppn] == m[e.ppn]
  {
    forall f: nat | f in own && (f == other || (own[f].Tab? && own[f].pg == other))
      ensures f in m && f in m' && m'[f] == m[f]
    {
      assert !PartOf(own[f], f, pg);
      assert StaysAt(m, own, m', own', pg, f);
    }
    PteSame(m, own, m', other, v);
    var e := Pte(m, other, v);
    if v < KERNVPN && e.p {
      UserPte(m, own, other, v, e.ppn);
      assert !PartOf(own[e.ppn], e.ppn, pg);
      assert StaysAt(m, own, m', own', pg, e.ppn);
    }
  }

  // ---- the table of kernel mappings ----

  const EXTMEM: nat := 0x10_0000
  const PHYSTOP: nat := 0xE00_0000
  const DEVSPACE: nat := 0xFE00_0000

  /** kmap, for a kernel whose data starts at address `data`. */
  function KernelMap(data: nat): seq<Kmap>
    requires KERNBASE <= data
  {
    [Kmap(KERNBASE, 0, EXTMEM, Flags(true, false, 0)),
     Kmap(KERNBASE + EXTMEM, EXTMEM, data - KERNBASE, Flags(false, false, 0)),
     Kmap(data, data - KERNBASE, PHYSTOP, Flags(true, false, 0)),
     Kmap(DEVSPACE, DEVSPACE, 0, Flags(true, false, 0))]
  }

  lemma KernelMapOk(data: nat)
    requires data % PGSIZE == 0 && KERNBASE + EXTMEM < data < KERNBASE + PHYSTOP
    ensures KmapsOk(KernelMap(data))
  {
    var ks := KernelMap(data);
    assert First(ks[0]) == KERNVPN && Last(ks[0]) == KERNVPN + 0xFF;
    assert First(ks[1]) == KERNVPN + 0x100 && Last(ks[1]) == data / PGSIZE - 1;
    assert First(ks[2]) == data / PGSIZE && Last(ks[2]) == KERNVPN + 0xDFFF;
    assert First(ks[3]) == 0xF_E000 && Last(ks[3]) == 0xF_FFFF;
  }

  /** What setupkvm's entries mean: KERNBASE + a is physical a up to PHYSTOP, to be written except for the kernel's
      text and read-only data; the devices' addresses are their own; nothing else is mapped, and nothing for users. */
  lemma KernelTranslates(data: nat, v: nat)
    requires data % PGSIZE == 0 && KERNBASE + EXTMEM < data < KERNBASE + PHYSTOP && v < NVPN
    ensures var e, a := KernelPte(KernelMap(data), 4, v), v * 4096;
            && (e.p <==> 0x8000_0000 <= a < 0x8E00_0000 || 0xFE00_0000 <= a)
            && (e.p ==> e.ppn * 4096 == if a < 0xFE00_0000 then a - 0x8000_0000 else a)
            && (e.p ==> (e.flags.w <==> !(0x8010_0000 <= a < data)) && !e.flags.u && e.flags.rest == 0)
  {
    var ks := KernelMap(data);
    assert First(ks[0]) == KERNVPN && Last(ks[0]) == KERNVPN + 0xFF;
    assert First(ks[1]) == KERNVPN + 0x100 && Last(ks[1]) == data / PGSIZE - 1;
    assert First(ks[2]) == data / PGSIZE && Last(ks[2]) == KERNVPN + 0xDFFF;
    assert First(ks[3]) == 0xF_E000 && Last(ks[3]) == 0xF_FFFF;
    assert KernelPte(ks, 4, v) == if Covers(ks[3], v) then Entry(v, true, ks[3].perm) else KernelPte(ks, 3, v);
    var low := v - KERNVPN;
    assert KernelPte(ks, 3, v) == if Covers(ks[2], v) then Entry(low, true, ks[2].perm) else KernelPte(ks, 2, v);
    assert KernelPte(ks, 2, v) == if Covers(ks[1], v) then Entry(low, true, ks[1].perm) else KernelPte(ks, 1, v);
    assert KernelPte(ks, 1, v) == if Covers(ks[0], v) then Entry(low, true, ks[0].perm) else NONE;
  }
}
