/** Physical pages and two-level page tables (system/memory/vm.c, system/memory/kalloc.c) as values.  Memory is
    a map from page number to page; a page is a link of the free list, a table of 1024 entries, or bytes.  A
    ghost map says what each page the allocator manages is in use for. */
module VmFrames {
  import opened Bytes

  const PGSIZE: nat := 4096
  const NENTRIES: nat := 1024              // NPDENTRIES and NPTENTRIES
  const KERNVPN: nat := 0x8_0000           // KERNBASE / PGSIZE
  const NVPN: nat := 0x10_0000             // pages of a 32-bit address space

  /** A directory or table entry: page number, PTE_P, PTE_W, PTE_U and the nine other bits. */
  datatype Flags = Flags(w: bool, u: bool, rest: nat)
  datatype Entry = Entry(ppn: nat, p: bool, flags: Flags)

  const NONE := Entry(0, false, Flags(false, false, 0))

  datatype Page = Link(next: nat) | Table(entries: seq<Entry>) | Data(bytes: seq<byte>)

  /** The uses of a page: on the free list, a directory, the table of a directory's entry, the page of a
      user address, or something else that kalloc handed out. */
  datatype Use = OnFree | Dir | Tab(pg: nat, i: nat) | User(pg: nat, v: nat) | Other

  type Memory = map<nat, Page>
  type Uses = map<nat, Use>

  // ---- entries ----

  predicate EntryOk(e: Entry) {
    e.ppn < NVPN && e.flags.rest < 512
  }

  function Bit(b: bool): nat {
    if b then 1 else 0
  }

  function FlagBits(e: Entry): nat {
    2 * (2 * (2 * e.flags.rest + Bit(e.flags.u)) + Bit(e.flags.w)) + Bit(e.p)
  }

  /** The 32-bit word that stands for the entry. */
  function Pack(e: Entry): nat {
    e.ppn * PGSIZE + FlagBits(e)
  }

  function Unpack(x: nat): Entry {
    var flags := x % PGSIZE;
    Entry(x / PGSIZE, flags % 2 == 1, Flags(flags / 2 % 2 == 1, flags / 2 / 2 % 2 == 1, flags / 2 / 2 / 2))
  }

  /** Entries and 32-bit words correspond: PTE_ADDR and PTE_FLAGS are the quotient and the remainder, and PTE_P,
      PTE_W and PTE_U are 1, 2 and 4. */
  lemma PackUnpack(e: Entry)
    requires EntryOk(e)
    ensures Pack(e) == e.ppn * 4096 + e.flags.rest * 8 + (if e.flags.u then 4 else 0) +
                       (if e.flags.w then 2 else 0) + if e.p then 1 else 0
    ensures Pack(e) < 0x1_0000_0000 && Unpack(Pack(e)) == e && Pack(e) % PGSIZE == FlagBits(e)
    ensures Pack(e) == 0 <==> e == NONE
  {
    Quotient(e.ppn, FlagBits(e));
    Halve(2 * (2 * e.flags.rest + Bit(e.flags.u)) + Bit(e.flags.w), e.p);
    Halve(2 * e.flags.rest + Bit(e.flags.u), e.flags.w);
    Halve(e.flags.rest, e.flags.u);
  }

  lemma Halve(h: nat, b: bool)
    ensures (2 * h + Bit(b)) / 2 == h && ((2 * h + Bit(b)) % 2 == 1 <==> b)
  {
  }

  lemma Quotient(q: nat, r: nat)
    requires r < PGSIZE
    ensures (q * PGSIZE + r) / PGSIZE == q && (q * PGSIZE + r) % PGSIZE == r
  {
  }

  predicate IsTable(m: Memory, f: nat) {
    f in m && m[f].Table? && |m[f].entries| == NENTRIES
  }

  function Ent(m: Memory, f: nat, i: nat): Entry
    requires IsTable(m, f) && i < NENTRIES
  {
    m[f].entries[i]
  }

  function SetEnt(m: Memory, f: nat, i: nat, e: Entry): (m': Memory)
    requires IsTable(m, f) && i < NENTRIES
    ensures m'.Keys == m.Keys && IsTable(m', f)
    ensures forall j: nat :: j < NENTRIES ==> Ent(m', f, j) == if j == i then e else Ent(m, f, j)
    ensures forall g :: g in m && g != f ==> m'[g] == m[g]
  {
    m[f := Table(m[f].entries[i := e])]
  }

  /** The entry of a page address, 0 where there is no table: what walkpgdir finds. */
  function Pte(m: Memory, pg: nat, v: nat): Entry
    requires v < NVPN
  {
    if IsTable(m, pg) && Ent(m, pg, v / NENTRIES).p && IsTable(m, Ent(m, pg, v / NENTRIES).ppn)
    then Ent(m, Ent(m, pg, v / NENTRIES).ppn, v % NENTRIES) else NONE
  }

  // ---- the invariant ----

  ghost predicate DirEntOk(m: Memory, own: Uses, pg: nat, i: nat)
    requires IsTable(m, pg) && i < NENTRIES
  {
    var e := Ent(m, pg, i);
    e.p ==> e.ppn in own && own[e.ppn] == Tab(pg, i) && e.flags == Flags(true, true, 0)
  }

  ghost predicate TabEntOk(m: Memory, own: Uses, f: nat, pg: nat, i: nat, t: nat)
    requires IsTable(m, f) && t < NENTRIES
  {
    var e := Ent(m, f, t);
    i * NENTRIES < KERNVPN && e.p ==> e.ppn in own && own[e.ppn] == User(pg, i * NENTRIES + t)
  }

  /** Entry i of directory pg is f. */
  ghost predicate PointsTo(m: Memory, f: nat, i: nat, to: nat) {
    IsTable(m, f) && i < NENTRIES && Ent(m, f, i).p && Ent(m, f, i).ppn == to
  }

  ghost predicate PageOk(m: Memory, own: Uses, f: nat)
    requires f in own
  {
    match own[f]
    case OnFree => f in m && m[f].Link?
    case Other => f in m
    case Dir => IsTable(m, f) && forall i: nat :: i < NENTRIES ==> DirEntOk(m, own, f, i)
    case Tab(pg, i) =>
      && pg in own && own[pg] == Dir && PointsTo(m, pg, i, f)
      && IsTable(m, f) && forall t: nat :: t < NENTRIES ==> TabEntOk(m, own, f, pg, i, t)
    case User(pg, v) =>
      && f in m && m[f].Data? && |m[f].bytes| == PGSIZE && v < KERNVPN
      && pg in own && own[pg] == Dir && IsTable(m, pg) && Ent(m, pg, v / NENTRIES).p
      && PointsTo(m, Ent(m, pg, v / NENTRIES).ppn, v % NENTRIES, f)
  }

  /** The free list from page `head` on. */
  ghost predicate ChainOk(m: Memory, head: nat, chain: seq<nat>) {
    && head == (if chain == [] then 0 else chain[0])
    && (forall i, j :: 0 <= i < j < |chain| ==> chain[i] != chain[j])
    && forall i :: 0 <= i < |chain| ==> LinkOk(m, chain, i)
  }

  ghost predicate LinkOk(m: Memory, chain: seq<nat>, i: nat)
    requires i < |chain|
  {
    chain[i] in m && m[chain[i]] == Link(if i + 1 < |chain| then chain[i + 1] else 0)
  }

  predicate IsFree(own: Uses, f: nat) {
    f in own && own[f] == OnFree
  }

  ghost predicate FreeOk(own: Uses, chain: seq<nat>) {
    forall f: nat :: IsFree(own, f) <==> f in chain
  }

  ghost predicate Good(m: Memory, own: Uses) {
    (forall f: nat :: f in own ==> 0 < f < NVPN && f in m) && forall f: nat {:trigger PageOk(m, own, f)} :: f in own ==>
        PageOk(m, own, f)
  }

  // ---- what one step keeps ----

  /** x is in use under the same tag in both maps. */
  ghost predicate SameUse(own: Uses, own': Uses, x: nat) {
    x in own && x in own' && own'[x] == own[x]
  }

  /** The pages above g, which lead to it. */
  ghost predicate LedTo(m: Memory, own: Uses, g: nat)
    requires g in own
  {
    match own[g]
    case Tab(pg, i) => PointsTo(m, pg, i, g)
    case User(pg, v) =>
      && v < KERNVPN && IsTable(m, pg) && Ent(m, pg, v / NENTRIES).p
      && PointsTo(m, Ent(m, pg, v / NENTRIES).ppn, v % NENTRIES, g)
    case _ => true
  }

  /** x is below g: a table of directory g, or a user page under table g. */
  ghost predicate Below(own: Uses, g: nat, x: nat)
    requires g in own && x in own
  {
    if own[g] == Dir then own[x].Tab? && own[x].pg == g
    else own[g].Tab? && own[x].User? && own[x].pg == own[g].pg && own[x].v / NENTRIES == own[g].i
  }

  /** A page whose contents and use stay is still in order if the pages above still lead to it and those
      below and its directory keep their use. */
  lemma PageKept(m: Memory, own: Uses, m': Memory, own': Uses, g: nat)
    requires g in own && PageOk(m, own, g) && g in m' && m'[g] == m[g] && SameUse(own, own', g) && LedTo(m', own, g)
    requires forall x: nat :: x in own && Below(own, g, x) ==> SameUse(own, own', x)
    requires own[g].Tab? || own[g].User? ==> SameUse(own, own', own[g].pg)
    ensures PageOk(m', own', g)
  {
    match own[g] {
      case Dir =>
        forall i: nat | i < NENTRIES ensures DirEntOk(m', own', g, i) {
          assert DirEntOk(m, own, g, i);
        }
      case Tab(pg, i) =>
        forall t: nat | t < NENTRIES ensures TabEntOk(m', own', g, pg, i, t) {
          assert TabEntOk(m, own, g, pg, i, t);
        }
      case _ =>
    }
  }

  /** kalloc takes a free page. */
  lemma TakeKeeps(m: Memory, own: Uses, f: nat)
    requires Good(m, own) && f in own && own[f] == OnFree
    ensures Good(m, own[f := Other])
  {
    var own' := own[f := Other];
    forall g: nat | g in own' ensures PageOk(m, own', g) {
      assert PageOk(m, own, g);
      if g != f {
        PageKept(m, own, m, own', g);
      }
    }
  }

  /** A page in other use is rewritten, or goes back to the free list. */
  lemma PutKeeps(m: Memory, own: Uses, f: nat, page: Page, use: Use)
    requires Good(m, own) && f in own && own[f] == Other && (use == Other || (use == OnFree && page.Link?))
    ensures Good(m[f := page], own[f := use])
  {
    var m', own' := m[f := page], own[f := use];
    forall g: nat | g in own' ensures PageOk(m', own', g) {
      assert PageOk(m, own, g);
      if g != f {
        LedOther(m, own, f, page, g);
        PageKept(m, own, m', own', g);
      }
    }
  }

  /** A user page gets other bytes. */
  lemma WriteKeeps(m: Memory, own: Uses, f: nat, bytes: seq<byte>)
    requires Good(m, own) && f in own && own[f].User? && |bytes| == PGSIZE
    ensures Good(m[f := Data(bytes)], own)
    ensures forall pg: nat, v: nat :: pg in own && own[pg] == Dir && v < NVPN ==>
              Pte(m[f := Data(bytes)], pg, v) == Pte(m, pg, v)
  {
    var m' := m[f := Data(bytes)];
    forall g: nat | g in own ensures PageOk(m', own, g) {
      assert PageOk(m, own, g);
      LedOther(m, own, f, Data(bytes), g);
      if g != f {
        PageKept(m, own, m', own, g);
      }
    }
    forall pg: nat, v: nat | pg in own && own[pg] == Dir && v < NVPN ensures Pte(m', pg, v) == Pte(m, pg, v) {
      PteSame(m, own, m', pg, v);
    }
  }

  lemma LedOther(m: Memory, own: Uses, f: nat, page: Page, g: nat)
    requires Good(m, own) && f in own && own[f] != Dir && !own[f].Tab? && g in own
    ensures LedTo(m[f := page], own, g)
  {
    assert PageOk(m, own, g);
    if own[g].User? {
      var pg, i := own[g].pg, own[g].v / NENTRIES;
      assert PageOk(m, own, pg) && DirEntOk(m, own, pg, i);
    }
  }

  /** walkpgdir: an empty table goes under an absent directory entry. */
  lemma LinkTable(m: Memory, own: Uses, pg: nat, i: nat, f: nat, e: Entry)
    requires Good(m, own) && pg in own && own[pg] == Dir && i < NENTRIES && IsTable(m, pg) && !Ent(m, pg, i).p
    requires f in own && own[f] == Other && IsTable(m, f) && (forall t: nat :: t < NENTRIES ==> Ent(m, f, t) == NONE)
    requires e.p && e.ppn == f && e.flags == Flags(true, true, 0)
    ensures Good(SetEnt(m, pg, i, e), own[f := Tab(pg, i)])
  {
    var m', own' := SetEnt(m, pg, i, e), own[f := Tab(pg, i)];
    forall g: nat | g in own' ensures PageOk(m', own', g) {
      assert PageOk(m, own, g);
      if g == f {
        forall t: nat | t < NENTRIES ensures TabEntOk(m', own', f, pg, i, t) {
          assert Ent(m', f, t) == Ent(m, f, t) == NONE;
        }
      } else if g == pg {
        forall j: nat | j < NENTRIES ensures DirEntOk(m', own', pg, j) {
          assert DirEntOk(m, own, pg, j);
        }
      } else {
        LedByDir(m, own, pg, i, e, g);
        PageKept(m, own, m', own', g);
      }
    }
  }

  /** Filling an absent directory entry leaves what the other entries lead to. */
  lemma LedByDir(m: Memory, own: Uses, pg: nat, i: nat, e: Entry, g: nat)
    requires Good(m, own) && pg in own && own[pg] == Dir && i < NENTRIES && IsTable(m, pg) && !Ent(m, pg, i).p
    requires g in own && g != pg
    ensures LedTo(SetEnt(m, pg, i, e), own, g)
  {
    assert PageOk(m, own, g);
    if own[g].User? {
      var p, j := own[g].pg, own[g].v / NENTRIES;
      assert PageOk(m, own, p) && DirEntOk(m, own, p, j);
    }
  }

  /** mappages: a page goes under an absent entry of the user half. */
  lemma MapUser(m: Memory, own: Uses, pg: nat, v: nat, tf: nat, f: nat, e: Entry)
    requires Good(m, own) && v < KERNVPN && tf in own && own[tf] == Tab(pg, v / NENTRIES)
    requires IsTable(m, tf) && !Ent(m, tf, v % NENTRIES).p
    requires f in own && own[f] == Other && f in m && m[f].Data? && |m[f].bytes| == PGSIZE && e.p && e.ppn == f
    ensures Good(SetEnt(m, tf, v % NENTRIES, e), own[f := User(pg, v)])
  {
    var t := v % NENTRIES;
    var m', own' := SetEnt(m, tf, t, e), own[f := User(pg, v)];
    assert PageOk(m, own, tf);
    forall g: nat | g in own' ensures PageOk(m', own', g) {
      assert PageOk(m, own, g);
      if g == tf {
        forall j: nat | j < NENTRIES ensures TabEntOk(m', own', tf, pg, v / NENTRIES, j) {
          assert TabEntOk(m, own, tf, pg, v / NENTRIES, j);
        }
      } else if g != f {
        LedByTab(m, own, tf, t, e, g);
        PageKept(m, own, m', own', g);
      }
    }
  }

  /** Changing an entry of a table leaves what the other entries lead to. */
  lemma LedByTab(m: Memory, own: Uses, tf: nat, t: nat, e: Entry, g: nat)
    requires Good(m, own) && tf in own && own[tf].Tab? && t < NENTRIES && IsTable(m, tf) && g in own
    requires !PointsTo(m, tf, t, g)
    ensures LedTo(SetEnt(m, tf, t, e), own, g)
  {
    assert PageOk(m, own, g) && PageOk(m, own, tf);
    if own[g].User? {
      var p, j := own[g].pg, own[g].v / NENTRIES;
      assert PageOk(m, own, p) && DirEntOk(m, own, p, j);
    }
  }

  /** mappages: an entry of the kernel half may point anywhere. */
  lemma MapKernel(m: Memory, own: Uses, pg: nat, i: nat, tf: nat, t: nat, e: Entry)
    requires Good(m, own) && tf in own && own[tf] == Tab(pg, i) && i * NENTRIES >= KERNVPN
    requires t < NENTRIES && IsTable(m, tf)
    ensures Good(SetEnt(m, tf, t, e), own)
  {
    var m' := SetEnt(m, tf, t, e);
    assert PageOk(m, own, tf);
    forall g: nat | g in own ensures PageOk(m', own, g) {
      assert PageOk(m, own, g);
      if g != tf {
        assert own[g].User? ==> PageOk(m, own, own[g].pg) && DirEntOk(m, own, own[g].pg, own[g].v / NENTRIES);
        PageKept(m, own, m', own, g);
      }
    }
  }

  /** deallocuvm: a user page is taken out of its table. */
  lemma UnmapUser(m: Memory, own: Uses, pg: nat, v: nat, tf: nat, f: nat, e: Entry)
    requires Good(m, own) && v < KERNVPN && tf in own && own[tf] == Tab(pg, v / NENTRIES)
    requires PointsTo(m, tf, v % NENTRIES, f)
    requires f in own && own[f] == User(pg, v) && !e.p
    ensures Good(SetEnt(m, tf, v % NENTRIES, e), own[f := Other])
  {
    var t := v % NENTRIES;
    var m', own' := SetEnt(m, tf, t, e), own[f := Other];
    assert PageOk(m, own, tf) && PageOk(m, own, f);
    forall g: nat | g in own' ensures PageOk(m', own', g) {
      assert PageOk(m, own, g);
      if g == tf {
        forall j: nat | j < NENTRIES ensures TabEntOk(m', own', tf, pg, v / NENTRIES, j) {
          assert TabEntOk(m, own, tf, pg, v / NENTRIES, j);
        }
      } else if g != f {
        if own[g] == own[tf] { OneTable(m, own, tf, g); }
        LedByTab(m, own, tf, t, e, g);
        PageKept(m, own, m', own', g);
      }
    }
  }

  /** Two tables of one directory entry are the same page. */
  lemma OneTable(m: Memory, own: Uses, f: nat, g: nat)
    requires Good(m, own) && f in own && g in own && own[f].Tab? && own[g] == own[f]
    ensures f == g
  {
    assert PageOk(m, own, f) && PageOk(m, own, g);
  }

  /** clearpteu: an entry keeps its page and gets other flags. */
  lemma Reflag(m: Memory, own: Uses, tf: nat, t: nat, e: Entry)
    requires Good(m, own) && tf in own && own[tf].Tab? && t < NENTRIES && IsTable(m, tf)
    requires e == Ent(m, tf, t).(flags := e.flags)
    ensures Good(SetEnt(m, tf, t, e), own)
  {
    var m', pg, i := SetEnt(m, tf, t, e), own[tf].pg, own[tf].i;
    assert PageOk(m, own, tf);
    forall g: nat | g in own ensures PageOk(m', own, g) {
      assert PageOk(m, own, g);
      if g == tf {
        forall j: nat | j < NENTRIES ensures TabEntOk(m', own, tf, pg, i, j) {
          assert TabEntOk(m, own, tf, pg, i, j);
        }
      } else {
        assert own[g].User? ==> PageOk(m, own, own[g].pg) && DirEntOk(m, own, own[g].pg, own[g].v / NENTRIES);
        PageKept(m, own, m', own, g);
      }
    }
  }

  /** setupkvm: an empty table becomes a directory. */
  lemma NewDir(m: Memory, own: Uses, f: nat)
    requires Good(m, own) && f in own && own[f] == Other && IsTable(m, f)
    requires (forall t: nat :: t < NENTRIES ==> Ent(m, f, t) == NONE)
    ensures Good(m, own[f := Dir])
  {
    var own' := own[f := Dir];
    forall g: nat | g in own' ensures PageOk(m, own', g) {
      assert PageOk(m, own, g);
      if g == f {
        forall i: nat | i < NENTRIES ensures DirEntOk(m, own', f, i) {
          assert Ent(m, f, i) == NONE;
        }
      } else {
        PageKept(m, own, m, own', g);
      }
    }
  }

  // ---- giving up a whole address space ----

  /** The page is part of address space pg: its directory, one of its tables or one of its user pages. */
  predicate PartOf(use: Use, f: nat, pg: nat) {
    f == pg || (use.Tab? && use.pg == pg) || (use.User? && use.pg == pg)
  }

  /** The uses once every part of address space pg is given up. */
  function Disowned(own: Uses, pg: nat): Uses {
    map f | f in own :: if PartOf(own[f], f, pg) then Other else own[f]
  }

  lemma Disown(m: Memory, own: Uses, pg: nat)
    requires Good(m, own) && pg in own && own[pg] == Dir
    ensures Good(m, Disowned(own, pg))
  {
    var own' := Disowned(own, pg);
    forall g: nat | g in own' ensures PageOk(m, own', g) {
      assert PageOk(m, own, g);
      if !PartOf(own[g], g, pg) {
        PageKept(m, own, m, own', g);
      }
    }
  }

  // ---- address spaces ----

  /** Entry v / 1024 of a directory is absent, or leads to the table of that entry. */
  lemma TableOf(m: Memory, own: Uses, pg: nat, v: nat)
    requires Good(m, own) && pg in own && own[pg] == Dir && v < NVPN
    ensures IsTable(m, pg)
    ensures var e := Ent(m, pg, v / NENTRIES);
      if e.p then
        e.ppn in own && own[e.ppn] == Tab(pg, v / NENTRIES) && IsTable(m, e.ppn) && e.flags == Flags(true, true, 0) &&
            Pte(m, pg, v) == Ent(m, e.ppn, v % NENTRIES)
      else Pte(m, pg, v) == NONE
  {
    assert PageOk(m, own, pg) && DirEntOk(m, own, pg, v / NENTRIES);
    var e := Ent(m, pg, v / NENTRIES);
    assert e.p ==> PageOk(m, own, e.ppn);
  }

  /** In the user half an entry that is present names the page in use for its address, and only it does. */
  lemma UserPte(m: Memory, own: Uses, pg: nat, v: nat, f: nat)
    requires Good(m, own) && pg in own && own[pg] == Dir && v < KERNVPN
    ensures Pte(m, pg, v).p && Pte(m, pg, v).ppn == f <==> f in own && own[f] == User(pg, v)
  {
    TableOf(m, own, pg, v);
    var e := Ent(m, pg, v / NENTRIES);
    if e.p {
      assert PageOk(m, own, e.ppn) && TabEntOk(m, own, e.ppn, pg, v / NENTRIES, v % NENTRIES);
    }
    assert f in own ==> PageOk(m, own, f);
  }

  /** What writing one table entry does to the entries of all address spaces. */
  lemma PteSet(m: Memory, own: Uses, pg: nat, v: nat, tf: nat, e: Entry, pg': nat, v': nat)
    requires Good(m, own) && v < NVPN && tf in own && own[tf] == Tab(pg, v / NENTRIES) && IsTable(m, tf)
    requires pg' in own && own[pg'] == Dir && v' < NVPN
    ensures Pte(SetEnt(m, tf, v % NENTRIES, e), pg', v') == if pg' == pg && v' == v then e else Pte(m, pg', v')
  {
    TableOf(m, own, pg', v');
    assert PageOk(m, own, tf);
    assert v == v / NENTRIES * NENTRIES + v % NENTRIES && v' == v' / NENTRIES * NENTRIES + v' % NENTRIES;
  }

  /** Linking an empty table changes no entry. */
  lemma PteLink(m: Memory, own: Uses, pg: nat, i: nat, f: nat, e: Entry, pg': nat, v': nat)
    requires Good(m, own) && pg in own && own[pg] == Dir && i < NENTRIES && IsTable(m, pg) && !Ent(m, pg, i).p
    requires f in own && own[f] == Other && IsTable(m, f) && (forall t: nat :: t < NENTRIES ==> Ent(m, f, t) == NONE)
    requires e.p && e.ppn == f && pg' in own && own[pg'] == Dir && v' < NVPN
    ensures Pte(SetEnt(m, pg, i, e), pg', v') == Pte(m, pg', v')
  {
    TableOf(m, own, pg', v');
    assert Ent(m, f, v' % NENTRIES) == NONE;
  }

  /** What an address space consists of tells its entries: as long as its directory and tables stay, so do they. */
  lemma PteSame(m: Memory, own: Uses, m': Memory, pg: nat, v: nat)
    requires Good(m, own) && pg in own && own[pg] == Dir && v < NVPN
    requires forall f: nat :: f in own && (f == pg || (own[f].Tab? && own[f].pg == pg)) ==>
               f in m && f in m' && m'[f] == m[f]
    ensures Pte(m', pg, v) == Pte(m, pg, v)
  {
    TableOf(m, own, pg, v);
  }
}
