/** Writing into the memory of a user (system/memory/vm.c: clearpteu, uva2ka, copyout). */
module UserMemory {
  import opened Bytes
  import opened Params
  import opened VmFrames
  import opened Vm

  /** The byte at user address x. */
  function ByteAt(m: Memory, pg: nat, x: nat): byte
    requires x < KERNBASE
  {
    var e := Pte(m, pg, x / PGSIZE);
    if e.p && e.ppn in m && m[e.ppn].Data? && |m[e.ppn].bytes| == PGSIZE then m[e.ppn].bytes[x % PGSIZE] else 0
  }

  /** uva2ka takes the entry for one of a page that the user may use. */
  predicate ForUsers(e: Entry) {
    e.p && e.flags.u
  }

  /** The user may use page address v. */
  predicate Accessible(m: Memory, pg: nat, v: nat)
    requires v < NVPN
  {
    ForUsers(Pte(m, pg, v))
  }

  /** No page of the kernel's half is within the user's reach. */
  ghost predicate KernelPrivate(m: Memory, pg: nat) {
    forall v: nat :: KERNVPN <= v < NVPN ==> !Accessible(m, pg, v)
  }

  /** That is so where the kernel's half is as setupkvm makes it. */
  lemma KernelHalfPrivate(m: Memory, pg: nat, data: nat)
    requires KERNBASE <= data
    requires forall v: nat :: KERNVPN <= v < NVPN ==> Pte(m, pg, v) == KernelPte(KernelMap(data), 4, v)
    ensures KernelPrivate(m, pg)
  {
    forall v: nat | KERNVPN <= v < NVPN ensures !Accessible(m, pg, v) {
      NotForUsers(KernelMap(data), 4, v);
    }
  }

  lemma {:induction false} NotForUsers(ks: seq<Kmap>, n: nat, v: nat)
    requires n <= |ks| && forall i :: 0 <= i < n ==> !ks[i].perm.u
    ensures !KernelPte(ks, n, v).flags.u
  {
    if n > 0 {
      NotForUsers(ks, n - 1, v);
    }
  }

  /** clearpteu of a page; false is the panic where there is no table. */
  method ClearPteU(k: Physical, pg: nat, v: nat) returns (ok: bool)
    requires k.Valid() && pg in k.own && k.own[pg] == Dir && v < NVPN
    modifies k
    ensures k.Valid() && k.own == old(k.own) && Untouched(old(k.mem), old(k.own), k.mem, k.own, pg)
    ensures ok <==> old(Tabled(k.mem, pg, v / NENTRIES))
    ensures k.mem[pg] == old(k.mem)[pg]
    ensures forall w: nat :: w < NVPN ==>
              var e := old(Pte(k.mem, pg, w));
              Pte(k.mem, pg, w) == if ok && w == v then Entry(e.ppn, e.p, Flags(e.flags.w, false, e.flags.rest)) else e
  {
    var tab := k.WalkPgdir(pg, v, false);
    TableOf(k.mem, k.own, pg, v);
    if tab == 0 {
      return false;
    }
    var t := v % NENTRIES;
    var e := NoUserBit(Ent(k.mem, tab, t));
    ghost var m := k.mem;
    Reflag(m, k.own, tab, t, e);
    k.mem := SetEnt(k.mem, tab, t, e);
    ChainKept(m, k.mem, k.own, k.freelist, k.chain);
    forall w: nat | w < NVPN ensures Pte(k.mem, pg, w) == if w == v then e else Pte(m, pg, w) {
      PteSet(m, k.own, pg, v, tab, e, pg, w);
    }
    ok := true;
  }

  function NoUserBit(e: Entry): Entry {
    e.(flags := e.flags.(u := false))
  }

  /** Patching the page of v changes the bytes of that page address and no others. */
  lemma PatchBytes(m: Memory, own: Uses, pg: nat, v: nat, f: nat, o: nat, src: seq<byte>, x: nat)
    requires Good(m, own) && pg in own && own[pg] == Dir && v < KERNVPN && f in own && own[f] == User(pg, v)
    requires f in m && m[f].Data? && |m[f].bytes| == PGSIZE && o + |src| <= PGSIZE && x < KERNBASE
    ensures ByteAt(m[f := Data(Patch(m[f].bytes, o, src))], pg, x) ==
      if v * PGSIZE + o <= x < v * PGSIZE + o + |src| then src[x - (v * PGSIZE + o)] else ByteAt(m, pg, x)
  {
    var bytes := Patch(m[f].bytes, o, src);
    WriteKeeps(m, own, f, bytes);
    var m', w := m[f := Data(bytes)], x / PGSIZE;
    assert Pte(m', pg, w) == Pte(m, pg, w);
    assert x == w * PGSIZE + x % PGSIZE;
    UserPte(m, own, pg, w, f);
    UserPte(m, own, pg, v, f);
    if w != v {
      Apart(v, w, o + |src|, x % PGSIZE);
    }
  }

  lemma Apart(v: nat, w: nat, a: nat, b: nat)
    requires v != w && a <= PGSIZE && b < PGSIZE
    ensures w * PGSIZE + b < v * PGSIZE || w * PGSIZE + b >= v * PGSIZE + a
  {
    assert w < v ==> (w + 1) * PGSIZE <= v * PGSIZE;
    assert v < w ==> (v + 1) * PGSIZE <= w * PGSIZE;
  }

  /** The write of one page's worth of bytes inside page address v. */
  method PutPage(k: Physical, pg: nat, v: nat, o: nat, src: seq<byte>)
    requires k.Valid() && pg in k.own && k.own[pg] == Dir && v < KERNVPN
    requires Accessible(k.mem, pg, v) && o + |src| <= PGSIZE
    modifies k`mem
    ensures k.Valid() && Written(old(k.mem), k.mem, k.own, pg, v * PGSIZE + o, src)
  {
    var f := Pte(k.mem, pg, v).ppn;
    UserPte(k.mem, k.own, pg, v, f);
    assert PageOk(k.mem, k.own, f);
    ghost var m, va := k.mem, v * PGSIZE + o;
    var bytes := Patch(k.mem[f].bytes, o, src);
    WriteKeeps(m, k.own, f, bytes);
    k.mem := k.mem[f := Data(bytes)];
    ChainKept(m, k.mem, k.own, k.freelist, k.chain);
    forall x: nat | x < KERNBASE ensures WrittenAt(m, k.mem, pg, va, src, x) {
      PatchBytes(m, k.own, pg, v, f, o, src, x);
    }
  }

  ghost predicate WrittenAt(m: Memory, m': Memory, pg: nat, va: nat, src: seq<byte>, x: nat)
    requires x < KERNBASE
  {
    ByteAt(m', pg, x) == if va <= x < va + |src| then src[x - va] else ByteAt(m, pg, x)
  }

  /** The user memory of pg is what it was with `src` written at va; no entry and no other page has changed. */
  ghost predicate Written(m: Memory, m': Memory, own: Uses, pg: nat, va: nat, src: seq<byte>) {
    && (forall x: nat {:trigger WrittenAt(m, m', pg, va, src, x)} :: x < KERNBASE ==> WrittenAt(m, m', pg, va, src, x))
    && (forall v: nat :: v < NVPN ==> Pte(m', pg, v) == Pte(m, pg, v))
    && forall f: nat :: f in own && !(own[f].User? && own[f].pg == pg) ==> f in m && f in m' && m'[f] == m[f]
  }

  lemma WrittenMore(m0: Memory, m1: Memory, m2: Memory, own: Uses, pg: nat, va: nat, one: seq<byte>, two: seq<byte>)
    requires Written(m0, m1, own, pg, va, one) && Written(m1, m2, own, pg, va + |one|, two)
    ensures Written(m0, m2, own, pg, va, one + two)
  {
    var both, mid := one + two, va + |one|;
    forall x: nat | x < KERNBASE ensures WrittenAt(m0, m2, pg, va, both, x) {
      assert WrittenAt(m0, m1, pg, va, one, x) && WrittenAt(m1, m2, pg, mid, two, x);
    }
  }

  /** The n bytes from va on are in the user's half, and every page of them is within the user's reach. */
  ghost predicate Reaches(m: Memory, pg: nat, va: nat, n: nat) {
    n > 0 ==>
      && va + n <= KERNBASE
      && forall v: nat :: va / PGSIZE <= v < Up(va + n) && v < KERNVPN ==> Accessible(m, pg, v)
  }

  /** Page v covers the n bytes at `at`, as far as the page goes. */
  lemma PageOf(at: nat, n: nat)
    requires 0 < n && at % PGSIZE + n <= PGSIZE
    ensures Up(at + n) == at / PGSIZE + 1 && (at % PGSIZE == 0 ==> Up(at) == at / PGSIZE)
  {
    Quotient(at / PGSIZE, at % PGSIZE + n - 1);
    assert at == at / PGSIZE * PGSIZE + at % PGSIZE;
    assert at + n + PGSIZE - 1 == (at / PGSIZE + 1) * PGSIZE + (at % PGSIZE + n - 1);
    Quotient(at / PGSIZE + 1, at % PGSIZE + n - 1);
  }

  lemma Inside(va: nat, at: nat, end: nat)
    requires va <= at < end <= KERNBASE
    ensures va / PGSIZE <= at / PGSIZE < Up(end) <= KERNVPN
  {
    UpBound(at / PGSIZE, end);
  }

  lemma NextPage(at: nat, n: nat)
    requires at % PGSIZE + n == PGSIZE
    ensures at / PGSIZE * PGSIZE + PGSIZE == at + n && (at + n) % PGSIZE == 0
  {
    assert at + n == (at / PGSIZE + 1) * PGSIZE;
    Quotient(at / PGSIZE + 1, 0);
  }

  lemma ReachesMore(m: Memory, pg: nat, va: nat, done: nat, n: nat)
    requires 0 < n && Reaches(m, pg, va, done) && (va + done) % PGSIZE + n <= PGSIZE
    requires done == 0 || (va + done) % PGSIZE == 0
    requires (va + done) / PGSIZE < KERNVPN && Accessible(m, pg, (va + done) / PGSIZE)
    ensures Reaches(m, pg, va, done + n)
  {
    PageOf(va + done, n);
    BelowKernel(va + done, n);
  }

  lemma BelowKernel(at: nat, n: nat)
    requires at / PGSIZE < KERNVPN && at % PGSIZE + n <= PGSIZE
    ensures at + n <= KERNBASE
  {
    assert (at / PGSIZE + 1) * PGSIZE <= KERNVPN * PGSIZE;
  }

  /** A page out of reach is one of the range, or the range leaves the user's half. */
  lemma OutOfReach(m: Memory, pg: nat, va: nat, done: nat, n: nat)
    requires done < n && va + done < UINT && !Accessible(m, pg, (va + done) / PGSIZE)
    ensures !Reaches(m, pg, va, n)
  {
    if va + n <= KERNBASE {
      Inside(va, va + done, va + n);
    }
  }

  /** The first i bytes of `src` have been written, all of them within reach. */
  ghost predicate Progress(m: Memory, m': Memory, own: Uses, pg: nat, va: nat, src: seq<byte>, i: nat) {
    i <= |src| && Written(m, m', own, pg, va, src[..i]) && Reaches(m, pg, va, i)
  }

  lemma SameReach(m: Memory, m': Memory, own: Uses, pg: nat, va: nat, src: seq<byte>, i: nat, v: nat)
    requires Progress(m, m', own, pg, va, src, i) && v < NVPN && pg in own && own[pg] == Dir
    ensures Accessible(m', pg, v) <==> Accessible(m, pg, v)
    ensures Tabled(m', pg, v / NENTRIES) <==> Tabled(m, pg, v / NENTRIES)
  {
  }

  lemma StaysPrivate(m: Memory, m': Memory, own: Uses, pg: nat, va: nat, src: seq<byte>)
    requires Written(m, m', own, pg, va, src) && KernelPrivate(m, pg)
    ensures KernelPrivate(m', pg)
  {
    forall v: nat | KERNVPN <= v < NVPN ensures !Accessible(m', pg, v) {
      assert Pte(m', pg, v) == Pte(m, pg, v) && !Accessible(m, pg, v);
    }
  }

  lemma ProgressMore(m0: Memory, m1: Memory, m2: Memory, own: Uses, pg: nat, va: nat, src: seq<byte>, i: nat, n: nat)
    requires Progress(m0, m1, own, pg, va, src, i) && 0 < n && i + n <= |src|
    requires Written(m1, m2, own, pg, va + i, src[i..i + n]) && (va + i) % PGSIZE + n <= PGSIZE
    requires i == 0 || (va + i) % PGSIZE == 0
    requires (va + i) / PGSIZE < KERNVPN && Accessible(m0, pg, (va + i) / PGSIZE)
    ensures Progress(m0, m2, own, pg, va, src, i + n)
  {
    assert src[..i] + src[i..i + n] == src[..i + n];
    WrittenMore(m0, m1, m2, own, pg, va, src[..i], src[i..i + n]);
    ReachesMore(m0, pg, va, i, n);
  }

  /** One round of copyout: up to the end of the page.  uva2ka looks at the entry without asking whether there
      is a table; where there is none it reads `zero`, the word at address 0 of the process that runs.  If that
      word is taken for an entry, the bytes go astray, to whatever page it names. */
  method CopyoutRound(k: Physical, pg: nat, at: nat, src: seq<byte>, i: nat, zero: Entry)
    returns (ok: bool, astray: bool, n: nat)
    requires k.Valid() && pg in k.own && k.own[pg] == Dir && i < |src| && at < UINT && KernelPrivate(k.mem, pg)
    modifies k
    ensures k.Valid() && k.own == old(k.own) && (ok <==> Accessible(old(k.mem), pg, at / PGSIZE))
    ensures astray <==> !old(Tabled(k.mem, pg, at / PGSIZE / NENTRIES)) && ForUsers(zero)
    ensures !ok ==> k.mem == old(k.mem)
    ensures ok ==> 0 < n <= |src| - i && at % PGSIZE + n <= PGSIZE && (n == |src| - i || at % PGSIZE + n == PGSIZE)
    ensures ok ==> at / PGSIZE < KERNVPN && Written(old(k.mem), k.mem, k.own, pg, at, src[i..i + n])
  {
    var v, o := at / PGSIZE, at % PGSIZE;
    var tab := k.WalkPgdir(pg, v, false);
    TableOf(k.mem, k.own, pg, v);
    if tab == 0 {
      return false, zero.p && zero.flags.u, 0;
    }
    var e := Ent(k.mem, tab, v % NENTRIES);
    if !e.p || !e.flags.u {
      return false, false, 0;
    }
    assert Accessible(k.mem, pg, v);
    n := PGSIZE - o;
    if n > |src| - i {
      n := |src| - i;
    }
    PutPage(k, pg, v, o, src[i..i + n]);
    return true, false, n;
  }

  /** copyout, to any address.  `done` bytes have been written when it stops: all of them unless a page was out
      of reach, and then all up to that page.  There it returns -1, or goes astray exactly if the page has no
      table and the word at address 0 reads as an entry for users; the model does not follow it there. */
  method Copyout(k: Physical, pg: nat, va: nat, src: seq<byte>, zero: Entry)
    returns (ok: bool, astray: bool, ghost done: nat)
    requires k.Valid() && pg in k.own && k.own[pg] == Dir && va < UINT && KernelPrivate(k.mem, pg)
    modifies k
    ensures k.Valid() && k.own == old(k.own) && done <= |src| && (ok <==> done == |src|)
    ensures Written(old(k.mem), k.mem, k.own, pg, va, src[..done]) && Reaches(old(k.mem), pg, va, done)
    ensures ok <==> Reaches(old(k.mem), pg, va, |src|)
    ensures !ok ==> va + done < UINT && !Accessible(old(k.mem), pg, (va + done) / PGSIZE)
    ensures astray <==> !ok && !old(Tabled(k.mem, pg, (va + done) / PGSIZE / NENTRIES)) && ForUsers(zero)
  {
    ghost var m := k.mem;
    var at, i := va, 0;
    while i < |src|
      invariant k.Valid() && k.own == old(k.own) && Progress(m, k.mem, k.own, pg, va, src, i)
      invariant i == |src| || (at == va + i && (i == 0 || at % PGSIZE == 0))
      decreases |src| - i
    {
      SameReach(m, k.mem, k.own, pg, va, src, i, at / PGSIZE);
      StaysPrivate(m, k.mem, k.own, pg, va, src[..i]);
      ghost var m1 := k.mem;
      var reached, n;
      reached, astray, n := CopyoutRound(k, pg, at, src, i, zero);
      if !reached {
        OutOfReach(m, pg, va, i, |src|);
        return false, astray, i;
      }
      ProgressMore(m, m1, k.mem, k.own, pg, va, src, i, n);
      if n < |src| - i {
        NextPage(at, n);
      }
      at, i := at / PGSIZE * PGSIZE + PGSIZE, i + n;
    }
    return true, false, |src|;
  }
}
