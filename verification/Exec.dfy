/** The user stack that exec builds (system/core/exec.c): a guard page, a stack page, the argument strings from
    the top of the stack down, and below them the words main is entered with. */
module Exec {
  import opened Bytes
  import opened Params
  import opened VmFrames
  import opened Vm
  import opened UserMemory

  const MAXARG: nat := 32

  // ---- where things go ----

  /** sp after the first n arguments have been pushed; negative if they reach below address 0. */
  function Sp(sz: nat, argv: seq<seq<byte>>, n: nat): int
    requires n <= |argv|
  {
    if n == 0 then sz else var x := Sp(sz, argv, n - 1) - (|argv[n - 1]| + 1); x - x % 4
  }

  /** sp in the end, below the three words, the argv vector and its terminator. */
  function FinalSp(sz: nat, argv: seq<seq<byte>>): int {
    Sp(sz, argv, |argv|) - (3 + |argv| + 1) * 4
  }

  /** Each argument is below the one before it, with room for it and its terminator. */
  lemma SpStep(sz: nat, argv: seq<seq<byte>>, n: nat)
    requires n < |argv|
    ensures Sp(sz, argv, n) - 3 <= Sp(sz, argv, n + 1) + |argv[n]| + 1 <= Sp(sz, argv, n)
    ensures Sp(sz, argv, n + 1) % 4 == 0
  {
  }

  lemma SpDescends(sz: nat, argv: seq<seq<byte>>, i: nat, n: nat)
    requires i <= n <= |argv|
    ensures Sp(sz, argv, n) <= Sp(sz, argv, i)
  {
    if i < n {
      SpStep(sz, argv, n - 1);
      SpDescends(sz, argv, i, n - 1);
    }
  }

  // ---- words ----

  function LittleEndian(x: word): (b: seq<byte>)
    ensures |b| == 4 && Word(b, 0) == x
  {
    PutWord([0, 0, 0, 0], 0, x)
  }

  function Flat(ws: seq<word>): (b: seq<byte>)
    ensures |b| == 4 * |ws|
  {
    if ws == [] then [] else LittleEndian(ws[0]) + Flat(ws[1..])
  }

  lemma {:induction false} FlatAt(ws: seq<word>, i: nat)
    requires i < |ws|
    ensures Word(Flat(ws), 4 * i) == ws[i]
  {
    var first, rest := LittleEndian(ws[0]), Flat(ws[1..]);
    assert Flat(ws) == first + rest;
    if i == 0 {
      WordInFirst(first, rest);
    } else {
      FlatAt(ws[1..], i - 1);
      WordInRest(first, rest, 4 * (i - 1));
    }
  }

  lemma WordInFirst(a: seq<byte>, b: seq<byte>)
    requires |a| == 4
    ensures Word(a + b, 0) == Word(a, 0)
  {
  }

  lemma WordInRest(a: seq<byte>, b: seq<byte>, off: nat)
    requires |a| == 4 && off + 4 <= |b|
    ensures Word(a + b, off + 4) == Word(b, off)
  {
    var c := a + b;
    assert c[off + 4] == b[off] && c[off + 5] == b[off + 1] && c[off + 6] == b[off + 2] && c[off + 7] == b[off + 3];
  }

  // ---- the image ----

  /** The bytes at user address x. */
  ghost predicate Holds(m: Memory, pg: nat, x: nat, bytes: seq<byte>) {
    x + |bytes| <= KERNBASE && forall j: nat :: j < |bytes| ==> ByteAt(m, pg, x + j) == bytes[j]
  }

  /** Bytes outside the range of a write stay. */
  lemma HoldsKept(m: Memory, m': Memory, own: Uses, pg: nat, va: nat, src: seq<byte>, x: nat, bytes: seq<byte>)
    requires Written(m, m', own, pg, va, src) && Holds(m, pg, x, bytes) && (va + |src| <= x || x + |bytes| <= va)
    ensures Holds(m', pg, x, bytes)
  {
    forall j: nat | j < |bytes| ensures ByteAt(m', pg, x + j) == bytes[j] {
      assert WrittenAt(m, m', pg, va, src, x + j);
    }
  }

  lemma HoldsWritten(m: Memory, m': Memory, own: Uses, pg: nat, va: nat, src: seq<byte>)
    requires Written(m, m', own, pg, va, src) && va + |src| <= KERNBASE
    ensures Holds(m', pg, va, src)
  {
    forall j: nat | j < |src| ensures ByteAt(m', pg, va + j) == src[j] {
      assert WrittenAt(m, m', pg, va, src, va + j);
    }
  }

  /** After allocuvm and clearpteu: everything below sz is mapped, the last page is the stack and the one below
      it is out of the user's reach, and so is the kernel's half. */
  ghost predicate StackReady(m: Memory, pg: nat, sz: nat) {
    && sz % PGSIZE == 0 && 2 * PGSIZE <= sz <= KERNBASE && IsTable(m, pg)
    && (forall v: nat :: v < sz / PGSIZE && v < KERNVPN ==> Tabled(m, pg, v / NENTRIES))
    && Accessible(m, pg, sz / PGSIZE - 1) && Pte(m, pg, sz / PGSIZE - 1).flags.w
    && !Accessible(m, pg, sz / PGSIZE - 2) && KernelPrivate(m, pg)
  }

  lemma StackStays(m: Memory, m': Memory, own: Uses, pg: nat, sz: nat, va: nat, src: seq<byte>)
    requires StackReady(m, pg, sz) && Written(m, m', own, pg, va, src) && pg in own && own[pg] == Dir
    ensures StackReady(m', pg, sz)
  {
    assert m'[pg] == m[pg];
    forall v: nat | v < sz / PGSIZE && v < KERNVPN ensures Tabled(m', pg, v / NENTRIES) {
      assert Tabled(m, pg, v / NENTRIES);
    }
    StaysPrivate(m, m', own, pg, va, src);
  }

  /** A range that ends in the stack page, or just below it, is within reach exactly if it starts in the stack page. */
  lemma ReachIff(m: Memory, pg: nat, sz: nat, va: nat, n: nat)
    requires StackReady(m, pg, sz) && 0 < n && sz - 2 * PGSIZE < va + n <= sz
    ensures Reaches(m, pg, va, n) <==> va >= sz - PGSIZE
  {
    var v := sz / PGSIZE;
    assert sz == v * PGSIZE;
    UpBound(v - 2, va + n);
    if va >= sz - PGSIZE {
      Inside(sz - PGSIZE, va, sz);
      UpMonotone(va + n, sz);
      Quotient(v - 1, 0);
      assert Up(sz) == v;
    } else {
      assert va < (v - 1) * PGSIZE;
      assert va / PGSIZE <= v - 2;
    }
  }

  // ---- what exec leaves alone ----

  /** A page that is in use, and not for address space pg. */
  ghost predicate SparedAt(m: Memory, own: Uses, m': Memory, own': Uses, pg: nat, f: nat)
    requires f in own
  {
    own[f] != OnFree && !PartOf(own[f], f, pg) ==> f in own' && own'[f] == own[f] && f in m && f in m' && m'[f] == m[f]
  }

  /** The pages in use outside of address space pg keep their uses and their contents. */
  ghost predicate Spared(m: Memory, own: Uses, m': Memory, own': Uses, pg: nat) {
    forall f: nat {:trigger SparedAt(m, own, m', own', pg, f)} :: f in own ==> SparedAt(m, own, m', own', pg, f)
  }

  lemma SparedOn(m0: Memory, own0: Uses, m1: Memory, own1: Uses, m2: Memory, own2: Uses, pg: nat)
    requires Spared(m0, own0, m1, own1, pg) && Spared(m1, own1, m2, own2, pg)
    ensures Spared(m0, own0, m2, own2, pg)
  {
    forall f: nat | f in own0 ensures SparedAt(m0, own0, m2, own2, pg, f) {
      assert SparedAt(m0, own0, m1, own1, pg, f);
      assert f in own1 ==> SparedAt(m1, own1, m2, own2, pg, f);
    }
  }

  lemma SparedByWrite(m: Memory, m': Memory, own: Uses, pg: nat, va: nat, src: seq<byte>)
    requires Written(m, m', own, pg, va, src)
    ensures Spared(m, own, m', own, pg)
  {
  }

  /** allocuvm and clearpteu. */
  lemma SparedByTables(m: Memory, own: Uses, m': Memory, own': Uses, pg: nat, lo: nat, hi: nat)
    requires Untouched(m, own, m', own', pg) && (Added(own, own', pg, lo, hi) || Grew(own, own', pg))
    ensures Spared(m, own, m', own', pg)
  {
    forall f: nat | f in own ensures SparedAt(m, own, m', own', pg, f) {
      assert StaysAt(m, own, m', own', pg, f);
      assert Added(own, own', pg, lo, hi) ==> AddedAt(own, own', pg, lo, hi, f);
      assert Grew(own, own', pg) ==> GrewAt(own, own', pg, f);
    }
  }

  /** The user's bytes below address hi. */
  ghost predicate SameBelow(m: Memory, m': Memory, pg: nat, hi: nat) {
    forall x: nat {:trigger ByteAt(m', pg, x)} :: x < hi && x < KERNBASE ==> ByteAt(m', pg, x) == ByteAt(m, pg, x)
  }

  lemma SameByTables(m: Memory, own: Uses, m': Memory, own': Uses, pg: nat, n: nat, hi: nat)
    requires Good(m, own) && pg in own && own[pg] == Dir && n <= KERNVPN && Untouched(m, own, m', own', pg)
    requires Added(own, own', pg, n, hi) || Grew(own, own', pg)
    requires forall v: nat :: v < n ==> Pte(m', pg, v) == Pte(m, pg, v)
    ensures SameBelow(m, m', pg, n * PGSIZE)
  {
    forall x: nat | x < n * PGSIZE && x < KERNBASE ensures ByteAt(m', pg, x) == ByteAt(m, pg, x) {
      var v := x / PGSIZE;
      var f := Pte(m, pg, v).ppn;
      assert v < n;
      if Pte(m, pg, v).p {
        UserPte(m, own, pg, v, f);
        assert StaysAt(m, own, m', own', pg, f);
        assert Added(own, own', pg, n, hi) ==> AddedAt(own, own', pg, n, hi, f);
        assert Grew(own, own', pg) ==> GrewAt(own, own', pg, f);
      }
    }
  }

  lemma SameByWrite(m: Memory, m': Memory, own: Uses, pg: nat, va: nat, src: seq<byte>, hi: nat)
    requires Written(m, m', own, pg, va, src) && hi <= va
    ensures SameBelow(m, m', pg, hi)
  {
    forall x: nat | x < hi && x < KERNBASE ensures ByteAt(m', pg, x) == ByteAt(m, pg, x) {
      assert WrittenAt(m, m', pg, va, src, x);
    }
  }

  // ---- exec's pushes ----

  /** copyout to an address whose range ends in the stack page or just below it, or that has wrapped into the
      kernel's half. */
  method Push(k: Physical, pg: nat, sz: nat, va: nat, src: seq<byte>, zero: Entry) returns (ok: bool, astray: bool)
    requires k.Valid() && pg in k.own && k.own[pg] == Dir && StackReady(k.mem, pg, sz)
    requires src != [] && (sz - 2 * PGSIZE < va + |src| <= sz || KERNBASE <= va < UINT)
    modifies k
    ensures k.Valid() && k.own == old(k.own) && (ok <==> sz - PGSIZE <= va < KERNBASE)
    ensures ok ==> StackReady(k.mem, pg, sz) && Written(old(k.mem), k.mem, k.own, pg, va, src)
    ensures k.mem[pg] == old(k.mem)[pg]
    ensures astray <==> va >= KERNBASE && !Tabled(old(k.mem), pg, va / PGSIZE / NENTRIES) && ForUsers(zero)
    ensures Spared(old(k.mem), k.own, k.mem, k.own, pg) && (ok ==> SameBelow(old(k.mem), k.mem, pg, sz - PGSIZE))
  {
    ghost var m, done := k.mem, 0;
    if va < KERNBASE {
      UpMonotone(va + |src|, sz);
      assert Up(sz) == sz / PGSIZE;
      ReachIff(m, pg, sz, va, |src|);
    }
    ok, astray, done := Copyout(k, pg, va, src, zero);
    SparedByWrite(m, k.mem, k.own, pg, va, src[..done]);
    if ok {
      assert src[..done] == src;
      SameByWrite(m, k.mem, k.own, pg, va, src, sz - PGSIZE);
      StackStays(m, k.mem, k.own, pg, sz, va, src);
    } else if va < KERNBASE {
      Inside(0, va + done, sz);
    }
  }

  /** The first n arguments are in place, each with its terminator. */
  ghost predicate Pushed(m: Memory, pg: nat, sz: nat, argv: seq<seq<byte>>, at: seq<word>, n: nat) {
    n <= |argv| && |at| == n && forall i: nat {:trigger ArgAt(m, pg, sz, argv, at, i)} :: i < n ==>
        ArgAt(m, pg, sz, argv, at, i)
  }

  ghost predicate ArgAt(m: Memory, pg: nat, sz: nat, argv: seq<seq<byte>>, at: seq<word>, i: nat)
    requires i < |argv| && i < |at|
  {
    at[i] == Sp(sz, argv, i + 1) && Holds(m, pg, at[i], argv[i] + [0])
  }

  /** Pushing below the arguments leaves them. */
  lemma PushedStay(m: Memory, m': Memory, own: Uses, pg: nat, sz: nat, argv: seq<seq<byte>>, at: seq<word>, n: nat,
                   va: nat, src: seq<byte>)
    requires Pushed(m, pg, sz, argv, at, n) && Written(m, m', own, pg, va, src) && va + |src| <= Sp(sz, argv, n)
    ensures Pushed(m', pg, sz, argv, at, n)
  {
    forall i: nat | i < n ensures ArgAt(m', pg, sz, argv, at, i) {
      assert ArgAt(m, pg, sz, argv, at, i);
      SpDescends(sz, argv, i + 1, n);
      HoldsKept(m, m', own, pg, va, src, at[i], argv[i] + [0]);
    }
  }

  /** sp after the first n arguments, as the 32-bit number the code computes. */
  lemma Wrapped(sz: nat, argv: seq<seq<byte>>, n: nat)
    requires n < |argv| && |argv[n]| < KERNBASE && 0 < Sp(sz, argv, n) <= sz <= KERNBASE
    ensures var x := (Sp(sz, argv, n) - (|argv[n]| + 1)) % UINT; Sp(sz, argv, n + 1) % UINT == x - x % 4
    ensures Sp(sz, argv, n + 1) < 0 ==> KERNBASE <= Sp(sz, argv, n + 1) % UINT
    ensures Sp(sz, argv, n + 1) >= 0 ==> Sp(sz, argv, n + 1) % UINT == Sp(sz, argv, n + 1) < KERNBASE
  {
    WrapsDown(Sp(sz, argv, n) - (|argv[n]| + 1));
  }

  /** Rounding down to a word, before or after the subtraction wraps. */
  lemma WrapsDown(x: int)
    requires 0 < x + KERNBASE && x < KERNBASE
    ensures (x - x % 4) % UINT == x % UINT - x % UINT % 4
    ensures x - x % 4 < 0 ==> KERNBASE <= (x - x % 4) % UINT
    ensures x - x % 4 >= 0 ==> (x - x % 4) % UINT == x - x % 4
  {
    assert x % UINT == if x < 0 then x + UINT else x;
  }

  /** Argument n is the one whose address wraps, and there is no table for the address it wraps to. */
  ghost predicate StraysAt(m: Memory, pg: nat, sz: nat, argv: seq<seq<byte>>, n: nat) {
    && n < |argv| && n < MAXARG && sz - PGSIZE <= Sp(sz, argv, n) && Sp(sz, argv, n + 1) < 0
    && !Tabled(m, pg, Sp(sz, argv, n + 1) % UINT / PGSIZE / NENTRIES)
  }

  /** Some argument makes copyout look for an entry where there is no table. */
  ghost predicate Strays(m: Memory, pg: nat, sz: nat, argv: seq<seq<byte>>) {
    exists n: nat :: StraysAt(m, pg, sz, argv, n)
  }

  /** That depends on the kernel's half of the directory alone. */
  lemma StraysStay(m: Memory, m': Memory, pg: nat, sz: nat, argv: seq<seq<byte>>)
    requires SameKernelTables(m, m', pg) && sz <= KERNBASE && forall i :: 0 <= i < |argv| ==> |argv[i]| < KERNBASE
    requires 2 * PGSIZE <= sz
    ensures Strays(m', pg, sz, argv) <==> Strays(m, pg, sz, argv)
  {
    forall n: nat ensures StraysAt(m', pg, sz, argv, n) <==> StraysAt(m, pg, sz, argv, n) {
      if n < |argv| && sz - PGSIZE <= Sp(sz, argv, n) && Sp(sz, argv, n + 1) < 0 {
        SpDescends(sz, argv, 0, n);
        Wrapped(sz, argv, n);
        KernelTable(Sp(sz, argv, n + 1) % UINT);
      }
    }
  }

  lemma KernelTable(x: nat)
    requires KERNBASE <= x < UINT
    ensures KERNVPN / NENTRIES <= x / PGSIZE / NENTRIES < NENTRIES
  {
  }

  /** One round of exec's loop over the arguments. */
  method PushArg(k: Physical, pg: nat, sz: nat, argv: seq<seq<byte>>, zero: Entry, at: seq<word>, n: nat, sp: nat)
    returns (ok: bool, astray: bool, sp': nat)
    requires k.Valid() && pg in k.own && k.own[pg] == Dir && StackReady(k.mem, pg, sz)
    requires Pushed(k.mem, pg, sz, argv, at, n)
    requires n < |argv| && n < MAXARG && |argv[n]| < KERNBASE && sp == Sp(sz, argv, n) && sz - PGSIZE <= sp <= sz
    modifies k
    ensures k.Valid() && k.own == old(k.own) && k.mem[pg] == old(k.mem)[pg]
    ensures sp' < UINT && (ok <==> Sp(sz, argv, n + 1) >= sz - PGSIZE)
    ensures astray <==> StraysAt(old(k.mem), pg, sz, argv, n) && ForUsers(zero)
    ensures ok ==> sp' == Sp(sz, argv, n + 1)
    ensures ok ==> StackReady(k.mem, pg, sz) && Pushed(k.mem, pg, sz, argv, at + [sp'], n + 1)
    ensures Spared(old(k.mem), k.own, k.mem, k.own, pg) && (ok ==> SameBelow(old(k.mem), k.mem, pg, sz - PGSIZE))
  {
    SpStep(sz, argv, n);
    Wrapped(sz, argv, n);
    var src := argv[n] + [0];
    sp' := (sp - |src|) % UINT;
    sp' := sp' - sp' % 4;
    ghost var m := k.mem;
    ok, astray := Push(k, pg, sz, sp', src, zero);
    if ok {
      PushedStay(m, k.mem, k.own, pg, sz, argv, at, n, sp', src);
      HoldsWritten(m, k.mem, k.own, pg, sp', src);
      PushedMore(k.mem, pg, sz, argv, at, n, sp');
    }
  }

  /** exec's loop over the arguments, which are strings of some user. */
  method PushArgs(k: Physical, pg: nat, sz: nat, argv: seq<seq<byte>>, zero: Entry)
    returns (ok: bool, astray: bool, sp: nat, at: seq<word>)
    requires k.Valid() && pg in k.own && k.own[pg] == Dir && StackReady(k.mem, pg, sz)
    requires forall i :: 0 <= i < |argv| ==> |argv[i]| < KERNBASE
    modifies k
    ensures k.Valid() && k.own == old(k.own) && k.mem[pg] == old(k.mem)[pg]
    ensures ok <==> |argv| <= MAXARG && Sp(sz, argv, |argv|) >= sz - PGSIZE
    ensures ok ==> sp == Sp(sz, argv, |argv|) && StackReady(k.mem, pg, sz) && Pushed(k.mem, pg, sz, argv, at, |argv|)
    ensures astray <==> Strays(old(k.mem), pg, sz, argv) && ForUsers(zero)
    ensures Spared(old(k.mem), k.own, k.mem, k.own, pg) && (ok ==> SameBelow(old(k.mem), k.mem, pg, sz - PGSIZE))
  {
    sp, at, ok, astray := sz, [], true, false;
    SparedByNothing(k.mem, k.own, pg);
    var argc := 0;
    while argc < |argv|
      invariant argc <= |argv| && argc <= MAXARG && sp == Sp(sz, argv, argc) && sz - PGSIZE <= sp <= sz
      invariant k.Valid() && k.own == old(k.own) && StackReady(k.mem, pg, sz) && Pushed(k.mem, pg, sz, argv, at, argc)
      invariant k.mem[pg] == old(k.mem)[pg] && ok && !astray
      invariant Spared(old(k.mem), k.own, k.mem, k.own, pg) && SameBelow(old(k.mem), k.mem, pg, sz - PGSIZE)
    {
      if argc >= MAXARG {
        NoneStrays(old(k.mem), pg, sz, argv, argc);
        return false, false, sp, at;
      }
      SpDescends(sz, argv, argc, argc + 1);
      SpDescends(sz, argv, argc + 1, |argv|);
      ghost var m := k.mem;
      ok, astray, sp := PushArg(k, pg, sz, argv, zero, at, argc, sp);
      SameStray(old(k.mem), m, pg, sz, argv, argc);
      SparedOn(old(k.mem), k.own, m, k.own, k.mem, k.own, pg);
      if !ok {
        return;
      }
      at, argc := at + [sp], argc + 1;
    }
    NoneStrays(old(k.mem), pg, sz, argv, argc);
  }

  lemma NoneStrays(m: Memory, pg: nat, sz: nat, argv: seq<seq<byte>>, n: nat)
    requires n <= |argv| && (n == |argv| || n >= MAXARG) && sz - PGSIZE <= Sp(sz, argv, n) && PGSIZE <= sz
    ensures forall i: nat :: !StraysAt(m, pg, sz, argv, i)
  {
    forall i: nat ensures !StraysAt(m, pg, sz, argv, i) {
      if i < n {
        SpDescends(sz, argv, i + 1, n);
      }
    }
  }

  /** Where the arguments leave the stack page, at the n-th, is the only place to go astray. */
  lemma SameStray(m: Memory, m': Memory, pg: nat, sz: nat, argv: seq<seq<byte>>, n: nat)
    requires n < |argv| && sz - PGSIZE <= Sp(sz, argv, n) && 2 * PGSIZE <= sz && pg in m && pg in m' && m'[pg] == m[pg]
    ensures StraysAt(m', pg, sz, argv, n) <==> StraysAt(m, pg, sz, argv, n)
    ensures Sp(sz, argv, n + 1) < sz - PGSIZE ==> forall i: nat :: StraysAt(m, pg, sz, argv, i) ==> i == n
  {
    forall i: nat | Sp(sz, argv, n + 1) < sz - PGSIZE && StraysAt(m, pg, sz, argv, i) ensures i == n {
      if i < n {
        SpDescends(sz, argv, i + 1, n);
      } else if i > n {
        SpDescends(sz, argv, n + 1, i);
      }
    }
  }

  lemma PushedMore(m: Memory, pg: nat, sz: nat, argv: seq<seq<byte>>, at: seq<word>, n: nat, sp: word)
    requires n < |argv| && Pushed(m, pg, sz, argv, at, n) && sp == Sp(sz, argv, n + 1)
    requires Holds(m, pg, sp, argv[n] + [0])
    ensures Pushed(m, pg, sz, argv, at + [sp], n + 1)
  {
    forall i: nat | i < n + 1 ensures ArgAt(m, pg, sz, argv, at + [sp], i) {
      assert i < n ==> ArgAt(m, pg, sz, argv, at, i);
    }
  }

  // ---- words in user memory ----

  /** The n bytes from user address x on. */
  ghost function BytesAt(m: Memory, pg: nat, x: nat, n: nat): (b: seq<byte>)
    requires x + n <= KERNBASE
    ensures |b| == n && forall j: nat :: j < n ==> b[j] == ByteAt(m, pg, x + j)
  {
    seq<byte>(n, j requires 0 <= j < n => ByteAt(m, pg, x + j))
  }

  lemma BytesHeld(m: Memory, pg: nat, x: nat, bytes: seq<byte>)
    requires Holds(m, pg, x, bytes)
    ensures BytesAt(m, pg, x, |bytes|) == bytes
  {
  }

  lemma BytesPart(m: Memory, pg: nat, x: nat, n: nat, i: nat, k: nat)
    requires x + n <= KERNBASE && i + k <= n
    ensures BytesAt(m, pg, x + i, k) == BytesAt(m, pg, x, n)[i..i + k]
  {
    var whole, part := BytesAt(m, pg, x, n), BytesAt(m, pg, x + i, k);
    forall j: nat | j < k ensures part[j] == whole[i..i + k][j] {
      assert whole[i + j] == ByteAt(m, pg, x + (i + j));
    }
  }

  /** The word at user address x. */
  ghost function WordAt(m: Memory, pg: nat, x: nat): word
    requires x + 4 <= KERNBASE
  {
    Word(BytesAt(m, pg, x, 4), 0)
  }

  ghost predicate WordIs(m: Memory, pg: nat, x: nat, ws: seq<word>, i: nat)
    requires i < |ws|
  {
    x + 4 * i + 4 <= KERNBASE && WordAt(m, pg, x + 4 * i) == ws[i]
  }

  /** The words from user address x on. */
  ghost predicate Words(m: Memory, pg: nat, x: nat, ws: seq<word>) {
    forall i: nat {:trigger WordIs(m, pg, x, ws, i)} :: i < |ws| ==> WordIs(m, pg, x, ws, i)
  }

  lemma WordHeld(m: Memory, pg: nat, x: nat, b: seq<byte>, off: nat)
    requires Holds(m, pg, x, b) && off + 4 <= |b|
    ensures WordAt(m, pg, x + off) == Word(b, off)
  {
    BytesHeld(m, pg, x, b);
    BytesPart(m, pg, x, |b|, off, 4);
  }

  lemma WordsHeld(m: Memory, pg: nat, x: nat, ws: seq<word>, b: seq<byte>)
    requires b == Flat(ws) && Holds(m, pg, x, b)
    ensures Words(m, pg, x, ws)
  {
    forall i: nat | i < |ws| ensures WordIs(m, pg, x, ws, i) {
      FlatAt(ws, i);
      WordHeld(m, pg, x, b, 4 * i);
    }
  }

  // ---- the whole stack ----

  /** The words that main is entered with: a return address, argc, argv, and the vector argv points to. */
  function Frame(argc: word, vector: word, at: seq<word>): seq<word> {
    [0xffff_ffff, argc, vector] + at + [0]
  }

  /** The stack image that exec promises.  Everything lies in the stack page [sz - PGSIZE, sz), the frame lowest
      and the arguments above it in reverse order, each at the highest multiple of 4 that leaves it room; argv
      points to the vector of their addresses. */
  ghost predicate Image(m: Memory, pg: nat, sz: nat, sp: nat, argv: seq<seq<byte>>, at: seq<word>) {
    && sz - PGSIZE <= sp && |at| == |argv| && sp + 12 < UINT && |argv| < UINT
    && sp + 4 * (3 + |argv| + 1) == Above(sz, at, |argv|)
    && Words(m, pg, sp, Frame(|argv|, sp + 12, at))
    && forall i: nat {:trigger ImageAt(m, pg, sz, sp, argv, at, i)} :: i < |argv| ==>
         ImageAt(m, pg, sz, sp, argv, at, i)
  }

  /** Where the argument before the i-th begins, or the stack ends. */
  function Above(sz: nat, at: seq<word>, i: nat): nat
    requires i <= |at|
  {
    if i == 0 then sz else at[i - 1]
  }

  ghost predicate ImageAt(m: Memory, pg: nat, sz: nat, sp: nat, argv: seq<seq<byte>>, at: seq<word>, i: nat)
    requires i < |argv| && i < |at|
  {
    && at[i] % 4 == 0 && sp + 4 * (3 + |argv| + 1) <= at[i]
    && Above(sz, at, i) - 3 <= at[i] + |argv[i]| + 1 <= Above(sz, at, i)
    && Holds(m, pg, at[i], argv[i] + [0])
  }

  /** Arguments in place and the frame below them make the image. */
  lemma MakesImage(m: Memory, pg: nat, sz: nat, sp: nat, argv: seq<seq<byte>>, at: seq<word>)
    requires Pushed(m, pg, sz, argv, at, |argv|) && sp == FinalSp(sz, argv)
    requires sz - PGSIZE <= sp && sp + 12 < UINT && |argv| <= MAXARG
    requires Words(m, pg, sp, Frame(|argv|, sp + 12, at))
    ensures Image(m, pg, sz, sp, argv, at)
  {
    forall i: nat | i < |argv| ensures ImageAt(m, pg, sz, sp, argv, at, i) {
      assert ArgAt(m, pg, sz, argv, at, i);
      SpDescends(sz, argv, i + 1, |argv|);
      SpStep(sz, argv, i);
      if i > 0 {
        assert ArgAt(m, pg, sz, argv, at, i - 1);
      }
    }
    assert argv != [] ==> ArgAt(m, pg, sz, argv, at, |argv| - 1);
  }

  lemma FramePushed(m: Memory, m': Memory, own: Uses, pg: nat, sz: nat, sp: nat, argv: seq<seq<byte>>, at: seq<word>,
                    bytes: seq<byte>)
    requires Pushed(m, pg, sz, argv, at, |argv|) && sp == FinalSp(sz, argv) && sz - PGSIZE <= sp
    requires sp + |bytes| <= KERNBASE && |argv| <= MAXARG
    requires sp + 12 < UINT && bytes == Flat(Frame(|argv|, sp + 12, at)) && Written(m, m', own, pg, sp, bytes)
    ensures Image(m', pg, sz, sp, argv, at)
  {
    PushedStay(m, m', own, pg, sz, argv, at, |argv|, sp, bytes);
    HoldsWritten(m, m', own, pg, sp, bytes);
    WordsHeld(m', pg, sp, Frame(|argv|, sp + 12, at), bytes);
    MakesImage(m', pg, sz, sp, argv, at);
  }

  /** The words below the arguments. */
  method PushFrame(k: Physical, pg: nat, sz: nat, argv: seq<seq<byte>>, zero: Entry, at: seq<word>, sp: nat)
    returns (ok: bool, sp': nat)
    requires k.Valid() && pg in k.own && k.own[pg] == Dir && StackReady(k.mem, pg, sz)
    requires Pushed(k.mem, pg, sz, argv, at, |argv|)
    requires |argv| <= MAXARG && sp == Sp(sz, argv, |argv|) && sz - PGSIZE <= sp <= sz
    modifies k
    ensures k.Valid() && k.own == old(k.own) && k.mem[pg] == old(k.mem)[pg]
    ensures sp' == FinalSp(sz, argv) && (ok <==> sp' >= sz - PGSIZE)
    ensures ok ==> StackReady(k.mem, pg, sz) && Image(k.mem, pg, sz, sp', argv, at)
    ensures Spared(old(k.mem), k.own, k.mem, k.own, pg) && (ok ==> SameBelow(old(k.mem), k.mem, pg, sz - PGSIZE))
  {
    var argc := |argv|;
    var ustack := Frame(argc, sp - (argc + 1) * 4, at);
    sp' := sp - (3 + argc + 1) * 4;
    ghost var m := k.mem;
    var bytes := Flat(ustack);
    var astray;
    ok, astray := Push(k, pg, sz, sp', bytes, zero);
    if ok {
      FramePushed(m, k.mem, k.own, pg, sz, sp', argv, at, bytes);
    }
  }

  /** Two more pages end below KERNBASE, and with their tables they can be had. */
  ghost predicate RoomForStack(m: Memory, free: nat, pg: nat, sz0: nat) {
    (Up(sz0) + 2) * PGSIZE < KERNBASE && free >= PagesFor(m, pg, Up(sz0), Up(sz0) + 2)
  }

  /** Everything below page address `hi` is mapped, the last page for the user to write, and the kernel's half is
      private. */
  ghost predicate Grown(m: Memory, pg: nat, hi: nat) {
    && 0 < hi <= KERNVPN && KernelPrivate(m, pg) && Pte(m, pg, hi - 1).flags.u && Pte(m, pg, hi - 1).flags.w
    && forall v: nat :: v < hi && v < KERNVPN ==> Pte(m, pg, v).p
  }

  /** allocuvm of two pages. */
  method TwoPages(k: Physical, pg: nat, sz0: nat) returns (room: bool, sz: nat)
    requires k.Valid() && pg in k.own && k.own[pg] == Dir && sz0 <= KERNBASE
    requires KernelPrivate(k.mem, pg) && forall v: nat :: v < KERNVPN ==> (Pte(k.mem, pg, v).p <==> v < Up(sz0))
    modifies k
    ensures k.Valid() && pg in k.own && k.own[pg] == Dir
    ensures room <==> RoomForStack(old(k.mem), |old(k.chain)|, pg, sz0)
    ensures room ==> sz == (Up(sz0) + 2) * PGSIZE && Grown(k.mem, pg, Up(sz0) + 2)
    ensures room ==> Extended(old(k.mem), k.mem, pg, Up(sz0), Up(sz0) + 2)
    ensures Spared(old(k.mem), old(k.own), k.mem, k.own, pg)
    ensures room ==> SameBelow(old(k.mem), k.mem, pg, Up(sz0) * PGSIZE)
  {
    var base := Up(sz0) * PGSIZE;
    UpPages(Up(sz0));
    UpPages(Up(sz0) + 2);
    ghost var ok, o := false, k.own;
    sz, ok := k.AllocUvm(pg, base, base + 2 * PGSIZE);
    assert ok ==> AddedAt(o, k.own, pg, Up(sz0), Up(sz0) + 2, pg);
    assert !ok ==> GrewAt(o, k.own, pg, pg);
    room := sz != 0;
    SparedByTables(old(k.mem), o, k.mem, k.own, pg, Up(sz0), Up(sz0) + 2);
    if room {
      SameByTables(old(k.mem), o, k.mem, k.own, pg, Up(sz0), Up(sz0) + 2);
      assert ZeroAt(k.mem, pg, Up(sz0)) && ZeroAt(k.mem, pg, Up(sz0) + 1);
      StillPrivate(old(k.mem), k.mem, pg, Up(sz0) + 2);
    }
  }

  /** Two more pages, the lower of which is put out of the user's reach. */
  method GuardedStack(k: Physical, pg: nat, sz0: nat) returns (room: bool, sz: nat)
    requires k.Valid() && pg in k.own && k.own[pg] == Dir && sz0 <= KERNBASE
    requires KernelPrivate(k.mem, pg) && forall v: nat :: v < KERNVPN ==> (Pte(k.mem, pg, v).p <==> v < Up(sz0))
    modifies k
    ensures k.Valid() && pg in k.own && k.own[pg] == Dir
    ensures room ==> sz == (Up(sz0) + 2) * PGSIZE && StackReady(k.mem, pg, sz)
    ensures room <==> RoomForStack(old(k.mem), |old(k.chain)|, pg, sz0)
    ensures room ==> SameKernelTables(old(k.mem), k.mem, pg)
    ensures Spared(old(k.mem), old(k.own), k.mem, k.own, pg)
    ensures room ==> SameBelow(old(k.mem), k.mem, pg, Up(sz0) * PGSIZE)
  {
    room, sz := TwoPages(k, pg, sz0);
    if room {
      ghost var m, o := k.mem, k.own;
      Quotient(Up(sz0), 0);
      TableOf(m, k.own, pg, Up(sz0));
      var _ := ClearPteU(k, pg, (sz - 2 * PGSIZE) / PGSIZE);
      GuardSet(m, k.mem, o, pg, Up(sz0));
      SparedOn(old(k.mem), old(k.own), m, o, k.mem, k.own, pg);
      UserSpan(old(k.mem), m, k.mem, pg, Up(sz0), Up(sz0) + 2);
      StackMade(m, k.mem, k.own, pg, Up(sz0));
    }
  }

  lemma GuardSet(m: Memory, m': Memory, own: Uses, pg: nat, n: nat)
    requires Good(m, own) && pg in own && own[pg] == Dir && n <= KERNVPN && Untouched(m, own, m', own, pg)
    requires forall v: nat :: v < n ==> Pte(m', pg, v) == Pte(m, pg, v)
    ensures Spared(m, own, m', own, pg) && SameBelow(m, m', pg, n * PGSIZE)
  {
    assert Grew(own, own, pg);
    SparedByTables(m, own, m', own, pg, 0, 0);
    SameByTables(m, own, m', own, pg, n, 0);
  }

  lemma SparedByNothing(m: Memory, own: Uses, pg: nat)
    requires Good(m, own)
    ensures Spared(m, own, m, own, pg)
  {
    forall f: nat | f in own ensures SparedAt(m, own, m, own, pg, f) {
      assert PageOk(m, own, f);
    }
  }

  /** The directories have the same tables for the kernel's half. */
  ghost predicate SameKernelTables(m: Memory, m': Memory, pg: nat) {
    forall i: nat {:trigger Tabled(m', pg, i)} ::
      KERNVPN / NENTRIES <= i < NENTRIES ==> (Tabled(m', pg, i) <==> Tabled(m, pg, i))
  }

  lemma UserSpan(m: Memory, m1: Memory, m2: Memory, pg: nat, lo: nat, hi: nat)
    requires Extended(m, m1, pg, lo, hi) && hi <= KERNVPN && pg in m1 && pg in m2 && m2[pg] == m1[pg]
    ensures SameKernelTables(m, m2, pg)
  {
    forall i: nat | KERNVPN / NENTRIES <= i < NENTRIES ensures Tabled(m2, pg, i) <==> Tabled(m, pg, i) {
      assert Tabled(m2, pg, i) <==> Tabled(m1, pg, i);
    }
  }

  lemma UpPages(n: nat)
    ensures Up(n * PGSIZE) == n && n * PGSIZE / PGSIZE == n && n * PGSIZE % PGSIZE == 0
  {
    Quotient(n, PGSIZE - 1);
    Quotient(n, 0);
  }

  lemma StackMade(m: Memory, m': Memory, own: Uses, pg: nat, n: nat)
    requires Good(m', own) && pg in own && own[pg] == Dir && Grown(m, pg, n + 2)
    requires forall w: nat :: w < NVPN ==> Pte(m', pg, w) == if w == n then NoUserBit(Pte(m, pg, n)) else Pte(m, pg, w)
    ensures StackReady(m', pg, (n + 2) * PGSIZE)
  {
    UpPages(n + 2);
    TableOf(m', own, pg, 0);
    forall v: nat | v < n + 2 && v < KERNVPN ensures Tabled(m', pg, v / NENTRIES) {
      TableOf(m', own, pg, v);
      assert Pte(m', pg, v).p;
    }
    assert Accessible(m', pg, n + 1) && !Accessible(m', pg, n);
    StillPrivate(m, m', pg, n + 2);
  }

  lemma StillPrivate(m: Memory, m': Memory, pg: nat, hi: nat)
    requires KernelPrivate(m, pg) && hi <= KERNVPN
    requires forall v: nat :: hi <= v < NVPN ==> Pte(m', pg, v) == Pte(m, pg, v)
    ensures KernelPrivate(m', pg)
  {
    forall v: nat | KERNVPN <= v < NVPN ensures !Accessible(m', pg, v) {
      assert !Accessible(m, pg, v);
    }
  }

  /** exec's last part on a program of sz0 bytes that is already in place: two more pages, the guard, the
      arguments and the frame. */
  method BuildStack(k: Physical, pg: nat, sz0: nat, argv: seq<seq<byte>>, zero: Entry)
    returns (ok: bool, astray: bool, sz: nat, sp: nat, at: seq<word>)
    requires k.Valid() && pg in k.own && k.own[pg] == Dir && sz0 <= KERNBASE
    requires forall i :: 0 <= i < |argv| ==> |argv[i]| < KERNBASE
    requires KernelPrivate(k.mem, pg) && forall v: nat :: v < KERNVPN ==> (Pte(k.mem, pg, v).p <==> v < Up(sz0))
    modifies k
    ensures k.Valid()
    ensures ok <==> && RoomForStack(old(k.mem), |old(k.chain)|, pg, sz0) && |argv| <= 32
                    && FinalSp((Up(sz0) + 2) * PGSIZE, argv) >= (Up(sz0) + 1) * PGSIZE
    ensures ok ==> sz == (Up(sz0) + 2) * PGSIZE
    ensures ok ==> sp == FinalSp(sz, argv) && StackReady(k.mem, pg, sz) && Image(k.mem, pg, sz, sp, argv, at)
    ensures astray <==> && RoomForStack(old(k.mem), |old(k.chain)|, pg, sz0)
                        && Strays(old(k.mem), pg, (Up(sz0) + 2) * PGSIZE, argv) && ForUsers(zero)
    ensures Spared(old(k.mem), old(k.own), k.mem, k.own, pg)
    ensures ok ==> SameBelow(old(k.mem), k.mem, pg, Up(sz0) * PGSIZE)
  {
    var room;
    room, sz := GuardedStack(k, pg, sz0);
    if !room {
      return false, false, 0, 0, [];
    }
    ghost var m, o := k.mem, k.own;
    StraysStay(old(k.mem), m, pg, sz, argv);
    ok, astray, sp, at := PushArgs(k, pg, sz, argv, zero);
    SpDescends(sz, argv, 0, |argv|);
    SparedOn(old(k.mem), old(k.own), m, o, k.mem, k.own, pg);
    if ok {
      ghost var m1 := k.mem;
      ok, sp := PushFrame(k, pg, sz, argv, zero, at, sp);
      SparedOn(old(k.mem), old(k.own), m1, o, k.mem, k.own, pg);
    }
  }

  // ---- arguments that go astray ----

  /** The tables of the kernel's half: one range from KERNBASE on, and the devices. */
  lemma KernelSpans(data: nat, i: nat)
    requires data % PGSIZE == 0 && KERNBASE + EXTMEM < data < KERNBASE + PHYSTOP && i < NENTRIES
    ensures Spanned(KernelMap(data), 4, i) <==> 512 <= i < 568 || 1016 <= i
  {
    var ks := KernelMap(data);
    assert First(ks[0]) == KERNVPN && Last(ks[0]) == KERNVPN + 0xFF;
    assert First(ks[1]) == KERNVPN + 0x100 && Last(ks[1]) == data / PGSIZE - 1;
    assert First(ks[2]) == data / PGSIZE && Last(ks[2]) == KERNVPN + 0xDFFF;
    assert First(ks[3]) == 0xF_E000 && Last(ks[3]) == 0xF_FFFF;
    assert Spanned(ks, 4, i) <==> Spanned(ks, 3, i) || InSpan(First(ks[3]), Last(ks[3]) + 1, i);
    assert Spanned(ks, 3, i) <==> Spanned(ks, 2, i) || InSpan(First(ks[2]), Last(ks[2]) + 1, i);
    assert Spanned(ks, 2, i) <==> Spanned(ks, 1, i) || InSpan(First(ks[1]), Last(ks[1]) + 1, i);
    assert Spanned(ks, 1, i) <==> InSpan(First(ks[0]), Last(ks[0]) + 1, i);
  }

  /** Where the kernel's half is as setupkvm makes it, an argument goes astray exactly if its address wraps to one
      between the end of physical memory and the devices. */
  lemma StraysIff(m: Memory, pg: nat, sz: nat, argv: seq<seq<byte>>, n: nat, data: nat)
    requires data % PGSIZE == 0 && KERNBASE + EXTMEM < data < KERNBASE + PHYSTOP && TabledFor(m, pg, KernelMap(data), 4)
    requires n < |argv| && n < MAXARG && |argv[n]| < KERNBASE && 2 * PGSIZE <= sz <= KERNBASE
    requires sz - PGSIZE <= Sp(sz, argv, n)
    ensures StraysAt(m, pg, sz, argv, n) <==>
              Sp(sz, argv, n + 1) < 0 && KERNBASE + PHYSTOP <= Sp(sz, argv, n + 1) % UINT < DEVSPACE
  {
    SpDescends(sz, argv, 0, n);
    Wrapped(sz, argv, n);
    if Sp(sz, argv, n + 1) < 0 {
      var x := Sp(sz, argv, n + 1) % UINT;
      KernelTable(x);
      KernelSpans(data, x / PGSIZE / NENTRIES);
      assert 568 <= x / PGSIZE / NENTRIES < 1016 <==> KERNBASE + PHYSTOP <= x < DEVSPACE;
    }
  }

  /** And there are such arguments: exec of an empty program with one argument of more than 32 MB, in a directory
      fresh from setupkvm. */
  method LongArgument(k: Physical, data: nat, arg: seq<byte>, zero: Entry) returns (pg: nat, ok: bool, astray: bool)
    requires k.Valid() && data % PGSIZE == 0 && KERNBASE + EXTMEM < data < KERNBASE + PHYSTOP
    requires |k.chain| >= KernelTables(KernelMap(data), 4) + 4
    requires 2 * PGSIZE + 0x200_0000 <= |arg| < 2 * PGSIZE + 0x71FF_FFFC
    modifies k
    ensures pg != 0 && !ok && (astray <==> ForUsers(zero))
  {
    KernelMapOk(data);
    pg := k.SetupKvm(KernelMap(data));
    assert GrewAt(old(k.own)[pg := Dir], k.own, pg, pg);
    NewDirectory(k, pg, data);
    ghost var m := k.mem;
    var sz, sp, at;
    ok, astray, sz, sp, at := BuildStack(k, pg, 0, [arg], zero);
    LongSp(arg);
    StraysIff(m, pg, 2 * PGSIZE, [arg], 0, data);
    assert Sp(2 * PGSIZE, [arg], 1) < 0;
  }

  lemma LongSp(arg: seq<byte>)
    requires 2 * PGSIZE + 0x200_0000 <= |arg| < 2 * PGSIZE + 0x71FF_FFFC
    ensures Sp(2 * PGSIZE, [arg], 0) == 2 * PGSIZE && Sp(2 * PGSIZE, [arg], 1) < 0
    ensures KERNBASE + PHYSTOP <= Sp(2 * PGSIZE, [arg], 1) % UINT < DEVSPACE
  {
    WrapsDown(2 * PGSIZE - (|arg| + 1));
  }

  lemma NewDirectory(k: Physical, pg: nat, data: nat)
    requires data % PGSIZE == 0 && KERNBASE + EXTMEM < data < KERNBASE + PHYSTOP
    requires forall w: nat :: w < NVPN ==> Pte(k.mem, pg, w) == KernelPte(KernelMap(data), 4, w)
    requires TabledFor(k.mem, pg, KernelMap(data), 4) && |k.chain| >= 3
    ensures Up(0) == 0 && KernelPrivate(k.mem, pg) && RoomForStack(k.mem, |k.chain|, pg, 0)
    ensures forall v: nat :: v < KERNVPN ==> !Pte(k.mem, pg, v).p
  {
    KernelMapOk(data);
    KernelHalfPrivate(k.mem, pg, data);
    forall v: nat | v < KERNVPN ensures !Pte(k.mem, pg, v).p {
      NoKernelPte(KernelMap(data), 4, v);
    }
    assert NewTables(k.mem, pg, 0, 1) <= 1 && NewTables(k.mem, pg, 0, 2) == NewTables(k.mem, pg, 0, 1);
  }

  // ---- reading it back ----

  /** The string at user address x is s: its bytes, none of them zero, and then a zero. */
  ghost predicate StringAt(m: Memory, pg: nat, x: nat, s: seq<byte>) {
    x + |s| < KERNBASE && BytesAt(m, pg, x, |s| + 1) == s + [0] && 0 !in s
  }

  /** Only one string can be read at an address. */
  lemma OneString(m: Memory, pg: nat, x: nat, s: seq<byte>, t: seq<byte>)
    requires StringAt(m, pg, x, s) && StringAt(m, pg, x, t) && |s| <= |t|
    ensures s == t
  {
    var a, b := BytesAt(m, pg, x, |s| + 1), BytesAt(m, pg, x, |t| + 1);
    BytesPart(m, pg, x, |t| + 1, 0, |s| + 1);
    assert a == b[0..|s| + 1] && b == t + [0] && a == s + [0];
    assert b[|s|] == a[|s|] == 0 && (t + [0])[|s|] == 0;
    assert s == a[..|s|] == b[..|s|];
  }

  lemma FrameWord(m: Memory, pg: nat, sp: nat, ws: seq<word>, i: nat, x: nat)
    requires Words(m, pg, sp, ws) && i < |ws| && x == sp + 4 * i
    ensures x + 4 <= KERNBASE && WordAt(m, pg, x) == ws[i]
  {
    assert WordIs(m, pg, sp, ws, i);
  }

  lemma ArgString(m: Memory, pg: nat, sz: nat, sp: nat, argv: seq<seq<byte>>, at: seq<word>, i: nat)
    requires Image(m, pg, sz, sp, argv, at) && i < |argv| && 0 !in argv[i]
    ensures StringAt(m, pg, at[i], argv[i])
  {
    assert ImageAt(m, pg, sz, sp, argv, at, i);
    BytesHeld(m, pg, at[i], argv[i] + [0]);
  }

  /** What main sees: a return address that faults, argc at sp + 4, and argv, at sp + 8, that points to sp + 12. */
  lemma ReadArgc(m: Memory, pg: nat, sz: nat, sp: nat, argv: seq<seq<byte>>, at: seq<word>)
    requires Image(m, pg, sz, sp, argv, at)
    ensures sp + 12 <= KERNBASE && WordAt(m, pg, sp) == 0xffff_ffff
    ensures WordAt(m, pg, sp + 4) == |argv| && WordAt(m, pg, sp + 8) == sp + 12
  {
    ArgcWord(m, pg, sz, sp, argv, at, 0, sp);
    ArgcWord(m, pg, sz, sp, argv, at, 1, sp + 4);
    ArgcWord(m, pg, sz, sp, argv, at, 2, sp + 8);
  }

  lemma ArgcWord(m: Memory, pg: nat, sz: nat, sp: nat, argv: seq<seq<byte>>, at: seq<word>, i: nat, x: nat)
    requires Image(m, pg, sz, sp, argv, at) && i < 3 && x == sp + 4 * i
    ensures x + 4 <= KERNBASE
    ensures WordAt(m, pg, x) == if i == 0 then 0xffff_ffff else if i == 1 then |argv| else sp + 12
  {
    FrameWord(m, pg, sp, Frame(|argv|, sp + 12, at), i, x);
  }

  /** argv[i] points to the i-th argument that exec was given, and argv[argc] is null. */
  lemma ReadArgv(m: Memory, pg: nat, sz: nat, sp: nat, argv: seq<seq<byte>>, at: seq<word>, i: nat)
    requires Image(m, pg, sz, sp, argv, at) && i <= |argv| && (i < |argv| ==> 0 !in argv[i])
    ensures sp + 12 + 4 * i + 4 <= KERNBASE
    ensures var arg := WordAt(m, pg, sp + 12 + 4 * i); if i < |argv| then StringAt(m, pg, arg, argv[i]) else arg == 0
  {
    var ws := Frame(|argv|, sp + 12, at);
    FrameWord(m, pg, sp, ws, 3 + i, sp + 12 + 4 * i);
    if i < |argv| {
      ArgString(m, pg, sz, sp, argv, at, i);
    }
  }
}
