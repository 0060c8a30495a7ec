/** Directories (system/storage/fs.c): a file of 16-byte entries, read and written through readi and writei.
    Names are C strings without their terminator; only their first DIRSIZ characters count. */
module Directory {
  import opened Params
  import opened Bytes
  import opened FsLayout
  import opened FsVolume
  import opened Fs
  import opened Sets

  const DIRSIZ: nat := 14
  const ENTRY: nat := 16

  // ---- names ----

  /** The characters of s before the first zero, n at most. */
  function Upto(s: seq<byte>, n: nat): (k: seq<byte>)
    ensures |k| <= n && |k| <= |s| && k == s[..|k|] && 0 !in k && (|k| == n || |k| == |s| || s[|k|] == 0)
  {
    if n == 0 || s == [] || s[0] == 0 then [] else [s[0]] + Upto(s[1..], n - 1)
  }

  /** What a directory can tell names apart by. */
  function Key(name: seq<byte>): seq<byte> {
    Upto(name, DIRSIZ)
  }

  function At(s: seq<byte>, i: nat): byte {
    if i < |s| then s[i] else 0
  }

  /** namecmp(s, t) == 0 */
  method NameEq(s: seq<byte>, t: seq<byte>) returns (r: bool)
    ensures r <==> Upto(s, 14) == Upto(t, 14)
  {
    var i := 0;
    while i < DIRSIZ && At(s, i) != 0 && At(s, i) == At(t, i)
      invariant i <= DIRSIZ && i <= |s| && i <= |t| && s[..i] == t[..i] && 0 !in s[..i]
    {
      assert s[..i + 1] == s[..i] + [s[i]] && t[..i + 1] == t[..i] + [t[i]];
      i := i + 1;
    }
    r := i == DIRSIZ || At(s, i) == At(t, i);
    Prefix(s, i);
    Prefix(t, i);
    DifferAt(s, t, i);
  }

  /** A name without zeros in its first i characters has them in its key. */
  lemma Prefix(s: seq<byte>, i: nat)
    requires i <= DIRSIZ && i <= |s| && 0 !in s[..i]
    ensures |Key(s)| >= i && Key(s)[..i] == s[..i] && (i < DIRSIZ && At(s, i) == 0 ==> |Key(s)| == i)
    ensures i < DIRSIZ && At(s, i) != 0 ==> |Key(s)| > i && Key(s)[i] == s[i]
  {
    var k := Key(s);
    assert forall j :: 0 <= j < i ==> s[j] == s[..i][j] && s[j] in s[..i];
    assert k == s[..|k|];
    assert i < |k| ==> k[i] in k;
  }

  lemma DifferAt(s: seq<byte>, t: seq<byte>, i: nat)
    requires i <= DIRSIZ && |Key(s)| >= i && |Key(t)| >= i && Key(s)[..i] == Key(t)[..i]
    requires i < DIRSIZ ==> (At(s, i) == 0 ==> |Key(s)| == i)
    requires i < DIRSIZ ==> (At(s, i) != 0 ==> |Key(s)| > i && Key(s)[i] == At(s, i))
    requires i < DIRSIZ ==> (At(t, i) == 0 ==> |Key(t)| == i)
    requires i < DIRSIZ ==> (At(t, i) != 0 ==> |Key(t)| > i && Key(t)[i] == At(t, i))
    requires i < DIRSIZ ==> At(s, i) == 0 || At(s, i) != At(t, i)
    ensures Key(s) == Key(t) <==> i == DIRSIZ || At(s, i) == At(t, i)
  {
    assert i == DIRSIZ ==> Key(s) == Key(s)[..i] && Key(t) == Key(t)[..i];
    assert |Key(s)| == i ==> Key(s) == Key(s)[..i];
    assert |Key(t)| == i ==> Key(t) == Key(t)[..i];
  }

  /** strncpy into the name of an entry. */
  function Field(name: seq<byte>): (f: seq<byte>)
    ensures |f| == DIRSIZ
  {
    Key(name) + seq<byte>(DIRSIZ - |Key(name)|, _ => 0)
  }

  lemma FieldKey(name: seq<byte>)
    ensures Key(Field(name)) == Key(name)
  {
    var k, f := Key(name), Field(name);
    assert f[..|k|] == k;
    Prefix(f, |k|);
    assert |k| < DIRSIZ ==> At(f, |k|) == 0;
    assert |k| == DIRSIZ ==> Key(f) == Key(f)[..|k|];
  }

  // ---- entries ----

  type Inum = x: int | 0 <= x < 0x1_0000

  function Slots(c: seq<byte>): nat {
    |c| / ENTRY
  }

  function InumAt(c: seq<byte>, k: nat): Inum
    requires k < Slots(c)
  {
    c[k * ENTRY] as int + 0x100 * (c[k * ENTRY + 1] as int)
  }

  function FieldAt(c: seq<byte>, k: nat): seq<byte>
    requires k < Slots(c)
  {
    c[k * ENTRY + 2..k * ENTRY + ENTRY]
  }

  predicate Matches(c: seq<byte>, k: nat, key: seq<byte>)
    requires k < Slots(c)
  {
    InumAt(c, k) != 0 && Key(FieldAt(c, k)) == key
  }

  /** The first entry from k on with this name, or the number of slots. */
  function Find(c: seq<byte>, key: seq<byte>, k: nat): (r: nat)
    requires k <= Slots(c)
    ensures k <= r <= Slots(c) && (r < Slots(c) ==> Matches(c, r, key))
    ensures forall i :: k <= i < r ==> !Matches(c, i, key)
    decreases Slots(c) - k
  {
    if k == Slots(c) || Matches(c, k, key) then k else Find(c, key, k + 1)
  }

  /** The first free entry from k on, or the number of slots. */
  function FirstFree(c: seq<byte>, k: nat): (r: nat)
    requires k <= Slots(c)
    ensures k <= r <= Slots(c) && (r < Slots(c) ==> InumAt(c, r) == 0)
    ensures forall i :: k <= i < r ==> InumAt(c, i) != 0
    decreases Slots(c) - k
  {
    if k == Slots(c) || InumAt(c, k) == 0 then k else FirstFree(c, k + 1)
  }

  /** The directory as a map from names: 0 for a name that is not there. */
  function Lookup(c: seq<byte>, key: seq<byte>): Inum {
    var k := Find(c, key, 0);
    if k < Slots(c) then InumAt(c, k) else 0
  }

  function Entry(inum: Inum, name: seq<byte>): (e: seq<byte>)
    ensures |e| == ENTRY
  {
    [inum % 0x100, inum / 0x100] + Field(name)
  }

  /** An entry is 16 bytes: the inode number, low byte first, and up to 14 characters of the name, then zeros. */
  lemma EntryFormat(inum: Inum, name: seq<byte>, i: nat)
    requires i < 16
    ensures var e := Entry(inum, name);
            |e| == 16 && e[i] == if i == 0 then inum % 256 else if i == 1 then inum / 256 else At(Upto(name, 14), i - 2)
  {
  }

  /** dirlink's effect on the bytes. */
  function LinkAt(c: seq<byte>, k: nat, inum: Inum, name: seq<byte>): seq<byte>
    requires k <= Slots(c)
  {
    Splice(c, k * ENTRY, Entry(inum, name))
  }

  predicate WellFormed(c: seq<byte>) {
    |c| % ENTRY == 0
  }

  /** No name has two entries. */
  ghost predicate Unique(c: seq<byte>) {
    forall i, j :: 0 <= i < j < Slots(c) && InumAt(c, i) != 0 && InumAt(c, j) != 0 ==>
        Key(FieldAt(c, i)) != Key(FieldAt(c, j))
  }

  lemma LinkSlots(c: seq<byte>, k: nat, inum: Inum, name: seq<byte>, i: nat)
    requires WellFormed(c) && k <= Slots(c)
    ensures var c' := LinkAt(c, k, inum, name);
      && WellFormed(c') && Slots(c') == (if k == Slots(c) then k + 1 else Slots(c))
      && (i < Slots(c') && i != k ==> InumAt(c', i) == InumAt(c, i) && FieldAt(c', i) == FieldAt(c, i))
      && InumAt(c', k) == inum && Key(FieldAt(c', k)) == Key(name)
  {
    var c', n := LinkAt(c, k, inum, name), Slots(c);
    assert |c| == n * ENTRY;
    assert k < n ==> k * ENTRY + ENTRY <= n * ENTRY;
    assert |c'| == (if k == n then n + 1 else n) * ENTRY;
    assert FieldAt(c', k) == Field(name);
    FieldKey(name);
    if i < Slots(c') && i != k {
      assert i < n && (i + 1) * ENTRY <= n * ENTRY;
      SlotsApart(i, k);
      SpliceApart(c, k * ENTRY, Entry(inum, name), i * ENTRY, i * ENTRY + 2);
      SpliceApart(c, k * ENTRY, Entry(inum, name), i * ENTRY + 2, i * ENTRY + ENTRY);
      assert c'[i * ENTRY..i * ENTRY + 2][0] == c'[i * ENTRY] && c'[i * ENTRY..i * ENTRY + 2][1] == c'[i * ENTRY + 1];
    }
  }

  /** Bytes beside a splice stay what they were. */
  lemma SpliceApart(c: seq<byte>, at: nat, e: seq<byte>, lo: nat, hi: nat)
    requires at <= |c| && lo <= hi <= |c| && (hi <= at || at + |e| <= lo)
    ensures |Splice(c, at, e)| >= |c| && Splice(c, at, e)[lo..hi] == c[lo..hi]
  {
    var d := Splice(c, at, e);
    forall p | lo <= p < hi ensures d[p] == c[p] {
      if at + |e| <= lo {
        assert d[p] == c[at + |e|..][p - (at + |e|)];
      }
    }
  }

  lemma SlotsApart(i: nat, k: nat)
    requires i != k
    ensures i * ENTRY + ENTRY <= k * ENTRY || k * ENTRY + ENTRY <= i * ENTRY
  {
  }

  /** The first match is what Find gives. */
  lemma FindIs(c: seq<byte>, key: seq<byte>, r: nat)
    requires r <= Slots(c) && (r < Slots(c) ==> Matches(c, r, key)) && forall i :: 0 <= i < r ==> !Matches(c, i, key)
    ensures Find(c, key, 0) == r
  {
  }

  /** After dirlink the name leads to the inode, and every other name leads where it did. */
  lemma LinkLookup(c: seq<byte>, inum: Inum, name: seq<byte>, key: seq<byte>)
    requires WellFormed(c) && inum != 0 && Lookup(c, Key(name)) == 0
    ensures Lookup(LinkAt(c, FirstFree(c, 0), inum, name), key) == if key == Key(name) then inum else Lookup(c, key)
  {
    var k := FirstFree(c, 0);
    var c', was := LinkAt(c, k, inum, name), Find(c, key, 0);
    forall i: nat | i < Slots(c') ensures i != k ==> Matches(c', i, key) == Matches(c, i, key) {
      LinkSlots(c, k, inum, name, i);
    }
    LinkSlots(c, k, inum, name, k);
    assert Matches(c', k, key) <==> key == Key(name);
    var r := if key == Key(name) then k else if was < Slots(c) then was else Slots(c');
    forall i | 0 <= i < r ensures !Matches(c', i, key) {
      assert i != k && i < Slots(c) ==> Matches(c', i, key) == Matches(c, i, key);
      assert i < was ==> !Matches(c, i, key);
    }
    FindIs(c', key, r);
    if r < Slots(c') && r != k {
      LinkSlots(c, k, inum, name, r);
    }
  }

  lemma LinkUnique(c: seq<byte>, inum: Inum, name: seq<byte>)
    requires WellFormed(c) && inum != 0 && Lookup(c, Key(name)) == 0 && Unique(c)
    ensures Unique(LinkAt(c, FirstFree(c, 0), inum, name))
  {
    var k := FirstFree(c, 0);
    var c' := LinkAt(c, k, inum, name);
    assert Find(c, Key(name), 0) == Slots(c);
    LinkSlots(c, k, inum, name, k);
    forall i, j | 0 <= i < j < Slots(c') && InumAt(c', i) != 0 && InumAt(c', j) != 0
      ensures Key(FieldAt(c', i)) != Key(FieldAt(c', j))
    {
      LinkSlots(c, k, inum, name, i);
      LinkSlots(c, k, inum, name, j);
      assert i != k ==> !Matches(c, i, Key(name));
      assert j != k ==> !Matches(c, j, Key(name));
    }
  }

  // ---- dirlookup and dirlink ----

  ghost predicate IsDir(fs: FileSystem, dp: Inode)
    reads fs, dp
  {
    Settled(fs.Volume()) && dp.inum < fs.sb.ninodes && fs.inodes[dp.inum] == dp.d && dp.d.size % ENTRY == 0
  }

  /** The directory's bytes. */
  ghost function Listing(fs: FileSystem, dp: Inode): (c: seq<byte>)
    requires IsDir(fs, dp)
    reads fs, dp
    ensures |c| == dp.d.size && WellFormed(c)
  {
    assert SizeOk(fs.Volume(), dp.inum);
    Content(fs.Volume(), dp.inum)
  }

  /** One entry, as dirlookup and dirlink read it. */
  method ReadEntry(fs: FileSystem, dp: Inode, k: nat) returns (inum: Inum, field: seq<byte>)
    requires IsDir(fs, dp) && k * ENTRY < dp.d.size
    modifies fs, dp`d
    ensures IsDir(fs, dp) && fs.Volume() == old(fs.Volume()) && fs.logged == old(fs.logged) && dp.d == old(dp.d)
    ensures k < Slots(Listing(fs, dp)) && inum == InumAt(Listing(fs, dp), k) && field == FieldAt(Listing(fs, dp), k)
  {
    Whole(k, dp.d.size);
    SizeBound(fs.Volume(), dp.inum);
    var r, de := fs.Readi(dp, k * ENTRY, ENTRY);
    inum, field := de[0] as int + 0x100 * (de[1] as int), de[2..];
  }

  lemma Whole(k: nat, size: nat)
    requires k * ENTRY < size && size % ENTRY == 0
    ensures k * ENTRY + ENTRY <= size && k < size / ENTRY
  {
  }

  /** dirlookup: the inode number of the first entry of that name, 0 if there is none, and where it is. */
  method DirLookup(fs: FileSystem, dp: Inode, name: seq<byte>) returns (inum: Inum, poff: nat)
    requires IsDir(fs, dp)
    modifies fs, dp`d
    ensures IsDir(fs, dp) && fs.Volume() == old(fs.Volume()) && fs.logged == old(fs.logged) && dp.d == old(dp.d)
    ensures inum == Lookup(Listing(fs, dp), Key(name))
    ensures inum != 0 ==> poff == Find(Listing(fs, dp), Key(name), 0) * ENTRY
  {
    ghost var c := Listing(fs, dp);
    var k := 0;
    while k * ENTRY < dp.d.size
      invariant IsDir(fs, dp) && fs.Volume() == old(fs.Volume()) && fs.logged == old(fs.logged) && dp.d == old(dp.d)
      invariant k <= Slots(c) && Find(c, Key(name), 0) == Find(c, Key(name), k)
      decreases dp.d.size - k * ENTRY
    {
      var field;
      inum, field := ReadEntry(fs, dp, k);
      if inum != 0 {
        var same := NameEq(name, field);
        if same {
          return inum, k * ENTRY;
        }
      }
      k := k + 1;
    }
    return 0, 0;
  }

  /** dirlink's search for a free entry. */
  method FindSlot(fs: FileSystem, dp: Inode) returns (k: nat)
    requires IsDir(fs, dp)
    modifies fs, dp`d
    ensures IsDir(fs, dp) && fs.Volume() == old(fs.Volume()) && fs.logged == old(fs.logged) && dp.d == old(dp.d)
    ensures k == FirstFree(Listing(fs, dp), 0)
  {
    ghost var c := Listing(fs, dp);
    k := 0;
    while k * ENTRY < dp.d.size
      invariant IsDir(fs, dp) && fs.Volume() == old(fs.Volume()) && fs.logged == old(fs.logged) && dp.d == old(dp.d)
      invariant k <= Slots(c) && FirstFree(c, 0) == FirstFree(c, k)
      decreases dp.d.size - k * ENTRY
    {
      var inum, _ := ReadEntry(fs, dp, k);
      if inum == 0 {
        return;
      }
      k := k + 1;
    }
  }

  /** Slot k exists, or the directory may grow by one entry and there are blocks for that. */
  ghost predicate SlotToBeHad(v: Vol, size: nat, k: nat) {
    (k + 1) * ENTRY <= size || ((k + 1) * ENTRY <= MAXFILE * BSIZE && Affords(v, size, k * ENTRY, ENTRY))
  }

  lemma SlotIff(v: Vol, size: nat, k: nat)
    requires k * ENTRY <= size <= MAXFILE * BSIZE
    ensures SlotToBeHad(v, size, k) <==> !BadWrite(size, k * ENTRY, ENTRY) && Affords(v, size, k * ENTRY, ENTRY)
  {
  }

  /** dirlink's write of the entry into slot k.  `ok` is false where the code panics: the directory is as large
      as a file can be, or balloc found no block. */
  method WriteEntry(fs: FileSystem, dp: Inode, k: nat, name: seq<byte>, inum: Inum) returns (ok: bool)
    requires IsDir(fs, dp) && k <= Slots(Listing(fs, dp))
    modifies fs, dp`d
    ensures ok ==> IsDir(fs, dp) && Listing(fs, dp) == LinkAt(old(Listing(fs, dp)), k, inum, name)
    ensures ok ==> forall j: nat :: j < fs.sb.ninodes && j != dp.inum ==> SameFile(old(fs.Volume()), fs.Volume(), j)
    ensures ok ==> dp.d == old(dp.d).(addrs := dp.d.addrs, size := dp.d.size)
    ensures ok <==> SlotToBeHad(old(fs.Volume()), old(dp.d.size), k)
    ensures ok ==> |fs.logged| <= |old(fs.logged)| + LogBound(k * ENTRY, ENTRY)
    ensures Tracked(fs.sb, old(fs.blocks), old(fs.logged), fs.blocks, fs.logged)
  {
    ghost var c, v := Listing(fs, dp), fs.Volume();
    SizeBound(v, dp.inum);
    assert SizeOk(v, dp.inum);
    SlotIff(v, dp.d.size, k);
    var r;
    ghost var added;
    ok, r, added := fs.Writei(dp, Entry(inum, name), k * ENTRY);
    if !ok || r == -1 {
      return false;
    }
    NoMore(fs.logged, old(fs.logged) + added);
    Together(old(fs.logged), added);
    LinkSlots(c, k, inum, name, k);
    assert SizeOk(fs.Volume(), dp.inum);
    assert Content(fs.Volume(), dp.inum) == LinkAt(c, k, inum, name);
  }

  /** The directory is `was` with a new entry for the name. */
  ghost predicate LinkedTo(was: seq<byte>, now: seq<byte>, name: seq<byte>, inum: Inum) {
    && (forall key :: Lookup(now, key) == if key == Key(name) then inum else Lookup(was, key))
    && (Unique(was) ==> Unique(now))
  }

  lemma Links(c: seq<byte>, inum: Inum, name: seq<byte>)
    requires WellFormed(c) && inum != 0 && Lookup(c, Key(name)) == 0
    ensures LinkedTo(c, LinkAt(c, FirstFree(c, 0), inum, name), name, inum)
  {
    forall key
      ensures Lookup(LinkAt(c, FirstFree(c, 0), inum, name), key) == if key == Key(name) then inum else Lookup(c, key)
    {
      LinkLookup(c, inum, name, key);
    }
    if Unique(c) {
      LinkUnique(c, inum, name);
    }
  }

  /** dirlink: -1 if the name is taken; else the name leads to the inode, every other name where it did, and
      names stay unique. */
  method DirLink(fs: FileSystem, dp: Inode, name: seq<byte>, inum: Inum) returns (ok: bool, r: int)
    requires IsDir(fs, dp) && inum != 0
    modifies fs, dp`d
    ensures ok ==> IsDir(fs, dp) && r == if Lookup(old(Listing(fs, dp)), Key(name)) != 0 then -1 else 0
    ensures ok && r == -1 ==> fs.Volume() == old(fs.Volume())
    ensures ok && r == 0 ==> LinkedTo(old(Listing(fs, dp)), Listing(fs, dp), name, inum)
    ensures ok && r == 0 ==> forall j: nat :: j < fs.sb.ninodes && j != dp.inum ==>
              SameFile(old(fs.Volume()), fs.Volume(), j)
    ensures ok ==> dp.d == old(dp.d).(addrs := dp.d.addrs, size := dp.d.size)
    ensures ok <==> || Lookup(old(Listing(fs, dp)), Key(name)) != 0
                    || SlotToBeHad(old(fs.Volume()), old(dp.d.size), FirstFree(old(Listing(fs, dp)), 0))
    ensures ok ==> |fs.logged| <= |old(fs.logged)| + LogBound(FirstFree(old(Listing(fs, dp)), 0) * ENTRY, ENTRY)
    ensures Tracked(fs.sb, old(fs.blocks), old(fs.logged), fs.blocks, fs.logged)
  {
    TrackedNone(fs.sb, fs.blocks, fs.logged);
    var there, _ := DirLookup(fs, dp, name);
    if there != 0 {
      return true, -1;
    }
    var k := FindSlot(fs, dp);
    Links(Listing(fs, dp), inum, name);
    r := 0;
    ok := WriteEntry(fs, dp, k, name, inum);
  }
}
