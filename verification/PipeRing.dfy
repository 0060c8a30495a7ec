/** A pipe's ring buffer (system/core/pipe.c): PIPESIZE bytes and two 32-bit counters that only ever count
    up and wrap.  It refines a queue: the bytes written so far, of which a prefix has been read. */
module PipeRing {
  import opened Bytes
  import opened Params

  const PIPESIZE: nat := 512

  datatype Ring = Ring(data: seq<byte>, nread: nat, nwrite: nat)

  predicate Empty(r: Ring) {
    r.nread == r.nwrite
  }

  predicate Full(r: Ring) {
    r.nwrite == (r.nread + PIPESIZE) % UINT
  }

  function Put(r: Ring, b: byte): Ring
    requires |r.data| == PIPESIZE
  {
    Ring(r.data[r.nwrite % PIPESIZE := b], r.nread, (r.nwrite + 1) % UINT)
  }

  /** Byte i of everything ever written, while it is still in the buffer. */
  predicate SlotHolds(r: Ring, wrote: seq<byte>, i: nat)
    requires |r.data| == PIPESIZE && i < |wrote|
  {
    r.data[i % PIPESIZE] == wrote[i]
  }

  /** The ring holds what is left of `wrote` once its first `got` bytes have been read. */
  ghost predicate Holds(r: Ring, wrote: seq<byte>, got: nat) {
    && |r.data| == PIPESIZE && r.nread == got % UINT && r.nwrite == |wrote| % UINT
    && got <= |wrote| <= got + PIPESIZE
    && forall i: nat :: got <= i < |wrote| ==> SlotHolds(r, wrote, i)
  }

  /** The counters tell empty and full apart, also after they have wrapped. */
  lemma Counters(r: Ring, wrote: seq<byte>, got: nat)
    requires Holds(r, wrote, got)
    ensures Empty(r) <==> |wrote| == got
    ensures Full(r) <==> |wrote| == got + PIPESIZE
    ensures r.nread % PIPESIZE == got % PIPESIZE && r.nwrite % PIPESIZE == |wrote| % PIPESIZE
  {
    SameWrap(got, |wrote|);
    SameWrap(|wrote|, got + PIPESIZE);
    WrapAdd(got, PIPESIZE);
    WrapSlot(got);
    WrapSlot(|wrote|);
  }

  lemma SameWrap(x: nat, y: nat)
    requires x <= y < x + UINT
    ensures x % UINT == y % UINT <==> x == y
  {
  }

  lemma WrapAdd(x: nat, k: nat)
    ensures (x % UINT + k) % UINT == (x + k) % UINT
  {
  }

  /** PIPESIZE divides the number of counter values, so wrapping does not move a slot. */
  lemma WrapSlot(x: nat)
    ensures x % UINT % PIPESIZE == x % PIPESIZE
  {
    assert UINT == PIPESIZE * 0x80_0000;
    assert x == (x / UINT) * (PIPESIZE * 0x80_0000) + x % UINT;
  }

  lemma PutHolds(r: Ring, wrote: seq<byte>, got: nat, b: byte)
    requires Holds(r, wrote, got) && !Full(r)
    ensures Holds(Put(r, b), wrote + [b], got)
  {
    Counters(r, wrote, got);
    WrapAdd(|wrote|, 1);
    var r', wrote' := Put(r, b), wrote + [b];
    forall i: nat | got <= i < |wrote'| ensures SlotHolds(r', wrote', i) {
      assert i < |wrote| ==> SlotHolds(r, wrote, i);
      DistinctSlots(got, |wrote|, i);
    }
  }

  /** No two of the bytes in the buffer share a slot. */
  lemma DistinctSlots(got: nat, n: nat, i: nat)
    requires got <= i <= n < got + PIPESIZE
    ensures i % PIPESIZE == n % PIPESIZE ==> i == n
  {
  }

  lemma GetHolds(r: Ring, wrote: seq<byte>, got: nat)
    requires Holds(r, wrote, got) && !Empty(r)
    ensures got < |wrote| && r.data[r.nread % PIPESIZE] == wrote[got]
    ensures Holds(r.(nread := (r.nread + 1) % UINT), wrote, got + 1)
  {
    Counters(r, wrote, got);
    WrapAdd(got, 1);
    assert SlotHolds(r, wrote, got);
    var r' := r.(nread := (r.nread + 1) % UINT);
    forall i: nat | got + 1 <= i < |wrote| ensures SlotHolds(r', wrote, i) {
      assert SlotHolds(r, wrote, i);
    }
  }

  /** struct pipe's buffer, with the copy loops of pipewrite and piperead. */
  class Buffer {
    var data: array<byte>
    var nread: word
    var nwrite: word
    ghost var wrote: seq<byte>  // every byte ever written
    ghost var got: nat          // how many of them have been read

    ghost function Value(): Ring
      reads this, data
    {
      Ring(data[..], nread, nwrite)
    }

    ghost predicate Valid()
      reads this, data
    {
      data.Length == PIPESIZE && Holds(Value(), wrote, got)
    }

    /** pipealloc */
    constructor ()
      ensures Valid() && wrote == [] && got == 0 && fresh(data)
    {
      data := new byte[PIPESIZE];
      nread, nwrite, wrote, got := 0, 0, [], 0;
    }

    /** pipewrite's copying, from byte i on, up to the end of `src` or a full buffer. */
    method Fill(src: seq<byte>, i: nat) returns (j: nat)
      requires Valid() && i <= |src|
      modifies this, data
      ensures Valid() && data == old(data) && got == old(got)
      ensures i <= j <= |src| && wrote == old(wrote) + src[i..j]
      ensures j == |src| || |wrote| == got + PIPESIZE
    {
      j := i;
      while j < |src| && nwrite != (nread + PIPESIZE) % UINT
        invariant Valid() && data == old(data) && got == old(got)
        invariant i <= j <= |src| && wrote == old(wrote) + src[i..j]
      {
        PutHolds(Value(), wrote, got, src[j]);
        ghost var next := Put(Value(), src[j]);
        data[nwrite % PIPESIZE] := src[j];
        nwrite := (nwrite + 1) % UINT;
        wrote := wrote + [src[j]];
        assert Value() == next;
        j := j + 1;
      }
      Counters(Value(), wrote, got);
    }

    /** piperead's copying: the n oldest unread bytes, or all there are. */
    method Drain(n: nat) returns (bytes: seq<byte>)
      requires Valid()
      modifies this
      ensures Valid() && data == old(data) && wrote == old(wrote)
      ensures got == old(got) + |bytes| <= |wrote| && bytes == wrote[old(got)..got]
      ensures |bytes| == if n <= |wrote| - old(got) then n else |wrote| - old(got)
    {
      bytes := [];
      Counters(Value(), wrote, got);
      while |bytes| < n && nread != nwrite
        invariant Valid() && data == old(data) && wrote == old(wrote)
        invariant got == old(got) + |bytes| <= |wrote| && bytes == wrote[old(got)..got] && |bytes| <= n
        invariant nread == nwrite <==> got == |wrote|
        decreases n - |bytes|
      {
        GetHolds(Value(), wrote, got);
        bytes := bytes + [data[nread % PIPESIZE]];
        nread := (nread + 1) % UINT;
        got := got + 1;
        Counters(Value(), wrote, got);
      }
    }
  }
}
