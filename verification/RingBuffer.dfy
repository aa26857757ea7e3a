/** The ring buffer that captures the tail of a container's log stream. */
module RingBuffers {
  import opened Seqs
  import opened Text

  /** The slot `i` steps after `start` in a ring of `n`. */
  function Slot(start: nat, i: nat, n: nat): (k: nat)
    requires start < n && i <= n
    ensures k < n
  {
    if start + i < n then start + i else start + i - n
  }

  method SlotByMod(start: nat, i: nat, n: nat) returns (k: nat)
    requires start < n && i <= n
    ensures k == Slot(start, i, n)
  {
    k := (start + i) % n;
    ghost var q := (start + i) / n;
    assert start + i == q * n + k;
    assert q >= 2 ==> q * n >= 2 * n;
    assert q == 0 || q == 1;
  }

  /** The `length` elements of ring `a` from `start` on. */
  function Ring(a: seq<Byte>, start: nat, length: nat): (s: seq<Byte>)
    requires length <= |a| && (a != [] ==> start < |a|)
    ensures |s| == length
    ensures forall i :: 0 <= i < length ==> s[i] == a[Slot(start, i, |a|)]
  {
    seq(length, i requires 0 <= i < length => a[Slot(start, i, |a|)])
  }

  lemma RingIsSlices(a: seq<Byte>, start: nat, length: nat)
    requires length <= |a| && start < |a|
    ensures Ring(a, start, length) ==
            if start + length <= |a| then a[start..start + length] else a[start..] + a[..start + length - |a|]
  {}

  /** Writing behind the last element of a ring that is not full adds it. */
  lemma RingPush(a: seq<Byte>, start: nat, length: nat, b: Byte)
    requires length < |a| && start < |a|
    ensures Ring(a[Slot(start, length, |a|) := b], start, length + 1) == Ring(a, start, length) + [b]
  {}

  /** Writing over the first element of a full ring drops it and adds the new one. */
  lemma RingRotate(a: seq<Byte>, start: nat, b: Byte)
    requires start < |a|
    ensures Ring(a[start := b], Slot(start, 1, |a|), |a|) == Ring(a, start, |a|)[1..] + [b]
  {}

  lemma LastOfNext(before: seq<Byte>, p: seq<Byte>, i: nat, n: nat)
    requires i < |p|
    ensures Last(Last(before + p[..i], n) + [p[i]], n) == Last(before + p[..i + 1], n)
  {
    LastOfAppend(before + p[..i], [p[i]], n);
    assert before + p[..i] + [p[i]] == before + p[..i + 1];
  }

  class RingBuffer {
    const size: nat
    var buf: array?<Byte>
    var start: nat
    var length: nat

    ghost predicate Valid()
      reads this
    {
      && (buf == null ==> start == 0 && length == 0)
      && (buf != null ==> size > 0 && buf.Length == size && start < size && length <= size)
    }

    /** What the buffer holds, oldest byte first. */
    ghost function Contents(): (s: seq<Byte>)
      requires Valid()
      reads this, buf
      ensures |s| == length <= size
    {
      if buf == null then [] else Ring(buf[..], start, length)
    }

    constructor (size: int)
      ensures Valid() && buf == null && Contents() == [] && this.size == if size < 0 then 0 else size
    {
      this.size := if size < 0 then 0 else size;
      buf, start, length := null, 0, 0;
    }

    method Put(b: Byte)
      requires Valid() && buf != null
      modifies this`start, this`length, buf
      ensures Valid() && buf == old(buf) && Contents() == Last(old(Contents()) + [b], size)
    {
      ghost var a := buf[..];
      if length < size {
        RingPush(a, start, length, b);
        var idx := SlotByMod(start, length, size);
        buf[idx] := b;
        length := length + 1;
        assert buf[..] == a[idx := b];
      } else {
        RingRotate(a, start, b);
        buf[start] := b;
        assert buf[..] == a[start := b];
        start := SlotByMod(start, 1, size);
      }
    }

    method Write(p: seq<Byte>) returns (n: nat)
      requires Valid()
      modifies this, buf
      ensures Valid() && (buf == old(buf) || fresh(buf)) && n == |p|
      ensures Contents() == Last(old(Contents()) + p, size)
    {
      n := |p|;
      if size == 0 { return; }
      ghost var before := Contents();
      if buf == null {
        buf := new Byte[size];
      }
      assert Contents() == before;
      if |p| >= size {
        Overwrite(p[|p| - size..]);
        assert Last(before + p, size) == p[|p| - size..];
        return;
      }
      WriteLoop(p);
    }

    method WriteLoop(p: seq<Byte>)
      requires Valid() && buf != null
      modifies this`start, this`length, buf
      ensures Valid() && buf == old(buf) && Contents() == Last(old(Contents()) + p, size)
    {
      ghost var before := Contents();
      assert before + p[..0] == before;
      for i := 0 to |p|
        invariant Valid() && buf == old(buf)
        invariant Contents() == Last(before + p[..i], size)
      {
        LastOfNext(before, p, i, size);
        Put(p[i]);
      }
      assert p[..|p|] == p;
    }

    method Overwrite(p: seq<Byte>)
      requires Valid() && buf != null && |p| == size
      modifies this`start, this`length, buf
      ensures Valid() && buf == old(buf) && Contents() == p
    {
      forall i | 0 <= i < size { buf[i] := p[i]; }
      start, length := 0, size;
      assert buf[..] == p;
    }

    method Snapshot() returns (out: seq<Byte>)
      requires Valid()
      ensures out == Contents()
    {
      if length == 0 { return []; }
      RingIsSlices(buf[..], start, length);
      if start + length <= size {
        return buf[start..start + length];
      }
      var n := size - start;
      return buf[start..] + buf[..length - n];
    }
  }

  /** What `Snapshot` returns after the given writes to a new buffer. */
  function AfterWrites(size: nat, writes: seq<seq<Byte>>): seq<Byte> {
    if writes == [] then []
    else Last(AfterWrites(size, writes[..|writes|-1]) + writes[|writes|-1], size)
  }

  /** However it was cut into writes, the buffer keeps the last bytes ever written. */
  lemma {:induction false} KeepsLastBytes(size: nat, writes: seq<seq<Byte>>)
    ensures AfterWrites(size, writes) == Last(Flatten(writes), size)
  {
    if writes != [] {
      var front, last := writes[..|writes|-1], writes[|writes|-1];
      KeepsLastBytes(size, front);
      LastOfAppend(Flatten(front), last, size);
    }
  }

  /** A whole life of the buffer: writes of any sizes, then a snapshot. */
  method Capture(size: int, writes: seq<seq<Byte>>) returns (out: seq<Byte>)
    ensures out == Last(Flatten(writes), if size < 0 then 0 else size)
  {
    var ring := new RingBuffer(size);
    assert writes[..0] == [];
    for i := 0 to |writes|
      invariant ring.Valid() && fresh(ring) && (ring.buf == null || fresh(ring.buf))
      invariant ring.Contents() == AfterWrites(ring.size, writes[..i])
    {
      assert writes[..i + 1][..i] == writes[..i];
      var _ := ring.Write(writes[i]);
    }
    assert writes[..|writes|] == writes;
    KeepsLastBytes(ring.size, writes);
    out := ring.Snapshot();
  }
}
