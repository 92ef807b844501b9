/** Files kept in memory: a buffer with spare room that behaves as a byte sequence. */
module Ramfs {
  import opened Bytes

  /** `s` extended with zeros as far as needed and with `b` written over it from `offset` on. */
  function Overlay(s: seq<Byte>, offset: nat, b: seq<Byte>): seq<Byte> {
    var end := offset + |b|;
    Splice(if end > |s| then s + Zeros(end - |s|) else s, offset, b)
  }

  /** What was written is read back, what lies elsewhere stays, and a gap reads as zeros. */
  lemma {:induction false} OverlayReads(s: seq<Byte>, offset: nat, b: seq<Byte>)
    ensures var r := Overlay(s, offset, b);
            |r| == (if offset + |b| > |s| then offset + |b| else |s|) &&
            Window(r, offset, |b|) == b &&
            (forall i :: 0 <= i < |r| && !(offset <= i < offset + |b|) ==> r[i] == if i < |s| then s[i] else 0)
  {
  }

  /** Two adjacent writes are one. */
  lemma {:induction false} OverlayJoins(s: seq<Byte>, offset: nat, a: seq<Byte>, b: seq<Byte>)
    ensures Overlay(Overlay(s, offset, a), offset + |a|, b) == Overlay(s, offset, a + b)
  {
  }

  method CopyIn(a: array<Byte>, offset: nat, b: seq<Byte>)
    requires offset + |b| <= a.Length
    modifies a
    ensures a[..] == Splice(old(a[..]), offset, b)
  {
    var i := 0;
    while i < |b|
      invariant i <= |b| && a[..] == Splice(old(a[..]), offset, b[..i])
    {
      a[offset + i] := b[i];
      i := i + 1;
    }
    assert b[..i] == b;
  }

  /** Storing `b` in a buffer whose spare room is zero. */
  lemma {:induction false} Stored(s: seq<Byte>, d: seq<Byte>, offset: nat, b: seq<Byte>, d': seq<Byte>, size: nat)
    requires |s| <= |d| && s == d[..|s|] && (forall i :: |s| <= i < |d| ==> d[i] == 0) && offset + |b| <= |d|
    requires d' == Splice(d, offset, b) && size == if offset + |b| > |s| then offset + |b| else |s|
    ensures d'[..size] == Overlay(s, offset, b)
    ensures forall i :: size <= i < |d'| ==> d'[i] == 0
  {
  }

  class RamFile {
    var data: array?<Byte>
    var size: nat

    function Capacity(): nat
      reads this
    {
      if data == null then 0 else data.Length
    }

    /** The spare room behind the content is zero. */
    ghost predicate Valid()
      reads this, data
    {
      size <= Capacity() && (data != null ==> forall i :: size <= i < data.Length ==> data[i] == 0)
    }

    ghost function Contents(): (s: seq<Byte>)
      requires Valid()
      reads this, data
      ensures |s| == size
    {
      if data == null then [] else data[..size]
    }

    constructor ()
      ensures Valid() && Contents() == []
    {
      data, size := null, 0;
    }

    method Read(offset: nat, len: nat) returns (out: seq<Byte>)
      requires Valid()
      ensures out == Window(Contents(), offset, len)
    {
      out := [];
      if data == null || offset >= size {
        return;
      }
      var avail := size - offset;
      var n := if len > avail then avail else len;
      var i := 0;
      while i < n
        invariant i <= n && out == data[offset..offset + i]
      {
        out := out + [data[offset + i]];
        i := i + 1;
      }
      assert data[..size][offset..offset + n] == data[offset..offset + n];
    }

    /** Makes room for `end` bytes, keeping the content; `canAlloc` is whether the heap can provide it. */
    method Reserve(end: nat, canAlloc: bool) returns (ok: bool)
      requires Valid()
      modifies this`data
      ensures Valid() && Contents() == old(Contents())
      ensures ok == (end <= old(Capacity()) || canAlloc)
      ensures ok ==> end <= Capacity()
      ensures !ok ==> data == old(data)
      ensures data == old(data) || fresh(data)
    {
      ok := true;
      if end > Capacity() {
        var newcap := if end * 2 < 64 then 64 else end * 2;
        if !canAlloc {
          return false;
        }
        var nb := new Byte[newcap];
        var i := 0;
        while i < size
          invariant i <= size && data == old(data) && nb[..i] == Contents()[..i]
        {
          nb[i] := data[i];
          i := i + 1;
        }
        while i < newcap
          invariant size <= i <= newcap && data == old(data) && nb[..size] == Contents()
          invariant forall j :: size <= j < i ==> nb[j] == 0
        {
          nb[i] := 0;
          i := i + 1;
        }
        data := nb;
      }
    }

    method Write(offset: nat, b: seq<Byte>, canAlloc: bool) returns (ok: bool)
      requires Valid()
      modifies this, data
      ensures Valid() && ok == (offset + |b| <= old(Capacity()) || canAlloc)
      ensures Contents() == if ok then Overlay(old(Contents()), offset, b) else old(Contents())
    {
      var end := offset + |b|;
      ok := Reserve(end, canAlloc);
      if !ok {
        return;
      }
      ghost var s := Contents();
      ghost var d := if data == null then [] else data[..];
      if data != null {
        CopyIn(data, offset, b);
      }
      if end > size {
        size := end;
      }
      Stored(s, d, offset, b, if data == null then [] else data[..], size);
    }

    method Truncate()
      modifies this
      ensures Valid() && Contents() == []
    {
      data, size := null, 0;
    }
  }
}
