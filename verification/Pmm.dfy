/** The physical frame allocator: a bitmap with one bit per 4 KiB frame, set when in use. */
module Pmm {

  const PAGE_SIZE: nat := 4096
  const MAX_FRAMES: nat := 0x10_0000
  const IDENTITY_MAP_LIMIT_FRAMES: nat := 0x4_0000   // the frames of 1 GiB

  // ---- one byte of the bitmap ----

  function Mask(k: nat): bv8
    requires k < 8
  {
    1 << k
  }

  predicate TestBit(b: bv8, k: nat)
    requires k < 8
  {
    (b >> k) & 1 == 1
  }

  lemma {:induction false} SetLaw(b: bv8, i: nat, k: nat)
    requires i < 8 && k < 8
    ensures TestBit(b | Mask(i), k) == (k == i || TestBit(b, k))
  {
  }

  lemma {:induction false} ClearLaw(b: bv8, i: nat, k: nat)
    requires i < 8 && k < 8
    ensures TestBit(b & !Mask(i), k) == (k != i && TestBit(b, k))
  {
  }

  lemma {:induction false} OnesLaw(k: nat)
    requires k < 8
    ensures TestBit(0xFF, k)
  {
  }

  // ---- the memory map the boot loader passes ----

  const TAG_MMAP: nat := 6
  const MMAP_USABLE: nat := 1

  datatype MmapEntry = MmapEntry(base: nat, length: nat, kind: nat)

  /** A boot information tag; only memory-map tags have entries. */
  datatype Tag = Tag(kind: nat, size: nat, entries: seq<MmapEntry>)

  /** The memory-map entries of all tags up to the end tag. */
  function AllEntries(tags: seq<Tag>): seq<MmapEntry> {
    if tags == [] || tags[0].kind == 0 || tags[0].size == 0 then []
    else (if tags[0].kind == TAG_MMAP then tags[0].entries else []) + AllEntries(tags[1..])
  }

  /** The whole of frame `f` lies in the region. */
  predicate Covers(e: MmapEntry, f: nat) {
    e.kind == MMAP_USABLE && e.base <= f * PAGE_SIZE && (f + 1) * PAGE_SIZE <= e.base + e.length
  }

  predicate Usable(es: seq<MmapEntry>, f: nat) {
    exists i :: 0 <= i < |es| && Covers(es[i], f)
  }

  /** The end of the highest region of any kind. */
  function TopOfMap(es: seq<MmapEntry>): nat {
    if es == [] then 0
    else
      var t, e := TopOfMap(es[..|es| - 1]), es[|es| - 1];
      if e.base + e.length > t then e.base + e.length else t
  }

  function Min(a: nat, b: nat): nat { if a < b then a else b }

  lemma {:induction false} NothingUsable()
    ensures forall f :: !Usable([], f)
  {
  }

  lemma {:induction false} TopEmpty()
    ensures TopOfMap([]) == 0
  {
  }

  lemma {:induction false} EntriesStep(tags: seq<Tag>, t: nat, done: seq<MmapEntry>)
    requires t < |tags| && tags[t].kind != 0 && tags[t].size != 0
    ensures done + AllEntries(tags[t..]) ==
            (if tags[t].kind == TAG_MMAP then done + tags[t].entries else done) + AllEntries(tags[t + 1..])
  {
    assert tags[t..][1..] == tags[t + 1..];
  }

  lemma {:induction false} EntriesEnd(tags: seq<Tag>, t: nat)
    requires t <= |tags| && (t < |tags| ==> tags[t].kind == 0 || tags[t].size == 0)
    ensures AllEntries(tags[t..]) == []
  {
  }

  lemma {:induction false} UsableSnoc(es: seq<MmapEntry>, e: MmapEntry)
    ensures forall f :: Usable(es + [e], f) <==> Usable(es, f) || Covers(e, f)
    ensures TopOfMap(es + [e]) == if e.base + e.length > TopOfMap(es) then e.base + e.length else TopOfMap(es)
  {
    hide Covers;
    var r := es + [e];
    assert r[..|r| - 1] == es;
    forall f ensures Usable(r, f) <==> Usable(es, f) || Covers(e, f) {
      if Usable(es, f) {
        var i :| 0 <= i < |es| && Covers(es[i], f);
        assert Covers(r[i], f);
      }
      if Covers(e, f) {
        assert Covers(r[|es|], f);
      }
    }
  }

  predicate Between(k: nat, lo: nat, hi: nat) { lo <= k < hi }

  class Allocator {
    const bitmap: array<bv8>

    var totalFrames: nat
    var usedFrames: nat

    ghost predicate Shape() { bitmap.Length == MAX_FRAMES / 8 }

    predicate IsUsed(f: nat)
      requires Shape() && f < MAX_FRAMES
      reads bitmap
    {
      TestBit(bitmap[f / 8], f % 8)
    }

    /** The frames in use. */
    ghost function Used(): (s: set<nat>)
      requires Shape()
      reads bitmap
    {
      set f | 0 <= f < MAX_FRAMES && IsUsed(f)
    }

    /** The frames in use among the first `n`. */
    ghost function UsedBelow(n: nat): set<nat>
      requires Shape()
      reads bitmap
    {
      set f | f in Used() && f < n
    }

    ghost predicate Valid()
      reads this, bitmap
      ensures Valid() ==> Shape()
    {
      Shape() && totalFrames <= MAX_FRAMES && usedFrames == |UsedBelow(totalFrames)|
    }

    /** The bitmap as the kernel image provides it: all zero, no frames managed yet. */
    constructor ()
      ensures Valid() && totalFrames == 0
    {
      bitmap := new bv8[MAX_FRAMES / 8](_ => 0);
      totalFrames, usedFrames := 0, 0;
      new;
      assert UsedBelow(0) == {};
    }

    method SetUsed(f: nat)
      requires Shape() && f < MAX_FRAMES
      modifies bitmap
      ensures Used() == old(Used()) + {f}
    {
      hide Mask, TestBit;
      var b := bitmap[f / 8];
      bitmap[f / 8] := b | Mask(f % 8);
      forall k | 0 <= k < MAX_FRAMES ensures IsUsed(k) == (k == f || old(IsUsed(k))) {
        SetLaw(b, f % 8, k % 8);
      }
    }

    method SetFree(f: nat)
      requires Shape() && f < MAX_FRAMES
      modifies bitmap
      ensures Used() == old(Used()) - {f}
    {
      hide Mask, TestBit;
      var b := bitmap[f / 8];
      bitmap[f / 8] := b & !Mask(f % 8);
      forall k | 0 <= k < MAX_FRAMES ensures IsUsed(k) == (k != f && old(IsUsed(k))) {
        ClearLaw(b, f % 8, k % 8);
      }
    }

    /** Marks the whole frames of a usable region as free. */
    method FreeRegion(e: MmapEntry)
      requires Shape()
      modifies bitmap
      ensures Used() == old(Used()) - set f | 0 <= f < MAX_FRAMES && Covers(e, f)
    {
      hide TestBit;
      if e.kind == MMAP_USABLE {
        var fs, fe := (e.base + PAGE_SIZE - 1) / PAGE_SIZE, (e.base + e.length) / PAGE_SIZE;
        var f := fs;
        while f < fe && f < MAX_FRAMES
          invariant fs <= f && (f <= fe || f == fs)
          invariant Used() == old(Used()) - set k | 0 <= k < MAX_FRAMES && Between(k, fs, f)
        {
          SetFree(f);
          f := f + 1;
        }
        forall k | 0 <= k < MAX_FRAMES ensures Covers(e, k) <==> fs <= k < fe {
        }
      }
    }

    method FillAll()
      requires Shape()
      modifies bitmap
      ensures forall f :: 0 <= f < MAX_FRAMES ==> f in Used()
    {
      hide TestBit;
      var i := 0;
      while i < bitmap.Length
        invariant 0 <= i <= bitmap.Length && forall k :: 0 <= k < i ==> bitmap[k] == 0xFF
      {
        bitmap[i] := 0xFF;
        i := i + 1;
      }
      forall f | 0 <= f < MAX_FRAMES ensures IsUsed(f) {
        OnesLaw(f % 8);
      }
    }

    /** The free frames are the usable ones of `es`. */
    ghost predicate Frees(es: seq<MmapEntry>)
      requires Shape()
      reads bitmap
    {
      forall f :: 0 <= f < MAX_FRAMES ==> (f !in Used() <==> Usable(es, f))
    }

    method FreeEntries(es: seq<MmapEntry>, top0: nat, ghost before: seq<MmapEntry>) returns (top: nat)
      requires Shape() && Frees(before) && top0 == TopOfMap(before)
      modifies bitmap
      ensures Frees(before + es) && top == TopOfMap(before + es)
    {
      hide Covers, TopOfMap, Usable;
      top := top0;
      var i := 0;
      assert before + es[..0] == before;
      while i < |es|
        invariant 0 <= i <= |es| && Frees(before + es[..i]) && top == TopOfMap(before + es[..i])
      {
        if es[i].base + es[i].length > top {
          top := es[i].base + es[i].length;
        }
        FreeRegion(es[i]);
        UsableSnoc(before + es[..i], es[i]);
        assert before + es[..i + 1] == before + es[..i] + [es[i]];
        i := i + 1;
      }
      assert es[..i] == es;
    }

    /** Walks the tags, freeing usable regions; gives the top of the memory map. */
    method FreeUsable(tags: seq<Tag>) returns (top: nat)
      requires Shape() && Frees([])
      modifies bitmap
      ensures top == TopOfMap(AllEntries(tags)) && Frees(AllEntries(tags))
    {
      hide Frees, TopOfMap, AllEntries;
      var t := 0;
      ghost var done: seq<MmapEntry> := [];
      TopEmpty();
      top := 0;
      while t < |tags| && tags[t].kind != 0 && tags[t].size != 0
        invariant 0 <= t <= |tags| && AllEntries(tags) == done + AllEntries(tags[t..])
        invariant top == TopOfMap(done) && Frees(done)
      {
        EntriesStep(tags, t, done);
        if tags[t].kind == TAG_MMAP {
          top := FreeEntries(tags[t].entries, top, done);
          done := done + tags[t].entries;
        }
        t := t + 1;
      }
      assert AllEntries(tags[t..]) == [] by { EntriesEnd(tags, t); }
      assert done + [] == done;
    }

    method Reserve(end: nat)
      requires Shape() && end <= MAX_FRAMES * PAGE_SIZE
      modifies bitmap
      ensures Used() == old(Used()) + set f | 0 <= f < MAX_FRAMES && f * PAGE_SIZE < end
    {
      hide TestBit;
      var reserveEnd := (end + PAGE_SIZE - 1) / PAGE_SIZE;
      var f := 0;
      while f < reserveEnd
        invariant 0 <= f <= reserveEnd
        invariant Used() == old(Used()) + set k | 0 <= k < MAX_FRAMES && Between(k, 0, f)
      {
        SetUsed(f);
        f := f + 1;
      }
    }

    method Tally()
      requires Shape() && totalFrames <= MAX_FRAMES
      modifies this`usedFrames
      ensures Valid()
    {
      hide TestBit;
      usedFrames := 0;
      var f := 0;
      assert UsedBelow(0) == {};
      while f < totalFrames
        invariant 0 <= f <= totalFrames && usedFrames == |UsedBelow(f)|
      {
        if IsUsed(f) {
          assert UsedBelow(f + 1) == UsedBelow(f) + {f};
          usedFrames := usedFrames + 1;
        } else {
          assert UsedBelow(f + 1) == UsedBelow(f);
        }
        f := f + 1;
      }
    }

    /** Sets the bitmap up from the memory map: a frame is free exactly when it lies beyond the
        kernel image and wholly in a usable region. */
    method Init(mb2Size: nat, tags: seq<Tag>, kernelEnd: nat)
      requires Shape() && kernelEnd <= MAX_FRAMES * PAGE_SIZE
      modifies this, bitmap
      ensures mb2Size == 0 || mb2Size > 65536 ==>
        totalFrames == old(totalFrames) && usedFrames == old(usedFrames) &&
        forall f :: 0 <= f < MAX_FRAMES ==> f in Used()
      ensures 0 < mb2Size <= 65536 ==>
        Valid() && totalFrames == Min(TopOfMap(AllEntries(tags)) / PAGE_SIZE, IDENTITY_MAP_LIMIT_FRAMES)
      ensures 0 < mb2Size <= 65536 ==> forall f :: 0 <= f < MAX_FRAMES ==>
        (f !in Used() <==> f * PAGE_SIZE >= kernelEnd && Usable(AllEntries(tags), f))
    {
      hide Covers, AllEntries, TopOfMap, Usable, TestBit, Allocator.IsUsed;
      FillAll();
      if mb2Size == 0 || mb2Size > 65536 {
        return;
      }
      NothingUsable();
      var top := FreeUsable(tags);
      totalFrames := top / PAGE_SIZE;
      if totalFrames > MAX_FRAMES {
        totalFrames := MAX_FRAMES;
      }
      if totalFrames > IDENTITY_MAP_LIMIT_FRAMES {
        totalFrames := IDENTITY_MAP_LIMIT_FRAMES;
      }
      Reserve((kernelEnd + PAGE_SIZE - 1) / PAGE_SIZE * PAGE_SIZE);
      Tally();
    }

    /** The address of the lowest free frame, now in use; 0 when there is none. Frame 0 is never given. */
    method AllocFrame() returns (phys: nat)
      requires Valid()
      modifies this`usedFrames, bitmap
      ensures Valid()
      ensures phys == 0 ==> Used() == old(Used()) && forall f :: 1 <= f < totalFrames ==> f in Used()
      ensures phys != 0 ==>
        var f := phys / PAGE_SIZE;
        phys == f * PAGE_SIZE && 1 <= f < totalFrames && f !in old(Used()) &&
        Used() == old(Used()) + {f} && forall e :: 1 <= e < f ==> e in old(Used())
    {
      hide TestBit, Allocator.IsUsed;
      var f := 1;
      while f < totalFrames
        invariant 1 <= f && Valid() && Used() == old(Used())
        invariant forall e :: 1 <= e < f && e < totalFrames ==> e in Used()
      {
        if !IsUsed(f) {
          SetUsed(f);
          assert UsedBelow(totalFrames) == old(UsedBelow(totalFrames)) + {f};
          usedFrames := usedFrames + 1;
          return f * PAGE_SIZE;
        }
        f := f + 1;
      }
      return 0;
    }

    /** Gives a frame back; anything but a frame in use is ignored. */
    method FreeFrame(phys: nat)
      requires Valid()
      modifies this`usedFrames, bitmap
      ensures Valid()
      ensures var f := phys / PAGE_SIZE;
              Used() == if f == 0 || f >= totalFrames then old(Used()) else old(Used()) - {f}
    {
      hide TestBit;
      var f := phys / PAGE_SIZE;
      if f == 0 || f >= totalFrames || !IsUsed(f) {
        return;
      }
      assert f in UsedBelow(totalFrames);
      SetFree(f);
      assert UsedBelow(totalFrames) == old(UsedBelow(totalFrames)) - {f};
      usedFrames := usedFrames - 1;
    }
  }
}
