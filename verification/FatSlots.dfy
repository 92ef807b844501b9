/** A FAT directory as the bytes of its chain: a row of 32-byte entries, ended by one that
    starts with zero. What lookups find, and what creating and removing entries does to them. */
module FatSlots {
  import opened Bytes
  import opened FatNames
  import opened Options

  const ATTR_VOLUME_ID: nat := 0x08
  const ATTR_DIR: nat := 0x10
  const ATTR_ARCHIVE: nat := 0x20
  const ATTR_LFN: nat := 0x0F

  function SlotAt(c: seq<Byte>, p: nat): Slot
    requires p + 32 <= |c|
  {
    c[p..p + 32]
  }

  function PackedName(s: Slot): Packed { Packed(s[..8], s[8..11], s[12]) }

  function NameOf(s: Slot): CString { CStr(Decoded(PackedName(s))) }

  /** An entry that lookups consider: neither deleted, nor a long-name part, nor a volume label. */
  predicate IsEntry(s: Slot) {
    s[0] != DELETED && s[11] != ATTR_LFN && s[11] / ATTR_VOLUME_ID % 2 == 0
  }

  predicate Hit(s: Slot, name: CString) { IsEntry(s) && Fold(NameOf(s)) == Fold(name) }

  /** Position of the first entry from `p` on with this name, up to ASCII case. */
  function Lookup(c: seq<Byte>, name: CString, p: nat): (r: Option<nat>)
    ensures r.Some? ==> p <= r.value && r.value + 32 <= |c|
    decreases |c| - p
  {
    if p + 32 > |c| || c[p] == 0 then None
    else if Hit(SlotAt(c, p), name) then Some(p)
    else Lookup(c, name, p + 32)
  }

  /** Position of the first deleted or never used entry from `p` on. */
  function FreeAt(c: seq<Byte>, p: nat): (r: Option<nat>)
    ensures r.Some? ==> p <= r.value && r.value + 32 <= |c|
    decreases |c| - p
  {
    if p + 32 > |c| then None
    else if c[p] == 0 || c[p] == DELETED then Some(p)
    else FreeAt(c, p + 32)
  }

  ghost predicate AllUnused(c: seq<Byte>, p: nat)
    decreases |c| - p
  {
    p + 32 > |c| || (c[p] == 0 && AllUnused(c, p + 32))
  }

  /** After the first never used entry there are only never used ones. */
  ghost predicate Clean(c: seq<Byte>, p: nat)
    decreases |c| - p
  {
    p + 32 > |c| || if c[p] == 0 then AllUnused(c, p + 32) else Clean(c, p + 32)
  }

  /** No two entries have the same name. */
  ghost predicate Unique(c: seq<Byte>, p: nat)
    decreases |c| - p
  {
    p + 32 > |c| || c[p] == 0 ||
    ((IsEntry(SlotAt(c, p)) ==> Lookup(c, NameOf(SlotAt(c, p)), p + 32) == None) && Unique(c, p + 32))
  }

  /** How many entries from `p` on have this name, up to ASCII case. */
  ghost function Tally(c: seq<Byte>, n: CString, p: nat): nat
    decreases |c| - p
  {
    if p + 32 > |c| || c[p] == 0 then 0
    else (if Hit(SlotAt(c, p), n) then 1 else 0) + Tally(c, n, p + 32)
  }

  // ---- lookups depend on what follows, and on the name up to case ----

  lemma {:induction false} SameFrom(c: seq<Byte>, e: seq<Byte>, n: CString, p: nat)
    requires |c| == |e| && (p <= |c| ==> c[p..] == e[p..])
    ensures Lookup(c, n, p) == Lookup(e, n, p) && Tally(c, n, p) == Tally(e, n, p)
    ensures AllUnused(c, p) == AllUnused(e, p)
    ensures Clean(c, p) == Clean(e, p)
    decreases |c| - p
  {
    hide Hit;
    if p + 32 <= |c| {
      assert SlotAt(c, p) == c[p..][..32] && SlotAt(e, p) == e[p..][..32];
      assert c[p] == c[p..][0] && e[p] == e[p..][0];
      assert c[p + 32..] == c[p..][32..] && e[p + 32..] == e[p..][32..];
      SameFrom(c, e, n, p + 32);
    }
  }

  lemma {:induction false} SameName(c: seq<Byte>, n: CString, n': CString, p: nat)
    requires Fold(n) == Fold(n')
    ensures Lookup(c, n, p) == Lookup(c, n', p) && Tally(c, n, p) == Tally(c, n', p)
    decreases |c| - p
  {
    hide NameOf, Fold, IsEntry;
    if p + 32 <= |c| {
      SameName(c, n, n', p + 32);
    }
  }

  /** A name is found exactly if some entry has it, and what is found is the first of them. */
  lemma {:induction false} TallyLookup(c: seq<Byte>, n: CString, p: nat)
    ensures Lookup(c, n, p).Some? <==> Tally(c, n, p) > 0
    ensures Lookup(c, n, p).Some? ==> Tally(c, n, p) == 1 + Tally(c, n, Lookup(c, n, p).value + 32)
    decreases |c| - p
  {
    hide Hit;
    if p + 32 <= |c| {
      TallyLookup(c, n, p + 32);
    }
  }

  /** No name is counted twice. */
  ghost predicate NoneTwice(c: seq<Byte>, p: nat) {
    forall n: CString :: Tally(c, n, p) <= 1
  }

  lemma {:induction false} UniqueTally(c: seq<Byte>, n: CString, p: nat)
    requires Unique(c, p)
    ensures Tally(c, n, p) <= 1
    decreases |c| - p
  {
    hide NameOf, Fold, IsEntry;
    if p + 32 <= |c| && c[p] != 0 {
      UniqueTally(c, n, p + 32);
      if Hit(SlotAt(c, p), n) {
        SameName(c, n, NameOf(SlotAt(c, p)), p + 32);
        TallyLookup(c, n, p + 32);
      }
    }
  }

  lemma {:induction false} NoneTwiceAfter(c: seq<Byte>, p: nat, q: nat)
    requires NoneTwice(c, p) && q == p + 32 <= |c| && c[p] != 0
    ensures NoneTwice(c, q)
    ensures IsEntry(SlotAt(c, p)) ==> Lookup(c, NameOf(SlotAt(c, p)), q) == None
  {
    hide NameOf, Fold, IsEntry;
    forall n: CString ensures Tally(c, n, q) <= 1 {
      assert Tally(c, n, p) >= Tally(c, n, q);
    }
    var n := NameOf(SlotAt(c, p));
    assert IsEntry(SlotAt(c, p)) ==> Hit(SlotAt(c, p), n) && Tally(c, n, p) == 1 + Tally(c, n, q);
    TallyLookup(c, n, q);
  }

  lemma {:induction false} TallyUnique(c: seq<Byte>, p: nat)
    requires NoneTwice(c, p)
    ensures Unique(c, p)
    decreases |c| - p
  {
    hide NameOf, Fold, IsEntry, NoneTwice;
    if p + 32 <= |c| && c[p] != 0 {
      NoneTwiceAfter(c, p, p + 32);
      TallyUnique(c, p + 32);
    }
  }

  /** Names are unique exactly if no name is counted twice. */
  lemma {:induction false} UniqueIff(c: seq<Byte>, p: nat)
    ensures Unique(c, p) <==> NoneTwice(c, p)
  {
    if Unique(c, p) {
      forall n: CString ensures Tally(c, n, p) <= 1 {
        UniqueTally(c, n, p);
      }
    } else if NoneTwice(c, p) {
      TallyUnique(c, p);
    }
  }

  /** `p` is a whole number of entries before `k`. */
  ghost predicate Before(p: nat, k: nat) { p <= k && (k - p) % 32 == 0 }

  lemma {:induction false} FreeIsAligned(c: seq<Byte>, p: nat)
    requires FreeAt(c, p).Some?
    ensures Before(p, FreeAt(c, p).value)
    ensures c[FreeAt(c, p).value] == 0 || c[FreeAt(c, p).value] == DELETED
    decreases |c| - p
  {
    if c[p] != 0 && c[p] != DELETED {
      FreeIsAligned(c, p + 32);
    }
  }

  lemma {:induction false} UnusedMeansNone(c: seq<Byte>, n: CString, p: nat)
    requires AllUnused(c, p)
    ensures Lookup(c, n, p) == None && Tally(c, n, p) == 0
  {
  }

  // ---- creating an entry ----

  /** `e` is `c` with the bytes `s` in its first free place `k`. */
  ghost predicate Inserted(c: seq<Byte>, p: nat, k: nat, s: Slot, e: seq<Byte>) {
    FreeAt(c, p) == Some(k) && k + 32 <= |c| && e == Splice(c, k, s) && s[0] != 0
  }

  lemma {:induction false} SlotsAround(c: seq<Byte>, k: nat, s: Slot, e: seq<Byte>, p: nat)
    requires k + 32 <= |c| && e == Splice(c, k, s) && Before(p, k)
    ensures |e| == |c| && SlotAt(e, k) == s && e[k + 32..] == c[k + 32..]
    ensures p < k ==> p + 32 <= k && SlotAt(e, p) == SlotAt(c, p) && e[p] == c[p] && Before(p + 32, k)
    ensures p == k ==> e[p] == s[0]
  {
  }

  lemma {:induction false} FreeStep(c: seq<Byte>, p: nat)
    requires FreeAt(c, p).Some?
    ensures Before(p, FreeAt(c, p).value)
    ensures p < FreeAt(c, p).value ==> c[p] != 0 && c[p] != DELETED && FreeAt(c, p + 32) == FreeAt(c, p)
    ensures p == FreeAt(c, p).value ==> c[p] == 0 || c[p] == DELETED
  {
    FreeIsAligned(c, p);
  }

  lemma {:induction false} DeletedIsNoHit(s: Slot, n: CString)
    ensures s[0] == DELETED ==> !Hit(s, n) && !IsEntry(s)
  {
  }

  /** What is found when the entry at `k` of this name is added: it, unless one stands before it. */
  function FirstOf(was: Option<nat>, k: nat): Option<nat> {
    if was.Some? && was.value < k then was else Some(k)
  }

  /** The entry is counted under its name, and found unless one of that name stands before it; all other
      lookups and counts are as before. */
  lemma {:induction false} InsertLookup(c: seq<Byte>, k: nat, s: Slot, e: seq<Byte>, n: CString, p: nat)
    requires Inserted(c, p, k, s, e) && Clean(c, p)
    ensures Lookup(e, n, p) == if Hit(s, n) then FirstOf(Lookup(c, n, p), k) else Lookup(c, n, p)
    ensures Tally(e, n, p) == Tally(c, n, p) + if Hit(s, n) then 1 else 0
    decreases k - p
  {
    hide Hit, Splice, IsEntry;
    FreeStep(c, p);
    SlotsAround(c, k, s, e, p);
    if p < k {
      InsertLookup(c, k, s, e, n, p + 32);
    } else {
      SameFrom(c, e, n, k + 32);
      DeletedIsNoHit(SlotAt(c, k), n);
      if c[k] == 0 {
        UnusedMeansNone(c, n, k + 32);
      }
    }
  }

  lemma {:induction false} UnusedIsClean(c: seq<Byte>, p: nat)
    ensures AllUnused(c, p) ==> Clean(c, p)
  {
  }

  lemma {:induction false} InsertClean(c: seq<Byte>, k: nat, s: Slot, e: seq<Byte>, p: nat)
    requires Inserted(c, p, k, s, e) && Clean(c, p)
    ensures Clean(e, p)
    decreases k - p
  {
    hide Hit, Splice, IsEntry;
    FreeStep(c, p);
    SlotsAround(c, k, s, e, p);
    if p < k {
      InsertClean(c, k, s, e, p + 32);
    } else {
      SameFrom(c, e, [], k + 32);
      assert c[k] == 0 ==> AllUnused(c, k + 32);
      UnusedIsClean(c, k + 32);
    }
  }

  /** Names stay unique exactly if the new entry's name was not there. */
  lemma {:induction false} InsertUniqueIff(c: seq<Byte>, k: nat, s: Slot, e: seq<Byte>, p: nat)
    requires Inserted(c, p, k, s, e) && Clean(c, p) && Unique(c, p)
    ensures Unique(e, p) <==> (IsEntry(s) ==> Lookup(c, NameOf(s), p) == None)
  {
    UniqueIff(c, p);
    UniqueIff(e, p);
    hide Inserted, Clean, NameOf, Fold, IsEntry, Unique, Tally;
    InsertLookup(c, k, s, e, NameOf(s), p);
    TallyLookup(c, NameOf(s), p);
    forall n: CString ensures Tally(e, n, p) == Tally(c, n, p) + if Hit(s, n) then 1 else 0 {
      InsertLookup(c, k, s, e, n, p);
    }
    forall n: CString | Hit(s, n) ensures Tally(c, n, p) == Tally(c, NameOf(s), p) {
      SameName(c, n, NameOf(s), p);
    }
    assert IsEntry(s) ==> Hit(s, NameOf(s));
  }

  // ---- a chain that grew by an unused cluster ----

  ghost predicate Grown(c: seq<Byte>, e: seq<Byte>) {
    |c| % 32 == |e| % 32 == 0 && |c| <= |e| && e == c + Zeros(|e| - |c|)
  }

  lemma {:induction false} GrownSlots(c: seq<Byte>, e: seq<Byte>, p: nat)
    requires Grown(c, e) && p % 32 == 0 && p + 32 <= |e|
    ensures p + 32 <= |c| ==> SlotAt(e, p) == SlotAt(c, p) && e[p] == c[p]
    ensures p + 32 > |c| ==> p >= |c| && e[p] == 0
  {
  }

  lemma {:induction false} GrownLookup(c: seq<Byte>, e: seq<Byte>, n: CString, p: nat)
    requires Grown(c, e) && p % 32 == 0
    ensures Lookup(e, n, p) == Lookup(c, n, p) && Tally(e, n, p) == Tally(c, n, p)
    decreases |e| - p
  {
    hide Hit;
    if p + 32 <= |e| {
      GrownSlots(c, e, p);
      GrownLookup(c, e, n, p + 32);
    }
  }

  lemma {:induction false} GrownFree(c: seq<Byte>, e: seq<Byte>, p: nat)
    requires Grown(c, e) && p % 32 == 0 && FreeAt(c, p) == None && p <= |c| < |e|
    ensures FreeAt(e, p) == Some(|c|)
    decreases |e| - p
  {
    GrownSlots(c, e, p);
    if p < |c| {
      GrownFree(c, e, p + 32);
    }
  }

  lemma {:induction false} GrownUnused(c: seq<Byte>, e: seq<Byte>, p: nat)
    requires Grown(c, e) && p % 32 == 0
    ensures AllUnused(c, p) ==> AllUnused(e, p)
    decreases |e| - p
  {
    if p + 32 <= |e| {
      GrownSlots(c, e, p);
      GrownUnused(c, e, p + 32);
    }
  }

  lemma {:induction false} GrownClean(c: seq<Byte>, e: seq<Byte>, p: nat)
    requires Grown(c, e) && p % 32 == 0
    ensures Clean(c, p) ==> Clean(e, p)
    decreases |e| - p
  {
    if p + 32 <= |e| {
      GrownSlots(c, e, p);
      GrownClean(c, e, p + 32);
      GrownUnused(c, e, p + 32);
    }
  }

  /** Names stay unique when no count goes up. */
  lemma {:induction false} SameUnique(c: seq<Byte>, e: seq<Byte>)
    requires forall n: CString :: Tally(e, n, 0) <= Tally(c, n, 0)
    ensures Unique(c, 0) ==> Unique(e, 0)
  {
    UniqueIff(c, 0);
    UniqueIff(e, 0);
    hide Unique, Tally;
  }

  // ---- removing an entry ----

  /** `e` is `c` with the entry at `k`, the first of its name, marked as deleted. */
  ghost predicate Removed(c: seq<Byte>, p: nat, k: nat, name: CString, e: seq<Byte>) {
    Lookup(c, name, p) == Some(k) && k + 32 <= |c| && e == c[k := DELETED]
  }

  lemma {:induction false} LookupStep(c: seq<Byte>, n: CString, p: nat)
    requires Lookup(c, n, p).Some?
    ensures Before(p, Lookup(c, n, p).value)
    ensures c[p] != 0 && p + 32 <= |c|
    ensures p < Lookup(c, n, p).value ==> Lookup(c, n, p + 32) == Lookup(c, n, p) && !Hit(SlotAt(c, p), n)
    ensures p == Lookup(c, n, p).value ==> Hit(SlotAt(c, p), n)
    decreases |c| - p
  {
    hide Hit;
    if !Hit(SlotAt(c, p), n) {
      LookupStep(c, n, p + 32);
    }
  }

  lemma {:induction false} SlotsAroundMark(c: seq<Byte>, k: nat, e: seq<Byte>, p: nat)
    requires k + 32 <= |c| && e == c[k := DELETED] && Before(p, k)
    ensures |e| == |c| && e[k + 32..] == c[k + 32..] && SlotAt(e, k)[0] == DELETED && e[k] == DELETED
    ensures p < k ==> p + 32 <= k && SlotAt(e, p) == SlotAt(c, p) && e[p] == c[p] && Before(p + 32, k)
  {
  }

  lemma {:induction false} RemovedFacts(c: seq<Byte>, p: nat, k: nat, name: CString, e: seq<Byte>)
    requires Removed(c, p, k, name, e)
    ensures Lookup(c, name, p) == Some(k) && k + 32 <= |c| && e == c[k := DELETED]
  {
  }

  lemma {:induction false} RemovedLater(c: seq<Byte>, p: nat, k: nat, name: CString, e: seq<Byte>)
    requires Removed(c, p, k, name, e) && p < k
    ensures Removed(c, p + 32, k, name, e)
  {
  }

  lemma {:induction false} RemoveLookupAt(c: seq<Byte>, k: nat, name: CString, e: seq<Byte>, n: CString)
    requires Removed(c, k, k, name, e)
    ensures Lookup(e, n, k) == if Fold(n) == Fold(name) then Lookup(c, n, k + 32) else Lookup(c, n, k)
    ensures Tally(e, n, k) + (if Fold(n) == Fold(name) then 1 else 0) == Tally(c, n, k)
  {
    hide NameOf, Fold, Clean, AllUnused;
    LookupStep(c, name, k);
    SlotsAroundMark(c, k, e, k);
    SameFrom(c, e, n, k + 32);
    DeletedIsNoHit(SlotAt(e, k), n);
  }

  /** One entry of the removed name is gone, so the next of them is found, if any; all other lookups and
      counts are as before. */
  lemma {:induction false} RemoveLookup(c: seq<Byte>, k: nat, name: CString, e: seq<Byte>, n: CString, p: nat)
    requires Removed(c, p, k, name, e)
    ensures Lookup(e, n, p) == if Fold(n) == Fold(name) then Lookup(c, n, k + 32) else Lookup(c, n, p)
    ensures Tally(e, n, p) + (if Fold(n) == Fold(name) then 1 else 0) == Tally(c, n, p)
    decreases k - p
  {
    hide NameOf, Fold, Clean, Removed, IsEntry;
    RemovedFacts(c, p, k, name, e);
    LookupStep(c, name, p);
    SlotsAroundMark(c, k, e, p);
    if p < k {
      RemovedLater(c, p, k, name, e);
      RemoveLookup(c, k, name, e, n, p + 32);
    } else {
      RemoveLookupAt(c, k, name, e, n);
    }
  }

  lemma {:induction false} RemoveClean(c: seq<Byte>, k: nat, name: CString, e: seq<Byte>, p: nat)
    requires Removed(c, p, k, name, e)
    ensures Clean(c, p) ==> Clean(e, p)
    decreases k - p
  {
    hide Hit, Unique;
    LookupStep(c, name, p);
    SlotsAroundMark(c, k, e, p);
    if p < k {
      RemoveClean(c, k, name, e, p + 32);
    } else {
      SameFrom(c, e, [], k + 32);
    }
  }
}
