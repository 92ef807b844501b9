/** Names that do not fit the 8.3 form: they are stored cut short, but looked up in full, so two of them can
    end up as two entries of one name. */
module FatClash {
  import opened Bytes
  import opened Options
  import opened FatLayout
  import opened FatChains
  import opened FatView
  import opened FatVolume
  import opened FatNames
  import opened FatSlots
  import opened FatDirectory

  /** Both names are cut to the same eight and three characters. */
  predicate CutAlike(a: CString, b: CString) {
    Take(Base(a), 8) == Take(Base(b), 8) && Take(Ext(a), 3) == Take(Ext(b), 3)
  }

  lemma {:induction false} PadTaken(s: seq<Byte>, n: nat)
    ensures Pad(UpperAll(s), n) == Pad(UpperAll(Take(s, n)), n)
  {
    var x, y := Pad(UpperAll(s), n), Pad(UpperAll(Take(s, n)), n);
    forall i | 0 <= i < n ensures x[i] == y[i] {
    }
  }

  lemma {:induction false} PadCut(a: seq<Byte>, b: seq<Byte>, n: nat)
    requires Take(a, n) == Take(b, n)
    ensures Pad(UpperAll(a), n) == Pad(UpperAll(b), n)
  {
    forall s: seq<Byte> ensures Pad(UpperAll(s), n) == Pad(UpperAll(Take(s, n)), n) {
      PadTaken(s, n);
    }
  }

  lemma {:induction false} StoredAlike(a: CString, b: CString)
    requires CutAlike(a, b)
    ensures Encoded(a) == Encoded(b) && Stored(a) == Stored(b)
  {
    PadCut(Base(a), Base(b), 8);
    PadCut(Ext(a), Ext(b), 3);
  }

  lemma {:induction false} CutAtNul(s: seq<Byte>)
    ensures |CStr(s)| <= |s|
  {
    if s != [] {
      CutAtNul(s[1..]);
    }
  }

  lemma {:induction false} NameShort(s: Slot)
    ensures |NameOf(s)| <= 12
  {
    CutAtNul(Decoded(PackedName(s)));
  }

  /** A name of more than twelve characters is never found. */
  lemma {:induction false} LongNeverFound(c: seq<Byte>, n: CString, p: nat)
    requires |n| > 12
    ensures Lookup(c, n, p) == None
    decreases |c| - p
  {
    hide NameOf, IsEntry;
    if p + 32 <= |c| {
      NameShort(SlotAt(c, p));
      LongNeverFound(c, n, p + 32);
    }
  }

  // ---- a volume with an empty directory ----

  /** One table of one sector and one cluster of one sector. */
  const TINY: Geometry := Geometry(1, 2, 1, 1, 1, 1)

  function Blank(): (d: seq<Sector>)
    ensures |d| == 3 && d[2] == Zeros(512)
  {
    [Zeros(512), Zeros(512), Zeros(512)]
  }

  /** An empty directory in cluster 2, the only one. */
  function Disk(): seq<Sector> { WithEntry(TINY, Blank(), 2, END_OF_CHAIN) }

  lemma {:induction false} TinyMirrored(d: seq<Sector>)
    requires |d| == 3 && ValidGeometry(TINY, |d|)
    ensures Mirrored(TINY, d)
  {
    hide ValidGeometry;
    forall f, s | 0 <= f < TINY.numFats && 0 <= s < TINY.fatSize
      ensures FatLba(TINY, f, s) < |d| && d[FatLba(TINY, f, s)] == d[TINY.fatStart + s]
    {
      assert f == 0 && s == 0 && FatLba(TINY, 0, 0) == 1;
    }
  }

  lemma {:induction false} TinyGeometry(d: seq<Sector>)
    requires |d| == 3
    ensures ValidGeometry(TINY, |d|) && Mirrored(TINY, d) && IsCluster(TINY, 2) && ClusterLba(TINY, 2) == 2
  {
    hide Mirrored;
    assert Mul(1, 1) == 1 && Mul(0, 1) == 0;
    TinyMirrored(d);
  }

  lemma {:induction false} ConcatOne(ss: seq<seq<Byte>>)
    requires |ss| == 1
    ensures Concat(ss) == ss[0]
  {
    assert ss[1..] == [];
    assert Concat(ss) == ss[0] + Concat([]);
  }

  lemma {:induction false} OneSector(g: Geometry, d: seq<Sector>, c: nat)
    requires ValidGeometry(g, |d|) && g.sectorsPerCluster == 1 && IsCluster(g, c)
    ensures ClusterLba(g, c) < |d| && ClusterData(g, d, c) == d[ClusterLba(g, c)]
  {
    hide ValidGeometry, ClusterLba, Concat;
    ConcatOne(ClusterSectors(g, d, c));
  }

  lemma {:induction false} OneCluster(v: View, c: nat)
    requires 2 <= c < |v.data|
    ensures InVolume(v, [c]) && Content(v, [c]) == v.data[c]
  {
    ConcatOne(Pieces(v, [c]));
  }

  lemma {:induction false} OneLink(v: View, w: View)
    requires |v.fat| == |v.data| == 3 && w == v.(fat := v.fat[2 := END_OF_CHAIN])
    ensures IsChain(w.fat, [2]) && w.data == v.data
  {
  }

  lemma {:induction false} BlankData(d: seq<Sector>)
    requires |d| == 3
    ensures ValidGeometry(TINY, |d|) && Mirrored(TINY, d) && |ViewOf(TINY, d).data| == 3
    ensures ViewOf(TINY, d).data[2] == d[2]
  {
    hide ValidGeometry, Mirrored, ViewOf, ClusterData, ClusterLba, IsCluster, Mul;
    TinyGeometry(d);
    DataOf(TINY, d, 2);
    OneSector(TINY, d, 2);
  }

  lemma {:induction false} EmptyDirectory(d: seq<Sector>, e: seq<Sector>)
    requires |d| == 3 && d[2] == Zeros(512) && e == WithEntry(TINY, d, 2, END_OF_CHAIN)
    ensures |e| == 3 && ValidGeometry(TINY, 3) && Mirrored(TINY, e)
    ensures var v := ViewOf(TINY, e); IsChain(v.fat, [2]) && InVolume(v, [2]) && Content(v, [2]) == Zeros(512)
  {
    hide ValidGeometry, Mirrored, ViewOf, WithEntry, Content, IsChain, Zeros;
    BlankData(d);
    EntrySet(TINY, d, 2, END_OF_CHAIN);
    OneLink(ViewOf(TINY, d), ViewOf(TINY, e));
    OneCluster(ViewOf(TINY, e), 2);
  }

  lemma {:induction false} EmptyMount(m: Mount)
    requires m.g == TINY && m.disk == Disk()
    ensures m.Valid() && IsChain(m.Volume().fat, [2]) && InVolume(m.Volume(), [2])
    ensures Content(m.Volume(), [2]) == Zeros(512)
  {
    hide ViewOf, ValidGeometry, Mirrored, Content, IsChain, WithEntry, Zeros;
    EmptyDirectory(Blank(), Disk());
  }

  // ---- two long names ----

  /** The name "longfile1.txt", with another digit for each `k`. */
  function LongName(k: nat): CString
    requires k < 10
  {
    [0x6C, 0x6F, 0x6E, 0x67, 0x66, 0x69, 0x6C, 0x65, 0x30 + k, DOT, 0x74, 0x78, 0x74]
  }

  lemma {:induction false} LongNameParts(k: nat)
    requires k < 10
    ensures |LongName(k)| == 13 && Storable(LongName(k)) && Encoded(LongName(k)).name[0] == 0x4C
    ensures Base(LongName(k))[..8] == LongName(0)[..8] && |Base(LongName(k))| == 9
    ensures Ext(LongName(k)) == [0x74, 0x78, 0x74]
  {
    var n := LongName(k);
    assert n[9] == DOT && forall i :: 0 <= i < 9 ==> n[i] != DOT;
    var j := DotIndex(n);
    assert j == 9;
  }

  lemma {:induction false} LongNamesAlike(a: nat, b: nat)
    requires a < 10 && b < 10
    ensures Stored(LongName(a)) == Stored(LongName(b))
  {
    LongNameParts(a);
    LongNameParts(b);
    hide LongName, Base, Ext, Stored;
    StoredAlike(LongName(a), LongName(b));
  }

  lemma {:induction false} ZerosAreClean(n: nat, p: nat)
    ensures Clean(Zeros(n), p) && AllUnused(Zeros(n), p)
    decreases n - p
  {
    if p + 32 <= n {
      ZerosAreClean(n, p + 32);
    }
  }

  /** An empty directory with an entry in its first place has another free place. */
  lemma {:induction false} NextFree(c: seq<Byte>, at: nat, slot: Slot)
    requires |c| >= 512 && Inserted(Zeros(512) + Zeros(|c| - 512), 0, at, slot, c) && slot[0] == 0x4C
    ensures FreeAt(c, 0).Some?
  {
    assert at == 0;
    assert c[0] == 0x4C && c[32] == 0;
    assert FreeAt(c, 32) == Some(32);
  }

  lemma {:induction false} EmptyIsFree()
    ensures FreeAt(Zeros(512), 0).Some?
  {
  }

  /** One more entry of the name stored. */
  lemma {:induction false} OneMore(g: Geometry, cs: seq<nat>, c: seq<Byte>, c': seq<Byte>, name: CString, at: nat,
                                   e: Entry, w: Place)
    requires CreateDone(g, cs, c, c', name, at, e, w) && Clean(c, 0) && Storable(name)
    ensures Clean(c', 0) && Tally(c', Stored(name), 0) == Tally(c, Stored(name), 0) + 1
    ensures |c| <= |c'| && Inserted(c + Zeros(|c'| - |c|), 0, at, e.slot, c')
  {
    hide Lookup, Tally, Clean, Unique, Inserted, Stored, Located;
    assert Answers(name, Stored(name));
  }

  lemma {:induction false} CountedTwice(c: seq<Byte>, n: CString)
    requires Tally(c, n, 0) == 2
    ensures !Unique(c, 0)
  {
    UniqueIff(c, 0);
    hide Tally, Unique;
  }

  lemma {:induction false} LongFacts(k: nat, c: seq<Byte>)
    requires k < 10
    ensures |LongName(k)| > 12 && Storable(LongName(k)) && Encoded(LongName(k)).name[0] == 0x4C
    ensures Stored(LongName(k)) == Stored(LongName(0)) && Lookup(c, LongName(k), 0) == None
  {
    LongNameParts(k);
    hide *;
    LongNamesAlike(k, 0);
    LongNeverFound(c, LongName(k), 0);
  }

  lemma {:induction false} EmptyFacts(n: CString)
    ensures Clean(Zeros(512), 0) && FreeAt(Zeros(512), 0).Some? && Tally(Zeros(512), n, 0) == 0
  {
    ZerosAreClean(512, 0);
    EmptyIsFree();
    UnusedMeansNone(Zeros(512), n, 0);
  }

  /** A file with a long name, in a directory that has a free place: the creation succeeds, and there is one
      more entry of the name stored. */
  method CreateLong(m: Mount, dir: nat, name: CString, ghost cs: seq<nat>)
    returns (r: Option<Entry>, ghost cs': seq<nat>, ghost at: nat)
    requires |name| > 12 && Storable(name)
    requires m.Valid() && IsChain(m.Volume().fat, cs) && InVolume(m.Volume(), cs) && cs != [] && cs[0] == dir
    requires Clean(Content(m.Volume(), cs), 0) && FreeAt(Content(m.Volume(), cs), 0).Some?
    modifies m
    ensures m.Valid() && r.Some? && r.value.slot[0] == Encoded(name).name[0]
    ensures cs' != [] && cs'[0] == dir && IsChain(m.Volume().fat, cs') && InVolume(m.Volume(), cs')
    ensures var c, c' := Content(old(m.Volume()), cs), Content(m.Volume(), cs');
            Clean(c', 0) && Tally(c', Stored(name), 0) == Tally(c, Stored(name), 0) + 1 &&
            |c| <= |c'| && Inserted(c + Zeros(|c'| - |c|), 0, at, r.value.slot, c')
  {
    hide ViewOf, ValidGeometry, Mirrored, Content, Lookup, Tally, Clean, NewSlot, FreeAt, IsChain, Untouched, Grown,
         FreeClusters, Encoded, Stored, Inserted, CreateDone;
    ghost var c, w := Content(m.Volume(), cs), Place(0, 0, 0);
    LongNeverFound(c, name, 0);
    r, cs', at, w := FatCreate(m, dir, name, false, cs);
    NewSlotFields(Encoded(name), ATTR_ARCHIVE, 0);
    OneMore(m.g, cs', c, Content(m.Volume(), cs'), name, at, r.value, w);
  }

  /** Two names cut alike, created one after the other in an empty directory: both creations succeed, neither
      file is found under the name it was given, and the directory has two entries of one name. */
  method LongNamesClash() returns (m: Mount, first: Option<Entry>, second: Option<Entry>, ghost cs: seq<nat>)
    ensures m.Valid() && first.Some? && second.Some? && InVolume(m.Volume(), cs)
    ensures var c := Content(m.Volume(), cs);
            Lookup(c, LongName(1), 0) == None && Lookup(c, LongName(2), 0) == None &&
            Tally(c, Stored(LongName(0)), 0) == 2 && !Unique(c, 0)
  {
    hide *;
    m := new Mount(TINY, Disk());
    EmptyMount(m);
    ghost var c, at := Content(m.Volume(), [2]), 0;
    EmptyFacts(Stored(LongName(0)));
    LongFacts(1, c);
    first, cs, at := CreateLong(m, 2, LongName(1), [2]);
    c := Content(m.Volume(), cs);
    NextFree(c, at, first.value.slot);
    LongFacts(2, c);
    second, cs, at := CreateLong(m, 2, LongName(2), cs);
    c := Content(m.Volume(), cs);
    LongFacts(1, c);
    LongFacts(2, c);
    CountedTwice(c, Stored(LongName(0)));
  }
}
