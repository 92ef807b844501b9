/** A volume on which the removal of one file changes the bytes of another: the last step of a removal
    clears a table entry whose number lies beyond the table, and on a large device that entry's sector
    lies in the data area. */
module FatStray {
  import opened Bytes
  import opened Options
  import opened FatLayout
  import opened FatChains
  import opened FatView
  import opened FatVolume
  import opened FatFile
  import opened FatMark
  import opened FatNames
  import opened FatSlots
  import opened FatDirectory

  /** Two tables of 200 sectors and 25000 clusters of 64 KiB, about 1.5 GiB in all. */
  const LARGE: Geometry := Geometry(32, 432, 128, 25000, 200, 2)

  const SECTORS: nat := 3_200_432

  /** The sector that every end mark indexes lies in this cluster, at this sector of it. */
  const VICTIM: nat := 16382

  const VICTIM_SECTOR: nat := 111
  const STRAY: nat := 2_097_183
  const NAME: CString := [0x41]

  lemma {:induction false} LargeGeometry()
    ensures ValidGeometry(LARGE, SECTORS)
    ensures ClusterLba(LARGE, 2) == 432 && ClusterLba(LARGE, VICTIM) + VICTIM_SECTOR == STRAY
    ensures LARGE.fatStart + MARK_SECTOR == STRAY
  {
    MulIsProduct(2, 200);
    MulIsProduct(25000, 128);
    MulIsProduct(VICTIM - 2, 128);
    MulIsProduct(0, 128);
  }

  /** The directory's first sector: one file, whose first cluster is 3. */
  function DirSector(): Sector { NewSlot(Encoded(NAME), ATTR_ARCHIVE, 3) + Zeros(480) }

  function BlankSector(l: nat): Sector {
    if l == 432 then DirSector() else if l == STRAY then seq(512, _ => 0xFF) else Zeros(512)
  }

  /** A device of zeros but for the directory and one sector of the other file. */
  function Blank(): (d: seq<Sector>)
    ensures |d| == SECTORS
  {
    seq(SECTORS, l requires 0 <= l < SECTORS => BlankSector(l))
  }

  /** The volume: directory in cluster 2, the file in cluster 3, another file in cluster `VICTIM`. */
  function Disk(): (d: seq<Sector>)
    ensures |d| == SECTORS
  {
    WithEntry(LARGE, WithEntry(LARGE, WithEntry(LARGE, Blank(), 2, END_OF_CHAIN), 3, END_OF_CHAIN),
              VICTIM, END_OF_CHAIN)
  }

  lemma {:induction false} BlankAt(l: nat)
    requires LARGE.fatStart <= l < LARGE.dataStart
    ensures Blank()[l] == Zeros(512)
  {
    hide DirSector;
  }

  lemma {:induction false} InTable(f: nat, s: nat)
    requires f < LARGE.numFats && s < LARGE.fatSize
    ensures LARGE.fatStart <= FatLba(LARGE, f, s) < LARGE.dataStart
  {
    LargeGeometry();
    FatCopyBound(LARGE, f, s + 1);
  }

  lemma {:induction false} BlankTable()
    ensures ValidGeometry(LARGE, SECTORS) && Mirrored(LARGE, Blank())
    ensures forall c :: 0 <= c < 25002 ==> FatOf(LARGE, Blank())[c] == 0
  {
    hide Blank, ValidGeometry, FatLba;
    LargeGeometry();
    forall f, s | 0 <= f < LARGE.numFats && 0 <= s < LARGE.fatSize
      ensures FatLba(LARGE, f, s) < SECTORS && Blank()[FatLba(LARGE, f, s)] == Blank()[LARGE.fatStart + s]
    {
      InTable(f, s);
      BlankAt(FatLba(LARGE, f, s));
      BlankAt(LARGE.fatStart + s);
    }
    TableInRange(LARGE, SECTORS);
    forall c | 0 <= c < 25002 ensures FatOf(LARGE, Blank())[c] == 0 {
      BlankAt(LARGE.fatStart + c * 4 / 512);
    }
  }

  lemma {:induction false} DiskVolume()
    ensures ValidGeometry(LARGE, SECTORS) && Mirrored(LARGE, Disk())
    ensures ViewOf(LARGE, Disk()).data == ViewOf(LARGE, Blank()).data
    ensures var fat := ViewOf(LARGE, Disk()).fat;
            IsChain(fat, [2]) && IsChain(fat, [3]) && IsChain(fat, [VICTIM]) && fat[3] == END_OF_CHAIN
  {
    hide WithEntry, Mirrored, ViewOf, ValidGeometry, Blank;
    BlankTable();
    var a := Blank();
    var b := WithEntry(LARGE, a, 2, END_OF_CHAIN);
    var c := WithEntry(LARGE, b, 3, END_OF_CHAIN);
    EntrySet(LARGE, a, 2, END_OF_CHAIN);
    EntrySet(LARGE, b, 3, END_OF_CHAIN);
    EntrySet(LARGE, c, VICTIM, END_OF_CHAIN);
  }

  lemma {:induction false} DirCluster()
    ensures ValidGeometry(LARGE, SECTORS)
    ensures var c := ClusterData(LARGE, Blank(), 2);
            |c| >= 512 && c[0..512] == DirSector()
  {
    hide DirSector, ValidGeometry;
    LargeGeometry();
    var ss := ClusterSectors(LARGE, Blank(), 2);
    assert ss[0] == DirSector();
    ConcatAt(ss, 512, 0, 0, 512);
  }

  lemma {:induction false} DirContent()
    ensures ValidGeometry(LARGE, SECTORS) && InVolume(ViewOf(LARGE, Disk()), [2])
    ensures Content(ViewOf(LARGE, Disk()), [2]) == ClusterData(LARGE, Blank(), 2)
  {
    hide Blank, Disk, ValidGeometry, ClusterData, FatOf;
    DiskVolume();
    ContentAppend(ViewOf(LARGE, Disk()), [], 2);
    assert [] + [2] == [2];
  }

  lemma {:induction false} NameFits()
    ensures Fits83(NAME) && Storable(NAME)
  {
  }

  lemma {:induction false} FileFound()
    ensures ValidGeometry(LARGE, SECTORS) && InVolume(ViewOf(LARGE, Disk()), [2])
    ensures var c := Content(ViewOf(LARGE, Disk()), [2]);
            Lookup(c, NAME, 0) == Some(0) && !NamesDirectory(c, NAME) && Unique(c, 0) &&
            FirstClusterOf(SlotAt(c, 0)) == 3
  {
    hide Disk, ViewOf, ValidGeometry, Content, NewSlot, Fits83, Encoded, NameOf, Fold, ClusterData;
    DirContent();
    DirCluster();
    var c, s := Content(ViewOf(LARGE, Disk()), [2]), NewSlot(Encoded(NAME), ATTR_ARCHIVE, 3);
    assert SlotAt(c, 0) == c[0..512][..32] == s;
    assert c[32] == c[0..512][32] == 0;
    NameFits();
    NewSlotNamed(NAME, ATTR_ARCHIVE, 3);
    NewSlotFields(Encoded(NAME), ATTR_ARCHIVE, 3);
    assert Lookup(c, NameOf(s), 32) == None && Unique(c, 32);
  }

  lemma {:induction false} CanBeUnlinked()
    ensures ValidGeometry(LARGE, SECTORS) && Unlinkable(ViewOf(LARGE, Disk()), 2, NAME, [2], [3])
  {
    hide Disk, ViewOf, ValidGeometry, Content, Lookup, NamesDirectory, FirstClusterOf, SlotAt;
    DiskVolume();
    FileFound();
  }

  /** The disk when the file has been removed but for the last step. */
  ghost function Freed(): (d: seq<Sector>)
    ensures |d| == SECTORS
  {
    LargeGeometry();
    Emptied(LARGE, Disk(), [2], [3], Place(0, 0, 0))
  }

  /** Setting a table entry leaves the data area alone. */
  lemma {:induction false} EntryFar(d: seq<Sector>, c: nat, v: nat, l: nat)
    requires |d| == SECTORS && c < 25002 && 432 <= l < SECTORS
    ensures WithEntry(LARGE, d, c, v)[l] == d[l]
  {
    hide WithCopies, EntrySector, ValidGeometry;
    LargeGeometry();
    EntryInRange(LARGE, d, c);
    WithinTable(LARGE, d, 2, c * 4 / 512, EntrySector(LARGE, d, c, v));
  }

  lemma {:induction false} BlankStray()
    ensures Blank()[STRAY] == seq(512, _ => 0xFF)
  {
    hide DirSector;
  }

  /** Until the last step the other file's sector holds what it held. */
  lemma {:induction false} VictimUntouched()
    ensures Disk()[STRAY] == Freed()[STRAY] == seq(512, _ => 0xFF)
  {
    hide WithEntry, Blank;
    var a := Blank();
    var b := WithEntry(LARGE, a, 2, END_OF_CHAIN);
    var c := WithEntry(LARGE, b, 3, END_OF_CHAIN);
    EntryFar(a, 2, END_OF_CHAIN, STRAY);
    EntryFar(b, 3, END_OF_CHAIN, STRAY);
    EntryFar(c, VICTIM, END_OF_CHAIN, STRAY);
    BlankStray();
    LargeGeometry();
    var d := Struck(Disk(), 432, 0);
    assert WithCleared(LARGE, d, [3]) == WithEntry(LARGE, WithCleared(LARGE, d, []), 3, 0) by { assert [3][..0] == []; }
    EntryFar(d, 3, 0, STRAY);
  }

  /** That disk is the one `FatUnlink` comes to before its last step. */
  lemma {:induction false} FreedReached()
    ensures ValidGeometry(LARGE, SECTORS) && InVolume(ViewOf(LARGE, Disk()), [2])
    ensures Unlinking(LARGE, Disk(), Freed(), [2], [3], NAME, Place(0, 0, 0))
  {
    hide Disk, ViewOf, ValidGeometry, Content, Lookup, WithEntry, Mirrored;
    LargeGeometry();
    DiskVolume();
    FileFound();
    var d := Struck(Disk(), 432, 0);
    DataWriteKeepsTable(LARGE, Disk(), 432, Disk()[432][0 := DELETED]);
    EntrySet(LARGE, d, 3, 0);
    assert WithCleared(LARGE, d, [3]) == WithEntry(LARGE, WithCleared(LARGE, d, []), 3, 0) by { assert [3][..0] == []; }
  }

  lemma {:induction false} StrayWord(d: seq<Sector>)
    requires |d| == SECTORS && d[STRAY] == seq(512, _ => 0xFF)
    ensures FatWord(LARGE, d, END_OF_CHAIN) % ENTRY_MASK != 0
  {
    MarkSector(END_OF_CHAIN);
  }

  /** The last step of a removal of `ds`, from disk `d1`, leaves the chain `es` with other bytes than it had
      on disk `d`. */
  ghost predicate Damages(g: Geometry, d: seq<Sector>, d1: seq<Sector>, ds: seq<nat>, mark: nat, es: seq<nat>)
    requires ValidGeometry(g, |d|) && |d1| == |d| && AllClusters(g, es)
  {
    Content(ViewOf(g, WithMark(g, d1, ds, mark)), es) != Content(ViewOf(g, d), es)
  }

  lemma {:induction false} StrayDamages()
    ensures ValidGeometry(LARGE, SECTORS) && Damages(LARGE, Disk(), Freed(), [3], END_OF_CHAIN, [VICTIM])
  {
    hide Disk, ViewOf, ValidGeometry, Content, WithEntry, EntrySector, FatWord, Overwrites, Freed;
    LargeGeometry();
    VictimUntouched();
    var d1 := Freed();
    var d2 := WithMark(LARGE, d1, [3], END_OF_CHAIN);
    MarkSector(END_OF_CHAIN);
    StrayWord(d1);
    SameWordIff(LARGE, d1, END_OF_CHAIN, 0);
    WithEntryAt(LARGE, d1, END_OF_CHAIN, 0, STRAY);
    FirstOverwritten(LARGE, MARK_SECTOR);
    assert SectorOf(LARGE, [VICTIM], 0, VICTIM_SECTOR) == STRAY;
    SameContentIff(LARGE, Disk(), d2, [VICTIM]);
  }

  /** `FatUnlink` accepts the file of cluster 3, comes to `Freed()` and ends with other bytes in the file of
      cluster `VICTIM`. */
  lemma {:induction false} RemovalDamagesAnotherFile()
    ensures ValidGeometry(LARGE, SECTORS) && Mirrored(LARGE, Disk())
    ensures Unlinkable(ViewOf(LARGE, Disk()), 2, NAME, [2], [3])
    ensures InVolume(ViewOf(LARGE, Disk()), [2]) && Unlinking(LARGE, Disk(), Freed(), [2], [3], NAME, Place(0, 0, 0))
    ensures IsChain(ViewOf(LARGE, Disk()).fat, [VICTIM]) && ViewOf(LARGE, Disk()).fat[3] == END_OF_CHAIN
    ensures Damages(LARGE, Disk(), Freed(), [3], END_OF_CHAIN, [VICTIM])
  {
    hide *;
    CanBeUnlinked();
    DiskVolume();
    FreedReached();
    StrayDamages();
  }
}
