/** The FAT32 driver's cluster operations over a sector device. */
module FatVolume {
  import opened Bytes
  import opened FatLayout
  import opened FatChains
  import opened FatView

  const E_NOSPACE: int := -28
  const E_INVAL: int := -22

  /** The first `n` table copies have sector `s` replaced by `buf`; nothing else differs. */
  ghost predicate CopiesWritten(g: Geometry, d0: seq<Sector>, d: seq<Sector>, n: nat, s: nat, buf: Sector) {
    && |d| == |d0|
    && (forall f, t :: 0 <= f < g.numFats && 0 <= t < g.fatSize ==>
          FatLba(g, f, t) < |d0| &&
          d[FatLba(g, f, t)] == if f < n && t == s then buf else d0[FatLba(g, f, t)])
    && (forall l :: 0 <= l < |d0| && (l < g.fatStart || g.dataStart <= l) ==> d[l] == d0[l])
  }

  lemma {:induction false} CopiesStart(g: Geometry, d: seq<Sector>, s: nat, buf: Sector)
    requires ValidGeometry(g, |d|)
    ensures CopiesWritten(g, d, d, 0, s, buf)
  {
    forall f: nat, t: nat | f < g.numFats && t < g.fatSize ensures FatLba(g, f, t) < |d| {
      FatCopyBound(g, f, t + 1);
    }
  }

  lemma {:induction false} CopiesStep(g: Geometry, d0: seq<Sector>, d: seq<Sector>, n: nat, s: nat, buf: Sector)
    requires ValidGeometry(g, |d0|) && CopiesWritten(g, d0, d, n, s, buf)
    requires n < g.numFats && s < g.fatSize
    ensures FatLba(g, n, s) < |d|
    ensures CopiesWritten(g, d0, d[FatLba(g, n, s) := buf], n + 1, s, buf)
  {
    FatCopyBound(g, n, s + 1);
    forall f: nat, t: nat | f < g.numFats && t < g.fatSize
      ensures FatLba(g, f, t) == FatLba(g, n, s) ==> f == n && t == s
    {
      if f < n {
        FatCopyOrder(g, f, t, n, s);
      } else if n < f {
        FatCopyOrder(g, n, s, f, t);
      }
    }
  }

  /** The disk after sector number `s` of the first `n` table copies, counted from each copy's start and
      as far as the device has it, is replaced by `buf`. */
  function WithCopies(g: Geometry, d: seq<Sector>, n: nat, s: nat, buf: Sector): (r: seq<Sector>)
    ensures |r| == |d|
  {
    if n == 0 then d
    else
      var r := WithCopies(g, d, n - 1, s, buf);
      if FatLba(g, n - 1, s) < |d| then r[FatLba(g, n - 1, s) := buf] else r
  }

  /** Within the table this replaces one sector of every copy and nothing else. */
  lemma {:induction false} WithinTable(g: Geometry, d: seq<Sector>, n: nat, s: nat, buf: Sector)
    requires ValidGeometry(g, |d|) && n <= g.numFats && s < g.fatSize
    ensures CopiesWritten(g, d, WithCopies(g, d, n, s, buf), n, s, buf)
  {
    if n == 0 {
      CopiesStart(g, d, s, buf);
    } else {
      WithinTable(g, d, n - 1, s, buf);
      CopiesStep(g, d, WithCopies(g, d, n - 1, s, buf), n - 1, s, buf);
    }
  }

  /** The word the driver stores for entry value `v`: the top four bits of the old word are kept. */
  function EntryWord(was: nat, v: nat): (w: nat)
    requires was < 0x1_0000_0000
    ensures w < 0x1_0000_0000
    ensures w % ENTRY_MASK == v % ENTRY_MASK
    ensures w / ENTRY_MASK == was / ENTRY_MASK
  {
    v % ENTRY_MASK + was / ENTRY_MASK * ENTRY_MASK
  }

  /** Sector `buf` differs from the table's sector of entry `c` in that entry's word alone. */
  ghost predicate EntryPatched(g: Geometry, d: seq<Sector>, c: nat, v: nat, buf: Sector) {
    && g.fatStart + c * 4 / 512 < |d|
    && buf == Splice(d[g.fatStart + c * 4 / 512], c * 4 % 512, LittleEndian(EntryWord(FatWord(g, d, c), v)))
  }

  lemma {:induction false} OffsetsApart(c: nat, e: nat)
    ensures c * 4 % 512 + 4 <= 512
    ensures c != e && c * 4 / 512 == e * 4 / 512 ==> c * 4 % 512 + 4 <= e * 4 % 512 || e * 4 % 512 + 4 <= c * 4 % 512
  {
  }

  /** A word spliced into a sector is the one read at its offset; the words apart from it are as they were. */
  lemma {:induction false} WordSpliced(b: seq<Byte>, o: nat, word: nat, x: nat)
    requires o + 4 <= |b| && x + 4 <= |b| && word < 0x1_0000_0000 && (x == o || x + 4 <= o || o + 4 <= x)
    ensures GetU32(Splice(b, o, LittleEndian(word)), x) == if x == o then word else GetU32(b, x)
  {
    var w := LittleEndian(word);
    hide LittleEndian;
    var s := Splice(b, o, w);
    if x == o {
      assert s[x] == w[0] && s[x + 1] == w[1] && s[x + 2] == w[2] && s[x + 3] == w[3];
    } else {
      assert s[x] == b[x] && s[x + 1] == b[x + 1] && s[x + 2] == b[x + 2] && s[x + 3] == b[x + 3];
    }
  }

  lemma {:induction false} EntryWrittenAt(g: Geometry, d0: seq<Sector>, d: seq<Sector>, c: nat, v: nat, buf: Sector,
                                          e: nat)
    requires g.fatStart + e * 4 / 512 < |d0| == |d|
    requires EntryPatched(g, d0, c, v, buf)
    requires d[g.fatStart + e * 4 / 512] ==
             if e * 4 / 512 == c * 4 / 512 then buf else d0[g.fatStart + e * 4 / 512]
    ensures FatWord(g, d, e) % ENTRY_MASK == if e == c then v % ENTRY_MASK else FatWord(g, d0, e) % ENTRY_MASK
  {
    OffsetsApart(c, e);
    OffsetsApart(e, e);
    hide Splice, LittleEndian, GetU32, EntryWord;
    if e * 4 / 512 == c * 4 / 512 {
      WordSpliced(d0[g.fatStart + c * 4 / 512], c * 4 % 512, EntryWord(FatWord(g, d0, c), v), e * 4 % 512);
    }
  }

  lemma {:induction false} MirrorKept(g: Geometry, d0: seq<Sector>, d: seq<Sector>, s: nat, buf: Sector)
    requires ValidGeometry(g, |d0|) && Mirrored(g, d0)
    requires CopiesWritten(g, d0, d, g.numFats, s, buf)
    ensures Mirrored(g, d)
  {
    forall f, t | 0 <= f < g.numFats && 0 <= t < g.fatSize
      ensures FatLba(g, f, t) < |d| && d[FatLba(g, f, t)] == d[g.fatStart + t]
    {
      assert FatLba(g, 0, t) == g.fatStart + t;
    }
  }

  /** Replacing one entry's word in every copy changes that entry alone and keeps the copies equal. */
  lemma {:induction false} EntryWritten(g: Geometry, d0: seq<Sector>, d: seq<Sector>, c: nat, v: nat, buf: Sector)
    requires ValidGeometry(g, |d0|) && Mirrored(g, d0) && c < g.totalClusters + 2
    requires EntryPatched(g, d0, c, v, buf)
    requires CopiesWritten(g, d0, d, g.numFats, c * 4 / 512, buf)
    ensures FatOf(g, d) == FatOf(g, d0)[c := v % ENTRY_MASK]
    ensures Mirrored(g, d)
  {
    TableInRange(g, |d0|);
    MirrorKept(g, d0, d, c * 4 / 512, buf);
    forall e | 0 <= e < g.totalClusters + 2
      ensures FatOf(g, d)[e] == FatOf(g, d0)[c := v % ENTRY_MASK][e]
    {
      assert FatLba(g, 0, e * 4 / 512) == g.fatStart + e * 4 / 512;
      EntryWrittenAt(g, d0, d, c, v, buf, e);
    }
  }

  lemma {:induction false} EntryInRange(g: Geometry, disk: seq<Sector>, c: nat)
    requires ValidGeometry(g, |disk|) && c < g.totalClusters + 2
    ensures g.fatStart + c * 4 / 512 < |disk|
    ensures c * 4 / 512 < g.fatSize
    ensures FatWord(g, disk, c) % ENTRY_MASK == FatOf(g, disk)[c]
  {
  }

  /** The volume that a disk of this layout holds. */
  ghost function ViewOf(g: Geometry, disk: seq<Sector>): (v: View)
    requires ValidGeometry(g, |disk|)
    ensures IsView(v, g.ClusterBytes()) && |v.fat| == g.totalClusters + 2
  {
    forall c | 2 <= c < g.totalClusters + 2 ensures |ClusterData(g, disk, c)| == g.ClusterBytes() {
      ClusterDataLength(g, disk, c);
    }
    FatCopyBound(g, 0, 0);
    View(FatOf(g, disk),
         seq(g.totalClusters + 2, c requires 0 <= c < g.totalClusters + 2 =>
           if c < 2 then [] else ClusterData(g, disk, c)),
         disk[..g.fatStart])
  }

  lemma {:induction false} DataOf(g: Geometry, d: seq<Sector>, c: nat)
    requires ValidGeometry(g, |d|) && IsCluster(g, c)
    ensures ViewOf(g, d).data[c] == ClusterData(g, d, c)
  {
    hide ValidGeometry, FatOf, ClusterData;
  }

  lemma {:induction false} TableWriteView(g: Geometry, d: seq<Sector>, e: seq<Sector>)
    requires ValidGeometry(g, |d|) && SameData(g, e, d)
    ensures ViewOf(g, d).fat == FatOf(g, d)
    ensures ViewOf(g, e) == ViewOf(g, d).(fat := FatOf(g, e))
  {
    FatCopyBound(g, 0, 0);
    forall c | IsCluster(g, c) ensures ClusterData(g, e, c) == ClusterData(g, d, c) {
      SameDataCluster(g, e, d, c);
    }
    assert ViewOf(g, e).data == ViewOf(g, d).data;
    assert ViewOf(g, e).boot == ViewOf(g, d).boot;
  }

  /** The table's sector of entry number `c` with that entry's word set to `v`. */
  function EntrySector(g: Geometry, d: seq<Sector>, c: nat, v: nat): Sector
    requires g.fatStart + c * 4 / 512 < |d|
  {
    OffsetsApart(c, c);
    Splice(d[g.fatStart + c * 4 / 512], c * 4 % 512, LittleEndian(EntryWord(FatWord(g, d, c), v)))
  }

  /** The disk after entry number `c` is set to `v` in every copy; nothing if the device ends before its
      sector. The number may lie beyond the table: the driver does not check it. */
  function WithEntry(g: Geometry, d: seq<Sector>, c: nat, v: nat): (r: seq<Sector>)
    ensures |r| == |d|
  {
    if g.fatStart + c * 4 / 512 >= |d| then d
    else WithCopies(g, d, g.numFats, c * 4 / 512, EntrySector(g, d, c, v))
  }

  lemma {:induction false} SameOutside(g: Geometry, d: seq<Sector>, e: seq<Sector>, n: nat, s: nat, buf: Sector)
    requires CopiesWritten(g, d, e, n, s, buf)
    ensures SameData(g, e, d)
  {
  }

  /** Setting an entry of the table changes that entry alone, keeps the copies equal and every cluster. */
  lemma {:induction false} EntrySet(g: Geometry, d: seq<Sector>, c: nat, v: nat)
    requires ValidGeometry(g, |d|) && Mirrored(g, d) && c < g.totalClusters + 2
    ensures var e := WithEntry(g, d, c, v);
            Mirrored(g, e) && ViewOf(g, e) == ViewOf(g, d).(fat := ViewOf(g, d).fat[c := v % ENTRY_MASK])
  {
    hide ValidGeometry, Mirrored, FatOf, ViewOf, CopiesWritten, WithCopies, Splice, LittleEndian, EntryWord;
    var e := WithEntry(g, d, c, v);
    EntryInRange(g, d, c);
    var buf := EntrySector(g, d, c, v);
    assert EntryPatched(g, d, c, v, buf);
    WithinTable(g, d, g.numFats, c * 4 / 512, buf);
    EntryWritten(g, d, e, c, v, buf);
    SameOutside(g, d, e, g.numFats, c * 4 / 512, buf);
    TableWriteView(g, d, e);
  }

  lemma {:induction false} PatchView(g: Geometry, d: seq<Sector>, c: nat, i: nat, o: nat, x: seq<Byte>, e: seq<Sector>)
    requires ValidGeometry(g, |d|) && Mirrored(g, d) && Patched(g, d, c, i, o, x, e)
    ensures Mirrored(g, e) && i * 512 + o + |x| <= |ViewOf(g, d).data[c]|
    ensures ViewOf(g, e) == ViewOf(g, d).(data := ViewOf(g, d).data[c := Splice(ViewOf(g, d).data[c], i * 512 + o, x)])
  {
    ClusterInRange(g, |d|, c, i);
    FatCopyBound(g, 0, 0);
    var s := Splice(d[ClusterLba(g, c) + i], o, x);
    DataWriteKeepsTable(g, d, ClusterLba(g, c) + i, s);
    ClusterPatch(g, d, c, i, o, x, e);
    forall b | IsCluster(g, b) && b != c ensures ClusterData(g, e, b) == ClusterData(g, d, b) {
      ClusterWrite(g, d, c, i, s, b);
    }
    assert ViewOf(g, e).data == ViewOf(g, d).data[c := ClusterData(g, e, c)];
    assert ViewOf(g, e).boot == ViewOf(g, d).boot;
  }

  /** The mount record, with the block device it owns. */
  class Mount {
    const g: Geometry

    var disk: seq<Sector>

    constructor (g: Geometry, disk: seq<Sector>)
      ensures this.g == g && this.disk == disk
    {
      this.g, this.disk := g, disk;
    }

    ghost predicate Valid()
      reads this
      ensures Valid() ==> g.ClusterBytes() > 0 && g.numFats >= 1
    {
      ValidGeometry(g, |disk|) && Mirrored(g, disk)
    }

    ghost function Volume(): (v: View)
      requires Valid()
      reads this
      ensures IsView(v, g.ClusterBytes()) && |v.fat| == |v.data| == g.totalClusters + 2
    {
      ViewOf(g, disk)
    }

    /** A one-sector transfer succeeds exactly when the sector exists. */
    method DevRead(lba: nat) returns (ok: bool, buf: Sector)
      ensures ok == (lba < |disk|)
      ensures ok ==> buf == disk[lba]
    {
      if lba < |disk| {
        return true, disk[lba];
      }
      return false, Zeros(512);
    }

    method DevWrite(lba: nat, buf: Sector) returns (ok: bool)
      modifies this
      ensures ok == (lba < old(|disk|))
      ensures disk == if ok then old(disk)[lba := buf] else old(disk)
    {
      if lba < |disk| {
        disk := disk[lba := buf];
        return true;
      }
      return false;
    }
  }

  /** Reads entry number `c`, of the table or beyond it; past the device's end it reads as an end mark. */
  method ReadFat(m: Mount, c: nat) returns (v: nat)
    requires m.Valid()
    ensures v == if m.g.fatStart + c * 4 / 512 < |m.disk| then FatWord(m.g, m.disk, c) % ENTRY_MASK else END_OF_CHAIN
    ensures c < m.g.totalClusters + 2 ==> v == m.Volume().fat[c]
  {
    hide ValidGeometry, Mirrored, FatOf, ClusterData, GetU32;
    OffsetsApart(c, c);
    if c < m.g.totalClusters + 2 {
      EntryInRange(m.g, m.disk, c);
    }
    var ok, buf := m.DevRead(m.g.fatStart + c * 4 / 512);
    if !ok {
      return END_OF_CHAIN;
    }
    v := GetU32(buf, c * 4 % 512) % ENTRY_MASK;
  }

  /** The device holds the last copy of the sector that entry number `c` indexes. */
  predicate Writable(g: Geometry, sectors: nat, c: nat) {
    g.numFats >= 1 && FatLba(g, g.numFats - 1, c * 4 / 512) < sectors
  }

  lemma {:induction false} LastCopyHighest(g: Geometry, f: nat, s: nat)
    requires f < g.numFats
    ensures FatLba(g, f, s) <= FatLba(g, g.numFats - 1, s)
  {
    if f < g.numFats - 1 {
      MulStep(f, g.numFats - 1, g.fatSize);
    }
  }

  /** Once one copy is past the end of the device, so are the ones after it. */
  lemma {:induction false} NoMoreCopies(g: Geometry, d: seq<Sector>, f: nat, n: nat, s: nat, buf: Sector)
    requires f <= n && FatLba(g, f, s) >= |d|
    ensures WithCopies(g, d, n, s, buf) == WithCopies(g, d, f, s, buf)
  {
    if f < n {
      NoMoreCopies(g, d, f, n - 1, s, buf);
      if f < n - 1 {
        MulStep(f, n - 1, g.fatSize);
      }
    }
  }

  /** Writes one sector at the same place of every copy, until the device ends. */
  method WriteCopies(m: Mount, s: nat, buf: Sector) returns (ok: bool)
    requires m.g.numFats >= 1
    modifies m
    ensures ok == (FatLba(m.g, m.g.numFats - 1, s) < |m.disk|)
    ensures m.disk == WithCopies(m.g, old(m.disk), m.g.numFats, s, buf)
  {
    var f := 0;
    while f < m.g.numFats
      invariant 0 <= f <= m.g.numFats && m.disk == WithCopies(m.g, old(m.disk), f, s, buf)
      invariant f > 0 ==> FatLba(m.g, f - 1, s) < |m.disk|
    {
      var written := m.DevWrite(FatLba(m.g, f, s), buf);
      if !written {
        LastCopyHighest(m.g, f, s);
        NoMoreCopies(m.g, old(m.disk), f, m.g.numFats, s, buf);
        return false;
      }
      f := f + 1;
    }
    ok := true;
  }

  lemma {:induction false} LastCopyOnDevice(g: Geometry, sectors: nat, s: nat)
    requires ValidGeometry(g, sectors) && s < g.fatSize
    ensures FatLba(g, g.numFats - 1, s) < sectors
  {
    FatCopyBound(g, g.numFats - 1, s + 1);
  }

  /** Sets entry number `c` in every copy. For an entry of the table that is an update of the table. */
  method WriteFat(m: Mount, c: nat, v: nat) returns (ok: bool)
    requires m.Valid()
    modifies m
    ensures ok == Writable(m.g, |m.disk|, c)
    ensures m.disk == WithEntry(m.g, old(m.disk), c, v)
    ensures c < m.g.totalClusters + 2 ==> ok && m.Valid()
    ensures c < m.g.totalClusters + 2 ==>
      m.Volume() == old(m.Volume()).(fat := old(m.Volume()).fat[c := v % ENTRY_MASK])
  {
    hide ValidGeometry, Mirrored, FatOf, ClusterData, GetU32, EntryWord, LittleEndian, Splice, ViewOf, WithCopies;
    var s, o := c * 4 / 512, c * 4 % 512;
    OffsetsApart(c, c);
    if c < m.g.totalClusters + 2 {
      EntryInRange(m.g, m.disk, c);
      EntrySet(m.g, m.disk, c, v);
      LastCopyOnDevice(m.g, |m.disk|, s);
    }
    var read, buf := m.DevRead(m.g.fatStart + s);
    if !read {
      return false;
    }
    ok := WriteCopies(m, s, Splice(buf, o, LittleEndian(EntryWord(GetU32(buf, o), v))));
  }

  /** Takes the lowest free cluster and marks it as the end of a chain; 0 when none is free. */
  method AllocCluster(m: Mount) returns (c: nat)
    requires m.Valid()
    modifies m
    ensures m.Valid() && |m.disk| == old(|m.disk|)
    ensures c == 0 ==> m.disk == old(m.disk) && Full(m.Volume())
    ensures c != 0 ==> IsCluster(m.g, c) && old(m.Volume()).fat[c] == 0
    ensures c != 0 ==> m.Volume() == old(m.Volume()).(fat := old(m.Volume()).fat[c := END_OF_CHAIN])
    ensures forall d :: 2 <= d < c ==> old(m.Volume()).fat[d] != 0
  {
    var i := 2;
    while i < m.g.totalClusters + 2
      invariant 2 <= i <= m.g.totalClusters + 2
      invariant m.disk == old(m.disk)
      invariant forall d :: 2 <= d < i ==> m.Volume().fat[d] != 0
    {
      var v := ReadFat(m, i);
      if v == 0 {
        var _ := WriteFat(m, i, END_OF_CHAIN);
        return i;
      }
      i := i + 1;
    }
    return 0;
  }

  /** The first `n` sectors of a cluster's bytes are zero. */
  ghost predicate ZeroUpTo(b: seq<Byte>, n: nat) {
    forall k :: 0 <= k < |b| && k < n * 512 ==> b[k] == 0
  }

  method ZeroCluster(m: Mount, c: nat) returns (ok: bool)
    requires m.Valid() && IsCluster(m.g, c)
    modifies m
    ensures ok && m.Valid() && |m.disk| == old(|m.disk|)
    ensures m.Volume() == old(m.Volume()).(data := old(m.Volume()).data[c := Zeros(m.g.ClusterBytes())])
  {
    hide ViewOf, Mirrored, ValidGeometry, ClusterLba;
    ghost var v0 := m.Volume();
    var s := 0;
    while s < m.g.sectorsPerCluster
      invariant 0 <= s <= m.g.sectorsPerCluster
      invariant m.Valid() && |m.disk| == old(|m.disk|)
      invariant m.Volume() == v0.(data := v0.data[c := m.Volume().data[c]])
      invariant ZeroUpTo(m.Volume().data[c], s)
    {
      ClusterInRange(m.g, |m.disk|, c, s);
      ghost var d, v := m.disk, m.Volume();
      var written := m.DevWrite(ClusterLba(m.g, c) + s, Zeros(512));
      if !written {
        return false;
      }
      assert Zeros(512) == Splice(d[ClusterLba(m.g, c) + s], 0, Zeros(512));
      PatchView(m.g, d, c, s, 0, Zeros(512), m.disk);
      s := s + 1;
    }
    assert m.Volume().data[c] == Zeros(m.g.ClusterBytes());
    ok := true;
  }
}
