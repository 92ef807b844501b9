/** Where the FAT32 driver finds things on the block device: allocation-table
    entries, clusters, and the byte content of a cluster chain. */
module FatLayout {
  import opened Bytes

  type Sector = s: seq<Byte> | |s| == 512 witness seq(512, _ => 0)

  const END_OF_CHAIN: nat := 0x0FFF_FFFF
  const ENTRY_MASK: nat := 0x1000_0000   // an entry is the low 28 bits of its word

  /** The fields of the mount record that fix the on-disk layout. */
  datatype Geometry = Geometry(
    fatStart: nat, dataStart: nat, sectorsPerCluster: nat,
    totalClusters: nat, fatSize: nat, numFats: nat)
  {
    function ClusterBytes(): nat { sectorsPerCluster * 512 }
  }

  /** A layout that fits a device of `sectors` sectors: the table covers every
      cluster, all copies precede the data area, and no cluster number can be
      mistaken for an end mark. */
  ghost predicate ValidGeometry(g: Geometry, sectors: nat) {
    && g.sectorsPerCluster >= 1
    && g.numFats >= 1
    && g.dataStart == g.fatStart + Mul(g.numFats, g.fatSize)
    && (g.totalClusters + 2) * 4 <= g.fatSize * 512
    && g.dataStart + Mul(g.totalClusters, g.sectorsPerCluster) <= sectors
    && g.totalClusters + 2 <= 0x0FFF_FFF7
  }

  predicate IsEoc(v: nat) { v % ENTRY_MASK >= 0x0FFF_FFF8 }

  predicate IsCluster(g: Geometry, c: nat) { 2 <= c < g.totalClusters + 2 }

  function ClusterLba(g: Geometry, c: nat): nat
    requires c >= 2
  {
    g.dataStart + Mul(c - 2, g.sectorsPerCluster)
  }

  /** Sector `s` of table copy `f`. */
  function FatLba(g: Geometry, f: nat, s: nat): nat {
    g.fatStart + Mul(f, g.fatSize) + s
  }

  function FatWord(g: Geometry, disk: seq<Sector>, c: nat): nat
    requires g.fatStart + c * 4 / 512 < |disk|
  {
    GetU32(disk[g.fatStart + c * 4 / 512], c * 4 % 512)
  }

  lemma {:induction false} TableInRange(g: Geometry, sectors: nat)
    requires ValidGeometry(g, sectors)
    ensures forall c :: 0 <= c < g.totalClusters + 2 ==>
      c * 4 / 512 < g.fatSize && g.fatStart + c * 4 / 512 < g.dataStart
    ensures g.dataStart <= sectors
  {
  }

  /** The allocation table as the driver reads it: entry `c` is the successor of cluster `c`. */
  function FatOf(g: Geometry, disk: seq<Sector>): (fat: seq<nat>)
    requires ValidGeometry(g, |disk|)
    ensures |fat| == g.totalClusters + 2
    ensures forall c :: 0 <= c < |fat| ==> fat[c] < ENTRY_MASK
  {
    TableInRange(g, |disk|);
    seq(g.totalClusters + 2, c requires 0 <= c < g.totalClusters + 2 => FatWord(g, disk, c) % ENTRY_MASK)
  }

  /** All copies of the table hold the same sectors. */
  ghost predicate Mirrored(g: Geometry, disk: seq<Sector>)
    requires ValidGeometry(g, |disk|)
  {
    forall f, s :: 0 <= f < g.numFats && 0 <= s < g.fatSize ==>
      FatLba(g, f, s) < |disk| && disk[FatLba(g, f, s)] == disk[g.fatStart + s]
  }

  // ---- arithmetic of the layout ----

  lemma {:induction false} FatCopyBound(g: Geometry, f: nat, s: nat)
    requires g.dataStart == g.fatStart + Mul(g.numFats, g.fatSize) && g.numFats >= 1
    requires f < g.numFats && s <= g.fatSize
    ensures FatLba(g, f, s) <= g.dataStart
    ensures g.fatStart + s <= g.dataStart
  {
    MulStep(f, g.numFats, g.fatSize);
    MulStep(0, g.numFats, g.fatSize);
  }

  lemma {:induction false} FatCopyOrder(g: Geometry, f: nat, s: nat, f': nat, s': nat)
    requires s < g.fatSize && f < f'
    ensures FatLba(g, f, s) < FatLba(g, f', s')
  {
    MulStep(f, f', g.fatSize);
  }

  lemma {:induction false} ClusterInRange(g: Geometry, sectors: nat, c: nat, s: nat)
    requires ValidGeometry(g, sectors) && IsCluster(g, c) && s < g.sectorsPerCluster
    ensures g.dataStart <= ClusterLba(g, c) + s < sectors
  {
    MulStep(c - 2, g.totalClusters, g.sectorsPerCluster);
  }

  lemma {:induction false} ClusterOrder(g: Geometry, c: nat, s: nat, c': nat, s': nat)
    requires 2 <= c < c' && s < g.sectorsPerCluster
    ensures ClusterLba(g, c) + s < ClusterLba(g, c') + s'
  {
    MulStep(c - 2, c' - 2, g.sectorsPerCluster);
  }

  // ---- clusters ----

  /** The sectors of cluster `c`. */
  function ClusterSectors(g: Geometry, disk: seq<Sector>, c: nat): (r: seq<Sector>)
    requires ValidGeometry(g, |disk|) && IsCluster(g, c)
    ensures |r| == g.sectorsPerCluster && ClusterLba(g, c) + |r| <= |disk|
    ensures forall i :: 0 <= i < |r| ==> r[i] == disk[ClusterLba(g, c) + i]
  {
    ClusterInRange(g, |disk|, c, g.sectorsPerCluster - 1);
    disk[ClusterLba(g, c)..ClusterLba(g, c) + g.sectorsPerCluster]
  }

  /** The bytes of cluster `c`. */
  function ClusterData(g: Geometry, disk: seq<Sector>, c: nat): seq<Byte>
    requires ValidGeometry(g, |disk|) && IsCluster(g, c)
  {
    Concat(ClusterSectors(g, disk, c))
  }

  lemma {:induction false} ClusterDataLength(g: Geometry, disk: seq<Sector>, c: nat)
    requires ValidGeometry(g, |disk|) && IsCluster(g, c)
    ensures |ClusterData(g, disk, c)| == g.ClusterBytes()
  {
    ConcatLength(ClusterSectors(g, disk, c), 512);
    MulIsProduct(g.sectorsPerCluster, 512);
  }

  /** Both disks hold the same sectors outside the table area. */
  ghost predicate SameData(g: Geometry, d: seq<Sector>, e: seq<Sector>) {
    && |d| == |e|
    && (forall l :: 0 <= l < |d| && (l < g.fatStart || g.dataStart <= l) ==> d[l] == e[l])
  }

  lemma {:induction false} SameDataCluster(g: Geometry, d: seq<Sector>, e: seq<Sector>, c: nat)
    requires ValidGeometry(g, |d|) && SameData(g, d, e) && IsCluster(g, c)
    ensures ClusterSectors(g, d, c) == ClusterSectors(g, e, c)
  {
  }

  /** Writing a data sector leaves the table alone. */
  lemma {:induction false} DataWriteKeepsTable(g: Geometry, d: seq<Sector>, lba: nat, s: Sector)
    requires ValidGeometry(g, |d|) && Mirrored(g, d) && g.dataStart <= lba < |d|
    ensures Mirrored(g, d[lba := s])
    ensures FatOf(g, d[lba := s]) == FatOf(g, d)
  {
    TableInRange(g, |d|);
    forall f, t | 0 <= f < g.numFats && 0 <= t < g.fatSize
      ensures FatLba(g, f, t) < lba && g.fatStart + t < lba
    {
      FatCopyBound(g, f, t + 1);
    }
  }

  /** Writing a sector of one cluster changes that cluster alone. */
  lemma {:induction false} ClusterWrite(g: Geometry, d: seq<Sector>, c: nat, i: nat, s: Sector, b: nat)
    requires ValidGeometry(g, |d|) && IsCluster(g, c) && i < g.sectorsPerCluster && IsCluster(g, b)
    requires ClusterLba(g, c) + i < |d|
    ensures ClusterSectors(g, d[ClusterLba(g, c) + i := s], b) ==
            if b == c then ClusterSectors(g, d, c)[i := s] else ClusterSectors(g, d, b)
  {
    ClusterInRange(g, |d|, b, g.sectorsPerCluster - 1);
    if b < c {
      ClusterOrder(g, b, g.sectorsPerCluster - 1, c, i);
    } else if c < b {
      ClusterOrder(g, c, i, b, 0);
    }
  }

  /** `d'` is `d` with bytes `x` written at offset `o` of sector `i` of cluster `c`. */
  ghost predicate Patched(g: Geometry, d: seq<Sector>, c: nat, i: nat, o: nat, x: seq<Byte>, d': seq<Sector>) {
    && IsCluster(g, c) && i < g.sectorsPerCluster && o + |x| <= 512
    && ClusterLba(g, c) + i < |d|
    && d' == d[ClusterLba(g, c) + i := Splice(d[ClusterLba(g, c) + i], o, x)]
  }

  lemma {:induction false} ClusterPatch(g: Geometry, d: seq<Sector>, c: nat, i: nat, o: nat, x: seq<Byte>,
                                        d': seq<Sector>)
    requires ValidGeometry(g, |d|) && Patched(g, d, c, i, o, x, d')
    ensures i * 512 + o + |x| <= |ClusterData(g, d, c)| == g.ClusterBytes()
    ensures ClusterData(g, d', c) == Splice(ClusterData(g, d, c), i * 512 + o, x)
  {
    ClusterWrite(g, d, c, i, Splice(d[ClusterLba(g, c) + i], o, x), c);
    ConcatPatch(ClusterSectors(g, d, c), 512, i, o, x);
    ClusterDataLength(g, d, c);
    MulIsProduct(i, 512);
  }
}
