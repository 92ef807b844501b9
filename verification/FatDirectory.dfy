/** Looking up, creating and removing entries of a directory on the volume. */
module FatDirectory {
  import opened Bytes
  import opened Options
  import opened FatLayout
  import opened FatChains
  import opened FatView
  import opened FatVolume
  import opened FatFile
  import opened FatMark
  import opened FatNames
  import opened FatSlots

  /** A place in a chain: sector `i` of its cluster number `n`, byte `offset` of the sector. */
  datatype Place = Place(n: nat, i: nat, offset: nat)

  /** `sector` and `offset` are where byte `at` of the chain's content is on the device. */
  ghost predicate Located(g: Geometry, cs: seq<nat>, at: nat, sector: nat, w: Place) {
    && w.n < |cs| && w.i < g.sectorsPerCluster && w.offset < 512
    && at == Mul(w.n, g.ClusterBytes()) + w.i * 512 + w.offset
    && IsCluster(g, cs[w.n]) && sector == ClusterLba(g, cs[w.n]) + w.i
  }

  lemma {:induction false} MulAligned(n: nat, m: nat)
    requires m % 32 == 0
    ensures Mul(n, m) % 32 == 0
  {
    if n > 0 {
      MulAligned(n - 1, m);
    }
  }

  /** Sector `i` of a chain's cluster number `n`, as part of the chain's content. */
  method ReadDirSector(m: Mount, cluster: nat, i: nat, ghost cs: seq<nat>, ghost n: nat) returns (ok: bool, buf: Sector)
    requires m.Valid() && InVolume(m.Volume(), cs) && n < |cs| && cluster == cs[n] && i < m.g.sectorsPerCluster
    ensures ok && Mul(n, m.g.ClusterBytes()) + i * 512 + 512 <= |Content(m.Volume(), cs)|
    ensures buf ==
            Content(m.Volume(), cs)[Mul(n, m.g.ClusterBytes()) + i * 512..Mul(n, m.g.ClusterBytes()) + i * 512 + 512]
  {
    hide Mirrored, ValidGeometry, Content, FatOf;
    ClusterInRange(m.g, |m.disk|, cluster, i);
    ok, buf := m.DevRead(ClusterLba(m.g, cluster) + i);
    ConcatAt(ClusterSectors(m.g, m.disk, cluster), 512, i, 0, 512);
    MulIsProduct(i, 512);
    ContentAt(m.Volume(), m.g.ClusterBytes(), cs, n, i * 512, 512);
  }

  // ---- dir_find ----

  lemma {:induction false} SlotInSector(c: seq<Byte>, b: nat, buf: Sector, e: nat)
    requires b + 512 <= |c| && c[b..b + 512] == buf && e < 16
    ensures SlotAt(c, b + 32 * e) == buf[32 * e..32 * e + 32] && c[b + 32 * e] == buf[32 * e]
  {
    var k := b + 32 * e;
    var x, y := c[k..k + 32], buf[32 * e..32 * e + 32];
    forall j | 0 <= j < 32 ensures x[j] == y[j] {
      assert c[b..b + 512][32 * e + j] == c[k + j];
    }
  }

  /** Scans one sector for a name. `c` is the directory's content and `b` the sector's place in it. */
  method ScanSector(buf: Sector, name: CString, ghost c: seq<Byte>, ghost b: nat)
    returns (found: bool, ended: bool, e: nat)
    requires b + 512 <= |c| && c[b..b + 512] == buf
    ensures found ==> e < 16 && Lookup(c, name, b) == Some(b + 32 * e)
    ensures ended ==> !found && Lookup(c, name, b) == None
    ensures !found && !ended ==> Lookup(c, name, b) == Lookup(c, name, b + 512)
  {
    hide Fold, CStr, Decoded, SlotAt;
    e := 0;
    while e < 16
      invariant e <= 16 && Lookup(c, name, b) == Lookup(c, name, b + 32 * e)
    {
      var s: Slot := buf[32 * e..32 * e + 32];
      SlotInSector(c, b, buf, e);
      if s[0] == 0 {
        return false, true, e;
      }
      if s[0] != DELETED && s[11] != ATTR_LFN && s[11] / ATTR_VOLUME_ID % 2 == 0 {
        var hit := NameMatches(PackedName(s), name);
        if hit {
          return true, false, e;
        }
      }
      e := e + 1;
    }
    found, ended := false, false;
  }

  lemma {:induction false} LookupPastEnd(c: seq<Byte>, name: CString, p: nat)
    requires p + 32 > |c|
    ensures Lookup(c, name, p) == None
  {
  }

  /** Finds the directory entry with this name, up to ASCII case, and where it is. */
  method DirFind(m: Mount, dir: nat, name: CString, ghost cs: seq<nat>)
    returns (found: bool, slot: Slot, sector: nat, offset: nat, ghost at: nat, ghost w: Place)
    requires m.Valid() && IsFile(m.Volume().fat, dir, cs) && InVolume(m.Volume(), cs)
    ensures Lookup(Content(m.Volume(), cs), name, 0) == if found then Some(at) else None
    ensures found ==> at + 32 <= |Content(m.Volume(), cs)| && slot == SlotAt(Content(m.Volume(), cs), at)
    ensures found ==> Located(m.g, cs, at, sector, w) && w.offset == offset && offset % 32 == 0
  {
    hide Lookup, Content, Mount.Valid, Mount.Volume, IsChain, SlotAt;
    ghost var v := m.Volume();
    ghost var c := Content(v, cs);
    FileInVolume(v, dir, cs);
    ContentLength(v, m.g.ClusterBytes(), cs);
    slot, sector, offset := Zeros(32), 0, 0;
    at, w := 0, Place(0, 0, 0);
    var cluster := dir;
    ghost var n := 0;
    while !IsEoc(cluster) && cluster >= 2
      invariant v == m.Volume() && 0 <= n <= |cs|
      invariant n < |cs| ==> cluster == cs[n]
      invariant n == |cs| ==> IsEoc(cluster) || cluster < 2
      invariant Lookup(c, name, 0) == Lookup(c, name, Mul(n, m.g.ClusterBytes()))
      decreases |cs| - n
    {
      var i := 0;
      while i < m.g.sectorsPerCluster
        invariant 0 <= i <= m.g.sectorsPerCluster && v == m.Volume()
        invariant Lookup(c, name, 0) == Lookup(c, name, Mul(n, m.g.ClusterBytes()) + i * 512)
      {
        var ok, buf := ReadDirSector(m, cluster, i, cs, n);
        if !ok {
          return false, slot, sector, offset, at, w;
        }
        ghost var b := Mul(n, m.g.ClusterBytes()) + i * 512;
        var hit, ended, e := ScanSector(buf, name, c, b);
        if hit {
          at, w := b + 32 * e, Place(n, i, 32 * e);
          SlotInSector(c, b, buf, e);
          return true, buf[32 * e..32 * e + 32], ClusterLba(m.g, cluster) + i, 32 * e, at, w;
        }
        if ended {
          return false, slot, sector, offset, at, w;
        }
        i := i + 1;
      }
      ChainSuccessor(v.fat, cs, n);
      cluster := ReadFat(m, cluster);
      n := n + 1;
    }
    LookupPastEnd(c, name, Mul(n, m.g.ClusterBytes()));
    found := false;
  }

  // ---- find_free_dirent ----

  method ScanFree(buf: Sector, ghost c: seq<Byte>, ghost b: nat) returns (found: bool, e: nat)
    requires b + 512 <= |c| && c[b..b + 512] == buf
    ensures found ==> e < 16 && FreeAt(c, b) == Some(b + 32 * e)
    ensures !found ==> FreeAt(c, b) == FreeAt(c, b + 512)
  {
    e := 0;
    while e < 16
      invariant e <= 16 && FreeAt(c, b) == FreeAt(c, b + 32 * e)
    {
      SlotInSector(c, b, buf, e);
      if buf[32 * e] == 0 || buf[32 * e] == DELETED {
        return true, e;
      }
      e := e + 1;
    }
    found := false;
  }

  lemma {:induction false} FreePastEnd(c: seq<Byte>, p: nat)
    requires p + 32 > |c|
    ensures FreeAt(c, p) == None
  {
  }

  /** The first free entry of a directory; if there is none, its last cluster. */
  method ScanChainFree(m: Mount, dir: nat, ghost cs: seq<nat>)
    returns (found: bool, cluster: nat, sector: nat, offset: nat, ghost at: nat, ghost w: Place)
    requires m.Valid() && IsChain(m.Volume().fat, cs) && cs != [] && cs[0] == dir && InVolume(m.Volume(), cs)
    ensures FreeAt(Content(m.Volume(), cs), 0) == if found then Some(at) else None
    ensures found ==> Located(m.g, cs, at, sector, w) && w.offset == offset && offset % 32 == 0
    ensures !found ==> cluster == cs[|cs| - 1]
  {
    hide FreeAt, Content, Mount.Valid, Mount.Volume, IsChain;
    ghost var v := m.Volume();
    ghost var c := Content(v, cs);
    ContentLength(v, m.g.ClusterBytes(), cs);
    sector, offset := 0, 0;
    at, w := 0, Place(0, 0, 0);
    cluster := dir;
    ghost var n := 0;
    while true
      invariant v == m.Volume() && 0 <= n < |cs| && cluster == cs[n]
      invariant FreeAt(c, 0) == FreeAt(c, Mul(n, m.g.ClusterBytes()))
      decreases |cs| - n
    {
      var i := 0;
      while i < m.g.sectorsPerCluster
        invariant 0 <= i <= m.g.sectorsPerCluster && v == m.Volume()
        invariant FreeAt(c, 0) == FreeAt(c, Mul(n, m.g.ClusterBytes()) + i * 512)
      {
        var read, buf := ReadDirSector(m, cluster, i, cs, n);
        ghost var b := Mul(n, m.g.ClusterBytes()) + i * 512;
        var hit, e := ScanFree(buf, c, b);
        if hit {
          at, w := b + 32 * e, Place(n, i, 32 * e);
          return true, cluster, ClusterLba(m.g, cluster) + i, 32 * e, at, w;
        }
        i := i + 1;
      }
      ChainSuccessor(v.fat, cs, n);
      var next := ReadFat(m, cluster);
      if IsEoc(next) || next < 2 {
        FreePastEnd(c, Mul(n + 1, m.g.ClusterBytes()));
        return false, cluster, sector, offset, at, w;
      }
      cluster := next;
      n := n + 1;
    }
  }

  lemma {:induction false} StartGrowth(v: View, cs: seq<nat>, size: nat)
    requires IsView(v, size) && IsChain(v.fat, cs) && size % 32 == 0
    ensures cs != [] && InVolume(v, cs) && Growth(v, cs, v, cs)
    ensures Grown(Content(v, cs), Content(v, cs))
  {
    ContentLength(v, size, cs);
    MulAligned(|cs|, size);
  }

  lemma {:induction false} GrownByCluster(v: View, w: View, size: nat, cs: seq<nat>, k: nat)
    requires IsView(v, size) && IsView(w, size) && InVolume(v, cs) && InVolume(w, cs + [k]) && size > 0
    requires size % 32 == 0
    requires Padded(Content(v, cs), Content(w, cs + [k]))
    ensures Grown(Content(v, cs), Content(w, cs + [k])) && 2 <= (cs + [k])[|cs|] < |w.data|
    ensures |Content(v, cs)| == Mul(|cs|, size) < |Content(w, cs + [k])|
  {
    ContentLength(v, size, cs);
    ContentLength(w, size, cs + [k]);
    MulAligned(|cs|, size);
    MulAligned(|cs| + 1, size);
  }

  /** The first free entry of a directory, in a new cluster at its end if need be. */
  method FindFreeDirent(m: Mount, dir: nat, ghost cs: seq<nat>)
    returns (ok: bool, sector: nat, offset: nat, ghost cs': seq<nat>, ghost at: nat, ghost w: Place)
    requires m.Valid() && IsChain(m.Volume().fat, cs) && cs[0] == dir
    modifies m
    ensures m.Valid() && |m.disk| == old(|m.disk|)
    ensures Growth(old(m.Volume()), cs, m.Volume(), cs')
    ensures Grown(Content(old(m.Volume()), cs), Content(m.Volume(), cs'))
    ensures !ok ==> m.Volume() == old(m.Volume()) && cs' == cs && Full(m.Volume())
    ensures |cs'| == |cs| + if ok && FreeAt(Content(old(m.Volume()), cs), 0) == None then 1 else 0
    ensures !ok ==> FreeAt(Content(old(m.Volume()), cs), 0) == None
    ensures ok ==> FreeAt(Content(m.Volume(), cs'), 0) == Some(at)
    ensures ok ==> Located(m.g, cs', at, sector, w) && w.offset == offset && offset % 32 == 0
  {
    hide FreeAt, Content, Mount.Valid, Mount.Volume, IsChain, Growth, Grown, Padded, Full;
    ghost var v := m.Volume();
    StartGrowth(v, cs, m.g.ClusterBytes());
    var cluster: nat;
    cs' := cs;
    ok, cluster, sector, offset, at, w := ScanChainFree(m, dir, cs);
    if ok {
      return;
    }
    var newc := AppendCluster(m, cluster, v, cs, cs);
    if newc == 0 {
      return;
    }
    cs' := cs + [newc];
    GrownByCluster(v, m.Volume(), m.g.ClusterBytes(), cs, newc);
    GrownFree(Content(v, cs), Content(m.Volume(), cs'), 0);
    ok, sector, offset := true, ClusterLba(m.g, newc), 0;
    at, w := |Content(v, cs)|, Place(|cs|, 0, 0);
  }

  // ---- fat_create ----

  function U16(v: nat): (r: seq<Byte>)
    ensures |r| == 2
  {
    [v % 0x100, v / 0x100 % 0x100]
  }

  /** The entry the driver writes for a new file or directory whose first cluster is `first`. */
  function NewSlot(p: Packed, attr: Byte, first: nat): Slot
    requires |p.name| == 8 && |p.ext| == 3 && p.flags < 256
  {
    p.name + p.ext + [attr, p.flags] + Zeros(7) + U16(first / 0x1_0000) + Zeros(4) + U16(first) + Zeros(4)
  }

  /** The first-cluster number an entry holds. */
  function FirstClusterOf(s: Slot): nat {
    var b20: nat, b21: nat, b26: nat, b27: nat := s[20], s[21], s[26], s[27];
    (b20 + b21 * 0x100) * 0x1_0000 + b26 + b27 * 0x100
  }

  /** A first byte that marks deleted entries cannot start a name. */
  predicate Storable(name: CString) { name == [] || name[0] != DELETED }

  /** The name that can be read back from the entry written for `name`: the name itself up to case if it
      fits the 8.3 form, else what is left of it. */
  function Stored(name: CString): CString { CStr(Decoded(Encoded(name))) }

  lemma {:induction false} NewSlotFields(p: Packed, attr: Byte, first: nat)
    requires |p.name| == 8 && |p.ext| == 3 && p.flags < 256 && first < 0x1_0000_0000
    ensures PackedName(NewSlot(p, attr, first)) == p
    ensures NewSlot(p, attr, first)[11] == attr && NewSlot(p, attr, first)[0] == p.name[0]
    ensures FirstClusterOf(NewSlot(p, attr, first)) == first
  {
    var s := NewSlot(p, attr, first);
    assert s[..8] == p.name && s[8..11] == p.ext && s[12] == p.flags;
    var hi := first / 0x1_0000;
    assert s[20] == hi % 0x100 && s[21] == hi / 0x100 % 0x100;
    assert s[26] == first % 0x100 && s[27] == first / 0x100 % 0x100;
  }

  /** The new entry is one that lookups consider exactly when its name can be stored; a fitting
      name's entry is then found under that name alone. */
  lemma {:induction false} NewSlotNamed(name: CString, attr: Byte, first: nat)
    requires first < 0x1_0000_0000 && (attr == ATTR_DIR || attr == ATTR_ARCHIVE)
    ensures var s := NewSlot(Encoded(name), attr, first);
            s[0] != 0 && (IsEntry(s) <==> Storable(name)) &&
            NameOf(s) == Stored(name) && (Fits83(name) ==> Fold(Stored(name)) == Fold(name))
  {
    NewSlotFields(Encoded(name), attr, first);
    var s := NewSlot(Encoded(name), attr, first);
    assert s[0] == if Base(name) == [] then SPACE else Upper(Base(name)[0]);
    assert Base(name) != [] ==> Base(name)[0] == name[0];
    assert Base(name) == [] && name != [] ==> name[0] == DOT;
    if Fits83(name) {
      MatchesOwnName(name, NameOf(s));
    }
  }

  /** The entry written for `name` is one that lookups of `n` consider. */
  predicate Answers(name: CString, n: CString) { Storable(name) && Fold(n) == Fold(Stored(name)) }

  /** Directory content `e` is `c` with one entry more, at `at`: it counts under the name stored and is found
      there unless one of that name stands before it; every other lookup and count is as before; names stay
      unique exactly if the name stored was not there. */
  ghost predicate Created(c: seq<Byte>, e: seq<Byte>, name: CString, at: nat) {
    && (forall n: CString :: Lookup(e, n, 0) ==
          if Answers(name, n) then FirstOf(Lookup(c, n, 0), at) else Lookup(c, n, 0))
    && (forall n: CString :: Tally(e, n, 0) == Tally(c, n, 0) + if Answers(name, n) then 1 else 0)
    && Clean(e, 0)
    && (Unique(c, 0) ==> (Unique(e, 0) <==> (Storable(name) ==> Lookup(c, Stored(name), 0) == None)))
  }

  lemma {:induction false} GrownUnique(c: seq<Byte>, d: seq<Byte>)
    requires Grown(c, d)
    ensures Unique(c, 0) ==> Unique(d, 0)
  {
    forall n: CString ensures Tally(d, n, 0) <= Tally(c, n, 0) {
      GrownLookup(c, d, n, 0);
    }
    SameUnique(c, d);
  }

  lemma {:induction false} CreateLaw(c: seq<Byte>, d: seq<Byte>, e: seq<Byte>, name: CString, attr: Byte, first: nat,
                                     at: nat)
    requires Grown(c, d) && FreeAt(d, 0) == Some(at) && Clean(c, 0)
    requires first < 0x1_0000_0000 && (attr == ATTR_DIR || attr == ATTR_ARCHIVE)
    requires at + 32 <= |d| && e == Splice(d, at, NewSlot(Encoded(name), attr, first))
    ensures Created(c, e, name, at)
  {
    hide Lookup, Clean, Unique, Splice, FreeAt, Grown, NameOf, Fold, NewSlot, Tally, Stored, Storable, IsEntry;
    var s := NewSlot(Encoded(name), attr, first);
    NewSlotNamed(name, attr, first);
    GrownClean(c, d, 0);
    forall n: CString
      ensures Lookup(e, n, 0) == if Answers(name, n) then FirstOf(Lookup(c, n, 0), at) else Lookup(c, n, 0)
      ensures Tally(e, n, 0) == Tally(c, n, 0) + if Answers(name, n) then 1 else 0
    {
      GrownLookup(c, d, n, 0);
      InsertLookup(d, at, s, e, n, 0);
    }
    InsertClean(d, at, s, e, 0);
    if Unique(c, 0) {
      GrownUnique(c, d);
      GrownLookup(c, d, Stored(name), 0);
      InsertUniqueIff(d, at, s, e, 0);
    }
  }

  /** A new entry whose name fits the 8.3 form is what lookups of its name find, and keeps names unique. */
  lemma {:induction false} FittingCreated(c: seq<Byte>, e: seq<Byte>, name: CString, at: nat)
    requires Created(c, e, name, at) && Lookup(c, name, 0) == None && Fits83(name) && Storable(name)
    ensures Lookup(e, name, 0) == Some(at) && (Unique(c, 0) ==> Unique(e, 0))
  {
    NewSlotNamed(name, ATTR_ARCHIVE, 0);
    hide Lookup, Clean, Unique, Fold, Stored, Fits83, Tally;
    SameName(c, Stored(name), name, 0);
  }

  /** The "." and ".." entries of a new directory. */
  function DotSector(self: nat, parent: nat): Sector {
    NewSlot(Packed([DOT] + seq(7, _ => SPACE), seq(3, _ => SPACE), 0), ATTR_DIR, self) +
    NewSlot(Packed([DOT, DOT] + seq(6, _ => SPACE), seq(3, _ => SPACE), 0), ATTR_DIR, parent) +
    Zeros(448)
  }

  ghost function DirData(size: nat, self: nat, parent: nat): seq<Byte>
    requires size >= 512
  {
    Splice(Zeros(size), 0, DotSector(self, parent))
  }

  lemma {:induction false} NotFull(v: View, c: nat)
    requires 2 <= c < |v.fat| && v.fat[c] == 0
    ensures !Full(v)
  {
  }

  lemma {:induction false} SectorsPositive(g: Geometry, sectors: nat)
    requires ValidGeometry(g, sectors)
    ensures g.sectorsPerCluster >= 1
  {
  }

  /** The cluster of a new directory; 0 when the volume is full. */
  method MakeDirCluster(m: Mount, parent: nat) returns (c: nat)
    requires m.Valid()
    modifies m
    ensures m.Valid() && |m.disk| == old(|m.disk|)
    ensures c == 0 ==> m.Volume() == old(m.Volume()) && Full(m.Volume())
    ensures m.g.ClusterBytes() >= 512
    ensures c != 0 ==> IsCluster(m.g, c) && old(m.Volume()).fat[c] == 0 && !Full(old(m.Volume()))
    ensures c != 0 ==> m.Volume() == old(m.Volume()).(
      fat := old(m.Volume()).fat[c := END_OF_CHAIN],
      data := old(m.Volume()).data[c := DirData(m.g.ClusterBytes(), c, parent)])
  {
    hide ViewOf, Mirrored, ValidGeometry, ClusterLba, DotSector, Full;
    SectorsPositive(m.g, |m.disk|);
    c := AllocZeroed(m);
    if c == 0 {
      return;
    }
    NotFull(old(m.Volume()), c);
    ghost var d := m.disk;
    ClusterInRange(m.g, |m.disk|, c, 0);
    var ok := m.DevWrite(ClusterLba(m.g, c), DotSector(c, parent));
    assert DotSector(c, parent) == Splice(d[ClusterLba(m.g, c)], 0, DotSector(c, parent));
    PatchView(m.g, d, c, 0, 0, DotSector(c, parent), m.disk);
  }

  lemma {:induction false} StayGrowth(v: View, cs: seq<nat>)
    requires IsChain(v.fat, cs) && |v.fat| == |v.data|
    ensures Growth(v, cs, v, cs)
  {
  }

  /** Writes an entry at its place in a directory's chain. */
  method WriteDirentAt(m: Mount, sector: nat, offset: nat, s: Slot, ghost cs: seq<nat>, ghost at: nat, ghost w: Place)
    returns (ok: bool)
    requires m.Valid() && IsChain(m.Volume().fat, cs) && InVolume(m.Volume(), cs)
    requires Located(m.g, cs, at, sector, w) && w.offset == offset && offset % 32 == 0
    modifies m
    ensures ok && m.Valid() && |m.disk| == old(|m.disk|)
    ensures Growth(old(m.Volume()), cs, m.Volume(), cs)
    ensures at + 32 <= |Content(old(m.Volume()), cs)|
    ensures Content(m.Volume(), cs) == Splice(Content(old(m.Volume()), cs), at, s)
  {
    hide ViewOf, Mirrored, ValidGeometry, ClusterLba, Growth, Content, Mul;
    ghost var c := cs[w.n];
    ClusterInRange(m.g, |m.disk|, c, w.i);
    var read, buf := m.DevRead(sector);
    ok := m.DevWrite(sector, Splice(buf, offset, s));
    PatchView(m.g, old(m.disk), c, w.i, offset, s, m.disk);
    ghost var v := old(m.Volume());
    ChainAcyclic(v.fat, cs);
    StayGrowth(v, cs);
    PatchGrowth(v, cs, v, cs, w.n, m.Volume().data[c]);
    ContentPatch(v, m.g.ClusterBytes(), cs, w.n, w.i * 512 + offset, s, m.Volume());
  }

  /** Where a new entry was put, and the entry. */
  datatype Entry = Entry(sector: nat, offset: nat, slot: Slot)

  ghost function FreeClusters(v: View): set<nat> { set c | 2 <= c < |v.fat| && v.fat[c] == 0 }

  /** The clusters a creation needs: one for the directory if it has no free entry, one for a new directory. */
  ghost function ClustersNeeded(c: seq<Byte>, isDir: bool): nat {
    (if FreeAt(c, 0) == None then 1 else 0) + if isDir then 1 else 0
  }

  lemma {:induction false} FullIff(v: View)
    ensures Full(v) <==> |FreeClusters(v)| == 0
  {
    if |FreeClusters(v)| == 0 {
      forall c | 2 <= c < |v.fat| ensures v.fat[c] != 0 {
        assert c !in FreeClusters(v);
      }
    } else {
      var c :| c in FreeClusters(v);
      assert !Full(v);
    }
  }

  /** A chain that grows by one cluster uses up one free cluster. */
  lemma {:induction false} GrowthUses(v0: View, cs: seq<nat>, v1: View, cs': seq<nat>)
    requires Growth(v0, cs, v1, cs') && IsChain(v0.fat, cs) && |cs'| <= |cs| + 1
    ensures |FreeClusters(v1)| + |cs'| == |FreeClusters(v0)| + |cs|
  {
    forall c | c in cs'
      ensures c !in FreeClusters(v1) && (c in FreeClusters(v0) ==> c == cs'[|cs'| - 1] && |cs'| > |cs|)
    {
      if c < |v1.fat| && v1.fat[c] == 0 {
        FreeNotInChain(v1.fat, cs', c);
      }
      if c < |v0.fat| && v0.fat[c] == 0 {
        FreeNotInChain(v0.fat, cs, c);
      }
    }
    if |cs'| > |cs| {
      assert FreeClusters(v1) == FreeClusters(v0) - {cs'[|cs|]};
    } else {
      assert FreeClusters(v1) == FreeClusters(v0);
    }
  }

  /** The entry is on the device where it says, in the first free place of the directory, which may have
      grown; lookups and counts are those of one entry more. */
  ghost predicate CreateDone(g: Geometry, cs: seq<nat>, c0: seq<Byte>, c: seq<Byte>, name: CString, at: nat, e: Entry,
                             w: Place)
  {
    && Lookup(c0, name, 0) == None
    && Located(g, cs, at, e.sector, w) && w.offset == e.offset
    && |c0| <= |c| && Inserted(c0 + Zeros(|c| - |c0|), 0, at, e.slot, c)
    && (Clean(c0, 0) ==> Created(c0, c, name, at))
  }

  /** The entry names a new one-cluster directory holding "." and ".." and nothing else. */
  ghost predicate DirMade(v0: View, v: View, cs: seq<nat>, slot: Slot, size: nat, parent: nat) {
    var k := FirstClusterOf(slot);
    && IsChain(v.fat, [k]) && InVolume(v, [k]) && k !in cs
    && k < |v0.fat| && v0.fat[k] == 0
    && size >= 512 && Content(v, [k]) == DirData(size, k, parent)
  }

  lemma {:induction false} NothingCreated(v: View, cs: seq<nat>, size: nat)
    requires IsView(v, size) && size % 32 == 0 && IsChain(v.fat, cs) && InVolume(v, cs)
    ensures Untouched(v, cs, v, cs) && Grown(Content(v, cs), Content(v, cs))
  {
    StartGrowth(v, cs, size);
    AllOthersIntact(v, cs, v, cs);
  }

  lemma {:induction false} FoundFree(v0: View, cs: seq<nat>, v1: View, cs': seq<nat>)
    requires InVolume(v0, cs) && Growth(v0, cs, v1, cs')
    ensures cs <= cs' && IsChain(v1.fat, cs') && Untouched(v0, cs, v1, cs')
  {
    AllOthersIntact(v0, cs, v1, cs');
  }

  /** `v2` is `v1` with cluster `k` made a directory's; `k` 0 means none was. */
  ghost predicate WithChild(v1: View, v2: View, k: nat, size: nat, parent: nat) {
    if k == 0 then v2 == v1
    else
      && 2 <= k < |v1.fat| == |v1.data| && v1.fat[k] == 0 && size >= 512
      && v2 == v1.(fat := v1.fat[k := END_OF_CHAIN], data := v1.data[k := DirData(size, k, parent)])
  }

  lemma {:induction false} ChildBorn(v1: View, v2: View, cs: seq<nat>, k: nat, size: nat, parent: nat)
    requires IsChain(v1.fat, cs) && |v1.fat| == |v1.data| && WithChild(v1, v2, k, size, parent)
    ensures Untouched(v1, cs, v2, cs) && Intact(v1, v2, [], cs)
    ensures k != 0 ==> Growth(v1, [], v2, [k]) && k !in cs
  {
    if k == 0 {
      StayGrowth(v1, cs);
      AllOthersIntact(v1, cs, v1, cs);
    } else {
      FreeNotInChain(v1.fat, cs, k);
      assert Growth(v1, [], v2, [k]);
      BirthUntouched(v1, v2, k, cs);
    }
  }

  lemma {:induction false} ChildKept(v0: View, cs: seq<nat>, v1: View, v2: View, v3: View, cs': seq<nat>, k: nat,
                                     size: nat, parent: nat, slot: Slot)
    requires Growth(v0, cs, v1, cs') && k != 0 && WithChild(v1, v2, k, size, parent) && k !in cs'
    requires Growth(v2, cs', v3, cs') && FirstClusterOf(slot) == k
    ensures DirMade(v0, v3, cs', slot, size, parent)
  {
    assert [k][0] == k;
    ContentAppend(v3, [], k);
    assert [] + [k] == [k];
  }

  lemma {:induction false} GrownInserted(c: seq<Byte>, d: seq<Byte>, at: nat, s: Slot, e: seq<Byte>)
    requires Grown(c, d) && FreeAt(d, 0) == Some(at) && at + 32 <= |d| && e == Splice(d, at, s) && s[0] != 0
    ensures |c| <= |e| && Inserted(c + Zeros(|e| - |c|), 0, at, s, e)
  {
    hide FreeAt;
  }

  lemma {:induction false} EntryWrittenLaw(g: Geometry, cs: seq<nat>, c0: seq<Byte>, d: seq<Byte>, e: seq<Byte>,
                                           name: CString, isDir: bool, first: nat, at: nat, entry: Entry, w: Place)
    requires Grown(c0, d) && FreeAt(d, 0) == Some(at) && Lookup(c0, name, 0) == None
    requires first < 0x1_0000_0000 && Located(g, cs, at, entry.sector, w) && w.offset == entry.offset
    requires entry.slot == NewSlot(Encoded(name), if isDir then ATTR_DIR else ATTR_ARCHIVE, first)
    requires at + 32 <= |d| && e == Splice(d, at, entry.slot)
    ensures CreateDone(g, cs, c0, e, name, at, entry, w)
    ensures FirstClusterOf(entry.slot) == first
  {
    hide NewSlot, Created, Lookup, Clean, FreeAt, Splice, Stored, Fits83, Grown, Inserted, Fold, NameOf, IsEntry;
    var attr := if isDir then ATTR_DIR else ATTR_ARCHIVE;
    NewSlotFields(Encoded(name), attr, first);
    NewSlotNamed(name, attr, first);
    GrownInserted(c0, d, at, entry.slot, e);
    if Clean(c0, 0) {
      CreateLaw(c0, d, e, name, attr, first, at);
    }
  }

  /** Creates a file or directory. `cs'` is the directory's chain afterwards, `at` the entry's place
      in its content. */
  method FatCreate(m: Mount, dir: nat, name: CString, isDir: bool, ghost cs: seq<nat>)
    returns (r: Option<Entry>, ghost cs': seq<nat>, ghost at: nat, ghost w: Place)
    requires m.Valid() && IsChain(m.Volume().fat, cs) && InVolume(m.Volume(), cs) && cs != [] && cs[0] == dir
    modifies m
    ensures m.Valid() && |m.disk| == old(|m.disk|)
    ensures cs <= cs' && IsChain(m.Volume().fat, cs') && InVolume(m.Volume(), cs')
    ensures Untouched(old(m.Volume()), cs, m.Volume(), cs')
    ensures r == None <==> Lookup(Content(old(m.Volume()), cs), name, 0).Some? ||
                           |FreeClusters(old(m.Volume()))| < ClustersNeeded(Content(old(m.Volume()), cs), isDir)
    ensures r == None ==> Grown(Content(old(m.Volume()), cs), Content(m.Volume(), cs'))
    ensures r.Some? ==>
      CreateDone(m.g, cs', Content(old(m.Volume()), cs), Content(m.Volume(), cs'), name, at, r.value, w)
    ensures r.Some? ==>
      r.value.slot == NewSlot(Encoded(name), if isDir then ATTR_DIR else ATTR_ARCHIVE, FirstClusterOf(r.value.slot))
    ensures r.Some? && !isDir ==> FirstClusterOf(r.value.slot) == 0
    ensures r.Some? && isDir ==>
      DirMade(old(m.Volume()), m.Volume(), cs', r.value.slot, m.g.ClusterBytes(), dir)
  {
    hide Lookup, Content, Mount.Valid, Mount.Volume, IsChain, Growth, Grown, Full, Untouched, CreateDone, DirMade,
         DirData, NewSlot, Located, FreeAt, FreeClusters;
    ghost var v0 := m.Volume();
    ghost var c0 := Content(v0, cs);
    r, cs', at, w := None, cs, 0, Place(0, 0, 0);
    NothingCreated(v0, cs, m.g.ClusterBytes());
    var taken, _, _, _, _, _ := DirFind(m, dir, name, cs);
    if taken {
      return;
    }
    var ok, sector, offset;
    ok, sector, offset, cs', at, w := FindFreeDirent(m, dir, cs);
    ghost var v1 := m.Volume();
    FoundFree(v0, cs, v1, cs');
    GrowthUses(v0, cs, v1, cs');
    FullIff(v1);
    if !ok {
      return;
    }
    var p := Encode83(name);
    var first := 0;
    if isDir {
      first := MakeDirCluster(m, dir);
      if first == 0 {
        return;
      }
    }
    ghost var v2 := m.Volume();
    ChildBorn(v1, v2, cs', first, m.g.ClusterBytes(), dir);
    UntouchedTrans(v0, cs, v1, cs', v2, cs');
    var slot := NewSlot(p, if isDir then ATTR_DIR else ATTR_ARCHIVE, first);
    NewSlotFields(p, if isDir then ATTR_DIR else ATTR_ARCHIVE, first);
    ok := WriteDirentAt(m, sector, offset, slot, cs', at, w);
    AllOthersIntact(v2, cs', m.Volume(), cs');
    UntouchedTrans(v0, cs, v2, cs', m.Volume(), cs');
    r := Some(Entry(sector, offset, slot));
    EntryWrittenLaw(m.g, cs', c0, Content(v2, cs'), Content(m.Volume(), cs'), name, isDir, first, at, r.value, w);
    if isDir {
      ChildKept(v0, cs, v1, v2, m.Volume(), cs', first, m.g.ClusterBytes(), dir, slot);
    }
  }

  // ---- fat_unlink ----

  datatype Status = Ok | NotFound | IsDirectory | IOError

  /** The table sector that every end mark indexes when it is taken for an entry number. */
  const MARK_SECTOR: nat := 0x1F_FFFF

  lemma {:induction false} MarkSector(v: nat)
    requires v < ENTRY_MASK && IsEoc(v)
    ensures v * 4 / 512 == MARK_SECTOR
  {
  }

  /** One entry of the name, the first, is gone from the directory: the next of that name is found, if any,
      and every other lookup and count is as before. */
  ghost predicate Unlinked(c: seq<Byte>, e: seq<Byte>, name: CString) {
    var k := Lookup(c, name, 0);
    && k.Some? && e == c[k.value := DELETED]
    && (forall n: CString :: Lookup(e, n, 0) ==
          if Fold(n) == Fold(name) then Lookup(c, n, k.value + 32) else Lookup(c, n, 0))
    && (forall n: CString :: Tally(e, n, 0) + (if Fold(n) == Fold(name) then 1 else 0) == Tally(c, n, 0))
    && (Clean(c, 0) ==> Clean(e, 0))
    && (Unique(c, 0) ==> Unique(e, 0) && Lookup(e, name, 0) == None)
  }

  lemma {:induction false} UnlinkLaw(c: seq<Byte>, k: nat, name: CString, e: seq<Byte>)
    requires Removed(c, 0, k, name, e)
    ensures Unlinked(c, e, name)
  {
    hide Lookup, Clean, Unique, Fold, Tally;
    forall n: CString
      ensures Lookup(e, n, 0) == if Fold(n) == Fold(name) then Lookup(c, n, k + 32) else Lookup(c, n, 0)
      ensures Tally(e, n, 0) + (if Fold(n) == Fold(name) then 1 else 0) == Tally(c, n, 0)
    {
      RemoveLookup(c, k, name, e, n, 0);
    }
    RemoveClean(c, k, name, e, 0);
    SameUnique(c, e);
    if Unique(c, 0) {
      UniqueTally(c, name, 0);
      TallyLookup(e, name, 0);
    }
  }

  /** The disk with the entry at this place marked as deleted. */
  function Struck(d: seq<Sector>, sector: nat, offset: nat): (r: seq<Sector>)
    requires sector < |d| && offset < 512
    ensures |r| == |d|
  {
    d[sector := d[sector][offset := DELETED]]
  }

  /** Marks the entry at `at` as deleted. */
  method MarkDeleted(m: Mount, sector: nat, offset: nat, ghost cs: seq<nat>, ghost at: nat, ghost w: Place)
    returns (ok: bool)
    requires m.Valid() && IsChain(m.Volume().fat, cs) && InVolume(m.Volume(), cs)
    requires Located(m.g, cs, at, sector, w) && w.offset == offset && offset % 32 == 0
    modifies m
    ensures ok && m.Valid() && sector < old(|m.disk|) && m.disk == Struck(old(m.disk), sector, offset)
    ensures m.Volume().fat == old(m.Volume()).fat && Growth(old(m.Volume()), cs, m.Volume(), cs)
    ensures at < |Content(old(m.Volume()), cs)|
    ensures Content(m.Volume(), cs) == Content(old(m.Volume()), cs)[at := DELETED]
  {
    hide ViewOf, Mirrored, ValidGeometry, ClusterLba, Growth, Content, Mul;
    ghost var c := cs[w.n];
    ClusterInRange(m.g, |m.disk|, c, w.i);
    var read, buf := m.DevRead(sector);
    ok := m.DevWrite(sector, buf[offset := DELETED]);
    assert buf[offset := DELETED] == Splice(buf, offset, [DELETED]);
    PatchView(m.g, old(m.disk), c, w.i, offset, [DELETED], m.disk);
    ghost var v := old(m.Volume());
    ChainAcyclic(v.fat, cs);
    StayGrowth(v, cs);
    PatchGrowth(v, cs, v, cs, w.n, m.Volume().data[c]);
    ContentPatch(v, m.g.ClusterBytes(), cs, w.n, w.i * 512 + offset, [DELETED], m.Volume());
  }

  /** The entry found under this name is a directory's. */
  predicate NamesDirectory(c: seq<Byte>, name: CString) {
    var k := Lookup(c, name, 0);
    k.Some? && k.value + 32 <= |c| && SlotAt(c, k.value)[11] / ATTR_DIR % 2 == 1
  }

  /** `cs` is the directory's chain, and the file of this name, if there is one, has the chain `ds` apart
      from it. */
  ghost predicate Unlinkable(v: View, dir: nat, name: CString, cs: seq<nat>, ds: seq<nat>) {
    && IsChain(v.fat, cs) && InVolume(v, cs) && cs[0] == dir
    && var c := Content(v, cs);
       var k := Lookup(c, name, 0);
       k.Some? && !NamesDirectory(c, name) && k.value + 32 <= |c| ==>
         IsFile(v.fat, FirstClusterOf(SlotAt(c, k.value)), ds) && Disjoint(ds, cs) && Disjoint(cs, ds)
  }

  /** The mark at the end of a file's chain. */
  ghost function MarkOf(fat: seq<nat>, ds: seq<nat>): nat
    requires ds != [] ==> IsChain(fat, ds)
  {
    if ds == [] then 0 else fat[ds[|ds| - 1]]
  }

  /** The disk when the entry is struck and the file's entries are cleared. */
  ghost function Emptied(g: Geometry, d: seq<Sector>, cs: seq<nat>, ds: seq<nat>, w: Place): (r: seq<Sector>)
    requires w.n < |cs| && cs[w.n] >= 2 && ClusterLba(g, cs[w.n]) + w.i < |d| && w.offset < 512
    ensures |r| == |d|
  {
    WithCleared(g, Struck(d, ClusterLba(g, cs[w.n]) + w.i, w.offset), ds)
  }

  /** The disk after the last step, which takes the end mark for one more entry to clear. */
  ghost function WithMark(g: Geometry, d: seq<Sector>, ds: seq<nat>, mark: nat): (r: seq<Sector>)
    ensures |r| == |d|
  {
    if ds == [] then d else WithEntry(g, d, mark, 0)
  }

  /** What the last step does to the disk `d`: no table entry that the driver reads changes, and nothing
      before the table; a chain keeps its bytes exactly if none of its sectors is changed; the copies of
      the table stay equal exactly if the write misses them or changes nothing there. */
  ghost predicate MarkOutcome(g: Geometry, d: seq<Sector>, ds: seq<nat>, mark: nat)
    requires ValidGeometry(g, |d|)
  {
    var e := WithMark(g, d, ds, mark);
    && ViewOf(g, e) == ViewOf(g, d).(data := ViewOf(g, e).data)
    && (forall es :: IsChain(ViewOf(g, d).fat, es) ==>
          InVolume(ViewOf(g, e), es) && AllClusters(g, es) &&
          (Content(ViewOf(g, e), es) == Content(ViewOf(g, d), es) <==> ds == [] || Unharmed(g, d, mark, 0, es)))
    && (Mirrored(g, e) <==> ds == [] || StaysMirrored(g, d, mark, 0))
  }

  lemma {:induction false} MarkStep(g: Geometry, d: seq<Sector>, ds: seq<nat>, mark: nat)
    requires ValidGeometry(g, |d|) && Mirrored(g, d) && (ds != [] ==> IsEoc(mark) && mark < ENTRY_MASK)
    ensures MarkOutcome(g, d, ds, mark)
  {
    hide Unharmed, StaysMirrored, Mirrored, Content, WithEntry, ViewOf;
    if ds != [] {
      PastTable(g, d, mark, 0);
      MirroredIff(g, d, mark, 0);
      forall es | IsChain(ViewOf(g, d).fat, es)
        ensures InVolume(ViewOf(g, d), es) && AllClusters(g, es)
        ensures Content(ViewOf(g, WithEntry(g, d, mark, 0)), es) == Content(ViewOf(g, d), es) <==>
          Unharmed(g, d, mark, 0, es)
      {
        UnharmedIff(g, d, mark, 0, es);
      }
    }
  }

  /** What has become of the volume when the file's chain has been freed. */
  ghost predicate UnlinkDone(v0: View, v1: View, cs: seq<nat>, ds: seq<nat>, name: CString)
    requires InVolume(v0, cs)
  {
    && v1.fat == Cleared(v0.fat, ds) && IsChain(v1.fat, cs) && InVolume(v1, cs)
    && Unlinked(Content(v0, cs), Content(v1, cs), name)
    && (forall es :: IsChain(v0.fat, es) && Disjoint(es, cs) && Disjoint(es, ds) ==> Intact(v0, v1, ds, es))
  }

  lemma {:induction false} MarkedKeepsFile(v0: View, v: View, first: nat, cs: seq<nat>, ds: seq<nat>)
    requires Growth(v0, cs, v, cs) && v.fat == v0.fat && IsFile(v0.fat, first, ds)
    ensures IsFile(v.fat, first, ds)
  {
  }

  lemma {:induction false} OtherCleared(v0: View, v: View, cs: seq<nat>, ds: seq<nat>, es: seq<nat>)
    requires IsChain(v.fat, es) && Disjoint(es, ds) && |v.fat| == |v.data|
    ensures Intact(v, v.(fat := Cleared(v.fat, ds)), ds, es)
    ensures Intact(v0, v, cs, es) ==> Intact(v0, v.(fat := Cleared(v.fat, ds)), ds, es)
  {
  }

  lemma {:induction false} UnlinkedAll(v0: View, v: View, v1: View, cs: seq<nat>, ds: seq<nat>, name: CString, at: nat)
    requires InVolume(v0, cs) && IsChain(v0.fat, cs) && Growth(v0, cs, v, cs) && v.fat == v0.fat && Disjoint(cs, ds)
    requires v1 == v.(fat := Cleared(v.fat, ds)) && |v.fat| == |v.data| && InVolume(v, cs)
    requires Lookup(Content(v0, cs), name, 0) == Some(at)
    requires at < |Content(v0, cs)| && Content(v, cs) == Content(v0, cs)[at := DELETED]
    ensures UnlinkDone(v0, v1, cs, ds, name)
  {
    hide Unlinked, Lookup, Clean, Unique, Growth, Cleared, Intact;
    AllOthersIntact(v0, cs, v, cs);
    ClearedIntact(v, ds, cs);
    LookupStep(Content(v0, cs), name, 0);
    UnlinkLaw(Content(v0, cs), at, name, Content(v, cs));
    forall es | IsChain(v0.fat, es) && Disjoint(es, cs) && Disjoint(es, ds) ensures Intact(v0, v1, ds, es) {
      assert Intact(v0, v, cs, es);
      OtherCleared(v0, v, cs, ds, es);
    }
    OtherCleared(v0, v, cs, ds, cs);
  }

  /** Every other file: it stays a chain through the whole removal, and keeps its bytes exactly if the last
      step changes none of its sectors. */
  lemma {:induction false} BystanderIff(g: Geometry, d: seq<Sector>, d1: seq<Sector>, cs: seq<nat>, ds: seq<nat>,
                                        name: CString, mark: nat, es: seq<nat>)
    requires ValidGeometry(g, |d|) && |d1| == |d| && InVolume(ViewOf(g, d), cs) && AllClusters(g, es)
    requires UnlinkDone(ViewOf(g, d), ViewOf(g, d1), cs, ds, name) && MarkOutcome(g, d1, ds, mark)
    requires IsChain(ViewOf(g, d).fat, es) && Disjoint(es, cs) && Disjoint(es, ds)
    ensures var v := ViewOf(g, WithMark(g, d1, ds, mark));
            IsChain(v.fat, es) && InVolume(v, es) &&
            (Content(v, es) == Content(ViewOf(g, d), es) <==> ds == [] || Unharmed(g, d1, mark, 0, es))
  {
    hide Unharmed, ViewOf, Content, Unlinked, IsChain, Disjoint;
    assert Intact(ViewOf(g, d), ViewOf(g, d1), ds, es);
  }

  /** The directory itself: it is what the removal should leave exactly if the last step changes none of its
      sectors. */
  lemma {:induction false} DirectoryIff(g: Geometry, d: seq<Sector>, d1: seq<Sector>, cs: seq<nat>, ds: seq<nat>,
                                        name: CString, mark: nat)
    requires ValidGeometry(g, |d|) && |d1| == |d| && InVolume(ViewOf(g, d), cs) && AllClusters(g, cs)
    requires UnlinkDone(ViewOf(g, d), ViewOf(g, d1), cs, ds, name) && MarkOutcome(g, d1, ds, mark)
    ensures var v := ViewOf(g, WithMark(g, d1, ds, mark));
            IsChain(v.fat, cs) && InVolume(v, cs) &&
            (Unlinked(Content(ViewOf(g, d), cs), Content(v, cs), name) <==> ds == [] || Unharmed(g, d1, mark, 0, cs))
  {
    hide Unharmed, ViewOf, Content, Lookup, Tally, Fold, Unique, Clean, IsChain;
  }

  /** `d1` is the disk when the entry found at `w` is struck and its file's table entries are cleared. */
  ghost predicate Unlinking(g: Geometry, d: seq<Sector>, d1: seq<Sector>, cs: seq<nat>, ds: seq<nat>, name: CString,
                            w: Place)
    requires ValidGeometry(g, |d|) && InVolume(ViewOf(g, d), cs)
  {
    && (ds != [] ==> IsChain(ViewOf(g, d).fat, ds))
    && w.n < |cs| && w.offset < 512 && ClusterLba(g, cs[w.n]) + w.i < |d|
    && Lookup(Content(ViewOf(g, d), cs), name, 0) == Some(Mul(w.n, g.ClusterBytes()) + w.i * 512 + w.offset)
    && d1 == Emptied(g, d, cs, ds, w) && Mirrored(g, d1)
  }

  lemma {:induction false} FileMark(g: Geometry, d: seq<Sector>, first: nat, ds: seq<nat>)
    requires ValidGeometry(g, |d|) && IsFile(ViewOf(g, d).fat, first, ds)
    ensures var fat := ViewOf(g, d).fat;
            ds != [] ==> IsChain(fat, ds) && IsEoc(MarkOf(fat, ds)) && 2 <= MarkOf(fat, ds) < ENTRY_MASK
  {
  }

  lemma {:induction false} PlaceOf(g: Geometry, cs: seq<nat>, at: nat, sector: nat, w: Place)
    requires Located(g, cs, at, sector, w)
    ensures w.n < |cs| && w.offset < 512 && cs[w.n] >= 2 && ClusterLba(g, cs[w.n]) + w.i == sector
    ensures at == Mul(w.n, g.ClusterBytes()) + w.i * 512 + w.offset
  {
  }

  /** Removes a file. `ds` is the chain its entry names and `w` the entry's place; `d1` is the disk when the
      file's clusters have been freed, before the step that takes the end mark for an entry. */
  method FatUnlink(m: Mount, dir: nat, name: CString, ghost cs: seq<nat>, ghost ds: seq<nat>)
    returns (status: Status, ghost d1: seq<Sector>, ghost w: Place)
    requires m.Valid() && Unlinkable(m.Volume(), dir, name, cs, ds)
    modifies m
    ensures |m.disk| == |d1| == old(|m.disk|)
    ensures status == NotFound <==> Lookup(Content(old(m.Volume()), cs), name, 0) == None
    ensures status == IsDirectory <==> NamesDirectory(Content(old(m.Volume()), cs), name)
    ensures status == NotFound || status == IsDirectory ==> m.disk == old(m.disk)
    // the file is gone, its clusters are free, and no other chain has changed
    ensures status == Ok || status == IOError ==>
      Unlinking(m.g, old(m.disk), d1, cs, ds, name, w) && UnlinkDone(old(m.Volume()), ViewOf(m.g, d1), cs, ds, name)
    // the last step: the disk it leaves, what it reports, and what it spares
    ensures status == Ok || status == IOError ==>
      m.disk == WithMark(m.g, d1, ds, MarkOf(old(m.Volume()).fat, ds)) &&
      MarkOutcome(m.g, d1, ds, MarkOf(old(m.Volume()).fat, ds))
    ensures status == Ok ==> ds == [] || FatLba(m.g, m.g.numFats - 1, MARK_SECTOR) < |m.disk|
    ensures status == IOError ==> ds != [] && FatLba(m.g, m.g.numFats - 1, MARK_SECTOR) >= |m.disk|
    ensures ds == [] || |m.disk| <= m.g.fatStart + MARK_SECTOR ==> m.disk == d1
  {
    hide Lookup, Content, ViewOf, ValidGeometry, Mirrored, IsChain, Growth, Unique, Located, Cleared, UnlinkDone,
         WithEntry, MarkOutcome, WithCleared, Struck;
    ghost var v0 := m.Volume();
    d1 := m.disk;
    status, w := Ok, Place(0, 0, 0);
    var found, slot, sector, offset, at, place := DirFind(m, dir, name, cs);
    w := place;
    if !found {
      return NotFound, d1, w;
    }
    if slot[11] / ATTR_DIR % 2 == 1 {
      return IsDirectory, d1, w;
    }
    PlaceOf(m.g, cs, at, sector, w);
    var ok := MarkDeleted(m, sector, offset, cs, at, w);
    ghost var v := m.Volume();
    MarkedKeepsFile(v0, v, FirstClusterOf(slot), cs, ds);
    FileInVolume(v, FirstClusterOf(slot), ds);
    var last: nat;
    ok, last := FreeChain(m, FirstClusterOf(slot), ds);
    d1 := m.disk;
    FileMark(m.g, old(m.disk), FirstClusterOf(slot), ds);
    UnlinkedAll(v0, v, m.Volume(), cs, ds, name, at);
    MarkStep(m.g, d1, ds, MarkOf(v0.fat, ds));
    if last >= 2 && IsEoc(last) {
      MarkSector(last);
      if |d1| <= m.g.fatStart + MARK_SECTOR {
        PastDevice(m.g, d1, last, 0);
      }
      ok := WriteFat(m, last, 0);
      if !ok {
        status := IOError;
      }
    }
  }
}
