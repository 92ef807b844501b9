/** A directory in use: creating, removing and writing files of it, one after the other, on a mounted volume. */
module FatSession {
  import opened Bytes
  import opened Options
  import opened FatLayout
  import opened FatChains
  import opened FatView
  import opened FatVolume
  import opened FatFile
  import opened FatMark
  import opened FatNames
  import opened FatSlots
  import opened FatDirectory

  // ---- fat_write ----

  /** `e` is `c` with the entry at `at` rewritten under the same name and attributes. */
  ghost predicate Rewritten(c: seq<Byte>, at: nat, s: Slot, e: seq<Byte>) {
    at % 32 == 0 && at + 32 <= |c| && e == Splice(c, at, s) &&
    PackedName(s) == PackedName(SlotAt(c, at)) && s[11] == c[at + 11]
  }

  lemma {:induction false} RewrittenSlot(c: seq<Byte>, at: nat, s: Slot, e: seq<Byte>, p: nat)
    requires Rewritten(c, at, s, e) && p % 32 == 0 && p + 32 <= |c|
    ensures e[p] == c[p] && NameOf(SlotAt(e, p)) == NameOf(SlotAt(c, p))
    ensures IsEntry(SlotAt(e, p)) == IsEntry(SlotAt(c, p))
  {
    hide Decoded, CStr;
    if p == at {
      assert SlotAt(e, p) == s;
      assert s[0] == PackedName(s).name[0] && c[at] == PackedName(SlotAt(c, at)).name[0];
    } else {
      assert SlotAt(e, p) == SlotAt(c, p);
    }
  }

  lemma {:induction false} RewrittenLength(c: seq<Byte>, at: nat, s: Slot, e: seq<Byte>)
    requires Rewritten(c, at, s, e)
    ensures |e| == |c|
  {
  }

  lemma {:induction false} RewrittenLookup(c: seq<Byte>, at: nat, s: Slot, e: seq<Byte>, n: CString, p: nat)
    requires Rewritten(c, at, s, e) && p % 32 == 0
    ensures Lookup(e, n, p) == Lookup(c, n, p) && Tally(e, n, p) == Tally(c, n, p)
    ensures AllUnused(e, p) == AllUnused(c, p) && Clean(e, p) == Clean(c, p)
    decreases |c| - p
  {
    hide NameOf, IsEntry, Fold, Rewritten;
    assert |e| == |c| by { RewrittenLength(c, at, s, e); }
    if p + 32 <= |c| {
      RewrittenSlot(c, at, s, e, p);
      RewrittenLookup(c, at, s, e, n, p + 32);
    }
  }

  /** The entry with the file's first cluster and size brought up to date. */
  function Updated(s: Slot, first: nat, size: nat): Slot {
    s[..20] + U16(first / 0x1_0000) + s[22..26] + U16(first) + LittleEndian(size % 0x1_0000_0000)
  }

  lemma {:induction false} UpdatedFields(s: Slot, first: nat, size: nat)
    requires first < 0x1_0000_0000
    ensures PackedName(Updated(s, first, size)) == PackedName(s) && Updated(s, first, size)[11] == s[11]
    ensures FirstClusterOf(Updated(s, first, size)) == first
    ensures GetU32(Updated(s, first, size), 28) == size % 0x1_0000_0000
  {
    hide LittleEndian;
    var t, word := Updated(s, first, size), LittleEndian(size % 0x1_0000_0000);
    assert t[..8] == s[..8] && t[8..11] == s[8..11] && t[12] == s[12];
    var hi := first / 0x1_0000;
    assert t[20] == hi % 0x100 && t[21] == hi / 0x100 % 0x100;
    assert t[26] == first % 0x100 && t[27] == first / 0x100 % 0x100;
    assert t[28] == word[0] && t[29] == word[1] && t[30] == word[2] && t[31] == word[3];
  }

  /** What the driver keeps of an open file: its first cluster, its size, and where its entry is. */
  datatype Node = Node(first: nat, size: nat, sector: nat, offset: nat)

  /** Every chain of `v0` apart from the directory `cs` and the file `ds` is intact, and apart from the file as
      it is now, `ds'`. */
  ghost predicate OthersKept(v0: View, v: View, cs: seq<nat>, ds: seq<nat>, ds': seq<nat>) {
    forall es :: IsChain(v0.fat, es) && Disjoint(es, ds) && Disjoint(es, cs) ==> Intact(v0, v, ds', es)
  }

  lemma {:induction false} DisjointBack(a: seq<nat>, b: seq<nat>)
    requires Disjoint(a, b)
    ensures Disjoint(b, a)
  {
  }

  lemma {:induction false} EmptyContent(v1: View, v2: View)
    ensures InVolume(v1, []) && InVolume(v2, []) && Content(v2, []) == Content(v1, [])
  {
  }

  /** The file's chain and the others when the chain has been written and then the entry. */
  lemma {:induction false} WrittenKept(v0: View, v1: View, v2: View, cs: seq<nat>, ds: seq<nat>, ds': seq<nat>,
                                       first: nat)
    requires Untouched(v0, ds, v1, ds') && Growth(v1, cs, v2, cs) && IsFile(v1.fat, first, ds')
    requires IsChain(v0.fat, cs) && Disjoint(cs, ds) && |v1.fat| == |v1.data|
    ensures IsChain(v2.fat, cs) && Disjoint(cs, ds') && Disjoint(ds', cs) && IsFile(v2.fat, first, ds')
    ensures OthersKept(v0, v2, cs, ds, ds')
    ensures InVolume(v1, ds') && InVolume(v2, ds') && Content(v2, ds') == Content(v1, ds')
  {
    hide Content, Growth;
    assert Intact(v0, v1, ds', cs);
    DisjointBack(cs, ds');
    AllOthersIntact(v1, cs, v2, cs);
    forall es | IsChain(v0.fat, es) && Disjoint(es, ds) && Disjoint(es, cs) ensures Intact(v0, v2, ds', es) {
      assert Intact(v0, v1, ds', es);
      assert Intact(v1, v2, cs, es);
    }
    if ds' == [] {
      EmptyContent(v1, v2);
    } else {
      assert Intact(v1, v2, cs, ds');
    }
  }

  function Max(a: nat, b: nat): nat { if a < b then b else a }

  lemma {:induction false} SectorInCluster(g: Geometry, d: seq<Sector>, c: nat, i: nat)
    requires ValidGeometry(g, |d|) && IsCluster(g, c) && i < g.sectorsPerCluster
    ensures ClusterLba(g, c) + i < |d| && i * 512 + 512 <= |ClusterData(g, d, c)|
    ensures ClusterData(g, d, c)[i * 512..i * 512 + 512] == d[ClusterLba(g, c) + i]
  {
    hide ValidGeometry, ClusterLba, Concat;
    var ss := ClusterSectors(g, d, c);
    ConcatAt(ss, 512, i, 0, 512);
    MulIsProduct(i, 512);
    hide Mul;
    assert ss[i][0..512] == ss[i];
  }

  lemma {:induction false} SectorBytes(g: Geometry, d: seq<Sector>, cs: seq<nat>, w: Place)
    requires ValidGeometry(g, |d|) && w.n < |cs| && w.i < g.sectorsPerCluster && InVolume(ViewOf(g, d), cs)
    ensures var b := Mul(w.n, g.ClusterBytes()) + w.i * 512;
            IsCluster(g, cs[w.n]) && ClusterLba(g, cs[w.n]) + w.i < |d| && b + 512 <= |Content(ViewOf(g, d), cs)| &&
            Content(ViewOf(g, d), cs)[b..b + 512] == d[ClusterLba(g, cs[w.n]) + w.i]
  {
    hide ValidGeometry, Content, ViewOf, ClusterData, ClusterLba, Mul;
    SectorInCluster(g, d, cs[w.n], w.i);
    DataOf(g, d, cs[w.n]);
    ContentAt(ViewOf(g, d), g.ClusterBytes(), cs, w.n, w.i * 512, 512);
  }

  /** The bytes of the entry at `at`, on the device. */
  lemma {:induction false} EntryBytes(g: Geometry, d: seq<Sector>, cs: seq<nat>, at: nat, sector: nat, w: Place)
    requires ValidGeometry(g, |d|) && InVolume(ViewOf(g, d), cs) && Located(g, cs, at, sector, w) && w.offset % 32 == 0
    ensures sector < |d| && w.offset + 32 <= 512 && at + 32 <= |Content(ViewOf(g, d), cs)|
    ensures SlotAt(Content(ViewOf(g, d), cs), at) == d[sector][w.offset..w.offset + 32]
  {
    SectorBytes(g, d, cs, w);
    hide ValidGeometry, Content, ViewOf, Mul, ClusterLba;
    SlotInSector(Content(ViewOf(g, d), cs), Mul(w.n, g.ClusterBytes()) + w.i * 512, d[sector], w.offset / 32);
  }

  /** Brings the entry at `at` up to date. */
  method UpdateDirent(m: Mount, node: Node, ghost cs: seq<nat>, ghost at: nat, ghost w: Place)
    requires m.Valid() && IsChain(m.Volume().fat, cs) && InVolume(m.Volume(), cs)
    requires Located(m.g, cs, at, node.sector, w) && w.offset == node.offset && node.offset % 32 == 0
    modifies m
    ensures m.Valid() && |m.disk| == old(|m.disk|)
    ensures Growth(old(m.Volume()), cs, m.Volume(), cs) && at + 32 <= |Content(old(m.Volume()), cs)|
    ensures Content(m.Volume(), cs) == Splice(Content(old(m.Volume()), cs), at,
              Updated(SlotAt(Content(old(m.Volume()), cs), at), node.first, node.size))
  {
    hide ViewOf, Mirrored, ValidGeometry, ClusterLba, Growth, Content, Mul, Updated;
    EntryBytes(m.g, m.disk, cs, at, node.sector, w);
    var read, buf := m.DevRead(node.sector);
    if read {
      var slot := Updated(buf[node.offset..node.offset + 32], node.first, node.size);
      var written := m.DevWrite(node.sector, Splice(buf, node.offset, slot));
      PatchView(m.g, old(m.disk), cs[w.n], w.i, node.offset, slot, m.disk);
      ghost var v := old(m.Volume());
      ChainAcyclic(v.fat, cs);
      StayGrowth(v, cs);
      PatchGrowth(v, cs, v, cs, w.n, m.Volume().data[cs[w.n]]);
      ContentPatch(v, m.g.ClusterBytes(), cs, w.n, w.i * 512 + node.offset, slot, m.Volume());
    }
  }

  /** The directory when the file's chain has been written. */
  lemma {:induction false} DirectoryKept(v0: View, v1: View, cs: seq<nat>, ds: seq<nat>, ds': seq<nat>, first: nat)
    requires Untouched(v0, ds, v1, ds') && IsFile(v1.fat, first, ds') && |v1.fat| == |v1.data| == |v0.fat|
    requires IsChain(v0.fat, cs) && InVolume(v0, cs) && Disjoint(cs, ds) && |v1.fat| <= 0x0FFF_FFF7
    ensures IsChain(v1.fat, cs) && InVolume(v1, cs) && Content(v1, cs) == Content(v0, cs)
    ensures Disjoint(cs, ds') && Disjoint(ds', cs) && OthersKept(v0, v1, cs, ds, ds')
    ensures InVolume(v1, ds') && first < 0x1_0000_0000
  {
    hide Content;
    assert Intact(v0, v1, ds', cs);
    DisjointBack(cs, ds');
  }

  lemma {:induction false} SameFull(v: View, w: View, cs: seq<nat>)
    requires Growth(v, cs, w, cs)
    ensures Full(v) ==> Full(w)
  {
    forall c | 2 <= c < |w.fat| && c in cs ensures w.fat[c] != 0 {
      if w.fat[c] == 0 {
        FreeNotInChain(w.fat, cs, c);
      }
    }
  }

  /** Writes to a file and brings its entry up to date; when nothing could be written the entry stays as it
      is. */
  method FatWrite(m: Mount, node: Node, offset: nat, buf: seq<Byte>, ghost cs: seq<nat>, ghost ds: seq<nat>,
                  ghost at: nat, ghost w: Place)
    returns (r: Option<nat>, node': Node, ghost ds': seq<nat>)
    requires m.Valid() && IsChain(m.Volume().fat, cs) && InVolume(m.Volume(), cs)
    requires IsFile(m.Volume().fat, node.first, ds) && InVolume(m.Volume(), ds) && Disjoint(cs, ds)
    requires Located(m.g, cs, at, node.sector, w) && w.offset == node.offset && node.offset % 32 == 0
    modifies m
    ensures m.Valid() && |m.disk| == old(|m.disk|)
    ensures IsChain(m.Volume().fat, cs) && InVolume(m.Volume(), cs) && ds <= ds' && InVolume(m.Volume(), ds')
    ensures IsFile(m.Volume().fat, node'.first, ds') && (ds != [] ==> node'.first == node.first)
    ensures Disjoint(cs, ds') && Disjoint(ds', cs)
    ensures OthersKept(old(m.Volume()), m.Volume(), cs, ds, ds')
    ensures at + 32 <= |Content(old(m.Volume()), cs)|
    ensures r == None ==>
      Content(m.Volume(), cs) == Content(old(m.Volume()), cs) && node' == node.(first := node'.first)
    ensures r.Some? ==>
      0 < r.value <= |buf| && node' == node.(first := node'.first, size := Max(node.size, offset + r.value)) &&
      Overlaid(Content(old(m.Volume()), ds), Content(m.Volume(), ds'), offset, buf[..r.value])
    ensures r.Some? ==>
      node'.first < 0x1_0000_0000 && Content(m.Volume(), cs) == Splice(Content(old(m.Volume()), cs), at,
        Updated(SlotAt(Content(old(m.Volume()), cs), at), node'.first, node'.size))
    ensures (r == None || r.value < |buf|) && buf != [] ==> Full(m.Volume())
  {
    hide Content, ViewOf, ValidGeometry, Mirrored, IsChain, Growth, Untouched, Overlaid, Padded, FatOf, Located,
         Updated, OthersKept, IsFile, Disjoint, SlotAt;
    ghost var v0 := m.Volume();
    EntryBytes(m.g, m.disk, cs, at, node.sector, w);
    var status, first;
    status, first, ds' := ChainWrite(m, node.first, offset, buf, ds);
    ghost var v1 := m.Volume();
    node' := node.(first := first);
    DirectoryKept(v0, v1, cs, ds, ds', first);
    if status <= 0 {
      return None, node', ds';
    }
    node' := node'.(size := Max(node.size, offset + status));
    UpdateDirent(m, node', cs, at, w);
    WrittenKept(v0, v1, m.Volume(), cs, ds, ds', first);
    SameFull(v1, m.Volume(), cs);
    r := Some(status);
  }

  // ---- the files of a directory ----

  /** An entry for a file stands at `p`. */
  predicate LiveFile(c: seq<Byte>, p: nat) {
    p % 32 == 0 && p + 32 <= |c| && c[p] != 0 && IsEntry(SlotAt(c, p)) && SlotAt(c, p)[11] / ATTR_DIR % 2 == 0
  }

  ghost predicate FileOk(fat: seq<nat>, cs: seq<nat>, c: seq<Byte>, files: map<nat, seq<nat>>, p: nat)
    requires LiveFile(c, p)
  {
    p in files && IsFile(fat, FirstClusterOf(SlotAt(c, p)), files[p]) &&
    Disjoint(files[p], cs) && Disjoint(cs, files[p])
  }

  ghost predicate Separate(files: map<nat, seq<nat>>, p: nat, q: nat) {
    p in files && q in files ==> Disjoint(files[p], files[q])
  }

  /** Every file of the directory has its chain, apart from the directory's and from the other files'. */
  ghost predicate FilesOk(fat: seq<nat>, cs: seq<nat>, c: seq<Byte>, files: map<nat, seq<nat>>) {
    && (forall p :: LiveFile(c, p) ==> FileOk(fat, cs, c, files, p))
    && (forall p, q :: LiveFile(c, p) && LiveFile(c, q) && p != q ==> Separate(files, p, q))
  }

  lemma {:induction false} IntactFile(v0: View, v1: View, cs: seq<nat>, cs': seq<nat>, first: nat, ds: seq<nat>)
    requires IsFile(v0.fat, first, ds) && Disjoint(ds, cs) && Untouched(v0, cs, v1, cs')
    ensures IsFile(v1.fat, first, ds) && Disjoint(ds, cs') && Disjoint(cs', ds)
  {
    if ds != [] {
      assert Intact(v0, v1, cs', ds);
    }
    DisjointBack(ds, cs');
  }

  /** An aligned entry of a directory that has grown and then got an entry at `at`. */
  lemma {:induction false} InsertedSlot(c0: seq<Byte>, c: seq<Byte>, at: nat, s: Slot, p: nat)
    requires |c0| % 32 == 0 && |c0| <= |c| && Inserted(c0 + Zeros(|c| - |c0|), 0, at, s, c)
    requires p % 32 == 0 && p + 32 <= |c|
    ensures at % 32 == 0 && (p == at ==> SlotAt(c, p) == s)
    ensures p != at && p + 32 <= |c0| ==> SlotAt(c, p) == SlotAt(c0, p) && c[p] == c0[p]
    ensures p != at && p + 32 > |c0| ==> c[p] == 0
  {
    var d := c0 + Zeros(|c| - |c0|);
    FreeIsAligned(d, 0);
    hide FreeAt;
    if p != at && p + 32 <= |c0| {
      assert c[p..p + 32] == d[p..p + 32] == c0[p..p + 32];
    }
  }

  lemma {:induction false} NoChain(fat: seq<nat>, cs: seq<nat>)
    ensures IsFile(fat, 0, []) && Disjoint([], cs) && Disjoint(cs, [])
  {
  }

  lemma {:induction false} EmptyApart(files: map<nat, seq<nat>>, p: nat)
    requires p in files
    ensures Disjoint(files[p], []) && Disjoint([], files[p])
  {
  }

  lemma {:induction false} FilesAfterCreate(v0: View, cs: seq<nat>, v1: View, cs': seq<nat>, c0: seq<Byte>,
                                            c: seq<Byte>, at: nat, s: Slot, files: map<nat, seq<nat>>)
    requires FilesOk(v0.fat, cs, c0, files) && Untouched(v0, cs, v1, cs')
    requires |c0| % 32 == 0 && |c0| <= |c| && Inserted(c0 + Zeros(|c| - |c0|), 0, at, s, c)
    requires s[11] / ATTR_DIR % 2 == 0 ==> FirstClusterOf(s) == 0
    ensures FilesOk(v1.fat, cs', c, files[at := []])
  {
    hide Untouched, IsFile, Inserted, IsEntry, FirstClusterOf, Disjoint;
    forall p | LiveFile(c, p)
      ensures FileOk(v1.fat, cs', c, files[at := []], p) && (p != at ==> LiveFile(c0, p))
    {
      InsertedSlot(c0, c, at, s, p);
      if p == at {
        NoChain(v1.fat, cs');
      } else {
        assert LiveFile(c0, p) && FileOk(v0.fat, cs, c0, files, p);
        IntactFile(v0, v1, cs, cs', FirstClusterOf(SlotAt(c0, p)), files[p]);
      }
    }
    forall p, q | LiveFile(c, p) && LiveFile(c, q) && p != q ensures Separate(files[at := []], p, q) {
      assert p != at && q != at ==> Separate(files, p, q);
      assert FileOk(v1.fat, cs', c, files[at := []], p) && FileOk(v1.fat, cs', c, files[at := []], q);
      EmptyApart(files[at := []], p);
      EmptyApart(files[at := []], q);
    }
  }

  lemma {:induction false} FilesAfterGrowth(v0: View, cs: seq<nat>, v1: View, cs': seq<nat>, c0: seq<Byte>,
                                            c: seq<Byte>, files: map<nat, seq<nat>>)
    requires FilesOk(v0.fat, cs, c0, files) && Untouched(v0, cs, v1, cs') && Grown(c0, c)
    ensures FilesOk(v1.fat, cs', c, files)
  {
    hide Untouched, IsFile, Grown, IsEntry, FirstClusterOf, Disjoint;
    forall p | LiveFile(c, p) ensures FileOk(v1.fat, cs', c, files, p) && LiveFile(c0, p) {
      GrownSlots(c0, c, p);
      assert LiveFile(c0, p) && FileOk(v0.fat, cs, c0, files, p);
      IntactFile(v0, v1, cs, cs', FirstClusterOf(SlotAt(c0, p)), files[p]);
    }
  }

  /** An aligned entry of a directory in which the one at `k` was marked as deleted. */
  lemma {:induction false} StruckSlot(c: seq<Byte>, k: nat, p: nat)
    requires k % 32 == 0 && p % 32 == 0 && k + 32 <= |c| && p + 32 <= |c|
    ensures p == k ==> SlotAt(c[k := DELETED], p)[0] == DELETED
    ensures p != k ==> SlotAt(c[k := DELETED], p) == SlotAt(c, p) && c[k := DELETED][p] == c[p]
  {
  }

  lemma {:induction false} FilesAfterUnlink(v0: View, v1: View, cs: seq<nat>, c0: seq<Byte>, k: nat, ds: seq<nat>,
                                            files: map<nat, seq<nat>>)
    requires FilesOk(v0.fat, cs, c0, files) && LiveFile(c0, k) && k in files && files[k] == ds
    requires forall es :: IsChain(v0.fat, es) && Disjoint(es, cs) && Disjoint(es, ds) ==> Intact(v0, v1, ds, es)
    ensures FilesOk(v1.fat, cs, c0[k := DELETED], files)
  {
    hide IsChain, IsEntry, FirstClusterOf, Disjoint;
    var c := c0[k := DELETED];
    forall p | LiveFile(c, p) ensures FileOk(v1.fat, cs, c, files, p) && LiveFile(c0, p) {
      StruckSlot(c0, k, p);
      DeletedIsNoHit(SlotAt(c, p), []);
      assert FileOk(v0.fat, cs, c0, files, p) && Separate(files, p, k);
      assert files[p] != [] ==> Intact(v0, v1, ds, files[p]);
    }
  }

  lemma {:induction false} OtherFile(v0: View, v1: View, cs: seq<nat>, ds: seq<nat>, ds': seq<nat>, first: nat,
                                     es: seq<nat>)
    requires OthersKept(v0, v1, cs, ds, ds') && IsFile(v0.fat, first, es) && Disjoint(es, cs) && Disjoint(es, ds)
    ensures IsFile(v1.fat, first, es) && Disjoint(es, ds') && Disjoint(ds', es)
  {
    if es != [] {
      assert Intact(v0, v1, ds', es);
    }
    DisjointBack(es, ds');
  }

  lemma {:induction false} SplicedSlot(c: seq<Byte>, at: nat, s: Slot, p: nat)
    requires at % 32 == 0 && p % 32 == 0 && at + 32 <= |c| && p + 32 <= |c|
    ensures SlotAt(Splice(c, at, s), p) == if p == at then s else SlotAt(c, p)
    ensures Splice(c, at, s)[p] == SlotAt(Splice(c, at, s), p)[0] && c[p] == SlotAt(c, p)[0]
  {
    if p != at {
      assert Splice(c, at, s)[p..p + 32] == c[p..p + 32];
    }
  }

  lemma {:induction false} RewrittenKind(c: seq<Byte>, at: nat, s: Slot, e: seq<Byte>, p: nat)
    requires Rewritten(c, at, s, e) && p % 32 == 0 && p + 32 <= |c|
    ensures |e| == |c| && (LiveFile(e, p) <==> LiveFile(c, p))
    ensures SlotAt(e, p) == if p == at then s else SlotAt(c, p)
  {
    RewrittenLength(c, at, s, e);
    RewrittenSlot(c, at, s, e, p);
    SplicedSlot(c, at, s, p);
    assert SlotAt(c, at)[11] == c[at + 11];
    hide NameOf, IsEntry, SlotAt, PackedName, Splice;
  }

  lemma {:induction false} FilesAfterWrite(v0: View, v1: View, cs: seq<nat>, c0: seq<Byte>, c: seq<Byte>, k: nat,
                                           s: Slot, ds: seq<nat>, ds': seq<nat>, files: map<nat, seq<nat>>)
    requires FilesOk(v0.fat, cs, c0, files) && LiveFile(c0, k) && k in files && files[k] == ds
    requires OthersKept(v0, v1, cs, ds, ds') && Disjoint(cs, ds') && Disjoint(ds', cs)
    requires Rewritten(c0, k, s, c) && IsFile(v1.fat, FirstClusterOf(s), ds')
    ensures FilesOk(v1.fat, cs, c, files[k := ds'])
  {
    hide IsChain, FirstClusterOf, Disjoint;
    RewrittenLength(c0, k, s, c);
    forall p | LiveFile(c, p)
      ensures LiveFile(c0, p) && FileOk(v1.fat, cs, c, files[k := ds'], p)
      ensures p != k ==> Disjoint(files[p], ds') && Disjoint(ds', files[p])
    {
      RewrittenKind(c0, k, s, c, p);
      assert FileOk(v0.fat, cs, c0, files, p);
      if p != k {
        assert Separate(files, p, k);
        OtherFile(v0, v1, cs, ds, ds', FirstClusterOf(SlotAt(c0, p)), files[p]);
      }
    }
    forall p, q | LiveFile(c, p) && LiveFile(c, q) && p != q ensures Separate(files[k := ds'], p, q) {
      assert Separate(files, p, q);
    }
  }

  // ---- volumes on which a removal harms nothing ----

  /** The data area ends before the sector that an end mark indexes when it is taken for an entry number. */
  ghost predicate MarkBehindData(g: Geometry) {
    g.dataStart + Mul(g.totalClusters, g.sectorsPerCluster) <= g.fatStart + MARK_SECTOR
  }

  lemma {:induction false} SectorBeforeMark(g: Geometry, d: seq<Sector>, mark: nat, c: nat, i: nat)
    requires ValidGeometry(g, |d|) && MarkBehindData(g) && IsEoc(mark) && mark < ENTRY_MASK && IsCluster(g, c)
    requires i < g.sectorsPerCluster
    ensures ClusterLba(g, c) + i < |d| && WithEntry(g, d, mark, 0)[ClusterLba(g, c) + i] == d[ClusterLba(g, c) + i]
  {
    hide WithEntry, EntrySector;
    MarkSector(mark);
    ClusterInRange(g, |d|, c, i);
    MulStep(c - 2, g.totalClusters, g.sectorsPerCluster);
    if g.fatStart + MARK_SECTOR < |d| {
      WithEntryAt(g, d, mark, 0, ClusterLba(g, c) + i);
    } else {
      PastDevice(g, d, mark, 0);
    }
  }

  lemma {:induction false} ClusterBeforeMark(g: Geometry, d: seq<Sector>, mark: nat, c: nat)
    requires ValidGeometry(g, |d|) && MarkBehindData(g) && IsEoc(mark) && mark < ENTRY_MASK && IsCluster(g, c)
    ensures ClusterSectors(g, WithEntry(g, d, mark, 0), c) == ClusterSectors(g, d, c)
  {
    hide WithEntry, ClusterLba, Mul;
    var e := WithEntry(g, d, mark, 0);
    MarkSector(mark);
    forall i: nat | i < g.sectorsPerCluster
      ensures ClusterSectors(g, e, c)[i] == ClusterSectors(g, d, c)[i]
    {
      SectorBeforeMark(g, d, mark, c, i);
    }
  }

  /** On such a volume the last step of a removal changes nothing that the driver reads. */
  lemma {:induction false} MarkHarmless(g: Geometry, d: seq<Sector>, ds: seq<nat>, mark: nat)
    requires ValidGeometry(g, |d|) && Mirrored(g, d) && MarkBehindData(g)
    requires ds != [] ==> IsEoc(mark) && mark < ENTRY_MASK
    ensures ViewOf(g, WithMark(g, d, ds, mark)) == ViewOf(g, d) && Mirrored(g, WithMark(g, d, ds, mark))
  {
    if ds != [] {
      hide WithEntry, Mirrored, FatOf, FatWord;
      MarkSector(mark);
      PastTable(g, d, mark, 0);
      MirroredIff(g, d, mark, 0);
      var e := WithEntry(g, d, mark, 0);
      forall c | IsCluster(g, c) ensures ClusterData(g, e, c) == ClusterData(g, d, c) {
        ClusterBeforeMark(g, d, mark, c);
      }
      assert ViewOf(g, e).data == ViewOf(g, d).data;
    }
  }

  // ---- a session ----

  /** What is done in a directory. */
  datatype DirOp = Create(name: CString, isDir: bool) | Unlink(name: CString) |
                   Write(name: CString, offset: nat, buf: seq<Byte>)

  /** A volume, the chain of a directory on it, and the chains of the directory's files by the places of their
      entries. */
  datatype DirState = DirState(v: View, cs: seq<nat>, files: map<nat, seq<nat>>)
  {
    ghost predicate Shape() { cs != [] && IsChain(v.fat, cs) && InVolume(v, cs) && |v.fat| == |v.data| }

    /** The directory's bytes. */
    ghost function Bytes(): seq<Byte>
      requires Shape()
    {
      Content(v, cs)
    }

    /** The directory is in order. */
    ghost predicate Valid(dir: nat) {
      Shape() && cs[0] == dir && |Bytes()| % 32 == 0 && Clean(Bytes(), 0) && FilesOk(v.fat, cs, Bytes(), files)
    }

    /** `es` is a chain apart from the directory and its files. */
    ghost predicate Aside(es: seq<nat>)
      requires Shape()
    {
      IsChain(v.fat, es) && InVolume(v, es) && Disjoint(es, cs) &&
      forall p :: LiveFile(Bytes(), p) && p in files ==> Disjoint(es, files[p])
    }
  }

  /** Every chain apart from the directory and its files stays so, with the same bytes. */
  ghost predicate AsideKept(s: DirState, s': DirState)
    requires s.Shape() && s'.Shape()
  {
    forall es :: s.Aside(es) ==> s'.Aside(es) && Content(s'.v, es) == Content(s.v, es)
  }

  /** By how much the operation changes the count of the name `n`, given whether it was carried out. */
  function Effect(op: DirOp, done: bool, n: CString): int {
    match op
    case Create(name, _) => if done && Answers(name, n) then 1 else 0
    case Unlink(name) => if done && Fold(n) == Fold(name) then -1 else 0
    case Write(_, _, _) => 0
  }

  /** Every count has changed by the operation's effect. */
  ghost predicate Counted(c: seq<Byte>, c': seq<Byte>, op: DirOp, done: bool) {
    forall n: CString :: Tally(c', n, 0) == Tally(c, n, 0) + Effect(op, done, n)
  }

  /** There is a file of this name, and not a directory. */
  ghost predicate HasFile(c: seq<Byte>, name: CString) { Tally(c, name, 0) > 0 && !NamesDirectory(c, name) }

  /** When the operation is carried out. */
  ghost predicate Answered(s: DirState, s': DirState, op: DirOp, done: bool)
    requires s.Shape()
  {
    match op
    case Create(name, isDir) =>
      done <==> Tally(s.Bytes(), name, 0) == 0 && |FreeClusters(s.v)| >= ClustersNeeded(s.Bytes(), isDir)
    case Unlink(name) => done <==> HasFile(s.Bytes(), name)
    case Write(name, _, buf) =>
      (done ==> HasFile(s.Bytes(), name) && buf != []) &&
      (HasFile(s.Bytes(), name) && buf != [] && !Full(s'.v) ==> done)
  }

  /** The operation took the directory from `s` to `s'`. */
  ghost predicate Acted(s: DirState, s': DirState, op: DirOp, done: bool) {
    s.Shape() && s'.Shape() && Counted(s.Bytes(), s'.Bytes(), op, done) && Answered(s, s', op, done) && AsideKept(s, s')
  }

  lemma {:induction false} LookupLive(c: seq<Byte>, n: CString, p: nat)
    requires Lookup(c, n, p).Some? && p % 32 == 0
    ensures var k := Lookup(c, n, p).value; k % 32 == 0 && k + 32 <= |c| && c[k] != 0 && IsEntry(SlotAt(c, k))
    decreases |c| - p
  {
    hide NameOf, Fold, IsEntry;
    if !Hit(SlotAt(c, p), n) {
      LookupLive(c, n, p + 32);
    }
  }

  lemma {:induction false} ContentAligned(g: Geometry, v: View, cs: seq<nat>)
    requires IsView(v, g.ClusterBytes()) && InVolume(v, cs)
    ensures |Content(v, cs)| % 32 == 0
  {
    ContentLength(v, g.ClusterBytes(), cs);
    MulAligned(|cs|, g.ClusterBytes());
  }

  lemma {:induction false} CountedNothing(c: seq<Byte>, c': seq<Byte>, op: DirOp)
    requires Grown(c, c')
    ensures Counted(c, c', op, false) && (Clean(c, 0) ==> Clean(c', 0))
  {
    forall n: CString ensures Tally(c', n, 0) == Tally(c, n, 0) {
      GrownLookup(c, c', n, 0);
    }
    GrownClean(c, c', 0);
    hide Tally;
  }

  lemma {:induction false} CountedCreate(c: seq<Byte>, c': seq<Byte>, name: CString, isDir: bool, at: nat)
    requires Created(c, c', name, at)
    ensures Counted(c, c', Create(name, isDir), true) && Clean(c', 0)
  {
    hide Lookup, Tally, Fold, Stored, Unique, Clean;
  }

  lemma {:induction false} AsideUntouched(s: DirState, s': DirState)
    requires s.Shape() && s'.Shape() && Untouched(s.v, s.cs, s'.v, s'.cs)
    requires forall p :: LiveFile(s'.Bytes(), p) && p in s'.files ==>
               s'.files[p] == [] || (LiveFile(s.Bytes(), p) && p in s.files && s'.files[p] == s.files[p])
    ensures AsideKept(s, s')
  {
    hide IsChain, LiveFile, Content;
    forall es | s.Aside(es) ensures s'.Aside(es) && Content(s'.v, es) == Content(s.v, es) {
      assert Intact(s.v, s'.v, s'.cs, es);
    }
  }

  lemma {:induction false} AsideCreated(s: DirState, s': DirState, at: nat, slot: Slot)
    requires s.Shape() && s'.Shape() && Untouched(s.v, s.cs, s'.v, s'.cs) && s'.files == s.files[at := []]
    requires |s.Bytes()| % 32 == 0 && |s.Bytes()| <= |s'.Bytes()|
    requires Inserted(s.Bytes() + Zeros(|s'.Bytes()| - |s.Bytes()|), 0, at, slot, s'.Bytes())
    ensures AsideKept(s, s')
  {
    hide IsChain, IsEntry, Inserted, Untouched;
    forall p | LiveFile(s'.Bytes(), p) && p != at ensures LiveFile(s.Bytes(), p) {
      InsertedSlot(s.Bytes(), s'.Bytes(), at, slot, p);
    }
    AsideUntouched(s, s');
  }

  lemma {:induction false} AsideGrown(s: DirState, s': DirState)
    requires s.Shape() && s'.Shape() && Untouched(s.v, s.cs, s'.v, s'.cs) && s'.files == s.files
    requires Grown(s.Bytes(), s'.Bytes())
    ensures AsideKept(s, s')
  {
    hide IsChain, IsEntry, Grown, Untouched;
    forall p | LiveFile(s'.Bytes(), p) ensures LiveFile(s.Bytes(), p) {
      GrownSlots(s.Bytes(), s'.Bytes(), p);
    }
    AsideUntouched(s, s');
  }

  method ActCreate(m: Mount, dir: nat, name: CString, isDir: bool, ghost s: DirState)
    returns (done: bool, ghost s': DirState)
    requires m.Valid() && s.v == m.Volume() && s.Valid(dir)
    modifies m
    ensures m.Valid() && s'.v == m.Volume() && s'.Valid(dir) && Acted(s, s', Create(name, isDir), done)
  {
    hide Content, ViewOf, ValidGeometry, Mirrored, IsChain, Untouched, Lookup, Clean, Created, FilesOk, Counted,
         AsideKept, NewSlot, Grown, FreeClusters, Located, Inserted, Tally, ClustersNeeded;
    TallyLookup(s.Bytes(), name, 0);
    var r, cs', at, w := FatCreate(m, dir, name, isDir, s.cs);
    s' := DirState(m.Volume(), cs', s.files);
    ContentAligned(m.g, m.Volume(), cs');
    done := r.Some?;
    if r.Some? {
      s' := s'.(files := s.files[at := []]);
      NewSlotFields(Encoded(name), if isDir then ATTR_DIR else ATTR_ARCHIVE, FirstClusterOf(r.value.slot));
      FilesAfterCreate(s.v, s.cs, s'.v, cs', s.Bytes(), s'.Bytes(), at, r.value.slot, s.files);
      CountedCreate(s.Bytes(), s'.Bytes(), name, isDir, at);
      AsideCreated(s, s', at, r.value.slot);
    } else {
      FilesAfterGrowth(s.v, s.cs, s'.v, cs', s.Bytes(), s'.Bytes(), s.files);
      CountedNothing(s.Bytes(), s'.Bytes(), Create(name, isDir));
      AsideGrown(s, s');
    }
  }

  /** The chain of the file that a lookup finds. */
  ghost function ChainFound(c: seq<Byte>, name: CString, files: map<nat, seq<nat>>): seq<nat> {
    var k := Lookup(c, name, 0);
    if k.Some? && k.value in files then files[k.value] else []
  }

  lemma {:induction false} FoundFile(fat: seq<nat>, cs: seq<nat>, c: seq<Byte>, files: map<nat, seq<nat>>,
                                     name: CString)
    requires FilesOk(fat, cs, c, files) && Lookup(c, name, 0).Some? && !NamesDirectory(c, name)
    ensures var k, ds := Lookup(c, name, 0).value, ChainFound(c, name, files);
            LiveFile(c, k) && k in files && files[k] == ds && IsFile(fat, FirstClusterOf(SlotAt(c, k)), ds) &&
            Disjoint(ds, cs) && Disjoint(cs, ds)
  {
    hide Lookup, IsEntry, IsFile, Disjoint, FirstClusterOf;
    LookupLive(c, name, 0);
    assert FileOk(fat, cs, c, files, Lookup(c, name, 0).value);
  }

  lemma {:induction false} FileMarked(g: Geometry, d: seq<Sector>, ds: seq<nat>)
    requires ValidGeometry(g, |d|) && (ds != [] ==> IsChain(ViewOf(g, d).fat, ds))
    ensures ds != [] ==> IsEoc(MarkOf(ViewOf(g, d).fat, ds)) && MarkOf(ViewOf(g, d).fat, ds) < ENTRY_MASK
  {
  }

  lemma {:induction false} CountedUnlink(c: seq<Byte>, c': seq<Byte>, name: CString)
    requires Unlinked(c, c', name)
    ensures Counted(c, c', Unlink(name), true) && (Clean(c, 0) ==> Clean(c', 0))
    ensures Lookup(c, name, 0).Some? && c' == c[Lookup(c, name, 0).value := DELETED]
  {
    hide Lookup, Tally, Fold, Clean, Unique;
  }

  lemma {:induction false} AsideUnlinked(s: DirState, s': DirState, k: nat)
    requires s.Shape() && s'.Shape() && s'.cs == s.cs && s'.files == s.files && LiveFile(s.Bytes(), k) && k in s.files
    requires s'.Bytes() == s.Bytes()[k := DELETED]
    requires forall es :: IsChain(s.v.fat, es) && Disjoint(es, s.cs) && Disjoint(es, s.files[k]) ==>
               Intact(s.v, s'.v, s.files[k], es)
    ensures AsideKept(s, s')
  {
    hide IsChain, IsEntry, Content;
    forall p | LiveFile(s'.Bytes(), p) ensures LiveFile(s.Bytes(), p) {
      StruckSlot(s.Bytes(), k, p);
      DeletedIsNoHit(SlotAt(s'.Bytes(), p), []);
    }
    hide LiveFile;
    forall es | s.Aside(es) ensures s'.Aside(es) && Content(s'.v, es) == Content(s.v, es) {
      assert Intact(s.v, s'.v, s.files[k], es);
    }
  }

  /** Nothing has changed. */
  lemma {:induction false} AsideSame(s: DirState)
    requires s.Shape() && |s.Bytes()| % 32 == 0
    ensures AsideKept(s, s) && forall op :: Counted(s.Bytes(), s.Bytes(), op, false)
  {
    forall op ensures Counted(s.Bytes(), s.Bytes(), op, false) {
      CountedNothing(s.Bytes(), s.Bytes(), op);
    }
  }

  method ActUnlink(m: Mount, dir: nat, name: CString, ghost s: DirState) returns (done: bool, ghost s': DirState)
    requires m.Valid() && s.v == m.Volume() && s.Valid(dir) && MarkBehindData(m.g)
    modifies m
    ensures m.Valid() && s'.v == m.Volume() && s'.Valid(dir) && Acted(s, s', Unlink(name), done)
  {
    hide Content, ViewOf, ValidGeometry, Mirrored, IsChain, Lookup, Clean, FilesOk, Counted, AsideKept, Unlinked,
         MarkOutcome, WithMark, MarkBehindData, FirstClusterOf, SlotAt, Disjoint, Emptied, WithEntry, Tally;
    ghost var c := s.Bytes();
    ghost var ds := ChainFound(c, name, s.files);
    if Lookup(c, name, 0).Some? && !NamesDirectory(c, name) {
      FoundFile(s.v.fat, s.cs, c, s.files, name);
    }
    TallyLookup(c, name, 0);
    AsideSame(s);
    s' := s;
    var status, d1, w := FatUnlink(m, dir, name, s.cs, ds);
    done := status == Ok || status == IOError;
    if done {
      FileMarked(m.g, old(m.disk), ds);
      MarkHarmless(m.g, d1, ds, MarkOf(s.v.fat, ds));
      s' := DirState(m.Volume(), s.cs, s.files);
      CountedUnlink(c, s'.Bytes(), name);
      FilesAfterUnlink(s.v, s'.v, s.cs, c, Lookup(c, name, 0).value, ds, s.files);
      AsideUnlinked(s, s', Lookup(c, name, 0).value);
    }
  }

  lemma {:induction false} CountedWrite(c: seq<Byte>, c': seq<Byte>, op: DirOp, k: nat, slot: Slot)
    requires op.Write? && Rewritten(c, k, slot, c')
    ensures Counted(c, c', op, true) && (Clean(c, 0) ==> Clean(c', 0))
  {
    hide Rewritten, Lookup, Tally, Fold, Clean;
    forall n: CString ensures Tally(c', n, 0) == Tally(c, n, 0) {
      RewrittenLookup(c, k, slot, c', n, 0);
    }
    RewrittenLookup(c, k, slot, c', [], 0);
  }

  lemma {:induction false} UpdateRewrites(c0: seq<Byte>, c: seq<Byte>, k: nat, first: nat, size: nat)
    requires k % 32 == 0 && k + 32 <= |c0| && first < 0x1_0000_0000
    requires c == Splice(c0, k, Updated(SlotAt(c0, k), first, size))
    ensures Rewritten(c0, k, Updated(SlotAt(c0, k), first, size), c)
  {
    UpdatedFields(SlotAt(c0, k), first, size);
  }

  lemma {:induction false} SameRewrite(c: seq<Byte>, k: nat)
    requires k % 32 == 0 && k + 32 <= |c|
    ensures Rewritten(c, k, SlotAt(c, k), c)
  {
    assert Splice(c, k, SlotAt(c, k)) == c;
  }

  /** A write that failed may have grown the file's chain, or made one that no entry names. */
  lemma {:induction false} FilesAfterFailure(v0: View, v1: View, cs: seq<nat>, c: seq<Byte>, k: nat, ds: seq<nat>,
                                             ds': seq<nat>, files: map<nat, seq<nat>>)
    requires FilesOk(v0.fat, cs, c, files) && LiveFile(c, k) && k in files && files[k] == ds
    requires OthersKept(v0, v1, cs, ds, ds') && Disjoint(cs, ds') && Disjoint(ds', cs)
    requires ds != [] ==> IsFile(v1.fat, FirstClusterOf(SlotAt(c, k)), ds')
    ensures FilesOk(v1.fat, cs, c, files[k := if ds == [] then [] else ds'])
  {
    hide FirstClusterOf, IsChain, SlotAt;
    assert FileOk(v0.fat, cs, c, files, k);
    SameRewrite(c, k);
    var es := if ds == [] then [] else ds';
    assert OthersKept(v0, v1, cs, ds, es);
    hide OthersKept, FilesOk, FileOk, LiveFile, Rewritten;
    FilesAfterWrite(v0, v1, cs, c, c, k, SlotAt(c, k), ds, es, files);
  }

  lemma {:induction false} AsideWritten(s: DirState, s': DirState, k: nat, slot: Slot, ds': seq<nat>, es': seq<nat>)
    requires s.Shape() && s'.Shape() && s'.cs == s.cs && s'.files == s.files[k := es'] && (es' == [] || es' == ds')
    requires LiveFile(s.Bytes(), k) && k in s.files && Rewritten(s.Bytes(), k, slot, s'.Bytes())
    requires OthersKept(s.v, s'.v, s.cs, s.files[k], ds')
    ensures AsideKept(s, s')
  {
    hide IsChain, IsEntry, Content, Rewritten;
    RewrittenLength(s.Bytes(), k, slot, s'.Bytes());
    forall p | LiveFile(s'.Bytes(), p) ensures LiveFile(s.Bytes(), p) {
      RewrittenKind(s.Bytes(), k, slot, s'.Bytes(), p);
    }
    hide LiveFile;
    forall es | s.Aside(es) ensures s'.Aside(es) && Content(s'.v, es) == Content(s.v, es) {
      assert Intact(s.v, s'.v, ds', es);
    }
  }

  /** Writes to the file of this name through a node made from its entry. */
  method ActWrite(m: Mount, dir: nat, name: CString, offset: nat, buf: seq<Byte>, ghost s: DirState)
    returns (done: bool, ghost s': DirState)
    requires m.Valid() && s.v == m.Volume() && s.Valid(dir)
    modifies m
    ensures m.Valid() && s'.v == m.Volume() && s'.Valid(dir) && Acted(s, s', Write(name, offset, buf), done)
  {
    hide Content, ViewOf, ValidGeometry, Mirrored, IsChain, Lookup, Clean, FilesOk, Counted, AsideKept, Located,
         OthersKept, Updated, FirstClusterOf, SlotAt, Disjoint, Overlaid, Full, GetU32, Rewritten, Splice, Tally;
    ghost var c, op := s.Bytes(), Write(name, offset, buf);
    TallyLookup(c, name, 0);
    AsideSame(s);
    s' := s;
    var found, slot, sector, at, k, w := DirFind(m, dir, name, s.cs);
    if !found || slot[11] / ATTR_DIR % 2 == 1 {
      return false, s';
    }
    FoundFile(s.v.fat, s.cs, c, s.files, name);
    ghost var ds := s.files[k];
    FileInVolume(s.v, FirstClusterOf(slot), ds);
    var node := Node(FirstClusterOf(slot), GetU32(slot, 28), sector, at);
    ghost var ds';
    var r;
    r, node, ds' := FatWrite(m, node, offset, buf, s.cs, ds, k, w);
    done := r.Some?;
    if done {
      ghost var t := Updated(SlotAt(c, k), node.first, node.size);
      s' := DirState(m.Volume(), s.cs, s.files[k := ds']);
      UpdateRewrites(c, s'.Bytes(), k, node.first, node.size);
      UpdatedFields(SlotAt(c, k), node.first, node.size);
      FilesAfterWrite(s.v, s'.v, s.cs, c, s'.Bytes(), k, t, ds, ds', s.files);
      CountedWrite(c, s'.Bytes(), op, k, t);
      RewrittenLength(c, k, t, s'.Bytes());
      AsideWritten(s, s', k, t, ds', ds');
    } else {
      s' := DirState(m.Volume(), s.cs, s.files[k := if ds == [] then [] else ds']);
      FilesAfterFailure(s.v, s'.v, s.cs, c, k, ds, ds', s.files);
      SameRewrite(c, k);
      AsideWritten(s, s', k, SlotAt(c, k), ds', s'.files[k]);
    }
  }

  /** The effect of the operations on the count of the name `n`. */
  function Net(ops: seq<DirOp>, done: seq<bool>, n: CString): int
    requires |ops| == |done|
  {
    if ops == [] then 0
    else Net(ops[..|ops| - 1], done[..|ops| - 1], n) + Effect(ops[|ops| - 1], done[|ops| - 1], n)
  }

  /** How many entries of the name there are after the first `i` operations on a directory `c0`. */
  ghost function CountAfter(c0: seq<Byte>, ops: seq<DirOp>, done: seq<bool>, i: nat, n: CString): int
    requires |ops| == |done| && i <= |ops|
  {
    Tally(c0, n, 0) + Net(ops[..i], done[..i], n)
  }

  /** Operation `i` was carried out in keeping with the counts: a file is created only under a name that is not
      there, and removed or written only under one that is. */
  ghost predicate InKeeping(c0: seq<Byte>, ops: seq<DirOp>, done: seq<bool>, i: nat)
    requires |ops| == |done| && i < |ops|
  {
    done[i] ==>
      if ops[i].Create? then CountAfter(c0, ops, done, i, ops[i].name) == 0
      else CountAfter(c0, ops, done, i, ops[i].name) > 0
  }

  /** The directory `c` is what the operations make of `c0`. */
  ghost predicate Recorded(c0: seq<Byte>, c: seq<Byte>, ops: seq<DirOp>, done: seq<bool>) {
    && |ops| == |done| && (forall n: CString :: Tally(c, n, 0) == Tally(c0, n, 0) + Net(ops, done, n))
    && (forall i :: 0 <= i < |ops| ==> InKeeping(c0, ops, done, i))
  }

  lemma {:induction false} RecordedStep(c0: seq<Byte>, s: DirState, s': DirState, ops: seq<DirOp>, done: seq<bool>,
                                        op: DirOp, ok: bool)
    requires s.Shape() && Recorded(c0, s.Bytes(), ops, done) && Acted(s, s', op, ok)
    ensures Recorded(c0, s'.Bytes(), ops + [op], done + [ok])
  {
    hide Tally, Effect, Content, NamesDirectory, AsideKept, FreeClusters, Full;
    var ops', done' := ops + [op], done + [ok];
    assert ops'[..|ops|] == ops && done'[..|ops|] == done;
    forall i | 0 <= i < |ops'| ensures InKeeping(c0, ops', done', i) {
      if i < |ops| {
        assert InKeeping(c0, ops, done, i);
        assert ops'[..i] == ops[..i] && done'[..i] == done[..i];
      }
    }
  }

  lemma {:induction false} RecordedNothing(c: seq<Byte>)
    ensures Recorded(c, c, [], [])
  {
  }

  /** `trace` are the states of the directory before and after each operation. */
  ghost predicate IsTrace(trace: seq<DirState>, dir: nat, ops: seq<DirOp>, done: seq<bool>) {
    && |trace| == |ops| + 1 && |done| == |ops| && (forall i :: 0 <= i < |trace| ==> trace[i].Valid(dir))
    && (forall i :: 0 <= i < |ops| ==> Acted(trace[i], trace[i + 1], ops[i], done[i]))
  }

  lemma {:induction false} TraceStep(trace: seq<DirState>, dir: nat, ops: seq<DirOp>, done: seq<bool>, op: DirOp,
                                     ok: bool, s: DirState)
    requires IsTrace(trace, dir, ops, done) && Acted(trace[|ops|], s, op, ok) && s.Valid(dir)
    ensures IsTrace(trace + [s], dir, ops + [op], done + [ok])
  {
    hide Acted, DirState.Valid;
  }

  lemma {:induction false} AsideTrans(a: DirState, b: DirState, c: DirState)
    requires a.Shape() && b.Shape() && c.Shape() && AsideKept(a, b) && AsideKept(b, c)
    ensures AsideKept(a, c)
  {
    hide DirState.Shape, Content;
  }

  lemma {:induction false} TraceStart(s: DirState, dir: nat, ops: seq<DirOp>)
    requires s.Valid(dir)
    ensures ops[..0] == [] && IsTrace([s], dir, ops[..0], [])
  {
  }

  /** Every sequence of creations, removals and writes in a directory: each is carried out exactly when it can
      be; the directory stays in order, each name has as many entries as it had, and one more for each file
      created that is stored under it and one fewer for each removed; chains apart from the directory and its
      files keep their bytes. Removals need a volume on which the last step harms nothing. */
  method Session(m: Mount, dir: nat, ops: seq<DirOp>, ghost s: DirState)
    returns (done: seq<bool>, ghost trace: seq<DirState>)
    requires m.Valid() && s.v == m.Volume() && s.Valid(dir)
    requires MarkBehindData(m.g) || forall i :: 0 <= i < |ops| ==> !ops[i].Unlink?
    modifies m
    ensures IsTrace(trace, dir, ops, done) && trace[0] == s && m.Valid() && trace[|ops|].v == m.Volume()
    ensures Recorded(s.Bytes(), trace[|ops|].Bytes(), ops, done) && AsideKept(s, trace[|ops|])
  {
    hide Content, ViewOf, Counted, Answered, Recorded, MarkBehindData, AsideKept, ValidGeometry, Mirrored, Clean,
         FilesOk, IsChain, IsTrace;
    done, trace := [], [s];
    ghost var t := s;
    RecordedNothing(s.Bytes());
    AsideSame(s);
    assert IsTrace(trace, dir, ops[..0], done) && ops[..0] == [] by { TraceStart(s, dir, ops); }
    var i := 0;
    while i < |ops|
      invariant 0 <= i <= |ops| && m.Valid() && t.v == m.Volume() && t.Valid(dir)
      invariant IsTrace(trace, dir, ops[..i], done) && |trace| == i + 1 && trace[0] == s && trace[i] == t
      invariant Recorded(s.Bytes(), t.Bytes(), ops[..i], done) && AsideKept(s, t)
    {
      var ok;
      ghost var t';
      match ops[i] {
        case Create(name, isDir) => ok, t' := ActCreate(m, dir, name, isDir, t);
        case Unlink(name) => ok, t' := ActUnlink(m, dir, name, t);
        case Write(name, offset, buf) => ok, t' := ActWrite(m, dir, name, offset, buf, t);
      }
      assert ops[..i + 1] == ops[..i] + [ops[i]];
      RecordedStep(s.Bytes(), t, t', ops[..i], done, ops[i], ok);
      AsideTrans(s, t, t');
      TraceStep(trace, dir, ops[..i], done, ops[i], ok, t');
      done, trace, t, i := done + [ok], trace + [t'], t', i + 1;
    }
    assert ops[..i] == ops;
  }

  // ---- what a session means for names ----

  /** After the first `i` operations no name has two entries. */
  ghost predicate Single(c0: seq<Byte>, ops: seq<DirOp>, done: seq<bool>, i: nat)
    requires |ops| == |done| && i <= |ops|
  {
    forall n: CString :: CountAfter(c0, ops, done, i, n) <= 1
  }

  /** A name is found after a session exactly if it is counted, and names are unique exactly if none is
      counted twice. */
  lemma {:induction false} FoundAfterIff(c0: seq<Byte>, c: seq<Byte>, ops: seq<DirOp>, done: seq<bool>, n: CString)
    requires Recorded(c0, c, ops, done)
    ensures Lookup(c, n, 0).Some? <==> CountAfter(c0, ops, done, |ops|, n) > 0
    ensures Unique(c, 0) <==> Single(c0, ops, done, |ops|)
  {
    assert ops[..|ops|] == ops && done[..|ops|] == done;
    TallyLookup(c, n, 0);
    UniqueIff(c, 0);
    hide Tally, Lookup, Unique, Net;
    assert forall k: CString :: CountAfter(c0, ops, done, |ops|, k) == Tally(c, k, 0);
  }

  /** Operation `i` creates a file that is stored under a name that is there. */
  ghost predicate Clashes(c0: seq<Byte>, ops: seq<DirOp>, done: seq<bool>, i: nat)
    requires |ops| == |done| && i < |ops|
  {
    ops[i].Create? && done[i] && Storable(ops[i].name) && CountAfter(c0, ops, done, i, Stored(ops[i].name)) > 0
  }

  lemma {:induction false} CountStep(c0: seq<Byte>, ops: seq<DirOp>, done: seq<bool>, i: nat, n: CString)
    requires |ops| == |done| && i < |ops|
    ensures CountAfter(c0, ops, done, i + 1, n) == CountAfter(c0, ops, done, i, n) + Effect(ops[i], done[i], n)
  {
    hide Tally, Effect;
    assert ops[..i + 1][..i] == ops[..i] && done[..i + 1][..i] == done[..i];
  }

  lemma {:induction false} NetFolded(ops: seq<DirOp>, done: seq<bool>, n: CString, n': CString)
    requires |ops| == |done| && Fold(n) == Fold(n')
    ensures Net(ops, done, n) == Net(ops, done, n')
  {
    hide Fold, Stored;
    if ops != [] {
      NetFolded(ops[..|ops| - 1], done[..|ops| - 1], n, n');
    }
  }

  lemma {:induction false} CountFolded(c0: seq<Byte>, ops: seq<DirOp>, done: seq<bool>, i: nat, n: CString, n': CString)
    requires |ops| == |done| && i <= |ops| && Fold(n) == Fold(n')
    ensures CountAfter(c0, ops, done, i, n) == CountAfter(c0, ops, done, i, n')
  {
    SameName(c0, n, n', 0);
    NetFolded(ops[..i], done[..i], n, n');
  }

  lemma {:induction false} SingleStep(c0: seq<Byte>, ops: seq<DirOp>, done: seq<bool>, i: nat, j: nat)
    requires |ops| == |done| && i < |ops| && j == i + 1 && Single(c0, ops, done, i)
    ensures Single(c0, ops, done, j) <==> !Clashes(c0, ops, done, i)
  {
    hide CountAfter, Fold, Stored, Storable;
    if Clashes(c0, ops, done, i) {
      CountStep(c0, ops, done, i, Stored(ops[i].name));
    } else {
      forall n: CString ensures CountAfter(c0, ops, done, j, n) <= 1 {
        CountStep(c0, ops, done, i, n);
        if ops[i].Create? && Answers(ops[i].name, n) {
          CountFolded(c0, ops, done, i, n, Stored(ops[i].name));
        }
      }
    }
  }

  lemma {:induction false} SingleStart(c0: seq<Byte>, ops: seq<DirOp>, done: seq<bool>)
    requires |ops| == |done|
    ensures Single(c0, ops, done, 0) <==> Unique(c0, 0)
  {
    UniqueIff(c0, 0);
    hide Unique, Tally;
    assert forall n: CString :: CountAfter(c0, ops, done, 0, n) == Tally(c0, n, 0);
  }

  /** Names are unique throughout the first `k` operations exactly if they were at the start and none of these
      operations stores a file under a name that is there. */
  lemma {:induction false} UniqueThroughoutIff(c0: seq<Byte>, ops: seq<DirOp>, done: seq<bool>, k: nat)
    requires |ops| == |done| && k <= |ops|
    ensures (forall i :: 0 <= i <= k ==> Single(c0, ops, done, i)) <==>
            Unique(c0, 0) && forall i :: 0 <= i < k ==> !Clashes(c0, ops, done, i)
  {
    hide Single, Clashes, Unique;
    if k == 0 {
      SingleStart(c0, ops, done);
    } else {
      UniqueThroughoutIff(c0, ops, done, k - 1);
      if Single(c0, ops, done, k - 1) {
        SingleStep(c0, ops, done, k - 1, k);
      }
    }
  }

  /** A name that fits the 8.3 form never clashes: it is looked up before it is stored. */
  lemma {:induction false} FittingNeverClashes(c0: seq<Byte>, c: seq<Byte>, ops: seq<DirOp>, done: seq<bool>, i: nat)
    requires Recorded(c0, c, ops, done) && i < |ops| && ops[i].Create? && Fits83(ops[i].name)
    ensures !Clashes(c0, ops, done, i)
  {
    hide CountAfter, Fold, Stored, Fits83;
    NewSlotNamed(ops[i].name, ATTR_ARCHIVE, 0);
    CountFolded(c0, ops, done, i, Stored(ops[i].name), ops[i].name);
    assert InKeeping(c0, ops, done, i);
  }
}
