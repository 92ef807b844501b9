/** What becomes of a volume when a table entry is written whose number lies beyond the table. */
module FatMark {
  import opened Bytes
  import opened FatLayout
  import opened FatChains
  import opened FatView
  import opened FatVolume

  /** Some table copy's sector number `s`, counted from that copy's start, is sector `l` of the device. */
  ghost predicate Overwrites(g: Geometry, n: nat, s: nat, l: nat) {
    exists f: nat :: f < n && FatLba(g, f, s) == l
  }

  lemma {:induction false} WithCopiesAt(g: Geometry, d: seq<Sector>, n: nat, s: nat, buf: Sector, l: nat)
    requires l < |d|
    ensures WithCopies(g, d, n, s, buf)[l] == if Overwrites(g, n, s, l) then buf else d[l]
  {
    if n > 0 {
      WithCopiesAt(g, d, n - 1, s, buf, l);
      assert FatLba(g, n - 1, s) == l ==> Overwrites(g, n, s, l);
      assert Overwrites(g, n - 1, s, l) ==> Overwrites(g, n, s, l);
    }
  }

  lemma {:induction false} WithEntryAt(g: Geometry, d: seq<Sector>, c: nat, v: nat, l: nat)
    requires g.fatStart + c * 4 / 512 < |d| && l < |d|
    ensures WithEntry(g, d, c, v)[l] ==
            if Overwrites(g, g.numFats, c * 4 / 512, l) then EntrySector(g, d, c, v) else d[l]
  {
    hide EntrySector, WithCopies, Overwrites;
    WithCopiesAt(g, d, g.numFats, c * 4 / 512, EntrySector(g, d, c, v), l);
  }

  /** A sector of the first copy is overwritten only by that copy's own sector of the same number, and no sector
      before the table is. */
  lemma {:induction false} OverwritesLow(g: Geometry, n: nat, s: nat, t: nat)
    requires t < g.fatSize
    ensures Overwrites(g, n, s, g.fatStart + t) ==> s == t
    ensures forall l: nat :: l < g.fatStart ==> !Overwrites(g, n, s, l)
  {
    forall f: nat | 0 < f < n ensures FatLba(g, f, s) > g.fatStart + t {
      MulStep(0, f, g.fatSize);
    }
  }

  lemma {:induction false} PastDevice(g: Geometry, d: seq<Sector>, c: nat, v: nat)
    requires g.fatStart + c * 4 / 512 >= |d|
    ensures WithEntry(g, d, c, v) == d
  {
  }

  lemma {:induction false} BootKept(g: Geometry, d: seq<Sector>, c: nat, v: nat)
    requires ValidGeometry(g, |d|) && g.fatStart + c * 4 / 512 < |d|
    ensures g.fatStart <= |d| && WithEntry(g, d, c, v)[..g.fatStart] == d[..g.fatStart]
  {
    hide WithEntry, Overwrites, EntrySector;
    FatCopyBound(g, 0, 0);
    forall l: nat | l < g.fatStart ensures WithEntry(g, d, c, v)[l] == d[l] {
      WithEntryAt(g, d, c, v, l);
      OverwritesLow(g, g.numFats, c * 4 / 512, 0);
    }
  }

  lemma {:induction false} EntryKept(g: Geometry, d: seq<Sector>, c: nat, v: nat, b: nat)
    requires g.fatStart + c * 4 / 512 < |d| && g.fatStart + b * 4 / 512 < |d|
    requires b != c && b * 4 / 512 < g.fatSize
    ensures FatWord(g, WithEntry(g, d, c, v), b) % ENTRY_MASK == FatWord(g, d, b) % ENTRY_MASK
  {
    hide WithEntry, GetU32, Overwrites, LittleEndian, EntryWord, Splice;
    var e, buf := WithEntry(g, d, c, v), EntrySector(g, d, c, v);
    WithEntryAt(g, d, c, v, g.fatStart + b * 4 / 512);
    OverwritesLow(g, g.numFats, c * 4 / 512, b * 4 / 512);
    if Overwrites(g, g.numFats, c * 4 / 512, g.fatStart + b * 4 / 512) {
      assert EntryPatched(g, d, c, v, buf);
      EntryWrittenAt(g, d, d[g.fatStart + b * 4 / 512 := buf], c, v, buf, b);
    }
  }

  /** The table as the driver reads it, and all before it, stay as they are. */
  lemma {:induction false} PastTable(g: Geometry, d: seq<Sector>, c: nat, v: nat)
    requires ValidGeometry(g, |d|) && c >= g.totalClusters + 2
    ensures var e := WithEntry(g, d, c, v);
            FatOf(g, e) == FatOf(g, d) && ViewOf(g, e) == ViewOf(g, d).(data := ViewOf(g, e).data)
  {
    hide WithEntry, ClusterData, EntrySector, GetU32, Overwrites;
    var e := WithEntry(g, d, c, v);
    TableInRange(g, |d|);
    if g.fatStart + c * 4 / 512 < |d| {
      forall b | 0 <= b < g.totalClusters + 2 ensures FatOf(g, e)[b] == FatOf(g, d)[b] {
        EntryKept(g, d, c, v, b);
      }
      BootKept(g, d, c, v);
    } else {
      assert e == d by { PastDevice(g, d, c, v); }
    }
  }

  // ---- clusters and chains ----

  /** Equally long pieces can be read back from their concatenation. */
  lemma {:induction false} ConcatInjective(ss: seq<seq<Byte>>, tt: seq<seq<Byte>>, m: nat)
    requires Uniform(ss, m) && Uniform(tt, m) && |ss| == |tt|
    ensures Concat(ss) == Concat(tt) <==> ss == tt
  {
    if Concat(ss) == Concat(tt) {
      forall i | 0 <= i < |ss| ensures ss[i] == tt[i] {
        ConcatAt(ss, m, i, 0, m);
        ConcatAt(tt, m, i, 0, m);
        assert ss[i][0..m] == ss[i] && tt[i][0..m] == tt[i];
      }
    }
  }

  /** Sector `j` of the chain's cluster number `i`. */
  function SectorOf(g: Geometry, es: seq<nat>, i: nat, j: nat): nat
    requires i < |es| && es[i] >= 2
  {
    ClusterLba(g, es[i]) + j
  }

  ghost predicate AllClusters(g: Geometry, es: seq<nat>) {
    forall i :: 0 <= i < |es| ==> IsCluster(g, es[i])
  }

  /** The write of entry number `c` does not change sector `l`: it is not overwritten, or it holds already
      what would be written. */
  ghost predicate SectorSpared(g: Geometry, d: seq<Sector>, c: nat, v: nat, l: nat)
    requires g.fatStart + c * 4 / 512 < |d|
  {
    Overwrites(g, g.numFats, c * 4 / 512, l) ==> l < |d| && d[l] == EntrySector(g, d, c, v)
  }

  /** No sector of the chain is one that the write of entry number `c` changes. */
  ghost predicate Unharmed(g: Geometry, d: seq<Sector>, c: nat, v: nat, es: seq<nat>)
    requires AllClusters(g, es)
  {
    g.fatStart + c * 4 / 512 < |d| ==>
      forall i: nat, j: nat :: i < |es| && j < g.sectorsPerCluster ==> SectorSpared(g, d, c, v, SectorOf(g, es, i, j))
  }

  ghost predicate SameSectors(g: Geometry, d: seq<Sector>, e: seq<Sector>, es: seq<nat>)
    requires AllClusters(g, es)
  {
    |d| == |e| &&
    forall i: nat, j: nat :: i < |es| && j < g.sectorsPerCluster ==>
      SectorOf(g, es, i, j) < |d| && e[SectorOf(g, es, i, j)] == d[SectorOf(g, es, i, j)]
  }

  lemma {:induction false} SectorsOfClusters(g: Geometry, d: seq<Sector>, e: seq<Sector>, es: seq<nat>)
    requires ValidGeometry(g, |d|) && |e| == |d| && AllClusters(g, es)
    ensures SameSectors(g, d, e, es) <==>
      forall i :: 0 <= i < |es| ==> ClusterSectors(g, e, es[i]) == ClusterSectors(g, d, es[i])
  {
    hide ValidGeometry;
    if forall i :: 0 <= i < |es| ==> ClusterSectors(g, e, es[i]) == ClusterSectors(g, d, es[i]) {
      forall i: nat, j: nat | i < |es| && j < g.sectorsPerCluster
        ensures SectorOf(g, es, i, j) < |d| && e[SectorOf(g, es, i, j)] == d[SectorOf(g, es, i, j)]
      {
        assert ClusterSectors(g, e, es[i])[j] == ClusterSectors(g, d, es[i])[j];
      }
    }
    if SameSectors(g, d, e, es) {
      forall i: nat | i < |es| ensures ClusterSectors(g, e, es[i]) == ClusterSectors(g, d, es[i]) {
        forall j: nat | j < g.sectorsPerCluster
          ensures ClusterSectors(g, e, es[i])[j] == ClusterSectors(g, d, es[i])[j]
        {
          assert SectorOf(g, es, i, j) < |d|;
        }
      }
    }
  }

  /** A chain's bytes are the same exactly if its sectors are. */
  lemma {:induction false} SameContentIff(g: Geometry, d: seq<Sector>, e: seq<Sector>, es: seq<nat>)
    requires ValidGeometry(g, |d|) && |e| == |d| && AllClusters(g, es)
    ensures Content(ViewOf(g, e), es) == Content(ViewOf(g, d), es) <==> SameSectors(g, d, e, es)
  {
    hide ValidGeometry, FatOf;
    var v, w := ViewOf(g, d), ViewOf(g, e);
    ConcatInjective(FatView.Pieces(v, es), FatView.Pieces(w, es), g.ClusterBytes());
    forall i: nat | i < |es|
      ensures w.data[es[i]] == v.data[es[i]] <==> ClusterSectors(g, e, es[i]) == ClusterSectors(g, d, es[i])
    {
      ConcatInjective(ClusterSectors(g, d, es[i]), ClusterSectors(g, e, es[i]), 512);
    }
    forall i: nat | i < |es|
      ensures FatView.Pieces(v, es)[i] == v.data[es[i]] && FatView.Pieces(w, es)[i] == w.data[es[i]]
    {
    }
    SectorsOfClusters(g, d, e, es);
  }

  lemma {:induction false} SectorInRange(g: Geometry, sectors: nat, es: seq<nat>, i: nat, j: nat)
    requires ValidGeometry(g, sectors) && AllClusters(g, es) && i < |es| && j < g.sectorsPerCluster
    ensures g.dataStart <= SectorOf(g, es, i, j) < sectors
  {
    ClusterInRange(g, sectors, es[i], j);
  }

  /** A write of an entry number beyond the table keeps a chain's bytes exactly if it changes none of the
      chain's sectors. */
  lemma {:induction false} UnharmedIff(g: Geometry, d: seq<Sector>, c: nat, v: nat, es: seq<nat>)
    requires ValidGeometry(g, |d|) && AllClusters(g, es)
    ensures Content(ViewOf(g, WithEntry(g, d, c, v)), es) == Content(ViewOf(g, d), es) <==> Unharmed(g, d, c, v, es)
  {
    hide ValidGeometry, ViewOf, Content, WithEntry, Overwrites, EntrySector, SectorOf;
    var e := WithEntry(g, d, c, v);
    SameContentIff(g, d, e, es);
    forall i: nat, j: nat | i < |es| && j < g.sectorsPerCluster ensures SectorOf(g, es, i, j) < |d| {
      SectorInRange(g, |d|, es, i, j);
    }
    if g.fatStart + c * 4 / 512 < |d| {
      forall i: nat, j: nat | i < |es| && j < g.sectorsPerCluster
        ensures e[SectorOf(g, es, i, j)] == if Overwrites(g, g.numFats, c * 4 / 512, SectorOf(g, es, i, j))
                  then EntrySector(g, d, c, v) else d[SectorOf(g, es, i, j)]
      {
        WithEntryAt(g, d, c, v, SectorOf(g, es, i, j));
      }
    } else {
      PastDevice(g, d, c, v);
    }
  }

  // ---- the table's copies ----

  lemma {:induction false} LowByte(b: Byte, rest: nat)
    ensures (b + 0x100 * rest) % 0x100 == b && (b + 0x100 * rest) / 0x100 == rest
  {
  }

  lemma {:induction false} BytesOfWord(s: seq<Byte>, o: nat)
    requires o + 4 <= |s|
    ensures LittleEndian(GetU32(s, o)) == s[o..o + 4]
  {
    var b2: nat, b3: nat := s[o + 2], s[o + 3];
    var w := b2 + 0x100 * b3;
    var u := s[o + 1] + 0x100 * w;
    assert GetU32(s, o) == s[o] + 0x100 * u;
    LowByte(s[o], u);
    LowByte(s[o + 1], w);
    LowByte(b2, b3);
  }

  /** The sector written is the one read exactly if the entry had that value already. */
  lemma {:induction false} SameWordIff(g: Geometry, d: seq<Sector>, c: nat, v: nat)
    requires g.fatStart + c * 4 / 512 < |d|
    ensures EntrySector(g, d, c, v) == d[g.fatStart + c * 4 / 512] <==> FatWord(g, d, c) % ENTRY_MASK == v % ENTRY_MASK
  {
    hide LittleEndian, GetU32;
    var was, o := d[g.fatStart + c * 4 / 512], c * 4 % 512;
    OffsetsApart(c, c);
    BytesOfWord(was, o);
    var word := EntryWord(GetU32(was, o), v);
    WordSpliced(was, o, word, o);
    assert Splice(was, o, was[o..o + 4]) == was;
  }

  lemma {:induction false} MulAdd(a: nat, b: nat, m: nat)
    ensures Mul(a + b, m) == Mul(a, m) + Mul(b, m)
  {
    if b > 0 {
      MulAdd(a, b - 1, m);
    }
  }

  /** The copy and the sector within it that sector number `s`, counted from the table's start, lies in. */
  lemma {:induction false} CopyOf(g: Geometry, n: nat, s: nat) returns (q: nat, r: nat)
    requires g.fatSize <= s < Mul(n, g.fatSize)
    ensures 1 <= q < n && r < g.fatSize && s == Mul(q, g.fatSize) + r
  {
    if s >= Mul(n - 1, g.fatSize) {
      q, r := n - 1, s - Mul(n - 1, g.fatSize);
    } else {
      q, r := CopyOf(g, n - 1, s);
    }
  }

  /** What is overwritten in a copy is the sector of the same number as the one the entry's number leads to. */
  lemma {:induction false} OverwritesCopy(g: Geometry, s: nat, q: nat, r: nat, f: nat, t: nat)
    requires s == Mul(q, g.fatSize) + r && r < g.fatSize && t < g.fatSize
    requires Overwrites(g, g.numFats, s, FatLba(g, f, t))
    ensures t == r
  {
    var f': nat :| f' < g.numFats && FatLba(g, f', s) == FatLba(g, f, t);
    MulAdd(f', q, g.fatSize);
    assert FatLba(g, f' + q, r) == FatLba(g, f, t);
    if f < f' + q {
      FatCopyOrder(g, f, t, f' + q, r);
    } else if f' + q < f {
      FatCopyOrder(g, f' + q, r, f, t);
    }
  }

  /** The write leaves the copies equal: it stays within each copy, or starts behind them all, or
      changes nothing. */
  ghost predicate StaysMirrored(g: Geometry, d: seq<Sector>, c: nat, v: nat)
    requires ValidGeometry(g, |d|)
  {
    c * 4 / 512 < g.fatSize || g.fatStart + c * 4 / 512 >= g.dataStart ||
    FatWord(g, d, c) % ENTRY_MASK == v % ENTRY_MASK
  }

  lemma {:induction false} EntryInCopies(g: Geometry, d: seq<Sector>, c: nat, v: nat)
    requires ValidGeometry(g, |d|) && Mirrored(g, d) && c * 4 / 512 < g.fatSize
    ensures Mirrored(g, WithEntry(g, d, c, v))
  {
    hide EntrySector, WithCopies, Mirrored, CopiesWritten;
    FatCopyBound(g, 0, c * 4 / 512 + 1);
    WithinTable(g, d, g.numFats, c * 4 / 512, EntrySector(g, d, c, v));
    MirrorKept(g, d, WithEntry(g, d, c, v), c * 4 / 512, EntrySector(g, d, c, v));
  }

  lemma {:induction false} BehindCopies(g: Geometry, d: seq<Sector>, c: nat, v: nat)
    requires ValidGeometry(g, |d|) && Mirrored(g, d) && g.fatStart + c * 4 / 512 >= g.dataStart
    ensures Mirrored(g, WithEntry(g, d, c, v))
  {
    hide EntrySector, WithCopies, WithEntry;
    var e := WithEntry(g, d, c, v);
    if g.fatStart + c * 4 / 512 < |d| {
      forall l: nat | l < g.dataStart ensures e[l] == d[l] {
        WithEntryAt(g, d, c, v, l);
      }
      forall f, t | 0 <= f < g.numFats && 0 <= t < g.fatSize
        ensures FatLba(g, f, t) < g.dataStart && g.fatStart + t < g.dataStart
      {
        FatCopyBound(g, f, t + 1);
      }
    } else {
      PastDevice(g, d, c, v);
    }
  }

  lemma {:induction false} FirstOverwritten(g: Geometry, s: nat)
    requires g.numFats >= 1
    ensures Overwrites(g, g.numFats, s, g.fatStart + s)
  {
    assert FatLba(g, 0, s) == g.fatStart + s;
  }

  lemma {:induction false} SameInCopy(g: Geometry, d: seq<Sector>, c: nat, v: nat, q: nat, r: nat, f: nat, t: nat)
    requires ValidGeometry(g, |d|) && Mirrored(g, d) && g.fatStart + c * 4 / 512 < |d|
    requires c * 4 / 512 == Mul(q, g.fatSize) + r && r < g.fatSize && f < g.numFats && t < g.fatSize
    requires EntrySector(g, d, c, v) == d[g.fatStart + r]
    ensures FatLba(g, f, t) < |d| && WithEntry(g, d, c, v)[FatLba(g, f, t)] == d[g.fatStart + t]
  {
    hide EntrySector, WithEntry, Overwrites;
    WithEntryAt(g, d, c, v, FatLba(g, f, t));
    if Overwrites(g, g.numFats, c * 4 / 512, FatLba(g, f, t)) {
      OverwritesCopy(g, c * 4 / 512, q, r, f, t);
    }
  }

  lemma {:induction false} AcrossCopies(g: Geometry, d: seq<Sector>, c: nat, v: nat)
    requires ValidGeometry(g, |d|) && Mirrored(g, d)
    requires c * 4 / 512 >= g.fatSize && g.fatStart + c * 4 / 512 < g.dataStart
    ensures Mirrored(g, WithEntry(g, d, c, v)) <==> FatWord(g, d, c) % ENTRY_MASK == v % ENTRY_MASK
  {
    hide EntrySector, WithEntry, Overwrites, FatWord;
    var e, s, buf := WithEntry(g, d, c, v), c * 4 / 512, EntrySector(g, d, c, v);
    var q, r := CopyOf(g, g.numFats, s);
    SameWordIff(g, d, c, v);
    assert FatLba(g, q, r) == FatLba(g, 0, s) == g.fatStart + s;
    assert d[g.fatStart + s] == d[g.fatStart + r];
    if buf == d[g.fatStart + s] {
      forall f, t | 0 <= f < g.numFats && 0 <= t < g.fatSize
        ensures FatLba(g, f, t) < |e| && e[FatLba(g, f, t)] == e[g.fatStart + t]
      {
        SameInCopy(g, d, c, v, q, r, f, t);
        SameInCopy(g, d, c, v, q, r, 0, t);
      }
    } else {
      WithEntryAt(g, d, c, v, g.fatStart + s);
      WithEntryAt(g, d, c, v, g.fatStart + r);
      FirstOverwritten(g, s);
      OverwritesLow(g, g.numFats, s, r);
      assert e[FatLba(g, q, r)] != e[g.fatStart + r];
    }
  }

  lemma {:induction false} MirroredIff(g: Geometry, d: seq<Sector>, c: nat, v: nat)
    requires ValidGeometry(g, |d|) && Mirrored(g, d)
    ensures Mirrored(g, WithEntry(g, d, c, v)) <==> StaysMirrored(g, d, c, v)
  {
    hide EntrySector, WithCopies, Overwrites, CopiesWritten, FatWord;
    var s := c * 4 / 512;
    if s < g.fatSize {
      EntryInCopies(g, d, c, v);
    } else if g.fatStart + s >= g.dataStart {
      BehindCopies(g, d, c, v);
    } else {
      AcrossCopies(g, d, c, v);
    }
  }
}
