/** Reading, writing and freeing cluster chains. */
module FatFile {
  import opened Bytes
  import opened FatLayout
  import opened FatChains
  import opened FatView
  import opened FatVolume

  /** The driver's idiom for a new zeroed cluster; 0 when the volume is full. */
  method AllocZeroed(m: Mount) returns (c: nat)
    requires m.Valid()
    modifies m
    ensures m.Valid() && |m.disk| == old(|m.disk|)
    ensures c == 0 ==> m.disk == old(m.disk) && Full(m.Volume())
    ensures c != 0 ==> IsCluster(m.g, c) && old(m.Volume()).fat[c] == 0
    ensures c != 0 ==> m.Volume() == WithFresh(old(m.Volume()), c, m.g.ClusterBytes())
  {
    c := AllocCluster(m);
    if c != 0 {
      var _ := ZeroCluster(m, c);
    }
  }

  /** Appends a zeroed cluster behind `tail`, the last cluster of the chain `cs`, which has grown
      from `cs0` since the volume was `v0`. */
  method AppendCluster(m: Mount, tail: nat, ghost v0: View, ghost cs0: seq<nat>, ghost cs: seq<nat>) returns (c: nat)
    requires m.Valid() && Growth(v0, cs0, m.Volume(), cs) && tail == cs[|cs| - 1]
    modifies m
    ensures m.Valid() && |m.disk| == old(|m.disk|)
    ensures c == 0 ==> m.Volume() == old(m.Volume()) && Full(m.Volume())
    ensures c != 0 ==> c >= 2 && Growth(v0, cs0, m.Volume(), cs + [c])
    ensures c != 0 ==> Padded(Content(old(m.Volume()), cs), Content(m.Volume(), cs + [c]))
  {
    hide Growth, Padded, Content, Full, ViewOf, Mount.Valid;
    c := AllocZeroed(m);
    if c != 0 {
      var linked := WriteFat(m, tail, c);
      LinkGrowth(v0, cs0, old(m.Volume()), cs, c, m.g.ClusterBytes(), m.Volume());
    }
  }

  /** The cluster after `cluster`, number `i` of its chain, appending one at the end;
      0 when the volume is full. */
  method NextOrAppend(m: Mount, cluster: nat, ghost v0: View, ghost cs0: seq<nat>, ghost cs: seq<nat>, ghost i: nat)
    returns (next: nat, ghost cs': seq<nat>)
    requires m.Valid() && Growth(v0, cs0, m.Volume(), cs)
    requires i < |cs| && cluster == cs[i]
    modifies m
    ensures m.Valid() && |m.disk| == old(|m.disk|)
    ensures Growth(v0, cs0, m.Volume(), cs')
    ensures cs' == (if next == 0 || i + 1 < |cs| then cs else cs + [next])
    ensures next == 0 ==> m.Volume() == old(m.Volume()) && Full(m.Volume())
    ensures next != 0 ==> i + 1 < |cs'| && next == cs'[i + 1]
    ensures Padded(Content(old(m.Volume()), cs), Content(m.Volume(), cs'))
  {
    ChainSuccessor(m.Volume().fat, cs, i);
    PaddedSelf(Content(m.Volume(), cs));
    next := ReadFat(m, cluster);
    if IsEoc(next) || next < 2 {
      next := AppendCluster(m, cluster, v0, cs0, cs);
      cs' := if next == 0 then cs else cs + [next];
    } else {
      cs' := cs;
    }
  }

  /** Writes `x` into sector `i` of a cluster, at byte `o` of the sector. */
  method PatchSector(m: Mount, c: nat, i: nat, o: nat, x: seq<Byte>) returns (ok: bool)
    requires m.Valid() && IsCluster(m.g, c) && i < m.g.sectorsPerCluster && o + |x| <= 512
    modifies m
    ensures ok && m.Valid() && |m.disk| == old(|m.disk|)
    ensures i * 512 + o + |x| <= |old(m.Volume()).data[c]|
    ensures m.Volume() == old(m.Volume()).(data :=
      old(m.Volume()).data[c := Splice(old(m.Volume()).data[c], i * 512 + o, x)])
  {
    ClusterInRange(m.g, |m.disk|, c, i);
    var read, buf := m.DevRead(ClusterLba(m.g, c) + i);
    if !read {
      return false;
    }
    ok := m.DevWrite(ClusterLba(m.g, c) + i, Splice(buf, o, x));
    PatchView(m.g, old(m.disk), c, i, o, x, m.disk);
  }

  /** The state of a write in progress: `b` bytes of content written so far at `offset`,
      the next byte going to position `intra` of the chain's cluster number `n`. */
  ghost predicate Writing(v0: View, cs0: seq<nat>, v: View, cs: seq<nat>, size: nat, offset: nat, b: seq<Byte>, n: nat,
                          intra: nat)
    requires InVolume(v0, cs0)
    ensures Writing(v0, cs0, v, cs, size, offset, b, n, intra) ==> n < |cs| && intra <= size && Growth(v0, cs0, v, cs)
  {
    && IsView(v, size) && Growth(v0, cs0, v, cs) && n < |cs| && intra <= size
    && Mul(n, size) + intra == offset + |b|
    && Overlaid(Content(v0, cs0), Content(v, cs), offset, b)
    && (|cs| > |cs0| ==> |cs| == n + 1)
  }

  lemma {:induction false} PositionInside(v: View, size: nat, cs: seq<nat>, n: nat, intra: nat)
    requires IsView(v, size) && InVolume(v, cs) && n < |cs| && intra <= size
    ensures Mul(n, size) + intra <= |Content(v, cs)|
  {
    ContentLength(v, size, cs);
    MulStep(n, |cs|, size);
  }

  lemma {:induction false} WriteStep(v0: View, cs0: seq<nat>, v: View, cs: seq<nat>, size: nat, offset: nat,
                                     b: seq<Byte>, k: nat, k': nat, n: nat, intra: nat, w: View)
    requires InVolume(v0, cs0) && k <= k' <= |b|
    requires Writing(v0, cs0, v, cs, size, offset, b[..k], n, intra) && intra + (k' - k) <= size
    requires w == v.(data := v.data[cs[n] := Splice(v.data[cs[n]], intra, b[k..k'])])
    ensures Writing(v0, cs0, w, cs, size, offset, b[..k'], n, intra + (k' - k))
  {
    ChainAcyclic(v.fat, cs);
    PatchGrowth(v0, cs0, v, cs, n, w.data[cs[n]]);
    ContentPatch(v, size, cs, n, intra, b[k..k'], w);
    OverlaidStep(Content(v0, cs0), Content(v, cs), offset, b, k, k', Content(w, cs));
  }

  lemma {:induction false} AdvanceStep(v0: View, cs0: seq<nat>, v: View, cs: seq<nat>, size: nat, offset: nat,
                                       b: seq<Byte>, n: nat, w: View, cs': seq<nat>)
    requires InVolume(v0, cs0) && Writing(v0, cs0, v, cs, size, offset, b, n, size)
    requires IsView(w, size) && Growth(v0, cs0, w, cs') && n + 1 < |cs'|
    requires cs' == cs || (n + 1 == |cs| && |cs'| == |cs| + 1)
    requires Padded(Content(v, cs), Content(w, cs'))
    ensures Writing(v0, cs0, w, cs', size, offset, b, n + 1, 0)
  {
    OverlaidPad(Content(v0, cs0), Content(v, cs), offset, b, Content(w, cs'));
  }

  /** The first cluster of a file that is about to be written, allocated if there is none. */
  method FirstCluster(m: Mount, first: nat, ghost cs0: seq<nat>) returns (c: nat, ghost cs: seq<nat>)
    requires m.Valid() && IsFile(m.Volume().fat, first, cs0)
    modifies m
    ensures m.Valid() && |m.disk| == old(|m.disk|)
    ensures c == 0 ==> cs0 == cs == [] && m.disk == old(m.disk) && Full(m.Volume())
    ensures c != 0 ==> Growth(old(m.Volume()), cs0, m.Volume(), cs) && cs[0] == c
    ensures c != 0 ==> |cs| == if cs0 == [] then 1 else |cs0|
    ensures c != 0 ==> Padded(Content(old(m.Volume()), cs0), Content(m.Volume(), cs))
  {
    c, cs := first, cs0;
    PaddedSelf(Content(m.Volume(), cs0));
    if first < 2 {
      c := AllocZeroed(m);
      if c != 0 {
        cs := [c];
        ContentAppend(m.Volume(), [], c);
        assert [] + [c] == cs;
      }
    }
  }

  /** Steps `count` clusters along a chain, extending it as needed; 0 when the volume is full. */
  method WalkExtending(m: Mount, first: nat, count: nat, ghost v0: View, ghost cs0: seq<nat>, ghost cs1: seq<nat>)
    returns (c: nat, ghost cs: seq<nat>)
    requires m.Valid() && Growth(v0, cs0, m.Volume(), cs1) && cs1[0] == first
    requires InVolume(v0, cs0) && Padded(Content(v0, cs0), Content(m.Volume(), cs1))
    requires |cs1| > |cs0| ==> |cs1| == 1
    modifies m
    ensures m.Valid() && |m.disk| == old(|m.disk|)
    ensures Growth(v0, cs0, m.Volume(), cs) && cs[0] == first
    ensures Padded(Content(v0, cs0), Content(m.Volume(), cs))
    ensures c == 0 ==> Full(m.Volume())
    ensures c != 0 ==> count < |cs| && cs[count] == c && (|cs| > |cs0| ==> |cs| == count + 1)
  {
    hide Growth, Padded, Content, Full, Mount.Valid, Mount.Volume;
    c, cs := first, cs1;
    var i := 0;
    while i < count
      invariant 0 <= i <= count && m.Valid() && |m.disk| == old(|m.disk|)
      invariant Growth(v0, cs0, m.Volume(), cs) && cs[0] == first
      invariant Padded(Content(v0, cs0), Content(m.Volume(), cs))
      invariant i < |cs| && cs[i] == c && (|cs| > |cs0| ==> |cs| == i + 1)
    {
      ghost var before := Content(m.Volume(), cs);
      ghost var cs';
      c, cs' := NextOrAppend(m, c, v0, cs0, cs, i);
      PaddedTrans(Content(v0, cs0), before, Content(m.Volume(), cs'));
      cs := cs';
      if c == 0 {
        return;
      }
      i := i + 1;
    }
  }

  /** Writes as much of `b` as fits the sector at position `pos` of cluster number `n`. */
  method WriteChunk(m: Mount, cluster: nat, pos: nat, offset: nat, buf: seq<Byte>, k: nat, ghost v0: View,
                    ghost cs0: seq<nat>, ghost cs: seq<nat>, ghost n: nat)
    returns (ok: bool, avail: nat)
    requires m.Valid() && InVolume(v0, cs0) && k < |buf| && pos < m.g.ClusterBytes()
    requires Writing(v0, cs0, m.Volume(), cs, m.g.ClusterBytes(), offset, buf[..k], n, pos) && cs[n] == cluster
    modifies m
    ensures ok && m.Valid() && |m.disk| == old(|m.disk|)
    ensures 0 < avail <= |buf| - k && pos + avail <= m.g.ClusterBytes()
    ensures Writing(v0, cs0, m.Volume(), cs, m.g.ClusterBytes(), offset, buf[..k + avail], n, pos + avail)
  {
    hide Growth, Writing, Mount.Valid, ViewOf;
    avail := 512 - pos % 512;
    if avail > |buf| - k {
      avail := |buf| - k;
    }
    ok := PatchSector(m, cluster, pos / 512, pos % 512, buf[k..k + avail]);
    assert pos / 512 * 512 + pos % 512 == pos;
    WriteStep(v0, cs0, old(m.Volume()), cs, m.g.ClusterBytes(), offset, buf, k, k + avail, n, pos, m.Volume());
  }

  /** Writes `buf` sector by sector from position `start` of the chain's cluster number `n0` on. */
  method WriteLoop(m: Mount, first: nat, start: nat, offset: nat, buf: seq<Byte>, ghost v0: View, ghost cs0: seq<nat>,
                   ghost cs1: seq<nat>, ghost n0: nat)
    returns (written: nat, ghost cs: seq<nat>, ghost n: nat, ghost intra: nat)
    requires m.Valid() && InVolume(v0, cs0) && buf != []
    requires Writing(v0, cs0, m.Volume(), cs1, m.g.ClusterBytes(), offset, [], n0, start)
    requires start < m.g.ClusterBytes() && cs1[n0] == first
    modifies m
    ensures m.Valid() && |m.disk| == old(|m.disk|)
    ensures cs1 <= cs && 0 < written <= |buf| && cs != []
    ensures Writing(v0, cs0, m.Volume(), cs, m.g.ClusterBytes(), offset, buf[..written], n, intra)
    ensures intra > 0
    ensures written < |buf| ==> Full(m.Volume())
  {
    hide *;
    var cluster, pos: nat := first, start;
    written, cs, n := 0, cs1, n0;
    assert buf[..0] == [];
    while written < |buf|
      invariant m.Valid() && |m.disk| == old(|m.disk|)
      invariant cs1 <= cs && written <= |buf|
      invariant Writing(v0, cs0, m.Volume(), cs, m.g.ClusterBytes(), offset, buf[..written], n, pos)
      invariant cs[n] == cluster && (written < |buf| ==> pos < m.g.ClusterBytes())
      invariant written > 0 && written == |buf| ==> pos > 0
      decreases |buf| - written
    {
      var ok, avail := WriteChunk(m, cluster, pos, offset, buf, written, v0, cs0, cs, n);
      if !ok {
        return;
      }
      written := written + avail;
      pos := pos + avail;
      if pos >= m.g.ClusterBytes() && written < |buf| {
        ghost var v := m.Volume();
        ghost var cs';
        var next: nat;
        next, cs' := NextOrAppend(m, cluster, v0, cs0, cs, n);
        if next == 0 {
          intra := pos;
          return;
        }
        AdvanceStep(v0, cs0, v, cs, m.g.ClusterBytes(), offset, buf[..written], n, m.Volume(), cs');
        cluster, pos, cs, n := next, 0, cs', n + 1;
      }
    }
    intra := pos;
  }

  // ---- the operations on a file's chain ----

  /** Which cluster of a chain holds byte `offset`, and where in it. */
  method Locate(offset: nat, size: nat) returns (n: nat, intra: nat)
    requires size > 0
    ensures Mul(n, size) + intra == offset && intra < size
  {
    n, intra := offset / size, offset % size;
    MulIsProduct(n, size);
  }

  lemma {:induction false} NoGrowth(v: View, first: nat, cs: seq<nat>)
    requires IsFile(v.fat, first, cs) && |v.fat| == |v.data|
    ensures InVolume(v, cs)
    ensures cs != [] ==> Growth(v, cs, v, cs)
    ensures Untouched(v, cs, v, cs)
  {
  }

  lemma {:induction false} GrowthFacts(v0: View, cs0: seq<nat>, v: View, cs: seq<nat>)
    requires Growth(v0, cs0, v, cs)
    ensures IsFile(v.fat, cs[0], cs) && cs0 <= cs
    ensures Untouched(v0, cs0, v, cs)
  {
    AllOthersIntact(v0, cs0, v, cs);
  }

  lemma {:induction false} StartWriting(v0: View, cs0: seq<nat>, v: View, cs: seq<nat>, size: nat, offset: nat, n: nat,
                                        intra: nat)
    requires IsView(v, size) && InVolume(v0, cs0) && Growth(v0, cs0, v, cs)
    requires Padded(Content(v0, cs0), Content(v, cs))
    requires Mul(n, size) + intra == offset && intra < size
    requires n < |cs| && (|cs| > |cs0| ==> |cs| == n + 1)
    ensures Writing(v0, cs0, v, cs, size, offset, [], n, intra)
  {
    PositionInside(v, size, cs, n, intra);
    OverlaidStart(Content(v0, cs0), Content(v, cs), offset);
  }

  lemma {:induction false} WritingFacts(v0: View, cs0: seq<nat>, v: View, cs: seq<nat>, size: nat, offset: nat,
                                        b: seq<Byte>, n: nat, intra: nat)
    requires InVolume(v0, cs0) && Writing(v0, cs0, v, cs, size, offset, b, n, intra) && intra > 0
    ensures Overlaid(Content(v0, cs0), Content(v, cs), offset, b)
    ensures |cs| > |cs0| ==> Mul(|cs| - 1, size) < offset + |b|
  {
  }

  /** Writes `buf` at byte `offset` of the file whose first cluster is `first` and whose chain is `cs`.
      `status` is the number of bytes written or E_NOSPACE; `first'` and `cs'` are the file afterwards. */
  method ChainWrite(m: Mount, first: nat, offset: nat, buf: seq<Byte>, ghost cs: seq<nat>)
    returns (status: int, first': nat, ghost cs': seq<nat>)
    requires m.Valid() && IsFile(m.Volume().fat, first, cs)
    modifies m
    ensures m.Valid() && |m.disk| == old(|m.disk|)
    ensures IsFile(m.Volume().fat, first', cs') && cs <= cs' && (cs != [] ==> first' == first)
    // the bytes: the old content, zero-extended, with what was written laid over it
    ensures status >= 0 ==> status <= |buf|
    ensures status > 0 ==> Overlaid(Content(old(m.Volume()), cs), Content(m.Volume(), cs'), offset, buf[..status])
    ensures status == 0 <==> buf == []
    ensures status == 0 ==> m.disk == old(m.disk) && cs' == cs
    ensures status < 0 ==> status == E_NOSPACE && Padded(Content(old(m.Volume()), cs), Content(m.Volume(), cs'))
    // it stops short only on a full volume, and takes no cluster it does not need
    ensures status < |buf| ==> Full(m.Volume())
    ensures status == |buf| && |cs'| > |cs| ==> Mul(|cs'| - 1, m.g.ClusterBytes()) < offset + |buf|
    // every other chain is untouched
    ensures cs' != [] ==> Growth(old(m.Volume()), cs, m.Volume(), cs')
    ensures Untouched(old(m.Volume()), cs, m.Volume(), cs')
  {
    hide Overlaid, Padded, Content, ViewOf, Full, Mount.Valid, Growth, Untouched, Writing;
    status, first', cs' := 0, first, cs;
    ghost var v0 := m.Volume();
    NoGrowth(v0, first, cs);
    if buf == [] {
      return;
    }
    var cluster: nat;
    cluster, cs' := FirstCluster(m, first, cs);
    if cluster == 0 {
      PaddedSelf(Content(v0, cs));
      status := E_NOSPACE;
      return;
    }
    first' := cluster;
    var size := m.g.ClusterBytes();
    var index, start := Locate(offset, size);
    cluster, cs' := WalkExtending(m, cluster, index, v0, cs, cs');
    GrowthFacts(v0, cs, m.Volume(), cs');
    if cluster == 0 {
      status := E_NOSPACE;
      return;
    }
    StartWriting(v0, cs, m.Volume(), cs', size, offset, index, start);
    var written: nat;
    ghost var n: nat, intra: nat;
    written, cs', n, intra := WriteLoop(m, cluster, start, offset, buf, v0, cs, cs', index);
    GrowthFacts(v0, cs, m.Volume(), cs');
    WritingFacts(v0, cs, m.Volume(), cs', size, offset, buf[..written], n, intra);
    status := written;
  }

  /** Reads at most `len` bytes of the sector at position `pos` of a cluster. */
  method ReadChunk(m: Mount, c: nat, pos: nat, len: nat) returns (ok: bool, x: seq<Byte>)
    requires m.Valid() && IsCluster(m.g, c) && pos < m.g.ClusterBytes() && len > 0
    ensures ok && 0 < |x| <= len && pos + |x| <= m.g.ClusterBytes()
    ensures x == m.Volume().data[c][pos..pos + |x|]
  {
    ClusterInRange(m.g, |m.disk|, c, pos / 512);
    var read, buf := m.DevRead(ClusterLba(m.g, c) + pos / 512);
    if !read {
      return false, [];
    }
    var avail := 512 - pos % 512;
    if avail > len {
      avail := len;
    }
    ConcatAt(ClusterSectors(m.g, m.disk, c), 512, pos / 512, pos % 512, avail);
    MulIsProduct(pos / 512, 512);
    return true, buf[pos % 512..pos % 512 + avail];
  }

  /** `x` are the bytes of the content from `offset` on, and the next one is at `pos` of cluster `n`. */
  ghost predicate Reading(v: View, cs: seq<nat>, size: nat, offset: nat, x: seq<Byte>, n: nat, pos: nat)
    requires InVolume(v, cs)
    ensures Reading(v, cs, size, offset, x, n, pos) ==> pos <= size && n < |cs|
  {
    && pos <= size && n < |cs| && Mul(n, size) + pos == offset + |x|
    && offset + |x| <= |Content(v, cs)|
    && x == Content(v, cs)[offset..offset + |x|]
  }

  lemma {:induction false} ReadStep(v: View, cs: seq<nat>, size: nat, offset: nat, x: seq<Byte>, n: nat, pos: nat,
                                    y: seq<Byte>)
    requires IsView(v, size) && InVolume(v, cs) && Reading(v, cs, size, offset, x, n, pos) && pos + |y| <= size
    requires y == v.data[cs[n]][pos..pos + |y|]
    ensures Reading(v, cs, size, offset, x + y, n, pos + |y|)
  {
    ContentAt(v, size, cs, n, pos, |y|);
    var c, o := Content(v, cs), offset + |x|;
    assert c[offset..o + |y|] == c[offset..o] + c[o..o + |y|];
  }

  lemma {:induction false} ReadAdvance(v: View, cs: seq<nat>, size: nat, offset: nat, x: seq<Byte>, n: nat)
    requires InVolume(v, cs) && Reading(v, cs, size, offset, x, n, size) && n + 1 < |cs|
    ensures Reading(v, cs, size, offset, x, n + 1, 0)
  {
  }

  lemma {:induction false} WindowEmpty(s: seq<Byte>, offset: nat)
    ensures Window(s, offset, 0) == []
  {
  }

  lemma {:induction false} WindowPast(s: seq<Byte>, offset: nat, len: nat)
    requires offset >= |s|
    ensures Window(s, offset, len) == []
  {
  }

  lemma {:induction false} FileInVolume(v: View, first: nat, cs: seq<nat>)
    requires IsFile(v.fat, first, cs) && |v.fat| == |v.data|
    ensures InVolume(v, cs) && (cs == [] <==> first < 2)
  {
  }

  lemma {:induction false} ReadingDone(v: View, cs: seq<nat>, size: nat, offset: nat, x: seq<Byte>, n: nat, pos: nat,
                                       len: nat)
    requires IsView(v, size) && InVolume(v, cs) && Reading(v, cs, size, offset, x, n, pos)
    requires |x| == len || (|x| < len && pos == size && n + 1 == |cs|)
    ensures x == Window(Content(v, cs), offset, len)
  {
    ContentLength(v, size, cs);
  }

  lemma {:induction false} ReadingStart(v: View, cs: seq<nat>, size: nat, offset: nat, n: nat, pos: nat)
    requires IsView(v, size) && InVolume(v, cs) && Mul(n, size) + pos == offset && pos < size
    ensures n < |cs| ==> Reading(v, cs, size, offset, [], n, pos)
    ensures n >= |cs| ==> offset >= |Content(v, cs)|
  {
    ContentLength(v, size, cs);
    if n < |cs| {
      MulStep(n, |cs|, size);
    } else if n > |cs| {
      MulStep(|cs|, n, size);
    }
  }

  /** Steps `count` clusters along a chain; `end` when the chain has no such cluster. */
  method Walk(m: Mount, first: nat, count: nat, ghost cs: seq<nat>) returns (end: bool, c: nat)
    requires m.Valid() && IsFile(m.Volume().fat, first, cs)
    requires cs == [] && count > 0 ==> IsEoc(m.Volume().fat[first]) || m.Volume().fat[first] < 2
    ensures end ==> count >= |cs|
    ensures !end && cs != [] ==> count < |cs| && c == cs[count]
    ensures !end && cs == [] ==> count == 0 && c == first
  {
    c := first;
    var i := 0;
    while i < count
      invariant 0 <= i <= count
      invariant cs != [] ==> i < |cs| && c == cs[i]
      invariant cs == [] ==> i == 0 && c == first
    {
      if cs != [] {
        ChainSuccessor(m.Volume().fat, cs, i);
      }
      c := ReadFat(m, c);
      if IsEoc(c) || c < 2 {
        return true, c;
      }
      i := i + 1;
    }
    end := false;
  }

  /** Reads up to `len` bytes at byte `offset` of a file: exactly the bytes its chain holds there. */
  method ChainRead(m: Mount, first: nat, offset: nat, len: nat, ghost cs: seq<nat>) returns (out: seq<Byte>)
    requires m.Valid() && IsFile(m.Volume().fat, first, cs)
    requires cs == [] && offset >= m.g.ClusterBytes() ==> IsEoc(m.Volume().fat[first]) || m.Volume().fat[first] < 2
    ensures out == Window(Content(m.Volume(), cs), offset, len)
  {
    hide Content, ViewOf, Window, Mount.Valid, Reading, IsChain;
    out := [];
    ghost var v := m.Volume();
    FileInVolume(v, first, cs);
    if len == 0 {
      WindowEmpty(Content(v, cs), offset);
      return;
    }
    var size := m.g.ClusterBytes();
    var index: nat, pos: nat := Locate(offset, size);
    ReadingStart(v, cs, size, offset, index, pos);
    var end, cluster := Walk(m, first, index, cs);
    if end {
      WindowPast(Content(v, cs), offset, len);
      return;
    }
    ghost var n: nat := index;
    while |out| < len
      invariant |out| <= len && v == m.Volume()
      invariant cs == [] ==> out == [] && cluster == first && pos < size
      invariant cs != [] ==> n < |cs| && cluster == cs[n] && Reading(v, cs, size, offset, out, n, pos)
      decreases len - |out|, size - pos
    {
      if pos >= size {
        pos := pos - size;
        ChainSuccessor(v.fat, cs, n);
        cluster := ReadFat(m, cluster);
        if IsEoc(cluster) || cluster < 2 {
          ReadingDone(v, cs, size, offset, out, n, size, len);
          return;
        }
        ReadAdvance(v, cs, size, offset, out, n);
        n := n + 1;
      }
      if IsEoc(cluster) || cluster < 2 {
        break;
      }
      var ok, x := ReadChunk(m, cluster, pos, len - |out|);
      if !ok {
        break;
      }
      ReadStep(v, cs, size, offset, out, n, pos, x);
      out := out + x;
      pos := pos + |x|;
    }
    if cs == [] {
      WindowPast(Content(v, cs), offset, len);
    } else {
      ReadingDone(v, cs, size, offset, out, n, pos, len);
    }
  }

  // ---- freeing ----

  lemma {:induction false} ClearedNone(fat: seq<nat>, cs: seq<nat>)
    ensures Cleared(fat, cs[..0]) == fat
  {
  }

  lemma {:induction false} ClearedStep(fat: seq<nat>, cs: seq<nat>, i: nat)
    requires i < |cs| && cs[i] < |fat| && Distinct(cs)
    ensures Cleared(fat, cs[..i])[cs[i]] == fat[cs[i]]
    ensures Cleared(fat, cs[..i + 1]) == Cleared(fat, cs[..i])[cs[i] := 0]
  {
  }

  /** The disk after the entries of `cs` are set to zero one by one. */
  function WithCleared(g: Geometry, d: seq<Sector>, cs: seq<nat>): (r: seq<Sector>)
    ensures |r| == |d|
  {
    if cs == [] then d else WithEntry(g, WithCleared(g, d, cs[..|cs| - 1]), cs[|cs| - 1], 0)
  }

  lemma {:induction false} WithClearedStep(g: Geometry, d: seq<Sector>, cs: seq<nat>, i: nat)
    requires i < |cs|
    ensures WithCleared(g, d, cs[..i + 1]) == WithEntry(g, WithCleared(g, d, cs[..i]), cs[i], 0)
  {
    assert cs[..i + 1][..i] == cs[..i];
  }

  /** The freeing loop of a file removal: zeroes the entries of the file's chain and no others.
      `last` is the end mark the loop stopped at, or `first` when there is no chain. */
  method FreeChain(m: Mount, first: nat, ghost cs: seq<nat>) returns (ok: bool, last: nat)
    requires m.Valid() && IsFile(m.Volume().fat, first, cs)
    modifies m
    ensures ok && m.Valid() && m.disk == WithCleared(m.g, old(m.disk), cs)
    ensures m.Volume() == old(m.Volume()).(fat := Cleared(old(m.Volume()).fat, cs))
    ensures last == if cs == [] then first else old(m.Volume()).fat[cs[|cs| - 1]]
  {
    hide ViewOf, ValidGeometry, Mirrored, WithEntry, Cleared;
    last := first;
    ghost var i := 0;
    ghost var v := m.Volume();
    ClearedNone(v.fat, cs);
    while last >= 2 && !IsEoc(last)
      invariant 0 <= i <= |cs| && m.Valid() && m.disk == WithCleared(m.g, old(m.disk), cs[..i])
      invariant m.Volume() == v.(fat := Cleared(v.fat, cs[..i]))
      invariant last == if i < |cs| then cs[i] else if cs == [] then first else v.fat[cs[|cs| - 1]]
      decreases |cs| - i
    {
      ChainSuccessor(v.fat, cs, i);
      ChainAcyclic(v.fat, cs);
      var next := ReadFat(m, last);
      ClearedStep(v.fat, cs, i);
      WithClearedStep(m.g, old(m.disk), cs, i);
      ok := WriteFat(m, last, 0);
      if !ok {
        return;
      }
      last := next;
      i := i + 1;
    }
    assert cs[..i] == cs;
    ok := true;
  }
}
