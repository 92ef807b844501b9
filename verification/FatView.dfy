/** A FAT volume as its files see it: a successor table and the bytes of each cluster.
    What chain operations keep, stated without sectors and addresses. */
module FatView {
  import opened Bytes
  import opened FatLayout
  import opened FatChains

  /** `fat[c]` is the table entry of cluster `c`, `data[c]` its bytes, `boot` the sectors before the table. */
  datatype View = View(fat: seq<nat>, data: seq<seq<Byte>>, boot: seq<Sector>)

  /** Clusters 0 and 1 do not exist; the others hold `size` bytes each. */
  ghost predicate IsView(v: View, size: nat) {
    && IsTable(v.fat) && |v.data| == |v.fat| >= 2
    && (forall c :: 2 <= c < |v.data| ==> |v.data[c]| == size)
  }

  ghost predicate Full(v: View) {
    forall c :: 2 <= c < |v.fat| ==> v.fat[c] != 0
  }

  ghost predicate InVolume(v: View, cs: seq<nat>) {
    forall i :: 0 <= i < |cs| ==> 2 <= cs[i] < |v.data|
  }

  ghost function Pieces(v: View, cs: seq<nat>): (r: seq<seq<Byte>>)
    requires InVolume(v, cs)
  {
    seq(|cs|, i requires 0 <= i < |cs| => v.data[cs[i]])
  }

  /** The bytes stored in the clusters `cs`, in chain order. */
  ghost function Content(v: View, cs: seq<nat>): seq<Byte>
    requires InVolume(v, cs)
  {
    Concat(Pieces(v, cs))
  }

  lemma {:induction false} ContentLength(v: View, size: nat, cs: seq<nat>)
    requires IsView(v, size) && InVolume(v, cs)
    ensures |Content(v, cs)| == Mul(|cs|, size)
  {
    ConcatLength(Pieces(v, cs), size);
  }

  lemma {:induction false} ContentFrame(v: View, w: View, cs: seq<nat>)
    requires InVolume(v, cs) && |w.data| == |v.data|
    requires forall i :: 0 <= i < |cs| ==> w.data[cs[i]] == v.data[cs[i]]
    ensures Content(w, cs) == Content(v, cs)
  {
    assert Pieces(w, cs) == Pieces(v, cs);
  }

  lemma {:induction false} ContentAppend(v: View, cs: seq<nat>, c: nat)
    requires InVolume(v, cs) && 2 <= c < |v.data|
    ensures Content(v, cs + [c]) == Content(v, cs) + v.data[c]
  {
    assert Pieces(v, cs + [c]) == Pieces(v, cs) + [v.data[c]];
    ConcatAppend(Pieces(v, cs), [v.data[c]]);
    assert Concat([v.data[c]]) == v.data[c];
  }

  /** Bytes of one cluster of a chain, found in the chain's content. */
  lemma {:induction false} ContentAt(v: View, size: nat, cs: seq<nat>, n: nat, o: nat, k: nat)
    requires IsView(v, size) && InVolume(v, cs) && n < |cs| && o + k <= size
    ensures Mul(n, size) + o + k <= |Content(v, cs)|
    ensures Content(v, cs)[Mul(n, size) + o..Mul(n, size) + o + k] == v.data[cs[n]][o..o + k]
  {
    ConcatAt(Pieces(v, cs), size, n, o, k);
  }

  /** Overwriting bytes of one cluster of a chain is a splice on the chain's content. */
  lemma {:induction false} ContentPatch(v: View, size: nat, cs: seq<nat>, n: nat, o: nat, x: seq<Byte>, w: View)
    requires IsView(v, size) && InVolume(v, cs) && Distinct(cs) && n < |cs| && o + |x| <= size
    requires w.data == v.data[cs[n] := Splice(v.data[cs[n]], o, x)]
    ensures Mul(n, size) + o + |x| <= |Content(v, cs)|
    ensures Content(w, cs) == Splice(Content(v, cs), Mul(n, size) + o, x)
  {
    var ss := Pieces(v, cs);
    assert Pieces(w, cs) == ss[n := Splice(ss[n], o, x)];
    ConcatPatch(ss, size, n, o, x);
  }

  // ---- what a write may do to the volume ----

  /** Chain `cs0` of volume `v0` has grown to chain `cs` of volume `v`: the clusters gained were
      free, and every cluster off the chain keeps its table entry and its bytes. */
  ghost predicate Growth(v0: View, cs0: seq<nat>, v: View, cs: seq<nat>)
    ensures Growth(v0, cs0, v, cs) ==> cs != [] && InVolume(v, cs)
  {
    && |v.fat| == |v0.fat| == |v.data| == |v0.data| && v.boot == v0.boot
    && cs0 <= cs && IsChain(v.fat, cs)
    && (forall i :: |cs0| <= i < |cs| ==> v0.fat[cs[i]] == 0)
    && (forall c :: 0 <= c < |v.fat| && c !in cs ==> v.fat[c] == v0.fat[c])
    && (forall c :: 0 <= c < |v.fat| && c !in cs ==> v.data[c] == v0.data[c])
  }

  /** Chain `ds` of `v0` is a chain of `v` with the same bytes, and shares nothing with `cs`. */
  ghost predicate Intact(v0: View, v: View, cs: seq<nat>, ds: seq<nat>) {
    && IsChain(v.fat, ds) && Disjoint(ds, cs)
    && InVolume(v, ds) && InVolume(v0, ds) && Content(v, ds) == Content(v0, ds)
  }

  /** Every chain of `v0` outside the file `cs0` is intact after that file became `cs`. */
  ghost predicate Untouched(v0: View, cs0: seq<nat>, v: View, cs: seq<nat>) {
    forall ds :: IsChain(v0.fat, ds) && Disjoint(ds, cs0) ==> Intact(v0, v, cs, ds)
  }

  /** Every chain that shared no cluster with the growing file still is a chain, with the same bytes. */
  lemma {:induction false} OthersIntact(v0: View, cs0: seq<nat>, v: View, cs: seq<nat>, ds: seq<nat>)
    requires Growth(v0, cs0, v, cs) && IsChain(v0.fat, ds) && Disjoint(ds, cs0)
    ensures Intact(v0, v, cs, ds)
  {
    forall i | 0 <= i < |ds| ensures ds[i] !in cs {
      assert i + 1 < |ds| ==> v0.fat[ds[i]] == ds[i + 1];
    }
    ChainFrame(v0.fat, v.fat, ds);
    ContentFrame(v0, v, ds);
  }

  lemma {:induction false} AllOthersIntact(v0: View, cs0: seq<nat>, v: View, cs: seq<nat>)
    requires Growth(v0, cs0, v, cs)
    ensures IsChain(v.fat, cs) && Untouched(v0, cs0, v, cs)
  {
    forall ds | IsChain(v0.fat, ds) && Disjoint(ds, cs0) ensures Intact(v0, v, cs, ds) {
      OthersIntact(v0, cs0, v, cs, ds);
    }
  }

  lemma {:induction false} UntouchedTrans(v0: View, cs0: seq<nat>, v1: View, cs1: seq<nat>, v2: View, cs2: seq<nat>)
    requires Untouched(v0, cs0, v1, cs1) && Untouched(v1, cs1, v2, cs2)
    ensures Untouched(v0, cs0, v2, cs2)
  {
  }

  /** A new one-cluster chain `[k]` touches no other chain, in particular not `cs`. */
  lemma {:induction false} BirthUntouched(v: View, w: View, k: nat, cs: seq<nat>)
    requires Growth(v, [], w, [k]) && IsChain(v.fat, cs)
    ensures Untouched(v, cs, w, cs) && Intact(v, w, [k], cs)
  {
    OthersIntact(v, [], w, [k], cs);
    forall ds | IsChain(v.fat, ds) && Disjoint(ds, cs) ensures Intact(v, w, cs, ds) {
      OthersIntact(v, [], w, [k], ds);
    }
  }

  /** A volume of pairwise disjoint chains stays one when a file of it grows. */
  lemma {:induction false} GrowthWellFormed(v0: View, v: View, cs: seq<nat>, files: seq<seq<nat>>, k: nat)
    requires k < |files| && WellFormed(v0.fat, files) && Growth(v0, files[k], v, cs)
    ensures WellFormed(v.fat, files[k := cs])
  {
    forall i | 0 <= i < |files| && i != k
      ensures IsChain(v.fat, files[i]) && Disjoint(files[i], cs) && Disjoint(cs, files[i])
    {
      OthersIntact(v0, files[k], v, cs, files[i]);
    }
  }

  /** And when a file gets its first clusters. */
  lemma {:induction false} BirthWellFormed(v0: View, v: View, cs: seq<nat>, files: seq<seq<nat>>)
    requires WellFormed(v0.fat, files) && Growth(v0, [], v, cs)
    ensures WellFormed(v.fat, files + [cs])
  {
    forall i | 0 <= i < |files|
      ensures IsChain(v.fat, files[i]) && Disjoint(files[i], cs) && Disjoint(cs, files[i])
    {
      OthersIntact(v0, [], v, cs, files[i]);
    }
  }

  /** The volume after a free cluster was marked as last and zeroed. */
  ghost function WithFresh(v: View, c: nat, size: nat): View
    requires c < |v.fat| == |v.data|
  {
    v.(fat := v.fat[c := END_OF_CHAIN], data := v.data[c := Zeros(size)])
  }

  /** `b` is `a` followed by zeros. */
  ghost predicate Padded(a: seq<Byte>, b: seq<Byte>) {
    |a| <= |b| && b == a + Zeros(|b| - |a|)
  }

  lemma {:induction false} PaddedSelf(a: seq<Byte>)
    ensures Padded(a, a)
  {
  }

  lemma {:induction false} PaddedTrans(a: seq<Byte>, b: seq<Byte>, c: seq<Byte>)
    requires Padded(a, b) && Padded(b, c)
    ensures Padded(a, c)
  {
  }

  /** Linking a fresh cluster behind a grown chain grows it further, by zeros. */
  lemma {:induction false} LinkGrowth(v0: View, cs0: seq<nat>, v: View, cs: seq<nat>, c: nat, size: nat, w: View)
    requires Growth(v0, cs0, v, cs) && IsTable(v.fat)
    requires 2 <= c < |v.fat| && v.fat[c] == 0
    requires w == WithFresh(v, c, size).(fat := v.fat[c := END_OF_CHAIN][cs[|cs| - 1] := c])
    ensures Growth(v0, cs0, w, cs + [c])
    ensures Padded(Content(v, cs), Content(w, cs + [c]))
  {
    LinkExtends(v.fat, cs, c, w.fat);
    FreeNotInChain(v.fat, cs, c);
    forall b | 0 <= b < |v.fat| && b !in cs + [c] ensures w.fat[b] == v0.fat[b] && w.data[b] == v0.data[b] {
      assert b !in cs && b != c;
    }
    ContentFrame(v, w, cs);
    ContentAppend(w, cs, c);
  }

  /** Overwriting bytes of a grown chain's cluster keeps it a growth. */
  lemma {:induction false} PatchGrowth(v0: View, cs0: seq<nat>, v: View, cs: seq<nat>, n: nat, x: seq<Byte>)
    requires Growth(v0, cs0, v, cs) && n < |cs|
    ensures Growth(v0, cs0, v.(data := v.data[cs[n] := x]), cs)
  {
  }

  /** `c` is `c0`, padded with zeros to its length, with `b` written at `offset`. */
  ghost predicate Overlaid(c0: seq<Byte>, c: seq<Byte>, offset: nat, b: seq<Byte>) {
    && |c0| <= |c| && offset + |b| <= |c|
    && c == Splice(c0 + Zeros(|c| - |c0|), offset, b)
  }

  lemma {:induction false} OverlaidStart(c0: seq<Byte>, c: seq<Byte>, offset: nat)
    requires Padded(c0, c) && offset <= |c|
    ensures Overlaid(c0, c, offset, [])
  {
  }

  lemma {:induction false} OverlaidPad(c0: seq<Byte>, c: seq<Byte>, offset: nat, b: seq<Byte>, e: seq<Byte>)
    requires Overlaid(c0, c, offset, b) && Padded(c, e)
    ensures Overlaid(c0, e, offset, b)
  {
  }

  lemma {:induction false} OverlaidStep(c0: seq<Byte>, c: seq<Byte>, offset: nat, b: seq<Byte>, n: nat, k: nat,
                                        e: seq<Byte>)
    requires n <= k <= |b| && Overlaid(c0, c, offset, b[..n])
    requires offset + k <= |c| && e == Splice(c, offset + n, b[n..k])
    ensures Overlaid(c0, e, offset, b[..k])
  {
  }

  /** The table with the entries of `cs` set to zero. */
  ghost function Cleared(fat: seq<nat>, cs: seq<nat>): (r: seq<nat>)
    ensures |r| == |fat|
  {
    seq(|fat|, c requires 0 <= c < |fat| => if c in cs then 0 else fat[c])
  }

  /** Clearing one chain's entries touches no chain that shares nothing with it. */
  lemma {:induction false} ClearedIntact(v: View, ds: seq<nat>, cs: seq<nat>)
    requires IsChain(v.fat, cs) && Disjoint(cs, ds) && |v.fat| == |v.data|
    ensures Intact(v, v.(fat := Cleared(v.fat, ds)), ds, cs)
  {
  }

  /** Removing one file of a well-formed volume leaves the others a well-formed volume. */
  lemma {:induction false} ClearedWellFormed(v: View, files: seq<seq<nat>>, k: nat)
    requires k < |files| && WellFormed(v.fat, files)
    ensures WellFormed(Cleared(v.fat, files[k]), files[..k] + files[k + 1..])
  {
  }

  // ---- runs ----

  /** One file operation: a file is born, grows, is overwritten in place, or is removed. */
  datatype Change = Birth(cs: seq<nat>) | Grow(k: nat, cs: seq<nat>) | Remove(k: nat)

  ghost predicate Step(v: View, files: seq<seq<nat>>, c: Change, v': View, files': seq<seq<nat>>) {
    match c
    case Birth(cs) => Growth(v, [], v', cs) && files' == files + [cs]
    case Grow(k, cs) => k < |files| && Growth(v, files[k], v', cs) && files' == files[k := cs]
    case Remove(k) =>
      k < |files| && v' == v.(fat := Cleared(v.fat, files[k])) && files' == files[..k] + files[k + 1..]
  }

  /** A run of file operations, with the volume and its files after each. */
  ghost predicate IsRun(vs: seq<View>, fs: seq<seq<seq<nat>>>, cs: seq<Change>) {
    && |vs| == |fs| == |cs| + 1
    && (forall i :: 0 <= i < |cs| ==> Step(vs[i], fs[i], cs[i], vs[i + 1], fs[i + 1]))
  }

  /** Over every run, files stay acyclic chains that share no cluster. */
  lemma {:induction false} RunWellFormed(vs: seq<View>, fs: seq<seq<seq<nat>>>, cs: seq<Change>, n: nat)
    requires IsRun(vs, fs, cs) && n < |vs|
    requires WellFormed(vs[0].fat, fs[0]) && IsTable(vs[0].fat)
    ensures WellFormed(vs[n].fat, fs[n]) && IsTable(vs[n].fat)
    ensures forall i :: 0 <= i < |fs[n]| ==> Distinct(fs[n][i])
  {
    if n > 0 {
      RunWellFormed(vs, fs, cs, n - 1);
      var v, files, v' := vs[n - 1], fs[n - 1], vs[n];
      assert Step(v, files, cs[n - 1], v', fs[n - 1 + 1]);
      match cs[n - 1] {
        case Birth(c) => BirthWellFormed(v, v', c, files);
        case Grow(k, c) => GrowthWellFormed(v, v', c, files, k);
        case Remove(k) => ClearedWellFormed(v, files, k);
      }
    }
    forall i | 0 <= i < |fs[n]| ensures Distinct(fs[n][i]) {
      ChainAcyclic(vs[n].fat, fs[n][i]);
    }
  }
}
