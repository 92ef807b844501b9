/** Cluster chains in the allocation table, as pure facts about the table. */
module FatChains {
  import opened FatLayout

  ghost predicate Distinct(cs: seq<nat>) {
    forall i, j :: 0 <= i < j < |cs| ==> cs[i] != cs[j]
  }

  ghost predicate Disjoint(a: seq<nat>, b: seq<nat>) {
    forall i :: 0 <= i < |a| ==> a[i] !in b
  }

  /** The table's entries stay below the end marks, so no cluster number is one. */
  ghost predicate IsTable(fat: seq<nat>) { |fat| <= 0x0FFF_FFF7 }

  /** `cs` are the clusters met from `cs[0]` on, up to and including the one marked as last. */
  ghost predicate IsChain(fat: seq<nat>, cs: seq<nat>) {
    && |cs| > 0
    && (forall i :: 0 <= i < |cs| ==> 2 <= cs[i] < |fat|)
    && (forall i :: 1 <= i < |cs| ==> fat[cs[i - 1]] == cs[i])
    && IsEoc(fat[cs[|cs| - 1]])
  }

  /** The chain that a directory entry's first-cluster field names; below 2 there is none. */
  ghost predicate IsFile(fat: seq<nat>, first: nat, cs: seq<nat>) {
    if first < 2 then cs == [] else IsChain(fat, cs) && cs[0] == first
  }

  /** A volume's files: every one a chain, no cluster in two of them. */
  ghost predicate WellFormed(fat: seq<nat>, files: seq<seq<nat>>) {
    && (forall i :: 0 <= i < |files| ==> IsChain(fat, files[i]))
    && (forall i, j :: 0 <= i < |files| && 0 <= j < |files| && i != j ==> Disjoint(files[i], files[j]))
  }

  /** Two clusters of a chain that ends are different: their distances to the end differ. */
  lemma {:induction false} ChainAcyclicAt(fat: seq<nat>, cs: seq<nat>, i: nat, j: nat)
    requires IsTable(fat) && IsChain(fat, cs) && i < j < |cs|
    ensures cs[i] != cs[j]
    decreases |cs| - j
  {
    assert fat[cs[i]] == cs[i + 1];
    if j + 1 < |cs| {
      assert fat[cs[j]] == cs[j + 1];
      ChainAcyclicAt(fat, cs, i + 1, j + 1);
    }
  }

  lemma {:induction false} ChainAcyclic(fat: seq<nat>, cs: seq<nat>)
    requires IsTable(fat) && IsChain(fat, cs)
    ensures Distinct(cs)
  {
    forall i, j | 0 <= i < j < |cs| ensures cs[i] != cs[j] {
      ChainAcyclicAt(fat, cs, i, j);
    }
  }

  lemma {:induction false} ChainTail(fat: seq<nat>, cs: seq<nat>)
    requires IsChain(fat, cs) && |cs| > 1
    ensures IsChain(fat, cs[1..])
  {
  }

  /** A file's first cluster determines its chain. */
  lemma {:induction false} ChainUnique(fat: seq<nat>, a: seq<nat>, b: seq<nat>)
    requires IsTable(fat) && IsChain(fat, a) && IsChain(fat, b) && a[0] == b[0]
    ensures a == b
  {
    assert |a| > 1 ==> fat[a[0]] == a[1];
    assert |b| > 1 ==> fat[b[0]] == b[1];
    if |a| > 1 && |b| > 1 {
      ChainTail(fat, a);
      ChainTail(fat, b);
      ChainUnique(fat, a[1..], b[1..]);
    }
    assert a == [a[0]] + a[1..] && b == [b[0]] + b[1..];
  }

  /** The driver's end test is met at the last cluster of a chain and nowhere else on it. */
  lemma {:induction false} ChainSuccessor(fat: seq<nat>, cs: seq<nat>, i: nat)
    requires IsTable(fat) && IsChain(fat, cs) && i < |cs|
    ensures (IsEoc(fat[cs[i]]) || fat[cs[i]] < 2) <==> i + 1 == |cs|
    ensures i + 1 < |cs| ==> fat[cs[i]] == cs[i + 1]
  {
    assert i + 1 < |cs| ==> fat[cs[i]] == cs[i + 1];
  }

  /** Entries outside a chain do not matter to it. */
  lemma {:induction false} ChainFrame(fat: seq<nat>, fat': seq<nat>, cs: seq<nat>)
    requires IsChain(fat, cs) && |fat'| == |fat|
    requires forall i :: 0 <= i < |cs| ==> fat'[cs[i]] == fat[cs[i]]
    ensures IsChain(fat', cs)
  {
  }

  /** A free cluster lies on no chain. */
  lemma {:induction false} FreeNotInChain(fat: seq<nat>, cs: seq<nat>, c: nat)
    requires IsChain(fat, cs) && c < |fat| && fat[c] == 0
    ensures c !in cs
  {
    forall i | 0 <= i < |cs| ensures cs[i] != c {
      if i + 1 < |cs| {
        assert fat[cs[i]] == cs[i + 1];
      }
    }
  }

  /** Marking a free cluster as last and pointing a chain's last cluster at it extends the chain. */
  lemma {:induction false} LinkExtends(fat: seq<nat>, cs: seq<nat>, c: nat, fat': seq<nat>)
    requires IsTable(fat) && IsChain(fat, cs) && 2 <= c < |fat| && fat[c] == 0
    requires fat' == fat[c := END_OF_CHAIN][cs[|cs| - 1] := c]
    ensures IsChain(fat', cs + [c])
  {
  }
}
