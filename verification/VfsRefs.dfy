/** Reference counts: each node's count is the number of descriptors that name it. */
module VfsRefs {
  import opened VfsTree

  /** Descriptors and the nodes they name. */
  type Fds = map<Ref, Ref>

  type Refs = map<Ref, nat>

  ghost function Holders(fds: Fds, n: Ref): set<Ref> { set f | f in fds && fds[f] == n }

  ghost predicate RefsFit(refs: Refs, fds: Fds) {
    (forall f :: f in fds ==> fds[f] in refs) &&
    (forall n :: n in refs ==> refs[n] == |Holders(fds, n)|)
  }

  lemma {:induction false} NamedNode(fds: Fds, f: Ref, refs: Refs)
    requires RefsFit(refs, fds) && f in fds
    ensures fds[f] in refs && refs[fds[f]] > 0
  {
    assert f in Holders(fds, fds[f]);
  }

  lemma {:induction false} HolderMore(fds: Fds, f: Ref, n: Ref, m: Ref)
    requires f !in fds
    ensures |Holders(fds[f := n], m)| == |Holders(fds, m)| + if m == n then 1 else 0
  {
    assert Holders(fds[f := n], m) == Holders(fds, m) + if m == n then {f} else {};
  }

  lemma {:induction false} HeldMore(refs: Refs, fds: Fds, f: Ref, n: Ref)
    requires RefsFit(refs, fds) && n in refs && f !in fds
    ensures RefsFit(refs[n := refs[n] + 1], fds[f := n])
  {
    var refs', fds' := refs[n := refs[n] + 1], fds[f := n];
    forall m | m in refs ensures |Holders(fds', m)| == refs[m] + if m == n then 1 else 0 {
      HolderMore(fds, f, n, m);
    }
    hide Holders;
  }

  lemma {:induction false} HeldLess(refs: Refs, fds: Fds, f: Ref)
    requires RefsFit(refs, fds) && f in fds
    ensures fds[f] in refs && refs[fds[f]] > 0 && RefsFit(refs[fds[f] := refs[fds[f]] - 1], fds - {f})
  {
    NamedNode(fds, f, refs);
    var n := fds[f];
    forall m | m in refs ensures |Holders(fds - {f}, m)| == refs[m] - if m == n then 1 else 0 {
      assert Holders(fds - {f}, m) == Holders(fds, m) - if m == n then {f} else {};
    }
  }

  lemma {:induction false} NewNode(refs: Refs, fds: Fds, n: Ref)
    requires RefsFit(refs, fds) && n !in refs
    ensures RefsFit(refs[n := 0], fds)
  {
  }

  /** A node without holders can go: no descriptor names it. */
  lemma {:induction false} GoneNode(refs: Refs, fds: Fds, n: Ref)
    requires RefsFit(refs, fds) && n in refs && refs[n] == 0
    ensures RefsFit(refs - {n}, fds) && forall f :: f in fds ==> fds[f] != n
  {
    forall f | f in fds ensures fds[f] != n {
      assert f in Holders(fds, fds[f]);
    }
  }
}
