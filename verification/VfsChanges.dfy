/** Adding and removing nodes keeps the tree. */
module VfsChanges {
  import opened VfsPaths
  import opened VfsTree

  // ---- adding ----

  /** A new node `t` put at the head of the children of `p`. */
  function Added(nodes: Nodes, p: Ref, name: string, isDir: bool, t: Ref): Nodes
    requires p in nodes
  {
    nodes[t := VNode(name, isDir, p, NULL, nodes[p].children)][p := nodes[p].(children := t)]
  }

  function AddedKids(kids: Kids, p: Ref, t: Ref): Kids
    requires p in kids
  {
    kids[t := []][p := [t] + kids[p]]
  }

  lemma {:induction false} NotThere(nodes: Nodes, q: seq<Ref>, c: string, i: nat)
    requires i < |q| && q[i] in nodes && Lookup(nodes, q, c) == NULL && NULL !in nodes
    ensures nodes[q[i]].name != c
  {
    if i > 0 {
      NotThere(nodes, q[1..], c, i - 1);
    }
  }

  lemma {:induction false} AddedSibling(nodes: Nodes, q: seq<Ref>, p: Ref, name: string, isDir: bool, t: Ref, i: nat)
    requires Siblings(nodes, p, q) && NodeName(name) && Lookup(nodes, q, name) == NULL
    requires t !in nodes && p !in q && NULL !in nodes && i < |q|
    ensures var nodes' := Added(nodes, p, name, isDir, t);
            Linked(nodes', p, [t] + q, i + 1) && NameOf(nodes', q[i]) == NameOf(nodes, q[i]) != name
  {
    assert Linked(nodes, p, q, i) && q[i] in q && ([t] + q)[i + 1] == q[i];
    NotThere(nodes, q, name, i);
    hide NodeName, Lookup, NamesDiffer;
  }

  lemma {:induction false} NewNameDiffers(nodes: Nodes, nodes': Nodes, q: seq<Ref>, t: Ref)
    requires NamesDiffer(nodes, q)
    requires forall i :: 0 <= i < |q| ==> NameOf(nodes', q[i]) == NameOf(nodes, q[i]) != NameOf(nodes', t)
    ensures NamesDiffer(nodes', [t] + q)
  {
    hide NameOf;
  }

  lemma {:induction false} AddedSiblings(nodes: Nodes, q: seq<Ref>, p: Ref, name: string, isDir: bool, t: Ref)
    requires Siblings(nodes, p, q) && nodes[p].isDir && NodeName(name) && Lookup(nodes, q, name) == NULL
    requires t !in nodes && p !in q && NULL !in nodes
    ensures Siblings(Added(nodes, p, name, isDir, t), p, [t] + q)
  {
    var nodes', q' := Added(nodes, p, name, isDir, t), [t] + q;
    assert Linked(nodes', p, q', 0) && NameOf(nodes', t) == name;
    hide NodeName, Lookup, Linked, NameOf, NamesDiffer;
    forall i | 0 <= i < |q|
      ensures Linked(nodes', p, q', i + 1) && NameOf(nodes', q[i]) == NameOf(nodes, q[i]) != name
    {
      AddedSibling(nodes, q, p, name, isDir, t, i);
    }
    forall i | 0 <= i < |q'| ensures Linked(nodes', p, q', i) {
      assert i > 0 ==> Linked(nodes', p, q', (i - 1) + 1);
    }
    NewNameDiffers(nodes, nodes', q, t);
  }

  /** Node `m` has kept its name, its kind and its place. */
  ghost predicate Same(nodes: Nodes, nodes': Nodes, m: Ref) {
    m in nodes && m in nodes' && nodes'[m].name == nodes[m].name && nodes'[m].isDir == nodes[m].isDir &&
    nodes'[m].parent == nodes[m].parent && nodes'[m].next == nodes[m].next
  }

  /** A child list whose members are untouched stays as it is. */
  lemma {:induction false} SiblingsKept(nodes: Nodes, nodes': Nodes, p: Ref, q: seq<Ref>)
    requires Siblings(nodes, p, q) && p in nodes' && nodes'[p].children == nodes[p].children
    requires nodes'[p].isDir == nodes[p].isDir
    requires forall i :: 0 <= i < |q| ==> Same(nodes, nodes', q[i])
    ensures Siblings(nodes', p, q)
  {
    forall i | 0 <= i < |q| ensures Linked(nodes', p, q, i) && NameOf(nodes', q[i]) == NameOf(nodes, q[i]) {
      assert Linked(nodes, p, q, i) && Same(nodes, nodes', q[i]);
    }
    hide Linked, NameOf;
  }

  /** No node is its own child. */
  lemma {:induction false} NotOwnChild(nodes: Nodes, root: Ref, kids: Kids, depth: Depths, p: Ref, m: Ref)
    requires TreeFit(nodes, root, kids, depth) && p in nodes && m in kids[p]
    ensures m in nodes && m != root && nodes[m].parent == p && m != p && Hangs(nodes, kids, depth, m)
  {
    var i :| 0 <= i < |kids[p]| && kids[p][i] == m;
    assert Siblings(nodes, p, kids[p]) && Linked(nodes, p, kids[p], i);
    assert Hangs(nodes, kids, depth, m);
  }

  lemma {:induction false} AddedAllSiblings(nodes: Nodes, kids: Kids, p: Ref, name: string, isDir: bool, t: Ref)
    requires AllSiblings(nodes, kids) && p in nodes && p !in kids[p] && nodes[p].isDir && NodeName(name)
    requires Lookup(nodes, kids[p], name) == NULL && t !in nodes && t != NULL && NULL !in nodes
    ensures AllSiblings(Added(nodes, p, name, isDir, t), AddedKids(kids, p, t))
  {
    var nodes', kids' := Added(nodes, p, name, isDir, t), AddedKids(kids, p, t);
    forall m | m in nodes' ensures m in kids' && Siblings(nodes', m, kids'[m]) {
      if m == p {
        assert Siblings(nodes, p, kids[p]);
        AddedSiblings(nodes, kids[p], p, name, isDir, t);
      } else if m != t {
        assert Siblings(nodes, m, kids[m]);
        hide NodeName, Lookup, NamesDiffer;
        forall i | 0 <= i < |kids[m]| ensures Same(nodes, nodes', kids[m][i]) {
          assert Linked(nodes, m, kids[m], i);
        }
        SiblingsKept(nodes, nodes', m, kids[m]);
      }
    }
  }

  lemma {:induction false} AddedMember(kids: Kids, p: Ref, t: Ref, q: Ref, m: Ref)
    requires p in kids && q in kids && m in kids[q] && q != t
    ensures q in AddedKids(kids, p, t) && m in AddedKids(kids, p, t)[q]
  {
  }

  lemma {:induction false} AddedAllHang(nodes: Nodes, root: Ref, kids: Kids, depth: Depths, p: Ref, name: string,
                                        isDir: bool, t: Ref)
    requires AllHang(nodes, root, kids, depth) && p in nodes && t !in nodes && t != root && p in kids && p in depth
    ensures AllHang(Added(nodes, p, name, isDir, t), root, AddedKids(kids, p, t), depth[t := depth[p] + 1])
  {
    var nodes', kids', depth' := Added(nodes, p, name, isDir, t), AddedKids(kids, p, t), depth[t := depth[p] + 1];
    forall m | m in nodes' && m != root ensures Hangs(nodes', kids', depth', m) {
      if m != t {
        assert Hangs(nodes, kids, depth, m);
        AddedMember(kids, p, t, nodes[m].parent, m);
        hide AddedKids;
      }
    }
  }

  lemma {:induction false} AddedFits(nodes: Nodes, root: Ref, kids: Kids, depth: Depths, p: Ref, name: string,
                                     isDir: bool, t: Ref)
    requires TreeFit(nodes, root, kids, depth) && p in nodes && nodes[p].isDir && NodeName(name)
    requires Lookup(nodes, kids[p], name) == NULL && t !in nodes && t != NULL
    ensures TreeFit(Added(nodes, p, name, isDir, t), root, AddedKids(kids, p, t), depth[t := depth[p] + 1])
  {
    hide AllSiblings, AllHang, Lookup, NodeName, Hangs;
    if p in kids[p] {
      NotOwnChild(nodes, root, kids, depth, p, p);
    }
    AddedAllSiblings(nodes, kids, p, name, isDir, t);
    AddedAllHang(nodes, root, kids, depth, p, name, isDir, t);
  }

  lemma {:induction false} LookupSame(nodes: Nodes, nodes': Nodes, q: seq<Ref>, c: string)
    requires forall i :: 0 <= i < |q| ==> q[i] in nodes && q[i] in nodes' && NameOf(nodes', q[i]) == NameOf(nodes, q[i])
    ensures Lookup(nodes', q, c) == Lookup(nodes, q, c)
  {
    if q != [] {
      LookupSame(nodes, nodes', q[1..], c);
    }
  }

  /** What resolved before a node was added resolves to the same node after. */
  lemma {:induction false} AddedStep(nodes: Nodes, kids: Kids, p: Ref, name: string, isDir: bool, t: Ref, n: Ref,
                                     c: string)
    requires AllSiblings(nodes, kids) && p in nodes && p !in kids[p] && t !in nodes && NULL !in nodes
    requires Lookup(nodes, kids[p], name) == NULL && Step(nodes, kids, n, c) != NULL
    ensures Step(Added(nodes, p, name, isDir, t), AddedKids(kids, p, t), n, c) == Step(nodes, kids, n, c)
  {
    var nodes', kids' := Added(nodes, p, name, isDir, t), AddedKids(kids, p, t);
    if !Special(c) {
      LookupIn(nodes, kids[n], c);
      assert Siblings(nodes, n, kids[n]);
      forall i | 0 <= i < |kids[n]|
        ensures kids[n][i] in nodes && NameOf(nodes', kids[n][i]) == NameOf(nodes, kids[n][i])
      {
        assert Linked(nodes, n, kids[n], i);
      }
      LookupSame(nodes, nodes', kids[n], c);
      if n == p {
        assert ([t] + kids[p])[1..] == kids[p];
      }
    }
  }

  lemma {:induction false} WalkNowhere(nodes: Nodes, kids: Kids, cs: seq<string>)
    requires NULL !in nodes
    ensures Walk(nodes, kids, NULL, cs) == NULL
    decreases |cs|
  {
    if cs != [] {
      WalkNowhere(nodes, kids, cs[1..]);
    }
  }

  lemma {:induction false} AddedWalk(nodes: Nodes, kids: Kids, p: Ref, name: string, isDir: bool, t: Ref, n: Ref,
                                     cs: seq<string>)
    requires AllSiblings(nodes, kids) && p in nodes && p !in kids[p] && t !in nodes && NULL !in nodes
    requires Lookup(nodes, kids[p], name) == NULL && Walk(nodes, kids, n, cs) != NULL
    ensures Walk(Added(nodes, p, name, isDir, t), AddedKids(kids, p, t), n, cs) == Walk(nodes, kids, n, cs)
    decreases |cs|
  {
    if cs != [] {
      var m := Step(nodes, kids, n, cs[0]);
      WalkNowhere(nodes, kids, cs[1..]);
      hide Step, AllSiblings, Lookup;
      AddedStep(nodes, kids, p, name, isDir, t, n, cs[0]);
      AddedWalk(nodes, kids, p, name, isDir, t, m, cs[1..]);
    }
  }

  /** Node `m` has kept its name, its kind and its parent. */
  ghost predicate Moored(nodes: Nodes, nodes': Nodes, m: Ref) {
    m in nodes && m in nodes' && nodes'[m].name == nodes[m].name && nodes'[m].isDir == nodes[m].isDir &&
    nodes'[m].parent == nodes[m].parent
  }

  /** Names of nodes do not depend on what else is in the tree. */
  lemma {:induction false} NamesKept(nodes: Nodes, root: Ref, kids: Kids, depth: Depths, nodes': Nodes, kids': Kids,
                                     depth': Depths, m: Ref)
    requires TreeFit(nodes, root, kids, depth) && TreeFit(nodes', root, kids', depth') && m in nodes && m in nodes'
    requires forall n :: n in nodes && n in nodes' ==> Moored(nodes, nodes', n)
    ensures NamesOf(nodes', root, kids', depth', m) == NamesOf(nodes, root, kids, depth, m)
    decreases if m in depth then depth[m] else 0
  {
    RootNames(nodes, root, kids, depth);
    RootNames(nodes', root, kids', depth');
    hide TreeFit, NamesOf;
    if m != root {
      assert Moored(nodes, nodes', m);
      NamesStep(nodes, root, kids, depth, m);
      NamesStep(nodes', root, kids', depth', m);
      NamesKept(nodes, root, kids, depth, nodes', kids', depth', nodes[m].parent);
    }
  }

  // ---- removing ----

  /** The file `n` taken out of the children of `p`, where `prev` stands before it, or NULL if it is first. */
  function Removed(nodes: Nodes, p: Ref, prev: Ref, n: Ref): Nodes
    requires p in nodes && n in nodes && (prev == NULL || prev in nodes)
  {
    (if prev == NULL then nodes[p := nodes[p].(children := nodes[n].next)]
     else nodes[prev := nodes[prev].(next := nodes[n].next)]) - {n}
  }

  function Without(q: seq<Ref>, i: nat): seq<Ref>
    requires i < |q|
  {
    q[..i] + q[i + 1..]
  }

  lemma {:induction false} SiblingsDistinct(nodes: Nodes, q: seq<Ref>, i: nat, j: nat)
    requires NamesDiffer(nodes, q) && i < |q| && j < |q| && i != j
    ensures q[i] != q[j]
  {
  }

  /** Removing the child at `i` leaves the one at `k` linked, in its new place. */
  lemma {:induction false} RemovedLink(nodes: Nodes, p: Ref, q: seq<Ref>, i: nat, k: nat, j: nat, nodes': Nodes)
    requires i < |q| && k < |q| && k != i && j == (if k < i then k else k - 1)
    requires Linked(nodes, p, q, i) && Linked(nodes, p, q, k) && NamesDiffer(nodes, q) && p !in q && NULL !in nodes
    requires i > 0 ==> q[i - 1] in nodes
    requires p in nodes && nodes' == Removed(nodes, p, if i > 0 then q[i - 1] else NULL, q[i])
    ensures Linked(nodes', p, Without(q, i), j) && NameOf(nodes', q[k]) == NameOf(nodes, q[k])
    ensures Without(q, i)[j] == q[k]
  {
  }

  lemma {:induction false} RemovedHead(nodes: Nodes, p: Ref, q: seq<Ref>, i: nat, nodes': Nodes)
    requires i < |q| && p in nodes && nodes[p].children == Head(q) && (!nodes[p].isDir ==> q == []) && p !in q
    requires Linked(nodes, p, q, i) && (i > 0 ==> q[i - 1] in nodes)
    requires nodes' == Removed(nodes, p, if i > 0 then q[i - 1] else NULL, q[i]) && NULL !in nodes
    ensures p in nodes' && nodes'[p].children == Head(Without(q, i)) && nodes'[p].isDir
  {
  }

  lemma {:induction false} RemovedSiblings(nodes: Nodes, p: Ref, q: seq<Ref>, i: nat, nodes': Nodes)
    requires Siblings(nodes, p, q) && i < |q| && p !in q && NULL !in nodes
    requires q[i] in nodes && (i > 0 ==> q[i - 1] in nodes)
    requires nodes' == Removed(nodes, p, if i > 0 then q[i - 1] else NULL, q[i])
    ensures Siblings(nodes', p, Without(q, i))
  {
    var r := Without(q, i);
    assert Linked(nodes, p, q, i) && q[i] in q;
    RemovedHead(nodes, p, q, i, nodes');
    forall j | 0 <= j < |r| ensures Linked(nodes', p, r, j) && NameOf(nodes', r[j]) == NameOf(nodes, r[j]) {
      var k := if j < i then j else j + 1;
      assert Linked(nodes, p, q, k);
      RemovedLink(nodes, p, q, i, k, j, nodes');
    }
    hide Linked, Removed, NameOf;
    forall j, k | 0 <= j < k < |r| ensures NameOf(nodes', r[j]) != NameOf(nodes', r[k]) {
      assert NameOf(nodes, q[if j < i then j else j + 1]) != NameOf(nodes, q[if k < i then k else k + 1]);
    }
  }

  function RemovedKids(kids: Kids, p: Ref, i: nat): Kids
    requires p in kids && i < |kids[p]|
  {
    kids[p := Without(kids[p], i)] - {kids[p][i]}
  }

  lemma {:induction false} RemovedAllSiblings(nodes: Nodes, kids: Kids, p: Ref, i: nat, nodes': Nodes)
    requires AllSiblings(nodes, kids) && p in nodes && p !in kids[p] && NULL !in nodes && i < |kids[p]|
    requires kids[p][i] in nodes && (i > 0 ==> kids[p][i - 1] in nodes)
    requires nodes' == Removed(nodes, p, if i > 0 then kids[p][i - 1] else NULL, kids[p][i])
    ensures AllSiblings(nodes', RemovedKids(kids, p, i))
  {
    var kids', n := RemovedKids(kids, p, i), kids[p][i];
    assert Siblings(nodes, p, kids[p]) && Linked(nodes, p, kids[p], i) && n in kids[p];
    if i > 0 {
      assert Linked(nodes, p, kids[p], i - 1) && kids[p][i - 1] in kids[p];
    }
    forall m | m in nodes' ensures m in kids' && Siblings(nodes', m, kids'[m]) {
      if m == p {
        RemovedSiblings(nodes, p, kids[p], i, nodes');
      } else {
        assert Siblings(nodes, m, kids[m]);
        hide NamesDiffer, NodeName;
        forall j | 0 <= j < |kids[m]| ensures Same(nodes, nodes', kids[m][j]) {
          assert Linked(nodes, m, kids[m], j);
        }
        SiblingsKept(nodes, nodes', m, kids[m]);
      }
    }
  }

  lemma {:induction false} RemovedMember(kids: Kids, p: Ref, i: nat, q: Ref, m: Ref)
    requires p in kids && i < |kids[p]| && q in kids && m in kids[q] && m != kids[p][i]
    requires kids[p][i] in kids && kids[kids[p][i]] == [] && p != kids[p][i]
    ensures q in RemovedKids(kids, p, i) && m in RemovedKids(kids, p, i)[q]
  {
  }

  lemma {:induction false} RemovedAllHang(nodes: Nodes, root: Ref, kids: Kids, depth: Depths, p: Ref, i: nat,
                                          nodes': Nodes)
    requires AllHang(nodes, root, kids, depth) && p in nodes && p in kids && i < |kids[p]| && p != kids[p][i]
    requires kids[p][i] in nodes && kids[p][i] in kids && kids[kids[p][i]] == [] && (i > 0 ==> kids[p][i - 1] in nodes)
    requires nodes' == Removed(nodes, p, if i > 0 then kids[p][i - 1] else NULL, kids[p][i])
    ensures AllHang(nodes', root, RemovedKids(kids, p, i), depth - {kids[p][i]})
  {
    var kids', n := RemovedKids(kids, p, i), kids[p][i];
    forall m | m in nodes' && m != root ensures Hangs(nodes', kids', depth - {n}, m) {
      assert Hangs(nodes, kids, depth, m);
      RemovedMember(kids, p, i, nodes[m].parent, m);
      hide RemovedKids;
    }
  }

  lemma {:induction false} NoChildren(nodes: Nodes, root: Ref, kids: Kids, depth: Depths, n: Ref)
    requires TreeFit(nodes, root, kids, depth) && n in nodes && !nodes[n].isDir
    ensures n in kids && kids[n] == []
  {
    assert Siblings(nodes, n, kids[n]);
  }

  lemma {:induction false} RemovedFits(nodes: Nodes, root: Ref, kids: Kids, depth: Depths, p: Ref, i: nat,
                                       nodes': Nodes)
    requires TreeFit(nodes, root, kids, depth) && p in nodes && i < |kids[p]| && kids[p][i] in nodes
    requires !nodes[kids[p][i]].isDir && (i > 0 ==> kids[p][i - 1] in nodes)
    requires nodes' == Removed(nodes, p, if i > 0 then kids[p][i - 1] else NULL, kids[p][i])
    ensures TreeFit(nodes', root, RemovedKids(kids, p, i), depth - {kids[p][i]})
  {
    hide AllSiblings, AllHang, NodeName, Hangs, Siblings;
    var n := kids[p][i];
    NoChildren(nodes, root, kids, depth, n);
    NotOwnChild(nodes, root, kids, depth, p, n);
    if p in kids[p] {
      NotOwnChild(nodes, root, kids, depth, p, p);
    }
    RemovedAllSiblings(nodes, kids, p, i, nodes');
    RemovedAllHang(nodes, root, kids, depth, p, i, nodes');
  }

  lemma {:induction false} FileIsNoParent(nodes: Nodes, root: Ref, kids: Kids, depth: Depths, n: Ref, m: Ref)
    requires TreeFit(nodes, root, kids, depth) && n in nodes && !nodes[n].isDir && m in nodes && m != root
    ensures nodes[m].parent != n
  {
    NoChildren(nodes, root, kids, depth, n);
    assert Hangs(nodes, kids, depth, m);
  }

  lemma {:induction false} RemovedLookup(nodes: Nodes, nodes': Nodes, q: seq<Ref>, i: nat, c: string)
    requires i < |q| && NamesDiffer(nodes, q) && (forall j :: 0 <= j < |q| ==> q[j] in nodes) && NULL !in nodes
    requires forall j :: 0 <= j < |q| && j != i ==> q[j] in nodes' && NameOf(nodes', q[j]) == NameOf(nodes, q[j])
    ensures Lookup(nodes', Without(q, i), c) == if Lookup(nodes, q, c) == q[i] then NULL else Lookup(nodes, q, c)
  {
    var r, n := Without(q, i), Lookup(nodes, q, c);
    forall j | 0 <= j < |r| ensures r[j] in nodes' && nodes'[r[j]].name == nodes[q[if j < i then j else j + 1]].name {
      assert NameOf(nodes', q[if j < i then j else j + 1]) == NameOf(nodes, q[if j < i then j else j + 1]);
    }
    if n == NULL {
      forall j | 0 <= j < |q| ensures nodes[q[j]].name != c {
        NotThere(nodes, q, c, j);
      }
      LookupFirst(nodes', r, c, |r|);
    } else {
      LookupIn(nodes, q, c);
      var k :| 0 <= k < |q| && q[k] == n;
      forall j | 0 <= j < |q| && j != k ensures nodes[q[j]].name != c && q[j] != q[k] {
        SiblingsDistinct(nodes, q, j, k);
        assert NameOf(nodes, q[if j < k then j else k]) != NameOf(nodes, q[if j < k then k else j]);
      }
      LookupFirst(nodes', r, c, if k == i then |r| else if k < i then k else k - 1);
    }
  }

  lemma {:induction false} ElsewhereLookup(nodes: Nodes, kids: Kids, p: Ref, i: nat, nodes': Nodes, m: Ref, c: string)
    requires AllSiblings(nodes, kids) && p in nodes && m in nodes && m != p && i < |kids[p]| && kids[p][i] in nodes
    requires (i > 0 ==> kids[p][i - 1] in nodes) && NULL !in nodes
    requires nodes' == Removed(nodes, p, if i > 0 then kids[p][i - 1] else NULL, kids[p][i])
    ensures Lookup(nodes', kids[m], c) == Lookup(nodes, kids[m], c) != kids[p][i]
  {
    assert Siblings(nodes, p, kids[p]) && Linked(nodes, p, kids[p], i) && Siblings(nodes, m, kids[m]);
    hide NodeName, NamesDiffer;
    forall j | 0 <= j < |kids[m]|
      ensures kids[m][j] in nodes && kids[m][j] in nodes' && NameOf(nodes', kids[m][j]) == NameOf(nodes, kids[m][j]) &&
              kids[m][j] != kids[p][i]
    {
      assert Linked(nodes, m, kids[m], j);
    }
    LookupSame(nodes, nodes', kids[m], c);
    if Lookup(nodes, kids[m], c) != NULL {
      LookupIn(nodes, kids[m], c);
    }
  }

  lemma {:induction false} RemovedNames(nodes: Nodes, p: Ref, q: seq<Ref>, i: nat, nodes': Nodes)
    requires Siblings(nodes, p, q) && i < |q| && q[i] in nodes && (i > 0 ==> q[i - 1] in nodes) && NULL !in nodes
    requires nodes' == Removed(nodes, p, if i > 0 then q[i - 1] else NULL, q[i])
    ensures NamesDiffer(nodes, q) && (forall j :: 0 <= j < |q| ==> q[j] in nodes)
    ensures forall j :: 0 <= j < |q| && j != i ==> q[j] in nodes' && NameOf(nodes', q[j]) == NameOf(nodes, q[j])
  {
    forall j | 0 <= j < |q|
      ensures q[j] in nodes && (j != i ==> q[j] in nodes' && NameOf(nodes', q[j]) == NameOf(nodes, q[j]))
    {
      assert Linked(nodes, p, q, j);
      if j != i {
        SiblingsDistinct(nodes, q, j, i);
      }
    }
  }

  /** After a removal a step leads where it led, unless that was the node removed. */
  lemma {:induction false} RemovedStep(nodes: Nodes, root: Ref, kids: Kids, depth: Depths, p: Ref, i: nat,
                                       nodes': Nodes, m: Ref, c: string)
    requires TreeFit(nodes, root, kids, depth) && p in nodes && i < |kids[p]| && kids[p][i] in nodes
    requires !nodes[kids[p][i]].isDir
    requires (i > 0 ==> kids[p][i - 1] in nodes) && m != kids[p][i]
    requires nodes' == Removed(nodes, p, if i > 0 then kids[p][i - 1] else NULL, kids[p][i])
    ensures Step(nodes', RemovedKids(kids, p, i), m, c) ==
            if Step(nodes, kids, m, c) == kids[p][i] then NULL else Step(nodes, kids, m, c)
  {
    var n := kids[p][i];
    NotOwnChild(nodes, root, kids, depth, p, n);
    if m in nodes {
      if Special(c) {
        if m != root {
          FileIsNoParent(nodes, root, kids, depth, n, m);
        }
        hide AllSiblings, AllHang, Lookup, Without;
      } else if nodes[m].isDir {
        hide AllHang, NodeName;
        if m == p {
          assert Siblings(nodes, p, kids[p]);
          RemovedNames(nodes, p, kids[p], i, nodes');
          hide AllSiblings;
          RemovedLookup(nodes, nodes', kids[p], i, c);
        } else {
          ElsewhereLookup(nodes, kids, p, i, nodes', m, c);
        }
        hide Lookup, Without;
      }
    }
  }

  lemma {:induction false} TreeHasNoNull(nodes: Nodes, root: Ref, kids: Kids, depth: Depths, n: Ref)
    requires TreeFit(nodes, root, kids, depth) && n in nodes
    ensures n != NULL && NULL !in nodes
  {
  }

  /** After a removal a path leads where it led or nowhere, and never to the node removed. */
  lemma {:induction false} RemovedWalk(nodes: Nodes, root: Ref, kids: Kids, depth: Depths, p: Ref, i: nat,
                                       nodes': Nodes, m: Ref, cs: seq<string>)
    requires TreeFit(nodes, root, kids, depth) && p in nodes && i < |kids[p]| && kids[p][i] in nodes
    requires !nodes[kids[p][i]].isDir
    requires (i > 0 ==> kids[p][i - 1] in nodes) && m != kids[p][i]
    requires nodes' == Removed(nodes, p, if i > 0 then kids[p][i - 1] else NULL, kids[p][i])
    ensures var r := Walk(nodes', RemovedKids(kids, p, i), m, cs);
            r != kids[p][i] && (r != NULL ==> r == Walk(nodes, kids, m, cs))
    decreases |cs|
  {
    if cs != [] {
      TreeHasNoNull(nodes, root, kids, depth, kids[p][i]);
      RemovedStep(nodes, root, kids, depth, p, i, nodes', m, cs[0]);
      assert NULL !in nodes';
      WalkNowhere(nodes', RemovedKids(kids, p, i), cs[1..]);
      hide Step, TreeFit, Removed, RemovedKids;
      var next := if Step(nodes, kids, m, cs[0]) == kids[p][i] then NULL else Step(nodes, kids, m, cs[0]);
      RemovedWalk(nodes, root, kids, depth, p, i, nodes', next, cs[1..]);
    }
  }
}
