/** The node tree: walking it by names, and what adding and removing nodes keeps. */
module VfsTree {
  import opened VfsPaths

  /** A reference to a node, or NULL. */
  type Ref = nat

  const NULL: Ref := 0

  datatype VNode = VNode(name: string, isDir: bool, parent: Ref, children: Ref, next: Ref)

  type Nodes = map<Ref, VNode>

  /** The children of every node, in list order. */
  type Kids = map<Ref, seq<Ref>>

  type Depths = map<Ref, nat>

  function Head(q: seq<Ref>): Ref { if q == [] then NULL else q[0] }

  function After(q: seq<Ref>, i: nat): Ref { if i + 1 < |q| then q[i + 1] else NULL }

  predicate Special(c: string) { c == "." || c == ".." }

  /** A name as nodes can have it; it may be empty. */
  predicate NodeName(c: string) { |c| <= NAME_MAX && '/' !in c && !Special(c) }

  /** Node `q[i]` is a child of `p`, linked to the next one. */
  ghost predicate Linked(nodes: Nodes, p: Ref, q: seq<Ref>, i: nat) {
    i < |q| && q[i] in nodes && nodes[q[i]].parent == p && nodes[q[i]].next == After(q, i) && NodeName(nodes[q[i]].name)
  }

  function NameOf(nodes: Nodes, n: Ref): string { if n in nodes then nodes[n].name else "" }

  ghost predicate NamesDiffer(nodes: Nodes, q: seq<Ref>) {
    forall i, j :: 0 <= i < j < |q| ==> NameOf(nodes, q[i]) != NameOf(nodes, q[j])
  }

  /** The child list of `p` is `q`; siblings have different names. */
  ghost predicate Siblings(nodes: Nodes, p: Ref, q: seq<Ref>) {
    p in nodes && nodes[p].children == Head(q) && (!nodes[p].isDir ==> q == []) &&
    (forall i :: 0 <= i < |q| ==> Linked(nodes, p, q, i)) && NamesDiffer(nodes, q)
  }

  /** A node other than the root is among its parent's children, one level down. */
  ghost predicate Hangs(nodes: Nodes, kids: Kids, depth: Depths, n: Ref) {
    n in nodes && nodes[n].parent in nodes && nodes[n].parent in kids && n in kids[nodes[n].parent] &&
    n in depth && nodes[n].parent in depth && depth[n] == depth[nodes[n].parent] + 1
  }

  ghost predicate AllSiblings(nodes: Nodes, kids: Kids) {
    nodes.Keys <= kids.Keys &&
    forall p {:trigger Siblings(nodes, p, kids[p])} :: p in nodes && p in kids ==> Siblings(nodes, p, kids[p])
  }

  ghost predicate AllHang(nodes: Nodes, root: Ref, kids: Kids, depth: Depths) {
    forall n {:trigger Hangs(nodes, kids, depth, n)} :: n in nodes && n != root ==> Hangs(nodes, kids, depth, n)
  }

  ghost predicate TreeFit(nodes: Nodes, root: Ref, kids: Kids, depth: Depths) {
    NULL !in nodes && root in nodes && nodes[root].isDir && nodes[root].parent == NULL &&
    root in depth && depth[root] == 0 && kids.Keys == nodes.Keys && depth.Keys == nodes.Keys &&
    AllSiblings(nodes, kids) && AllHang(nodes, root, kids, depth)
  }

  // ---- walking ----

  /** The node of this name in the list, or NULL. */
  function Lookup(nodes: Nodes, q: seq<Ref>, c: string): Ref {
    if q == [] then NULL
    else if q[0] in nodes && nodes[q[0]].name == c then q[0]
    else Lookup(nodes, q[1..], c)
  }

  function Step(nodes: Nodes, kids: Kids, n: Ref, c: string): Ref {
    if n !in nodes || n !in kids then NULL
    else if c == "." then n
    else if c == ".." then (if nodes[n].parent != NULL then nodes[n].parent else n)
    else if !nodes[n].isDir then NULL
    else Lookup(nodes, kids[n], c)
  }

  /** The node reached from `n` by the components, or NULL. */
  function Walk(nodes: Nodes, kids: Kids, n: Ref, cs: seq<string>): Ref
    decreases |cs|
  {
    if cs == [] then n else Walk(nodes, kids, Step(nodes, kids, n, cs[0]), cs[1..])
  }

  lemma {:induction false} WalkAppend(nodes: Nodes, kids: Kids, n: Ref, a: seq<string>, b: seq<string>)
    ensures Walk(nodes, kids, n, a + b) == Walk(nodes, kids, Walk(nodes, kids, n, a), b)
    decreases |a|
  {
    if a == [] {
      assert a + b == b;
    } else {
      assert (a + b)[1..] == a[1..] + b;
      WalkAppend(nodes, kids, Step(nodes, kids, n, a[0]), a[1..], b);
    }
  }

  lemma {:induction false} WalkOne(nodes: Nodes, kids: Kids, n: Ref, a: seq<string>, c: string)
    ensures Walk(nodes, kids, n, a + [c]) == Step(nodes, kids, Walk(nodes, kids, n, a), c)
  {
    WalkAppend(nodes, kids, n, a, [c]);
    assert [c][1..] == [];
  }

  lemma {:induction false} LookupFirst(nodes: Nodes, q: seq<Ref>, c: string, i: nat)
    requires i <= |q| && (forall j :: 0 <= j < |q| ==> q[j] in nodes)
    requires forall j :: 0 <= j < i && q[j] in nodes ==> nodes[q[j]].name != c
    requires i < |q| && q[i] in nodes ==> nodes[q[i]].name == c
    ensures Lookup(nodes, q, c) == if i < |q| then q[i] else NULL
  {
    if i > 0 {
      LookupFirst(nodes, q[1..], c, i - 1);
    }
  }

  lemma {:induction false} LookupFinds(nodes: Nodes, p: Ref, q: seq<Ref>, i: nat)
    requires Siblings(nodes, p, q) && i < |q|
    ensures q[i] in nodes && Lookup(nodes, q, nodes[q[i]].name) == q[i]
  {
    forall j | 0 <= j < |q| ensures q[j] in nodes {
      assert Linked(nodes, p, q, j);
    }
    forall j | 0 <= j < i ensures nodes[q[j]].name != nodes[q[i]].name {
      assert NameOf(nodes, q[j]) != NameOf(nodes, q[i]);
    }
    LookupFirst(nodes, q, nodes[q[i]].name, i);
  }

  lemma {:induction false} LookupIn(nodes: Nodes, q: seq<Ref>, c: string)
    requires Lookup(nodes, q, c) != NULL
    ensures var n := Lookup(nodes, q, c); n in q && n in nodes && nodes[n].name == c
  {
    if !(q[0] in nodes && nodes[q[0]].name == c) {
      LookupIn(nodes, q[1..], c);
    }
  }

  /** A directory, or a node with a name. */
  predicate Nameable(nodes: Nodes, n: Ref) { n in nodes && (nodes[n].isDir || nodes[n].name != "") }

  lemma {:induction false} StepNameable(nodes: Nodes, root: Ref, kids: Kids, depth: Depths, n: Ref, c: string)
    requires TreeFit(nodes, root, kids, depth) && Nameable(nodes, n) && c != ""
    ensures Step(nodes, kids, n, c) != NULL ==> Nameable(nodes, Step(nodes, kids, n, c))
  {
    if c == ".." {
      if n != root {
        assert Hangs(nodes, kids, depth, n);
        assert Siblings(nodes, nodes[n].parent, kids[nodes[n].parent]);
      }
    } else if c != "." && Step(nodes, kids, n, c) != NULL {
      LookupIn(nodes, kids[n], c);
    }
  }

  lemma {:induction false} StepNowhere(nodes: Nodes, root: Ref, kids: Kids, depth: Depths, c: string)
    requires TreeFit(nodes, root, kids, depth)
    ensures Step(nodes, kids, NULL, c) == NULL
  {
  }

  /** A file that a walk leads to has a name. */
  lemma {:induction false} WalkNameable(nodes: Nodes, root: Ref, kids: Kids, depth: Depths, n: Ref, cs: seq<string>)
    requires TreeFit(nodes, root, kids, depth) && (n == NULL || Nameable(nodes, n)) && "" !in cs
    ensures var m := Walk(nodes, kids, n, cs); m != NULL ==> Nameable(nodes, m)
    decreases |cs|
  {
    hide TreeFit, Step;
    if cs != [] {
      assert cs[0] in cs && forall c :: c in cs[1..] ==> c in cs;
      if n != NULL {
        StepNameable(nodes, root, kids, depth, n, cs[0]);
      } else {
        StepNowhere(nodes, root, kids, depth, cs[0]);
      }
      WalkNameable(nodes, root, kids, depth, Step(nodes, kids, n, cs[0]), cs[1..]);
    }
  }

  // ---- paths of nodes ----

  /** The names from the root down to `n`. */
  ghost function NamesOf(nodes: Nodes, root: Ref, kids: Kids, depth: Depths, n: Ref): (r: seq<string>)
    requires TreeFit(nodes, root, kids, depth) && n in nodes
    ensures |r| == depth[n]
    decreases depth[n]
  {
    if n == root then []
    else assert Hangs(nodes, kids, depth, n); NamesOf(nodes, root, kids, depth, nodes[n].parent) + [nodes[n].name]
  }

  lemma {:induction false} ChildStep(nodes: Nodes, root: Ref, kids: Kids, depth: Depths, n: Ref)
    requires TreeFit(nodes, root, kids, depth) && n in nodes && n != root
    ensures Step(nodes, kids, nodes[n].parent, nodes[n].name) == n && NodeName(nodes[n].name)
  {
    assert Hangs(nodes, kids, depth, n);
    var p := nodes[n].parent;
    var i :| 0 <= i < |kids[p]| && kids[p][i] == n;
    assert Siblings(nodes, p, kids[p]) && Linked(nodes, p, kids[p], i);
    LookupFinds(nodes, p, kids[p], i);
  }

  /** Walking a node's names from the root leads to it. */
  lemma {:induction false} WalkNames(nodes: Nodes, root: Ref, kids: Kids, depth: Depths, n: Ref)
    requires TreeFit(nodes, root, kids, depth) && n in nodes
    ensures Walk(nodes, kids, root, NamesOf(nodes, root, kids, depth, n)) == n
    decreases depth[n]
  {
    if n != root {
      assert Hangs(nodes, kids, depth, n);
      var p := nodes[n].parent;
      WalkNames(nodes, root, kids, depth, p);
      WalkOne(nodes, kids, root, NamesOf(nodes, root, kids, depth, p), nodes[n].name);
      ChildStep(nodes, root, kids, depth, n);
    }
  }

  /** The path printed for a node. */
  ghost function FullPath(nodes: Nodes, root: Ref, kids: Kids, depth: Depths, n: Ref): string
    requires TreeFit(nodes, root, kids, depth) && n in nodes
  {
    if n == root then "/" else Joined(NamesOf(nodes, root, kids, depth, n))
  }

  ghost predicate AllNames(names: seq<string>) {
    forall i :: 0 <= i < |names| ==> NodeName(names[i])
  }

  lemma {:induction false} NamesStep(nodes: Nodes, root: Ref, kids: Kids, depth: Depths, n: Ref)
    requires TreeFit(nodes, root, kids, depth) && n in nodes && n != root
    ensures var p := nodes[n].parent;
            p in nodes && n in depth && p in depth && depth[n] == depth[p] + 1 && NodeName(nodes[n].name) &&
            NamesOf(nodes, root, kids, depth, n) == NamesOf(nodes, root, kids, depth, p) + [nodes[n].name]
  {
    assert Hangs(nodes, kids, depth, n);
    ChildStep(nodes, root, kids, depth, n);
  }

  lemma {:induction false} NamesGood(nodes: Nodes, root: Ref, kids: Kids, depth: Depths, n: Ref)
    requires TreeFit(nodes, root, kids, depth) && n in nodes
    ensures AllNames(NamesOf(nodes, root, kids, depth, n))
    decreases if n in depth then depth[n] else 0
  {
    if n != root {
      hide TreeFit, NamesOf, NodeName;
      NamesStep(nodes, root, kids, depth, n);
      NamesGood(nodes, root, kids, depth, nodes[n].parent);
    }
  }

  lemma {:induction false} RootFacts(nodes: Nodes, root: Ref, kids: Kids, depth: Depths)
    requires TreeFit(nodes, root, kids, depth)
    ensures root in nodes && root in depth && depth[root] == 0
  {
  }

  lemma {:induction false} WalkNothing(nodes: Nodes, kids: Kids, n: Ref)
    ensures Walk(nodes, kids, n, []) == n
  {
  }

  lemma {:induction false} StepDown(nodes: Nodes, root: Ref, kids: Kids, depth: Depths, n: Ref, c: string)
    requires TreeFit(nodes, root, kids, depth) && !Special(c)
    ensures var m := Step(nodes, kids, n, c);
            m != NULL ==>
              n != NULL && n in nodes && m in nodes && m in depth && n in depth && depth[m] == depth[n] + 1 &&
                          nodes[m].parent == n && nodes[m].name == c
  {
    var m := Step(nodes, kids, n, c);
    if m != NULL {
      LookupIn(nodes, kids[n], c);
      var i :| 0 <= i < |kids[n]| && kids[n][i] == m;
      assert Siblings(nodes, n, kids[n]) && Linked(nodes, n, kids[n], i);
      assert m == root || Hangs(nodes, kids, depth, m);
    }
  }

  /** Walking down by names goes one level a name. */
  lemma {:induction false} WalkDepth(nodes: Nodes, root: Ref, kids: Kids, depth: Depths, cs: seq<string>)
    requires TreeFit(nodes, root, kids, depth)
    requires forall i :: 0 <= i < |cs| ==> !Special(cs[i])
    ensures var m := Walk(nodes, kids, root, cs); m != NULL ==> m in nodes && m in depth && depth[m] == |cs|
  {
    hide Step, Special, Walk, TreeFit;
    if cs == [] {
      RootFacts(nodes, root, kids, depth);
      WalkNothing(nodes, kids, root);
    } else {
      var pre, c := cs[..|cs| - 1], cs[|cs| - 1];
      assert cs == pre + [c];
      WalkDepth(nodes, root, kids, depth, pre);
      WalkOne(nodes, kids, root, pre, c);
      StepDown(nodes, root, kids, depth, Walk(nodes, kids, root, pre), c);
    }
  }

  lemma {:induction false} NamedGood(names: seq<string>)
    requires forall i :: 0 <= i < |names| ==> !Special(names[i])
    ensures forall i :: 0 <= i < |Named(names)| ==> !Special(Named(names)[i])
  {
    hide Special;
    if names != [] {
      NamedGood(names[..|names| - 1]);
    }
  }

  lemma {:induction false} RootNames(nodes: Nodes, root: Ref, kids: Kids, depth: Depths)
    requires TreeFit(nodes, root, kids, depth)
    ensures root in nodes && NamesOf(nodes, root, kids, depth, root) == []
  {
  }

  lemma {:induction false} NameFacts(names: seq<string>)
    requires AllNames(names)
    ensures forall i :: 0 <= i < |names| ==> |names[i]| <= NAME_MAX && '/' !in names[i]
    ensures forall i :: 0 <= i < |names| ==> !Special(names[i])
  {
  }

  lemma {:induction false} NamedIff(names: seq<string>)
    ensures |Named(names)| == |names| <==> forall c :: c in names ==> c != ""
  {
    if forall c :: c in names ==> c != "" {
      assert forall i :: 0 <= i < |names| ==> names[i] in names;
      NamedAll(names);
    }
  }

  lemma {:induction false} PathWalk(nodes: Nodes, root: Ref, kids: Kids, depth: Depths, n: Ref, names: seq<string>)
    requires TreeFit(nodes, root, kids, depth) && n in nodes && names == NamesOf(nodes, root, kids, depth, n)
    requires AllNames(names)
    ensures Walk(nodes, kids, root, Components(Joined(names))) == n <==> forall c :: c in names ==> c != ""
  {
    assert |names| == depth[n] && n != NULL;
    hide Components, Joined, Walk, AllNames, Named, Special, TreeFit;
    NameFacts(names);
    JoinedComponents(names);
    NamedGood(names);
    WalkNames(nodes, root, kids, depth, n);
    WalkDepth(nodes, root, kids, depth, Named(names));
    NamedIff(names);
    hide NamesOf;
  }

  lemma {:induction false} RootPath()
    ensures Components("/") == []
  {
  }

  /** Resolving the path printed for a node gives the node exactly if no name on it is empty. */
  lemma {:induction false} RoundTripIff(nodes: Nodes, root: Ref, kids: Kids, depth: Depths, n: Ref)
    requires TreeFit(nodes, root, kids, depth) && n in nodes
    ensures Walk(nodes, kids, root, Components(FullPath(nodes, root, kids, depth, n))) == n <==>
            forall c :: c in NamesOf(nodes, root, kids, depth, n) ==> c != ""
  {
    hide Components, Joined, Walk, AllNames, Named, TreeFit;
    var names := NamesOf(nodes, root, kids, depth, n);
    RootNames(nodes, root, kids, depth);
    hide NamesOf;
    if n == root {
      RootPath();
      WalkNothing(nodes, kids, root);
    } else {
      NamesGood(nodes, root, kids, depth, n);
      PathWalk(nodes, root, kids, depth, n, names);
    }
  }
}
