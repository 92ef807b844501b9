/** The virtual file system: its nodes, its descriptors, and the operations on paths. */
module Vfs {
  import opened VfsPaths
  import opened VfsTree
  import opened VfsChanges
  import opened VfsSplit
  import opened VfsRefs

  datatype Status = Ok | AlreadyExists | NotFound | IsDirectory | Busy | InvalidArgument | IOError | OutOfMemory |
                    OutOfFileDescriptors | BadFileDescriptor | NotADirectory

  const PATH_MAX: nat := 255
  const MAX_DEPTH: nat := 32

  /** Skips slashes. */
  method SkipTo(path: string, pos: nat) returns (p: nat)
    requires pos <= |path|
    ensures pos <= p <= |path| && path[p..] == SkipSlashes(path[pos..])
  {
    p := pos;
    while p < |path| && path[p] == '/'
      invariant pos <= p <= |path| && SkipSlashes(path[pos..]) == SkipSlashes(path[p..])
    {
      assert path[p..][1..] == path[p + 1..];
      p := p + 1;
    }
  }

  lemma {:induction false} TakeStep(p: string, n: nat)
    requires p != "" && p[0] != '/' && n > 0
    ensures Take(p, n) == [p[0]] + Take(p[1..], n - 1)
  {
  }

  /** The characters from `pos` up to a slash, at most 127. */
  method TakeFrom(path: string, pos: nat) returns (c: string)
    requires pos < |path|
    ensures c == Take(path[pos..], NAME_MAX) && pos + |c| <= |path|
  {
    c := "";
    while pos + |c| < |path| && path[pos + |c|] != '/' && |c| < NAME_MAX
      invariant |c| <= NAME_MAX && pos + |c| <= |path|
      invariant Take(path[pos..], NAME_MAX) == c + Take(path[pos + |c|..], NAME_MAX - |c|)
    {
      TakeStep(path[pos + |c|..], NAME_MAX - |c|);
      hide Take;
      var ch, rest := path[pos + |c|], path[pos + |c| + 1..];
      assert path[pos + |c|..][1..] == rest;
      assert c + ([ch] + Take(rest, NAME_MAX - |c| - 1)) == c + [ch] + Take(rest, NAME_MAX - |c| - 1);
      c := c + [ch];
    }
    assert c + [] == c;
  }

  /** The next component from `pos` on, empty at the end, and where to go on. */
  method PathNext(path: string, pos: nat) returns (c: string, pos': nat)
    requires pos <= |path|
    ensures pos' <= |path| && Components(path[pos..]) == if c == "" then [] else [c] + Components(path[pos'..])
    ensures c != "" ==> pos < pos'
  {
    c := "";
    pos' := SkipTo(path, pos);
    if pos' == |path| {
      NoComponents(path[pos..]);
      return;
    }
    ghost var q := path[pos'..];
    c := TakeFrom(path, pos');
    hide Components, Take, SkipSlashes;
    ComponentsStep(path[pos..], q, c);
    pos' := pos' + |c|;
    assert path[pos'..] == q[|c|..];
  }

  method FindLastSlash(path: string) returns (k: int)
    ensures k == LastSlash(path)
  {
    k := -1;
    var i := 0;
    while i < |path|
      invariant i <= |path| && k == LastSlash(path[..i])
    {
      assert path[..i + 1][..i] == path[..i];
      if path[i] == '/' {
        k := i;
      }
      i := i + 1;
    }
    assert path[..i] == path;
  }

  predicate IsDir(nodes: Nodes, n: Ref) { n in nodes && nodes[n].isDir }

  function CountOf(refs: Refs, n: Ref): nat { if n in refs then refs[n] else 0 }

  /** The counts after an open of `node`, or of the new node `mem` if that is NULL. */
  function Counted(refs: Refs, node: Ref, mem: Ref, st: Status): Refs {
    if st != Ok && st != OutOfMemory then refs
    else
      var n, base := if node != NULL then node else mem, if node != NULL then refs else refs[mem := 0];
      if st == Ok then base[n := CountOf(base, n) + 1] else base
  }

  /** Where a file stands among its siblings. */
  ghost function FilePlace(nodes: Nodes, root: Ref, kids: Kids, depth: Depths, n: Ref): (i: nat)
    requires TreeFit(nodes, root, kids, depth) && n in nodes && !nodes[n].isDir
    ensures nodes[n].parent in nodes && nodes[n].parent in kids && nodes[n].parent != NULL && n != root
    ensures i < |kids[nodes[n].parent]| && kids[nodes[n].parent][i] == n
  {
    assert Hangs(nodes, kids, depth, n);
    var i :| 0 <= i < |kids[nodes[n].parent]| && kids[nodes[n].parent][i] == n;
    i
  }

  lemma {:induction false} RemovedMoored(nodes: Nodes, p: Ref, prev: Ref, n: Ref, nodes': Nodes)
    requires p in nodes && n in nodes && (prev == NULL || prev in nodes) && nodes' == Removed(nodes, p, prev, n)
    ensures nodes'.Keys == nodes.Keys - {n} && forall m :: m in nodes' ==> Moored(nodes, nodes', m)
  {
  }

  lemma {:induction false} TreeRoot(nodes: Nodes, root: Ref, kids: Kids, depth: Depths)
    requires TreeFit(nodes, root, kids, depth)
    ensures root in nodes && NULL !in nodes && nodes[root].isDir
  {
  }

  /** What removing a file means for the tree and for paths. */
  lemma {:induction false} RemovalEffect(nodes: Nodes, root: Ref, kids: Kids, depth: Depths, cwd: Ref, p: Ref, i: nat,
                                         nodes': Nodes)
    requires TreeFit(nodes, root, kids, depth) && p in nodes && p in kids && i < |kids[p]| && kids[p][i] in nodes
    requires !nodes[kids[p][i]].isDir && (i > 0 ==> kids[p][i - 1] in nodes) && cwd in nodes && nodes[cwd].isDir
    requires nodes' == Removed(nodes, p, if i > 0 then kids[p][i - 1] else NULL, kids[p][i])
    ensures TreeFit(nodes', root, RemovedKids(kids, p, i), depth - {kids[p][i]})
    ensures nodes'.Keys == nodes.Keys - {kids[p][i]} && (forall n :: n in nodes' ==> Moored(nodes, nodes', n))
    ensures forall q: string ::
              var r := Resolved(nodes', RemovedKids(kids, p, i), root, cwd, q);
              r != kids[p][i] && (r == Resolved(nodes, kids, root, cwd, q) || r == NULL)
  {
    hide TreeFit, RemovedKids, Walk, Components;
    RemovedFits(nodes, root, kids, depth, p, i, nodes');
    TreeRoot(nodes, root, kids, depth);
    var n, kids' := kids[p][i], RemovedKids(kids, p, i);
    hide Removed;
    forall q: string
      ensures var r := Resolved(nodes', kids', root, cwd, q);
              r != n && (r == Resolved(nodes, kids, root, cwd, q) || r == NULL)
    {
      RemovedWalk(nodes, root, kids, depth, p, i, nodes', Start(q, root, cwd), Components(q));
    }
    assert nodes'.Keys == nodes.Keys - {n} && (forall m :: m in nodes' ==> Moored(nodes, nodes', m)) by {
      RemovedMoored(nodes, p, if i > 0 then kids[p][i - 1] else NULL, n, nodes');
    }
  }

  ghost predicate Nameful(nodes: Nodes, root: Ref) {
    forall n :: n in nodes && n != root ==> nodes[n].name != ""
  }

  /** A removed file had a name, so as many nodes as before are nameless. */
  lemma {:induction false} RemovedNameful(nodes: Nodes, root: Ref, kids: Kids, depth: Depths, cwd: Ref, path: string,
                                          nodes': Nodes)
    requires TreeFit(nodes, root, kids, depth) && cwd in nodes && nodes[cwd].isDir
    requires var n := Resolved(nodes, kids, root, cwd, path);
             n in nodes && !nodes[n].isDir && nodes'.Keys == nodes.Keys - {n} &&
             forall m :: m in nodes' ==> Moored(nodes, nodes', m)
    ensures Nameful(nodes', root) <==> Nameful(nodes, root)
  {
    hide Walk, Components;
    var n := Resolved(nodes, kids, root, cwd, path);
    TreeRoot(nodes, root, kids, depth);
    hide TreeFit;
    ComponentsNamed(path);
    WalkNameable(nodes, root, kids, depth, Start(path, root, cwd), Components(path));
    forall m | m in nodes && m != n ensures m in nodes' && nodes'[m].name == nodes[m].name {
      assert Moored(nodes, nodes', m);
    }
  }

  /** The path of these names fits into `max` characters, with one to spare if it could end in a slash. */
  predicate Fits(parts: seq<string>, max: nat) {
    |Joined(parts)| + 1 < max || (|Joined(parts)| < max && "" !in parts)
  }

  method AppendPart(pre: string, part: string, max: nat) returns (buf: string)
    requires |pre| + 2 < max
    ensures |buf| < max && (|pre| + 1 + |part| < max ==> buf == pre + "/" + part)
  {
    buf := pre + "/";
    var j := 0;
    while j < |part| && |buf| < max - 1
      invariant j <= |part| && |buf| <= max - 1 && buf == pre + "/" + part[..j]
    {
      assert part[..j + 1] == part[..j] + [part[j]];
      buf, j := buf + [part[j]], j + 1;
    }
    assert j == |part| ==> part[..j] == part;
  }

  lemma {:induction false} JoinedGrows(parts: seq<string>, i: nat)
    requires i <= |parts|
    ensures |Joined(parts[..i])| <= |Joined(parts)|
  {
    if i == |parts| {
      assert parts[..i] == parts;
    } else {
      var pre := parts[..|parts| - 1];
      JoinedGrows(pre, i);
      assert pre[..i] == parts[..i];
    }
  }

  lemma {:induction false} JoinedStep(parts: seq<string>, i: nat)
    requires i < |parts|
    ensures Joined(parts[..i + 1]) == Joined(parts[..i]) + "/" + parts[i]
    ensures |Joined(parts[..i])| + 1 + |parts[i]| <= |Joined(parts)|
  {
    assert parts[..i + 1][..i] == parts[..i];
    JoinedGrows(parts, i + 1);
  }

  method PrintPath(parts: seq<string>, max: nat) returns (buf: string)
    requires max >= 2
    ensures |buf| < max && (Fits(parts, max) ==> buf == Joined(parts))
  {
    buf := "";
    var i := 0;
    while i < |parts| && |buf| < max - 2
      invariant i <= |parts| && |buf| <= max - 1
      invariant Fits(parts, max) ==> buf == Joined(parts[..i])
    {
      JoinedStep(parts, i);
      ghost var before := buf;
      var part := parts[i];
      buf := AppendPart(buf, part, max);
      i := i + 1;
    }
    if i < |parts| {
      JoinedStep(parts, i);
      assert parts[i] in parts;
    }
    assert parts[..|parts|] == parts;
  }

  lemma {:induction false} TreeDepth(nodes: Nodes, root: Ref, kids: Kids, depth: Depths, n: Ref)
    requires TreeFit(nodes, root, kids, depth) && n in nodes
    ensures n != NULL && n in depth && (n != root ==> depth[n] > 0)
    ensures NamesOf(nodes, root, kids, depth, n) + [] == NamesOf(nodes, root, kids, depth, n)
  {
    assert n == root || Hangs(nodes, kids, depth, n);
  }

  lemma {:induction false} NewNameful(nodes: Nodes, root: Ref, d: Ref, name: string, isDir: bool, t: Ref)
    requires d in nodes && t !in nodes && t != root
    ensures Nameful(Added(nodes, d, name, isDir, t), root) <==> Nameful(nodes, root) && name != ""
  {
    var nodes' := Added(nodes, d, name, isDir, t);
    assert t in nodes' && nodes'[t].name == name;
    assert forall n :: n in nodes ==> n in nodes' && nodes'[n].name == nodes[n].name;
  }

  lemma {:induction false} PathKept(nodes: Nodes, root: Ref, kids: Kids, depth: Depths, d: Ref, name: string,
                                    isDir: bool, t: Ref, n: Ref, cs: seq<string>)
    requires TreeFit(nodes, root, kids, depth) && d in nodes && t !in nodes && d in kids
    requires Lookup(nodes, kids[d], name) == NULL
    requires Walk(nodes, kids, n, cs) != NULL
    ensures Walk(Added(nodes, d, name, isDir, t), AddedKids(kids, d, t), n, cs) == Walk(nodes, kids, n, cs)
  {
    hide AllSiblings, AllHang, Lookup, Walk;
    if d in kids[d] {
      NotOwnChild(nodes, root, kids, depth, d, d);
    }
    AddedWalk(nodes, kids, d, name, isDir, t, n, cs);
  }

  lemma {:induction false} NewLeaf(path: string)
    requires NewName(path) != "" && |LeafOf(path)| <= NAME_MAX
    ensures |LeafOf(path)| > 0
  {
  }

  lemma {:induction false} NewStep(nodes: Nodes, kids: Kids, d: Ref, name: string, isDir: bool, t: Ref)
    requires d in nodes && d in kids && nodes[d].isDir && !Special(name) && t !in nodes && t != NULL
    ensures Step(Added(nodes, d, name, isDir, t), AddedKids(kids, d, t), d, name) == t
  {
  }

  lemma {:induction false} StepStays(nodes: Nodes, root: Ref, kids: Kids, depth: Depths, n: Ref, c: string)
    requires TreeFit(nodes, root, kids, depth) && n in nodes
    ensures n in kids && (Step(nodes, kids, n, c) != NULL ==> Step(nodes, kids, n, c) in nodes) && NULL !in nodes
    ensures nodes[n].parent != NULL ==> nodes[n].parent in nodes
  {
    assert n == root || Hangs(nodes, kids, depth, n);
    if Step(nodes, kids, n, c) != NULL && !Special(c) {
      LookupIn(nodes, kids[n], c);
    }
  }

  lemma {:induction false} NewChild(nodes: Nodes, root: Ref, kids: Kids, depth: Depths, cwd: Ref, path: string)
    requires TreeFit(nodes, root, kids, depth) && Resolved(nodes, kids, root, cwd, path) == NULL
    requires ParentOf(nodes, kids, root, cwd, path) in nodes
    ensures var d := ParentOf(nodes, kids, root, cwd, path); d in kids && d in depth && NodeName(NewName(path))
    ensures NewName(path) == "" <==> path == ""
  {
    StepStays(nodes, root, kids, depth, ParentOf(nodes, kids, root, cwd, path), ".");
    hide Resolved, ParentOf, NewName, NodeName, AllSiblings, AllHang;
    UnresolvedLeaf(nodes, kids, root, cwd, path);
  }

  lemma {:induction false} NewPath(nodes: Nodes, root: Ref, kids: Kids, depth: Depths, cwd: Ref, path: string,
                                   isDir: bool, t: Ref)
    requires TreeFit(nodes, root, kids, depth) && Resolved(nodes, kids, root, cwd, path) == NULL
    requires var d := ParentOf(nodes, kids, root, cwd, path);
             d in nodes && d in kids && nodes[d].isDir && Lookup(nodes, kids[d], NewName(path)) == NULL
    requires t !in nodes && t != NULL && path != "" && |LeafOf(path)| <= NAME_MAX
    ensures var d := ParentOf(nodes, kids, root, cwd, path);
            Resolved(Added(nodes, d, NewName(path), isDir, t), AddedKids(kids, d, t), root, cwd, path) == t
  {
    var d, name := ParentOf(nodes, kids, root, cwd, path), NewName(path);
    var nodes', kids' := Added(nodes, d, name, isDir, t), AddedKids(kids, d, t);
    NewChild(nodes, root, kids, depth, cwd, path);
    TreeRoot(nodes, root, kids, depth);
    hide TreeFit;
    assert name == LeafOf(path);
    hide Walk, Components, LastSlash, LeafOf, NewName;
    NewStep(nodes, kids, d, name, isDir, t);
    hide Lookup, Added, AddedKids, Step;
    if LastSlash(path) >= 0 {
      PreComponents(path);
      PathKept(nodes, root, kids, depth, d, name, isDir, t,
               Start(ParentPath(path), root, cwd), Components(ParentPath(path)));
    }
    NewLeaf(path);
    ResolvesToChild(nodes', kids', root, cwd, path, t);
  }

  /** What creating a node means for paths and names. */
  lemma {:induction false} CreationEffect(nodes: Nodes, root: Ref, kids: Kids, depth: Depths, cwd: Ref, path: string,
                                          isDir: bool, t: Ref)
    requires TreeFit(nodes, root, kids, depth) && Resolved(nodes, kids, root, cwd, path) == NULL
    ensures var d := ParentOf(nodes, kids, root, cwd, path);
            d in nodes && d in kids && nodes[d].isDir && Lookup(nodes, kids[d], NewName(path)) == NULL &&
            t !in nodes && t != NULL ==>
            var nodes', kids' := Added(nodes, d, NewName(path), isDir, t), AddedKids(kids, d, t);
            (forall q: string :: Resolved(nodes, kids, root, cwd, q) != NULL ==>
               Resolved(nodes', kids', root, cwd, q) == Resolved(nodes, kids, root, cwd, q)) &&
            (path != "" && |LeafOf(path)| <= NAME_MAX ==> Resolved(nodes', kids', root, cwd, path) == t) &&
            (Nameful(nodes', root) <==> Nameful(nodes, root) && path != "")
  {
    var d, name := ParentOf(nodes, kids, root, cwd, path), NewName(path);
    if d in nodes && d in kids && nodes[d].isDir && Lookup(nodes, kids[d], name) == NULL && t !in nodes && t != NULL {
      hide TreeFit, NewName, Lookup, Walk, Components;
      NewChild(nodes, root, kids, depth, cwd, path);
      TreeRoot(nodes, root, kids, depth);
      NewNameful(nodes, root, d, name, isDir, t);
      forall q: string | Resolved(nodes, kids, root, cwd, q) != NULL
        ensures Resolved(Added(nodes, d, name, isDir, t), AddedKids(kids, d, t), root, cwd, q) ==
                Resolved(nodes, kids, root, cwd, q)
      {
        PathKept(nodes, root, kids, depth, d, name, isDir, t, Start(q, root, cwd), Components(q));
      }
      if path != "" && |LeafOf(path)| <= NAME_MAX {
        NewPath(nodes, root, kids, depth, cwd, path, isDir, t);
      }
    }
  }

  lemma {:induction false} FirstSlash(path: string, p: nat)
    requires path != "" && p == if path[0] == '/' then 1 else 0
    ensures Components(path) == Components(path[p..])
  {
  }

  lemma {:induction false} WalkStep(nodes: Nodes, kids: Kids, n: Ref, cs: seq<string>, c: string, rest: seq<string>)
    requires cs == if c == "" then [] else [c] + rest
    ensures Walk(nodes, kids, n, cs) == if c == "" then n else Walk(nodes, kids, Step(nodes, kids, n, c), rest)
  {
  }

  lemma {:induction false} NotNull(nodes: Nodes, root: Ref, kids: Kids, depth: Depths, n: Ref)
    requires TreeFit(nodes, root, kids, depth) && n in nodes
    ensures n in kids && (forall i :: 0 <= i < |kids[n]| ==> kids[n][i] != NULL && kids[n][i] in nodes)
  {
    assert Siblings(nodes, n, kids[n]);
    forall i | 0 <= i < |kids[n]| ensures kids[n][i] != NULL && kids[n][i] in nodes {
      assert Linked(nodes, n, kids[n], i);
    }
  }

  class Files {
    var nodes: Nodes
    var root: Ref
    var cwd: Ref
    var refs: Refs
    var fds: Fds
    ghost var kids: Kids
    ghost var depth: Depths

    ghost predicate Valid()
      reads this
    {
      TreeFit(nodes, root, kids, depth) && (cwd == NULL || (cwd in nodes && nodes[cwd].isDir)) &&
      RefsFit(refs, fds) && nodes.Keys <= refs.Keys && NULL !in refs && NULL !in fds
    }

    function Cwd(): Ref
      reads this
    {
      if cwd == NULL then root else cwd
    }

    /** The node a path leads to, or NULL. */
    ghost function At(path: string): Ref
      reads this
    {
      Resolved(nodes, kids, root, Cwd(), path)
    }

    /** Only the root may be nameless. */
    ghost predicate AllNamed()
      reads this
    {
      Nameful(nodes, root)
    }

    /** The path's parent is a directory without a child of the new node's name. */
    ghost predicate Creatable(path: string)
      reads this
    {
      var d := ParentOf(nodes, kids, root, Cwd(), path);
      d in nodes && d in kids && nodes[d].isDir && Lookup(nodes, kids[d], NewName(path)) == NULL
    }

    /** A node `t` has been put into the tree at the path. */
    ghost predicate Created(path: string, isDir: bool, t: Ref, nodes0: Nodes, kids0: Kids, depth0: Depths)
      reads this
    {
      var d := ParentOf(nodes0, kids0, root, Cwd(), path);
      d in nodes0 && d in kids0 && d in depth0 && nodes == Added(nodes0, d, NewName(path), isDir, t) &&
      kids == AddedKids(kids0, d, t) && depth == depth0[t := depth0[d] + 1]
    }

    constructor (root: Ref)
      requires root != NULL
      ensures Valid() && nodes == map[root := VNode("/", true, NULL, NULL, NULL)] && fds == map[]
      ensures refs == map[root := 0]
      ensures this.root == root && cwd == NULL && kids == map[root := []] && depth == map[root := 0]
    {
      this.root, cwd := root, NULL;
      nodes := map[root := VNode("/", true, NULL, NULL, NULL)];
      refs, fds := map[root := 0], map[];
      kids, depth := map[root := []], map[root := 0];
    }

    method LookupChild(n: Ref, c: string) returns (child: Ref)
      requires Valid() && n in nodes
      ensures child == Lookup(nodes, kids[n], c)
    {
      child := nodes[n].children;
      ghost var i: nat := 0;
      ghost var q := kids[n];
      assert Siblings(nodes, n, q);
      NotNull(nodes, root, kids, depth, n);
      hide TreeFit, RefsFit, NodeName, NamesDiffer;
      while child != NULL
        invariant i <= |q| && child == (if i < |q| then q[i] else NULL)
        invariant forall j :: 0 <= j < i ==> q[j] in nodes && nodes[q[j]].name != c
        decreases |q| - i
      {
        assert Linked(nodes, n, q, i);
        if nodes[child].name == c {
          LookupFirst(nodes, q, c, i);
          return;
        }
        child, i := nodes[child].next, i + 1;
      }
      LookupFirst(nodes, q, c, i);
    }

    method ResolveInternal(path: string) returns (node: Ref)
      requires Valid()
      ensures node == At(path) && (node != NULL ==> node in nodes)
    {
      hide TreeFit, RefsFit, Components, Walk, SkipSlashes;
      if path == "" {
        return NULL;
      }
      TreeRoot(nodes, root, kids, depth);
      node := if path[0] == '/' then root else Cwd();
      var p: nat := if path[0] == '/' then 1 else 0;
      assert Components(path) == Components(path[p..]) by { FirstSlash(path, p); }
      while true
        invariant p <= |path| && node in nodes && At(path) == Walk(nodes, kids, node, Components(path[p..]))
        decreases |path| - p
      {
        ghost var rest := Components(path[p..]);
        var c;
        c, p := PathNext(path, p);
        WalkStep(nodes, kids, node, rest, c, Components(path[p..]));
        StepStays(nodes, root, kids, depth, node, c);
        WalkNowhere(nodes, kids, Components(path[p..]));
        if c == "" {
          return;
        } else if c == "." {
          continue;
        } else if c == ".." {
          if nodes[node].parent != NULL {
            node := nodes[node].parent;
          }
          continue;
        }
        if !nodes[node].isDir {
          return NULL;
        }
        var child := LookupChild(node, c);
        if child == NULL {
          return NULL;
        }
        node := child;
      }
    }

    /** The directory a path's leaf belongs in, or NULL, and the leaf as a name. */
    method ResolveParent(path: string) returns (parent: Ref, leaf: string)
      requires Valid() && |path| <= PATH_MAX
      ensures parent == ParentOf(nodes, kids, root, Cwd(), path) && leaf == NewName(path)
      ensures parent != NULL ==> parent in nodes
    {
      hide TreeFit, RefsFit;
      TreeRoot(nodes, root, kids, depth);
      var lastSlash := FindLastSlash(path);
      hide LastSlash, Walk, Components;
      var rest := path[lastSlash + 1..];
      leaf := if |rest| <= NAME_MAX then rest else rest[..NAME_MAX];
      if lastSlash < 0 {
        return Cwd(), leaf;
      }
      parent := ResolveInternal(if lastSlash == 0 then "/" else path[..lastSlash]);
    }

    /** Creates a node at a path that leads nowhere; `mem` is the memory for it, NULL if there is none. */
    method CreateInternal(path: string, isDir: bool, mem: Ref) returns (node: Ref)
      requires Valid() && |path| <= PATH_MAX && At(path) == NULL && (mem == NULL || mem !in refs)
      modifies `nodes, `refs, `kids, `depth
      ensures Valid()
      ensures node == NULL <==> !old(Creatable(path)) || mem == NULL
      ensures node == NULL ==> nodes == old(nodes) && refs == old(refs) && kids == old(kids) && depth == old(depth)
      ensures node != NULL ==> node == mem && refs == old(refs)[mem := 0]
      ensures node != NULL ==> Created(path, isDir, mem, old(nodes), old(kids), old(depth))
    {
      hide TreeFit, RefsFit, Resolved, NewName, ParentOf, Lookup, NodeName;
      var parent, leaf := ResolveParent(path);
      TreeRoot(nodes, root, kids, depth);
      if parent == NULL || !nodes[parent].isDir {
        return NULL;
      }
      var child := LookupChild(parent, leaf);
      NewChild(nodes, root, kids, depth, Cwd(), path);
      if child != NULL {
        return NULL;
      }
      if mem == NULL {
        return NULL;
      }
      node := mem;
      AddedFits(nodes, root, kids, depth, parent, leaf, isDir, node);
      NewNode(refs, fds, node);
      nodes := nodes[node := VNode(leaf, isDir, parent, NULL, nodes[parent].children)];
      nodes := nodes[parent := nodes[parent].(children := node)];
      refs := refs[node := 0];
      kids := AddedKids(kids, parent, node);
      depth := depth[node := depth[parent] + 1];
      assert nodes.Keys == old(nodes.Keys) + {node};
    }

    /** Makes a directory. The empty path makes a nameless one in the current directory, once. */
    method Mkdir(path: string, mem: Ref) returns (st: Status)
      requires Valid() && |path| <= PATH_MAX && (mem == NULL || mem !in refs)
      modifies `nodes, `refs, `kids, `depth
      ensures Valid()
      ensures st == AlreadyExists <==> old(At(path)) != NULL
      ensures st == Ok <==> old(At(path)) == NULL && old(Creatable(path)) && mem != NULL
      ensures st == Ok || st == AlreadyExists || st == NotFound
      ensures st != Ok ==> nodes == old(nodes) && refs == old(refs)
      ensures st == Ok ==> Created(path, true, mem, old(nodes), old(kids), old(depth)) && refs == old(refs)[mem := 0]
      ensures st == Ok && path != "" && |LeafOf(path)| <= NAME_MAX ==> At(path) == mem
      ensures forall q: string :: old(At(q)) != NULL ==> At(q) == old(At(q))
      ensures AllNamed() <==> old(AllNamed()) && !(st == Ok && path == "")
    {
      hide TreeFit, RefsFit, Resolved, NewName, ParentOf, Lookup, Added, AddedKids;
      var found := ResolveInternal(path);
      if found != NULL {
        return AlreadyExists;
      }
      CreationEffect(nodes, root, kids, depth, Cwd(), path, true, mem);
      var node := CreateInternal(path, true, mem);
      if node == NULL {
        return NotFound;
      }
      return Ok;
    }

    ghost function Depth(n: Ref): nat
      reads this
    {
      if n in depth then depth[n] else 0
    }

    ghost function Names(n: Ref): seq<string>
      requires Valid() && n in nodes
      reads this
    {
      NamesOf(nodes, root, kids, depth, n)
    }

    /** The full path of a node. */
    ghost function PathTo(n: Ref): string
      requires Valid() && n in nodes
      reads this
    {
      FullPath(nodes, root, kids, depth, n)
    }

    /** The names from a node up to the root, at most 32 of them, in downward order. */
    method CollectNames(node: Ref) returns (parts: seq<string>)
      requires Valid() && node in nodes
      ensures Depth(node) <= MAX_DEPTH ==> parts == Names(node)
    {
      hide TreeFit, RefsFit, NamesOf;
      parts := [];
      var n := node;
      TreeDepth(nodes, root, kids, depth, n);
      while n != NULL && n != root && |parts| < MAX_DEPTH
        invariant n in nodes && Depth(n) + |parts| == Depth(node) && Names(n) + parts == Names(node)
        decreases MAX_DEPTH - |parts|
      {
        NamesStep(nodes, root, kids, depth, n);
        var part := nodes[n].name;
        assert Names(nodes[n].parent) + [part] + parts == Names(nodes[n].parent) + ([part] + parts);
        parts := [part] + parts;
        n := nodes[n].parent;
      }
      TreeDepth(nodes, root, kids, depth, n);
      if n == root {
        RootNames(nodes, root, kids, depth);
        assert [] + parts == parts;
      }
    }

    /** Prints a node's path into `max` characters, terminator included. */
    method BuildPath(node: Ref, max: nat) returns (buf: string)
      requires Valid() && (node == NULL || node in nodes) && max >= 2
      ensures |buf| < max
      ensures node == NULL ==> buf == "/"
      ensures node != NULL && Depth(node) <= MAX_DEPTH && Fits(Names(node), max) ==> buf == PathTo(node)
    {
      hide TreeFit, RefsFit, NamesOf, Fits, Joined;
      if node == NULL || node == root {
        return "/";
      }
      var parts := CollectNames(node);
      buf := PrintPath(parts, max);
    }

    /** The child before `node` in its parent's list, or NULL if it is the first. */
    method FindPrev(parent: Ref, node: Ref, ghost i: nat) returns (prev: Ref)
      requires Valid() && parent in nodes && parent in kids && i < |kids[parent]| && kids[parent][i] == node
      ensures prev == if i > 0 then kids[parent][i - 1] else NULL
      ensures i > 0 ==> prev in nodes && prev != NULL
    {
      ghost var q := kids[parent];
      assert Siblings(nodes, parent, q);
      NotNull(nodes, root, kids, depth, parent);
      hide TreeFit, RefsFit, NodeName;
      if nodes[parent].children == node {
        if i > 0 {
          SiblingsDistinct(nodes, q, 0, i);
        }
        return NULL;
      }
      prev := nodes[parent].children;
      ghost var j: nat := 0;
      while nodes[prev].next != node
        invariant j < i && prev == q[j] && prev in nodes
        decreases i - j
      {
        assert Linked(nodes, parent, q, j);
        prev, j := nodes[prev].next, j + 1;
      }
      assert Linked(nodes, parent, q, j);
      if j + 1 != i {
        SiblingsDistinct(nodes, q, j + 1, i);
      }
    }

    /** Takes a node out of its parent's list, in which it follows `prev`, or is first if that is NULL. */
    method Detach(parent: Ref, prev: Ref, node: Ref)
      requires parent in nodes && node in nodes && (prev == NULL || prev in nodes)
      modifies `nodes
      ensures nodes == Removed(old(nodes), parent, prev, node)
    {
      if prev == NULL {
        nodes := nodes[parent := nodes[parent].(children := nodes[node].next)];
      } else {
        nodes := nodes[prev := nodes[prev].(next := nodes[node].next)];
      }
      nodes := nodes - {node};
    }

    /** Removes a file that no descriptor names. */
    method Unlink(path: string) returns (st: Status)
      requires Valid()
      modifies `nodes, `refs, `kids, `depth
      ensures Valid()
      ensures st == (if old(At(path)) == NULL then NotFound
                     else if IsDir(old(nodes), old(At(path))) then IsDirectory
                     else if CountOf(old(refs), old(At(path))) > 0 then Busy
                     else Ok)
      ensures st != Ok ==> nodes == old(nodes) && refs == old(refs)
      ensures st == Ok ==> nodes.Keys == old(nodes.Keys) - {old(At(path))} && refs == old(refs) - {old(At(path))} &&
                           forall f :: f in fds ==> fds[f] != old(At(path))
      ensures forall n :: n in nodes ==> Moored(old(nodes), nodes, n)
      ensures st == Ok ==> At(path) == NULL
      ensures forall q: string :: At(q) == old(At(q)) || At(q) == NULL
      ensures AllNamed() <==> old(AllNamed())
    {
      hide TreeFit, RefsFit, Resolved, Removed, RemovedKids, Nameful;
      var node := ResolveInternal(path);
      if node == NULL {
        return NotFound;
      }
      if nodes[node].isDir {
        return IsDirectory;
      }
      if refs[node] > 0 {
        return Busy;
      }
      TreeRoot(nodes, root, kids, depth);
      var parent := nodes[node].parent;
      ghost var i := FilePlace(nodes, root, kids, depth, node);
      if parent == NULL {
        return InvalidArgument;
      }
      var prev := FindPrev(parent, node, i);
      RemovalEffect(nodes, root, kids, depth, Cwd(), parent, i, Removed(nodes, parent, prev, node));
      RemovedNameful(nodes, root, kids, depth, Cwd(), path, Removed(nodes, parent, prev, node));
      GoneNode(refs, fds, node);
      Detach(parent, prev, node);
      refs := refs - {node};
      kids := RemovedKids(kids, parent, i);
      depth := depth - {node};
      assert cwd != NULL ==> cwd in nodes && Moored(old(nodes), nodes, cwd);
      return Ok;
    }

    /** Makes the directory a path leads to the current one. */
    method ChangeDir(path: string) returns (st: Status)
      requires Valid()
      modifies `cwd
      ensures Valid()
      ensures st ==
              (if old(At(path)) == NULL then NotFound else if !IsDir(nodes, old(At(path))) then NotADirectory else Ok)
      ensures cwd == if st == Ok then old(At(path)) else old(cwd)
    {
      hide TreeFit, RefsFit, Resolved;
      var node := ResolveInternal(path);
      if node == NULL {
        return NotFound;
      }
      if !nodes[node].isDir {
        return NotADirectory;
      }
      cwd := node;
      return Ok;
    }

    /** Opens a path, creating the file if asked to; `mem` and `fmem` are the memory for a node and for
        the descriptor. A file that was created stays when there is no memory for the descriptor. */
    method Open(path: string, create: bool, mem: Ref, fmem: Ref) returns (st: Status, fd: Ref)
      requires Valid() && |path| <= PATH_MAX && (mem == NULL || mem !in refs) && (fmem == NULL || fmem !in fds)
      modifies `nodes, `refs, `kids, `depth, `fds
      ensures Valid() && (fd != NULL <==> st == Ok)
      ensures st == (if old(At(path)) == NULL && !create then NotFound
                     else if old(At(path)) == NULL && (!old(Creatable(path)) || mem == NULL) then IOError
                     else if fmem == NULL then OutOfMemory
                     else Ok)
      // the descriptor, and the count of its node
      ensures st == Ok ==> fd == fmem && fds == old(fds)[fd := if old(At(path)) != NULL then old(At(path)) else mem]
      ensures st != Ok ==> fds == old(fds)
      ensures refs == Counted(old(refs), old(At(path)), mem, st)
      // the tree
      ensures old(At(path)) != NULL || st == NotFound || st == IOError ==> nodes == old(nodes)
      ensures old(At(path)) == NULL && (st == Ok || st == OutOfMemory) ==>
                Created(path, false, mem, old(nodes), old(kids), old(depth))
      ensures old(At(path)) == NULL && (st == Ok || st == OutOfMemory) && path != "" && |LeafOf(path)| <= NAME_MAX ==>
                At(path) == mem
      ensures forall q: string :: old(At(q)) != NULL ==> At(q) == old(At(q))
      ensures AllNamed() <==>
        old(AllNamed()) && !(old(At(path)) == NULL && (st == Ok || st == OutOfMemory) && path == "")
    {
      hide TreeFit, RefsFit, Resolved, NewName, ParentOf, Lookup, Added, AddedKids, Nameful, LeafOf;
      var node := ResolveInternal(path);
      if node == NULL {
        if !create {
          return NotFound, NULL;
        }
        CreationEffect(nodes, root, kids, depth, Cwd(), path, false, mem);
        node := CreateInternal(path, false, mem);
        if node == NULL {
          return IOError, NULL;
        }
      }
      if fmem == NULL {
        return OutOfMemory, NULL;
      }
      fd := fmem;
      assert node in refs;
      HeldMore(refs, fds, fd, node);
      fds := fds[fd := node];
      refs := refs[node := refs[node] + 1];
      st := Ok;
    }

    method Close(fd: Ref)
      requires Valid() && (fd == NULL || fd in fds)
      modifies `refs, `fds
      ensures Valid() && fds == old(fds) - {fd}
      ensures fd == NULL ==> refs == old(refs)
      ensures fd != NULL ==> CountOf(old(refs), old(fds)[fd]) > 0 &&
                             refs == old(refs)[old(fds)[fd] := CountOf(old(refs), old(fds)[fd]) - 1]
    {
      hide TreeFit, RefsFit;
      if fd == NULL {
        return;
      }
      HeldLess(refs, fds, fd);
      var node := fds[fd];
      refs := refs[node := refs[node] - 1];
      fds := fds - {fd};
    }

    method Dup(fd: Ref, fmem: Ref) returns (copy: Ref)
      requires Valid() && (fd == NULL || fd in fds) && (fmem == NULL || fmem !in fds)
      modifies `refs, `fds
      ensures Valid() && copy == if fd == NULL then NULL else fmem
      ensures if copy == NULL then fds == old(fds) && refs == old(refs)
              else fds == old(fds)[copy := old(fds)[fd]] &&
                   refs == old(refs)[old(fds)[fd] := CountOf(old(refs), old(fds)[fd]) + 1] && old(fds)[fd] in old(refs)
    {
      hide TreeFit, RefsFit;
      if fd == NULL || fmem == NULL {
        return NULL;
      }
      copy := fmem;
      NamedNode(fds, fd, refs);
      HeldMore(refs, fds, copy, fds[fd]);
      refs := refs[fds[fd] := refs[fds[fd]] + 1];
      fds := fds[copy := fds[fd]];
    }

    /** Makes a node outside the tree with two descriptors for it. */
    method Pipe(mem: Ref, rmem: Ref, wmem: Ref) returns (st: Status)
      requires Valid() && (mem == NULL || mem !in refs)
      requires (rmem == NULL || rmem !in fds) && (wmem == NULL || wmem !in fds) && (rmem != NULL ==> rmem != wmem)
      modifies `refs, `fds
      ensures Valid() && st == if mem == NULL || rmem == NULL || wmem == NULL then OutOfMemory else Ok
      ensures st == Ok ==> fds == old(fds)[rmem := mem][wmem := mem] && refs == old(refs)[mem := 2]
      ensures st != Ok ==> fds == old(fds) && refs == old(refs)
    {
      hide TreeFit, RefsFit;
      if mem == NULL || rmem == NULL || wmem == NULL {
        return OutOfMemory;
      }
      NewNode(refs, fds, mem);
      HeldMore(refs[mem := 0], fds, rmem, mem);
      assert refs[mem := 0][mem := 1] == refs[mem := 1];
      HeldMore(refs[mem := 1], fds[rmem := mem], wmem, mem);
      assert refs[mem := 1][mem := 2] == refs[mem := 2];
      refs := refs[mem := 2];
      fds := fds[rmem := mem][wmem := mem];
      return Ok;
    }
  }

  // ---- the law of printed paths ----

  lemma {:induction false} JoinedAbsolute(names: seq<string>)
    requires names != []
    ensures Joined(names) != "" && Joined(names)[0] == '/'
  {
    var pre := names[..|names| - 1];
    if pre != [] {
      JoinedAbsolute(pre);
    }
  }

  lemma {:induction false} NamedPath(nodes: Nodes, root: Ref, kids: Kids, depth: Depths, n: Ref)
    requires TreeFit(nodes, root, kids, depth) && n in nodes
    ensures Nameful(nodes, root) ==> "" !in NamesOf(nodes, root, kids, depth, n)
    decreases if n in depth then depth[n] else 0
  {
    RootNames(nodes, root, kids, depth);
    if n != root {
      hide TreeFit, NamesOf;
      NamesStep(nodes, root, kids, depth, n);
      NamedPath(nodes, root, kids, depth, nodes[n].parent);
    }
  }

  /** The full path of a node resolves to it, from any directory, exactly if no name on it is empty;
      and only nodes made with the empty path have empty names. */
  lemma {:induction false} PrintedPathResolves(files: Files, n: Ref)
    requires files.Valid() && n in files.nodes
    ensures files.At(files.PathTo(n)) == n <==> "" !in files.Names(n)
    ensures files.AllNamed() ==> "" !in files.Names(n)
  {
    hide RefsFit, Walk, Components;
    RoundTripIff(files.nodes, files.root, files.kids, files.depth, n);
    NamedPath(files.nodes, files.root, files.kids, files.depth, n);
    if n != files.root {
      NamesStep(files.nodes, files.root, files.kids, files.depth, n);
      hide TreeFit, NamesOf;
      JoinedAbsolute(files.Names(n));
    }
  }

  lemma {:induction false} NewAtRoot(files: Files)
    requires files.Valid() && files.cwd == NULL && files.kids == map[files.root := []] && files.root in files.nodes
    ensures files.At("") == NULL && files.Creatable("")
  {
  }

  lemma {:induction false} LostPath(files: Files)
    requires files.Valid() && 2 in files.nodes && files.root != 2
    requires files.nodes[2].parent == files.root && files.nodes[2].name == ""
    ensures files.PathTo(2) == "/" && files.At("/") == files.root
  {
    hide TreeFit, RefsFit, Components, Walk;
    NamesStep(files.nodes, files.root, files.kids, files.depth, 2);
    RootNames(files.nodes, files.root, files.kids, files.depth);
    RootPath();
    assert files.Names(2) == [] + [""] == [""];
    assert Joined([""]) == Joined([]) + "/" + "" by { assert [""][..0] == []; }
    WalkNothing(files.nodes, files.kids, files.root);
  }

  /** On a new file system the empty path makes a directory whose full path leads to the root instead. */
  method EmptyPathLost() returns (st: Status, files: Files)
    ensures st == Ok && files.Valid() && 2 in files.nodes
    ensures files.PathTo(2) == "/" && files.At("/") == files.root != 2
  {
    files := new Files(1);
    NewAtRoot(files);
    st := files.Mkdir("", 2);
    LostPath(files);
  }
}
