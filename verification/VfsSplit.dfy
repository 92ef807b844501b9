/** Splitting a path into its parent and its last name. */
module VfsSplit {
  import opened VfsPaths
  import opened VfsTree

  /** The place of the last slash, or -1. */
  function LastSlash(p: string): (k: int)
    ensures -1 <= k < |p|
    ensures k >= 0 ==> p[k] == '/'
    ensures forall i :: k < i < |p| ==> p[i] != '/'
  {
    if p == [] then -1 else if p[|p| - 1] == '/' then |p| - 1 else LastSlash(p[..|p| - 1])
  }

  /** What stands behind the last slash. */
  function LeafOf(p: string): string { p[LastSlash(p) + 1..] }

  /** The name a node created at this path gets: at most 127 characters of the leaf. */
  function NewName(p: string): string { if |LeafOf(p)| <= NAME_MAX then LeafOf(p) else LeafOf(p)[..NAME_MAX] }

  function ParentPath(p: string): string
    requires LastSlash(p) >= 0
  {
    if LastSlash(p) == 0 then "/" else p[..LastSlash(p)]
  }

  /** Where walking a path starts. */
  function Start(p: string, root: Ref, cwd: Ref): Ref { if p != "" && p[0] == '/' then root else cwd }

  /** The node a path leads to, or NULL; the empty path leads nowhere. */
  function Resolved(nodes: Nodes, kids: Kids, root: Ref, cwd: Ref, p: string): Ref {
    if p == "" then NULL else Walk(nodes, kids, Start(p, root, cwd), Components(p))
  }

  function ParentOf(nodes: Nodes, kids: Kids, root: Ref, cwd: Ref, p: string): Ref {
    if LastSlash(p) < 0 then cwd else Resolved(nodes, kids, root, cwd, ParentPath(p))
  }

  lemma {:induction false} PreComponents(p: string)
    requires LastSlash(p) >= 0
    ensures Components(ParentPath(p)) == Components(p[..LastSlash(p)]) && ParentPath(p) != ""
    ensures ParentPath(p)[0] == p[0]
  {
  }

  /** A path resolves by walking its leaf from its parent. */
  lemma {:induction false} ResolvesByParent(nodes: Nodes, kids: Kids, root: Ref, cwd: Ref, p: string)
    requires p != ""
    ensures Resolved(nodes, kids, root, cwd, p) ==
            Walk(nodes, kids, ParentOf(nodes, kids, root, cwd, p), Components(LeafOf(p)))
  {
    var k := LastSlash(p);
    if k < 0 {
      assert LeafOf(p) == p;
    } else {
      var pre := p[..k];
      assert p == pre + "/" + LeafOf(p);
      ComponentsAppend(pre, LeafOf(p));
      PreComponents(p);
      hide Components, Walk, LastSlash;
      WalkAppend(nodes, kids, Start(p, root, cwd), Components(pre), Components(LeafOf(p)));
    }
  }

  lemma {:induction false} LeafPlain(p: string)
    ensures '/' !in LeafOf(p) && '/' !in NewName(p) && |NewName(p)| <= NAME_MAX
  {
  }

  /** If a path does not resolve though its parent does, its leaf is no dot name and not empty. */
  lemma {:induction false} UnresolvedLeaf(nodes: Nodes, kids: Kids, root: Ref, cwd: Ref, p: string)
    requires Resolved(nodes, kids, root, cwd, p) == NULL && NULL !in nodes && nodes.Keys == kids.Keys
    requires var d := ParentOf(nodes, kids, root, cwd, p);
             d in nodes && (nodes[d].parent != NULL ==> nodes[d].parent in nodes)
    ensures NodeName(NewName(p)) && (NewName(p) == "" <==> p == "")
  {
    LeafPlain(p);
    var d, leaf := ParentOf(nodes, kids, root, cwd, p), LeafOf(p);
    if p != "" {
      ResolvesByParent(nodes, kids, root, cwd, p);
      NoComponents("");
      if 0 < |leaf| <= NAME_MAX {
        OneComponent(leaf);
        assert [leaf][1..] == [];
      }
    }
  }

  /** A new child found under its name makes the path resolve to it. */
  lemma {:induction false} ResolvesToChild(nodes: Nodes, kids: Kids, root: Ref, cwd: Ref, p: string, t: Ref)
    requires p != "" && 0 < |LeafOf(p)| <= NAME_MAX
    requires Step(nodes, kids, ParentOf(nodes, kids, root, cwd, p), LeafOf(p)) == t
    ensures Resolved(nodes, kids, root, cwd, p) == t
  {
    LeafPlain(p);
    ResolvesByParent(nodes, kids, root, cwd, p);
    OneComponent(LeafOf(p));
    assert [LeafOf(p)][1..] == [];
  }
}
