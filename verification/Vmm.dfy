/** The virtual memory manager: page tables in physical frames, addressed directly. */
module Vmm {
  import opened Pmm
  import opened PageTables

  /** The frame of each table of an address space. */
  type Places = map<Path, nat>

  /** The tables of a space, read from memory. */
  ghost function View(mem: map<nat, Table>, t: Places): Tables
    requires forall p :: p in t ==> t[p] in mem
  {
    map p | p in t :: mem[t[p]]
  }

  /** Memory holds a tree of tables at the places `t`: no two share a frame, and every link holds
      the frame of the table it leads to. */
  ghost predicate IsSpace(mem: map<nat, Table>, root: nat, t: Places)
    ensures IsSpace(mem, root, t) ==> forall p :: p in t ==> t[p] in mem
  {
    && (forall p :: p in t ==> t[p] in mem)
    && (forall p, q :: p in t && q in t && t[p] == t[q] ==> p == q)
    && IsTree(View(mem, t))
    && t[Root] == root
    && (forall p, i: nat :: Down(p, i) in t ==> p in t && i < 512 && t[Down(p, i)] == mem[t[p]][i].frame)
  }

  /** The allocator holds every table's frame as used. */
  ghost predicate Held(used: set<nat>, total: nat, t: Places) {
    forall p :: p in t ==> 1 <= t[p] < total && t[p] in used
  }

  // ---- memory updates seen through the places ----

  lemma {:induction false} WriteSeen(mem: map<nat, Table>, root: nat, t: Places, p: Path, s: Table)
    requires IsSpace(mem, root, t) && p in t
    ensures View(mem[t[p] := s], t) == View(mem, t)[p := s]
  {
  }

  lemma {:induction false} PlacesApart(mem: map<nat, Table>, root: nat, t: Places, p: Path, c: nat)
    requires IsSpace(mem, root, t) && p in t && c !in t.Values
    ensures forall o :: o in t ==> t[o] in mem && t[o] != c && (o != p ==> t[o] != t[p])
  {
    hide IsTree;
    forall o | o in t ensures t[o] in t.Values {
    }
  }

  lemma {:induction false} AttachSeen(mem: map<nat, Table>, root: nat, t: Places, p: Path, q: Path, c: nat, s: Table,
                                      r: Table, mem': map<nat, Table>, t': Places)
    requires IsSpace(mem, root, t) && p in t && q !in t && c !in t.Values
    requires mem' == mem[c := s][t[p] := r] && t' == t[q := c]
    ensures forall o :: o in t' ==> t'[o] in mem'
    ensures View(mem', t') == View(mem, t)[p := r][q := s]
  {
    hide IsSpace;
    PlacesApart(mem, root, t, p, c);
    var b := View(mem, t)[p := r][q := s];
    forall o | o in t' ensures t'[o] in mem' && mem'[t'[o]] == b[o] {
    }
  }

  lemma {:induction false} LinkedOrNot(mem: map<nat, Table>, root: nat, t: Places, p: Path, i: nat)
    requires IsSpace(mem, root, t) && p in t && i < 512 && Level(p) < 3
    ensures Down(p, i) in t <==> IsLink(mem[t[p]][i])
    ensures Down(p, i) in t ==> t[Down(p, i)] == mem[t[p]][i].frame && Plain(mem[t[p]][i])
    ensures Level(p) < 2 && mem[t[p]][i].present ==> !mem[t[p]][i].huge
  {
    assert EntryOk(View(mem, t), p, i);
  }

  /** A retagged entry keeps the space. */
  lemma {:induction false} RetagSpace(mem: map<nat, Table>, root: nat, t: Places, p: Path, i: nat, e: Word)
    requires IsSpace(mem, root, t) && p in t && i < 512 && SameTarget(mem[t[p]][i], e)
    ensures var mem' := mem[t[p] := mem[t[p]][i := e]];
            IsSpace(mem', root, t) && SameSpace(View(mem, t), View(mem', t)) &&
            View(mem', t) == SetEntry(View(mem, t), p, i, e)
  {
    hide IsTree, SameSpace, Translate;
    WriteSeen(mem, root, t, p, mem[t[p]][i := e]);
    RetagKeeps(View(mem, t), p, i, e);
  }

  lemma {:induction false} AttachedLink(mem: map<nat, Table>, root: nat, t: Places, p: Path, i: nat, e: Word,
                                        mem': map<nat, Table>, q: Path, j: nat)
    requires IsSpace(mem, root, t) && p in t && i < 512 && Down(p, i) !in t && e.frame !in t.Values
    requires t[p] in mem' && mem'[t[p]] == mem[t[p]][i := e]
    requires forall o :: o in t && o != p ==> t[o] in mem' && mem'[t[o]] == mem[t[o]]
    requires Down(q, j) in t[Down(p, i) := e.frame]
    ensures q in t && j < 512 && t[Down(p, i) := e.frame][Down(q, j)] == mem'[t[q]][j].frame
    ensures q != Down(p, i)
  {
  }

  lemma {:induction false} SpaceTree(mem: map<nat, Table>, root: nat, t: Places)
    requires IsSpace(mem, root, t)
    ensures IsTree(View(mem, t)) && Root in View(mem, t)
  {
  }

  lemma {:induction false} MakesSpace(mem: map<nat, Table>, root: nat, t: Places)
    requires forall p :: p in t ==> t[p] in mem
    requires forall p, q :: p in t && q in t && t[p] == t[q] ==> p == q
    requires IsTree(View(mem, t)) && Root in t && t[Root] == root
    requires forall p, i: nat :: Down(p, i) in t ==> p in t && i < 512 && t[Down(p, i)] == mem[t[p]][i].frame
    ensures IsSpace(mem, root, t)
  {
    hide IsTree;
  }

  lemma {:induction false} AttachPlaces(mem: map<nat, Table>, root: nat, t: Places, q: Path, c: nat)
    requires IsSpace(mem, root, t) && q !in t && c !in t.Values
    ensures var t' := t[q := c];
            Root in t' && t'[Root] == root && forall o, r :: o in t' && r in t' && t'[o] == t'[r] ==> o == r
  {
    SpaceTree(mem, root, t);
    hide IsTree;
    forall o | o in t ensures t[o] != c {
      assert t[o] in t.Values;
    }
  }

  /** A new table at a fresh frame, linked from entry `i` of the table at `p`, keeps the space. */
  lemma {:induction false} AttachSpace(mem: map<nat, Table>, root: nat, t: Places, p: Path, i: nat, e: Word, s: Table,
                                       mem': map<nat, Table>)
    requires IsSpace(mem, root, t) && p in t && i < 512 && Level(p) < 3 && !IsLink(mem[t[p]][i])
    requires Fills(View(mem, t), p, i, s) && IsLink(e) && Plain(e) && e.frame !in t.Values
    requires mem' == mem[e.frame := s][t[p] := mem[t[p]][i := e]]
    ensures IsSpace(mem', root, t[Down(p, i) := e.frame])
    ensures SameSpace(View(mem, t), View(mem', t[Down(p, i) := e.frame]))
    ensures View(mem', t[Down(p, i) := e.frame]) == Attach(View(mem, t), p, i, e, s)
  {
    hide SameSpace, Translate, Fills, IsLink, Plain, Level, IsTree;
    SpaceTree(mem, root, t);
    hide IsSpace;
    var a, t' := View(mem, t), t[Down(p, i) := e.frame];
    LinkedOrNot(mem, root, t, p, i);
    AttachSeen(mem, root, t, p, Down(p, i), e.frame, s, mem[t[p]][i := e], mem', t');
    AttachKeeps(a, p, i, e, s);
    AttachPlaces(mem, root, t, Down(p, i), e.frame);
    PlacesApart(mem, root, t, p, e.frame);
    forall q, j: nat | Down(q, j) in t'
      ensures q in t' && j < 512 && t'[Down(q, j)] == mem'[t'[q]][j].frame
    {
      AttachedLink(mem, root, t, p, i, e, mem', q, j);
    }
    MakesSpace(mem', root, t');
  }

  lemma {:induction false} DeepestHasNoChild(mem: map<nat, Table>, root: nat, t: Places, v: Va, j: nat)
    requires IsSpace(mem, root, t)
    ensures Down(P1(v), j) !in t
  {
  }

  /** Page `v` translates by entry `e`, and every other page as before. */
  ghost predicate Remapped(a: Tables, b: Tables, v: Va, e: Word) {
    forall w :: IsVa(w) ==>
      Translate(b, w) ==
      if !SamePage(v, w) then Translate(a, w)
      else if e.present then Mapped(e.frame * 4096 + w.offset) else Unmapped
  }

  /** Setting a last-level entry: that page alone translates differently. */
  lemma {:induction false} LeafSpace(mem: map<nat, Table>, root: nat, t: Places, v: Va, e: Word)
    requires IsSpace(mem, root, t) && IsVa(v) && P1(v) in t
    ensures var mem' := mem[t[P1(v)] := mem[t[P1(v)]][v.i1 := e]];
            IsSpace(mem', root, t) && Remapped(View(mem, t), View(mem', t), v, e) &&
            View(mem', t) == SetEntry(View(mem, t), P1(v), v.i1, e)
  {
    hide IsTree, Translate;
    var mem' := mem[t[P1(v)] := mem[t[P1(v)]][v.i1 := e]];
    WriteSeen(mem, root, t, P1(v), mem'[t[P1(v)]]);
    LeafSet(View(mem, t), v, e, v);
    forall w | IsVa(w)
      ensures Translate(View(mem', t), w) ==
              if !SamePage(v, w) then Translate(View(mem, t), w)
              else if e.present then Mapped(e.frame * 4096 + w.offset) else Unmapped
    {
      LeafSet(View(mem, t), v, e, w);
    }
    forall q, j: nat | Down(q, j) in t ensures t[Down(q, j)] == mem'[t[q]][j].frame {
      DeepestHasNoChild(mem, root, t, v, j);
    }
  }

  lemma {:induction false} RemappedAfter(a: Tables, b: Tables, c: Tables, v: Va, e: Word)
    requires SameSpace(a, b) && Remapped(b, c, v, e)
    ensures Remapped(a, c, v, e)
  {
  }

  lemma {:induction false} SameSpaceTrans(a: Tables, b: Tables, c: Tables)
    requires SameSpace(a, b) && SameSpace(b, c)
    ensures SameSpace(a, c)
  {
  }

  /** `b` is `a` after a step down through entry `i` of the table at `p` that led to the table at frame `c`;
      with `c` 0 it failed, and the entry was marked at most. */
  ghost predicate Stepped(a: Tables, b: Tables, p: Path, i: nat, user: bool, c: nat) {
    IsTree(a) && p in a && i < 512 && Level(p) < 3 &&
    b == if c != 0 then Opened(a, p, i, user, c) else SetEntry(a, p, i, Marked(a[p][i], user))
  }

  lemma {:induction false} SteppedMark(mem: map<nat, Table>, root: nat, t: Places, b: Tables, p: Path, i: nat,
                                       user: bool, c: nat)
    requires IsSpace(mem, root, t) && p in t && i < 512 && Level(p) < 3 && (c != 0 ==> IsLink(mem[t[p]][i]))
    requires b == SetEntry(View(mem, t), p, i, Marked(mem[t[p]][i], user))
    ensures Stepped(View(mem, t), b, p, i, user, c)
  {
  }

  lemma {:induction false} SteppedNew(mem: map<nat, Table>, root: nat, t: Places, mid: Tables, b: Tables, p: Path,
                                      i: nat, user: bool, c: nat)
    requires IsSpace(mem, root, t) && p in t && i < 512 && Level(p) < 3 && c != 0 && !IsLink(mem[t[p]][i])
    requires mid == SetEntry(View(mem, t), p, i, Marked(mem[t[p]][i], user))
    requires p in mid && b == Attach(mid, p, i, LinkTo(c, user), Filling(Marked(mem[t[p]][i], user)))
    ensures Stepped(View(mem, t), b, p, i, user, c)
  {
    var a := View(mem, t);
    SpaceTree(mem, root, t);
    hide IsTree, IsSpace, Filling;
    assert mid[p][i := LinkTo(c, user)] == a[p][i := LinkTo(c, user)];
    assert Attach(mid, p, i, LinkTo(c, user), Filling(Marked(a[p][i], user))) ==
           Attach(a, p, i, LinkTo(c, user), Filling(Marked(a[p][i], user)));
  }

  /** `b` is `a` with page `v` mapped by entry `e`, in tables at the places `t`. */
  ghost predicate Installed(a: Tables, b: Tables, t: Places, v: Va, e: Word) {
    IsTree(a) && IsVa(v) && P3(v) in t && P2(v) in t && P1(v) in t &&
    b == WithPage(a, v, e, t[P3(v)], t[P2(v)], t[P1(v)])
  }

  /** Who may use which page after a mapping: user code reaches the new page exactly if it is mapped for the
      user, and any other mapped page exactly as `ReachableAfter` says. */
  lemma {:induction false} MappedAccess(a: Tables, b: Tables, t: Places, v: Va, e: Word, w: Va)
    requires Installed(a, b, t, v, e) && IsVa(w) && (SamePage(v, w) || Translate(a, w) != Unmapped)
    ensures UserReaches(b, w) <==> if SamePage(v, w) then e.user else ReachableAfter(a, v, e.user, w)
  {
    hide WithPage, IsTree, Translate;
    if SamePage(v, w) {
      UserPageReached(a, v, e, t[P3(v)], t[P2(v)], t[P1(v)]);
    } else {
      UserReachIff(a, v, e, t[P3(v)], t[P2(v)], t[P1(v)], w);
    }
  }

  /** `b` is `a` with the steps down to page `v` made as far as there are tables at `t`, and the last entry
      reached marked. */
  ghost predicate PartWay(a: Tables, b: Tables, t: Places, v: Va, user: bool) {
    IsTree(a) && IsVa(v) &&
    if P3(v) !in t then b == SetEntry(a, Root, v.i4, Marked(a[Root][v.i4], user))
    else
      var a1 := Opened(a, Root, v.i4, user, t[P3(v)]);
      Levels(v);
      if P2(v) !in t then b == SetEntry(a1, P3(v), v.i3, Marked(a1[P3(v)][v.i3], user))
      else
        var a2 := Opened(a1, P3(v), v.i3, user, t[P2(v)]);
        b == SetEntry(a2, P2(v), v.i2, Marked(a2[P2(v)][v.i2], user))
  }

  lemma {:induction false} FailedFirst(a: Tables, b: Tables, t: Places, v: Va, user: bool)
    requires IsVa(v) && Stepped(a, b, Root, v.i4, user, 0) && P3(v) !in t
    ensures PartWay(a, b, t, v, user)
  {
    hide IsTree;
  }

  lemma {:induction false} FailedSecond(a: Tables, a1: Tables, b: Tables, t: Places, v: Va, user: bool)
    requires IsVa(v) && P3(v) in t && t[P3(v)] != 0 && P2(v) !in t
    requires Stepped(a, a1, Root, v.i4, user, t[P3(v)]) && Stepped(a1, b, P3(v), v.i3, user, 0)
    ensures PartWay(a, b, t, v, user)
  {
    hide IsTree, Opened;
  }

  lemma {:induction false} FailedThird(a: Tables, a1: Tables, a2: Tables, b: Tables, t: Places, v: Va, user: bool)
    requires IsVa(v) && P3(v) in t && t[P3(v)] != 0 && P2(v) in t && t[P2(v)] != 0
    requires Stepped(a, a1, Root, v.i4, user, t[P3(v)]) && Stepped(a1, a2, P3(v), v.i3, user, t[P2(v)])
    requires Stepped(a2, b, P2(v), v.i2, user, 0)
    ensures PartWay(a, b, t, v, user)
  {
    hide IsTree, Opened;
  }

  /** `b` is `a` with all three steps down to page `v` made. */
  ghost predicate AllTheWay(a: Tables, b: Tables, t: Places, v: Va, user: bool) {
    IsTree(a) && IsVa(v) && P3(v) in t && P2(v) in t && P1(v) in t &&
    var a1 := Opened(a, Root, v.i4, user, t[P3(v)]);
    Levels(v);
    var a2 := Opened(a1, P3(v), v.i3, user, t[P2(v)]);
    b == Opened(a2, P2(v), v.i2, user, t[P1(v)])
  }

  lemma {:induction false} AllSteps(a: Tables, a1: Tables, a2: Tables, a3: Tables, t: Places, v: Va, user: bool)
    requires IsVa(v) && P3(v) in t && t[P3(v)] != 0 && P2(v) in t && t[P2(v)] != 0 && P1(v) in t && t[P1(v)] != 0
    requires Stepped(a, a1, Root, v.i4, user, t[P3(v)]) && Stepped(a1, a2, P3(v), v.i3, user, t[P2(v)])
    requires Stepped(a2, a3, P2(v), v.i2, user, t[P1(v)])
    ensures AllTheWay(a, a3, t, v, user)
  {
    hide IsTree, Opened;
  }

  lemma {:induction false} LeafInstalled(a: Tables, b: Tables, t: Places, v: Va, e: Word)
    requires AllTheWay(a, b, t, v, e.user) && P1(v) in b
    ensures Installed(a, SetEntry(b, P1(v), v.i1, e), t, v, e)
  {
    hide IsTree, Opened;
    Levels(v);
  }

  // ---- what a mapping adds and keeps ----

  /** `t'` has tables `t` does not, at most, on the way to `v`. */
  ghost predicate GrownBy(t: Places, t': Places, v: Va) {
    && (forall p :: p in t ==> p in t' && t'[p] == t[p])
    && (forall p :: p in t' && p !in t ==> p == P3(v) || p == P2(v) || p == P1(v))
  }

  /** The tables gained are at frames that were not in use. */
  ghost predicate Fresh(t: Places, t': Places, used: set<nat>) {
    forall p :: p in t' && p !in t ==> t'[p] !in used
  }

  /** Memory in use, other than the frames `except`, is as it was. */
  ghost predicate Kept(before: map<nat, Table>, now: map<nat, Table>, used: set<nat>, except: set<nat>) {
    forall f :: f in before && f in used && f !in except ==> f in now && now[f] == before[f]
  }

  lemma {:induction false} KeptTrans(a: map<nat, Table>, b: map<nat, Table>, c: map<nat, Table>, u: set<nat>,
                                     w: set<nat>, x: set<nat>, y: set<nat>, z: set<nat>)
    requires Kept(a, b, u, x) && Kept(b, c, w, y) && u <= w && x <= z && y <= z
    ensures Kept(a, c, u, z)
  {
  }

  /** The frames of the tables on the way to `v`. */
  ghost function OnPath(t: Places, v: Va): set<nat> {
    set p | p in t && (p == Root || p == P3(v) || p == P2(v) || p == P1(v)) :: t[p]
  }

  lemma {:induction false} KeptLeaf(before: map<nat, Table>, mid: map<nat, Table>, now: map<nat, Table>, used: set<nat>,
                                    t: Places, v: Va)
    requires P1(v) in t && t[P1(v)] in mid && t[P1(v)] in now && now == mid[t[P1(v)] := now[t[P1(v)]]]
    requires Kept(before, mid, used, OnPath(t, v))
    ensures Kept(before, now, used, OnPath(t, v))
  {
  }

  lemma {:induction false} GrownTrans(t0: Places, t: Places, t': Places, v: Va, used: set<nat>, q: Path, c: nat)
    requires GrownBy(t0, t, v) && Fresh(t0, t, used)
    requires q == P3(v) || q == P2(v) || q == P1(v)
    requires t' == t || (q !in t && t' == t[q := c] && c !in used)
    ensures GrownBy(t0, t', v) && Fresh(t0, t', used)
    ensures t' == t || t'.Values == t.Values + {c}
  {
  }

  /** The last-level table of `v`, if there was one, is as it was. */
  ghost predicate SameLeaves(t: Places, v: Va, before: map<nat, Table>, now: map<nat, Table>) {
    P1(v) in t ==> t[P1(v)] in before && t[P1(v)] in now && now[t[P1(v)]] == before[t[P1(v)]]
  }

  lemma {:induction false} LeavesStay(root: nat, t0: Places, t: Places, v: Va, used: set<nat>, p: Path,
                                      before: map<nat, Table>, mid: map<nat, Table>, now: map<nat, Table>)
    requires SameLeaves(t0, v, before, mid) && GrownBy(t0, t, v) && IsSpace(mid, root, t) && p in t && p != P1(v)
    requires Kept(mid, now, used, {t[p]}) && forall q :: q in t ==> t[q] in used
    ensures SameLeaves(t0, v, before, now)
  {
  }

  lemma {:induction false} OnPathGrows(t: Places, t': Places, v: Va, p: Path)
    requires forall q :: q in t ==> q in t' && t'[q] == t[q]
    requires p in t && (p == Root || p == P3(v) || p == P2(v) || p == P1(v))
    ensures OnPath(t, v) <= OnPath(t', v) && t[p] in OnPath(t', v)
  {
  }

  lemma {:induction false} GrownKeeps(t: Places, t': Places, v: Va)
    requires GrownBy(t, t', v)
    ensures forall p :: p in t ==> p in t' && t'[p] == t[p]
  {
  }

  lemma {:induction false} LevelsApart(v: Va, p: Path)
    requires p == Root || p == P3(v) || p == P2(v)
    ensures p != P1(v)
  {
  }

  lemma {:induction false} RootPlaced(mem: map<nat, Table>, root: nat, t: Places)
    requires IsSpace(mem, root, t)
    ensures Root in t && t[Root] == root
  {
  }

  /** The walk the processor makes, from memory. */
  lemma {:induction false} WalkIsTranslate(mem: map<nat, Table>, root: nat, t: Places, v: Va)
    requires IsSpace(mem, root, t) && IsVa(v)
    ensures root in mem && root == t[Root]
    ensures mem[root][v.i4].present <==> P3(v) in t
    ensures P3(v) in t ==> t[P3(v)] == mem[root][v.i4].frame && (mem[t[P3(v)]][v.i3].present <==> P2(v) in t)
    ensures P2(v) in t ==> P3(v) in t && t[P2(v)] == mem[t[P3(v)]][v.i3].frame
    ensures P2(v) in t ==> (IsLink(mem[t[P2(v)]][v.i2]) <==> P1(v) in t)
    ensures P1(v) in t ==> P2(v) in t && t[P1(v)] == mem[t[P2(v)]][v.i2].frame
  {
    Levels(v);
    assert Root in View(mem, t);
    LinkedOrNot(mem, root, t, Root, v.i4);
    if P3(v) in t {
      LinkedOrNot(mem, root, t, P3(v), v.i3);
    }
    if P2(v) in t {
      LinkedOrNot(mem, root, t, P2(v), v.i2);
    }
  }

  lemma {:induction false} SameSpaceSelf(a: Tables)
    ensures SameSpace(a, a)
  {
  }

  lemma {:induction false} HeldValues(used: set<nat>, total: nat, t: Places)
    requires Held(used, total, t)
    ensures t.Values <= used
  {
  }

  lemma {:induction false} AttachValues(t: Places, q: Path, f: nat)
    requires q !in t
    ensures t[q := f].Values == t.Values + {f}
  {
    var t' := t[q := f];
    forall x | x in t.Values ensures x in t'.Values {
      var p :| p in t && t[p] == x;
      assert t'[p] == x;
    }
    assert t'[q] == f;
  }

  /** A zeroed table, or the split of a large page, is what may stand behind its entry. */
  lemma {:induction false} FillsNew(mem: map<nat, Table>, root: nat, t: Places, p: Path, i: nat, s: Table)
    requires IsSpace(mem, root, t) && p in t && i < 512 && Level(p) < 3 && !IsLink(mem[t[p]][i])
    requires if mem[t[p]][i].present then forall j :: 0 <= j < 512 ==> s[j] == SmallPage(mem[t[p]][i], j)
             else s == seq(512, _ => ZERO)
    ensures Fills(View(mem, t), p, i, s) && s == Filling(mem[t[p]][i])
  {
    LinkedOrNot(mem, root, t, p, i);
  }

  // ---- the machine ----

  class Machine {
    const pmm: Allocator

    var mem: map<nat, Table>   // every frame's 512 words
    var kernelRoot: nat

    constructor (pmm: Allocator, mem: map<nat, Table>, kernelRoot: nat)
      ensures this.pmm == pmm && this.mem == mem && this.kernelRoot == kernelRoot
    {
      this.pmm, this.mem, this.kernelRoot := pmm, mem, kernelRoot;
    }

    ghost predicate Valid()
      reads this, pmm, pmm.bitmap
    {
      pmm.Valid() && forall f :: 0 <= f < pmm.totalFrames ==> f in mem
    }

    /** An address space of this machine, its tables at `t`. */
    ghost predicate Space(root: nat, t: Places)
      reads this, pmm, pmm.bitmap
      ensures Space(root, t) ==> forall p :: p in t ==> t[p] in mem
    {
      Valid() && IsSpace(mem, root, t) && Held(pmm.Used(), pmm.totalFrames, t)
    }

    /** No frame is free. */
    ghost predicate Exhausted()
      requires pmm.Shape()
      reads this, pmm, pmm.bitmap
    {
      forall f :: 1 <= f < pmm.totalFrames ==> f in pmm.Used()
    }

    /** A fresh zeroed frame for a table; 0 when there is none. */
    method AllocTable() returns (f: nat)
      requires Valid()
      modifies this`mem, pmm`usedFrames, pmm.bitmap
      ensures Valid()
      ensures f == 0 ==> mem == old(mem) && pmm.Used() == old(pmm.Used()) && Exhausted()
      ensures f != 0 ==> 1 <= f < pmm.totalFrames && f !in old(pmm.Used()) && pmm.Used() == old(pmm.Used()) + {f}
      ensures f != 0 ==> mem == old(mem)[f := seq(512, _ => ZERO)]
    {
      hide Allocator.Used, Allocator.UsedBelow;
      var phys := pmm.AllocFrame();
      f := phys / PAGE_SIZE;
      if phys == 0 {
        return;
      }
      var i := 0;
      while i < 512
        invariant 0 <= i <= 512 && Valid() && pmm.Used() == old(pmm.Used()) + {f}
        invariant f in mem && mem == old(mem)[f := mem[f]]
        invariant forall j :: 0 <= j < i ==> mem[f][j] == ZERO
      {
        mem := mem[f := mem[f][i := ZERO]];
        i := i + 1;
      }
      assert mem[f] == seq(512, _ => ZERO);
    }

    /** The 512 small pages that cover a large page. */
    method SplitTable(f: nat, e: Word)
      requires Valid() && f in mem
      modifies this`mem
      ensures Valid() && f in mem && mem == old(mem)[f := mem[f]]
      ensures forall j :: 0 <= j < 512 ==> mem[f][j] == SmallPage(e, j)
    {
      var i := 0;
      while i < 512
        invariant 0 <= i <= 512 && Valid() && f in mem && mem == old(mem)[f := mem[f]]
        invariant forall j :: 0 <= j < i ==> mem[f][j] == SmallPage(e, j)
      {
        mem := mem[f := mem[f][i := SmallPage(e, i)]];
        i := i + 1;
      }
    }

    /** Makes the table at fresh frame `f` the one that entry `i` of the table at `tf` leads to. */
    method Link(tf: nat, i: nat, f: nat, user: bool, ghost root: nat, ghost t: Places, ghost p: Path,
                ghost before: map<nat, Table>, ghost used: set<nat>)
      returns (ghost t': Places)
      requires Valid() && IsSpace(before, root, t) && Held(used, pmm.totalFrames, t)
      requires p in t && t[p] == tf && Level(p) < 3 && i < 512 && !IsLink(before[tf][i])
      requires 1 <= f < pmm.totalFrames && f !in used && pmm.Used() == used + {f}
      requires f in mem && mem == before[f := mem[f]] && Fills(View(before, t), p, i, mem[f])
      modifies this`mem
      ensures t' == t[Down(p, i) := f] && Down(p, i) !in t
      ensures Space(root, t') && SameSpace(View(before, t), View(mem, t'))
      ensures pmm.Used() == used + t'.Values
      ensures Kept(before, mem, used, {tf})
      ensures tf in mem && mem[tf][i] == LinkTo(f, user)
      ensures View(mem, t') == Attach(View(before, t), p, i, LinkTo(f, user), old(mem)[f])
    {
      hide IsTree, SameSpace, Fills, IsSpace, Allocator.Used, Allocator.Valid;
      t' := t[Down(p, i) := f];
      HeldValues(used, pmm.totalFrames, t);
      LinkedOrNot(before, root, t, p, i);
      ghost var s := mem[f];
      mem := mem[tf := mem[tf][i := LinkTo(f, user)]];
      AttachSpace(before, root, t, p, i, LinkTo(f, user), s, mem);
      AttachValues(t, Down(p, i), f);
    }

    /** Lets user code through a present entry if asked to. */
    method MarkUser(tf: nat, i: nat, user: bool, ghost root: nat, ghost t: Places, ghost p: Path)
      requires Space(root, t) && p in t && t[p] == tf && Level(p) < 3 && i < 512
      modifies this`mem
      ensures Space(root, t) && SameSpace(View(old(mem), t), View(mem, t))
      ensures mem == old(mem)[tf := old(mem)[tf][i := Marked(old(mem)[tf][i], user)]]
      ensures View(mem, t) == SetEntry(View(old(mem), t), p, i, Marked(old(mem)[tf][i], user))
    {
      hide IsTree, SameSpace, IsSpace, Translate, Allocator.Used, Allocator.Valid;
      var e := mem[tf][i];
      if e.present && user {
        RetagSpace(mem, root, t, p, i, e.(user := true));
        mem := mem[tf := mem[tf][i := e.(user := true)]];
      } else {
        SameSpaceSelf(View(mem, t));
        assert mem[tf][i := e] == mem[tf] && mem[tf := mem[tf]] == mem;
        assert View(mem, t)[p := mem[tf]] == View(mem, t);
      }
    }

    /** The table that entry `i` of the table at `tf` leads to, made if it is missing and split off if
        the entry is a large page; 0 when no frame is free. `p` is the place of the table. */
    method GetOrCreate(tf: nat, i: nat, user: bool, ghost root: nat, ghost t: Places, ghost p: Path)
      returns (c: nat, ghost t': Places)
      requires Space(root, t) && p in t && t[p] == tf && Level(p) < 3 && i < 512
      modifies this`mem, pmm`usedFrames, pmm.bitmap
      ensures Space(root, t') && SameSpace(View(old(mem), t), View(mem, t'))
      ensures t' == (if c == 0 || Down(p, i) in t then t else t[Down(p, i) := c])
      ensures c == 0 ==> Exhausted() && Down(p, i) !in t'
      ensures c != 0 ==> Down(p, i) in t' && t'[Down(p, i)] == c
      ensures c != 0 && Down(p, i) !in t ==> c !in old(pmm.Used())
      ensures pmm.Used() == old(pmm.Used()) + t'.Values
      ensures Kept(old(mem), mem, old(pmm.Used()), {tf})
      ensures Stepped(View(old(mem), t), View(mem, t'), p, i, user, c)
    {
      hide IsTree, SameSpace, Fills, IsSpace, Translate, Allocator.Used, Allocator.Valid, Stepped, Filling, Attach,
           SetEntry;
      t' := t;
      ghost var used := pmm.Used();
      HeldValues(used, pmm.totalFrames, t);
      LinkedOrNot(mem, root, t, p, i);
      var e := mem[tf][i];
      MarkUser(tf, i, user, root, t, p);
      SteppedMark(old(mem), root, t, View(mem, t), p, i, user, if e.present && !e.huge then e.frame else 0);
      if e.present && !e.huge {
        return e.frame, t';
      }
      ghost var before := mem;
      c := AllocTable();
      if c == 0 {
        return;
      }
      if e.present {
        SplitTable(c, mem[tf][i]);
      }
      FillsNew(before, root, t, p, i, mem[c]);
      t' := Link(tf, i, c, user, root, t, p, before, used);
      SteppedNew(old(mem), root, t, View(before, t), View(mem, t'), p, i, user, c);
      SameSpaceTrans(View(old(mem), t), View(before, t), View(mem, t'));
    }

    /** The physical address of a virtual one; 0 when it is not mapped. */
    method VirtToPhys(root: nat, v: Va, ghost t: Places) returns (phys: nat)
      requires Space(root, t) && IsVa(v)
      ensures phys == match Translate(View(mem, t), v) case Unmapped => 0 case Mapped(a) => a
    {
      hide IsTree, IsSpace, Allocator.Used, Allocator.Valid;
      WalkIsTranslate(mem, root, t, v);
      var l4e := mem[root][v.i4];
      if !l4e.present {
        return 0;
      }
      var l3e := mem[l4e.frame][v.i3];
      if !l3e.present {
        return 0;
      }
      var l2e := mem[l3e.frame][v.i2];
      if !l2e.present {
        return 0;
      }
      if l2e.huge {
        return l2e.frame * 4096 + (v.i1 * 4096 + v.offset);
      }
      var l1e := mem[l2e.frame][v.i1];
      if !l1e.present {
        return 0;
      }
      return l1e.frame * 4096 + v.offset;
    }

    /** A mapping of `v` in progress: the space, whose tables were at `t0` in memory `before` with the
        frames `used` in use, translates as it did, and differs on the way to `v` only. */
    ghost predicate Mapping(root: nat, t0: Places, t: Places, v: Va, before: map<nat, Table>, used: set<nat>)
      requires forall p :: p in t0 ==> t0[p] in before
      reads this, pmm, pmm.bitmap
      ensures Mapping(root, t0, t, v, before, used) ==> forall p :: p in t ==> t[p] in mem
    {
      && Space(root, t) && SameSpace(View(before, t0), View(mem, t))
      && GrownBy(t0, t, v) && Fresh(t0, t, used) && pmm.Used() == used + t.Values
      && Kept(before, mem, used, OnPath(t, v)) && SameLeaves(t0, v, before, mem)
    }

    /** One level of the walk that `MapPage` makes. */
    method Descend(tf: nat, i: nat, user: bool, ghost root: nat, ghost t0: Places, ghost t: Places, ghost v: Va,
                   ghost p: Path, ghost before: map<nat, Table>, ghost used: set<nat>)
      returns (c: nat, ghost t': Places)
      requires (forall q :: q in t0 ==> t0[q] in before) && Mapping(root, t0, t, v, before, used)
      requires p in t && t[p] == tf && i < 512 && Level(p) < 3
      requires (p == Root && i == v.i4) || (p == P3(v) && i == v.i3) || (p == P2(v) && i == v.i2)
      modifies this`mem, pmm`usedFrames, pmm.bitmap
      ensures Mapping(root, t0, t', v, before, used)
      ensures c == 0 ==> Exhausted() && Down(p, i) !in t'
      ensures c != 0 ==> Down(p, i) in t' && t'[Down(p, i)] == c
      ensures Stepped(View(old(mem), t), View(mem, t'), p, i, user, c)
      ensures forall q :: q in t ==> q in t' && t'[q] == t[q]
    {
      hide IsTree, SameSpace, IsSpace, Allocator.Used, Allocator.Valid, Translate, OnPath, Kept, GrownBy, Fresh, Level,
           SameLeaves, Stepped;
      c, t' := GetOrCreate(tf, i, user, root, t, p);
      SameSpaceTrans(View(before, t0), View(old(mem), t), View(mem, t'));
      OnPathGrows(t, t', v, p);
      LevelsApart(v, p);
      LeavesStay(root, t0, t, v, old(pmm.Used()), p, before, old(mem), mem);
      KeptTrans(before, old(mem), mem, used, old(pmm.Used()), OnPath(t, v), {tf}, OnPath(t', v));
      GrownTrans(t0, t, t', v, used, Down(p, i), c);
    }

    lemma {:induction false} StartMapping(root: nat, t: Places, v: Va)
      requires Space(root, t)
      ensures Root in t && t[Root] == root
      ensures Mapping(root, t, t, v, mem, pmm.Used())
    {
      RootPlaced(mem, root, t);
      HeldValues(pmm.Used(), pmm.totalFrames, t);
    }

    /** The three steps down to the last-level table of page `v`; 0 when no frame is left for one. */
    method WalkDown(root: nat, v: Va, user: bool, ghost t: Places) returns (pt: nat, ghost t': Places)
      requires Space(root, t) && IsVa(v)
      modifies this`mem, pmm`usedFrames, pmm.bitmap
      ensures Mapping(root, t, t', v, old(mem), old(pmm.Used()))
      ensures pt != 0 ==> P1(v) in t' && t'[P1(v)] == pt && AllTheWay(View(old(mem), t), View(mem, t'), t', v, user)
      ensures pt == 0 ==> Exhausted() && PartWay(View(old(mem), t), View(mem, t'), t', v, user)
    {
      hide IsTree, SameSpace, IsSpace, Allocator.Used, Allocator.Valid, Held, Fresh, OnPath, Kept, SameLeaves, Stepped,
           AllTheWay, PartWay;
      Levels(v);
      StartMapping(root, t, v);
      ghost var a := View(mem, t);
      var pdpt: nat, pd: nat;
      pdpt, t' := Descend(root, v.i4, user, root, t, t, v, Root, old(mem), old(pmm.Used()));
      ghost var a1 := View(mem, t');
      if pdpt == 0 {
        FailedFirst(a, a1, t', v, user);
        return 0, t';
      }
      pd, t' := Descend(pdpt, v.i3, user, root, t, t', v, P3(v), old(mem), old(pmm.Used()));
      ghost var a2 := View(mem, t');
      if pd == 0 {
        FailedSecond(a, a1, a2, t', v, user);
        return 0, t';
      }
      pt, t' := Descend(pd, v.i2, user, root, t, t', v, P2(v), old(mem), old(pmm.Used()));
      ghost var a3 := View(mem, t');
      if pt == 0 {
        FailedThird(a, a1, a2, a3, t', v, user);
        return;
      }
      AllSteps(a, a1, a2, a3, t', v, user);
    }

    /** Maps one page. Afterwards it translates to the new frame and every other page as before; when
        no frame is left for a table, nothing translates differently. */
    method MapPage(root: nat, v: Va, frame: nat, flags: Word, ghost t: Places) returns (ok: bool, ghost t': Places)
      requires Space(root, t) && IsVa(v)
      modifies this`mem, pmm`usedFrames, pmm.bitmap
      ensures Space(root, t')
      ensures ok ==> P1(v) in t' && Remapped(View(old(mem), t), View(mem, t'), v, flags.(frame := frame))
      ensures ok ==> mem[t'[P1(v)]][v.i1] == flags.(frame := frame)
      ensures ok && P1(v) in t ==> mem[t'[P1(v)]] == old(mem)[t[P1(v)]][v.i1 := flags.(frame := frame)]
      ensures ok ==> Installed(View(old(mem), t), View(mem, t'), t', v, flags.(frame := frame))
      ensures !ok ==> SameSpace(View(old(mem), t), View(mem, t')) && Exhausted()
      ensures !ok ==> PartWay(View(old(mem), t), View(mem, t'), t', v, flags.user)
      ensures GrownBy(t, t', v) && Fresh(t, t', old(pmm.Used()))
      ensures pmm.Used() == old(pmm.Used()) + t'.Values
      ensures Kept(old(mem), mem, old(pmm.Used()), OnPath(t', v))
    {
      hide IsTree, SameSpace, IsSpace, Translate, Remapped, Allocator.Used, Allocator.Valid, Held, GrownBy, Fresh,
           OnPath, Kept, AllTheWay, Installed, PartWay, SetEntry;
      var pt: nat;
      pt, t' := WalkDown(root, v, flags.user, t);
      ok := false;
      if pt == 0 {
        return;
      }
      GrownKeeps(t, t', v);
      var e := flags.(frame := frame);
      ghost var mid := mem;
      mem := mem[pt := mem[pt][v.i1 := e]];
      LeafSpace(mid, root, t', v, e);
      RemappedAfter(View(old(mem), t), View(mid, t'), View(mem, t'), v, e);
      KeptLeaf(old(mem), mid, mem, old(pmm.Used()), t', v);
      LeafInstalled(View(old(mem), t), View(mid, t'), t', v, e);
      ok := true;
    }
  }
}
