/** Deep copies of user address spaces. */
module UserClone {
  import opened Pmm
  import opened PageTables
  import opened Vmm
  import opened UserSpaces

  /** A page of the lower half, as the address of its first byte. */
  predicate IsPage(v: Va) { IsVa(v) && v.offset == 0 && v.i4 < 256 }

  /** The small page `v` is mapped for user code. */
  predicate UserPage(a: Tables, v: Va)
    requires IsVa(v)
  {
    P1(v) in a && a[P1(v)][v.i1].present && a[P1(v)][v.i1].user
  }

  /** The frames that hold the copies, by page. */
  type Copies = map<Va, nat>

  // ---- the order of the walk ----

  /** Page `v` comes before the page with these indices. */
  predicate Before(v: Va, i4: nat, i3: nat, i2: nat, i1: nat) {
    v.i4 < i4 || (v.i4 == i4 && (v.i3 < i3 || (v.i3 == i3 && (v.i2 < i2 || (v.i2 == i2 && v.i1 < i1)))))
  }

  /** Exactly the user pages before this point have copies. */
  ghost predicate Progress(a: Tables, c: Copies, i4: nat, i3: nat, i2: nat, i1: nat) {
    && (forall v :: v in c ==> IsPage(v))
    && (forall v :: IsPage(v) ==> (v in c <==> UserPage(a, v) && Before(v, i4, i3, i2, i1)))
  }

  lemma {:induction false} PageDone(a: Tables, c: Copies, c': Copies, v: Va, f: nat)
    requires IsPage(v) && Progress(a, c, v.i4, v.i3, v.i2, v.i1)
    requires c' == if UserPage(a, v) then c[v := f] else c
    ensures Progress(a, c', v.i4, v.i3, v.i2, v.i1 + 1)
  {
  }

  /** The end of a table of pages, or one that is not there. */
  lemma {:induction false} TableDone(a: Tables, c: Copies, i4: nat, i3: nat, i2: nat, i1: nat)
    requires Progress(a, c, i4, i3, i2, i1)
    requires i1 >= 512 || Down(Down(Down(Root, i4), i3), i2) !in a
    ensures Progress(a, c, i4, i3, i2 + 1, 0)
  {
  }

  lemma {:induction false} DirectoryDone(a: Tables, c: Copies, i4: nat, i3: nat, i2: nat)
    requires IsTree(a) && Progress(a, c, i4, i3, i2, 0)
    requires i2 >= 512 || Down(Down(Root, i4), i3) !in a
    ensures Progress(a, c, i4, i3 + 1, 0, 0)
  {
  }

  lemma {:induction false} PointerTableDone(a: Tables, c: Copies, i4: nat, i3: nat)
    requires IsTree(a) && Progress(a, c, i4, i3, 0, 0)
    requires i3 >= 512 || Down(Root, i4) !in a
    ensures Progress(a, c, i4 + 1, 0, 0, 0)
  {
  }

  // ---- what has been copied ----

  /** How the copy translates: its user pages to the copies' frames, all else as `base` did. */
  ghost predicate Overlay(base: Tables, b: Tables, c: Copies) {
    forall w :: IsVa(w) ==>
      var v := w.(offset := 0);
      Translate(b, w) == if v in c then Mapped(c[v] * 4096 + w.offset) else Translate(base, w)
  }

  /** The permissions a copied page keeps. */
  function CopyFlags(e: Word): Word {
    Word(0, e.present, e.write, e.user, false, e.nx, 0, 0)
  }

  /** `words` are those of the frame that entry `e` holds, if it was in use. */
  ghost predicate CopyOf(e: Word, mem0: map<nat, Table>, used0: set<nat>, words: Table) {
    RawFrame(e) in used0 && RawFrame(e) in mem0 ==> words == mem0[RawFrame(e)]
  }

  /** Each copy holds the words of its page's frame, if that was in use when the cloning began. */
  ghost predicate SameContents(a: Tables, mem0: map<nat, Table>, used0: set<nat>, mem: map<nat, Table>, c: Copies) {
    forall v :: v in c ==> IsVa(v) && P1(v) in a && c[v] in mem && CopyOf(a[P1(v)][v.i1], mem0, used0, mem[c[v]])
  }

  ghost predicate DistinctFrames(c: Copies) {
    forall v, w :: v in c && w in c && v != w ==> c[v] != c[w]
  }

  lemma {:induction false} OverlayStep(base: Tables, b: Tables, b': Tables, c: Copies, v: Va, f: nat, e: Word)
    requires Overlay(base, b, c) && IsPage(v) && Remapped(b, b', v, e) && e.present && e.frame == f
    ensures Overlay(base, b', c[v := f])
  {
  }

  /** Each copy is mapped with its page's permissions. */
  ghost predicate SamePermissions(a: Tables, b: Tables, c: Copies) {
    forall v :: v in c ==>
      IsVa(v) && P1(v) in a && P1(v) in b && b[P1(v)][v.i1] == CopyFlags(a[P1(v)][v.i1]).(frame := c[v])
  }

  /** The two spaces of a cloning, and memory and allocator when it began; `base` is the new space then. */
  datatype Job = Job(src: nat, ts: Places, dst: nat, tk: Places, mem0: map<nat, Table>, used0: set<nat>, base: Tables)
  {
    ghost predicate Ok() { IsSpace(mem0, src, ts) && ts.Values <= used0 }

    /** The source's tables. */
    ghost function A(): Tables
      requires Ok()
    {
      View(mem0, ts)
    }
  }

  /** Every user page's frame can be read through the identity map. */
  ghost predicate Readable(a: Tables, total: nat) {
    forall v :: IsPage(v) && UserPage(a, v) ==> RawFrame(a[P1(v)][v.i1]) < total
  }

  /** A cloning under way, with the copies made so far. */
  ghost predicate Cloning(m: Machine, j: Job, td: Places, c: Copies)
    reads m, m.pmm, m.pmm.bitmap
    ensures Cloning(m, j, td, c) ==> j.Ok() && m.Space(j.dst, td)
  {
    && j.Ok() && Readable(j.A(), m.pmm.totalFrames)
    && Living(m, j.dst, td, j.tk, j.used0, c.Values)
    && Kept(j.mem0, m.mem, j.used0, {})
    && Overlay(j.base, View(m.mem, td), c) && SamePermissions(j.A(), View(m.mem, td), c)
    && SameContents(j.A(), j.mem0, j.used0, m.mem, c) && DistinctFrames(c)
  }

  /** Copies a frame's words. */
  method CopyFrame(m: Machine, r: nat, f: nat)
    requires m.Valid() && r in m.mem && f in m.mem
    modifies m`mem
    ensures m.Valid() && m.mem == old(m.mem)[f := old(m.mem)[r]]
  {
    var i := 0;
    while i < 512
      invariant 0 <= i <= 512 && m.Valid() && f in m.mem && m.mem == old(m.mem)[f := m.mem[f]]
      invariant forall k :: 0 <= k < i ==> m.mem[f][k] == old(m.mem)[r][k]
      invariant forall k :: i <= k < 512 ==> m.mem[f][k] == old(m.mem)[f][k]
    {
      m.mem := m.mem[f := m.mem[f][i := m.mem[r][i]]];
      i := i + 1;
    }
    assert m.mem[f] == old(m.mem)[r];
  }

  // ---- what one page adds ----

  lemma {:induction false} ValuesMore(c: Copies, v: Va, f: nat)
    requires v !in c
    ensures c[v := f].Values == c.Values + {f}
  {
    var d := c[v := f];
    forall x | x in c.Values ensures x in d.Values {
      var w :| w in c && c[w] == x;
      assert d[w] == x;
    }
    assert d[v] == f;
  }

  lemma {:induction false} DistinctMore(c: Copies, v: Va, f: nat)
    requires DistinctFrames(c) && f !in c.Values
    ensures DistinctFrames(c[v := f])
  {
  }

  lemma {:induction false} ContentsMore(a: Tables, mem0: map<nat, Table>, used0: set<nat>, mem: map<nat, Table>,
                                        mem': map<nat, Table>, c: Copies, v: Va, f: nat)
    requires SameContents(a, mem0, used0, mem, c) && IsVa(v) && P1(v) in a
    requires forall w :: w in c && w != v ==> c[w] in mem' && (c[w] in mem ==> mem'[c[w]] == mem[c[w]])
    requires f in mem' && CopyOf(a[P1(v)][v.i1], mem0, used0, mem'[f])
    ensures SameContents(a, mem0, used0, mem', c[v := f])
  {
  }

  /** Mapping page `v` leaves the entries of other pages alone. */
  lemma {:induction false} EntryKept(mem: map<nat, Table>, mem': map<nat, Table>, t: Places, t': Places, used: set<nat>,
                                     v: Va, e: Word, w: Va)
    requires forall p :: p in t ==> t[p] in mem && t[p] in used && p in t' && t'[p] == t[p]
    requires forall p :: p in t' ==> t'[p] in mem'
    requires Kept(mem, mem', used, OnPath(t', v)) && P1(v) in t'
    requires IsVa(v) && IsVa(w) && w != v && w.offset == v.offset && P1(w) in t
    requires P1(v) in t ==> mem'[t'[P1(v)]] == mem[t[P1(v)]][v.i1 := e]
    requires P1(w) != P1(v) ==> t'[P1(w)] !in OnPath(t', v)
    ensures mem'[t'[P1(w)]][w.i1] == mem[t[P1(w)]][w.i1]
  {
  }

  lemma {:induction false} LevelOf(w: Va)
    ensures Level(P1(w)) == 3
  {
    Levels(w);
  }

  lemma {:induction false} OffPath(mem: map<nat, Table>, root: nat, t: Places, v: Va, p: Path)
    requires IsSpace(mem, root, t) && p in t && p != P1(v) && Level(p) == 3
    ensures t[p] !in OnPath(t, v)
  {
  }

  lemma {:induction false} PermissionsMore(a: Tables, mem: map<nat, Table>, mem': map<nat, Table>, root: nat, t: Places,
                                           t': Places, used: set<nat>, c: Copies, v: Va, f: nat)
    requires IsSpace(mem, root, t) && IsSpace(mem', root, t') && GrownBy(t, t', v) && IsVa(v) && P1(v) in a
    requires P1(v) in t'
    requires SamePermissions(a, View(mem, t), c) && (forall p :: p in t ==> t[p] in used)
    requires Kept(mem, mem', used, OnPath(t', v))
    requires mem'[t'[P1(v)]][v.i1] == CopyFlags(a[P1(v)][v.i1]).(frame := f)
    requires P1(v) in t ==> mem'[t'[P1(v)]] == mem[t[P1(v)]][v.i1 := CopyFlags(a[P1(v)][v.i1]).(frame := f)]
    requires forall w :: w in c ==> w.offset == v.offset
    ensures SamePermissions(a, View(mem', t'), c[v := f])
  {
    hide IsTree, IsSpace, OnPath, Level, Kept, GrownBy;
    GrownKeeps(t, t', v);
    var d := c[v := f];
    forall w | w in d
      ensures IsVa(w) && P1(w) in a && P1(w) in t' && mem'[t'[P1(w)]][w.i1] == CopyFlags(a[P1(w)][w.i1]).(frame := d[w])
    {
      if w != v {
        assert P1(w) in t;
        if P1(w) != P1(v) {
          LevelOf(w);
          OffPath(mem', root, t', v, P1(w));
        }
        EntryKept(mem, mem', t, t', used, v, CopyFlags(a[P1(v)][v.i1]).(frame := f), w);
      }
    }
  }

  lemma {:induction false} WroteOne(mem: map<nat, Table>, mem': map<nat, Table>, used: set<nat>, f: nat)
    requires f in mem' && mem' == mem[f := mem'[f]]
    ensures Kept(mem, mem', used, {f})
  {
  }

  lemma {:induction false} LeafIsNoTable(t: Places, tk: Places, used: set<nat>, leaves: set<nat>, f: nat)
    requires f in leaves && OwnFrames(t) !! leaves && leaves !! used && tk.Values <= used
    requires forall p :: p in t && Foreign(p, UPPER) ==> t[p] in tk.Values
    ensures {f} !! t.Values && {f} !! tk.Values
  {
  }

  /** Copies a frame's words into one the owner took; the space does not notice. */
  method CopyInto(m: Machine, r: nat, f: nat, ghost root: nat, ghost t: Places, ghost tk: Places, ghost used: set<nat>,
                  ghost leaves: set<nat>)
    requires Living(m, root, t, tk, used, leaves) && f in leaves && r < m.pmm.totalFrames && f < m.pmm.totalFrames
    modifies m`mem
    ensures Living(m, root, t, tk, used, leaves) && r in old(m.mem) && m.mem == old(m.mem)[f := old(m.mem)[r]]
    ensures View(m.mem, t) == View(old(m.mem), t)
  {
    hide IsTree, IsSpace, Allocator.Used, Allocator.Valid, OwnFrames, Foreign;
    LeafIsNoTable(t, tk, used, leaves, f);
    HeldValues(m.pmm.Used(), m.pmm.totalFrames, t);
    HeldValues(m.pmm.Used(), m.pmm.totalFrames, tk);
    CopyFrame(m, r, f);
    WroteOne(old(m.mem), m.mem, m.pmm.Used(), f);
    SpaceKept(old(m.mem), m.mem, root, t, m.pmm.Used(), {f});
    SpaceKept(old(m.mem), m.mem, m.kernelRoot, tk, m.pmm.Used(), {f});
  }

  /** At most frame `spare` is free. */
  ghost predicate NearlyFull(m: Machine, spare: nat)
    requires m.pmm.Shape()
    reads m.pmm, m.pmm.bitmap
  {
    forall f :: 1 <= f < m.pmm.totalFrames && f != spare ==> f in m.pmm.Used()
  }

  lemma {:induction false} HeldWithout(used: set<nat>, total: nat, t: Places, f: nat)
    requires Held(used, total, t) && {f} !! t.Values
    ensures Held(used - {f}, total, t)
  {
  }

  /** The owner gives back a frame it took. */
  method LiveGive(m: Machine, f: nat, ghost root: nat, ghost t: Places, ghost tk: Places, ghost used: set<nat>,
                  ghost leaves: set<nat>)
    requires Living(m, root, t, tk, used, leaves + {f}) && f !in leaves && 1 <= f < m.pmm.totalFrames
    modifies m.pmm`usedFrames, m.pmm.bitmap
    ensures Living(m, root, t, tk, used, leaves) && m.pmm.Used() == old(m.pmm.Used()) - {f}
  {
    hide IsTree, IsSpace, Allocator.Used, Allocator.Valid, OwnFrames, Foreign;
    LeafIsNoTable(t, tk, used, leaves + {f}, f);
    HeldWithout(m.pmm.Used(), m.pmm.totalFrames, t, f);
    HeldWithout(m.pmm.Used(), m.pmm.totalFrames, tk, f);
    m.pmm.FreeFrame(f * PAGE_SIZE);
  }

  /** What mapping a copy of page `v` at frame `f` has done to the new space. */
  ghost predicate CopyMapped(mem: map<nat, Table>, mem': map<nat, Table>, t: Places, t': Places, used: set<nat>, v: Va,
                             e: Word)
    requires (forall p :: p in t ==> t[p] in mem) && (forall p :: p in t' ==> t'[p] in mem') && IsVa(v)
  {
    && P1(v) in t' && Remapped(View(mem, t), View(mem', t'), v, e)
    && mem'[t'[P1(v)]][v.i1] == e
    && (P1(v) in t ==> mem'[t'[P1(v)]] == mem[t[P1(v)]][v.i1 := e])
    && GrownBy(t, t', v) && Kept(mem, mem', used, OnPath(t', v)) && OnPath(t', v) <= OwnFrames(t')
  }

  lemma {:induction false} KeptLess(mem: map<nat, Table>, mem': map<nat, Table>, used: set<nat>, used': set<nat>,
                                    x: set<nat>)
    requires Kept(mem, mem', used', x) && used <= used'
    ensures Kept(mem, mem', used, x)
  {
  }

  lemma {:induction false} NoMapping(mem: map<nat, Table>, used: set<nat>, t: Places, v: Va)
    requires v.i4 < 256
    ensures Kept(mem, mem, used, OnPath(t, v)) && OnPath(t, v) <= OwnFrames(t)
  {
    Tops(v);
  }

  lemma {:induction false} HeldMoreSpaces(total: nat, t: Places, tk: Places, used: set<nat>)
    requires Held(used, total, t) && Held(used, total, tk)
    ensures forall more: set<nat> :: Held(used + more, total, t) && Held(used + more, total, tk)
  {
  }

  /** A frame for the copy of one page, mapped there; 0 when there are not enough frames. */
  method MapCopy(m: Machine, dst: nat, v: Va, e: Word, ghost j: Job, ghost td: Places, ghost leaves: set<nat>)
    returns (f: nat, ghost td': Places, ghost spare: nat)
    requires dst == j.dst && Living(m, dst, td, j.tk, j.used0, leaves) && IsPage(v)
    modifies m`mem, m.pmm`usedFrames, m.pmm.bitmap
    ensures f == 0 ==> Living(m, j.dst, td', j.tk, j.used0, leaves) && NearlyFull(m, spare)
    ensures f == 0 ==> Kept(old(m.mem), m.mem, old(m.pmm.Used()), OnPath(td', v)) && OnPath(td', v) <= OwnFrames(td')
    ensures f != 0 ==> Living(m, j.dst, td', j.tk, j.used0, leaves + {f}) && f !in leaves && 1 <= f < m.pmm.totalFrames
    ensures f != 0 ==> CopyMapped(old(m.mem), m.mem, td, td', old(m.pmm.Used()), v, CopyFlags(e).(frame := f))
  {
    hide IsTree, IsSpace, Translate, Remapped, Allocator.Used, Allocator.Valid, OwnFrames, Foreign, GrownBy, Kept,
         OnPath, Held;
    td', spare := td, 0;
    ghost var used := m.pmm.Used();
    NoMapping(m.mem, used, td, v);
    HeldMoreSpaces(m.pmm.totalFrames, td, j.tk, used);
    var phys := m.pmm.AllocFrame();
    if phys == 0 {
      return 0, td', spare;
    }
    f := phys / PAGE_SIZE;
    assert Living(m, j.dst, td, j.tk, j.used0, leaves + {f});
    var ok;
    ok, td' := LiveMap(m, dst, v, f, CopyFlags(e), td, j.tk, j.used0, leaves + {f});
    KeptLess(old(m.mem), m.mem, used, used + {f}, OnPath(td', v));
    if !ok {
      LiveGive(m, f, j.dst, td', j.tk, j.used0, leaves);
      spare := f;
      return 0, td', spare;
    }
  }

  lemma {:induction false} CloningFacts(m: Machine, j: Job, td: Places, c: Copies)
    requires Cloning(m, j, td, c)
    ensures Living(m, j.dst, td, j.tk, j.used0, c.Values) && Kept(j.mem0, m.mem, j.used0, {})
    ensures j.used0 + c.Values <= m.pmm.Used() && forall p :: p in td ==> td[p] in m.pmm.Used()
  {
  }

  lemma {:induction false} KeptOwn(m: Machine, j: Job, td: Places, leaves: set<nat>, mem1: map<nat, Table>,
                                   used1: set<nat>, v: Va)
    requires Living(m, j.dst, td, j.tk, j.used0, leaves) && Kept(j.mem0, mem1, j.used0, {})
    requires Kept(mem1, m.mem, used1, OnPath(td, v)) && OnPath(td, v) <= OwnFrames(td) && j.used0 <= used1
    ensures Kept(j.mem0, m.mem, j.used0, {})
  {
    hide OwnFrames, OnPath, Foreign;
  }

  lemma {:induction false} UserPagePresent(a: Tables, v: Va)
    requires IsVa(v) && UserPage(a, v)
    ensures P1(v) in a && a[P1(v)][v.i1].present
  {
  }

  lemma {:induction false} StepKept(a: map<nat, Table>, b: map<nat, Table>, c: map<nat, Table>, u: set<nat>,
                                    w: set<nat>, x: set<nat>)
    requires Kept(a, b, u, {}) && Kept(b, c, w, x) && u <= w && x !! u
    ensures Kept(a, c, u, {})
  {
  }

  lemma {:induction false} KeptWrite(a: map<nat, Table>, b: map<nat, Table>, c: map<nat, Table>, u: set<nat>, f: nat)
    requires Kept(a, b, u, {}) && f !in u && f in c && c == b[f := c[f]]
    ensures Kept(a, c, u, {})
  {
  }

  lemma {:induction false} CopiesStay(mem1: map<nat, Table>, mem2: map<nat, Table>, mem3: map<nat, Table>,
                                      used1: set<nat>, x: set<nat>, c: Copies, f: nat, v: Va, a: Tables,
                                      mem0: map<nat, Table>, used0: set<nat>)
    requires SameContents(a, mem0, used0, mem1, c) && Kept(mem1, mem2, used1, x) && c.Values <= used1 && x !! c.Values
    requires f !in c.Values && f in mem3 && mem3 == mem2[f := mem3[f]]
    ensures forall w :: w in c && w != v ==> c[w] in mem3 && (c[w] in mem1 ==> mem3[c[w]] == mem1[c[w]])
  {
  }

  lemma {:induction false} CopyIsOf(e: Word, mem0: map<nat, Table>, used0: set<nat>, mem2: map<nat, Table>,
                                    words: Table)
    requires Kept(mem0, mem2, used0, {}) && RawFrame(e) in mem2 && words == mem2[RawFrame(e)]
    ensures CopyOf(e, mem0, used0, words)
  {
  }

  /** All that a cloning promises, with one page more. */
  lemma {:induction false} CopyMade(m: Machine, j: Job, td: Places, td': Places, c: Copies, v: Va, f: nat,
                                    mem1: map<nat, Table>, mem2: map<nat, Table>, used1: set<nat>)
    requires j.Ok() && IsSpace(mem1, j.dst, td) && IsSpace(mem2, j.dst, td') && IsPage(v) && v !in c
    requires UserPage(j.A(), v) && (forall w :: w in c ==> IsPage(w)) && Readable(j.A(), m.pmm.totalFrames)
    requires Kept(j.mem0, mem1, j.used0, {}) && Overlay(j.base, View(mem1, td), c)
    requires SamePermissions(j.A(), View(mem1, td), c) && SameContents(j.A(), j.mem0, j.used0, mem1, c)
    requires DistinctFrames(c)
    requires forall p :: p in td ==> td[p] in used1
    requires CopyMapped(mem1, mem2, td, td', used1, v, CopyFlags(j.A()[P1(v)][v.i1]).(frame := f))
    requires f !in c.Values && j.used0 + c.Values <= used1
    requires Living(m, j.dst, td', j.tk, j.used0, c.Values + {f}) && c[v := f].Values == c.Values + {f}
    requires RawFrame(j.A()[P1(v)][v.i1]) in mem2 && m.mem == mem2[f := mem2[RawFrame(j.A()[P1(v)][v.i1])]]
    requires View(m.mem, td') == View(mem2, td')
    ensures Cloning(m, j, td', c[v := f])
  {
    hide IsTree, IsSpace, Translate, Remapped, Allocator.Used, Allocator.Valid, OwnFrames, Foreign, GrownBy, Kept,
         OnPath, Overlay, SamePermissions, SameContents, DistinctFrames, Living, RawFrame, UserPage, CopyOf, Readable,
         View;
    LivingFacts(m, j.dst, td', j.tk, j.used0, c.Values + {f});
    UserPagePresent(j.A(), v);
    var e := CopyFlags(j.A()[P1(v)][v.i1]).(frame := f);
    OverlayStep(j.base, View(mem1, td), View(mem2, td'), c, v, f, e);
    PermissionsMore(j.A(), mem1, mem2, j.dst, td, td', used1, c, v, f);
    DistinctMore(c, v, f);
    StepKept(j.mem0, mem1, mem2, j.used0, used1, OnPath(td', v));
    KeptWrite(j.mem0, mem2, m.mem, j.used0, f);
    CopiesStay(mem1, mem2, m.mem, used1, OnPath(td', v), c, f, v, j.A(), j.mem0, j.used0);
    CopyIsOf(j.A()[P1(v)][v.i1], j.mem0, j.used0, mem2, m.mem[f]);
    ContentsMore(j.A(), j.mem0, j.used0, mem1, m.mem, c, v, f);
  }

  /** Copies one user page of the source. */
  method CopyPage(m: Machine, dst: nat, v: Va, e: Word, ghost j: Job, ghost td: Places, ghost c: Copies)
    returns (ok: bool, ghost td': Places, ghost c': Copies, ghost f: nat, ghost spare: nat)
    requires dst == j.dst && Cloning(m, j, td, c) && IsPage(v) && v !in c && (forall w :: w in c ==> IsPage(w))
    requires UserPage(j.A(), v) && e == j.A()[P1(v)][v.i1]
    modifies m`mem, m.pmm`usedFrames, m.pmm.bitmap
    ensures ok ==> Cloning(m, j, td', c') && c' == c[v := f]
    ensures !ok ==> Living(m, j.dst, td', j.tk, j.used0, c.Values) && NearlyFull(m, spare)
    ensures !ok ==> Kept(j.mem0, m.mem, j.used0, {})
  {
    hide IsTree, IsSpace, Translate, Remapped, Allocator.Used, Allocator.Valid, OwnFrames, Foreign, GrownBy, Kept,
         OnPath, Overlay, SamePermissions, SameContents, DistinctFrames, Living, CopyMapped, RawFrame;
    c' := c;
    ghost var mem1, used1 := m.mem, m.pmm.Used();
    ghost var r := RawFrame(e);
    CloningFacts(m, j, td, c);
    var frame: nat;
    frame, td', spare := MapCopy(m, dst, v, e, j, td, c.Values);
    f := frame;
    ok := frame != 0;
    if !ok {
      KeptOwn(m, j, td', c.Values, mem1, used1, v);
      return;
    }
    ghost var mem2 := m.mem;
    LivingFacts(m, j.dst, td', j.tk, j.used0, c.Values + {frame});
    CopyInto(m, RawFrame(e), frame, j.dst, td', j.tk, j.used0, c.Values + {frame});
    ValuesMore(c, v, f);
    c' := c[v := f];
    CopyMade(m, j, td, td', c, v, f, mem1, mem2, used1);
  }

  // ---- the walk over the source ----

  /** The source's tables read as they did. */
  lemma {:induction false} SourceRead(m: Machine, j: Job, td: Places, c: Copies, p: Path)
    requires Cloning(m, j, td, c) && p in j.ts
    ensures j.ts[p] in m.mem && p in j.A() && m.mem[j.ts[p]] == j.A()[p]
  {
    assert j.ts[p] in j.ts.Values;
  }

  /** `c` are copies of some of the user pages of `a`, in distinct frames. */
  ghost predicate Partial(a: Tables, c: Copies) {
    DistinctFrames(c) && forall v :: v in c ==> IsPage(v) && UserPage(a, v)
  }

  lemma {:induction false} PartialSoFar(m: Machine, j: Job, td: Places, c: Copies, i4: nat, i3: nat, i2: nat, i1: nat)
    requires Cloning(m, j, td, c) && Progress(j.A(), c, i4, i3, i2, i1)
    ensures Partial(j.A(), c)
  {
    hide UserPage, Living, Kept, Overlay, SamePermissions, SameContents, DistinctFrames, Before;
  }

  /** The outcome of cloning a part: all of it copied, or frames ran out. */
  ghost predicate PartDone(m: Machine, j: Job, ok: bool, td: Places, c: Copies, spare: nat)
    reads m, m.pmm, m.pmm.bitmap
  {
    if ok then Cloning(m, j, td, c)
    else
      Living(m, j.dst, td, j.tk, j.used0, c.Values) && NearlyFull(m, spare) && Kept(j.mem0, m.mem, j.used0, {}) &&
      j.Ok() && Partial(j.A(), c)
  }

  lemma {:induction false} ProgressFacts(a: Tables, c: Copies, v: Va)
    requires IsPage(v) && Progress(a, c, v.i4, v.i3, v.i2, v.i1)
    ensures v !in c && forall w :: w in c ==> IsPage(w)
  {
  }

  method CloneTable(m: Machine, dst: nat, pt: nat, i4: nat, i3: nat, i2: nat, ghost j: Job, ghost td: Places,
                    ghost c: Copies)
    returns (ok: bool, ghost td': Places, ghost c': Copies, ghost spare: nat)
    requires dst == j.dst && Cloning(m, j, td, c) && i4 < 256 && i3 < 512 && i2 < 512
    requires Progress(j.A(), c, i4, i3, i2, 0)
    requires var p := Down(Down(Down(Root, i4), i3), i2); p in j.ts && j.ts[p] == pt
    modifies m`mem, m.pmm`usedFrames, m.pmm.bitmap
    ensures PartDone(m, j, ok, td', c', spare)
    ensures ok ==> Progress(j.A(), c', i4, i3, i2 + 1, 0)
  {
    hide IsTree, IsSpace, Translate, Allocator.Used, Allocator.Valid, Progress, Living, Cloning, Kept, NearlyFull,
         Job.Ok, Job.A, Partial;
    td', c', spare := td, c, 0;
    ghost var a := j.A();
    ghost var p := Down(Down(Down(Root, i4), i3), i2);
    var i1 := 0;
    while i1 < 512
      invariant 0 <= i1 <= 512 && Cloning(m, j, td', c') && j.A() == a && Progress(a, c', i4, i3, i2, i1)
    {
      SourceRead(m, j, td', c', p);
      var v := Va(i4, i3, i2, i1, 0);
      var pte := m.mem[pt][i1];
      ProgressFacts(a, c', v);
      if pte.present && pte.user {
        ghost var f: nat;
        ghost var before := c';
        PartialSoFar(m, j, td', c', i4, i3, i2, i1);
        ok, td', c', f, spare := CopyPage(m, dst, v, pte, j, td', c');
        if !ok {
          c' := before;
          return;
        }
        PageDone(a, before, c', v, f);
      } else {
        PageDone(a, c', c', v, 0);
      }
      i1 := i1 + 1;
    }
    TableDone(a, c', i4, i3, i2, i1);
    ok := true;
  }

  /** Which entries of a source table lead on. */
  lemma {:induction false} SourceLink(m: Machine, j: Job, td: Places, c: Copies, p: Path, i: nat)
    requires Cloning(m, j, td, c) && p in j.ts && Level(p) < 3 && i < 512
    ensures j.ts[p] in m.mem && p in j.A()
    ensures Down(p, i) in j.ts <==> IsLink(m.mem[j.ts[p]][i])
    ensures Down(p, i) in j.ts ==> j.ts[Down(p, i)] == RawFrame(m.mem[j.ts[p]][i])
    ensures Down(p, i) in j.A() <==> Down(p, i) in j.ts
    ensures IsTree(j.A())
  {
    hide IsTree, Living;
    SourceRead(m, j, td, c, p);
    LinkedOrNot(j.mem0, j.src, j.ts, p, i);
    SpaceTree(j.mem0, j.src, j.ts);
  }

  lemma {:induction false} LevelTwo(i4: nat, i3: nat)
    ensures Level(Root) == 0 && Level(Down(Root, i4)) == 1 && Level(Down(Down(Root, i4), i3)) == 2
  {
  }

  method CloneDirectory(m: Machine, dst: nat, pd: nat, i4: nat, i3: nat, ghost j: Job, ghost td: Places,
                        ghost c: Copies)
    returns (ok: bool, ghost td': Places, ghost c': Copies, ghost spare: nat)
    requires dst == j.dst && Cloning(m, j, td, c) && i4 < 256 && i3 < 512
    requires Progress(j.A(), c, i4, i3, 0, 0)
    requires var p := Down(Down(Root, i4), i3); p in j.ts && j.ts[p] == pd
    modifies m`mem, m.pmm`usedFrames, m.pmm.bitmap
    ensures PartDone(m, j, ok, td', c', spare)
    ensures ok ==> Progress(j.A(), c', i4, i3 + 1, 0, 0)
  {
    hide IsTree, IsSpace, Translate, Allocator.Used, Allocator.Valid, Progress, Living, Cloning, Kept, NearlyFull,
         Job.Ok, Job.A, RawFrame, Level, Partial;
    td', c', spare := td, c, 0;
    ghost var a := j.A();
    ghost var p := Down(Down(Root, i4), i3);
    LevelTwo(i4, i3);
    var i2 := 0;
    while i2 < 512
      invariant 0 <= i2 <= 512 && Cloning(m, j, td', c') && j.A() == a && Progress(a, c', i4, i3, i2, 0)
    {
      SourceLink(m, j, td', c', p, i2);
      var pde := m.mem[pd][i2];
      if pde.present && !pde.huge {
        ok, td', c', spare := CloneTable(m, dst, RawFrame(pde), i4, i3, i2, j, td', c');
        if !ok {
          return;
        }
      } else {
        TableDone(a, c', i4, i3, i2, 0);
      }
      i2 := i2 + 1;
    }
    SourceLink(m, j, td', c', p, 0);
    DirectoryDone(a, c', i4, i3, i2);
    ok := true;
  }

  method ClonePointers(m: Machine, dst: nat, pdpt: nat, i4: nat, ghost j: Job, ghost td: Places, ghost c: Copies)
    returns (ok: bool, ghost td': Places, ghost c': Copies, ghost spare: nat)
    requires dst == j.dst && Cloning(m, j, td, c) && i4 < 256
    requires Progress(j.A(), c, i4, 0, 0, 0)
    requires Down(Root, i4) in j.ts && j.ts[Down(Root, i4)] == pdpt
    modifies m`mem, m.pmm`usedFrames, m.pmm.bitmap
    ensures PartDone(m, j, ok, td', c', spare)
    ensures ok ==> Progress(j.A(), c', i4 + 1, 0, 0, 0)
  {
    hide IsTree, IsSpace, Translate, Allocator.Used, Allocator.Valid, Progress, Living, Cloning, Kept, NearlyFull,
         Job.Ok, Job.A, RawFrame, Level, Partial;
    td', c', spare := td, c, 0;
    ghost var a := j.A();
    LevelTwo(i4, 0);
    var i3 := 0;
    while i3 < 512
      invariant 0 <= i3 <= 512 && Cloning(m, j, td', c') && j.A() == a && Progress(a, c', i4, i3, 0, 0)
    {
      SourceLink(m, j, td', c', Down(Root, i4), i3);
      var pdpte := m.mem[pdpt][i3];
      if pdpte.present && !pdpte.huge {
        ok, td', c', spare := CloneDirectory(m, dst, RawFrame(pdpte), i4, i3, j, td', c');
        if !ok {
          return;
        }
      } else {
        DirectoryDone(a, c', i4, i3, 0);
      }
      i3 := i3 + 1;
    }
    SourceLink(m, j, td', c', Down(Root, i4), 0);
    PointerTableDone(a, c', i4, i3);
    ok := true;
  }

  method CloneRoot(m: Machine, dst: nat, src: nat, ghost j: Job, ghost td: Places, ghost c: Copies)
    returns (ok: bool, ghost td': Places, ghost c': Copies, ghost spare: nat)
    requires dst == j.dst && src == j.src && Cloning(m, j, td, c) && Progress(j.A(), c, 0, 0, 0, 0)
    modifies m`mem, m.pmm`usedFrames, m.pmm.bitmap
    ensures PartDone(m, j, ok, td', c', spare)
    ensures ok ==> Progress(j.A(), c', 256, 0, 0, 0)
  {
    hide IsTree, IsSpace, Translate, Allocator.Used, Allocator.Valid, Progress, Living, Cloning, Kept, NearlyFull,
         Job.A, RawFrame, Level, Partial;
    td', c', spare := td, c, 0;
    ghost var a := j.A();
    RootPlaced(j.mem0, j.src, j.ts);
    LevelTwo(0, 0);
    var i4 := 0;
    while i4 < 256
      invariant 0 <= i4 <= 256 && Cloning(m, j, td', c') && j.A() == a && Progress(a, c', i4, 0, 0, 0)
    {
      SourceLink(m, j, td', c', Root, i4);
      var pml4e := m.mem[src][i4];
      if pml4e.present && !pml4e.huge {
        ok, td', c', spare := ClonePointers(m, dst, RawFrame(pml4e), i4, j, td', c');
        if !ok {
          return;
        }
      } else {
        PointerTableDone(a, c', i4, 0);
      }
      i4 := i4 + 1;
    }
    ok := true;
  }

  /** What a finished clone is: exactly the source's user pages have copies, in distinct frames that were
      free, with the same permissions and words; the new space translates these pages to the copies and
      everything else as a new space does; memory that was in use is as it was. */
  ghost predicate Cloned(a: Tables, mem0: map<nat, Table>, used0: set<nat>, base: Tables, mem: map<nat, Table>,
                         b: Tables, c: Copies)
  {
    && (forall v :: v in c ==> IsPage(v))
    && (forall v :: IsPage(v) ==> (v in c <==> UserPage(a, v)))
    && DistinctFrames(c) && c.Values !! used0
    && Overlay(base, b, c) && SamePermissions(a, b, c) && SameContents(a, mem0, used0, mem, c)
    && Kept(mem0, mem, used0, {})
  }

  lemma {:induction false} CloningStarts(m: Machine, j: Job, td: Places)
    requires j.Ok() && Readable(j.A(), m.pmm.totalFrames) && Living(m, j.dst, td, j.tk, j.used0, {})
    requires Kept(j.mem0, m.mem, j.used0, {}) && (forall p :: p in td ==> td[p] in m.mem) && j.base == View(m.mem, td)
    ensures Cloning(m, j, td, map[]) && Progress(j.A(), map[], 0, 0, 0, 0)
  {
    hide IsTree, IsSpace, Translate, Living, Kept, Readable, UserPage;
    var c: Copies := map[];
    assert c.Values == {};
  }

  lemma {:induction false} CloningEnds(m: Machine, j: Job, td: Places, c: Copies)
    requires Cloning(m, j, td, c) && Progress(j.A(), c, 256, 0, 0, 0)
    ensures Cloned(j.A(), j.mem0, j.used0, j.base, m.mem, View(m.mem, td), c)
    ensures m.Valid() && m.pmm.Used() == j.used0 + c.Values + OwnFrames(td) && Kept(j.mem0, m.mem, j.used0, {})
  {
    hide IsTree, IsSpace, Translate, Kept, Readable, UserPage, Overlay, SamePermissions, SameContents, DistinctFrames;
  }

  /** Copies the user pages of a space into a new one. When frames run out the new space is torn down and
      0 returned; the frames already copied to stay taken. */
  method CloneUserSpace(m: Machine, src: nat, ghost ts: Places, ghost tk: Places)
    returns (dst: nat, ghost td: Places, ghost c: Copies, ghost base: Tables, ghost complete: bool, ghost spare: nat)
    requires m.Space(m.kernelRoot, tk)
    requires src != 0 ==> m.Space(src, ts) && Readable(View(m.mem, ts), m.pmm.totalFrames)
    modifies m`mem, m.pmm`usedFrames, m.pmm.bitmap
    ensures m.Valid() && Kept(old(m.mem), m.mem, old(m.pmm.Used()), {})
    // a failure keeps nothing but the frames of pages already copied
    ensures dst == 0 ==> c.Values !! old(m.pmm.Used()) && m.pmm.Used() == old(m.pmm.Used()) + c.Values
    ensures dst == 0 ==> c == map[] || (src != 0 && Partial(View(old(m.mem), ts), c))
    // it fails only when, besides the tables torn down again, at most one frame was left
    ensures dst == 0 ==> forall f :: 1 <= f < m.pmm.totalFrames && f != spare ==> f in m.pmm.Used() + OwnFrames(td)
    ensures dst != 0 ==> m.Space(dst, td) && m.pmm.Used() == old(m.pmm.Used()) + c.Values + OwnFrames(td)
    ensures complete ==> FreshSpace(base, View(old(m.mem), tk))
    ensures complete <==> CanHave(old(m.pmm.Used()), m.pmm.totalFrames, 3)
    ensures dst != 0 && !complete ==> forall v :: IsVa(v) ==> Translate(base, v) == Unmapped
    ensures dst != 0 && src != 0 ==>
      Cloned(View(old(m.mem), ts), old(m.mem), old(m.pmm.Used()), base, m.mem, View(m.mem, td), c)
    ensures dst != 0 && src == 0 ==> c == map[] && View(m.mem, td) == base
  {
    hide IsTree, IsSpace, Translate, Allocator.Used, Allocator.Valid, Progress, Living, Cloning, Kept, Cloned, CanHave,
         Overlay, SamePermissions, SameContents, DistinctFrames, OwnFrames, FreshSpace, Readable, SharesUpper, Held,
         Foreign, Partial;
    c, base, spare := map[], map[], 0;
    ghost var mem0, used0 := m.mem, m.pmm.Used();
    HeldValues(used0, m.pmm.totalFrames, tk);
    dst, td, complete := CreateUserSpace(m, tk);
    if dst == 0 {
      OwnFramesSmall(0);
      return;
    }
    base := View(m.mem, td);
    if src == 0 {
      return;
    }
    HeldValues(used0, m.pmm.totalFrames, ts);
    Born(m, dst, td, tk, used0, complete);
    ghost var j := Job(src, ts, dst, tk, mem0, used0, base);
    CloningStarts(m, j, td);
    var ok: bool;
    ok, td, c, spare := CloneRoot(m, dst, src, j, td, c);
    if !ok {
      LivingFacts(m, dst, td, tk, used0, c.Values);
      DestroyUserSpace(m, dst, td);
      dst := 0;
      return;
    }
    CloningEnds(m, j, td, c);
  }
}
