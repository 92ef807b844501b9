/** User address spaces: creation, activation and teardown. */
module UserSpaces {
  import opened Pmm
  import opened PageTables
  import opened Vmm

  /** The root entries of the kernel's half. */
  ghost const UPPER: set<nat> := set i | 256 <= i < 512

  /** The places of a space that takes the root entries `s` from another. */
  ghost function CombinePlaces(ta: Places, tk: Places, s: set<nat>): Places {
    map p | p in ta.Keys + tk.Keys && (if Foreign(p, s) then p in tk else p in ta) ::
      if Foreign(p, s) then tk[p] else ta[p]
  }

  /** The tables `ta` keeps are at other frames than those it takes from `tk`. */
  ghost predicate Apart(ta: Places, tk: Places, s: set<nat>) {
    forall p, q :: p in ta && !Foreign(p, s) && q in tk && Foreign(q, s) ==> ta[p] != tk[q]
  }

  lemma {:induction false} CombineKeys(a: Tables, k: Tables, ta: Places, tk: Places, s: set<nat>)
    requires a.Keys == ta.Keys && k.Keys == tk.Keys && Root in a && Root in k
    ensures Combine(a, k, s).Keys == CombinePlaces(ta, tk, s).Keys
  {
  }

  lemma {:induction false} CombineViewRoot(mem: map<nat, Table>, ra: nat, ta: Places, rk: nat, tk: Places, s: set<nat>,
                                           mem': map<nat, Table>)
    requires IsSpace(mem, ra, ta) && IsSpace(mem, rk, tk) && Root in ta && Root in tk
    requires ra in mem && rk in mem && ra in mem'
    requires forall i :: 0 <= i < 512 ==> mem'[ra][i] == if i in s then mem[rk][i] else mem[ra][i]
    ensures var t, c := CombinePlaces(ta, tk, s), Combine(View(mem, ta), View(mem, tk), s);
            Root in t && t[Root] == ra && Root in c && mem'[ra] == c[Root]
  {
    hide IsTree, Top;
    assert !Foreign(Root, s);
    var c := Combine(View(mem, ta), View(mem, tk), s);
    assert View(mem, ta)[Root] == mem[ra] && View(mem, tk)[Root] == mem[rk];
    assert mem'[ra] == c[Root];
  }

  /** A place below the root is at another frame than the root. */
  lemma {:induction false} CombinedApart(mem: map<nat, Table>, ra: nat, ta: Places, tk: Places, s: set<nat>, p: Path)
    requires IsSpace(mem, ra, ta) && Apart(ta, tk, s) && Root in ta && p in CombinePlaces(ta, tk, s) && p != Root
    ensures CombinePlaces(ta, tk, s)[p] != ra
  {
    hide IsTree, Top;
    assert !Foreign(Root, s) && ta[Root] == ra;
  }

  lemma {:induction false} CombineViewAt(mem: map<nat, Table>, ra: nat, ta: Places, rk: nat, tk: Places, s: set<nat>,
                                         mem': map<nat, Table>, p: Path)
    requires IsSpace(mem, ra, ta) && IsSpace(mem, rk, tk) && Apart(ta, tk, s) && Root in ta && Root in tk
    requires ra in mem && rk in mem && ra in mem' && mem' == mem[ra := mem'[ra]]
    requires forall i :: 0 <= i < 512 ==> mem'[ra][i] == if i in s then mem[rk][i] else mem[ra][i]
    requires p in CombinePlaces(ta, tk, s)
    ensures var t, c := CombinePlaces(ta, tk, s), Combine(View(mem, ta), View(mem, tk), s);
            t[p] in mem' && p in c && mem'[t[p]] == c[p]
  {
    hide IsSpace, Top, Apart;
    if p == Root {
      CombineViewRoot(mem, ra, ta, rk, tk, s, mem');
    } else {
      CombinedApart(mem, ra, ta, tk, s, p);
    }
  }

  lemma {:induction false} CombineView(mem: map<nat, Table>, ra: nat, ta: Places, rk: nat, tk: Places, s: set<nat>,
                                       mem': map<nat, Table>)
    requires IsSpace(mem, ra, ta) && IsSpace(mem, rk, tk) && Apart(ta, tk, s) && Root in ta && Root in tk
    requires ra in mem && rk in mem && ra in mem' && mem' == mem[ra := mem'[ra]]
    requires forall i :: 0 <= i < 512 ==> mem'[ra][i] == if i in s then mem[rk][i] else mem[ra][i]
    ensures forall p :: p in CombinePlaces(ta, tk, s) ==> CombinePlaces(ta, tk, s)[p] in mem'
    ensures View(mem', CombinePlaces(ta, tk, s)) == Combine(View(mem, ta), View(mem, tk), s)
  {
    hide IsTree, Top, IsSpace, Combine, Apart;
    var t, c := CombinePlaces(ta, tk, s), Combine(View(mem, ta), View(mem, tk), s);
    CombineKeys(View(mem, ta), View(mem, tk), ta, tk, s);
    forall p | p in t ensures t[p] in mem' && mem'[t[p]] == c[p] {
      CombineViewAt(mem, ra, ta, rk, tk, s, mem', p);
    }
  }

  lemma {:induction false} CombineLink(mem: map<nat, Table>, ra: nat, ta: Places, rk: nat, tk: Places, s: set<nat>,
                                       mem': map<nat, Table>, p: Path, i: nat)
    requires IsSpace(mem, ra, ta) && IsSpace(mem, rk, tk) && Apart(ta, tk, s) && Root in ta && Root in tk
    requires ra in mem && rk in mem && ra in mem' && mem' == mem[ra := mem'[ra]]
    requires forall i :: 0 <= i < 512 ==> mem'[ra][i] == if i in s then mem[rk][i] else mem[ra][i]
    requires Down(p, i) in CombinePlaces(ta, tk, s)
    ensures var t := CombinePlaces(ta, tk, s);
            p in t && i < 512 && t[p] in mem' && t[Down(p, i)] == mem'[t[p]][i].frame
  {
    hide IsTree;
    var t := CombinePlaces(ta, tk, s);
    var from := if Foreign(Down(p, i), s) then tk else ta;
    assert p in from && i < 512 && from[Down(p, i)] == mem[from[p]][i].frame;
    if p != Root {
      assert Foreign(p, s) == Foreign(Down(p, i), s);
      assert t[p] != ra;
    }
  }

  lemma {:induction false} CombineSpace(mem: map<nat, Table>, ra: nat, ta: Places, rk: nat, tk: Places, s: set<nat>,
                                        mem': map<nat, Table>)
    requires IsSpace(mem, ra, ta) && IsSpace(mem, rk, tk) && Apart(ta, tk, s)
    requires ra in mem && rk in mem && ra in mem' && mem' == mem[ra := mem'[ra]]
    requires forall i :: 0 <= i < 512 ==> mem'[ra][i] == if i in s then mem[rk][i] else mem[ra][i]
    ensures IsSpace(mem', ra, CombinePlaces(ta, tk, s))
    ensures View(mem', CombinePlaces(ta, tk, s)) == Combine(View(mem, ta), View(mem, tk), s)
  {
    var t := CombinePlaces(ta, tk, s);
    RootPlaced(mem, ra, ta);
    RootPlaced(mem, rk, tk);
    CombineTree(View(mem, ta), View(mem, tk), s);
    CombineView(mem, ra, ta, rk, tk, s, mem');
    forall p, q | p in t && q in t && t[p] == t[q] ensures p == q {
      assert Foreign(p, s) ==> p in tk;
      assert Foreign(q, s) ==> q in tk;
    }
    forall p, i: nat | Down(p, i) in t ensures p in t && i < 512 && t[Down(p, i)] == mem'[t[p]][i].frame {
      CombineLink(mem, ra, ta, rk, tk, s, mem', p, i);
    }
  }

  // ---- create_user_space ----

  /** A 2 MiB page of the kernel's identity map. */
  function IdentityPage(i: nat): Word {
    Word(i * 512, true, true, false, true, false, 0, 0)
  }

  /** The places of a new space's own tables. */
  ghost function LowPlaces(root: nat, pdpt: nat, pd: nat): Places {
    map[Root := root, Down(Root, 0) := pdpt, Down(Down(Root, 0), 0) := pd]
  }

  /** Memory holds a private identity map of the first 1 GiB at these three frames. */
  ghost predicate LowTables(mem: map<nat, Table>, root: nat, pdpt: nat, pd: nat) {
    && root in mem && pdpt in mem && pd in mem && root != pdpt && root != pd && pdpt != pd
    && (forall i :: 0 <= i < 512 ==> mem[root][i] == if i == 0 then LinkTo(pdpt, false) else ZERO)
    && (forall i :: 0 <= i < 512 ==> mem[pdpt][i] == if i == 0 then LinkTo(pd, false) else ZERO)
    && (forall i :: 0 <= i < 512 ==> mem[pd][i] == IdentityPage(i))
  }

  lemma {:induction false} LowTree(mem: map<nat, Table>, root: nat, pdpt: nat, pd: nat)
    requires LowTables(mem, root, pdpt, pd)
    ensures IsTree(View(mem, LowPlaces(root, pdpt, pd)))
  {
  }

  lemma {:induction false} LowSpace(mem: map<nat, Table>, root: nat, pdpt: nat, pd: nat)
    requires LowTables(mem, root, pdpt, pd)
    ensures IsSpace(mem, root, LowPlaces(root, pdpt, pd))
  {
    LowTree(mem, root, pdpt, pd);
    hide IsTree, Level;
  }

  /** Below 1 GiB addresses translate to themselves; nothing else is mapped. */
  lemma {:induction false} LowTranslate(mem: map<nat, Table>, root: nat, pdpt: nat, pd: nat, v: Va)
    requires LowTables(mem, root, pdpt, pd) && IsVa(v)
    ensures Translate(View(mem, LowPlaces(root, pdpt, pd)), v) ==
            if v.i4 == 0 && v.i3 == 0 then Mapped((v.i2 * 512 + v.i1) * 4096 + v.offset) else Unmapped
  {
  }

  /** How a new space translates: the identity map, and the kernel's half. */
  ghost predicate FreshSpace(a: Tables, k: Tables) {
    forall v :: IsVa(v) ==>
      Translate(a, v) ==
      if v.i4 >= 256 then Translate(k, v)
      else if v.i4 == 0 && v.i3 == 0 then Mapped((v.i2 * 512 + v.i1) * 4096 + v.offset)
      else Unmapped
  }

  /** The frames of a space's own tables: the root, and the tables of the lower half. */
  ghost function OwnFrames(t: Places): set<nat> {
    set p | p in t && !Foreign(p, UPPER) :: t[p]
  }

  /** The upper half of the space is the kernel's. */
  ghost predicate SharesUpper(t: Places, tk: Places) {
    forall p :: Foreign(p, UPPER) ==> (p in t <==> p in tk) && (p in t ==> t[p] == tk[p])
  }

  method FillIdentity(m: Machine, pd: nat)
    requires m.Valid() && pd in m.mem
    modifies m`mem
    ensures m.Valid() && pd in m.mem && m.mem == old(m.mem)[pd := m.mem[pd]]
    ensures forall i :: 0 <= i < 512 ==> m.mem[pd][i] == IdentityPage(i)
  {
    var i := 0;
    while i < 512
      invariant 0 <= i <= 512 && m.Valid() && pd in m.mem && m.mem == old(m.mem)[pd := m.mem[pd]]
      invariant forall j :: 0 <= j < i ==> m.mem[pd][j] == IdentityPage(j)
    {
      m.mem := m.mem[pd := m.mem[pd][i := IdentityPage(i)]];
      i := i + 1;
    }
  }

  method CopyUpper(m: Machine, root: nat)
    requires m.Valid() && root in m.mem && m.kernelRoot in m.mem && root != m.kernelRoot
    modifies m`mem
    ensures m.Valid() && root in m.mem && m.mem == old(m.mem)[root := m.mem[root]]
    ensures forall i :: 0 <= i < 512 ==>
      m.mem[root][i] == if i in UPPER then old(m.mem)[m.kernelRoot][i] else old(m.mem)[root][i]
  {
    var i := 256;
    while i < 512
      invariant 256 <= i <= 512 && m.Valid() && root in m.mem && m.mem == old(m.mem)[root := m.mem[root]]
      invariant forall j :: 0 <= j < 512 ==>
        m.mem[root][j] == if 256 <= j < i then old(m.mem)[m.kernelRoot][j] else old(m.mem)[root][j]
    {
      m.mem := m.mem[root := m.mem[root][i := m.mem[m.kernelRoot][i]]];
      i := i + 1;
    }
  }

  /** The frames that can still be had. */
  ghost function FreeFrames(used: set<nat>, total: nat): set<nat> {
    set f: nat | 1 <= f < total && f !in used
  }

  /** At least `n` frames can still be had. */
  ghost predicate CanHave(used: set<nat>, total: nat, n: nat) { |FreeFrames(used, total)| >= n }

  lemma {:induction false} FreeStep(used: set<nat>, total: nat, f: nat, n: nat)
    requires 1 <= f < total && f !in used
    ensures CanHave(used, total, n + 1) <==> CanHave(used + {f}, total, n)
    ensures CanHave(used, total, 1)
  {
    assert FreeFrames(used + {f}, total) == FreeFrames(used, total) - {f};
  }

  lemma {:induction false} FreeNone(used: set<nat>, total: nat)
    requires forall f :: 1 <= f < total ==> f in used
    ensures forall n: nat :: CanHave(used, total, n) <==> n == 0
  {
    assert FreeFrames(used, total) == {};
  }

  /** Three fresh frames that hold a private identity map; `pd` 0 when one could not be had. */
  method MakeLow(m: Machine, root: nat) returns (pdpt: nat, pd: nat)
    requires m.Valid() && 1 <= root < m.pmm.totalFrames && root in m.mem && m.mem[root] == seq(512, _ => ZERO)
    requires root in m.pmm.Used()
    modifies m`mem, m.pmm`usedFrames, m.pmm.bitmap
    ensures m.Valid() && Kept(old(m.mem), m.mem, old(m.pmm.Used()), {root})
    ensures pd == 0 ==> m.pmm.Used() == old(m.pmm.Used()) && Kept(old(m.mem), m.mem, old(m.pmm.Used()), {})
    ensures pd != 0 ==> LowTables(m.mem, root, pdpt, pd) && {pdpt, pd} !! old(m.pmm.Used())
    ensures pd != 0 ==> 1 <= pdpt < m.pmm.totalFrames && 1 <= pd < m.pmm.totalFrames
    ensures pd != 0 ==> m.pmm.Used() == old(m.pmm.Used()) + {pdpt, pd}
    ensures pd != 0 <==> CanHave(old(m.pmm.Used()), m.pmm.totalFrames, 2)
  {
    hide Allocator.Used, Allocator.Valid, CanHave;
    pd := 0;
    pdpt := m.AllocTable();
    if pdpt == 0 {
      FreeNone(m.pmm.Used(), m.pmm.totalFrames);
      return;
    }
    ghost var used1 := m.pmm.Used();
    FreeStep(old(m.pmm.Used()), m.pmm.totalFrames, pdpt, 1);
    pd := m.AllocTable();
    if pd == 0 {
      FreeNone(m.pmm.Used(), m.pmm.totalFrames);
      m.pmm.FreeFrame(pdpt * PAGE_SIZE);
      return;
    }
    FreeStep(used1, m.pmm.totalFrames, pd, 0);
    m.mem := m.mem[root := m.mem[root][0 := LinkTo(pdpt, false)]];
    m.mem := m.mem[pdpt := m.mem[pdpt][0 := LinkTo(pd, false)]];
    FillIdentity(m, pd);
  }

  /** A space none of whose tables were written is the same space. */
  lemma {:induction false} SpaceKept(mem: map<nat, Table>, mem': map<nat, Table>, root: nat, t: Places, used: set<nat>,
                                     except: set<nat>)
    requires IsSpace(mem, root, t) && t.Values <= used && Kept(mem, mem', used, except) && except !! t.Values
    ensures IsSpace(mem', root, t) && View(mem', t) == View(mem, t)
  {
    forall p | p in t ensures t[p] in mem' && mem'[t[p]] == mem[t[p]] {
      assert t[p] in t.Values;
    }
    assert View(mem', t) == View(mem, t);
  }

  /** What a new space's tables are: three of its own, and the kernel's upper half. */
  lemma {:induction false} CombinedFrames(root: nat, pdpt: nat, pd: nat, tk: Places)
    ensures var t := CombinePlaces(LowPlaces(root, pdpt, pd), tk, UPPER);
            OwnFrames(t) == {root, pdpt, pd} && SharesUpper(t, tk) &&
            forall p :: p in t ==> t[p] in {root, pdpt, pd} || (p in tk && t[p] == tk[p])
  {
    var low := LowPlaces(root, pdpt, pd);
    var t := CombinePlaces(low, tk, UPPER);
    var p3 := Down(Root, 0);
    assert Top(p3) == 0 && Top(Down(p3, 0)) == 0;
    assert t[Root] == root && t[p3] == pdpt && t[Down(p3, 0)] == pd;
  }

  lemma {:induction false} InUpper(i: nat)
    ensures i in UPPER <==> 256 <= i < 512
  {
  }

  lemma {:induction false} ApartFromKernel(root: nat, pdpt: nat, pd: nat, tk: Places)
    requires {root, pdpt, pd} !! tk.Values
    ensures Apart(LowPlaces(root, pdpt, pd), tk, UPPER)
  {
  }

  lemma {:induction false} LowMapped(mem: map<nat, Table>, root: nat, pdpt: nat, pd: nat)
    requires LowTables(mem, root, pdpt, pd)
    ensures root in mem
  {
  }

  /** A space made of `LowTables` and the kernel's half is a fresh space. */
  lemma {:induction false} Completed(mem: map<nat, Table>, root: nat, pdpt: nat, pd: nat, rk: nat, tk: Places,
                                     mem': map<nat, Table>)
    requires LowTables(mem, root, pdpt, pd) && IsSpace(mem, rk, tk) && {root, pdpt, pd} !! tk.Values && rk in mem
    requires root in mem' && mem' == mem[root := mem'[root]]
    requires forall i :: 0 <= i < 512 ==> mem'[root][i] == if i in UPPER then mem[rk][i] else mem[root][i]
    ensures var t := CombinePlaces(LowPlaces(root, pdpt, pd), tk, UPPER);
            IsSpace(mem', root, t) && FreshSpace(View(mem', t), View(mem, tk))
  {
    hide IsSpace, IsTree, Translate, LowTables, Top, Combine, CombinePlaces, View, UPPER;
    var low := LowPlaces(root, pdpt, pd);
    LowSpace(mem, root, pdpt, pd);
    LowMapped(mem, root, pdpt, pd);
    ApartFromKernel(root, pdpt, pd, tk);
    CombineSpace(mem, root, low, rk, tk, UPPER, mem');
    SpaceTree(mem, root, low);
    SpaceTree(mem, rk, tk);
    forall v | IsVa(v)
      ensures Translate(View(mem', CombinePlaces(low, tk, UPPER)), v) ==
              if v.i4 >= 256 then Translate(View(mem, tk), v)
              else if v.i4 == 0 && v.i3 == 0 then Mapped((v.i2 * 512 + v.i1) * 4096 + v.offset)
              else Unmapped
    {
      CombineTranslate(View(mem, low), View(mem, tk), UPPER, v);
      LowTranslate(mem, root, pdpt, pd, v);
      InUpper(v.i4);
    }
  }

  lemma {:induction false} CombinedHeld(root: nat, pdpt: nat, pd: nat, tk: Places, used: set<nat>, total: nat)
    requires Held(used, total, LowPlaces(root, pdpt, pd)) && Held(used, total, tk)
    ensures Held(used, total, CombinePlaces(LowPlaces(root, pdpt, pd), tk, UPPER))
  {
  }

  /** Copies the kernel's half into a space that has its own tables. */
  method ShareUpper(m: Machine, root: nat, pdpt: nat, pd: nat, ghost tk: Places) returns (ghost t: Places)
    requires m.Space(m.kernelRoot, tk) && LowTables(m.mem, root, pdpt, pd) && {root, pdpt, pd} !! tk.Values
    requires Held(m.pmm.Used(), m.pmm.totalFrames, LowPlaces(root, pdpt, pd))
    modifies m`mem
    ensures m.Space(root, t) && FreshSpace(View(m.mem, t), View(old(m.mem), tk))
    ensures OwnFrames(t) == {root, pdpt, pd} && SharesUpper(t, tk)
    ensures Kept(old(m.mem), m.mem, m.pmm.Used(), {root})
  {
    hide Allocator.Used, Allocator.Valid, IsSpace, IsTree, LowTables, CombinePlaces, Top, FreshSpace, OwnFrames,
         SharesUpper;
    RootPlaced(m.mem, m.kernelRoot, tk);
    LowMapped(m.mem, root, pdpt, pd);
    assert tk[Root] in tk.Values;
    t := CombinePlaces(LowPlaces(root, pdpt, pd), tk, UPPER);
    CopyUpper(m, root);
    Completed(old(m.mem), root, pdpt, pd, m.kernelRoot, tk, m.mem);
    CombinedFrames(root, pdpt, pd, tk);
    CombinedHeld(root, pdpt, pd, tk, m.pmm.Used(), m.pmm.totalFrames);
  }

  lemma {:induction false} AllocKept(mem: map<nat, Table>, mem': map<nat, Table>, used: set<nat>, f: nat)
    requires mem' == mem || (f !in used && mem' == mem[f := seq(512, _ => ZERO)])
    ensures Kept(mem, mem', used, {})
  {
  }

  lemma {:induction false} KeptFresh(a: map<nat, Table>, b: map<nat, Table>, c: map<nat, Table>, u: set<nat>,
                                     w: set<nat>, f: nat)
    requires Kept(a, b, u, {}) && Kept(b, c, w, {f}) && u <= w && f !in u
    ensures Kept(a, c, u, {})
  {
  }

  lemma {:induction false} HeldMore(used: set<nat>, used': set<nat>, total: nat, t: Places)
    requires Held(used, total, t) && used <= used'
    ensures Held(used', total, t)
  {
  }

  lemma {:induction false} HeldLow(used: set<nat>, total: nat, root: nat, pdpt: nat, pd: nat)
    requires {root, pdpt, pd} <= used && 1 <= root < total && 1 <= pdpt < total && 1 <= pd < total
    ensures Held(used, total, LowPlaces(root, pdpt, pd))
  {
  }

  lemma {:induction false} RootUntouched(mem: map<nat, Table>, mem': map<nat, Table>, used: set<nat>, root: nat,
                                         total: nat)
    requires Kept(mem, mem', used, {}) && root in used && root in mem && mem[root] == seq(512, _ => ZERO)
    requires 1 <= root < total
    ensures IsSpace(mem', root, map[Root := root]) && Held(used, total, map[Root := root])
    ensures forall v :: IsVa(v) ==> Translate(View(mem', map[Root := root]), v) == Unmapped
  {
  }

  lemma {:induction false} OwnFramesSmall(root: nat)
    ensures OwnFrames(map[]) == {} && OwnFrames(map[Root := root]) == {root}
  {
    var t: Places := map[Root := root];
    assert t[Root] == root;
  }

  /** The empty user space: a private identity map of the first 1 GiB and the kernel's half. When
      frames run out on the way the space is left without either. */
  method CreateUserSpace(m: Machine, ghost tk: Places) returns (root: nat, ghost t: Places, ghost complete: bool)
    requires m.Space(m.kernelRoot, tk)
    modifies m`mem, m.pmm`usedFrames, m.pmm.bitmap
    ensures m.Space(m.kernelRoot, tk) && View(m.mem, tk) == View(old(m.mem), tk)
    ensures root == 0 ==> !complete && t == map[] && m.Exhausted()
    ensures root != 0 ==> m.Space(root, t) && OwnFrames(t) !! old(m.pmm.Used())
    ensures root != 0 <==> CanHave(old(m.pmm.Used()), m.pmm.totalFrames, 1)
    ensures complete <==> CanHave(old(m.pmm.Used()), m.pmm.totalFrames, 3)
    ensures complete ==> root != 0 && FreshSpace(View(m.mem, t), View(m.mem, tk)) && SharesUpper(t, tk)
    ensures root != 0 && !complete ==>
      t == map[Root := root] && forall v :: IsVa(v) ==> Translate(View(m.mem, t), v) == Unmapped
    ensures m.pmm.Used() == old(m.pmm.Used()) + OwnFrames(t)
    ensures Kept(old(m.mem), m.mem, old(m.pmm.Used()), {})
  {
    hide Allocator.Used, Allocator.Valid, IsSpace, IsTree, Translate, LowTables, CombinePlaces, Top, FreshSpace,
         SharesUpper, OwnFrames, Kept, LowPlaces, Held, CanHave;
    ghost var used := m.pmm.Used();
    HeldValues(used, m.pmm.totalFrames, tk);
    complete, t := false, map[];
    OwnFramesSmall(0);
    root := m.AllocTable();
    AllocKept(old(m.mem), m.mem, used, root);
    HeldMore(used, m.pmm.Used(), m.pmm.totalFrames, tk);
    SpaceKept(old(m.mem), m.mem, m.kernelRoot, tk, used, {});
    if root == 0 {
      FreeNone(used, m.pmm.totalFrames);
      return;
    }
    FreeStep(used, m.pmm.totalFrames, root, 2);
    t := map[Root := root];
    OwnFramesSmall(root);
    ghost var mem1, used1 := m.mem, m.pmm.Used();
    var pdpt, pd := MakeLow(m, root);
    KeptFresh(old(m.mem), mem1, m.mem, used, used1, root);
    HeldMore(used, m.pmm.Used(), m.pmm.totalFrames, tk);
    SpaceKept(old(m.mem), m.mem, m.kernelRoot, tk, used, {});
    if pd == 0 {
      RootUntouched(mem1, m.mem, used1, root, m.pmm.totalFrames);
      return;
    }
    HeldLow(m.pmm.Used(), m.pmm.totalFrames, root, pdpt, pd);
    mem1, used1 := m.mem, m.pmm.Used();
    t := ShareUpper(m, root, pdpt, pd, tk);
    KeptFresh(old(m.mem), mem1, m.mem, used, used1, root);
    SpaceKept(old(m.mem), m.mem, m.kernelRoot, tk, used, {});
    complete := true;
  }

  // ---- destroy_user_space ----

  /** The entry of the table at `p` that `q` hangs below; negative when it does not. */
  ghost function Branch(q: Path, p: Path): int {
    if q == Root then -1 else if q.up == p then q.i else Branch(q.up, p)
  }

  /** The frames of the tables below the first `n` entries of the table at `p`. */
  ghost function Frames(t: Places, p: Path, n: nat): set<nat> {
    set q | q in t && 0 <= Branch(q, p) < n :: t[q]
  }

  lemma {:induction false} BranchDeeper(q: Path, p: Path)
    ensures Branch(q, p) >= 0 ==> Level(q) > Level(p)
  {
    if q != Root && q.up != p {
      BranchDeeper(q.up, p);
    }
  }

  lemma {:induction false} BranchSplit(q: Path, p: Path, n: nat)
    ensures Branch(q, p) == n <==> q == Down(p, n) || Branch(q, Down(p, n)) >= 0
  {
    if q != Root {
      if q.up == p {
        BranchDeeper(p, Down(p, n));
      } else {
        BranchSplit(q.up, p, n);
      }
    }
  }

  lemma {:induction false} BranchInTable(mem: map<nat, Table>, root: nat, t: Places, q: Path, p: Path)
    requires IsSpace(mem, root, t) && q in t
    ensures Branch(q, p) < 512
  {
    if q != Root {
      assert Down(q.up, q.i) in t;
      if q.up != p {
        BranchInTable(mem, root, t, q.up, p);
      }
    }
  }

  lemma {:induction false} NotBelow(mem: map<nat, Table>, root: nat, t: Places, p: Path, n: nat, q: Path)
    requires IsSpace(mem, root, t) && Down(p, n) !in t && q in t
    ensures Branch(q, p) != n
  {
    if q != Root {
      assert Down(q.up, q.i) in t;
      if q.up != p {
        NotBelow(mem, root, t, p, n, q.up);
      }
    }
  }

  lemma {:induction false} NothingBelow(mem: map<nat, Table>, root: nat, t: Places, p: Path, n: nat)
    requires IsSpace(mem, root, t) && Down(p, n) !in t
    ensures forall q :: q in t ==> Branch(q, p) != n
  {
    hide IsTree;
    forall q | q in t ensures Branch(q, p) != n {
      NotBelow(mem, root, t, p, n, q);
    }
  }

  /** The places below entry `n` of the table at `p`: the one it leads to, and those below that. */
  ghost predicate Branches(t: Places, p: Path, n: nat) {
    forall q :: q in t ==> (Branch(q, p) == n <==> q == Down(p, n) || 0 <= Branch(q, Down(p, n)) < 512)
  }

  lemma {:induction false} BranchesHold(mem: map<nat, Table>, root: nat, t: Places, p: Path, n: nat)
    requires IsSpace(mem, root, t)
    ensures Branches(t, p, n) && Branch(Down(p, n), Down(p, n)) < 0
  {
    hide IsTree, IsSpace;
    forall q | q in t ensures Branch(q, p) == n <==> q == Down(p, n) || 0 <= Branch(q, Down(p, n)) < 512 {
      BranchSplit(q, p, n);
      BranchInTable(mem, root, t, q, Down(p, n));
    }
    BranchDeeper(Down(p, n), Down(p, n));
  }

  lemma {:induction false} FramesGrow(t: Places, p: Path, n: nat)
    requires Branches(t, p, n)
    ensures Down(p, n) in t ==> Frames(t, p, n + 1) == Frames(t, p, n) + {t[Down(p, n)]} + Frames(t, Down(p, n), 512)
    ensures (forall q :: q in t ==> Branch(q, p) != n) ==> Frames(t, p, n + 1) == Frames(t, p, n)
  {
    hide Branch;
  }

  lemma {:induction false} FramesApart(mem: map<nat, Table>, root: nat, t: Places, p: Path, n: nat)
    requires IsSpace(mem, root, t) && Branches(t, p, n) && Branch(Down(p, n), Down(p, n)) < 0
    ensures Down(p, n) in t ==> t[Down(p, n)] !in Frames(t, p, n) + Frames(t, Down(p, n), 512)
    ensures Frames(t, Down(p, n), 512) !! Frames(t, p, n)
  {
    hide IsTree, Branch;
  }

  /** One entry more: the table it leads to, and all below that. */
  lemma {:induction false} FramesStep(mem: map<nat, Table>, root: nat, t: Places, p: Path, n: nat)
    requires IsSpace(mem, root, t)
    ensures Down(p, n) in t ==> Frames(t, p, n + 1) == Frames(t, p, n) + {t[Down(p, n)]} + Frames(t, Down(p, n), 512)
    ensures Down(p, n) in t ==> t[Down(p, n)] !in Frames(t, p, n) + Frames(t, Down(p, n), 512)
    ensures Frames(t, Down(p, n), 512) !! Frames(t, p, n)
    ensures Down(p, n) !in t ==> Frames(t, p, n + 1) == Frames(t, p, n)
  {
    hide IsSpace, Branch, Frames, Branches;
    BranchesHold(mem, root, t, p, n);
    FramesGrow(t, p, n);
    FramesApart(mem, root, t, p, n);
    if Down(p, n) !in t {
      NothingBelow(mem, root, t, p, n);
    }
  }

  /** The frame number in an entry's address, all bits above the low twelve taken. */
  function RawFrame(e: Word): nat {
    e.frame + e.high * 0x100_0000_0000 + (if e.nx then 0x8_0000_0000_0000 else 0)
  }

  /** Gives a table's frame back; it has to be in use, so no frame is given back twice. */
  method FreeTable(m: Machine, f: nat)
    requires m.Valid() && 1 <= f < m.pmm.totalFrames && f in m.pmm.Used()
    modifies m.pmm`usedFrames, m.pmm.bitmap
    ensures m.Valid() && m.pmm.Used() == old(m.pmm.Used()) - {f}
  {
    m.pmm.FreeFrame(f * PAGE_SIZE);
  }

  lemma {:induction false} FramesNone(t: Places, p: Path)
    ensures Frames(t, p, 0) == {}
  {
  }

  lemma {:induction false} FramesMono(t: Places, p: Path, n: nat, k: nat)
    requires n <= k
    ensures Frames(t, p, n) <= Frames(t, p, k)
  {
  }

  lemma {:induction false} LeafHasNone(mem: map<nat, Table>, root: nat, t: Places, p: Path, n: nat)
    requires IsSpace(mem, root, t) && Level(p) == 2
    ensures Frames(t, Down(p, n), 512) == {}
  {
    forall q | q in t ensures Branch(q, Down(p, n)) < 0 {
      BranchDeeper(q, Down(p, n));
      assert q in View(mem, t);
      assert Level(Down(p, n)) == 3;
    }
  }

  /** Frees the page tables of one page directory. */
  method DestroyPd(m: Machine, pd: nat, ghost root: nat, ghost t: Places, ghost p: Path)
    requires m.Valid() && IsSpace(m.mem, root, t) && p in t && t[p] == pd && Level(p) == 2
    requires forall q :: q in t ==> 1 <= t[q] < m.pmm.totalFrames
    requires Frames(t, p, 512) <= m.pmm.Used()
    modifies m.pmm`usedFrames, m.pmm.bitmap
    ensures m.Valid() && m.pmm.Used() == old(m.pmm.Used()) - Frames(t, p, 512)
  {
    hide IsTree, IsSpace, Branch, Allocator.Used, Allocator.Valid;
    var k := 0;
    FramesNone(t, p);
    while k < 512
      invariant 0 <= k <= 512 && m.Valid() && m.pmm.Used() == old(m.pmm.Used()) - Frames(t, p, k)
    {
      LinkedOrNot(m.mem, root, t, p, k);
      FramesStep(m.mem, root, t, p, k);
      LeafHasNone(m.mem, root, t, p, k);
      FramesMono(t, p, k + 1, 512);
      var pde := m.mem[pd][k];
      if pde.present && !pde.huge {
        FreeTable(m, RawFrame(pde));
      }
      k := k + 1;
    }
  }

  /** Frees one page directory with its page tables, for each entry of a table of them. */
  method DestroyPdpt(m: Machine, pdpt: nat, ghost root: nat, ghost t: Places, ghost p: Path)
    requires m.Valid() && IsSpace(m.mem, root, t) && p in t && t[p] == pdpt && Level(p) == 1
    requires forall q :: q in t ==> 1 <= t[q] < m.pmm.totalFrames
    requires Frames(t, p, 512) <= m.pmm.Used()
    modifies m.pmm`usedFrames, m.pmm.bitmap
    ensures m.Valid() && m.pmm.Used() == old(m.pmm.Used()) - Frames(t, p, 512)
  {
    hide IsTree, IsSpace, Branch, Allocator.Used, Allocator.Valid;
    var j := 0;
    FramesNone(t, p);
    while j < 512
      invariant 0 <= j <= 512 && m.Valid() && m.pmm.Used() == old(m.pmm.Used()) - Frames(t, p, j)
    {
      LinkedOrNot(m.mem, root, t, p, j);
      FramesStep(m.mem, root, t, p, j);
      FramesMono(t, p, j + 1, 512);
      var pe := m.mem[pdpt][j];
      if pe.present && !pe.huge {
        DestroyPd(m, RawFrame(pe), root, t, Down(p, j));
        FreeTable(m, RawFrame(pe));
      }
      j := j + 1;
    }
  }

  lemma {:induction false} FramesHeld(t: Places, p: Path, n: nat, used: set<nat>)
    requires forall q :: q in t ==> t[q] in used
    ensures Frames(t, p, n) <= used
  {
  }

  lemma {:induction false} TopIsBranch(q: Path)
    ensures q != Root ==> Top(q) == Branch(q, Root)
  {
    if q != Root && q.up != Root {
      TopIsBranch(q.up);
    }
  }

  /** A space's own frames are the root's and those below its first 256 entries. */
  lemma {:induction false} OwnAreFrames(mem: map<nat, Table>, root: nat, t: Places)
    requires IsSpace(mem, root, t) && Root in t
    ensures OwnFrames(t) == {root} + Frames(t, Root, 256) && root !in Frames(t, Root, 256)
  {
    forall q | q in t ensures 0 <= Branch(q, Root) < 256 <==> q != Root && !Foreign(q, UPPER) {
      BranchInTable(mem, root, t, q, Root);
      TopIsBranch(q);
    }
    assert t[Root] == root;
    hide IsTree;
  }

  /** Frees a space's own tables, each once, and nothing else. */
  method DestroyUserSpace(m: Machine, root: nat, ghost t: Places)
    requires root == 0 || m.Space(root, t)
    requires m.Valid()
    modifies m.pmm`usedFrames, m.pmm.bitmap
    ensures m.Valid()
    ensures m.pmm.Used() == if root == 0 then old(m.pmm.Used()) else old(m.pmm.Used()) - OwnFrames(t)
  {
    hide IsTree, IsSpace, Branch, Allocator.Used, Allocator.Valid, OwnFrames;
    if root == 0 {
      return;
    }
    RootPlaced(m.mem, root, t);
    OwnAreFrames(m.mem, root, t);
    FramesHeld(t, Root, 256, m.pmm.Used());
    var i := 0;
    FramesNone(t, Root);
    while i < 256
      invariant 0 <= i <= 256 && m.Valid() && m.pmm.Used() == old(m.pmm.Used()) - Frames(t, Root, i)
    {
      LinkedOrNot(m.mem, root, t, Root, i);
      FramesStep(m.mem, root, t, Root, i);
      FramesMono(t, Root, i + 1, 256);
      var e := m.mem[root][i];
      if e.present {
        assert Level(Down(Root, i)) == 1;
        DestroyPdpt(m, RawFrame(e), root, t, Down(Root, i));
        FreeTable(m, RawFrame(e));
      }
      i := i + 1;
    }
    FreeTable(m, root);
  }

  // ---- activate ----

  /** The root entries that activation takes from the kernel: its half, and entry 0 where the space has none. */
  ghost function Synced(mem: map<nat, Table>, root: nat): set<nat>
    requires root in mem
  {
    UPPER + if mem[root][0].present then {} else {0}
  }

  lemma {:induction false} ZeroNotUpper()
    ensures 0 !in UPPER
  {
  }

  lemma {:induction false} HeldCombined(t: Places, tk: Places, s: set<nat>, used: set<nat>, total: nat)
    requires Held(used, total, t) && Held(used, total, tk)
    ensures Held(used, total, CombinePlaces(t, tk, s))
  {
  }

  /** Brings a space's kernel half up to date before it is loaded: those addresses now translate as in
      the kernel's space, and all others as before. */
  method Activate(m: Machine, root: nat, ghost t: Places, ghost tk: Places) returns (ghost t': Places)
    requires m.Space(root, t) && m.Space(m.kernelRoot, tk)
    requires root != m.kernelRoot ==> root !in tk.Values && root in m.mem && Apart(t, tk, Synced(m.mem, root))
    modifies m`mem
    ensures m.Space(root, t') && m.Space(m.kernelRoot, tk) && View(m.mem, tk) == View(old(m.mem), tk)
    ensures root == m.kernelRoot ==> t' == t
    ensures root != m.kernelRoot ==> root in old(m.mem) && t' == CombinePlaces(t, tk, Synced(old(m.mem), root))
    ensures root != m.kernelRoot ==> forall v :: IsVa(v) ==>
      Translate(View(m.mem, t'), v) ==
      if v.i4 in Synced(old(m.mem), root) then Translate(View(m.mem, tk), v) else Translate(View(old(m.mem), t), v)
  {
    hide IsTree, IsSpace, Translate, Allocator.Used, Allocator.Valid, Apart, CombinePlaces, Combine, UPPER, Top;
    t' := t;
    RootPlaced(m.mem, root, t);
    RootPlaced(m.mem, m.kernelRoot, tk);
    if root == m.kernelRoot {
      return;
    }
    ghost var s := Synced(m.mem, root);
    ZeroNotUpper();
    assert tk[Root] in tk.Values;
    t' := CombinePlaces(t, tk, s);
    if !m.mem[root][0].present {
      m.mem := m.mem[root := m.mem[root][0 := m.mem[m.kernelRoot][0]]];
    }
    CopyUpper(m, root);
    CombineSpace(old(m.mem), root, t, m.kernelRoot, tk, s, m.mem);
    SpaceTree(old(m.mem), root, t);
    SpaceTree(old(m.mem), m.kernelRoot, tk);
    forall v | IsVa(v)
      ensures Translate(View(m.mem, t'), v) ==
              if v.i4 in s then Translate(View(old(m.mem), tk), v) else Translate(View(old(m.mem), t), v)
    {
      CombineTranslate(View(old(m.mem), t), View(old(m.mem), tk), s, v);
    }
    HeldCombined(t, tk, s, m.pmm.Used(), m.pmm.totalFrames);
    HeldValues(m.pmm.Used(), m.pmm.totalFrames, tk);
    SpaceKept(old(m.mem), m.mem, m.kernelRoot, tk, m.pmm.Used(), {root});
  }

  // ---- the life of a space ----

  /** A living space: beyond what was in use before, the allocator holds the frames its owner took and
      its own tables, and these do not overlap. */
  ghost predicate Living(m: Machine, root: nat, t: Places, tk: Places, used: set<nat>, leaves: set<nat>)
    reads m, m.pmm, m.pmm.bitmap
  {
    && m.Space(root, t) && m.Space(m.kernelRoot, tk) && tk.Values <= used
    && OwnFrames(t) !! used && OwnFrames(t) !! leaves && leaves !! used
    && (forall p :: p in t && Foreign(p, UPPER) ==> t[p] in tk.Values)
    && m.pmm.Used() == used + leaves + OwnFrames(t)
  }

  /** Mapping a page of the lower half adds own tables at most. */
  lemma {:induction false} GrownOwn(t: Places, t': Places, v: Va, used: set<nat>, now: set<nat>)
    requires GrownBy(t, t', v) && Fresh(t, t', used) && v.i4 < 256 && now == used + t'.Values
    requires forall p :: p in t ==> t[p] in used
    ensures OwnFrames(t) <= OwnFrames(t') && (OwnFrames(t') - OwnFrames(t)) !! used
    ensures forall p :: p in t' && Foreign(p, UPPER) ==> p in t && t'[p] == t[p]
    ensures now == used + OwnFrames(t')
    ensures OnPath(t', v) <= OwnFrames(t')
  {
    Tops(v);
    forall f | f in OwnFrames(t) ensures f in OwnFrames(t') {
      var p :| p in t && !Foreign(p, UPPER) && t[p] == f;
      assert t'[p] == f;
    }
  }

  method LiveMap(m: Machine, root: nat, v: Va, frame: nat, flags: Word, ghost t: Places, ghost tk: Places,
                 ghost used: set<nat>, ghost leaves: set<nat>)
    returns (ok: bool, ghost t': Places)
    requires Living(m, root, t, tk, used, leaves) && IsVa(v) && v.i4 < 256
    modifies m`mem, m.pmm`usedFrames, m.pmm.bitmap
    ensures Living(m, root, t', tk, used, leaves)
    ensures ok ==> P1(v) in t' && Remapped(View(old(m.mem), t), View(m.mem, t'), v, flags.(frame := frame))
    ensures ok ==> m.mem[t'[P1(v)]][v.i1] == flags.(frame := frame)
    ensures ok && P1(v) in t ==> m.mem[t'[P1(v)]] == old(m.mem)[t[P1(v)]][v.i1 := flags.(frame := frame)]
    ensures GrownBy(t, t', v) && Kept(old(m.mem), m.mem, old(m.pmm.Used()), OnPath(t', v))
    ensures OnPath(t', v) <= OwnFrames(t')
    ensures !ok ==> m.Exhausted()
  {
    hide IsTree, IsSpace, Allocator.Used, Allocator.Valid, OwnFrames, GrownBy, Fresh, OnPath, Kept, Remapped, SameSpace,
         Foreign, Machine.Exhausted, Installed, PartWay;
    ok, t' := m.MapPage(root, v, frame, flags, t);
    GrownOwn(t, t', v, old(m.pmm.Used()), m.pmm.Used());
    SpaceKept(old(m.mem), m.mem, m.kernelRoot, tk, old(m.pmm.Used()), OnPath(t', v));
  }

  lemma {:induction false} Born(m: Machine, root: nat, t: Places, tk: Places, used: set<nat>, complete: bool)
    requires m.Space(root, t) && m.Space(m.kernelRoot, tk) && tk.Values <= used
    requires OwnFrames(t) !! used && m.pmm.Used() == used + OwnFrames(t)
    requires if complete then SharesUpper(t, tk) else t == map[Root := root]
    ensures Living(m, root, t, tk, used, {})
  {
  }

  lemma {:induction false} LivingFacts(m: Machine, root: nat, t: Places, tk: Places, used: set<nat>, leaves: set<nat>)
    requires Living(m, root, t, tk, used, leaves)
    ensures m.Space(root, t) && OwnFrames(t) !! used && OwnFrames(t) !! leaves && leaves !! used
    ensures m.pmm.Used() == used + leaves + OwnFrames(t)
  {
  }
}
