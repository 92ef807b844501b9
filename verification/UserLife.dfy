/** The life of an address space from its creation to its end, and what it leaves in the frame allocator. */
module UserLife {
  import opened Pmm
  import opened PageTables
  import opened Vmm
  import opened UserSpaces

  // ---- a space that borrows the kernel's entry 0 ----

  ghost const LOW: set<nat> := {0}

  /** The frames of the tables below root entry 0. */
  ghost function LowFrames(t: Places): set<nat> {
    set p | p in t && Foreign(p, LOW) :: t[p]
  }

  /** The frames of the other tables of the lower half, and of the root. */
  ghost function RestFrames(t: Places): set<nat> {
    set p | p in t && !Foreign(p, UPPER) && !Foreign(p, LOW) :: t[p]
  }

  lemma {:induction false} OwnSplits(t: Places)
    ensures OwnFrames(t) == RestFrames(t) + LowFrames(t)
  {
    assert forall p :: Foreign(p, LOW) ==> !Foreign(p, UPPER);
    forall f | f in RestFrames(t) + LowFrames(t) ensures f in OwnFrames(t) {
      var p :| p in t && t[p] == f && !Foreign(p, UPPER);
      assert t[p] in OwnFrames(t);
    }
  }

  /** Both spaces have the same tables below entry 0. */
  ghost predicate SharesLow(t: Places, tk: Places) {
    forall p :: Foreign(p, LOW) ==> (p in t <==> p in tk) && (p in t ==> t[p] == tk[p])
  }

  /** The kernel's tables seen when the space that borrows its entry 0 has changed below it: the places there
      are the space's, all others the kernel's as they were. */
  lemma {:induction false} BorrowedAt(mem: map<nat, Table>, mem': map<nat, Table>, root: nat, t: Places, t': Places,
                                      kr: nat, tk: Places, v: Va, used: set<nat>, p: Path)
    requires IsSpace(mem, root, t) && IsSpace(mem, kr, tk) && SharesLow(t, tk) && root !in tk.Values
    requires GrownBy(t, t', v) && v.i4 == 0 && Fresh(t, t', used) && tk.Values <= used
    requires Kept(mem, mem', used, OnPath(t', v)) && p in tk && !Foreign(p, LOW)
    ensures tk[p] in mem' && mem'[tk[p]] == mem[tk[p]]
  {
    Tops(v);
    RootPlaced(mem, root, t);
    assert tk[p] in tk.Values;
    hide IsTree;
  }

  lemma {:induction false} BorrowedTarget(mem: map<nat, Table>, mem': map<nat, Table>, root: nat, t': Places, kr: nat,
                                          tk: Places)
    requires IsSpace(mem', root, t') && IsSpace(mem, kr, tk)
    requires Down(Root, 0) in t' && Down(Root, 0) in tk && t'[Down(Root, 0)] == tk[Down(Root, 0)]
    ensures root in mem' && kr in mem && SameTarget(mem'[root][0], mem[kr][0])
  {
    RootPlaced(mem', root, t');
    RootPlaced(mem, kr, tk);
    LinkedOrNot(mem', root, t', Root, 0);
    LinkedOrNot(mem, kr, tk, Root, 0);
  }

  lemma {:induction false} LowLink(t: Places, t': Places, tk: Places, v: Va)
    requires GrownBy(t, t', v) && SharesLow(t, tk) && Down(Root, 0) in t
    ensures Down(Root, 0) in t' && Down(Root, 0) in tk && t'[Down(Root, 0)] == tk[Down(Root, 0)]
  {
    assert Foreign(Down(Root, 0), LOW);
  }

  lemma {:induction false} CombineRoot(a: Tables, u: Tables)
    requires Root in a && Root in u
    ensures Root in Combine(a, u, LOW)
    ensures Combine(a, u, LOW)[Root][0] == u[Root][0] && Combine(a, u, LOW)[Root][0 := a[Root][0]] == a[Root]
  {
    assert !Foreign(Root, LOW);
  }

  lemma {:induction false} RetagBorrowed(c: Tables, e: Word)
    requires IsTree(c) && Root in c && SameTarget(c[Root][0], e)
    ensures IsTree(SetEntry(c, Root, 0, e))
  {
    RetagKeeps(c, Root, 0, e);
  }

  lemma {:induction false} BorrowedTables(a: Tables, u: Tables, c: Tables, mem': map<nat, Table>, tk: Places,
                                          t': Places, kroot: Table)
    requires Root in a && Root in u && c == Combine(a, u, LOW) && a.Keys == tk.Keys && u.Keys == t'.Keys
    requires forall p :: p in tk && !Foreign(p, LOW) ==> tk[p] in mem' && mem'[tk[p]] == a[p]
    requires forall p :: p in t' ==> t'[p] in mem' && mem'[t'[p]] == u[p]
    requires Root in c && c[Root][0 := kroot[0]] == a[Root] == kroot && c.Keys == CombinePlaces(tk, t', LOW).Keys
    ensures forall p :: p in CombinePlaces(tk, t', LOW) ==> CombinePlaces(tk, t', LOW)[p] in mem'
    ensures View(mem', CombinePlaces(tk, t', LOW)) == SetEntry(c, Root, 0, kroot[0])
    ensures Root in CombinePlaces(tk, t', LOW) && CombinePlaces(tk, t', LOW)[Root] == tk[Root]
  {
    assert !Foreign(Root, LOW);
  }

  /** The kernel's space when the space that borrows its entry 0 has changed below it. */
  lemma {:induction false} BorrowedView(mem: map<nat, Table>, mem': map<nat, Table>, root: nat, t: Places, t': Places,
                                        kr: nat, tk: Places, v: Va, used: set<nat>)
    requires IsSpace(mem, root, t) && IsSpace(mem, kr, tk) && SharesLow(t, tk) && root !in tk.Values
    requires GrownBy(t, t', v) && v.i4 == 0 && Fresh(t, t', used) && tk.Values <= used
    requires Kept(mem, mem', used, OnPath(t', v)) && IsSpace(mem', root, t') && Down(Root, 0) in t
    ensures var tk' := CombinePlaces(tk, t', LOW);
            (forall p :: p in tk' ==> tk'[p] in mem') && IsTree(View(mem', tk')) && Root in tk' && tk'[Root] == kr
  {
    hide IsSpace, GrownBy, Fresh, Kept, OnPath, SharesLow;
    var tk' := CombinePlaces(tk, t', LOW);
    RootPlaced(mem, kr, tk);
    RootPlaced(mem', root, t');
    SpaceTree(mem, kr, tk);
    SpaceTree(mem', root, t');
    LowLink(t, t', tk, v);
    BorrowedTarget(mem, mem', root, t', kr, tk);
    forall p | p in tk && !Foreign(p, LOW) ensures tk[p] in mem' && mem'[tk[p]] == mem[tk[p]] {
      BorrowedAt(mem, mem', root, t, t', kr, tk, v, used, p);
    }
    var a, u := View(mem, tk), View(mem', t');
    CombineTree(a, u, LOW);
    CombineKeys(a, u, tk, t', LOW);
    var c := Combine(a, u, LOW);
    hide IsTree;
    CombineRoot(a, u);
    RetagBorrowed(c, mem[kr][0]);
    BorrowedTables(a, u, c, mem', tk, t', mem[kr]);
  }

  /** Tables the kernel keeps and tables it shares with the borrowing space are at different frames. */
  lemma {:induction false} BorrowedApart(mem: map<nat, Table>, mem': map<nat, Table>, root: nat, t: Places, t': Places,
                                         kr: nat, tk: Places, used: set<nat>)
    requires IsSpace(mem, kr, tk) && IsSpace(mem', root, t') && SharesLow(t, tk) && Fresh(t, t', used)
    requires tk.Values <= used
    requires forall p :: p in t ==> p in t' && t'[p] == t[p]
    ensures var tk' := CombinePlaces(tk, t', LOW);
            forall p, q :: p in tk' && q in tk' && tk'[p] == tk'[q] ==> p == q
  {
    hide IsTree, Foreign;
    forall p, q | p in tk && !Foreign(p, LOW) && q in t' && Foreign(q, LOW) ensures tk[p] != t'[q] {
      assert tk[p] in tk.Values;
    }
  }

  lemma {:induction false} BorrowedLink(mem: map<nat, Table>, mem': map<nat, Table>, root: nat, t': Places, kr: nat,
                                        tk: Places, p: Path, i: nat)
    requires IsSpace(mem', root, t') && IsSpace(mem, kr, tk) && Down(p, i) in CombinePlaces(tk, t', LOW)
    requires Down(Root, 0) in t' && Down(Root, 0) in tk && t'[Down(Root, 0)] == tk[Down(Root, 0)]
    requires forall q :: q in tk && !Foreign(q, LOW) ==> tk[q] in mem' && mem'[tk[q]] == mem[tk[q]]
    ensures var tk' := CombinePlaces(tk, t', LOW);
            p in tk' && i < 512 && tk'[p] in mem' && tk'[Down(p, i)] == mem'[tk'[p]][i].frame
  {
    BorrowedTarget(mem, mem', root, t', kr, tk);
    RootPlaced(mem, kr, tk);
    hide IsTree;
    assert p != Root ==> Foreign(p, LOW) == Foreign(Down(p, i), LOW);
    assert Foreign(Down(Root, i), LOW) <==> i == 0;
  }

  lemma {:induction false} BorrowedShares(t': Places, tk: Places)
    ensures SharesLow(t', CombinePlaces(tk, t', LOW))
  {
  }

  /** The kernel's space goes on being one, with the tables that the borrowing space has added. */
  lemma {:induction false} BorrowedSpace(mem: map<nat, Table>, mem': map<nat, Table>, root: nat, t: Places, t': Places,
                                         kr: nat, tk: Places, v: Va, used: set<nat>)
    requires IsSpace(mem, root, t) && IsSpace(mem, kr, tk) && SharesLow(t, tk) && root !in tk.Values
    requires GrownBy(t, t', v) && v.i4 == 0 && Fresh(t, t', used) && tk.Values <= used
    requires Kept(mem, mem', used, OnPath(t', v)) && IsSpace(mem', root, t') && Down(Root, 0) in t
    ensures IsSpace(mem', kr, CombinePlaces(tk, t', LOW)) && SharesLow(t', CombinePlaces(tk, t', LOW))
  {
    var tk' := CombinePlaces(tk, t', LOW);
    BorrowedView(mem, mem', root, t, t', kr, tk, v, used);
    GrownKeeps(t, t', v);
    BorrowedApart(mem, mem', root, t, t', kr, tk, used);
    LowLink(t, t', tk, v);
    BorrowedShares(t', tk);
    forall p | p in tk && !Foreign(p, LOW) ensures tk[p] in mem' && mem'[tk[p]] == mem[tk[p]] {
      BorrowedAt(mem, mem', root, t, t', kr, tk, v, used, p);
    }
    forall p, i: nat | Down(p, i) in tk' ensures p in tk' && i < 512 && tk'[Down(p, i)] == mem'[tk'[p]][i].frame {
      hide *;
      BorrowedLink(mem, mem', root, t', kr, tk, p, i);
    }
    hide IsTree, CombinePlaces, GrownBy, Fresh, Kept, OnPath, SharesLow, Foreign;
    MakesSpace(mem', kr, tk');
  }

  // ---- the life of a space ----

  /** What the allocator holds while a space borrows: what was in use before, `low` of it the kernel's tables
      below entry 0, the tables there now, the frames the owner took, and the rest of the space's tables. */
  ghost predicate Books(t: Places, tk: Places, low: set<nat>, used: set<nat>, leaves: set<nat>, now: set<nat>) {
    && low <= used && low <= LowFrames(t) && (LowFrames(t) - low) !! used && tk.Values <= used + LowFrames(t)
    && RestFrames(t) !! used + LowFrames(t) + leaves && leaves !! used + LowFrames(t)
    && now == used + LowFrames(t) + leaves + RestFrames(t)
  }

  lemma {:induction false} BooksApart(t: Places, tk: Places, low: set<nat>, used: set<nat>, leaves: set<nat>,
                                      now: set<nat>)
    requires Books(t, tk, low, used, leaves, now)
    ensures RestFrames(t) !! tk.Values && tk.Values <= now
  {
  }

  /** A living space whose entry 0 is the kernel's. */
  ghost predicate Borrowing(m: Machine, root: nat, t: Places, tk: Places, low: set<nat>, used: set<nat>,
                            leaves: set<nat>)
    reads m, m.pmm, m.pmm.bitmap
  {
    && m.Space(root, t) && m.Space(m.kernelRoot, tk) && SharesLow(t, tk) && Down(Root, 0) in t
    && (forall p :: p in t && Foreign(p, UPPER) ==> t[p] in tk.Values)
    && Books(t, tk, low, used, leaves, m.pmm.Used())
  }

  /** Loading a space that has its own entry 0, or has borrowed one, brings the kernel's half up to date. */
  lemma {:induction false} LoadedFrames(t: Places, tk: Places)
    ensures var t' := CombinePlaces(t, tk, UPPER);
            OwnFrames(t') == OwnFrames(t) && LowFrames(t') == LowFrames(t) && RestFrames(t') == RestFrames(t) &&
            (SharesLow(t, tk) ==> SharesLow(t', tk)) && (Down(Root, 0) in t ==> Down(Root, 0) in t') &&
            forall p :: p in t' && Foreign(p, UPPER) ==> p in tk && t'[p] == tk[p]
  {
    var t' := CombinePlaces(t, tk, UPPER);
    assert forall p :: !Foreign(p, UPPER) ==> (p in t' <==> p in t) && (p in t' ==> t'[p] == t[p]);
    assert forall p :: Foreign(p, LOW) ==> !Foreign(p, UPPER);
  }

  lemma {:induction false} BorrowedApartUpper(mem: map<nat, Table>, kr: nat, t: Places, tk: Places)
    requires IsSpace(mem, kr, tk) && SharesLow(t, tk) && RestFrames(t) !! tk.Values
    ensures Apart(t, tk, UPPER)
  {
    hide IsTree;
    forall p, q | p in t && !Foreign(p, UPPER) && q in tk && Foreign(q, UPPER) ensures t[p] != tk[q] {
      assert tk[q] in tk.Values;
      if !Foreign(p, LOW) {
        assert t[p] in RestFrames(t);
      }
    }
  }

  /** Mapping above entry 0 adds to the space's own tables at most. */
  lemma {:induction false} GrownRest(t: Places, t': Places, v: Va, used: set<nat>, now: set<nat>)
    requires GrownBy(t, t', v) && Fresh(t, t', used) && 0 < v.i4 < 256 && t.Values <= used && now == used + t'.Values
    ensures LowFrames(t') == LowFrames(t) && RestFrames(t) <= RestFrames(t')
    ensures (RestFrames(t') - RestFrames(t)) !! used && now == used + RestFrames(t') && OnPath(t', v) <= RestFrames(t')
    ensures forall p :: Foreign(p, LOW) || Foreign(p, UPPER) ==> (p in t' <==> p in t) && (p in t' ==> t'[p] == t[p])
  {
    Tops(v);
    assert forall p :: p in t ==> t[p] in t.Values;
    forall f | f in LowFrames(t) ensures f in LowFrames(t') {
      var p :| p in t && Foreign(p, LOW) && t[p] == f;
      assert t'[p] == f;
    }
    forall f | f in RestFrames(t) ensures f in RestFrames(t') {
      var p :| p in t && !Foreign(p, UPPER) && !Foreign(p, LOW) && t[p] == f;
      assert t'[p] == f;
    }
  }

  /** Mapping below entry 0 adds to the tables there at most. */
  lemma {:induction false} GrownLow(t: Places, t': Places, v: Va, used: set<nat>, now: set<nat>)
    requires GrownBy(t, t', v) && Fresh(t, t', used) && v.i4 == 0 && t.Values <= used && now == used + t'.Values
    ensures RestFrames(t') == RestFrames(t) && LowFrames(t) <= LowFrames(t')
    ensures (LowFrames(t') - LowFrames(t)) !! used && now == used + LowFrames(t')
    ensures forall p :: p in t' && Foreign(p, UPPER) ==> p in t && t'[p] == t[p]
  {
    Tops(v);
    assert forall p :: p in t ==> t[p] in t.Values;
    forall f | f in LowFrames(t) ensures f in LowFrames(t') {
      var p :| p in t && Foreign(p, LOW) && t[p] == f;
      assert t'[p] == f;
    }
    forall f | f in RestFrames(t) ensures f in RestFrames(t') {
      var p :| p in t && !Foreign(p, UPPER) && !Foreign(p, LOW) && t[p] == f;
      assert t'[p] == f;
    }
  }

  lemma {:induction false} BooksGrown(t: Places, t': Places, tk: Places, tk': Places, v: Va, low: set<nat>,
                                      used: set<nat>, leaves: set<nat>, before: set<nat>, now: set<nat>)
    requires Books(t, tk, low, used, leaves, before) && t.Values <= before && now == before + t'.Values && v.i4 < 256
    requires GrownBy(t, t', v) && Fresh(t, t', before)
    requires if v.i4 == 0 then tk'.Values <= tk.Values + LowFrames(t') else tk' == tk
    ensures Books(t', tk', low, used, leaves, now)
  {
    hide GrownBy, Fresh, LowFrames, RestFrames, OnPath;
    if v.i4 == 0 {
      GrownLow(t, t', v, before, now);
    } else {
      GrownRest(t, t', v, before, now);
    }
  }

  /** What the kernel's places are when tables have been added below its entry 0. */
  lemma {:induction false} KernelGrown(t: Places, t': Places, tk: Places, used: set<nat>, total: nat)
    requires SharesLow(t, tk) && (forall p :: p in t ==> p in t' && t'[p] == t[p])
    requires Held(used, total, tk) && Held(used, total, t')
    ensures var tk' := CombinePlaces(tk, t', LOW);
            Held(used, total, tk') && tk.Values <= tk'.Values && tk'.Values <= tk.Values + LowFrames(t')
  {
    var tk' := CombinePlaces(tk, t', LOW);
    forall f | f in tk.Values ensures f in tk'.Values {
      var p :| p in tk && tk[p] == f;
      assert tk'[p] == f;
    }
    forall f | f in tk'.Values ensures f in tk.Values + LowFrames(t') {
      var p :| p in tk' && tk'[p] == f;
      if Foreign(p, LOW) {
        assert t'[p] in LowFrames(t');
      } else {
        assert tk[p] in tk.Values;
      }
    }
  }

  lemma {:induction false} SharesKept(t: Places, t': Places, tk: Places)
    requires SharesLow(t, tk) && forall p :: Foreign(p, LOW) ==> (p in t' <==> p in t) && (p in t' ==> t'[p] == t[p])
    ensures SharesLow(t', tk)
  {
  }

  /** Nothing hangs below an absent entry of the root. */
  lemma {:induction false} NoneLow(mem: map<nat, Table>, root: nat, t: Places)
    requires IsSpace(mem, root, t) && Down(Root, 0) !in t
    ensures forall p :: p in t ==> !Foreign(p, LOW)
  {
    NothingBelow(mem, root, t, Root, 0);
    forall p | p in t ensures !Foreign(p, LOW) {
      TopIsBranch(p);
    }
  }

  /** Loading a space without an entry 0 gives it the kernel's. */
  lemma {:induction false} TakenFrames(t: Places, tk: Places)
    requires forall p :: p in t ==> !Foreign(p, LOW)
    ensures var t' := CombinePlaces(t, tk, UPPER + LOW);
            RestFrames(t') == OwnFrames(t) && LowFrames(t') == LowFrames(tk) && LowFrames(tk) <= tk.Values &&
            OwnFrames(t') == OwnFrames(t) + LowFrames(tk) &&
            SharesLow(t', tk) && (Down(Root, 0) in t' <==> Down(Root, 0) in tk) &&
            forall p :: p in t' && Foreign(p, UPPER) ==> p in tk && t'[p] == tk[p]
  {
    var t' := CombinePlaces(t, tk, UPPER + LOW);
    OwnSplits(t');
    assert forall p :: Foreign(p, UPPER + LOW) <==> Foreign(p, UPPER) || Foreign(p, LOW);
    assert forall p :: !Foreign(p, UPPER) && !Foreign(p, LOW) ==> (p in t' <==> p in t) && (p in t' ==> t'[p] == t[p]);
    assert Foreign(Down(Root, 0), LOW);
  }

  lemma {:induction false} LowIff(mem: map<nat, Table>, root: nat, t: Places)
    requires IsSpace(mem, root, t)
    ensures LowFrames(t) != {} <==> Down(Root, 0) in t
  {
    if Down(Root, 0) in t {
      assert Foreign(Down(Root, 0), LOW);
      assert t[Down(Root, 0)] in LowFrames(t);
    } else {
      NoneLow(mem, root, t);
    }
  }

  lemma {:induction false} OwnApart(t: Places, tk: Places, s: set<nat>)
    requires OwnFrames(t) !! tk.Values && UPPER <= s
    ensures Apart(t, tk, s)
  {
    forall p, q | p in t && !Foreign(p, s) && q in tk && Foreign(q, s) ensures t[p] != tk[q] {
      assert t[p] in OwnFrames(t) && tk[q] in tk.Values;
    }
  }

  lemma {:induction false} OwnHasRoot(t: Places)
    requires Root in t
    ensures t[Root] in OwnFrames(t) && t[Root] in RestFrames(t)
  {
  }

  /** A space in use, borrowing or not; the kernel's tables were at `tk0` when it was created. */
  ghost predicate InUse(m: Machine, root: nat, t: Places, tk: Places, tk0: Places, used: set<nat>, leaves: set<nat>,
                        borrowed: bool)
    reads m, m.pmm, m.pmm.bitmap
  {
    if borrowed then Borrowing(m, root, t, tk, LowFrames(tk0), used, leaves)
    else tk == tk0 && Living(m, root, t, tk, used, leaves)
  }

  lemma {:induction false} SubsetSmaller(a: set<nat>, b: set<nat>)
    requires a <= b
    ensures |a| <= |b|
  {
    if a != {} {
      var x :| x in a;
      SubsetSmaller(a - {x}, b - {x});
    }
  }

  lemma {:induction false} TwoFree(used: set<nat>, total: nat, a: nat, b: nat)
    requires 1 <= a < total && 1 <= b < total && a !in used && b !in used
    ensures CanHave(used, total, if a == b then 1 else 2)
  {
    var few := {a, b};
    assert few <= FreeFrames(used, total);
    SubsetSmaller(few, FreeFrames(used, total));
  }

  lemma {:induction false} AboveIn(mem: map<nat, Table>, root: nat, t: Places, v: Va)
    requires IsSpace(mem, root, t)
    ensures (P1(v) in t ==> P2(v) in t) && (P2(v) in t ==> P3(v) in t && t[P2(v)] != t[P3(v)])
  {
    hide IsTree;
    assert P2(v) != P3(v);
  }

  /** A mapping that finds no frame adds no table. */
  lemma {:induction false} NothingAdded(t: Places, t': Places, v: Va, used: set<nat>, now: set<nat>, total: nat)
    requires GrownBy(t, t', v) && Fresh(t, t', used) && Held(now, total, t') && now == used + t'.Values
    requires t.Values <= used
    requires !CanHave(used, total, 1)
    ensures t' == t && now == used
  {
    hide CanHave;
    forall p | p in t' ensures p in t {
      if p !in t {
        TwoFree(used, total, t'[p], t'[p]);
      }
    }
    assert t' == t;
  }

  /** A mapping into an empty space that finds one frame uses it for the table below the root. */
  lemma {:induction false} OneAdded(mem: map<nat, Table>, root: nat, t: Places, t': Places, v: Va, used: set<nat>,
                                    now: set<nat>, total: nat, ok: bool)
    requires IsSpace(mem, root, t') && GrownBy(t, t', v) && Fresh(t, t', used) && Held(now, total, t')
    requires now == used + t'.Values && t.Values <= used && t == map[Root := root] && !CanHave(used, total, 2)
    requires if ok then P1(v) in t' else !CanHave(now, total, 1)
    ensures !CanHave(now, total, 1) && (CanHave(used, total, 1) ==> P3(v) in t')
  {
    hide CanHave;
    AboveIn(mem, root, t', v);
    if P2(v) in t' {
      TwoFree(used, total, t'[P2(v)], t'[P3(v)]);
    }
    if P3(v) !in t' {
      assert t'.Keys == {Root};
      assert t' == t && now == used;
    }
  }

  /** The owner takes a frame, and how many can still be had. */
  method TakeFree(m: Machine) returns (f: nat)
    requires m.Valid()
    modifies m.pmm`usedFrames, m.pmm.bitmap
    ensures m.Valid() && m.pmm.Used() == old(m.pmm.Used()) + (if f == 0 then {} else {f})
    ensures f != 0 ==> f !in old(m.pmm.Used())
    ensures f == 0 <==> !CanHave(old(m.pmm.Used()), m.pmm.totalFrames, 1)
    ensures !CanHave(old(m.pmm.Used()), m.pmm.totalFrames, 2) ==> !CanHave(m.pmm.Used(), m.pmm.totalFrames, 1)
  {
    hide Allocator.Used, Allocator.Valid, CanHave;
    var phys := m.pmm.AllocFrame();
    f := phys / PAGE_SIZE;
    if f == 0 {
      FreeNone(m.pmm.Used(), m.pmm.totalFrames);
    } else {
      FreeStep(old(m.pmm.Used()), m.pmm.totalFrames, f, 1);
    }
  }

  /** The owner takes a frame for its own use; 0 when there is none. */
  method TakeLeaf(m: Machine, ghost root: nat, ghost t: Places, ghost tk: Places, ghost tk0: Places,
                  ghost used: set<nat>, ghost leaves: set<nat>, ghost borrowed: bool)
    returns (f: nat, ghost leaves': set<nat>)
    requires InUse(m, root, t, tk, tk0, used, leaves, borrowed)
    modifies m.pmm`usedFrames, m.pmm.bitmap
    ensures leaves' == leaves + (if f == 0 then {} else {f}) && (f != 0 ==> f !in leaves)
    ensures InUse(m, root, t, tk, tk0, used, leaves', borrowed)
    ensures f == 0 <==> !CanHave(old(m.pmm.Used()), m.pmm.totalFrames, 1)
    ensures !CanHave(old(m.pmm.Used()), m.pmm.totalFrames, 2) ==> !CanHave(m.pmm.Used(), m.pmm.totalFrames, 1)
  {
    hide IsTree, IsSpace, Allocator.Used, Allocator.Valid, OwnFrames, LowFrames, RestFrames, SharesLow, Foreign,
         CanHave;
    f := TakeFree(m);
    leaves' := leaves + if f == 0 then {} else {f};
  }

  /** A mapping of a user page. In a borrowing space it is one in the kernel's space too, below entry 0. */
  method MapUser(m: Machine, root: nat, v: Va, frame: nat, flags: Word, ghost t: Places, ghost tk: Places,
                 ghost tk0: Places, ghost used: set<nat>, ghost leaves: set<nat>, ghost borrowed: bool)
    returns (ok: bool, ghost t': Places, ghost tk': Places)
    requires InUse(m, root, t, tk, tk0, used, leaves, borrowed) && IsVa(v) && v.i4 < 256
    modifies m`mem, m.pmm`usedFrames, m.pmm.bitmap
    ensures InUse(m, root, t', tk', tk0, used, leaves, borrowed) && GrownBy(t, t', v)
    ensures Fresh(t, t', old(m.pmm.Used())) && m.pmm.Used() == old(m.pmm.Used()) + t'.Values
    ensures if ok then P1(v) in t' else m.Exhausted()
  {
    hide IsTree, IsSpace, Allocator.Used, Allocator.Valid, GrownBy, Fresh, OnPath, Kept, Remapped, SameSpace, Foreign,
         Machine.Exhausted, Installed, PartWay, LowFrames, RestFrames, OwnFrames, SharesLow, CombinePlaces, Held, Books;
    ghost var before := m.pmm.Used();
    HeldValues(before, m.pmm.totalFrames, t);
    HeldValues(before, m.pmm.totalFrames, tk);
    RootPlaced(m.mem, root, t);
    OwnHasRoot(t);
    ok, t' := m.MapPage(root, v, frame, flags, t);
    GrownKeeps(t, t', v);
    tk' := tk;
    HeldMore(before, m.pmm.Used(), m.pmm.totalFrames, tk);
    if !borrowed {
      assert forall p :: p in t ==> t[p] in t.Values;
      GrownOwn(t, t', v, before, m.pmm.Used());
      SpaceKept(old(m.mem), m.mem, m.kernelRoot, tk, before, OnPath(t', v));
    } else if v.i4 == 0 {
      tk' := CombinePlaces(tk, t', LOW);
      GrownLow(t, t', v, before, m.pmm.Used());
      KernelGrown(t, t', tk, m.pmm.Used(), m.pmm.totalFrames);
      BooksApart(t, tk, LowFrames(tk0), used, leaves, before);
      BooksGrown(t, t', tk, tk', v, LowFrames(tk0), used, leaves, before, m.pmm.Used());
      BorrowedSpace(old(m.mem), m.mem, root, t, t', m.kernelRoot, tk, v, before);
    } else {
      GrownRest(t, t', v, before, m.pmm.Used());
      BooksApart(t, tk, LowFrames(tk0), used, leaves, before);
      BooksGrown(t, t', tk, tk', v, LowFrames(tk0), used, leaves, before, m.pmm.Used());
      SharesKept(t, t', tk);
      SpaceKept(old(m.mem), m.mem, m.kernelRoot, tk, before, OnPath(t', v));
    }
  }

  /** Loads the space. It comes to borrow exactly if it has no entry 0 and the kernel has one. */
  method LoadUser(m: Machine, root: nat, ghost t: Places, ghost tk: Places, ghost tk0: Places, ghost used: set<nat>,
                  ghost leaves: set<nat>, ghost borrowed: bool)
    returns (ghost t': Places, ghost borrowed': bool)
    requires InUse(m, root, t, tk, tk0, used, leaves, borrowed)
    modifies m`mem
    ensures borrowed' <==> borrowed || (Down(Root, 0) !in t && Down(Root, 0) in tk0)
    ensures InUse(m, root, t', tk, tk0, used, leaves, borrowed')
    ensures Down(Root, 0) in t ==> Down(Root, 0) in t'
  {
    hide IsTree, IsSpace, Translate, Allocator.Used, Allocator.Valid, OwnFrames, CombinePlaces, Foreign, LowFrames,
         RestFrames, Apart, SharesLow;
    RootPlaced(m.mem, root, t);
    RootPlaced(m.mem, m.kernelRoot, tk);
    OwnHasRoot(t);
    LinkedOrNot(m.mem, root, t, Root, 0);
    assert tk[Root] in tk.Values;
    if borrowed {
      BorrowedApartUpper(m.mem, m.kernelRoot, t, tk);
    } else {
      OwnApart(t, tk, Synced(m.mem, root));
    }
    if Down(Root, 0) in t {
      assert Synced(m.mem, root) == UPPER;
      LoadedFrames(t, tk);
    } else {
      assert Synced(m.mem, root) == UPPER + LOW;
      NoneLow(m.mem, root, t);
      TakenFrames(t, tk);
      LowIff(m.mem, m.kernelRoot, tk);
    }
    borrowed' := borrowed || (Down(Root, 0) !in t && Down(Root, 0) in tk0);
    t' := Activate(m, root, t, tk);
  }

  /** What is done to a space between its creation and its end. */
  datatype SpaceOp = TakeFrame | Map(v: Va, frame: nat, flags: Word) | Load

  predicate UserOp(op: SpaceOp) { op.Map? ==> IsVa(op.v) && op.v.i4 < 256 }

  lemma {:induction false} BornInUse(m: Machine, root: nat, t: Places, tk: Places, used: set<nat>, complete: bool)
    requires m.Space(root, t) && m.Space(m.kernelRoot, tk) && tk.Values <= used
    requires OwnFrames(t) !! used && m.pmm.Used() == used + OwnFrames(t)
    requires if complete then FreshSpace(View(m.mem, t), View(m.mem, tk)) && SharesUpper(t, tk)
             else t == map[Root := root]
    ensures InUse(m, root, t, tk, tk, used, {}, false) && (complete ==> Down(Root, 0) in t)
    ensures !complete ==> m.pmm.Used() == used + {root} && 1 <= root < m.pmm.totalFrames && root !in used
  {
    hide IsTree, Allocator.Used, Allocator.Valid, OwnFrames, LowFrames, RestFrames;
    Born(m, root, t, tk, used, complete);
    OwnFramesSmall(root);
    if complete {
      var v := Va(0, 0, 0, 0, 0);
      assert Translate(View(m.mem, t), v) == Mapped(0);
      WalkIsTranslate(m.mem, root, t, v);
      assert P2(v) in t;
    }
  }

  lemma {:induction false} EndOfLife(m: Machine, root: nat, t: Places, tk: Places, tk0: Places, used: set<nat>,
                                     leaves: set<nat>, borrowed: bool)
    requires InUse(m, root, t, tk, tk0, used, leaves, borrowed)
    ensures m.Space(root, t) && leaves !! used && (borrowed ==> LowFrames(tk0) <= used)
    ensures m.pmm.Used() - OwnFrames(t) == used - (if borrowed then LowFrames(tk0) else {}) + leaves
  {
    hide IsTree, IsSpace, Allocator.Used, Allocator.Valid, OwnFrames, LowFrames, RestFrames, SharesLow, Foreign;
    if borrowed {
      OwnSplits(t);
    } else {
      LivingFacts(m, root, t, tk, used, leaves);
    }
  }

  /** How many frames the owner asks for. */
  function Takes(ops: seq<SpaceOp>): nat {
    if ops == [] then 0 else Takes(ops[..|ops| - 1]) + if ops[|ops| - 1] == TakeFrame then 1 else 0
  }

  /** The frames the owner got. */
  ghost function Gained(taken: seq<nat>): set<nat> { set f | f in taken && f != 0 }

  /** No frame was given twice. */
  ghost predicate GivenOnce(taken: seq<nat>) {
    forall i, j :: 0 <= i < j < |taken| && taken[i] != 0 ==> taken[i] != taken[j]
  }

  lemma {:induction false} GainedMore(taken: seq<nat>, f: nat)
    ensures Gained(taken + [f]) == Gained(taken) + if f == 0 then {} else {f}
    ensures GivenOnce(taken) && (f != 0 ==> f !in Gained(taken)) ==> GivenOnce(taken + [f])
  {
  }

  predicate MapsLow(op: SpaceOp) { op.Map? && op.v.i4 == 0 }

  /** When a space comes to share the kernel's entry 0: frames run out during its creation, it is loaded, and
      its first use is not a mapping below entry 0 that still finds a frame. */
  ghost predicate Borrows(used: set<nat>, total: nat, tk: Places, ops: seq<SpaceOp>) {
    CanHave(used, total, 1) && !CanHave(used, total, 3) && LowFrames(tk) != {} && Load in ops &&
    !(CanHave(used, total, 2) && MapsLow(ops[0]))
  }

  /** How a space without an own entry 0 stands after `i` operations, as long as it does not borrow: either its
      first use gave it an entry 0, or it has none and no frame is left. */
  ghost predicate Poor(used: set<nat>, now: set<nat>, total: nat, root: nat, t: Places, ops: seq<SpaceOp>, i: nat)
    requires i <= |ops|
  {
    if i == 0 then
      t == map[Root := root] && !CanHave(now, total, 2) && (CanHave(now, total, 1) <==> CanHave(used, total, 2))
    else if CanHave(used, total, 2) && MapsLow(ops[0]) then Down(Root, 0) in t
    else Down(Root, 0) !in t && !CanHave(now, total, 1) && Load !in ops[..i]
  }

  lemma {:induction false} FirstOp(ops: seq<SpaceOp>, i: nat)
    requires i < |ops|
    ensures Load in ops[..i + 1] <==> Load in ops[..i] || ops[i] == Load
    ensures Takes(ops[..i + 1]) == Takes(ops[..i]) + if ops[i] == TakeFrame then 1 else 0
  {
    assert ops[..i + 1] == ops[..i] + [ops[i]];
    assert ops[..i + 1][..i] == ops[..i];
  }

  lemma {:induction false} FewerFrames(used: set<nat>, total: nat)
    ensures CanHave(used, total, 2) ==> CanHave(used, total, 1)
  {
  }

  lemma {:induction false} PoorTake(used: set<nat>, now: set<nat>, now': set<nat>, total: nat, root: nat, t: Places,
                                    ops: seq<SpaceOp>, i: nat)
    requires i < |ops| && ops[i] == TakeFrame && Poor(used, now, total, root, t, ops, i)
    requires !CanHave(now, total, 2) ==> !CanHave(now', total, 1)
    ensures Poor(used, now', total, root, t, ops, i + 1)
  {
    hide CanHave;
    FirstOp(ops, i);
    FewerFrames(now, total);
  }

  lemma {:induction false} OtherEntry(t: Places, t': Places, v: Va)
    requires GrownBy(t, t', v)
    ensures Down(Root, 0) in t ==> Down(Root, 0) in t'
    ensures v.i4 != 0 && Down(Root, 0) in t' ==> Down(Root, 0) in t
  {
  }

  lemma {:induction false} PoorMap(mem: map<nat, Table>, used: set<nat>, now: set<nat>, now': set<nat>, total: nat,
                                   root: nat, t: Places, t': Places, ops: seq<SpaceOp>, i: nat, ok: bool)
    requires i < |ops| && ops[i].Map? && Poor(used, now, total, root, t, ops, i)
    requires IsSpace(mem, root, t') && GrownBy(t, t', ops[i].v) && Fresh(t, t', now) && Held(now', total, t')
    requires now' == now + t'.Values && t.Values <= now
    requires if ok then P1(ops[i].v) in t' else !CanHave(now', total, 1)
    ensures Poor(used, now', total, root, t', ops, i + 1)
  {
    hide CanHave, IsSpace, Fresh, Held, GrownBy;
    FirstOp(ops, i);
    OtherEntry(t, t', ops[i].v);
    if i == 0 {
      OneAdded(mem, root, t, t', ops[i].v, now, now', total, ok);
      if !CanHave(now, total, 1) {
        NothingAdded(t, t', ops[i].v, now, now', total);
      }
    } else if !CanHave(now, total, 1) {
      NothingAdded(t, t', ops[i].v, now, now', total);
    }
  }

  lemma {:induction false} NoneGained()
    ensures Gained([]) == {} && GivenOnce([]) && Takes([]) == 0
  {
  }

  lemma {:induction false} BornPoor(used: set<nat>, now: set<nat>, total: nat, root: nat, t: Places, ops: seq<SpaceOp>)
    requires t == map[Root := root] && now == used + {root} && 1 <= root < total && root !in used
    requires !CanHave(used, total, 3)
    ensures Poor(used, now, total, root, t, ops, 0)
  {
    hide CanHave;
    FreeStep(used, total, root, 2);
    FreeStep(used, total, root, 1);
  }

  lemma {:induction false} PoorLoad(used: set<nat>, now: set<nat>, total: nat, root: nat, t: Places, t': Places,
                                    tk: Places, ops: seq<SpaceOp>, i: nat)
    requires i < |ops| && ops[i] == Load && Poor(used, now, total, root, t, ops, i) && CanHave(used, total, 1)
    requires !CanHave(used, total, 3) && LowFrames(tk) != {}
    ensures Down(Root, 0) !in t ==> Borrows(used, total, tk, ops)
    ensures Down(Root, 0) in t && Down(Root, 0) in t' ==> Poor(used, now, total, root, t', ops, i + 1)
  {
    hide CanHave, LowFrames;
    FirstOp(ops, i);
  }

  lemma {:induction false} PoorEnd(used: set<nat>, now: set<nat>, total: nat, root: nat, t: Places, tk: Places,
                                   ops: seq<SpaceOp>)
    requires Poor(used, now, total, root, t, ops, |ops|)
    ensures !Borrows(used, total, tk, ops)
  {
    hide CanHave, LowFrames;
    assert ops[..|ops|] == ops;
  }

  lemma {:induction false} InUseFacts(m: Machine, root: nat, t: Places, tk: Places, tk0: Places, used: set<nat>,
                                      leaves: set<nat>, borrowed: bool)
    requires InUse(m, root, t, tk, tk0, used, leaves, borrowed)
    ensures IsSpace(m.mem, root, t) && Held(m.pmm.Used(), m.pmm.totalFrames, t) && t.Values <= m.pmm.Used()
  {
    hide IsSpace, Allocator.Used, Allocator.Valid, OwnFrames, Books, SharesLow, Foreign;
    HeldValues(m.pmm.Used(), m.pmm.totalFrames, t);
  }

  /** A space is created, used and destroyed, failed mappings included: in the end the allocator holds what it
      held before and the frames the owner took, one for each time it asked and there was one. But a space that
      found fewer than three free frames at its creation has no entry 0; if it is loaded so it takes the
      kernel's, and its end frees the kernel's tables below that entry. `taken` are the answers to the owner's
      requests, 0 when there was no frame. */
  method SpaceLife(m: Machine, ops: seq<SpaceOp>, ghost tk: Places) returns (taken: seq<nat>, ghost borrowed: bool)
    requires m.Space(m.kernelRoot, tk) && forall i :: 0 <= i < |ops| ==> UserOp(ops[i])
    modifies m`mem, m.pmm`usedFrames, m.pmm.bitmap
    ensures m.Valid() && Gained(taken) !! old(m.pmm.Used()) && GivenOnce(taken)
    ensures |taken| == if CanHave(old(m.pmm.Used()), m.pmm.totalFrames, 1) then Takes(ops) else 0
    ensures m.pmm.Used() == old(m.pmm.Used()) - (if borrowed then LowFrames(tk) else {}) + Gained(taken)
    ensures borrowed <==> Borrows(old(m.pmm.Used()), m.pmm.totalFrames, tk, ops)
    ensures borrowed ==> LowFrames(tk) <= old(m.pmm.Used())
  {
    hide IsTree, IsSpace, Translate, Allocator.Used, Allocator.Valid, OwnFrames, FreshSpace, Kept, InUse, Foreign,
         LowFrames, RestFrames, SharesUpper, CanHave, GrownBy, Fresh, Held, Gained, GivenOnce, Poor, Takes;
    ghost var used, total, tk', leaves := m.pmm.Used(), m.pmm.totalFrames, tk, {};
    taken, borrowed := [], false;
    NoneGained();
    HeldValues(used, total, tk);
    LowIff(m.mem, m.kernelRoot, tk);
    var root: nat;
    ghost var t, complete;
    root, t, complete := CreateUserSpace(m, tk);
    if root == 0 {
      OwnFramesSmall(0);
      return;
    }
    BornInUse(m, root, t, tk, used, complete);
    if !complete {
      BornPoor(used, m.pmm.Used(), total, root, t, ops);
    }
    var i := 0;
    assert ops[..0] == [];
    while i < |ops|
      invariant 0 <= i <= |ops| && m.pmm.totalFrames == total && InUse(m, root, t, tk', tk, used, leaves, borrowed)
      invariant |taken| == Takes(ops[..i]) && leaves == Gained(taken) && GivenOnce(taken)
      invariant complete ==> Down(Root, 0) in t && !borrowed
      invariant borrowed ==> Borrows(used, total, tk, ops)
      invariant !complete && !borrowed && Down(Root, 0) in tk ==> Poor(used, m.pmm.Used(), total, root, t, ops, i)
      invariant Down(Root, 0) !in tk ==> !borrowed
    {
      assert UserOp(ops[i]);
      FirstOp(ops, i);
      match ops[i] {
        case TakeFrame =>
          ghost var now := m.pmm.Used();
          var f;
          f, leaves := TakeLeaf(m, root, t, tk', tk, used, leaves, borrowed);
          GainedMore(taken, f);
          taken := taken + [f];
          if !complete && !borrowed && Down(Root, 0) in tk {
            PoorTake(used, now, m.pmm.Used(), total, root, t, ops, i);
          }
        case Map(v, frame, flags) =>
          ghost var t0, now := t, m.pmm.Used();
          InUseFacts(m, root, t, tk', tk, used, leaves, borrowed);
          var ok;
          ok, t, tk' := MapUser(m, root, v, frame, flags, t, tk', tk, used, leaves, borrowed);
          GrownKeeps(t0, t, v);
          if !complete && !borrowed && Down(Root, 0) in tk {
            InUseFacts(m, root, t, tk', tk, used, leaves, borrowed);
            if !ok {
              FreeNone(m.pmm.Used(), total);
            }
            PoorMap(m.mem, used, now, m.pmm.Used(), total, root, t0, t, ops, i, ok);
          }
        case Load =>
          ghost var t0, was := t, borrowed;
          t, borrowed := LoadUser(m, root, t, tk', tk, used, leaves, borrowed);
          if !complete && !was && Down(Root, 0) in tk {
            PoorLoad(used, m.pmm.Used(), total, root, t0, t, tk, ops, i);
          }
      }
      i := i + 1;
    }
    assert ops[..i] == ops;
    if !complete && !borrowed && Down(Root, 0) in tk {
      PoorEnd(used, m.pmm.Used(), total, root, t, tk, ops);
    }
    EndOfLife(m, root, t, tk', tk, used, leaves, borrowed);
    DestroyUserSpace(m, root, t);
  }
}
