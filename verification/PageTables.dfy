/** Four-level page tables as a tree of 512-entry tables, and what translation makes of them. */
module PageTables {

  /** A 64-bit word seen as a page-table entry: `frame` bits 12..51, `low` the flag bits 3..6 and
      8..11, `high` bits 52..62, and the flags the kernel names. */
  datatype Word = Word(frame: nat, present: bool, write: bool, user: bool, huge: bool, nx: bool, low: nat, high: nat)

  const ZERO := Word(0, false, false, false, false, false, 0, 0)

  type Table = s: seq<Word> | |s| == 512 witness seq(512, _ => ZERO)

  /** A table's place: the root, or entry `i` of the table at `up`. */
  datatype Path = Root | Down(up: Path, i: nat)

  function Level(p: Path): nat {
    match p case Root => 0 case Down(q, _) => 1 + Level(q)
  }

  /** A virtual address by its four indices and its page offset. */
  datatype Va = Va(i4: nat, i3: nat, i2: nat, i1: nat, offset: nat)

  predicate IsVa(v: Va) { v.i4 < 512 && v.i3 < 512 && v.i2 < 512 && v.i1 < 512 && v.offset < 4096 }

  function P3(v: Va): Path { Down(Root, v.i4) }

  function P2(v: Va): Path { Down(P3(v), v.i3) }

  function P1(v: Va): Path { Down(P2(v), v.i2) }

  lemma {:induction false} Levels(v: Va)
    ensures Level(P3(v)) == 1 && Level(P2(v)) == 2 && Level(P1(v)) == 3
  {
  }

  predicate SamePage(v: Va, w: Va) { v.i4 == w.i4 && v.i3 == w.i3 && v.i2 == w.i2 && v.i1 == w.i1 }

  /** The entry leads to a table of the next level. */
  predicate IsLink(e: Word) { e.present && !e.huge }

  /** The address bits are all there is beyond the low flags. */
  predicate Plain(e: Word) { !e.nx && e.high == 0 }

  /** The tables of an address space, by place. */
  type Tables = map<Path, Table>

  ghost predicate EntryOk(a: Tables, p: Path, i: nat)
    requires p in a && i < 512
  {
    && (Down(p, i) in a <==> IsLink(a[p][i]))
    && (IsLink(a[p][i]) ==> Plain(a[p][i]))
    && (Level(p) < 2 ==> !(a[p][i].present && a[p][i].huge))
  }

  /** The tables form a tree in which exactly the links have children; large pages occur in page
      directories only. */
  ghost predicate IsTree(a: Tables) {
    && Root in a
    && (forall p :: p in a ==> Level(p) <= 3)
    && (forall p, i :: Down(p, i) in a ==> p in a && i < 512)
    && (forall p, i :: p in a && Level(p) < 3 && 0 <= i < 512 ==> EntryOk(a, p, i))
  }

  datatype Translation = Unmapped | Mapped(phys: nat)

  /** What an address translates to. */
  function Translate(a: Tables, v: Va): Translation
    requires IsVa(v)
  {
    if P2(v) !in a then Unmapped
    else
      var e := a[P2(v)][v.i2];
      if !e.present then Unmapped
      else if e.huge then Mapped(e.frame * 4096 + v.i1 * 4096 + v.offset)
      else if P1(v) !in a || !a[P1(v)][v.i1].present then Unmapped
      else Mapped(a[P1(v)][v.i1].frame * 4096 + v.offset)
  }

  // ---- the steps of a mapping ----

  /** Same target, whatever the permissions. */
  predicate SameTarget(e: Word, f: Word) {
    e.present == f.present && e.huge == f.huge && e.frame == f.frame && e.nx == f.nx && e.high == f.high
  }

  function SetEntry(a: Tables, p: Path, i: nat, e: Word): Tables
    requires p in a && i < 512
  {
    a[p := a[p][i := e]]
  }

  /** The space translates every address alike. */
  ghost predicate SameSpace(a: Tables, b: Tables) {
    forall v :: IsVa(v) ==> Translate(a, v) == Translate(b, v)
  }

  /** Changing the permissions of an entry. */
  lemma {:induction false} RetagKeeps(a: Tables, p: Path, i: nat, e: Word)
    requires IsTree(a) && p in a && i < 512 && SameTarget(a[p][i], e)
    ensures IsTree(SetEntry(a, p, i, e)) && SameSpace(a, SetEntry(a, p, i, e))
  {
    var b := SetEntry(a, p, i, e);
    forall q, j | q in b && Level(q) < 3 && 0 <= j < 512 ensures EntryOk(b, q, j) {
      assert EntryOk(a, q, j);
    }
  }

  /** What a new table may hold behind the entry that leads to it: nothing where there was nothing,
      and the 512 small pages of a large page. */
  ghost predicate Fills(a: Tables, p: Path, i: nat, t: Table)
    requires p in a && i < 512
  {
    var e := a[p][i];
    if !e.present then forall j :: 0 <= j < 512 ==> t[j] == ZERO
    else Level(p) == 2 && e.huge && forall j :: 0 <= j < 512 ==> t[j].present && t[j].frame == e.frame + j
  }

  /** The tables after entry `i` of the table at `p` has been made a link `e` to a new table `t`. */
  function Attach(a: Tables, p: Path, i: nat, e: Word, t: Table): Tables
    requires p in a && i < 512
  {
    SetEntry(a, p, i, e)[Down(p, i) := t]
  }

  lemma {:induction false} AttachTree(a: Tables, p: Path, i: nat, e: Word, t: Table)
    requires IsTree(a) && p in a && i < 512 && Level(p) < 3 && !IsLink(a[p][i]) && Fills(a, p, i, t)
    requires IsLink(e) && Plain(e)
    ensures IsTree(Attach(a, p, i, e, t))
  {
    var b := Attach(a, p, i, e, t);
    assert EntryOk(a, p, i);
    forall q, j | q in b && Level(q) < 3 && 0 <= j < 512 ensures EntryOk(b, q, j) {
      if q == Down(p, i) {
        assert Down(q, j) !in a;
      } else {
        assert EntryOk(a, q, j);
      }
    }
  }

  lemma {:induction false} AttachTranslate(a: Tables, p: Path, i: nat, e: Word, t: Table, v: Va)
    requires IsTree(a) && p in a && i < 512 && Level(p) < 3 && !IsLink(a[p][i]) && Fills(a, p, i, t) && IsVa(v)
    requires IsLink(e) && Plain(e)
    ensures Translate(a, v) == Translate(Attach(a, p, i, e, t), v)
  {
    assert EntryOk(a, p, i);
    assert P1(v) in a ==> P2(v) in a;
    assert P2(v) in a ==> EntryOk(a, P2(v), v.i2);
  }

  /** A new table behind an absent entry, or in place of a large page. */
  lemma {:induction false} AttachKeeps(a: Tables, p: Path, i: nat, e: Word, t: Table)
    requires IsTree(a) && p in a && i < 512 && Level(p) < 3 && !IsLink(a[p][i]) && Fills(a, p, i, t)
    requires IsLink(e) && Plain(e)
    ensures IsTree(Attach(a, p, i, e, t)) && SameSpace(a, Attach(a, p, i, e, t))
  {
    var b := Attach(a, p, i, e, t);
    AttachTree(a, p, i, e, t);
    forall v | IsVa(v) ensures Translate(a, v) == Translate(b, v) {
      AttachTranslate(a, p, i, e, t, v);
    }
  }

  /** Setting the last-level entry of an address: that page alone translates differently. */
  lemma {:induction false} LeafSet(a: Tables, v: Va, e: Word, w: Va)
    requires IsTree(a) && IsVa(v) && IsVa(w) && P1(v) in a
    ensures IsTree(SetEntry(a, P1(v), v.i1, e))
    ensures Translate(SetEntry(a, P1(v), v.i1, e), w) ==
            if !SamePage(v, w) then Translate(a, w)
            else if e.present then Mapped(e.frame * 4096 + w.offset) else Unmapped
  {
    var b := SetEntry(a, P1(v), v.i1, e);
    forall q, j | q in b && Level(q) < 3 && 0 <= j < 512 ensures EntryOk(b, q, j) {
      assert EntryOk(a, q, j);
    }
    assert EntryOk(a, P2(v), v.i2);
  }

  // ---- who may use a page ----

  /** Small page `j` of a large page: the same flags without the size bit. */
  function SmallPage(e: Word, j: nat): Word {
    e.(frame := e.frame + j, huge := false, nx := false, high := 0)
  }

  /** A link to table `f` with the flags the kernel gives intermediate entries. */
  function LinkTo(f: nat, user: bool): Word {
    Word(f, true, true, user, false, false, 0, 0)
  }

  /** A present entry, opened to user code if asked. */
  function Marked(e: Word, user: bool): Word { if e.present && user then e.(user := true) else e }

  /** What stands behind a new link in place of entry `e`. */
  function Filling(e: Word): (t: Table) {
    if e.present then seq(512, j requires 0 <= j < 512 => SmallPage(e, j)) else seq(512, _ => ZERO)
  }

  /** The tables after a step down through entry `i` of the table at `p`, at frame `c`: a link is marked; in
      place of anything else there is a link to a new table. */
  ghost function Opened(a: Tables, p: Path, i: nat, user: bool, c: nat): (b: Tables)
    requires IsTree(a) && p in a && i < 512 && Level(p) < 3
    ensures IsTree(b) && Down(p, i) in b && p in b
  {
    var e := Marked(a[p][i], user);
    assert EntryOk(a, p, i);
    if IsLink(e) then
      RetagKeeps(a, p, i, e);
      SetEntry(a, p, i, e)
    else
      AttachKeeps(a, p, i, LinkTo(c, user), Filling(e));
      Attach(a, p, i, LinkTo(c, user), Filling(e))
  }

  /** The tables after a mapping of page `v` by entry `e`, with the tables on the way at `c3`, `c2`, `c1`. */
  ghost function WithPage(a: Tables, v: Va, e: Word, c3: nat, c2: nat, c1: nat): Tables
    requires IsTree(a) && IsVa(v)
  {
    Levels(v);
    var a1 := Opened(a, Root, v.i4, e.user, c3);
    var a2 := Opened(a1, P3(v), v.i3, e.user, c2);
    var a3 := Opened(a2, P2(v), v.i2, e.user, c1);
    SetEntry(a3, P1(v), v.i1, e)
  }

  /** User code can reach the page: every entry on the way to it lets user code through. */
  ghost predicate UserReaches(a: Tables, w: Va)
    requires IsVa(w)
  {
    Root in a && P3(w) in a && P2(w) in a && a[Root][w.i4].user && a[P3(w)][w.i3].user && a[P2(w)][w.i2].user &&
    (a[P2(w)][w.i2].huge || (P1(w) in a && a[P1(w)][w.i1].user))
  }

  /** How far the ways to two pages are the same. */
  predicate Share4(v: Va, w: Va) { v.i4 == w.i4 }

  predicate Share3(v: Va, w: Va) { v.i4 == w.i4 && v.i3 == w.i3 }

  predicate Share2(v: Va, w: Va) { v.i4 == w.i4 && v.i3 == w.i3 && v.i2 == w.i2 }

  lemma {:induction false} OpenedAt(a: Tables, p: Path, i: nat, user: bool, c: nat, q: Path, j: nat)
    requires IsTree(a) && p in a && i < 512 && Level(p) < 3 && j < 512 && q in a
    ensures q in Opened(a, p, i, user, c)
    ensures (q != p || i != j) ==> Opened(a, p, i, user, c)[q][j] == a[q][j]
    ensures IsLink(a[p][i]) ==> Opened(a, p, i, user, c)[p][i] == Marked(a[p][i], user)
    ensures !IsLink(a[p][i]) ==> Opened(a, p, i, user, c)[p][i] == LinkTo(c, user) &&
                                 Opened(a, p, i, user, c)[Down(p, i)] == Filling(Marked(a[p][i], user))
  {
    assert EntryOk(a, p, i);
  }

  /** Through each step an entry that leads on stays one, and gains the user bit at most where it is taken. */
  lemma {:induction false} OpenedLink(a: Tables, p: Path, i: nat, user: bool, c: nat, q: Path, j: nat)
    requires IsTree(a) && p in a && i < 512 && Level(p) < 3 && q in a && j < 512 && IsLink(a[q][j])
    ensures var b := Opened(a, p, i, user, c);
            q in b && IsLink(b[q][j]) && b[q][j].user == (a[q][j].user || (user && q == p && i == j))
  {
    OpenedAt(a, p, i, user, c, q, j);
    hide Opened, IsTree;
  }

  /** User code can reach the page just mapped exactly if it is mapped for the user. */
  lemma {:induction false} UserPageReached(a: Tables, v: Va, e: Word, c3: nat, c2: nat, c1: nat)
    requires IsTree(a) && IsVa(v)
    ensures UserReaches(WithPage(a, v, e, c3, c2, c1), v) <==> e.user
  {
    Levels(v);
    assert Root in a;
    hide Opened, IsTree, Filling;
    var a1 := Opened(a, Root, v.i4, e.user, c3);
    var a2 := Opened(a1, P3(v), v.i3, e.user, c2);
    OpenedAt(a, Root, v.i4, e.user, c3, Root, v.i4);
    OpenedAt(a1, P3(v), v.i3, e.user, c2, Root, v.i4);
    OpenedAt(a2, P2(v), v.i2, e.user, c1, Root, v.i4);
    OpenedAt(a1, P3(v), v.i3, e.user, c2, P3(v), v.i3);
    OpenedAt(a2, P2(v), v.i2, e.user, c1, P3(v), v.i3);
    OpenedAt(a2, P2(v), v.i2, e.user, c1, P2(v), v.i2);
  }

  /** Who may use page `w` after a mapping of another page `v`: the entries on the way that both share are
      opened to user code if the new page is the user's; the large page that the mapping splits, if `w` is in
      it, becomes the user's exactly if the new page is. */
  ghost predicate ReachableAfter(a: Tables, v: Va, user: bool, w: Va)
    requires IsTree(a) && IsVa(w) && Translate(a, w) != Unmapped
  {
    assert EntryOk(a, P2(w), w.i2);
    (a[Root][w.i4].user || (user && Share4(v, w))) && (a[P3(w)][w.i3].user || (user && Share3(v, w))) &&
    if a[P2(w)][w.i2].huge && Share2(v, w) then user
    else (a[P2(w)][w.i2].user || (user && Share2(v, w))) && (a[P2(w)][w.i2].huge || a[P1(w)][w.i1].user)
  }

  lemma {:induction false} WayLinks(a: Tables, w: Va)
    requires IsTree(a) && IsVa(w) && Translate(a, w) != Unmapped
    ensures Root in a && P3(w) in a && P2(w) in a && IsLink(a[Root][w.i4]) && IsLink(a[P3(w)][w.i3])
    ensures IsLink(a[P2(w)][w.i2]) ==> P1(w) in a
  {
    Levels(w);
    assert EntryOk(a, P2(w), w.i2) && EntryOk(a, P3(w), w.i3) && EntryOk(a, Root, w.i4);
  }

  /** The upper two entries on the way to `w`. */
  lemma {:induction false} UpperWay(a: Tables, v: Va, e: Word, c3: nat, c2: nat, c1: nat, w: Va)
    requires IsTree(a) && IsVa(v) && IsVa(w) && Translate(a, w) != Unmapped
    ensures var b := WithPage(a, v, e, c3, c2, c1);
            Root in a && P3(w) in a && Root in b && P3(w) in b &&
            b[Root][w.i4].user == (a[Root][w.i4].user || (e.user && Share4(v, w))) &&
            b[P3(w)][w.i3].user == (a[P3(w)][w.i3].user || (e.user && Share3(v, w)))
  {
    Levels(v);
    Levels(w);
    WayLinks(a, w);
    hide Opened, IsTree, Translate;
    var a1 := Opened(a, Root, v.i4, e.user, c3);
    var a2 := Opened(a1, P3(v), v.i3, e.user, c2);
    OpenedLink(a, Root, v.i4, e.user, c3, Root, w.i4);
    OpenedLink(a1, P3(v), v.i3, e.user, c2, Root, w.i4);
    OpenedLink(a2, P2(v), v.i2, e.user, c1, Root, w.i4);
    OpenedLink(a, Root, v.i4, e.user, c3, P3(w), w.i3);
    OpenedLink(a1, P3(v), v.i3, e.user, c2, P3(w), w.i3);
    OpenedLink(a2, P2(v), v.i2, e.user, c1, P3(w), w.i3);
  }

  lemma {:induction false} FillingUser(e: Word, user: bool, j: nat)
    requires e.present && j < 512
    ensures user ==> Filling(Marked(e, user))[j].user
  {
  }

  /** The lower two. */
  lemma {:induction false} LowerWay(a: Tables, v: Va, e: Word, c3: nat, c2: nat, c1: nat, w: Va)
    requires IsTree(a) && IsVa(v) && IsVa(w) && !SamePage(v, w) && Translate(a, w) != Unmapped
    ensures var b := WithPage(a, v, e, c3, c2, c1);
            P2(w) in a && P2(w) in b &&
            if a[P2(w)][w.i2].huge && Share2(v, w)
            then b[P2(w)][w.i2].user == e.user && !b[P2(w)][w.i2].huge && P1(w) in b && (e.user ==> b[P1(w)][w.i1].user)
            else b[P2(w)][w.i2].huge == a[P2(w)][w.i2].huge &&
                 b[P2(w)][w.i2].user == (a[P2(w)][w.i2].user || (e.user && Share2(v, w))) &&
                 (!a[P2(w)][w.i2].huge ==> P1(w) in a && P1(w) in b && b[P1(w)][w.i1].user == a[P1(w)][w.i1].user)
  {
    Levels(v);
    Levels(w);
    WayLinks(a, w);
    hide Opened, IsTree, Translate, Filling;
    var a1 := Opened(a, Root, v.i4, e.user, c3);
    var a2 := Opened(a1, P3(v), v.i3, e.user, c2);
    OpenedAt(a, Root, v.i4, e.user, c3, P2(w), w.i2);
    OpenedAt(a1, P3(v), v.i3, e.user, c2, P2(w), w.i2);
    OpenedAt(a2, P2(v), v.i2, e.user, c1, P2(w), w.i2);
    if IsLink(a[P2(w)][w.i2]) {
      OpenedAt(a, Root, v.i4, e.user, c3, P1(w), w.i1);
      OpenedAt(a1, P3(v), v.i3, e.user, c2, P1(w), w.i1);
      OpenedAt(a2, P2(v), v.i2, e.user, c1, P1(w), w.i1);
    } else if Share2(v, w) {
      FillingUser(a[P2(w)][w.i2], e.user, w.i1);
    }
  }

  lemma {:induction false} UserReachIff(a: Tables, v: Va, e: Word, c3: nat, c2: nat, c1: nat, w: Va)
    requires IsTree(a) && IsVa(v) && IsVa(w) && !SamePage(v, w) && Translate(a, w) != Unmapped
    ensures UserReaches(WithPage(a, v, e, c3, c2, c1), w) <==> ReachableAfter(a, v, e.user, w)
  {
    UpperWay(a, v, e, c3, c2, c1, w);
    LowerWay(a, v, e, c3, c2, c1, w);
    hide WithPage, IsTree, Share4, Share3, Share2, Translate;
  }

  // ---- sharing whole root entries between spaces ----

  /** The root entry that a table below the root hangs from. */
  function Top(p: Path): nat
    requires p != Root
  {
    if p.up == Root then p.i else Top(p.up)
  }

  lemma {:induction false} Tops(v: Va)
    ensures Top(P3(v)) == v.i4 && Top(P2(v)) == v.i4 && Top(P1(v)) == v.i4
  {
  }

  /** Whether the table at `p` comes from the other space when the root entries `s` do. */
  ghost predicate Foreign(p: Path, s: set<nat>) { p != Root && Top(p) in s }

  /** Space `a` with the root entries `s`, and all below them, taken from space `k`. */
  ghost function Combine(a: Tables, k: Tables, s: set<nat>): Tables
    requires Root in a && Root in k
  {
    map p | p in a.Keys + k.Keys && (if Foreign(p, s) then p in k else p in a) ::
      if p == Root then seq(512, i requires 0 <= i < 512 => if i in s then k[Root][i] else a[Root][i])
      else if Foreign(p, s) then k[p] else a[p]
  }

  lemma {:induction false} CombineTree(a: Tables, k: Tables, s: set<nat>)
    requires IsTree(a) && IsTree(k)
    ensures IsTree(Combine(a, k, s))
  {
    var c := Combine(a, k, s);
    forall p, i | Down(p, i) in c ensures p in c && i < 512 {
    }
    forall p, i | p in c && Level(p) < 3 && 0 <= i < 512 ensures EntryOk(c, p, i) {
      if Foreign(Down(p, i), s) {
        assert p in k && EntryOk(k, p, i);
      } else {
        assert p in a && EntryOk(a, p, i);
      }
    }
  }

  lemma {:induction false} CombineTranslate(a: Tables, k: Tables, s: set<nat>, v: Va)
    requires IsTree(a) && IsTree(k) && IsVa(v)
    ensures Translate(Combine(a, k, s), v) == if v.i4 in s then Translate(k, v) else Translate(a, v)
  {
    Tops(v);
  }
}
