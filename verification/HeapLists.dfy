/** The block headers in memory: the list they form, and what splitting, merging and appending do to it. */
module HeapLists {
  import opened HeapBlocks

  const HEAP_START: nat := 0xFFFF_9000_0000_0000
  const HEAP_MAX: nat := 0xFFFF_9000_4000_0000
  const HEAP_MAGIC: nat := 0xBEEF_CAFE

  /** A header; `next` and `prev` are addresses, 0 for none. */
  datatype Header = Header(size: nat, free: bool, next: nat, prev: nat, magic: nat)

  /** The headers in memory by address, including those a merge left behind. */
  type Headers = map<nat, Header>

  function NextOf(bs: seq<nat>, i: nat): nat { if i + 1 < |bs| then bs[i + 1] else 0 }

  function PrevOf(bs: seq<nat>, i: nat): nat { if 0 < i <= |bs| then bs[i - 1] else 0 }

  function EndOf(bs: seq<nat>, i: nat, end: nat): nat { if i + 1 < |bs| then bs[i + 1] else end }

  /** Block `i` is linked to its neighbours and reaches to the next one. */
  ghost predicate Linked(hs: Headers, bs: seq<nat>, i: nat, end: nat) {
    i < |bs| && bs[i] in hs &&
    var h := hs[bs[i]];
    h.magic == HEAP_MAGIC && h.next == NextOf(bs, i) && h.prev == PrevOf(bs, i) &&
    bs[i] + HEADER_SIZE + h.size == EndOf(bs, i, end)
  }

  ghost predicate AllLinked(hs: Headers, bs: seq<nat>, end: nat) {
    forall i :: 0 <= i < |bs| ==> Linked(hs, bs, i, end)
  }

  ghost predicate Ascending(bs: seq<nat>) {
    forall i, j :: 0 <= i < j < |bs| ==> bs[i] < bs[j]
  }

  ghost predicate StaleFree(hs: Headers, bs: seq<nat>) {
    forall a :: a in hs && a !in bs ==> hs[a].free
  }

  /** The headers at `bs` form a doubly linked list that fills the heap without gaps up to `end`; a
      header outside the list is marked free. */
  ghost predicate IsList(hs: Headers, bs: seq<nat>, end: nat) {
    (if bs == [] then end else bs[0]) == HEAP_START &&
    AllLinked(hs, bs, end) && Ascending(bs) && StaleFree(hs, bs)
  }

  function BlockAt(hs: Headers, a: nat): Block {
    if a in hs then Block(hs[a].size, hs[a].free) else Block(0, true)
  }

  function Row(hs: Headers, bs: seq<nat>): (r: seq<Block>)
    ensures |r| == |bs|
  {
    seq(|bs|, i requires 0 <= i < |bs| => BlockAt(hs, bs[i]))
  }

  /** The allocations: the headers in use, each with its size. */
  function Live(hs: Headers): map<nat, nat> {
    map a | a in hs && !hs[a].free :: hs[a].size
  }

  /** `x` is a byte of the allocation whose header is at `a`. */
  ghost predicate LiveByte(live: map<nat, nat>, a: nat, x: nat) {
    a in live && a + HEADER_SIZE <= x < a + HEADER_SIZE + live[a]
  }

  predicate Apart(x: nat, a: nat) { x + HEADER_SIZE <= a || a + HEADER_SIZE <= x }

  /** A new header written at `a` destroys those it overlaps. */
  function Written(hs: Headers, a: nat, h: Header): Headers {
    (map x | x in hs && Apart(x, a) :: hs[x])[a := h]
  }

  /** Sets the back link of the header at `a`, if there is one. */
  function WithPrev(hs: Headers, a: nat, p: nat): Headers {
    if a in hs then hs[a := hs[a].(prev := p)] else hs
  }

  // ---- order ----

  lemma {:induction false} InHeap(hs: Headers, bs: seq<nat>, end: nat, i: nat)
    requires IsList(hs, bs, end) && i < |bs|
    ensures HEAP_START <= bs[i] && Linked(hs, bs, i, end) && bs[i] + HEADER_SIZE + hs[bs[i]].size <= end
    decreases |bs| - i
  {
    assert Linked(hs, bs, i, end);
    assert i == 0 || bs[0] < bs[i];
    if i + 1 < |bs| {
      InHeap(hs, bs, end, i + 1);
    }
  }

  lemma {:induction false} AllInHeap(hs: Headers, bs: seq<nat>, end: nat)
    requires IsList(hs, bs, end)
    ensures forall i :: 0 <= i < |bs| ==> HEAP_START <= bs[i] && bs[i] + HEADER_SIZE <= end
    ensures HEAP_START <= end
  {
    forall i | 0 <= i < |bs| ensures HEAP_START <= bs[i] && bs[i] + HEADER_SIZE <= end {
      InHeap(hs, bs, end, i);
    }
  }

  lemma {:induction false} InOrder(hs: Headers, bs: seq<nat>, end: nat, i: nat, j: nat)
    requires IsList(hs, bs, end) && i < j < |bs|
    ensures Linked(hs, bs, i, end) && bs[i] + HEADER_SIZE + hs[bs[i]].size <= bs[j]
  {
  }

  /** The allocations lie within the heap, and no two share a byte; headers and allocations are disjoint. */
  lemma {:induction false} LiveDisjoint(hs: Headers, bs: seq<nat>, end: nat, a: nat, b: nat)
    requires IsList(hs, bs, end) && a in Live(hs) && b in Live(hs)
    ensures HEAP_START <= a && a + HEADER_SIZE + Live(hs)[a] <= end
    ensures a == b || a + HEADER_SIZE + Live(hs)[a] <= b || b + HEADER_SIZE + Live(hs)[b] <= a
  {
    var i :| 0 <= i < |bs| && bs[i] == a;
    var j :| 0 <= j < |bs| && bs[j] == b;
    InHeap(hs, bs, end, i);
    if i < j {
      InOrder(hs, bs, end, i, j);
    } else if j < i {
      InOrder(hs, bs, end, j, i);
    }
  }

  // ---- taking a block ----

  /** The headers after block `k` is cut to `n` bytes, the rest becoming a free block. */
  function SplitAt(hs: Headers, b: nat, n: nat): Headers
    requires b in hs && hs[b].size >= n + HEADER_SIZE
  {
    var s := b + HEADER_SIZE + n;
    var rest := Header(hs[b].size - n - HEADER_SIZE, true, hs[b].next, b, HEAP_MAGIC);
    var h := hs[b];
    WithPrev(Written(hs, s, rest), h.next, s)[b := h.(next := s, size := n)]
  }

  ghost predicate SplitFacts(hs: Headers, hs': Headers, b: nat, n: nat, s: nat, next: nat) {
    b in hs && b in hs' && s in hs' && hs[b].size >= n + HEADER_SIZE &&
    hs'[b] == hs[b].(next := s, size := n) &&
    hs'[s] == Header(hs[b].size - n - HEADER_SIZE, true, hs[b].next, b, HEAP_MAGIC) &&
    (forall x :: x in hs' && x != b && x != s ==>
       x in hs && hs'[x] == if x == next then hs[x].(prev := s) else hs[x]) &&
    (forall x :: x in hs && x !in hs' ==> !Apart(x, s))
  }

  lemma {:induction false} SplitAtFacts(hs: Headers, b: nat, n: nat, hs': Headers)
    requires b in hs && hs[b].size >= n + HEADER_SIZE && hs' == SplitAt(hs, b, n)
    requires hs[b].next != b && hs[b].next != b + HEADER_SIZE + n
    ensures SplitFacts(hs, hs', b, n, b + HEADER_SIZE + n, hs[b].next)
  {
  }

  lemma {:induction false} ApartFromSplit(hs: Headers, bs: seq<nat>, end: nat, k: nat, n: nat, i: nat)
    requires IsList(hs, bs, end) && k < |bs| && i < |bs| && bs[k] in hs && hs[bs[k]].size >= n + HEADER_SIZE
    ensures Apart(bs[i], bs[k] + HEADER_SIZE + n)
    ensures i < k ==> bs[i] < bs[k] + HEADER_SIZE + n
    ensures i > k ==> bs[k] + HEADER_SIZE + n < bs[i]
    ensures i > k ==> bs[i] != 0
  {
    assert Linked(hs, bs, k, end) && Linked(hs, bs, i, end);
    if i < k {
      InOrder(hs, bs, end, i, k);
    } else if k < i {
      InOrder(hs, bs, end, k, i);
    }
  }

  function Inserted(bs: seq<nat>, k: nat, s: nat): seq<nat>
    requires k < |bs|
  {
    bs[..k + 1] + [s] + bs[k + 1..]
  }

  /** Where the blocks of a list with one inserted come from. */
  lemma {:induction false} InsertedAt(bs: seq<nat>, k: nat, s: nat)
    requires k < |bs|
    ensures var cs := Inserted(bs, k, s);
            |cs| == |bs| + 1 && cs[k + 1] == s && s in cs && (forall i :: 0 <= i <= k ==> cs[i] == bs[i]) &&
            (forall i :: k + 1 < i < |cs| ==> cs[i] == bs[i - 1]) && (forall a :: a in bs ==> a in cs)
  {
  }

  lemma {:induction false} InsertedAscending(bs: seq<nat>, k: nat, s: nat)
    requires k < |bs| && Ascending(bs) && bs[k] < s && (k + 1 < |bs| ==> s < bs[k + 1])
    ensures Ascending(Inserted(bs, k, s))
  {
    var cs := Inserted(bs, k, s);
    InsertedAt(bs, k, s);
    hide Inserted;
    forall i, j | 0 <= i < j < |cs| ensures cs[i] < cs[j] {
      assert i <= k ==> bs[i] <= bs[k];
      assert j > k + 1 ==> bs[k + 1] <= bs[j - 1];
    }
  }

  lemma {:induction false} SplitApart(hs: Headers, bs: seq<nat>, end: nat, k: nat, n: nat)
    requires IsList(hs, bs, end) && k < |bs| && bs[k] in hs && hs[bs[k]].size >= n + HEADER_SIZE
    ensures forall i :: 0 <= i < |bs| ==> Apart(bs[i], bs[k] + HEADER_SIZE + n)
    ensures Ascending(Inserted(bs, k, bs[k] + HEADER_SIZE + n))
  {
    var s := bs[k] + HEADER_SIZE + n;
    hide AllLinked, StaleFree, Ascending, Inserted;
    forall i | 0 <= i < |bs| ensures Apart(bs[i], s) && (i > k ==> s < bs[i]) {
      ApartFromSplit(hs, bs, end, k, n, i);
    }
    InsertedAscending(bs, k, s);
  }

  lemma {:induction false} SplitFollows(hs: Headers, bs: seq<nat>, end: nat, k: nat, n: nat, hs': Headers)
    requires IsList(hs, bs, end) && k < |bs| && bs[k] in hs && hs[bs[k]].size >= n + HEADER_SIZE
    requires hs' == SplitAt(hs, bs[k], n)
    ensures SplitFacts(hs, hs', bs[k], n, bs[k] + HEADER_SIZE + n, hs[bs[k]].next)
  {
    InHeap(hs, bs, end, k);
    if k + 1 < |bs| {
      ApartFromSplit(hs, bs, end, k, n, k + 1);
    }
    hide SplitAt, SplitFacts, AllLinked, StaleFree;
    SplitAtFacts(hs, bs[k], n, hs');
  }

  lemma {:induction false} SplitStale(hs: Headers, bs: seq<nat>, k: nat, n: nat, hs': Headers)
    requires StaleFree(hs, bs) && k < |bs|
    requires bs[k] in hs && SplitFacts(hs, hs', bs[k], n, bs[k] + HEADER_SIZE + n, hs[bs[k]].next)
    ensures StaleFree(hs', Inserted(bs, k, bs[k] + HEADER_SIZE + n))
  {
  }

  lemma {:induction false} SplitRow(hs: Headers, bs: seq<nat>, end: nat, k: nat, n: nat, hs': Headers)
    requires AllLinked(hs, bs, end) && k < |bs| && bs[k] in hs && hs[bs[k]].size >= n + HEADER_SIZE
    requires forall i :: 0 <= i < |bs| ==> Apart(bs[i], bs[k] + HEADER_SIZE + n)
    requires Ascending(bs) && SplitFacts(hs, hs', bs[k], n, bs[k] + HEADER_SIZE + n, hs[bs[k]].next)
    ensures Row(hs', Inserted(bs, k, bs[k] + HEADER_SIZE + n)) ==
            Row(hs, bs)[..k] + [BlockAt(hs, bs[k]).(size := n), Block(hs[bs[k]].size - n - HEADER_SIZE, true)]
            + Row(hs, bs)[k + 1..]
  {
  }

  lemma {:induction false} SplitPair(hs: Headers, bs: seq<nat>, end: nat, k: nat, n: nat, hs': Headers, i: nat,
                                     cs: seq<nat>)
    requires k < |bs| && (i == k || i == k + 1) && Linked(hs, bs, k, end)
    requires SplitFacts(hs, hs', bs[k], n, bs[k] + HEADER_SIZE + n, hs[bs[k]].next)
    requires cs == Inserted(bs, k, bs[k] + HEADER_SIZE + n)
    ensures Linked(hs', cs, i, end)
  {
  }

  lemma {:induction false} SplitOther(hs: Headers, bs: seq<nat>, end: nat, k: nat, n: nat, hs': Headers, i: nat, j: nat,
                                      cs: seq<nat>)
    requires k < |bs| && j < |bs| && bs[j] > 0 && i != k && i != k + 1 && j == if i < k then i else i - 1
    requires bs[k] in hs && hs[bs[k]].next == NextOf(bs, k) && Ascending(bs)
    requires Linked(hs, bs, j, end) && Apart(bs[j], bs[k] + HEADER_SIZE + n)
    requires SplitFacts(hs, hs', bs[k], n, bs[k] + HEADER_SIZE + n, hs[bs[k]].next)
    requires cs == Inserted(bs, k, bs[k] + HEADER_SIZE + n)
    ensures Linked(hs', cs, i, end)
  {
  }

  lemma {:induction false} SplitLinks(hs: Headers, bs: seq<nat>, end: nat, k: nat, n: nat, hs': Headers)
    requires IsList(hs, bs, end) && k < |bs| && bs[k] in hs && hs[bs[k]].size >= n + HEADER_SIZE
    requires forall i :: 0 <= i < |bs| ==> Apart(bs[i], bs[k] + HEADER_SIZE + n)
    requires SplitFacts(hs, hs', bs[k], n, bs[k] + HEADER_SIZE + n, hs[bs[k]].next)
    ensures AllLinked(hs', Inserted(bs, k, bs[k] + HEADER_SIZE + n), end)
  {
    var s := bs[k] + HEADER_SIZE + n;
    AllInHeap(hs, bs, end);
    assert Linked(hs, bs, k, end);
    hide SplitFacts, Inserted, StaleFree, Apart;
    assert |Inserted(bs, k, s)| == |bs| + 1 by { InsertedAt(bs, k, s); }
    forall i | 0 <= i < |bs| + 1 ensures Linked(hs', Inserted(bs, k, s), i, end) {
      if i != k && i != k + 1 {
        var j := if i < k then i else i - 1;
        assert Linked(hs, bs, j, end) && Apart(bs[j], s);
        SplitOther(hs, bs, end, k, n, hs', i, j, Inserted(bs, k, s));
      } else {
        SplitPair(hs, bs, end, k, n, hs', i, Inserted(bs, k, s));
      }
    }
  }

  lemma {:induction false} SplitIsList(hs: Headers, bs: seq<nat>, end: nat, k: nat, n: nat, hs': Headers)
    requires IsList(hs, bs, end) && k < |bs|
    requires bs[k] in hs && hs[bs[k]].size >= n + HEADER_SIZE && hs' == SplitAt(hs, bs[k], n)
    ensures IsList(hs', Inserted(bs, k, bs[k] + HEADER_SIZE + n), end)
    ensures Row(hs', Inserted(bs, k, bs[k] + HEADER_SIZE + n)) ==
            Row(hs, bs)[..k] + [BlockAt(hs, bs[k]).(size := n), Block(hs[bs[k]].size - n - HEADER_SIZE, true)]
            + Row(hs, bs)[k + 1..]
  {
    hide SplitAt, Row, Inserted;
    var s := bs[k] + HEADER_SIZE + n;
    SplitApart(hs, bs, end, k, n);
    SplitFollows(hs, bs, end, k, n, hs');
    SplitLinks(hs, bs, end, k, n, hs');
    SplitRow(hs, bs, end, k, n, hs');
    SplitStale(hs, bs, k, n, hs');
    InsertedAt(bs, k, s);
    hide SplitFacts, AllLinked, Apart, StaleFree;
    assert Inserted(bs, k, s)[0] == bs[0];
  }

  // ---- marking ----

  function WithFree(hs: Headers, b: nat, free: bool): Headers
    requires b in hs
  {
    hs[b := hs[b].(free := free)]
  }

  lemma {:induction false} MarkIsList(hs: Headers, bs: seq<nat>, end: nat, k: nat, free: bool)
    requires IsList(hs, bs, end) && k < |bs| && bs[k] in hs
    ensures IsList(WithFree(hs, bs[k], free), bs, end)
    ensures Row(WithFree(hs, bs[k], free), bs) == Row(hs, bs)[k := Row(hs, bs)[k].(free := free)]
  {
    var hs' := WithFree(hs, bs[k], free);
    forall i | 0 <= i < |bs| ensures Linked(hs', bs, i, end) {
      assert Linked(hs, bs, i, end);
    }
    assert bs[k] in bs;
    forall i | 0 <= i < |bs| && i != k ensures bs[i] != bs[k] {
    }
  }

  // ---- merging ----

  /** The headers after the block at `b` absorbs its successor. */
  function Absorbed(hs: Headers, b: nat): Headers
    requires b in hs && hs[b].next in hs
  {
    var next := hs[b].next;
    WithPrev(hs[b := hs[b].(size := hs[b].size + HEADER_SIZE + hs[next].size, next := hs[next].next)], hs[next].next, b)
  }

  function Removed(bs: seq<nat>, k: nat): seq<nat>
    requires k < |bs|
  {
    bs[..k] + bs[k + 1..]
  }

  ghost predicate AbsorbFacts(hs: Headers, hs': Headers, b: nat, next: nat) {
    b in hs && next in hs && hs'.Keys == hs.Keys && b in hs' &&
    hs'[b] == hs[b].(size := hs[b].size + HEADER_SIZE + hs[next].size, next := hs[next].next) &&
    (forall x :: x in hs' && x != b ==> hs'[x] == if x == hs[next].next then hs[x].(prev := b) else hs[x])
  }

  lemma {:induction false} AbsorbedFacts(hs: Headers, b: nat, hs': Headers)
    requires b in hs && hs[b].next in hs && hs' == Absorbed(hs, b) && hs[hs[b].next].next != b
    ensures AbsorbFacts(hs, hs', b, hs[b].next)
  {
  }

  lemma {:induction false} AbsorbLinks(hs: Headers, bs: seq<nat>, end: nat, k: nat, hs': Headers)
    requires IsList(hs, bs, end) && k + 1 < |bs|
    requires AbsorbFacts(hs, hs', bs[k], bs[k + 1])
    ensures AllLinked(hs', Removed(bs, k + 1), end)
  {
    var cs := Removed(bs, k + 1);
    assert Linked(hs, bs, k, end) && Linked(hs, bs, k + 1, end);
    forall i | 0 <= i < |cs| ensures Linked(hs', cs, i, end) {
      if i < k {
        assert Linked(hs, bs, i, end);
      } else if i > k {
        assert Linked(hs, bs, i + 1, end);
      }
    }
  }

  lemma {:induction false} RemovedAt(bs: seq<nat>, k: nat)
    requires k < |bs|
    ensures var cs := Removed(bs, k);
            |cs| == |bs| - 1 && (forall i :: 0 <= i < k ==> cs[i] == bs[i]) &&
            (forall i :: k <= i < |cs| ==> cs[i] == bs[i + 1]) && (forall a :: a in bs && a != bs[k] ==> a in cs)
  {
  }

  lemma {:induction false} MergeIs(r: seq<Block>, k: nat, r': seq<Block>)
    requires k + 1 < |r| && |r'| == |r| - 1 && r[k].free && r[k + 1].free
    requires forall i :: 0 <= i < k ==> r'[i] == r[i]
    requires forall i :: k < i < |r'| ==> r'[i] == r[i + 1]
    requires r'[k] == Block(r[k].size + HEADER_SIZE + r[k + 1].size, true)
    ensures r' == Merge(r, k)
  {
  }

  lemma {:induction false} AbsorbRow(hs: Headers, bs: seq<nat>, end: nat, k: nat, hs': Headers)
    requires AllLinked(hs, bs, end) && Ascending(bs) && k + 1 < |bs| && AbsorbFacts(hs, hs', bs[k], bs[k + 1])
    requires hs[bs[k]].free && hs[bs[k + 1]].free
    ensures Row(hs', Removed(bs, k + 1)) == Merge(Row(hs, bs), k)
  {
    forall i | 0 <= i < |bs| && i != k ensures BlockAt(hs', bs[i]) == BlockAt(hs, bs[i]) {
      assert Linked(hs, bs, i, end);
    }
    RemovedAt(bs, k + 1);
    var b := BlockAt(hs, bs[k]);
    assert BlockAt(hs', bs[k]) == Block(b.size + HEADER_SIZE + BlockAt(hs, bs[k + 1]).size, true);
    assert b.free && BlockAt(hs, bs[k + 1]).free;
    hide AllLinked, Ascending, AbsorbFacts, BlockAt, Removed;
    MergeIs(Row(hs, bs), k, Row(hs', Removed(bs, k + 1)));
  }

  lemma {:induction false} AbsorbIsList(hs: Headers, bs: seq<nat>, end: nat, k: nat, hs': Headers)
    requires IsList(hs, bs, end) && k + 1 < |bs|
    requires bs[k] in hs && bs[k + 1] in hs && hs[bs[k]].next == bs[k + 1] && hs[bs[k]].free && hs[bs[k + 1]].free
    requires hs' == Absorbed(hs, bs[k])
    ensures IsList(hs', Removed(bs, k + 1), end)
    ensures Row(hs', Removed(bs, k + 1)) == Merge(Row(hs, bs), k)
  {
    assert Linked(hs, bs, k, end) && Linked(hs, bs, k + 1, end);
    InHeap(hs, bs, end, k);
    AbsorbedFacts(hs, bs[k], hs');
    hide Absorbed, Row, Merge;
    AbsorbLinks(hs, bs, end, k, hs');
    AbsorbRow(hs, bs, end, k, hs');
    RemovedAt(bs, k + 1);
    hide Removed, AllLinked;
  }

  // ---- appending ----

  /** The headers after a free block of `size` bytes is appended at `b` to the list that ends with
      the block at `last`. */
  function Appended(hs: Headers, last: nat, b: nat, size: nat): Headers {
    var hs1 := Written(hs, b, Header(size, true, 0, 0, HEAP_MAGIC));
    if last == 0 || last !in hs1 then hs1
    else
      var hs2 := hs1[last := hs1[last].(next := b)];
      hs2[b := hs2[b].(prev := last)]
  }

  ghost predicate AppendFacts(hs: Headers, hs': Headers, last: nat, b: nat, size: nat) {
    b in hs' && hs'[b] == Header(size, true, 0, last, HEAP_MAGIC) &&
    (forall x :: x in hs' && x != b ==>
       x in hs && hs'[x] == if x == last && last != 0 then hs[x].(next := b) else hs[x]) &&
    (forall x :: x in hs && x !in hs' ==> !Apart(x, b))
  }

  lemma {:induction false} AppendedFacts(hs: Headers, last: nat, b: nat, size: nat, hs': Headers)
    requires hs' == Appended(hs, last, b, size) && (last != 0 ==> last in hs && last != b && Apart(last, b))
    ensures AppendFacts(hs, hs', last, b, size)
  {
  }

  lemma {:induction false} AppendRow(hs: Headers, hs': Headers, bs: seq<nat>, end: nat, size: nat)
    requires BlockAt(hs', end) == Block(size, true)
    requires forall i :: 0 <= i < |bs| ==> BlockAt(hs', bs[i]) == BlockAt(hs, bs[i])
    ensures Row(hs', bs + [end]) == Row(hs, bs) + [Block(size, true)]
  {
    hide BlockAt;
  }

  lemma {:induction false} AppendNew(hs: Headers, bs: seq<nat>, end: nat, size: nat, hs': Headers, end': nat,
                                     cs: seq<nat>)
    requires AppendFacts(hs, hs', if bs == [] then 0 else bs[|bs| - 1], end, size)
    requires end' == end + HEADER_SIZE + size && cs == bs + [end]
    ensures Linked(hs', cs, |bs|, end') && BlockAt(hs', end) == Block(size, true)
  {
  }

  lemma {:induction false} AppendOther(hs: Headers, bs: seq<nat>, end: nat, size: nat, hs': Headers, end': nat, i: nat,
                                       cs: seq<nat>)
    requires i < |bs| && Linked(hs, bs, i, end) && Ascending(bs) && cs == bs + [end]
    requires Apart(bs[i], end) && bs[i] < end && bs[i] > 0
    requires AppendFacts(hs, hs', bs[|bs| - 1], end, size)
    ensures Linked(hs', cs, i, end') && BlockAt(hs', bs[i]) == BlockAt(hs, bs[i])
  {
  }

  lemma {:induction false} AppendLinks(hs: Headers, bs: seq<nat>, end: nat, size: nat, hs': Headers, end': nat)
    requires AllLinked(hs, bs, end) && Ascending(bs) && end' == end + HEADER_SIZE + size
    requires forall i :: 0 <= i < |bs| ==> Apart(bs[i], end) && bs[i] < end && bs[i] > 0
    requires AppendFacts(hs, hs', if bs == [] then 0 else bs[|bs| - 1], end, size)
    ensures AllLinked(hs', bs + [end], end')
    ensures Row(hs', bs + [end]) == Row(hs, bs) + [Block(size, true)]
  {
    hide AppendFacts, Ascending, Apart, Linked, BlockAt, Row;
    var cs := bs + [end];
    AppendNew(hs, bs, end, size, hs', end', cs);
    forall i | 0 <= i < |bs| ensures Linked(hs', cs, i, end') && BlockAt(hs', bs[i]) == BlockAt(hs, bs[i]) {
      assert Linked(hs, bs, i, end) && Apart(bs[i], end);
      AppendOther(hs, bs, end, size, hs', end', i, cs);
    }
    AppendRow(hs, hs', bs, end, size);
  }

  lemma {:induction false} AppendApart(hs: Headers, bs: seq<nat>, end: nat, i: nat)
    requires IsList(hs, bs, end) && i < |bs|
    ensures bs[i] in hs && Apart(bs[i], end) && bs[i] < end && bs[i] > 0
  {
    InHeap(hs, bs, end, i);
  }

  lemma {:induction false} AppendStale(hs: Headers, bs: seq<nat>, end: nat, size: nat, hs': Headers)
    requires StaleFree(hs, bs) && AppendFacts(hs, hs', if bs == [] then 0 else bs[|bs| - 1], end, size)
    ensures StaleFree(hs', bs + [end])
  {
  }

  lemma {:induction false} AppendIsList(hs: Headers, bs: seq<nat>, end: nat, size: nat, hs': Headers)
    requires IsList(hs, bs, end)
    requires hs' == Appended(hs, if bs == [] then 0 else bs[|bs| - 1], end, size)
    ensures IsList(hs', bs + [end], end + HEADER_SIZE + size)
    ensures Row(hs', bs + [end]) == Row(hs, bs) + [Block(size, true)]
  {
    hide Appended, Row, Linked;
    forall i | 0 <= i < |bs| ensures bs[i] in hs && Apart(bs[i], end) && bs[i] < end && bs[i] > 0 {
      AppendApart(hs, bs, end, i);
    }
    AppendedFacts(hs, if bs == [] then 0 else bs[|bs| - 1], end, size, hs');
    AppendLinks(hs, bs, end, size, hs', end + HEADER_SIZE + size);
    AppendStale(hs, bs, end, size, hs');
    hide AllLinked, StaleFree, AppendFacts, Apart;
  }

  // ---- allocations under these changes ----

  lemma {:induction false} LiveInHeap(hs: Headers, bs: seq<nat>, end: nat, a: nat)
    requires IsList(hs, bs, end) && a in Live(hs)
    ensures a in bs && HEAP_START <= a && a + HEADER_SIZE + Live(hs)[a] <= end
  {
    var i :| 0 <= i < |bs| && bs[i] == a;
    InHeap(hs, bs, end, i);
  }

  lemma {:induction false} LiveBelowEnd(hs: Headers, bs: seq<nat>, end: nat)
    requires IsList(hs, bs, end)
    ensures forall a :: a in Live(hs) ==> a + HEADER_SIZE + Live(hs)[a] <= end
    ensures forall a: nat, x: nat :: LiveByte(Live(hs), a, x) ==> x < end
  {
    forall a | a in Live(hs) ensures a + HEADER_SIZE + Live(hs)[a] <= end {
      LiveInHeap(hs, bs, end, a);
    }
    hide IsList;
  }

  lemma {:induction false} AppendLive(hs: Headers, bs: seq<nat>, end: nat, last: nat, size: nat, hs': Headers)
    requires IsList(hs, bs, end) && AppendFacts(hs, hs', last, end, size)
    ensures Live(hs') == Live(hs)
  {
    LiveBelowEnd(hs, bs, end);
    hide IsList, LiveByte;
  }

  /** What an expansion does, all in one: the list, the row, the allocations and where their bytes lie. */
  lemma {:induction false} AppendEffect(hs: Headers, bs: seq<nat>, end: nat, last: nat, size: nat, hs': Headers)
    requires IsList(hs, bs, end) && last == if bs == [] then 0 else bs[|bs| - 1]
    requires hs' == Appended(hs, last, end, size)
    ensures IsList(hs', bs + [end], end + HEADER_SIZE + size)
    ensures Row(hs', bs + [end]) == Row(hs, bs) + [Block(size, true)] && Live(hs') == Live(hs)
    ensures forall a: nat, x: nat :: LiveByte(Live(hs), a, x) ==> x < end
  {
    hide Appended, Row, Live, LiveByte, AllLinked, Ascending, StaleFree;
    if bs != [] {
      AppendApart(hs, bs, end, |bs| - 1);
    }
    AppendIsList(hs, bs, end, size, hs');
    AppendedFacts(hs, last, end, size, hs');
    AppendLive(hs, bs, end, last, size, hs');
    LiveBelowEnd(hs, bs, end);
  }

  /** The writes of an expansion, one after the other. */
  lemma {:induction false} AppendWrites(hs: Headers, bs: seq<nat>, end: nat, last: nat, size: nat, hs1: Headers)
    requires IsList(hs, bs, end) && last == if bs == [] then 0 else bs[|bs| - 1]
    requires hs1 == Written(hs, end, Header(size, true, 0, 0, HEAP_MAGIC))
    ensures end in hs1 && (bs == [] ==> hs1 == Appended(hs, last, end, size))
    ensures bs != [] ==>
      last in hs1 && last != end &&
      hs1[last := hs1[last].(next := end)][end := hs1[end].(prev := last)] == Appended(hs, last, end, size)
  {
    hide AllLinked, Ascending, StaleFree;
    if bs != [] {
      AppendApart(hs, bs, end, |bs| - 1);
    }
    hide IsList;
  }

  lemma {:induction false} LiveAround(hs: Headers, bs: seq<nat>, end: nat, k: nat, a: nat)
    requires IsList(hs, bs, end) && k < |bs| && bs[k] in hs && a in Live(hs) && a != bs[k]
    ensures a + HEADER_SIZE + Live(hs)[a] <= bs[k] || bs[k] + HEADER_SIZE + hs[bs[k]].size <= a
  {
    var i :| 0 <= i < |bs| && bs[i] == a;
    if i < k {
      InOrder(hs, bs, end, i, k);
    } else {
      InOrder(hs, bs, end, k, i);
    }
  }

  lemma {:induction false} SplitAround(hs: Headers, bs: seq<nat>, end: nat, k: nat, s: nat)
    requires IsList(hs, bs, end) && k < |bs| && bs[k] in hs && hs[bs[k]].free
    requires bs[k] + HEADER_SIZE <= s && s + HEADER_SIZE <= bs[k] + HEADER_SIZE + hs[bs[k]].size
    ensures forall a :: a in Live(hs) ==> a + HEADER_SIZE + Live(hs)[a] <= s || s + HEADER_SIZE <= a
    ensures forall a: nat, x: nat :: LiveByte(Live(hs), a, x) ==> !(s <= x < s + HEADER_SIZE)
  {
    forall a | a in Live(hs) ensures a + HEADER_SIZE + Live(hs)[a] <= s || s + HEADER_SIZE <= a {
      LiveAround(hs, bs, end, k, a);
    }
    hide IsList;
  }

  lemma {:induction false} SplitLive(hs: Headers, b: nat, n: nat, s: nat, hs': Headers)
    requires b in hs && hs[b].free && s == b + HEADER_SIZE + n && SplitFacts(hs, hs', b, n, s, hs[b].next)
    requires forall a :: a in Live(hs) ==> a + HEADER_SIZE + Live(hs)[a] <= s || s + HEADER_SIZE <= a
    ensures Live(hs') == Live(hs)
  {
  }

  /** Cutting the free block `k` to `n` bytes, in one statement. */
  lemma {:induction false} SplitEffect(hs: Headers, bs: seq<nat>, end: nat, k: nat, n: nat, s: nat, hs': Headers)
    requires IsList(hs, bs, end) && k < |bs| && bs[k] in hs && hs[bs[k]].free && hs[bs[k]].size >= n + HEADER_SIZE
    requires s == bs[k] + HEADER_SIZE + n && hs' == SplitAt(hs, bs[k], n)
    ensures IsList(hs', Inserted(bs, k, s), end) && Inserted(bs, k, s)[k] == bs[k]
    ensures Row(hs', Inserted(bs, k, s)) ==
            Row(hs, bs)[..k] + [Block(n, true), Block(hs[bs[k]].size - n - HEADER_SIZE, true)] + Row(hs, bs)[k + 1..]
    ensures bs[k] in hs' && hs'[bs[k]] == hs[bs[k]].(size := n, next := s) && Live(hs') == Live(hs)
    ensures forall a: nat, x: nat :: LiveByte(Live(hs), a, x) ==> !(s <= x < s + HEADER_SIZE)
  {
    hide Row, Live, LiveByte, Linked;
    SplitIsList(hs, bs, end, k, n, hs');
    SplitFollows(hs, bs, end, k, n, hs');
    SplitAround(hs, bs, end, k, s);
    SplitLive(hs, bs[k], n, s, hs');
    hide IsList;
  }

  lemma {:induction false} AbsorbLive(hs: Headers, b: nat, next: nat, hs': Headers)
    requires AbsorbFacts(hs, hs', b, next) && hs[b].free && hs[next].free
    ensures Live(hs') == Live(hs)
  {
  }

  lemma {:induction false} MarkLive(hs: Headers, b: nat)
    requires b in hs
    ensures Live(WithFree(hs, b, false)) == Live(hs)[b := hs[b].size]
    ensures Live(WithFree(hs, b, true)) == Live(hs) - {b}
  {
  }

  /** Carving is cutting, then marking. */
  lemma {:induction false} CarveSteps(r: seq<Block>, k: nat, n: nat, r1: seq<Block>)
    requires k < |r| && r[k].size >= n
    requires if r[k].size >= n + HEADER_SIZE + MIN_SPLIT
             then r1 == r[..k] + [r[k].(size := n), Block(r[k].size - n - HEADER_SIZE, true)] + r[k + 1..]
             else r1 == r
    ensures k < |r1| && r1[k := r1[k].(free := false)] == Carve(r, k, n)
  {
  }
}
