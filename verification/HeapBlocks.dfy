/** The kernel heap as a row of blocks: what its operations do to the row, and what every run keeps. */
module HeapBlocks {

  const HEADER_SIZE: nat := 40
  const MIN_SPLIT: nat := 32
  const PAGE_SIZE: nat := 4096

  /** A block's user bytes, and whether it is free. */
  datatype Block = Block(size: nat, free: bool)

  function UsedCount(bs: seq<Block>): nat {
    if bs == [] then 0 else UsedCount(bs[1..]) + if bs[0].free then 0 else 1
  }

  /** The bytes the row covers, headers included. */
  function Extent(bs: seq<Block>): nat {
    if bs == [] then 0 else HEADER_SIZE + bs[0].size + Extent(bs[1..])
  }

  /** Blocks `i - 1` and `i` are both free. */
  predicate FreePair(bs: seq<Block>, i: nat) { 1 <= i < |bs| && bs[i - 1].free && bs[i].free }

  /** No two neighbouring blocks are both free. */
  ghost predicate Coalesced(bs: seq<Block>) {
    forall i: nat :: !FreePair(bs, i)
  }

  // ---- the operations ----

  /** Requests are rounded up to 16 bytes. */
  function Aligned(n: nat): nat { (n + 15) / 16 * 16 }

  /** Index of the first free block of at least `n` bytes, or the number of blocks. */
  function FirstFit(bs: seq<Block>, n: nat): (k: nat)
    ensures k <= |bs|
    ensures k < |bs| ==> bs[k].free && bs[k].size >= n
    ensures forall i :: 0 <= i < k ==> !(bs[i].free && bs[i].size >= n)
  {
    if bs == [] || (bs[0].free && bs[0].size >= n) then 0 else 1 + FirstFit(bs[1..], n)
  }

  /** The pages an expansion for `n` bytes takes. */
  function Pages(n: nat): nat { (n + HEADER_SIZE + PAGE_SIZE - 1) / PAGE_SIZE }

  function Expanded(bs: seq<Block>, n: nat): seq<Block> {
    bs + [Block(Pages(n) * PAGE_SIZE - HEADER_SIZE, true)]
  }

  /** What taking `n` bytes of a block leaves in its place: the block in use, and the rest as a free
      block if it is large enough. */
  function Pieces(b: Block, n: nat): seq<Block>
    requires b.size >= n
  {
    if b.size >= n + HEADER_SIZE + MIN_SPLIT then [Block(n, false), Block(b.size - n - HEADER_SIZE, true)]
    else [Block(b.size, false)]
  }

  function Carve(bs: seq<Block>, k: nat, n: nat): seq<Block>
    requires k < |bs| && bs[k].size >= n
  {
    bs[..k] + Pieces(bs[k], n) + bs[k + 1..]
  }

  /** Merges block `k` with its successor if both are free. */
  function Merge(bs: seq<Block>, k: nat): seq<Block>
    requires k < |bs|
  {
    if k + 1 < |bs| && bs[k].free && bs[k + 1].free
    then bs[..k] + [Block(bs[k].size + HEADER_SIZE + bs[k + 1].size, true)] + bs[k + 2..]
    else bs
  }

  /** Frees block `k` and merges it with its neighbours. */
  function Release(bs: seq<Block>, k: nat): seq<Block>
    requires k < |bs|
  {
    var cs := Merge(bs[k := bs[k].(free := true)], k);
    if k > 0 then Merge(cs, k - 1) else cs
  }

  /** Moves block `k`'s allocation to block `f`: carves the new one and frees the old, without merging. */
  function Moved(bs: seq<Block>, k: nat, f: nat, n: nat): seq<Block>
    requires k < |bs| && f < |bs| && bs[f].size >= n
  {
    var cs := Carve(bs, f, n);
    var k' := if f < k then k + |cs| - |bs| else k;
    cs[k' := cs[k'].(free := true)]
  }

  // ---- sums over rows ----

  lemma {:induction false} SumsAppend(a: seq<Block>, b: seq<Block>)
    ensures UsedCount(a + b) == UsedCount(a) + UsedCount(b)
    ensures Extent(a + b) == Extent(a) + Extent(b)
  {
    if a == [] {
      assert a + b == b;
    } else {
      assert (a + b)[0] == a[0] && (a + b)[1..] == a[1..] + b;
      SumsAppend(a[1..], b);
    }
  }

  lemma {:induction false} SumsSplit(bs: seq<Block>, k: nat, m: seq<Block>, l: nat)
    requires k + l <= |bs|
    ensures UsedCount(bs[..k] + m + bs[k + l..]) + UsedCount(bs[k..k + l]) == UsedCount(bs) + UsedCount(m)
    ensures Extent(bs[..k] + m + bs[k + l..]) + Extent(bs[k..k + l]) == Extent(bs) + Extent(m)
  {
    var a, b, c := bs[..k], bs[k..k + l], bs[k + l..];
    assert bs == a + b + c;
    SumsAppend(a + b, c);
    SumsAppend(a, b);
    SumsAppend(a + m, c);
    SumsAppend(a, m);
  }

  // ---- what each operation keeps ----

  lemma {:induction false} SinglesSum(b: Block, c: Block)
    ensures UsedCount([b]) == (if b.free then 0 else 1) && Extent([b]) == HEADER_SIZE + b.size
    ensures UsedCount([b, c]) == UsedCount([b]) + UsedCount([c]) && Extent([b, c]) == Extent([b]) + Extent([c])
  {
  }

  lemma {:induction false} CarveSums(bs: seq<Block>, k: nat, n: nat)
    requires k < |bs| && bs[k].size >= n && bs[k].free
    ensures Extent(Carve(bs, k, n)) == Extent(bs) && UsedCount(Carve(bs, k, n)) == UsedCount(bs) + 1
  {
    var m := Pieces(bs[k], n);
    SumsSplit(bs, k, m, 1);
    assert bs[k..k + 1] == [bs[k]];
    SinglesSum(bs[k], bs[k]);
    SinglesSum(m[0], m[|m| - 1]);
  }

  /** Taking from a free block: whatever stands before it, the block taken separates it from the rest. */
  lemma {:induction false} CarveCoalesced(bs: seq<Block>, k: nat, n: nat)
    requires k < |bs| && bs[k].size >= n && bs[k].free
    requires Coalesced(bs[..k]) && Coalesced(bs[k..])
    ensures Coalesced(Carve(bs, k, n))
  {
    var cs, m := Carve(bs, k, n), Pieces(bs[k], n);
    var d := |m| - 1;
    forall i: nat | 1 <= i < |cs| ensures !FreePair(cs, i) {
      assert !FreePair(bs[..k], i);
      assert i >= d + k ==> !FreePair(bs[k..], i - d - k);
    }
  }

  lemma {:induction false} MergeSums(bs: seq<Block>, k: nat)
    requires k < |bs|
    ensures Extent(Merge(bs, k)) == Extent(bs) && UsedCount(Merge(bs, k)) == UsedCount(bs)
  {
    if k + 1 < |bs| && bs[k].free && bs[k + 1].free {
      var b := Block(bs[k].size + HEADER_SIZE + bs[k + 1].size, true);
      SumsSplit(bs, k, [b], 2);
      assert bs[k..k + 2] == [bs[k], bs[k + 1]];
      SinglesSum(bs[k], bs[k + 1]);
      SinglesSum(b, b);
      SinglesSum(bs[k + 1], b);
    }
  }

  lemma {:induction false} SetFreeSums(bs: seq<Block>, k: nat)
    requires k < |bs|
    ensures var cs := bs[k := bs[k].(free := true)];
            Extent(cs) == Extent(bs) && UsedCount(cs) == UsedCount(bs) - if bs[k].free then 0 else 1
  {
    var b := bs[k].(free := true);
    SumsSplit(bs, k, [b], 1);
    assert bs[k..k + 1] == [bs[k]] && bs[k := b] == bs[..k] + [b] + bs[k + 1..];
    SinglesSum(b, b);
    SinglesSum(bs[k], b);
  }

  lemma {:induction false} ReleaseSums(bs: seq<Block>, k: nat)
    requires k < |bs| && !bs[k].free
    ensures Extent(Release(bs, k)) == Extent(bs) && UsedCount(Release(bs, k)) == UsedCount(bs) - 1
  {
    var fs := bs[k := bs[k].(free := true)];
    SetFreeSums(bs, k);
    MergeSums(fs, k);
    if k > 0 {
      MergeSums(Merge(fs, k), k - 1);
    }
  }

  /** Freeing a block with merging on both sides leaves no two free neighbours. */
  lemma {:induction false} ReleaseCoalesced(bs: seq<Block>, k: nat)
    requires k < |bs| && Coalesced(bs)
    ensures Coalesced(Release(bs, k))
  {
    var fs := bs[k := bs[k].(free := true)];
    var cs := Merge(fs, k);
    forall i: nat | i != k ensures !FreePair(cs, i) {
      assert !FreePair(bs, i) && !FreePair(bs, i + 1);
    }
    forall i: nat ensures !FreePair(Release(bs, k), i) {
      assert (i != k ==> !FreePair(cs, i)) && (i + 1 != k ==> !FreePair(cs, i + 1));
    }
  }

  lemma {:induction false} AllFree(bs: seq<Block>)
    requires UsedCount(bs) == 0
    ensures forall i :: 0 <= i < |bs| ==> bs[i].free
    ensures |bs| == 1 ==> Extent(bs) == HEADER_SIZE + bs[0].size
  {
    if bs != [] {
      AllFree(bs[1..]);
    }
  }

  /** When everything is free, a row without free neighbours is one block over the whole extent. */
  lemma {:induction false} AllFreeIsOneBlock(bs: seq<Block>)
    requires Coalesced(bs) && UsedCount(bs) == 0
    ensures bs == [] || bs == [Block(Extent(bs) - HEADER_SIZE, true)]
  {
    AllFree(bs);
    assert !FreePair(bs, 1);
  }

  /** What a move does: the same bytes, the same number in use. */
  lemma {:induction false} MovedSums(bs: seq<Block>, k: nat, f: nat, n: nat)
    requires k < |bs| && f < |bs| && bs[f].size >= n && bs[f].free && !bs[k].free
    ensures Extent(Moved(bs, k, f, n)) == Extent(bs) && UsedCount(Moved(bs, k, f, n)) == UsedCount(bs)
  {
    var cs := Carve(bs, f, n);
    CarveSums(bs, f, n);
    var k' := if f < k then k + |cs| - |bs| else k;
    assert cs[k'] == bs[k];
    SetFreeSums(cs, k');
  }

  /** When block `k` moves to `f`, its old place has no free neighbour: the block before it is in use
      or wholly taken by the move, the block after it is in use or the one the move takes. */
  predicate FreedAlone(bs: seq<Block>, k: nat, f: nat, n: nat)
    requires k < |bs| && f < |bs|
  {
    (k == 0 || !bs[k - 1].free || (f == k - 1 && bs[f].size < n + HEADER_SIZE + MIN_SPLIT)) &&
    (k + 1 == |bs| || !bs[k + 1].free || f == k + 1)
  }

  /** A move keeps free neighbours apart exactly when it frees a block without free neighbours. */
  lemma {:induction false} MovedCoalescedIff(bs: seq<Block>, k: nat, f: nat, n: nat)
    requires k < |bs| && f < |bs| && bs[f].size >= n && bs[f].free && !bs[k].free && Coalesced(bs)
    ensures Coalesced(Moved(bs, k, f, n)) <==> FreedAlone(bs, k, f, n)
  {
    var cs := Carve(bs, f, n);
    forall i: nat ensures !FreePair(bs[..f], i) && !FreePair(bs[f..], i) {
      assert !FreePair(bs, i) && !FreePair(bs, i + f);
    }
    CarveCoalesced(bs, f, n);
    var k' := if f < k then k + |cs| - |bs| else k;
    var ds := Moved(bs, k, f, n);
    forall i: nat | i != k' && i != k' + 1 ensures !FreePair(ds, i) {
      assert !FreePair(cs, i);
    }
    assert FreePair(ds, k') == (k' > 0 && cs[k' - 1].free);
    assert FreePair(ds, k' + 1) == (k' + 1 < |cs| && cs[k' + 1].free);
  }

  // ---- runs ----

  /** The row with the counts of successful allocations and of frees. */
  datatype State = State(blocks: seq<Block>, allocs: nat, frees: nat)

  /** A request; `canGrow` is whether the address range and the frame allocator allow an expansion.
      Frees and moves name the block by its index. */
  datatype Op = Malloc(n: nat, canGrow: bool) | Free(k: nat) | Realloc(k: nat, n: nat)

  /** The row an allocation of `n` bytes carves from, expanded if nothing fits and it may be. */
  function Source(bs: seq<Block>, n: nat, canGrow: bool): seq<Block> {
    if FirstFit(bs, Aligned(n)) == |bs| && canGrow then Expanded(bs, Aligned(n)) else bs
  }

  predicate CanAllocate(bs: seq<Block>, n: nat, canGrow: bool) {
    n > 0 && (FirstFit(bs, Aligned(n)) < |bs| || canGrow)
  }

  lemma {:induction false} ExpansionFits(bs: seq<Block>, n: nat)
    ensures Expanded(bs, n)[|bs|].size >= n && Expanded(bs, n)[|bs|].free
    ensures Pages(n) >= 1
  {
  }

  function Apply(s: State, op: Op): State {
    match op
    case Malloc(n, canGrow) =>
      if !CanAllocate(s.blocks, n, canGrow) then s
      else
        var k := FirstFit(s.blocks, Aligned(n));
        ExpansionFits(s.blocks, Aligned(n));
        State(Carve(Source(s.blocks, n, canGrow), k, Aligned(n)), s.allocs + 1, s.frees)
    case Free(k) =>
      if k >= |s.blocks| || s.blocks[k].free then s else State(Release(s.blocks, k), s.allocs, s.frees + 1)
    case Realloc(k, n) =>
      if k >= |s.blocks| || s.blocks[k].free || n == 0 || s.blocks[k].size >= n then s
      else
        var f := FirstFit(s.blocks, Aligned(n));
        if f == |s.blocks| then s else s.(blocks := Moved(s.blocks, k, f, Aligned(n)))
  }

  /** An expansion takes the fewest pages that hold the request and a header. */
  lemma {:induction false} PagesFewest(n: nat, k: nat)
    ensures k * PAGE_SIZE >= n + HEADER_SIZE <==> k >= Pages(n)
  {
  }

  function Run(s: State, ops: seq<Op>): State {
    if ops == [] then s else Apply(Run(s, ops[..|ops| - 1]), ops[|ops| - 1])
  }

  /** The heap after initialisation, with the first page if it could be had. */
  function Initial(grown: bool): State { State(if grown then Expanded([], 0) else [], 0, 0) }

  /** Headers and blocks fill whole pages, and the counts differ by the blocks in use. */
  ghost predicate Sound(s: State) {
    Extent(s.blocks) % PAGE_SIZE == 0 && s.frees + UsedCount(s.blocks) == s.allocs
  }

  lemma {:induction false} ExpandedSums(bs: seq<Block>, n: nat)
    ensures Extent(Expanded(bs, n)) == Extent(bs) + Pages(n) * PAGE_SIZE
    ensures UsedCount(Expanded(bs, n)) == UsedCount(bs)
  {
    var b := Block(Pages(n) * PAGE_SIZE - HEADER_SIZE, true);
    SumsAppend(bs, [b]);
    SinglesSum(b, b);
  }

  lemma {:induction false} ExpandedAt(bs: seq<Block>, n: nat)
    ensures |Expanded(bs, n)| == |bs| + 1
  {
  }

  lemma {:induction false} ApplySound(s: State, op: Op)
    requires Sound(s)
    ensures Sound(Apply(s, op)) && Extent(Apply(s, op).blocks) >= Extent(s.blocks)
  {
    hide UsedCount, Extent, Carve, Release, Moved, Aligned, Expanded, Pages;
    match op
    case Malloc(n, canGrow) =>
      if CanAllocate(s.blocks, n, canGrow) {
        ExpandedSums(s.blocks, Aligned(n));
        ExpansionFits(s.blocks, Aligned(n));
        ExpandedAt(s.blocks, Aligned(n));
        CarveSums(Source(s.blocks, n, canGrow), FirstFit(s.blocks, Aligned(n)), Aligned(n));
      }
    case Free(k) =>
      if k < |s.blocks| && !s.blocks[k].free {
        ReleaseSums(s.blocks, k);
      }
    case Realloc(k, n) =>
      var f := FirstFit(s.blocks, Aligned(n));
      if Apply(s, op) != s && f < |s.blocks| {
        MovedSums(s.blocks, k, f, Aligned(n));
      }
  }

  /** Not a move that frees a block beside a free one. */
  predicate KeepsApart(bs: seq<Block>, op: Op) {
    op.Realloc? && op.k < |bs| && !bs[op.k].free && bs[op.k].size < op.n ==>
      var f := FirstFit(bs, Aligned(op.n));
      f < |bs| ==> FreedAlone(bs, op.k, f, Aligned(op.n))
  }

  lemma {:induction false} MallocCoalesced(s: State, n: nat, canGrow: bool)
    requires Coalesced(s.blocks)
    ensures Coalesced(Apply(s, Malloc(n, canGrow)).blocks)
  {
    if CanAllocate(s.blocks, n, canGrow) {
      var bs, k := Source(s.blocks, n, canGrow), FirstFit(s.blocks, Aligned(n));
      ExpansionFits(s.blocks, Aligned(n));
      forall i: nat ensures !FreePair(bs[..k], i) && !FreePair(bs[k..], i) {
        assert !FreePair(s.blocks, i) && !FreePair(s.blocks, i + k);
      }
      CarveCoalesced(bs, k, Aligned(n));
    }
  }

  /** Allocations and frees leave no two free neighbours, and a move does exactly if it frees a block
      beside a free one. */
  lemma {:induction false} ApplyCoalescedIff(s: State, op: Op)
    requires Coalesced(s.blocks)
    ensures Coalesced(Apply(s, op).blocks) <==> KeepsApart(s.blocks, op)
  {
    match op
    case Malloc(n, canGrow) =>
      MallocCoalesced(s, n, canGrow);
    case Free(k) =>
      if k < |s.blocks| && !s.blocks[k].free {
        ReleaseCoalesced(s.blocks, k);
      }
    case Realloc(k, n) =>
      var f := FirstFit(s.blocks, Aligned(n));
      if k < |s.blocks| && !s.blocks[k].free && s.blocks[k].size < n && f < |s.blocks| {
        hide Moved, FreedAlone, Coalesced;
        MovedCoalescedIff(s.blocks, k, f, Aligned(n));
      }
  }

  /** Every run keeps the heap's pages filled exactly and its counts right. */
  lemma {:induction false} RunSound(grown: bool, ops: seq<Op>)
    ensures Sound(Run(Initial(grown), ops))
  {
    if ops == [] {
      ExpandedSums([], 0);
    } else {
      RunSound(grown, ops[..|ops| - 1]);
      ApplySound(Run(Initial(grown), ops[..|ops| - 1]), ops[|ops| - 1]);
    }
  }

  /** No operation of the run is a move that frees a block beside a free one. */
  ghost predicate AllKeepApart(grown: bool, ops: seq<Op>) {
    ops == [] ||
    (AllKeepApart(grown, ops[..|ops| - 1]) &&
     KeepsApart(Run(Initial(grown), ops[..|ops| - 1]).blocks, ops[|ops| - 1]))
  }

  lemma {:induction false} InitialCoalesced(grown: bool)
    ensures Coalesced(Initial(grown).blocks)
  {
  }

  lemma {:induction false} AllFreed(s: State)
    requires Sound(s) && Coalesced(s.blocks)
    ensures s.allocs == s.frees ==> s.blocks == [] || s.blocks == [Block(Extent(s.blocks) - HEADER_SIZE, true)]
  {
    if s.allocs == s.frees {
      AllFreeIsOneBlock(s.blocks);
    }
  }

  /** Every run of allocations, frees and moves that free no block beside a free one leaves no two free
      neighbours; so when as much has been freed as was allocated the heap is one free block over all
      its pages. */
  lemma {:induction false} RunCoalesced(grown: bool, ops: seq<Op>)
    requires AllKeepApart(grown, ops)
    ensures var s := Run(Initial(grown), ops);
            Coalesced(s.blocks) &&
            (s.allocs == s.frees ==> s.blocks == [] || s.blocks == [Block(Extent(s.blocks) - HEADER_SIZE, true)])
  {
    InitialCoalesced(grown);
    hide Apply, Initial, Coalesced, Sound, Extent, KeepsApart;
    if ops != [] {
      RunCoalesced(grown, ops[..|ops| - 1]);
      ApplyCoalescedIff(Run(Initial(grown), ops[..|ops| - 1]), ops[|ops| - 1]);
    }
    RunSound(grown, ops);
    AllFreed(Run(Initial(grown), ops));
  }

  /** In particular every run of allocations and frees alone. */
  lemma {:induction false} WithoutMoves(grown: bool, ops: seq<Op>)
    requires forall i :: 0 <= i < |ops| ==> !ops[i].Realloc?
    ensures AllKeepApart(grown, ops)
  {
    if ops != [] {
      WithoutMoves(grown, ops[..|ops| - 1]);
    }
  }

  lemma {:induction false} RunStep(s: State, ops: seq<Op>, op: Op)
    ensures Run(s, ops + [op]) == Apply(Run(s, ops), op)
  {
    assert (ops + [op])[..|ops|] == ops;
  }

  lemma {:induction false} FirstFitOf(bs: seq<Block>, n: nat, k: nat)
    requires k < |bs| && bs[k].free && bs[k].size >= n
    requires forall i :: 0 <= i < k ==> !(bs[i].free && bs[i].size >= n)
    ensures FirstFit(bs, n) == k
  {
  }

  /** Sixteen bytes taken from the only free block, the last one. */
  lemma {:induction false} SmallMalloc(s: State, used: seq<Block>, rest: nat)
    requires s.blocks == used + [Block(rest, true)] && rest >= 16 + HEADER_SIZE + MIN_SPLIT
    requires forall i :: 0 <= i < |used| ==> !used[i].free
    ensures Apply(s, Malloc(16, false)).blocks == used + [Block(16, false), Block(rest - 16 - HEADER_SIZE, true)]
  {
    FirstFitOf(s.blocks, 16, |used|);
  }

  /** `n` requests of sixteen bytes, and the blocks they get. */
  function SmallRequests(n: nat): seq<Op> { if n == 0 then [] else SmallRequests(n - 1) + [Malloc(16, false)] }

  function SmallBlocks(n: nat): (bs: seq<Block>)
    ensures |bs| == n && forall i :: 0 <= i < n ==> bs[i] == Block(16, false)
  {
    if n == 0 then [] else SmallBlocks(n - 1) + [Block(16, false)]
  }

  /** A fresh heap after `n` small allocations, as long as they fit its first page. */
  lemma {:induction false} SmallRun(n: nat)
    requires n <= 70
    ensures Run(Initial(true), SmallRequests(n)).blocks == SmallBlocks(n) + [Block(4056 - 56 * n, true)]
  {
    hide Apply, Pages;
    if n == 0 {
      PagesFewest(0, 1);
      PagesFewest(0, 0);
    } else {
      hide Initial;
      SmallRun(n - 1);
      RunStep(Initial(true), SmallRequests(n - 1), Malloc(16, false));
      SmallMalloc(Run(Initial(true), SmallRequests(n - 1)), SmallBlocks(n - 1), 4056 - 56 * (n - 1));
    }
  }

  /** A fresh heap after three small allocations and the free of the second. */
  lemma {:induction false} HoleRun()
    ensures Run(Initial(true), SmallRequests(3) + [Free(1)]).blocks ==
            [Block(16, false), Block(16, true), Block(16, false), Block(3888, true)]
  {
    var s := Run(Initial(true), SmallRequests(3));
    SmallRun(3);
    RunStep(Initial(true), SmallRequests(3), Free(1));
    hide Run, SmallRequests, SmallBlocks;
    assert s.blocks == [Block(16, false), Block(16, false), Block(16, false), Block(3888, true)];
  }

  /** From a fresh heap a move can leave free neighbours: the block it frees is not merged. */
  lemma {:induction false} ReallocLeavesFreeNeighbours()
    ensures var ops := SmallRequests(3) + [Free(1)];
            Coalesced(Run(Initial(true), ops).blocks) && !Coalesced(Run(Initial(true), ops + [Realloc(0, 32)]).blocks)
  {
    hide Run, SmallRequests;
    var ops := SmallRequests(3) + [Free(1)];
    var s := Run(Initial(true), ops);
    HoleRun();
    RunStep(Initial(true), ops, Realloc(0, 32));
    FirstFitOf(s.blocks, 32, 3);
    ApplyCoalescedIff(s, Realloc(0, 32));
  }
}
