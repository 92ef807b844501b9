/** The kernel heap allocator working on the headers in memory. */
module Heap {
  import opened HeapBlocks
  import opened HeapLists
  import opened Options

  const MAX_FRAMES: nat := 0x10_0000

  /** A block is less than this larger than what was asked for: rounding, and a rest too small to split off. */
  const MAX_WASTE: nat := 16 + HEADER_SIZE + MIN_SPLIT

  const WORD: nat := 0x1_0000_0000_0000_0000

  /** The bytes stored outside headers; a byte nobody stored is absent. */
  type Data = map<nat, bv8>

  function At(d: Data, x: nat): Option<bv8> { if x in d then Some(d[x]) else None }

  /** The bytes of the allocations are the same in both. */
  ghost predicate SameLive(live: map<nat, nat>, d: Data, d': Data) {
    forall a, x :: LiveByte(live, a, x) ==> At(d', x) == At(d, x)
  }

  /** The end of an expansion is compared with the end of the range in 64-bit arithmetic. */
  predicate Room(heapEnd: nat, n: nat) { (heapEnd + Pages(n) * PAGE_SIZE) % WORD <= HEAP_MAX }

  predicate CanGrow(heapEnd: nat, frames: nat, n: nat) { Room(heapEnd, n) && frames >= Pages(n) }

  /** The frames left after a request: an expansion that runs out of them keeps all it took. */
  function FramesLeft(bs: seq<Block>, heapEnd: nat, frames: nat, n: nat): (r: nat)
    ensures r <= frames
  {
    if n == 0 || FirstFit(bs, Aligned(n)) < |bs| || !Room(heapEnd, Aligned(n)) then frames
    else if frames >= Pages(Aligned(n)) then frames - Pages(Aligned(n)) else 0
  }

  /** A failed request loses frames exactly if nothing fits, the range has room, and there are frames but
      not enough. */
  lemma {:induction false} FramesLostIff(bs: seq<Block>, heapEnd: nat, frames: nat, n: nat)
    ensures !CanAllocate(bs, n, CanGrow(heapEnd, frames, Aligned(n))) &&
            FramesLeft(bs, heapEnd, frames, n) < frames <==>
            n > 0 && FirstFit(bs, Aligned(n)) == |bs| && Room(heapEnd, Aligned(n)) && 0 < frames < Pages(Aligned(n))
  {
    hide FirstFit, Aligned, Pages, Room;
  }

  /** The headers that survive when `n` bytes from `from` on are written. */
  function Spared(hs: Headers, from: nat, n: nat): Headers {
    map h | h in hs && (n == 0 || h + HEADER_SIZE <= from || from + n <= h) :: hs[h]
  }

  /** With 64-bit arithmetic the rounded request and the pages for it are those of the integers
      exactly for requests that stay clear of the top of the range. */
  lemma {:induction false} SizesExactIff(n: nat)
    requires n < WORD
    ensures var aligned := (n + 15) % WORD / 16 * 16;
            var pages := ((aligned + HEADER_SIZE) % WORD + PAGE_SIZE - 1) % WORD / PAGE_SIZE;
            aligned == Aligned(n) && (if pages < 1 then 1 else pages) == Pages(Aligned(n)) <==>
            Aligned(n) + HEADER_SIZE + PAGE_SIZE <= WORD
  {
  }

  /** Dropping headers outside the list changes nothing. */
  lemma {:induction false} RestrictedIsList(hs: Headers, hs': Headers, bs: seq<nat>, end: nat)
    requires IsList(hs, bs, end)
    requires forall a :: a in hs' ==> a in hs && hs'[a] == hs[a]
    requires forall i :: 0 <= i < |bs| ==> bs[i] in hs'
    ensures IsList(hs', bs, end) && Row(hs', bs) == Row(hs, bs) && Live(hs') == Live(hs)
  {
    forall i | 0 <= i < |bs| ensures Linked(hs', bs, i, end) {
      assert Linked(hs, bs, i, end);
    }
    forall a | a in Live(hs) ensures a in hs' {
      var i :| 0 <= i < |bs| && bs[i] == a;
    }
  }

  /** The list's headers survive a write within an allocation. */
  lemma {:induction false} SparedIsList(hs: Headers, bs: seq<nat>, end: nat, a: nat, from: nat, n: nat)
    requires IsList(hs, bs, end) && a in Live(hs)
    requires a + HEADER_SIZE <= from && from + n <= a + HEADER_SIZE + Live(hs)[a]
    ensures var hs' := Spared(hs, from, n);
            IsList(hs', bs, end) && Row(hs', bs) == Row(hs, bs) && Live(hs') == Live(hs)
  {
    hide Live, Row;
    forall i | 0 <= i < |bs| ensures bs[i] in Spared(hs, from, n) {
      InHeap(hs, bs, end, i);
      if a != bs[i] {
        LiveAround(hs, bs, end, i, a);
      }
    }
    hide IsList;
    RestrictedIsList(hs, Spared(hs, from, n), bs, end);
  }

  /** `d'` is `d` with `n` bytes copied from `src` to `dst`. */
  ghost predicate Copied(d: Data, d': Data, dst: nat, src: nat, n: nat) {
    (forall x: nat :: x < dst || dst + n <= x ==> At(d', x) == At(d, x)) &&
    (forall x: nat :: dst <= x < dst + n ==> At(d', x) == At(d, src + (x - dst)))
  }

  lemma {:induction false} MovedBytes(live: map<nat, nat>, a: nat, d: Data, d1: Data, d2: Data, p: nat, q: nat)
    requires a in live && p == a + HEADER_SIZE && SameLive(live, d, d1) && Copied(d1, d2, q, p, live[a])
    requires SameLive(live, d, d2)
    ensures SameLive(live - {a}, d, d2)
    ensures forall x: nat :: q <= x < q + live[a] ==> At(d2, x) == At(d, p + (x - q))
  {
    forall x: nat | q <= x < q + live[a] ensures At(d2, x) == At(d, p + (x - q)) {
      assert LiveByte(live, a, p + (x - q));
    }
    forall c, x | LiveByte(live - {a}, c, x) ensures At(d2, x) == At(d, x) {
      assert LiveByte(live, c, x);
    }
  }

  /** The list after `n` bytes of block `k` are taken. */
  ghost function TakenBlocks(hs: Headers, bs: seq<nat>, k: nat, n: nat): seq<nat>
    requires k < |bs| && bs[k] in hs
  {
    if hs[bs[k]].size >= n + HEADER_SIZE + MIN_SPLIT then Inserted(bs, k, bs[k] + HEADER_SIZE + n) else bs
  }

  /** Where block `k` stands once `n` bytes of block `f` are taken. */
  ghost function MovedIndex(hs: Headers, bs: seq<nat>, k: nat, f: nat, n: nat, len: nat): (k': nat)
    requires k < |bs| && f < |bs| && k != f && bs[f] in hs && len == |TakenBlocks(hs, bs, f, n)|
    ensures k' < len && TakenBlocks(hs, bs, f, n)[k'] == bs[k]
    ensures k' == if f < k then k + len - |bs| else k
  {
    if f < k then k + len - |bs| else k
  }

  lemma {:induction false} CopyStep(d: Data, d1: Data, d2: Data, dst: nat, src: nat, i: nat)
    requires Copied(d, d1, dst, src, i) && At(d2, dst + i) == At(d, src + i)
    requires forall x: nat :: x != dst + i ==> At(d2, x) == At(d1, x)
    ensures Copied(d, d2, dst, src, i + 1)
  {
  }

  lemma {:induction false} CopyKeeps(hs: Headers, bs: seq<nat>, end: nat, b: nat, d: Data, d1: Data, d2: Data, src: nat,
                                     n: nat)
    requires IsList(hs, bs, end) && b in Live(hs) && n <= Live(hs)[b] && Copied(d1, d2, b + HEADER_SIZE, src, n)
    requires SameLive(Live(hs) - {b}, d, d1)
    ensures SameLive(Live(hs) - {b}, d, d2)
  {
    forall a, x | LiveByte(Live(hs) - {b}, a, x) ensures At(d2, x) == At(d, x) {
      LiveDisjoint(hs, bs, end, a, b);
    }
  }

  /** `p` is a new allocation of `n` bytes or more, but less than `most`, and the others are as they were. */
  ghost predicate Allocated(live: map<nat, nat>, live': map<nat, nat>, p: nat, n: nat, most: nat) {
    p >= HEADER_SIZE && p - HEADER_SIZE !in live && p - HEADER_SIZE in live' &&
    n <= live'[p - HEADER_SIZE] < most && live' == live[p - HEADER_SIZE := live'[p - HEADER_SIZE]]
  }

  /** What a move promises: nothing if it fails or the block is large enough; otherwise the old bytes
      at the new place, and the other allocations as they were. */
  ghost predicate Resized(hs: Headers, hs': Headers, d: Data, d': Data, p: nat, n: nat, most: nat, q: nat)
    requires p >= HEADER_SIZE && p - HEADER_SIZE in Live(hs)
  {
    var a := p - HEADER_SIZE;
    if q == 0 || q == p then hs' == hs && d' == d
    else
      Allocated(Live(hs), Live(hs')[a := Live(hs)[a]], q, n, most) && a !in Live(hs') &&
      (forall x: nat :: q <= x < q + Live(hs)[a] ==> At(d', x) == At(d, p + (x - q))) &&
      SameLive(Live(hs) - {a}, d, d')
  }

  ghost function IndexOf(bs: seq<nat>, a: nat): (k: nat)
    requires a in bs
    ensures k < |bs| && bs[k] == a
  {
    if bs[0] == a then 0 else 1 + IndexOf(bs[1..], a)
  }

  lemma {:induction false} InUse(hs: Headers, bs: seq<nat>, end: nat, a: nat)
    requires IsList(hs, bs, end)
    ensures a in Live(hs) <==> a in hs && !hs[a].free
    ensures a in Live(hs) ==> a in bs && hs[a].magic == HEAP_MAGIC && Live(hs)[a] == hs[a].size
  {
    if a in Live(hs) {
      var i :| 0 <= i < |bs| && bs[i] == a;
      assert Linked(hs, bs, i, end);
    }
  }

  lemma {:induction false} ForwardLink(hs: Headers, bs: seq<nat>, end: nat, k: nat)
    requires IsList(hs, bs, end) && k < |bs|
    ensures bs[k] in hs && hs[bs[k]].next == NextOf(bs, k)
    ensures k + 1 < |bs| ==>
      bs[k + 1] > 0 && bs[k + 1] in hs && hs[bs[k + 1]].magic == HEAP_MAGIC && hs[bs[k + 1]].next != bs[k]
  {
    AllInHeap(hs, bs, end);
    assert Linked(hs, bs, k, end);
    assert k + 1 < |bs| ==> Linked(hs, bs, k + 1, end);
  }

  lemma {:induction false} BackLink(hs: Headers, bs: seq<nat>, end: nat, k: nat)
    requires IsList(hs, bs, end) && k < |bs|
    ensures bs[k] in hs && hs[bs[k]].prev == PrevOf(bs, k)
    ensures k > 0 ==> bs[k - 1] > 0 && bs[k - 1] in hs
  {
    AllInHeap(hs, bs, end);
    assert Linked(hs, bs, k, end);
    assert k > 0 ==> Linked(hs, bs, k - 1, end);
  }

  lemma {:induction false} NotLive(hs: Headers, a: nat)
    requires a in hs && hs[a].free
    ensures a !in Live(hs)
  {
  }

  lemma {:induction false} AlignedCovers(n: nat)
    ensures n <= Aligned(n) < n + 16 && Aligned(n) % 16 == 0
  {
  }

  lemma {:induction false} FirstFitIs(r: seq<Block>, n: nat, k: nat)
    requires k <= |r| && (forall i :: 0 <= i < k ==> !(r[i].free && r[i].size >= n))
    requires k < |r| ==> r[k].free && r[k].size >= n
    ensures k == FirstFit(r, n)
  {
  }

  lemma {:induction false} RowAtLast(hs: Headers, bs: seq<nat>, end: nat, k: nat)
    requires IsList(hs, bs, end) && k < |bs|
    ensures bs[k] in hs && Row(hs, bs)[k] == Block(hs[bs[k]].size, hs[bs[k]].free)
  {
    assert Linked(hs, bs, k, end);
  }

  lemma {:induction false} RowAt(hs: Headers, bs: seq<nat>, k: nat)
    requires k < |bs| && bs[k] in hs
    ensures Row(hs, bs)[k] == Block(hs[bs[k]].size, hs[bs[k]].free)
  {
  }

  lemma {:induction false} HeadIffBlocks(hs: Headers, bs: seq<nat>, end: nat)
    requires IsList(hs, bs, end)
    ensures bs != [] ==> bs[0] != 0
    ensures end != 0
  {
    AllInHeap(hs, bs, end);
  }

  class Allocator {
    var head: nat
    var heapEnd: nat
    var allocs: nat
    var frees: nat
    /** How many frames the page allocator can still give. */
    var frames: nat
    var headers: Headers
    var data: Data
    ghost var blocks: seq<nat>

    ghost predicate Valid()
      reads this
    {
      IsList(headers, blocks, heapEnd) && head == (if blocks == [] then 0 else blocks[0]) &&
      heapEnd <= HEAP_MAX && frames <= MAX_FRAMES
    }

    ghost function Contents(): State
      reads this
    {
      State(Row(headers, blocks), allocs, frees)
    }

    constructor (frames: nat)
      requires frames <= MAX_FRAMES
      ensures Valid() && this.frames == frames
    {
      this.frames := frames;
      head, heapEnd, allocs, frees := 0, HEAP_START, 0, 0;
      headers, data, blocks := map[], map[], [];
    }

    method WriteHeader(a: nat, h: Header)
      modifies `headers, `data
      ensures headers == Written(old(headers), a, h)
      ensures forall x: nat :: !(a <= x < a + HEADER_SIZE) ==> At(data, x) == At(old(data), x)
    {
      headers := Written(headers, a, h);
      data := map x | x in data && !(a <= x < a + HEADER_SIZE) :: data[x];
    }

    method TakeFrames(n: nat) returns (ok: bool)
      modifies `frames
      ensures ok == (old(frames) >= n) && frames == if ok then old(frames) - n else 0
    {
      var i := 0;
      while i < n
        invariant i <= n && frames == old(frames) - i
      {
        if frames == 0 {
          return false;
        }
        frames := frames - 1;
        i := i + 1;
      }
      return true;
    }

    method LastBlock() returns (last: nat)
      requires Valid() && blocks != []
      ensures last == blocks[|blocks| - 1]
    {
      AllInHeap(headers, blocks, heapEnd);
      last := head;
      ghost var i: nat := 0;
      assert Linked(headers, blocks, i, heapEnd);
      while headers[last].next != 0
        invariant i < |blocks| && last == blocks[i] && Linked(headers, blocks, i, heapEnd)
        decreases |blocks| - i
      {
        last := headers[last].next;
        i := i + 1;
        assert Linked(headers, blocks, i, heapEnd);
      }
    }

    /** Puts a free block over `pages` new pages at the end of the list. */
    method Append(pages: nat)
      requires Valid() && pages >= 1 && heapEnd + pages * PAGE_SIZE <= HEAP_MAX
      modifies `head, `heapEnd, `headers, `data, `blocks
      ensures Valid() && blocks == old(blocks) + [old(heapEnd)] && heapEnd == old(heapEnd) + pages * PAGE_SIZE
      ensures Row(headers, blocks) == old(Row(headers, blocks)) + [Block(pages * PAGE_SIZE - HEADER_SIZE, true)]
      ensures Live(headers) == old(Live(headers))
      ensures SameLive(old(Live(headers)), old(data), data)
    {
      hide Row, Live, LiveByte, IsList, Appended, Written;
      var blk, size := heapEnd, pages * PAGE_SIZE - HEADER_SIZE;
      HeadIffBlocks(headers, blocks, heapEnd);
      var last: nat := 0;
      if head != 0 {
        last := LastBlock();
      }
      AppendEffect(headers, blocks, heapEnd, last, size, Appended(headers, last, blk, size));
      WriteHeader(blk, Header(size, true, 0, 0, HEAP_MAGIC));
      AppendWrites(old(headers), blocks, blk, last, size, headers);
      heapEnd := heapEnd + pages * PAGE_SIZE;
      if head == 0 {
        head := blk;
      } else {
        headers := headers[last := headers[last].(next := blk)];
        headers := headers[blk := headers[blk].(prev := last)];
      }
      blocks := blocks + [blk];
    }

    method Expand(needed: nat) returns (blk: nat)
      requires Valid()
      modifies `head, `heapEnd, `frames, `headers, `data, `blocks
      ensures Valid()
      ensures blk != 0 <==> old(CanGrow(heapEnd, frames, needed))
      ensures blk == 0 ==> headers == old(headers) && data == old(data) && heapEnd == old(heapEnd) &&
                           blocks == old(blocks) && frames == if Room(heapEnd, needed) then 0 else old(frames)
      ensures blk != 0 ==>
        blk == old(heapEnd) && blocks == old(blocks) + [blk] && frames == old(frames) - Pages(needed) &&
        Row(headers, blocks) == Expanded(old(Row(headers, blocks)), needed) &&
        Live(headers) == old(Live(headers)) && heapEnd == old(heapEnd) + Pages(needed) * PAGE_SIZE
      ensures SameLive(old(Live(headers)), old(data), data)
    {
      AllInHeap(headers, blocks, heapEnd);
      var pages := Pages(needed);
      if (heapEnd + pages * PAGE_SIZE) % WORD > HEAP_MAX {
        return 0;
      }
      var ok := TakeFrames(pages);
      if !ok {
        return 0;
      }
      blk := heapEnd;
      Append(pages);
    }

    /** Empties the heap and maps its first page if it can be had. */
    method Init()
      requires frames <= MAX_FRAMES
      modifies this
      ensures Valid() && Contents() == Initial(old(frames) >= 1)
      ensures Live(headers) == map[] && frames == if old(frames) >= 1 then old(frames) - 1 else 0
      ensures heapEnd == HEAP_START + if old(frames) >= 1 then PAGE_SIZE else 0
    {
      heapEnd, head, allocs, frees := HEAP_START, 0, 0, 0;
      headers, data, blocks := map[], map[], [];
      assert Pages(0) == 1;
      var blk := Expand(0);
    }

    /** A client stores a byte in its allocation at `a`, over whatever header was there before. */
    method Store(x: nat, v: bv8, ghost a: nat)
      requires Valid() && LiveByte(Live(headers), a, x)
      modifies `headers, `data
      ensures Valid() && Contents() == old(Contents()) && Live(headers) == old(Live(headers))
      ensures data == old(data)[x := v] && headers == Spared(old(headers), x, 1)
    {
      SparedIsList(headers, blocks, heapEnd, a, x, 1);
      headers := Spared(headers, x, 1);
      data := data[x := v];
    }

    method Split(b: nat, n: nat, ghost k: nat)
      requires Valid() && k < |blocks| && blocks[k] == b && b in headers && headers[b].free
      requires headers[b].size >= n + HEADER_SIZE + MIN_SPLIT
      modifies `headers, `data, `blocks
      ensures Valid() && blocks == Inserted(old(blocks), k, b + HEADER_SIZE + n) && blocks[k] == b
      ensures Row(headers, blocks) == old(Row(headers, blocks))[..k] + [Block(n, true),
                                      Block(old(headers[b].size) - n - HEADER_SIZE, true)] +
                                      old(Row(headers, blocks))[k + 1..]
      ensures b in headers && headers[b] == old(headers[b]).(size := n, next := b + HEADER_SIZE + n)
      ensures Live(headers) == old(Live(headers))
      ensures SameLive(old(Live(headers)), old(data), data)
    {
      hide Row, Live, LiveByte, Linked;
      var s := b + HEADER_SIZE + n;
      ghost var hs := SplitAt(headers, b, n);
      SplitEffect(headers, blocks, heapEnd, k, n, s, hs);
      hide IsList, Inserted;
      var next := headers[b].next;
      var h := headers[b];
      WriteHeader(s, Header(h.size - n - HEADER_SIZE, true, next, b, HEAP_MAGIC));
      headers := WithPrev(headers, next, s);
      headers := headers[b := h.(next := s, size := n)];
      assert headers == hs;
      blocks := Inserted(blocks, k, s);
    }

    /** Takes `n` bytes of the free block at `b`: splits it if the rest is large enough and marks it. */
    method Take(b: nat, n: nat, ghost k: nat)
      requires Valid() && k < |blocks| && blocks[k] == b && b in headers && headers[b].free && headers[b].size >= n
      modifies `headers, `data, `blocks
      ensures Valid() && blocks == TakenBlocks(old(headers), old(blocks), k, n)
      ensures Row(headers, blocks) == Carve(old(Row(headers, blocks)), k, n)
      ensures b in headers && n <= headers[b].size < n + HEADER_SIZE + MIN_SPLIT
      ensures Live(headers) == old(Live(headers))[b := headers[b].size]
      ensures SameLive(old(Live(headers)), old(data), data)
    {
      hide Row, Live, LiveByte, Linked, Carve, IsList, Inserted;
      RowAt(headers, blocks, k);
      ghost var r := Row(headers, blocks);
      if headers[b].size >= n + HEADER_SIZE + MIN_SPLIT {
        Split(b, n, k);
      }
      CarveSteps(r, k, n, Row(headers, blocks));
      MarkIsList(headers, blocks, heapEnd, k, false);
      MarkLive(headers, b);
      headers := WithFree(headers, b, false);
    }

    /** Walks the list to the first free block of at least `n` bytes. */
    method Search(n: nat) returns (blk: nat, ghost k: nat)
      requires Valid()
      ensures k == FirstFit(Row(headers, blocks), n)
      ensures blk == if k < |blocks| then blocks[k] else 0
      ensures k < |blocks| ==> blk != 0 && blk in headers && headers[blk].free && headers[blk].size >= n
    {
      AllInHeap(headers, blocks, heapEnd);
      hide FirstFit;
      blk, k := head, 0;
      while blk != 0
        invariant k <= |blocks| && blk == (if k < |blocks| then blocks[k] else 0)
        invariant forall i :: 0 <= i < k ==> !(Row(headers, blocks)[i].free && Row(headers, blocks)[i].size >= n)
        decreases |blocks| - k
      {
        assert Linked(headers, blocks, k, heapEnd);
        if headers[blk].free && headers[blk].size >= n {
          break;
        }
        blk, k := headers[blk].next, k + 1;
      }
      FirstFitIs(Row(headers, blocks), n, k);
    }

    method Kmalloc(n: nat) returns (p: nat)
      requires Valid()
      modifies this
      ensures Valid()
      ensures Contents() == Apply(old(Contents()), Malloc(n, old(CanGrow(heapEnd, frames, Aligned(n)))))
      ensures p != 0 <==> CanAllocate(old(Contents()).blocks, n, old(CanGrow(heapEnd, frames, Aligned(n))))
      ensures p != 0 ==> Allocated(old(Live(headers)), Live(headers), p, n, n + MAX_WASTE)
      ensures p == 0 ==> headers == old(headers) && data == old(data)
      ensures frames == FramesLeft(old(Contents()).blocks, old(heapEnd), old(frames), n)
      ensures SameLive(old(Live(headers)), old(data), data)
    {
      hide Row, Live, LiveByte, Linked, Carve, IsList, FirstFit, Aligned;
      if n == 0 {
        return 0;
      }
      var size := Aligned(n);
      var blk, k := Search(size);
      if blk == 0 {
        blk := Expand(size);
        if blk == 0 {
          return 0;
        }
        ExpansionFits(old(Row(headers, blocks)), size);
        RowAtLast(headers, blocks, heapEnd, k);
      }
      label taking:
      assert Row(headers, blocks) == Source(old(Row(headers, blocks)), n, old(CanGrow(heapEnd, frames, size)));
      Take(blk, size, k);
      allocs := allocs + 1;
      p := blk + HEADER_SIZE;
      AlignedCovers(n);
      assert blk !in old@taking(Live(headers)) by { NotLive(old@taking(headers), blk); }
    }

    /** Merges the free block at `blk` with its successor if that is free too. */
    method Coalesce(blk: nat, ghost k: nat)
      requires Valid() && k < |blocks| && blocks[k] == blk && blk in headers
      modifies `headers, `blocks
      ensures Valid() && Row(headers, blocks) == Merge(old(Row(headers, blocks)), k)
      ensures Live(headers) == old(Live(headers))
      ensures k < |blocks| && blocks[..k + 1] == old(blocks)[..k + 1]
    {
      hide Row, Live, LiveByte, IsList;
      RowAt(headers, blocks, k);
      ForwardLink(headers, blocks, heapEnd, k);
      if !headers[blk].free {
        return;
      }
      var next := headers[blk].next;
      if next != 0 {
        RowAt(headers, blocks, k + 1);
        if headers[next].free && headers[next].magic == HEAP_MAGIC {
          ghost var hs := Absorbed(headers, blk);
          AbsorbIsList(headers, blocks, heapEnd, k, hs);
          AbsorbedFacts(headers, blk, hs);
          AbsorbLive(headers, blk, next, hs);
          hide AbsorbFacts, Merge;
          var after := headers[next].next;
          headers := headers[blk :=
                        headers[blk].(size := headers[blk].size + HEADER_SIZE + headers[next].size, next := after)];
          headers := WithPrev(headers, after, blk);
          assert headers == hs;
          blocks := Removed(blocks, k + 1);
        }
      }
    }

    /** A pointer whose meaning the heap can tell: null, or behind a header that nothing has been written
        over. In front of any other pointer stand a client's bytes. */
    predicate Known(p: nat)
      reads this
    {
      p == 0 || (p >= HEADER_SIZE && p - HEADER_SIZE in headers)
    }

    method Kfree(p: nat)
      requires Valid()
      modifies `headers, `blocks, `frees
      ensures old(Known(p)) ==> Valid()
      ensures old(Known(p)) && (p == 0 || p - HEADER_SIZE !in old(Live(headers))) ==>
                headers == old(headers) && Contents() == old(Contents())
      ensures p >= HEADER_SIZE && p - HEADER_SIZE in old(Live(headers)) ==>
                Live(headers) == old(Live(headers)) - {p - HEADER_SIZE} &&
                p - HEADER_SIZE in old(blocks) &&
                Contents() == Apply(old(Contents()), Free(IndexOf(old(blocks), p - HEADER_SIZE)))
    {
      hide Row, Live, LiveByte, Linked, Merge, Carve;
      if p < HEADER_SIZE {
        return;
      }
      var blk := p - HEADER_SIZE;
      InUse(headers, blocks, heapEnd, blk);
      if blk !in headers || headers[blk].magic != HEAP_MAGIC || headers[blk].free {
        return;
      }
      ghost var k := IndexOf(blocks, blk);
      RowAt(headers, blocks, k);
      MarkIsList(headers, blocks, heapEnd, k, true);
      MarkLive(headers, blk);
      headers := WithFree(headers, blk, true);
      frees := frees + 1;
      Coalesce(blk, k);
      assert blocks[k] == blk by { assert blocks[..k + 1][k] == blk; }
      BackLink(headers, blocks, heapEnd, k);
      if headers[blk].prev != 0 {
        Coalesce(headers[blk].prev, k - 1);
      }
    }

    method CopyBytes(dst: nat, src: nat, n: nat)
      requires dst + n <= src || src + n <= dst
      modifies `headers, `data
      ensures Copied(old(data), data, dst, src, n) && headers == Spared(old(headers), dst, n)
    {
      var i := 0;
      while i < n
        invariant i <= n && Copied(old(data), data, dst, src, i) && headers == old(headers)
      {
        ghost var d := data;
        assert At(data, src + i) == At(old(data), src + i);
        if src + i in data {
          data := data[dst + i := data[src + i]];
        } else {
          data := data - {dst + i};
        }
        CopyStep(old(data), d, data, dst, src, i);
        i := i + 1;
      }
      headers := Spared(headers, dst, n);
    }

    /** Carves `size` bytes of the free block at `b`, copies the allocation at `p` there and frees it. */
    method Move(p: nat, b: nat, size: nat, ghost k: nat, ghost f: nat) returns (q: nat)
      requires Valid() && p >= HEADER_SIZE && p - HEADER_SIZE in Live(headers) && b in headers && headers[b].free
      requires k < |blocks| && f < |blocks| && blocks[k] == p - HEADER_SIZE && blocks[f] == b
      requires Live(headers)[p - HEADER_SIZE] < size <= headers[b].size && Row(headers, blocks)[f].size >= size
      modifies `headers, `data, `blocks
      ensures Valid() && q != 0 && q != p
      ensures Resized(old(headers), headers, old(data), data, p, size, size + HEADER_SIZE + MIN_SPLIT, q)
      ensures Row(headers, blocks) == Moved(old(Row(headers, blocks)), k, f, size)
    {
      hide Row, Live, LiveByte, Linked, Carve, IsList;
      var blk := p - HEADER_SIZE;
      NotLive(headers, b);
      InUse(headers, blocks, heapEnd, blk);
      Take(b, size, f);
      ghost var live := Live(headers);
      q := b + HEADER_SIZE;
      InUse(headers, blocks, heapEnd, b);
      InUse(headers, blocks, heapEnd, blk);
      LiveDisjoint(headers, blocks, heapEnd, b, blk);
      assert Live(headers) - {b} == old(Live(headers));
      label copying:
      var n := headers[blk].size;
      SparedIsList(headers, blocks, heapEnd, b, q, n);
      CopyBytes(q, p, n);
      CopyKeeps(old@copying(headers), blocks, heapEnd, b, old(data), old@copying(data), data, p, n);
      InUse(headers, blocks, heapEnd, blk);
      ghost var k' := MovedIndex(old(headers), old(blocks), k, f, size, |blocks|);
      MarkIsList(headers, blocks, heapEnd, k', true);
      MarkLive(headers, blk);
      headers := WithFree(headers, blk, true);
      assert Live(headers)[blk := old(Live(headers))[blk]] == live;
      MovedBytes(old(Live(headers)), blk, old(data), old@copying(data), data, p, q);
    }

    /** Moves an allocation to a block of at least `n` bytes. A pointer behind a header must be one that
        was handed out and not freed. */
    method Krealloc(p: nat, n: nat) returns (q: nat)
      requires Valid()
      requires p >= HEADER_SIZE && p - HEADER_SIZE in headers ==> p - HEADER_SIZE in Live(headers)
      modifies `headers, `data, `blocks
      ensures old(Known(p)) ==> Valid()
      ensures p == 0 || n == 0 ==>
        q == 0 && Valid() && headers == old(headers) && data == old(data) && Contents() == old(Contents())
      ensures p >= HEADER_SIZE && p - HEADER_SIZE in old(Live(headers)) ==>
                p - HEADER_SIZE in old(blocks) &&
                Contents() == Apply(old(Contents()), Realloc(IndexOf(old(blocks), p - HEADER_SIZE), n)) &&
                Resized(old(headers), headers, old(data), data, p, n, n + MAX_WASTE, q)
      ensures p >= HEADER_SIZE && p - HEADER_SIZE in old(Live(headers)) ==>
                (q == 0 <==> n == 0 || (old(Live(headers))[p - HEADER_SIZE] < n &&
                                        FirstFit(old(Contents()).blocks, Aligned(n)) == |old(blocks)|))
      ensures p >= HEADER_SIZE && p - HEADER_SIZE in old(Live(headers)) ==>
                (q == p <==> 0 < n <= old(Live(headers))[p - HEADER_SIZE])
    {
      hide Row, Live, LiveByte, Linked, Carve, FirstFit, Aligned;
      if p < HEADER_SIZE {
        return 0;
      }
      var blk := p - HEADER_SIZE;
      InUse(headers, blocks, heapEnd, blk);
      if n == 0 {
        return 0;
      }
      if blk !in headers || headers[blk].magic != HEAP_MAGIC {
        return 0;
      }
      ghost var k := IndexOf(blocks, blk);
      RowAt(headers, blocks, k);
      if headers[blk].size >= n {
        return p;
      }
      var size := Aligned(n);
      var b, f := Search(size);
      if b == 0 {
        return 0;
      }
      AlignedCovers(n);
      q := Move(p, b, size, k, f);
    }
  }

  lemma {:induction false} OnePage()
    ensures FirstFit(Initial(true).blocks, Aligned(5000)) == 1 == |Initial(true).blocks| && Pages(Aligned(5000)) == 2
  {
  }

  /** With two frames, the first in the heap, a request of two pages fails and takes the other frame. */
  method FramesLost() returns (heap: Allocator, p: nat)
    ensures heap.Valid() && heap.Contents() == Initial(true)
    ensures p == 0 && heap.frames == 0
  {
    hide FirstFit, Row, IsList;
    heap := new Allocator(2);
    heap.Init();
    OnePage();
    p := heap.Kmalloc(5000);
    assert heap.frames == 0;
  }
}
