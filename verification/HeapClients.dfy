/** Clients of the kernel heap: what they stored in their allocations is what they find there, whatever the
    others do. */
module HeapClients {
  import opened HeapBlocks
  import opened HeapLists
  import opened Heap
  import opened Options

  /** A client's view of an allocation: the pointer, 0 if it has none, the size asked for, and the bytes it has
      stored, by offset. */
  datatype Handle = Handle(p: nat, n: nat, bytes: map<nat, bv8>)

  const NONE := Handle(0, 0, map[])

  /** The handle is true: its allocation is live, large enough, and holds what was stored. */
  ghost predicate Holds(live: map<nat, nat>, d: Data, h: Handle) {
    h.p == 0 ||
    (h.p >= HEADER_SIZE && h.p - HEADER_SIZE in live && h.n <= live[h.p - HEADER_SIZE] &&
     forall o :: o in h.bytes ==> o < h.n && At(d, h.p + o) == Some(h.bytes[o]))
  }

  /** Some handle names the allocation whose header is at `a`. */
  ghost predicate Named(hs: seq<Handle>, a: nat) {
    exists i :: 0 <= i < |hs| && hs[i].p == a + HEADER_SIZE
  }

  ghost predicate Different(hs: seq<Handle>) {
    forall i, j :: 0 <= i < j < |hs| && hs[i].p != 0 ==> hs[i].p != hs[j].p
  }

  /** No two handles name the same allocation, and every allocation has one. */
  ghost predicate OneEach(live: map<nat, nat>, hs: seq<Handle>) {
    Different(hs) && forall a :: a in live ==> Named(hs, a)
  }

  ghost predicate AllHold(live: map<nat, nat>, d: Data, hs: seq<Handle>) {
    (forall i :: 0 <= i < |hs| ==> Holds(live, d, hs[i])) && OneEach(live, hs)
  }

  /** Allocations share no byte. */
  ghost predicate LiveApart(live: map<nat, nat>) {
    forall a, b, x :: LiveByte(live, a, x) && LiveByte(live, b, x) ==> a == b
  }

  /** A handle on an allocation whose size and bytes are as they were. */
  lemma {:induction false} HoldsStill(live: map<nat, nat>, d: Data, live': map<nat, nat>, d': Data, h: Handle)
    requires Holds(live, d, h) && h.p != 0 && h.p >= HEADER_SIZE
    requires h.p - HEADER_SIZE in live' && live'[h.p - HEADER_SIZE] == live[h.p - HEADER_SIZE]
    requires forall x :: LiveByte(live, h.p - HEADER_SIZE, x) ==> At(d', x) == At(d, x)
    ensures Holds(live', d', h)
  {
    forall o | o in h.bytes ensures At(d', h.p + o) == Some(h.bytes[o]) {
      assert LiveByte(live, h.p - HEADER_SIZE, h.p + o);
    }
  }

  /** The names of the allocations when one handle is replaced or added. */
  lemma {:induction false} NamedStill(hs: seq<Handle>, hs': seq<Handle>, a: nat, i: nat)
    requires Named(hs, a) && |hs| <= |hs'| && (forall j :: 0 <= j < |hs| && j != i ==> hs'[j].p == hs[j].p)
    requires i < |hs| ==> hs[i].p != a + HEADER_SIZE
    ensures Named(hs', a)
  {
    var j :| 0 <= j < |hs| && hs[j].p == a + HEADER_SIZE;
    assert hs'[j].p == hs[j].p;
  }

  lemma {:induction false} OneMore(hs: seq<Handle>, h: Handle)
    requires Different(hs) && forall i :: 0 <= i < |hs| && hs[i].p != 0 ==> hs[i].p != h.p
    ensures Different(hs + [h]) && (h.p >= HEADER_SIZE ==> Named(hs + [h], h.p - HEADER_SIZE))
  {
    assert (hs + [h])[|hs|] == h;
  }

  lemma {:induction false} AfterMalloc(live: map<nat, nat>, d: Data, live': map<nat, nat>, d': Data, hs: seq<Handle>,
                                       p: nat, n: nat, most: nat)
    requires AllHold(live, d, hs) && Allocated(live, live', p, n, most) && SameLive(live, d, d') && p != 0
    ensures AllHold(live', d', hs + [Handle(p, n, map[])])
  {
    hide LiveByte, Named, Different;
    var h := Handle(p, n, map[]);
    var hs' := hs + [h];
    forall i | 0 <= i < |hs| ensures Holds(live', d', hs'[i]) && (hs'[i].p != 0 ==> hs'[i].p != p) {
      assert Holds(live, d, hs[i]);
      if hs[i].p != 0 {
        HoldsStill(live, d, live', d', hs[i]);
      }
    }
    assert Holds(live', d', h);
    hide Holds;
    OneMore(hs, h);
    forall a | a in live' ensures Named(hs', a) {
      if a in live {
        NamedStill(hs, hs', a, |hs|);
      }
    }
  }

  lemma {:induction false} NoneHolds(live: map<nat, nat>, d: Data)
    ensures Holds(live, d, NONE) && NONE.p == 0
  {
  }

  lemma {:induction false} AfterNothing(live: map<nat, nat>, d: Data, hs: seq<Handle>)
    requires AllHold(live, d, hs)
    ensures AllHold(live, d, hs + [NONE])
  {
    hide Holds, Named, Different;
    NoneHolds(live, d);
    OneMore(hs, NONE);
    forall a | a in live ensures Named(hs + [NONE], a) {
      NamedStill(hs, hs + [NONE], a, |hs|);
    }
  }

  lemma {:induction false} AfterFree(live: map<nat, nat>, d: Data, hs: seq<Handle>, i: nat)
    requires AllHold(live, d, hs) && i < |hs| && hs[i].p != 0
    ensures hs[i].p >= HEADER_SIZE && hs[i].p - HEADER_SIZE in live
    ensures AllHold(live - {hs[i].p - HEADER_SIZE}, d, hs[i := NONE])
  {
    hide Named;
    assert Holds(live, d, hs[i]);
    var live', hs' := live - {hs[i].p - HEADER_SIZE}, hs[i := NONE];
    forall j | 0 <= j < |hs| ensures Holds(live', d, hs'[j]) {
      assert Holds(live, d, hs[j]);
      assert j != i && hs[j].p != 0 ==> hs[j].p != hs[i].p;
    }
    hide Holds;
    forall a | a in live' ensures Named(hs', a) {
      NamedStill(hs, hs', a, i);
    }
  }

  lemma {:induction false} SamePointers(live: map<nat, nat>, hs: seq<Handle>, i: nat, h: Handle)
    requires OneEach(live, hs) && i < |hs| && h.p == hs[i].p
    ensures OneEach(live, hs[i := h])
  {
    hide Named;
    forall a | a in live ensures Named(hs[i := h], a) {
      NamedStill(hs, hs[i := h], a, |hs|);
    }
  }

  lemma {:induction false} PutHolds(live: map<nat, nat>, d: Data, h: Handle, o: nat, v: bv8)
    requires Holds(live, d, h) && h.p != 0 && o < h.n
    ensures h.p >= HEADER_SIZE && LiveByte(live, h.p - HEADER_SIZE, h.p + o)
    ensures Holds(live, d[h.p + o := v], h.(bytes := h.bytes[o := v]))
  {
  }

  lemma {:induction false} PutOther(live: map<nat, nat>, d: Data, h: Handle, a: nat, x: nat, v: bv8)
    requires Holds(live, d, h) && LiveApart(live) && LiveByte(live, a, x) && h.p != a + HEADER_SIZE
    ensures Holds(live, d[x := v], h)
  {
    if h.p != 0 {
      HoldsStill(live, d, live, d[x := v], h);
    }
  }

  lemma {:induction false} AfterPut(live: map<nat, nat>, d: Data, hs: seq<Handle>, i: nat, o: nat, v: bv8)
    requires AllHold(live, d, hs) && LiveApart(live) && i < |hs| && hs[i].p != 0 && o < hs[i].n
    ensures hs[i].p >= HEADER_SIZE && LiveByte(live, hs[i].p - HEADER_SIZE, hs[i].p + o)
    ensures AllHold(live, d[hs[i].p + o := v], hs[i := hs[i].(bytes := hs[i].bytes[o := v])])
  {
    hide Holds, Named, LiveApart, LiveByte;
    PutHolds(live, d, hs[i], o, v);
    forall j | 0 <= j < |hs| && j != i ensures Holds(live, d[hs[i].p + o := v], hs[j]) {
      assert hs[j].p != hs[i].p;
      PutOther(live, d, hs[j], hs[i].p - HEADER_SIZE, hs[i].p + o, v);
    }
    SamePointers(live, hs, i, hs[i].(bytes := hs[i].bytes[o := v]));
  }

  /** The bytes below `n`. */
  function Cut(bytes: map<nat, bv8>, n: nat): map<nat, bv8> { map o | o in bytes && o < n :: bytes[o] }

  lemma {:induction false} StayHolds(live: map<nat, nat>, d: Data, h: Handle, n: nat)
    requires Holds(live, d, h) && h.p >= HEADER_SIZE && h.p - HEADER_SIZE in live && n <= live[h.p - HEADER_SIZE]
    ensures Holds(live, d, Handle(h.p, n, Cut(h.bytes, n)))
  {
  }

  lemma {:induction false} AfterStay(live: map<nat, nat>, d: Data, hs: seq<Handle>, i: nat, n: nat)
    requires AllHold(live, d, hs) && i < |hs| && hs[i].p >= HEADER_SIZE && hs[i].p - HEADER_SIZE in live
    requires n <= live[hs[i].p - HEADER_SIZE]
    ensures AllHold(live, d, hs[i := Handle(hs[i].p, n, Cut(hs[i].bytes, n))])
  {
    hide Holds, OneEach, Cut;
    StayHolds(live, d, hs[i], n);
    SamePointers(live, hs, i, Handle(hs[i].p, n, Cut(hs[i].bytes, n)));
  }

  /** A move: the old allocation `a` is gone, a new one holds its bytes. */
  ghost predicate MovedTo(live: map<nat, nat>, d: Data, live': map<nat, nat>, d': Data, a: nat, q: nat, n: nat,
                          most: nat)
  {
    && a in live && Allocated(live, live'[a := live[a]], q, n, most) && a !in live'
    && (forall x: nat :: q <= x < q + live[a] ==> At(d', x) == At(d, a + HEADER_SIZE + (x - q)))
    && SameLive(live - {a}, d, d')
  }

  lemma {:induction false} MovedHolds(live: map<nat, nat>, d: Data, live': map<nat, nat>, d': Data, h: Handle, q: nat,
                                      n: nat, most: nat)
    requires Holds(live, d, h) && h.p >= HEADER_SIZE && MovedTo(live, d, live', d', h.p - HEADER_SIZE, q, n, most)
    requires live[h.p - HEADER_SIZE] < n
    ensures q != 0 ==> Holds(live', d', Handle(q, n, Cut(h.bytes, n)))
  {
    hide SameLive;
    forall o | o in h.bytes ensures At(d', q + o) == Some(h.bytes[o]) {
      assert q <= q + o < q + live[h.p - HEADER_SIZE];
    }
  }

  lemma {:induction false} MovedOther(live: map<nat, nat>, d: Data, live': map<nat, nat>, d': Data, h: Handle, a: nat,
                                      q: nat, n: nat, most: nat)
    requires Holds(live, d, h) && h.p != a + HEADER_SIZE && MovedTo(live, d, live', d', a, q, n, most)
    ensures Holds(live', d', h) && (h.p != 0 ==> h.p != q)
  {
    if h.p != 0 {
      var b := h.p - HEADER_SIZE;
      assert b in live'[a := live[a]] && b in live';
      forall x | LiveByte(live, b, x) ensures At(d', x) == At(d, x) {
        assert LiveByte(live - {a}, b, x);
      }
      HoldsStill(live, d, live', d', h);
    }
  }

  lemma {:induction false} OneReplaced(hs: seq<Handle>, i: nat, h: Handle)
    requires Different(hs) && i < |hs| && forall j :: 0 <= j < |hs| && j != i && hs[j].p != 0 ==> hs[j].p != h.p
    ensures Different(hs[i := h]) && (h.p >= HEADER_SIZE ==> Named(hs[i := h], h.p - HEADER_SIZE))
  {
    assert hs[i := h][i] == h;
  }

  lemma {:induction false} AfterMove(live: map<nat, nat>, d: Data, live': map<nat, nat>, d': Data, hs: seq<Handle>,
                                     i: nat, q: nat, n: nat, most: nat)
    requires AllHold(live, d, hs) && i < |hs| && hs[i].p >= HEADER_SIZE && q != 0
    requires MovedTo(live, d, live', d', hs[i].p - HEADER_SIZE, q, n, most) && live[hs[i].p - HEADER_SIZE] < n
    ensures AllHold(live', d', hs[i := Handle(q, n, Cut(hs[i].bytes, n))])
  {
    hide Holds, SameLive, Cut;
    var a, h := hs[i].p - HEADER_SIZE, Handle(q, n, Cut(hs[i].bytes, n));
    var hs' := hs[i := h];
    MovedHolds(live, d, live', d', hs[i], q, n, most);
    forall j | 0 <= j < |hs| && j != i ensures Holds(live', d', hs'[j]) && (hs[j].p != 0 ==> hs[j].p != q) {
      assert Holds(live, d, hs[j]) && hs[j].p != hs[i].p;
      MovedOther(live, d, live', d', hs[j], a, q, n, most);
    }
    OneReplaced(hs, i, h);
    hide Different, Named;
    forall b | b in live' ensures Named(hs', b) {
      if b != q - HEADER_SIZE {
        assert b in live'[a := live[a]] && b in live;
        NamedStill(hs, hs', b, i);
      }
    }
  }

  // ---- sessions ----

  /** What clients do: allocate, free, resize, and store a byte. They name an allocation by the number of the
      request that made it. */
  datatype ClientOp = Alloc(n: nat) | Release(i: nat) | Resize(i: nat, n: nat) | Put(i: nat, o: nat, v: bv8)

  /** What becomes of the handles. */
  ghost predicate Step(hs: seq<Handle>, op: ClientOp, hs': seq<Handle>) {
    match op
    case Alloc(n) =>
      |hs'| == |hs| + 1 && hs'[..|hs|] == hs &&
      (hs'[|hs|] == NONE || (hs'[|hs|] == Handle(hs'[|hs|].p, n, map[]) && hs'[|hs|].p != 0))
    case Release(i) => hs' == if i < |hs| then hs[i := NONE] else hs
    case Put(i, o, v) =>
      hs' == if i < |hs| && hs[i].p != 0 && o < hs[i].n then hs[i := hs[i].(bytes := hs[i].bytes[o := v])] else hs
    case Resize(i, n) =>
      hs' == hs ||
      (i < |hs| && hs[i].p != 0 && |hs'| == |hs| && hs'[i].p != 0 &&
       hs' == hs[i := Handle(hs'[i].p, n, Cut(hs[i].bytes, n))])
  }

  lemma {:induction false} Apartness(hs: Headers, bs: seq<nat>, end: nat)
    requires IsList(hs, bs, end)
    ensures LiveApart(Live(hs))
  {
    hide IsList, Live;
    forall a, b, x | LiveByte(Live(hs), a, x) && LiveByte(Live(hs), b, x) ensures a == b {
      LiveDisjoint(hs, bs, end, a, b);
    }
  }

  lemma {:induction false} LiveIsKnown(heap: Allocator, p: nat)
    requires heap.Valid() && p >= HEADER_SIZE && p - HEADER_SIZE in Live(heap.headers)
    ensures heap.Known(p) && p - HEADER_SIZE in heap.headers
  {
  }

  /** The heap can give this allocation the new size: it is large enough, or some free block is. */
  ghost predicate Resizable(heap: Allocator, p: nat, n: nat)
    requires heap.Valid()
    reads heap
  {
    n > 0 && p >= HEADER_SIZE && p - HEADER_SIZE in Live(heap.headers) &&
    (n <= Live(heap.headers)[p - HEADER_SIZE] || FirstFit(heap.Contents().blocks, Aligned(n)) != |heap.blocks|)
  }

  method ActResize(heap: Allocator, hs: seq<Handle>, i: nat, n: nat) returns (hs': seq<Handle>)
    requires heap.Valid() && AllHold(Live(heap.headers), heap.data, hs) && i < |hs| && hs[i].p != 0
    modifies heap
    ensures heap.Valid() && AllHold(Live(heap.headers), heap.data, hs') && Step(hs, Resize(i, n), hs')
    ensures if old(Resizable(heap, hs[i].p, n)) then hs'[i].n == n && hs'[i].p != 0 else hs' == hs
  {
    hide IsList, Live, LiveByte, AllHold, Cut, Row, Holds, SameLive;
    ghost var live, d := Live(heap.headers), heap.data;
    hs' := hs;
    AfterFree(live, d, hs, i);
    LiveIsKnown(heap, hs[i].p);
    var q := heap.Krealloc(hs[i].p, n);
    if q != 0 {
      hs' := hs[i := Handle(q, n, Cut(hs[i].bytes, n))];
      if q == hs[i].p {
        AfterStay(live, d, hs, i, n);
      } else {
        AfterMove(live, d, Live(heap.headers), heap.data, hs, i, q, n, n + MAX_WASTE);
      }
    }
  }

  lemma {:induction false} AfterRelease(live: map<nat, nat>, d: Data, hs: seq<Handle>, i: nat)
    requires AllHold(live, d, hs) && i < |hs| && hs[i].p == 0
    ensures AllHold(live, d, hs[i := NONE])
  {
    hide Holds, OneEach;
    NoneHolds(live, d);
    SamePointers(live, hs, i, NONE);
  }

  method Act(heap: Allocator, hs: seq<Handle>, op: ClientOp) returns (hs': seq<Handle>)
    requires heap.Valid() && AllHold(Live(heap.headers), heap.data, hs)
    modifies heap
    ensures heap.Valid() && AllHold(Live(heap.headers), heap.data, hs') && Step(hs, op, hs')
    ensures op.Alloc? ==> (hs'[|hs|].p != 0 <==>
      CanAllocate(old(heap.Contents()).blocks, op.n, old(CanGrow(heap.heapEnd, heap.frames, Aligned(op.n)))))
    ensures op.Resize? && op.i < |hs| && hs[op.i].p != 0 ==>
      if old(Resizable(heap, hs[op.i].p, op.n)) then hs'[op.i].n == op.n && hs'[op.i].p != 0 else hs' == hs
  {
    hide IsList, Live, LiveByte, AllHold, Cut, Row, LiveApart;
    ghost var live, d := Live(heap.headers), heap.data;
    hs' := hs;
    match op {
      case Alloc(n) =>
        var p := heap.Kmalloc(n);
        if p == 0 {
          AfterNothing(live, d, hs);
          hs' := hs + [NONE];
        } else {
          AfterMalloc(live, d, Live(heap.headers), heap.data, hs, p, n, n + MAX_WASTE);
          hs' := hs + [Handle(p, n, map[])];
        }
      case Release(i) =>
        if i < |hs| {
          hs' := hs[i := NONE];
          if hs[i].p != 0 {
            AfterFree(live, d, hs, i);
            LiveIsKnown(heap, hs[i].p);
            heap.Kfree(hs[i].p);
          } else {
            AfterRelease(live, d, hs, i);
          }
        }
      case Put(i, o, v) =>
        if i < |hs| && hs[i].p != 0 && o < hs[i].n {
          Apartness(heap.headers, heap.blocks, heap.heapEnd);
          AfterPut(live, d, hs, i, o, v);
          heap.Store(hs[i].p + o, v, hs[i].p - HEADER_SIZE);
          hs' := hs[i := hs[i].(bytes := hs[i].bytes[o := v])];
        }
      case Resize(i, n) =>
        if i < |hs| && hs[i].p != 0 {
          hs' := ActResize(heap, hs, i, n);
        }
    }
  }

  ghost predicate IsTrace(trace: seq<seq<Handle>>, ops: seq<ClientOp>) {
    |trace| == |ops| + 1 && trace[0] == [] && forall i :: 0 <= i < |ops| ==> Step(trace[i], ops[i], trace[i + 1])
  }

  lemma {:induction false} TraceStep(trace: seq<seq<Handle>>, ops: seq<ClientOp>, i: nat, hs: seq<Handle>)
    requires i < |ops| && IsTrace(trace, ops[..i]) && Step(trace[i], ops[i], hs)
    ensures IsTrace(trace + [hs], ops[..i + 1])
  {
    hide Step;
  }

  lemma {:induction false} NobodyYet(d: Data)
    ensures AllHold(map[], d, []) && IsTrace([[]], [])
  {
  }

  /** Every sequence of requests and stores on a new heap: each client's handle says what its allocation holds,
      no two share one, and every allocation belongs to a client. */
  method Session(frames: nat, ops: seq<ClientOp>)
    returns (heap: Allocator, hs: seq<Handle>, ghost trace: seq<seq<Handle>>)
    requires frames <= MAX_FRAMES
    ensures heap.Valid() && AllHold(Live(heap.headers), heap.data, hs)
    ensures IsTrace(trace, ops) && trace[|ops|] == hs
  {
    hide IsList, Live, AllHold, Step, IsTrace, Row;
    heap := new Allocator(frames);
    heap.Init();
    hs, trace := [], [[]];
    NobodyYet(heap.data);
    assert ops[..0] == [];
    var i := 0;
    while i < |ops|
      invariant 0 <= i <= |ops| && fresh(heap) && heap.Valid() && AllHold(Live(heap.headers), heap.data, hs)
      invariant |trace| == i + 1 && IsTrace(trace, ops[..i]) && trace[i] == hs
    {
      var next := Act(heap, hs, ops[i]);
      TraceStep(trace, ops, i, next);
      hs, trace, i := next, trace + [next], i + 1;
    }
    assert ops[..i] == ops;
  }
}
