/** How long a ready task waits for its turn. */
module RoundRobin {
  import opened RunQueue

  ghost predicate Waiting(s: Sched, x: Ref) { x in s.ring && x in s.info && s.info[x].state == Ready }

  /** How many places behind the current task `x` stands. */
  function Distance(s: Sched, x: Ref): (d: nat)
    ensures d <= |s.ring|
  {
    if x in s.ring then IndexOf(s.ring, x) else 0
  }

  /** Waking a blocked task while idle runs switches to it at once, out of turn. */
  predicate Jump(s: Sched, op: Op) {
    op.Wake? && s.current == IDLE && op.t in s.info && s.info[op.t].state == Blocked
  }

  function Switches(s: Sched, op: Op): nat { if Apply(s, op).current == s.current then 0 else 1 }

  /** By how much a step can put the waiting task `x` back: by one for a new task, and for a jump to a task
      behind `x` by what lies between that task and the end of the ring, and by the dispatch it spends. */
  function Delay(s: Sched, op: Op, x: Ref): nat {
    if op.Spawn? then 1
    else if Jump(s, op) && Distance(s, op.t) > Distance(s, x) then |s.ring| - Distance(s, op.t) + 1
    else 0
  }

  /** From `s` to `s'` the waiting task `x` got its turn, or came nearer if there was a dispatch;
      it may have been put back by `delay`. */
  ghost predicate Nearer(s: Sched, s': Sched, x: Ref, delay: nat) {
    s'.current == x ||
    (Waiting(s', x) && Distance(s', x) + (if s'.current == s.current then 0 else 1) <= Distance(s, x) + delay)
  }

  // ---- positions ----

  lemma {:induction false} IndexIs(ring: seq<Ref>, k: nat)
    requires Distinct(ring) && k < |ring|
    ensures IndexOf(ring, ring[k]) == k
  {
  }

  lemma {:induction false} RotatedIndex(ring: seq<Ref>, i: nat, d: nat)
    requires Distinct(ring) && i <= d < |ring|
    ensures ring[d] in Rotate(ring, i) && IndexOf(Rotate(ring, i), ring[d]) == d - i
  {
  }

  /** Switching to the task at `i` brings those behind it nearer by `i`. */
  lemma {:induction false} SwitchNearer(s: Sched, i: nat, d: nat)
    requires Distinct(s.ring) && 0 < i < d < |s.ring| && s.ring[i] != s.current && Waiting(s, s.ring[d])
    requires s.ring[d] != s.current
    ensures var s' := SwitchTo(s, s.ring[i]);
            s'.current == s.ring[i] && Waiting(s', s.ring[d]) && Distance(s', s.ring[d]) == d - i
  {
    IndexIs(s.ring, i);
    RotatedIndex(s.ring, i, d);
    hide Rotate, IndexOf;
  }

  /** The scan finds a task no farther than any ready one it passes. */
  lemma {:induction false} PickAt(q: seq<Ref>, info: Infos, d: nat)
    requires d < |q| && Runnable(info, q[d])
    ensures FirstRunnable(q, info) <= d
  {
  }

  lemma {:induction false} DispatchNearer(s: Sched, x: Ref)
    requires Distinct(s.ring) && s.ring != [] && s.ring[0] == s.current && Waiting(s, x) && x != s.current
    ensures Nearer(s, Dispatch(s), x, 0) && Dispatch(s).current != s.current
  {
    var d := IndexOf(s.ring, x);
    var q := s.ring[1..];
    assert q[d - 1] == x;
    PickAt(q, s.info, d - 1);
    var k := FirstRunnable(q, s.info);
    assert Pick(s.ring, s.info) == s.ring[k + 1];
    hide Pick, FirstRunnable;
    if k + 1 < d {
      SwitchNearer(s, k + 1, d);
    }
  }

  // ---- exit ----

  lemma {:induction false} RotateAt(ring: seq<Ref>, i: nat, k: nat)
    requires i < |ring| && k < |ring|
    ensures |Rotate(ring, i)| == |ring|
    ensures Rotate(ring, i)[k] == ring[if i + k < |ring| then i + k else i + k - |ring|]
  {
  }

  lemma {:induction false} SteppedBack(ring: seq<Ref>, i: nat, r: seq<Ref>, j: nat)
    requires 0 < i < |ring| && r == [ring[|ring| - 1]] + ring[1..|ring| - 1] && j == if i == |ring| - 1 then 0 else i
    ensures Rotate(r, j) == Rotate(ring[1..], i - 1)
  {
    var n, q := |ring|, ring[1..];
    hide Rotate;
    RotateAt(r, j, 0);
    RotateAt(q, i - 1, 0);
    forall k | 0 <= k < n - 1 ensures Rotate(r, j)[k] == Rotate(q, i - 1)[k] {
      RotateAt(r, j, k);
      RotateAt(q, i - 1, k);
      var x, y := if j + k < n - 1 then j + k else j + k - (n - 1), if i - 1 + k < n - 1 then i - 1 + k else i + k - n;
      assert r[x] == if x == 0 then ring[n - 1] else ring[x];
      assert q[y] == ring[y + 1];
    }
  }

  /** Leaving the ring and turning it to the task at `i` is turning what is behind the current task. */
  lemma {:induction false} ExitRing(ring: seq<Ref>, i: nat)
    requires Distinct(ring) && 0 < i < |ring|
    ensures ring[i] in Unlinked(ring, ring[0])
    ensures Rotate(Unlinked(ring, ring[0]), IndexOf(Unlinked(ring, ring[0]), ring[i])) == Rotate(ring[1..], i - 1)
  {
    var n := |ring|;
    UnlinkedHead(ring);
    var r := Unlinked(ring, ring[0]);
    var j := if i == n - 1 then 0 else i;
    assert r[j] == ring[i];
    IndexIs(r, j);
    SteppedBack(ring, i, r, j);
  }

  lemma {:induction false} ExitPick(ring: seq<Ref>, info: Infos, d: nat)
    requires Distinct(ring) && 0 < d < |ring| && Runnable(info, ring[d]) && IDLE in ring && ring[0] != IDLE
    requires Runnable(info, IDLE)
    ensures exists i :: 0 < i <= d && ring[i] == Pick(Unlinked(ring, ring[0]), info)
  {
  }

  lemma {:induction false} DispatchedOther(info: Infos, prev: Ref, next: Ref, x: Ref)
    requires x in info && x != prev && x != next
    ensures x in Dispatched(info, prev, next) && Dispatched(info, prev, next)[x] == info[x]
  {
  }

  lemma {:induction false} ExitSwitch(s: Sched, ring: seq<Ref>, i: nat, d: nat)
    requires Distinct(ring) && 0 < i <= d < |ring| && s.ring == Unlinked(ring, ring[0]) && s.current == ring[0]
    requires ring[d] in s.info && s.info[ring[d]].state == Ready
    ensures var s' := SwitchTo(s, ring[i]);
            s'.current == ring[i] && (i < d ==> Waiting(s', ring[d]) && Distance(s', ring[d]) == d - i)
  {
    hide Unlinked, IndexOf, Rotate, Dispatched;
    ExitRing(ring, i);
    var q := ring[1..];
    assert ring[d] != ring[0] && ring[i] != ring[0];
    if i < d {
      assert ring[d] != ring[i] && q[d - 1] == ring[d];
      RotatedIndex(q, i - 1, d - 1);
      DispatchedOther(s.info, ring[0], ring[i], ring[d]);
    }
    hide Distinct;
  }

  lemma {:induction false} ExitNearer(s: Sched, x: Ref)
    requires Invariant(s) && s.current != IDLE && Waiting(s, x)
    ensures Nearer(s, Dispatch(Died(s)), x, 0) && Dispatch(Died(s)).current != s.current
  {
    var d, s1 := IndexOf(s.ring, x), Died(s);
    DiedInfo(s);
    DiedSettled(s);
    hide Died, IndexOf;
    assert s1.info[x].state == Ready && Runnable(s1.info, x);
    ExitPick(s.ring, s1.info, d);
    var i :| 0 < i <= d && s.ring[i] == Pick(s1.ring, s1.info);
    hide Pick, Settled, Buried, AllDead, Unlinked, Runnable;
    ExitSwitch(s1, s.ring, i, d);
    hide SwitchTo;
    assert s.ring[i] != s.ring[0];
  }

  // ---- every step, every run ----

  lemma {:induction false} SameRing(s: Sched, s': Sched, x: Ref)
    requires s'.ring == s.ring && Waiting(s, x) && x in s'.info && s'.info[x].state == Ready
    ensures Waiting(s', x) && Distance(s', x) == Distance(s, x)
  {
  }

  lemma {:induction false} TimedNearer(s: Sched, s1: Sched, x: Ref)
    requires Invariant(s) && Waiting(s, x) && s1.ring == s.ring && s1.current == s.current
    requires x in s1.info && s1.info[x].state == Ready
    ensures Nearer(s, s1, x, 0) && Nearer(s, Dispatch(s1), x, 0)
  {
    SameRing(s, s1, x);
    assert x != s.current;
    hide Settled, AllDead, Dispatch, Distance;
    DispatchNearer(s1, x);
  }

  lemma {:induction false} YieldNearer(s: Sched, x: Ref)
    requires Invariant(s) && Waiting(s, x)
    ensures Nearer(s, Yielded(s), x, 0)
  {
    assert x != s.current;
    hide Dispatch, Nearer, Settled, AllDead;
    TimedNearer(s, WithSlice(Reaped(s), 0), x);
  }

  lemma {:induction false} TickNearer(s: Sched, x: Ref)
    requires Invariant(s) && Waiting(s, x)
    ensures Nearer(s, Ticked(s), x, 0)
  {
    var s1 := Reaped(s);
    assert x != s.current;
    hide Dispatch, Nearer, Settled, AllDead;
    if SliceOf(s1) > 0 {
      TimedNearer(s, WithSlice(s1, SliceOf(s1) - 1), x);
    } else {
      TimedNearer(s, s1, x);
    }
  }

  lemma {:induction false} SpawnFarther(s: Sched, t: Ref, parent: int, quantum: nat, x: Ref)
    requires Invariant(s) && Waiting(s, x) && t !in s.info
    ensures Nearer(s, Spawned(s, t, parent, quantum), x, 1)
  {
  }

  /** Where the task at `d` stands when the ring is turned to the one at `i`. */
  lemma {:induction false} TurnedIndex(ring: seq<Ref>, i: nat, d: nat)
    requires Distinct(ring) && i < |ring| && d < |ring|
    ensures ring[d] in Rotate(ring, i)
    ensures IndexOf(Rotate(ring, i), ring[d]) == d - i + if i > d then |ring| else 0
  {
    var r, k := Rotate(ring, i), d - i + if i > d then |ring| else 0;
    RotateKeeps(ring, i);
    assert r[k] == ring[d];
    IndexIs(r, k);
  }

  /** A wake while idle runs turns the ring to the woken task: a waiting task before it is put back to
      behind the ring's end, one after it comes nearer. */
  lemma {:induction false} JumpMoves(s: Sched, t: Ref, x: Ref)
    requires Invariant(s) && Waiting(s, x) && Jump(s, Wake(t))
    ensures var s' := Apply(s, Wake(t));
            s'.current == t && Waiting(s', x) && Distance(s', x) ==
            Distance(s, x) - Distance(s, t) + if Distance(s, t) > Distance(s, x) then |s.ring| else 0
  {
    var s1, i, d := s.(info := WithState(s.info, t, Ready)), IndexOf(s.ring, t), IndexOf(s.ring, x);
    assert t in s.ring && t != s.current;
    hide IndexOf;
    TurnedIndex(s.ring, i, d);
    assert x in Rotate(s.ring, i);
    hide Rotate, Settled, AllDead, Distinct;
  }

  lemma {:induction false} BlockedBehind(s: Sched, t: Ref)
    requires Invariant(s) && Jump(s, Wake(t))
    ensures Distance(s, t) > 0
  {
    assert t in s.ring;
  }

  lemma {:induction false} WakeNearer(s: Sched, t: Ref, x: Ref)
    requires Invariant(s) && Waiting(s, x)
    ensures Nearer(s, Apply(s, Wake(t)), x, Delay(s, Wake(t), x))
  {
    if Jump(s, Wake(t)) {
      JumpMoves(s, t, x);
      BlockedBehind(s, t);
    } else {
      TimedNearer(s, Apply(s, Wake(t)), x);
    }
  }

  /** No step takes a waiting task farther back, except that each new task counts one and each jump over it
      what it says; each dispatch of another task brings it nearer. */
  lemma {:induction false} StepNearer(s: Sched, op: Op, x: Ref)
    requires Invariant(s) && Enabled(s, op) && Waiting(s, x)
    ensures Nearer(s, Apply(s, op), x, Delay(s, op, x))
  {
    match op
    case Spawn(t, parent, quantum) => SpawnFarther(s, t, parent, quantum, x);
    case Tick => TickNearer(s, x);
    case Yield => YieldNearer(s, x);
    case Exit => ExitNearer(s, x);
    case Block => TimedNearer(s, s.(info := WithState(s.info, s.current, Blocked)), x);
    case Wake(t) => WakeNearer(s, t, x);
    case Disable => TimedNearer(s, Apply(s, op), x);
    case Enable => TimedNearer(s, Apply(s, op), x);
  }

  const OVERTAKE: seq<Op> := [Spawn(1, 0, 1), Yield, Block, Spawn(2, 0, 1), Wake(1)]

  lemma {:induction false} RunPrefix(s: Sched, ops: seq<Op>, n: nat)
    requires n < |ops|
    ensures Run(s, ops[..n + 1]) == Apply(Run(s, ops[..n]), ops[n])
    ensures Legal(s, ops[..n + 1]) <==> Legal(s, ops[..n]) && Enabled(Run(s, ops[..n]), ops[n])
    ensures Run(s, ops[..0]) == s && Legal(s, ops[..0])
  {
    assert ops[..n + 1][..n] == ops[..n];
  }

  /** Two tasks take turns. */
  lemma {:induction false} SwapTwo(s: Sched, a: Ref, b: Ref)
    requires s.ring == [a, b] && a != b && s.current == a && Runnable(s.info, b)
    ensures Dispatch(s).ring == [b, a] && Dispatch(s).current == b && Dispatch(s).info == Dispatched(s.info, a, b)
  {
    assert Candidates(s.ring) == [b];
    assert Pick(s.ring, s.info) == b;
    assert IndexOf(s.ring, b) == 1;
  }

  lemma {:induction false} FirstRuns(s: Sched, s': Sched)
    requires s == Spawned(START, 1, 0, 1) && s' == Yielded(s)
    ensures s'.ring == [1, 0] && s'.current == 1 && s'.info.Keys == {0, 1}
    ensures s'.info[0].state == Ready && s'.info[1].state == Running
  {
    hide Dispatch;
    SwapTwo(WithSlice(Reaped(s), 0), 0, 1);
  }

  lemma {:induction false} FirstSleeps(s: Sched, s': Sched)
    requires s.ring == [1, 0] && s.current == 1 && s.info.Keys == {0, 1} && s' == Apply(s, Block)
    requires s.info[0].state == Ready && s.info[1].state == Running
    ensures s'.ring == [0, 1] && s'.current == IDLE && s'.info.Keys == {0, 1} && s'.info[1].state == Blocked
  {
    hide Dispatch;
    SwapTwo(s.(info := WithState(s.info, 1, Blocked)), 1, 0);
  }

  lemma {:induction false} SecondComes(s: Sched, s': Sched)
    requires s.ring == [0, 1] && s.current == IDLE && s.info.Keys == {0, 1} && s.info[1].state == Blocked
    requires s' == Spawned(s, 2, 0, 1)
    ensures s'.current == IDLE && Waiting(s', 2) && Jump(s', Wake(1))
    ensures |s'.ring| == 3 && Distance(s', 2) == 1 && Distance(s', 1) == 2
  {
    assert s'.ring == [0, 2, 1];
    assert IndexOf([2, 1], 2) == 0 && IndexOf([2, 1], 1) == 1;
    assert s'.ring[1..] == [2, 1];
  }

  /** From the start, two tasks and a wake that puts the second one back from its turn. */
  lemma {:induction false} WokenOvertakes()
    ensures var s, s' := Run(START, OVERTAKE[..4]), Run(START, OVERTAKE);
            Legal(START, OVERTAKE) && Waiting(s, 2) && Distance(s, 2) == 1 && Waiting(s', 2) && Distance(s', 2) == 2
  {
    hide Run, Legal, Yielded, Spawned, Waiting, Invariant, Distance, Jump, Woken, Dispatch;
    RunPrefix(START, OVERTAKE, 0);
    RunPrefix(START, OVERTAKE, 1);
    RunPrefix(START, OVERTAKE, 2);
    RunPrefix(START, OVERTAKE, 3);
    RunPrefix(START, OVERTAKE, 4);
    assert OVERTAKE[..5] == OVERTAKE;
    FirstRuns(Run(START, OVERTAKE[..1]), Run(START, OVERTAKE[..2]));
    FirstSleeps(Run(START, OVERTAKE[..2]), Run(START, OVERTAKE[..3]));
    SecondComes(Run(START, OVERTAKE[..3]), Run(START, OVERTAKE[..4]));
    RunKeeps(OVERTAKE[..4]);
    JumpMoves(Run(START, OVERTAKE[..4]), 1, 2);
  }

  // ---- runs ----

  function AllSwitches(s: Sched, ops: seq<Op>): nat {
    if ops == [] then 0
    else AllSwitches(s, ops[..|ops| - 1]) + Switches(Run(s, ops[..|ops| - 1]), ops[|ops| - 1])
  }

  function AllDelays(s: Sched, ops: seq<Op>, x: Ref): nat {
    if ops == [] then 0
    else AllDelays(s, ops[..|ops| - 1], x) + Delay(Run(s, ops[..|ops| - 1]), ops[|ops| - 1], x)
  }

  /** `x` is current at some point of the run. */
  ghost predicate GetsTurn(s: Sched, ops: seq<Op>, x: Ref) {
    Run(s, ops).current == x || (ops != [] && GetsTurn(s, ops[..|ops| - 1], x))
  }

  lemma {:induction false} Behind(s: Sched, x: Ref)
    requires Invariant(s) && Waiting(s, x)
    ensures Distance(s, x) > 0
  {
  }

  lemma {:induction false} RunNearer(s: Sched, ops: seq<Op>, x: Ref)
    requires Invariant(s) && Waiting(s, x) && Legal(s, ops) && !GetsTurn(s, ops, x)
    ensures Invariant(Run(s, ops)) && Waiting(Run(s, ops), x) && Distance(Run(s, ops), x) > 0
    ensures AllSwitches(s, ops) + Distance(Run(s, ops), x) <= Distance(s, x) + AllDelays(s, ops, x)
  {
    hide Apply, Enabled, Invariant, Waiting, Distance, Delay;
    if ops == [] {
      Behind(s, x);
    } else {
      var pre, op := ops[..|ops| - 1], ops[|ops| - 1];
      RunNearer(s, pre, x);
      StepKeeps(Run(s, pre), op);
      StepNearer(Run(s, pre), op, x);
      Behind(Run(s, ops), x);
    }
  }

  /** A ready task `d` places behind the current one gets its turn within `d` dispatches, plus one
      for each task created meanwhile and the delay of each jump over it, whatever the other tasks do. */
  lemma {:induction false} TurnComes(s: Sched, ops: seq<Op>, x: Ref)
    requires Invariant(s) && Waiting(s, x) && Legal(s, ops)
    requires AllSwitches(s, ops) >= Distance(s, x) + AllDelays(s, ops, x)
    ensures GetsTurn(s, ops, x)
  {
    if !GetsTurn(s, ops, x) {
      RunNearer(s, ops, x);
    }
  }

  // ---- time slices ----

  function Ticks(s: Sched, n: nat): Sched { if n == 0 then s else Ticked(Ticks(s, n - 1)) }

  ghost predicate SameStates(info: Infos, info': Infos) {
    forall t :: Runnable(info', t) == Runnable(info, t)
  }

  lemma {:induction false} TickCounts(s: Sched)
    requires Invariant(s) && SliceOf(s) > 1
    ensures var s' := Ticked(s);
            Invariant(s') && s'.ring == s.ring && s'.current == s.current && s'.preempt == s.preempt &&
            SliceOf(s') == SliceOf(s) - 1 && SameStates(s.info, s'.info)
  {
    hide Invariant, Dispatch, Places;
    TickKeeps(s);
    var s1 := WithSlice(Reaped(s), SliceOf(s) - 1);
    assert Ticked(s) == s1;
  }

  /** As long as its slice lasts a task is not preempted. */
  lemma {:induction false} SliceLasts(s: Sched, n: nat)
    requires Invariant(s) && n < SliceOf(s)
    ensures var s' := Ticks(s, n);
            Invariant(s') && s'.ring == s.ring && s'.current == s.current && s'.preempt == s.preempt &&
            SliceOf(s') == SliceOf(s) - n && SameStates(s.info, s'.info)
  {
    hide Invariant, Ticked, Runnable, SliceOf;
    if n > 0 {
      SliceLasts(s, n - 1);
      TickCounts(Ticks(s, n - 1));
    }
  }

  lemma {:induction false} SamePick(ring: seq<Ref>, info: Infos, info': Infos)
    requires SameStates(info, info')
    ensures Pick(ring, info') == Pick(ring, info)
  {
  }

  lemma {:induction false} PickInRing(s: Sched)
    requires Invariant(s)
    ensures Pick(s.ring, s.info) in s.ring && s.current in s.info
  {
  }

  lemma {:induction false} LastTick(s: Sched)
    requires Invariant(s) && SliceOf(s) == 1 && s.preempt == 0
    ensures Ticked(s).current == Pick(s.ring, s.info)
  {
    var s2 := WithSlice(Reaped(s), 0);
    PickInRing(s);
    hide Invariant, Pick;
    assert SameStates(s.info, s2.info);
    SamePick(s.ring, s.info, s2.info);
    hide Runnable, SameStates;
  }

  /** With preemption enabled it is, at the tick that ends the slice, in favour of the next runnable task. */
  lemma {:induction false} SliceEnds(s: Sched)
    requires Invariant(s) && SliceOf(s) > 0 && s.preempt == 0
    ensures Ticks(s, SliceOf(s)).current == Pick(s.ring, s.info)
  {
    hide Invariant, Ticked, Pick, SameStates;
    var n := SliceOf(s);
    SliceLasts(s, n - 1);
    var s1 := Ticks(s, n - 1);
    SamePick(s.ring, s.info, s1.info);
    LastTick(s1);
  }
}
