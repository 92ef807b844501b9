/** The scheduler's steps on a ring of tasks, and what every run of them keeps. */
module RunQueue {

  /** A reference to a task: its id, or NULL. */
  type Ref = int

  const NULL: Ref := -1
  const IDLE: Ref := 0
  const INIT_TID: Ref := 1

  datatype TaskState = Ready | Running | Blocked | Dead

  datatype Info = Info(state: TaskState, parent: int, slice: nat, quantum: nat)

  type Infos = map<Ref, Info>

  /** The ring from the run-queue pointer on, the running task, the zombies in list order, what has been
      freed so far in order, and the preemption count. */
  datatype Sched = Sched(ring: seq<Ref>, current: Ref, info: Infos, zombies: seq<Ref>, freed: seq<Ref>, preempt: nat)

  // ---- the pieces ----

  predicate Runnable(info: Infos, t: Ref) { t in info && (info[t].state == Ready || info[t].state == Running) }

  /** Index of the first runnable task, or the length. */
  function FirstRunnable(q: seq<Ref>, info: Infos): (k: nat)
    ensures k <= |q|
    ensures k < |q| ==> Runnable(info, q[k])
    ensures forall i :: 0 <= i < k ==> !Runnable(info, q[i])
  {
    if q == [] || Runnable(info, q[0]) then 0 else 1 + FirstRunnable(q[1..], info)
  }

  /** The scan starts behind the run-queue pointer and does not come back to it, unless it stands alone. */
  function Candidates(ring: seq<Ref>): seq<Ref> {
    if |ring| <= 1 then ring else ring[1..]
  }

  function Pick(ring: seq<Ref>, info: Infos): Ref {
    var q := Candidates(ring);
    var k := FirstRunnable(q, info);
    if k < |q| then q[k] else IDLE
  }

  function IndexOf(ring: seq<Ref>, t: Ref): (i: nat)
    requires t in ring
    ensures i < |ring| && ring[i] == t
  {
    if ring[0] == t then 0 else 1 + IndexOf(ring[1..], t)
  }

  function Rotate(ring: seq<Ref>, i: nat): seq<Ref>
    requires i <= |ring|
  {
    ring[i..] + ring[..i]
  }

  /** The ring without `t`; if the run-queue pointer stood on it, it steps back. */
  function Unlinked(ring: seq<Ref>, t: Ref): seq<Ref> {
    if t !in ring then ring
    else if |ring| == 1 then []
    else if ring[0] == t then [ring[|ring| - 1]] + ring[1..|ring| - 1]
    else var i := IndexOf(ring, t); ring[..i] + ring[i + 1..]
  }

  /** New tasks go right behind the run-queue pointer. */
  function Enqueued(ring: seq<Ref>, t: Ref): seq<Ref> {
    if ring == [] then [t] else [ring[0], t] + ring[1..]
  }

  function WithState(info: Infos, t: Ref, st: TaskState): Infos {
    if t in info then info[t := info[t].(state := st)] else info
  }

  function Dispatched(info: Infos, prev: Ref, next: Ref): Infos {
    var info1 := if prev in info && info[prev].state == Running then WithState(info, prev, Ready) else info;
    if next in info1 then info1[next := info1[next].(state := Running, slice := info1[next].quantum)] else info1
  }

  function SwitchTo(s: Sched, next: Ref): Sched {
    if next == s.current || next !in s.ring then s
    else s.(ring := Rotate(s.ring, IndexOf(s.ring, next)), current := next, info := Dispatched(s.info, s.current, next))
  }

  function Reaped(s: Sched): Sched { s.(zombies := [], freed := s.freed + s.zombies) }

  /** Children of a dead task go to the first one. */
  function Reparented(info: Infos, ring: seq<Ref>, dead: Ref): Infos {
    map t | t in info :: if t in ring && info[t].parent == dead then info[t].(parent := INIT_TID) else info[t]
  }

  /** The dead task's parent is made ready if it is blocked. */
  function ParentWoken(info: Infos, ring: seq<Ref>, dead: Ref): Infos {
    if dead in info && info[dead].parent != 0 && info[dead].parent in ring && info[dead].parent in info &&
       info[info[dead].parent].state == Blocked
    then WithState(info, info[dead].parent, Ready) else info
  }

  // ---- the steps ----

  datatype Op = Spawn(t: Ref, parent: int, quantum: nat) | Tick | Yield | Exit | Block | Wake(t: Ref) | Disable | Enable

  function Spawned(s: Sched, t: Ref, parent: int, quantum: nat): Sched {
    s.(ring := Enqueued(s.ring, t), info := s.info[t := Info(Ready, parent, quantum, quantum)])
  }

  function Dispatch(s: Sched): Sched { SwitchTo(s, Pick(s.ring, s.info)) }

  function WithSlice(s: Sched, n: nat): Sched {
    if s.current in s.info then s.(info := s.info[s.current := s.info[s.current].(slice := n)]) else s
  }

  function SliceOf(s: Sched): nat { if s.current in s.info then s.info[s.current].slice else 0 }

  function Ticked(s: Sched): Sched {
    var s1 := Reaped(s);
    var s2 := if SliceOf(s1) > 0 then WithSlice(s1, SliceOf(s1) - 1) else s1;
    if SliceOf(s2) == 0 && s2.preempt == 0 then Dispatch(s2) else s2
  }

  function Yielded(s: Sched): Sched { Dispatch(WithSlice(Reaped(s), 0)) }

  function Woken(s: Sched, t: Ref): Sched {
    if t !in s.info || s.info[t].state != Blocked then s
    else
      var s1 := s.(info := WithState(s.info, t, Ready));
      if s.current == IDLE then SwitchTo(s1, t) else s1
  }

  /** The state once the running task has left the ring for the zombie list. */
  function Died(s: Sched): Sched {
    var info1 := Reparented(WithState(s.info, s.current, Dead), s.ring, s.current);
    s.(info := ParentWoken(info1, s.ring, s.current), ring := Unlinked(s.ring, s.current),
       zombies := [s.current] + s.zombies)
  }

  function Apply(s: Sched, op: Op): Sched {
    match op
    case Spawn(t, parent, quantum) => Spawned(s, t, parent, quantum)
    case Tick => Ticked(s)
    case Yield => Yielded(s)
    case Exit => Dispatch(Died(s))
    case Block => Dispatch(s.(info := WithState(s.info, s.current, Blocked)))
    case Wake(t) => Woken(s, t)
    case Disable => s.(preempt := s.preempt + 1)
    case Enable => s.(preempt := if s.preempt > 0 then s.preempt - 1 else 0)
  }

  /** The idle task neither exits nor blocks; a new task is new. */
  predicate Enabled(s: Sched, op: Op) {
    match op
    case Spawn(t, _, _) => t !in s.info && t > 0
    case Exit => s.current != IDLE
    case Block => s.current != IDLE
    case _ => true
  }

  const START := Sched([IDLE], IDLE, map[IDLE := Info(Running, 0, 1, 1)], [], [], 0)

  function Run(s: Sched, ops: seq<Op>): Sched {
    if ops == [] then s else Apply(Run(s, ops[..|ops| - 1]), ops[|ops| - 1])
  }

  ghost predicate Legal(s: Sched, ops: seq<Op>) {
    ops == [] || (Legal(s, ops[..|ops| - 1]) && Enabled(Run(s, ops[..|ops| - 1]), ops[|ops| - 1]))
  }

  // ---- the invariant ----

  ghost predicate Distinct(q: seq<Ref>) {
    forall i, j :: 0 <= i < j < |q| ==> q[i] != q[j]
  }

  /** The ring before a dispatch: idle is in it and not asleep, nobody in it is dead, and only the
      current task may be running. */
  ghost predicate Settled(ring: seq<Ref>, current: Ref, info: Infos) {
    Distinct(ring) && IDLE in ring && Runnable(info, IDLE) &&
    forall t :: t in ring ==> t in info && info[t].state != Dead && (info[t].state == Running ==> t == current)
  }

  ghost predicate AllDead(q: seq<Ref>, info: Infos) {
    forall t :: t in q ==> t in info && info[t].state == Dead
  }

  /** Every task is in the ring or has left it. */
  ghost predicate Accounted(ring: seq<Ref>, gone: seq<Ref>, info: Infos) {
    forall t :: t in info ==> t in ring || t in gone
  }

  predicate Runs(info: Infos, t: Ref) { t in info && info[t].state == Running }

  /** The ring holds the live tasks once each, headed by the current one, the only one running; the
      exited ones are dead, and each is once among the zombies or the freed. */
  ghost predicate Invariant(s: Sched) {
    s.ring != [] && s.ring[0] == s.current && Settled(s.ring, s.current, s.info) && Runs(s.info, s.current) &&
    Distinct(s.zombies + s.freed) && AllDead(s.zombies + s.freed, s.info) &&
    Accounted(s.ring, s.zombies + s.freed, s.info)
  }

  // ---- lemmas about the pieces ----

  /** Where tasks are: in the ring, among the zombies, or freed. */
  ghost function Places(s: Sched): multiset<Ref> { multiset(s.ring) + multiset(s.zombies) + multiset(s.freed) }

  ghost function Born(op: Op): multiset<Ref> { if op.Spawn? then multiset{op.t} else multiset{} }

  lemma {:induction false} RotateKeeps(ring: seq<Ref>, i: nat)
    requires i < |ring|
    ensures Rotate(ring, i)[0] == ring[i] && |Rotate(ring, i)| == |ring|
    ensures multiset(Rotate(ring, i)) == multiset(ring)
    ensures forall t :: t in Rotate(ring, i) <==> t in ring
    ensures Distinct(ring) ==> Distinct(Rotate(ring, i))
  {
    assert ring == ring[..i] + ring[i..];
    var r := Rotate(ring, i);
    forall t ensures t in r <==> t in ring {
      assert t in r <==> t in multiset(r);
      assert t in ring <==> t in multiset(ring);
    }
  }

  lemma {:induction false} PickIsRunnable(ring: seq<Ref>, info: Infos)
    requires IDLE in ring && Runnable(info, IDLE)
    ensures Pick(ring, info) in ring && Runnable(info, Pick(ring, info))
  {
  }

  lemma {:induction false} EnqueuedKeeps(ring: seq<Ref>, t: Ref)
    requires t !in ring && Distinct(ring)
    ensures Distinct(Enqueued(ring, t)) && multiset(Enqueued(ring, t)) == multiset(ring) + multiset{t}
    ensures forall u :: u in Enqueued(ring, t) <==> u == t || u in ring
  {
    var r := Enqueued(ring, t);
    if ring != [] {
      assert ring == [ring[0]] + ring[1..];
      assert r[0] == ring[0] && r[1] == t;
    }
    forall u ensures u in r <==> u == t || u in ring {
      assert u in r <==> u in multiset(r);
      assert u in ring <==> u in multiset(ring);
    }
  }

  lemma {:induction false} UnlinkedHead(ring: seq<Ref>)
    requires |ring| > 1 && Distinct(ring)
    ensures var r := Unlinked(ring, ring[0]);
            Distinct(r) && r != [] && multiset(r) + multiset{ring[0]} == multiset(ring) &&
            (forall u :: u in r <==> u in ring && u != ring[0])
  {
    var r, n := Unlinked(ring, ring[0]), |ring|;
    assert ring == [ring[0]] + ring[1..n - 1] + [ring[n - 1]];
    forall u ensures u in r <==> u in ring && u != ring[0] {
      if u in ring && u != ring[0] {
        var i :| 0 <= i < n && ring[i] == u;
        assert r[if i == n - 1 then 0 else i] == u;
      }
    }
  }

  // ---- each step keeps the invariant ----

  lemma {:induction false} DispatchedSettled(ring: seq<Ref>, ring': seq<Ref>, prev: Ref, next: Ref, info: Infos)
    requires Settled(ring, prev, info) && next in ring && Runnable(info, next) && prev in info && prev != next
    requires Distinct(ring') && forall t :: t in ring' <==> t in ring
    ensures Settled(ring', next, Dispatched(info, prev, next)) && Runs(Dispatched(info, prev, next), next)
    ensures Dispatched(info, prev, next).Keys == info.Keys
  {
    hide Distinct;
  }

  lemma {:induction false} DispatchedDead(gone: seq<Ref>, prev: Ref, next: Ref, info: Infos)
    requires AllDead(gone, info) && Runnable(info, next)
    ensures AllDead(gone, Dispatched(info, prev, next))
  {
  }

  lemma {:induction false} SwitchKeeps(s: Sched, next: Ref)
    requires Settled(s.ring, s.current, s.info) && next in s.ring && Runnable(s.info, next)
    requires next == s.current ==> s.ring[0] == next && Runs(s.info, next)
    requires Distinct(s.zombies + s.freed) && AllDead(s.zombies + s.freed, s.info)
    requires s.current in s.info && Accounted(s.ring, s.zombies + s.freed, s.info)
    ensures Invariant(SwitchTo(s, next)) && SwitchTo(s, next).current == next
    ensures Places(SwitchTo(s, next)) == Places(s)
  {
    var i := IndexOf(s.ring, next);
    RotateKeeps(s.ring, i);
    hide Distinct, Rotate, IndexOf;
    if next != s.current {
      DispatchedSettled(s.ring, Rotate(s.ring, i), s.current, next, s.info);
      DispatchedDead(s.zombies + s.freed, s.current, next, s.info);
      hide Dispatched, Settled, AllDead;
    }
  }

  /** Dispatching to the picked task. */
  lemma {:induction false} DispatchKeeps(s: Sched)
    requires Settled(s.ring, s.current, s.info) && s.current in s.info
    requires s.current in s.ring ==> !Runnable(s.info, s.current) || (s.ring[0] == s.current && Runs(s.info, s.current))
    requires Distinct(s.zombies + s.freed) && AllDead(s.zombies + s.freed, s.info)
    requires Accounted(s.ring, s.zombies + s.freed, s.info)
    ensures Invariant(Dispatch(s)) && Places(Dispatch(s)) == Places(s) && Dispatch(s).zombies == s.zombies
  {
    PickIsRunnable(s.ring, s.info);
    hide Distinct, Pick, AllDead, Runnable;
    SwitchKeeps(s, Pick(s.ring, s.info));
  }

  lemma {:induction false} SliceKeeps(s: Sched, n: nat)
    requires Invariant(s)
    ensures Invariant(WithSlice(s, n)) && Places(WithSlice(s, n)) == Places(s)
  {
  }

  lemma {:induction false} RunningDispatchKeeps(s: Sched)
    requires Invariant(s)
    ensures Invariant(Dispatch(s)) && Places(Dispatch(s)) == Places(s) && Dispatch(s).zombies == s.zombies
  {
    hide Distinct, AllDead, Places, Dispatch;
    DispatchKeeps(s);
  }

  lemma {:induction false} ReapKeeps(s: Sched)
    requires Invariant(s)
    ensures Invariant(Reaped(s)) && Places(Reaped(s)) == Places(s)
  {
    var r := s.freed + s.zombies;
    forall i, j | 0 <= i < j < |r| ensures r[i] != r[j] {
      var q, n, m := s.zombies + s.freed, |s.freed|, |s.zombies|;
      assert r[i] == q[if i < n then i + m else i - n] && r[j] == q[if j < n then j + m else j - n];
    }
    forall t | t in r ensures t in s.zombies + s.freed {
    }
  }

  lemma {:induction false} TickKeeps(s: Sched)
    requires Invariant(s)
    ensures Invariant(Ticked(s)) && Places(Ticked(s)) == Places(s)
    ensures Invariant(Yielded(s)) && Places(Yielded(s)) == Places(s)
  {
    hide Invariant, Places, Dispatch, WithSlice, Reaped, SliceOf;
    ReapKeeps(s);
    var s1 := Reaped(s);
    SliceKeeps(s1, 0);
    RunningDispatchKeeps(WithSlice(s1, 0));
    if SliceOf(s1) > 0 {
      SliceKeeps(s1, SliceOf(s1) - 1);
      RunningDispatchKeeps(WithSlice(s1, SliceOf(s1) - 1));
    } else {
      RunningDispatchKeeps(s1);
    }
  }

  lemma {:induction false} SpawnKeeps(s: Sched, t: Ref, parent: int, quantum: nat)
    requires Invariant(s) && t !in s.info && t > 0
    ensures Invariant(Spawned(s, t, parent, quantum))
    ensures Places(Spawned(s, t, parent, quantum)) == Places(s) + multiset{t}
  {
    EnqueuedKeeps(s.ring, t);
    hide Distinct;
  }

  lemma {:induction false} BlockKeeps(s: Sched)
    requires Invariant(s) && s.current != IDLE
    ensures var s' := Dispatch(s.(info := WithState(s.info, s.current, Blocked)));
            Invariant(s') && Places(s') == Places(s)
  {
    hide Distinct, Dispatch;
    DispatchKeeps(s.(info := WithState(s.info, s.current, Blocked)));
  }

  lemma {:induction false} WakeKeeps(s: Sched, t: Ref)
    requires Invariant(s)
    ensures Invariant(Woken(s, t)) && Places(Woken(s, t)) == Places(s)
  {
    if t in s.info && s.info[t].state == Blocked {
      var s1 := s.(info := WithState(s.info, t, Ready));
      hide Distinct;
      assert Invariant(s1);
      if s.current == IDLE && t in s.ring {
        SwitchKeeps(s1, t);
      }
    }
  }

  /** The states left by an exit: the dead one is dead, and at most a sleeper was made ready. */
  ghost predicate Buried(info: Infos, info': Infos, dead: Ref) {
    info'.Keys == info.Keys && dead in info' && info'[dead].state == Dead &&
    forall t :: t in info && t != dead ==>
      info'[t].state == info[t].state || (info[t].state == Blocked && info'[t].state == Ready)
  }

  lemma {:induction false} DiedInfo(s: Sched)
    requires s.current in s.info
    ensures Buried(s.info, Died(s).info, s.current)
  {
  }

  lemma {:induction false} DiedSettled(s: Sched)
    requires Invariant(s) && s.current != IDLE
    ensures Settled(Died(s).ring, s.current, Died(s).info) && s.current !in Died(s).ring
    ensures Died(s).current == s.current && s.current in Died(s).info && Died(s).freed == s.freed
    ensures Died(s).zombies == [s.current] + s.zombies && Died(s).ring == Unlinked(s.ring, s.current)
  {
    DiedInfo(s);
    UnlinkedHead(s.ring);
    hide Unlinked, Reparented, ParentWoken, Distinct;
  }

  lemma {:induction false} DiedLists(s: Sched)
    requires Invariant(s) && s.current != IDLE
    ensures Distinct(Died(s).zombies + Died(s).freed) && AllDead(Died(s).zombies + Died(s).freed, Died(s).info)
    ensures Accounted(Died(s).ring, Died(s).zombies + Died(s).freed, Died(s).info)
    ensures Places(Died(s)) == Places(s)
  {
    DiedInfo(s);
    UnlinkedHead(s.ring);
    hide Unlinked, Reparented, ParentWoken;
    assert s.current !in s.zombies + s.freed;
    var q := Died(s).zombies + Died(s).freed;
    assert q == [s.current] + (s.zombies + s.freed);
    forall i, j | 0 <= i < j < |q| ensures q[i] != q[j] {
      assert i > 0 ==> q[i] == (s.zombies + s.freed)[i - 1];
    }
    assert multiset(q) == multiset{s.current} + multiset(s.zombies + s.freed);
  }

  lemma {:induction false} ExitKeeps(s: Sched)
    requires Invariant(s) && s.current != IDLE
    ensures Invariant(Dispatch(Died(s))) && Places(Dispatch(Died(s))) == Places(s)
    ensures Dispatch(Died(s)).zombies == [s.current] + s.zombies
  {
    DiedSettled(s);
    DiedLists(s);
    hide *;
    DispatchKeeps(Died(s));
  }

  lemma {:induction false} PreemptKeeps(s: Sched, n: nat)
    requires Invariant(s)
    ensures Invariant(s.(preempt := n)) && Places(s.(preempt := n)) == Places(s)
  {
  }

  lemma {:induction false} StepKeeps(s: Sched, op: Op)
    requires Invariant(s) && Enabled(s, op)
    ensures Invariant(Apply(s, op)) && Places(Apply(s, op)) == Places(s) + Born(op)
  {
    hide Places, Invariant, Ticked, Yielded, Died, Dispatch, Woken, Spawned, WithState;
    match op
    case Spawn(t, parent, quantum) => SpawnKeeps(s, t, parent, quantum);
    case Tick => TickKeeps(s);
    case Yield => TickKeeps(s);
    case Exit => ExitKeeps(s);
    case Block => BlockKeeps(s);
    case Wake(t) => WakeKeeps(s, t);
    case Disable => PreemptKeeps(s, s.preempt + 1);
    case Enable => PreemptKeeps(s, if s.preempt > 0 then s.preempt - 1 else 0);
  }

  ghost function AllBorn(ops: seq<Op>): multiset<Ref> {
    if ops == [] then multiset{IDLE} else AllBorn(ops[..|ops| - 1]) + Born(ops[|ops| - 1])
  }

  /** Every run keeps one ring of the live tasks with the current one the only one running, and every
      task ever created is in exactly one place, once. */
  lemma {:induction false} RunKeeps(ops: seq<Op>)
    requires Legal(START, ops)
    ensures Invariant(Run(START, ops)) && Places(Run(START, ops)) == AllBorn(ops)
  {
    hide Apply, Enabled;
    if ops == [] {
    } else {
      hide Invariant;
      RunKeeps(ops[..|ops| - 1]);
      StepKeeps(Run(START, ops[..|ops| - 1]), ops[|ops| - 1]);
    }
  }
}
