/** The sleeping mutex: its critical sections, and every interleaving of them by any number of tasks. */
module Mutex {

  /** Where a task stands with respect to the mutex: not using it, about to enter the retry loop of
      `lock`, asleep in its queue, woken and on its way back to retry, or holding it. */
  datatype Phase = Outside | Trying | Asleep | Woken | Holding

  /** The mutex's fields, the tasks it has blocked, and every task's phase; tasks without an entry
      are outside. Tasks are named by their ids. */
  datatype System = System(locked: bool, owner: nat, waiters: seq<nat>, blocked: set<nat>, phases: map<nat, Phase>)

  datatype Op = Call(t: nat) | Attempt(t: nat) | TryLock(t: nat) | Unlock(t: nat)

  function PhaseOf(phases: map<nat, Phase>, t: nat): Phase { if t in phases then phases[t] else Outside }

  // ---- the critical sections ----

  function Taken(s: System, t: nat): System {
    s.(locked := true, owner := t, phases := s.phases[t := Holding])
  }

  function Queued(s: System, t: nat): System {
    s.(waiters := [t] + s.waiters, blocked := s.blocked + {t}, phases := s.phases[t := Asleep])
  }

  function Released(s: System, t: nat): System {
    var s1 := s.(locked := false, owner := 0, phases := s.phases[t := Outside]);
    if s.waiters == [] then s1
    else
      var w := s.waiters[0];
      s1.(waiters := s.waiters[1..], blocked := s.blocked - {w}, phases := s1.phases[w := Woken])
  }

  /** A blocked task is not scheduled; only the holder unlocks, and it does not lock again. */
  predicate Enabled(s: System, op: Op) {
    var p := PhaseOf(s.phases, op.t);
    op.t !in s.blocked &&
    match op
    case Call(_) => p == Outside
    case Attempt(_) => p == Trying || p == Woken
    case TryLock(_) => p == Outside
    case Unlock(_) => p == Holding
  }

  function Apply(s: System, op: Op): System {
    match op
    case Call(t) => s.(phases := s.phases[t := Trying])
    case Attempt(t) => if s.locked then Queued(s, t) else Taken(s, t)
    case TryLock(t) => if s.locked then s else Taken(s, t)
    case Unlock(t) => Released(s, t)
  }

  // ---- safety over every interleaving ----

  /** The lock is held exactly by its owner. */
  ghost predicate Exclusive(s: System) {
    (forall t :: t in s.phases && s.phases[t] == Holding ==> s.locked && s.owner == t) &&
    (s.locked ==> PhaseOf(s.phases, s.owner) == Holding) &&
    (!s.locked ==> s.owner == 0)
  }

  /** The queue lists each sleeping task once, and those are the blocked ones; so each queue node
      lies in the stack frame of a call that has not returned. */
  ghost predicate QueueExact(s: System) {
    (forall i, j :: 0 <= i < j < |s.waiters| ==> s.waiters[i] != s.waiters[j]) &&
    (forall t :: t in s.waiters <==> PhaseOf(s.phases, t) == Asleep) &&
    (forall t :: t in s.blocked <==> PhaseOf(s.phases, t) == Asleep)
  }

  /** A free mutex with sleepers has a woken task on its way to retry. */
  ghost predicate NoLostWakeup(s: System) {
    !s.locked && s.waiters != [] ==> exists t :: t in s.phases && s.phases[t] == Woken
  }

  ghost predicate Invariant(s: System) { Exclusive(s) && QueueExact(s) && NoLostWakeup(s) }

  lemma {:induction false} TakenKeeps(s: System, t: nat)
    requires Invariant(s) && !s.locked && PhaseOf(s.phases, t) != Asleep
    ensures Invariant(Taken(s, t))
  {
  }

  lemma {:induction false} QueuedKeeps(s: System, t: nat)
    requires Invariant(s) && s.locked && PhaseOf(s.phases, t) in {Trying, Woken}
    ensures Invariant(Queued(s, t))
  {
  }

  lemma {:induction false} ReleasedKeeps(s: System, t: nat)
    requires Invariant(s) && PhaseOf(s.phases, t) == Holding
    ensures Invariant(Released(s, t))
  {
    var s' := Released(s, t);
    assert t !in s.waiters;
    if s.waiters != [] {
      var w := s.waiters[0];
      assert w in s.waiters && s'.phases[w] == Woken;
      forall u ensures u in s'.waiters <==> u in s.waiters && u != w {
        if u in s.waiters && u != w {
          var i :| 0 <= i < |s.waiters| && s.waiters[i] == u;
          assert s'.waiters[i - 1] == u;
        }
      }
    }
  }

  lemma {:induction false} StepKeeps(s: System, op: Op)
    requires Invariant(s) && Enabled(s, op)
    ensures Invariant(Apply(s, op))
  {
    match op
    case Call(t) =>
      if !s.locked && s.waiters != [] {
        var w :| w in s.phases && s.phases[w] == Woken;
        assert Apply(s, op).phases[w] == Woken;
      }
    case Attempt(t) =>
      if s.locked {
        QueuedKeeps(s, t);
      } else {
        TakenKeeps(s, t);
      }
    case TryLock(t) =>
      if !s.locked {
        TakenKeeps(s, t);
      }
    case Unlock(t) =>
      ReleasedKeeps(s, t);
  }

  const START := System(false, 0, [], {}, map[])

  function Run(s: System, ops: seq<Op>): System {
    if ops == [] then s else Apply(Run(s, ops[..|ops| - 1]), ops[|ops| - 1])
  }

  ghost predicate Legal(s: System, ops: seq<Op>) {
    ops == [] || (Legal(s, ops[..|ops| - 1]) && Enabled(Run(s, ops[..|ops| - 1]), ops[|ops| - 1]))
  }

  /** Every interleaving: at most one holder, whom the fields name; exactly the sleepers queued; and
      a free mutex never has sleepers and nobody coming. */
  lemma {:induction false} RunSafe(ops: seq<Op>)
    requires Legal(START, ops)
    ensures var s := Run(START, ops);
            Invariant(s) &&
            (forall t, u :: PhaseOf(s.phases, t) == Holding && PhaseOf(s.phases, u) == Holding ==> t == u)
  {
    if ops != [] {
      RunSafe(ops[..|ops| - 1]);
      StepKeeps(Run(START, ops[..|ops| - 1]), ops[|ops| - 1]);
    }
  }

  /** As long as anyone wants the mutex, some step is possible, and when it is free the woken tasks
      and those trying get it at their next step. */
  lemma {:induction false} NoDeadlock(s: System, t: nat)
    requires Invariant(s) && PhaseOf(s.phases, t) in {Trying, Asleep, Woken}
    ensures exists op :: Enabled(s, op) &&
              (op.Unlock? || (op.Attempt? && (!s.locked ==> PhaseOf(Apply(s, op).phases, op.t) == Holding)))
  {
    if s.locked {
      assert Enabled(s, Unlock(s.owner));
    } else if PhaseOf(s.phases, t) == Asleep {
      assert t in s.waiters;
      var w :| w in s.phases && s.phases[w] == Woken;
      assert Enabled(s, Attempt(w)) && PhaseOf(Apply(s, Attempt(w)).phases, w) == Holding;
    } else {
      assert Enabled(s, Attempt(t)) && PhaseOf(Apply(s, Attempt(t)).phases, t) == Holding;
    }
  }

  // ---- order of service ----

  /** How a step moves the sleepers that were in the queue: back by one when it queues another in front
      of them, forward by one when it wakes the first. */
  function Shift(s: System, op: Op): int {
    match op
    case Attempt(_) => if s.locked then 1 else 0
    case Unlock(_) => -1
    case _ => 0
  }

  /** Where the sleeper at place `d` stands after the run if nothing has woken it: `d`, plus the attempts
      that queued, minus the unlocks. */
  function Depth(s: System, d: nat, ops: seq<Op>): int {
    if ops == [] then d else Depth(s, d, ops[..|ops| - 1]) + Shift(Run(s, ops[..|ops| - 1]), ops[|ops| - 1])
  }

  /** In no prefix of the run do the unlocks exceed `d` plus the attempts that queued. */
  ghost predicate NeverReached(s: System, d: nat, ops: seq<Op>) {
    Depth(s, d, ops) >= 0 && (ops == [] || NeverReached(s, d, ops[..|ops| - 1]))
  }

  /** `t` is asleep after every prefix of the run. */
  ghost predicate SleepsThrough(s: System, t: nat, ops: seq<Op>) {
    PhaseOf(Run(s, ops).phases, t) == Asleep && (ops == [] || SleepsThrough(s, t, ops[..|ops| - 1]))
  }

  lemma {:induction false} SleeperStep(s: System, t: nat, d: nat, op: Op)
    requires Invariant(s) && Enabled(s, op) && d < |s.waiters| && s.waiters[d] == t
    ensures var s' := Apply(s, op);
            var d' := d + Shift(s, op);
            if d' >= 0 then d' < |s'.waiters| && s'.waiters[d'] == t && PhaseOf(s'.phases, t) == Asleep
            else PhaseOf(s'.phases, t) == Woken
  {
    assert s.waiters[d] in s.waiters;
  }

  lemma {:induction false} Sleeping(s: System, d: nat)
    requires Invariant(s) && d < |s.waiters|
    ensures PhaseOf(s.phases, s.waiters[d]) == Asleep
  {
    assert s.waiters[d] in s.waiters;
  }

  /** When a sleeper is served: it sleeps through a run exactly if no unlock of the run finds it first in
      the queue, that is, if the unlocks never exceed its place plus the attempts queued in front. */
  lemma {:induction false} SleepsThroughIff(s: System, t: nat, d: nat, ops: seq<Op>)
    requires Invariant(s) && Legal(s, ops) && d < |s.waiters| && s.waiters[d] == t
    ensures Invariant(Run(s, ops))
    ensures SleepsThrough(s, t, ops) <==> NeverReached(s, d, ops)
    ensures SleepsThrough(s, t, ops) ==>
              Depth(s, d, ops) < |Run(s, ops).waiters| && Run(s, ops).waiters[Depth(s, d, ops)] == t
  {
    hide Invariant, Apply, Enabled, Shift;
    if ops == [] {
      Sleeping(s, d);
    } else {
      var before, op := ops[..|ops| - 1], ops[|ops| - 1];
      SleepsThroughIff(s, t, d, before);
      StepKeeps(Run(s, before), op);
      if SleepsThrough(s, t, before) {
        SleeperStep(Run(s, before), t, Depth(s, d, before), op);
      }
    }
  }

  /** Two tasks passing the mutex back and forth over a sleeper. */
  function Bypass(n: nat): seq<Op> {
    if n == 0 then [Call(1), Attempt(1), Call(2), Attempt(2)]
    else if n % 2 == 1 then Bypass(n - 1) + [Call(3), Attempt(3), Unlock(1), Attempt(3)]
    else Bypass(n - 1) + [Call(1), Attempt(1), Unlock(3), Attempt(1)]
  }

  lemma {:induction false} RunAppend(s: System, xs: seq<Op>, op: Op)
    ensures Run(s, xs + [op]) == Apply(Run(s, xs), op)
    ensures Legal(s, xs + [op]) <==> Legal(s, xs) && Enabled(Run(s, xs), op)
  {
  }

  lemma {:induction false} RunFour(s: System, xs: seq<Op>, a: Op, b: Op, c: Op, d: Op)
    ensures var s0 := Run(s, xs);
            var s1 := Apply(s0, a);
            var s2 := Apply(s1, b);
            var s3 := Apply(s2, c);
            Run(s, xs + [a, b, c, d]) == Apply(s3, d) &&
            (Legal(s, xs) && Enabled(s0, a) && Enabled(s1, b) && Enabled(s2, c) && Enabled(s3, d) ==>
             Legal(s, xs + [a, b, c, d]))
  {
    RunAppend(s, xs, a);
    RunAppend(s, xs + [a], b);
    RunAppend(s, xs + [a] + [b], c);
    RunAppend(s, xs + [a] + [b] + [c], d);
    assert xs + [a, b, c, d] == xs + [a] + [b] + [c] + [d];
  }

  /** Task `a` holds the mutex, `b` is outside and 2 is the only sleeper. */
  ghost predicate Standoff(s: System, a: nat, b: nat) {
    s.locked && s.owner == a && s.waiters == [2] && s.blocked == {2} &&
    PhaseOf(s.phases, 2) == Asleep && PhaseOf(s.phases, a) == Holding && PhaseOf(s.phases, b) == Outside
  }

  lemma {:induction false} BypassStart()
    ensures Legal(START, Bypass(0)) && Standoff(Run(START, Bypass(0)), 1, 3)
  {
    RunFour(START, [], Call(1), Attempt(1), Call(2), Attempt(2));
    assert [] + Bypass(0) == Bypass(0);
  }

  lemma {:induction false} PassOver(s: System, a: nat, b: nat)
    requires Standoff(s, a, b) && a != b && a != 2 && b != 2
    ensures var s1 := Apply(s, Call(b));
            var s2 := Apply(s1, Attempt(b));
            var s3 := Apply(s2, Unlock(a));
            Enabled(s, Call(b)) && Enabled(s1, Attempt(b)) && Enabled(s2, Unlock(a)) && Enabled(s3, Attempt(b)) &&
            Standoff(Apply(s3, Attempt(b)), b, a)
  {
  }

  /** Sleepers are not served in order of arrival: for every `n` there is a legal run in which others
      take the mutex `n` more times while the task that slept first is still asleep. */
  lemma {:induction false} SleeperCanBePassed(n: nat)
    ensures Legal(START, Bypass(n))
    ensures Standoff(Run(START, Bypass(n)), if n % 2 == 1 then 3 else 1, if n % 2 == 1 then 1 else 3)
  {
    hide Apply, Enabled, Run, Legal, Standoff;
    if n == 0 {
      BypassStart();
    } else {
      SleeperCanBePassed(n - 1);
      var s := Run(START, Bypass(n - 1));
      if n % 2 == 1 {
        RunFour(START, Bypass(n - 1), Call(3), Attempt(3), Unlock(1), Attempt(3));
        PassOver(s, 1, 3);
      } else {
        RunFour(START, Bypass(n - 1), Call(1), Attempt(1), Unlock(3), Attempt(1));
        PassOver(s, 3, 1);
      }
    }
  }

  // ---- the object ----

  /** The mutex object; `blocked` stands for the tasks whose state is Blocked on its account. */
  class Lock {
    var locked: bool
    var owner: nat
    var waiters: seq<nat>
    var blocked: set<nat>
    ghost var phases: map<nat, Phase>

    ghost function Contents(): System
      reads this
    {
      System(locked, owner, waiters, blocked, phases)
    }

    constructor ()
      ensures Contents() == START
    {
      locked, owner, waiters, blocked, phases := false, 0, [], {}, map[];
    }

    /** One turn of the retry loop of `lock`: takes the mutex, or sleeps until woken. */
    method TryOnce(me: nat) returns (taken: bool)
      requires Invariant(Contents()) && Enabled(Contents(), Attempt(me))
      modifies this
      ensures Contents() == Apply(old(Contents()), Attempt(me)) && Invariant(Contents())
      ensures taken == !old(locked) && taken == (PhaseOf(phases, me) == Holding)
      ensures !taken ==> me in blocked
    {
      StepKeeps(Contents(), Attempt(me));
      if !locked {
        locked, owner := true, me;
        phases := phases[me := Holding];
        return true;
      }
      waiters := [me] + waiters;
      blocked := blocked + {me};
      phases := phases[me := Asleep];
      return false;
    }

    method Unlock(ghost me: nat) returns (woken: seq<nat>)
      requires Invariant(Contents()) && Enabled(Contents(), Op.Unlock(me))
      modifies this
      ensures Contents() == Apply(old(Contents()), Op.Unlock(me)) && Invariant(Contents())
      ensures woken + waiters == old(waiters) && |woken| == if old(waiters) == [] then 0 else 1
      ensures blocked == old(blocked) - set t | t in woken
    {
      StepKeeps(Contents(), Op.Unlock(me));
      locked, owner := false, 0;
      phases := phases[me := Outside];
      woken := [];
      if waiters != [] {
        var w := waiters[0];
        waiters := waiters[1..];
        blocked := blocked - {w};
        phases := phases[w := Woken];
        woken := [w];
      }
    }

    method TryLock(me: nat) returns (taken: bool)
      requires Invariant(Contents()) && Enabled(Contents(), Op.TryLock(me))
      modifies this
      ensures Contents() == Apply(old(Contents()), Op.TryLock(me)) && Invariant(Contents())
      ensures taken == !old(locked) && taken == (PhaseOf(phases, me) == Holding)
    {
      StepKeeps(Contents(), Op.TryLock(me));
      if !locked {
        locked, owner := true, me;
        phases := phases[me := Holding];
        return true;
      }
      return false;
    }
  }
}
