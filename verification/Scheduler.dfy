/** The scheduler on its linked lists. */
module Scheduler {
  import opened RunQueue

  type Links = map<Ref, Ref>

  function Follower(ring: seq<Ref>, i: nat): Ref {
    if i + 1 < |ring| then ring[i + 1] else if ring != [] then ring[0] else NULL
  }

  /** The links lead round the ring and back to its first task. */
  ghost predicate IsRing(next: Links, ring: seq<Ref>) {
    forall i :: 0 <= i < |ring| ==> ring[i] in next && next[ring[i]] == Follower(ring, i)
  }

  function After(q: seq<Ref>, i: nat): Ref { if i + 1 < |q| then q[i + 1] else NULL }

  /** The links lead along the list to NULL. */
  ghost predicate IsList(next: Links, q: seq<Ref>) {
    forall i :: 0 <= i < |q| ==> q[i] in next && next[q[i]] == After(q, i)
  }

  function Head(q: seq<Ref>): Ref { if q == [] then NULL else q[0] }

  // ---- the links under each change ----

  lemma {:induction false} EnqueuedRing(next: Links, ring: seq<Ref>, t: Ref)
    requires IsRing(next, ring) && t !in ring && ring != [] && Distinct(ring)
    ensures IsRing(next[t := next[ring[0]]][ring[0] := t], Enqueued(ring, t))
  {
  }

  lemma {:induction false} OtherLinks(next: Links, next': Links, q: seq<Ref>)
    requires IsList(next, q)
    requires forall i :: 0 <= i < |q| ==> q[i] in next && q[i] in next' && next'[q[i]] == next[q[i]]
    ensures IsList(next', q)
  {
  }

  lemma {:induction false} ListTail(next: Links, q: seq<Ref>)
    requires IsList(next, q) && Distinct(q) && q != []
    ensures q[0] in next && next[q[0]] == Head(q[1..]) && IsList(next, q[1..]) && Distinct(q[1..])
  {
  }

  lemma {:induction false} SoleFollower(next: Links, ring: seq<Ref>, i: nat)
    requires IsRing(next, ring) && Distinct(ring) && i < |ring|
    ensures var v := Follower(ring, i); v in ring && v in next && (next[v] == v <==> |ring| == 1)
  {
  }

  lemma {:induction false} UnlinkedMembers(ring: seq<Ref>, v: Ref)
    requires Distinct(ring)
    ensures Distinct(Unlinked(ring, v)) && forall t :: t in Unlinked(ring, v) ==> t in ring
  {
  }

  /** Skipping the task behind `ring[i]`. */
  lemma {:induction false} UnlinkedRing(next: Links, ring: seq<Ref>, i: nat)
    requires IsRing(next, ring) && Distinct(ring) && 0 <= i < |ring| && |ring| > 1
    ensures var v := Follower(ring, i);
            v in next && v != ring[i] && v in ring &&
            IsRing(next[ring[i] := next[v]][v := NULL], Unlinked(ring, v))
  {
    var v, n := Follower(ring, i), |ring|;
    var next' := next[ring[i] := next[v]][v := NULL];
    var r := Unlinked(ring, v);
    if i == n - 1 {
      assert v == ring[0] && r == [ring[n - 1]] + ring[1..n - 1];
      forall j | 0 <= j < |r| ensures r[j] in next' && next'[r[j]] == Follower(r, j) {
        assert j > 0 ==> r[j] == ring[j];
      }
    } else {
      assert v == ring[i + 1] && IndexOf(ring, v) == i + 1;
      assert r == ring[..i + 1] + ring[i + 2..];
      forall j | 0 <= j < |r| ensures r[j] in next' && next'[r[j]] == Follower(r, j) {
        assert r[j] == ring[if j <= i then j else j + 1];
      }
    }
  }

  /** The links are those of the ring and of the list of zombies, which share no task. */
  ghost predicate ListsFit(next: Links, ring: seq<Ref>, zombies: seq<Ref>, tasks: set<Ref>) {
    IsRing(next, ring) && Distinct(ring) && NULL !in ring &&
    IsList(next, zombies) && Distinct(zombies) && NULL !in zombies &&
    (forall t :: t in ring ==> t in tasks && t !in zombies) && NULL !in tasks
  }

  lemma {:induction false} RotatedFit(next: Links, ring: seq<Ref>, zombies: seq<Ref>, tasks: set<Ref>, i: nat)
    requires ListsFit(next, ring, zombies, tasks) && i < |ring|
    ensures ListsFit(next, Rotate(ring, i), zombies, tasks) && Head(Rotate(ring, i)) == ring[i]
  {
  }

  lemma {:induction false} EnqueuedHead(ring: seq<Ref>, t: Ref, next': Links)
    ensures Head(Enqueued(ring, t)) == if ring == [] then t else ring[0]
    ensures ring == [] && t in next' && next'[t] == t ==> IsRing(next', Enqueued(ring, t))
  {
  }

  lemma {:induction false} EnqueuedFit(next: Links, ring: seq<Ref>, zombies: seq<Ref>, tasks: set<Ref>, t: Ref,
                                       next': Links)
    requires ListsFit(next, ring, zombies, tasks) && t in tasks && t !in ring && t !in zombies && t != NULL
    requires next' == if ring == [] then next[t := t] else next[t := next[ring[0]]][ring[0] := t]
    ensures ListsFit(next', Enqueued(ring, t), zombies, tasks)
    ensures Head(Enqueued(ring, t)) == if ring == [] then t else ring[0]
  {
    EnqueuedKeeps(ring, t);
    if ring != [] {
      EnqueuedRing(next, ring, t);
      assert ring[0] in ring;
    }
    hide Distinct, Enqueued;
    assert IsList(next', zombies) by {
      hide IsRing;
      OtherLinks(next, next', zombies);
    }
    EnqueuedHead(ring, t, next');
    hide IsList, IsRing;
  }

  lemma {:induction false} UnlinkedFit(next: Links, ring: seq<Ref>, zombies: seq<Ref>, tasks: set<Ref>, i: nat, v: Ref,
                                       next': Links)
    requires ListsFit(next, ring, zombies, tasks) && i < |ring| && v == Follower(ring, i) && v in next && v !in zombies
    requires next' == (if |ring| == 1 then next else next[ring[i] := next[v]])[v := NULL]
    ensures ListsFit(next', Unlinked(ring, v), zombies, tasks)
    ensures Head(Unlinked(ring, v)) == if |ring| == 1 then NULL else if ring[0] == v then ring[i] else ring[0]
  {
    UnlinkedMembers(ring, v);
    assert ring[i] in ring && ring[0] in ring;
    OtherLinks(next, next', zombies);
    if |ring| > 1 {
      UnlinkedRing(next, ring, i);
      assert v == ring[0] ==> i == |ring| - 1;
      assert v == ring[if i + 1 < |ring| then i + 1 else 0];
    }
    hide IsList, IsRing;
  }

  /** A dispatch in the order the fields are set. */
  lemma {:induction false} DispatchSteps(info: Infos, prev: Ref, nxt: Ref)
    requires prev in info && nxt in info && prev != nxt
    ensures var info1 := if info[prev].state == Running then info[prev := info[prev].(state := Ready)] else info;
            var info2 := info1[nxt := info1[nxt].(state := Running)];
            info2[nxt := info2[nxt].(slice := info2[nxt].quantum)] == Dispatched(info, prev, nxt)
    ensures Dispatched(info, prev, nxt).Keys == info.Keys
  {
  }

  lemma {:induction false} InvariantFacts(s: Sched)
    requires Invariant(s)
    ensures Settled(s.ring, s.current, s.info) && s.current in s.info && s.ring != [] && s.ring[0] == s.current
  {
  }

  lemma {:induction false} LiveInRing(s: Sched, t: Ref)
    requires Invariant(s) && t in s.info && s.info[t].state != Dead
    ensures t in s.ring
  {
  }

  lemma {:induction false} NotListed(s: Sched, t: Ref)
    requires Invariant(s) && t !in s.info
    ensures t !in s.ring && t !in s.zombies
  {
  }

  lemma {:induction false} BlockedSettled(s: Sched)
    requires Invariant(s) && s.current != IDLE
    ensures s.current in s.info && Settled(s.ring, s.current, WithState(s.info, s.current, Blocked))
  {
  }

  lemma {:induction false} NullIsNoTask(next: Links, ring: seq<Ref>, zombies: seq<Ref>, tasks: set<Ref>)
    requires ListsFit(next, ring, zombies, tasks)
    ensures NULL !in tasks
  {
  }

  /** One step round the ring. */
  lemma {:induction false} RingStep(next: Links, ring: seq<Ref>, zombies: seq<Ref>, tasks: set<Ref>, i: nat)
    requires ListsFit(next, ring, zombies, tasks) && i < |ring|
    ensures ring[i] in next && ring[i] in tasks && next[ring[i]] == Follower(ring, i)
    ensures (next[ring[i]] == ring[0] <==> i == |ring| - 1) && Distinct(ring)
  {
  }

  lemma {:induction false} ReparentedNone(info: Infos, dead: Ref)
    ensures Reparented(info, [], dead) == info
  {
  }

  lemma {:induction false} ReparentedStep(info: Infos, ring: seq<Ref>, dead: Ref, i: nat)
    requires i < |ring| && ring[i] in info && Distinct(ring)
    ensures var p := Reparented(info, ring[..i], dead);
            ring[i] in p && p[ring[i]] == info[ring[i]] && p.Keys == info.Keys &&
            Reparented(info, ring[..i + 1], dead) ==
            if info[ring[i]].parent == dead then p[ring[i] := p[ring[i]].(parent := INIT_TID)] else p
  {
  }

  lemma {:induction false} PushedFit(next: Links, ring: seq<Ref>, zombies: seq<Ref>, tasks: set<Ref>, t: Ref)
    requires ListsFit(next, ring, zombies, tasks) && t !in ring && t !in zombies && t != NULL
    ensures ListsFit(next[t := Head(zombies)], ring, [t] + zombies, tasks)
  {
  }

  lemma {:induction false} NotAlsoDead(s: Sched)
    requires Invariant(s)
    ensures s.current !in s.zombies
  {
  }

  lemma {:induction false} MoreTasks(next: Links, ring: seq<Ref>, zombies: seq<Ref>, tasks: set<Ref>, tasks': set<Ref>)
    requires ListsFit(next, ring, zombies, tasks) && tasks <= tasks' && NULL !in tasks'
    ensures ListsFit(next, ring, zombies, tasks')
  {
  }

  lemma {:induction false} FirstIs(q: seq<Ref>, info: Infos, k: nat)
    requires k <= |q| && (k < |q| ==> Runnable(info, q[k]))
    requires forall j :: 0 <= j < k ==> !Runnable(info, q[j])
    ensures FirstRunnable(q, info) == k
  {
  }

  class Queue {
    var runQueue: Ref
    var current: Ref
    var zombieHead: Ref
    var preempt: nat
    var info: Infos
    var next: Links
    /** The tasks handed back to the heap, in order. */
    var freed: seq<Ref>
    ghost var ring: seq<Ref>
    ghost var zombies: seq<Ref>

    ghost function Contents(): Sched
      reads this
    {
      Sched(ring, current, info, zombies, freed, preempt)
    }

    /** The lists in memory are the ring and the zombies, which share no task. */
    ghost predicate Linked()
      reads this
    {
      ListsFit(next, ring, zombies, info.Keys) && runQueue == Head(ring) && zombieHead == Head(zombies)
    }

    ghost predicate Valid()
      reads this
    {
      Linked() && Invariant(Contents())
    }

    method Enqueue(t: Ref)
      requires Linked() && t in info && t !in ring && t !in zombies && t != NULL
      modifies `runQueue, `next, `ring
      ensures Linked() && ring == Enqueued(old(ring), t)
    {
      EnqueuedFit(next, ring, zombies, info.Keys, t,
                  if ring == [] then next[t := t] else next[t := next[ring[0]]][ring[0] := t]);
      if runQueue == NULL {
        next := next[t := t];
        runQueue := t;
      } else {
        next := next[t := next[runQueue]];
        next := next[runQueue := t];
      }
      ring := Enqueued(ring, t);
    }

    /** The place of the task before `victim`, or of the last one. */
    method FindBefore(victim: Ref) returns (prev: Ref, ghost i: nat)
      requires Linked() && ring != []
      ensures i < |ring| && prev == ring[i] && (victim in ring ==> Follower(ring, i) == victim)
      ensures victim !in ring ==> i == |ring| - 1
    {
      prev, i := runQueue, 0;
      while next[prev] != victim && next[prev] != runQueue
        invariant i < |ring| && prev == ring[i]
        invariant forall j :: 0 < j <= i ==> ring[j] != victim
        decreases |ring| - i
      {
        prev, i := next[prev], i + 1;
      }
    }

    method UnlinkTask(victim: Ref)
      requires Linked() && victim !in zombies
      modifies `runQueue, `next, `ring
      ensures Linked() && ring == Unlinked(old(ring), victim)
      ensures victim in old(ring) ==> victim in next && next[victim] == NULL
    {
      if runQueue == NULL || victim == NULL {
        return;
      }
      var prev, i := FindBefore(victim);
      if next[prev] != victim {
        return;
      }
      SoleFollower(next, ring, i);
      UnlinkedFit(next, ring, zombies, info.Keys, i, victim,
                  (if |ring| == 1 then next else next[ring[i] := next[victim]])[victim := NULL]);
      hide ListsFit, Unlinked;
      if next[victim] == victim {
        runQueue := NULL;
      } else {
        next := next[prev := next[victim]];
        if runQueue == victim {
          runQueue := prev;
        }
      }
      next := next[victim := NULL];
      ring := Unlinked(ring, victim);
    }

    method PickNext() returns (t: Ref)
      requires Linked() && ring != []
      ensures t == Pick(ring, info)
    {
      var start := runQueue;
      t := next[start];
      ghost var i: nat := 0;
      ghost var q := Candidates(ring);
      var go := true;
      while go
        invariant i <= |q| && (go ==> i < |q| && t == q[i])
        invariant !go ==> i == |q|
        invariant forall j :: 0 <= j < i ==> !Runnable(info, q[j])
        decreases |q| - i
      {
        if t in info && (info[t].state == Ready || info[t].state == Running) {
          FirstIs(q, info, i);
          return;
        }
        t, i := next[t], i + 1;
        go := t != start;
      }
      FirstIs(q, info, i);
      t := IDLE;
    }

    method DoSwitch(nxt: Ref)
      requires Linked() && nxt in ring && current in info
      modifies `runQueue, `current, `info, `ring
      ensures Linked() && Contents() == SwitchTo(old(Contents()), nxt)
    {
      hide ListsFit, Rotate, IndexOf, Dispatched;
      if nxt == current {
        return;
      }
      var prev := current;
      RotatedFit(next, ring, zombies, info.Keys, IndexOf(ring, nxt));
      RingStep(next, ring, zombies, info.Keys, IndexOf(ring, nxt));
      DispatchSteps(info, prev, nxt);
      if info[prev].state == Running {
        info := info[prev := info[prev].(state := Ready)];
      }
      info := info[nxt := info[nxt].(state := Running)];
      info := info[nxt := info[nxt].(slice := info[nxt].quantum)];
      runQueue, current := nxt, nxt;
      ring := Rotate(ring, IndexOf(ring, nxt));
    }

    method ReapZombies()
      requires Linked()
      modifies `zombieHead, `freed, `zombies
      ensures Linked() && Contents() == Reaped(old(Contents()))
    {
      ghost var all := zombies;
      hide IsRing, IsList, Distinct;
      while zombieHead != NULL
        invariant Linked() && freed + zombies == old(freed) + all
        invariant forall t :: t in zombies ==> t in all
        decreases |zombies|
      {
        ListTail(next, zombies);
        var dead := zombieHead;
        zombieHead := next[dead];
        freed := freed + [dead];
        zombies := zombies[1..];
      }
    }

    /** Scans for the next task and switches to it. */
    method Reschedule()
      requires Linked() && Settled(ring, current, info) && current in info
      modifies `runQueue, `current, `info, `ring
      ensures Linked() && Contents() == Dispatch(old(Contents()))
    {
      PickIsRunnable(ring, info);
      assert ring != [];
      hide ListsFit, Settled, Pick, SwitchTo;
      var t := PickNext();
      DoSwitch(t);
    }

    constructor ()
      ensures Valid() && Contents() == START
    {
      runQueue, current, zombieHead, preempt := IDLE, IDLE, NULL, 0;
      info := map[IDLE := Info(Running, 0, 1, 1)];
      next := map[IDLE := IDLE];
      freed, ring, zombies := [], [IDLE], [];
    }

    method Spawn(t: Ref, parent: int, quantum: nat)
      requires Valid() && Enabled(Contents(), Op.Spawn(t, parent, quantum))
      modifies this
      ensures Valid() && Contents() == Spawned(old(Contents()), t, parent, quantum)
    {
      hide ListsFit, Invariant, Enqueued;
      SpawnKeeps(Contents(), t, parent, quantum);
      NotListed(Contents(), t);
      NullIsNoTask(next, ring, zombies, info.Keys);
      MoreTasks(next, ring, zombies, info.Keys, info.Keys + {t});
      info := info[t := Info(Ready, parent, quantum, quantum)];
      assert info.Keys == old(info.Keys) + {t};
      Enqueue(t);
    }

    method SetSlice(n: nat)
      requires Valid()
      modifies `info
      ensures Valid() && Contents() == WithSlice(old(Contents()), n)
    {
      hide Invariant, ListsFit, Settled;
      SliceKeeps(Contents(), n);
      InvariantFacts(Contents());
      info := info[current := info[current].(slice := n)];
      assert info.Keys == old(info.Keys);
    }

    method Tick()
      requires Valid()
      modifies this
      ensures Valid() && Contents() == Ticked(old(Contents()))
    {
      hide Invariant, ListsFit, Dispatch, Reaped, WithSlice, Settled;
      TickKeeps(Contents());
      ReapKeeps(Contents());
      ReapZombies();
      InvariantFacts(Contents());
      NullIsNoTask(next, ring, zombies, info.Keys);
      if current == NULL {
        return;
      }
      if info[current].slice > 0 {
        SetSlice(info[current].slice - 1);
        InvariantFacts(Contents());
      }
      if info[current].slice == 0 && preempt == 0 {
        Reschedule();
      }
    }

    method Yield()
      requires Valid()
      modifies this
      ensures Valid() && Contents() == Yielded(old(Contents()))
    {
      hide Invariant, ListsFit, Dispatch, Reaped, WithSlice, Settled;
      TickKeeps(Contents());
      ReapKeeps(Contents());
      ReapZombies();
      SetSlice(0);
      InvariantFacts(Contents());
      Reschedule();
    }

    method BlockCurrent()
      requires Valid() && current != IDLE
      modifies this
      ensures Valid()
      ensures Contents() == Dispatch(old(Contents()).(info := WithState(old(info), old(current), Blocked)))
    {
      hide Invariant, ListsFit, Dispatch, Settled;
      BlockKeeps(Contents());
      BlockedSettled(Contents());
      info := info[current := info[current].(state := Blocked)];
      assert info.Keys == old(info.Keys);
      Reschedule();
    }

    method Wake(t: Ref)
      requires Valid() && (t == NULL || t in info)
      modifies this
      ensures Valid() && Contents() == Woken(old(Contents()), t)
    {
      hide ListsFit, Invariant, Settled, SwitchTo;
      NullIsNoTask(next, ring, zombies, info.Keys);
      InvariantFacts(Contents());
      WakeKeeps(Contents(), t);
      if t == NULL || info[t].state != Blocked {
        return;
      }
      LiveInRing(Contents(), t);
      info := info[t := info[t].(state := Ready)];
      assert info.Keys == old(info.Keys);
      if current == IDLE {
        DoSwitch(t);
      }
    }

    /** Gives the children of `dead` to the first task. */
    method Reparent(dead: Ref)
      requires Linked() && ring != []
      modifies `info
      ensures Linked() && info == Reparented(old(info), ring, dead) && info.Keys == old(info.Keys)
    {
      hide ListsFit, Reparented, Distinct;
      ReparentedNone(info, dead);
      assert ring[..0] == [];
      ghost var tasks := info.Keys;
      var t, start := runQueue, runQueue;
      ghost var i: nat := 0;
      var go := true;
      while go
        invariant i <= |ring| && (go ==> i < |ring| && t == ring[i]) && (!go ==> i == |ring|)
        invariant info == Reparented(old(info), ring[..i], dead)
        invariant info.Keys == tasks && ListsFit(next, ring, zombies, tasks)
        decreases |ring| - i
      {
        RingStep(next, ring, zombies, tasks, i);
        ReparentedStep(old(info), ring, dead, i);
        if info[t].parent == dead {
          info := info[t := info[t].(parent := INIT_TID)];
        }
        t, i := next[t], i + 1;
        go := t != start;
      }
      assert ring[..i] == ring;
    }

    /** Makes the parent of `dead` ready if it sleeps. */
    method WakeParent(dead: Ref)
      requires Linked() && ring != [] && dead in info
      modifies `info
      ensures Linked() && info == ParentWoken(old(info), ring, dead) && info.Keys == old(info.Keys)
    {
      hide ListsFit, Distinct;
      if info[dead].parent == 0 {
        return;
      }
      ghost var tasks := info.Keys;
      var parent := info[dead].parent;
      var t, start := runQueue, runQueue;
      ghost var i: nat := 0;
      var go := true;
      while go
        invariant i <= |ring| && (go ==> i < |ring| && t == ring[i]) && (!go ==> i == |ring|)
        invariant info == old(info) && ListsFit(next, ring, zombies, tasks)
        invariant parent in ring[..i] ==> parent in info && info[parent].state != Blocked
        decreases |ring| - i
      {
        RingStep(next, ring, zombies, tasks, i);
        if t == parent && info[t].state == Blocked {
          info := info[t := info[t].(state := Ready)];
          assert info.Keys == tasks;
          return;
        }
        assert ring[..i + 1] == ring[..i] + [t];
        t, i := next[t], i + 1;
        go := t != start;
      }
      assert ring[..i] == ring;
    }

    method Exit()
      requires Valid() && current != IDLE
      modifies this
      ensures Valid() && Contents() == Dispatch(Died(old(Contents()))) && zombies == [old(current)] + old(zombies)
    {
      hide Invariant, ListsFit, Settled, Dispatch, Reparented, ParentWoken, Unlinked;
      ExitKeeps(Contents());
      DiedSettled(Contents());
      InvariantFacts(Contents());
      NotAlsoDead(Contents());
      NullIsNoTask(next, ring, zombies, info.Keys);
      var dead := current;
      info := info[dead := info[dead].(state := Dead)];
      assert info.Keys == old(info.Keys);
      Reparent(dead);
      WakeParent(dead);
      UnlinkTask(dead);
      PushedFit(next, ring, zombies, info.Keys, dead);
      next := next[dead := zombieHead];
      zombieHead := dead;
      zombies := [dead] + zombies;
      Reschedule();
    }

    method PreemptDisable()
      requires Valid()
      modifies `preempt
      ensures Valid() && Contents() == old(Contents()).(preempt := old(preempt) + 1)
    {
      PreemptKeeps(Contents(), preempt + 1);
      hide Invariant, ListsFit;
      preempt := preempt + 1;
    }

    method PreemptEnable()
      requires Valid()
      modifies `preempt
      ensures Valid() && Contents() == old(Contents()).(preempt := if old(preempt) > 0 then old(preempt) - 1 else 0)
    {
      PreemptKeeps(Contents(), if preempt > 0 then preempt - 1 else 0);
      hide Invariant, ListsFit;
      if preempt > 0 {
        preempt := preempt - 1;
      }
    }
  }
}
