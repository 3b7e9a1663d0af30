/** Reference counts with delayed destruction (common/sh_ref.c), as sh_switch.c, sh_elf.c and sh_task.c use them:
    no use after destroy, over all interleavings.

    An operation finds an object in its container and counts a reference in one critical section, locks the object,
    and, if nobody destroyed it before, may remove it from the container, stamp it and queue it; then it unlocks and
    drops its reference. Queued objects are destroyed by whichever thread queues next. */
module Ref {
  type Id = nat

  datatype Phase = Found | Locked | Removed | Stamped | Queued | Unlocked

  datatype Op = Op(obj: Id, phase: Phase)

  datatype Lock = Free | Held(op: nat)

  datatype Obj = Obj(count: int, stamped: bool, lock: Lock)

  datatype State = State(
    container: set<Id>,
    objs: map<Id, Obj>,
    ops: map<nat, Op>,
    queue: seq<Id>,   // sh_ref_mgr_t.queue
    dying: seq<Id>,   // taken off the queue by some thread, not yet destroyed
    freed: seq<Id>)   // the history of destroy calls

  datatype Action =
    | Create(op: nat, obj: Id)  // find_with_create, when nothing is found
    | Find(op: nat, obj: Id)
    | Evict(op: nat, obj: Id)   // free_after_dlclose: removed and counted at once
    | TakeLock(op: nat)
    | Remove(op: nat)
    | Stamp(op: nat)
    | Enqueue(op: nat, ripe: nat)
    | Destroy(index: nat)
    | Unlock(op: nat)
    | Drop(op: nat)

  predicate InPhase(s: State, op: nat, phase: Phase) {
    op in s.ops && s.ops[op].phase == phase && s.ops[op].obj in s.objs
  }

  /** When an action can happen. Only `Remove` and later steps depend on is_destroyed, which they test under the lock. */
  predicate Enabled(s: State, a: Action) {
    match a
    case Create(op, x) => op !in s.ops && x !in s.objs
    case Find(op, x) => op !in s.ops && x in s.container && x in s.objs
    case Evict(op, x) => op !in s.ops && x in s.container && x in s.objs
    case TakeLock(op) => InPhase(s, op, Found) && s.objs[s.ops[op].obj].lock == Free
    case Remove(op) => InPhase(s, op, Locked) && !s.objs[s.ops[op].obj].stamped
    case Stamp(op) => InPhase(s, op, Removed)
    case Enqueue(op, ripe) => InPhase(s, op, Stamped) && ripe <= |s.queue| + 1
    case Destroy(i) => i < |s.dying|
    case Unlock(op) => InPhase(s, op, Locked) || InPhase(s, op, Queued)
    case Drop(op) => InPhase(s, op, Unlocked)
  }

  function SetPhase(s: State, op: nat, phase: Phase): State
    requires op in s.ops
  {
    s.(ops := s.ops[op := s.ops[op].(phase := phase)])
  }

  function Count(s: State, x: Id, delta: int): State
    requires x in s.objs
  {
    s.(objs := s.objs[x := s.objs[x].(count := s.objs[x].count + delta)])
  }

  /** The scan of sh_ref_delayed_destroy, on the counts at that moment. */
  function Unreferenced(objs: map<Id, Obj>, ids: seq<Id>, wanted: bool): seq<Id> {
    if ids == [] then []
    else Unreferenced(objs, ids[..|ids| - 1], wanted)
         + var x := ids[|ids| - 1];
           if (x in objs && objs[x].count == 0) == wanted then [x] else []
  }

  function Step(s: State, a: Action): State
    requires Enabled(s, a)
  {
    match a
    case Create(op, x) =>
      s.(container := s.container + {x}, objs := s.objs[x := Obj(1, false, Free)], ops := s.ops[op := Op(x, Found)])
    case Find(op, x) => Count(s.(ops := s.ops[op := Op(x, Found)]), x, 1)
    case Evict(op, x) => Count(s.(container := s.container - {x}, ops := s.ops[op := Op(x, Found)]), x, 1)
    case TakeLock(op) =>
      var x := s.ops[op].obj;
      SetPhase(s, op, Locked).(objs := s.objs[x := s.objs[x].(lock := Held(op))])
    case Remove(op) => SetPhase(s, op, Removed).(container := s.container - {s.ops[op].obj})
    case Stamp(op) =>
      var x := s.ops[op].obj;
      SetPhase(s, op, Stamped).(objs := s.objs[x := s.objs[x].(stamped := true)])
    case Enqueue(op, ripe) =>
      var all := s.queue + [s.ops[op].obj];
      SetPhase(s, op, Queued).(
        queue := Unreferenced(s.objs, all[..ripe], false) + all[ripe..],
        dying := s.dying + Unreferenced(s.objs, all[..ripe], true))
    case Destroy(i) => s.(dying := s.dying[..i] + s.dying[i + 1..], freed := s.freed + [s.dying[i]])
    case Unlock(op) =>
      var x := s.ops[op].obj;
      SetPhase(s, op, Unlocked).(objs := s.objs[x := s.objs[x].(lock := Free)])
    case Drop(op) => Count(s.(ops := s.ops - {op}), s.ops[op].obj, -1)
  }

  /** Whether the delay of a queued object is over. */
  predicate IsRipe(destroyTs: nat, now: nat, delaySec: nat) {
    delaySec == 0 || (now > destroyTs && now - destroyTs > delaySec)
  }

  /** sh_ref_mgr_t. */
  class RefManager {
    var queue: seq<Id>
    const delaySec: nat

    constructor (delaySec: nat)
      ensures queue == [] && this.delaySec == delaySec
    {
      this.delaySec := delaySec;
      queue := [];
    }

    /** The critical section of sh_ref_delayed_destroy: what an `Enqueue` step does to the queue. The scan stops at
        the first object that is not ripe; the ripe ones without references are handed over for destruction. */
    method Enqueue(self: Id, objs: map<Id, Obj>, destroyTs: Id -> nat, now: nat) returns (abandoned: seq<Id>, ripe: nat)
      modifies this`queue
      ensures var all := old(queue) + [self];
              && ripe <= |all|
              && (forall i | 0 <= i < ripe :: IsRipe(destroyTs(all[i]), now, delaySec))
              && (ripe < |all| ==> !IsRipe(destroyTs(all[ripe]), now, delaySec))
              && abandoned == Unreferenced(objs, all[..ripe], true)
              && queue == Unreferenced(objs, all[..ripe], false) + all[ripe..]
    {
      queue := queue + [self];
      ghost var all := queue;
      abandoned := [];
      var kept := [];
      ripe := 0;
      while ripe < |queue|
            && (delaySec == 0 || (now > destroyTs(queue[ripe]) && now - destroyTs(queue[ripe]) > delaySec))
        invariant 0 <= ripe <= |queue| && queue == all
        invariant abandoned == Unreferenced(objs, all[..ripe], true) && kept == Unreferenced(objs, all[..ripe], false)
        invariant forall i | 0 <= i < ripe :: IsRipe(destroyTs(all[i]), now, delaySec)
      {
        assert all[..ripe + 1][..ripe] == all[..ripe];
        if queue[ripe] in objs && objs[queue[ripe]].count == 0 {
          abandoned := abandoned + [queue[ripe]];
        } else {
          kept := kept + [queue[ripe]];
        }
        ripe := ripe + 1;
      }
      queue := kept + queue[ripe..];
    }
  }

  predicate Critical(phase: Phase) {
    phase != Found && phase != Unlocked
  }

  function Holders(s: State, x: Id): set<nat> {
    set op | op in s.ops && s.ops[op].obj == x
  }

  /** Everything that was queued, wherever it is now. */
  function Gone(s: State): seq<Id> {
    s.queue + s.dying + s.freed
  }

  predicate Distinct(ids: seq<Id>) {
    forall i, j | 0 <= i < j < |ids| :: ids[i] != ids[j]
  }

  ghost predicate CountsOk(s: State) {
    forall x | x in s.objs :: s.objs[x].count == |Holders(s, x)|
  }

  ghost predicate LocksOk(s: State) {
    && (forall op | op in s.ops :: s.ops[op].obj in s.objs)
    && (forall op | op in s.ops :: Critical(s.ops[op].phase) <==> s.objs[s.ops[op].obj].lock == Held(op))
    && (forall x | x in s.objs && s.objs[x].lock.Held? ::
          s.objs[x].lock.op in s.ops && s.ops[s.objs[x].lock.op].obj == x)
  }

  ghost predicate PlacesOk(s: State) {
    && Distinct(Gone(s))
    && s.container <= s.objs.Keys
    && (forall x | x in Gone(s) :: x in s.objs && s.objs[x].stamped)
    && (forall x | x in s.container :: !s.objs[x].stamped)
  }

  ghost predicate PhasesOk(s: State) {
    && (forall op | op in s.ops && s.ops[op].phase in {Removed, Stamped, Queued} :: s.ops[op].obj !in s.container)
    && (forall op | op in s.ops && s.ops[op].phase == Removed && s.ops[op].obj in s.objs :: !s.objs[s.ops[op].obj].stamped)
    && (forall op | op in s.ops && s.ops[op].phase == Stamped :: s.ops[op].obj !in Gone(s))
    && (forall op | op in s.ops && s.ops[op].phase == Stamped && s.ops[op].obj in s.objs :: s.objs[s.ops[op].obj].stamped)
  }

  /** What is about to be destroyed or was destroyed has no references left. */
  ghost predicate DeadOk(s: State) {
    && (forall x | x in s.dying :: x in s.objs && s.objs[x].count == 0)
    && (forall x | x in s.freed :: x in s.objs && s.objs[x].count == 0)
  }

  ghost predicate Inv(s: State) {
    CountsOk(s) && LocksOk(s) && PlacesOk(s) && PhasesOk(s) && DeadOk(s)
  }

  const EMPTY := State({}, map[], map[], [], [], [])

  ghost predicate Run(trace: seq<State>, actions: seq<Action>) {
    && |trace| == |actions| + 1 && trace[0] == EMPTY
    && forall i | 0 <= i < |actions| :: Enabled(trace[i], actions[i]) && trace[i + 1] == Step(trace[i], actions[i])
  }

  // Holders of an object, before and after a step.

  lemma NewHolder(s: State, t: State, op: nat, x: Id)
    requires op !in s.ops && t.ops == s.ops[op := Op(x, Found)]
    ensures |Holders(t, x)| == |Holders(s, x)| + 1
    ensures forall y | y != x :: Holders(t, y) == Holders(s, y)
  {
    assert Holders(t, x) == Holders(s, x) + {op};
    forall y | y != x ensures Holders(t, y) == Holders(s, y) {
    }
  }

  lemma SameHolders(s: State, t: State, op: nat, phase: Phase)
    requires op in s.ops && t.ops == s.ops[op := s.ops[op].(phase := phase)]
    ensures forall y :: Holders(t, y) == Holders(s, y)
  {
    forall y ensures Holders(t, y) == Holders(s, y) {
    }
  }

  lemma LostHolder(s: State, t: State, op: nat)
    requires op in s.ops && t.ops == s.ops - {op}
    ensures var x := s.ops[op].obj; |Holders(t, x)| == |Holders(s, x)| - 1
    ensures forall y | y != s.ops[op].obj :: Holders(t, y) == Holders(s, y)
  {
    var x := s.ops[op].obj;
    assert Holders(s, x) == Holders(t, x) + {op};
    forall y | y != x ensures Holders(t, y) == Holders(s, y) {
    }
  }

  /** An object with a holder has a positive count, so it is not about to be destroyed. */
  lemma HeldIsAlive(s: State, op: nat)
    requires Inv(s) && op in s.ops
    ensures s.objs[s.ops[op].obj].count > 0
    ensures s.ops[op].obj !in s.dying && s.ops[op].obj !in s.freed
  {
    assert op in Holders(s, s.ops[op].obj);
  }

  lemma CountsKept(s: State, a: Action)
    requires Inv(s) && Enabled(s, a)
    ensures CountsOk(Step(s, a))
  {
    var t := Step(s, a);
    match a
    case Create(op, x) =>
      assert Holders(s, x) == {};
      NewHolder(s, t, op, x);
    case Find(op, x) => NewHolder(s, t, op, x);
    case Evict(op, x) => NewHolder(s, t, op, x);
    case TakeLock(op) => SameHolders(s, t, op, Locked);
    case Remove(op) => SameHolders(s, t, op, Removed);
    case Stamp(op) => SameHolders(s, t, op, Stamped);
    case Enqueue(op, _) => SameHolders(s, t, op, Queued);
    case Destroy(_) => assert forall x :: Holders(t, x) == Holders(s, x);
    case Unlock(op) => SameHolders(s, t, op, Unlocked);
    case Drop(op) => LostHolder(s, t, op);
  }

  lemma LocksKept(s: State, a: Action)
    requires Inv(s) && Enabled(s, a)
    ensures LocksOk(Step(s, a))
  {
    hide CountsOk, PlacesOk, PhasesOk, DeadOk, Unreferenced, Holders, Gone, Distinct;
  }

  // The scan only splits the queue.

  lemma {:induction false} SiftedIds(objs: map<Id, Obj>, ids: seq<Id>, wanted: bool)
    requires Distinct(ids)
    ensures Distinct(Unreferenced(objs, ids, wanted))
    ensures forall x :: x in Unreferenced(objs, ids, wanted)
                        <==> x in ids && (x in objs && objs[x].count == 0) == wanted
    decreases |ids|
  {
    if ids != [] {
      SiftedIds(objs, ids[..|ids| - 1], wanted);
      assert ids == ids[..|ids| - 1] + [ids[|ids| - 1]];
    }
  }

  lemma DistinctParts(a: seq<Id>, b: seq<Id>)
    ensures Distinct(a + b) <==> Distinct(a) && Distinct(b) && forall x | x in a :: x !in b
  {
    var ab := a + b;
    if Distinct(ab) {
      assert forall i: nat | i < |a| :: ab[i] == a[i];
      assert forall j: nat | j < |b| :: ab[|a| + j] == b[j];
      forall i, j | 0 <= i < |a| && 0 <= j < |b| ensures a[i] != b[j] {
        assert ab[i] != ab[|a| + j];
      }
      forall i, j | 0 <= i < j < |b| ensures b[i] != b[j] {
        assert ab[|a| + i] != ab[|a| + j];
      }
    } else {
      var i, j :| 0 <= i < j < |ab| && ab[i] == ab[j];
      if j < |a| {
        assert a[i] == a[j];
      } else if i >= |a| {
        assert b[i - |a|] == b[j - |a|];
      } else {
        assert a[i] in b by {
          assert b[j - |a|] == a[i];
        }
      }
    }
  }

  /** After a scan everything is still in exactly one place, and what was picked had no references. */
  lemma ScanSplits(objs: map<Id, Obj>, all: seq<Id>, ripe: nat, others: seq<Id>)
    requires ripe <= |all| && Distinct(all + others)
    ensures var kept := Unreferenced(objs, all[..ripe], false) + all[ripe..];
            var picked := Unreferenced(objs, all[..ripe], true);
            && Distinct(kept + picked + others)
            && (forall x :: x in kept || x in picked <==> x in all)
            && (forall x | x in picked :: x in objs && objs[x].count == 0)
  {
    var front, back := all[..ripe], all[ripe..];
    assert all == front + back;
    DistinctParts(all, others);
    DistinctParts(front, back);
    SiftedIds(objs, front, false);
    SiftedIds(objs, front, true);
    var kept0 := Unreferenced(objs, front, false);
    var picked := Unreferenced(objs, front, true);
    DistinctParts(kept0, back);
    DistinctParts(kept0 + back, picked);
    DistinctParts(kept0 + back + picked, others);
  }

  /** The places after the step that queues an object. */
  lemma EnqueuePlaces(s: State, op: nat, ripe: nat)
    requires Inv(s) && Enabled(s, Enqueue(op, ripe))
    ensures var t := Step(s, Enqueue(op, ripe));
            && Distinct(Gone(t))
            && (forall x :: x in Gone(t) <==> x in Gone(s) || x == s.ops[op].obj)
            && (forall x | x in t.dying && x !in s.dying :: x in s.objs && s.objs[x].count == 0)
  {
    var self := s.ops[op].obj;
    var all := s.queue + [self];
    var others := s.dying + s.freed;
    assert Gone(s) == s.queue + others;
    DistinctParts(s.queue, others);
    DistinctParts(s.queue, [self]);
    DistinctParts(all, others);
    ScanSplits(s.objs, all, ripe, others);
    var kept := Unreferenced(s.objs, all[..ripe], false) + all[ripe..];
    var picked := Unreferenced(s.objs, all[..ripe], true);
    var t := Step(s, Enqueue(op, ripe));
    Reordered(kept, picked, s.dying, s.freed);
    assert Gone(t) == kept + (s.dying + picked) + s.freed;
  }

  lemma Reordered(a: seq<Id>, b: seq<Id>, c: seq<Id>, d: seq<Id>)
    requires Distinct(a + b + (c + d))
    ensures Distinct(a + (c + b) + d)
  {
    assert forall x :: x in a + b <==> x in a || x in b;
    assert forall x :: x in c + d <==> x in c || x in d;
    assert forall x :: x in c + b <==> x in c || x in b;
    DistinctParts(a + b, c + d);
    DistinctParts(a, b);
    DistinctParts(c, d);
    DistinctParts(c, b);
    DistinctParts(a, c + b);
    assert forall x :: x in a + (c + b) <==> x in a || x in c || x in b;
    DistinctParts(a + (c + b), d);
  }

  lemma DestroyPlaces(s: State, i: nat)
    requires Inv(s) && i < |s.dying|
    ensures var t := Step(s, Destroy(i));
            Distinct(Gone(t)) && (forall x :: x in Gone(t) <==> x in Gone(s)) && (forall x | x in t.dying :: x in s.dying)
  {
    var x := s.dying[i];
    var before, after := s.dying[..i], s.dying[i + 1..];
    assert s.dying == before + [x] + after;
    assert Gone(s) == s.queue + (before + [x] + after) + s.freed;
    DistinctParts(s.queue + (before + [x] + after), s.freed);
    DistinctParts(s.queue, before + [x] + after);
    DistinctParts(before + [x], after);
    DistinctParts(before, [x]);
    DistinctParts(before, after);
    DistinctParts(s.queue, before + after);
    DistinctParts(s.freed, [x]);
    DistinctParts(s.queue + (before + after), s.freed + [x]);
  }

  lemma GoneAfter(s: State, a: Action)
    requires Inv(s) && Enabled(s, a)
    ensures var t := Step(s, a);
            && Distinct(Gone(t))
            && (forall x :: x in Gone(t) <==> x in Gone(s) || (a.Enqueue? && x == s.ops[a.op].obj))
  {
    hide CountsOk, DeadOk, Unreferenced, Gone, Distinct, LocksOk;
    var t := Step(s, a);
    match a
    case Enqueue(op, ripe) => EnqueuePlaces(s, op, ripe);
    case Destroy(i) => DestroyPlaces(s, i);
    case _ => SameGone(s, t);
  }

  lemma PlacesKept(s: State, a: Action)
    requires Inv(s) && Enabled(s, a)
    ensures PlacesOk(Step(s, a))
  {
    hide CountsOk, DeadOk, Unreferenced, Gone, Distinct;
    GoneAfter(s, a);
  }

  lemma PhasesKept(s: State, a: Action)
    requires Inv(s) && Enabled(s, a)
    ensures PhasesOk(Step(s, a))
  {
    hide CountsOk, DeadOk, Unreferenced, Gone, Distinct;
    GoneAfter(s, a);
  }

  lemma SameGone(s: State, t: State)
    requires t.queue == s.queue && t.dying == s.dying && t.freed == s.freed
    ensures Gone(t) == Gone(s)
  {
  }

  lemma ContainedIsNotGone(s: State, x: Id)
    requires Inv(s) && x in s.container
    ensures x !in s.dying && x !in s.freed
  {
    hide Distinct;
    assert forall y | y in s.dying || y in s.freed :: y in Gone(s);
  }

  lemma DeadKept(s: State, a: Action)
    requires Inv(s) && Enabled(s, a)
    ensures DeadOk(Step(s, a))
  {
    hide Unreferenced, Distinct, Holders, CountsOk, LocksOk, PlacesOk, PhasesOk, Gone;
    match a
    case Find(_, x) => ContainedIsNotGone(s, x);
    case Evict(_, x) => ContainedIsNotGone(s, x);
    case Enqueue(op, ripe) => EnqueuePlaces(s, op, ripe);
    case Destroy(i) => DestroyPlaces(s, i);
    case Drop(op) => HeldIsAlive(s, op);
    case _ =>
  }

  lemma InvKept(s: State, a: Action)
    requires Inv(s) && Enabled(s, a)
    ensures Inv(Step(s, a))
  {
    CountsKept(s, a);
    LocksKept(s, a);
    PlacesKept(s, a);
    PhasesKept(s, a);
    DeadKept(s, a);
  }

  lemma {:induction false} InvReached(trace: seq<State>, actions: seq<Action>, i: nat)
    requires Run(trace, actions) && i < |trace|
    ensures Inv(trace[i])
    decreases i
  {
    hide Inv, Step;
    if i == 0 {
      EmptyIsFine();
    } else {
      InvReached(trace, actions, i - 1);
      InvKept(trace[i - 1], actions[i - 1]);
    }
  }

  lemma EmptyIsFine()
    ensures Inv(EMPTY)
  {
  }

  /** In every reachable state an object is queued at most once and destroyed at most once, nobody holds a reference
      to what was destroyed or is about to be, and no destroyed object can be found again. */
  lemma NoUseAfterDestroy(trace: seq<State>, actions: seq<Action>, i: nat)
    requires Run(trace, actions) && i < |trace|
    ensures var s := trace[i];
            && Distinct(s.queue + s.dying + s.freed)
            && (forall op | op in s.ops :: s.ops[op].obj !in s.dying && s.ops[op].obj !in s.freed)
            && (forall x | x in s.queue + s.dying + s.freed :: x !in s.container)
  {
    InvReached(trace, actions, i);
    var s := trace[i];
    forall op | op in s.ops ensures s.ops[op].obj !in s.dying && s.ops[op].obj !in s.freed {
      HeldIsAlive(s, op);
    }
    assert Gone(s) == s.queue + s.dying + s.freed;
  }

  /** Once an object has left its container it never comes back, and its count only falls. */
  lemma CountFallsOutside(s: State, a: Action, x: Id)
    requires Enabled(s, a) && x in s.objs && x !in s.container
    ensures x !in Step(s, a).container && Step(s, a).objs[x].count <= s.objs[x].count
  {
  }

  /** No step of a thread touches an object that was destroyed, and none destroys an object twice. */
  lemma StepsTouchLiveObjects(s: State, a: Action)
    requires Inv(s) && Enabled(s, a)
    ensures !a.Destroy? && !a.Create? && !a.Find? && !a.Evict? ==> s.ops[a.op].obj !in s.freed
    ensures (a.Find? || a.Evict?) ==> a.obj !in s.freed
    ensures a.Destroy? ==> s.dying[a.index] !in s.freed
  {
    if a.Destroy? {
      DistinctParts(s.queue + s.dying, s.freed);
      assert s.dying[a.index] in s.queue + s.dying;
    } else if a.Find? || a.Evict? {
      ContainedIsNotGone(s, a.obj);
    } else if !a.Create? {
      HeldIsAlive(s, a.op);
    }
  }
}
