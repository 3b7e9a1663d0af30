/** The counter of unfinished tasks (sh_task.c), which lets the linker callbacks return early.

    Threads register tasks (sh_task_do) and undo them (sh_task_undo_and_destroy) at any time; the linker runs one
    callback at a time, which finishes pending tasks (sh_task_try_pending) or makes finished ones pending again when
    their library was unloaded (sh_task_dl_fini_post). Every access to shared data is a step of its own. */
module Task {
  type Id = nat

  datatype Holder = Nobody | Callback | Undo

  datatype Task = Task(
    registered: bool,  // in sh_tasks
    finished: bool,
    destroyed: bool,
    lock: Holder,
    counted: bool)  // has its share in sh_tasks_unfinished_cnt (not a field of the original: bookkeeping of the proof)

  datatype Kind = DlInit | DlFini

  datatype Owner = Free | By(task: Id)

  datatype CallbackState =
    | Idle
    | Running(kind: Kind, matched: set<Id>, waiting: set<Id>)
    | Inside(kind: Kind, matched: set<Id>, waiting: set<Id>, task: Id, flagged: bool)

  datatype State = State(
    tasks: map<Id, Task>,
    unfinishedCnt: int,
    listOwner: Owner,  // the task whose sh_task_do is between insertion and counting, if any
    callback: CallbackState,
    undone: set<Id>)  // undos between their counter update and their end

  datatype Action =
    | Insert(x: Id, finished: bool)
    | CountInserted(x: Id)
    | Match(kind: Kind, matched: set<Id>)
    | EnterTask(x: Id)
    | SkipDestroyed
    | Flag
    | CountFlagged
    | EndCallback
    | Unregister(x: Id)
    | LockForUndo(x: Id)
    | CountUndone(x: Id)
    | EndUndo(x: Id)

  const EMPTY := State(map[], 0, Free, Idle, {})

  predicate Pending(t: Task) {
    t.registered && !t.finished
  }

  predicate Enabled(s: State, a: Action) {
    match a
    case Insert(x, _) => x !in s.tasks && s.listOwner == Free
    case CountInserted(x) => s.listOwner == By(x) && x in s.tasks
    case Match(kind, matched) =>
      s.callback.Idle? && s.listOwner == Free
      && forall x | x in matched :: x in s.tasks && s.tasks[x].registered && s.tasks[x].finished == kind.DlFini?
    case EnterTask(x) => s.callback.Running? && x in s.callback.waiting && x in s.tasks && s.tasks[x].lock == Nobody
    case SkipDestroyed =>
      s.callback.Inside? && s.callback.task in s.tasks && !s.callback.flagged && s.tasks[s.callback.task].destroyed
    case Flag =>
      s.callback.Inside? && s.callback.task in s.tasks && !s.callback.flagged && !s.tasks[s.callback.task].destroyed
    case CountFlagged => s.callback.Inside? && s.callback.task in s.tasks && s.callback.flagged
    case EndCallback => s.callback.Running? && s.callback.waiting == {}
    case Unregister(x) => x in s.tasks && s.tasks[x].registered && s.listOwner == Free
    case LockForUndo(x) => x in s.tasks && !s.tasks[x].registered && !s.tasks[x].destroyed && s.tasks[x].lock == Nobody
    case CountUndone(x) => x in s.tasks && s.tasks[x].lock == Undo && x !in s.undone
    case EndUndo(x) => x in s.tasks && s.tasks[x].lock == Undo && x in s.undone
  }

  function With(s: State, x: Id, t: Task): State {
    s.(tasks := s.tasks[x := t])
  }

  function Step(s: State, a: Action): State
    requires Enabled(s, a)
  {
    match a
    case Insert(x, finished) =>
      With(s, x, Task(true, finished, false, Nobody, false)).(listOwner := if finished then Free else By(x))
    case CountInserted(x) =>
      With(s, x, s.tasks[x].(counted := true)).(unfinishedCnt := s.unfinishedCnt + 1, listOwner := Free)
    case Match(kind, matched) => s.(callback := Running(kind, matched, matched))
    case EnterTask(x) =>
      With(s, x, s.tasks[x].(lock := Callback)).(
        callback := Inside(s.callback.kind, s.callback.matched, s.callback.waiting - {x}, x, false))
    case SkipDestroyed => LeaveTask(s, s.tasks[s.callback.task])
    case Flag =>
      var x := s.callback.task;
      With(s, x, s.tasks[x].(finished := s.callback.kind.DlInit?)).(callback := s.callback.(flagged := true))
    case CountFlagged =>
      var t := s.tasks[s.callback.task];
      if s.callback.kind.DlInit?
      then LeaveTask(s, t.(counted := false)).(unfinishedCnt := s.unfinishedCnt - 1)
      else LeaveTask(s, t.(counted := true)).(unfinishedCnt := s.unfinishedCnt + 1)
    case EndCallback => s.(callback := Idle)
    case Unregister(x) => With(s, x, s.tasks[x].(registered := false))
    case LockForUndo(x) => With(s, x, s.tasks[x].(lock := Undo))
    case CountUndone(x) =>
      if s.tasks[x].finished then s.(undone := s.undone + {x})
      else With(s, x, s.tasks[x].(counted := false)).(undone := s.undone + {x}, unfinishedCnt := s.unfinishedCnt - 1)
    case EndUndo(x) => With(s, x, s.tasks[x].(destroyed := true, lock := Nobody)).(undone := s.undone - {x})
  }

  function LeaveTask(s: State, t: Task): State
    requires s.callback.Inside?
  {
    With(s, s.callback.task, t.(lock := Nobody)).(
      callback := Running(s.callback.kind, s.callback.matched, s.callback.waiting))
  }

  function Counted(s: State): set<Id> {
    set x | x in s.tasks && s.tasks[x].counted
  }

  /** Someone is between changing the task and changing the counter. */
  predicate InBetween(s: State, x: Id) {
    || s.listOwner == By(x)
    || x in s.undone
    || (s.callback.Inside? && s.callback.task == x && s.callback.flagged)
  }

  /** The tasks whose share the counter should hold. */
  function Unfinished(s: State): set<Id> {
    set x | x in s.tasks && !s.tasks[x].finished && !s.tasks[x].destroyed
  }

  ghost predicate CounterOk(s: State) {
    s.unfinishedCnt == |Counted(s)|
  }

  ghost predicate AgreeOk(s: State) {
    forall x | x in s.tasks && !InBetween(s, x) :: s.tasks[x].counted <==> !s.tasks[x].finished && !s.tasks[x].destroyed
  }

  ghost predicate InFlightOk(s: State) {
    && (s.listOwner.By? ==>
          var x := s.listOwner.task;
          x in s.tasks && !s.tasks[x].counted && !s.tasks[x].finished && s.tasks[x].registered)
    && (forall x | x in s.undone :: x in s.tasks && !s.tasks[x].counted && s.tasks[x].lock == Undo)
    && (s.callback.Inside? && s.callback.flagged ==>
          s.callback.task in s.tasks && s.tasks[s.callback.task].counted == s.callback.kind.DlInit?)
  }

  ghost predicate SharesOk(s: State) {
    AgreeOk(s) && InFlightOk(s)
  }

  ghost predicate LocksOk(s: State) {
    && (forall x | x in s.tasks && s.tasks[x].registered :: s.tasks[x].lock != Undo && !s.tasks[x].destroyed)
    && (forall x | x in s.tasks && s.tasks[x].destroyed :: s.tasks[x].lock != Undo)
    && (forall x | x in s.tasks && s.tasks[x].lock == Callback :: s.callback.Inside? && s.callback.task == x)
    && (s.callback.Inside? ==> s.callback.task in s.tasks && s.tasks[s.callback.task].lock == Callback)
    && (s.listOwner.By? && s.listOwner.task in s.tasks ==> s.tasks[s.listOwner.task].lock == Nobody)
  }

  /** Tasks that wait for the callback still are as the callback found them, unless they are undone meanwhile. */
  ghost predicate CallbackOk(s: State) {
    !s.callback.Idle? ==>
      var kind := s.callback.kind;
      && s.callback.waiting <= s.callback.matched
      && (forall x | x in s.callback.matched :: x in s.tasks)
      && (forall x | x in s.callback.waiting && x in s.tasks ::
            s.tasks[x].finished == kind.DlFini? && s.listOwner != By(x) && s.tasks[x].lock != Callback)
      && (s.callback.Inside? ==>
            && s.callback.task in s.callback.matched && s.callback.task !in s.callback.waiting
            && s.listOwner != By(s.callback.task) && s.callback.task !in s.undone
            && (s.callback.task in s.tasks ==>
                  s.tasks[s.callback.task].finished == (s.callback.flagged == kind.DlInit?)
                  && (s.callback.flagged ==> !s.tasks[s.callback.task].destroyed)))
      && (forall x | x in s.callback.matched - s.callback.waiting && x in s.tasks
            && !(s.callback.Inside? && s.callback.task == x) ::
            s.tasks[x].finished == kind.DlInit? || s.tasks[x].destroyed)
  }

  ghost predicate Inv(s: State) {
    CounterOk(s) && SharesOk(s) && LocksOk(s) && CallbackOk(s)
  }

  ghost predicate Run(trace: seq<State>, actions: seq<Action>) {
    && |trace| == |actions| + 1 && trace[0] == EMPTY
    && forall i | 0 <= i < |actions| :: Enabled(trace[i], actions[i]) && trace[i + 1] == Step(trace[i], actions[i])
  }

  lemma CountedChanges(s: State, t: State, x: Id)
    requires t.tasks.Keys == s.tasks.Keys + {x}
    requires forall y | y in s.tasks && y != x :: t.tasks[y].counted == s.tasks[y].counted
    ensures var before := x in s.tasks && s.tasks[x].counted;
            |Counted(t)| == |Counted(s)| - (if before then 1 else 0) + (if t.tasks[x].counted then 1 else 0)
  {
    var rest := Counted(s) - {x};
    assert Counted(t) - {x} == rest;
    WithOrWithout(Counted(s), x);
    WithOrWithout(Counted(t), x);
  }

  lemma WithOrWithout(ids: set<Id>, x: Id)
    ensures |ids| == |ids - {x}| + if x in ids then 1 else 0
  {
    if x in ids {
      assert ids == ids - {x} + {x};
    } else {
      assert ids == ids - {x};
    }
  }

  /** The task an action is about. */
  function Subject(s: State, a: Action): Id
    requires Enabled(s, a)
  {
    match a
    case Insert(x, _) => x
    case CountInserted(x) => x
    case EnterTask(x) => x
    case Unregister(x) => x
    case LockForUndo(x) => x
    case CountUndone(x) => x
    case EndUndo(x) => x
    case SkipDestroyed => s.callback.task
    case Flag => s.callback.task
    case CountFlagged => s.callback.task
    case Match(_, _) => 0
    case EndCallback => 0
  }

  lemma CounterKept(s: State, a: Action)
    requires Inv(s) && Enabled(s, a)
    ensures CounterOk(Step(s, a))
  {
    hide Counted, CallbackOk;
    var t := Step(s, a);
    if a.Match? || a.EndCallback? {
      assert t.tasks == s.tasks;
      SameCounted(s, t);
    } else {
      CountedChanges(s, t, Subject(s, a));
    }
  }

  lemma SameCounted(s: State, t: State)
    requires t.tasks == s.tasks
    ensures Counted(t) == Counted(s)
  {
  }

  predicate IsCallbackStep(a: Action) {
    a.Match? || a.EnterTask? || a.SkipDestroyed? || a.Flag? || a.CountFlagged? || a.EndCallback?
  }

  lemma AgreeKeptByCallback(s: State, a: Action)
    requires Inv(s) && Enabled(s, a) && IsCallbackStep(a)
    ensures AgreeOk(Step(s, a))
  {
    hide Counted, CounterOk;
    match a
    case Match(_, _) =>
    case EnterTask(_) =>
    case SkipDestroyed =>
    case Flag =>
    case CountFlagged =>
    case EndCallback =>
  }

  lemma AgreeKeptByThreads(s: State, a: Action)
    requires Inv(s) && Enabled(s, a) && !IsCallbackStep(a)
    ensures AgreeOk(Step(s, a))
  {
    hide Counted, CounterOk, CallbackOk;
    match a
    case Insert(_, _) =>
    case CountInserted(_) =>
    case Unregister(_) =>
    case LockForUndo(_) =>
    case CountUndone(_) =>
    case EndUndo(_) =>
  }

  lemma InFlightKeptByCallback(s: State, a: Action)
    requires Inv(s) && Enabled(s, a) && IsCallbackStep(a)
    ensures InFlightOk(Step(s, a))
  {
    hide Counted, CounterOk;
    match a
    case Match(_, _) =>
    case EnterTask(_) =>
    case SkipDestroyed =>
    case Flag =>
    case CountFlagged =>
    case EndCallback =>
  }

  lemma InFlightKeptByThreads(s: State, a: Action)
    requires Inv(s) && Enabled(s, a) && !IsCallbackStep(a)
    ensures InFlightOk(Step(s, a))
  {
    hide Counted, CounterOk, CallbackOk;
    match a
    case Insert(_, _) =>
    case CountInserted(_) =>
    case Unregister(_) =>
    case LockForUndo(_) =>
    case CountUndone(_) =>
    case EndUndo(_) =>
  }

  lemma WaitingIsCounted(s: State, x: Id)
    requires CallbackOk(s) && s.callback.Running? && x in s.callback.waiting && x in s.tasks
    ensures s.listOwner != By(x)
  {
  }

  lemma LocksKeptByCallback(s: State, a: Action)
    requires Inv(s) && Enabled(s, a) && IsCallbackStep(a)
    ensures LocksOk(Step(s, a))
  {
    hide Counted, CounterOk, SharesOk, CallbackOk;
    match a
    case Match(_, _) =>
    case EnterTask(x) => WaitingIsCounted(s, x);
    case SkipDestroyed =>
    case Flag =>
    case CountFlagged =>
    case EndCallback =>
  }

  lemma LocksKeptByThreads(s: State, a: Action)
    requires Inv(s) && Enabled(s, a) && !IsCallbackStep(a)
    ensures LocksOk(Step(s, a))
  {
    hide Counted, CounterOk, CallbackOk;
    match a
    case Insert(_, _) =>
    case CountInserted(_) =>
    case Unregister(_) =>
    case LockForUndo(_) =>
    case CountUndone(_) =>
    case EndUndo(_) =>
  }

  lemma CallbackKeptByCallback(s: State, a: Action)
    requires Inv(s) && Enabled(s, a) && IsCallbackStep(a)
    ensures CallbackOk(Step(s, a))
  {
    hide Counted, CounterOk;
    match a
    case Match(_, _) =>
    case EnterTask(_) =>
    case SkipDestroyed =>
    case Flag =>
    case CountFlagged =>
    case EndCallback =>
  }

  lemma CallbackKeptByThreads(s: State, a: Action)
    requires Inv(s) && Enabled(s, a) && !IsCallbackStep(a)
    ensures CallbackOk(Step(s, a))
  {
    hide Counted, CounterOk, SharesOk;
    match a
    case Insert(_, _) =>
    case CountInserted(_) =>
    case Unregister(_) =>
    case LockForUndo(_) =>
    case CountUndone(_) =>
    case EndUndo(_) =>
  }

  lemma InvKept(s: State, a: Action)
    requires Inv(s) && Enabled(s, a)
    ensures Inv(Step(s, a))
  {
    hide Step, Enabled, CounterOk, AgreeOk, InFlightOk, LocksOk, CallbackOk;
    CounterKept(s, a);
    if IsCallbackStep(a) {
      AgreeKeptByCallback(s, a);
      InFlightKeptByCallback(s, a);
      LocksKeptByCallback(s, a);
      CallbackKeptByCallback(s, a);
    } else {
      AgreeKeptByThreads(s, a);
      InFlightKeptByThreads(s, a);
      LocksKeptByThreads(s, a);
      CallbackKeptByThreads(s, a);
    }
  }

  lemma EmptyIsFine()
    ensures Inv(EMPTY)
  {
    assert Counted(EMPTY) == {};
  }

  lemma {:induction false} InvReached(trace: seq<State>, actions: seq<Action>, i: nat)
    requires Run(trace, actions) && i < |trace|
    ensures Inv(trace[i])
    decreases i
  {
    hide Inv, Step;
    if i == 0 {
      EmptyIsFine();
    } else {
      InvReached(trace, actions, i - 1);
      InvKept(trace[i - 1], actions[i - 1]);
    }
  }

  /** Whenever nobody is between changing a task and changing the counter, the counter is exactly the number of
      tasks that are neither finished nor undone. It is never negative. */
  lemma CounterIsExact(trace: seq<State>, actions: seq<Action>, i: nat)
    requires Run(trace, actions) && i < |trace|
    ensures trace[i].unfinishedCnt >= 0
    ensures (forall x :: !InBetween(trace[i], x)) ==> trace[i].unfinishedCnt == |Unfinished(trace[i])|
  {
    InvReached(trace, actions, i);
    var s := trace[i];
    if forall x :: !InBetween(s, x) {
      assert Counted(s) == Unfinished(s);
    }
  }

  lemma InBetweenOrCounted(s: State, y: Id)
    requires AgreeOk(s) && InFlightOk(s) && s.callback.Idle? && y in s.tasks
    ensures y in Counted(s) <==> s.listOwner != By(y) && y !in s.undone && !s.tasks[y].finished && !s.tasks[y].destroyed
  {
  }

  /** When a callback may start while `x` is registered and pending, its early return skips `x` exactly when the
      registration of `x` has not been counted yet and every other task is finished, undone or being undone. */
  lemma ShortcutSkips(trace: seq<State>, actions: seq<Action>, i: nat, x: Id)
    requires Run(trace, actions) && i < |trace| && trace[i].callback.Idle?
    requires x in trace[i].tasks && Pending(trace[i].tasks[x])
    ensures var s := trace[i];
            s.unfinishedCnt == 0
            <==> && s.listOwner == By(x)
                 && forall y | y in s.tasks && y != x :: s.tasks[y].finished || s.tasks[y].destroyed || y in s.undone
  {
    InvReached(trace, actions, i);
    var s := trace[i];
    hide Inv;
    forall y | y in s.tasks
      ensures y in Counted(s) <==> s.listOwner != By(y) && y !in s.undone && !s.tasks[y].finished && !s.tasks[y].destroyed
    {
      InBetweenOrCounted(s, y);
    }
    assert s.unfinishedCnt == |Counted(s)| && (|Counted(s)| == 0 <==> Counted(s) == {});
    if s.listOwner == By(x) && forall y | y in s.tasks && y != x :: s.tasks[y].finished || s.tasks[y].destroyed || y in s.undone {
      assert forall y :: y !in Counted(s);
    } else if s.listOwner != By(x) {
      PendingIsLocked(s, x);
      assert x in Counted(s);
    }
  }

  lemma PendingIsLocked(s: State, x: Id)
    requires Inv(s) && x in s.tasks && Pending(s.tasks[x])
    ensures x !in s.undone && !s.tasks[x].destroyed
  {
  }

  /** It can happen: a task is in the list before it is counted. */
  lemma InsertedBeforeCounted()
    ensures var trace := [EMPTY, Step(EMPTY, Insert(0, false))];
            && Run(trace, [Insert(0, false)])
            && trace[1].callback.Idle? && trace[1].unfinishedCnt == 0 && Pending(trace[1].tasks[0])
  {
  }

  /** When a callback ends, every task that it matched was finished (made pending again) by it or undone. */
  lemma CallbackServesAll(trace: seq<State>, actions: seq<Action>, i: nat, x: Id)
    requires Run(trace, actions) && i < |actions| && actions[i].EndCallback?
    requires trace[i].callback.Running? && x in trace[i].callback.matched
    ensures x in trace[i].tasks
    ensures trace[i].tasks[x].destroyed || trace[i].tasks[x].finished == trace[i].callback.kind.DlInit?
  {
    InvReached(trace, actions, i);
  }
}
