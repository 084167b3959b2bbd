/**
 The fixed-size thread pool of base/ThreadPool.cpp, from `start` up to `stop`:
 a bounded buffer between any number of producers, which call `run`, and
 `maxNum` workers, which execute `loop`. Producers are threads outside the pool.
 */
module ThreadPools {
  import opened Condition
  import opened Sequences

  type Task = nat

  /**
   `calls` maps each producer that sleeps or was woken inside `run` to the task
   it wants to hand in; `busy` holds the workers that are executing a task.
   `submitted` and `dispatched` record the tasks handed in and taken out, in
   lock order.
   */
  datatype State = State(
    maxNum: nat,
    workers: set<ThreadId>,
    tasks: seq<Task>,
    notFull: CondVar,
    notEmpty: CondVar,
    calls: map<ThreadId, Task>,
    busy: set<ThreadId>,
    submitted: seq<Task>,
    dispatched: seq<Task>)

  datatype Action =
    | Run(p: ThreadId, task: Task, wake: set<ThreadId>)  // a producer calls `run`
    | ResumeRun(p: ThreadId, wake: set<ThreadId>)        // a woken producer gets the mutex back
    | Take(w: ThreadId, wake: set<ThreadId>)             // a worker, idle or woken, gets the mutex in `loop`
    | Finish(w: ThreadId)                                // a worker's task returns
    | SpuriousProducer(p: ThreadId)
    | SpuriousWorker(w: ThreadId)

  function Init(workers: set<ThreadId>): State {
    State(|workers|, workers, [], IDLE, IDLE, map[], {}, [], [])
  }

  predicate IsFull(s: State) {
    |s.tasks| >= s.maxNum
  }

  predicate IsIdle(s: State, w: ThreadId) {
    w in s.workers && w !in s.busy && !s.notEmpty.Involves(w)
  }

  predicate Enabled(s: State, a: Action) {
    match a
    case Run(p, task, wake) => p !in s.workers && p !in s.calls && s.notEmpty.MaySignal(wake)
    case ResumeRun(p, wake) => p in s.notFull.notified && p in s.calls && s.notEmpty.MaySignal(wake)
    case Take(w, wake) => (IsIdle(s, w) || w in s.notEmpty.notified) && s.notFull.MaySignal(wake)
    case Finish(w) => w in s.busy
    case SpuriousProducer(p) => p in s.notFull.waiting
    case SpuriousWorker(w) => w in s.notEmpty.waiting
  }

  /** A pool without threads runs the task in the caller; otherwise one turn of the loop in `run`. */
  function AfterRunRegion(s: State, p: ThreadId, task: Task, wake: set<ThreadId>): State {
    if s.maxNum == 0 then
      s.(submitted := s.submitted + [task], dispatched := s.dispatched + [task])
    else if IsFull(s) then
      s.(notFull := s.notFull.Sleep(p), calls := s.calls[p := task])
    else
      s.(tasks := [task] + s.tasks,
         notFull := s.notFull.Leave(p),
         notEmpty := s.notEmpty.Wake(wake),
         calls := s.calls - {p},
         submitted := s.submitted + [task])
  }

  /** One turn of the inner loop of `loop`: sleep on an empty queue, or take the task at its back. */
  function AfterTakeRegion(s: State, w: ThreadId, wake: set<ThreadId>): State {
    if s.tasks == [] then
      s.(notEmpty := s.notEmpty.Sleep(w))
    else
      var last := |s.tasks| - 1;
      s.(tasks := s.tasks[..last],
         notEmpty := s.notEmpty.Leave(w),
         notFull := s.notFull.Wake(wake),
         busy := s.busy + {w},
         dispatched := s.dispatched + [s.tasks[last]])
  }

  function Apply(s: State, a: Action): State
    requires Enabled(s, a)
  {
    match a
    case Run(p, task, wake) => AfterRunRegion(s, p, task, wake)
    case ResumeRun(p, wake) => AfterRunRegion(s, p, s.calls[p], wake)
    case Take(w, wake) => AfterTakeRegion(s, w, wake)
    case Finish(w) => s.(busy := s.busy - {w})
    case SpuriousProducer(p) => s.(notFull := s.notFull.Wake({p}))
    case SpuriousWorker(w) => s.(notEmpty := s.notEmpty.Wake({w}))
  }

  ghost predicate IsRun(s: State, run: seq<Action>)
    decreases |run|
  {
    run == [] || (Enabled(s, run[0]) && IsRun(Apply(s, run[0]), run[1..]))
  }

  ghost function Exec(s: State, run: seq<Action>): State
    requires IsRun(s, run)
    decreases |run|
  {
    if run == [] then s else Exec(Apply(s, run[0]), run[1..])
  }

  // ---------------------------------------------------------------- invariant

  /** Where the threads are: nobody is in two places at once. */
  ghost predicate Placed(s: State) {
    && |s.workers| == s.maxNum
    && s.notEmpty.Consistent() && s.notFull.Consistent()
    && s.notEmpty.waiting + s.notEmpty.notified <= s.workers
    && s.busy <= s.workers
    && s.busy !! s.notEmpty.waiting + s.notEmpty.notified
    && s.notFull.waiting + s.notFull.notified == s.calls.Keys
    && s.calls.Keys !! s.workers
  }

  /** No wake-up is lost on either side. */
  ghost predicate Awake(s: State) {
    && s.notEmpty.Covers(|s.tasks|)
    && s.notFull.Covers(s.maxNum - |s.tasks|)
  }

  ghost predicate Ordered(s: State) {
    && |s.tasks| <= s.maxNum
    && s.submitted == s.dispatched + Reversed(s.tasks)
  }

  ghost predicate Inv(s: State) {
    Placed(s) && Awake(s) && Ordered(s)
  }

  lemma StepKeepsOrdered(s: State, a: Action)
    requires Ordered(s) && Enabled(s, a)
    ensures Ordered(Apply(s, a))
  {
    match a
    case Run(p, task, wake) => assert Reversed([task] + s.tasks) == Reversed(s.tasks) + [task];
    case ResumeRun(p, wake) => assert Reversed([s.calls[p]] + s.tasks) == Reversed(s.tasks) + [s.calls[p]];
    case Take(w, wake) =>
      if s.tasks != [] {
        var last := |s.tasks| - 1;
        assert Reversed(s.tasks) == [s.tasks[last]] + Reversed(s.tasks[..last]);
      }
    case _ =>
  }

  lemma StepKeepsAwake(s: State, a: Action)
    requires s.notEmpty.Consistent() && s.notFull.Consistent() && |s.tasks| <= s.maxNum
    requires Awake(s) && Enabled(s, a)
    ensures Awake(Apply(s, a))
  {
    var queued, room := |s.tasks|, s.maxNum - |s.tasks|;
    match a
    case Run(p, task, wake) =>
      SignalCovers(s.notEmpty, queued, wake);
      LeaveCovers(s.notFull, room, p);
    case ResumeRun(p, wake) =>
      SignalCovers(s.notEmpty, queued, wake);
      LeaveCovers(s.notFull, room, p);
    case Take(w, wake) =>
      SignalCovers(s.notFull, room, wake);
      LeaveCovers(s.notEmpty, queued, w);
    case Finish(w) =>
    case SpuriousProducer(p) => SpuriousCovers(s.notFull, room, {p});
    case SpuriousWorker(w) => SpuriousCovers(s.notEmpty, queued, {w});
  }

  lemma RunRegionKeepsPlaced(s: State, p: ThreadId, task: Task, wake: set<ThreadId>)
    requires Placed(s) && s.notEmpty.MaySignal(wake)
    requires p !in s.workers && p !in s.notFull.waiting
    ensures Placed(AfterRunRegion(s, p, task, wake))
  {
  }

  lemma StepKeepsPlaced(s: State, a: Action)
    requires Placed(s) && Enabled(s, a)
    ensures Placed(Apply(s, a))
  {
    match a
    case Run(p, task, wake) => RunRegionKeepsPlaced(s, p, task, wake);
    case ResumeRun(p, wake) => RunRegionKeepsPlaced(s, p, s.calls[p], wake);
    case _ =>
  }

  lemma {:induction false} RunKeepsInv(s: State, run: seq<Action>)
    requires Inv(s) && IsRun(s, run)
    ensures Inv(Exec(s, run))
    ensures Exec(s, run).maxNum == s.maxNum && Exec(s, run).workers == s.workers
    decreases |run|
  {
    if run != [] {
      StepKeepsPlaced(s, run[0]);
      StepKeepsAwake(s, run[0]);
      StepKeepsOrdered(s, run[0]);
      RunKeepsInv(Apply(s, run[0]), run[1..]);
    }
  }

  lemma StepKeepsInv(s: State, a: Action)
    requires Inv(s) && Enabled(s, a)
    ensures Inv(Apply(s, a))
  {
    StepKeepsPlaced(s, a);
    StepKeepsAwake(s, a);
    StepKeepsOrdered(s, a);
  }

  // ---------------------------------------------------- the calls of a run

  /** What a step hands in: the task of a call that finds room, at once or after waiting for it. */
  function HandedIn(s: State, a: Action): seq<Task>
    requires Enabled(s, a)
  {
    if s.maxNum > 0 && IsFull(s) then []
    else if a.Run? then [a.task]
    else if a.ResumeRun? then [s.calls[a.p]]
    else []
  }

  ghost function Submissions(s: State, run: seq<Action>): seq<Task>
    requires IsRun(s, run)
    decreases |run|
  {
    if run == [] then [] else HandedIn(s, run[0]) + Submissions(Apply(s, run[0]), run[1..])
  }

  lemma {:induction false} RunRecords(s: State, run: seq<Action>)
    requires IsRun(s, run)
    ensures Exec(s, run).submitted == s.submitted + Submissions(s, run)
    decreases |run|
  {
    if run != [] {
      RunRecords(Apply(s, run[0]), run[1..]);
      Regroup(s.submitted, HandedIn(s, run[0]), Submissions(Apply(s, run[0]), run[1..]));
    }
  }

  /** How often a run calls `run` with `task`. */
  function Calls(run: seq<Action>, task: Task): nat {
    if run == [] then 0 else (if run[0].Run? && run[0].task == task then 1 else 0) + Calls(run[1..], task)
  }

  /** The producers that sleep or were woken inside `run` with `task`. */
  function Inside(calls: map<ThreadId, Task>, task: Task): set<ThreadId> {
    set p | p in calls && calls[p] == task
  }

  lemma InsideGrows(calls: map<ThreadId, Task>, p: ThreadId, t: Task, task: Task)
    requires p !in calls
    ensures |Inside(calls[p := t], task)| == |Inside(calls, task)| + if t == task then 1 else 0
  {
    assert Inside(calls[p := t], task) == Inside(calls, task) + if t == task then {p} else {};
  }

  lemma InsideShrinks(calls: map<ThreadId, Task>, p: ThreadId, task: Task)
    requires p in calls
    ensures |Inside(calls - {p}, task)| == |Inside(calls, task)| - if calls[p] == task then 1 else 0
  {
    assert Inside(calls - {p}, task) == Inside(calls, task) - {p};
  }

  lemma StepKeepsCalls(s: State, a: Action, task: Task)
    requires Enabled(s, a) && (s.maxNum == 0 ==> s.calls == map[])
    ensures var s' := Apply(s, a);
      && |Inside(s'.calls, task)| + multiset(HandedIn(s, a))[task] ==
           |Inside(s.calls, task)| + (if a.Run? && a.task == task then 1 else 0)
      && s'.maxNum == s.maxNum && (s.maxNum == 0 ==> s'.calls == map[])
  {
    match a
    case Run(p, t, wake) =>
      if s.maxNum > 0 && IsFull(s) {
        InsideGrows(s.calls, p, t, task);
      } else {
        assert s.calls - {p} == s.calls;
      }
    case ResumeRun(p, wake) =>
      if IsFull(s) {
        assert s.calls[p := s.calls[p]] == s.calls;
      } else {
        InsideShrinks(s.calls, p, task);
      }
    case _ =>
  }

  lemma {:induction false} RunKeepsCalls(s: State, run: seq<Action>, task: Task)
    requires IsRun(s, run) && (s.maxNum == 0 ==> s.calls == map[])
    ensures multiset(Submissions(s, run))[task] + |Inside(Exec(s, run).calls, task)| ==
      Calls(run, task) + |Inside(s.calls, task)|
    ensures s.maxNum == 0 ==> Exec(s, run).calls == map[]
    decreases |run|
  {
    if run != [] {
      StepKeepsCalls(s, run[0], task);
      RunKeepsCalls(Apply(s, run[0]), run[1..], task);
    }
  }

  // ------------------------------------------------------------- main results

  /**
   In every run the queue respects its bound and hands tasks out in the order they
   came in: what was dispatched and what is queued, read from its back, are what was
   handed in.
   */
  lemma OrderAndCapacity(workers: set<ThreadId>, run: seq<Action>)
    requires IsRun(Init(workers), run)
    ensures var s := Exec(Init(workers), run);
      && |s.tasks| <= |workers|
      && s.dispatched + Reversed(s.tasks) == Submissions(Init(workers), run)
  {
    RunKeepsInv(Init(workers), run);
    RunRecords(Init(workers), run);
  }

  /**
   No call of `run` is lost or served twice: each has its task dispatched or queued
   once, or is still waiting for room with it.
   */
  lemma EveryCallOnce(workers: set<ThreadId>, run: seq<Action>, task: Task)
    requires IsRun(Init(workers), run)
    ensures var s := Exec(Init(workers), run);
      Calls(run, task) ==
        multiset(s.dispatched)[task] + multiset(s.tasks)[task] + |Inside(s.calls, task)|
  {
    OrderAndCapacity(workers, run);
    RunKeepsCalls(Init(workers), run, task);
    var s := Exec(Init(workers), run);
    assert Inside(map[], task) == {};
    ReversedMultiset(s.tasks);
    assert multiset(s.dispatched + Reversed(s.tasks)) == multiset(s.dispatched) + multiset(s.tasks);
  }

  lemma {:induction false} ReversedMultiset(s: seq<Task>)
    ensures multiset(Reversed(s)) == multiset(s)
  {
    if s != [] {
      ReversedMultiset(s[1..]);
      ReversedCons(s[0], s[1..]);
      assert s == [s[0]] + s[1..];
    }
  }

  /** In every run, while somebody sleeps there are enough woken threads for the work (or the room) there is. */
  lemma NoLostWakeup(workers: set<ThreadId>, run: seq<Action>)
    requires IsRun(Init(workers), run)
    ensures var s := Exec(Init(workers), run);
      && (s.notEmpty.waiting != {} ==> |s.tasks| <= |s.notEmpty.notified|)
      && (s.notFull.waiting != {} ==> |workers| - |s.tasks| <= |s.notFull.notified|)
  {
    RunKeepsInv(Init(workers), run);
  }

  ghost predicate SomeWorkerAwake(s: State) {
    exists w :: w in s.workers && w !in s.notEmpty.waiting
  }

  /**
   In every run, with any number of workers and producers and whatever threads
   barge in or wake up by mistake: while a task is queued a worker is awake, and
   while a producer is inside `run` a worker is awake or a producer has been woken.
   */
  lemma DeadlockFree(workers: set<ThreadId>, run: seq<Action>)
    requires IsRun(Init(workers), run)
    ensures var s := Exec(Init(workers), run);
      && (s.tasks != [] ==> SomeWorkerAwake(s))
      && (s.calls.Keys != {} ==> SomeWorkerAwake(s) || s.notFull.notified != {})
  {
    RunKeepsInv(Init(workers), run);
    RunKeepsCalls(Init(workers), run, 0);
    var s := Exec(Init(workers), run);
    InvIsDeadlockFree(s);
  }

  lemma InvIsDeadlockFree(s: State)
    requires Inv(s) && (s.maxNum == 0 ==> s.calls == map[])
    ensures s.tasks != [] ==> SomeWorkerAwake(s)
    ensures s.calls.Keys != {} ==> SomeWorkerAwake(s) || s.notFull.notified != {}
  {
    if !SomeWorkerAwake(s) {
      assert s.notEmpty.waiting == s.workers;
      assert s.notEmpty.notified == {};
      assert s.notFull.notified == {} ==> s.notFull.waiting == s.calls.Keys;
    }
  }

  /** What a call of `run` that finds room leaves behind, and when it finds none. */
  lemma RunMeans(s: State, p: ThreadId, task: Task, wake: set<ThreadId>)
    requires Inv(s) && s.notEmpty.MaySignal(wake)
    ensures var s' := AfterRunRegion(s, p, task, wake);
      if s.maxNum > 0 && IsFull(s) then
        |s'.tasks| == s.maxNum && p in s'.notFull.waiting
      else
        && s'.dispatched + Reversed(s'.tasks) == s.dispatched + Reversed(s.tasks) + [task]
        && (s.maxNum > 0 && s.notEmpty.waiting != {} ==> |s'.notEmpty.waiting| < |s.notEmpty.waiting|)
  {
    assert wake + (s.notEmpty.waiting - wake) == s.notEmpty.waiting;
    ReversedCons(task, s.tasks);
    Regroup(s.dispatched, Reversed(s.tasks), [task]);
  }

  /** A worker gets the oldest task that was handed in and not taken, and none only if there is none. */
  lemma TakeMeans(s: State, w: ThreadId, wake: set<ThreadId>)
    requires Inv(s)
    ensures var s' := AfterTakeRegion(s, w, wake);
      && (s.tasks == [] <==> s.dispatched == s.submitted)
      && s'.submitted == s.submitted
      && (s.tasks != [] ==> s'.dispatched <= s.submitted)
  {
    if s.tasks != [] {
      var last := |s.tasks| - 1;
      assert Reversed(s.tasks) == [s.tasks[last]] + Reversed(s.tasks[..last]);
      assert |s.submitted| > |s.dispatched|;
    }
  }

  /** A worker whose task has returned may take the next one. */
  lemma FinishMeans(s: State, w: ThreadId)
    requires Inv(s) && w in s.busy
    ensures IsIdle(Apply(s, Finish(w)), w)
    ensures forall wake :: s.notFull.MaySignal(wake) ==> Enabled(Apply(s, Finish(w)), Take(w, wake))
  {
  }

  // ------------------------------------------------------- the pool in memory

  class ThreadPool {
    const maxNum: nat
    ghost const workers: set<ThreadId>
    var tasks: seq<Task>
    var notFull: CondVar
    var notEmpty: CondVar
    /** The argument of `run`, on the stack of each producer that sleeps or was woken in it. */
    var calls: map<ThreadId, Task>
    ghost var busy: set<ThreadId>
    ghost var submitted: seq<Task>
    ghost var dispatched: seq<Task>

    ghost function View(): State
      reads this
    {
      State(maxNum, workers, tasks, notFull, notEmpty, calls, busy, submitted, dispatched)
    }

    ghost predicate Valid()
      reads this
    {
      Inv(View())
    }

    constructor (ghost workers: set<ThreadId>, num: nat)
      requires |workers| == num
      ensures Valid() && View() == Init(workers)
    {
      this.maxNum, this.workers := num, workers;
      tasks, notFull, notEmpty := [], IDLE, IDLE;
      calls, busy, submitted, dispatched := map[], {}, [], [];
    }

    predicate Full()
      reads this
    {
      |tasks| >= maxNum
    }

    /** A producer is new in `run`, or was woken in it. */
    ghost function RunStep(p: ThreadId, task: Task, wake: set<ThreadId>): Action
      reads this
    {
      if p in calls then ResumeRun(p, wake) else Run(p, task, wake)
    }

    lemma RunStepIsRegion(p: ThreadId, task: Task, wake: set<ThreadId>)
      requires Valid() && Enabled(View(), RunStep(p, task, wake))
      requires p in calls ==> calls[p] == task
      ensures Apply(View(), RunStep(p, task, wake)) == AfterRunRegion(View(), p, task, wake)
      ensures Inv(AfterRunRegion(View(), p, task, wake)) && notEmpty.MaySignal(wake)
    {
      hide Inv;
      StepKeepsInv(View(), RunStep(p, task, wake));
    }

    /**
     From entering `run`, or coming back from `_notFull.wait()`, until the mutex is
     given up. `done` when the call returns: its task is then the youngest of all handed
     in. Otherwise every place is taken and the producer sleeps with its task.
     */
    method RunRegion(p: ThreadId, task: Task, wake: set<ThreadId>) returns (done: bool)
      requires Valid() && Enabled(View(), RunStep(p, task, wake))
      requires p in calls ==> calls[p] == task
      modifies this
      ensures Valid() && View() == Apply(old(View()), old(RunStep(p, task, wake)))
      ensures done ==> dispatched + Reversed(tasks) == old(dispatched + Reversed(tasks)) + [task]
      ensures done && maxNum > 0 && old(notEmpty.waiting) != {} ==> |notEmpty.waiting| < |old(notEmpty.waiting)|
      ensures !done ==> p in notFull.waiting && calls[p] == task && |tasks| == maxNum
      ensures !done ==> tasks == old(tasks) && dispatched == old(dispatched)
    {
      hide Inv, Apply, Enabled;
      RunStepIsRegion(p, task, wake);
      RunMeans(View(), p, task, wake);
      done := maxNum == 0 || !Full();
      if maxNum == 0 {
        submitted, dispatched := submitted + [task], dispatched + [task];
      } else if Full() {
        notFull := notFull.Sleep(p);
        calls := calls[p := task];
      } else {
        notFull := notFull.Leave(p);
        calls := calls - {p};
        tasks := [task] + tasks;
        submitted := submitted + [task];
        notEmpty := notEmpty.Wake(wake);
      }
    }

    /**
     From taking the mutex in `loop`, or coming back from `_notEmpty.wait()`, until it
     is given up. The task is the oldest one handed in that nobody has taken; the
     worker goes to sleep only when all have been.
     */
    method TakeRegion(w: ThreadId, wake: set<ThreadId>) returns (task: Option<Task>)
      requires Valid() && Enabled(View(), Take(w, wake))
      modifies this
      ensures Valid() && View() == Apply(old(View()), Take(w, wake)) && submitted == old(submitted)
      ensures task.None? <==> old(dispatched) == submitted
      ensures task.None? ==> w in notEmpty.waiting && dispatched == submitted
      ensures task.Some? ==> w in busy && dispatched == old(dispatched) + [task.value] && dispatched <= submitted
    {
      hide Inv;
      StepKeepsInv(View(), Take(w, wake));
      TakeMeans(View(), w, wake);
      if |tasks| == 0 {
        notEmpty := notEmpty.Sleep(w);
        return None;
      }
      notEmpty := notEmpty.Leave(w);
      task := Some(tasks[|tasks| - 1]);
      dispatched := dispatched + [tasks[|tasks| - 1]];
      tasks := tasks[..|tasks| - 1];
      busy := busy + {w};
      notFull := notFull.Wake(wake);
    }

    /** A task returns, and its worker may take the next one. */
    ghost method Finish(w: ThreadId)
      requires Valid() && w in busy
      modifies this`busy
      ensures Valid() && View() == Apply(old(View()), Action.Finish(w))
      ensures IsIdle(View(), w) && dispatched == old(dispatched)
    {
      hide Inv;
      FinishMeans(View(), w);
      StepKeepsInv(View(), Action.Finish(w));
      busy := busy - {w};
    }

    /** `_notFull.wait()` returns without a notification. */
    method WakeProducer(p: ThreadId)
      requires Valid() && p in notFull.waiting
      modifies this`notFull
      ensures Valid() && View() == Apply(old(View()), SpuriousProducer(p)) && p in notFull.notified
    {
      hide Inv;
      StepKeepsInv(View(), SpuriousProducer(p));
      notFull := notFull.Wake({p});
    }

    /** `_notEmpty.wait()` returns without a notification. */
    method WakeWorker(w: ThreadId)
      requires Valid() && w in notEmpty.waiting
      modifies this`notEmpty
      ensures Valid() && View() == Apply(old(View()), SpuriousWorker(w)) && w in notEmpty.notified
    {
      hide Inv;
      StepKeepsInv(View(), SpuriousWorker(w));
      notEmpty := notEmpty.Wake({w});
    }

    method Perform(a: Action)
      requires Valid() && Enabled(View(), a)
      modifies this
      ensures Valid() && View() == Apply(old(View()), a)
    {
      match a
      case Run(p, t, wake) => var _ := RunRegion(p, t, wake);
      case ResumeRun(p, wake) => var _ := RunRegion(p, calls[p], wake);
      case Take(w, wake) => var _ := TakeRegion(w, wake);
      case Finish(w) => Finish(w);
      case SpuriousProducer(p) => WakeProducer(p);
      case SpuriousWorker(w) => WakeWorker(w);
    }
  }

  /** A pool in memory, through any run: the theorems above, read off its fields. */
  method Serve(ghost workers: set<ThreadId>, num: nat, run: seq<Action>) returns (pool: ThreadPool)
    requires |workers| == num && IsRun(Init(workers), run)
    ensures fresh(pool) && pool.Valid() && pool.View() == Exec(Init(workers), run)
    ensures pool.dispatched + Reversed(pool.tasks) == Submissions(Init(workers), run)
    ensures |pool.tasks| <= num
    ensures pool.notEmpty.waiting != {} ==> |pool.tasks| <= |pool.notEmpty.notified|
    ensures pool.notFull.waiting != {} ==> num - |pool.tasks| <= |pool.notFull.notified|
    ensures pool.tasks != [] ==> SomeWorkerAwake(pool.View())
    ensures pool.calls.Keys != {} ==> SomeWorkerAwake(pool.View()) || pool.notFull.notified != {}
  {
    pool := new ThreadPool(workers, num);
    for i := 0 to |run|
      invariant pool.Valid() && fresh(pool)
      invariant IsRun(pool.View(), run[i..]) && Exec(pool.View(), run[i..]) == Exec(Init(workers), run)
    {
      pool.Perform(run[i]);
    }
    OrderAndCapacity(workers, run);
    NoLostWakeup(workers, run);
    DeadlockFree(workers, run);
  }
}
