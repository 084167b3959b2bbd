/**
 Posting work to an event loop (net/EventLoop.cpp). One loop thread executes
 `loop`; any number of other threads call `runInLoop` and `quit`, and so do the
 handlers and functors that the loop thread itself runs.
 */
module EventLoops {
  import opened Condition
  import opened Sequences

  type Functor = nat

  /** What `wakeup` adds to the eventfd counter, and the largest value that counter can hold. */
  const WAKEUP_VALUE: nat := 9527
  const EVENTFD_MAX: nat := 0xFFFF_FFFF_FFFF_FFFE

  /** Where the loop thread is. */
  datatype Place =
    | NotStarted  // before `loop` is called
    | Checking    // about to test `_quit`
    | Polling     // inside `poll`
    | Handling    // going through the active channels
    | Swapping    // in `doLoopTasks`, before the swap
    | Draining    // between two functors of the batch
    | InFunctor   // running a functor
    | Exited      // back from `loop`

  /**
   `batch` is the part of the swapped-out list that has not been started.
   `waking` holds the other threads that have posted or quit and not yet written
   the eventfd; `selfWaking` says the same of the loop thread. `wakeupActive`
   says that `poll` reported the eventfd and `handleRead` has not run yet.
   `posted` and `executed` record the functors posted, in lock order, and started.
   `early` marks a post made by the loop thread before `loop`, until the first swap.
   */
  datatype State = State(
    place: Place,
    quit: bool,
    isDoingTask: bool,
    counter: nat,
    functors: seq<Functor>,
    batch: seq<Functor>,
    wakeupActive: bool,
    selfWaking: bool,
    waking: set<ThreadId>,
    posted: seq<Functor>,
    executed: seq<Functor>,
    early: bool)

  datatype Action =
    // the loop thread
    | Start
    | Check
    | PollReturn(wakeup: bool)
    | HandleRead
    | EndHandling
    | Swap
    | RunFunctor
    | FunctorReturn
    | EndTasks
    | SelfPost(f: Functor)
    | SelfWakeup
    | SelfQuit
    // the other threads
    | Post(t: ThreadId, f: Functor)
    | Quit(t: ThreadId)
    | Wakeup(t: ThreadId)

  function Init(): State {
    State(NotStarted, false, false, 0, [], [], false, false, {}, [], [], false)
  }

  /** A non-blocking write to the eventfd; it has no effect when the counter would overflow. */
  function Written(counter: nat): nat {
    if counter + WAKEUP_VALUE <= EVENTFD_MAX then counter + WAKEUP_VALUE else counter
  }

  /** The loop thread runs user code, which may post and quit. */
  predicate InUserCode(s: State) {
    (s.place.NotStarted? || s.place.Handling? || s.place.InFunctor?) && !s.selfWaking
  }

  predicate Enabled(s: State, a: Action) {
    match a
    case Start => s.place == NotStarted
    case Check => s.place == Checking
    case PollReturn(wakeup) => s.place == Polling && (wakeup ==> s.counter > 0)
    case HandleRead => s.place == Handling && s.wakeupActive
    case EndHandling => s.place == Handling && !s.wakeupActive
    case Swap => s.place == Swapping
    case RunFunctor => s.place == Draining && s.batch != []
    case FunctorReturn => s.place == InFunctor && !s.selfWaking
    case EndTasks => s.place == Draining && s.batch == []
    case SelfPost(f) => InUserCode(s)
    case SelfWakeup => s.selfWaking
    case SelfQuit => InUserCode(s)
    case Post(t, f) => t !in s.waking
    case Quit(t) => t !in s.waking
    case Wakeup(t) => t in s.waking
  }

  function Apply(s: State, a: Action): State
    requires Enabled(s, a)
  {
    match a
    case Start => s.(place := Checking)
    case Check => s.(place := if s.quit then Exited else Polling)
    case PollReturn(wakeup) => s.(place := Handling, wakeupActive := wakeup)
    case HandleRead => s.(counter := 0, wakeupActive := false)
    case EndHandling => s.(place := Swapping, isDoingTask := true)
    case Swap => s.(place := Draining, batch := s.functors, functors := [], early := false)
    case RunFunctor => s.(place := InFunctor, batch := s.batch[1..], executed := s.executed + [s.batch[0]])
    case FunctorReturn => s.(place := Draining)
    case EndTasks => s.(place := Checking, isDoingTask := false)
    case SelfPost(f) =>
      s.(functors := s.functors + [f], posted := s.posted + [f],
         selfWaking := s.isDoingTask, early := s.early || s.place == NotStarted)
    case SelfWakeup => s.(counter := Written(s.counter), selfWaking := false)
    case SelfQuit => s.(quit := true)
    case Post(t, f) =>
      s.(functors := s.functors + [f], posted := s.posted + [f], waking := s.waking + {t})
    case Quit(t) => s.(quit := true, waking := s.waking + {t})
    case Wakeup(t) => s.(counter := Written(s.counter), waking := s.waking - {t})
  }

  ghost predicate IsRun(s: State, run: seq<Action>)
    decreases |run|
  {
    run == [] || (Enabled(s, run[0]) && IsRun(Apply(s, run[0]), run[1..]))
  }

  ghost function Exec(s: State, run: seq<Action>): State
    requires IsRun(s, run)
    decreases |run|
  {
    if run == [] then s else Exec(Apply(s, run[0]), run[1..])
  }

  // ---------------------------------------------------------------- invariant

  /** A wake-up of `poll` has arrived or is on its way. */
  ghost predicate WakeupComing(s: State) {
    s.counter > 0 || s.waking != {} || s.selfWaking
  }

  /** How the flags of the loop thread follow from where it is. */
  ghost predicate Shape(s: State) {
    && (s.isDoingTask <==> s.place.Swapping? || s.place.Draining? || s.place.InFunctor?)
    && (s.batch != [] ==> s.place.Draining? || s.place.InFunctor?)
    && (s.wakeupActive ==> s.place.Handling? && s.counter > 0)
    && (s.selfWaking ==> s.place.InFunctor?)
    && (s.place.NotStarted? ==> s.executed == [])
    && (s.place.Exited? ==> s.quit)
    && (s.early ==> |s.functors| > 0 && s.executed == [] && !s.place.Draining? && !s.place.InFunctor?)
  }

  /** Work that the current iteration will not see any more has a wake-up coming. */
  ghost predicate Announced(s: State) {
    && (|s.functors| > 0 && !(s.place.Handling? || s.place.Swapping? || s.place.Exited?) ==>
          WakeupComing(s) || s.early)
    && (s.quit && s.place.Polling? ==> WakeupComing(s))
  }

  ghost predicate Ordered(s: State) {
    s.posted == s.executed + s.batch + s.functors
  }

  ghost predicate Inv(s: State) {
    Shape(s) && Announced(s) && Ordered(s)
  }

  lemma StepKeepsShape(s: State, a: Action)
    requires Shape(s) && Enabled(s, a)
    ensures Shape(Apply(s, a))
  {
  }

  lemma StepKeepsAnnounced(s: State, a: Action)
    requires Shape(s) && Announced(s) && Enabled(s, a)
    ensures Announced(Apply(s, a))
  {
    match a
    case Post(t, f) => assert t in Apply(s, a).waking;
    case Quit(t) => assert t in Apply(s, a).waking;
    case _ =>
  }

  lemma StepKeepsOrdered(s: State, a: Action)
    requires Shape(s) && Ordered(s) && Enabled(s, a)
    ensures Ordered(Apply(s, a))
  {
    match a
    case RunFunctor => assert s.batch == [s.batch[0]] + s.batch[1..];
    case _ =>
  }

  lemma StepKeepsInv(s: State, a: Action)
    requires Inv(s) && Enabled(s, a)
    ensures Inv(Apply(s, a))
  {
    StepKeepsShape(s, a);
    StepKeepsAnnounced(s, a);
    StepKeepsOrdered(s, a);
  }

  lemma {:induction false} RunKeepsInv(s: State, run: seq<Action>)
    requires Inv(s) && IsRun(s, run)
    ensures Inv(Exec(s, run))
    decreases |run|
  {
    if run != [] {
      StepKeepsInv(s, run[0]);
      RunKeepsInv(Apply(s, run[0]), run[1..]);
    }
  }

  // ------------------------------------------------------------- main results

  function PostedBy(a: Action): seq<Functor> {
    if a.Post? || a.SelfPost? then [a.f] else []
  }

  /** The functors a run posts, in lock order. */
  function Posts(run: seq<Action>): seq<Functor> {
    if run == [] then [] else PostedBy(run[0]) + Posts(run[1..])
  }

  lemma StepRecords(s: State, a: Action)
    requires Enabled(s, a)
    ensures Apply(s, a).posted == s.posted + PostedBy(a)
  {
    assert s.posted + [] == s.posted;
  }

  lemma {:induction false} RunRecords(s: State, run: seq<Action>)
    requires IsRun(s, run)
    ensures Exec(s, run).posted == s.posted + Posts(run)
    decreases |run|
  {
    hide Apply, Enabled, PostedBy;
    if run != [] {
      StepRecords(s, run[0]);
      RunRecords(Apply(s, run[0]), run[1..]);
      Regroup(s.posted, PostedBy(run[0]), Posts(run[1..]));
    }
  }

  /** Every functor posted so far is executed, in the rest of the batch or queued: in posting order, each once. */
  lemma ExecutedInPostingOrder(run: seq<Action>)
    requires IsRun(Init(), run)
    ensures var s := Exec(Init(), run);
      s.executed + s.batch + s.functors == Posts(run)
  {
    RunKeepsInv(Init(), run);
    RunRecords(Init(), run);
  }

  lemma {:induction false} QuitIs(s: State, run: seq<Action>)
    requires IsRun(s, run)
    ensures Exec(s, run).quit <==> s.quit || exists i :: 0 <= i < |run| && (run[i].Quit? || run[i].SelfQuit?)
    decreases |run|
  {
    if run != [] {
      var s', rest := Apply(s, run[0]), run[1..];
      StepSetsQuit(s, run[0]);
      QuitIs(s', rest);
      assert forall i :: 0 <= i < |rest| ==> rest[i] == run[i + 1];
      assert forall i :: 0 < i < |run| ==> run[i] == rest[i - 1];
    }
  }

  lemma StepSetsQuit(s: State, a: Action)
    requires Enabled(s, a)
    ensures Apply(s, a).quit <==> s.quit || a.Quit? || a.SelfQuit?
  {
  }

  /** `_quit` is set exactly by the calls of `quit`, and the loop returns only then. */
  lemma QuitsOnlyIfTold(run: seq<Action>)
    requires IsRun(Init(), run)
    ensures var s := Exec(Init(), run);
      && (s.quit <==> exists i :: 0 <= i < |run| && (run[i].Quit? || run[i].SelfQuit?))
      && (s.place.Exited? ==> s.quit)
  {
    RunKeepsInv(Init(), run);
    QuitIs(Init(), run);
  }

  /** Whether the eventfd has been written since it was last read. */
  function WrittenSince(run: seq<Action>, initial: bool): bool {
    if run == [] then
      initial
    else
      WrittenSince(run[1..],
               if run[0].HandleRead? then false
               else initial || run[0].Wakeup? || run[0].SelfWakeup?)
  }

  /** The eventfd is readable exactly then, so one read quiets `poll`. */
  lemma ReadableIfWritten(run: seq<Action>)
    requires IsRun(Init(), run)
    ensures Exec(Init(), run).counter > 0 <==> WrittenSince(run, false)
  {
    CounterIs(Init(), run);
  }

  lemma {:induction false} CounterIs(s: State, run: seq<Action>)
    requires IsRun(s, run)
    ensures Exec(s, run).counter > 0 <==> WrittenSince(run, s.counter > 0)
    decreases |run|
  {
    if run != [] {
      StepSetsCounter(s, run[0]);
      CounterIs(Apply(s, run[0]), run[1..]);
    }
  }

  lemma StepSetsCounter(s: State, a: Action)
    requires Enabled(s, a)
    ensures Apply(s, a).counter > 0 <==> !a.HandleRead? && (s.counter > 0 || a.Wakeup? || a.SelfWakeup?)
  {
  }

  /** `handleRead` always finds a positive counter, so its read never fails. */
  lemma HandleReadSucceeds(run: seq<Action>)
    requires IsRun(Init(), run) && Enabled(Exec(Init(), run), HandleRead)
    ensures Exec(Init(), run).counter > 0
  {
    RunKeepsInv(Init(), run);
  }

  /** The loop thread is inside `poll` with something to do, and nothing but its timeout will make `poll` return. */
  ghost predicate Stranded(s: State) {
    && s.place == Polling
    && (s.functors != [] || s.quit)
    && !WakeupComing(s)
  }

  /**
   The only way for the loop to sleep on pending work is a post made by the loop
   thread itself before it called `loop`, with no other wake-up around; and in
   that case it does. `_quit` is never slept on without such a post.
   */
  lemma StrandedExactly(run: seq<Action>)
    requires IsRun(Init(), run)
    ensures var s := Exec(Init(), run);
      Stranded(s) <==> s.early && s.place == Polling && s.counter == 0 && s.waking == {}
    ensures var s := Exec(Init(), run);
      s.quit && s.place == Polling ==> !Stranded(s)
  {
    RunKeepsInv(Init(), run);
  }

  /** No action of the run is a post by the loop thread before `loop`. */
  ghost predicate NoEarlyPost(s: State, run: seq<Action>)
    requires IsRun(s, run)
    decreases |run|
  {
    run == [] ||
    (!(run[0].SelfPost? && s.place == NotStarted) && NoEarlyPost(Apply(s, run[0]), run[1..]))
  }

  lemma {:induction false} NeverEarly(s: State, run: seq<Action>)
    requires IsRun(s, run) && NoEarlyPost(s, run) && !s.early
    ensures !Exec(s, run).early
    decreases |run|
  {
    if run != [] {
      NeverEarly(Apply(s, run[0]), run[1..]);
    }
  }

  /**
   No lost wake-up: as long as the loop thread does not post before `loop`, it is
   never inside `poll` with functors pending or `_quit` set unless the eventfd is
   readable or some thread is between its post (or quit) and its write to it.
   */
  lemma NoLostWakeup(run: seq<Action>)
    requires IsRun(Init(), run) && NoEarlyPost(Init(), run)
    ensures var s := Exec(Init(), run);
      s.place == Polling && (s.functors != [] || s.quit) ==> s.counter > 0 || s.waking != {}
  {
    RunKeepsInv(Init(), run);
    NeverEarly(Init(), run);
  }

  /** The case left out is real: a post by the loop thread before `loop` leaves it in `poll` with nothing to wake it. */
  lemma EarlyPostIsStranded(f: Functor)
    ensures var run := [SelfPost(f), Start, Check];
      IsRun(Init(), run) && Stranded(Exec(Init(), run))
  {
    var s1 := Apply(Init(), SelfPost(f));
    var s2 := Apply(s1, Start);
    var s3 := Apply(s2, Check);
    var run := [SelfPost(f), Start, Check];
    assert run[1..] == [Start, Check] && run[1..][1..] == [Check] && run[1..][1..][1..] == [];
    assert IsRun(s3, []) && Exec(s3, []) == s3;
    assert IsRun(s2, [Check]) && Exec(s2, [Check]) == s3;
    assert IsRun(s1, [Start, Check]) && Exec(s1, [Start, Check]) == s3;
  }

  // ------------------------------------------------------- the loop in memory

  /**
   The loop object. The methods are the stretches of code between two points
   where another thread may come in; the place of the loop thread and the threads
   on their way to `wakeup` are ghost.
   */
  class EventLoop {
    var quit: bool
    var wakeupFd: nat
    var isDoingTask: bool
    var functors: seq<Functor>
    var fs: seq<Functor>
    ghost var place: Place
    ghost var wakeupActive: bool
    ghost var selfWaking: bool
    ghost var waking: set<ThreadId>
    ghost var posted: seq<Functor>
    ghost var executed: seq<Functor>
    ghost var early: bool

    ghost function View(): State
      reads this
    {
      State(place, quit, isDoingTask, wakeupFd, functors, fs, wakeupActive, selfWaking, waking,
            posted, executed, early)
    }

    ghost predicate Valid()
      reads this
    {
      Inv(View())
    }

    constructor ()
      ensures Valid() && View() == Init()
    {
      quit, wakeupFd, isDoingTask, functors, fs := false, 0, false, [], [];
      place, wakeupActive, selfWaking, waking := NotStarted, false, false, {};
      posted, executed, early := [], [], false;
    }

    /** The loop thread calls `loop`. */
    ghost method Start()
      requires Valid() && Enabled(View(), Action.Start)
      modifies this`place
      ensures Valid() && View() == Apply(old(View()), Action.Start)
    {
      StepKeepsInv(View(), Action.Start);
      place := Checking;
    }

    /**
     `while (!_quit)`; `again` when the body is entered. If work is pending then, a
     wake-up of `poll` is coming, but for a post the loop thread made before `loop`.
     */
    method CheckQuit() returns (again: bool)
      requires Valid() && Enabled(View(), Check)
      modifies this`place
      ensures Valid() && View() == Apply(old(View()), Check)
      ensures again <==> !quit
      ensures again && functors != [] ==> wakeupFd > 0 || waking != {} || early
    {
      StepKeepsInv(View(), Check);
      again := !quit;
      place := if quit then Exited else Polling;
    }

    /**
     `poll` returns, reporting the eventfd only if it is readable. Everything swapped
     out so far has been executed.
     */
    ghost method PollReturns(wakeup: bool)
      requires Valid() && Enabled(View(), PollReturn(wakeup))
      modifies this`wakeupActive, this`place
      ensures Valid() && View() == Apply(old(View()), PollReturn(wakeup))
      ensures executed + functors == posted && (wakeup ==> wakeupFd > 0)
    {
      StepKeepsInv(View(), PollReturn(wakeup));
      wakeupActive := wakeup;
      place := Handling;
    }

    /** The read callback of the wake-up channel. The value read is positive, so the read does not fail. */
    method HandleRead() returns (v: nat)
      requires Valid() && Enabled(View(), Action.HandleRead)
      modifies this`wakeupFd, this`wakeupActive
      ensures Valid() && View() == Apply(old(View()), Action.HandleRead)
      ensures v > 0 && wakeupFd == 0
    {
      StepKeepsInv(View(), Action.HandleRead);
      v := wakeupFd;
      wakeupFd := 0;
      wakeupActive := false;
    }

    /** All handlers are done and `doLoopTasks` begins: what was posted and not executed waits for the swap. */
    method BeginTasks()
      requires Valid() && Enabled(View(), EndHandling)
      modifies this`isDoingTask, this`place
      ensures Valid() && View() == Apply(old(View()), EndHandling)
      ensures executed + functors == posted
    {
      StepKeepsInv(View(), EndHandling);
      isDoingTask := true;
      place := Swapping;
    }

    /** The batch is everything posted and not executed yet, whoever posted it and when. */
    method SwapFunctors()
      requires Valid() && Enabled(View(), Swap)
      modifies this`fs, this`functors, this`early, this`place
      ensures Valid() && View() == Apply(old(View()), Swap)
      ensures executed + fs == posted && !early
    {
      StepKeepsInv(View(), Swap);
      fs := [];
      functors, fs := fs, functors;
      early := false;
      place := Draining;
    }

    /** The next functor to be called is the first one posted that has not been. */
    method BeginFunctor() returns (f: Functor)
      requires Valid() && Enabled(View(), RunFunctor)
      modifies this`fs, this`executed, this`place
      ensures Valid() && View() == Apply(old(View()), RunFunctor)
      ensures executed == old(executed) + [f] && executed <= posted
    {
      StepKeepsInv(View(), RunFunctor);
      f := fs[0];
      fs := fs[1..];
      executed := executed + [f];
      place := InFunctor;
    }

    /** Whatever it posted has a wake-up coming. */
    ghost method EndFunctor()
      requires Valid() && Enabled(View(), FunctorReturn)
      modifies this`place
      ensures Valid() && View() == Apply(old(View()), FunctorReturn)
      ensures functors != [] ==> wakeupFd > 0 || waking != {}
    {
      StepKeepsInv(View(), FunctorReturn);
      place := Draining;
    }

    /** The batch is executed, and what was posted meanwhile has a wake-up coming. */
    method FinishTasks()
      requires Valid() && Enabled(View(), EndTasks)
      modifies this`isDoingTask, this`place
      ensures Valid() && View() == Apply(old(View()), EndTasks)
      ensures executed + functors == posted
      ensures functors != [] ==> wakeupFd > 0 || waking != {}
    {
      StepKeepsInv(View(), EndTasks);
      isDoingTask := false;
      place := Checking;
    }

    /**
     The locked part of `runInLoop` together with the test that follows it, for
     the loop thread (`caller` is None) or another one; `wake` when the caller
     goes on to `Wakeup`. It does not only if the loop thread will swap before it
     polls, or has not started.
     */
    method RunInLoop(caller: Option<ThreadId>, f: Functor) returns (wake: bool)
      requires Valid() && Enabled(View(), if caller == None then SelfPost(f) else Post(caller.value, f))
      modifies this`functors, this`posted, this`selfWaking, this`waking, this`early
      ensures Valid()
      ensures View() == Apply(old(View()), if caller == None then SelfPost(f) else Post(caller.value, f))
      ensures executed + fs + functors == old(executed + fs + functors) + [f]
      ensures wake <==> caller != None || isDoingTask
      ensures !wake ==> place.Handling? || place.NotStarted?
    {
      StepKeepsInv(View(), if caller == None then SelfPost(f) else Post(caller.value, f));
      Regroup(executed + fs, functors, [f]);
      functors := functors + [f];
      posted := posted + [f];
      wake := caller != None || isDoingTask;
      if caller == None {
        selfWaking := isDoingTask;
        early := early || place == NotStarted;
      } else {
        waking := waking + {caller.value};
      }
    }

    /** It does without a wake-up only where the loop thread tests `_quit` before it polls. */
    method QuitLoop(caller: Option<ThreadId>) returns (wake: bool)
      requires Valid() && Enabled(View(), if caller == None then SelfQuit else Quit(caller.value))
      modifies this`quit, this`waking
      ensures Valid() && View() == Apply(old(View()), if caller == None then SelfQuit else Quit(caller.value))
      ensures quit && (wake <==> caller != None)
      ensures !wake ==> !place.Polling?
    {
      StepKeepsInv(View(), if caller == None then SelfQuit else Quit(caller.value));
      quit := true;
      wake := caller != None;
      if caller != None {
        waking := waking + {caller.value};
      }
    }

    /** The write to the eventfd; `ok` unless the counter would overflow. Either way the eventfd is readable. */
    method Wakeup(caller: Option<ThreadId>) returns (ok: bool)
      requires Valid() && Enabled(View(), if caller == None then SelfWakeup else Action.Wakeup(caller.value))
      modifies this`wakeupFd, this`selfWaking, this`waking
      ensures Valid()
      ensures View() == Apply(old(View()), if caller == None then SelfWakeup else Action.Wakeup(caller.value))
      ensures wakeupFd > 0
    {
      StepKeepsInv(View(), if caller == None then SelfWakeup else Action.Wakeup(caller.value));
      ok := wakeupFd + WAKEUP_VALUE <= EVENTFD_MAX;
      if ok {
        wakeupFd := wakeupFd + WAKEUP_VALUE;
      }
      if caller == None {
        selfWaking := false;
      } else {
        waking := waking - {caller.value};
      }
    }

    method Perform(a: Action)
      requires Valid() && Enabled(View(), a)
      modifies this
      ensures Valid() && View() == Apply(old(View()), a)
    {
      hide Inv;
      match a
      case Start => Start();
      case Check => var _ := CheckQuit();
      case PollReturn(wakeup) => PollReturns(wakeup);
      case HandleRead => var _ := HandleRead();
      case EndHandling => BeginTasks();
      case Swap => SwapFunctors();
      case RunFunctor => var _ := BeginFunctor();
      case FunctorReturn => EndFunctor();
      case EndTasks => FinishTasks();
      case SelfPost(f) => var _ := RunInLoop(None, f);
      case SelfWakeup => var _ := Wakeup(None);
      case SelfQuit => var _ := QuitLoop(None);
      case Post(t, f) => var _ := RunInLoop(Some(t), f);
      case Quit(t) => var _ := QuitLoop(Some(t));
      case Wakeup(t) => var _ := Wakeup(Some(t));
    }
  }

  /** A loop in memory, through any run: the theorems above, read off its fields. */
  method Serve(run: seq<Action>) returns (l: EventLoop)
    requires IsRun(Init(), run)
    ensures fresh(l) && l.Valid() && l.View() == Exec(Init(), run)
    ensures l.executed + l.fs + l.functors == Posts(run)
    ensures l.quit <==> exists i :: 0 <= i < |run| && (run[i].Quit? || run[i].SelfQuit?)
    ensures l.place.Exited? ==> l.quit
    ensures l.wakeupFd > 0 <==> WrittenSince(run, false)
    ensures l.place.Polling? && (l.functors != [] || l.quit) && NoEarlyPost(Init(), run) ==>
      l.wakeupFd > 0 || l.waking != {}
    ensures Stranded(l.View()) <==> l.early && l.place.Polling? && l.wakeupFd == 0 && l.waking == {}
  {
    l := new EventLoop();
    for i := 0 to |run|
      invariant l.Valid() && fresh(l)
      invariant IsRun(l.View(), run[i..]) && Exec(l.View(), run[i..]) == Exec(Init(), run)
    {
      l.Perform(run[i]);
    }
    ExecutedInPostingOrder(run);
    QuitsOnlyIfTold(run);
    ReadableIfWritten(run);
    StrandedExactly(run);
    if NoEarlyPost(Init(), run) {
      NoLostWakeup(run);
    }
  }
}
