/** The unbounded blocking queue of base/BlockingQueue.h. */
module BlockingQueues {
  import opened Condition
  import opened Sequences

  /** `pushed` and `taken` record every element ever pushed and every element handed out, in lock order. */
  datatype State<T> = State(queue: seq<T>, notEmpty: CondVar, pushed: seq<T>, taken: seq<T>)

  datatype Action<T> =
    | Push(x: T, wake: set<ThreadId>)
    | Take(t: ThreadId)
    | Resume(t: ThreadId)
    | Spurious(t: ThreadId)

  function Init<T>(): State<T> {
    State([], IDLE, [], [])
  }

  predicate Enabled<T>(s: State<T>, a: Action<T>) {
    match a
    case Push(x, wake) => s.notEmpty.MaySignal(wake)
    case Take(t) => !s.notEmpty.Involves(t)
    case Resume(t) => t in s.notEmpty.notified
    case Spurious(t) => t in s.notEmpty.waiting
  }

  function AfterPush<T>(s: State<T>, x: T, wake: set<ThreadId>): State<T> {
    s.(queue := s.queue + [x], notEmpty := s.notEmpty.Wake(wake), pushed := s.pushed + [x])
  }

  function AfterTakeRegion<T>(s: State<T>, t: ThreadId): State<T> {
    if s.queue == [] then
      s.(notEmpty := s.notEmpty.Sleep(t))
    else
      s.(queue := s.queue[1..], notEmpty := s.notEmpty.Leave(t), taken := s.taken + [s.queue[0]])
  }

  function Apply<T>(s: State<T>, a: Action<T>): State<T> {
    match a
    case Push(x, wake) => AfterPush(s, x, wake)
    case Take(t) => AfterTakeRegion(s, t)
    case Resume(t) => AfterTakeRegion(s, t)
    case Spurious(t) => s.(notEmpty := s.notEmpty.Wake({t}))
  }

  ghost predicate IsRun<T>(s: State<T>, run: seq<Action<T>>)
    decreases |run|
  {
    run == [] || (Enabled(s, run[0]) && IsRun(Apply(s, run[0]), run[1..]))
  }

  ghost function Exec<T>(s: State<T>, run: seq<Action<T>>): State<T>
    decreases |run|
  {
    if run == [] then s else Exec(Apply(s, run[0]), run[1..])
  }

  ghost predicate Inv<T>(s: State<T>) {
    && s.notEmpty.Consistent()
    && s.notEmpty.Covers(|s.queue|)
    && s.pushed == s.taken + s.queue
  }

  lemma StepKeepsInv<T>(s: State<T>, a: Action<T>)
    requires Inv(s) && Enabled(s, a)
    ensures Inv(Apply(s, a))
  {
    match a
    case Push(x, wake) => SignalCovers(s.notEmpty, |s.queue|, wake);
    case Spurious(t) => SpuriousCovers(s.notEmpty, |s.queue|, {t});
    case Take(t) => LeaveCovers(s.notEmpty, |s.queue|, t);
    case Resume(t) => LeaveCovers(s.notEmpty, |s.queue|, t);
  }

  lemma {:induction false} RunKeepsInv<T>(s: State<T>, run: seq<Action<T>>)
    requires Inv(s) && IsRun(s, run)
    ensures Inv(Exec(s, run))
    decreases |run|
  {
    if run != [] {
      StepKeepsInv(s, run[0]);
      RunKeepsInv(Apply(s, run[0]), run[1..]);
    }
  }

  /** The elements a run pushes, in lock order. */
  function Pushes<T>(run: seq<Action<T>>): seq<T> {
    if run == [] then [] else (if run[0].Push? then [run[0].x] else []) + Pushes(run[1..])
  }

  lemma {:induction false} RunRecords<T>(s: State<T>, run: seq<Action<T>>)
    requires IsRun(s, run)
    ensures Exec(s, run).pushed == s.pushed + Pushes(run)
    decreases |run|
  {
    if run != [] {
      RunRecords(Apply(s, run[0]), run[1..]);
      Regroup(s.pushed, if run[0].Push? then [run[0].x] else [], Pushes(run[1..]));
    }
  }

  /**
   In every run: elements come out in the order they went in, none twice and
   none lost; and while a taker sleeps, each queued element has a woken taker of
   its own, so takers never all sleep over a non-empty queue.
   */
  lemma FifoWithoutLostWakeups<T>(run: seq<Action<T>>)
    requires IsRun(Init(), run)
    ensures var s := Exec(Init(), run);
      && s.taken + s.queue == Pushes(run)
      && (s.notEmpty.waiting != {} ==> |s.queue| <= |s.notEmpty.notified|)
      && (s.queue != [] && s.notEmpty.notified == {} ==> s.notEmpty.waiting == {})
  {
    RunKeepsInv(Init(), run);
    RunRecords(Init(), run);
  }

  /** In every run: a thread that gets the mutex in `take` gets the next element pushed, or sleeps if there is none. */
  lemma TakesTheNext<T>(run: seq<Action<T>>, t: ThreadId, a: Action<T>)
    requires IsRun(Init(), run) && Enabled(Exec(Init(), run), a)
    requires a == Take(t) || a == Resume(t)
    ensures var s, s' := Exec(Init(), run), Apply(Exec(Init(), run), a);
      if |s.taken| < |Pushes(run)| then s'.taken == Pushes(run)[..|s.taken| + 1] && !s'.notEmpty.Involves(t)
      else s'.taken == s.taken && t in s'.notEmpty.waiting
  {
    FifoWithoutLostWakeups(run);
    RunKeepsInv(Init(), run);
    var s := Exec(Init(), run);
    if s.queue != [] {
      assert s.taken + [s.queue[0]] + s.queue[1..] == s.taken + s.queue;
    }
  }

  // ------------------------------------------------------ the queue in memory

  class BlockingQueue<T> {
    var queue: seq<T>
    var notEmpty: CondVar
    ghost var pushed: seq<T>
    ghost var taken: seq<T>

    ghost function View(): State<T>
      reads this
    {
      State(queue, notEmpty, pushed, taken)
    }

    ghost predicate Valid()
      reads this
    {
      Inv(View())
    }

    constructor ()
      ensures Valid() && View() == Init()
    {
      queue, notEmpty, pushed, taken := [], IDLE, [], [];
    }

    /** The element is the last one to be handed out of all there are, and if anyone sleeps somebody is woken for it. */
    method Push(x: T, wake: set<ThreadId>)
      requires Valid() && notEmpty.MaySignal(wake)
      modifies this
      ensures Valid() && View() == Apply(old(View()), Action.Push(x, wake))
      ensures taken + queue == old(taken + queue) + [x]
      ensures old(notEmpty.waiting) != {} ==> |notEmpty.waiting| < |old(notEmpty.waiting)|
    {
      StepKeepsInv(View(), Action.Push(x, wake));
      assert wake + (notEmpty.waiting - wake) == notEmpty.waiting;
      queue := queue + [x];
      pushed := pushed + [x];
      notEmpty := notEmpty.Wake(wake);
    }

    /**
     One turn of the loop in `take`. The element handed out is the oldest one pushed
     that nobody has taken; the thread goes to sleep only when everything is taken.
     */
    method TakeRegion(t: ThreadId) returns (x: Option<T>)
      requires Valid() && t !in notEmpty.waiting
      modifies this
      ensures Valid() && View() == AfterTakeRegion(old(View()), t) && pushed == old(pushed)
      ensures x.None? <==> old(taken) == pushed
      ensures x.None? ==> t in notEmpty.waiting && taken == pushed
      ensures x.Some? ==> !notEmpty.Involves(t) && taken == old(taken) + [x.value] && taken <= pushed
    {
      StepKeepsInv(View(), if t in notEmpty.notified then Resume(t) else Take(t));
      if |queue| == 0 {
        notEmpty := notEmpty.Sleep(t);
        x := None;
      } else {
        x := Some(queue[0]);
        taken := taken + [queue[0]];
        queue := queue[1..];
        notEmpty := notEmpty.Leave(t);
      }
    }

    /** `pthread_cond_wait` returns without a notification. */
    method WakeSpuriously(t: ThreadId)
      requires Valid() && t in notEmpty.waiting
      modifies this`notEmpty
      ensures Valid() && View() == Apply(old(View()), Spurious(t)) && t in notEmpty.notified
    {
      StepKeepsInv(View(), Spurious(t));
      notEmpty := notEmpty.Wake({t});
    }

    method Perform(a: Action<T>)
      requires Valid() && Enabled(View(), a)
      modifies this
      ensures Valid() && View() == Apply(old(View()), a)
    {
      match a
      case Push(x, wake) => Push(x, wake);
      case Take(t) => var _ := TakeRegion(t);
      case Resume(t) => var _ := TakeRegion(t);
      case Spurious(t) => WakeSpuriously(t);
    }
  }

  /** A queue in memory, through any run: what was taken and what is queued are what was pushed, in order. */
  method Serve<T>(run: seq<Action<T>>) returns (q: BlockingQueue<T>)
    requires IsRun(Init(), run)
    ensures fresh(q) && q.Valid() && q.View() == Exec(Init(), run)
    ensures q.taken + q.queue == Pushes(run)
    ensures q.notEmpty.waiting != {} ==> |q.queue| <= |q.notEmpty.notified|
  {
    q := new BlockingQueue();
    for i := 0 to |run|
      invariant q.Valid() && fresh(q)
      invariant IsRun(q.View(), run[i..]) && Exec(q.View(), run[i..]) == Exec(Init(), run)
    {
      q.Perform(run[i]);
    }
    FifoWithoutLostWakeups(run);
  }
}
