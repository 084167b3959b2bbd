/** The countdown latch of base/CountDown.h. */
module CountDowns {
  import opened Condition

  /** `downs` and `returned` record the calls of `down` made and the threads that came back from `wait`. */
  datatype State = State(count: int, cond: CondVar, downs: nat, returned: set<ThreadId>)

  datatype Action =
    | Down
    | Wait(t: ThreadId)      // a thread calls `wait`
    | Resume(t: ThreadId)    // a woken thread gets the mutex back
    | Spurious(t: ThreadId)  // a thread wakes without a notification

  function Init(count: int): State {
    State(count, IDLE, 0, {})
  }

  predicate Enabled(s: State, a: Action) {
    match a
    case Down => true
    case Wait(t) => !s.cond.Involves(t)
    case Resume(t) => t in s.cond.notified
    case Spurious(t) => t in s.cond.waiting
  }

  function AfterDown(s: State): State {
    var s' := s.(count := s.count - 1, downs := s.downs + 1);
    if s'.count == 0 then s'.(cond := s.cond.Wake(s.cond.waiting)) else s'
  }

  /** From getting the mutex in `wait` to giving it up again, by sleeping or by returning. */
  function AfterWaitRegion(s: State, t: ThreadId): State {
    if s.count > 0 then
      s.(cond := s.cond.Sleep(t))
    else
      s.(cond := s.cond.Leave(t), returned := s.returned + {t})
  }

  function Apply(s: State, a: Action): State {
    match a
    case Down => AfterDown(s)
    case Wait(t) => AfterWaitRegion(s, t)
    case Resume(t) => AfterWaitRegion(s, t)
    case Spurious(t) => s.(cond := s.cond.Wake({t}))
  }

  ghost predicate IsRun(s: State, run: seq<Action>)
    decreases |run|
  {
    run == [] || (Enabled(s, run[0]) && IsRun(Apply(s, run[0]), run[1..]))
  }

  ghost function Exec(s: State, run: seq<Action>): State
    decreases |run|
  {
    if run == [] then s else Exec(Apply(s, run[0]), run[1..])
  }

  ghost predicate Inv(s: State, initial: int) {
    && s.cond.Consistent()
    && s.count == initial - s.downs
    && (s.cond.waiting != {} ==> s.count > 0)
    && (s.returned != {} ==> s.count <= 0)
  }

  lemma {:induction false} RunKeepsInv(s: State, run: seq<Action>, initial: int)
    requires Inv(s, initial) && IsRun(s, run)
    ensures Inv(Exec(s, run), initial)
    decreases |run|
  {
    if run != [] {
      RunKeepsInv(Apply(s, run[0]), run[1..], initial);
    }
  }

  /** The calls of `down` in a run. */
  function Downs(run: seq<Action>): nat {
    if run == [] then 0 else (if run[0].Down? then 1 else 0) + Downs(run[1..])
  }

  lemma {:induction false} RunRecords(s: State, run: seq<Action>)
    requires IsRun(s, run)
    ensures Exec(s, run).downs == s.downs + Downs(run)
    decreases |run|
  {
    if run != [] {
      RunRecords(Apply(s, run[0]), run[1..]);
    }
  }

  /**
   In every run from a latch of `initial`: a thread comes back from `wait` only
   after at least `initial` calls of `down`, and from then on nobody is asleep
   without having been notified.
   */
  lemma LatchIsExact(initial: int, run: seq<Action>)
    requires IsRun(Init(initial), run)
    ensures var s := Exec(Init(initial), run);
      && s.count == initial - Downs(run)
      && (s.returned != {} ==> Downs(run) >= initial)
      && (Downs(run) >= initial ==> s.cond.waiting == {})
  {
    RunKeepsInv(Init(initial), run, initial);
    RunRecords(Init(initial), run);
  }

  /**
   In every run: a thread that gets the mutex in `wait` returns if there have been enough
   calls of `down`, and otherwise sleeps.
   */
  lemma WaitsForDowns(initial: int, run: seq<Action>, t: ThreadId, a: Action)
    requires IsRun(Init(initial), run) && Enabled(Exec(Init(initial), run), a)
    requires a == Wait(t) || a == Resume(t)
    ensures var s := Apply(Exec(Init(initial), run), a);
      if Downs(run) >= initial then t in s.returned && !s.cond.Involves(t) else t in s.cond.waiting
  {
    LatchIsExact(initial, run);
    RunKeepsInv(Init(initial), run, initial);
  }

  // ------------------------------------------------------ the latch in memory

  class CountDown {
    var count: int
    var cond: CondVar
    ghost const initial: int
    ghost var downs: nat
    ghost var returned: set<ThreadId>

    ghost function View(): State
      reads this
    {
      State(count, cond, downs, returned)
    }

    ghost predicate Valid()
      reads this
    {
      Inv(View(), initial)
    }

    constructor (n: int)
      ensures Valid() && View() == Init(n) && initial == n
    {
      initial, count, cond, downs, returned := n, n, IDLE, 0, {};
    }

    /** Nobody is woken before the last call that is needed, and nobody is left asleep after it. */
    method Down()
      requires Valid()
      modifies this
      ensures Valid() && View() == Apply(old(View()), Action.Down)
      ensures downs < initial ==> cond == old(cond)
      ensures downs >= initial ==> cond.waiting == {}
      ensures cond.waiting + cond.notified == old(cond.waiting + cond.notified)
    {
      count := count - 1;
      downs := downs + 1;
      if count == 0 {
        cond := cond.Wake(cond.waiting);
      }
    }

    /** One turn of the loop in `wait`: `t` returns if there have been enough calls of `down`, and sleeps otherwise. */
    method WaitRegion(t: ThreadId) returns (done: bool)
      requires Valid() && t !in cond.waiting
      modifies this
      ensures Valid() && View() == AfterWaitRegion(old(View()), t)
      ensures done <==> downs >= initial
      ensures if done then !cond.Involves(t) && t in returned else t in cond.waiting
    {
      done := count <= 0;
      if count > 0 {
        cond := cond.Sleep(t);
      } else {
        cond := cond.Leave(t);
        returned := returned + {t};
      }
    }

    /** `pthread_cond_wait` returns without a notification. */
    method WakeSpuriously(t: ThreadId)
      requires Valid() && t in cond.waiting
      modifies this`cond
      ensures Valid() && View() == Apply(old(View()), Spurious(t)) && t in cond.notified
    {
      cond := cond.Wake({t});
    }

    method Perform(a: Action)
      requires Valid() && Enabled(View(), a)
      modifies this
      ensures Valid() && View() == Apply(old(View()), a)
    {
      match a
      case Down => Down();
      case Wait(t) => var _ := WaitRegion(t);
      case Resume(t) => var _ := WaitRegion(t);
      case Spurious(t) => WakeSpuriously(t);
    }
  }

  /** A latch in memory, through any run: it opens after `initial` calls of `down`, not before, and for everybody. */
  method Serve(initial: int, run: seq<Action>) returns (c: CountDown)
    requires IsRun(Init(initial), run)
    ensures fresh(c) && c.Valid() && c.View() == Exec(Init(initial), run)
    ensures c.count == initial - Downs(run)
    ensures c.returned != {} ==> Downs(run) >= initial
    ensures Downs(run) >= initial ==> c.cond.waiting == {}
  {
    c := new CountDown(initial);
    for i := 0 to |run|
      invariant c.Valid() && fresh(c)
      invariant IsRun(c.View(), run[i..]) && Exec(c.View(), run[i..]) == Exec(Init(initial), run)
    {
      c.Perform(run[i]);
    }
    LatchIsExact(initial, run);
  }
}
