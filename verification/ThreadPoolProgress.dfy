/** What the threads of base/ThreadPool.cpp get done: from every reachable state all pending calls can be served. */
module ThreadPoolProgress {
  import opened Condition
  import opened Sequences
  import opened ThreadPools

  /** No new calls, and nobody wakes without a notification. */
  predicate WithoutHelp(run: seq<Action>) {
    forall i :: 0 <= i < |run| ==> run[i].Take? || run[i].Finish? || run[i].ResumeRun?
  }

  /** `run` takes the pool from `s` to `s'`. */
  ghost predicate Leads(s: State, run: seq<Action>, s': State) {
    WithoutHelp(run) && IsRun(s, run) && Exec(s, run) == s' && Inv(s')
  }

  /** One step, and then the rest. */
  lemma Step(s: State, a: Action, rest: seq<Action>, s': State)
    requires Inv(s) && Enabled(s, a) && (a.Take? || a.Finish? || a.ResumeRun?)
    requires Leads(Apply(s, a), rest, s')
    ensures Leads(s, [a] + rest, s')
  {
    assert ([a] + rest)[1..] == rest;
  }

  /** A signal that wakes a single thread. */
  lemma WakeOne(c: CondVar) returns (wake: set<ThreadId>)
    ensures c.MaySignal(wake) && |wake| <= 1
  {
    wake := {};
    if c.waiting != {} {
      var t :| t in c.waiting;
      wake := {t};
    }
  }

  /** `a` can be taken without help and brings the end of all pending work nearer. */
  ghost predicate Advances(s: State, a: Action) {
    && Enabled(s, a) && (a.Take? || a.Finish? || a.ResumeRun?)
    && var s' := Apply(s, a);
       || |s'.calls| < |s.calls|
       || (s'.calls == s.calls && |s'.tasks| < |s.tasks|)
       || (s'.calls == s.calls && s'.tasks == s.tasks && |s'.busy| < |s.busy|)
  }

  /** While a task is queued, a worker can finish what it does or take the next task. */
  lemma AdvanceTask(s: State) returns (a: Action)
    requires Inv(s) && s.tasks != [] && (s.maxNum == 0 ==> s.calls == map[])
    ensures Advances(s, a)
  {
    InvIsDeadlockFree(s);
    var w :| w in s.workers && w !in s.notEmpty.waiting;
    if w in s.busy {
      a := Finish(w);
    } else {
      var wake := WakeOne(s.notFull);
      a := Take(w, wake);
    }
  }

  /** While the queue is empty and a producer is inside `run`, one of them has been woken and finds room. */
  lemma AdvanceCall(s: State) returns (a: Action)
    requires Inv(s) && s.maxNum > 0 && s.tasks == [] && s.calls != map[]
    ensures Advances(s, a)
  {
    assert s.calls.Keys != {};
    assert s.notFull.notified == {} ==> s.notFull.waiting == s.calls.Keys;
    var p :| p in s.notFull.notified;
    var wake := WakeOne(s.notEmpty);
    a := ResumeRun(p, wake);
    assert s.calls.Keys - {p} == (s.calls - {p}).Keys;
    assert |s.calls.Keys - {p}| < |s.calls.Keys|;
  }

  /**
   Whatever has happened, the threads that are there can serve every call that is inside
   `run` and dispatch every task, without new calls or accidental wake-ups, even if each
   signal wakes one thread only.
   */
  lemma EverythingIsServed(s: State) returns (run: seq<Action>, s': State)
    requires Inv(s) && s.maxNum > 0
    ensures Leads(s, run, s') && s'.tasks == [] && s'.calls == map[] && s'.dispatched == s'.submitted
    decreases |s.calls|, |s.tasks|, |s.busy|
  {
    if s.tasks == [] && s.calls == map[] {
      run, s' := [], s;
      assert s.dispatched + [] == s.dispatched;
    } else {
      var a;
      if s.tasks != [] {
        a := AdvanceTask(s);
      } else {
        a := AdvanceCall(s);
      }
      StepKeepsInv(s, a);
      StepKeepsCalls(s, a, 0);
      run, s' := EverythingIsServed(Apply(s, a));
      Step(s, a, run, s');
      run := [a] + run;
    }
  }

  lemma {:induction false} NoNewCalls(run: seq<Action>, task: Task)
    requires WithoutHelp(run)
    ensures Calls(run, task) == 0
  {
    if run != [] {
      assert run[0].Take? || run[0].Finish? || run[0].ResumeRun?;
      NoNewCalls(run[1..], task);
    }
  }

  /** So after any run of a pool with workers, all its calls can still be dispatched, each once. */
  lemma CallsAreServed(workers: set<ThreadId>, run: seq<Action>, task: Task) returns (more: seq<Action>, s': State)
    requires IsRun(Init(workers), run) && workers != {}
    ensures Leads(Exec(Init(workers), run), more, s')
    ensures multiset(s'.dispatched)[task] == Calls(run, task)
  {
    var s0 := Init(workers);
    var s := Exec(s0, run);
    assert |workers| > 0;
    RunKeepsInv(s0, run);
    RunRecords(s0, run);
    RunKeepsCalls(s0, run, task);
    more, s' := EverythingIsServed(s);
    RunRecords(s, more);
    RunKeepsCalls(s, more, task);
    NoNewCalls(more, task);
    assert Inside(map[], task) == {};
    assert s0.submitted + Submissions(s0, run) == Submissions(s0, run);
    assert multiset(s.submitted + Submissions(s, more)) == multiset(s.submitted) + multiset(Submissions(s, more));
  }
}
