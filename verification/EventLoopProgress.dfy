/** What the loop of net/EventLoop.cpp gets done: one iteration executes everything posted before its swap. */
module EventLoopProgress {
  import opened EventLoops
  import opened Sequences

  /** The steps of the loop thread outside user code. */
  predicate ByLoop(run: seq<Action>) {
    forall i :: 0 <= i < |run| ==>
      !run[i].Post? && !run[i].Quit? && !run[i].Wakeup? && !run[i].SelfPost? && !run[i].SelfQuit?
  }

  /** `run` takes the loop thread from `s` to `s'`. */
  ghost predicate Leads(s: State, run: seq<Action>, s': State) {
    ByLoop(run) && IsRun(s, run) && Exec(s, run) == s' && Inv(s')
  }

  /** One step, and then the rest. */
  lemma Step(s: State, a: Action, rest: seq<Action>, s': State)
    requires Inv(s) && Enabled(s, a) && ByLoop([a])
    requires Leads(Apply(s, a), rest, s')
    ensures Leads(s, [a] + rest, s')
  {
    assert [a][0] == a;
    assert ([a] + rest)[1..] == rest;
  }

  /** The rest of a batch whose functors neither post nor quit. */
  lemma {:induction false} FinishBatch(s: State) returns (run: seq<Action>, s': State)
    requires Inv(s) && s.place.Draining?
    ensures Leads(s, run, s') && s'.place.Checking? && s'.quit == s.quit && s'.counter == s.counter
    ensures s'.executed == s.executed + s.batch && s'.functors == s.functors
    decreases |s.batch|
  {
    if s.batch == [] {
      StepKeepsInv(s, EndTasks);
      s' := Apply(s, EndTasks);
      run := [EndTasks];
      Step(s, EndTasks, [], s');
    } else {
      StepKeepsInv(s, RunFunctor);
      var running := Apply(s, RunFunctor);
      StepKeepsInv(running, FunctorReturn);
      var next := Apply(running, FunctorReturn);
      run, s' := FinishBatch(next);
      assert s.batch == [s.batch[0]] + s.batch[1..];
      Regroup(s.executed, [s.batch[0]], s.batch[1..]);
      Step(running, FunctorReturn, run, s');
      Step(s, RunFunctor, [FunctorReturn] + run, s');
      run := [RunFunctor] + ([FunctorReturn] + run);
    }
  }

  /** From the end of the handlers on. */
  lemma FinishTasks(s: State) returns (run: seq<Action>, s': State)
    requires Inv(s) && s.place.Handling? && !s.wakeupActive
    ensures Leads(s, run, s') && s'.place.Checking? && s'.quit == s.quit && s'.counter == s.counter
    ensures s'.executed == s.posted && s'.functors == []
  {
    StepKeepsInv(s, EndHandling);
    var ended := Apply(s, EndHandling);
    StepKeepsInv(ended, Swap);
    var swapped := Apply(ended, Swap);
    run, s' := FinishBatch(swapped);
    assert s.executed + [] + s.functors == s.executed + s.functors;
    Step(ended, Swap, run, s');
    Step(s, EndHandling, [Swap] + run, s');
    run := [EndHandling] + ([Swap] + run);
  }

  /**
   From any point inside `poll` that a run can reach, one iteration executes everything
   posted so far and leaves the eventfd unreadable, whether `poll` was woken or timed out.
   */
  lemma IterationExecutesAll(s: State) returns (run: seq<Action>, s': State)
    requires Inv(s) && s.place.Polling?
    ensures Leads(s, run, s') && s'.place.Checking? && s'.quit == s.quit
    ensures s'.executed == s.posted && s'.functors == [] && s'.counter == 0
  {
    var a := PollReturn(s.counter > 0);
    StepKeepsInv(s, a);
    var handling := Apply(s, a);
    if s.counter > 0 {
      StepKeepsInv(handling, HandleRead);
      var read := Apply(handling, HandleRead);
      run, s' := FinishTasks(read);
      Step(handling, HandleRead, run, s');
      run := [HandleRead] + run;
    } else {
      run, s' := FinishTasks(handling);
    }
    Step(s, a, run, s');
    run := [a] + run;
  }

  /** Once `_quit` is set, that iteration is the last one. */
  lemma QuitEndsTheLoop(s: State) returns (run: seq<Action>, s': State)
    requires Inv(s) && s.place.Polling? && s.quit
    ensures Leads(s, run, s') && s'.place.Exited? && s'.executed == s.posted
  {
    var next;
    run, next := IterationExecutesAll(s);
    StepKeepsInv(next, Check);
    s' := Apply(next, Check);
    Step(next, Check, [], s');
    assert [Check] + [] == [Check];
    Chain(s, run, next, [Check], s');
    run := run + [Check];
  }

  lemma {:induction false} Chain(s: State, run: seq<Action>, next: State, more: seq<Action>, s': State)
    requires Leads(s, run, next) && Leads(next, more, s')
    ensures Leads(s, run + more, s')
    decreases |run|
  {
    if run == [] {
      assert run + more == more;
    } else {
      assert (run + more)[1..] == run[1..] + more;
      assert run[0] == (run + more)[0];
      Chain(Apply(s, run[0]), run[1..], next, more, s');
    }
  }
}
