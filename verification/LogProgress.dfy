/** What the writer of base/AsyncLogging.cpp gets done: from every reachable state it can bring the file up to date. */
module LogProgress {
  import opened LogPipeline
  import opened Sequences

  /** The steps of the writer's loop. */
  predicate ByWriter(run: seq<Action>) {
    forall i :: 0 <= i < |run| ==> !run[i].Append? && !run[i].Stop?
  }

  /** `run` takes the writer from `s` to `s'`. */
  ghost predicate Leads(s: State, run: seq<Action>, s': State) {
    ByWriter(run) && IsRun(s, run) && Exec(s, run) == Some(s') && Inv(s')
  }

  lemma Stay(s: State)
    requires Inv(s)
    ensures Leads(s, [], s)
  {
  }

  /** One step, and then the rest. */
  lemma Step(s: State, a: Action, rest: seq<Action>, s': State)
    requires Inv(s) && Enabled(s, a) && !a.Append? && !a.Stop?
    requires Apply(s, a).Some? && Leads(Apply(s, a).value, rest, s')
    ensures Leads(s, [a] + rest, s')
  {
    assert ([a] + rest)[1..] == rest;
  }

  /** Between the swap and the end of the round: the whole batch is written and recycled. */
  lemma {:induction false} FinishBatch(s: State) returns (run: seq<Action>, s': State)
    requires Inv(s) && s.place.Writing?
    ensures Leads(s, run, s') && s'.place.Checking? && s'.running == s.running
    ensures s'.late == s.late && s'.history == s.history
    decreases |s.toWrite| - s.place.written
  {
    var a := if s.place.written < |s.toWrite| then WriteOne else Recycle;
    StepKeepsInv(s, a);
    var next := Apply(s, a).value;
    if a == Recycle {
      Stay(next);
      run, s' := [], next;
    } else {
      run, s' := FinishBatch(next);
    }
    Step(s, a, run, s');
    run := [a] + run;
  }

  /** What the swap leaves to be written is all there is. */
  lemma SwapTakesAll(s: State, a: Action)
    requires Inv(s) && Enabled(s, a) && Swaps(s, a)
    ensures Apply(s, a).Some? && Inv(Apply(s, a).value)
    ensures var s' := Apply(s, a).value;
      s'.place.Writing? && s'.late == "" && s'.history == s.history && s'.running == s.running
  {
    StepKeepsInv(s, a);
  }

  lemma UpToDate(s: State)
    requires Inv(s) && s.place.Checking? && s.late == ""
    ensures s.file == s.history
  {
    assert s.file + [] + [] == s.file;
  }

  /** From the swap on: everything accepted before it is in the file when the round is over. */
  lemma FinishFromSwap(s: State, a: Action) returns (run: seq<Action>, s': State)
    requires Inv(s) && Enabled(s, a) && Swaps(s, a)
    ensures Leads(s, run, s') && s'.place.Checking? && s'.running == s.running
    ensures s'.file == s.history == s'.history
  {
    SwapTakesAll(s, a);
    run, s' := FinishBatch(Apply(s, a).value);
    UpToDate(s');
    Step(s, a, run, s');
    run := [a] + run;
  }

  /** From taking the mutex, with or without the wait. */
  lemma FinishRound(s: State) returns (run: seq<Action>, s': State)
    requires Inv(s) && (s.place.Locking? || s.place.Waiting?)
    ensures Leads(s, run, s') && s'.place.Checking? && s'.running == s.running
    ensures s'.file == s.history == s'.history
  {
    if s.place.Waiting? {
      run, s' := FinishFromSwap(s, WakeUp);
    } else if s.buffers != [] {
      run, s' := FinishFromSwap(s, Lock);
    } else {
      StepKeepsInv(s, Lock);
      run, s' := FinishFromSwap(Apply(s, Lock).value, WakeUp);
      Step(s, Lock, run, s');
      run := [Lock] + run;
    }
  }

  /**
   While the flag is set, one round of the writer from the test of the flag writes
   everything that was accepted before it, and comes back to the test.
   */
  lemma RoundWritesAll(s: State) returns (run: seq<Action>, s': State)
    requires Inv(s) && s.place.Checking? && s.running
    ensures Leads(s, run, s') && s'.place.Checking? && s'.running
    ensures s'.file == s.history == s'.history
  {
    StepKeepsInv(s, Check);
    var next := Apply(s, Check).value;
    run, s' := FinishRound(next);
    Step(s, Check, run, s');
    run := [Check] + run;
  }

  /** After any run at all, if the flag is set the writer can still bring the file up to date with all of it. */
  lemma WriterCatchesUp(size: nat, run: seq<Action>) returns (more: seq<Action>, s': State)
    requires IsRun(Init(size), run) && Flag(run, true)
    ensures Exec(Init(size), run).Some? && Leads(Exec(Init(size), run).value, more, s')
    ensures s'.file == History(run, size)
  {
    Reachable(size, run);
    DoneOnlyIfStopped(size, run);
    var s := Exec(Init(size), run).value;
    match s.place
    case NotStarted =>
      StepKeepsInv(s, Start);
      var next := Apply(s, Start).value;
      more, s' := RoundWritesAll(next);
      Step(s, Start, more, s');
      more := [Start] + more;
    case Checking =>
      more, s' := RoundWritesAll(s);
    case Writing(k) =>
      var batch, next := FinishBatch(s);
      more, s' := RoundWritesAll(next);
      Chain(s, batch, next, more, s');
      more := batch + more;
    case _ =>
      more, s' := FinishRound(s);
  }

  lemma {:induction false} Chain(s: State, run: seq<Action>, next: State, more: seq<Action>, s': State)
    requires Leads(s, run, next) && Leads(next, more, s')
    ensures Leads(s, run + more, s')
    decreases |run|
  {
    if run == [] {
      assert run + more == more;
    } else {
      assert (run + more)[1..] == run[1..] + more;
      assert run[0] == (run + more)[0];
      Chain(Apply(s, run[0]).value, run[1..], next, more, s');
    }
  }
}
