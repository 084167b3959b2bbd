/**
 The asynchronous logger of base/AsyncLogging.cpp as a machine on the texts of its
 buffers. Any number of threads append; one thread, the writer, runs the loop.
 Every step is one stretch of code under the mutex or private to the writer. A
 buffer pointer is Some(text) or, when null, None.
 */
module LogPipeline {
  import opened FixedBuffers
  import opened Sequences

  datatype Place =
    | NotStarted
    | Checking               // about to test `_isRuning`
    | Locking                // about to take the mutex
    | Waiting                // inside `_cond.wait(3)`
    | Writing(written: nat)  // `written` buffers of `toWrite` are in the file
    | Done

  /**
   `front` and `spare` are `_frontBuffer` and `_frontBufferBk`; `buffer1`, `buffer2`
   and `toWrite` are the writer's own. `history` is everything accepted so far, and
   `late` the part of it accepted since the last swap.
   */
  datatype State = State(
    size: nat,
    running: bool,
    front: Option<string>,
    spare: Option<string>,
    buffers: seq<string>,
    place: Place,
    buffer1: Option<string>,
    buffer2: Option<string>,
    toWrite: seq<string>,
    file: string,
    history: string,
    late: string)

  datatype Action =
    | Append(msg: string)
    | Stop
    | Start
    | Check
    | Lock
    | WakeUp
    | WriteOne
    | Recycle

  function Init(size: nat): State {
    State(size, true, Some(""), Some(""), [], NotStarted, None, None, [], "", "", "")
  }

  /** What a message contributes: itself and a space, or nothing if no buffer could ever hold it. */
  function Entry(msg: string, size: nat): string {
    if |msg| < size then msg + " " else ""
  }

  predicate Enabled(s: State, a: Action) {
    match a
    case Append(msg) => true
    case Stop => true
    case Start => s.place.NotStarted?
    case Check => s.place.Checking?
    case Lock => s.place.Locking?
    case WakeUp => s.place.Waiting?
    case WriteOne => s.place.Writing? && s.place.written < |s.toWrite|
    case Recycle => s.place.Writing? && s.place.written >= |s.toWrite|
  }

  function AfterAppend(s: State, msg: string): Option<State> {
    if s.front.None? then
      None
    else
      var recorded := s.(history := s.history + Entry(msg, s.size), late := s.late + Entry(msg, s.size));
      if s.size - |s.front.value| > |msg| then
        Some(recorded.(front := Some(Appended(s.front.value, msg, s.size))))
      else
        var next := if s.spare.Some? then s.spare.value else "";
        Some(recorded.(buffers := s.buffers + [s.front.value],
                       spare := None,
                       front := Some(Appended(next, msg, s.size))))
  }

  /** The rest of the writer's locked region, from `_buffers.push_back` on. */
  function AfterSwap(s: State): Option<State> {
    if s.front.None? then
      None
    else
      var swapped := s.(front := s.buffer1, buffer1 := None,
                        toWrite := s.buffers + [s.front.value], buffers := s.toWrite,
                        place := Writing(0), late := "");
      Some(if s.spare.None? then swapped.(spare := s.buffer2, buffer2 := None) else swapped)
  }

  /** Takes the last buffer of `stock`, emptied, if `own` is null; None when there is none to take. */
  function Refilled(own: Option<string>, stock: seq<string>): Option<(Option<string>, seq<string>)> {
    if own.Some? then Some((own, stock))
    else if stock == [] then None
    else Some((Some(""), stock[..|stock| - 1]))
  }

  function AfterRecycle(s: State): Option<State> {
    var stock := if |s.toWrite| > 2 then s.toWrite[..2] else s.toWrite;
    var first := Refilled(s.buffer1, stock);
    if first.None? then
      None
    else
      var second := Refilled(s.buffer2, first.value.1);
      if second.None? then
        None
      else
        Some(s.(buffer1 := first.value.0, buffer2 := second.value.0, toWrite := [], place := Checking))
  }

  /** None is undefined behaviour: a null buffer is used or `back` is called on an empty vector. */
  function Apply(s: State, a: Action): Option<State>
    requires Enabled(s, a)
  {
    match a
    case Append(msg) => AfterAppend(s, msg)
    case Stop => Some(s.(running := false))
    case Start => Some(s.(running := true, buffer1 := Some(""), buffer2 := Some(""), toWrite := [], place := Checking))
    case Check => Some(s.(place := if s.running then Locking else Done))
    case Lock => if s.buffers == [] then Some(s.(place := Waiting)) else AfterSwap(s)
    case WakeUp => AfterSwap(s)
    case WriteOne =>
      Some(s.(file := s.file + s.toWrite[s.place.written], place := Writing(s.place.written + 1)))
    case Recycle => AfterRecycle(s)
  }

  ghost predicate IsRun(s: State, run: seq<Action>)
    decreases |run|
  {
    run == [] ||
    (Enabled(s, run[0]) && (Apply(s, run[0]).Some? ==> IsRun(Apply(s, run[0]).value, run[1..])))
  }

  ghost function Exec(s: State, run: seq<Action>): Option<State>
    requires IsRun(s, run)
    decreases |run|
  {
    if run == [] then Some(s)
    else if Apply(s, run[0]).None? then None
    else Exec(Apply(s, run[0]).value, run[1..])
  }

  /** What the messages of a run amount to, in lock order. */
  function History(run: seq<Action>, size: nat): string {
    if run == [] then ""
    else (if run[0].Append? then Entry(run[0].msg, size) else "") + History(run[1..], size)
  }

  // ---------------------------------------------------------------- invariant

  /** The buffers handed to the writer that are not in the file yet. */
  function Unwritten(s: State): seq<string> {
    if s.place.Writing? && s.place.written <= |s.toWrite| then s.toWrite[s.place.written..] else []
  }

  /** Who holds a buffer at which point, and which of them are empty. */
  ghost predicate Held(s: State) {
    && s.front.Some?
    && (s.spare.None? ==> s.buffers != [])
    && (s.spare.Some? ==> s.spare.value == "")
    && (s.buffer1.Some? ==> s.buffer1.value == "")
    && (s.buffer2.Some? ==> s.buffer2.value == "")
    && (s.place.Done? ==> !s.running)
    && match s.place
       case NotStarted => s.buffer1.None? && s.buffer2.None? && s.toWrite == []
       case Writing(written) =>
         && written <= |s.toWrite| && s.toWrite != []
         && s.buffer1.None?
         && (s.buffer2.None? ==> |s.toWrite| >= 2)
       case _ => s.buffer1.Some? && s.buffer2.Some? && s.toWrite == []
  }

  /** No byte is lost, doubled or moved on its way from the appenders to the buffers handed over. */
  ghost predicate Collected(s: State)
    requires s.front.Some?
  {
    s.late == Flatten(s.buffers) + s.front.value
  }

  /** Nor on its way from there to the file. */
  ghost predicate Conserved(s: State) {
    s.history == s.file + Flatten(Unwritten(s)) + s.late
  }

  ghost predicate Inv(s: State) {
    Held(s) && Collected(s) && Conserved(s)
  }

  lemma StepKeepsHeld(s: State, a: Action)
    requires Held(s) && Enabled(s, a)
    ensures Apply(s, a).Some? && Held(Apply(s, a).value)
  {
  }

  /** The writer ends each round with two empty buffers of its own again. */
  lemma RecycleRefills(s: State)
    requires Held(s) && Enabled(s, Recycle)
    ensures Apply(s, Recycle) ==
      Some(s.(buffer1 := Some(""), buffer2 := Some(""), toWrite := [], place := Checking))
  {
  }

  lemma AppendKeepsCollected(s: State, msg: string)
    requires Held(s) && Collected(s)
    ensures AfterAppend(s, msg).Some? && AfterAppend(s, msg).value.front.Some?
    ensures Collected(AfterAppend(s, msg).value)
  {
    var front := s.front.value;
    if s.size - |front| > |msg| {
      Regroup(front, msg, " ");
      Regroup(Flatten(s.buffers), front, msg + " ");
    } else {
      FlattenSnoc(s.buffers, front);
      assert "" + msg + " " == msg + " ";
    }
  }

  lemma SwapKeepsConserved(s: State)
    requires Held(s) && Collected(s) && Conserved(s) && (s.place.Locking? || s.place.Waiting?)
    ensures AfterSwap(s).Some? && AfterSwap(s).value.front.Some?
    ensures Collected(AfterSwap(s).value) && Conserved(AfterSwap(s).value)
  {
    var s' := AfterSwap(s).value;
    FlattenSnoc(s.buffers, s.front.value);
    assert Unwritten(s') == s.buffers + [s.front.value];
    assert s.file + Flatten(Unwritten(s)) == s.file;
    assert s'.buffers == [] && s'.front.value == "";
  }

  lemma WriteKeepsConserved(s: State)
    requires Held(s) && Conserved(s) && Enabled(s, WriteOne)
    ensures Conserved(Apply(s, WriteOne).value)
  {
    var k := s.place.written;
    assert Unwritten(s)[1..] == s.toWrite[k + 1..];
    Regroup(s.file, s.toWrite[k], Flatten(s.toWrite[k + 1..]));
  }

  lemma StepKeepsInv(s: State, a: Action)
    requires Inv(s) && Enabled(s, a)
    ensures Apply(s, a).Some? && Inv(Apply(s, a).value)
  {
    StepKeepsHeld(s, a);
    match a
    case Append(msg) =>
      AppendKeepsCollected(s, msg);
      Regroup(s.file + Flatten(Unwritten(s)), s.late, Entry(msg, s.size));
    case Lock => if s.buffers != [] { SwapKeepsConserved(s); }
    case WakeUp => SwapKeepsConserved(s);
    case WriteOne => WriteKeepsConserved(s);
    case _ =>
  }

  lemma StepRecords(s: State, a: Action)
    requires Enabled(s, a) && Apply(s, a).Some?
    ensures var s' := Apply(s, a).value;
      s'.history == s.history + (if a.Append? then Entry(a.msg, s.size) else "") && s'.size == s.size
  {
  }

  lemma {:induction false} RunKeepsInv(s: State, run: seq<Action>)
    requires Inv(s) && IsRun(s, run)
    ensures Exec(s, run).Some? && Inv(Exec(s, run).value)
    decreases |run|
  {
    if run != [] {
      StepKeepsInv(s, run[0]);
      RunKeepsInv(Apply(s, run[0]).value, run[1..]);
    }
  }

  lemma {:induction false} RunRecords(s: State, run: seq<Action>)
    requires IsRun(s, run) && Exec(s, run).Some?
    ensures Exec(s, run).value.history == s.history + History(run, s.size)
    decreases |run|
  {
    if run != [] {
      var entry := if run[0].Append? then Entry(run[0].msg, s.size) else "";
      StepRecords(s, run[0]);
      RunRecords(Apply(s, run[0]).value, run[1..]);
      Regroup(s.history, entry, History(run[1..], s.size));
    }
  }

  lemma Reachable(size: nat, run: seq<Action>)
    requires IsRun(Init(size), run)
    ensures Exec(Init(size), run).Some? && Inv(Exec(Init(size), run).value)
    ensures Exec(Init(size), run).value.history == History(run, size)
  {
    RunKeepsInv(Init(size), run);
    RunRecords(Init(size), run);
  }

  /** Whether `_isRuning` is set after a run, read off its actions. */
  function Flag(run: seq<Action>, initial: bool): bool {
    if run == [] then initial
    else Flag(run[1..], if run[0].Start? then true else if run[0].Stop? then false else initial)
  }

  lemma {:induction false} FlagIs(s: State, run: seq<Action>)
    requires IsRun(s, run) && Exec(s, run).Some?
    ensures Exec(s, run).value.running == Flag(run, s.running)
    decreases |run|
  {
    if run != [] {
      StepSetsFlag(s, run[0]);
      FlagIs(Apply(s, run[0]).value, run[1..]);
    }
  }

  lemma StepSetsFlag(s: State, a: Action)
    requires Enabled(s, a) && Apply(s, a).Some?
    ensures Apply(s, a).value.running == if a.Start? then true else if a.Stop? then false else s.running
  {
  }

  // ------------------------------------------------------------- main results

  /**
   The front buffer is collected exactly when the message and its space do not fit behind
   what it holds; otherwise they go there, and nothing else changes hands.
   */
  lemma AppendCollectsOnlyIfFull(s: State, msg: string)
    requires s.front.Some?
    ensures var s' := AfterAppend(s, msg).value;
      && AfterAppend(s, msg).Some?
      && (if |s.front.value| + |msg| + 1 <= s.size
          then s'.front == Some(s.front.value + msg + " ") && s'.buffers == s.buffers && s'.spare == s.spare
          else s'.buffers == s.buffers + [s.front.value] && s'.spare == None &&
               (s.spare == Some("") && |msg| < s.size ==> s'.front == Some(msg + " ")))
  {
    assert "" + msg + " " == msg + " ";
  }

  /** The writer finishes only when it has been told to stop, and the flag is what was last set. */
  lemma DoneOnlyIfStopped(size: nat, run: seq<Action>)
    requires IsRun(Init(size), run)
    ensures Exec(Init(size), run).Some?
    ensures var s := Exec(Init(size), run).value;
      s.running == Flag(run, true) && (s.place.Done? ==> !Flag(run, true))
  {
    Reachable(size, run);
    FlagIs(Init(size), run);
  }

  /**
   In every interleaving: what is in the file, then the buffers being written, then
   those waiting, then the front buffer, make up exactly the accepted messages in
   lock order, each whole and followed by its space. So the file is always a prefix
   of that history.
   */
  lemma OrderedConservation(size: nat, run: seq<Action>)
    requires IsRun(Init(size), run)
    ensures Exec(Init(size), run).Some?
    ensures var s := Exec(Init(size), run).value;
      && s.front.Some?
      && s.file + Flatten(Unwritten(s)) + (Flatten(s.buffers) + s.front.value) == History(run, size)
      && s.file <= History(run, size)
  {
    Reachable(size, run);
    var s := Exec(Init(size), run).value;
    Regroup(s.file, Flatten(Unwritten(s)), s.late);
  }

  /**
   Recycling is safe in every run: no null buffer is used and no `back` hits an empty
   vector; while the writer is not writing it owns two empty buffers; the front
   buffer is always there, and if the spare is not, a full buffer is waiting.
   */
  lemma RecyclingIsSafe(size: nat, run: seq<Action>)
    requires IsRun(Init(size), run)
    ensures Exec(Init(size), run).Some?
    ensures var s := Exec(Init(size), run).value;
      && s.front.Some?
      && (s.spare == Some("") || s.buffers != [])
      && (s.place.Checking? || s.place.Locking? || s.place.Waiting? || s.place.Done? ==>
            s.buffer1 == Some("") && s.buffer2 == Some(""))
  {
    Reachable(size, run);
  }

  /** The writer takes over what has been collected. */
  predicate Swaps(s: State, a: Action) {
    a.WakeUp? || (a.Lock? && s.buffers != [])
  }

  /** The position in `run` just behind its last swap, 0 if there is none. */
  ghost function LastSwap(s: State, run: seq<Action>): (k: nat)
    requires IsRun(s, run)
    ensures k <= |run|
    decreases |run|
  {
    if run == [] || Apply(s, run[0]).None? then
      0
    else
      var k := LastSwap(Apply(s, run[0]).value, run[1..]);
      if k > 0 then k + 1 else if Swaps(s, run[0]) then 1 else 0
  }

  lemma StepRecordsLate(s: State, a: Action)
    requires Enabled(s, a) && Apply(s, a).Some?
    ensures Apply(s, a).value.late ==
      if Swaps(s, a) then "" else s.late + if a.Append? then Entry(a.msg, s.size) else ""
  {
  }

  /** `late` is what was accepted after the last swap. */
  lemma {:induction false} LateIsSinceLastSwap(s: State, run: seq<Action>)
    requires IsRun(s, run) && Exec(s, run).Some?
    ensures var k := LastSwap(s, run);
      Exec(s, run).value.late == (if k == 0 then s.late else "") + History(run[k..], s.size)
    decreases |run|
  {
    if run != [] {
      var s', rest := Apply(s, run[0]).value, run[1..];
      var k := LastSwap(s', rest);
      StepRecords(s, run[0]);
      StepRecordsLate(s, run[0]);
      LateIsSinceLastSwap(s', rest);
      if k > 0 {
        assert run[k + 1..] == rest[k..];
      } else if Swaps(s, run[0]) {
        assert rest[0..] == rest;
      } else {
        var entry := if run[0].Append? then Entry(run[0].msg, s.size) else "";
        assert rest[0..] == rest && run[0..] == run;
        Regroup(s.late, entry, History(rest, s.size));
      }
    }
  }

  /** No message appended from position `k` on fits a buffer. */
  ghost predicate NoneFits(run: seq<Action>, k: nat, size: nat) {
    forall i :: k <= i < |run| && run[i].Append? ==> |run[i].msg| >= size
  }

  lemma {:induction false} NothingAccepted(run: seq<Action>, k: nat, size: nat)
    requires k <= |run|
    ensures History(run[k..], size) == "" <==> NoneFits(run, k, size)
    decreases |run| - k
  {
    if k < |run| {
      NothingAccepted(run, k + 1, size);
      assert run[k..][1..] == run[k + 1..];
    }
  }

  /**
   What the file lacks when the writer has finished is exactly what was accepted after
   its last swap, and that is what the buffers still hold. So everything is written if
   and only if these are empty, which is so if and only if no message that fits a buffer
   was appended after that swap.
   */
  lemma LostAtShutdown(size: nat, run: seq<Action>)
    requires IsRun(Init(size), run)
    ensures Exec(Init(size), run).Some? && Exec(Init(size), run).value.front.Some?
    ensures var s := Exec(Init(size), run).value;
      var lost := History(run[LastSwap(Init(size), run)..], size);
      s.place.Done? ==>
        && s.file + lost == History(run, size)
        && Flatten(s.buffers) + s.front.value == lost
        && (s.file == History(run, size) <==> s.front.value == "" && Flatten(s.buffers) == "")
        && (s.file == History(run, size) <==> NoneFits(run, LastSwap(Init(size), run), size))
  {
    Reachable(size, run);
    LateIsSinceLastSwap(Init(size), run);
    var s := Exec(Init(size), run).value;
    var k := LastSwap(Init(size), run);
    assert (if k == 0 then Init(size).late else "") + History(run[k..], size) == History(run[k..], size);
    NothingAccepted(run, k, size);
    if s.place.Done? {
      assert s.file + Flatten(Unwritten(s)) == s.file;
      assert |s.file + s.late| == |s.file| + |s.late|;
      assert |Flatten(s.buffers) + s.front.value| == |Flatten(s.buffers)| + |s.front.value|;
    }
  }

  /** Running `run[i..]` from `s` is one step to `s'` and then `run[i + 1..]`. */
  lemma OneStep(s: State, s': State, run: seq<Action>, i: nat)
    requires i < |run| && Enabled(s, run[i]) && Apply(s, run[i]) == Some(s')
    requires IsRun(s', run[i + 1..])
    ensures IsRun(s, run[i..]) && Exec(s, run[i..]) == Exec(s', run[i + 1..])
  {
    assert run[i..][1..] == run[i + 1..];
  }

  /** Such a loss does happen: a message is logged and the logger stopped before the writer first tests `_isRuning`. */
  lemma LateMessageIsLost(size: nat, msg: string)
    requires |msg| < size
    ensures var run := [Start, Append(msg), Stop, Check];
      && IsRun(Init(size), run)
      && Exec(Init(size), run).Some? && Exec(Init(size), run).value.place.Done?
      && Exec(Init(size), run).value.file == "" && History(run, size) == msg + " "
  {
    var run := [Start, Append(msg), Stop, Check];
    var s1 := Apply(Init(size), Start).value;
    var s2 := Apply(s1, Append(msg)).value;
    var s3 := Apply(s2, Stop).value;
    var s4 := Apply(s3, Check).value;
    assert "" + (msg + " ") == msg + " ";
    OneStep(s3, s4, run, 3);
    OneStep(s2, s3, run, 2);
    OneStep(s1, s2, run, 1);
    OneStep(Init(size), s1, run, 0);
    assert run[0..] == run && run[4..] == [];
    Reachable(size, run);
  }
}
