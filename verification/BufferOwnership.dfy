/**
 Who holds which buffer object in base/AsyncLogging.cpp, and the moves of pointers
 the logger is made of. A World is a set of pointers together with the texts they
 lead to, in which no two pointers name the same buffer; every move leads from a
 World to a World.
 */
module BufferOwnership {
  import opened FixedBuffers
  import opened LogPipeline
  import opened Sequences

  /** The shared buffer pointers of the logger and the writer's own. */
  datatype Pointers = Pointers(
    front: FixedBuffer?,
    spare: FixedBuffer?,
    own1: FixedBuffer?,
    own2: FixedBuffer?,
    queue: seq<FixedBuffer>,
    batch: seq<FixedBuffer>)

  /** Which pointer names a buffer, or did so last. */
  datatype Role = Front | Spare | Own1 | Own2 | Queued(i: nat) | Batch(i: nat)

  /** `mem` has the text of every buffer, and `s` is the state of LogPipeline that results. */
  datatype WorldData = WorldData(
    p: Pointers,
    role: map<FixedBuffer, Role>,
    mem: map<FixedBuffer, string>,
    s: State)

  ghost predicate Plays(b: FixedBuffer?, r: Role, w: WorldData) {
    b != null ==> b in w.role && w.role[b] == r
  }

  /** Every buffer has one role only, so no two pointers name the same one. */
  ghost predicate Placed(w: WorldData) {
    && Plays(w.p.front, Front, w) && Plays(w.p.spare, Spare, w)
    && Plays(w.p.own1, Own1, w) && Plays(w.p.own2, Own2, w)
    && (forall i :: 0 <= i < |w.p.queue| ==> Plays(w.p.queue[i], Queued(i), w))
    && (forall i :: 0 <= i < |w.p.batch| ==> Plays(w.p.batch[i], Batch(i), w))
  }

  /** `b` is null exactly if `text` is None, and otherwise has that text. */
  ghost predicate Reads(b: FixedBuffer?, text: Option<string>, w: WorldData) {
    if b == null then text.None? else b in w.mem && text == Some(w.mem[b])
  }

  ghost predicate ReadsAll(bs: seq<FixedBuffer>, texts: seq<string>, w: WorldData) {
    |bs| == |texts| && forall i :: 0 <= i < |bs| ==> Reads(bs[i], Some(texts[i]), w)
  }

  ghost predicate Represents(w: WorldData) {
    && Placed(w) && w.role.Keys <= w.mem.Keys
    && Reads(w.p.front, w.s.front, w) && Reads(w.p.spare, w.s.spare, w)
    && Reads(w.p.own1, w.s.buffer1, w) && Reads(w.p.own2, w.s.buffer2, w)
    && ReadsAll(w.p.queue, w.s.buffers, w) && ReadsAll(w.p.batch, w.s.toWrite, w)
  }

  ghost const NOTHING := WorldData(
    Pointers(null, null, null, null, [], []), map[], map[], Init(0).(front := None, spare := None))

  type World = w: WorldData | Represents(w) ghost witness NOTHING

  /** No two pointers name the same buffer. */
  ghost predicate Distinct(p: Pointers) {
    && (forall i, j :: 0 <= i < j < |p.queue| ==> p.queue[i] != p.queue[j])
    && (forall i, j :: 0 <= i < j < |p.batch| ==> p.batch[i] != p.batch[j])
    && (forall i, j :: 0 <= i < |p.queue| && 0 <= j < |p.batch| ==> p.queue[i] != p.batch[j])
    && (forall b :: b in [p.front, p.spare, p.own1, p.own2] && b != null ==> b !in p.queue && b !in p.batch)
    && (p.front != null ==> p.front != p.spare && p.front != p.own1 && p.front != p.own2)
    && (p.spare != null ==> p.spare != p.own1 && p.spare != p.own2)
    && (p.own1 != null ==> p.own1 != p.own2)
  }

  lemma PointersAreDistinct(w: World)
    ensures Distinct(w.p)
  {
    var p := w.p;
    forall i, j | 0 <= i < j < |p.queue|
      ensures p.queue[i] != p.queue[j]
    {
      assert Plays(p.queue[i], Queued(i), w) && Plays(p.queue[j], Queued(j), w);
    }
    forall i, j | 0 <= i < j < |p.batch|
      ensures p.batch[i] != p.batch[j]
    {
      assert Plays(p.batch[i], Batch(i), w) && Plays(p.batch[j], Batch(j), w);
    }
  }

  /** The state changes in what is not a buffer. */
  ghost function WithState(w: World, s: State): World
    requires s.front == w.s.front && s.spare == w.s.spare && s.buffers == w.s.buffers
    requires s.buffer1 == w.s.buffer1 && s.buffer2 == w.s.buffer2 && s.toWrite == w.s.toWrite
  {
    w.(s := s)
  }

  /** `_buffers.push_back(std::move(_frontBuffer))`. */
  ghost function QueueFront(w: World): World
    requires w.p.front != null
  {
    WorldData(w.p.(queue := w.p.queue + [w.p.front], front := null),
              w.role[w.p.front := Queued(|w.p.queue|)], w.mem,
              w.s.(buffers := w.s.buffers + [w.s.front.value], front := None))
  }

  /** `_frontBuffer = std::move(_frontBufferBk)`. */
  ghost function SpareToFront(w: World): World
    requires w.p.front == null && w.p.spare != null
  {
    WorldData(w.p.(front := w.p.spare, spare := null), w.role[w.p.spare := Front], w.mem,
              w.s.(front := w.s.spare, spare := None))
  }

  /** `_frontBuffer = std::move(buffer1)`. */
  ghost function Own1ToFront(w: World): World
    requires w.p.front == null && w.p.own1 != null
  {
    WorldData(w.p.(front := w.p.own1, own1 := null), w.role[w.p.own1 := Front], w.mem,
              w.s.(front := w.s.buffer1, buffer1 := None))
  }

  /** `_frontBufferBk = std::move(buffer2)`. */
  ghost function Own2ToSpare(w: World): World
    requires w.p.spare == null && w.p.own2 != null
  {
    WorldData(w.p.(spare := w.p.own2, own2 := null), w.role[w.p.own2 := Spare], w.mem,
              w.s.(spare := w.s.buffer2, buffer2 := None))
  }

  /** Writing to the front buffer changes no other text. */
  ghost function WriteFront(w: World, text: string): World
    requires w.p.front != null
  {
    w.(mem := w.mem[w.p.front := text], s := w.s.(front := Some(text)))
  }

  ghost function Exchanged(r: Role): Role {
    match r
    case Queued(i) => Batch(i)
    case Batch(i) => Queued(i)
    case _ => r
  }

  /** `toWrite.swap(_buffers)`. */
  ghost function SwapLists(w: World): World {
    WorldData(w.p.(queue := w.p.batch, batch := w.p.queue), map b | b in w.role :: Exchanged(w.role[b]), w.mem,
              w.s.(buffers := w.s.toWrite, toWrite := w.s.buffers))
  }

  /** `toWrite.resize(n)` to a smaller size, or `toWrite.clear()`. */
  ghost function Shrink(w: World, n: nat): World
    requires n <= |w.p.batch|
  {
    w.(p := w.p.(batch := w.p.batch[..n]), s := w.s.(toWrite := w.s.toWrite[..n]))
  }

  /** `buffer1 = std::move(toWrite.back()); toWrite.pop_back(); buffer1->clear()`. */
  lemma BackToOwn1(w: World) returns (w': World)
    requires w.p.own1 == null && w.p.batch != []
    ensures var n, b := |w.p.batch| - 1, w.p.batch[|w.p.batch| - 1];
      && w'.p == w.p.(own1 := b, batch := w.p.batch[..n]) && w'.mem == w.mem[b := ""]
      && w'.s == w.s.(buffer1 := Some(""), toWrite := w.s.toWrite[..n])
  {
    PointersAreDistinct(w);
    var n := |w.p.batch| - 1;
    var b := w.p.batch[n];
    w' := WorldData(w.p.(own1 := b, batch := w.p.batch[..n]), w.role[b := Own1], w.mem[b := ""],
                    w.s.(buffer1 := Some(""), toWrite := w.s.toWrite[..n]));
  }

  /** The same for `buffer2`. */
  lemma BackToOwn2(w: World) returns (w': World)
    requires w.p.own2 == null && w.p.batch != []
    ensures var n, b := |w.p.batch| - 1, w.p.batch[|w.p.batch| - 1];
      && w'.p == w.p.(own2 := b, batch := w.p.batch[..n]) && w'.mem == w.mem[b := ""]
      && w'.s == w.s.(buffer2 := Some(""), toWrite := w.s.toWrite[..n])
  {
    PointersAreDistinct(w);
    var n := |w.p.batch| - 1;
    var b := w.p.batch[n];
    w' := WorldData(w.p.(own2 := b, batch := w.p.batch[..n]), w.role[b := Own2], w.mem[b := ""],
                    w.s.(buffer2 := Some(""), toWrite := w.s.toWrite[..n]));
  }

  /** `new Buffer` for a pointer that is null. */
  ghost function NewFront(w: World, b: FixedBuffer): World
    requires w.p.front == null && b !in w.mem
  {
    WorldData(w.p.(front := b), w.role[b := Front], w.mem[b := ""], w.s.(front := Some("")))
  }

  ghost function NewSpare(w: World, b: FixedBuffer): World
    requires w.p.spare == null && b !in w.mem
  {
    WorldData(w.p.(spare := b), w.role[b := Spare], w.mem[b := ""], w.s.(spare := Some("")))
  }

  ghost function NewOwn1(w: World, b: FixedBuffer): World
    requires w.p.own1 == null && b !in w.mem
  {
    WorldData(w.p.(own1 := b), w.role[b := Own1], w.mem[b := ""], w.s.(buffer1 := Some("")))
  }

  ghost function NewOwn2(w: World, b: FixedBuffer): World
    requires w.p.own2 == null && b !in w.mem
  {
    WorldData(w.p.(own2 := b), w.role[b := Own2], w.mem[b := ""], w.s.(buffer2 := Some("")))
  }

  // The steps of the logger on pointers and memory, and as sequences of moves

  /** `append`: the pointers and texts it leaves behind. `b` is the new buffer, if one is needed. */
  ghost function AppendEffect(p: Pointers, mem: map<FixedBuffer, string>, size: nat, msg: string, b: FixedBuffer)
    : (Pointers, map<FixedBuffer, string>)
    requires p.front != null && p.front in mem
    requires p.spare != null ==> p.spare in mem
  {
    if size - |mem[p.front]| > |msg| then
      (p, mem[p.front := Appended(mem[p.front], msg, size)])
    else if p.spare != null then
      (p.(queue := p.queue + [p.front], front := p.spare, spare := null),
       mem[p.spare := Appended(mem[p.spare], msg, size)])
    else
      (p.(queue := p.queue + [p.front], front := b), mem[b := ""][b := Appended("", msg, size)])
  }

  /** The writer's locked region from `_buffers.push_back` on; it writes no buffer. */
  ghost function SwapEffect(p: Pointers): Pointers
    requires p.front != null
  {
    var q := p.(front := p.own1, own1 := null, queue := p.batch, batch := p.queue + [p.front]);
    if p.spare == null then q.(spare := p.own2, own2 := null) else q
  }

  /** The rest of the writer's loop once the batch is written. The first buffer is always missing. */
  ghost function RecycleEffect(p: Pointers, mem: map<FixedBuffer, string>): (Pointers, map<FixedBuffer, string>)
    requires p.batch != [] && (p.own2 == null ==> |p.batch| >= 2)
  {
    var n := if |p.batch| > 2 then 2 else |p.batch|;
    if p.own2 == null then
      (p.(own1 := p.batch[n - 1], own2 := p.batch[n - 2], batch := []),
       mem[p.batch[n - 1] := ""][p.batch[n - 2] := ""])
    else
      (p.(own1 := p.batch[n - 1], batch := []), mem[p.batch[n - 1] := ""])
  }

  /** A World between two steps of the logger: its state has the invariant. */
  ghost predicate Settled(w: WorldData) {
    Represents(w) && Inv(w.s)
  }

  /** The pointers the logger dereferences next are not null, and they lead to buffers in use. */
  lemma LiveBuffers(w: WorldData)
    requires Settled(w)
    ensures w.p.front != null && w.p.front in w.mem
    ensures w.p.spare != null ==> w.p.spare in w.mem
    ensures w.s.place.NotStarted? ==> w.p.own1 == null && w.p.own2 == null
    ensures w.s.place.Locking? || w.s.place.Waiting? ==> w.p.own1 != null && w.p.own2 != null
    ensures w.s.front == Some(w.mem[w.p.front]) && (w.s.spare.None? <==> w.p.spare == null)
    ensures (w.s.buffer1.None? <==> w.p.own1 == null) && (w.s.buffer2.None? <==> w.p.own2 == null)
    ensures |w.p.queue| == |w.s.buffers|
    ensures forall i :: 0 <= i < |w.p.queue| ==> w.p.queue[i] in w.mem && w.mem[w.p.queue[i]] == w.s.buffers[i]
    ensures w.s.place.Writing? ==> w.p.own1 == null && w.p.batch != [] && (w.p.own2 == null ==> |w.p.batch| >= 2)
    ensures |w.p.batch| == |w.s.toWrite|
    ensures forall i :: 0 <= i < |w.p.batch| ==> w.p.batch[i] in w.mem && w.mem[w.p.batch[i]] == w.s.toWrite[i]
  {
    forall i | 0 <= i < |w.p.batch|
      ensures w.p.batch[i] in w.mem && w.mem[w.p.batch[i]] == w.s.toWrite[i]
    {
      assert Reads(w.p.batch[i], Some(w.s.toWrite[i]), w);
    }
    forall i | 0 <= i < |w.p.queue|
      ensures w.p.queue[i] in w.mem && w.mem[w.p.queue[i]] == w.s.buffers[i]
    {
      assert Reads(w.p.queue[i], Some(w.s.buffers[i]), w);
    }
  }

  lemma InitMoves(size: nat, b: FixedBuffer, c: FixedBuffer) returns (w: WorldData)
    requires b != c
    ensures Settled(w) && w.s == Init(size)
    ensures w.p == Pointers(b, c, null, null, [], []) && w.mem == map[b := "", c := ""]
  {
    w := WithState(NewSpare(NewFront(NOTHING, b), c), Init(size));
  }

  lemma StoreMoves(w: World, msg: string, b: FixedBuffer) returns (w': World)
    requires w.p.front != null
    requires w.p.spare == null && w.s.size - |w.mem[w.p.front]| <= |msg| ==> b !in w.mem
    ensures (w'.p, w'.mem) == AppendEffect(w.p, w.mem, w.s.size, msg, b)
    ensures AfterAppend(w.s, msg) == Some(w'.s.(history := w.s.history + Entry(msg, w.s.size),
                                                late := w.s.late + Entry(msg, w.s.size)))
  {
    w' := w;
    if w.s.size - |w.mem[w.p.front]| <= |msg| {
      w' := QueueFront(w);
      w' := if w.p.spare != null then SpareToFront(w') else NewFront(w', b);
    }
    w' := WriteFront(w', Appended(w'.mem[w'.p.front], msg, w.s.size));
  }

  lemma AppendMoves(w: WorldData, msg: string, b: FixedBuffer) returns (w': WorldData)
    requires Settled(w)
    requires w.p.spare == null && w.s.size - |w.mem[w.p.front]| <= |msg| ==> b !in w.mem
    ensures Settled(w') && Some(w'.s) == Apply(w.s, Append(msg))
    ensures (w'.p, w'.mem) == AppendEffect(w.p, w.mem, w.s.size, msg, b)
  {
    LiveBuffers(w);
    StepKeepsInv(w.s, Append(msg));
    w' := StoreMoves(w, msg, b);
    w' := WithState(w', AfterAppend(w.s, msg).value);
  }

  lemma StartMoves(w: WorldData, b: FixedBuffer, c: FixedBuffer) returns (w': WorldData)
    requires Settled(w) && w.s.place.NotStarted?
    requires w.p.own1 == null && w.p.own2 == null && b !in w.mem && c !in w.mem && b != c
    ensures Settled(w') && Some(w'.s) == Apply(w.s, Start)
    ensures w'.p == w.p.(own1 := b, own2 := c) && w'.mem == w.mem[b := ""][c := ""]
    ensures w'.s.size == w.s.size && w'.s.running && w'.s.place.Checking? && w'.s.file == w.s.file
  {
    StepKeepsInv(w.s, Start);
    w' := WithState(NewOwn2(NewOwn1(w, b), c), Apply(w.s, Start).value);
  }

  lemma SwapMoves(w: WorldData) returns (w': WorldData)
    requires Settled(w) && (w.s.place.Locking? || w.s.place.Waiting?)
    ensures Settled(w') && Some(w'.s) == AfterSwap(w.s)
    ensures w'.p == SwapEffect(w.p) && w'.mem == w.mem
  {
    if w.s.place.Waiting? { StepKeepsInv(w.s, WakeUp); } else { StepKeepsInv(w.s.(place := Waiting), WakeUp); }
    LiveBuffers(w);
    hide Represents, Inv;
    var w1 := SwapLists(Own1ToFront(QueueFront(w)));
    if w.p.spare == null {
      w1 := Own2ToSpare(w1);
    }
    w' := WithState(w1, AfterSwap(w.s).value);
  }

  lemma RefillMoves(w: World) returns (w': World)
    requires w.p.own1 == null && w.p.batch != [] && (w.p.own2 == null ==> |w.p.batch| >= 2)
    ensures (w'.p, w'.mem) == RecycleEffect(w.p, w.mem)
    ensures w'.s == w.s.(buffer1 := Some(""), toWrite := [],
                         buffer2 := if w.p.own2 == null then Some("") else w.s.buffer2)
  {
    w' := w;
    if |w.p.batch| > 2 {
      w' := Shrink(w, 2);
    }
    w' := BackToOwn1(w');
    if w.p.own2 == null {
      w' := BackToOwn2(w');
    }
    w' := Shrink(w', 0);
  }

  lemma RecycleMoves(w: WorldData) returns (w': WorldData)
    requires Settled(w) && Enabled(w.s, Recycle)
    ensures Settled(w') && Some(w'.s) == Apply(w.s, Recycle)
    ensures (w'.p, w'.mem) == RecycleEffect(w.p, w.mem)
  {
    LiveBuffers(w);
    StepKeepsInv(w.s, Recycle);
    RecycleRefills(w.s);
    w' := RefillMoves(w);
    w' := WithState(w', Apply(w.s, Recycle).value);
  }

  /** The steps that move no buffer. */
  lemma StillMoves(w: WorldData, a: Action) returns (w': WorldData)
    requires Settled(w) && Enabled(w.s, a)
    requires a.Stop? || a.Check? || a.WriteOne? || (a.Lock? && w.s.buffers == [])
    ensures Settled(w') && Some(w'.s) == Apply(w.s, a) && w'.p == w.p && w'.mem == w.mem
  {
    StepKeepsInv(w.s, a);
    w' := WithState(w, Apply(w.s, a).value);
  }
}
