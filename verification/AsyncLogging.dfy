/** The logger of base/AsyncLogging.cpp in memory. Its steps are those of LogPipeline. */
module AsyncLoggings {
  import opened BufferOwnership
  import opened FileOutput
  import opened FixedBuffers
  import opened LogPipeline
  import opened Sequences

  class AsyncLogging {
    const size: nat
    var isRunning: bool
    var frontBuffer: FixedBuffer?
    var frontBufferBk: FixedBuffer?
    var buffers: seq<FixedBuffer>
    // the writer's own
    var buffer1: FixedBuffer?
    var buffer2: FixedBuffer?
    var toWrite: seq<FixedBuffer>
    var place: Place
    var file: string
    /** The text of every buffer, the objects used, and what the fields stand for. */
    ghost var mem: map<FixedBuffer, string>
    ghost var repr: set<object>
    ghost var world: WorldData

    /** The buffers have the texts that `mem` says, and no two of them share their storage. */
    ghost predicate Backed()
      reads this`mem, this`repr, repr
    {
      && (forall b :: b in mem ==>
            b in repr && b.buf in repr && b.Valid() && b.buf.Length == size && b.Text() == mem[b])
      && (forall b, c :: b in mem && c in mem && b.buf == c.buf ==> b == c)
    }

    ghost function Pointing(): Pointers
      reads this
    {
      Pointers(frontBuffer, frontBufferBk, buffer1, buffer2, buffers, toWrite)
    }

    /** The fields mean the state `world.s`, which has the invariant, and no two of them hold the same buffer. */
    ghost predicate Valid()
      reads this, repr
    {
      && this !in repr && Backed() && Settled(world)
      && world.p == Pointing() && world.mem == mem
      && world.s.size == size && world.s.running == isRunning && world.s.place == place && world.s.file == file
    }

    /** `new Buffer`. */
    method NewBuffer() returns (b: FixedBuffer)
      requires Backed()
      modifies this`mem, this`repr
      ensures Backed() && b !in old(mem) && mem == old(mem)[b := ""]
      ensures repr >= old(repr) && fresh(repr - old(repr))
    {
      b := new FixedBuffer(size);
      mem := mem[b := ""];
      repr := repr + {b, b.buf};
    }

    /** `new Buffer` twice. */
    method NewBuffers() returns (b: FixedBuffer, c: FixedBuffer)
      requires this !in repr && Backed()
      modifies this`mem, this`repr
      ensures this !in repr && Backed() && repr >= old(repr) && fresh(repr - old(repr))
      ensures b !in old(mem) && c !in old(mem) && b != c && mem == old(mem)[b := ""][c := ""]
    {
      hide Backed;
      b := NewBuffer();
      c := NewBuffer();
    }

    /** The two buffers of a new logger. */
    method NewShared()
      requires this !in repr && Backed() && mem == map[]
      requires isRunning && place.NotStarted? && file == ""
      requires buffer1 == null && buffer2 == null && buffers == [] && toWrite == []
      modifies this`frontBuffer, this`frontBufferBk, this`mem, this`repr, this`world
      ensures Valid() && world.s == Init(size) && fresh(repr - old(repr))
    {
      hide Settled, Backed;
      frontBuffer, frontBufferBk := NewBuffers();
      world := InitMoves(size, frontBuffer, frontBufferBk);
    }

    /** The two buffers of a new writer. */
    method NewOwn()
      requires this !in repr && Backed()
      modifies this`buffer1, this`buffer2, this`mem, this`repr
      ensures this !in repr && Backed() && repr >= old(repr) && fresh(repr - old(repr))
      ensures buffer1 != null && buffer2 != null && buffer1 != buffer2
      ensures buffer1 !in old(mem) && buffer2 !in old(mem) && mem == old(mem)[buffer1 := ""][buffer2 := ""]
    {
      hide Backed;
      buffer1, buffer2 := NewBuffers();
    }

    lemma NothingBacked()
      requires mem == map[]
      ensures Backed()
    {
    }

    constructor (size: nat)
      ensures Valid() && world.s == Init(size) && fresh(repr)
    {
      this.size := size;
      isRunning, place, file := true, NotStarted, "";
      buffers, toWrite, buffer1, buffer2 := [], [], null, null;
      mem, repr := map[], {};
      new;
      hide Settled, Backed;
      NothingBacked();
      NewShared();
    }

    // ------------------------------------------------------------ the appenders

    /** `append`, one locked region. */
    method Append(msg: string)
      requires Valid()
      modifies this, repr
      ensures Valid() && Some(world.s) == Apply(old(world.s), Action.Append(msg))
      ensures repr >= old(repr) && fresh(repr - old(repr))
      ensures old(frontBuffer != null && frontBuffer.Rest() > |msg|) ==>
        frontBuffer == old(frontBuffer) && buffers == old(buffers) && frontBufferBk == old(frontBufferBk)
      ensures old(frontBuffer != null && frontBuffer.Rest() <= |msg|) ==>
        && frontBufferBk == null && |buffers| == old(|buffers|) + 1
        && buffers[|buffers| - 1] == old(frontBuffer) && buffers[..|buffers| - 1] == old(buffers)
        && (old(frontBufferBk) != null ==> frontBuffer == old(frontBufferBk))
    {
      hide Settled, Backed;
      LiveBuffers(world);
      RestOf(frontBuffer);
      ghost var b := Store(msg);
      world := AppendMoves(world, msg, b);
    }

    /** The body of `append`; `b` is the new buffer if there is one. */
    method Store(msg: string) returns (ghost b: FixedBuffer)
      requires this !in repr && Backed() && frontBuffer != null && frontBuffer in mem
      requires frontBufferBk != null ==> frontBufferBk in mem
      modifies this`frontBuffer, this`frontBufferBk, this`buffers, this`mem, this`repr, repr
      ensures Backed()
      ensures (Pointing(), mem) == AppendEffect(old(Pointing()), old(mem), size, msg, b)
      ensures old(frontBufferBk) == null && size - |old(mem)[old(frontBuffer)]| <= |msg| ==> b !in old(mem)
      ensures repr >= old(repr) && fresh(repr - old(repr))
    {
      hide Backed;
      RestOf(frontBuffer);
      if frontBuffer.Rest() <= |msg| {
        b := ReplaceFront();
      } else {
        b := frontBuffer;
      }
      FillFront(msg);
    }

    lemma RestOf(b: FixedBuffer)
      requires Backed() && b in mem
      ensures b.Rest() == size - |mem[b]|
    {
    }

    /** The full front buffer joins the others, and the spare one or a new one takes its place. */
    method ReplaceFront() returns (ghost b: FixedBuffer)
      requires this !in repr && Backed() && frontBuffer != null
      modifies this`frontBuffer, this`frontBufferBk, this`buffers, this`mem, this`repr
      ensures Backed() && buffers == old(buffers + [frontBuffer]) && frontBufferBk == null && frontBuffer == b
      ensures old(frontBufferBk) != null ==> b == old(frontBufferBk) && mem == old(mem)
      ensures old(frontBufferBk) == null ==> b !in old(mem) && mem == old(mem)[b := ""]
      ensures repr >= old(repr) && fresh(repr - old(repr))
    {
      buffers := buffers + [frontBuffer];
      if frontBufferBk != null {
        frontBuffer, frontBufferBk := frontBufferBk, null;
      } else {
        frontBuffer := NewBuffer();
      }
      b := frontBuffer;
    }

    /** `_frontBuffer->append(msg, len)`. */
    method FillFront(msg: string)
      requires this !in repr && Backed() && frontBuffer != null && frontBuffer in mem
      modifies this`mem, repr
      ensures Backed()
      ensures mem == old(mem)[frontBuffer := Appended(old(mem)[frontBuffer], msg, size)]
    {
      frontBuffer.Append(msg);
      mem := mem[frontBuffer := frontBuffer.Text()];
    }

    // ------------------------------------------------- the writer, in order

    /** `start`, up to the writer's loop. */
    method Start()
      requires Valid() && Enabled(world.s, Action.Start)
      modifies this
      ensures Valid() && Some(world.s) == Apply(old(world.s), Action.Start)
      ensures repr >= old(repr) && fresh(repr - old(repr))
    {
      hide Settled, Backed, Apply;
      LiveBuffers(world);
      isRunning, place := true, Checking;
      NewOwn();
      world := StartMoves(world, buffer1, buffer2);
    }

    /** The flag that the destructor clears. */
    method Stop()
      requires Valid()
      modifies this`isRunning, this`world
      ensures Valid() && Some(world.s) == Apply(old(world.s), Action.Stop)
      ensures !isRunning
    {
      hide Settled, Backed;
      isRunning := false;
      world := StillMoves(world, Action.Stop);
    }

    /** `while (_isRuning)`. */
    method Check()
      requires Valid() && Enabled(world.s, Action.Check)
      modifies this`place, this`world
      ensures Valid() && Some(world.s) == Apply(old(world.s), Action.Check)
      ensures place.Done? <==> !isRunning
    {
      hide Settled, Backed;
      place := if isRunning then Locking else Done;
      world := StillMoves(world, Action.Check);
    }

    /** The locked region up to the wait, and past it if there is none. */
    method Lock()
      requires Valid() && Enabled(world.s, Action.Lock)
      modifies this
      ensures Valid() && Some(world.s) == Apply(old(world.s), Action.Lock) && repr == old(repr)
      ensures place.Waiting? <==> old(buffers) == []
    {
      hide Settled, Backed;
      LiveBuffers(world);
      if |buffers| == 0 {
        place := Waiting;
        world := StillMoves(world, Action.Lock);
      } else {
        Swap();
      }
    }

    /** The wait is over, for whatever reason. */
    method WakeUp()
      requires Valid() && Enabled(world.s, Action.WakeUp)
      modifies this
      ensures Valid() && Some(world.s) == Apply(old(world.s), Action.WakeUp) && repr == old(repr)
    {
      hide Settled, Backed;
      Swap();
    }

    /** All that was collected changes hands for the writer's two empty buffers. */
    method Swap()
      requires Valid() && (place.Locking? || place.Waiting?)
      modifies this
      ensures Valid() && Some(world.s) == AfterSwap(old(world.s)) && repr == old(repr)
    {
      hide Settled, Backed;
      LiveBuffers(world);
      ghost var w := SwapMoves(world);
      MoveOut();
      place := Writing(0);
      world := w;
    }

    method MoveOut()
      requires frontBuffer != null
      modifies this`buffers, this`frontBuffer, this`frontBufferBk, this`buffer1, this`buffer2, this`toWrite
      ensures Pointing() == SwapEffect(old(Pointing()))
    {
      buffers := buffers + [frontBuffer];
      frontBuffer, buffer1 := buffer1, null;
      toWrite, buffers := buffers, toWrite;
      if frontBufferBk == null {
        frontBufferBk, buffer2 := buffer2, null;
      }
    }

    /** One turn of the loop over `toWrite`. */
    method WriteOne()
      requires Valid() && Enabled(world.s, Action.WriteOne)
      modifies this`file, this`place, this`world
      ensures Valid() && Some(world.s) == Apply(old(world.s), Action.WriteOne)
    {
      hide Settled, Backed;
      LiveBuffers(world);
      ghost var w := StillMoves(world, Action.WriteOne);
      WriteOut(toWrite[place.written]);
      place := Writing(place.written + 1);
      world := w;
    }

    /** `fwriten(file, buf->data(), buf->length())`, where `fwrite` takes the whole text at once. */
    method WriteOut(b: FixedBuffer)
      requires Backed() && b in mem
      modifies this`file
      ensures Backed() && file == old(file) + mem[b]
    {
      var text := b.buf[..b.cur];
      var counts := if |text| == 0 then [] else [|text|];
      RightExactlyIfComplete(counts, |text|);
      file := Fwriten(file, text, counts);
    }

    /** What is left of the loop body once all is written. */
    method Recycle()
      requires Valid() && Enabled(world.s, Action.Recycle)
      modifies this, repr
      ensures Valid() && Some(world.s) == Apply(old(world.s), Action.Recycle) && repr == old(repr)
    {
      hide Settled, Backed;
      LiveBuffers(world);
      ghost var w := RecycleMoves(world);
      Refill();
      place := Checking;
      world := w;
    }

    method Refill()
      requires this !in repr && Backed() && buffer1 == null && toWrite != [] && (buffer2 == null ==> |toWrite| >= 2)
      requires forall b :: b in toWrite ==> b in mem
      modifies this`buffer1, this`buffer2, this`toWrite, this`mem, repr
      ensures Backed() && repr == old(repr)
      ensures (Pointing(), mem) == RecycleEffect(old(Pointing()), old(mem))
    {
      hide Backed;
      if |toWrite| > 2 {
        toWrite := toWrite[..2];
      }
      if buffer1 == null {
        buffer1 := TakeBack();
      }
      if buffer2 == null {
        buffer2 := TakeBack();
      }
      toWrite := [];
    }

    /** `std::move(toWrite.back())`, `pop_back` and `clear`. */
    method TakeBack() returns (b: FixedBuffer)
      requires this !in repr && Backed() && toWrite != [] && toWrite[|toWrite| - 1] in mem
      modifies this`toWrite, this`mem, repr
      ensures Backed() && b == old(toWrite[|toWrite| - 1]) && toWrite == old(toWrite)[..|old(toWrite)| - 1]
      ensures mem == old(mem)[b := ""]
    {
      b := toWrite[|toWrite| - 1];
      toWrite := toWrite[..|toWrite| - 1];
      b.Clear();
      mem := mem[b := ""];
    }

    // ----------------------------------------------------- what memory holds

    /** The texts of some buffers, one after the other. */
    ghost function TextOf(bs: seq<FixedBuffer>): string
      requires Backed() && forall i :: 0 <= i < |bs| ==> bs[i] in mem
      reads this`mem, this`repr, repr
    {
      if bs == [] then "" else bs[0].Text() + TextOf(bs[1..])
    }

    lemma {:induction false} TextOfIs(bs: seq<FixedBuffer>, texts: seq<string>)
      requires Backed() && |bs| == |texts|
      requires forall i :: 0 <= i < |bs| ==> bs[i] in mem && mem[bs[i]] == texts[i]
      ensures TextOf(bs) == Flatten(texts)
      decreases |bs|
    {
      if bs != [] {
        TextOfIs(bs[1..], texts[1..]);
      }
    }

    ghost function UnwrittenBuffers(): seq<FixedBuffer>
      reads this
    {
      if place.Writing? && place.written <= |toWrite| then toWrite[place.written..] else []
    }

    /** The file and, in the order they will get there, the characters in memory that are to follow. */
    ghost function Kept(): string
      requires Valid()
      reads this, repr
    {
      LiveBuffers(world);
      file + TextOf(UnwrittenBuffers()) + (TextOf(buffers) + frontBuffer.Text())
    }

    lemma KeptIs()
      requires Valid()
      ensures world.s.front.Some?
      ensures Kept() == file + Flatten(Unwritten(world.s)) + (Flatten(world.s.buffers) + world.s.front.value)
    {
      hide Settled;
      LiveBuffers(world);
      TextOfIs(UnwrittenBuffers(), Unwritten(world.s));
      TextOfIs(buffers, world.s.buffers);
    }

    /** That is everything accepted so far, in lock order. */
    lemma KeptIsHistory()
      requires Valid()
      ensures Kept() == world.s.history
    {
      KeptIs();
      Regroup(file, Flatten(Unwritten(world.s)), world.s.late);
    }

    ghost predicate Empty(b: FixedBuffer?)
      requires Backed()
      reads this`mem, this`repr, repr
    {
      b != null && b in mem && b.Text() == ""
    }

    /**
     What the next `append` and the next round of the writer rely on: no buffer is named
     twice, there is a front buffer, every other buffer that is not queued or being
     written is empty, and what is missing can be replaced.
     */
    ghost predicate Supplied()
      requires Backed()
      reads this, repr
    {
      && Distinct(Pointing())
      && frontBuffer != null
      && (Empty(frontBufferBk) || (frontBufferBk == null && buffers != []))
      && (place.Checking? || place.Locking? || place.Waiting? || place.Done? ==> Empty(buffer1) && Empty(buffer2))
      && (place.Writing? ==> toWrite != [] && (Empty(buffer2) || (buffer2 == null && |toWrite| >= 2)))
    }

    lemma ValidIsSupplied()
      requires Valid()
      ensures Supplied()
    {
      PointersAreDistinct(world);
    }

    method Perform(a: Action)
      requires Valid() && Enabled(world.s, a)
      modifies this, repr
      ensures Valid() && Some(world.s) == Apply(old(world.s), a)
      ensures repr >= old(repr) && fresh(repr - old(repr))
    {
      hide Valid;
      match a
      case Append(msg) => Append(msg);
      case Stop => Stop();
      case Start => Start();
      case Check => Check();
      case Lock => Lock();
      case WakeUp => WakeUp();
      case WriteOne => WriteOne();
      case Recycle => Recycle();
    }
  }

  /**
   A logger in memory goes through any interleaving whatever. No null buffer is used, no
   empty vector is asked for its back, and the logger stays supplied with buffers. The
   file and the buffers still to be written hold every accepted message, whole, once and
   in lock order.
   */
  method Serve(size: nat, run: seq<Action>) returns (l: AsyncLogging)
    requires IsRun(Init(size), run)
    ensures fresh(l) && l.Valid() && Exec(Init(size), run) == Some(l.world.s)
    ensures l.Supplied()
    ensures l.Kept() == History(run, size) && l.file <= History(run, size)
    ensures l.isRunning == Flag(run, true) && (l.place.Done? ==> !l.isRunning)
  {
    hide Settled, AsyncLogging.Backed, AsyncLogging.Supplied, AsyncLogging.Kept;
    l := new AsyncLogging(size);
    for i := 0 to |run|
      invariant l.Valid() && fresh(l) && fresh(l.repr)
      invariant IsRun(l.world.s, run[i..]) && Exec(l.world.s, run[i..]) == Exec(Init(size), run)
    {
      l.Perform(run[i]);
    }
    OrderedConservation(size, run);
    DoneOnlyIfStopped(size, run);
    l.KeptIs();
    l.ValidIsSupplied();
  }
}
