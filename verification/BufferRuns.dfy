/** Whole lives of a Buffer: any sequence of operations against a plain byte sequence. */
module BufferRuns {
  import opened Buffers
  import opened Sequences

  datatype Op =
    | Append(xs: seq<byte>)
    | Prepend(xs: seq<byte>)
    | Retrieve(n: nat)
    | RetrieveAll
    | RetrieveAsString(n: nat)
    | Read(input: Option<seq<byte>>)

  /**
   The byte sequence a buffer stands for, the longest it has ever been, and
   `debt`: how many prepended bytes have not been read again.
   */
  datatype Model = Model(contents: seq<byte>, peak: nat, debt: nat)

  function ContentsAfter(s: seq<byte>, op: Op): seq<byte> {
    match op
    case Append(xs) => s + xs
    case Prepend(xs) => xs + s
    case Retrieve(n) => Dropped(s, n)
    case RetrieveAll => []
    case RetrieveAsString(n) => Dropped(s, n)
    case Read(input) => if input.Some? then s + input.value else s
  }

  function DebtAfter(debt: nat, op: Op): nat {
    match op
    case Append(xs) => debt
    case Prepend(xs) => debt + |xs|
    case Retrieve(n) => Max(debt - n, 0)
    case RetrieveAll => 0
    case RetrieveAsString(n) => Max(debt - n, 0)
    case Read(input) => debt
  }

  function After(m: Model, op: Op): Model {
    var contents := ContentsAfter(m.contents, op);
    Model(contents, Max(m.peak, |contents|), DebtAfter(m.debt, op))
  }

  function AfterAll(ops: seq<Op>): Model {
    if ops == [] then
      Model([], 0, 0)
    else
      After(AfterAll(ops[..|ops| - 1]), ops[|ops| - 1])
  }

  /** What the buffer demands of its caller, and `readv` of the kernel. */
  predicate Allowed(op: Op, readable: nat, headroom: nat, offered: nat) {
    match op
    case Prepend(xs) => |xs| <= headroom
    case RetrieveAsString(n) => n <= readable
    case Read(input) => input.Some? ==> |input.value| <= offered
    case _ => true
  }

  /** A condition on the abstract history under which an operation is allowed, wherever the window lies. */
  predicate Safe(m: Model, op: Op) {
    Allowed(op, |m.contents|, Max(PREPEND_SIZE - m.debt, 0), EXTRA_SIZE)
  }

  /**
   Performs `ops` on a new buffer, up to the first one that is not allowed. The
   buffer holds exactly the bytes of the abstract sequence; its vector is bounded
   by twice the longest that sequence has been; and a history that is safe on the
   abstract side is performed to the end. The last clause says when the `int`
   indices of the original cannot overflow.
   */
  method Replay(ops: seq<Op>) returns (k: nat, contents: seq<byte>, headroom: nat, offered: nat, size: nat)
    ensures k <= |ops|
    ensures contents == AfterAll(ops[..k]).contents
    ensures size <= CapacityBound(AfterAll(ops[..k]).peak)
    ensures PREPEND_SIZE <= headroom + AfterAll(ops[..k]).debt
    ensures EXTRA_SIZE <= offered
    ensures k < |ops| ==> !Allowed(ops[k], |contents|, headroom, offered)
    ensures (forall i :: 0 <= i < |ops| ==> Safe(AfterAll(ops[..i]), ops[i])) ==> k == |ops|
    ensures AfterAll(ops[..k]).peak < 0x4000_0000 - 3 ==> size <= 0x7FFF_FFFF
  {
    var b := new Buffer(0);
    k := 0;
    while k < |ops| && Allowed(ops[k], b.ReadableBytes(), b.readIndex, b.Offered())
      invariant fresh(b) && fresh(b.data) && b.Valid()
      invariant 0 <= k <= |ops|
      invariant b.Contents() == AfterAll(ops[..k]).contents
      invariant b.peak == AfterAll(ops[..k]).peak
      invariant PREPEND_SIZE <= b.readIndex + AfterAll(ops[..k]).debt
    {
      assert ops[..k + 1][..k] == ops[..k];
      Perform(b, ops[k], AfterAll(ops[..k]).debt);
      k := k + 1;
    }
    contents := b.data[b.readIndex..b.writeIndex];
    headroom, offered, size := b.readIndex, b.Offered(), b.data.Length;
    if k < |ops| {
      assert !Safe(AfterAll(ops[..k]), ops[k]);
    }
  }

  /** One operation moves the buffer as it moves the abstract sequence. */
  method Perform(b: Buffer, op: Op, ghost debt: nat)
    requires b.Valid() && PREPEND_SIZE <= b.readIndex + debt
    requires Allowed(op, |b.Contents()|, b.readIndex, b.Offered())
    modifies b, b.data
    ensures b.Valid() && (b.data == old(b.data) || fresh(b.data))
    ensures b.Contents() == ContentsAfter(old(b.Contents()), op)
    ensures b.peak == Max(old(b.peak), |b.Contents()|)
    ensures PREPEND_SIZE <= b.readIndex + DebtAfter(debt, op)
  {
    match op
    case Append(xs) => b.Append(xs);
    case Prepend(xs) => b.Prepend(xs);
    case Retrieve(n) => b.Retrieve(n);
    case RetrieveAll => b.RetrieveAll();
    case RetrieveAsString(n) => var _ := b.RetrieveAsString(n);
    case Read(input) => var _ := b.ReadFromFd(input);
  }
}
