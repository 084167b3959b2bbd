/**
 What becomes of one file descriptor in net/Channel.h and net/Epoller.cpp: the
 channel's mask and state, its entry in `_channels`, and its entry in the
 interest table of the kernel.
 */
module Registration {
  import opened Sequences

  type Mask = bv3

  const NONE: Mask := 0
  const READ: Mask := 3   // POLLIN | POLLPRI
  const WRITE: Mask := 4  // POLLOUT

  datatype ChannelState = NEW | ADDED | DELETED

  datatype Operation = CtlAdd | CtlMod | CtlDel

  /** `failures` counts the calls of `epoll_ctl` for this descriptor that the kernel turned down. */
  datatype Reg = Reg(events: Mask, state: ChannelState, listed: bool, kernel: Option<Mask>, failures: nat)

  datatype Op = EnableReading | DisableReading | EnableWriting | DisableWriting | DisableAll | Remove

  const UNREGISTERED := Reg(NONE, NEW, false, None, 0)

  /** The kernel refuses to add a descriptor it has, and to change or delete one it has not. */
  predicate Legal(kernel: Option<Mask>, operation: Operation) {
    operation.CtlAdd? <==> kernel.None?
  }

  function EpollCtl(r: Reg, operation: Operation): Reg {
    if !Legal(r.kernel, operation) then
      r.(failures := r.failures + 1)
    else
      r.(kernel := if operation.CtlDel? then None else Some(r.events))
  }

  /** `Epoller::updateChannel`. */
  function Updated(r: Reg): Reg {
    if r.state != ADDED then
      EpollCtl(r.(listed := true, state := ADDED), CtlAdd)
    else if r.events == NONE then
      EpollCtl(r, CtlDel).(state := DELETED)
    else
      EpollCtl(r, CtlMod)
  }

  /** `Epoller::removeChannel`. */
  function Removed(r: Reg): Reg {
    var r' := r.(listed := false);
    (if r.state == ADDED then EpollCtl(r', CtlDel) else r').(state := NEW)
  }

  function After(r: Reg, op: Op): Reg {
    match op
    case EnableReading => Updated(r.(events := r.events | READ))
    case DisableReading => Updated(r.(events := r.events & !READ))
    case EnableWriting => Updated(r.(events := r.events | WRITE))
    case DisableWriting => Updated(r.(events := r.events & !WRITE))
    case DisableAll => r.(events := NONE)
    case Remove => Removed(r)
  }

  function AfterAll(ops: seq<Op>): Reg {
    if ops == [] then UNREGISTERED else After(AfterAll(ops[..|ops| - 1]), ops[|ops| - 1])
  }

  /** The kernel's interest is the channel's. */
  predicate InSync(r: Reg) {
    r.kernel == if r.state == ADDED then Some(r.events) else None
  }

  /**
   The kernel knows the descriptor exactly while the channel is ADDED, `_channels`
   lists it exactly while it is not NEW, and no call of `epoll_ctl` has failed.
   */
  predicate Consistent(r: Reg) {
    && (r.kernel.Some? <==> r.state == ADDED)
    && (r.listed <==> r.state != NEW)
    && r.failures == 0
  }

  lemma StepKeepsConsistent(r: Reg, op: Op)
    requires Consistent(r)
    ensures Consistent(After(r, op))
  {
  }

  lemma {:induction false} AlwaysConsistent(ops: seq<Op>)
    ensures Consistent(AfterAll(ops))
  {
    if ops != [] {
      AlwaysConsistent(ops[..|ops| - 1]);
      StepKeepsConsistent(AfterAll(ops[..|ops| - 1]), ops[|ops| - 1]);
    }
  }

  /** Whether reading (or writing) was last switched on, read off the operations. */
  function ReadOn(ops: seq<Op>): bool {
    if ops == [] then false
    else
      match ops[|ops| - 1]
      case EnableReading => true
      case DisableReading => false
      case DisableAll => false
      case _ => ReadOn(ops[..|ops| - 1])
  }

  function WriteOn(ops: seq<Op>): bool {
    if ops == [] then false
    else
      match ops[|ops| - 1]
      case EnableWriting => true
      case DisableWriting => false
      case DisableAll => false
      case _ => WriteOn(ops[..|ops| - 1])
  }

  /** Reading and writing are switched independently of each other, and nothing else ever gets into the mask. */
  lemma {:induction false} MaskIsWhatWasSwitched(ops: seq<Op>)
    ensures AfterAll(ops).events == (if ReadOn(ops) then 3 else 0) | if WriteOn(ops) then 4 else 0
  {
    if ops != [] {
      MaskIsWhatWasSwitched(ops[..|ops| - 1]);
    }
  }

  /** What one operation makes the kernel's interest, given that all before it went well. */
  lemma KernelAfter(r: Reg, op: Op)
    requires Consistent(r)
    ensures var r' := After(r, op);
      r'.kernel ==
        match op
        case DisableAll => r.kernel
        case Remove => None
        case _ => if r.kernel.Some? && r'.events == NONE then None else Some(r'.events)
    ensures op == Remove ==> !After(r, op).listed && After(r, op).state == NEW
  {
  }

  /** Every operation that reaches the poller leaves the kernel with the channel's mask. */
  lemma UpdateSynchronises(ops: seq<Op>, op: Op)
    requires op != DisableAll
    ensures InSync(AfterAll(ops + [op]))
  {
    assert (ops + [op])[..|ops|] == ops;
    AlwaysConsistent(ops);
  }

  /** `disableAll` does not reach the poller: the kernel stays in sync only if it had no interest to give up. */
  lemma DisableAllSynchronisesOnlyIfIdle(ops: seq<Op>)
    ensures var before, after := AfterAll(ops), AfterAll(ops + [DisableAll]);
      && after.kernel == before.kernel
      && (InSync(after) <==> before.kernel == None || before.kernel == Some(NONE))
  {
    assert (ops + [DisableAll])[..|ops|] == ops;
    AlwaysConsistent(ops);
  }

  lemma DisableAllIsNotSeenByTheKernel()
    ensures !InSync(AfterAll([EnableReading, DisableAll]))
  {
    assert [EnableReading, DisableAll] == [EnableReading] + [DisableAll];
    assert [EnableReading][..0] == [];
    assert AfterAll([EnableReading]) == After(UNREGISTERED, EnableReading);
    assert AfterAll([EnableReading]).kernel == Some(READ);
    DisableAllSynchronisesOnlyIfIdle([EnableReading]);
  }

  /** A channel that is reading and known as such to the kernel stays so while its write interest goes on and off. */
  predicate Reading(r: Reg) {
    Consistent(r) && InSync(r) && r.state == ADDED && r.events & READ != NONE
  }

  lemma ReadingStarts(r: Reg)
    requires Consistent(r)
    ensures Reading(After(r, EnableReading))
  {
  }

  lemma ReadingStays(r: Reg, op: Op)
    requires Reading(r) && (op == EnableWriting || op == DisableWriting)
    ensures Reading(After(r, op))
  {
  }
}
