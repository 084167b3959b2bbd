/**
 The sending side of a connection (net/TcpConnection.cpp), on values: what the
 socket has taken, what waits in the output buffer, and whether the connection
 asks to be told when it can write.
 */
module TcpOutput {
  import opened Buffers
  import opened Sequences

  /** The outcome of `write`: how many bytes were taken, or an error, fatal (EPIPE, ECONNRESET) or not. */
  datatype WriteResult = Wrote(n: nat) | Failed(fatal: bool)

  /**
   `wire` is everything the socket has taken, `closed` says that `disableAll` has
   been called, and `accepted` lists the messages the connection took on, oldest first.
   */
  datatype Output = Output(
    wire: seq<byte>,
    pending: seq<byte>,
    writing: bool,
    closed: bool,
    accepted: seq<seq<byte>>)

  datatype Event =
    | Send(message: seq<byte>, result: WriteResult)  // the result is used only if `send` gets as far as `write`
    | Writable(result: WriteResult)                  // the loop calls `handleWrite`
    | Close                                          // `handleClose` or `destory`

  const FRESH := Output([], [], false, false, [])

  /** `send` takes a message on only if nothing waits to be written and the socket does not refuse. */
  predicate Accepts(o: Output, result: WriteResult) {
    !o.writing && o.pending == [] && result.Wrote?
  }

  predicate Possible(o: Output, event: Event) {
    match event
    case Send(message, result) => result.Wrote? ==> result.n <= |message|
    case Writable(result) => result.Wrote? ==> result.n <= |o.pending|
    case Close => true
  }

  function AfterSend(o: Output, message: seq<byte>, result: WriteResult): Output
    requires Possible(o, Send(message, result))
  {
    if !Accepts(o, result) then
      o
    else
      var o' := o.(wire := o.wire + message[..result.n], accepted := o.accepted + [message]);
      if result.n == |message| then o' else o'.(pending := message[result.n..], writing := true)
  }

  function AfterWritable(o: Output, result: WriteResult): Output
    requires Possible(o, Writable(result))
  {
    if !o.writing || result.Failed? || result.n == 0 then
      o
    else
      o.(wire := o.wire + o.pending[..result.n],
         pending := o.pending[result.n..],
         writing := result.n < |o.pending|)
  }

  function After(o: Output, event: Event): Output
    requires Possible(o, event)
  {
    match event
    case Send(message, result) => AfterSend(o, message, result)
    case Writable(result) => AfterWritable(o, result)
    case Close => o.(writing := false, closed := true)
  }

  ghost predicate IsRun(o: Output, events: seq<Event>)
    decreases |events|
  {
    events == [] || (Possible(o, events[0]) && IsRun(After(o, events[0]), events[1..]))
  }

  ghost function Exec(o: Output, events: seq<Event>): Output
    requires IsRun(o, events)
    decreases |events|
  {
    if events == [] then o else Exec(After(o, events[0]), events[1..])
  }

  ghost predicate Inv(o: Output) {
    && o.wire + o.pending == Flatten(o.accepted)
    && (o.writing ==> o.pending != [])
    && (!o.closed ==> (o.writing <==> o.pending != []))
  }

  lemma SendKeepsInv(o: Output, message: seq<byte>, result: WriteResult)
    requires Inv(o) && Possible(o, Send(message, result))
    ensures Inv(AfterSend(o, message, result))
  {
    if Accepts(o, result) {
      FlattenSnoc(o.accepted, message);
      Regroup(o.wire, message[..result.n], message[result.n..]);
      assert message == message[..result.n] + message[result.n..];
      assert o.wire + o.pending == o.wire;
    }
  }

  lemma WritableKeepsInv(o: Output, result: WriteResult)
    requires Inv(o) && Possible(o, Writable(result))
    ensures Inv(AfterWritable(o, result))
  {
    if AfterWritable(o, result) != o {
      Regroup(o.wire, o.pending[..result.n], o.pending[result.n..]);
      assert o.pending == o.pending[..result.n] + o.pending[result.n..];
    }
  }

  lemma StepKeepsInv(o: Output, event: Event)
    requires Inv(o) && Possible(o, event)
    ensures Inv(After(o, event))
  {
    match event
    case Send(message, result) => SendKeepsInv(o, message, result);
    case Writable(result) => WritableKeepsInv(o, result);
    case Close =>
  }

  lemma {:induction false} RunKeepsInv(o: Output, events: seq<Event>)
    requires Inv(o) && IsRun(o, events)
    ensures Inv(Exec(o, events))
    decreases |events|
  {
    if events != [] {
      StepKeepsInv(o, events[0]);
      RunKeepsInv(After(o, events[0]), events[1..]);
    }
  }

  /** The messages of a run that the connection takes on, read off its events. */
  ghost function AcceptedBy(o: Output, events: seq<Event>): seq<seq<byte>>
    requires IsRun(o, events)
    decreases |events|
  {
    if events == [] then [] else Taken(o, events[0]) + AcceptedBy(After(o, events[0]), events[1..])
  }

  function Taken(o: Output, event: Event): seq<seq<byte>> {
    if event.Send? && Accepts(o, event.result) then [event.message] else []
  }

  lemma {:induction false} RunRecords(o: Output, events: seq<Event>)
    requires IsRun(o, events)
    ensures Exec(o, events).accepted == o.accepted + AcceptedBy(o, events)
    decreases |events|
  {
    if events != [] {
      assert After(o, events[0]).accepted == o.accepted + Taken(o, events[0]);
      RunRecords(After(o, events[0]), events[1..]);
      Regroup(o.accepted, Taken(o, events[0]), AcceptedBy(After(o, events[0]), events[1..]));
    }
  }

  /**
   With any partial writes and errors: what is on the wire and what still waits
   are together the messages of the run that were taken on, each whole and in order;
   and until the connection is closed it asks to be told exactly while something waits.
   */
  lemma OutputConservation(events: seq<Event>)
    requires IsRun(FRESH, events)
    ensures var o := Exec(FRESH, events);
      && o.wire + o.pending == Flatten(AcceptedBy(FRESH, events))
      && (!o.closed ==> (o.writing <==> o.pending != []))
  {
    RunKeepsInv(FRESH, events);
    RunRecords(FRESH, events);
    assert [] + AcceptedBy(FRESH, events) == AcceptedBy(FRESH, events);
  }

  /**
   A message is either taken on whole or dropped whole. It is taken on exactly when write
   interest is off, no output is waiting and `write` does not fail.
   */
  lemma SendIsAllOrNothing(o: Output, message: seq<byte>, result: WriteResult)
    requires Possible(o, Send(message, result)) && message != []
    ensures var o' := AfterSend(o, message, result);
      if !o.writing && o.pending == [] && result.Wrote? then
        && o'.wire == o.wire + message[..result.n] && o'.pending == message[result.n..]
        && (o'.writing <==> o'.pending != []) && o'.accepted == o.accepted + [message]
      else
        o' == o
    ensures var o' := AfterSend(o, message, result);
      o'.wire + o'.pending == o.wire + o.pending + message <==>
      !o.writing && o.pending == [] && result.Wrote?
  {
    if !o.writing && o.pending == [] && result.Wrote? {
      assert message == message[..result.n] + message[result.n..];
    } else {
      assert |o.wire + o.pending + message| > |o.wire + o.pending|;
    }
  }

  /** After any run that has left the connection open and nothing waiting, a send that does not fail is taken on. */
  lemma DrainedConnectionAccepts(events: seq<Event>, message: seq<byte>, n: nat)
    requires IsRun(FRESH, events) && n <= |message|
    requires !Exec(FRESH, events).closed && Exec(FRESH, events).pending == []
    ensures var o := Exec(FRESH, events);
      var o' := After(o, Send(message, Wrote(n)));
      o'.wire + o'.pending == o.wire + message && (n == |message| <==> o'.pending == [])
  {
    RunKeepsInv(FRESH, events);
    assert message == message[..n] + message[n..];
  }

  function Sum(ns: seq<nat>): nat {
    if ns == [] then 0 else ns[0] + Sum(ns[1..])
  }

  /** The loop reports the socket writable again and again, and `write` takes `ns` bytes in turn. */
  function Writables(ns: seq<nat>): seq<Event> {
    if ns == [] then [] else [Writable(Wrote(ns[0]))] + Writables(ns[1..])
  }

  /** Partial writes that add up bring out everything that waits, in order, and then write interest goes off. */
  lemma {:induction false} PartialWritesDrain(o: Output, ns: seq<nat>)
    requires Inv(o) && !o.closed && Sum(ns) == |o.pending|
    ensures IsRun(o, Writables(ns))
    ensures var o' := Exec(o, Writables(ns));
      o'.wire == o.wire + o.pending && o'.pending == [] && !o'.writing && o'.accepted == o.accepted
    decreases |ns|
  {
    if ns == [] {
      assert o.wire + [] == o.wire;
    } else {
      var event := Writable(Wrote(ns[0]));
      var next := After(o, event);
      StepKeepsInv(o, event);
      assert Writables(ns)[1..] == Writables(ns[1..]);
      assert next.wire == o.wire + o.pending[..ns[0]] && next.pending == o.pending[ns[0]..];
      PartialWritesDrain(next, ns[1..]);
      assert o.pending == o.pending[..ns[0]] + o.pending[ns[0]..];
      Regroup(o.wire, o.pending[..ns[0]], o.pending[ns[0]..]);
    }
  }

  /** Two sends in a row lose the second message as soon as the socket takes the first one only in part. */
  lemma SecondSendIsLost(first: seq<byte>, n: nat, second: seq<byte>, result: WriteResult)
    requires n < |first| && (result.Wrote? ==> result.n <= |second|)
    ensures var events := [Send(first, Wrote(n)), Send(second, result)];
      IsRun(FRESH, events) && Exec(FRESH, events).accepted == [first]
  {
    var o1 := After(FRESH, Send(first, Wrote(n)));
    var rest := [Send(second, result)];
    assert [Send(first, Wrote(n)), Send(second, result)][1..] == rest && rest[1..] == [];
    assert After(o1, rest[0]) == o1;
    assert IsRun(o1, []) && Exec(o1, []) == o1;
    assert IsRun(o1, rest) && Exec(o1, rest) == o1;
  }
}
