/** The connection object of net/TcpConnection.cpp, with its output buffer and its channel. */
module TcpConnections {
  import opened Buffers
  import opened Epollers
  import opened Registration
  import opened Sequences
  import opened TcpOutput

  class TcpConnection {
    const outputBuffer: Buffer
    const channel: Channel
    const epoller: Epoller
    var connected: bool
    /** What the socket has taken so far. */
    var wire: seq<byte>
    ghost var closed: bool
    ghost var accepted: seq<seq<byte>>

    ghost predicate Valid()
      reads this, outputBuffer, channel, epoller
    {
      && outputBuffer.Valid()
      && epoller.Valid() && channel in epoller.all
      && Consistent(epoller.ViewOf(channel))
      && (connected ==> !closed && Reading(epoller.ViewOf(channel)))
    }

    ghost function View(): Output
      requires Valid()
      reads this, outputBuffer, outputBuffer.data, channel, epoller
    {
      Output(wire, outputBuffer.Contents(), channel.HasWrite(), closed, accepted)
    }

    constructor (channel: Channel, epoller: Epoller)
      requires epoller.Valid() && channel in epoller.all && !channel.HasWrite()
      requires Consistent(epoller.ViewOf(channel))
      ensures Valid() && View() == FRESH && !connected
      ensures fresh(outputBuffer) && fresh(outputBuffer.data)
      ensures this.channel == channel && this.epoller == epoller
    {
      outputBuffer := new Buffer(0);
      this.channel, this.epoller := channel, epoller;
      connected, wire, closed, accepted := false, [], false, [];
    }

    method Established()
      requires Valid() && !closed
      modifies this, channel, epoller
      ensures Valid() && View() == old(View()) && connected
    {
      ReadingStarts(epoller.ViewOf(channel));
      channel.EnableReading(epoller);
      connected := true;
    }

    /** `result` is what `write` returns if it is called. */
    method Send(message: seq<byte>, result: WriteResult)
      requires Valid() && Possible(View(), Event.Send(message, result))
      modifies this, channel, epoller, outputBuffer, outputBuffer.data
      ensures Valid() && View() == AfterSend(old(View()), message, result)
      ensures old(!channel.HasWrite() && outputBuffer.Contents() == []) && result.Wrote? ==>
        wire == old(wire) + message[..result.n] && outputBuffer.Contents() == message[result.n..]
      ensures connected == old(connected)
      ensures outputBuffer.data == old(outputBuffer.data) || fresh(outputBuffer.data)
    {
      var written, remain := 0, 0;
      var hasError := false;
      if !channel.HasWrite() && outputBuffer.ReadableBytes() == 0 {
        if result.Wrote? {
          written := result.n;
          wire := wire + message[..written];
          accepted := accepted + [message];
          remain := |message| - written;
        } else {
          hasError := result.fatal;
        }
      }
      if !hasError && remain > 0 {
        outputBuffer.Append(message[written..]);
        if !channel.HasWrite() {
          AskToWrite();
        }
      }
    }

    method HandleWrite(result: WriteResult)
      requires Valid() && Possible(View(), Writable(result))
      modifies this, channel, epoller, outputBuffer`readIndex, outputBuffer`writeIndex
      ensures Valid() && View() == AfterWritable(old(View()), result)
      ensures old(channel.HasWrite()) && result.Wrote? ==>
        && wire == old(wire) + old(outputBuffer.Contents())[..result.n]
        && outputBuffer.Contents() == old(outputBuffer.Contents())[result.n..]
      ensures connected == old(connected)
    {
      hide Reading, Consistent;
      if !channel.HasWrite() {
        return;
      }
      if result.Failed? || result.n == 0 {
        return;
      }
      var peek := outputBuffer.data[outputBuffer.readIndex..outputBuffer.readIndex + result.n];
      wire := wire + peek;
      outputBuffer.Retrieve(result.n);
      if outputBuffer.ReadableBytes() == 0 {
        StopAsking();
      }
    }

    /** `_channel->enableWriting()`. */
    method AskToWrite()
      requires Valid()
      modifies channel, epoller
      ensures Valid() && View() == old(View()).(writing := true)
    {
      var reg := epoller.ViewOf(channel);
      StepKeepsConsistent(reg, EnableWriting);
      if Reading(reg) {
        ReadingStays(reg, EnableWriting);
      }
      channel.EnableWriting(epoller);
    }

    /** `_channel->disableWriting()`. */
    method StopAsking()
      requires Valid()
      modifies channel, epoller
      ensures Valid() && View() == old(View()).(writing := false)
    {
      var reg := epoller.ViewOf(channel);
      StepKeepsConsistent(reg, DisableWriting);
      if Reading(reg) {
        ReadingStays(reg, DisableWriting);
      }
      channel.DisableWriting(epoller);
    }

    method HandleClose()
      requires Valid()
      modifies this, channel
      ensures Valid() && View() == TcpOutput.After(old(View()), Close) && !connected
      ensures channel.events == NONE
    {
      channel.DisableAll(epoller);
      connected, closed := false, true;
    }

    method Destory()
      requires Valid()
      modifies this, channel, epoller
      ensures Valid() && View() == TcpOutput.After(old(View()), Close) && !connected
      ensures channel.events == NONE && !epoller.ViewOf(channel).listed && epoller.ViewOf(channel).kernel == None
    {
      channel.DisableAll(epoller);
      connected, closed := false, true;
      channel.Remove(epoller);
    }
  }

  method Handle(c: TcpConnection, event: Event)
    requires c.Valid() && Possible(c.View(), event)
    modifies c, c.channel, c.epoller, c.outputBuffer, c.outputBuffer.data
    ensures c.Valid() && c.View() == TcpOutput.After(old(c.View()), event)
    ensures c.connected <==> old(c.connected) && event != Close
    ensures c.outputBuffer.data == old(c.outputBuffer.data) || fresh(c.outputBuffer.data)
  {
    match event
    case Send(message, result) => c.Send(message, result);
    case Writable(result) => c.HandleWrite(result);
    case Close => c.HandleClose();
  }

  /** The objects a connection is made of. */
  ghost function Parts(c: TcpConnection): set<object>
    reads c, c.outputBuffer
  {
    {c, c.channel, c.epoller, c.outputBuffer, c.outputBuffer.data}
  }

  method Connect(fd: int) returns (c: TcpConnection)
    ensures c.Valid() && c.View() == FRESH && c.connected
    ensures fresh(Parts(c))
  {
    var epoller := new Epoller();
    var channel := new Channel(fd);
    epoller.Adopt(channel);
    c := new TcpConnection(channel, epoller);
    c.Established();
  }

  /**
   A connection from `established` through any events. The bytes on the wire and the
   bytes waiting are those of the value model; and as long as the connection is open,
   the kernel has been asked for write events exactly if there are any.
   */
  method Serve(fd: int, events: seq<Event>) returns (wire: seq<byte>, pending: seq<byte>, asked: bool, open: bool)
    requires IsRun(FRESH, events)
    ensures wire == Exec(FRESH, events).wire && pending == Exec(FRESH, events).pending
    ensures wire + pending == Flatten(AcceptedBy(FRESH, events))
    ensures open <==> Close !in events
    ensures open ==> (asked <==> pending != [])
  {
    var c := Connect(fd);
    ghost var o, left := FRESH, events;
    for i := 0 to |events|
      invariant c.Valid() && fresh(Parts(c)) && c.View() == o
      invariant left == events[i..] && IsRun(o, left) && Exec(o, left) == Exec(FRESH, events)
      invariant Inv(o)
      invariant c.connected <==> Close !in events[..i]
      invariant c.connected || c.closed
    {
      StepKeepsInv(o, events[i]);
      Handle(c, events[i]);
      o, left := TcpOutput.After(o, events[i]), events[i + 1..];
    }
    wire := c.wire;
    pending := c.outputBuffer.data[c.outputBuffer.readIndex..c.outputBuffer.writeIndex];
    OutputConservation(events);
    var reg := c.epoller.ViewOf(c.channel);
    asked := reg.kernel.Some? && reg.kernel.value & WRITE != NONE;
    open := c.connected;
  }
}
