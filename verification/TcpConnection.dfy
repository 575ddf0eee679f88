/**
 The connection as code: a channel registered with an epoller, two byte buffers
 and a state.  Every method moves the object exactly as the function of the same
 name moves a `Conn`, and keeps the connection invariant, so that no assert of
 the source ever fires and every `epoll_ctl` it makes is accepted.
 */
module TcpConnections {
  import opened Text
  import opened Buffers
  import opened Interest
  import opened Connections

  class TcpConnection {
    const channel: Channel
    const inBuffer: Buffer
    const outputBuffer: Buffer
    var state: ConnState
    // Tasks `send` queued on the loop from other threads.
    var posted: seq<string>
    ghost var accepted: string
    ghost var taken: string
    ghost var fins: nat
    ghost var late: bool
    ghost var closes: nat

    ghost predicate Valid()
      reads this, channel, channel.epoller, inBuffer, inBuffer.data, outputBuffer, outputBuffer.data
    {
      && inBuffer != outputBuffer && inBuffer.data != outputBuffer.data
      && inBuffer.Valid() && outputBuffer.Valid()
      && Inv(Model())
    }

    ghost function Model(): Conn
      requires inBuffer.Valid() && outputBuffer.Valid()
      reads this, channel, channel.epoller, inBuffer, inBuffer.data, outputBuffer, outputBuffer.data
    {
      Conn(state, channel.Model(), inBuffer.Contents(), outputBuffer.Contents(), posted,
           accepted, taken, fins, late, closes, 0)
    }

    constructor (epoller: Epoller, fd: nat)
      requires fd !in epoller.kernel
      ensures Valid() && fresh(channel) && fresh(inBuffer) && fresh(outputBuffer)
      ensures fresh(inBuffer.data) && fresh(outputBuffer.data)
      ensures channel.epoller == epoller && channel.fd == fd
      ensures Model() == NEW_CONN
    {
      channel := new Channel(epoller, fd);
      inBuffer := new Buffer(INITIAL_SIZE);
      outputBuffer := new Buffer(INITIAL_SIZE);
      state := Connecting;
      posted := [];
      accepted, taken, fins, late, closes := "", "", 0, false, 0;
    }

    method Established()
      requires Valid() && state == Connecting
      modifies this`state, channel, channel.epoller
      ensures Valid() && Model() == Connections.Established(old(Model()))
    {
      StepKeeps(Model(), Step.Establish);
      state := Connected;
      channel.SetEvents(channel.events + READ_EVENTS);
    }

    method Destroyed()
      requires Valid()
      modifies this`state, channel, channel.epoller
      ensures Valid() && Model() == Connections.Destroyed(old(Model()))
    {
      StepKeeps(Model(), Step.Destroy);
      if state == Connected {
        state := Disconnected;
        if channel.events != {} {
          channel.SetEvents({});
        }
      }
    }

    /** `send(data, count)` on the loop thread; `wrote` is what `::write` would return. */
    method Send(data: string, wrote: int)
      requires Valid() && -1 <= wrote <= |data|
      modifies this`accepted, this`taken, this`late, channel, channel.epoller, outputBuffer, outputBuffer.data
      ensures Valid() && Model() == Connections.Send(old(Model()), data, wrote)
      ensures outputBuffer.data == old(outputBuffer.data) || fresh(outputBuffer.data)
    {
      if state != Connected {
        return;
      }
      SendInLoop(data, wrote);
    }

    /** `send` on another thread. */
    method PostSend(data: string)
      requires Valid()
      modifies this`posted
      ensures Valid() && Model() == Connections.Post(old(Model()), data)
    {
      if state == Connected {
        posted := posted + [data];
      }
    }

    /** The loop runs the oldest task `send` has queued. */
    method RunPosted(wrote: int)
      requires Valid() && posted != [] && -1 <= wrote <= |posted[0]|
      modifies this`posted, this`accepted, this`taken, this`late, channel, channel.epoller, outputBuffer, outputBuffer.data
      ensures Valid() && Model() == Connections.RunPosted(old(Model()), wrote)
      ensures outputBuffer.data == old(outputBuffer.data) || fresh(outputBuffer.data)
    {
      var data := posted[0];
      posted := posted[1..];
      SendInLoop(data, wrote);
    }

    method SendInLoop(data: string, wrote: int)
      requires Valid() && state != Connecting && -1 <= wrote <= |data|
      modifies this`accepted, this`taken, this`late, channel, channel.epoller, outputBuffer, outputBuffer.data
      ensures Valid() && Model() == Connections.SendInLoop(old(Model()), data, wrote)
      ensures state != Disconnected ==>
                outputBuffer.Contents()
                == if old(outputBuffer.Contents()) != "" then old(outputBuffer.Contents()) + data
                   else data[if wrote < 0 then 0 else wrote..]
      ensures outputBuffer.data == old(outputBuffer.data) || fresh(outputBuffer.data)
    {
      SendInLoopKeeps(Model(), data, wrote);
      if state == Disconnected {
        return;
      }
      var numWrote := WriteDirectly(data, wrote);
      accepted, taken := accepted + data, taken + data[..numWrote];
      if numWrote < |data| {
        Pend(data[numWrote..]);
      }
    }

    /** With nothing pending, the payload is offered to the socket at once. */
    method WriteDirectly(data: string, wrote: int) returns (numWrote: nat)
      requires outputBuffer.Valid() && -1 <= wrote <= |data|
      modifies this`late
      ensures var direct := Out !in channel.events && outputBuffer.Contents() == "";
              && numWrote == (if direct then Taken(wrote, |data|) else 0)
              && late == (old(late) || (direct && data != "" && fins > 0))
    {
      numWrote := 0;
      if Out !in channel.events && outputBuffer.ReadableBytes() == 0 {
        late := late || (data != "" && fins > 0);
        if wrote >= 0 {
          numWrote := wrote;
        }
      }
    }

    /** What the socket did not take waits in the output buffer, under write interest. */
    method Pend(data: string)
      requires outputBuffer.Valid() && Agrees(channel.Model())
      modifies channel, channel.epoller, outputBuffer, outputBuffer.data
      ensures outputBuffer.Valid() && (outputBuffer.data == old(outputBuffer.data) || fresh(outputBuffer.data))
      ensures outputBuffer.Contents() == old(outputBuffer.Contents()) + data
      ensures channel.Model() == if Out in old(channel.events) then old(channel.Model())
                                 else EnableWriting(old(channel.Model()))
    {
      outputBuffer.Append(data);
      if Out !in channel.events {
        channel.SetEvents(channel.events + {Out});
      }
    }

    /** `handle_read` up to the message callback; `got` is what `readv` delivered, empty at
        end of file, and `None` with `again` telling EAGAIN from a real error. */
    method HandleRead(got: Option<string>, again: bool) returns (deliver: bool, ghost r: ReadResult)
      requires Valid() && channel.fd in channel.epoller.kernel && In in channel.epoller.kernel[channel.fd]
      requires got.Some? ==> |got.value| <= inBuffer.data.Length - inBuffer.writerIndex + EXTRA_SIZE
      modifies this`state, this`closes, channel, channel.epoller, inBuffer, inBuffer.data
      ensures r == match got
                   case Some(bytes) => if bytes == "" then Eof else Data(bytes)
                   case None => if again then WouldBlock else Failed
      ensures Valid() && Model() == Connections.HandleRead(old(Model()), r)
      ensures inBuffer.data == old(inBuffer.data) || fresh(inBuffer.data)
      ensures deliver <==> r.Data?
      ensures inBuffer.Contents() == old(inBuffer.Contents()) + if got.Some? then got.value else ""
      ensures if got == Some("") || (got.None? && !again)
              then state == Disconnected && closes == old(closes) + 1 && channel.fd !in channel.epoller.kernel
              else state == old(state) && closes == old(closes)
    {
      r := match got
           case Some(bytes) => if bytes == "" then Eof else Data(bytes)
           case None => if again then WouldBlock else Failed;
      StepKeeps(Model(), Step.Read(r));
      ClosesExactly(Model(), Step.Read(r));
      StateExactly(Model(), Step.Read(r));
      var numRead := Fill(got);
      deliver := numRead > 0;
      EndRead(numRead, again);
    }

    /** What `handle_read` does once the bytes are in: the end of the stream and a read error
        close the connection. */
    method EndRead(numRead: int, again: bool)
      requires Valid() && Open(Model())
      modifies this`state, this`closes, channel, channel.epoller
      ensures Model() == if numRead == 0 then Connections.HandleClose(old(Model()).(state := Disconnecting))
                         else if numRead == -1 && !again then Connections.ForceClose(old(Model()))
                         else old(Model())
    {
      if numRead == 0 {
        state := Disconnecting;
        HandleClose();
      } else if numRead == -1 && !again {
        ForceClose();
      }
    }

    /** `in_buffer_.read_fd`, seen as what it does to the contents. */
    method Fill(got: Option<string>) returns (numRead: int)
      requires inBuffer.Valid()
      requires got.Some? ==> |got.value| <= inBuffer.data.Length - inBuffer.writerIndex + EXTRA_SIZE
      modifies inBuffer, inBuffer.data
      ensures inBuffer.Valid() && (inBuffer.data == old(inBuffer.data) || fresh(inBuffer.data))
      ensures numRead == if got.None? then -1 else |got.value|
      ensures inBuffer.Contents() == if numRead <= 0 then old(inBuffer.Contents()) else old(inBuffer.Contents()) + got.value
    {
      numRead := inBuffer.ReadFd(got);
    }

    method HandleWrite(wrote: int)
      requires Valid() && -1 <= wrote <= |outputBuffer.Contents()|
      modifies this`state, this`taken, this`fins, this`late, channel, channel.epoller, outputBuffer
      ensures Valid() && Model() == Connections.HandleWrite(old(Model()), wrote)
      ensures outputBuffer.Contents()
           == if Out in old(channel.events) && wrote > 0 then old(outputBuffer.Contents())[wrote..]
              else old(outputBuffer.Contents())
      ensures outputBuffer.data == old(outputBuffer.data)
    {
      HandleWriteKeeps(Model(), wrote);
      if Out in channel.events {
        late := late || (outputBuffer.Contents() != "" && fins > 0);
        if wrote > 0 {
          taken := taken + outputBuffer.Contents()[..wrote];
          Drain(wrote);
          if state == Disconnecting {
            Shutdown();
          }
        }
      }
    }

    /** The socket took `n` pending bytes; write interest ends with the last one. */
    method Drain(n: nat)
      requires outputBuffer.Valid() && n <= |outputBuffer.Contents()|
      requires Agrees(channel.Model()) && channel.inInterestList
      modifies channel, channel.epoller, outputBuffer
      ensures outputBuffer.Valid() && outputBuffer.data == old(outputBuffer.data)
      ensures outputBuffer.Contents() == old(outputBuffer.Contents())[n..]
      ensures channel.Model() == if outputBuffer.Contents() == "" then DisableWriting(old(channel.Model()))
                                 else old(channel.Model())
    {
      outputBuffer.Retrieve(n);
      if outputBuffer.ReadableBytes() == 0 {
        channel.SetEvents(channel.events - {Out});
      }
    }

    method HandleClose()
      requires inBuffer.Valid() && outputBuffer.Valid() && Agrees(channel.Model())
      requires state in {Connected, Disconnecting}
      modifies this`state, this`closes, channel, channel.epoller
      ensures Model() == Connections.HandleClose(old(Model()))
    {
      state := Disconnected;
      if channel.events != {} {
        channel.SetEvents({});
      }
      closes := closes + 1;
    }

    method ForceClose()
      requires Valid()
      modifies this`state, this`closes, channel, channel.epoller
      ensures Valid() && Model() == Connections.ForceClose(old(Model()))
      ensures old(state) in {Connected, Disconnecting} ==>
                state == Disconnected && closes == old(closes) + 1 && channel.fd !in channel.epoller.kernel
    {
      StepKeeps(Model(), Step.CallForceClose);
      if state == Connected || state == Disconnecting {
        state := Disconnecting;
        HandleClose();
      }
    }

    method Shutdown()
      requires inBuffer.Valid() && outputBuffer.Valid()
      modifies this`state, this`fins
      ensures Model() == Connections.Shutdown(old(Model()))
    {
      if state == Connected {
        state := Disconnecting;
        if Out in channel.events {
          return;
        }
        fins := fins + 1;
      }
    }
  }
}
