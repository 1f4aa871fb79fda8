/** The connection object: two buffers, a channel, and the socket's side of the streams. */
module TcpConnections {
  import opened Bytes
  import opened Buffers
  import opened Pollers
  import M = ConnectionModel

  class TcpConnection {
    var state: M.State
    const channel: Channel
    const poller: EpollPoller
    const inputBuffer: Buffer
    const outputBuffer: Buffer
    const highWaterMark: nat
    const notify: bool
    var queued: seq<M.Task>     // functors queued on the loop
    // the socket
    var sent: string
    var shutdowns: nat
    var late: nat
    // the server's close callback
    var closes: nat

    ghost predicate Valid()
      reads this, poller, poller.owner.Values, inputBuffer, outputBuffer
    {
      && poller.Valid() && poller.Owns(channel)
      && inputBuffer.Valid() && outputBuffer.Valid()
      && inputBuffer != outputBuffer && inputBuffer.data != outputBuffer.data
    }

    function Value(): M.Conn
      requires inputBuffer.Valid() && outputBuffer.Valid()
      reads this, channel, inputBuffer, outputBuffer, inputBuffer.data, outputBuffer.data
    {
      M.Conn(state, channel.IsReading(), channel.IsWriting(), inputBuffer.Readable(), outputBuffer.Readable(),
             queued, notify, highWaterMark, sent, shutdowns, late, closes)
    }

    constructor (poller: EpollPoller, fd: int, notify: bool, highWaterMark: nat)
      requires poller.Valid() && fd !in poller.owner
      modifies poller
      ensures Valid() && Value() == M.Initial(notify, highWaterMark)
      ensures fresh(channel) && fresh(inputBuffer) && fresh(outputBuffer)
      ensures fresh(inputBuffer.data) && fresh(outputBuffer.data)
    {
      var c := poller.NewChannel(fd);
      var input := new Buffer();
      var output := new Buffer();
      this.poller, channel, inputBuffer, outputBuffer := poller, c, input, output;
      state := M.Connecting;
      this.notify, this.highWaterMark := notify, highWaterMark;
      queued, sent, shutdowns, late, closes := [], "", 0, 0, 0;
      new;
      InterestBits(0);
    }

    /** ::write on the socket: the kernel takes what it answered it took. */
    method WriteSocket(bytes: string, w: M.WriteOutcome) returns (n: int)
      requires M.Answers(w, bytes)
      modifies this`sent, this`late
      ensures n == if w.Wrote? then w.n else -1
      ensures sent == old(sent) + bytes[..M.Taken(w)]
      ensures late == old(late) + if shutdowns > 0 then 1 else 0
    {
      if shutdowns > 0 {
        late := late + 1;
      }
      if w.Wrote? {
        sent := sent + bytes[..w.n];
        n := w.n;
      } else {
        n := -1;
      }
    }

    /** The last part of sendInLoop. */
    method KeepRest(rest: string)
      requires Valid()
      modifies this`queued, outputBuffer, outputBuffer.data, channel, poller
      ensures Valid() && Value() == M.Keep(old(Value()), rest)
      ensures outputBuffer.data == old(outputBuffer.data) || fresh(outputBuffer.data)
    {
      if |rest| > 0 {
        var oldLen := outputBuffer.ReadableBytes();
        if oldLen + |rest| >= highWaterMark && oldLen < highWaterMark && highWaterMark != 0 {
          queued := queued + [M.HighWater(oldLen + |rest|)];
        }
        outputBuffer.Append(rest);
        WatchWriting();
      }
    }

    method WatchWriting()
      requires Valid()
      modifies channel, poller
      ensures Valid() && Value() == old(Value()).(writing := true)
    {
      if !channel.IsWriting() {
        InterestBits(channel.events);
        channel.EnableWriting(poller);
      }
    }

    method UnwatchWriting()
      requires Valid()
      modifies channel, poller
      ensures Valid() && Value() == old(Value()).(writing := false)
    {
      InterestBits(channel.events);
      channel.DisableWriting(poller);
    }

    method SendInLoop(data: string, w: M.WriteOutcome)
      requires Valid() && M.Answers(w, data)
      modifies this, outputBuffer, outputBuffer.data, channel, poller
      ensures Valid() && Value() == M.SendInLoop(old(Value()), data, w)
      ensures var idle := old(!channel.IsWriting() && outputBuffer.Readable() == "");
              var rest := if state == M.Disconnected || (idle && w.Fault?) then ""
                          else if idle && w.Wrote? then data[w.n..] else data;
              && sent == old(sent) + (if state != M.Disconnected && idle && w.Wrote? then data[..w.n] else "")
              && outputBuffer.Readable() == old(outputBuffer.Readable()) + rest
              && (channel.IsWriting() <==> old(channel.IsWriting()) || rest != "")
              && state == old(state) && shutdowns == old(shutdowns)
      ensures outputBuffer.data == old(outputBuffer.data) || fresh(outputBuffer.data)
    {
      M.SendExactly(Value(), data, w);
      hide M.Keep, M.WriteDirectly;
      var nwrote := 0;
      var faultError := false;
      if state == M.Disconnected {
        return;
      }
      if !channel.IsWriting() && outputBuffer.ReadableBytes() == 0 {
        nwrote, faultError := WriteDirectly(data, w);
      }
      if !faultError {
        KeepRest(data[nwrote..]);
      }
    }

    /** The first part of sendInLoop. */
    method WriteDirectly(data: string, w: M.WriteOutcome) returns (nwrote: nat, faultError: bool)
      requires Valid() && M.Answers(w, data)
      modifies this`sent, this`late, this`queued
      ensures Valid() && Value() == M.WriteDirectly(old(Value()), data, w)
      ensures nwrote == M.Taken(w) && faultError == w.Fault?
    {
      faultError := false;
      var n := WriteSocket(data, w);
      if n >= 0 {
        nwrote := n;
        if nwrote == |data| && notify {
          queued := queued + [M.WriteComplete];
        }
      } else {
        nwrote := 0;
        faultError := w.Fault?;
      }
    }

    /** send() of a string on the loop thread. */
    method Send(data: string, w: M.WriteOutcome)
      requires Valid() && M.Answers(w, data)
      modifies this, outputBuffer, outputBuffer.data, channel, poller
      ensures Valid() && Value() == M.Send(old(Value()), data, w)
      ensures outputBuffer.data == old(outputBuffer.data) || fresh(outputBuffer.data)
    {
      if state == M.Connected {
        SendInLoop(data, w);
      }
    }

    /**
     send() of a buffer, the caller's own or the one the message callback was handed, on the loop's thread
     or another. There the functor that is queued carries the bytes; either way the buffer is emptied.
     */
    method SendBuffer(buf: Buffer, inLoop: bool, w: M.WriteOutcome) returns (functor: Option<string>)
      requires Valid() && buf.Valid() && M.Answers(w, buf.Readable())
      requires buf != outputBuffer && buf.data != outputBuffer.data
      requires buf == inputBuffer || buf.data != inputBuffer.data
      modifies this, outputBuffer, outputBuffer.data, channel, poller, buf
      ensures Valid() && buf.Valid()
      ensures buf.Readable() == if old(state) == M.Connected then "" else old(buf.Readable())
      ensures functor == if old(state) == M.Connected && !inLoop then Some(old(buf.Readable())) else None
      ensures var c := if inLoop then M.Send(old(Value()), old(buf.Readable()), w) else old(Value());
              Value() == if buf == inputBuffer then c.(input := buf.Readable()) else c
    {
      hide M.SendInLoop;
      functor := None;
      if state == M.Connected {
        if inLoop {
          SendInLoop(buf.Readable(), w);
          buf.RetrieveAll();
        } else {
          var message := buf.RetrieveAllAsString();
          functor := Some(message);
        }
      }
    }

    method ShutdownInLoop()
      requires Valid()
      modifies this`shutdowns
      ensures Valid() && Value() == M.ShutdownInLoop(old(Value()))
      ensures shutdowns == old(shutdowns) + if channel.IsWriting() then 0 else 1
    {
      if !channel.IsWriting() {
        shutdowns := shutdowns + 1;
      }
    }

    /** shutdown(): on another thread than the loop's, shutdownInLoop is queued. */
    method Shutdown(inLoop: bool) returns (queuedInLoop: bool)
      requires Valid()
      modifies this
      ensures Valid()
      ensures state == if old(state) == M.Connected then M.Disconnecting else old(state)
      ensures shutdowns == old(shutdowns) +
                if old(state) == M.Connected && inLoop && !channel.IsWriting() then 1 else 0
      ensures outputBuffer.Readable() == old(outputBuffer.Readable()) && sent == old(sent)
      ensures inLoop ==> Value() == M.Shutdown(old(Value()))
      ensures !inLoop ==>
                Value() == if old(state) == M.Connected then old(Value()).(state := M.Disconnecting) else old(Value())
      ensures queuedInLoop <==> old(state) == M.Connected && !inLoop
    {
      queuedInLoop := false;
      if state == M.Connected {
        state := M.Disconnecting;
        if inLoop {
          ShutdownInLoop();
        } else {
          queuedInLoop := true;
        }
      }
    }

    method HandleWrite(w: M.WriteOutcome)
      requires Valid() && M.Answers(w, outputBuffer.Readable())
      modifies this, outputBuffer, channel, poller
      ensures Valid() && Value() == M.HandleWrite(old(Value()), w)
      ensures var out := old(outputBuffer.Readable());
              var k := if old(channel.IsWriting()) && w.Wrote? then w.n else 0;
              var drained := k > 0 && k == |out|;
              && sent == old(sent) + out[..k] && outputBuffer.Readable() == out[k..]
              && (channel.IsWriting() <==> old(channel.IsWriting()) && !drained)
              && shutdowns == old(shutdowns) + (if drained && old(state) == M.Disconnecting then 1 else 0)
              && state == old(state)
      ensures outputBuffer.data == old(outputBuffer.data)
    {
      M.WriteExactly(Value(), w);
      if channel.IsWriting() {
        var n := WriteSocket(outputBuffer.Readable(), w);
        if n > 0 {
          outputBuffer.Retrieve(n);
          if outputBuffer.ReadableBytes() == 0 {
            Drained();
          }
        }
      }
    }

    /** The inner part of handleWrite: everything buffered has been sent. */
    method Drained()
      requires Valid() && outputBuffer.Readable() == ""
      modifies this`queued, this`shutdowns, channel, poller
      ensures Valid()
      ensures var c := M.Notify(old(Value()).(writing := false));
              Value() == if state == M.Disconnecting then M.ShutdownInLoop(c) else c
    {
      UnwatchWriting();
      if notify {
        queued := queued + [M.WriteComplete];
      }
      if state == M.Disconnecting {
        ShutdownInLoop();
      }
    }

    method HandleClose()
      requires Valid()
      modifies this, channel, poller
      ensures Valid() && Value() == M.HandleClose(old(Value()))
      ensures state == M.Disconnected && closes == old(closes) + 1
      ensures channel.IsNoneEvent()
    {
      InterestBits(0);
      state := M.Disconnected;
      channel.DisableAll(poller);
      closes := closes + 1;
    }

    method HandleRead(r: M.ReadOutcome)
      requires Valid()
      requires r.Received? ==> 0 < |r.bytes| <= inputBuffer.ReadCapacity()
      modifies this, inputBuffer, inputBuffer.data, channel, poller
      ensures Valid() && Value() == M.HandleRead(old(Value()), r)
      ensures inputBuffer.Readable() == old(inputBuffer.Readable()) + if r.Received? then r.bytes else ""
      ensures state == if r.Eof? then M.Disconnected else old(state)
      ensures closes == old(closes) + if r.Eof? then 1 else 0
      ensures inputBuffer.data == old(inputBuffer.data) || fresh(inputBuffer.data)
    {
      var kernel := match r
        case Received(bytes) => ReadBytes(bytes)
        case Eof => ReadBytes("")
        case ReadFailed => ReadError(0);
      ghost var before := inputBuffer.Readable();
      var n, savedErrno := inputBuffer.ReadFd(kernel);
      assert before + "" == before;
      if n > 0 {
        // messageCallback_ runs here: what it sends or shuts down are steps of their own
      } else if n == 0 {
        HandleClose();
      }
    }

    method ConnectEstablished()
      requires Valid()
      modifies this, channel, poller
      ensures Valid() && Value() == M.ConnectEstablished(old(Value()))
      ensures state == M.Connected && channel.IsReading() && channel.index == Added
    {
      InterestBits(channel.events);
      state := M.Connected;
      channel.EnableReading(poller);
    }

    /** The channel must have no interest left, as a closed connection's has not: see Channel::remove. */
    method ConnectDestroyed()
      requires Valid() && (state != M.Connected ==> channel.IsNoneEvent())
      modifies this, channel, poller
      ensures Valid() && Value() == M.ConnectDestroyed(old(Value()))
      ensures state == (if old(state) == M.Connected then M.Disconnected else old(state)) && channel.IsNoneEvent()
      ensures channel.index == New && !poller.HasChannel(channel) && channel.fd !in poller.kernel
    {
      InterestBits(0);
      if state == M.Connected {
        state := M.Disconnected;
        channel.DisableAll(poller);
      }
      channel.Remove(poller);
      poller.KernelIsMirror();
    }
  }
}
