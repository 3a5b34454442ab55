/**
 The connection object of net/tcp_connection.cc over its output buffer.
 */
module TcpConnections {
  import opened Buffers
  import opened ConnectionStates
  import opened TcpOutput

  class TcpConnection {
    var state: State
    var writing: bool
    var reading: bool
    var shutdowns: nat
    var queued: seq<Note>
    const output: Buffer
    const highWaterMark: nat
    const wantsComplete: bool
    const wantsHighWater: bool
    ghost var accepted: seq<byte>
    ghost var wire: seq<byte>

    ghost function Abs(): Conn
      requires output.Valid()
      reads this, output
    {
      Conn(state, writing, reading, output.Contents(), accepted, wire, shutdowns, queued,
           highWaterMark, wantsComplete, wantsHighWater)
    }

    ghost predicate Valid()
      reads this, output
    {
      output.Valid() && Inv(Abs())
    }

    constructor (mark: nat, complete: bool, high: bool)
      ensures Valid() && Abs() == Fresh(mark, complete, high) && fresh(output)
    {
      state, writing, reading, shutdowns, queued := Connecting, false, false, 0, [];
      highWaterMark, wantsComplete, wantsHighWater := mark, complete, high;
      accepted, wire := [], [];
      output := new Buffer();
    }

    // The second half of sendInLoop.
    method KeepRest(rest: seq<byte>)
      requires output.Valid()
      modifies this, output
      ensures output.Valid() && Abs() == BufferRest(old(Abs()), rest)
    {
      var remaining := |rest|;
      if remaining > 0 {
        var oldLen := output.ReadableBytes();
        if oldLen + remaining >= highWaterMark && oldLen < highWaterMark && wantsHighWater {
          queued := queued + [HighWater(oldLen + remaining)];
        }
        output.Put(rest);
        if !writing {
          writing := true;
        }
      }
    }

    // sendInLoop; `result` is what ::write does if it is called.
    method WriteOrBuffer(message: seq<byte>, result: WriteResult)
      requires output.Valid() && (result.Wrote? ==> result.n <= |message|)
      modifies this, output
      ensures output.Valid() && Abs() == SendInLoop(old(Abs()), message, result)
    {
      hide BufferRest, Inv;
      var nwrote := 0;
      var faultError := false;
      if state == Disconnected {
        return;
      }
      if !writing && output.ReadableBytes() == 0 {
        if result.Wrote? {
          nwrote := result.n;
          wire := wire + message[..nwrote];
          if |message| - nwrote == 0 && wantsComplete {
            queued := queued + [WriteComplete];
          }
        } else {
          if result.PeerGone? {
            faultError := true;
          }
        }
      }
      if !faultError {
        accepted := accepted + message;
        assert message[0..] == message;
        KeepRest(message[nwrote..]);
      }
    }

    method SendMessage(message: seq<byte>, result: WriteResult)
      requires Valid() && Admissible(Abs(), Send(message, result))
      modifies this, output
      ensures Valid() && Abs() == Step(old(Abs()), Send(message, result))
    {
      StepInv(Abs(), Send(message, result));
      if state == Connected {
        WriteOrBuffer(message, result);
      }
    }

    method ShutdownWhenIdle()
      requires output.Valid()
      modifies this
      ensures output.Valid() && Abs() == ShutdownInLoop(old(Abs()))
    {
      if !writing {
        shutdowns := shutdowns + 1;
      }
    }

    method ShutdownWrite()
      requires Valid()
      modifies this
      ensures Valid() && Abs() == Step(old(Abs()), Shutdown)
    {
      StepInv(Abs(), Shutdown);
      if state == Connected {
        state := Disconnecting;
        ShutdownWhenIdle();
      }
    }

    // The kernel took the first n bytes of the buffer.
    method HandOver(n: nat)
      requires output.Valid() && n <= |output.Contents()|
      modifies this, output
      ensures output.Valid()
      ensures
        var c := old(Abs());
        Abs() == c.(wire := c.wire + c.out[..n], out := c.out[n..])
    {
      assert output.data[output.reader..output.reader + n] == output.Contents()[..n];
      wire := wire + output.data[output.reader..output.reader + n];
      output.Take(n);
    }

    // The write itself, and what follows when the buffer is empty.
    method WriteOut(result: WriteResult)
      requires output.Valid() && (result.Wrote? ==> result.n <= |output.Contents()|)
      modifies this, output
      ensures output.Valid() && Abs() == HandleWrite(old(Abs()), result)
    {
      if writing {
        if result.Wrote? && result.n > 0 {
          HandOver(result.n);
          if output.ReadableBytes() == 0 {
            writing := false;
            if wantsComplete {
              queued := queued + [WriteComplete];
            }
            if state == Disconnecting {
              ShutdownWhenIdle();
            }
          }
        }
      }
    }

    method OnWritable(result: WriteResult)
      requires Valid() && Admissible(Abs(), Writable(result))
      modifies this, output
      ensures Valid() && Abs() == Step(old(Abs()), Writable(result))
      ensures state == old(state)
      ensures shutdowns == old(shutdowns) +
        (if state == Disconnecting && old(writing) && output.Contents() == [] then 1 else 0)
    {
      hide Inv, HandleWrite;
      StepInv(Abs(), Writable(result));
      WriteShuts(Abs(), result);
      WriteOut(result);
    }

    method ForceCloseLater()
      requires Valid()
      modifies this
      ensures Valid() && Abs() == Step(old(Abs()), ForceClose)
    {
      StepInv(Abs(), ForceClose);
      if state == Connected || state == Disconnecting {
        state := Disconnecting;
      }
    }

    method OnClose()
      requires Valid() && Admissible(Abs(), Close)
      modifies this
      ensures Valid() && Abs() == Step(old(Abs()), Close)
    {
      StepInv(Abs(), Close);
      state := Disconnected;
      writing, reading := false, false;
    }

    method ForceCloseNow()
      requires Valid()
      modifies this
      ensures Valid() && Abs() == Step(old(Abs()), ForceCloseInLoop)
    {
      if state == Connected || state == Disconnecting {
        OnClose();
      }
    }

    method ConnectEstablished()
      requires Valid() && Admissible(Abs(), Establish)
      modifies this
      ensures Valid() && Abs() == Step(old(Abs()), Establish)
    {
      StepInv(Abs(), Establish);
      state := Connected;
      reading := true;
    }

    method ConnectDestroyed()
      requires Valid()
      modifies this
      ensures Valid() && Abs() == Step(old(Abs()), Destroy)
    {
      if state == Connected {
        OnClose();
      }
    }
  }
}
