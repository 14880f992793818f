/** The client's transports and Socket as objects; every method does one step of EioClientProtocol. */
module EioClientSocket {
  import opened Sequences
  import opened EioPayload
  import opened EioClientProtocol

  /** Where flush would write, the transport is open. */
  predicate Sendable(s: State) { Current(s).writable && !s.upgrading ==> Current(s).ready.Opened? }

  class Transport {
    var ready: Ready
    var writable: bool
    var polling: bool
    var waits: Option<Waits>
    ghost var busy: nat

    constructor (ready: Ready, polling: bool)
      ensures View() == Conn(ready, false, 0, polling, None)
    {
      this.ready, this.polling := ready, polling;
      writable, waits, busy := false, None, 0;
    }

    ghost function View(): Conn
      reads this
    {
      Conn(ready, writable, busy, polling, waits)
    }

    /** send throws unless the transport is open. */
    method Send()
      requires ready.Opened?
      modifies this
      ensures View() == Write(old(View()))
    {
      writable := false;
      busy := busy + 1;
    }

    /** What the callback of a write does before it emits drain. */
    method Drained()
      requires busy > 0
      modifies this
      ensures View() == Drain(old(View()))
    {
      writable := true;
      busy := busy - 1;
    }
  }

  class Socket {
    var open: bool
    var writeBuffer: seq<Packet>
    var prevBufferLen: nat
    var upgrading: bool
    var transport: Transport
    // the transport of the start and the one under probe
    const polling: Transport
    const ws: Transport
    var stage: Stage
    ghost var inResponse: bool
    ghost var pushed: seq<Packet>
    ghost var handed: seq<Packet>
    ghost var drained: seq<Packet>
    ghost var wire: seq<Entry>
    ghost var switchedAt: Option<nat>

    ghost predicate Linked()
      reads `transport
    {
      polling != ws && (transport == polling || transport == ws)
    }

    ghost function View(): State
      reads this, polling, ws
    {
      State(open, inResponse, writeBuffer, prevBufferLen, upgrading,
            if transport == polling then Polling else WebSocket, polling.View(), ws.View(), stage,
            pushed, handed, drained, wire, switchedAt)
    }

    ghost predicate Valid()
      reads this, polling, ws
    {
      Linked() && Inv(View())
    }

    constructor ()
      ensures View() == Init() && Valid()
    {
      hide Inv;
      var p := new Transport(Opening, true);
      var w := new Transport(Unopened, false);
      polling, ws, transport := p, w, p;
      open, writeBuffer, prevBufferLen, upgrading, stage := false, [], 0, false, NoProbe;
      inResponse, pushed, handed, drained, wire, switchedAt := false, [], [], [], [], None;
      InitInv();
    }

    method FlushBuffer()
      requires Linked() && Sendable(View())
      modifies this, polling, ws
      ensures View() == Flush(old(View())) && Linked()
    {
      if transport.writable && !upgrading && |writeBuffer| != 0 {
        handed := handed + writeBuffer;
        wire := wire + [Batch(if transport == polling then Polling else WebSocket, transport.ready, writeBuffer)];
        transport.Send();
        prevBufferLen := |writeBuffer|;
      }
    }

    method OnTransportDrain()
      requires Linked() && Sendable(View())
      modifies this, polling, ws
      ensures View() == OnDrain(old(View())) && Linked()
    {
      var n := if prevBufferLen <= |writeBuffer| then prevBufferLen else |writeBuffer|;
      drained := drained + writeBuffer[..n];
      writeBuffer := writeBuffer[n..];
      prevBufferLen := 0;
      FlushBuffer();
    }

    /** The inner function of pause, then the callback that the probe gave it. */
    method OnPause()
      requires Linked() && (stage.Failed? || ws.ready.Opened?)
      modifies this, polling, ws
      ensures View() == PauseDone(old(View())) && Linked()
    {
      polling.ready, polling.waits := Paused, None;
      if stage.Failed? {
        return;
      }
      transport := ws;
      switchedAt, wire := Some(|wire|), wire + [Upgrade];
      transport.Send();
      stage := Switched;
      upgrading := false;
      FlushBuffer();
    }

    /** One of pause's listeners has run, leaving w. */
    method ListenerRan(w: Waits)
      requires Linked() && (stage.Failed? || ws.ready.Opened?)
      modifies this, polling, ws
      ensures View() == Settle(old(View()), w) && Linked()
    {
      hide PauseDone;
      if w.total == 0 {
        OnPause();
      } else {
        polling.waits := Some(w);
      }
    }

    method SendPacket(p: Packet)
      requires Valid()
      modifies this, polling, ws
      ensures View() == Apply(old(View()), Event.Send(p)) && Valid()
    {
      StepKeepsInv(View(), Event.Send(p));
      assert Sendable(View());
      hide Inv, Flush;
      pushed := pushed + [p];
      writeBuffer := writeBuffer + [p];
      FlushBuffer();
    }

    /** One packet of a poll response; the first opens the transport. */
    method OnPollPacket()
      requires Valid() && Enabled(View(), PollPacket)
      modifies `inResponse, polling
      ensures View() == Apply(old(View()), PollPacket) && Valid()
    {
      StepKeepsInv(View(), PollPacket);
      hide Inv, Enabled;
      inResponse := true;
      if polling.ready.Opening? {
        polling.ready, polling.writable := Opened, true;
      }
    }

    /** The handshake opens the socket, flushes, and starts the probe when the server offers a websocket. */
    method OnOpen(offersWebSocket: bool)
      requires Valid() && Enabled(View(), Handshake(offersWebSocket))
      modifies this, polling, ws
      ensures View() == Apply(old(View()), Handshake(offersWebSocket)) && Valid()
    {
      StepKeepsInv(View(), Handshake(offersWebSocket));
      assert Sendable(View());
      hide Inv, Flush;
      open := true;
      FlushBuffer();
      if offersWebSocket {
        stage := Started;
        ws.ready := Opening;
      }
    }

    method EmitPollComplete()
      requires Linked() && (polling.waits.Some? ==> stage.Failed? || ws.ready.Opened?)
      modifies this, polling, ws
      ensures View() == PollComplete(old(View())) && Linked()
    {
      hide Settle;
      if polling.waits.Some? {
        var w := polling.waits.value;
        if w.poll {
          ListenerRan(w.(total := w.total - 1, poll := false));
        }
      }
    }

    /** The end of a poll response: pollComplete, and the next poll unless the transport pauses. */
    method OnPollEnd()
      requires Valid() && Enabled(View(), PollEnd)
      modifies this, polling, ws
      ensures View() == Apply(old(View()), PollEnd) && Valid()
    {
      StepKeepsInv(View(), PollEnd);
      assert polling.waits.Some? ==> stage.Failed? || ws.ready.Opened?;
      hide Inv, PollComplete;
      inResponse := false;
      polling.polling := false;
      EmitPollComplete();
      if polling.ready.Opened? {
        polling.polling := true;
      }
    }

    /** A POST of the polling transport is done: the socket's listener runs, then pause's. */
    method OnPollDrain()
      requires Valid() && Enabled(View(), PollDrain)
      modifies this, polling, ws
      ensures View() == Apply(old(View()), PollDrain) && Valid()
    {
      StepKeepsInv(View(), PollDrain);
      assert polling.waits.Some? ==> stage.Failed? || ws.ready.Opened?;
      assert transport == polling ==> polling.ready.Opened? || upgrading;
      hide Inv, Settle, OnDrain;
      polling.Drained();
      if transport == polling {
        OnTransportDrain();
      }
      if polling.waits.Some? {
        var w := polling.waits.value;
        if w.drain {
          ListenerRan(w.(total := w.total - 1, drain := false));
        }
      }
    }

    /** The websocket opens: the probe pings, unless the upgrade would lose binary support. */
    method OnProbeOpen(losesBinary: bool)
      requires Valid() && Enabled(View(), ProbeOpen(losesBinary))
      modifies this, ws
      ensures View() == Apply(old(View()), ProbeOpen(losesBinary)) && Valid()
    {
      StepKeepsInv(View(), ProbeOpen(losesBinary));
      hide Inv;
      ws.ready, ws.writable := Opened, true;
      if losesBinary {
        stage := Failed;
      } else {
        wire := wire + [Ping];
        ws.Send();
        stage := Pinged;
      }
    }

    /** Polling.pause: wait for the poll that is out and the write in flight, or go on at once. */
    method PausePolling()
      requires Linked() && (stage.Failed? || ws.ready.Opened?)
      modifies this, polling, ws
      ensures View() == Pause(old(View())) && Linked()
    {
      hide PauseDone;
      polling.ready := Pausing;
      if polling.polling || !polling.writable {
        var total := 0;
        if polling.polling {
          total := total + 1;
        }
        if !polling.writable {
          total := total + 1;
        }
        polling.waits := Some(Waits(total, polling.polling, !polling.writable));
      } else {
        OnPause();
      }
    }

    /** The first packet on the probed websocket: a pong pauses polling. */
    method OnProbeAnswer(pong: bool)
      requires Valid() && Enabled(View(), ProbeAnswer(pong))
      modifies this, polling, ws
      ensures View() == Apply(old(View()), ProbeAnswer(pong)) && Valid()
    {
      StepKeepsInv(View(), ProbeAnswer(pong));
      assert ws.ready.Opened?;
      hide Inv, Pause;
      if !pong {
        stage := Refused;
        return;
      }
      upgrading := true;
      stage := Switching;
      PausePolling();
    }

    method OnProbeFails()
      requires Valid() && Enabled(View(), ProbeFails)
      modifies this, ws
      ensures View() == Apply(old(View()), ProbeFails) && Valid()
    {
      StepKeepsInv(View(), ProbeFails);
      hide Inv;
      stage := Failed;
      ws.ready := Closed;
    }

    /** The timer of a websocket write. */
    method OnWsDrain()
      requires Valid() && Enabled(View(), WsDrain)
      modifies this, polling, ws
      ensures View() == Apply(old(View()), WsDrain) && Valid()
    {
      StepKeepsInv(View(), WsDrain);
      assert transport == ws ==> ws.ready.Opened?;
      hide Inv, OnDrain;
      ws.Drained();
      if transport == ws {
        OnTransportDrain();
      }
    }
  }
}
