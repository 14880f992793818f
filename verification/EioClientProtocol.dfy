/** The client's engine.io Socket with its polling transport and a websocket probe, one JavaScript event at a time:
    write buffer, drain, and the upgrade. What a listener sends while an event is handled counts as an event of its own.
    The handling of one poll response, a single turn of JavaScript, is cut into its packets, the handshake and its end,
    and only sends may fall in between. */
module EioClientProtocol {
  import opened Sequences
  import opened EioPayload
  import B = Bytes

  /** Transport.readyState. */
  datatype Ready = Unopened | Opening | Opened | Pausing | Paused | Closed

  /** The closure of Polling.pause: how many of its two listeners have still to run, and which. */
  datatype Waits = Waits(total: int, poll: bool, drain: bool)

  /** A transport; busy counts the writes whose drain is still to come. */
  datatype Conn = Conn(ready: Ready, writable: bool, busy: nat, polling: bool, waits: Option<Waits>)

  datatype Via = Polling | WebSocket

  /** How far the websocket probe is. */
  datatype Stage = NoProbe | Started | Pinged | Refused | Switching | Switched | Failed

  /** What a transport was given: the batches of flush, with the state of the transport, and the probe's packets. */
  datatype Entry = Batch(via: Via, ready: Ready, packets: seq<Packet>) | Ping | Upgrade

  /** inResponse says that a poll response is being handled. pushed, handed, drained and wire record what sendPacket
      took, flush gave away, drain removed and transports were given; switchedAt is the place of the upgrade packet. */
  datatype State = State(
    open: bool,
    inResponse: bool,
    writeBuffer: seq<Packet>,
    prevBufferLen: nat,
    upgrading: bool,
    via: Via,
    polling: Conn,
    ws: Conn,
    stage: Stage,
    pushed: seq<Packet>,
    handed: seq<Packet>,
    drained: seq<Packet>,
    wire: seq<Entry>,
    switchedAt: Option<nat>)

  datatype Event =
    | Send(packet: Packet)
    | PollPacket
    | Handshake(offersWebSocket: bool)  // the open packet, after the listeners that hear of it first
    | PollEnd
    | PollDrain
    | ProbeOpen(losesBinary: bool)
    | ProbeAnswer(pong: bool)
    | ProbeFails
    | WsDrain

  function Init(): State {
    State(false, false, [], 0, false, Polling,
          Conn(Opening, false, 0, true, None), Conn(Unopened, false, 0, false, None), NoProbe, [], [], [], [], None)
  }

  function Current(s: State): Conn { if s.via.Polling? then s.polling else s.ws }

  function Write(c: Conn): Conn { c.(writable := false, busy := c.busy + 1) }

  function Drain(c: Conn): Conn
    requires c.busy > 0
  {
    c.(writable := true, busy := c.busy - 1)
  }

  predicate Flushes(s: State) { Current(s).writable && !s.upgrading && s.writeBuffer != [] }

  function Flush(s: State): State {
    if !Flushes(s) then s
    else
      s.(polling := if s.via.Polling? then Write(s.polling) else s.polling,
         ws := if s.via.Polling? then s.ws else Write(s.ws),
         prevBufferLen := |s.writeBuffer|,
         handed := s.handed + s.writeBuffer,
         wire := s.wire + [Batch(s.via, Current(s).ready, s.writeBuffer)])
  }

  /** splice(0, n) removes at most what is there. */
  function Spliced(s: State): nat { if s.prevBufferLen <= |s.writeBuffer| then s.prevBufferLen else |s.writeBuffer| }

  function OnDrain(s: State): State {
    Flush(s.(writeBuffer := s.writeBuffer[Spliced(s)..],
             drained := s.drained + s.writeBuffer[..Spliced(s)],
             prevBufferLen := 0))
  }

  /** setTransport and the upgrade packet. */
  function Switch(s: State): State {
    s.(via := WebSocket, stage := Switched, ws := Write(s.ws),
       wire := s.wire + [Upgrade], switchedAt := Some(|s.wire|), upgrading := false)
  }

  /** pause's inner function and the callback that probe passed; after a failure the callback returns at once. */
  function PauseDone(s: State): State {
    var t := s.(polling := s.polling.(ready := Paused, waits := None));
    if s.stage.Failed? then t else Flush(Switch(t))
  }

  /** One of pause's listeners has run. */
  function Settle(s: State, w: Waits): State {
    if w.total == 0 then PauseDone(s) else s.(polling := s.polling.(waits := Some(w)))
  }

  function Count(a: bool, b: bool): int { (if a then 1 else 0) + (if b then 1 else 0) }

  function Pause(s: State): State {
    var c := s.polling.(ready := Pausing);
    if c.polling || !c.writable then
      s.(polling := c.(waits := Some(Waits(Count(c.polling, !c.writable), c.polling, !c.writable))))
    else PauseDone(s.(polling := c))
  }

  /** The socket opens: flush, then the probe when the server offers a websocket. */
  function OnHandshake(s: State, offersWebSocket: bool): State {
    var t := Flush(s.(open := true));
    if offersWebSocket then t.(stage := Started, ws := t.ws.(ready := Opening)) else t
  }

  predicate Enabled(s: State, e: Event) {
    match e
    case Send(_) => true
    case PollPacket =>
      s.polling.polling && (s.polling.ready.Opening? || s.polling.ready.Opened? || s.polling.ready.Pausing?)
    case Handshake(_) => s.inResponse && !s.open
    case PollEnd => s.inResponse
    case PollDrain => !s.inResponse && s.polling.busy > 0
    case ProbeOpen(_) => !s.inResponse && s.stage.Started?
    case ProbeAnswer(_) => !s.inResponse && s.stage.Pinged?
    case ProbeFails =>
      !s.inResponse && (s.stage.Started? || s.stage.Pinged? || s.stage.Refused? || s.stage.Switching?)
    case WsDrain => !s.inResponse && s.ws.busy > 0
  }

  /** The first packet opens the transport. */
  function OnPollPacket(s: State): State {
    var t := s.(inResponse := true);
    if s.polling.ready.Opening? then t.(polling := s.polling.(ready := Opened, writable := true)) else t
  }

  /** pollComplete, for which pause may be listening. */
  function PollComplete(s: State): State {
    var w := s.polling.waits;
    if w.Some? && w.value.poll then Settle(s, w.value.(total := w.value.total - 1, poll := false)) else s
  }

  function OnPollEnd(s: State): State {
    var u := PollComplete(s.(inResponse := false, polling := s.polling.(polling := false)));
    if u.polling.ready.Opened? then u.(polling := u.polling.(polling := true)) else u
  }

  function OnPollDrain(s: State): State
    requires s.polling.busy > 0
  {
    var t := s.(polling := Drain(s.polling));
    var u := if s.via.Polling? then OnDrain(t) else t;
    var w := u.polling.waits;
    if w.Some? && w.value.drain then Settle(u, w.value.(total := w.value.total - 1, drain := false)) else u
  }

  function Apply(s: State, e: Event): State
    requires Enabled(s, e)
  {
    match e
    case Send(p) => Flush(s.(writeBuffer := s.writeBuffer + [p], pushed := s.pushed + [p]))
    case PollPacket => OnPollPacket(s)
    case Handshake(offersWebSocket) => OnHandshake(s, offersWebSocket)
    case PollEnd => OnPollEnd(s)
    case PollDrain => OnPollDrain(s)
    case ProbeOpen(losesBinary) =>
      var c := s.ws.(ready := Opened, writable := true);
      if losesBinary then s.(ws := c, stage := Failed)
      else s.(ws := Write(c), stage := Pinged, wire := s.wire + [Ping])
    case ProbeAnswer(pong) =>
      if pong then Pause(s.(upgrading := true, stage := Switching)) else s.(stage := Refused)
    case ProbeFails => s.(stage := Failed, ws := s.ws.(ready := Closed))
    case WsDrain =>
      var t := s.(ws := Drain(s.ws));
      if s.via.WebSocket? then OnDrain(t) else t
  }

  // ---------- the invariant ----------

  /** Buffer and records agree: drained packets, then the buffer, are what was sent; the first prevBufferLen of the
      buffer are with a transport. */
  predicate Buffered(s: State) {
    && s.prevBufferLen <= |s.writeBuffer|
    && s.drained + s.writeBuffer == s.pushed
    && s.drained + s.writeBuffer[..s.prevBufferLen] == s.handed
    && (Current(s).writable || Current(s).busy == 0 ==> s.prevBufferLen == 0)
  }

  predicate PollingShape(c: Conn) {
    && c.busy <= 1 && (c.waits.Some? <==> c.ready.Pausing?)
    && match c.ready
       case Opening => !c.writable && c.busy == 0 && c.polling
       case Opened => (c.writable <==> c.busy == 0) && c.polling
       case Pausing =>
         && (c.writable <==> c.busy == 0)
         && var w := c.waits.value;
            w.total == Count(w.poll, w.drain) > 0 && w.poll == c.polling && w.drain == !c.writable
       case Paused => c.writable && c.busy == 0 && !c.polling
       case _ => false
  }

  predicate WsShape(c: Conn, stage: Stage) {
    && (!c.writable && !c.ready.Unopened? && !c.ready.Opening? && stage != Failed ==> c.busy > 0)
    && match stage
       case NoProbe => c.ready.Unopened? && !c.writable && c.busy == 0
       case Started => c.ready.Opening? && !c.writable && c.busy == 0
       case Failed => c.ready.Opened? || c.ready.Closed?
       case _ => c.ready.Opened?
  }

  /** The polling transport is paused only for an upgrade under way. */
  predicate Shape(s: State) {
    && PollingShape(s.polling) && WsShape(s.ws, s.stage)
    && (s.inResponse ==> s.polling.polling && !s.polling.ready.Opening?)
    && (s.open ==> !s.polling.ready.Opening?) && (!s.open ==> s.stage.NoProbe?)
    && (s.via.WebSocket? <==> s.stage.Switched?)
    && (s.upgrading <==> s.via.Polling? && (s.polling.ready.Pausing? || s.polling.ready.Paused?))
    && (s.stage.Switching? ==> s.polling.ready.Pausing?)
    && (s.stage.Switched? ==> s.polling.ready.Paused?)
    && (s.polling.ready.Paused? ==> s.stage.Switched? || s.stage.Failed?)
    && (s.polling.ready.Pausing? ==> s.stage.Switching? || s.stage.Failed?)
  }

  /** Nothing is left lying while it could be sent. */
  predicate NothingLying(s: State) { s.open && Current(s).writable && !s.upgrading ==> s.writeBuffer == [] }

  function Packets(e: Entry): seq<Packet> { if e.Batch? then e.packets else [] }

  function AllPackets(wire: seq<Entry>): seq<Packet> {
    if wire == [] then [] else AllPackets(wire[..|wire| - 1]) + Packets(wire[|wire| - 1])
  }

  /** Each batch went to an open transport: to polling before the upgrade packet, to the websocket after it. */
  ghost predicate EntryFits(wire: seq<Entry>, i: nat, switchedAt: Option<nat>)
    requires i < |wire|
  {
    var before := switchedAt.None? || i < switchedAt.value;
    match wire[i]
    case Batch(via, ready, _) => ready.Opened? && (via.Polling? <==> before)
    case Ping => before
    case Upgrade => switchedAt == Some(i)
  }

  ghost predicate WireOrdered(wire: seq<Entry>, switchedAt: Option<nat>) {
    && (switchedAt.Some? ==> switchedAt.value < |wire| && wire[switchedAt.value].Upgrade?)
    && forall i :: 0 <= i < |wire| ==> EntryFits(wire, i, switchedAt)
  }

  ghost predicate Logged(s: State) {
    && WireOrdered(s.wire, s.switchedAt) && (s.switchedAt.Some? <==> s.via.WebSocket?)
    && AllPackets(s.wire) == s.handed
  }

  ghost predicate Inv(s: State) { Buffered(s) && Shape(s) && Logged(s) && NothingLying(s) }

  // ---------- flush keeps it ----------

  lemma FlushBuffered(s: State)
    requires Buffered(s)
    ensures Buffered(Flush(s)) && NothingLying(Flush(s))
  {
  }

  lemma FlushShape(s: State)
    requires Shape(s)
    ensures Shape(Flush(s))
    ensures Flushes(s) ==> Current(s).ready.Opened?
  {
  }

  lemma FlushLogged(s: State)
    requires Shape(s) && Logged(s)
    ensures Logged(Flush(s))
  {
    FlushShape(s);
    if Flushes(s) {
      WireGrows(s.wire, Batch(s.via, Current(s).ready, s.writeBuffer), s.switchedAt);
    }
  }

  lemma WireGrows(wire: seq<Entry>, e: Entry, switchedAt: Option<nat>)
    requires WireOrdered(wire, switchedAt)
    ensures AllPackets(wire + [e]) == AllPackets(wire) + Packets(e)
    ensures EntryFits(wire + [e], |wire|, switchedAt) ==> WireOrdered(wire + [e], switchedAt)
  {
    assert (wire + [e])[..|wire|] == wire;
    forall i | 0 <= i < |wire|
      ensures EntryFits(wire + [e], i, switchedAt)
    {
      assert EntryFits(wire, i, switchedAt);
    }
  }

  ghost predicate Core(s: State) { Buffered(s) && Shape(s) && Logged(s) }

  lemma FlushInv(s: State)
    requires Core(s)
    ensures Inv(Flush(s))
  {
    hide Buffered, Shape, Logged, NothingLying, Flush;
    FlushBuffered(s);
    FlushShape(s);
    FlushLogged(s);
  }

  /** A drained transport is writable while the socket still counts the packets as in flight. */
  lemma OnDrainInv(s: State)
    requires s.prevBufferLen <= |s.writeBuffer| && s.drained + s.writeBuffer == s.pushed
    requires s.drained + s.writeBuffer[..s.prevBufferLen] == s.handed
    requires Shape(s) && Logged(s)
    ensures Inv(OnDrain(s))
  {
    hide Shape, Logged, Buffered, NothingLying, Flush;
    var n := s.prevBufferLen;
    var t := s.(writeBuffer := s.writeBuffer[n..], drained := s.drained + s.writeBuffer[..n], prevBufferLen := 0);
    DrainedBuffered(s);
    Reshaped(s, t);
    FlushInv(t);
  }

  lemma DrainedBuffered(s: State)
    requires s.prevBufferLen <= |s.writeBuffer| && s.drained + s.writeBuffer == s.pushed
    requires s.drained + s.writeBuffer[..s.prevBufferLen] == s.handed
    ensures var n := s.prevBufferLen;
            Buffered(
              s.(writeBuffer := s.writeBuffer[n..], drained := s.drained + s.writeBuffer[..n], prevBufferLen := 0))
  {
    hide Current;
    var n := s.prevBufferLen;
    assert s.writeBuffer == s.writeBuffer[..n] + s.writeBuffer[n..];
    B.Associate(s.drained, s.writeBuffer[..n], s.writeBuffer[n..]);
  }

  /** The shape and the log do not depend on the write buffer. */
  lemma Reshaped(s: State, t: State)
    requires Shape(s) && Logged(s)
    requires t.open == s.open && t.inResponse == s.inResponse && t.upgrading == s.upgrading && t.via == s.via
    requires t.polling == s.polling && t.ws == s.ws && t.stage == s.stage
    requires t.handed == s.handed && t.wire == s.wire && t.switchedAt == s.switchedAt
    ensures Shape(t) && Logged(t)
  {
  }

  /** The moment both of pause's listeners have run. */
  predicate ListenersDone(s: State) {
    && s.open && s.via.Polling? && s.upgrading && (s.stage.Switching? || s.stage.Failed?) && WsShape(s.ws, s.stage)
    && s.polling.ready.Pausing? && s.polling.writable && s.polling.busy == 0 && !s.polling.polling && !s.inResponse
  }

  lemma SwitchCore(s: State)
    requires Buffered(s) && Logged(s) && s.prevBufferLen == 0 && s.open && s.via.Polling? && s.stage.Switching?
    requires WsShape(s.ws, s.stage) && PollingShape(s.polling) && s.polling.ready.Paused? && !s.inResponse
    ensures Core(Switch(s))
  {
    var k := |s.wire|;
    assert (s.wire + [Upgrade])[..k] == s.wire;
    forall i | 0 <= i < k + 1
      ensures EntryFits(s.wire + [Upgrade], i, Some(k))
    {
      if i < k {
        assert EntryFits(s.wire, i, s.switchedAt);
      }
    }
  }

  lemma PauseDoneInv(s: State)
    requires Buffered(s) && Logged(s) && s.prevBufferLen == 0 && ListenersDone(s)
    ensures Inv(PauseDone(s))
  {
    hide Logged, Switch;
    var t := s.(polling := s.polling.(ready := Paused, waits := None));
    assert Logged(t) by { SameLog(s, t); }
    if !s.stage.Failed? {
      SwitchCore(t);
      FlushInv(Switch(t));
    }
  }

  lemma SameLog(s: State, t: State)
    requires Logged(s) && t.handed == s.handed && t.wire == s.wire && t.switchedAt == s.switchedAt && t.via == s.via
    ensures Logged(t)
  {
  }

  // ---------- every event keeps it ----------

  lemma SendInv(s: State, p: Packet)
    requires Inv(s)
    ensures Inv(Apply(s, Send(p)))
  {
    hide Shape, Logged, Flush;
    var t := s.(writeBuffer := s.writeBuffer + [p], pushed := s.pushed + [p]);
    Reshaped(s, t);
    B.Associate(s.drained, s.writeBuffer, [p]);
    assert t.writeBuffer[..s.prevBufferLen] == s.writeBuffer[..s.prevBufferLen];
    FlushInv(t);
  }

  lemma PollPacketInv(s: State)
    requires Inv(s) && Enabled(s, PollPacket)
    ensures Inv(OnPollPacket(s))
  {
    SameLog(s, OnPollPacket(s));
  }

  lemma HandshakeInv(s: State, offersWebSocket: bool)
    requires Inv(s) && Enabled(s, Handshake(offersWebSocket))
    ensures Inv(OnHandshake(s, offersWebSocket))
  {
    var t := s.(open := true);
    assert Core(t) by { SameLog(s, t); }
    FlushInv(t);
    var u := Flush(t);
    if offersWebSocket {
      var v := u.(stage := Started, ws := u.ws.(ready := Opening));
      assert Core(v) by { SameLog(u, v); }
    }
  }

  lemma PollEndInv(s: State)
    requires Inv(s) && Enabled(s, PollEnd)
    ensures Inv(OnPollEnd(s))
  {
    hide Logged, Flush;
    var t := s.(inResponse := false, polling := s.polling.(polling := false));
    SameLog(s, t);
    if s.polling.waits.Some? {
      var w := s.polling.waits.value;
      if w.total == 1 {
        PauseDoneInv(t);
      } else {
        SameLog(s, OnPollEnd(s));
      }
    } else {
      SameLog(s, OnPollEnd(s));
    }
  }

  lemma NoFlush(s: State)
    requires s.upgrading
    ensures Flush(s) == s
  {
  }

  /** While upgrading, a drain shortens the buffer and sends nothing. */
  lemma DrainWhileUpgrading(s: State)
    requires s.prevBufferLen <= |s.writeBuffer| && s.drained + s.writeBuffer == s.pushed
    requires s.drained + s.writeBuffer[..s.prevBufferLen] == s.handed
    requires s.upgrading && Logged(s)
    ensures var n := s.prevBufferLen;
            OnDrain(s) ==
            s.(writeBuffer := s.writeBuffer[n..], drained := s.drained + s.writeBuffer[..n], prevBufferLen := 0)
    ensures Buffered(OnDrain(s)) && Logged(OnDrain(s))
  {
    hide Buffered, Logged, Flush;
    var n := s.prevBufferLen;
    var t := s.(writeBuffer := s.writeBuffer[n..], drained := s.drained + s.writeBuffer[..n], prevBufferLen := 0);
    DrainedBuffered(s);
    SameLog(s, t);
    NoFlush(t);
  }

  lemma PollDrainInv(s: State)
    requires Inv(s) && Enabled(s, PollDrain)
    ensures Inv(OnPollDrain(s))
  {
    hide Logged, Flush, OnDrain, PauseDone;
    var t := s.(polling := Drain(s.polling));
    SameLog(s, t);
    if s.polling.ready.Pausing? {
      // the socket's own listener comes first; the upgrade keeps it from flushing
      DrainWhileUpgrading(t);
      var u := OnDrain(t);
      if u.polling.waits.value.total == 1 {
        PauseDoneInv(u);
      } else {
        SameLog(u, OnPollDrain(s));
      }
    } else {
      OnDrainInv(t);
      OnDrainLeaves(t);
    }
  }

  lemma OnDrainLeaves(s: State)
    ensures OnDrain(s).polling.waits == s.polling.waits
  {
  }

  lemma WsDrainInv(s: State)
    requires Inv(s) && Enabled(s, WsDrain)
    ensures Inv(Apply(s, WsDrain))
  {
    hide Logged, OnDrain;
    var t := s.(ws := Drain(s.ws));
    SameLog(s, t);
    if s.via.WebSocket? {
      OnDrainInv(t);
    }
  }

  lemma ProbeInv(s: State, e: Event)
    requires Inv(s) && Enabled(s, e) && (e.ProbeOpen? || e.ProbeFails? || (e.ProbeAnswer? && !e.pong))
    ensures Inv(Apply(s, e))
  {
    if e.ProbeOpen? && !e.losesBinary {
      WireGrows(s.wire, Ping, s.switchedAt);
    }
  }

  lemma PongInv(s: State)
    requires Inv(s) && Enabled(s, ProbeAnswer(true))
    ensures Inv(Apply(s, ProbeAnswer(true)))
  {
    hide Logged, Flush;
    var t := s.(upgrading := true, stage := Switching);
    SameLog(s, t);
    if s.polling.polling || !s.polling.writable {
      SameLog(s, Pause(t));
    }
  }

  lemma StepKeepsInv(s: State, e: Event)
    requires Inv(s) && Enabled(s, e)
    ensures Inv(Apply(s, e))
  {
    hide Inv, OnPollPacket, OnHandshake, OnPollEnd, OnPollDrain;
    match e
    case Send(p) => SendInv(s, p);
    case PollPacket => PollPacketInv(s);
    case Handshake(offersWebSocket) => HandshakeInv(s, offersWebSocket);
    case PollEnd => PollEndInv(s);
    case PollDrain => PollDrainInv(s);
    case WsDrain => WsDrainInv(s);
    case ProbeAnswer(pong) =>
      if pong {
        PongInv(s);
      } else {
        ProbeInv(s, e);
      }
    case _ => ProbeInv(s, e);
  }

  // ---------- runs ----------

  predicate IsRun(s: State, es: seq<Event>)
    decreases |es|
  {
    es == [] || (Enabled(s, es[0]) && IsRun(Apply(s, es[0]), es[1..]))
  }

  function After(s: State, es: seq<Event>): State
    requires IsRun(s, es)
    decreases |es|
  {
    if es == [] then s else After(Apply(s, es[0]), es[1..])
  }

  /** The packets of a run, in the order sendPacket took them. */
  function Sent(es: seq<Event>): seq<Packet> {
    if es == [] then [] else (if es[0].Send? then [es[0].packet] else []) + Sent(es[1..])
  }

  lemma InitInv()
    ensures Inv(Init())
  {
  }

  lemma OneFlushPushesNothing(s: State)
    ensures Flush(s).pushed == s.pushed
  {
  }

  lemma FlushPushesNothing(s: State)
    ensures Flush(s).pushed == s.pushed && OnDrain(s).pushed == s.pushed && PauseDone(s).pushed == s.pushed
  {
    hide Flush;
    OneFlushPushesNothing(s);
    var n := Spliced(s);
    OneFlushPushesNothing(
      s.(writeBuffer := s.writeBuffer[n..], drained := s.drained + s.writeBuffer[..n], prevBufferLen := 0));
    OneFlushPushesNothing(Switch(s.(polling := s.polling.(ready := Paused, waits := None))));
  }

  lemma PushedOnce(s: State, e: Event)
    requires Enabled(s, e)
    ensures Apply(s, e).pushed == s.pushed + (if e.Send? then [e.packet] else [])
  {
    hide Flush, OnDrain, PauseDone;
    match e
    case Send(p) => FlushPushesNothing(s.(writeBuffer := s.writeBuffer + [p], pushed := s.pushed + [p]));
    case Handshake(_) => FlushPushesNothing(s.(open := true));
    case PollEnd => FlushPushesNothing(s.(inResponse := false, polling := s.polling.(polling := false)));
    case PollDrain =>
      var t := s.(polling := Drain(s.polling));
      FlushPushesNothing(t);
      FlushPushesNothing(if s.via.Polling? then OnDrain(t) else t);
    case ProbeAnswer(pong) =>
      FlushPushesNothing(s.(upgrading := true, stage := Switching, polling := s.polling.(ready := Pausing)));
    case WsDrain => FlushPushesNothing(s.(ws := Drain(s.ws)));
    case _ =>
  }

  lemma {:induction false} RunKeepsInv(s: State, es: seq<Event>)
    requires Inv(s) && IsRun(s, es)
    ensures Inv(After(s, es)) && After(s, es).pushed == s.pushed + Sent(es)
    decreases |es|
  {
    hide Inv, Apply, Enabled;
    if es != [] {
      StepKeepsInv(s, es[0]);
      PushedOnce(s, es[0]);
      RunKeepsInv(Apply(s, es[0]), es[1..]);
    }
  }

  lemma FromInit(es: seq<Event>)
    requires IsRun(Init(), es)
    ensures Inv(After(Init(), es)) && After(Init(), es).pushed == Sent(es)
  {
    InitInv();
    RunKeepsInv(Init(), es);
    hide Inv, IsRun, After, Sent;
    assert [] + Sent(es) == Sent(es);
  }

  /** In every run, upgrades with packets in flight included: what flush handed over is a prefix of what was sent;
      drained packets and the buffer make up what was sent; the transports were given exactly what was handed over, each
      batch on an open transport, on polling before the upgrade packet and on the websocket after it. */
  lemma EveryRun(es: seq<Event>)
    requires IsRun(Init(), es)
    ensures var s := After(Init(), es);
            && s.handed <= Sent(es) && s.drained <= s.handed
            && s.drained + s.writeBuffer == Sent(es)
            && AllPackets(s.wire) == s.handed && WireOrdered(s.wire, s.switchedAt)
  {
    FromInit(es);
    hide IsRun, After, Shape, WireOrdered;
    var s := After(Init(), es);
    assert s.writeBuffer == s.writeBuffer[..s.prevBufferLen] + s.writeBuffer[s.prevBufferLen..];
    B.Associate(s.drained, s.writeBuffer[..s.prevBufferLen], s.writeBuffer[s.prevBufferLen..]);
    assert Sent(es) == s.handed + s.writeBuffer[s.prevBufferLen..];
  }

  /** flush never gives anything to a transport that is pausing or paused; Transport.send would throw. */
  lemma FlushFindsOpenTransport(es: seq<Event>)
    requires IsRun(Init(), es)
    ensures var s := After(Init(), es); Flushes(s) ==> Current(s).ready.Opened?
  {
    FromInit(es);
    FlushShape(After(Init(), es));
  }

  /** Nothing is forgotten: with the socket open, no upgrade under way and no write in flight, all that was sent has
      drained. */
  lemma NothingForgotten(es: seq<Event>)
    requires IsRun(Init(), es)
    ensures var s := After(Init(), es);
            s.open && !s.upgrading && Current(s).busy == 0 ==> s.writeBuffer == [] && s.drained == Sent(es)
  {
    FromInit(es);
    hide IsRun, After, Logged;
    var s := After(Init(), es);
    assert s.drained + [] == s.drained;
  }

  /** Every packet given to polling has drained before the upgrade packet goes out. */
  ghost predicate HandedOver(s: State) {
    s.switchedAt.Some? ==>
      s.switchedAt.value <= |s.wire| && |AllPackets(s.wire[..s.switchedAt.value])| <= |s.drained|
  }

  lemma {:induction false} RunHandsOver(s: State, es: seq<Event>)
    requires Inv(s) && HandedOver(s) && IsRun(s, es)
    ensures HandedOver(After(s, es))
    decreases |es|
  {
    if es != [] {
      StepKeepsInv(s, es[0]);
      StepHandsOver(s, es[0]);
      hide Inv, Apply, Enabled, HandedOver;
      RunHandsOver(Apply(s, es[0]), es[1..]);
    }
  }

  lemma StepHandsOver(s: State, e: Event)
    requires Inv(s) && HandedOver(s) && Enabled(s, e)
    ensures HandedOver(Apply(s, e))
  {
    var t := Apply(s, e);
    if s.switchedAt.Some? {
      var k := s.switchedAt.value;
      assert t.switchedAt == s.switchedAt && s.wire <= t.wire && s.drained <= t.drained;
      assert t.wire[..k] == s.wire[..k];
    }
  }

  lemma {:induction false} EarlierPackets(wire: seq<Entry>, k: nat)
    requires k <= |wire|
    ensures AllPackets(wire[..k]) <= AllPackets(wire)
    decreases |wire| - k
  {
    if k == |wire| {
      assert wire[..k] == wire;
    } else {
      assert wire[..k + 1][..k] == wire[..k];
      EarlierPackets(wire, k + 1);
    }
  }

  /** In every run the packets given to polling have all drained when the upgrade packet is sent. */
  lemma PollingDrainsFirst(es: seq<Event>)
    requires IsRun(Init(), es)
    ensures var s := After(Init(), es);
            s.switchedAt.Some? ==>
              s.switchedAt.value <= |s.wire| && AllPackets(s.wire[..s.switchedAt.value]) <= s.drained
  {
    InitInv();
    EveryRun(es);
    RunHandsOver(Init(), es);
    hide IsRun, After, AllPackets;
    var s := After(Init(), es);
    if s.switchedAt.Some? {
      EarlierPackets(s.wire, s.switchedAt.value);
    }
  }

  /** The upgrade is probed: the ping went over the websocket before the upgrade packet. */
  ghost predicate Probed(s: State) {
    && (HasPinged(s.stage) ==> Ping in s.wire)
    && (s.switchedAt.Some? ==> s.switchedAt.value <= |s.wire| && Ping in s.wire[..s.switchedAt.value])
  }

  /** The probe has pinged and polling is still in use. */
  predicate HasPinged(stage: Stage) { stage.Pinged? || stage.Refused? || stage.Switching? }

  /** The wire only grows, and the probe gets no further without its ping. */
  ghost predicate Extends(s: State, t: State) {
    s.wire <= t.wire && (HasPinged(t.stage) ==> HasPinged(s.stage) || Ping in t.wire)
  }

  lemma OneFlushExtends(s: State)
    ensures s.wire <= Flush(s).wire && Flush(s).stage == s.stage
  {
  }

  lemma FlushExtends(s: State)
    ensures Extends(s, Flush(s)) && Extends(s, OnDrain(s)) && Extends(s, PauseDone(s))
  {
    hide Flush;
    OneFlushExtends(s);
    var n := Spliced(s);
    OneFlushExtends(
      s.(writeBuffer := s.writeBuffer[n..], drained := s.drained + s.writeBuffer[..n], prevBufferLen := 0));
    OneFlushExtends(Switch(s.(polling := s.polling.(ready := Paused, waits := None))));
  }

  lemma PollEndExtends(s: State)
    ensures Extends(s, OnPollEnd(s))
  {
    hide Flush, PauseDone;
    FlushExtends(s.(inResponse := false, polling := s.polling.(polling := false)));
  }

  lemma PollDrainExtends(s: State)
    requires s.polling.busy > 0
    ensures Extends(s, OnPollDrain(s))
  {
    hide Flush, OnDrain, PauseDone;
    var t := s.(polling := Drain(s.polling));
    FlushExtends(t);
    FlushExtends(if s.via.Polling? then OnDrain(t) else t);
  }

  lemma StepExtends(s: State, e: Event)
    requires Enabled(s, e)
    ensures Extends(s, Apply(s, e))
  {
    hide Flush, OnDrain, PauseDone, OnPollEnd, OnPollDrain;
    match e
    case Send(p) => FlushExtends(s.(writeBuffer := s.writeBuffer + [p], pushed := s.pushed + [p]));
    case Handshake(_) => FlushExtends(s.(open := true));
    case PollEnd => PollEndExtends(s);
    case PollDrain => PollDrainExtends(s);
    case ProbeAnswer(pong) =>
      FlushExtends(s.(upgrading := true, stage := Switching, polling := s.polling.(ready := Pausing)));
    case WsDrain => FlushExtends(s.(ws := Drain(s.ws)));
    case _ =>
  }

  lemma SwitchesOnce(s: State, e: Event)
    requires Inv(s) && Enabled(s, e)
    ensures s.switchedAt.Some? ==> Apply(s, e).switchedAt == s.switchedAt
    ensures s.switchedAt.None? && Apply(s, e).switchedAt.Some? ==>
              Apply(s, e).switchedAt.value == |s.wire| && s.stage.Switching?
  {
    hide Buffered, Logged, NothingLying;
    assert s.switchedAt.Some? <==> s.via.WebSocket? by { ViaIsLogged(s); }
  }

  lemma ViaIsLogged(s: State)
    requires Logged(s)
    ensures s.switchedAt.Some? <==> s.via.WebSocket?
  {
  }

  lemma StepProbes(s: State, e: Event)
    requires Inv(s) && Probed(s) && Enabled(s, e)
    ensures Probed(Apply(s, e))
  {
    hide Inv, Enabled, Apply;
    StepExtends(s, e);
    SwitchesOnce(s, e);
    var t := Apply(s, e);
    if s.switchedAt.Some? {
      var k := s.switchedAt.value;
      assert t.wire[..k] == s.wire[..k];
    } else if t.switchedAt.Some? {
      assert t.wire[..t.switchedAt.value] == s.wire;
    }
  }

  lemma {:induction false} RunProbes(s: State, es: seq<Event>)
    requires Inv(s) && Probed(s) && IsRun(s, es)
    ensures Probed(After(s, es))
    decreases |es|
  {
    hide Inv, Apply, Enabled, Probed;
    if es != [] {
      StepKeepsInv(s, es[0]);
      StepProbes(s, es[0]);
      RunProbes(Apply(s, es[0]), es[1..]);
    }
  }

  /** In every run the upgrade packet comes after the probe's ping. */
  lemma UpgradeAfterProbe(es: seq<Event>)
    requires IsRun(Init(), es)
    ensures var s := After(Init(), es);
            s.switchedAt.Some? ==> s.switchedAt.value <= |s.wire| && Ping in s.wire[..s.switchedAt.value]
  {
    InitInv();
    RunProbes(Init(), es);
  }

  predicate Answered(s: State) { s.stage.Switching? || s.stage.Switched? || s.upgrading }

  /** What the websocket's probe has to have heard by now. */
  predicate Heard(s: State, es: seq<Event>) {
    && (!s.stage.NoProbe? ==> Event.Handshake(true) in es)
    && (Ping in s.wire ==> !s.stage.NoProbe? && ProbeOpen(false) in es)
    && (HasPinged(s.stage) || Answered(s) ==> ProbeOpen(false) in es)
    && (Answered(s) ==> ProbeAnswer(true) in es)
  }

  /** A step changes the stage of the probe only with the events that it hears of. */
  lemma StageStep(s: State, e: Event)
    requires Inv(s) && Enabled(s, e)
    ensures var t := Apply(s, e);
            && (s.stage.NoProbe? && !t.stage.NoProbe? ==> e == Handshake(true))
            && (t.stage.NoProbe? ==> s.stage.NoProbe? && e != ProbeOpen(false))
            && (HasPinged(t.stage) ==> HasPinged(s.stage) || e == ProbeOpen(false))
            && (Answered(t) ==> Answered(s) || (s.stage.Pinged? && e == ProbeAnswer(true)))
  {
    hide Buffered, Logged, NothingLying;
  }

  lemma FlushPingsNot(s: State)
    ensures Ping in Flush(s).wire <==> Ping in s.wire
  {
  }

  lemma PingsNot(s: State)
    ensures Ping in OnDrain(s).wire <==> Ping in s.wire
    ensures Ping in PauseDone(s).wire <==> Ping in s.wire
  {
    hide Flush;
    var n := Spliced(s);
    FlushPingsNot(s.(writeBuffer := s.writeBuffer[n..], drained := s.drained + s.writeBuffer[..n], prevBufferLen := 0));
    FlushPingsNot(Switch(s.(polling := s.polling.(ready := Paused, waits := None))));
  }

  /** The ping goes out when the websocket opens and the upgrade would not lose binary support, and only then. */
  lemma PingStep(s: State, e: Event)
    requires Enabled(s, e)
    ensures Ping in Apply(s, e).wire <==> Ping in s.wire || e == ProbeOpen(false)
  {
    hide Flush, OnDrain, PauseDone;
    match e
    case Send(p) => FlushPingsNot(s.(writeBuffer := s.writeBuffer + [p], pushed := s.pushed + [p]));
    case Handshake(_) => FlushPingsNot(s.(open := true));
    case PollEnd => PingsNot(s.(inResponse := false, polling := s.polling.(polling := false)));
    case PollDrain =>
      var t := s.(polling := Drain(s.polling));
      PingsNot(t);
      PingsNot(if s.via.Polling? then OnDrain(t) else t);
    case ProbeAnswer(pong) =>
      PingsNot(s.(upgrading := true, stage := Switching, polling := s.polling.(ready := Pausing)));
    case WsDrain => PingsNot(s.(ws := Drain(s.ws)));
    case _ =>
  }

  lemma {:induction false} RunHears(s: State, done: seq<Event>, es: seq<Event>)
    requires Inv(s) && Heard(s, done) && IsRun(s, es)
    ensures Heard(After(s, es), done + es)
    decreases |es|
  {
    hide Inv, Apply, Enabled;
    if es == [] {
      assert done + es == done;
    } else {
      StepKeepsInv(s, es[0]);
      StageStep(s, es[0]);
      PingStep(s, es[0]);
      RunHears(Apply(s, es[0]), done + [es[0]], es[1..]);
      assert done + [es[0]] + es[1..] == done + es;
    }
  }

  /** In every run: the probe pings only when the server has offered a websocket and binary support is not lost, and the
      upgrade begins only with the pong. */
  lemma UpgradeIsAgreed(es: seq<Event>)
    requires IsRun(Init(), es)
    ensures var s := After(Init(), es);
            && (Ping in s.wire ==> Handshake(true) in es && ProbeOpen(false) in es)
            && (s.upgrading || s.switchedAt.Some? ==> Handshake(true) in es && ProbeOpen(false) in es
                                                      && ProbeAnswer(true) in es)
  {
    FromInit(es);
    RunHears(Init(), [], es);
    assert [] + es == es;
    hide IsRun, After, Inv;
    UpgradeStages(After(Init(), es));
  }

  lemma UpgradeStages(s: State)
    requires Inv(s)
    ensures s.switchedAt.Some? ==> s.stage.Switched?
    ensures Answered(s) ==> !s.stage.NoProbe?
  {
  }

  /** A probe that fails while the transport pauses leaves the socket stuck: it never flushes again. */
  lemma {:induction false} StuckAfterFailedSwitch(s: State, es: seq<Event>)
    requires Inv(s) && s.upgrading && s.stage.Failed? && IsRun(s, es)
    ensures After(s, es).handed == s.handed && After(s, es).upgrading
    decreases |es|
  {
    if es != [] {
      StepKeepsInv(s, es[0]);
      StuckStep(s, es[0]);
      hide Inv, Apply, Enabled;
      StuckAfterFailedSwitch(Apply(s, es[0]), es[1..]);
    }
  }

  lemma StuckStep(s: State, e: Event)
    requires Inv(s) && s.upgrading && s.stage.Failed? && Enabled(s, e)
    ensures var t := Apply(s, e); t.handed == s.handed && t.upgrading && t.stage.Failed?
  {
  }

  lemma OneStepRun(s: State, e: Event)
    requires Enabled(s, e)
    ensures IsRun(s, [e]) && After(s, [e]) == Apply(s, e)
  {
    hide Apply;
    assert [e][1..] == [] && IsRun(Apply(s, e), []);
  }

  lemma {:induction false} RunConcat(s: State, a: seq<Event>, b: seq<Event>)
    requires IsRun(s, a) && IsRun(After(s, a), b)
    ensures IsRun(s, a + b) && After(s, a + b) == After(After(s, a), b)
    decreases |a|
  {
    hide Apply, Enabled;
    if a == [] {
      assert a + b == b;
    } else {
      assert (a + b)[1..] == a[1..] + b;
      RunConcat(Apply(s, a[0]), a[1..], b);
    }
  }

  lemma TwoStepRun(s: State, e: Event, f: Event)
    requires Enabled(s, e) && Enabled(Apply(s, e), f)
    ensures IsRun(s, [e, f]) && After(s, [e, f]) == Apply(Apply(s, e), f)
  {
    hide Apply;
    OneStepRun(s, e);
    OneStepRun(Apply(s, e), f);
    RunConcat(s, [e], [f]);
    assert [e] + [f] == [e, f];
  }

  lemma ThreeStepRun(s: State, e: Event, f: Event, g: Event)
    requires Enabled(s, e) && Enabled(Apply(s, e), f) && Enabled(Apply(Apply(s, e), f), g)
    ensures IsRun(s, [e, f, g]) && After(s, [e, f, g]) == Apply(Apply(Apply(s, e), f), g)
  {
    hide Apply;
    OneStepRun(s, e);
    TwoStepRun(Apply(s, e), f, g);
    RunConcat(s, [e], [f, g]);
    assert [e] + [f, g] == [e, f, g];
  }

  /** An undisturbed upgrade: the handshake starts the probe, its pong pauses polling, and the end of the next poll
      response switches to the websocket. */
  lemma UndisturbedUpgrade() returns (es: seq<Event>)
    ensures es == [PollPacket, Handshake(true), PollEnd] + [ProbeOpen(false), ProbeAnswer(true)] + [PollPacket, PollEnd]
    ensures IsRun(Init(), es)
    ensures var s := After(Init(), es); s.via.WebSocket? && !s.upgrading && s.wire == [Ping, Upgrade]
  {
    var s := Apply(Apply(Apply(Init(), PollPacket), Handshake(true)), PollEnd);
    ThreeStepRun(Init(), PollPacket, Handshake(true), PollEnd);
    TwoStepRun(s, ProbeOpen(false), ProbeAnswer(true));
    var t := Apply(Apply(s, ProbeOpen(false)), ProbeAnswer(true));
    assert t.stage.Switching? && t.wire == [Ping] && t.polling.writable && t.polling.polling && t.writeBuffer == [];
    TwoStepRun(t, PollPacket, PollEnd);
    var u := Apply(Apply(t, PollPacket), PollEnd);
    assert u.via.WebSocket? && !u.upgrading && u.wire == [Ping, Upgrade];
    hide Apply, Enabled, IsRun, After;
    RunConcat(Init(), [PollPacket, Handshake(true), PollEnd], [ProbeOpen(false), ProbeAnswer(true)]);
    RunConcat(Init(), [PollPacket, Handshake(true), PollEnd] + [ProbeOpen(false), ProbeAnswer(true)],
              [PollPacket, PollEnd]);
    es := [PollPacket, Handshake(true), PollEnd] + [ProbeOpen(false), ProbeAnswer(true)] + [PollPacket, PollEnd];
  }

  /** That state can be reached: the websocket fails after its pong while the next poll is still out. */
  lemma SwitchCanFail() returns (es: seq<Event>)
    ensures IsRun(Init(), es) && After(Init(), es).upgrading && After(Init(), es).stage.Failed?
    ensures es == [PollPacket, Handshake(true), PollEnd] + [ProbeOpen(false), ProbeAnswer(true), ProbeFails]
  {
    var s := Apply(Apply(Apply(Init(), PollPacket), Handshake(true)), PollEnd);
    ThreeStepRun(Init(), PollPacket, Handshake(true), PollEnd);
    ThreeStepRun(s, ProbeOpen(false), ProbeAnswer(true), ProbeFails);
    var t := Apply(Apply(Apply(s, ProbeOpen(false)), ProbeAnswer(true)), ProbeFails);
    assert t.upgrading && t.stage.Failed?;
    hide Apply, Enabled, IsRun, After;
    RunConcat(Init(), [PollPacket, Handshake(true), PollEnd], [ProbeOpen(false), ProbeAnswer(true), ProbeFails]);
    es := [PollPacket, Handshake(true), PollEnd] + [ProbeOpen(false), ProbeAnswer(true), ProbeFails];
  }

  /** What an upgrade under way still waits for: the drain of a write, and the end of the poll that is out. */
  function Awaited(s: State): seq<Event> {
    (if s.inResponse then [PollEnd] else [])
    + (if s.polling.writable then [] else [PollDrain])
    + (if s.polling.polling && !s.inResponse then [PollPacket, PollEnd] else [])
  }

  /** Otherwise an upgrade under way ends with the drain and the poll response it waits for, and the socket goes on. */
  lemma SwitchCompletes(s: State)
    requires Inv(s) && s.stage.Switching?
    ensures IsRun(s, Awaited(s)) && After(s, Awaited(s)).via.WebSocket? && !After(s, Awaited(s)).upgrading
  {
    hide Logged, Buffered, NothingLying, IsRun, After;
    if s.inResponse {
      EndThenDrain(s);
    } else if s.polling.writable {
      assert Awaited(s) == [PollPacket, PollEnd];
      TwoStepRun(s, PollPacket, PollEnd);
    } else if s.polling.polling {
      assert Awaited(s) == [PollDrain, PollPacket, PollEnd];
      ThreeStepRun(s, PollDrain, PollPacket, PollEnd);
    } else {
      assert Awaited(s) == [PollDrain];
      OneStepRun(s, PollDrain);
    }
  }

  lemma EndThenDrain(s: State)
    requires Inv(s) && s.stage.Switching? && s.inResponse
    ensures IsRun(s, Awaited(s)) && After(s, Awaited(s)).via.WebSocket? && !After(s, Awaited(s)).upgrading
  {
    hide Logged, Buffered, NothingLying, IsRun, After;
    if s.polling.writable {
      assert Awaited(s) == [PollEnd];
      OneStepRun(s, PollEnd);
    } else {
      assert Awaited(s) == [PollEnd, PollDrain];
      TwoStepRun(s, PollEnd, PollDrain);
    }
  }

  /** An upgrade under way can still end if and only if its probe has not failed. */
  lemma UpgradeCanEnd(s: State)
    requires Inv(s) && s.upgrading
    ensures (exists es :: IsRun(s, es) && !After(s, es).upgrading) <==> !s.stage.Failed?
  {
    if s.stage.Failed? {
      hide Inv;
      forall es | IsRun(s, es)
        ensures After(s, es).upgrading
      {
        StuckAfterFailedSwitch(s, es);
      }
    } else {
      assert s.stage.Switching? by { UpgradingStage(s); }
      hide Inv;
      SwitchCompletes(s);
      assert IsRun(s, Awaited(s)) && !After(s, Awaited(s)).upgrading;
    }
  }

  lemma UpgradingStage(s: State)
    requires Inv(s) && s.upgrading
    ensures s.stage.Switching? || s.stage.Failed?
  {
  }
}
