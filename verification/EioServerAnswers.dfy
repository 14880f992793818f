/** What the server of EioServerProtocol says outside of the write buffer: how a request is answered that gets no
    packets, and the pong for a probe. */
module EioServerAnswers {
  import opened Bytes
  import opened Sequences
  import opened EioParser
  import opened EioServerProtocol

  /** An entry that carries packets of the write buffer. */
  predicate Buffered(e: Entry) { e.Frame? || (e.Answer? && e.reply.Payload?) }

  /** The other entries, in order. */
  function Direct(wire: seq<Entry>): seq<Entry> {
    if wire == [] then []
    else Direct(wire[..|wire| - 1]) + (if Buffered(wire[|wire| - 1]) then [] else [wire[|wire| - 1]])
  }

  predicate IsProbe(p: Packet) { p == Packet(PING, PROBE) }

  /** A request that has to wait for its packets is a poll that finds the polling transport in use and idle. */
  predicate Waits(s: State, m: Method)
    requires WellFormed(s)
  {
    m.Get? && s.conns[s.current].Poller? && s.conns[s.current].req.None?
  }

  /** What a step says directly. A websocket handshake succeeds or fails on its own; any other request is refused once
      the websocket is in use; until then a POST that finds the transport idle is acknowledged, and the rest are errors.
      A probe gets its pong on the websocket that it came from. */
  function Said(s: State, e: Event): seq<Entry>
    requires Enabled(s, e)
  {
    match e
    case Request(m) =>
      if m.UpgradeTo? then [Answer(|s.asked|, if m.accepted then Switching else Refused)]
      else if Waits(s, m) then []
      else if s.conns[s.current].WebSocket? then [Answer(|s.asked|, Refused)]
      else if m.PostOf? && s.conns[s.current].req.None? then [Answer(|s.asked|, EioServerProtocol.Done)]
      else [Answer(|s.asked|, Overlap)]
    case FromUpgrading(x) =>
      if IsProbe(x.packet) then
        [Probed(s.upgrading.value, Packet(PONG, PROBE), PacketText(Packet(PONG, PROBE)))]
      else []
    case _ => []
  }

  function AllSaid(s: State, es: seq<Event>): seq<Entry>
    requires IsRun(s, es)
    decreases |es|
  {
    if es == [] then [] else Said(s, es[0]) + AllSaid(Apply(s, es[0]), es[1..])
  }

  // ---------- the write buffer says nothing directly ----------

  lemma DirectAppend(wire: seq<Entry>, e: Entry)
    ensures Direct(wire + [e]) == Direct(wire) + (if Buffered(e) then [] else [e])
  {
    assert (wire + [e])[..|wire|] == wire;
  }

  lemma {:induction false} DirectFrames(wire: seq<Entry>, conn: nat, ps: seq<Packet>)
    ensures Direct(wire + FrameEach(conn, ps)) == Direct(wire)
    decreases |ps|
  {
    hide Direct, FrameEach;
    if ps == [] {
      assert wire + FrameEach(conn, ps) == wire;
    } else {
      var front, last := ps[..|ps| - 1], ps[|ps| - 1];
      DirectFrames(wire, conn, front);
      FrameEachLast(conn, ps);
      Associate(wire, FrameEach(conn, front), [Frame(conn, last, PacketText(last))]);
      DirectAppend(wire + FrameEach(conn, front), Frame(conn, last, PacketText(last)));
    }
  }

  lemma FlushSaysNothing(s: State)
    requires WellFormed(s)
    ensures Direct(Flush(s).wire) == Direct(s.wire)
  {
    hide Direct, PayloadBytes, FrameEach;
    if Flushes(s) {
      match s.conns[s.current]
      case Poller(binary, _, resp, _) =>
        if resp.Some? {
          DirectAppend(s.wire, Answer(resp.value, PollReply(binary, s.writeBuffer)));
        } else {
          assert s.wire + [] == s.wire;
        }
      case WebSocket(_) => DirectFrames(s.wire, s.current, s.writeBuffer);
    }
  }

  lemma SendSaysNothing(s: State, kind: int, body: bytes)
    requires WellFormed(s)
    ensures Direct(Send(s, kind, body).wire) == Direct(s.wire)
  {
    hide Direct, Flush;
    var p := Packet(kind, body);
    FlushSaysNothing(s.(writeBuffer := s.writeBuffer + [p], accepted := s.accepted + [p]));
  }

  lemma {:induction false} SendAllSaysNothing(s: State, bodies: seq<bytes>)
    requires WellFormed(s)
    ensures Direct(SendAll(s, bodies).wire) == Direct(s.wire)
    decreases |bodies|
  {
    hide Send, Direct;
    if bodies != [] {
      SendSaysNothing(s, MESSAGE, bodies[0]);
      SendAllSaysNothing(Send(s, MESSAGE, bodies[0]), bodies[1..]);
    }
  }

  lemma OnPacketSaysNothing(s: State, x: Incoming)
    requires WellFormed(s)
    ensures Direct(OnPacket(s, x).wire) == Direct(s.wire)
  {
    hide Send, SendAll, Direct;
    SendSaysNothing(s, PONG, []);
    SendAllSaysNothing(s, x.replies);
    SendAllSaysNothing(Send(s, PONG, []), x.replies);
  }

  lemma {:induction false} OnPacketsSayNothing(s: State, xs: seq<Incoming>)
    requires WellFormed(s)
    ensures Direct(OnPackets(s, xs).wire) == Direct(s.wire)
    decreases |xs|
  {
    hide OnPacket, Direct;
    if xs != [] {
      OnPacketSaysNothing(s, xs[0]);
      OnPacketsSayNothing(OnPacket(s, xs[0]), xs[1..]);
    }
  }

  // ---------- every step ----------

  lemma RequestSays(s: State, m: Method)
    requires WellFormed(s)
    ensures Direct(Apply(s, Request(m)).wire) == Direct(s.wire) + Said(s, Request(m))
  {
    hide Direct, Flush, OnPackets, FrameEach;
    var id := |s.asked|;
    var t := s.(asked := s.asked + [m]);
    var c := s.conns[s.current];
    if Waits(s, m) {
      FlushSaysNothing(t.(conns := t.conns[t.current := Poller(c.binary, Some(Poll(id)), Some(id), true)]));
    } else if m.PostOf? && c.Poller? && c.req.None? {
      var u := OnPackets(WithReq(t, Some(Post(id))), m.body);
      OnPacketsSayNothing(WithReq(t, Some(Post(id))), m.body);
      DirectAppend(u.wire, Answer(id, EioServerProtocol.Done));
    } else {
      forall r: Reply
        ensures Direct(s.wire + [Answer(id, r)]) == Direct(s.wire) + (if r.Payload? then [] else [Answer(id, r)])
      {
        DirectAppend(s.wire, Answer(id, r));
      }
    }
  }

  /** Each step says exactly that, and nothing else goes past the write buffer. */
  lemma StepSays(s: State, e: Event)
    requires Enabled(s, e)
    ensures Direct(Apply(s, e).wire) == Direct(s.wire) + Said(s, e)
  {
    hide Direct, OnRequest, Send, OnPacket;
    match e
    case Request(m) => RequestSays(s, m);
    case AppSend(kind, body) => SendSaysNothing(s, kind, body);
    case FromCurrent(x) => OnPacketSaysNothing(s, x);
    case FromUpgrading(x) =>
      var u := s.upgrading.value;
      DirectAppend(s.wire, PongTo(u));
      SendSaysNothing(s.(wire := s.wire + [PongTo(u)], conns := s.conns[u := WebSocket(true)]), NOOP, []);
  }

  /** In every run the direct entries are what the steps say, in order: every request gets the answer that the state at
      its coming calls for, and every probe its pong. */
  lemma {:induction false} EveryRunSays(s: State, es: seq<Event>)
    requires IsRun(s, es)
    ensures Direct(After(s, es).wire) == Direct(s.wire) + AllSaid(s, es)
    decreases |es|
  {
    hide Direct, Said, Apply, Enabled;
    if es != [] {
      StepSays(s, es[0]);
      EveryRunSays(Apply(s, es[0]), es[1..]);
      Associate(Direct(s.wire), Said(s, es[0]), AllSaid(Apply(s, es[0]), es[1..]));
    }
  }

  // ---------- what a packet does to an upgrade ----------

  lemma SendKeepsUpgrade(s: State, kind: int, body: bytes)
    requires WellFormed(s)
    ensures var t := Send(s, kind, body);
            && t.current == s.current && t.upgrading == s.upgrading && |t.conns| == |s.conns|
            && (forall i :: 0 <= i < |s.conns| && i != s.current ==> t.conns[i] == s.conns[i])
  {
    hide PayloadBytes, FrameEach;
  }

  /** A probe leaves the websocket under test writable and waiting, and sends a noop to the transport in use; an upgrade
      packet puts the websocket into use; any other packet ends the attempt. */
  lemma UpgradeStep(s: State, x: Incoming)
    requires Enabled(s, FromUpgrading(x))
    ensures var t, u := Apply(s, FromUpgrading(x)), s.upgrading.value;
            && u < |t.conns|
            && (t.current == if x.packet.kind == UPGRADE then u else s.current)
            && (t.upgrading == if IsProbe(x.packet) || x.packet.kind == UPGRADE then Some(u) else None)
            && (IsProbe(x.packet) ==> t.conns[u] == WebSocket(true))
            && t.accepted == s.accepted + (if IsProbe(x.packet) then [Packet(NOOP, [])] else [])
  {
    hide Send;
    if IsProbe(x.packet) {
      var u := s.upgrading.value;
      var v := s.(wire := s.wire + [PongTo(u)], conns := s.conns[u := WebSocket(true)]);
      SendKeepsUpgrade(v, NOOP, []);
      SendAccepts(v, NOOP, []);
    }
  }

  // ---------- POSTs while a poll is held ----------

  /** While the polling transport is in use, the packets of a POST are handled if and only if no poll is held; a POST
      that comes while one is held is answered with an error, and its packets are lost. */
  lemma PostHandledIffNoPollHeld(s: State, body: seq<Incoming>)
    requires Inv(s, None) && NotPosting(s) && s.current == 0 && s.conns[0].Poller?
    ensures var t, id := Apply(s, Request(PostOf(body))), |s.asked|;
            if exists held :: Holds(s, held) then
              t == s.(asked := s.asked + [PostOf(body)], wire := s.wire + [Answer(id, Overlap)])
            else
              && t.wire == s.wire + [Answer(id, EioServerProtocol.Done)]
              && t.accepted == s.accepted + AllReplies(body)
  {
    hide Logged, OnPackets, AllReplies;
    var m := PostOf(body);
    var t := s.(asked := s.asked + [m]);
    var c := s.conns[0];
    if c.req.Some? {
      assert Holds(s, c.req.value.id);
    } else {
      assert forall held :: !Holds(s, held);
      var u := WithReq(t, Some(Post(|s.asked|)));
      PostGathers(u, body);
      OnPacketsAccept(u, body);
    }
  }

  /** It happens: a client that polls again before it posts is not heard. */
  lemma PostIsLost(data: bytes, body: seq<Incoming>, binary: bool)
    ensures var es := Handshake(data) + [Request(Get), Request(PostOf(body))];
            && IsRun(Init(true, binary), es)
            && After(Init(true, binary), es).wire
               == Opened(binary, data).wire + [Answer(2, Overlap)]
            && After(Init(true, binary), es).accepted == [Packet(OPEN, data)]
  {
    var s := Opened(binary, data);
    AfterHandshake(binary, data);
    var e, f := Request(Get), Request(PostOf(body));
    hide PayloadBytes, OnPackets;
    var t := Apply(s, e);
    assert t == s.(conns := [Poller(binary, Some(Poll(1)), Some(1), true)], asked := [Get, Get]);
    assert Apply(t, f).wire == s.wire + [Answer(2, Overlap)];
    TwoStepRun(s, e, f);
    hide Apply, Enabled, IsRun, After;
    RunConcat(Init(true, binary), Handshake(data), [e, f]);
  }
}
