/** The server's engineio::Socket with XHR polling and websockets, one HTTP request, websocket message or application
    send at a time: the write buffer, the poll that waits for an answer, and the upgrade.
    Packets sent by the message and ping callbacks come with the packet that causes them. */
module EioServerProtocol {
  import opened Bytes
  import opened Sequences
  import opened EioParser

  const OPEN := 0
  const PING := 2
  const PONG := 3
  const MESSAGE := 4
  const UPGRADE := 5
  const NOOP := 6

  const PROBE: bytes := [112, 114, 111, 98, 101]

  /** req_ of the polling transport. */
  datatype Held = Poll(id: nat) | Post(id: nat)

  /** binary is is_support_binary_; resp is the request that resp_ answers, until CleanUp. */
  datatype Conn =
    | Poller(binary: bool, req: Option<Held>, resp: Option<nat>, writable: bool)
    | WebSocket(writable: bool)

  /** A packet that comes in, with the messages that its callback sends. */
  datatype Incoming = Incoming(packet: Packet, replies: seq<bytes>)

  datatype Method = Get | PostOf(body: seq<Incoming>) | OtherMethod | UpgradeTo(accepted: bool)

  /** How a request is answered. A payload records the batch that SendPackets was given and the body it made of it. */
  datatype Reply =
    | Payload(batch: seq<Packet>, binary: bool, body: bytes)
    | Done | Overlap | Refused | Switching

  /** What goes over the network: an answer to a request, or a websocket message with the text of one packet, from the
      write buffer or past it to a websocket under test. */
  datatype Entry =
    | Answer(id: nat, reply: Reply)
    | Frame(conn: nat, packet: Packet, text: bytes)
    | Probed(conn: nat, packet: Packet, text: bytes)

  /** accepted, handed, wire and asked record the packets that CreateAndSendPacket took and Flush passed to the
      transports, the answers and messages, and the requests, numbered in the order of their coming. */
  datatype State = State(
    conns: seq<Conn>,
    current: nat,
    upgrading: Option<nat>,
    writeBuffer: seq<Packet>,
    accepted: seq<Packet>,
    handed: seq<Packet>,
    wire: seq<Entry>,
    asked: seq<Method>)

  datatype Event =
    | Request(m: Method)
    | AppSend(kind: int, body: bytes)
    | FromCurrent(x: Incoming)    // a message on the websocket in use
    | FromUpgrading(x: Incoming)  // a message on the websocket that wants to be

  /** A session begins with a polling transport, binary unless the handshake asked for b64, or with a websocket. */
  function Init(polling: bool, binary: bool): State {
    State([if polling then Poller(binary, None, None, false) else WebSocket(false)], 0, None, [], [], [], [], [])
  }

  predicate WellFormed(s: State) {
    s.current < |s.conns| && (s.upgrading.Some? ==> s.upgrading.value < |s.conns|)
  }

  function FrameEach(conn: nat, ps: seq<Packet>): (r: seq<Entry>)
    ensures |r| == |ps| && forall i :: 0 <= i < |r| ==> r[i] == Frame(conn, ps[i], PacketText(ps[i]))
  {
    seq(|ps|, i requires 0 <= i < |ps| => Frame(conn, ps[i], PacketText(ps[i])))
  }

  /** EncodePayload of a batch, in the body of an answer. */
  function PollReply(binary: bool, ps: seq<Packet>): Reply { Payload(ps, binary, PayloadBytes(ps, binary)) }

  /** SendPackets; a polling transport answers with resp_ and forgets its request. */
  function SendPackets(s: State, ps: seq<Packet>): State
    requires WellFormed(s)
  {
    match s.conns[s.current]
    case Poller(binary, _, resp, _) =>
      s.(wire := s.wire + (if resp.Some? then [Answer(resp.value, PollReply(binary, ps))] else []),
         conns := s.conns[s.current := Poller(binary, None, None, false)])
    case WebSocket(w) =>
      s.(wire := s.wire + FrameEach(s.current, ps), conns := s.conns[s.current := WebSocket(ps != [])])
  }

  predicate Flushes(s: State)
    requires WellFormed(s)
  {
    s.conns[s.current].writable && s.writeBuffer != []
  }

  function Flush(s: State): (r: State)
    requires WellFormed(s)
    ensures WellFormed(r)
  {
    if Flushes(s) then SendPackets(s.(writeBuffer := [], handed := s.handed + s.writeBuffer), s.writeBuffer) else s
  }

  /** CreateAndSendPacket. */
  function Send(s: State, kind: int, body: bytes): (r: State)
    requires WellFormed(s)
    ensures WellFormed(r)
  {
    if !IsValidPacketType(kind) then s
    else
      var p := Packet(kind, body);
      Flush(s.(writeBuffer := s.writeBuffer + [p], accepted := s.accepted + [p]))
  }

  function SendAll(s: State, bodies: seq<bytes>): (r: State)
    requires WellFormed(s)
    ensures WellFormed(r)
    decreases |bodies|
  {
    if bodies == [] then s else SendAll(Send(s, MESSAGE, bodies[0]), bodies[1..])
  }

  /** OnPacket; a close packet has no effect, as state_ never becomes kStateOpen. */
  function OnPacket(s: State, x: Incoming): (r: State)
    requires WellFormed(s)
    ensures WellFormed(r)
  {
    if x.packet.kind == PING then SendAll(Send(s, PONG, []), x.replies)
    else if x.packet.kind == MESSAGE then SendAll(s, x.replies)
    else s
  }

  function OnPackets(s: State, xs: seq<Incoming>): (r: State)
    requires WellFormed(s)
    ensures WellFormed(r)
    decreases |xs|
  {
    if xs == [] then s else OnPackets(OnPacket(s, xs[0]), xs[1..])
  }

  function Answered(s: State, id: nat, reply: Reply): State { s.(wire := s.wire + [Answer(id, reply)]) }

  function WithReq(s: State, req: Option<Held>): State
    requires WellFormed(s) && s.conns[s.current].Poller?
  {
    s.(conns := s.conns[s.current := s.conns[s.current].(req := req)])
  }

  function OnRequest(s: State, id: nat, m: Method): State
    requires WellFormed(s)
  {
    var c := s.conns[s.current];
    if m.UpgradeTo? then
      Answered(s, id, if m.accepted then Switching else Refused).(
        conns := s.conns + [WebSocket(m.accepted)], upgrading := Some(|s.conns|))
    else if c.WebSocket? then Answered(s, id, Refused)
    else if m.OtherMethod? || c.req.Some? then Answered(s, id, Overlap)
    else if m.Get? then Flush(s.(conns := s.conns[s.current := Poller(c.binary, Some(Poll(id)), Some(id), true)]))
    else
      var t := Answered(OnPackets(WithReq(s, Some(Post(id))), m.body), id, Done);
      if t.conns[t.current].Poller? then WithReq(t, None) else t
  }

  function PongTo(conn: nat): Entry { Probed(conn, Packet(PONG, PROBE), PacketText(Packet(PONG, PROBE))) }

  function OnPacketWhenUpgrading(s: State, x: Incoming): State
    requires WellFormed(s) && s.upgrading.Some?
  {
    var u := s.upgrading.value;
    if x.packet.kind == PING && x.packet.body == PROBE then
      Send(s.(wire := s.wire + [PongTo(u)], conns := s.conns[u := WebSocket(true)]), NOOP, [])
    else if x.packet.kind == UPGRADE then s.(current := u)
    else s.(upgrading := None)
  }

  predicate Enabled(s: State, e: Event) {
    && WellFormed(s)
    && match e
       case FromCurrent(_) => s.conns[s.current].WebSocket?
       case FromUpgrading(_) => s.upgrading.Some? && s.upgrading.value != s.current
       case _ => true
  }

  function Apply(s: State, e: Event): State
    requires Enabled(s, e)
  {
    match e
    case Request(m) => OnRequest(s.(asked := s.asked + [m]), |s.asked|, m)
    case AppSend(kind, body) => Send(s, kind, body)
    case FromCurrent(x) => OnPacket(s, x)
    case FromUpgrading(x) => OnPacketWhenUpgrading(s, x)
  }

  // ---------- the invariant ----------

  function PacketsOf(e: Entry): seq<Packet> {
    match e
    case Answer(_, Payload(ps, _, _)) => ps
    case Frame(_, p, _) => [p]
    case _ => []
  }

  /** What flush passed to the transports, in order. */
  function AllPackets(wire: seq<Entry>): seq<Packet> {
    if wire == [] then [] else AllPackets(wire[..|wire| - 1]) + PacketsOf(wire[|wire| - 1])
  }

  ghost predicate Unanswered(wire: seq<Entry>, id: nat) {
    forall i :: 0 <= i < |wire| && wire[i].Answer? ==> wire[i].id != id
  }

  ghost predicate AnsweredOnce(wire: seq<Entry>) {
    forall i, j :: 0 <= i < j < |wire| && wire[i].Answer? && wire[j].Answer? ==> wire[i].id != wire[j].id
  }

  /** Packets answer polls only, in the payload that the encoder makes of them, an acknowledged POST was one, and a
      websocket handshake succeeds or is refused. */
  predicate ReplyFits(m: Method, reply: Reply) {
    match reply
    case Payload(ps, binary, body) => m.Get? && ps != [] && body == PayloadBytes(ps, binary)
    case Done => m.PostOf?
    case Switching => m == UpgradeTo(true)
    case Refused => m != UpgradeTo(true)
    case Overlap => !m.UpgradeTo?
  }

  ghost predicate RepliesFit(wire: seq<Entry>, asked: seq<Method>) {
    forall i :: 0 <= i < |wire| && wire[i].Answer? ==>
      wire[i].id < |asked| && ReplyFits(asked[wire[i].id], wire[i].reply)
  }

  predicate Holds(s: State, id: nat) { s.conns != [] && s.conns[0].Poller? && s.conns[0].req == Some(Poll(id)) }

  /** Only the first transport polls; it is writable exactly while it holds a poll, which resp_ then answers. */
  predicate Shape(s: State) {
    && WellFormed(s) && s.upgrading != Some(0)
    && (forall i :: 0 < i < |s.conns| ==> s.conns[i].WebSocket?)
    && (s.conns[0].Poller? ==>
          match s.conns[0].req
          case Some(Poll(id)) =>
            s.conns[0].writable && s.conns[0].resp == Some(id) && id < |s.asked| && s.asked[id].Get?
          case _ => !s.conns[0].writable)
  }

  predicate Booked(s: State) { s.handed + s.writeBuffer == s.accepted }

  /** Just the poll in req_, and the request that is being handled, have no answer yet. */
  ghost predicate Logged(s: State, open: Option<nat>) {
    && AnsweredOnce(s.wire) && RepliesFit(s.wire, s.asked) && AllPackets(s.wire) == s.handed
    && forall id :: 0 <= id < |s.asked| ==> (Unanswered(s.wire, id) <==> open == Some(id) || Holds(s, id))
  }

  ghost predicate Inv(s: State, open: Option<nat>) { Shape(s) && Booked(s) && Logged(s, open) }

  predicate NotPosting(s: State) {
    s.conns != [] && s.conns[0].Poller? ==> s.conns[0].req.None? || s.conns[0].req.value.Poll?
  }

  // ---------- the log grows ----------

  lemma AnswerGrows(wire: seq<Entry>, id: nat, reply: Reply)
    ensures var w := wire + [Answer(id, reply)];
            && AllPackets(w) == AllPackets(wire) + PacketsOf(Answer(id, reply))
            && (AnsweredOnce(wire) && Unanswered(wire, id) ==> AnsweredOnce(w))
            && (forall j :: Unanswered(w, j) <==> Unanswered(wire, j) && j != id)
  {
    var w := wire + [Answer(id, reply)];
    assert w[..|wire|] == wire;
    assert w[|wire|] == Answer(id, reply);
    forall j
      ensures Unanswered(w, j) <==> Unanswered(wire, j) && j != id
    {
      if Unanswered(w, j) {
        assert forall i :: 0 <= i < |wire| ==> wire[i] == w[i];
      }
    }
  }

  lemma RepliesStillFit(wire: seq<Entry>, asked: seq<Method>, e: Entry)
    requires RepliesFit(wire, asked)
    requires e.Answer? ==> e.id < |asked| && ReplyFits(asked[e.id], e.reply)
    ensures RepliesFit(wire + [e], asked)
  {
  }

  lemma AllPacketsAppend(wire: seq<Entry>, e: Entry)
    ensures AllPackets(wire + [e]) == AllPackets(wire) + PacketsOf(e)
  {
    assert (wire + [e])[..|wire|] == wire;
  }

  lemma FrameEachLast(conn: nat, ps: seq<Packet>)
    requires ps != []
    ensures var front, last := ps[..|ps| - 1], ps[|ps| - 1];
            && ps == front + [last]
            && FrameEach(conn, ps) == FrameEach(conn, front) + [Frame(conn, last, PacketText(last))]
  {
  }

  lemma {:induction false} FramesGrow(wire: seq<Entry>, conn: nat, ps: seq<Packet>)
    ensures AllPackets(wire + FrameEach(conn, ps)) == AllPackets(wire) + ps
    decreases |ps|
  {
    hide AllPackets, FrameEach;
    if ps == [] {
      assert wire + FrameEach(conn, ps) == wire;
    } else {
      var front, last := ps[..|ps| - 1], ps[|ps| - 1];
      FramesGrow(wire, conn, front);
      FrameEachLast(conn, ps);
      Associate(wire, FrameEach(conn, front), [Frame(conn, last, PacketText(last))]);
      AllPacketsAppend(wire + FrameEach(conn, front), Frame(conn, last, PacketText(last)));
      Associate(AllPackets(wire), front, [last]);
    }
  }

  lemma FramesAnswerNothing(wire: seq<Entry>, asked: seq<Method>, conn: nat, ps: seq<Packet>)
    ensures var w := wire + FrameEach(conn, ps);
            && (AnsweredOnce(wire) ==> AnsweredOnce(w)) && (RepliesFit(wire, asked) ==> RepliesFit(w, asked))
            && (forall j :: Unanswered(w, j) <==> Unanswered(wire, j))
  {
    var w := wire + FrameEach(conn, ps);
    forall j
      ensures Unanswered(w, j) <==> Unanswered(wire, j)
    {
      assert forall i :: 0 <= i < |wire| ==> wire[i] == w[i];
    }
  }

  // ---------- flush ----------

  lemma FlushShape(s: State)
    requires Shape(s) && NotPosting(s)
    ensures Shape(Flush(s)) && NotPosting(Flush(s)) && !Flushes(Flush(s))
    ensures forall id :: Holds(Flush(s), id) ==> Holds(s, id)
  {
  }

  lemma AnswerPoll(s: State, open: Option<nat>)
    requires Shape(s) && Logged(s, open) && Flushes(s) && s.conns[s.current].Poller?
    requires open.Some? ==> !Holds(s, open.value)
    ensures Logged(Flush(s), open)
  {
    hide AnsweredOnce, Unanswered, RepliesFit, AllPackets, PayloadBytes;
    var id, reply := s.conns[0].resp.value, PollReply(s.conns[0].binary, s.writeBuffer);
    assert s.current == 0 && Holds(s, id);
    AnswerGrows(s.wire, id, reply);
    RepliesStillFit(s.wire, s.asked, Answer(id, reply));
    var t := Flush(s);
    assert t.wire == s.wire + [Answer(id, reply)] && t.asked == s.asked;
    assert forall j :: !Holds(t, j);
  }

  lemma SendFrames(s: State, open: Option<nat>)
    requires Shape(s) && Logged(s, open) && Flushes(s) && s.conns[s.current].WebSocket?
    ensures Logged(Flush(s), open)
  {
    hide AnsweredOnce, Unanswered, RepliesFit, AllPackets;
    FramesGrow(s.wire, s.current, s.writeBuffer);
    FramesAnswerNothing(s.wire, s.asked, s.current, s.writeBuffer);
    assert forall j :: Holds(Flush(s), j) <==> Holds(s, j);
  }

  lemma FlushInv(s: State, open: Option<nat>)
    requires WellFormed(s) && Inv(s, open) && NotPosting(s) && (open.Some? ==> !Holds(s, open.value))
    ensures Inv(Flush(s), open) && NotPosting(Flush(s)) && !Flushes(Flush(s))
    ensures open.Some? ==> !Holds(Flush(s), open.value)
  {
    hide Logged, NotPosting, Shape, Holds;
    FlushShape(s);
    if Flushes(s) {
      if s.conns[s.current].Poller? {
        AnswerPoll(s, open);
      } else {
        SendFrames(s, open);
      }
    }
  }

  lemma SendInv(s: State, open: Option<nat>, kind: int, body: bytes)
    requires WellFormed(s) && Inv(s, open) && NotPosting(s) && (open.Some? ==> !Holds(s, open.value))
    ensures Inv(Send(s, kind, body), open) && NotPosting(Send(s, kind, body))
    ensures open.Some? ==> !Holds(Send(s, kind, body), open.value)
    ensures !Flushes(s) ==> !Flushes(Send(s, kind, body))
  {
    if IsValidPacketType(kind) {
      var p := Packet(kind, body);
      var t := s.(writeBuffer := s.writeBuffer + [p], accepted := s.accepted + [p]);
      Associate(s.handed, s.writeBuffer, [p]);
      assert Inv(t, open) by { hide AnsweredOnce, Unanswered, RepliesFit, AllPackets; }
      hide Inv, Flush;
      FlushInv(t, open);
    }
  }

  lemma {:induction false} SendAllInv(s: State, bodies: seq<bytes>)
    requires WellFormed(s) && Inv(s, None) && NotPosting(s)
    ensures Inv(SendAll(s, bodies), None) && NotPosting(SendAll(s, bodies))
    ensures !Flushes(s) ==> !Flushes(SendAll(s, bodies))
    decreases |bodies|
  {
    hide Inv, Send, NotPosting;
    if bodies != [] {
      SendInv(s, None, MESSAGE, bodies[0]);
      SendAllInv(Send(s, MESSAGE, bodies[0]), bodies[1..]);
    }
  }

  lemma OnPacketInv(s: State, x: Incoming)
    requires WellFormed(s) && Inv(s, None) && NotPosting(s)
    ensures Inv(OnPacket(s, x), None) && NotPosting(OnPacket(s, x))
    ensures !Flushes(s) ==> !Flushes(OnPacket(s, x))
  {
    hide Inv, Send, NotPosting;
    SendInv(s, None, PONG, []);
    SendAllInv(Send(s, PONG, []), x.replies);
    SendAllInv(s, x.replies);
  }

  // ---------- a POST ----------

  /** While the transport is not writable, packets only gather in the buffer. */
  predicate Gathered(s: State, t: State) {
    && t.conns == s.conns && t.current == s.current && t.upgrading == s.upgrading && t.asked == s.asked
    && t.wire == s.wire && t.handed == s.handed && (Booked(s) ==> Booked(t))
  }

  lemma SendGathers(s: State, kind: int, body: bytes)
    requires WellFormed(s) && !s.conns[s.current].writable
    ensures Gathered(s, Send(s, kind, body))
  {
    Associate(s.handed, s.writeBuffer, [Packet(kind, body)]);
  }

  lemma {:induction false} SendAllGathers(s: State, bodies: seq<bytes>)
    requires WellFormed(s) && !s.conns[s.current].writable
    ensures Gathered(s, SendAll(s, bodies))
    decreases |bodies|
  {
    hide Send, Booked;
    if bodies != [] {
      SendGathers(s, MESSAGE, bodies[0]);
      SendAllGathers(Send(s, MESSAGE, bodies[0]), bodies[1..]);
    }
  }

  /** Nothing is written while the packets of a POST are handled. */
  lemma {:induction false} PostGathers(s: State, xs: seq<Incoming>)
    requires WellFormed(s) && !s.conns[s.current].writable
    ensures Gathered(s, OnPackets(s, xs))
    decreases |xs|
  {
    hide Send, SendAll, Booked;
    if xs != [] {
      SendGathers(s, PONG, []);
      SendAllGathers(s, xs[0].replies);
      SendAllGathers(Send(s, PONG, []), xs[0].replies);
      PostGathers(OnPacket(s, xs[0]), xs[1..]);
    }
  }

  // ---------- every event ----------

  /** A request of its own number comes in. */
  lemma Asked(s: State, m: Method)
    requires Inv(s, None)
    ensures Inv(s.(asked := s.asked + [m]), Some(|s.asked|)) && !Holds(s, |s.asked|)
    ensures Unanswered(s.wire, |s.asked|)
  {
    hide AnsweredOnce, AllPackets;
    assert forall i :: 0 <= i < |s.asked| ==> (s.asked + [m])[i] == s.asked[i];
  }

  lemma AnsweredInv(s: State, id: nat, reply: Reply)
    requires Inv(s, Some(id)) && id < |s.asked| && ReplyFits(s.asked[id], reply) && !reply.Payload? && !Holds(s, id)
    ensures Inv(Answered(s, id, reply), None)
  {
    hide AnsweredOnce, Unanswered, RepliesFit, AllPackets;
    AnswerGrows(s.wire, id, reply);
    RepliesStillFit(s.wire, s.asked, Answer(id, reply));
    assert forall j :: Holds(Answered(s, id, reply), j) <==> Holds(s, j);
  }

  lemma GetInv(s: State)
    requires Inv(s, None) && NotPosting(s) && s.conns[s.current].Poller?
    ensures Inv(Apply(s, Request(Get)), None) && NotPosting(Apply(s, Request(Get)))
    ensures !Flushes(s) ==> !Flushes(Apply(s, Request(Get)))
  {
    Asked(s, Get);
    var id := |s.asked|;
    var t := s.(asked := s.asked + [Get]);
    hide AnsweredOnce, Unanswered, RepliesFit, AllPackets, Flush;
    if s.conns[0].req.Some? {
      AnsweredInv(t, id, Overlap);
    } else {
      var u := t.(conns := t.conns[0 := Poller(t.conns[0].binary, Some(Poll(id)), Some(id), true)]);
      assert forall j :: !Holds(t, j);
      assert forall j :: Holds(u, j) <==> j == id;
      FlushInv(u, None);
    }
  }

  /** The log does not depend on the transports after the first. */
  lemma LogStays(s: State, t: State, open: Option<nat>)
    requires Logged(s, open) && s.conns != [] && t.conns != [] && s.conns[0] == t.conns[0]
    requires t.wire == s.wire && t.asked == s.asked && t.handed == s.handed
    ensures Logged(t, open)
  {
    hide AnsweredOnce, Unanswered, RepliesFit, AllPackets;
    assert forall j :: Holds(t, j) <==> Holds(s, j);
  }

  predicate NotPoll(req: Option<Held>) { req.Some? ==> req.value.Post? }

  lemma ReqLogged(s: State, req: Option<Held>, open: Option<nat>)
    requires Logged(s, open) && WellFormed(s) && s.current == 0 && s.conns[0].Poller?
    requires NotPoll(s.conns[0].req) && NotPoll(req)
    ensures Logged(WithReq(s, req), open)
  {
    hide AnsweredOnce, Unanswered, RepliesFit, AllPackets;
    assert forall j :: !Holds(s, j) && !Holds(WithReq(s, req), j);
  }

  lemma GatheredLogged(s: State, t: State, open: Option<nat>)
    requires Logged(s, open) && s.conns != [] && Gathered(s, t)
    ensures Logged(t, open)
  {
    LogStays(s, t, open);
  }

  /** A POST that finds req_ free. */
  lemma PostTaken(s: State, id: nat, body: seq<Incoming>)
    requires Inv(s, Some(id)) && id < |s.asked| && s.asked[id].PostOf?
    requires s.current == 0 && s.conns[0].Poller? && s.conns[0].req.None?
    ensures var t := OnRequest(s, id, PostOf(body)); Inv(t, None) && NotPosting(t) && !Flushes(t)
  {
    hide Logged, OnPackets;
    var u := WithReq(s, Some(Post(id)));
    ReqLogged(s, Some(Post(id)), Some(id));
    PostGathers(u, body);
    var v := OnPackets(u, body);
    GatheredLogged(u, v, Some(id));
    AnsweredInv(v, id, Done);
    ReqLogged(Answered(v, id, Done), None, None);
  }

  lemma PostInv(s: State, body: seq<Incoming>)
    requires Inv(s, None) && NotPosting(s) && s.conns[s.current].Poller?
    ensures Inv(Apply(s, Request(PostOf(body))), None) && NotPosting(Apply(s, Request(PostOf(body))))
    ensures !Flushes(s) ==> !Flushes(Apply(s, Request(PostOf(body))))
  {
    Asked(s, PostOf(body));
    var t := s.(asked := s.asked + [PostOf(body)]);
    hide Logged, OnPackets, Unanswered;
    if s.conns[0].req.Some? {
      AnsweredInv(t, |s.asked|, Overlap);
    } else {
      PostTaken(t, |s.asked|, body);
    }
  }

  lemma OtherRequestInv(s: State, m: Method)
    requires Inv(s, None) && NotPosting(s)
    requires m.OtherMethod? || (!m.UpgradeTo? && s.conns[s.current].WebSocket?)
    ensures Inv(Apply(s, Request(m)), None) && NotPosting(Apply(s, Request(m)))
    ensures !Flushes(s) ==> !Flushes(Apply(s, Request(m)))
  {
    Asked(s, m);
    var t := s.(asked := s.asked + [m]);
    hide AnsweredOnce, Unanswered, RepliesFit, AllPackets;
    AnsweredInv(t, |s.asked|, if s.conns[s.current].WebSocket? then Refused else Overlap);
  }

  lemma WebSocketAdded(s: State, accepted: bool)
    requires Inv(s, None) && NotPosting(s)
    ensures var t := s.(conns := s.conns + [WebSocket(accepted)], upgrading := Some(|s.conns|));
            Inv(t, None) && NotPosting(t) && (!Flushes(s) ==> !Flushes(t))
  {
    hide Logged;
    LogStays(s, s.(conns := s.conns + [WebSocket(accepted)], upgrading := Some(|s.conns|)), None);
  }

  lemma UpgradeRequestInv(s: State, accepted: bool)
    requires Inv(s, None) && NotPosting(s)
    ensures Inv(Apply(s, Request(UpgradeTo(accepted))), None) && NotPosting(Apply(s, Request(UpgradeTo(accepted))))
    ensures !Flushes(s) ==> !Flushes(Apply(s, Request(UpgradeTo(accepted))))
  {
    Asked(s, UpgradeTo(accepted));
    var t := s.(asked := s.asked + [UpgradeTo(accepted)]);
    hide Logged, Booked, Unanswered, Holds;
    AnsweredInv(t, |s.asked|, if accepted then Switching else Refused);
    WebSocketAdded(Answered(t, |s.asked|, if accepted then Switching else Refused), accepted);
  }

  lemma ProbedLogged(s: State, u: nat)
    requires Logged(s, None)
    ensures Logged(s.(wire := s.wire + [PongTo(u)]), None)
  {
    hide AnsweredOnce, Unanswered, RepliesFit, AllPackets;
    ProbedGrows(s.wire, s.asked, u);
    assert forall j :: Holds(s.(wire := s.wire + [PongTo(u)]), j) <==> Holds(s, j);
  }

  lemma ProbedInv(s: State)
    requires Inv(s, None) && NotPosting(s) && s.upgrading.Some? && s.upgrading.value != s.current
    ensures var u := s.upgrading.value;
            var t := s.(wire := s.wire + [PongTo(u)], conns := s.conns[u := WebSocket(true)]);
            Inv(t, None) && NotPosting(t) && (!Flushes(s) ==> !Flushes(t))
  {
    var u := s.upgrading.value;
    hide Logged;
    ProbedLogged(s, u);
    LogStays(s.(wire := s.wire + [PongTo(u)]),
             s.(wire := s.wire + [PongTo(u)], conns := s.conns[u := WebSocket(true)]), None);
  }

  lemma ProbedGrows(wire: seq<Entry>, asked: seq<Method>, u: nat)
    ensures var w := wire + [PongTo(u)];
            && AllPackets(w) == AllPackets(wire)
            && (AnsweredOnce(wire) ==> AnsweredOnce(w)) && (RepliesFit(wire, asked) ==> RepliesFit(w, asked))
            && (forall j :: Unanswered(w, j) <==> Unanswered(wire, j))
  {
    var w := wire + [PongTo(u)];
    assert w[..|wire|] == wire;
    forall j
      ensures Unanswered(w, j) <==> Unanswered(wire, j)
    {
      assert forall i :: 0 <= i < |wire| ==> wire[i] == w[i];
    }
  }

  lemma UpgradingPacketInv(s: State, x: Incoming)
    requires Inv(s, None) && NotPosting(s) && Enabled(s, FromUpgrading(x))
    ensures Inv(Apply(s, FromUpgrading(x)), None) && NotPosting(Apply(s, FromUpgrading(x)))
    ensures !Flushes(s) && x.packet.kind != UPGRADE ==> !Flushes(Apply(s, FromUpgrading(x)))
  {
    if x.packet.kind == PING && x.packet.body == PROBE {
      ProbedInv(s);
      var u := s.upgrading.value;
      hide Inv, Send, NotPosting;
      SendInv(s.(wire := s.wire + [PongTo(u)], conns := s.conns[u := WebSocket(true)]), None, NOOP, []);
    } else {
      hide AnsweredOnce, Unanswered, RepliesFit, AllPackets;
      assert forall j :: Holds(Apply(s, FromUpgrading(x)), j) <==> Holds(s, j);
    }
  }

  lemma StepKeepsInv(s: State, e: Event)
    requires Inv(s, None) && NotPosting(s) && Enabled(s, e)
    ensures Inv(Apply(s, e), None) && NotPosting(Apply(s, e))
    ensures !Flushes(s) && !(e.FromUpgrading? && e.x.packet.kind == UPGRADE) ==>
              WellFormed(Apply(s, e)) && !Flushes(Apply(s, e))
  {
    hide Logged, Booked, NotPosting, OnRequest, OnPacket, OnPacketWhenUpgrading;
    match e
    case Request(m) =>
      if m.UpgradeTo? {
        UpgradeRequestInv(s, m.accepted);
      } else if m.OtherMethod? || s.conns[s.current].WebSocket? {
        OtherRequestInv(s, m);
      } else if m.Get? {
        GetInv(s);
      } else {
        PostInv(s, m.body);
      }
    case AppSend(kind, body) => SendInv(s, None, kind, body);
    case FromCurrent(x) => OnPacketInv(s, x);
    case FromUpgrading(x) => UpgradingPacketInv(s, x);
  }

  // ---------- what a step sends ----------

  function Messages(bodies: seq<bytes>): (r: seq<Packet>)
    ensures |r| == |bodies| && forall i :: 0 <= i < |r| ==> r[i] == Packet(MESSAGE, bodies[i])
  {
    seq(|bodies|, i requires 0 <= i < |bodies| => Packet(MESSAGE, bodies[i]))
  }

  /** A ping is answered by a pong, and the callbacks send what they send. */
  function Replies(x: Incoming): seq<Packet> {
    if x.packet.kind == PING then [Packet(PONG, [])] + Messages(x.replies)
    else if x.packet.kind == MESSAGE then Messages(x.replies)
    else []
  }

  function AllReplies(xs: seq<Incoming>): seq<Packet> {
    if xs == [] then [] else Replies(xs[0]) + AllReplies(xs[1..])
  }

  lemma SendAccepts(s: State, kind: int, body: bytes)
    requires WellFormed(s)
    ensures Send(s, kind, body).accepted == s.accepted + (if IsValidPacketType(kind) then [Packet(kind, body)] else [])
    ensures Send(s, kind, body).current == s.current && Send(s, kind, body).upgrading == s.upgrading
  {
  }

  lemma {:induction false} SendAllAccepts(s: State, bodies: seq<bytes>)
    requires WellFormed(s)
    ensures SendAll(s, bodies).accepted == s.accepted + Messages(bodies)
    decreases |bodies|
  {
    hide Send;
    if bodies != [] {
      SendAccepts(s, MESSAGE, bodies[0]);
      SendAllAccepts(Send(s, MESSAGE, bodies[0]), bodies[1..]);
      assert Messages(bodies) == [Packet(MESSAGE, bodies[0])] + Messages(bodies[1..]);
      Associate(s.accepted, [Packet(MESSAGE, bodies[0])], Messages(bodies[1..]));
    }
  }

  lemma OnPacketAccepts(s: State, x: Incoming)
    requires WellFormed(s)
    ensures OnPacket(s, x).accepted == s.accepted + Replies(x)
  {
    hide Send, SendAll, Messages;
    SendAccepts(s, PONG, []);
    SendAllAccepts(s, x.replies);
    SendAllAccepts(Send(s, PONG, []), x.replies);
    Associate(s.accepted, [Packet(PONG, [])], Messages(x.replies));
  }

  lemma {:induction false} OnPacketsAccept(s: State, xs: seq<Incoming>)
    requires WellFormed(s)
    ensures OnPackets(s, xs).accepted == s.accepted + AllReplies(xs)
    decreases |xs|
  {
    hide OnPacket, Replies;
    if xs != [] {
      OnPacketAccepts(s, xs[0]);
      OnPacketsAccept(OnPacket(s, xs[0]), xs[1..]);
      Associate(s.accepted, Replies(xs[0]), AllReplies(xs[1..]));
    }
  }

  /** What a step hands to CreateAndSendPacket. */
  function Produced(s: State, e: Event): seq<Packet>
    requires Enabled(s, e)
  {
    match e
    case Request(PostOf(body)) =>
      if s.conns[s.current].Poller? && s.conns[s.current].req.None? then AllReplies(body) else []
    case Request(_) => []
    case AppSend(kind, body) => if IsValidPacketType(kind) then [Packet(kind, body)] else []
    case FromCurrent(x) => Replies(x)
    case FromUpgrading(x) => if x.packet.kind == PING && x.packet.body == PROBE then [Packet(NOOP, [])] else []
  }

  /** Every step accepts exactly what it produces: a pong for each ping, a noop for a probe, the application's messages;
      an overlapping POST is not looked at. */
  lemma StepAccepts(s: State, e: Event)
    requires Enabled(s, e)
    ensures Apply(s, e).accepted == s.accepted + Produced(s, e)
  {
    hide OnPacket, OnPackets, Send, Replies, AllReplies;
    match e
    case Request(m) =>
      var t := s.(asked := s.asked + [m]);
      if m.PostOf? && s.conns[s.current].Poller? && s.conns[s.current].req.None? {
        OnPacketsAccept(WithReq(t, Some(Post(|s.asked|))), m.body);
      }
    case AppSend(kind, body) => SendAccepts(s, kind, body);
    case FromCurrent(x) => OnPacketAccepts(s, x);
    case FromUpgrading(x) =>
      var u := s.upgrading.value;
      SendAccepts(s.(wire := s.wire + [PongTo(u)], conns := s.conns[u := WebSocket(true)]), NOOP, []);
  }

  // ---------- runs ----------

  predicate IsRun(s: State, es: seq<Event>)
    decreases |es|
  {
    es == [] || (Enabled(s, es[0]) && IsRun(Apply(s, es[0]), es[1..]))
  }

  function After(s: State, es: seq<Event>): State
    requires IsRun(s, es)
    decreases |es|
  {
    if es == [] then s else After(Apply(s, es[0]), es[1..])
  }

  lemma InitInv(polling: bool, binary: bool)
    ensures Inv(Init(polling, binary), None) && NotPosting(Init(polling, binary))
  {
  }

  lemma {:induction false} RunKeepsInv(s: State, es: seq<Event>)
    requires Inv(s, None) && NotPosting(s) && IsRun(s, es)
    ensures Inv(After(s, es), None) && NotPosting(After(s, es))
    decreases |es|
  {
    hide Inv, NotPosting, Apply, Enabled;
    if es != [] {
      StepKeepsInv(s, es[0]);
      RunKeepsInv(Apply(s, es[0]), es[1..]);
    }
  }

  // ---------- what goes out ----------

  /** Of a binary batch only the last packet gets into the payload; each frame overwrites the one before. */
  function Kept(binary: bool, batch: seq<Packet>): seq<Packet> {
    if binary && batch != [] then [batch[|batch| - 1]] else batch
  }

  /** The body of an answer consists of the frames of exactly the kept packets. */
  lemma BodyHoldsKept(binary: bool, batch: seq<Packet>)
    ensures PayloadBytes(batch, binary)
            == if binary then Frames(Kept(binary, batch)) else TextFramesOf(Kept(binary, batch))
  {
    if binary && batch != [] {
      var last := [batch[|batch| - 1]];
      assert last[1..] == [] && Frames(last) == EioParser.Frame(last[0]) + [];
    }
  }

  function Out(e: Entry): seq<Packet> {
    match e
    case Answer(_, Payload(ps, binary, _)) => Kept(binary, ps)
    case Frame(_, p, _) => [p]
    case _ => []
  }

  /** The packets that leave the server, in order. */
  function WentOut(wire: seq<Entry>): seq<Packet> {
    if wire == [] then [] else WentOut(wire[..|wire| - 1]) + Out(wire[|wire| - 1])
  }

  predicate Overwrites(e: Entry) { e.Answer? && e.reply.Payload? && e.reply.binary && |e.reply.batch| > 1 }

  predicate NoneOverwritten(wire: seq<Entry>) { forall i :: 0 <= i < |wire| ==> !Overwrites(wire[i]) }

  lemma OutOfEntry(e: Entry)
    ensures if Overwrites(e) then |Out(e)| < |PacketsOf(e)| else Out(e) == PacketsOf(e)
  {
    if e.Answer? && e.reply.Payload? && e.reply.binary && |e.reply.batch| == 1 {
      assert e.reply.batch == [e.reply.batch[0]];
    }
  }

  lemma NoneOverwrittenFront(wire: seq<Entry>)
    requires wire != []
    ensures NoneOverwritten(wire) <==> NoneOverwritten(wire[..|wire| - 1]) && !Overwrites(wire[|wire| - 1])
  {
    var front := wire[..|wire| - 1];
    assert forall i :: 0 <= i < |front| ==> front[i] == wire[i];
  }

  /** What leaves the server is what flush passed on, if and only if no binary answer was given more than one packet. */
  lemma {:induction false} AllGoOut(wire: seq<Entry>)
    ensures WentOut(wire) == AllPackets(wire) <==> NoneOverwritten(wire)
    ensures |WentOut(wire)| <= |AllPackets(wire)|
    ensures !NoneOverwritten(wire) ==> |WentOut(wire)| < |AllPackets(wire)|
  {
    hide NoneOverwritten, Overwrites, Out, PacketsOf;
    if wire == [] {
      NothingOverwritten();
    } else {
      AllGoOut(wire[..|wire| - 1]);
      OutOfEntry(wire[|wire| - 1]);
      NoneOverwrittenFront(wire);
    }
  }

  lemma NothingOverwritten()
    ensures NoneOverwritten([])
  {
  }

  lemma WentOutAppend(wire: seq<Entry>, e: Entry)
    ensures WentOut(wire + [e]) == WentOut(wire) + Out(e)
  {
    assert (wire + [e])[..|wire|] == wire;
  }

  lemma {:induction false} FramesGoOut(wire: seq<Entry>, conn: nat, ps: seq<Packet>)
    ensures WentOut(wire + FrameEach(conn, ps)) == WentOut(wire) + ps
    decreases |ps|
  {
    hide WentOut, FrameEach;
    if ps == [] {
      assert wire + FrameEach(conn, ps) == wire;
    } else {
      var front, last := ps[..|ps| - 1], ps[|ps| - 1];
      FramesGoOut(wire, conn, front);
      FrameEachLast(conn, ps);
      Associate(wire, FrameEach(conn, front), [Frame(conn, last, PacketText(last))]);
      WentOutAppend(wire + FrameEach(conn, front), Frame(conn, last, PacketText(last)));
      Associate(WentOut(wire), front, [last]);
    }
  }

  /** Of the packets in the buffer, a flush lets all out, or only the last one when it answers a poll in binary. */
  lemma FlushLetsOut(s: State)
    requires Shape(s) && Flushes(s)
    ensures WentOut(Flush(s).wire) == WentOut(s.wire)
            + (if s.conns[s.current].Poller? then Kept(s.conns[s.current].binary, s.writeBuffer) else s.writeBuffer)
    ensures WentOut(Flush(s).wire) == WentOut(s.wire) + s.writeBuffer
            <==>
            !(s.conns[s.current].Poller? && s.conns[s.current].binary && |s.writeBuffer| > 1)
  {
    hide WentOut, PayloadBytes;
    var c := s.conns[s.current];
    if c.Poller? {
      WentOutAppend(s.wire, Answer(c.resp.value, PollReply(c.binary, s.writeBuffer)));
      OutOfEntry(Answer(c.resp.value, PollReply(c.binary, s.writeBuffer)));
    } else {
      FramesGoOut(s.wire, s.current, s.writeBuffer);
    }
  }

  lemma OneStepRun(s: State, e: Event)
    requires Enabled(s, e)
    ensures IsRun(s, [e]) && After(s, [e]) == Apply(s, e)
  {
    hide Apply;
    assert [e][1..] == [] && IsRun(Apply(s, e), []);
  }

  lemma {:induction false} RunConcat(s: State, a: seq<Event>, b: seq<Event>)
    requires IsRun(s, a) && IsRun(After(s, a), b)
    ensures IsRun(s, a + b) && After(s, a + b) == After(After(s, a), b)
    decreases |a|
  {
    hide Apply, Enabled;
    if a == [] {
      assert a + b == b;
    } else {
      assert (a + b)[1..] == a[1..] + b;
      RunConcat(Apply(s, a[0]), a[1..], b);
    }
  }

  lemma TwoStepRun(s: State, e: Event, f: Event)
    requires Enabled(s, e) && Enabled(Apply(s, e), f)
    ensures IsRun(s, [e, f]) && After(s, [e, f]) == Apply(Apply(s, e), f)
  {
    hide Apply;
    OneStepRun(s, e);
    OneStepRun(Apply(s, e), f);
    RunConcat(s, [e], [f]);
    assert [e] + [f] == [e, f];
  }

  lemma ThreeStepRun(s: State, e: Event, f: Event, g: Event)
    requires Enabled(s, e) && Enabled(Apply(s, e), f) && Enabled(Apply(Apply(s, e), f), g)
    ensures IsRun(s, [e, f, g]) && After(s, [e, f, g]) == Apply(Apply(Apply(s, e), f), g)
  {
    hide Apply;
    OneStepRun(s, e);
    TwoStepRun(Apply(s, e), f, g);
    RunConcat(s, [e], [f, g]);
    assert [e] + [f, g] == [e, f, g];
  }

  /** How Server::Handshake begins a polling session: its request is held, and the open packet answers it. */
  function Handshake(data: bytes): seq<Event> { [Request(Get), AppSend(OPEN, data)] }

  function Opened(binary: bool, data: bytes): State {
    var reply := PollReply(binary, [Packet(OPEN, data)]);
    State([Poller(binary, None, None, false)], 0, None, [], [Packet(OPEN, data)], [Packet(OPEN, data)],
          [Answer(0, reply)], [Get])
  }

  lemma AfterHandshake(binary: bool, data: bytes)
    ensures IsRun(Init(true, binary), Handshake(data))
    ensures After(Init(true, binary), Handshake(data)) == Opened(binary, data)
  {
    hide PayloadBytes;
    TwoStepRun(Init(true, binary), Request(Get), AppSend(OPEN, data));
    var held := State([Poller(binary, Some(Poll(0)), Some(0), true)], 0, None, [], [], [], [], [Get]);
    assert Apply(Init(true, binary), Request(Get)) == held;
    assert [] + [Packet(OPEN, data)] == [Packet(OPEN, data)];
    var full := held.(writeBuffer := [Packet(OPEN, data)], accepted := [Packet(OPEN, data)]);
    assert Apply(held, AppSend(OPEN, data)) == Flush(full);
    var reply := PollReply(binary, [Packet(OPEN, data)]);
    assert [] + [Answer(0, reply)] == [Answer(0, reply)];
    assert Flush(full) == Opened(binary, data);
  }

  /** Two messages sent between two polls, from the handshake on: of a binary session's answer, only the second one is
      in the body. */
  lemma FirstMessageOverwritten(data: bytes, a: bytes, b: bytes) returns (es: seq<Event>)
    ensures Handshake(data) <= es && IsRun(Init(true, true), es)
    ensures var s := After(Init(true, true), es);
            && s.handed == [Packet(OPEN, data), Packet(MESSAGE, a), Packet(MESSAGE, b)]
            && WentOut(s.wire) == [Packet(OPEN, data), Packet(MESSAGE, b)]
            && |s.wire| == 2 && s.wire[1].Answer? && s.wire[1].reply.Payload?
            && s.wire[1].reply.body == EioParser.Frame(Packet(MESSAGE, b))
  {
    hide WentOut, Apply, Enabled, IsRun, After;
    var e, f, g := AppSend(MESSAGE, a), AppSend(MESSAGE, b), Request(Get);
    var s := Opened(true, data);
    AfterHandshake(true, data);
    TwoMessagesThenGet(s, a, b);
    ThreeStepRun(s, e, f, g);
    RunConcat(Init(true, true), Handshake(data), [e, f, g]);
    es := Handshake(data) + [e, f, g];
    var batch := [Packet(MESSAGE, a), Packet(MESSAGE, b)];
    WentOutAppend(s.wire, Answer(1, PollReply(true, batch)));
    WentOutAppend([], s.wire[0]);
    assert [] + s.wire == s.wire && WentOut([]) == [] by { NothingOut(); }
  }

  lemma NothingOut()
    ensures WentOut([]) == []
  {
  }

  lemma TwoMessagesThenGet(s: State, a: bytes, b: bytes)
    requires WellFormed(s) && s.current == 0 && s.conns[0] == Poller(true, None, None, false) && s.writeBuffer == []
    ensures var e, f, g := AppSend(MESSAGE, a), AppSend(MESSAGE, b), Request(Get);
            && Enabled(s, e) && Enabled(Apply(s, e), f) && Enabled(Apply(Apply(s, e), f), g)
            && var t, batch := Apply(Apply(Apply(s, e), f), g), [Packet(MESSAGE, a), Packet(MESSAGE, b)];
               && t.handed == s.handed + batch
               && t.wire == s.wire + [Answer(|s.asked|, PollReply(true, batch))]
  {
    hide PayloadBytes;
    var u := Apply(Apply(s, AppSend(MESSAGE, a)), AppSend(MESSAGE, b));
    assert u.writeBuffer == [Packet(MESSAGE, a), Packet(MESSAGE, b)];
  }

  // ---------- sessions without binary ----------

  /** No transport that polls and no answer is binary. */
  predicate TextOnly(s: State) {
    && (forall i :: 0 <= i < |s.conns| && s.conns[i].Poller? ==> !s.conns[i].binary)
    && NoBinaryAnswer(s.wire)
  }

  predicate NoBinaryAnswer(wire: seq<Entry>) {
    forall i :: 0 <= i < |wire| && wire[i].Answer? && wire[i].reply.Payload? ==> !wire[i].reply.binary
  }

  lemma SendStaysText(s: State, kind: int, body: bytes)
    requires WellFormed(s) && TextOnly(s)
    ensures TextOnly(Flush(s)) && TextOnly(Send(s, kind, body))
  {
    hide PayloadBytes, PacketText;
  }

  lemma {:induction false} SendAllStaysText(s: State, bodies: seq<bytes>)
    requires WellFormed(s) && TextOnly(s)
    ensures TextOnly(SendAll(s, bodies))
    decreases |bodies|
  {
    hide Send, TextOnly;
    if bodies != [] {
      SendStaysText(s, MESSAGE, bodies[0]);
      SendAllStaysText(Send(s, MESSAGE, bodies[0]), bodies[1..]);
    }
  }

  lemma OnPacketStaysText(s: State, x: Incoming)
    requires WellFormed(s) && TextOnly(s)
    ensures TextOnly(OnPacket(s, x))
  {
    hide Send, SendAll, TextOnly;
    SendStaysText(s, PONG, []);
    SendAllStaysText(s, x.replies);
    SendAllStaysText(Send(s, PONG, []), x.replies);
  }

  lemma {:induction false} OnPacketsStayText(s: State, xs: seq<Incoming>)
    requires WellFormed(s) && TextOnly(s)
    ensures TextOnly(OnPackets(s, xs))
    decreases |xs|
  {
    hide OnPacket, TextOnly;
    if xs != [] {
      OnPacketStaysText(s, xs[0]);
      OnPacketsStayText(OnPacket(s, xs[0]), xs[1..]);
    }
  }

  lemma RequestStaysText(s: State, id: nat, m: Method)
    requires WellFormed(s) && TextOnly(s)
    ensures TextOnly(OnRequest(s, id, m))
  {
    hide Flush, OnPackets;
    var c := s.conns[s.current];
    if c.Poller? && c.req.None? {
      if m.Get? {
        SendStaysText(s.(conns := s.conns[s.current := Poller(c.binary, Some(Poll(id)), Some(id), true)]), NOOP, []);
      } else if m.PostOf? {
        OnPacketsStayText(WithReq(s, Some(Post(id))), m.body);
      }
    }
  }

  lemma StepStaysText(s: State, e: Event)
    requires TextOnly(s) && Enabled(s, e)
    ensures TextOnly(Apply(s, e))
  {
    hide OnRequest, Send, OnPacket;
    match e
    case Request(m) => RequestStaysText(s.(asked := s.asked + [m]), |s.asked|, m);
    case AppSend(kind, body) => SendStaysText(s, kind, body);
    case FromCurrent(x) => OnPacketStaysText(s, x);
    case FromUpgrading(x) =>
      var u := s.upgrading.value;
      SendStaysText(s.(wire := s.wire + [PongTo(u)], conns := s.conns[u := WebSocket(true)]), NOOP, []);
  }

  lemma {:induction false} RunStaysText(s: State, es: seq<Event>)
    requires TextOnly(s) && IsRun(s, es)
    ensures TextOnly(After(s, es))
    decreases |es|
  {
    hide TextOnly, Apply, Enabled;
    if es != [] {
      StepStaysText(s, es[0]);
      RunStaysText(Apply(s, es[0]), es[1..]);
    }
  }

  lemma TextIsKept(s: State)
    requires TextOnly(s)
    ensures NoneOverwritten(s.wire)
  {
  }

  /** In every run, upgrades included: what Flush passed on, then the buffer, are the packets that CreateAndSendPacket
      took, in order; the transports were given them in that order, those of a poll in the payload that the encoder
      makes of them, and that payload lets all of them out exactly as long as no binary one is given more than one
      packet, which never happens to a session that does not poll in binary; polling is writable exactly while it holds
      a poll without an answer, and resp_ is that poll's; no request is answered twice, packets answer polls only, and
      the only request without an answer is the poll that is held. */
  lemma EveryRun(polling: bool, binary: bool, es: seq<Event>)
    requires IsRun(Init(polling, binary), es)
    ensures var s := After(Init(polling, binary), es);
            && s.handed + s.writeBuffer == s.accepted && AllPackets(s.wire) == s.handed
            && (WentOut(s.wire) == s.handed <==> NoneOverwritten(s.wire))
            && (!(polling && binary) ==> WentOut(s.wire) == s.handed)
            && AnsweredOnce(s.wire) && RepliesFit(s.wire, s.asked)
            && (forall id :: 0 <= id < |s.asked| ==> (Unanswered(s.wire, id) <==> Holds(s, id)))
            && Shape(s)
  {
    InitInv(polling, binary);
    if !(polling && binary) {
      RunStaysText(Init(polling, binary), es);
      TextIsKept(After(Init(polling, binary), es));
    }
    RunKeepsInv(Init(polling, binary), es);
    hide IsRun, After, Shape, AnsweredOnce, Unanswered, RepliesFit, AllPackets, Holds, WentOut, NoneOverwritten;
    AllGoOut(After(Init(polling, binary), es).wire);
  }

  /** Whether packets can get lost is decided at the handshake: a session lets out all packets in every run if and only
      if it does not poll in binary. */
  lemma LossDecidedAtHandshake(polling: bool, binary: bool)
    ensures (forall es :: IsRun(Init(polling, binary), es) ==>
               var s := After(Init(polling, binary), es); WentOut(s.wire) == s.handed)
            <==>
            !(polling && binary)
  {
    hide IsRun, After, WentOut;
    if polling && binary {
      var es := FirstMessageOverwritten([], [], []);
      assert IsRun(Init(polling, binary), es);
      var s := After(Init(polling, binary), es);
      assert |WentOut(s.wire)| != |s.handed|;
    } else {
      forall es | IsRun(Init(polling, binary), es)
        ensures var s := After(Init(polling, binary), es); WentOut(s.wire) == s.handed
      {
        EveryRun(polling, binary, es);
      }
    }
  }

  /** The transport is never left writable with packets in the buffer, except by an upgrade packet, which does not
      flush. */
  lemma OnlyUpgradeLeavesPackets(s: State, e: Event)
    requires Inv(s, None) && NotPosting(s) && Enabled(s, e) && !Flushes(s)
    ensures WellFormed(Apply(s, e))
    ensures Flushes(Apply(s, e))
            <==>
            e.FromUpgrading? && e.x.packet.kind == UPGRADE && s.conns[s.upgrading.value].writable && s.writeBuffer != []
  {
    StepKeepsInv(s, e);
    if e.FromUpgrading? && e.x.packet.kind == UPGRADE {
      hide Inv, NotPosting;
    } else {
      hide Inv, NotPosting, Apply;
    }
  }

  /** Such a state can be reached: a message accepted between two polls stays behind when the client upgrades. */
  lemma PacketsLeftAtUpgrade(data: bytes, text: bytes, binary: bool) returns (es: seq<Event>)
    ensures Handshake(data) <= es && IsRun(Init(true, binary), es)
    ensures var s := After(Init(true, binary), es);
            WellFormed(s) && s.conns[s.current] == WebSocket(true) && s.writeBuffer == [Packet(MESSAGE, text)]
  {
    var e, f := AppSend(MESSAGE, text), Request(UpgradeTo(true));
    var g := FromUpgrading(Incoming(Packet(UPGRADE, []), []));
    var s := Opened(binary, data);
    hide PayloadBytes;
    AfterHandshake(binary, data);
    assert Enabled(s, e) && Enabled(Apply(s, e), f) && Enabled(Apply(Apply(s, e), f), g);
    var t := Apply(Apply(Apply(s, e), f), g);
    assert t.conns[t.current] == WebSocket(true) && t.writeBuffer == [Packet(MESSAGE, text)];
    hide Apply, Enabled, IsRun, After;
    ThreeStepRun(s, e, f, g);
    RunConcat(Init(true, binary), Handshake(data), [e, f, g]);
    es := Handshake(data) + [e, f, g];
  }

  // ---------- the poll left behind ----------

  predicate LeftBehind(s: State, t: State) {
    s.conns != [] && t.conns != [] && t.conns[0] == s.conns[0] && t.current > 0 && WellFormed(t)
  }

  lemma {:induction false} SendAllLeaves(s: State, bodies: seq<bytes>)
    requires WellFormed(s) && s.current > 0
    ensures LeftBehind(s, SendAll(s, bodies))
    decreases |bodies|
  {
    if bodies != [] {
      SendAllLeaves(Send(s, MESSAGE, bodies[0]), bodies[1..]);
    }
  }

  lemma StepLeaves(s: State, e: Event)
    requires Shape(s) && Enabled(s, e) && s.current > 0
    ensures LeftBehind(s, Apply(s, e))
  {
    if e.FromCurrent? {
      SendAllLeaves(s, e.x.replies);
      SendAllLeaves(Send(s, PONG, []), e.x.replies);
    }
  }

  /** A poll still held when the client has upgraded is never answered. */
  lemma {:induction false} HeldPollIsLeftBehind(s: State, es: seq<Event>, id: nat)
    requires Inv(s, None) && NotPosting(s) && IsRun(s, es) && s.current > 0 && Holds(s, id)
    ensures var t := After(s, es); Holds(t, id) && Unanswered(t.wire, id)
    decreases |es|
  {
    if es == [] {
      hide IsRun;
    } else {
      StepLeaves(s, es[0]);
      StepKeepsInv(s, es[0]);
      hide Inv, NotPosting, Apply, Enabled, Unanswered;
      HeldPollIsLeftBehind(Apply(s, es[0]), es[1..], id);
    }
  }

  /** A held poll can still be answered if and only if the polling transport is still the one in use. */
  lemma HeldPollAnswerable(s: State, id: nat)
    requires Inv(s, None) && NotPosting(s) && Holds(s, id)
    ensures (exists es :: IsRun(s, es) && !Unanswered(After(s, es).wire, id)) <==> s.current == 0
  {
    hide Inv, NotPosting, Holds, Apply, Unanswered;
    if s.current == 0 {
      var es := [AppSend(MESSAGE, [])];
      NextSendAnswers(s, id, MESSAGE, []);
      OneStepRun(s, es[0]);
      assert IsRun(s, es) && !Unanswered(After(s, es).wire, id);
    } else {
      forall es | IsRun(s, es)
        ensures Unanswered(After(s, es).wire, id)
      {
        HeldPollIsLeftBehind(s, es, id);
      }
    }
  }

  /** Whatever valid packet is sent next answers the held poll. */
  lemma NextSendAnswers(s: State, id: nat, kind: int, body: bytes)
    requires Inv(s, None) && NotPosting(s) && Holds(s, id) && s.current == 0 && IsValidPacketType(kind)
    ensures Enabled(s, AppSend(kind, body)) && !Unanswered(Apply(s, AppSend(kind, body)).wire, id)
  {
    hide PayloadBytes, Logged;
    var t := Apply(s, AppSend(kind, body));
    var last := t.wire[|s.wire|];
    assert last.Answer? && last.id == id;
  }

  /** An upgrade packet that comes while a poll is held strands it. */
  lemma PollHeldAtUpgrade(data: bytes, binary: bool) returns (es: seq<Event>)
    ensures Handshake(data) <= es && IsRun(Init(true, binary), es)
    ensures var s := After(Init(true, binary), es); s.current > 0 && Holds(s, 2)
  {
    var e, f := Request(UpgradeTo(true)), Request(Get);
    var g := FromUpgrading(Incoming(Packet(UPGRADE, []), []));
    var s := Opened(binary, data);
    hide PayloadBytes;
    AfterHandshake(binary, data);
    assert Enabled(s, e) && Enabled(Apply(s, e), f) && Enabled(Apply(Apply(s, e), f), g);
    var t := Apply(Apply(Apply(s, e), f), g);
    assert t.current > 0 && Holds(t, 2);
    hide Apply, Enabled, IsRun, After;
    ThreeStepRun(s, e, f, g);
    RunConcat(Init(true, binary), Handshake(data), [e, f, g]);
    es := Handshake(data) + [e, f, g];
  }
}
