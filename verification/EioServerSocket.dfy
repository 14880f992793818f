/** engineio::Socket and its transports as objects; every method does one step of EioServerProtocol. */
module EioServerSocket {
  import opened Bytes
  import opened Sequences
  import opened EioParser
  import opened EioServerProtocol

  /** The answers and websocket messages. */
  class Network {
    ghost var wire: seq<Entry>

    constructor ()
      ensures wire == []
    {
      wire := [];
    }
  }

  /** PollingTransport or WebsocketTransport. */
  class Transport {
    const isPolling: bool
    const isSupportBinary: bool
    ghost const index: nat
    const net: Network
    var req: Option<Held>
    var resp: Option<nat>
    var writable: bool

    constructor (isPolling: bool, isSupportBinary: bool, ghost index: nat, net: Network, writable: bool)
      requires isPolling ==> !writable
      ensures this.isPolling == isPolling && this.index == index && this.net == net
      ensures View() == if isPolling then Poller(isSupportBinary, None, None, false) else WebSocket(writable)
    {
      this.isPolling, this.isSupportBinary := isPolling, isSupportBinary;
      this.index, this.net, this.writable := index, net, writable;
      req, resp := None, None;
    }

    ghost function View(): Conn
      reads this
    {
      if isPolling then Poller(isSupportBinary, req, resp, writable) else WebSocket(writable)
    }

    /** PollingXhrTransport::DoWrite, with CleanUp; the batch is what the data was made of. */
    method DoWrite(data: bytes, ghost batch: seq<Packet>)
      requires isPolling
      modifies this, net
      ensures View() == Poller(isSupportBinary, None, None, writable) && writable == old(writable)
      ensures net.wire == old(net.wire)
              + (if old(resp).Some? then [Answer(old(resp).value, Payload(batch, isSupportBinary, data))] else [])
    {
      if resp.Some? {
        net.wire := net.wire + [Answer(resp.value, Payload(batch, isSupportBinary, data))];
      }
      req, resp := None, None;
    }

    method SendPackets(ps: seq<Packet>)
      modifies this, net
      ensures isPolling ==>
                && View() == Poller(isSupportBinary, None, None, false)
                && net.wire == old(net.wire)
                   + (if old(resp).Some? then [Answer(old(resp).value, PollReply(isSupportBinary, ps))] else [])
      ensures !isPolling ==> View() == WebSocket(ps != []) && net.wire == old(net.wire) + FrameEach(index, ps)
    {
      hide PayloadBytes, PacketText, FrameEach;
      if isPolling {
        var data := EncodePayload(ps, isSupportBinary, []);
        DoWrite(data, ps);
        writable := false;
        return;
      }
      writable := false;
      for i := 0 to |ps|
        invariant writable == (i > 0) && net.wire == old(net.wire) + FrameEach(index, ps[..i])
      {
        assert ps[..i + 1][..i] == ps[..i];
        FrameEachLast(index, ps[..i + 1]);
        Associate(old(net.wire), FrameEach(index, ps[..i]), [Frame(index, ps[i], PacketText(ps[i]))]);
        net.wire := net.wire + [Frame(index, ps[i], PacketText(ps[i]))];
        writable := true;
      }
      assert ps[..|ps|] == ps;
    }
  }

  ghost function Conns(all: seq<Transport>): (r: seq<Conn>)
    reads all
    ensures |r| == |all| && forall i :: 0 <= i < |r| ==> r[i] == all[i].View()
  {
    if all == [] then [] else Conns(all[..|all| - 1]) + [all[|all| - 1].View()]
  }

  class Socket {
    const net: Network
    var transport: Transport
    var upgrading: Transport?
    var writeBuffer: seq<Packet>
    ghost var all: seq<Transport>
    ghost var accepted: seq<Packet>
    ghost var handed: seq<Packet>
    var asked: seq<Method>

    /** The transport is one of this socket's. */
    ghost predicate Known(t: Transport)
      reads `all
    {
      t.index < |all| && all[t.index] == t
    }

    ghost predicate Linked()
      reads `all, `transport, `upgrading
    {
      && (forall i :: 0 <= i < |all| ==> all[i].index == i && all[i].net == net)
      && Known(transport) && (upgrading != null ==> Known(upgrading))
    }

    ghost function View(): State
      reads this, net, all
    {
      State(Conns(all), transport.index, if upgrading == null then None else Some(upgrading.index),
            writeBuffer, accepted, handed, net.wire, asked)
    }

    constructor (polling: bool, binary: bool)
      ensures Linked() && View() == Init(polling, binary)
    {
      var n := new Network();
      var t := new Transport(polling, binary, 0, n, false);
      net, transport, upgrading, all := n, t, null, [t];
      writeBuffer, accepted, handed, asked := [], [], [], [];
    }

    method FlushBuffer()
      requires Linked()
      modifies `writeBuffer, `handed, all, net
      ensures Linked() && View() == Flush(old(View()))
    {
      if transport.writable && writeBuffer != [] {
        var packets := writeBuffer;
        writeBuffer := [];
        handed := handed + packets;
        transport.SendPackets(packets);
        assert View().conns == old(View().conns)[transport.index := transport.View()];
      }
    }

    method CreateAndSendPacket(kind: int, body: bytes)
      requires Linked()
      modifies `writeBuffer, `accepted, `handed, all, net
      ensures Linked() && View() == Send(old(View()), kind, body)
    {
      hide Flush;
      if !IsValidPacketType(kind) {
        return;
      }
      var packet := Packet(kind, body);
      writeBuffer := writeBuffer + [packet];
      accepted := accepted + [packet];
      FlushBuffer();
    }

    /** What a message or ping callback sends. */
    method SendMessages(bodies: seq<bytes>)
      requires Linked()
      modifies `writeBuffer, `accepted, `handed, all, net
      ensures Linked() && View() == SendAll(old(View()), bodies)
    {
      hide Send;
      var i := 0;
      while i < |bodies|
        invariant i <= |bodies| && Linked()
        invariant SendAll(View(), bodies[i..]) == SendAll(old(View()), bodies)
      {
        assert bodies[i..][1..] == bodies[i + 1..];
        CreateAndSendPacket(MESSAGE, bodies[i]);
        i := i + 1;
      }
    }

    method OnSocketPacket(x: Incoming)
      requires Linked()
      modifies `writeBuffer, `accepted, `handed, all, net
      ensures Linked() && View() == OnPacket(old(View()), x)
    {
      hide Send, SendAll;
      if x.packet.kind == PING {
        CreateAndSendPacket(PONG, []);
        SendMessages(x.replies);
      } else if x.packet.kind == MESSAGE {
        SendMessages(x.replies);
      }
    }

    method Respond(id: nat, reply: Reply)
      requires Linked()
      modifies net
      ensures View() == Answered(old(View()), id, reply)
    {
      net.wire := net.wire + [Answer(id, reply)];
    }

    /** PollingTransport::HandlePollRequest. */
    method HandlePollRequest(id: nat)
      requires Linked() && transport.isPolling
      modifies `writeBuffer, `accepted, `handed, all, net
      ensures Linked() && View() == OnRequest(old(View()), id, Get)
    {
      hide Flush;
      if transport.req.Some? {
        Respond(id, Overlap);
        return;
      }
      transport.req := Some(Poll(id));
      transport.resp := Some(id);
      transport.writable := true;
      assert View().conns == old(View()).conns[
        transport.index := Poller(transport.isSupportBinary, Some(Poll(id)), Some(id), true)];
      FlushBuffer();
    }

    /** The packets of a POST. */
    method OnData(body: seq<Incoming>)
      requires Linked()
      modifies `writeBuffer, `accepted, `handed, all, net
      ensures Linked() && View() == OnPackets(old(View()), body)
    {
      hide OnPacket;
      for i := 0 to |body|
        invariant Linked()
        invariant OnPackets(View(), body[i..]) == OnPackets(old(View()), body)
      {
        assert body[i..][1..] == body[i + 1..];
        OnSocketPacket(body[i]);
      }
    }

    method SetReq(req: Option<Held>)
      requires Linked() && transport.isPolling
      modifies all
      ensures Linked() && View() == WithReq(old(View()), req)
    {
      transport.req := req;
      assert View().conns == old(View()).conns[transport.index := transport.View()];
    }

    lemma Looks()
      requires Linked()
      ensures WellFormed(View()) && View().conns[View().current] == transport.View() && |View().conns| == |all|
      ensures View().asked == asked
    {
    }

    /** PollingTransport::HandleDataRequest. */
    method HandleDataRequest(id: nat, body: seq<Incoming>)
      requires Linked() && transport.isPolling && (transport.req.None? ==> !transport.writable)
      modifies `writeBuffer, `accepted, `handed, all, net
      ensures Linked() && View() == OnRequest(old(View()), id, PostOf(body))
    {
      hide OnPackets, OnRequest, View;
      Looks();
      UnfoldPost(View(), id, body);
      if transport.req.Some? {
        Respond(id, Overlap);
        return;
      }
      SetReq(Some(Post(id)));
      OnData(body);
      Respond(id, Done);
      SetReq(None);
    }

    method AddTransport(accepted: bool)
      requires Linked()
      modifies `all, `upgrading
      ensures Linked()
      ensures View() == old(View()).(conns := old(View().conns) + [WebSocket(accepted)], upgrading := Some(old(|all|)))
    {
      var t := new Transport(false, false, |all|, net, accepted);
      all := all + [t];
      upgrading := t;
      assert View().conns == old(View()).conns + [WebSocket(accepted)];
    }

    /** A websocket transport tries to take over; its own handler answers the handshake. */
    method MaybeUpgrade(id: nat, accepted: bool)
      requires Linked()
      modifies `all, `upgrading, net
      ensures Linked() && View() == OnRequest(old(View()), id, UpgradeTo(accepted))
    {
      Looks();
      Respond(id, if accepted then Switching else Refused);
      Looks();
      hide View;
      AddTransport(accepted);
    }

    method NoteRequest(m: Method) returns (id: nat)
      requires Linked()
      modifies `asked
      ensures View() == old(View()).(asked := old(asked) + [m]) && id == old(|View().asked|) && Linked()
    {
      id := |asked|;
      asked := asked + [m];
    }

    method HandleRequest(m: Method)
      requires Linked() && Inv(View(), None) && NotPosting(View())
      modifies `writeBuffer, `accepted, `handed, `asked, `all, `upgrading, all, net
      ensures View() == Apply(old(View()), Request(m)) && Linked()
      ensures Inv(View(), None) && NotPosting(View())
    {
      hide Inv, NotPosting, OnRequest, Apply, View;
      Looks();
      UnfoldRequest(View(), m);
      StepKeepsInv(View(), Request(m));
      IdleNotWritable(View());
      var id := NoteRequest(m);
      match m
      case UpgradeTo(accepted) => MaybeUpgrade(id, accepted);
      case Get =>
        if transport.isPolling {
          HandlePollRequest(id);
        } else {
          Respond(id, Refused);
        }
      case PostOf(body) =>
        if transport.isPolling {
          HandleDataRequest(id, body);
        } else {
          Respond(id, Refused);
        }
      case OtherMethod => Respond(id, if transport.isPolling then Overlap else Refused);
    }

    /** The pong goes straight to the websocket under test, not through the buffer. */
    method AnswerProbe()
      requires Linked() && upgrading != null && !upgrading.isPolling
      modifies net, all
      ensures Linked()
      ensures var u := upgrading.index;
              u < |old(View()).conns| &&
              View() == old(View()).(wire := old(View()).wire + [PongTo(u)],
                                     conns := old(View()).conns[u := WebSocket(true)])
    {
      upgrading.writable := true;
      var pong := Packet(PONG, PROBE);
      net.wire := net.wire + [Probed(upgrading.index, pong, PacketText(pong))];
      assert View().conns == old(View()).conns[upgrading.index := WebSocket(true)];
    }

    method TakeOver()
      requires Linked() && upgrading != null
      modifies `transport
      ensures Linked() && View() == old(View()).(current := upgrading.index)
    {
      transport := upgrading;
    }

    method GiveUp()
      requires Linked()
      modifies `upgrading
      ensures Linked() && View() == old(View()).(upgrading := None)
    {
      upgrading := null;
    }

    lemma LooksUpgrading()
      requires Linked() && upgrading != null
      ensures WellFormed(View()) && View().upgrading == Some(upgrading.index)
      ensures View().conns[upgrading.index] == upgrading.View()
      ensures upgrading != transport ==> View().current != upgrading.index
    {
    }

    /** A packet on the websocket that wants to take over. */
    method HandleUpgradingPacket(x: Incoming)
      requires Linked() && Inv(View(), None) && NotPosting(View()) && upgrading != null && upgrading != transport
      modifies `writeBuffer, `accepted, `handed, `transport, `upgrading, all, net
      ensures View() == Apply(old(View()), FromUpgrading(x)) && Linked()
      ensures Inv(View(), None) && NotPosting(View())
    {
      hide Inv, NotPosting, Send, View;
      LooksUpgrading();
      UpgradesToWebSocket(View());
      StepKeepsInv(View(), FromUpgrading(x));
      if x.packet.kind == PING && x.packet.body == PROBE {
        AnswerProbe();
        CreateAndSendPacket(NOOP, []);
      } else if x.packet.kind == UPGRADE {
        TakeOver();
      } else {
        GiveUp();
      }
    }

    method Receive(x: Incoming)
      requires Linked() && Inv(View(), None) && NotPosting(View()) && !transport.isPolling
      modifies `writeBuffer, `accepted, `handed, all, net
      ensures View() == Apply(old(View()), FromCurrent(x)) && Linked()
      ensures Inv(View(), None) && NotPosting(View())
    {
      StepKeepsInv(View(), FromCurrent(x));
      hide Inv, NotPosting, OnPacket;
      OnSocketPacket(x);
    }
  }

  lemma IdleNotWritable(s: State)
    requires Inv(s, None)
    ensures s.conns[s.current].Poller? && s.conns[s.current].req.None? ==> !s.conns[s.current].writable
  {
  }

  lemma UpgradesToWebSocket(s: State)
    requires Inv(s, None) && s.upgrading.Some?
    ensures s.conns[s.upgrading.value].WebSocket?
  {
  }

  lemma UnfoldPost(s: State, id: nat, body: seq<Incoming>)
    requires WellFormed(s) && s.conns[s.current].Poller?
    requires s.conns[s.current].req.None? ==> !s.conns[s.current].writable
    ensures s.conns[s.current].req.Some? ==> OnRequest(s, id, PostOf(body)) == Answered(s, id, Overlap)
    ensures s.conns[s.current].req.None? ==>
              var t := Answered(OnPackets(WithReq(s, Some(Post(id))), body), id, Done);
              WellFormed(t) && t.conns[t.current].Poller? && OnRequest(s, id, PostOf(body)) == WithReq(t, None)
  {
    hide OnPackets, Booked;
    if s.conns[s.current].req.None? {
      PostGathers(WithReq(s, Some(Post(id))), body);
    }
  }

  lemma UnfoldRequest(s: State, m: Method)
    requires WellFormed(s)
    ensures Enabled(s, Request(m)) && Apply(s, Request(m)) == OnRequest(s.(asked := s.asked + [m]), |s.asked|, m)
    ensures m.OtherMethod? || (s.conns[s.current].WebSocket? && !m.UpgradeTo?) ==>
              Apply(s, Request(m)) ==
              Answered(s.(asked := s.asked + [m]), |s.asked|,
                       if s.conns[s.current].WebSocket? then Refused else Overlap)
  {
  }
}
