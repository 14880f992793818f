/** The client's text payloads (engine.io-parser): encodePacket, encodePayload, decodePacket, decodePayload. */
module EioPayload {
  import opened JsUtf8
  import opened Sequences
  import B = Bytes

  const COLON: unit := 58
  const LETTER_B: unit := 98

  /** A packet with string data or none; kind is the number of its type, 0 (open) to 6 (noop). */
  datatype Packet = Packet(kind: nat, data: Option<jstring>)

  /** What decodePayload hands to its callback. */
  datatype Delivery = Text(packet: Packet) | Base64(message: jstring) | ParserError

  /** The callback's verdict on a delivery (true stops the decoding), and Number() on what is not a digit string;
      None stands for NaN and for numbers that are not integers. */
  datatype Context = Context(stops: Delivery -> bool, otherNumber: jstring -> Option<int>)

  predicate IsDigit(u: unit) { 48 <= u <= 57 }

  predicate AllDigits(s: jstring) { forall i :: 0 <= i < |s| ==> IsDigit(s[i]) }

  function Number(ctx: Context, s: jstring): Option<int> {
    if s != [] && AllDigits(s) then Some(B.DecimalValue(s)) else ctx.otherNumber(s)
  }

  // ---------- encoding ----------

  /** encodePacket with utf8encode; None stands for the exception on a lone surrogate. */
  function Message(p: Packet): Option<jstring>
    requires p.kind <= 6
  {
    if p.data.None? then Some([48 + p.kind])
    else
      var e := Encode(p.data.value);
      if e.Some? then Some([48 + p.kind] + e.value) else None
  }

  function WithHeader(message: jstring): jstring { B.Decimal(|message|) + [COLON] + message }

  predicate ValidKinds(ps: seq<Packet>) { forall i :: 0 <= i < |ps| ==> ps[i].kind <= 6 }

  function Messages(ps: seq<Packet>): Option<jstring>
    requires ValidKinds(ps)
  {
    if ps == [] then Some([])
    else
      var first, rest := Message(ps[0]), Messages(ps[1..]);
      if first.Some? && rest.Some? then Some(WithHeader(first.value) + rest.value) else None
  }

  /** encodePayload on packets without binary data. */
  function Payload(ps: seq<Packet>): Option<jstring>
    requires ValidKinds(ps)
  {
    if ps == [] then Some([48, COLON]) else Messages(ps)
  }

  method EncodePayload(ps: seq<Packet>) returns (r: Option<jstring>)
    requires ValidKinds(ps)
    ensures r == Payload(ps)
  {
    hide WithHeader, Message;
    if |ps| == 0 {
      return Some([48, COLON]);
    }
    var results: jstring := [];
    assert ps[0..] == ps;
    PrefixedNothing(Messages(ps));
    for i := 0 to |ps|
      invariant Messages(ps) == Prefixed(results, Messages(ps[i..]))
    {
      assert ps[i..][1..] == ps[i + 1..];
      MessagesStep(results, ps[i..]);
      var message: Option<jstring>;
      if ps[i].data.None? {
        message := Some([48 + ps[i].kind]);
      } else {
        var encoded := Utf8Encode(ps[i].data.value);
        message := if encoded.Some? then Some([48 + ps[i].kind] + encoded.value) else None;
      }
      assert message == Message(ps[i]) by { MessageIs(ps[i]); }
      if message.None? {
        return None;
      }
      results := results + WithHeader(message.value);
    }
    assert ps[|ps|..] == [] && results + [] == results;
    r := Some(results);
  }

  lemma MessageIs(p: Packet)
    requires p.kind <= 6
    ensures Message(p) == if p.data.None? then Some([48 + p.kind])
                          else if Encode(p.data.value).Some? then Some([48 + p.kind] + Encode(p.data.value).value)
                          else None
  {
  }

  lemma PrefixedNothing(r: Option<jstring>)
    ensures Prefixed([], r) == r
  {
    assert r.Some? ==> [] + r.value == r.value;
  }

  lemma MessagesStep(s: jstring, ps: seq<Packet>)
    requires ps != [] && ValidKinds(ps)
    ensures var first := Message(ps[0]);
            Prefixed(s, Messages(ps))
            == if first.Some? then Prefixed(s + WithHeader(first.value), Messages(ps[1..])) else None
  {
    hide Message, WithHeader;
    var first, rest := Message(ps[0]), Messages(ps[1..]);
    if first.Some? && rest.Some? {
      B.Associate(s, WithHeader(first.value), rest.value);
    }
  }

  // ---------- decoding ----------

  /** decodePacket on a nonempty string, with utf8decode. */
  function DecodePacket(message: jstring): Delivery
    requires message != []
  {
    if message[0] == LETTER_B then Base64(message[1..])
    else
      var decoded := Decode(message);
      if decoded.None? || decoded.value == [] || !(48 <= decoded.value[0] <= 54) then ParserError
      else
        Text(Packet(decoded.value[0] - 48, if |decoded.value| > 1 then Some(decoded.value[1..]) else None))
  }

  /** data.substr(from, n) */
  function Substr(data: jstring, from: nat, n: int): jstring
    requires from <= |data|
  {
    if n <= 0 then [] else if from + n <= |data| then data[from..from + n] else data[from..]
  }

  /** What decodePayload delivers from position i on, with the header characters collected so far. */
  function Deliveries(ctx: Context, data: jstring, i: nat, length: jstring): seq<Delivery>
    requires i <= |data|
    decreases |data| - i
  {
    if i == |data| then (if length != [] then [ParserError] else [])
    else if data[i] != COLON then Deliveries(ctx, data, i + 1, length + [data[i]])
    else
      var n := if length == [] then None else Number(ctx, length);
      if n.None? || n.value != |Substr(data, i + 1, n.value)| then [ParserError]
      else if n.value == 0 then Deliveries(ctx, data, i + 1, [])
      else
        var packet := DecodePacket(Substr(data, i + 1, n.value));
        if packet.ParserError? || ctx.stops(packet) then [packet]
        else [packet] + Deliveries(ctx, data, i + n.value + 1, [])
  }

  /** decodePayload on a string. */
  function DecodedPayload(ctx: Context, data: jstring): seq<Delivery> {
    if data == [] then [ParserError] else Deliveries(ctx, data, 0, [])
  }

  method DecodePayload(ctx: Context, data: jstring) returns (delivered: seq<Delivery>)
    ensures delivered == DecodedPayload(ctx, data)
  {
    if data == [] {
      return [ParserError];
    }
    hide DecodePacket, Number;
    delivered := [];
    var length: jstring := [];
    var i := 0;
    ghost var whole := Deliveries(ctx, data, 0, []);
    assert [] + whole == whole;
    while i < |data|
      invariant 0 <= i <= |data|
      invariant delivered + Deliveries(ctx, data, i, length) == whole
    {
      var chr := data[i];
      if chr != COLON {
        length := length + [chr];
      } else {
        if length == [] {
          return delivered + [ParserError];
        }
        var number := Number(ctx, length);
        if number.None? {
          return delivered + [ParserError];
        }
        var n := number.value;
        var msg := Substr(data, i + 1, n);
        if n != |msg| {
          return delivered + [ParserError];
        }
        if |msg| > 0 {
          var packet := DecodePacket(msg);
          if packet.ParserError? {
            return delivered + [ParserError];
          }
          if ctx.stops(packet) {
            return delivered + [packet];
          }
          B.Associate(delivered, [packet], Deliveries(ctx, data, i + n + 1, []));
          delivered := delivered + [packet];
        }
        i := i + n;
        length := [];
      }
      i := i + 1;
    }
    if length != [] {
      delivered := delivered + [ParserError];
    }
  }

  // ---------- round trip ----------

  /** Missing and empty data are not told apart. */
  function Arrives(p: Packet): Delivery {
    Text(Packet(p.kind, if p.data == Some([]) then None else p.data))
  }

  /** The deliveries up to the first one that stops the callback. */
  function UpToStop(ctx: Context, ps: seq<Packet>): seq<Delivery> {
    if ps == [] then []
    else [Arrives(ps[0])] + if ctx.stops(Arrives(ps[0])) then [] else UpToStop(ctx, ps[1..])
  }

  predicate WellFormedData(p: Packet) { p.data.Some? ==> WellFormed16(p.data.value) }

  lemma EncodeNothing()
    ensures Encode([]) == Some([])
  {
  }

  lemma {:induction false} EncodeAscii(c: unit, s: jstring)
    requires c < 0x80
    ensures Encode([c] + s) == if Encode(s).Some? then Some([c] + Encode(s).value) else None
  {
    hide EncodeCodePoint;
    assert ([c] + s)[1..] == s;
    assert CodePoints([c] + s) == [c] + CodePoints(s);
    EncodeCons(c, CodePoints(s));
    OneByte(c);
  }

  /** A packet whose data is well formed survives encodePacket and decodePacket. */
  lemma MessageReadsBack(p: Packet)
    requires p.kind <= 6
    ensures Message(p).Some? <==> WellFormedData(p)
    ensures Message(p).Some? ==> Message(p).value != [] && DecodePacket(Message(p).value) == Arrives(p)
  {
    hide Encode, Decode, WellFormed16;
    var d := if p.data.Some? then p.data.value else [];
    var whole := [48 + p.kind] + d;
    EncodeNothing();
    EncodeThenDecode(d);
    EncodeAscii(48 + p.kind, d);
    EncodeThenDecode(whole);
    if Message(p).Some? {
      var e := Encode(d).value;
      assert [48 + p.kind] + e == Message(p).value by { assert [48 + p.kind] + [] == [48 + p.kind]; }
      assert Decode(Message(p).value) == Some(whole);
      assert whole[1..] == d;
    }
  }

  /** Scanning the digits of a header collects them. */
  lemma {:induction false} HeaderScanned(ctx: Context, data: jstring, i: nat, length: jstring, digits: jstring)
    requires i <= |data| && digits <= data[i..] && COLON !in digits
    ensures i + |digits| <= |data|
    ensures Deliveries(ctx, data, i, length) == Deliveries(ctx, data, i + |digits|, length + digits)
    decreases |digits|
  {
    if digits == [] {
      assert length + [] == length;
    } else {
      assert data[i] == data[i..][0] == digits[0];
      assert data[i + 1..] == data[i..][1..];
      HeaderScanned(ctx, data, i + 1, length + [digits[0]], digits[1..]);
      assert length + [digits[0]] + digits[1..] == length + digits;
    }
  }

  /** One framed message at position i is delivered, whatever digits or colons it contains. */
  lemma MessageDelivered(ctx: Context, data: jstring, i: nat, message: jstring, rest: jstring)
    requires i <= |data| && data[i..] == WithHeader(message) + rest && message != []
    requires !DecodePacket(message).ParserError?
    ensures var packet, j := DecodePacket(message), i + |WithHeader(message)|;
            j <= |data| && data[j..] == rest
            && Deliveries(ctx, data, i, [])
               == [packet] + (if ctx.stops(packet) then [] else Deliveries(ctx, data, j, []))
  {
    hide DecodePacket, Deliveries, Number;
    var digits: jstring := B.Decimal(|message|);
    var k := i + |digits|;
    MessageParts(data, i, digits, message, rest);
    NoColonInHeader(|message|);
    HeaderScanned(ctx, data, i, [], digits);
    assert [] + digits == digits;
    HeaderNumber(ctx, |message|);
    DeliveryAtColon(ctx, data, k, digits, message);
  }

  lemma NoColonInHeader(n: nat)
    ensures COLON !in B.Decimal(n)
  {
    assert B.AllDigits(B.Decimal(n));
  }

  lemma MessageParts(data: jstring, i: nat, digits: jstring, message: jstring, rest: jstring)
    requires i <= |data| && data[i..] == digits + [COLON] + message + rest
    ensures digits <= data[i..]
    ensures var k := i + |digits|;
            k + 1 + |message| <= |data| && data[k] == COLON && data[k + 1..k + 1 + |message|] == message
            && data[k + 1 + |message|..] == rest
  {
    var k, n := i + |digits|, |digits|;
    assert data[i..][..n] == digits;
    assert data[k] == data[i..][n] == COLON;
    B.SliceOfSlice(data, i, |data|, n + 1, n + 1 + |message|);
    assert data[i..|data|] == data[i..];
    assert data[i..][n + 1..n + 1 + |message|] == message;
    B.DropDrop(data, i, n + 1 + |message|);
    assert data[i..][n + 1 + |message|..] == rest;
  }

  lemma DeliveryAtColon(ctx: Context, data: jstring, k: nat, length: jstring, message: jstring)
    requires length != [] && message != [] && Number(ctx, length) == Some(|message|)
    requires k + 1 + |message| <= |data| && data[k] == COLON && data[k + 1..k + 1 + |message|] == message
    requires !DecodePacket(message).ParserError?
    ensures var packet := DecodePacket(message);
            Deliveries(ctx, data, k, length)
            == [packet] + (if ctx.stops(packet) then [] else Deliveries(ctx, data, k + 1 + |message|, []))
  {
    hide DecodePacket, Number;
    assert Substr(data, k + 1, |message|) == message;
  }

  lemma HeaderNumber(ctx: Context, n: nat)
    ensures Number(ctx, B.Decimal(n)) == Some(n)
  {
    B.DecimalValueOfDecimal(n);
  }

  lemma {:induction false} MessagesDelivered(ctx: Context, data: jstring, i: nat, ps: seq<Packet>)
    requires ValidKinds(ps) && i <= |data| && Messages(ps) == Some(data[i..])
    ensures Deliveries(ctx, data, i, []) == UpToStop(ctx, ps)
    decreases |ps|
  {
    hide DecodePacket, Message, WithHeader;
    if ps != [] {
      MessageReadsBack(ps[0]);
      var message, rest := Message(ps[0]).value, Messages(ps[1..]).value;
      MessageDelivered(ctx, data, i, message, rest);
      MessagesDelivered(ctx, data, i + |WithHeader(message)|, ps[1..]);
    }
  }

  lemma {:induction false} MessagesSucceed(ps: seq<Packet>)
    requires ValidKinds(ps)
    ensures Messages(ps).Some? <==> forall i :: 0 <= i < |ps| ==> WellFormedData(ps[i])
    ensures Messages(ps).Some? && ps != [] ==> Messages(ps).value != []
  {
    hide DecodePacket, Message;
    if ps != [] {
      MessageReadsBack(ps[0]);
      MessagesSucceed(ps[1..]);
      assert forall i :: 1 <= i < |ps| ==> ps[i] == ps[1..][i - 1];
    }
  }

  /** encodePayload succeeds exactly when all data are well-formed UTF-16, and then decodePayload delivers exactly
      the packets, in order, up to the first one on which the callback returns false. */
  lemma PayloadRoundTrip(ctx: Context, ps: seq<Packet>)
    requires ValidKinds(ps)
    ensures Payload(ps).Some? <==> forall i :: 0 <= i < |ps| ==> WellFormedData(ps[i])
    ensures Payload(ps).Some? ==> DecodedPayload(ctx, Payload(ps).value) == UpToStop(ctx, ps)
  {
    hide Deliveries;
    MessagesSucceed(ps);
    if ps == [] {
      EmptyPayload(ctx);
    } else if Messages(ps).Some? {
      var data := Messages(ps).value;
      assert data[0..] == data;
      MessagesDelivered(ctx, data, 0, ps);
    }
  }

  lemma EmptyPayload(ctx: Context)
    ensures Deliveries(ctx, [48, COLON], 0, []) == []
  {
    var data: jstring := [48, COLON];
    assert [] + [data[0]] == [48];
    assert B.DecimalValue([48]) == 0 by { assert [48][..0] == []; }
    assert Deliveries(ctx, data, 0, []) == Deliveries(ctx, data, 1, [48]) == Deliveries(ctx, data, 2, []);
  }

  // ---------- the language of decodePayload ----------

  /** A header, without the colon behind it, and a message. */
  datatype Piece = Piece(header: jstring, message: jstring)

  function Joined(pieces: seq<Piece>): jstring {
    if pieces == [] then [] else pieces[0].header + [COLON] + pieces[0].message + Joined(pieces[1..])
  }

  /** The header is the length of the message, and the message is empty or a packet. */
  predicate LegalPiece(ctx: Context, p: Piece) {
    && p.header != [] && COLON !in p.header && Number(ctx, p.header) == Some(|p.message|)
    && (p.message == [] || !DecodePacket(p.message).ParserError?)
  }

  predicate Legal(ctx: Context, pieces: seq<Piece>) {
    forall i :: 0 <= i < |pieces| ==> LegalPiece(ctx, pieces[i])
  }

  /** The packets; an empty message is passed over. */
  function Contents(pieces: seq<Piece>): seq<Delivery> {
    if pieces == [] then []
    else (if pieces[0].message == [] then [] else [DecodePacket(pieces[0].message)]) + Contents(pieces[1..])
  }

  /** The same callback when it never stops the decoding. */
  function Unstopped(ctx: Context): Context { ctx.(stops := _ => false) }

  /** The deliveries up to the first one on which the callback returns false. */
  function Until(ctx: Context, ds: seq<Delivery>): seq<Delivery> {
    if ds == [] then [] else [ds[0]] + if ctx.stops(ds[0]) then [] else Until(ctx, ds[1..])
  }

  /** The message that a header announces, when the payload holds it. */
  function Announced(ctx: Context, data: jstring, i: nat, length: jstring): Option<jstring>
    requires i < |data|
  {
    var n := if length == [] then None else Number(ctx, length);
    if n.Some? && 0 <= n.value && i + 1 + n.value <= |data| then Some(data[i + 1..i + 1 + n.value]) else None
  }

  lemma DeliveriesUnfold(ctx: Context, data: jstring, i: nat, length: jstring)
    requires i <= |data|
    ensures i == |data| ==> Deliveries(ctx, data, i, length) == if length != [] then [ParserError] else []
    ensures i < |data| && data[i] != COLON ==>
              Deliveries(ctx, data, i, length) == Deliveries(ctx, data, i + 1, length + [data[i]])
    ensures i < |data| && data[i] == COLON ==>
              var m, ds := Announced(ctx, data, i, length), Deliveries(ctx, data, i, length);
              if m.None? then ds == [ParserError]
              else
                var j := i + 1 + |m.value|;
                if m.value == [] then ds == Deliveries(ctx, data, j, [])
                else
                  var packet := DecodePacket(m.value);
                  ds == [packet] +
                        if packet.ParserError? || ctx.stops(packet) then [] else Deliveries(ctx, data, j, [])
  {
    hide DecodePacket, Number;
  }

  /** Whatever is decoded without an error is made of such pieces. */
  lemma {:induction false} DecodedIsLegal(ctx: Context, data: jstring, i: nat, length: jstring)
    returns (pieces: seq<Piece>)
    requires i <= |data| && COLON !in length && ParserError !in Deliveries(Unstopped(ctx), data, i, length)
    ensures Legal(ctx, pieces) && length + data[i..] == Joined(pieces)
    ensures Deliveries(Unstopped(ctx), data, i, length) == Contents(pieces)
    decreases |data| - i
  {
    hide DecodePacket, Deliveries, Number, Contents, Joined;
    DeliveriesUnfold(Unstopped(ctx), data, i, length);
    if i == |data| {
      pieces := [];
      NoPieces();
      assert length + data[i..] == [];
    } else if data[i] != COLON {
      pieces := DecodedIsLegal(ctx, data, i + 1, length + [data[i]]);
      assert length + [data[i]] + data[i + 1..] == length + data[i..];
    } else {
      SameNumber(ctx, length);
      var message := Announced(Unstopped(ctx), data, i, length).value;
      var j := i + 1 + |message|;
      var rest := DecodedIsLegal(ctx, data, j, []);
      var p := Piece(length, message);
      pieces := [p] + rest;
      PiecesCons(p, rest);
      assert LegalPiece(ctx, p);
      assert [] + data[j..] == data[j..];
      assert length + data[i..] == length + [COLON] + message + data[j..];
    }
  }

  lemma NoPieces()
    ensures Joined([]) == [] && Contents([]) == []
  {
  }

  lemma PiecesCons(p: Piece, rest: seq<Piece>)
    ensures Joined([p] + rest) == p.header + [COLON] + p.message + Joined(rest)
    ensures Contents([p] + rest) == (if p.message == [] then [] else [DecodePacket(p.message)]) + Contents(rest)
  {
    hide DecodePacket;
    assert ([p] + rest)[1..] == rest;
  }

  lemma PieceDecoded(ctx: Context, data: jstring, i: nat, p: Piece, after: jstring)
    requires i <= |data| && LegalPiece(ctx, p) && data[i..] == p.header + [COLON] + p.message + after
    ensures var j := i + |p.header| + 1 + |p.message|;
            && j <= |data| && data[j..] == after
            && Deliveries(Unstopped(ctx), data, i, [])
               == (if p.message == [] then [] else [DecodePacket(p.message)]) + Deliveries(Unstopped(ctx), data, j, [])
  {
    hide DecodePacket, Deliveries, Number;
    var k := i + |p.header|;
    MessageParts(data, i, p.header, p.message, after);
    HeaderScanned(Unstopped(ctx), data, i, [], p.header);
    assert [] + p.header == p.header;
    SameNumber(ctx, p.header);
    DeliveriesUnfold(Unstopped(ctx), data, k, p.header);
    var ds := Deliveries(Unstopped(ctx), data, k + 1 + |p.message|, []);
    assert [] + ds == ds;
  }

  lemma {:induction false} LegalIsDecoded(ctx: Context, data: jstring, i: nat, pieces: seq<Piece>)
    requires i <= |data| && Legal(ctx, pieces) && data[i..] == Joined(pieces)
    ensures Deliveries(Unstopped(ctx), data, i, []) == Contents(pieces)
    decreases |pieces|
  {
    hide DecodePacket, Deliveries, LegalPiece, Contents, Joined;
    NoPieces();
    if pieces == [] {
      DeliveriesUnfold(Unstopped(ctx), data, i, []);
    } else {
      var p, rest := pieces[0], pieces[1..];
      assert pieces == [p] + rest && LegalPiece(ctx, p);
      PiecesCons(p, rest);
      PieceDecoded(ctx, data, i, p, Joined(rest));
      LegalIsDecoded(ctx, data, i + |p.header| + 1 + |p.message|, rest);
    }
  }

  lemma SameNumber(ctx: Context, s: jstring)
    ensures Number(Unstopped(ctx), s) == Number(ctx, s)
  {
  }

  lemma {:induction false} NoErrorInside(pieces: seq<Piece>, ctx: Context)
    requires Legal(ctx, pieces)
    ensures ParserError !in Contents(pieces)
  {
    hide DecodePacket;
    if pieces != [] {
      assert LegalPiece(ctx, pieces[0]);
      NoErrorInside(pieces[1..], ctx);
    }
  }

  /** A callback that stops the decoding gets the same deliveries up to there. */
  lemma {:induction false} StopsThere(ctx: Context, data: jstring, i: nat, length: jstring)
    requires i <= |data|
    ensures Deliveries(ctx, data, i, length) == Until(ctx, Deliveries(Unstopped(ctx), data, i, length))
    decreases |data| - i
  {
    hide DecodePacket, Number, Deliveries, Until;
    DeliveriesUnfold(ctx, data, i, length);
    DeliveriesUnfold(Unstopped(ctx), data, i, length);
    UntilError(ctx);
    if i < |data| && data[i] != COLON {
      StopsThere(ctx, data, i + 1, length + [data[i]]);
    } else if i < |data| {
      SameNumber(ctx, length);
      var m := Announced(ctx, data, i, length);
      if m.Some? {
        var j := i + 1 + |m.value|;
        StopsThere(ctx, data, j, []);
        if m.value != [] {
          var packet := DecodePacket(m.value);
          UntilCons(ctx, packet, []);
          UntilCons(ctx, packet, Deliveries(Unstopped(ctx), data, j, []));
        }
      }
    }
  }

  lemma UntilError(ctx: Context)
    ensures Until(ctx, []) == [] && Until(ctx, [ParserError]) == [ParserError]
  {
    assert [ParserError][1..] == [];
  }

  lemma UntilCons(ctx: Context, d: Delivery, ds: seq<Delivery>)
    ensures Until(ctx, [d] + ds) == [d] + if ctx.stops(d) then [] else Until(ctx, ds)
  {
    assert ([d] + ds)[1..] == ds;
  }

  /** decodePayload reports no error if and only if the payload is a non-empty sequence of such pieces, and then it
      delivers exactly their packets; a callback that stops the decoding gets the same deliveries up to there. */
  lemma PayloadLanguage(ctx: Context, data: jstring)
    ensures ParserError !in DecodedPayload(Unstopped(ctx), data)
            <==> data != [] && exists pieces :: Legal(ctx, pieces) && data == Joined(pieces)
    ensures forall pieces :: data != [] && Legal(ctx, pieces) && data == Joined(pieces) ==>
              DecodedPayload(Unstopped(ctx), data) == Contents(pieces)
    ensures DecodedPayload(ctx, data) == Until(ctx, DecodedPayload(Unstopped(ctx), data))
  {
    hide Deliveries, Legal, Joined, Contents, Until;
    UntilError(ctx);
    if data != [] {
      StopsThere(ctx, data, 0, []);
    }
    assert data[0..] == data;
    if data != [] && ParserError !in DecodedPayload(Unstopped(ctx), data) {
      var pieces := DecodedIsLegal(ctx, data, 0, []);
      assert [] + data == data;
    }
    forall pieces | data != [] && Legal(ctx, pieces) && data == Joined(pieces)
      ensures DecodedPayload(Unstopped(ctx), data) == Contents(pieces) && ParserError !in Contents(pieces)
    {
      LegalIsDecoded(ctx, data, 0, pieces);
      NoErrorInside(pieces, ctx);
    }
  }
}
