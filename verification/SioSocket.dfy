/** socketio::Socket: what Emit puts into a packet and what OnEventPacket gets out of it. */
module SioSocket {
  import opened Bytes
  import opened Sequences
  import opened JsonValues
  import opened JsonParsing
  import opened JsonRoundTrip
  import opened JsonStyledWriter
  import JsonLexer
  import JsonNumbers
  import JsonReader
  import JsonTheorems
  import Sio = SioParser

  /** What the server has beside the packet: the events with a callback, and what double conversions do. */
  datatype Context = Context(events: set<bytes>, readsAsDouble: bytes -> bool, doubleText: bytes -> bytes)

  /** How OnEventPacket ends: with one of its false returns, an exception, or the call of the event's callback. */
  datatype Receipt =
    | NotJson | NotAnArray | TooShort | NoCallback(event: bytes)
    | DepthError | NotConvertible
    | Called(event: bytes, data: bytes)

  /** Value::asString; None stands for the exception on arrays and objects. */
  function AsString(ctx: Context, v: Value): Option<bytes> {
    match v
    case Null => Some([])
    case Str(s) => Some(s)
    case Bool(b) => Some(if b then TRUE_TEXT else FALSE_TEXT)
    case Int(i) => Some(JsonNumbers.SignedText(i))
    case UInt(u) => Some(JsonNumbers.SignedText(u))
    case Real(text) => Some(ctx.doubleText(text))
    case Arr(_) => None
    case Obj(_) => None
  }

  /** The log line between the lookup and its test already converts the data. */
  function Dispatched(ctx: Context, name: Value, data: Value): Receipt {
    var event, text := AsString(ctx, name), AsString(ctx, data);
    if event.None? || text.None? then NotConvertible
    else if event.value !in ctx.events then NoCallback(event.value)
    else Called(event.value, text.value)
  }

  function ReceiptOf(ctx: Context, p: Parsed): Receipt {
    if p.Threw? then DepthError
    else if !p.ok then NotJson
    else if !p.root.Arr? then NotAnArray
    else if |p.root.items| < 2 then TooShort
    else Dispatched(ctx, p.root.items[0], p.root.items[1])
  }

  /** The receipt of an event packet with the given body. */
  function ReceiptOfBody(ctx: Context, body: bytes): Receipt {
    ReceiptOf(ctx, Parse(Input(body, true, false, ctx.readsAsDouble), Null))
  }

  /** Emit: a two-element array of the event name and the value, pretty-printed, as the body of an event packet. */
  method Emit(event: bytes, value: Value) returns (packet: Sio.Packet)
    requires NoDoubles(value)
    ensures fresh(packet)
    ensures packet.kind == Sio.TYPE_EVENT && packet.id == -1 && packet.nsp == []
    ensures Renders(packet.body, StyledTokens(EventArray(event, value)))
  {
    var writer := new StyledWriter();
    var body := writer.Write(EventArray(event, value));
    packet := new Sio.Packet(0);
    packet.kind := Sio.TYPE_EVENT;
    packet.body := body;
  }

  function EventArray(event: bytes, value: Value): Value { Arr([Str(event), value]) }

  method ValueAsString(ctx: Context, v: Value) returns (text: Option<bytes>)
    ensures text == AsString(ctx, v)
  {
    match v {
      case Null => text := Some([]);
      case Str(s) => text := Some(s);
      case Bool(b) => text := Some(if b then TRUE_TEXT else FALSE_TEXT);
      case Int(i) =>
        var decimal := JsonNumbers.IntValueToString(i);
        text := Some(decimal);
      case UInt(u) =>
        var decimal := JsonNumbers.UIntValueToString(u);
        text := Some(decimal);
      case Real(token) => text := Some(ctx.doubleText(token));
      case _ => text := None;
    }
  }

  /** OnEventPacket, with a fresh reader with all features on. */
  method OnEventPacket(packet: Sio.Packet, ctx: Context) returns (r: Receipt)
    ensures r == ReceiptOfBody(ctx, packet.body)
  {
    var reader := new JsonReader.Reader(true, false, ctx.readsAsDouble);
    var parsed := reader.Parse(packet.body, Null);
    if parsed.Threw? {
      return DepthError;
    }
    if !parsed.ok {
      return NotJson;
    }
    var root := parsed.root;
    if !root.Arr? {
      return NotAnArray;
    }
    if |root.items| < 2 {
      return TooShort;
    }
    var event := ValueAsString(ctx, root.items[0]);
    if event.None? {
      return NotConvertible;
    }
    var found := event.value in ctx.events;
    var data := ValueAsString(ctx, root.items[1]);
    if data.None? {
      return NotConvertible;
    }
    if !found {
      return NoCallback(event.value);
    }
    r := Called(event.value, data.value);
  }

  // ---------- from Emit to OnEventPacket ----------

  /** What becomes of an emitted event: an array or object as its value makes asString throw. */
  function Delivery(ctx: Context, event: bytes, value: Value): Receipt {
    if Depth(value) >= STACK_LIMIT then DepthError else Dispatched(ctx, Str(event), value)
  }

  lemma EventArrayFacts(event: bytes, value: Value)
    requires Wf(value)
    ensures var v := EventArray(event, value);
            && Wf(v) && Depth(v) == 1 + Depth(value)
            && AsRead(Truncated(v)) == Arr([Str(event), AsRead(Truncated(value))])
  {
    hide Norm;
    var items := [Str(event), value];
    var shown := TruncatedItems(items);
    assert items[1..] == [value] && [value][1..] == [];
    assert ItemsDepth([value]) == Depth(value);
    assert ItemsDepth(items) == Max(Depth(items[0]), ItemsDepth(items[1..])) == Max(1, Depth(value));
    assert shown == [Str(event), Truncated(value)] && shown[1..] == [Truncated(value)] && [Truncated(value)][1..] == [];
    assert AsRead(Str(event)) == Str(event) by { StringAsRead(event); }
    assert ItemsAsRead([Truncated(value)]) == [AsRead(Truncated(value))] + [];
    assert ItemsAsRead(shown) == [AsRead(shown[0])] + ItemsAsRead(shown[1..]);
  }

  lemma StringAsRead(s: bytes)
    ensures AsRead(Str(s)) == Str(s)
  {
  }

  /** Cutting names and reading back change no conversion to a string. */
  lemma SameString(ctx: Context, value: Value)
    ensures AsString(ctx, AsRead(Truncated(value))) == AsString(ctx, value)
  {
  }

  /** The handler gets exactly the emitted event with the value as a string, unless the value is nested too deep, is an
      array or an object, or the event has no callback. */
  lemma EmittedBodyIsReceived(ctx: Context, event: bytes, value: Value, body: bytes)
    requires Wf(value) && Renders(body, StyledTokens(EventArray(event, value)))
    ensures ReceiptOfBody(ctx, body) == Delivery(ctx, event, value)
  {
    hide Parse, Renders, Depth, Truncated, AsRead, AsString;
    EventArrayFacts(event, value);
    JsonTheorems.StyledRoundTrip(EventArray(event, value), Input(body, true, false, ctx.readsAsDouble), Null);
    SameString(ctx, value);
  }

  /** The text that a callback gets for a scalar: strings as they are, nothing for null, numbers in decimal. */
  predicate Spells(value: Value, text: bytes) {
    match value
    case Null => text == []
    case Str(s) => text == s
    case Bool(b) => text == if b then Ascii("true") else Ascii("false")
    case Int(i) => text == JsonNumbers.SignedText(i)
    case UInt(u) => text == JsonNumbers.SignedText(u)
    case _ => false
  }

  lemma AsStringSpells(ctx: Context, value: Value, text: bytes)
    requires Spells(value, text)
    ensures AsString(ctx, value) == Some(text)
  {
    assert Ascii("true") == [116, 114, 117, 101] && Ascii("false") == [102, 97, 108, 115, 101];
  }

  lemma DeliveryCases(ctx: Context, event: bytes, value: Value, text: bytes)
    ensures Spells(value, text) ==>
              Delivery(ctx, event, value) == if event in ctx.events then Called(event, text) else NoCallback(event)
    ensures (value.Arr? || value.Obj?) && Depth(value) < STACK_LIMIT ==> Delivery(ctx, event, value) == NotConvertible
    ensures Depth(value) >= STACK_LIMIT ==> Delivery(ctx, event, value) == DepthError
  {
    if Spells(value, text) {
      AsStringSpells(ctx, value, text);
    }
  }

  /** What arrives of an emitted event, case by case: its callback is called with the event's name and the value's text;
      without a callback nothing is called; an array or object is an exception, and so is a value nested too deep. */
  lemma EmittedEventCases(ctx: Context, event: bytes, value: Value, text: bytes, body: bytes)
    requires Wf(value) && Renders(body, StyledTokens(EventArray(event, value)))
    ensures Spells(value, text) && event in ctx.events ==> ReceiptOfBody(ctx, body) == Called(event, text)
    ensures Spells(value, text) && event !in ctx.events ==> ReceiptOfBody(ctx, body) == NoCallback(event)
    ensures (value.Arr? || value.Obj?) && Depth(value) < STACK_LIMIT ==> ReceiptOfBody(ctx, body) == NotConvertible
    ensures Depth(value) >= STACK_LIMIT ==> ReceiptOfBody(ctx, body) == DepthError
  {
    hide Renders, ReceiptOfBody, StyledTokens, Spells, Delivery, Depth, Wf;
    EmittedBodyIsReceived(ctx, event, value, body);
    DeliveryCases(ctx, event, value, text);
  }

  /** What OnEventPacket makes of any body: an array's first item names the event, its second is the data. */
  lemma ReceivedEventCases(ctx: Context, body: bytes, items: seq<Value>, name: bytes, text: bytes)
    requires Parse(Input(body, true, false, ctx.readsAsDouble), Null) == Parsed(true, Arr(items), [])
    ensures |items| < 2 ==> ReceiptOfBody(ctx, body) == TooShort
    ensures |items| >= 2 && Spells(items[0], name) && Spells(items[1], text) ==>
              ReceiptOfBody(ctx, body) == if name in ctx.events then Called(name, text) else NoCallback(name)
    ensures |items| >= 2 && (items[0].Arr? || items[0].Obj? || items[1].Arr? || items[1].Obj?) ==>
              ReceiptOfBody(ctx, body) == NotConvertible
  {
    hide Parse, Spells;
    if |items| >= 2 && Spells(items[0], name) && Spells(items[1], text) {
      AsStringSpells(ctx, items[0], name);
      AsStringSpells(ctx, items[1], text);
    }
  }

  lemma BodyStartsWithBracket(body: bytes, tokens: seq<Lexeme>)
    requires Renders(body, tokens) && tokens != [] && tokens[0] == Punctuation(LEFT_BRACKET)
    ensures body != [] && !IsDigit(body[0]) && body[0] != SLASH
  {
    RendersHead(body, tokens);
    if Blank(body) == 0 {
      assert body[0..] == body;
    }
  }

  /** From Emit over the packet text to the handler: the packet of Emit is in the root namespace and arrives. */
  lemma EmittedEventIsReceived(ctx: Context, event: bytes, value: Value, f: Sio.Fields)
    requires Wf(value)
    requires f.kind == Sio.TYPE_EVENT && f.id == -1 && f.nsp == []
    requires Renders(f.body, StyledTokens(EventArray(event, value)))
    ensures var d := Sio.Decode(Sio.Text(f), Sio.FRESH);
            && d.Decoded? && d.fields.kind == f.kind && Sio.IsRoot(d.fields.nsp)
            && ReceiptOfBody(ctx, d.fields.body) == Delivery(ctx, event, value)
  {
    hide Renders, Sio.Text, Sio.Decode, Delivery, ReceiptOfBody;
    BodyStartsWithBracket(f.body, StyledTokens(EventArray(event, value)));
    Sio.RootRoundTrip(f);
    EmittedBodyIsReceived(ctx, event, value, f.body);
  }

  // ---------- other namespaces ----------

  /** A document that is empty or begins with a comma never parses. */
  lemma CommaNeverParses(ctx: Context, body: bytes)
    requires body == [] || body[0] == COMMA
    ensures ReceiptOfBody(ctx, body) == NotJson
  {
    var inp := Input(body, true, false, ctx.readsAsDouble);
    assert inp.doc[0..] == inp.doc;
    BlankIs(inp.doc, 0);
    assert body != [] ==> JsonLexer.TokenAt(inp.doc, 0) == JsonLexer.Token(ArraySeparator, 0, 1);
    assert body == [] ==> JsonLexer.TokenAt(inp.doc, 0) == JsonLexer.Token(EndOfStream, 0, 0);
    assert NextToken(inp, 0) == JsonLexer.TokenAt(inp.doc, 0);
  }

  lemma BodyBehindNamespace(data: bytes, i: nat, f: Sio.Fields)
    requires i <= |data| && Sio.DecodeNamespace(data, i, f).Decoded?
    requires Sio.DecodeNamespace(data, i, f).fields.nsp != Sio.ROOT
    ensures var body := Sio.DecodeNamespace(data, i, f).fields.body; body == [] || body[0] == COMMA
  {
    hide DecimalValue, AllDigits;
  }

  /** Whatever text comes in: when it decodes to a namespace other than the root, its body is not JSON for the handler,
      because it is empty or still has the comma in front. */
  lemma NoEventOutsideRoot(ctx: Context, data: bytes)
    requires Sio.Decode(data, Sio.FRESH).Decoded? && Sio.Decode(data, Sio.FRESH).fields.nsp != Sio.ROOT
    ensures ReceiptOfBody(ctx, Sio.Decode(data, Sio.FRESH).fields.body) == NotJson
  {
    hide ReceiptOfBody, Sio.DecodeNamespace;
    var g := Sio.FRESH.(kind := Sio.CharAt(data, 0) - 48);
    var i := if Sio.IsBinary(g.kind) then Sio.Find(data, 1, MINUS) + 1 else 1;
    BodyBehindNamespace(data, i, g);
    CommaNeverParses(ctx, Sio.Decode(data, Sio.FRESH).fields.body);
  }

  /** In particular for every packet that is encoded in such a namespace. */
  lemma EventsOnlyInRootNamespace(ctx: Context, f: Sio.Fields)
    requires Sio.PlainType(f.kind) && !Sio.IsRoot(f.nsp) && Sio.CleanNamespace(f.nsp)
    ensures var d := Sio.Decode(Sio.Text(f), Sio.FRESH);
            d.Decoded? && d.fields.nsp == f.nsp && ReceiptOfBody(ctx, d.fields.body) == NotJson
  {
    hide ReceiptOfBody, Sio.Decode, Sio.Text;
    Sio.NamespaceRoundTrip(f);
    NoEventOutsideRoot(ctx, Sio.Text(f));
  }
}
