/** The formats of the codecs, spelled out in characters and numbers. */
module WireFormats {
  import opened Bytes
  import opened Sequences
  import AsyncLogging
  import Base64
  import EioParser
  import EioPayload
  import EioServerProtocol
  import JsUtf8
  import JsonNumbers
  import JsonStrings
  import JsonValues
  import SioParser

  // ---------- JSON ----------

  const UPPER_HEX := "0123456789ABCDEF"
  const LOWER_HEX := "0123456789abcdef"

  /** How each byte of a string is printed. */
  lemma EscapeIs(c: byte)
    ensures JsonStrings.EscapeByte(c) ==
            if c == '\"' as int then Ascii("\\\"")
            else if c == '\\' as int then Ascii("\\\\")
            else if c == 8 then Ascii("\\b")
            else if c == 12 then Ascii("\\f")
            else if c == 10 then Ascii("\\n")
            else if c == 13 then Ascii("\\r")
            else if c == 9 then Ascii("\\t")
            else if c < 32 then Ascii("\\u00") + Ascii([UPPER_HEX[c / 16], UPPER_HEX[c % 16]])
            else [c]
  {
    if c < 32 {
      assert Ascii("\\u00") == [BACKSLASH, LOWER_U, ZERO, ZERO];
    }
  }

  /** What each character behind a backslash stands for, `u` apart. */
  lemma SimpleEscapeIs(c: byte)
    ensures JsonStrings.SimpleEscape(c) ==
            if c == '\"' as int then Ascii("\"")
            else if c == '\\' as int then Ascii("\\")
            else if c == '/' as int then Ascii("/")
            else if c == 'b' as int then [8]
            else if c == 'f' as int then [12]
            else if c == 'n' as int then [10]
            else if c == 'r' as int then [13]
            else if c == 't' as int then [9]
            else []
  {
  }

  /** The hexadecimal digits, in both cases. */
  lemma HexDigitsAre(c: byte, d: nat)
    requires d < 16
    ensures JsonStrings.IsHexDigit(c) && JsonStrings.HexDigitValue(c) == d <==>
            c == UPPER_HEX[d] as int || c == LOWER_HEX[d] as int
  {
  }

  /** The tokens of a document. */
  lemma TokenTexts()
    ensures JsonValues.Tokens(JsonValues.Null) == [JsonValues.Lexeme(JsonValues.NullToken, Ascii("null"))]
    ensures JsonValues.Tokens(JsonValues.Bool(true)) == [JsonValues.Lexeme(JsonValues.TrueToken, Ascii("true"))]
    ensures JsonValues.Tokens(JsonValues.Bool(false)) == [JsonValues.Lexeme(JsonValues.FalseToken, Ascii("false"))]
    ensures JsonValues.Punctuation(LEFT_BRACE) == JsonValues.Lexeme(JsonValues.ObjectBegin, Ascii("{"))
    ensures JsonValues.Punctuation(RIGHT_BRACE) == JsonValues.Lexeme(JsonValues.ObjectEnd, Ascii("}"))
    ensures JsonValues.Punctuation(LEFT_BRACKET) == JsonValues.Lexeme(JsonValues.ArrayBegin, Ascii("["))
    ensures JsonValues.Punctuation(RIGHT_BRACKET) == JsonValues.Lexeme(JsonValues.ArrayEnd, Ascii("]"))
    ensures JsonValues.Punctuation(COMMA) == JsonValues.Lexeme(JsonValues.ArraySeparator, Ascii(","))
    ensures JsonValues.Punctuation(COLON) == JsonValues.Lexeme(JsonValues.MemberSeparator, Ascii(":"))
  {
    assert Ascii("null") == [110, 117, 108, 108];
    assert Ascii("true") == [116, 114, 117, 101];
    assert Ascii("false") == [102, 97, 108, 115, 101];
    assert Ascii("{") == [123] && Ascii("}") == [125] && Ascii("[") == [91] && Ascii("]") == [93];
    assert Ascii(",") == [44] && Ascii(":") == [58];
  }

  /** Numbers are decimal, with a minus sign and without leading zeros. */
  lemma SignedTextIs(n: int)
    ensures var t := JsonNumbers.SignedText(n);
            && (n < 0 <==> t[0] == '-' as int)
            && var digits := if n < 0 then t[1..] else t;
               && digits != [] && AllDigits(digits) && DecimalValue(digits) == (if n < 0 then -n else n)
               && (|digits| > 1 ==> digits[0] != '0' as int)
  {
    var m: nat := if n < 0 then -n else n;
    DecimalValueOfDecimal(m);
    NoLeadingZero(m);
    var t := JsonNumbers.SignedText(n);
    assert n < 0 ==> t[1..] == Decimal(m);
    assert IsDigit(Decimal(m)[0]);
  }

  lemma {:induction false} NoLeadingZero(n: nat)
    ensures n > 0 ==> Decimal(n)[0] != ZERO
    ensures |Decimal(n)| > 1 ==> Decimal(n)[0] != ZERO
  {
    if n >= 10 {
      NoLeadingZero(n / 10);
    }
  }

  /** What a number token means to the reader: an int up to 2^31 - 1, an unsigned int above, and no integer outside of
      64 bits or with any other character; a lone minus is zero. */
  lemma NumbersMean(negative: bool, digits: bytes)
    requires digits == [] || digits[0] != '-' as int
    requires !negative ==> digits != []
    ensures var text := (if negative then ['-' as int] else []) + digits;
            if !AllDigits(digits) then JsonNumbers.NumberMeaning(text) == JsonNumbers.NotInteger
            else
              var m: int := DecimalValue(digits);
              var n := if negative then -m else m;
              JsonNumbers.NumberMeaning(text) ==
              if -9223372036854775808 <= n <= 2147483647 then JsonNumbers.IntNumber(n)
              else if 2147483648 <= n <= 18446744073709551615 then JsonNumbers.UIntNumber(n)
              else JsonNumbers.NotInteger
    ensures JsonNumbers.NumberMeaning(['-' as int]) == JsonNumbers.IntNumber(0)
  {
    hide AllDigits, DecimalValue;
    var text: bytes := (if negative then ['-' as int] else []) + digits;
    assert JsonNumbers.Magnitude(text) == digits;
    assert AllDigits([]) && DecimalValue([]) == 0 by { NoDigits(); }
    assert JsonNumbers.Magnitude(['-' as int]) == [];
  }

  lemma NoDigits()
    ensures AllDigits([]) && DecimalValue([]) == 0
  {
  }

  // ---------- Base64 ----------

  /** The alphabet of RFC 4648, section 4. */
  lemma AlphabetIs(i: byte)
    requires i < 64
    ensures Base64.CharOf(i) ==
            if i < 26 then 'A' as int + i
            else if i < 52 then 'a' as int + (i - 26)
            else if i < 62 then '0' as int + (i - 52)
            else if i == 62 then '+' as int
            else '/' as int
    ensures Base64.PAD == '=' as int
  {
  }

  /** Four characters denote the same number, to the base 64, as three bytes to the base 256. */
  lemma GroupValue(a: byte, b: byte, c: byte)
    ensures var s := Base64.Sextets(a, b, c);
            ((s[0] as int * 64 + s[1]) * 64 + s[2]) * 64 + s[3] == (a as int * 256 + b) * 256 + c
  {
  }

  /** And back. */
  lemma GroupValueBack(v: seq<byte>)
    requires |v| == 4 && forall i :: 0 <= i < 4 ==> v[i] < 64
    ensures var o := Base64.Octets(v);
            ((v[0] as int * 64 + v[1]) * 64 + v[2]) * 64 + v[3] == (o[0] as int * 256 + o[1]) * 256 + o[2]
  {
    hide Base64.Octets, Base64.Sextets;
    var o := Base64.Octets(v);
    Base64.OctetsBack(v);
    GroupValue(o[0], o[1], o[2]);
  }

  // ---------- engine.io ----------

  function Digit(kind: nat): bytes
    requires kind <= 6
  {
    ['0' as int + kind]
  }

  /** A packet's text on the server, and its frames. */
  lemma ServerPacketIs(kind: nat, body: bytes)
    requires kind <= 6
    ensures var p := EioParser.Packet(kind, body);
            && EioParser.PacketText(p) == Digit(kind) + body
            && EioParser.TextFrame(p) == Decimal(1 + |body|) + [':' as int] + (Digit(kind) + body)
            && EioParser.Frame(p) == [0] + EioParser.RawDigits(1 + |body|) + [255] + (Digit(kind) + body)
  {
    hide Decimal, EioParser.RawDigits;
    assert JsonNumbers.SignedText(kind) == Digit(kind) by { OneDigit(kind); }
    assert |Digit(kind) + body| == 1 + |body|;
  }

  lemma OneDigit(kind: nat)
    requires kind <= 6
    ensures JsonNumbers.SignedText(kind) == Decimal(kind) == Digit(kind)
  {
  }

  /** The first bytes that the server takes for a packet: a digit but '0', a number from 0 to 6 as a raw byte, or the
      letter of a Base64 packet with something behind it. */
  lemma ServerPacketAccepted(data: bytes, p: EioParser.Packet)
    ensures EioParser.DecodePacket(data, p).0 <==>
            data == [] || ('1' as int <= data[0] <= '6' as int) || data[0] <= 6
            || (data[0] == 'b' as int && |data| > 1)
  {
    hide Base64.Decoded;
  }

  /** The types of the packets, and the text of the server's pong to a probe. */
  lemma PacketTypes()
    ensures EioServerProtocol.OPEN == 0 && EioServerProtocol.PING == 2 && EioServerProtocol.PONG == 3
    ensures EioServerProtocol.MESSAGE == 4 && EioServerProtocol.UPGRADE == 5 && EioServerProtocol.NOOP == 6
    ensures forall k: int :: EioParser.IsValidPacketType(k) <==> 0 <= k <= 6
    ensures EioServerProtocol.PROBE == Ascii("probe")
    ensures EioServerProtocol.PongTo(0).text == Ascii("3probe")
  {
    ServerPacketIs(3, Ascii("probe"));
    assert Ascii("3probe") == Digit(3) + Ascii("probe");
    assert Ascii("probe") == [112, 114, 111, 98, 101];
  }

  /** A packet on the client, and its frame. */
  lemma ClientPacketIs(kind: nat, data: JsUtf8.jstring)
    requires kind <= 6
    ensures EioPayload.Message(EioPayload.Packet(kind, None)) == Some(Digit(kind))
    ensures JsUtf8.Encode(data).Some? ==>
              EioPayload.Message(EioPayload.Packet(kind, Some(data)))
              == Some(Digit(kind) + JsUtf8.Encode(data).value)
    ensures EioPayload.WithHeader(data) == Decimal(|data|) + [':' as int] + data
  {
    hide JsUtf8.Encode;
  }

  // ---------- socket.io ----------

  /** A packet's text: type, namespace unless it is the root, a comma behind a namespace, a positive id, the body. */
  lemma SocketPacketIs(kind: nat, id: int, nsp: bytes, body: bytes)
    requires kind <= 4
    ensures var number := if id > 0 then Decimal(id) else [];
            SioParser.Text(SioParser.Fields(kind, id, nsp, body)) ==
            if nsp == [] || nsp == ['/' as int] then Digit(kind) + number + body
            else if number == [] && body == [] then Digit(kind) + nsp
            else Digit(kind) + nsp + [',' as int] + number + body
  {
    hide Decimal, JsonNumbers.SignedText;
    OneDigit(kind);
    var number: bytes := if id > 0 then Decimal(id) else [];
    var f := SioParser.Fields(kind, id, nsp, body);
    assert SioParser.IdText(id) == number && SioParser.Remainder(f) == number + body;
    assert Digit(kind) + [] == Digit(kind) && Digit(kind) + nsp + [] == Digit(kind) + nsp;
  }

  // ---------- UTF-8 ----------

  /** The six bits that a byte behind the first one carries. */
  function Tail(b: nat): int { b - 0x80 }

  /** The forms of RFC 3629, section 3: the bits of the code point behind the marks of the bytes. */
  predicate HasForm(e: JsUtf8.jstring, cp: nat) {
    && |e| >= 1 && (forall i :: 1 <= i < |e| ==> 0x80 <= e[i] < 0xC0)
    && if cp <= 0x7F then |e| == 1 && e[0] == cp
       else if cp <= 0x7FF then |e| == 2 && 0xC0 <= e[0] < 0xE0 && (e[0] - 0xC0) as int * 0x40 + Tail(e[1]) == cp
       else if cp <= 0xFFFF then
         |e| == 3 && 0xE0 <= e[0] < 0xF0 && ((e[0] - 0xE0) as int * 0x40 + Tail(e[1])) * 0x40 + Tail(e[2]) == cp
       else
         && |e| == 4 && 0xF0 <= e[0] < 0xF8
         && (((e[0] - 0xF0) as int * 0x40 + Tail(e[1])) * 0x40 + Tail(e[2])) * 0x40 + Tail(e[3]) == cp
  }

  lemma Utf8Forms(cp: nat)
    requires JsUtf8.IsScalar(cp)
    ensures JsUtf8.EncodeCodePoint(cp).Some? && HasForm(JsUtf8.EncodeCodePoint(cp).value, cp)
  {
    if cp <= 0x7FF {
      assert cp == cp / 0x40 * 0x40 + cp % 0x40;
    } else if cp <= 0xFFFF {
      ThreeByteForm(cp);
    } else {
      FourByteForm(cp);
    }
  }

  lemma ThreeByteForm(cp: nat)
    requires 0x7FF < cp <= 0xFFFF && JsUtf8.IsScalar(cp)
    ensures JsUtf8.EncodeCodePoint(cp).Some? && HasForm(JsUtf8.EncodeCodePoint(cp).value, cp)
  {
    JsUtf8.Shifts(cp);
    var a := cp / 0x40;
    assert cp == a * 0x40 + cp % 0x40 && a == a / 0x40 * 0x40 + a % 0x40;
    assert a / 0x40 < 0x10;
  }

  lemma FourByteForm(cp: nat)
    requires 0xFFFF < cp <= 0x10FFFF
    ensures JsUtf8.EncodeCodePoint(cp).Some? && HasForm(JsUtf8.EncodeCodePoint(cp).value, cp)
  {
    JsUtf8.Shifts(cp);
    var a := cp / 0x40;
    var b := a / 0x40;
    assert cp == a * 0x40 + cp % 0x40 && a == b * 0x40 + a % 0x40 && b == b / 0x40 * 0x40 + b % 0x40;
    assert b / 0x40 < 8;
  }

  /** A surrogate pair, as in RFC 2781, section 2.2. */
  lemma PairIs(high: nat, low: nat)
    requires JsUtf8.IsHigh(high) && JsUtf8.IsLow(low)
    ensures 0xD800 <= high < 0xDC00 && 0xDC00 <= low < 0xE000
    ensures JsUtf8.PairValue(high, low) == 0x10000 + (high - 0xD800) * 0x400 + (low - 0xDC00)
  {
  }

  // ---------- the log ----------

  /** A line fits an empty buffer if it is shorter than 4 000 000 bytes; of more than 25 buffers two are kept, and the
      notice counts the others. */
  lemma LogLimits(line: bytes, batch: seq<AsyncLogging.Content>)
    ensures AsyncLogging.Fits([], line) <==> |line| < 4_000_000
    ensures |batch| <= 25 ==> AsyncLogging.Kept(batch) == batch && AsyncLogging.Notices(batch) == []
    ensures |batch| > 25 ==>
              && AsyncLogging.Kept(batch) == [batch[0], batch[1]]
              && AsyncLogging.Notices(batch) == [AsyncLogging.Notice(|batch| - 2)]
  {
  }

  /** A line joins the current buffer if and only if it leaves a byte of its four million free; otherwise the buffer is
      full, and the line begins the next one unless it is too long for any. */
  lemma LineGoesWhere(s: AsyncLogging.State, line: bytes)
    requires AsyncLogging.SparesReady(s)
    ensures var t := AsyncLogging.AppendLine(s, line);
            if |Flat(s.current)| + |line| < 4_000_000 then t.current == s.current + [line] && t.full == s.full
            else
              && t.full == s.full + [s.current]
              && t.current == if |line| < 4_000_000 then [line] else []
  {
    AsyncLogging.Fresh(line);
  }

  /** The writer takes the full buffers at once, and waits only when there are none. */
  lemma WriterWaitsWhen(s: AsyncLogging.State)
    requires s.phase.Top? && s.running
    ensures var t := AsyncLogging.Apply(s, AsyncLogging.Enter);
            if s.full == [] then t == s.(phase := AsyncLogging.Waiting)
            else t.phase.Taken? && t.toWrite == s.full + [s.current] && t.full == []
  {
  }
}
