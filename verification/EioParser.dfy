/** engineio::Parser on the server: packets, binary payloads and text payloads, as the code is written. */
module EioParser {
  import opened Bytes
  import opened JsonNumbers
  import opened Base64

  const FRAME_END: byte := 255
  // the digits that the largest double needs
  const MAX_LENGTH_CHARS := 310
  const UINT_LIMIT := 0x1_0000_0000

  /** A packet; a new one holds whatever its uninitialized type happens to be, and an empty body. */
  datatype Packet = Packet(kind: int, body: bytes)

  predicate IsValidPacketType(kind: int) { 0 <= kind <= 6 }

  /** SetType: refuses an invalid type. */
  function WithType(p: Packet, kind: int): Packet {
    if IsValidPacketType(kind) then p.(kind := kind) else p
  }

  function SignedChar(c: byte): int {
    var n: int := c;
    if n < 128 then n else n - 256
  }

  function Wrap(n: nat): (w: nat)
    ensures w < UINT_LIMIT
  {
    n % UINT_LIMIT
  }

  /** The number a length string denotes for the decoder: its raw byte values as decimal digits, in 32 bits. */
  function RawValue(s: bytes): (n: nat)
    ensures n < UINT_LIMIT
  {
    if s == [] then 0 else Wrap(RawValue(s[..|s| - 1]) * 10 + s[|s| - 1])
  }

  method BinaryStringToInt(s: bytes) returns (sum: nat)
    ensures sum == RawValue(s)
  {
    sum := 0;
    for i := 0 to |s|
      invariant sum == RawValue(s[..i])
    {
      assert s[..i + 1][..i] == s[..i];
      sum := Wrap(sum * 10 + s[i]);
    }
    assert s[..|s|] == s;
  }

  /** DecodePacket and DecodeBase64Packet, into a packet that holds p: the returned flag and the packet. */
  function DecodePacket(data: bytes, p: Packet): (bool, Packet) {
    if data == [] then (true, p)
    else if data[0] == LOWER_B then
      if |data| == 1 then (false, p)
      else (true, WithType(p, SignedChar(data[1]) - 48).(body := Decoded(data[2..])))
    else
      var c := SignedChar(data[0]);
      var kind := if c > 48 then c - 48 else c;
      if !IsValidPacketType(kind) then (false, p)
      else (true, Packet(kind, if |data| > 1 then data[1..] else p.body))
  }

  /** std::string(data, from, count) */
  function Substring(data: bytes, from: nat, count: nat): bytes
    requires from <= |data|
  {
    if from + count <= |data| then data[from..from + count] else data[from..]
  }

  /** The length characters of a frame that starts at j and whose end mark is at i; i - j - 1 is computed in 32 bits. */
  function LengthText(data: bytes, j: nat, i: nat): bytes
    requires j <= i < |data|
  {
    Substring(data, j + 1, (i - j - 1) % UINT_LIMIT)
  }

  /** DecodePayloadAsBinary from cursor i, in a frame that starts at j, with the packets found so far. */
  function BinaryFrames(data: bytes, i: nat, j: nat, fresh_: Packet, packets: seq<Packet>): (bool, seq<Packet>)
    requires j <= i <= |data|
    decreases |data| - i
  {
    if i == |data| then (i == j, packets)
    else if data[i] != FRAME_END then BinaryFrames(data, i + 1, j, fresh_, packets)
    else
      var text := LengthText(data, j, i);
      var single := Substring(data, i + 1, RawValue(text));
      if |text| > MAX_LENGTH_CHARS || |single| != RawValue(text) then (false, packets)
      else
        // the flag of DecodePacket is ignored
        BinaryFrames(data, i + 1 + |single|, i + 1 + |single|, fresh_, packets + [DecodePacket(single, fresh_).1])
  }

  method DecodePayloadAsBinary(data: bytes, fresh_: Packet) returns (ok: bool, packets: seq<Packet>)
    requires |data| < UINT_LIMIT
    ensures (ok, packets) == BinaryFrames(data, 0, 0, fresh_, [])
  {
    hide RawValue, DecodePacket;
    var i: nat, j: nat := 0, 0;
    packets := [];
    while i < |data|
      invariant j <= i <= |data|
      invariant BinaryFrames(data, i, j, fresh_, packets) == BinaryFrames(data, 0, 0, fresh_, [])
      decreases |data| - i
    {
      if data[i] != FRAME_END {
        i := i + 1;
      } else {
        var text := LengthText(data, j, i);
        if |text| > MAX_LENGTH_CHARS {
          return false, packets;
        }
        var len := BinaryStringToInt(text);
        var single := Substring(data, i + 1, len);
        if |single| != len {
          return false, packets;
        }
        packets := packets + [DecodePacket(single, fresh_).1];
        i := i + len + 1;
        j := i;
      }
    }
    ok := i == j;
  }

  /** The text loop of DecodePayload. */
  function TextFrames(data: bytes, i: nat, j: nat, fresh_: Packet, packets: seq<Packet>): (bool, seq<Packet>)
    requires j <= i <= |data|
    decreases |data| - i
  {
    if i == |data| then (i == j, packets)
    else if data[i] != COLON then TextFrames(data, i + 1, j, fresh_, packets)
    else
      var text := data[j..i];
      var message := Substring(data, i + 1, RawValue(text));
      if text == [] || |message| != RawValue(text) then (false, packets)
      else if message == [] then TextFrames(data, i + 1, i + 1, fresh_, packets)
      else
        var (ok, packet) := DecodePacket(message, fresh_);
        if !ok then (false, packets)
        else TextFrames(data, i + 1 + |message|, i + 1 + |message|, fresh_, packets + [packet])
  }

  /** The first byte decides which loop runs. */
  predicate IsTextPayload(data: bytes) { data != [] && (data[0] == LOWER_B || SignedChar(data[0]) > 48) }

  function DecodedPayload(data: bytes, fresh_: Packet): (bool, seq<Packet>) {
    if IsTextPayload(data) then TextFrames(data, 0, 0, fresh_, []) else BinaryFrames(data, 0, 0, fresh_, [])
  }

  method DecodePayload(data: bytes, fresh_: Packet) returns (ok: bool, packets: seq<Packet>)
    requires |data| < UINT_LIMIT
    ensures (ok, packets) == DecodedPayload(data, fresh_)
  {
    hide RawValue, DecodePacket;
    if !IsTextPayload(data) {
      ok, packets := DecodePayloadAsBinary(data, fresh_);
      return;
    }
    var i: nat, j: nat := 0, 0;
    packets := [];
    while i < |data|
      invariant j <= i <= |data|
      invariant TextFrames(data, i, j, fresh_, packets) == TextFrames(data, 0, 0, fresh_, [])
      decreases |data| - i
    {
      if data[i] != COLON {
        i := i + 1;
      } else {
        var text := data[j..i];
        if text == [] {
          return false, packets;
        }
        var len := BinaryStringToInt(text);
        var message := Substring(data, i + 1, len);
        if |message| != len {
          return false, packets;
        }
        if message != [] {
          var decoded := DecodePacket(message, fresh_);
          if !decoded.0 {
            return false, packets;
          }
          packets := packets + [decoded.1];
        }
        i := i + len + 1;
        j := i;
      }
    }
    ok := i == j;
  }

  // ---------- encoding ----------

  /** EncodePacket */
  function PacketText(p: Packet): bytes { SignedText(p.kind) + p.body }

  function RawDigits(n: nat): (s: bytes)
    ensures |s| == |Decimal(n)| && forall i :: 0 <= i < |s| ==> s[i] == Decimal(n)[i] - 48
  {
    seq(|Decimal(n)|, i requires 0 <= i < |Decimal(n)| => Decimal(n)[i] - 48)
  }

  /** One binary frame: a zero byte, the length in raw digits, 255, the packet. */
  function Frame(p: Packet): bytes { [NUL] + RawDigits(|PacketText(p)|) + [FRAME_END] + PacketText(p) }

  function TextFrame(p: Packet): bytes { Decimal(|PacketText(p)|) + [COLON] + PacketText(p) }

  /** EncodePayloadAsBinary: every turn of the loop overwrites the result. */
  method EncodePayloadAsBinary(packets: seq<Packet>, result0: bytes) returns (result: bytes)
    ensures result == if packets == [] then result0 else Frame(packets[|packets| - 1])
  {
    result := result0;
    for it := 0 to |packets|
      invariant result == if it == 0 then result0 else Frame(packets[it - 1])
    {
      var d := PacketText(packets[it]);
      var encodingLen := Decimal(|d|);
      var buf := new byte[|encodingLen| + 2](_ => ZERO);
      buf[0] := NUL;
      for i := 0 to |encodingLen|
        invariant buf[0] == NUL
        invariant forall k :: 0 <= k < i ==> buf[k + 1] == encodingLen[k] - 48
      {
        buf[i + 1] := encodingLen[i] - ZERO;
      }
      buf[|encodingLen| + 1] := FRAME_END;
      assert buf[..] == [NUL] + RawDigits(|d|) + [FRAME_END];
      result := buf[..] + d;
    }
  }

  function TextFramesOf(packets: seq<Packet>): bytes {
    if packets == [] then [] else TextFrame(packets[0]) + TextFramesOf(packets[1..])
  }

  /** What EncodePayload leaves in an empty result in binary mode. */
  function BinaryPayload(ps: seq<Packet>): bytes {
    if ps == [] then [] else Frame(ps[|ps| - 1])
  }

  /** What EncodePayload leaves in an empty result. */
  function PayloadBytes(ps: seq<Packet>, supportBinary: bool): bytes {
    if supportBinary then BinaryPayload(ps) else TextFramesOf(ps)
  }

  method EncodePayload(packets: seq<Packet>, supportBinary: bool, result0: bytes) returns (result: bytes)
    ensures supportBinary && packets != [] ==> result == Frame(packets[|packets| - 1])
    ensures supportBinary && packets == [] ==> result == result0
    ensures !supportBinary ==> result == result0 + TextFramesOf(packets)
    ensures result0 == [] ==> result == PayloadBytes(packets, supportBinary)
  {
    if supportBinary {
      result := EncodePayloadAsBinary(packets, result0);
      return;
    }
    hide TextFrame;
    result := result0;
    assert packets[0..] == packets;
    for it := 0 to |packets|
      invariant result + TextFramesOf(packets[it..]) == result0 + TextFramesOf(packets)
    {
      assert packets[it..][1..] == packets[it + 1..];
      Associate(result, TextFrame(packets[it]), TextFramesOf(packets[it + 1..]));
      result := result + TextFrame(packets[it]);
    }
    assert packets[|packets|..] == [] && result + [] == result;
  }

  // ---------- what comes back ----------

  function Frames(ps: seq<Packet>): bytes {
    if ps == [] then [] else Frame(ps[0]) + Frames(ps[1..])
  }

  /** What the decoder makes of one framed packet: type 0 is not recognised, so the packet stays as it was created. */
  function Received(p: Packet, fresh_: Packet): Packet { if p.kind == 0 then fresh_ else p }

  function AllReceived(ps: seq<Packet>, fresh_: Packet): (r: seq<Packet>)
    ensures |r| == |ps| && forall i :: 0 <= i < |ps| ==> r[i] == Received(ps[i], fresh_)
  {
    seq(|ps|, i requires 0 <= i < |ps| => Received(ps[i], fresh_))
  }

  predicate IsNew(fresh_: Packet) { fresh_.body == [] }

  lemma {:induction false} RawValueOfDigits(s: bytes)
    requires AllDigits(s) && DecimalValue(s) < UINT_LIMIT
    ensures RawValue(seq(|s|, i requires 0 <= i < |s| => s[i] - 48)) == DecimalValue(s)
  {
    if s != [] {
      var k := |s| - 1;
      var raw := seq(|s|, i requires 0 <= i < |s| => s[i] - 48);
      RawValueOfDigits(s[..k]);
      assert raw[..k] == seq(k, i requires 0 <= i < k => s[..k][i] - 48);
    }
  }

  lemma RawDigitsValue(n: nat)
    requires n < UINT_LIMIT
    ensures RawValue(RawDigits(n)) == n
    ensures FRAME_END !in RawDigits(n) && |RawDigits(n)| <= 10
  {
    DecimalValueOfDecimal(n);
    RawValueOfDigits(Decimal(n));
    var s := Decimal(n);
    assert RawDigits(n) == seq(|s|, i requires 0 <= i < |s| => s[i] - 48);
    assert Pow10(5) == 100000 && Pow10(10) == 10000000000;
    DecimalLength(n, 10);
  }

  lemma PacketReadsBack(p: Packet, fresh_: Packet)
    requires IsValidPacketType(p.kind) && IsNew(fresh_)
    ensures DecodePacket(PacketText(p), fresh_).1 == Received(p, fresh_)
  {
    var text := PacketText(p);
    assert SignedText(p.kind) == [48 + p.kind];
    assert text[1..] == p.body;
  }

  lemma {:induction false} FrameScanned(data: bytes, i: nat, k: nat, j: nat, fresh_: Packet, packets: seq<Packet>)
    requires j <= i <= k <= |data| && FRAME_END !in data[i..k]
    ensures BinaryFrames(data, i, j, fresh_, packets) == BinaryFrames(data, k, j, fresh_, packets)
    decreases k - i
  {
    if i < k {
      assert data[i] == data[i..k][0] && data[i + 1..k] == data[i..k][1..];
      FrameScanned(data, i + 1, k, j, fresh_, packets);
    }
  }

  lemma FrameParts(data: bytes, j: nat, digits: bytes, text: bytes, rest: bytes)
    requires j <= |data| && data[j..] == [NUL] + digits + [FRAME_END] + text + rest
    ensures var k := j + 1 + |digits|;
            k + 1 + |text| <= |data| && data[k] == FRAME_END && data[j..k] == [NUL] + digits && data[j + 1..k] == digits
            && data[k + 1..k + 1 + |text|] == text && data[k + 1 + |text|..] == rest
  {
    var n := 1 + |digits|;
    var k := j + n;
    assert data[j..|data|] == data[j..];
    assert data[k] == data[j..][n] == FRAME_END;
    SliceOfSlice(data, j, |data|, 0, n);
    SliceOfSlice(data, j, |data|, 1, n);
    SliceOfSlice(data, j, |data|, n + 1, n + 1 + |text|);
    assert data[j..][0..n] == [NUL] + digits && data[j..][1..n] == digits;
    assert data[j..][n + 1..n + 1 + |text|] == text;
    DropDrop(data, j, n + 1 + |text|);
    assert data[j..][n + 1 + |text|..] == rest;
  }

  lemma FrameDecoded(data: bytes, j: nat, p: Packet, rest: bytes, fresh_: Packet, packets: seq<Packet>)
    requires j <= |data| < UINT_LIMIT && data[j..] == Frame(p) + rest && IsValidPacketType(p.kind) && IsNew(fresh_)
    ensures var next := j + |Frame(p)|;
            next <= |data| && data[next..] == rest
            && BinaryFrames(data, j, j, fresh_, packets)
               == BinaryFrames(data, next, next, fresh_, packets + [Received(p, fresh_)])
  {
    hide RawValue, DecodePacket, PacketText, BinaryFrames, Received;
    var text := PacketText(p);
    var digits := RawDigits(|text|);
    var k := j + 1 + |digits|;
    FrameParts(data, j, digits, text, rest);
    RawDigitsValue(|text|);
    FrameScanned(data, j, k, j, fresh_, packets);
    PacketReadsBack(p, fresh_);
    AtFrameEnd(data, k, j, text, fresh_, packets);
  }

  lemma AtFrameEnd(data: bytes, i: nat, j: nat, single: bytes, fresh_: Packet, packets: seq<Packet>)
    requires j < i < |data| < UINT_LIMIT && data[i] == FRAME_END && i - j - 1 <= MAX_LENGTH_CHARS
    requires RawValue(data[j + 1..i]) == |single|
    requires i + 1 + |single| <= |data| && data[i + 1..i + 1 + |single|] == single
    ensures var next := i + 1 + |single|;
            BinaryFrames(data, i, j, fresh_, packets)
            == BinaryFrames(data, next, next, fresh_, packets + [DecodePacket(single, fresh_).1])
  {
    hide RawValue, DecodePacket;
    assert LengthText(data, j, i) == data[j + 1..i];
    assert Substring(data, i + 1, |single|) == single;
  }

  lemma {:induction false} FramesDecoded(data: bytes, j: nat, ps: seq<Packet>, fresh_: Packet, packets: seq<Packet>)
    requires j <= |data| < UINT_LIMIT && data[j..] == Frames(ps) && IsNew(fresh_)
    requires forall i :: 0 <= i < |ps| ==> IsValidPacketType(ps[i].kind)
    ensures BinaryFrames(data, j, j, fresh_, packets) == (true, packets + AllReceived(ps, fresh_))
    decreases |ps|
  {
    hide Frame;
    if ps == [] {
      assert packets + [] == packets;
    } else {
      FrameDecoded(data, j, ps[0], Frames(ps[1..]), fresh_, packets);
      FramesDecoded(data, j + |Frame(ps[0])|, ps[1..], fresh_, packets + [Received(ps[0], fresh_)]);
      assert packets + [Received(ps[0], fresh_)] + AllReceived(ps[1..], fresh_) == packets + AllReceived(ps, fresh_);
    }
  }

  /** Concatenated binary frames decode to their packets in order, whatever bytes the bodies contain;
      only open packets (type 0) arrive as a packet that was never filled in. */
  lemma BinaryPayloadDecodes(ps: seq<Packet>, fresh_: Packet)
    requires |Frames(ps)| < UINT_LIMIT && IsNew(fresh_)
    requires forall i :: 0 <= i < |ps| ==> IsValidPacketType(ps[i].kind)
    ensures BinaryFrames(Frames(ps), 0, 0, fresh_, []) == (true, AllReceived(ps, fresh_))
    ensures !IsTextPayload(Frames(ps))
    ensures (forall i :: 0 <= i < |ps| ==> ps[i].kind != 0) ==> AllReceived(ps, fresh_) == ps
  {
    assert Frames(ps)[0..] == Frames(ps);
    FramesDecoded(Frames(ps), 0, ps, fresh_, []);
    assert [] + AllReceived(ps, fresh_) == AllReceived(ps, fresh_);
    assert ps != [] ==> Frames(ps)[0] == Frame(ps[0])[0] == NUL;
  }

  /** DecodePayload of EncodePayload gives the packets back exactly when there is at most one and it is not an open
      packet (or happens to equal the new packet); of a longer list only the last packet is left. */
  lemma BinaryRoundTrip(ps: seq<Packet>, fresh_: Packet)
    requires |BinaryPayload(ps)| < UINT_LIMIT && IsNew(fresh_)
    requires forall i :: 0 <= i < |ps| ==> IsValidPacketType(ps[i].kind)
    ensures ps != [] ==>
              DecodedPayload(BinaryPayload(ps), fresh_) == (true, [Received(ps[|ps| - 1], fresh_)])
    ensures DecodedPayload(BinaryPayload(ps), fresh_) == (true, ps)
            <==> ps == [] || (|ps| == 1 && (ps[0].kind != 0 || ps[0] == fresh_))
  {
    hide Frame, BinaryFrames;
    if ps == [] {
      BinaryPayloadDecodes([], fresh_);
    } else {
      var last := [ps[|ps| - 1]];
      assert last[1..] == [];
      assert Frames(last) == Frame(last[0]) + [] == Frame(last[0]);
      BinaryPayloadDecodes(last, fresh_);
      assert AllReceived(last, fresh_) == [Received(ps[|ps| - 1], fresh_)];
      if |ps| == 1 {
        assert ps == [ps[0]];
      }
    }
  }

  // ---------- text payloads ----------

  /** 1, 11, 111, ... */
  function Ones(k: nat): nat { if k == 0 then 0 else Ones(k - 1) * 10 + 1 }

  lemma WrapStep(n: nat, c: nat)
    ensures Wrap(Wrap(n) * 10 + c) == Wrap(n * 10 + c)
  {
    var q := n / UINT_LIMIT;
    assert n * 10 + c == (Wrap(n) * 10 + c) + UINT_LIMIT * (10 * q);
    SameRemainder(Wrap(n) * 10 + c, 10 * q);
  }

  lemma SameRemainder(n: nat, q: nat)
    ensures Wrap(n + UINT_LIMIT * q) == Wrap(n)
  {
  }

  /** Reading ASCII digits as raw bytes adds 48 at every decimal place, in 32 bits. */
  lemma {:induction false} RawValueOfText(s: bytes)
    requires AllDigits(s)
    ensures RawValue(s) == Wrap(DecimalValue(s) + 48 * Ones(|s|))
  {
    hide RawValue, DecimalValue, Ones, AllDigits, Wrap;
    if s == [] {
      NoDigitsAtAll();
    } else {
      var k := |s| - 1;
      LastDigit(s);
      RawValueOfText(s[..k]);
      WrapStep(DecimalValue(s[..k]) + 48 * Ones(k), s[k]);
      OnesStep(k);
    }
  }

  lemma NoDigitsAtAll()
    ensures RawValue([]) == 0 == Wrap(DecimalValue([]) + 48 * Ones(0))
  {
  }

  lemma LastDigit(s: bytes)
    requires AllDigits(s) && s != []
    ensures var k := |s| - 1;
            && AllDigits(s[..k]) && IsDigit(s[k])
            && RawValue(s) == Wrap(RawValue(s[..k]) * 10 + s[k])
            && DecimalValue(s) == DecimalValue(s[..k]) * 10 + (s[k] - 48)
  {
    hide Wrap;
  }

  lemma OnesStep(k: nat)
    ensures Ones(k + 1) == Ones(k) * 10 + 1 && Pow10(k + 1) == 10 * Pow10(k)
  {
  }

  lemma OnesUpTo5()
    ensures Ones(1) == 1 && Ones(2) == 11 && Ones(3) == 111 && Ones(4) == 1111 && Ones(5) == 11111
  {
  }

  lemma OnesUpTo10()
    ensures Ones(6) == 111111 && Ones(7) == 1111111 && Ones(8) == 11111111
    ensures Ones(9) == 111111111 && Ones(10) == 1111111111
  {
    OnesUpTo5();
    OnesStep(5);
    OnesStep(6);
    OnesStep(7);
    OnesStep(8);
    OnesStep(9);
  }

  lemma PowersOfTen()
    ensures Pow10(9) == 1_000_000_000 && Pow10(10) == 10_000_000_000
  {
    assert Pow10(4) == 10000;
    assert Pow10(8) == 100_000_000;
  }

  /** The length read is larger than the one written, for all lengths that fit an int. */
  lemma LengthReadTooLarge(n: nat)
    requires 0 < n <= MAX_INT32
    ensures RawValue(Decimal(n)) > n
  {
    hide RawValue, Ones, Pow10, Decimal, Wrap;
    var k := |Decimal(n)|;
    PowersOfTen();
    DecimalLength(n, 10);
    if n < 1_000_000_000 {
      DecimalLength(n, 9);
    }
    RawValueOfText(Decimal(n));
    DecimalValueOfDecimal(n);
    OnesUpTo5();
    OnesUpTo10();
    WrapOnce(n + 48 * Ones(k), if k <= 8 then 0 else if k == 9 then 1 else 12);
  }

  lemma WrapOnce(n: nat, q: nat)
    requires q * UINT_LIMIT <= n < (q + 1) * UINT_LIMIT
    ensures Wrap(n) == n - q * UINT_LIMIT
  {
    SameRemainder(n - q * UINT_LIMIT, q);
  }

  lemma {:induction false} TextScanned(data: bytes, i: nat, k: nat, j: nat, fresh_: Packet, packets: seq<Packet>)
    requires j <= i <= k <= |data| && COLON !in data[i..k]
    ensures TextFrames(data, i, j, fresh_, packets) == TextFrames(data, k, j, fresh_, packets)
    decreases k - i
  {
    if i < k {
      assert data[i] == data[i..k][0] && data[i + 1..k] == data[i..k][1..];
      TextScanned(data, i + 1, k, j, fresh_, packets);
    }
  }

  lemma {:induction false} LeadingDigit(n: nat)
    requires n > 0
    ensures Decimal(n)[0] > 48
  {
    if n >= 10 {
      LeadingDigit(n / 10);
    }
  }

  lemma {:induction false} TextFramesKeep(data: bytes, i: nat, j: nat, fresh_: Packet, packets: seq<Packet>)
    requires j <= i <= |data|
    ensures packets <= TextFrames(data, i, j, fresh_, packets).1
    decreases |data| - i
  {
    hide RawValue, DecodePacket;
    if i < |data| {
      if data[i] != COLON {
        TextFramesKeep(data, i + 1, j, fresh_, packets);
      } else {
        var message := Substring(data, i + 1, RawValue(data[j..i]));
        var next := i + 1 + |message|;
        TextFramesKeep(data, next, next, fresh_, packets);
        TextFramesKeep(data, next, next, fresh_, packets + [DecodePacket(message, fresh_).1]);
      }
    }
  }

  /** A message that starts with the digit of a packet type has the rest of itself as the body, if it is accepted. */
  lemma BodyOfMessage(message: bytes, fresh_: Packet)
    requires message != [] && IsDigit(message[0]) && DecodePacket(message, fresh_).0 && |message| > 1
    ensures DecodePacket(message, fresh_).1.body == message[1..]
  {
  }

  /** The first frame is read with too large a length: it is rejected, or its packet gets a body that is too long. */
  lemma FirstTextFrame(data: bytes, k: nat, n: nat, fresh_: Packet)
    requires 0 < k < |data| - 1 && data[k] == COLON && COLON !in data[0..k] && IsDigit(data[k + 1])
    requires RawValue(data[0..k]) > n > 0
    ensures var r := TextFrames(data, 0, 0, fresh_, []); r.0 ==> r.1 != [] && |r.1[0].body| >= n
  {
    hide RawValue, DecodePacket;
    TextScanned(data, 0, k, 0, fresh_, []);
    var message := Substring(data, k + 1, RawValue(data[0..k]));
    if |message| == RawValue(data[0..k]) && DecodePacket(message, fresh_).0 {
      var packet, next := DecodePacket(message, fresh_).1, k + 1 + |message|;
      assert message[0] == data[k + 1];
      BodyOfMessage(message, fresh_);
      TextFramesKeep(data, next, next, fresh_, [packet]);
      assert [] + [packet] == [packet];
      assert TextFrames(data, k, 0, fresh_, []) == TextFrames(data, next, next, fresh_, [packet]);
    }
  }

  lemma FirstTextParts(p: Packet, rest: bytes)
    requires IsValidPacketType(p.kind)
    ensures var text, digits, data := PacketText(p), Decimal(|PacketText(p)|), TextFrame(p) + rest;
            && |text| == 1 + |p.body| && IsDigit(text[0]) && |data| >= |digits| + 1 + |text|
            && data[0..|digits|] == digits && data[|digits|] == COLON && data[|digits| + 1] == text[0]
            && data[0] > 48 && IsDigit(data[0]) && COLON !in digits
  {
    var digits := Decimal(|PacketText(p)|);
    LeadingDigit(|PacketText(p)|);
    assert (TextFrame(p) + rest)[0] == digits[0];
  }

  /** The server never reads back a text payload of its own, whatever packets it holds. */
  lemma TextPayloadIsRejected(ps: seq<Packet>, fresh_: Packet)
    requires |TextFramesOf(ps)| <= MAX_INT32 && forall i :: 0 <= i < |ps| ==> IsValidPacketType(ps[i].kind)
    ensures DecodedPayload(TextFramesOf(ps), fresh_) == (true, ps) <==> ps == []
  {
    hide RawValue, DecodePacket, TextFrames, TextFrame, PacketText;
    if ps != [] {
      var data, n := TextFramesOf(ps), |PacketText(ps[0])|;
      FirstTextParts(ps[0], TextFramesOf(ps[1..]));
      LengthReadTooLarge(n);
      FirstTextFrame(data, |Decimal(n)|, n, fresh_);
    }
  }
}
