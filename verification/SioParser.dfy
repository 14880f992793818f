/** socketio::Parser: the text form of a socket.io packet. */
module SioParser {
  import opened Bytes
  import opened JsonNumbers

  const TYPE_EVENT := 2
  const TYPE_BINARY_EVENT := 5
  const TYPE_BINARY_ACK := 6
  const ROOT: bytes := [SLASH]
  const MAX_INT := MAX_INT32

  /** The four fields of a packet; a new packet has id -1. */
  datatype Fields = Fields(kind: int, id: int, nsp: bytes, body: bytes)

  class Packet {
    var kind: int
    var id: int
    var nsp: bytes
    var body: bytes

    constructor (uninitializedType: int)
      ensures Contents() == Fields(uninitializedType, -1, [], [])
    {
      kind, id, nsp, body := uninitializedType, -1, [], [];
    }

    function Contents(): Fields
      reads this
    {
      Fields(kind, id, nsp, body)
    }
  }

  /** How decoding ends: the packet, a false return with what was set so far, or StringToInt's exception. */
  datatype Decoding = Decoded(fields: Fields) | Rejected(fields: Fields) | BadId(fields: Fields)

  /** std::string's [] on a byte string, as a signed char; the position after the last one holds a NUL. */
  function CharAt(data: bytes, i: nat): int
    requires i <= |data|
  {
    if i == |data| then 0
    else
      var c: int := data[i];
      if c < 128 then c else c - 256
  }

  /** First position from i on that holds c, or the length. */
  function Find(data: bytes, i: nat, c: byte): (j: nat)
    requires i <= |data|
    ensures i <= j <= |data|
    ensures forall k :: i <= k < j ==> data[k] != c
    ensures j < |data| ==> data[j] == c
    decreases |data| - i
  {
    if i == |data| || data[i] == c then i else Find(data, i + 1, c)
  }

  function DigitRun(data: bytes, i: nat): (j: nat)
    requires i <= |data|
    ensures i <= j <= |data|
    ensures AllDigits(data[i..j])
    ensures j < |data| ==> !IsDigit(data[j])
    decreases |data| - i
  {
    if i < |data| && IsDigit(data[i]) then
      var j := DigitRun(data, i + 1);
      assert data[i..j] == [data[i]] + data[i + 1..j];
      j
    else i
  }

  predicate IsBinary(kind: int) { kind == TYPE_BINARY_EVENT || kind == TYPE_BINARY_ACK }

  /** The part from the id on. */
  function DecodeIdAndBody(data: bytes, i: nat, f: Fields): Decoding
    requires i <= |data|
  {
    var j := DigitRun(data, i);
    if i == j then Decoded(f.(body := data[i..]))
    else if DecimalValue(data[i..j]) > MAX_INT then BadId(f)
    else Decoded(f.(id := DecimalValue(data[i..j]), body := data[j..]))
  }

  /** The part from the namespace on. */
  function DecodeNamespace(data: bytes, i: nat, f: Fields): Decoding
    requires i <= |data|
  {
    if CharAt(data, i) == SLASH then
      var j := Find(data, i + 1, COMMA);
      DecodeIdAndBody(data, j, f.(nsp := data[i..j]))
    else DecodeIdAndBody(data, i, f.(nsp := ROOT))
  }

  /** What DecodeString makes of a text, into a packet that holds f. */
  function Decode(data: bytes, f: Fields): Decoding {
    if data == [] then Rejected(f)
    else
      var g := f.(kind := CharAt(data, 0) - 48);
      if IsBinary(g.kind) then
        var j := Find(data, 1, MINUS);
        if j == |data| then Rejected(g) else DecodeNamespace(data, j + 1, g)
      else DecodeNamespace(data, 1, g)
  }

  method FindFrom(data: bytes, i: nat, c: byte) returns (j: nat)
    requires i <= |data|
    ensures j == Find(data, i, c)
  {
    j := i;
    while j < |data| && data[j] != c
      invariant i <= j <= |data|
      invariant Find(data, j, c) == Find(data, i, c)
    {
      j := j + 1;
    }
  }

  method DecodeString(data: bytes, packet: Packet) returns (ok: bool, threw: bool)
    modifies packet
    ensures match Decode(data, old(packet.Contents()))
            case Decoded(f) => ok && !threw && packet.Contents() == f
            case Rejected(f) => !ok && !threw && packet.Contents() == f
            case BadId(f) => threw && packet.Contents() == f
  {
    var size := |data|;
    if size == 0 {
      return false, false;
    }
    var i := 0;
    packet.kind := CharAt(data, 0) - ZERO;
    i := i + 1;
    if packet.kind == TYPE_BINARY_EVENT || packet.kind == TYPE_BINARY_ACK {
      var j := FindFrom(data, i, MINUS);
      if j == size {
        return false, false;
      }
      // the attachment count data[i..j] is not used
      i := j + 1;
    }
    ok, threw := DecodeRest(data, i, packet);
  }

  method DecodeRest(data: bytes, start: nat, packet: Packet) returns (ok: bool, threw: bool)
    requires start <= |data|
    modifies packet
    ensures match DecodeNamespace(data, start, old(packet.Contents()))
            case Decoded(f) => ok && !threw && packet.Contents() == f
            case Rejected(f) => !ok && !threw && packet.Contents() == f
            case BadId(f) => threw && packet.Contents() == f
  {
    var i := start;
    var size := |data|;
    if CharAt(data, i) == SLASH {
      var j := FindFrom(data, i + 1, COMMA);
      packet.nsp := data[i..j];
      i := j;
    } else {
      packet.nsp := ROOT;
    }
    if i < size && IsDigit(data[i]) {
      var j := DigitsFrom(data, i);
      if DecimalValue(data[i..j]) > MAX_INT {
        return false, true;
      }
      packet.id := DecimalValue(data[i..j]);
      i := j;
    }
    packet.body := data[i..];
    ok, threw := true, false;
  }

  method DigitsFrom(data: bytes, i: nat) returns (j: nat)
    requires i < |data| && IsDigit(data[i])
    ensures j == DigitRun(data, i) && i < j
  {
    j := i + 1;
    while j < |data| && IsDigit(data[j])
      invariant i < j <= |data|
      invariant DigitRun(data, j) == DigitRun(data, i)
    {
      j := j + 1;
    }
  }

  predicate IsRoot(nsp: bytes) { nsp == [] || nsp == ROOT }

  function IdText(id: int): bytes { if id > 0 then Decimal(id) else [] }

  /** What follows the namespace. */
  function Remainder(f: Fields): bytes { IdText(f.id) + f.body }

  function NamespaceText(f: Fields): bytes { if IsRoot(f.nsp) then [] else f.nsp }

  function Separator(f: Fields): bytes { if IsRoot(f.nsp) || Remainder(f) == [] then [] else [COMMA] }

  /** The text of a packet. */
  function Text(f: Fields): bytes {
    SignedText(f.kind) + NamespaceText(f) + Separator(f) + IdText(f.id) + f.body
  }

  method EncodeAsString(packet: Packet, data0: bytes) returns (data: bytes)
    ensures data == data0 + Text(packet.Contents())
  {
    // the text appended so far; data is data0 + text throughout
    var text := SignedText(packet.kind);
    var nsp := packet.nsp;
    var hasNsp := false;
    if nsp != [] && nsp != ROOT {
      text := text + nsp;
      hasNsp := true;
    }
    ghost var f := packet.Contents();
    assert text == SignedText(f.kind) + NamespaceText(f);
    var id := packet.id;
    if id > 0 {
      if hasNsp {
        text := text + [COMMA];
        hasNsp := false;
      }
      text := text + Decimal(id);
    }
    var body := packet.body;
    if body != [] {
      if hasNsp {
        text := text + [COMMA];
      }
      text := text + body;
    }
    data := data0 + text;
  }

  // ---------- decoding an encoded packet ----------

  predicate PlainType(kind: int) { 0 <= kind <= 4 }

  const FRESH := Fields(0, -1, [], [])

  lemma FindAt(data: bytes, i: nat, c: byte, j: nat)
    requires i <= j <= |data| && (forall k :: i <= k < j ==> data[k] != c) && (j < |data| ==> data[j] == c)
    ensures Find(data, i, c) == j
  {
  }

  lemma {:induction false} DigitRunAt(data: bytes, i: nat, j: nat)
    requires i <= j <= |data| && AllDigits(data[i..j]) && (j < |data| ==> !IsDigit(data[j]))
    ensures DigitRun(data, i) == j
    decreases j - i
  {
    if i < j {
      assert data[i] == data[i..j][0] && data[i + 1..j] == data[i..j][1..];
      DigitRunAt(data, i + 1, j);
    }
  }

  /** An id and a body written one after the other come apart again exactly when the body starts with no digit. */
  lemma IdAndBody(data: bytes, i: nat, f: Fields, id: int, body: bytes)
    requires i <= |data| && data[i..] == IdText(id) + body && id <= MAX_INT
    ensures DecodeIdAndBody(data, i, f) == Decoded(f.(id := if id > 0 then id else f.id, body := body))
            <==> (body == [] || !IsDigit(body[0]))
  {
    var digits := IdText(id);
    var j := i + |digits|;
    assert data[i..j] == data[i..][..|digits|] == digits;
    assert data[j..] == data[i..][|digits|..] == body;
    if body == [] || !IsDigit(body[0]) {
      assert j < |data| ==> data[j] == body[0];
      DigitRunAt(data, i, j);
      if id > 0 {
        DecimalValueOfDecimal(id);
      }
    } else {
      assert data[j] == body[0];
      RunGoesOn(data, i, j);
    }
  }

  lemma {:induction false} RunGoesOn(data: bytes, i: nat, j: nat)
    requires i <= j < |data| && AllDigits(data[i..j]) && IsDigit(data[j])
    ensures DigitRun(data, i) > j
    decreases j - i
  {
    if i < j {
      assert data[i] == data[i..j][0] && data[i + 1..j] == data[i..j][1..];
      RunGoesOn(data, i + 1, j);
    }
  }

  /** Everything after the type. */
  function Rest(f: Fields): bytes { NamespaceText(f) + (Separator(f) + Remainder(f)) }

  lemma AfterType(f: Fields)
    requires PlainType(f.kind)
    ensures Text(f) == [48 + f.kind] + Rest(f)
    ensures Decode(Text(f), FRESH) == DecodeNamespace([48 + f.kind] + Rest(f), 1, FRESH.(kind := f.kind))
  {
    hide IdText, NamespaceText, Separator;
    assert SignedText(f.kind) == [48 + f.kind];
    var s, n, c, i := SignedText(f.kind), NamespaceText(f), Separator(f), IdText(f.id);
    calc {
      s + n + c + i + f.body;
      { Associate(s + n + c, i, f.body); }
      s + n + c + (i + f.body);
      { Associate(s + n, c, i + f.body); }
      s + n + (c + (i + f.body));
      { Associate(s, n, c + (i + f.body)); }
      s + (n + (c + (i + f.body)));
    }
  }

  /** The bodies that survive in the root namespace. */
  predicate RootSafe(f: Fields) {
    f.body == [] || (!IsDigit(f.body[0]) && (f.id > 0 || f.body[0] != SLASH))
  }

  /** In the root namespace, decoding the encoded packet gives it back exactly for the RootSafe ones. */
  lemma RootRoundTrip(f: Fields)
    requires PlainType(f.kind) && IsRoot(f.nsp) && f.id <= MAX_INT
    ensures Decode(Text(f), FRESH) == Decoded(Fields(f.kind, if f.id > 0 then f.id else -1, ROOT, f.body))
            <==> RootSafe(f)
  {
    AfterType(f);
    var data, g := [48 + f.kind] + Rest(f), FRESH.(kind := f.kind);
    assert Rest(f) == Remainder(f);
    assert data[1..] == Remainder(f);
    RootNamespaceCases(data, f, g);
  }

  lemma RootNamespaceCases(data: bytes, f: Fields, g: Fields)
    requires data != [] && data[1..] == IdText(f.id) + f.body && f.id <= MAX_INT && g.id == -1
    ensures DecodeNamespace(data, 1, g)
            == Decoded(g.(id := if f.id > 0 then f.id else -1, nsp := ROOT, body := f.body))
            <==> RootSafe(f)
  {
    hide DigitRun, DecimalValue, AllDigits;
    if f.id > 0 {
      assert IsDigit(data[1]) by { FirstDigit(f.id); assert data[1] == data[1..][0] == Decimal(f.id)[0]; }
    } else if f.body != [] {
      assert data[1] == data[1..][0] == f.body[0];
    }
    if CharAt(data, 1) == SLASH {
      // the body is taken for a namespace
      ShorterBody(data, Find(data, 2, COMMA), g.(nsp := data[1..Find(data, 2, COMMA)]));
    } else {
      IdAndBody(data, 1, g.(nsp := ROOT), f.id, f.body);
    }
  }

  lemma FirstDigit(n: nat)
    ensures IsDigit(Decimal(n)[0])
  {
  }

  lemma ShorterBody(data: bytes, i: nat, g: Fields)
    requires i <= |data|
    ensures DecodeIdAndBody(data, i, g).Decoded? ==> |DecodeIdAndBody(data, i, g).fields.body| <= |data| - i
  {
  }

  predicate CleanNamespace(nsp: bytes) { nsp != [] && nsp[0] == SLASH && COMMA !in nsp }

  lemma NamespaceInText(data: bytes, nsp: bytes, after: bytes)
    requires |data| > 0 && data[1..] == nsp + after
    ensures forall k :: 0 <= k < |nsp| ==> data[1 + k] == nsp[k]
    ensures |data| == 1 + |nsp| + |after|
    ensures data[1..1 + |nsp|] == nsp && data[1 + |nsp|..] == after
  {
    assert forall k :: 0 <= k < |nsp| ==> data[1 + k] == data[1..][k] == nsp[k];
    assert data[1..1 + |nsp|] == data[1..][..|nsp|];
    assert data[1 + |nsp|..] == data[1..][|nsp|..];
  }

  lemma CleanNamespaceComesBack(data: bytes, nsp: bytes, after: bytes, g: Fields)
    requires |data| > 0 && data[1..] == nsp + after && CleanNamespace(nsp)
    requires after != [] ==> after[0] == COMMA
    ensures DecodeNamespace(data, 1, g) == Decoded(g.(nsp := nsp, body := after))
  {
    hide Find, DigitRun, DecimalValue, AllDigits;
    NamespaceInText(data, nsp, after);
    var j := 1 + |nsp|;
    assert j < |data| ==> data[j] == data[j..][0] == after[0];
    FindAt(data, 2, COMMA, j);
    NoDigits(data[j..j]);
    assert data[j..j][..0] == data[j..j];
    DigitRunAt(data, j, j);
  }

  lemma OtherNamespaceIsLost(data: bytes, nsp: bytes, after: bytes, g: Fields)
    requires |data| > 0 && data[1..] == nsp + after && !IsRoot(nsp) && !CleanNamespace(nsp)
    ensures DecodeNamespace(data, 1, g).fields.nsp != nsp
  {
    hide DecimalValue, AllDigits, DigitRun;
    NamespaceInText(data, nsp, after);
    if nsp[0] == SLASH {
      var k :| 0 <= k < |nsp| && nsp[k] == COMMA;
      assert Find(data, 2, COMMA) <= 1 + k;
    }
  }

  /** In another namespace, the namespace comes back exactly when it starts with a slash and has no comma;
      whatever follows it then arrives in the body, behind the comma. */
  lemma NamespaceRoundTrip(f: Fields)
    requires PlainType(f.kind) && !IsRoot(f.nsp)
    ensures Decode(Text(f), FRESH)
            == Decoded(Fields(f.kind, -1, f.nsp, if Remainder(f) == [] then [] else [COMMA] + Remainder(f)))
            <==> CleanNamespace(f.nsp)
    ensures Decode(Text(f), FRESH).fields.nsp == f.nsp <==> CleanNamespace(f.nsp)
  {
    AfterType(f);
    var data, g, after := [48 + f.kind] + Rest(f), FRESH.(kind := f.kind), Separator(f) + Remainder(f);
    assert data[1..] == Rest(f) == f.nsp + after;
    assert Remainder(f) == [] ==> after == [];
    if CleanNamespace(f.nsp) {
      CleanNamespaceComesBack(data, f.nsp, after, g);
    } else {
      OtherNamespaceIsLost(data, f.nsp, after, g);
    }
  }

  // ---------- texts that no packet is encoded as ----------

  /** A text is refused if and only if it is empty or of a binary type without a dash behind the attachment count. */
  lemma RejectedIff(data: bytes, f: Fields)
    ensures Decode(data, f).Rejected? <==>
            data == [] || ((data[0] == '5' as int || data[0] == '6' as int) && '-' as int !in data[1..])
  {
    hide DecimalValue, AllDigits;
    if data != [] {
      var j := Find(data, 1, MINUS);
      assert forall k :: 0 <= k < |data| - 1 ==> data[1..][k] == data[k + 1];
      if j < |data| {
        assert data[1..][j - 1] == MINUS;
      }
    }
  }

  function OfType(d: Decoding, kind: int): Decoding {
    match d
    case Decoded(f) => Decoded(f.(kind := kind))
    case Rejected(f) => Rejected(f.(kind := kind))
    case BadId(f) => BadId(f.(kind := kind))
  }

  lemma {:induction false} DigitRunShifts(a: bytes, i: nat, b: bytes, j: nat)
    requires i <= |a| && j <= |b| && a[i..] == b[j..]
    ensures DigitRun(a, i) - i == DigitRun(b, j) - j
    decreases |a| - i
  {
    if i < |a| {
      assert a[i] == a[i..][0] == b[j..][0] == b[j];
      assert a[i + 1..] == a[i..][1..] == b[j..][1..] == b[j + 1..];
      DigitRunShifts(a, i + 1, b, j + 1);
    }
  }

  lemma {:induction false} FindShifts(a: bytes, i: nat, b: bytes, j: nat, c: byte)
    requires i <= |a| && j <= |b| && a[i..] == b[j..]
    ensures Find(a, i, c) - i == Find(b, j, c) - j
    decreases |a| - i
  {
    if i < |a| {
      assert a[i] == a[i..][0] == b[j..][0] == b[j];
      assert a[i + 1..] == a[i..][1..] == b[j..][1..] == b[j + 1..];
      FindShifts(a, i + 1, b, j + 1, c);
    }
  }

  lemma IdShifts(a: bytes, i: nat, b: bytes, j: nat, f: Fields, kind: int)
    requires i <= |a| && j <= |b| && a[i..] == b[j..]
    ensures DecodeIdAndBody(b, j, f.(kind := kind)) == OfType(DecodeIdAndBody(a, i, f), kind)
  {
    hide DecimalValue;
    DigitRunShifts(a, i, b, j);
    var n := DigitRun(a, i) - i;
    assert a[i..i + n] == a[i..][..n] == b[j..][..n] == b[j..j + n];
    assert a[i + n..] == a[i..][n..] == b[j..][n..] == b[j + n..];
  }

  /** Decoding looks at nothing before its cursor. */
  lemma NamespaceShifts(a: bytes, i: nat, b: bytes, j: nat, f: Fields, kind: int)
    requires i <= |a| && j <= |b| && a[i..] == b[j..]
    ensures DecodeNamespace(b, j, f.(kind := kind)) == OfType(DecodeNamespace(a, i, f), kind)
  {
    hide DecodeIdAndBody;
    assert i < |a| ==> a[i] == a[i..][0] == b[j..][0] == b[j];
    if CharAt(a, i) == SLASH {
      assert a[i + 1..] == a[i..][1..] == b[j..][1..] == b[j + 1..];
      FindShifts(a, i + 1, b, j + 1, COMMA);
      var n := Find(a, i + 1, COMMA) - i;
      assert a[i..i + n] == a[i..][..n] == b[j..][..n] == b[j..j + n];
      assert a[i + n..] == a[i..][n..] == b[j..][n..] == b[j + n..];
      IdShifts(a, i + n, b, j + n, f.(nsp := a[i..i + n]), kind);
    } else {
      IdShifts(a, i, b, j, f.(nsp := ROOT), kind);
    }
  }

  /** A packet of a binary type is decoded like an event with the same text behind the attachment count, which is not
      used. */
  lemma AttachmentCountIsSkipped(kind: nat, count: bytes, rest: bytes, f: Fields)
    requires (kind == 5 || kind == 6) && MINUS !in count
    ensures Decode(['0' as int + kind] + count + [MINUS] + rest, f) == OfType(Decode(['2' as int] + rest, f), kind)
  {
    hide DecodeNamespace;
    var data: bytes, plain: bytes := ['0' as int + kind] + count + [MINUS] + rest, ['2' as int] + rest;
    assert data[1..1 + |count|] == count;
    FindAt(data, 1, MINUS, 1 + |count|);
    assert data[|count| + 2..] == rest == plain[1..];
    NamespaceShifts(plain, 1, data, |count| + 2, f.(kind := 2), kind);
    assert f.(kind := 2).(kind := kind) == f.(kind := kind);
  }

  /** In the root namespace StringToInt throws if and only if the id is larger than the largest int. */
  lemma IdTooLarge(kind: nat, digits: bytes, body: bytes, f: Fields)
    requires kind <= 4 && digits != [] && AllDigits(digits) && (body == [] || !IsDigit(body[0]))
    ensures Decode(['0' as int + kind] + digits + body, f).BadId? <==> DecimalValue(digits) > 2147483647
  {
    var data: bytes := ['0' as int + kind] + digits + body;
    var j := 1 + |digits|;
    assert data[1..j] == digits;
    assert j < |data| ==> data[j] == body[0];
    assert data[1] == digits[0];
    DigitRunAt(data, 1, j);
  }
}
