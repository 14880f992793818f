/** The JSON string codec: valueToQuotedStringN and valueToQuotedString, decodeString, codePointToUTF8. */
module JsonStrings {
  import opened Bytes
  import opened JsonNumbers

  datatype StringError =
    | EmptyEscape
    | BadEscape
    | FourDigitsExpected
    | HexDigitExpected
    | SurrogateTooShort
    | SurrogateExpected

  datatype Decoded = Text(text: bytes) | Malformed(error: StringError)

  // ---------- printing ----------

  // ch > 0 && ch <= 0x1F; bytes above 0x7F are negative chars in the source and not control characters either
  predicate IsControlCharacter(c: byte) { 0 < c <= 0x1F }

  const QUOTED_SPECIALS: bytes :=
    [QUOTE, BACKSLASH, BACKSPACE, FORM_FEED, NEWLINE, RETURN, TAB]

  function UpperHex(d: nat): byte
    requires d < 16
  {
    if d < 10 then 48 + d else 55 + d
  }

  /** How one byte of a string is written between the quotes. */
  function EscapeByte(c: byte): bytes {
    if c == QUOTE then [BACKSLASH, QUOTE]
    else if c == BACKSLASH then [BACKSLASH, BACKSLASH]
    else if c == BACKSPACE then [BACKSLASH, LOWER_B]
    else if c == FORM_FEED then [BACKSLASH, LOWER_F]
    else if c == NEWLINE then [BACKSLASH, LOWER_N]
    else if c == RETURN then [BACKSLASH, LOWER_R]
    else if c == TAB then [BACKSLASH, LOWER_T]
    else if IsControlCharacter(c) || c == NUL then
      [BACKSLASH, LOWER_U, ZERO, ZERO, UpperHex(c / 16), UpperHex(c % 16)]
    else [c]
  }

  function Escaped(s: bytes): bytes {
    if s == [] then [] else EscapeByte(s[0]) + Escaped(s[1..])
  }

  function Quoted(s: bytes): bytes { [QUOTE] + Escaped(s) + [QUOTE] }

  predicate NeedsEscape(c: byte) { EscapeByte(c) != [c] }

  lemma {:induction false} NothingToEscape(s: bytes)
    requires forall i :: 0 <= i < |s| ==> !NeedsEscape(s[i])
    ensures Escaped(s) == s
  {
    if s != [] {
      assert s[0] == s[0];
      NothingToEscape(s[1..]);
      assert s == [s[0]] + s[1..];
    }
  }

  /** strnpbrk, of which the callers only ask whether it found anything. */
  method StrNPBrk(s: bytes, accept: bytes) returns (found: bool)
    ensures found <==> exists i :: 0 <= i < |s| && s[i] in accept
  {
    for cur := 0 to |s|
      invariant forall i :: 0 <= i < cur ==> s[i] !in accept
    {
      for a := 0 to |accept|
        invariant s[cur] !in accept[..a]
      {
        if accept[a] == s[cur] {
          return true;
        }
        assert accept[..a + 1] == accept[..a] + [accept[a]];
      }
      assert accept[..|accept|] == accept;
    }
    found := false;
  }

  /** containsControlCharacter0 */
  method ContainsControlCharacter0(s: bytes) returns (found: bool)
    ensures found <==> exists i :: 0 <= i < |s| && (IsControlCharacter(s[i]) || s[i] == NUL)
  {
    for k := 0 to |s|
      invariant forall i :: 0 <= i < k ==> !(IsControlCharacter(s[i]) || s[i] == NUL)
    {
      if IsControlCharacter(s[k]) || s[k] == NUL {
        return true;
      }
    }
    found := false;
  }

  /** The escaping loop the two quoting functions share. */
  method EscapeAll(value: bytes) returns (result: bytes)
    ensures result == Quoted(value)
  {
    hide Escaped, EscapeByte;
    result := [QUOTE];
    assert value[0..] == value;
    for k := 0 to |value|
      invariant result + Escaped(value[k..]) == [QUOTE] + Escaped(value)
    {
      EscapedStep(value, k);
      Associate(result, EscapeByte(value[k]), Escaped(value[k + 1..]));
      result := result + EscapeByte(value[k]);
    }
    assert Escaped(value[|value|..]) == [] by { EscapedEnd(value); }
    result := result + [QUOTE];
  }

  lemma EscapedEnd(value: bytes)
    ensures Escaped(value[|value|..]) == []
  {
  }

  lemma EscapedStep(value: bytes, k: nat)
    requires k < |value|
    ensures Escaped(value[k..]) == EscapeByte(value[k]) + Escaped(value[k + 1..])
  {
    hide EscapeByte;
    assert value[k..][1..] == value[k + 1..];
  }

  /** valueToQuotedStringN: value is followed by a terminating NUL in memory. */
  method ValueToQuotedStringN(value: bytes) returns (result: bytes)
    ensures result == Quoted(value)
  {
    var special := StrNPBrk(value, QUOTED_SPECIALS);
    var control := ContainsControlCharacter0(value);
    if !special && !control {
      // the source concatenates value as a C string here
      result := [QUOTE] + CString(value + [NUL]) + [QUOTE];
      assert forall i :: 0 <= i < |value| ==> !NeedsEscape(value[i]);
      NothingToEscape(value);
      assert value + [NUL] + [] == value + [NUL];
      CStringStopsAtNul(value, []);
    } else {
      result := EscapeAll(value);
    }
  }

  /** valueToQuotedString on name.c_str(): everything from the first NUL on is lost. */
  method ValueToQuotedString(name: bytes) returns (result: bytes)
    ensures result == Quoted(CString(name))
  {
    var value := CString(name);
    var special := StrNPBrk(value, QUOTED_SPECIALS);
    var control := ContainsControlCharacter0(value);
    if !special && !control {
      result := [QUOTE] + value + [QUOTE];
      assert forall i :: 0 <= i < |value| ==> !NeedsEscape(value[i]);
      NothingToEscape(value);
    } else {
      result := EscapeAll(value);
    }
  }

  // ---------- reading ----------

  predicate IsHexDigit(c: byte) { 48 <= c <= 57 || 97 <= c <= 102 || 65 <= c <= 70 }

  function HexDigitValue(c: byte): (d: nat)
    requires IsHexDigit(c)
    ensures d < 16
  {
    if c <= 57 then c - 48 else if c >= 97 then c - 87 else c - 55
  }

  predicate AllHex(s: bytes) { forall i :: 0 <= i < |s| ==> IsHexDigit(s[i]) }

  function HexValue(s: bytes): nat
    requires AllHex(s)
  {
    if s == [] then 0 else HexValue(s[..|s| - 1]) * 16 + HexDigitValue(s[|s| - 1])
  }

  /** decodeUnicodeEscapeSequence: four hexadecimal digits at the cursor. */
  method DecodeUnicodeEscapeSequence(doc: bytes, current: nat, end: nat)
    returns (error: StringError, ok: bool, unicode: nat)
    requires current <= end <= |doc|
    ensures ok <==> current + 4 <= end && AllHex(doc[current..current + 4])
    ensures ok ==> unicode == HexValue(doc[current..current + 4]) && unicode < 0x10000
    ensures !ok ==> error == if end - current < 4 then FourDigitsExpected else HexDigitExpected
  {
    unicode := 0;
    if end - current < 4 {
      return FourDigitsExpected, false, 0;
    }
    hide AllHex, HexValue, IsHexDigit, HexDigitValue;
    error := HexDigitExpected;
    NoHexDigits(doc[current..current]);
    for index := 0 to 4
      invariant AllHex(doc[current..current + index])
      invariant unicode == HexValue(doc[current..current + index])
    {
      HexStep(doc, current, index);
      var c := doc[current + index];
      if !IsHexDigit(c) {
        return HexDigitExpected, false, unicode;
      }
      unicode := unicode * 16 + HexDigitValue(c);
    }
    HexValueBound(doc[current..current + 4]);
    ok := true;
  }

  lemma NoHexDigits(s: bytes)
    requires s == []
    ensures AllHex(s) && HexValue(s) == 0
  {
  }

  /** One turn of the loop, on the digits read so far. */
  lemma HexStep(doc: bytes, current: nat, index: nat)
    requires index < 4 && current + 4 <= |doc| && AllHex(doc[current..current + index])
    ensures var c, longer := doc[current + index], doc[current..current + index + 1];
            if IsHexDigit(c) then
              AllHex(longer) && HexValue(longer) == HexValue(doc[current..current + index]) * 16 + HexDigitValue(c)
            else !AllHex(doc[current..current + 4])
  {
    hide IsHexDigit, HexDigitValue;
    var c, longer := doc[current + index], doc[current..current + index + 1];
    assert c == doc[current..current + 4][index];
    assert longer == doc[current..current + index] + [c];
    assert longer[..index] == doc[current..current + index];
  }

  datatype CodePoint = CodePoint(value: nat, used: nat) | BadCodePoint(error: StringError)

  predicate IsHighSurrogate(u: nat) { 0xD800 <= u <= 0xDBFF }

  predicate HexPrefix(s: bytes) { |s| >= 4 && AllHex(s[..4]) }

  function HexError(s: bytes): StringError {
    if |s| < 4 then FourDigitsExpected else HexDigitExpected
  }

  /** What follows a backslash-u: one escape, or two that form a surrogate pair. */
  function CodePointMeaning(s: bytes): (r: CodePoint)
    ensures r.CodePoint? ==> r.used <= |s| && r.value <= 0x10FFFF
  {
    if !HexPrefix(s) then BadCodePoint(HexError(s))
    else
      HexValueBound(s[..4]);
      var u := HexValue(s[..4]);
      if !IsHighSurrogate(u) then CodePoint(u, 4)
      else if |s| < 10 then BadCodePoint(SurrogateTooShort)
      else if s[4] != BACKSLASH || s[5] != LOWER_U then BadCodePoint(SurrogateExpected)
      else if !HexPrefix(s[6..]) then BadCodePoint(HexError(s[6..]))
      else CodePoint(0x10000 + u % 0x400 * 0x400 + HexValue(s[6..][..4]) % 0x400, 10)
  }

  lemma HexValueBound(s: bytes)
    requires |s| == 4 && AllHex(s)
    ensures HexValue(s) < 0x10000
    ensures HexValue(s) == ((HexDigitValue(s[0]) * 16 + HexDigitValue(s[1])) * 16
                            + HexDigitValue(s[2])) * 16 + HexDigitValue(s[3])
  {
    assert s[..3][..2] == s[..2] && s[..2][..1] == s[..1] && s[..1][..0] == [];
    assert HexValue(s[..1]) == HexDigitValue(s[0]);
    assert HexValue(s[..2]) == HexValue(s[..1]) * 16 + HexDigitValue(s[1]);
    assert HexValue(s[..3]) == HexValue(s[..2]) * 16 + HexDigitValue(s[2]);
  }

  /** decodeUnicodeCodePoint */
  method DecodeUnicodeCodePoint(doc: bytes, start: nat, end: nat)
    returns (r: CodePoint)
    requires start <= end <= |doc|
    ensures r == CodePointMeaning(doc[start..end])
  {
    ghost var s := doc[start..end];
    var current := start;
    var error, ok, unicode := DecodeUnicodeEscapeSequence(doc, current, end);
    if current + 4 <= end {
      assert s[..4] == doc[current..current + 4];
    }
    if !ok {
      return BadCodePoint(error);
    }
    current := current + 4;
    if unicode >= 0xD800 && unicode <= 0xDBFF {
      if end - current < 6 {
        return BadCodePoint(SurrogateTooShort);
      }
      if doc[current] == BACKSLASH && doc[current + 1] == LOWER_U {
        current := current + 2;
        var surrogatePair;
        assert s[6..][..4] == doc[current..current + 4] == s[6..10];
        error, ok, surrogatePair := DecodeUnicodeEscapeSequence(doc, current, end);
        if !ok {
          return BadCodePoint(error);
        }
        current := current + 4;
        unicode := 0x10000 + unicode % 0x400 * 0x400 + surrogatePair % 0x400;
      } else {
        return BadCodePoint(SurrogateExpected);
      }
    }
    r := CodePoint(unicode, current - start);
  }

  /** codePointToUTF8, with the masks and shifts written as remainders and quotients. */
  function CodePointToUTF8(cp: nat): bytes {
    if cp <= 0x7F then [cp]
    else if cp <= 0x7FF then [0xC0 + cp / 0x40 % 0x20, 0x80 + cp % 0x40]
    else if cp <= 0xFFFF then [0xE0 + cp / 0x1000 % 0x10, 0x80 + cp / 0x40 % 0x40, 0x80 + cp % 0x40]
    else if cp <= 0x10FFFF then
      [0xF0 + cp / 0x40000 % 8, 0x80 + cp / 0x1000 % 0x40, 0x80 + cp / 0x40 % 0x40, 0x80 + cp % 0x40]
    else []
  }

  function Prepend(s: bytes, r: Decoded): Decoded {
    if r.Text? then Text(s + r.text) else r
  }

  /** The single-character escapes; none for 'u' and for anything unknown. */
  function SimpleEscape(c: byte): bytes {
    if c == QUOTE || c == SLASH || c == BACKSLASH then [c]
    else if c == LOWER_B then [BACKSPACE]
    else if c == LOWER_F then [FORM_FEED]
    else if c == LOWER_N then [NEWLINE]
    else if c == LOWER_R then [RETURN]
    else if c == LOWER_T then [TAB]
    else []
  }

  datatype Escape = Escape(text: bytes, used: nat) | NotAnEscape(error: StringError)

  /** What follows a backslash: the bytes it stands for and how many bytes it takes. */
  function EscapeMeaning(s: bytes): (e: Escape)
    ensures e.Escape? ==> 0 < e.used <= |s|
  {
    if s == [] then NotAnEscape(EmptyEscape)
    else if s[0] == LOWER_U then
      match CodePointMeaning(s[1..])
      case BadCodePoint(error) => NotAnEscape(error)
      case CodePoint(cp, used) => Escape(CodePointToUTF8(cp), 1 + used)
    else if SimpleEscape(s[0]) == [] then NotAnEscape(BadEscape)
    else Escape(SimpleEscape(s[0]), 1)
  }

  /** The text the inside of a string token stands for. */
  function Unescape(s: bytes): Decoded {
    if s == [] || s[0] == QUOTE then Text([])
    else if s[0] != BACKSLASH then Prepend([s[0]], Unescape(s[1..]))
    else
      match EscapeMeaning(s[1..])
      case NotAnEscape(error) => Malformed(error)
      case Escape(text, used) => Prepend(text, Unescape(s[1 + used..]))
  }

  /** The escape branch of decodeString. */
  method DecodeEscape(doc: bytes, current: nat, end: nat) returns (e: Escape)
    requires current <= end <= |doc|
    ensures e == EscapeMeaning(doc[current..end])
  {
    hide CodePointMeaning, CodePointToUTF8;
    ghost var s := doc[current..end];
    if current == end {
      return NotAnEscape(EmptyEscape);
    }
    var escape := doc[current];
    assert s[1..] == doc[current + 1..end];
    if escape == LOWER_U {
      var cp := DecodeUnicodeCodePoint(doc, current + 1, end);
      if cp.BadCodePoint? {
        return NotAnEscape(cp.error);
      }
      e := Escape(CodePointToUTF8(cp.value), 1 + cp.used);
    } else if SimpleEscape(escape) != [] {
      e := Escape(SimpleEscape(escape), 1);
    } else {
      e := NotAnEscape(BadEscape);
    }
  }

  lemma PrependLaws(s: bytes, r: Decoded)
    ensures Prepend([], r) == r
    ensures r.Malformed? ==> Prepend(s, r) == r
  {
  }

  lemma UnescapeStops(rest: bytes, decoded: bytes)
    requires rest == [] || rest[0] == QUOTE
    ensures Prepend(decoded, Unescape(rest)) == Text(decoded)
  {
  }

  lemma PrependTwice(s: bytes, t: bytes, r: Decoded)
    ensures Prepend(s + t, r) == Prepend(s, Prepend(t, r))
  {
    if r.Text? {
      assert s + t + r.text == s + (t + r.text);
    }
  }

  lemma UnescapeStep(doc: bytes, current: nat, last: nat)
    requires current < last <= |doc| && doc[current] != QUOTE
    ensures doc[current] != BACKSLASH ==>
              Unescape(doc[current..last]) == Prepend([doc[current]], Unescape(doc[current + 1..last]))
    ensures doc[current] == BACKSLASH ==>
              match EscapeMeaning(doc[current + 1..last])
              case NotAnEscape(error) => Unescape(doc[current..last]) == Malformed(error)
              case Escape(text, used) =>
                Unescape(doc[current..last]) == Prepend(text, Unescape(doc[current + 1 + used..last]))
  {
    hide EscapeMeaning;
    var rest := doc[current..last];
    assert rest[1..] == doc[current + 1..last];
    var e := EscapeMeaning(rest[1..]);
    if doc[current] == BACKSLASH && e.Escape? {
      assert rest[1 + e.used..] == doc[current + 1 + e.used..last];
    }
  }

  /** decodeString on the token that occupies doc[start..end], quotes included. */
  method DecodeString(doc: bytes, start: nat, end: nat) returns (r: Decoded)
    requires start + 2 <= end <= |doc|
    ensures r == Unescape(doc[start + 1..end - 1])
  {
    hide EscapeMeaning, Unescape, Prepend;
    var decoded: bytes := [];
    var current, last := start + 1, end - 1;
    ghost var whole := Unescape(doc[start + 1..last]);
    PrependLaws([], whole);
    while current != last
      invariant start + 1 <= current <= last
      invariant whole == Prepend(decoded, Unescape(doc[current..last]))
      decreases last - current
    {
      var c := doc[current];
      if c == QUOTE {
        break;
      }
      UnescapeStep(doc, current, last);
      current := current + 1;
      if c == BACKSLASH {
        var escape := DecodeEscape(doc, current, last);
        if escape.NotAnEscape? {
          PrependLaws(decoded, Malformed(escape.error));
          return Malformed(escape.error);
        }
        current := current + escape.used;
        PrependTwice(decoded, escape.text, Unescape(doc[current..last]));
        decoded := decoded + escape.text;
      } else {
        PrependTwice(decoded, [c], Unescape(doc[current..last]));
        decoded := decoded + [c];
      }
    }
    UnescapeStops(doc[current..last], decoded);
    r := Text(decoded);
  }

  // ---------- round trip ----------

  lemma EscapedByteReadsBack(c: byte, rest: bytes)
    ensures Unescape(EscapeByte(c) + rest) == Prepend([c], Unescape(rest))
  {
    var e := EscapeByte(c);
    var s := e + rest;
    assert s[|e|..] == rest;
    if |e| == 6 {
      assert s[1..][1..] == s[2..] && s[2..][..4] == e[2..];
      HexValueBound(e[2..]);
      assert s[1 + 5..] == rest;
      assert CodePointMeaning(s[2..]) == CodePoint(c, 4);
    } else if |e| == 2 {
      assert s[1..][0] == e[1] && s[1 + 1..] == rest;
    }
  }

  /** Whatever bytes a string holds, reading its printed form gives them back. */
  lemma {:induction false} EscapedReadsBack(s: bytes)
    ensures Unescape(Escaped(s)) == Text(s)
  {
    if s != [] {
      EscapedByteReadsBack(s[0], Escaped(s[1..]));
      EscapedReadsBack(s[1..]);
      assert [s[0]] + s[1..] == s;
    }
  }

  lemma QuotedInjective(s: bytes, t: bytes)
    requires Quoted(s) == Quoted(t)
    ensures s == t
  {
    assert Escaped(s) == Quoted(s)[1..|Quoted(s)| - 1] == Quoted(t)[1..|Quoted(t)| - 1] == Escaped(t);
    EscapedReadsBack(s);
    EscapedReadsBack(t);
  }

  /** A code point outside the high surrogates, written as one escape in either letter case, becomes its UTF-8 form. */
  lemma EscapedCodePoint(hex: bytes, rest: bytes)
    requires |hex| == 4 && AllHex(hex) && !IsHighSurrogate(HexValue(hex))
    ensures Unescape([BACKSLASH, LOWER_U] + hex + rest) == Prepend(CodePointToUTF8(HexValue(hex)), Unescape(rest))
  {
    var s := [BACKSLASH, LOWER_U] + hex + rest;
    assert s[1..][1..] == s[2..] && s[2..][..4] == hex;
    assert s[1 + 5..] == rest;
  }

  lemma SurrogateArithmetic(cp: nat)
    requires 0x10000 <= cp <= 0x10FFFF
    ensures var high, low := 0xD800 + (cp - 0x10000) / 0x400, 0xDC00 + (cp - 0x10000) % 0x400;
            IsHighSurrogate(high) && 0x10000 + high % 0x400 * 0x400 + low % 0x400 == cp
  {
    var k, l := (cp - 0x10000) / 0x400, (cp - 0x10000) % 0x400;
    assert k < 0x400 && l < 0x400;
    assert (0xD800 + k) % 0x400 == k;
    assert (0xDC00 + l) % 0x400 == l;
  }

  lemma SurrogatePairMeaning(cp: nat, high: bytes, low: bytes, rest: bytes)
    requires 0x10000 <= cp <= 0x10FFFF
    requires |high| == 4 && AllHex(high) && HexValue(high) == 0xD800 + (cp - 0x10000) / 0x400
    requires |low| == 4 && AllHex(low) && HexValue(low) == 0xDC00 + (cp - 0x10000) % 0x400
    ensures CodePointMeaning(high + [BACKSLASH, LOWER_U] + low + rest) == CodePoint(cp, 10)
  {
    hide HexValue, HexDigitValue;
    var after := high + [BACKSLASH, LOWER_U] + low + rest;
    assert after[..4] == high;
    assert after[6..][..4] == low;
    SurrogateArithmetic(cp);
  }

  /** A supplementary code point written as its UTF-16 surrogate pair becomes its four-byte UTF-8 form. */
  lemma EscapedSurrogatePair(cp: nat, high: bytes, low: bytes, rest: bytes)
    requires 0x10000 <= cp <= 0x10FFFF
    requires |high| == 4 && AllHex(high) && HexValue(high) == 0xD800 + (cp - 0x10000) / 0x400
    requires |low| == 4 && AllHex(low) && HexValue(low) == 0xDC00 + (cp - 0x10000) % 0x400
    ensures Unescape([BACKSLASH, LOWER_U] + high + [BACKSLASH, LOWER_U] + low + rest)
            == Prepend(CodePointToUTF8(cp), Unescape(rest))
  {
    hide CodePointMeaning, CodePointToUTF8, HexValue, HexDigitValue;
    var after := high + [BACKSLASH, LOWER_U] + low + rest;
    var s := [BACKSLASH, LOWER_U] + after;
    assert s == [BACKSLASH, LOWER_U] + high + [BACKSLASH, LOWER_U] + low + rest;
    assert s[1..][1..] == after && s[1 + 11..] == rest;
    SurrogatePairMeaning(cp, high, low, rest);
  }
}
