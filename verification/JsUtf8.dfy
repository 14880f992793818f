/** The client's UTF-8 codec (utf8.js): UTF-16 strings to byte strings and back.
    Masks and shifts of the source are written as remainders and quotients. */
module JsUtf8 {
  import Bytes
  import opened Sequences

  // a UTF-16 code unit, what charCodeAt returns
  type unit = u: int | 0 <= u < 0x10000
  type jstring = seq<unit>

  predicate IsHigh(u: nat) { 0xD800 <= u <= 0xDBFF }

  predicate IsLow(u: nat) { 0xDC00 <= u <= 0xDFFF }

  predicate IsSurrogate(u: nat) { 0xD800 <= u <= 0xDFFF }

  predicate IsScalar(cp: nat) { cp <= 0x10FFFF && !IsSurrogate(cp) }

  ghost predicate AllScalar(cps: seq<nat>) { forall i :: 0 <= i < |cps| ==> IsScalar(cps[i]) }

  /** RFC 2781: every surrogate belongs to a pair, high before low. */
  predicate WellFormed16(s: jstring) {
    s == [] || (if IsHigh(s[0]) then |s| > 1 && IsLow(s[1]) && WellFormed16(s[2..])
                else !IsLow(s[0]) && WellFormed16(s[1..]))
  }

  // ---------- the octet syntax of RFC 3629, section 4 ----------

  predicate IsByteString(s: jstring) { forall i :: 0 <= i < |s| ==> s[i] < 0x100 }

  predicate IsTail(u: unit) { 0x80 <= u <= 0xBF }

  /** Length of the UTF8-char at the front of b, 0 when there is none. */
  function CharLength(b: jstring): (n: nat)
    ensures n <= |b| && n <= 4
  {
    if |b| >= 1 && b[0] <= 0x7F then 1
    else if |b| >= 2 && 0xC2 <= b[0] <= 0xDF && IsTail(b[1]) then 2
    else if |b| >= 3 && IsTail(b[2])
            && ((b[0] == 0xE0 && 0xA0 <= b[1] <= 0xBF) || (0xE1 <= b[0] <= 0xEC && IsTail(b[1]))
                || (b[0] == 0xED && 0x80 <= b[1] <= 0x9F) || (0xEE <= b[0] <= 0xEF && IsTail(b[1]))) then 3
    else if |b| >= 4 && IsTail(b[2]) && IsTail(b[3])
            && ((b[0] == 0xF0 && 0x90 <= b[1] <= 0xBF) || (0xF1 <= b[0] <= 0xF3 && IsTail(b[1]))
                || (b[0] == 0xF4 && 0x80 <= b[1] <= 0x8F)) then 4
    else 0
  }

  predicate WellFormed8(b: jstring) {
    b == [] || (CharLength(b) > 0 && WellFormed8(b[CharLength(b)..]))
  }

  // ---------- ucs2decode and ucs2encode ----------

  function PairValue(high: nat, low: nat): nat { high % 0x400 * 0x400 + low % 0x400 + 0x10000 }

  /** Pairs become supplementary code points, everything else stays, lone surrogates included. */
  function CodePoints(s: jstring): seq<nat> {
    if s == [] then []
    else if IsHigh(s[0]) && |s| > 1 && IsLow(s[1]) then [PairValue(s[0], s[1])] + CodePoints(s[2..])
    else [s[0]] + CodePoints(s[1..])
  }

  method Ucs2Decode(s: jstring) returns (output: seq<nat>)
    ensures output == CodePoints(s)
  {
    hide CodePoints, PairValue;
    output := [];
    var counter := 0;
    assert s[0..] == s;
    while counter < |s|
      invariant 0 <= counter <= |s|
      invariant output + CodePoints(s[counter..]) == CodePoints(s)
      decreases |s| - counter
    {
      CodePointsStep(s, counter);
      var value := s[counter];
      counter := counter + 1;
      if value >= 0xD800 && value <= 0xDBFF && counter < |s| {
        var extra := s[counter];
        counter := counter + 1;
        if extra / 0x400 * 0x400 == 0xDC00 {
          output := output + [PairValue(value, extra)];
        } else {
          output := output + [value];
          counter := counter - 1;
        }
      } else {
        output := output + [value];
      }
    }
    assert s[counter..] == [];
    NoCodePoints();
  }

  lemma NoCodePoints()
    ensures CodePoints([]) == []
  {
  }

  lemma CodePointsStep(s: jstring, i: nat)
    requires i < |s|
    ensures CodePoints(s[i..])
            == if IsHigh(s[i]) && i + 1 < |s| && IsLow(s[i + 1])
               then [PairValue(s[i], s[i + 1])] + CodePoints(s[i + 2..])
               else [s[i]] + CodePoints(s[i + 1..])
  {
    var rest := s[i..];
    assert rest[1..] == s[i + 1..];
    if i + 1 < |s| {
      assert rest[2..] == s[i + 2..];
    }
  }

  function Units(cp: nat): jstring
    requires cp <= 0x10FFFF
  {
    if cp > 0xFFFF then [(cp - 0x10000) / 0x400 % 0x400 + 0xD800, 0xDC00 + (cp - 0x10000) % 0x400] else [cp]
  }

  function Utf16(cps: seq<nat>): jstring
    requires forall i :: 0 <= i < |cps| ==> cps[i] <= 0x10FFFF
  {
    if cps == [] then [] else Units(cps[0]) + Utf16(cps[1..])
  }

  method Ucs2Encode(array_: seq<nat>) returns (output: jstring)
    requires forall i :: 0 <= i < |array_| ==> array_[i] <= 0x10FFFF
    ensures output == Utf16(array_)
  {
    output := [];
    assert array_[0..] == array_;
    for index := 0 to |array_|
      invariant output + Utf16(array_[index..]) == Utf16(array_)
    {
      assert array_[index..][1..] == array_[index + 1..];
      var value := array_[index];
      var symbol := [];
      if value > 0xFFFF {
        value := value - 0x10000;
        symbol := [value / 0x400 % 0x400 + 0xD800];
        value := 0xDC00 + value % 0x400;
      }
      symbol := symbol + [value];
      UnitsAppended(output, array_[index..], symbol);
      output := output + symbol;
    }
  }

  lemma UnitsAppended(output: jstring, cps: seq<nat>, symbol: jstring)
    requires cps != [] && forall i :: 0 <= i < |cps| ==> cps[i] <= 0x10FFFF
    requires symbol == Units(cps[0])
    ensures output + Utf16(cps) == (output + symbol) + Utf16(cps[1..])
  {
    hide Units;
    Bytes.Associate(output, symbol, Utf16(cps[1..]));
  }

  // ---------- encoding ----------

  /** checkScalarValue throws on a surrogate. */
  predicate CheckScalarValue(cp: nat) { !IsSurrogate(cp) }

  function CreateByte(cp: nat, shift: nat): unit
    requires shift > 0
  {
    cp / shift % 0x40 + 0x80
  }

  /** encodeCodePoint; None stands for the exception. */
  function EncodeCodePoint(cp: nat): Option<jstring> {
    if cp < 0x80 then Some([cp])
    else if cp < 0x800 then Some([cp / 0x40 % 0x20 + 0xC0, CreateByte(cp, 1)])
    else if cp < 0x10000 then
      if CheckScalarValue(cp) then Some([cp / 0x1000 % 0x10 + 0xE0, CreateByte(cp, 0x40), CreateByte(cp, 1)]) else None
    else if cp < 0x200000 then
      Some([cp / 0x40000 % 8 + 0xF0, CreateByte(cp, 0x1000), CreateByte(cp, 0x40), CreateByte(cp, 1)])
    else Some([CreateByte(cp, 1)])
  }

  function EncodeAll(cps: seq<nat>): Option<jstring> {
    if cps == [] then Some([])
    else
      var first, rest := EncodeCodePoint(cps[0]), EncodeAll(cps[1..]);
      if first.Some? && rest.Some? then Some(first.value + rest.value) else None
  }

  /** What utf8encode returns; None stands for the exception. */
  function Encode(s: jstring): Option<jstring> { EncodeAll(CodePoints(s)) }

  method Utf8Encode(s: jstring) returns (r: Option<jstring>)
    ensures r == Encode(s)
  {
    hide EncodeCodePoint;
    var codePoints := Ucs2Decode(s);
    var byteString: jstring := [];
    assert codePoints[0..] == codePoints;
    assert Encode(s).Some? ==> [] + Encode(s).value == Encode(s).value;
    for index := 0 to |codePoints|
      invariant Encode(s) == Prefixed(byteString, EncodeAll(codePoints[index..]))
    {
      assert codePoints[index..][1..] == codePoints[index + 1..];
      var symbol := EncodeCodePoint(codePoints[index]);
      EncodedAppended(byteString, codePoints[index..]);
      if symbol.None? {
        return None;
      }
      byteString := byteString + symbol.value;
    }
    assert codePoints[|codePoints|..] == [] && byteString + [] == byteString;
    r := Some(byteString);
  }

  lemma EncodedAppended(s: jstring, cps: seq<nat>)
    requires cps != []
    ensures var first := EncodeCodePoint(cps[0]);
            Prefixed(s, EncodeAll(cps)) == if first.Some? then Prefixed(s + first.value, EncodeAll(cps[1..])) else None
  {
    hide EncodeCodePoint;
    var first, rest := EncodeCodePoint(cps[0]), EncodeAll(cps[1..]);
    if first.Some? && rest.Some? {
      Bytes.Associate(s, first.value, rest.value);
    }
  }

  function Prefixed(s: jstring, r: Option<jstring>): Option<jstring> {
    if r.Some? then Some(s + r.value) else None
  }

  // ---------- decoding ----------

  datatype Symbol = Symbol(cp: nat, used: nat) | Invalid

  // readContinuationByte at position i
  predicate IsContinuation(b: seq<nat>, i: nat) { i < |b| && b[i] % 0x100 / 0x40 == 2 }

  /** decodeSymbol on what is left of the byte array. */
  function DecodeSymbol(b: seq<nat>): (r: Symbol)
    requires b != []
    ensures r.Symbol? ==> 0 < r.used <= |b| && r.cp <= 0x10FFFF
  {
    var byte1 := b[0] % 0x100;
    if byte1 < 0x80 then Symbol(byte1, 1)
    else if byte1 / 0x20 == 6 then
      if !IsContinuation(b, 1) then Invalid
      else
        var cp := byte1 % 0x20 * 0x40 + b[1] % 0x40;
        if cp >= 0x80 then Symbol(cp, 2) else Invalid
    else if byte1 / 0x10 == 14 then
      if !(IsContinuation(b, 1) && IsContinuation(b, 2)) then Invalid
      else
        var cp := byte1 % 0x10 * 0x1000 + b[1] % 0x40 * 0x40 + b[2] % 0x40;
        if cp >= 0x800 && CheckScalarValue(cp) then Symbol(cp, 3) else Invalid
    else if byte1 / 8 == 30 then
      if !(IsContinuation(b, 1) && IsContinuation(b, 2) && IsContinuation(b, 3)) then Invalid
      else
        var cp := byte1 % 0x10 * 0x40000 + b[1] % 0x40 * 0x1000 + b[2] % 0x40 * 0x40 + b[3] % 0x40;
        if 0x10000 <= cp <= 0x10FFFF then Symbol(cp, 4) else Invalid
    else Invalid
  }

  function DecodeAll(b: seq<nat>): (r: Option<seq<nat>>)
    ensures r.Some? ==> forall i :: 0 <= i < |r.value| ==> r.value[i] <= 0x10FFFF
  {
    if b == [] then Some([])
    else
      match DecodeSymbol(b)
      case Invalid => None
      case Symbol(cp, used) =>
        var rest := DecodeAll(b[used..]);
        if rest.Some? then Some([cp] + rest.value) else None
  }

  /** What utf8decode returns; None stands for the exception. */
  function Decode(byteString: jstring): Option<jstring> {
    var cps := DecodeAll(CodePoints(byteString));
    if cps.Some? then Some(Utf16(cps.value)) else None
  }

  /** readContinuationByte: the six payload bits and the next index, or the exception. */
  method ReadContinuationByte(byteArray: seq<nat>, byteIndex: nat) returns (ok: bool, bits: nat)
    ensures ok <==> IsContinuation(byteArray, byteIndex)
    ensures ok ==> bits == byteArray[byteIndex] % 0x40
  {
    if byteIndex >= |byteArray| {
      return false, 0;
    }
    var continuationByte := byteArray[byteIndex] % 0x100;
    if continuationByte / 0x40 * 0x40 == 0x80 {
      assert byteArray[byteIndex] % 0x40 == continuationByte % 0x40 by { ModMod(byteArray[byteIndex]); }
      return true, continuationByte % 0x40;
    }
    ok, bits := false, 0;
  }

  lemma ModMod(x: nat)
    ensures x % 0x100 % 0x40 == x % 0x40
  {
    var q, r := x / 0x100, x % 0x100;
    SixBits(4 * q + r / 0x40, r % 0x40);
  }

  /** Six bits shifted in can be shifted out again. */
  lemma SixBits(a: nat, l: nat)
    requires l < 0x40
    ensures (a * 0x40 + l) / 0x40 == a && (a * 0x40 + l) % 0x40 == l
  {
  }

  /** decodeSymbol with its reads in order. */
  method ReadSymbol(byteArray: seq<nat>, start: nat) returns (r: Symbol)
    requires start < |byteArray|
    ensures r == DecodeSymbol(byteArray[start..])
  {
    ghost var b := byteArray[start..];
    var byte1 := byteArray[start] % 0x100;
    var ok, byte2, byte3, byte4;
    if byte1 < 0x80 {
      return Symbol(byte1, 1);
    }
    if byte1 / 0x20 * 0x20 == 0xC0 {
      ok, byte2 := ReadContinuationByte(byteArray, start + 1);
      if !ok { return Invalid; }
      var cp := byte1 % 0x20 * 0x40 + byte2;
      return if cp >= 0x80 then Symbol(cp, 2) else Invalid;
    }
    if byte1 / 0x10 * 0x10 == 0xE0 {
      ok, byte2 := ReadContinuationByte(byteArray, start + 1);
      if !ok { return Invalid; }
      ok, byte3 := ReadContinuationByte(byteArray, start + 2);
      if !ok { return Invalid; }
      var cp := byte1 % 0x10 * 0x1000 + byte2 * 0x40 + byte3;
      return if cp >= 0x800 && CheckScalarValue(cp) then Symbol(cp, 3) else Invalid;
    }
    if byte1 / 8 * 8 == 0xF0 {
      ok, byte2 := ReadContinuationByte(byteArray, start + 1);
      if !ok { return Invalid; }
      ok, byte3 := ReadContinuationByte(byteArray, start + 2);
      if !ok { return Invalid; }
      ok, byte4 := ReadContinuationByte(byteArray, start + 3);
      if !ok { return Invalid; }
      var cp := byte1 % 0x10 * 0x40000 + byte2 * 0x1000 + byte3 * 0x40 + byte4;
      if cp >= 0x10000 && cp <= 0x10FFFF {
        return Symbol(cp, 4);
      }
    }
    r := Invalid;
  }

  method Utf8Decode(byteString: jstring) returns (r: Option<jstring>)
    ensures r == Decode(byteString)
  {
    hide DecodeSymbol, DecodeAll;
    var byteArray := Ucs2Decode(byteString);
    var byteIndex := 0;
    var codePoints: seq<nat> := [];
    ghost var whole := DecodeAll(byteArray);
    assert byteArray[0..] == byteArray && (whole.Some? ==> [] + whole.value == whole.value);
    while byteIndex != |byteArray|
      invariant 0 <= byteIndex <= |byteArray|
      invariant forall i :: 0 <= i < |codePoints| ==> codePoints[i] <= 0x10FFFF
      invariant whole == Before(codePoints, DecodeAll(byteArray[byteIndex..]))
      decreases |byteArray| - byteIndex
    {
      DecodeAllStep(byteArray, byteIndex, codePoints);
      var symbol := ReadSymbol(byteArray, byteIndex);
      if symbol.Invalid? {
        return None;
      }
      byteIndex := byteIndex + symbol.used;
      codePoints := codePoints + [symbol.cp];
    }
    assert byteArray[byteIndex..] == [] && codePoints + [] == codePoints;
    DecodeAllNothing();
    var output := Ucs2Encode(codePoints);
    r := Some(output);
  }

  function Before(cps: seq<nat>, r: Option<seq<nat>>): Option<seq<nat>> {
    if r.Some? then Some(cps + r.value) else None
  }

  lemma DecodeAllNothing()
    ensures DecodeAll([]) == Some([])
  {
  }

  lemma DecodeAllStep(b: seq<nat>, i: nat, cps: seq<nat>)
    requires i < |b|
    ensures match DecodeSymbol(b[i..])
            case Invalid => DecodeAll(b[i..]) == None
            case Symbol(cp, used) =>
              Before(cps, DecodeAll(b[i..])) == Before(cps + [cp], DecodeAll(b[i + used..]))
  {
    hide DecodeSymbol;
    var left := b[i..];
    var r := DecodeSymbol(left);
    if r.Symbol? {
      assert left[r.used..] == b[i + r.used..];
      var rest := DecodeAll(b[i + r.used..]);
      assert rest.Some? ==> cps + ([r.cp] + rest.value) == cps + [r.cp] + rest.value;
    }
  }

  // ---------- code points and code units ----------

  lemma {:induction false} UnitsOfCodePoints(s: jstring)
    ensures forall i :: 0 <= i < |CodePoints(s)| ==> CodePoints(s)[i] <= 0x10FFFF
    ensures Utf16(CodePoints(s)) == s
  {
    if s != [] {
      if IsHigh(s[0]) && |s| > 1 && IsLow(s[1]) {
        UnitsOfCodePoints(s[2..]);
        PairSplits(s[0], s[1]);
        assert s == [s[0], s[1]] + s[2..];
      } else {
        UnitsOfCodePoints(s[1..]);
        assert s == [s[0]] + s[1..];
      }
    }
  }

  lemma PairSplits(high: unit, low: unit)
    requires IsHigh(high) && IsLow(low)
    ensures 0x10000 <= PairValue(high, low) <= 0x10FFFF && Units(PairValue(high, low)) == [high, low]
  {
    var h, l := high - 0xD800, low - 0xDC00;
    assert high % 0x400 == h && low % 0x400 == l;
    assert (h * 0x400 + l) / 0x400 == h && (h * 0x400 + l) % 0x400 == l;
  }

  lemma UnitsPair(cp: nat)
    requires 0x10000 <= cp <= 0x10FFFF
    ensures var u := Units(cp);
            |u| == 2 && IsHigh(u[0]) && IsLow(u[1]) && PairValue(u[0], u[1]) == cp
  {
    var c := cp - 0x10000;
    var h, l := c / 0x400, c % 0x400;
    assert h < 0x400 && h % 0x400 == h;
    assert (0xD800 + h) % 0x400 == h && (0xDC00 + l) % 0x400 == l;
  }

  lemma {:induction false} CodePointsOfUnits(cps: seq<nat>)
    requires AllScalar(cps)
    ensures CodePoints(Utf16(cps)) == cps && WellFormed16(Utf16(cps))
  {
    if cps != [] {
      CodePointsOfUnits(cps[1..]);
      var u, rest := Units(cps[0]), Utf16(cps[1..]);
      if cps[0] > 0xFFFF {
        UnitsPair(cps[0]);
        assert (u + rest)[2..] == rest;
      } else {
        assert (u + rest)[1..] == rest;
      }
      assert cps == [cps[0]] + cps[1..];
    }
  }

  lemma {:induction false} WellFormed16IsScalar(s: jstring)
    ensures WellFormed16(s) <==> AllScalar(CodePoints(s))
  {
    if s != [] {
      var cps := CodePoints(s);
      if IsHigh(s[0]) && |s| > 1 && IsLow(s[1]) {
        WellFormed16IsScalar(s[2..]);
        PairSplits(s[0], s[1]);
        ScalarCons(PairValue(s[0], s[1]), CodePoints(s[2..]));
      } else {
        WellFormed16IsScalar(s[1..]);
        ScalarCons(s[0], CodePoints(s[1..]));
      }
    }
  }

  lemma ScalarCons(cp: nat, cps: seq<nat>)
    ensures AllScalar([cp] + cps) <==> IsScalar(cp) && AllScalar(cps)
  {
    if AllScalar([cp] + cps) {
      assert ([cp] + cps)[0] == cp;
      assert forall i :: 0 <= i < |cps| ==> ([cp] + cps)[i + 1] == cps[i];
    }
  }

  lemma {:induction false} BytesAreCodePoints(b: jstring)
    requires IsByteString(b)
    ensures CodePoints(b) == b
  {
    if b != [] {
      BytesAreCodePoints(b[1..]);
      assert b == [b[0]] + b[1..];
    }
  }

  // ---------- one code point ----------

  lemma OneCodePoint(cp: nat)
    requires cp <= 0x10FFFF
    ensures Utf16([cp]) == Units(cp)
    ensures EncodeAll([cp]) == EncodeCodePoint(cp)
  {
    hide Units, EncodeCodePoint;
    assert [cp][1..] == [];
    assert Utf16([]) == [] && Units(cp) + [] == Units(cp);
    var first := EncodeCodePoint(cp);
    assert first.Some? ==> first.value + [] == first.value;
  }

  /** The quotients the encoder takes, from the outside in. */
  lemma Shifts(cp: nat)
    ensures cp / 0x1000 == cp / 0x40 / 0x40 && cp / 0x40000 == cp / 0x40 / 0x40 / 0x40
  {
  }

  lemma TwoByteParts(a: nat, l: nat)
    requires 2 <= a < 0x20 && l < 0x40
    ensures EncodeCodePoint(a * 0x40 + l) == Some([0xC0 + a, 0x80 + l])
  {
    SixBits(a, l);
  }

  lemma ThreeByteParts(a: nat, m: nat, l: nat)
    requires a < 0x10 && m < 0x40 && l < 0x40
    requires var cp := a * 0x1000 + m * 0x40 + l; cp >= 0x800 && !IsSurrogate(cp)
    ensures EncodeCodePoint(a * 0x1000 + m * 0x40 + l) == Some([0xE0 + a, 0x80 + m, 0x80 + l])
  {
    var cp := (a * 0x40 + m) * 0x40 + l;
    SixBits(a * 0x40 + m, l);
    SixBits(a, m);
    Shifts(cp);
  }

  lemma FourByteParts(a: nat, k: nat, m: nat, l: nat)
    requires k < 0x40 && m < 0x40 && l < 0x40
    requires 0x10000 <= a * 0x40000 + k * 0x1000 + m * 0x40 + l <= 0x10FFFF
    ensures a < 5
    ensures EncodeCodePoint(a * 0x40000 + k * 0x1000 + m * 0x40 + l) == Some([0xF0 + a, 0x80 + k, 0x80 + m, 0x80 + l])
  {
    var cp := ((a * 0x40 + k) * 0x40 + m) * 0x40 + l;
    SixBits((a * 0x40 + k) * 0x40 + m, l);
    SixBits(a * 0x40 + k, m);
    SixBits(a, k);
    Shifts(cp);
  }

  lemma Masked(b: seq<nat>, i: nat)
    requires i < |b| && b[i] < 0x100
    ensures b[i] % 0x100 == b[i]
    ensures IsContinuation(b, i) <==> 0x80 <= b[i] <= 0xBF
    ensures 0x80 <= b[i] <= 0xBF ==> b[i] % 0x40 == b[i] - 0x80
  {
  }

  lemma AllMasked(b: jstring)
    requires b != [] && IsByteString(b)
    ensures forall i :: 0 <= i < |b| ==>
              && b[i] % 0x100 == b[i] && (IsContinuation(b, i) <==> IsTail(b[i]))
              && (IsTail(b[i]) ==> b[i] % 0x40 == b[i] - 0x80)
  {
    forall i | 0 <= i < |b|
      ensures b[i] % 0x100 == b[i] && (IsContinuation(b, i) <==> IsTail(b[i]))
      ensures IsTail(b[i]) ==> b[i] % 0x40 == b[i] - 0x80
    {
      Masked(b, i);
    }
  }

  /** decodeSymbol accepts exactly the characters of the octet syntax and computes their value. */
  lemma DecodedLength(b: jstring)
    requires b != [] && IsByteString(b)
    ensures DecodeSymbol(b) == if CharLength(b) > 0 then Symbol(Horner(b[..CharLength(b)]), CharLength(b)) else Invalid
    ensures DecodeSymbol(b).Symbol? ==> IsScalar(DecodeSymbol(b).cp)
  {
    hide IsContinuation;
    AllMasked(b);
  }

  lemma CharacterParts(b: jstring)
    requires CharLength(b) > 0 && IsScalar(Horner(b[..CharLength(b)]))
    ensures EncodeCodePoint(Horner(b[..CharLength(b)])) == Some(b[..CharLength(b)])
  {
    hide EncodeCodePoint;
    var n := CharLength(b);
    if n == 1 {
      OneByte(b[0]);
      assert b[..1] == [b[0]];
    } else if n == 2 {
      TwoByteParts(b[0] - 0xC0, b[1] - 0x80);
      assert b[..2] == [b[0], b[1]];
    } else if n == 3 {
      ThreeByteParts(b[0] - 0xE0, b[1] - 0x80, b[2] - 0x80);
      assert b[..3] == [b[0], b[1], b[2]];
    } else {
      FourByteParts(b[0] - 0xF0, b[1] - 0x80, b[2] - 0x80, b[3] - 0x80);
      assert b[..4] == [b[0], b[1], b[2], b[3]];
    }
  }

  /** decodeSymbol accepts exactly the characters of the octet syntax, and encoding undoes it. */
  lemma DecodedSymbol(b: jstring)
    requires b != [] && IsByteString(b)
    ensures DecodeSymbol(b).Symbol? <==> CharLength(b) > 0
    ensures var r := DecodeSymbol(b);
            r.Symbol? ==> r.used == CharLength(b) && IsScalar(r.cp) && EncodeCodePoint(r.cp) == Some(b[..r.used])
  {
    hide DecodeSymbol, CharLength, EncodeCodePoint, Horner;
    DecodedLength(b);
    if CharLength(b) > 0 {
      CharacterParts(b);
    }
  }

  lemma OneByte(cp: nat)
    requires cp < 0x80
    ensures EncodeCodePoint(cp) == Some([cp])
  {
  }

  /** Encoding a scalar value gives a character of the octet syntax. */
  lemma EncodedIsCharacter(cp: nat, rest: jstring)
    requires IsScalar(cp)
    ensures var e := EncodeCodePoint(cp);
            e.Some? && IsByteString(e.value) && e.value != [] && CharLength(e.value + rest) == |e.value|
  {
    hide EncodeCodePoint, CharLength;
    var l, m := cp % 0x40, cp / 0x40 % 0x40;
    if cp < 0x80 {
      OneByte(cp);
      CharOne([cp] + rest);
    } else if cp < 0x800 {
      TwoByteParts(cp / 0x40, l);
      CharTwo([0xC0 + cp / 0x40, 0x80 + l] + rest);
    } else if cp < 0x10000 {
      Shifts(cp);
      ThreeByteParts(cp / 0x1000, m, l);
      CharThree([0xE0 + cp / 0x1000, 0x80 + m, 0x80 + l] + rest, cp / 0x1000, m);
    } else {
      Shifts(cp);
      var a, k := cp / 0x40000, cp / 0x1000 % 0x40;
      FourByteParts(a, k, m, l);
      CharFour([0xF0 + a, 0x80 + k, 0x80 + m, 0x80 + l] + rest, a, k);
    }
  }

  lemma CharOne(b: jstring)
    requires |b| >= 1 && b[0] < 0x80
    ensures CharLength(b) == 1
  {
  }

  lemma CharTwo(b: jstring)
    requires |b| >= 2 && 0xC2 <= b[0] <= 0xDF && IsTail(b[1])
    ensures CharLength(b) == 2
  {
  }

  lemma CharThree(b: jstring, a: nat, m: nat)
    requires |b| >= 3 && a < 0x10 && m < 0x40 && b[0] == 0xE0 + a && b[1] == 0x80 + m && IsTail(b[2])
    requires a * 0x40 + m >= 0x20 && !(0x360 <= a * 0x40 + m < 0x380)
    ensures CharLength(b) == 3
  {
  }

  lemma CharFour(b: jstring, a: nat, k: nat)
    requires |b| >= 4 && a < 5 && k < 0x40 && b[0] == 0xF0 + a && b[1] == 0x80 + k && IsTail(b[2]) && IsTail(b[3])
    requires 0x10 <= a * 0x40 + k < 0x110
    ensures CharLength(b) == 4
  {
  }

  lemma {:induction false} EncodeInjective(m: nat, n: nat)
    requires IsScalar(m) && IsScalar(n) && EncodeCodePoint(m) == EncodeCodePoint(n)
    ensures m == n
  {
    Rebuilt(m);
    Rebuilt(n);
  }

  /** A scalar value can be computed from its encoded bytes. */
  lemma Rebuilt(cp: nat)
    requires IsScalar(cp)
    ensures var e := EncodeCodePoint(cp);
            e.Some? && cp == Horner(e.value)
  {
    hide EncodeCodePoint;
    var l, m := cp % 0x40, cp / 0x40 % 0x40;
    Shifts(cp);
    if cp < 0x80 {
      OneByte(cp);
    } else if cp < 0x800 {
      TwoByteParts(cp / 0x40, l);
    } else if cp < 0x10000 {
      ThreeByteParts(cp / 0x1000, m, l);
    } else {
      FourByteParts(cp / 0x40000, cp / 0x1000 % 0x40, m, l);
    }
  }

  function Horner(e: seq<int>): int {
    if |e| == 1 then e[0]
    else if |e| == 2 then (e[0] - 0xC0) * 0x40 + (e[1] - 0x80)
    else if |e| == 3 then (e[0] - 0xE0) * 0x1000 + (e[1] - 0x80) * 0x40 + (e[2] - 0x80)
    else if |e| == 4 then (e[0] - 0xF0) * 0x40000 + (e[1] - 0x80) * 0x1000 + (e[2] - 0x80) * 0x40 + (e[3] - 0x80)
    else 0
  }

  /** decodeSymbol undoes encodeCodePoint, whatever follows. */
  lemma EncodedCodePoint(cp: nat, rest: jstring)
    requires IsScalar(cp) && IsByteString(rest)
    ensures var e := EncodeCodePoint(cp);
            && e.Some? && IsByteString(e.value) && e.value != []
            && CharLength(e.value + rest) == |e.value|
            && DecodeSymbol(e.value + rest) == Symbol(cp, |e.value|)
  {
    hide EncodeCodePoint, DecodeSymbol, CharLength;
    EncodedIsCharacter(cp, rest);
    var e := EncodeCodePoint(cp).value;
    DecodedSymbol(e + rest);
    var r := DecodeSymbol(e + rest);
    assert (e + rest)[..r.used] == e;
    EncodeInjective(cp, r.cp);
  }

  // ---------- whole strings ----------

  lemma {:induction false} EncodeAllThenDecode(cps: seq<nat>)
    requires AllScalar(cps)
    ensures var e := EncodeAll(cps);
            e.Some? && IsByteString(e.value) && WellFormed8(e.value) && DecodeAll(e.value) == Some(cps)
  {
    hide EncodeCodePoint;
    if cps != [] {
      EncodeAllThenDecode(cps[1..]);
      var rest := EncodeAll(cps[1..]).value;
      EncodedCodePoint(cps[0], rest);
      var first := EncodeCodePoint(cps[0]).value;
      assert (first + rest)[|first|..] == rest;
      assert cps == [cps[0]] + cps[1..];
    }
  }

  lemma {:induction false} EncodeAllFails(cps: seq<nat>)
    requires !AllScalar(cps) && forall i :: 0 <= i < |cps| ==> cps[i] <= 0x10FFFF
    ensures EncodeAll(cps).None?
  {
    assert cps == [cps[0]] + cps[1..];
    ScalarCons(cps[0], cps[1..]);
    if IsScalar(cps[0]) {
      EncodeAllFails(cps[1..]);
    }
  }

  lemma {:induction false} DecodeAllThenEncode(b: jstring)
    requires IsByteString(b)
    ensures DecodeAll(b).Some? <==> WellFormed8(b)
    ensures DecodeAll(b).Some? ==> AllScalar(DecodeAll(b).value) && EncodeAll(DecodeAll(b).value) == Some(b)
  {
    hide DecodeSymbol, CharLength, EncodeCodePoint;
    if b != [] {
      DecodedSymbol(b);
      var r := DecodeSymbol(b);
      if r.Symbol? {
        DecodeAllThenEncode(b[r.used..]);
        var rest := DecodeAll(b[r.used..]);
        if rest.Some? {
          ScalarCons(r.cp, rest.value);
          EncodeCons(r.cp, rest.value);
          assert b == b[..r.used] + b[r.used..];
        }
      }
    }
  }

  lemma EncodeCons(cp: nat, cps: seq<nat>)
    ensures var first, rest := EncodeCodePoint(cp), EncodeAll(cps);
            EncodeAll([cp] + cps) == if first.Some? && rest.Some? then Some(first.value + rest.value) else None
  {
    hide EncodeCodePoint;
    assert ([cp] + cps)[1..] == cps;
  }

  /** utf8encode succeeds exactly on well-formed UTF-16; then the result is well-formed UTF-8, and utf8decode undoes
      it. */
  lemma EncodeThenDecode(s: jstring)
    ensures Encode(s).Some? <==> WellFormed16(s)
    ensures Encode(s).Some? ==>
              IsByteString(Encode(s).value) && WellFormed8(Encode(s).value) && Decode(Encode(s).value) == Some(s)
  {
    WellFormed16IsScalar(s);
    UnitsOfCodePoints(s);
    if WellFormed16(s) {
      EncodeAllThenDecode(CodePoints(s));
      BytesAreCodePoints(Encode(s).value);
    } else {
      EncodeAllFails(CodePoints(s));
    }
  }

  /** On byte strings, utf8decode succeeds exactly on well-formed UTF-8 (so overlong forms, surrogates and
      truncated characters are rejected); then the result is well-formed UTF-16 and utf8encode undoes it. */
  lemma DecodeThenEncode(b: jstring)
    requires IsByteString(b)
    ensures Decode(b).Some? <==> WellFormed8(b)
    ensures Decode(b).Some? ==> WellFormed16(Decode(b).value) && Encode(Decode(b).value) == Some(b)
  {
    BytesAreCodePoints(b);
    DecodeAllThenEncode(b);
    if WellFormed8(b) {
      CodePointsOfUnits(DecodeAll(b).value);
    }
  }

  /** Of all strings that utf8decode accepts, utf8encode gives back exactly the byte strings. */
  lemma DecodeUndoneIffBytes(s: jstring)
    requires Decode(s).Some?
    ensures Encode(Decode(s).value) == Some(s) <==> IsByteString(s)
  {
    EncodeThenDecode(Decode(s).value);
    if IsByteString(s) {
      DecodeThenEncode(s);
    }
  }

  /** Off the byte strings the decoder is not injective: it only looks at the low eight bits of each code unit. */
  lemma HighBitsAreIgnored(u: unit)
    requires u % 0x100 < 0x80 && !IsSurrogate(u)
    ensures Decode([u]) == Some([u % 0x100])
  {
    assert [u][1..] == [];
    assert CodePoints([u]) == [u] + CodePoints([]) == [u];
    assert DecodeSymbol([u]) == Symbol(u % 0x100, 1);
    assert DecodeAll([u]) == Some([u % 0x100] + []);
    assert [u % 0x100] + [] == [u % 0x100] && [u % 0x100][1..] == [];
    assert Utf16([u % 0x100]) == Units(u % 0x100) + Utf16([]);
  }
}
