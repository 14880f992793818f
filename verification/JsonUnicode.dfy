/** The server's UTF-8 against the client's: what a JSON escape becomes is what the client decodes. */
module JsonUnicode {
  import opened Bytes
  import opened JsonStrings
  import opened Sequences
  import Js = JsUtf8

  /** codePointToUTF8 and the client's encodeCodePoint agree on every scalar value. */
  lemma SameUtf8(cp: nat)
    requires Js.IsScalar(cp)
    ensures Js.EncodeCodePoint(cp) == Some(CodePointToUTF8(cp))
  {
  }

  /** The client decodes codePointToUTF8's bytes to exactly the UTF-16 form of the code point. */
  lemma ClientReadsServerUtf8(cp: nat)
    requires Js.IsScalar(cp)
    ensures Js.Decode(CodePointToUTF8(cp)) == Some(Js.Units(cp))
  {
    hide CodePointToUTF8;
    SameUtf8(cp);
    Js.OneCodePoint(cp);
    Js.CodePointsOfUnits([cp]);
    Js.EncodeThenDecode(Js.Units(cp));
  }

  lemma SurrogateBytesRejected(cp: nat)
    requires Js.IsSurrogate(cp)
    ensures Js.Decode(CodePointToUTF8(cp)) == None
  {
    var b := CodePointToUTF8(cp);
    Js.BytesAreCodePoints(b);
    assert b[0] == 0xED && b[1] >= 0xA0;
    assert Js.CharLength(b) == 0;
    Js.DecodeThenEncode(b);
  }

  /** The client accepts the bytes of a decoded escape if and only if it is not a surrogate; a lone low surrogate is one
      that the reader lets through. */
  lemma LoneSurrogateIsRejected(cp: nat)
    requires cp <= 0x10FFFF
    ensures Js.Decode(CodePointToUTF8(cp)).Some? <==> Js.IsScalar(cp)
  {
    hide CodePointToUTF8;
    if Js.IsScalar(cp) {
      ClientReadsServerUtf8(cp);
    } else {
      SurrogateBytesRejected(cp);
    }
  }

  /** The two escapes behind which decodeUnicodeCodePoint reads a pair. */
  predicate IsPair(s: bytes) {
    HexPrefix(s) && IsHighSurrogate(HexValue(s[..4])) && CodePointMeaning(s).CodePoint?
  }

  /** Any escape passes for the second half of a pair. The client reads the two units that were written if and only if
      the second is a low surrogate. */
  lemma PairReadsBackIffLow(s: bytes)
    requires IsPair(s)
    ensures HexPrefix(s[6..]) && CodePointMeaning(s).used == 10
    ensures var high, second := HexValue(s[..4]), HexValue(s[6..][..4]);
            Js.Decode(CodePointToUTF8(CodePointMeaning(s).value)) == Some([high, second])
            <==> 0xDC00 <= second <= 0xDFFF
  {
    HexValueBound(s[..4]);
    HexValueBound(s[6..][..4]);
    hide HexValue, AllHex, CodePointToUTF8;
    var high, second := HexValue(s[..4]), HexValue(s[6..][..4]);
    var cp := CodePointMeaning(s).value;
    assert 0x10000 <= cp <= 0x10FFFF;
    ClientReadsServerUtf8(cp);
    Js.UnitsPair(cp);
    if Js.IsLow(second) {
      Js.PairSplits(high, second);
      assert cp == Js.PairValue(high, second);
    }
  }

  /** A letter behind a high surrogate is taken for its low half: \uD800\u0041 becomes U+10041. */
  lemma LetterPassesForLowSurrogate() returns (s: bytes)
    ensures IsPair(s) && HexValue(s[..4]) == 0xD800
    ensures HexPrefix(s[6..]) && HexValue(s[6..][..4]) == 0x41 && CodePointMeaning(s) == CodePoint(0x10041, 10)
  {
    // D800 and 0041
    var high, letter: bytes := [68, 56, 48, 48], [48, 48, 52, 49];
    s := high + [BACKSLASH, LOWER_U] + letter;
    assert s[..4] == high && s[6..] == letter && letter[..4] == letter;
    HexValueBound(high);
    HexValueBound(letter);
  }
}
