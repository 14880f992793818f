/** bytree's Base64Encode and Base64Decode (RFC 4648, section 4).
    Masks and shifts of the source are written as remainders and quotients. */
module Base64 {
  import opened Bytes

  const PAD: byte := 61
  // base64_chars.find on a character outside the alphabet is npos, which an unsigned char truncates to 255
  const NOT_FOUND: byte := 255

  /** base64_chars[i] */
  function CharOf(i: byte): (c: byte)
    requires i < 64
    ensures IsBase64(c)
  {
    if i < 26 then 65 + i else if i < 52 then 71 + i else if i < 62 then i - 4 else if i == 62 then 43 else 47
  }

  /** isalnum, '+' or '/' */
  predicate IsBase64(c: byte) {
    65 <= c <= 90 || 97 <= c <= 122 || 48 <= c <= 57 || c == 43 || c == 47
  }

  /** base64_chars.find(c) stored in an unsigned char. */
  function FindChar(c: byte): (v: byte)
    ensures IsBase64(c) ==> v < 64 && CharOf(v) == c
    ensures !IsBase64(c) ==> v == NOT_FOUND
  {
    if 65 <= c <= 90 then c - 65
    else if 97 <= c <= 122 then c - 71
    else if 48 <= c <= 57 then c + 4
    else if c == 43 then 62
    else if c == 47 then 63
    else NOT_FOUND
  }

  lemma FindCharOf(i: byte)
    requires i < 64
    ensures FindChar(CharOf(i)) == i
  {
  }

  /** The four six-bit groups of three bytes. */
  function Sextets(a: byte, b: byte, c: byte): (s: seq<byte>)
    ensures |s| == 4 && forall i :: 0 <= i < 4 ==> s[i] < 64
  {
    [a / 4, a % 4 * 16 + b / 16, b % 16 * 4 + c / 64, c % 64]
  }

  /** high * shift + low, stored in an unsigned char. */
  function Truncate(high: int, shift: int, low: int): byte { (high * shift + low) % 256 }

  /** The three bytes of four table positions, each stored in an unsigned char. */
  function Octets(v: seq<byte>): (o: seq<byte>)
    requires |v| == 4
    ensures |o| == 3
  {
    [Truncate(v[0], 4, v[1] / 16 % 4), Truncate(v[1] % 16, 16, v[2] / 4 % 16), Truncate(v[2] % 4, 64, v[3])]
  }

  function Chars(v: seq<byte>): (t: bytes)
    requires forall i :: 0 <= i < |v| ==> v[i] < 64
    ensures |t| == |v| && forall i :: 0 <= i < |v| ==> t[i] == CharOf(v[i])
  {
    seq(|v|, i requires 0 <= i < |v| => CharOf(v[i]))
  }

  /** The encoding, group by group. */
  function Encoded(s: bytes): bytes {
    if s == [] then []
    else if |s| == 1 then Chars(Sextets(s[0], 0, 0)[..2]) + [PAD, PAD]
    else if |s| == 2 then Chars(Sextets(s[0], s[1], 0)[..3]) + [PAD]
    else Chars(Sextets(s[0], s[1], s[2])) + Encoded(s[3..])
  }

  /** Table positions of the leading characters of the alphabet. */
  function Values(t: bytes): seq<byte> {
    if t == [] || !IsBase64(t[0]) then [] else [FindChar(t[0])] + Values(t[1..])
  }

  function Repeat(v: byte, n: nat): seq<byte> { seq(n, _ => v) }

  /** The bytes of a sequence of table positions; an incomplete last group is filled up with NOT_FOUND. */
  function Assemble(v: seq<byte>): bytes {
    if v == [] then []
    else if |v| < 4 then Octets(v + Repeat(NOT_FOUND, 4 - |v|))[..|v| - 1]
    else Octets(v[..4]) + Assemble(v[4..])
  }

  function Decoded(t: bytes): bytes { Assemble(Values(t)) }

  // ---------- the loops ----------

  method EncodeGroup(three: array<byte>, four: array<byte>)
    requires three.Length == 3 && four.Length == 4 && three != four
    modifies four
    ensures four[..] == Sextets(three[0], three[1], three[2])
  {
    four[0] := three[0] / 4;
    four[1] := three[0] % 4 * 16 + three[1] / 16;
    four[2] := three[1] % 16 * 4 + three[2] / 64;
    four[3] := three[2] % 64;
  }

  lemma SliceGrows(s: bytes, a: nat, b: nat)
    requires a <= b < |s|
    ensures s[a..b + 1] == s[a..b] + [s[b]]
  {
  }

  method Base64Encode(s: bytes) returns (ret: bytes)
    ensures ret == Encoded(s)
  {
    hide Sextets, CharOf, Encoded;
    ret := [];
    var i, pos := 0, 0;
    var three, four := new byte[3], new byte[4];
    assert s[0..] == s && [] + Encoded(s) == Encoded(s);
    while pos < |s|
      invariant 0 <= i < 3 && i <= pos <= |s|
      invariant three[..i] == s[pos - i..pos]
      invariant ret + Encoded(s[pos - i..]) == Encoded(s)
    {
      ghost var before := three[..i];
      three[i] := s[pos];
      assert three[..i + 1] == before + [s[pos]];
      SliceGrows(s, pos - i, pos);
      i, pos := i + 1, pos + 1;
      if i == 3 {
        EncodeGroup(three, four);
        EncodedStep(s, pos - 3, three[..], ret);
        assert four[..4] == four[..];
        ret := AppendChars(ret, four, 4);
        i := 0;
      }
    }
    ghost var rest := s[pos - i..];
    assert rest == three[..i];
    if i != 0 {
      for j := i to 3
        invariant three[..i] == rest
        invariant forall k :: i <= k < j ==> three[k] == 0
      {
        three[j] := 0;
      }
      EncodeGroup(three, four);
      LastGroup(rest, three[..], ret);
      ret := AppendChars(ret, four, i + 1);
      ret := AppendPads(ret, i);
    } else {
      EncodedNothing(ret);
    }
  }

  lemma EncodedNothing(ret: bytes)
    ensures ret + Encoded([]) == ret
  {
  }

  /** while (i++ < 3) ret += '='; */
  method AppendPads(ret0: bytes, i0: nat) returns (ret: bytes)
    requires i0 <= 3
    ensures ret == ret0 + Repeat(PAD, 3 - i0)
  {
    ret := ret0;
    var i := i0;
    while i < 3
      invariant i0 <= i <= 3
      invariant ret == ret0 + Repeat(PAD, i - i0)
    {
      ret := ret + [PAD];
      i := i + 1;
    }
  }

  method AppendChars(ret0: bytes, four: array<byte>, n: nat) returns (ret: bytes)
    requires four.Length == 4 && n <= 4 && forall k :: 0 <= k < 4 ==> four[k] < 64
    ensures ret == ret0 + Chars(four[..n])
  {
    ret := ret0;
    for k := 0 to n
      invariant ret == ret0 + Chars(four[..k])
    {
      ret := ret + [CharOf(four[k])];
    }
  }

  lemma EncodedStep(s: bytes, i: nat, group: bytes, ret: bytes)
    requires i + 3 <= |s| && |group| == 3 && group[..3] == s[i..i + 3]
    ensures ret + Encoded(s[i..])
            == (ret + Chars(Sextets(group[0], group[1], group[2]))) + Encoded(s[i + 3..])
  {
    hide Sextets;
    var rest := s[i..];
    assert rest[3..] == s[i + 3..];
    assert group == group[..3] == rest[..3];
    Associate(ret, Chars(Sextets(group[0], group[1], group[2])), Encoded(s[i + 3..]));
  }

  lemma LastEncoded(rest: bytes, three: bytes)
    requires 1 <= |rest| < 3 && |three| == 3 && rest == three[..|rest|]
    requires forall k :: |rest| <= k < 3 ==> three[k] == 0
    ensures Encoded(rest)
            == Chars(Sextets(three[0], three[1], three[2])[..|rest| + 1]) + Repeat(PAD, 3 - |rest|)
  {
    hide Sextets, Chars;
    assert rest[0] == three[..|rest|][0];
    assert Repeat(PAD, 2) == [PAD, PAD] && Repeat(PAD, 1) == [PAD];
    if |rest| == 2 {
      assert rest[1] == three[..|rest|][1];
    }
  }

  lemma LastGroup(rest: bytes, three: bytes, ret: bytes)
    requires 1 <= |rest| < 3 && |three| == 3 && rest == three[..|rest|]
    requires forall k :: |rest| <= k < 3 ==> three[k] == 0
    ensures ret + Encoded(rest)
            == (ret + Chars(Sextets(three[0], three[1], three[2])[..|rest| + 1])) + Repeat(PAD, 3 - |rest|)
  {
    hide Sextets, Chars, Encoded, Repeat;
    LastEncoded(rest, three);
    Associate(ret, Chars(Sextets(three[0], three[1], three[2])[..|rest| + 1]), Repeat(PAD, 3 - |rest|));
  }

  method DecodeGroup(four: array<byte>, three: array<byte>)
    requires three.Length == 3 && four.Length == 4 && three != four
    modifies three
    ensures three[..] == Octets(four[..])
  {
    three[0] := Truncate(four[0], 4, four[1] / 16 % 4);
    three[1] := Truncate(four[1] % 16, 16, four[2] / 4 % 16);
    three[2] := Truncate(four[2] % 4, 64, four[3]);
  }

  /** Replaces the characters in the buffer by their table positions, in place. */
  method FindAll(four: array<byte>)
    requires four.Length == 4
    modifies four
    ensures forall k :: 0 <= k < 4 ==> four[k] == FindChar(old(four[k]))
  {
    for k := 0 to 4
      invariant forall m :: 0 <= m < k ==> four[m] == FindChar(old(four[m]))
      invariant forall m :: k <= m < 4 ==> four[m] == old(four[m])
    {
      four[k] := FindChar(four[k]);
    }
  }

  /** The characters of t[from..to] are all of the alphabet; their table positions. */
  function Positions(t: bytes): (v: seq<byte>)
    ensures |v| == |t| && forall i :: 0 <= i < |t| ==> v[i] == FindChar(t[i])
  {
    seq(|t|, i requires 0 <= i < |t| => FindChar(t[i]))
  }

  predicate AllBase64(t: bytes) { forall i :: 0 <= i < |t| ==> IsBase64(t[i]) }

  lemma {:induction false} ValuesAppend(t: bytes, u: bytes)
    requires AllBase64(t)
    ensures Values(t + u) == Positions(t) + Values(u)
  {
    if t == [] {
      assert t + u == u && Positions(t) + Values(u) == Values(u);
    } else {
      assert (t + u)[1..] == t[1..] + u;
      ValuesAppend(t[1..], u);
      assert Positions(t) == [FindChar(t[0])] + Positions(t[1..]);
    }
  }

  method Base64Decode(t: bytes) returns (ret: bytes)
    ensures ret == Decoded(t)
  {
    hide FindChar, Octets, Values, Decoded, Positions, AllBase64;
    ret := [];
    var i, in_ := 0, 0;
    var four, three := new byte[4], new byte[3];
    // the characters in the buffer
    ghost var chars: bytes := [];
    assert chars + t[0..] == t && [] + Decoded(t) == Decoded(t) && AllBase64([]) by { NoCharacters(); }
    while in_ < |t| && t[in_] != PAD && IsBase64(t[in_])
      invariant 0 <= i < 4 && in_ <= |t| && four[..i] == chars && AllBase64(chars)
      invariant ret + Decoded(chars + t[in_..]) == Decoded(t)
      decreases |t| - in_
    {
      MoveCharacter(chars, t, in_);
      four[i] := t[in_];
      chars := chars + [t[in_]];
      i, in_ := i + 1, in_ + 1;
      assert four[..i] == chars;
      if i == 4 {
        GroupDecoded(chars, t[in_..], ret);
        ret := DecodeFull(four, three, ret);
        i, chars := 0, [];
        assert [] + t[in_..] == t[in_..];
        NoCharacters();
      }
    }
    assert in_ < |t| ==> (chars + t[in_..])[i] == t[in_];
    LastDecoded(chars + t[in_..], chars);
    if i != 0 {
      ret := DecodeLast(four, three, i, ret);
    }
  }

  lemma NoCharacters()
    ensures AllBase64([])
  {
  }

  lemma MoveCharacter(chars: bytes, t: bytes, k: nat)
    requires k < |t| && AllBase64(chars) && IsBase64(t[k])
    ensures chars + t[k..] == (chars + [t[k]]) + t[k + 1..] && AllBase64(chars + [t[k]])
  {
    assert t[k..] == [t[k]] + t[k + 1..];
    Associate(chars, [t[k]], t[k + 1..]);
  }

  method DecodeFull(four: array<byte>, three: array<byte>, ret0: bytes) returns (ret: bytes)
    requires three.Length == 3 && four.Length == 4 && three != four
    modifies four, three
    ensures ret == ret0 + Octets(Positions(old(four[..4])))
  {
    hide FindChar, Octets;
    ghost var chars := four[..4];
    FindAll(four);
    assert four[..] == Positions(chars);
    DecodeGroup(four, three);
    ret := ret0 + three[..];
  }

  method DecodeLast(four: array<byte>, three: array<byte>, i: nat, ret0: bytes) returns (ret: bytes)
    requires three.Length == 3 && four.Length == 4 && three != four && 0 < i < 4
    modifies four, three
    ensures ret == ret0 + Octets(Positions(old(four[..i])) + Repeat(NOT_FOUND, 4 - i))[..i - 1]
  {
    hide FindChar, Octets;
    ghost var chars := four[..i];
    for j := i to 4
      invariant four[..i] == chars
      invariant forall k :: i <= k < j ==> four[k] == 0
    {
      four[j] := 0;
    }
    FindAll(four);
    NulIsNotFound();
    assert four[..] == Positions(chars) + Repeat(NOT_FOUND, 4 - i);
    DecodeGroup(four, three);
    ret := ret0 + three[..i - 1];
  }

  lemma NulIsNotFound()
    ensures FindChar(0) == NOT_FOUND
  {
  }

  lemma GroupDecoded(chars: bytes, u: bytes, ret: bytes)
    requires |chars| == 4 && AllBase64(chars)
    ensures Decoded(chars + u) == Octets(Positions(chars)) + Decoded(u)
    ensures ret + Decoded(chars + u) == (ret + Octets(Positions(chars))) + Decoded(u)
  {
    hide FindChar, Octets;
    ValuesAppend(chars, u);
    var v := Positions(chars) + Values(u);
    assert v[..4] == Positions(chars) && v[4..] == Values(u);
    Associate(ret, Octets(Positions(chars)), Decoded(u));
  }

  /** Where the loop stops, only the characters in the buffer still count. */
  lemma LastDecoded(rest: bytes, chars: bytes)
    requires |chars| < 4 && chars <= rest && AllBase64(chars)
    requires |chars| < |rest| ==> !IsBase64(rest[|chars|])
    ensures Decoded(rest) == if chars == [] then []
                             else Octets(Positions(chars) + Repeat(NOT_FOUND, 4 - |chars|))[..|chars| - 1]
  {
    hide FindChar, Octets;
    var u := rest[|chars|..];
    assert rest == chars + u;
    ValuesAppend(chars, u);
    assert Values(u) == [];
    assert Positions(chars) + [] == Positions(chars);
  }

  // ---------- round trips ----------

  lemma Split4(h: int, l: int)
    requires 0 <= l < 4
    ensures (h * 4 + l) / 4 == h && (h * 4 + l) % 4 == l
  {
  }

  lemma Split16(h: int, l: int)
    requires 0 <= l < 16
    ensures (h * 16 + l) / 16 == h && (h * 16 + l) % 16 == l
  {
  }

  lemma Split64(h: int, l: int)
    requires 0 <= l < 64
    ensures (h * 64 + l) / 64 == h && (h * 64 + l) % 64 == l
  {
  }

  lemma Quotients(n: byte)
    ensures n == n / 4 * 4 + n % 4 && n == n / 16 * 16 + n % 16 && n == n / 64 * 64 + n % 64
    ensures n / 4 < 64 && n / 16 < 16 && n / 64 < 4
  {
  }

  lemma Truncated(h: int, k: int, l: int)
    requires 0 <= h * k + l < 256
    ensures Truncate(h, k, l) == h * k + l
  {
  }

  lemma SextetsBack(a: byte, b: byte, c: byte)
    ensures Octets(Sextets(a, b, c)) == [a, b, c]
  {
    hide Truncate;
    Quotients(a);
    Quotients(b);
    Quotients(c);
    Split16(a % 4, b / 16);
    Split4(b % 16, c / 64);
    Truncated(a / 4, 4, a % 4);
    Truncated(b / 16, 16, b % 16);
    Truncated(c / 64, 64, c % 64);
    assert a % 4 % 4 == a % 4 && b % 16 % 16 == b % 16;
  }

  /** The filler only reaches bytes that are not output. */
  lemma FillerDoesNotMatter(a: byte, b: byte)
    ensures Octets(Sextets(a, 0, 0)[..2] + Repeat(NOT_FOUND, 2))[..1] == [a]
    ensures Octets(Sextets(a, b, 0)[..3] + Repeat(NOT_FOUND, 1))[..2] == [a, b]
  {
    SextetsBack(a, 0, 0);
    SextetsBack(a, b, 0);
  }

  lemma PositionsOfChars(v: seq<byte>)
    requires forall i :: 0 <= i < |v| ==> v[i] < 64
    ensures Positions(Chars(v)) == v && AllBase64(Chars(v))
  {
    forall i | 0 <= i < |v| ensures FindChar(CharOf(v[i])) == v[i] {
      FindCharOf(v[i]);
    }
  }

  lemma TailDecoded(v: seq<byte>, pads: bytes)
    requires 1 < |v| < 4 && (forall i :: 0 <= i < |v| ==> v[i] < 64) && pads != [] && pads[0] == PAD
    ensures Decoded(Chars(v) + pads) == Octets(v + Repeat(NOT_FOUND, 4 - |v|))[..|v| - 1]
  {
    hide FindChar, CharOf, Octets;
    PositionsOfChars(v);
    assert (Chars(v) + pads)[|v|] == PAD;
    LastDecoded(Chars(v) + pads, Chars(v));
  }

  /** Decoding an encoded byte string gives it back. */
  lemma {:induction false} DecodeOfEncode(s: bytes)
    ensures Decoded(Encoded(s)) == s
  {
    hide Sextets, Octets, CharOf, FindChar;
    if s == [] {
    } else if |s| == 1 {
      TailDecoded(Sextets(s[0], 0, 0)[..2], [PAD, PAD]);
      FillerDoesNotMatter(s[0], 0);
    } else if |s| == 2 {
      TailDecoded(Sextets(s[0], s[1], 0)[..3], [PAD]);
      FillerDoesNotMatter(s[0], s[1]);
    } else {
      var v := Sextets(s[0], s[1], s[2]);
      PositionsOfChars(v);
      GroupDecoded(Chars(v), Encoded(s[3..]), []);
      SextetsBack(s[0], s[1], s[2]);
      DecodeOfEncode(s[3..]);
      assert s == [s[0], s[1], s[2]] + s[3..];
    }
  }

  lemma {:induction false} EncodedLength(s: bytes)
    ensures |Encoded(s)| == (|s| + 2) / 3 * 4
  {
    hide Sextets;
    if |s| >= 3 {
      EncodedLength(s[3..]);
      assert (|s| + 2) / 3 == (|s[3..]| + 2) / 3 + 1;
    }
  }

  /** The texts RFC 4648 allows an encoder to produce: whole groups, padding only at the end, unused bits zero. */
  predicate Canonical(t: bytes) {
    t == []
    || (|t| == 4 && AllBase64(t[..2]) && t[2] == PAD && t[3] == PAD && FindChar(t[1]) % 16 == 0)
    || (|t| == 4 && AllBase64(t[..3]) && t[3] == PAD && FindChar(t[2]) % 4 == 0)
    || (|t| >= 4 && AllBase64(t[..4]) && Canonical(t[4..]))
  }

  lemma {:induction false} EncodedIsCanonical(s: bytes)
    ensures Canonical(Encoded(s))
  {
    if |s| == 1 {
      var v := Sextets(s[0], 0, 0);
      FindCharOf(v[1]);
      assert Encoded(s)[..2] == Chars(v[..2]);
    } else if |s| == 2 {
      var v := Sextets(s[0], s[1], 0);
      FindCharOf(v[2]);
      assert Encoded(s)[..3] == Chars(v[..3]);
    } else if |s| >= 3 {
      EncodedIsCanonical(s[3..]);
      assert Encoded(s)[..4] == Chars(Sextets(s[0], s[1], s[2]));
      assert Encoded(s)[4..] == Encoded(s[3..]);
    }
  }

  /** Nothing is truncated when the positions are in the table. */
  lemma OctetsAre(v: seq<byte>)
    requires |v| == 4 && forall i :: 0 <= i < 4 ==> v[i] < 64
    ensures var o := Octets(v);
            && o[0] == v[0] as int * 4 + v[1] / 16
            && o[1] == (v[1] % 16) as int * 16 + v[2] / 4
            && o[2] == (v[2] % 4) as int * 64 + v[3]
  {
    hide Truncate;
    Quotients(v[1]);
    Quotients(v[2]);
    var q1, q2 := v[1] / 16, v[2] / 4;
    assert q1 % 4 == q1 && q2 % 16 == q2;
    Truncated(v[0], 4, q1);
    Truncated(v[1] % 16, 16, q2);
    Truncated(v[2] % 4, 64, v[3]);
  }

  lemma OctetsBack(v: seq<byte>)
    requires |v| == 4 && forall i :: 0 <= i < 4 ==> v[i] < 64
    ensures var o := Octets(v); Sextets(o[0], o[1], o[2]) == v
  {
    hide Octets;
    OctetsAre(v);
    Split4(v[0], v[1] / 16);
    Split16(v[1] % 16, v[2] / 4);
    Split64(v[2] % 4, v[3]);
    assert v[1] == v[1] / 16 * 16 + v[1] % 16 && v[2] == v[2] / 4 * 4 + v[2] % 4;
    var o := Octets(v);
    var s := Sextets(o[0], o[1], o[2]);
    assert s[0] == v[0] && s[1] == v[1] && s[2] == v[2] && s[3] == v[3];
  }

  lemma CharsOfPositions(t: bytes)
    requires AllBase64(t)
    ensures forall i :: 0 <= i < |t| ==> Positions(t)[i] < 64
    ensures Chars(Positions(t)) == t
  {
  }

  lemma FillerOctets(v: seq<byte>)
    requires forall i :: 0 <= i < |v| ==> v[i] < 64
    ensures |v| == 2 ==> Octets(v + Repeat(NOT_FOUND, 2))[..1] == [Octets(v + [0, 0])[0]]
    ensures |v| == 3 ==> Octets(v + Repeat(NOT_FOUND, 1))[..2] == [Octets(v + [0])[0], Octets(v + [0])[1]]
  {
  }

  lemma UnusedBitsZero(v: seq<byte>)
    requires |v| == 4 && v[3] == 0 && v[2] % 4 == 0
    ensures Octets(v)[2] == 0
    ensures v[2] == 0 && v[1] % 16 == 0 ==> Octets(v)[1] == 0
  {
  }

  lemma CanonicalTwo(t: bytes)
    requires |t| == 4 && AllBase64(t[..2]) && t[2] == PAD && t[3] == PAD && FindChar(t[1]) % 16 == 0
    ensures Encoded(Decoded(t)) == t
  {
    hide FindChar, CharOf, Sextets, Octets, Values;
    var c := t[..2];
    var v := Positions(c) + [0, 0];
    CharsOfPositions(c);
    LastDecoded(t, c);
    OctetsBack(v);
    FillerOctets(Positions(c));
    UnusedBitsZero(v);
    assert v[..2] == Positions(c);
    assert t == c + [PAD, PAD];
  }

  lemma CanonicalThree(t: bytes)
    requires |t| == 4 && AllBase64(t[..3]) && t[3] == PAD && FindChar(t[2]) % 4 == 0
    ensures Encoded(Decoded(t)) == t
  {
    hide FindChar, CharOf, Sextets, Octets, Values;
    var c := t[..3];
    var v := Positions(c) + [0];
    CharsOfPositions(c);
    LastDecoded(t, c);
    OctetsBack(v);
    FillerOctets(Positions(c));
    UnusedBitsZero(v);
    assert v[..3] == Positions(c);
    assert t == c + [PAD];
  }

  lemma {:induction false} CanonicalReadsBack(t: bytes)
    requires Canonical(t)
    ensures Encoded(Decoded(t)) == t
  {
    hide FindChar, CharOf, Octets, Sextets;
    if t == [] {
    } else if |t| == 4 && AllBase64(t[..2]) && t[2] == PAD && t[3] == PAD && FindChar(t[1]) % 16 == 0 {
      CanonicalTwo(t);
    } else if |t| == 4 && AllBase64(t[..3]) && t[3] == PAD && FindChar(t[2]) % 4 == 0 {
      CanonicalThree(t);
    } else {
      var v := Positions(t[..4]);
      assert t == t[..4] + t[4..];
      CharsOfPositions(t[..4]);
      GroupDecoded(t[..4], t[4..], []);
      OctetsBack(v);
      CanonicalReadsBack(t[4..]);
      var o := Octets(v);
      var d := o + Decoded(t[4..]);
      assert d[3..] == Decoded(t[4..]) && d[0] == o[0] && d[1] == o[1] && d[2] == o[2];
    }
  }

  /** Encoding what was decoded gives the text back exactly when the text is canonical. */
  lemma EncodeOfDecode(t: bytes)
    ensures Encoded(Decoded(t)) == t <==> Canonical(t)
  {
    if Canonical(t) {
      CanonicalReadsBack(t);
    } else {
      EncodedIsCanonical(Decoded(t));
    }
  }

  // ---------- texts that are not canonical ----------

  /** Decoding stops at the first character outside the alphabet. */
  lemma DecodingStops(a: bytes, c: byte, b: bytes)
    requires AllBase64(a) && !IsBase64(c)
    ensures Decoded(a + ([c] + b)) == Decoded(a)
  {
    hide FindChar, Assemble;
    ValuesAppend(a, [c] + b);
    ValuesAppend(a, []);
    assert a + [] == a && Values([c] + b) == [];
  }

  lemma {:induction false} AssembledLength(v: seq<byte>)
    ensures |Assemble(v)| == |v| * 3 / 4
    decreases |v|
  {
    hide Octets;
    if |v| >= 4 {
      AssembledLength(v[4..]);
    }
  }

  /** Every four characters of the alphabet give three bytes, and an incomplete group one byte less than it has. */
  lemma DecodedLength(a: bytes)
    requires AllBase64(a)
    ensures |Decoded(a)| == |a| * 3 / 4
  {
    hide FindChar, Assemble;
    ValuesAppend(a, []);
    assert a + [] == a && Positions(a) + [] == Positions(a);
    AssembledLength(Values(a));
  }
}
