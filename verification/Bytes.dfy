/** Byte strings and the ASCII characters the parsers and printers look for. */
module Bytes {
  type byte = n: int | 0 <= n < 256
  type bytes = seq<byte>

  const NUL: byte := 0
  const BACKSPACE: byte := 8
  const TAB: byte := 9
  const NEWLINE: byte := 10
  const FORM_FEED: byte := 12
  const RETURN: byte := 13
  const SPACE: byte := 32
  const QUOTE: byte := 34
  const STAR: byte := 42
  const PLUS: byte := 43
  const COMMA: byte := 44
  const MINUS: byte := 45
  const DOT: byte := 46
  const SLASH: byte := 47
  const ZERO: byte := 48
  const NINE: byte := 57
  const COLON: byte := 58
  const UPPER_E: byte := 69
  const LEFT_BRACKET: byte := 91
  const BACKSLASH: byte := 92
  const RIGHT_BRACKET: byte := 93
  const LOWER_B: byte := 98
  const LOWER_E: byte := 101
  const LOWER_F: byte := 102
  const LOWER_N: byte := 110
  const LOWER_R: byte := 114
  const LOWER_T: byte := 116
  const LOWER_U: byte := 117
  const LEFT_BRACE: byte := 123
  const RIGHT_BRACE: byte := 125

  /** The bytes of an ASCII text; the wire formats are stated with it. */
  function Ascii(text: string): (r: bytes)
    ensures |r| == |text|
    ensures forall i :: 0 <= i < |text| && text[i] as int < 128 ==> r[i] == text[i] as int
  {
    seq(|text|, i requires 0 <= i < |text| => if text[i] as int < 128 then text[i] as int else NUL)
  }

  lemma NamedCharacters()
    ensures Ascii(" \t\r\n\"*+,-./:\\[]{}") ==
            [SPACE, TAB, RETURN, NEWLINE, QUOTE, STAR, PLUS, COMMA, MINUS, DOT, SLASH, COLON, BACKSLASH,
             LEFT_BRACKET, RIGHT_BRACKET, LEFT_BRACE, RIGHT_BRACE]
    ensures Ascii("09Ebefnrtu") ==
            [ZERO, NINE, UPPER_E, LOWER_B, LOWER_E, LOWER_F, LOWER_N, LOWER_R, LOWER_T, LOWER_U]
  {
  }

  predicate IsDigit(c: byte) { 48 <= c <= 57 }

  predicate IsSpace(c: byte) { c == SPACE || c == TAB || c == RETURN || c == NEWLINE }

  predicate AllDigits(s: bytes) { forall i :: 0 <= i < |s| ==> IsDigit(s[i]) }

  /** The number a string of decimal digits denotes; 0 for the empty string. */
  function DecimalValue(s: bytes): nat
    requires AllDigits(s)
  {
    if s == [] then 0 else DecimalValue(s[..|s| - 1]) * 10 + (s[|s| - 1] - 48)
  }

  /** The decimal digits of a number, most significant first, without leading zeros. */
  function Decimal(n: nat): (s: bytes)
    ensures s != [] && AllDigits(s)
  {
    if n < 10 then [48 + n] else Decimal(n / 10) + [48 + n % 10]
  }

  lemma {:induction false} DecimalValueOfDecimal(n: nat)
    ensures DecimalValue(Decimal(n)) == n
  {
    if n >= 10 {
      DecimalValueOfDecimal(n / 10);
      assert Decimal(n)[..|Decimal(n)| - 1] == Decimal(n / 10);
    }
  }

  lemma DecimalInjective(m: nat, n: nat)
    requires Decimal(m) == Decimal(n)
    ensures m == n
  {
    DecimalValueOfDecimal(m);
    DecimalValueOfDecimal(n);
  }

  /** Reading one more digit multiplies by ten; the reader's accumulator follows this. */
  lemma DecimalValueStep(s: bytes, k: nat)
    requires AllDigits(s) && k < |s|
    ensures DecimalValue(s[..k + 1]) == DecimalValue(s[..k]) * 10 + (s[k] - 48)
  {
    assert s[..k + 1][..k] == s[..k];
  }

  /** Appending digits never makes the value smaller. */
  lemma {:induction false} DecimalValueGrows(s: bytes, k: nat)
    requires AllDigits(s) && k <= |s|
    ensures DecimalValue(s[..k]) <= DecimalValue(s)
    decreases |s| - k
  {
    if k < |s| {
      DecimalValueStep(s, k);
      DecimalValueGrows(s, k + 1);
    } else {
      assert s[..k] == s;
    }
  }

  function Pow10(k: nat): (p: nat)
    ensures p > 0
  {
    if k == 0 then 1 else 10 * Pow10(k - 1)
  }

  /** A number below 10^k has at most k digits. */
  lemma {:induction false} DecimalLength(n: nat, k: nat)
    requires k > 0 && n < Pow10(k)
    ensures |Decimal(n)| <= k
  {
    if n >= 10 {
      assert k > 1;
      DecimalLength(n / 10, k - 1);
    }
  }

  lemma DropDrop<T>(s: seq<T>, i: nat, j: nat)
    requires i + j <= |s|
    ensures s[i..][j..] == s[i + j..]
  {
  }

  /** A concatenation stands at the front of s when its parts stand there one after the other. */
  lemma PrefixSplit<T>(a: seq<T>, b: seq<T>, s: seq<T>)
    requires a + b <= s
    ensures a <= s && b <= s[|a|..]
  {
    assert s[..|a + b|] == a + b;
    assert s[..|a|] == a;
    assert s[|a|..][..|b|] == b;
  }

  lemma Associate<T>(a: seq<T>, b: seq<T>, c: seq<T>)
    ensures a + b + c == a + (b + c)
  {
  }

  lemma SliceOfSlice<T>(s: seq<T>, i: nat, j: nat, k: nat, l: nat)
    requires i <= j <= |s| && k <= l <= j - i
    ensures s[i..j][k..l] == s[i + k..i + l]
  {
    var a, b := s[i..j][k..l], s[i + k..i + l];
    assert forall m :: 0 <= m < |a| ==> a[m] == s[i..j][k + m] == b[m];
  }

  lemma Wrapped<T>(open: T, inner: seq<T>, close: T, rest: seq<T>)
    ensures [open] + inner + [close] + rest == [open] + (inner + ([close] + rest))
  {
  }
}
