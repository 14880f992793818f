/** The integer half of the JSON number codec: uintToString, valueToString and decodeNumber. */
module JsonNumbers {
  import opened Bytes

  const MAX_INT32 := 0x7FFF_FFFF
  const MAX_INT64 := 0x7FFF_FFFF_FFFF_FFFF
  const MIN_INT64 := -0x8000_0000_0000_0000
  const MAX_UINT64 := 0xFFFF_FFFF_FFFF_FFFF
  // 3 * sizeof(LargestUInt) + 1
  const UINT_TO_STRING_BUFFER_SIZE := 25

  type int64 = i: int | MIN_INT64 <= i <= MAX_INT64
  type uint64 = u: int | 0 <= u <= MAX_UINT64

  /** What decodeNumber stores, or NotInteger when it hands the token to decodeDouble. */
  datatype Number = IntNumber(i: int64) | UIntNumber(u: uint64) | NotInteger

  function SignedText(i: int): bytes {
    if i < 0 then [MINUS] + Decimal(-i) else Decimal(i)
  }

  function IsNegative(text: bytes): bool { text != [] && text[0] == MINUS }

  function Magnitude(text: bytes): bytes {
    if IsNegative(text) then text[1..] else text
  }

  predicate IsIntegerText(text: bytes) { AllDigits(Magnitude(text)) }

  function IntegerValue(text: bytes): int
    requires IsIntegerText(text)
  {
    var magnitude: int := DecimalValue(Magnitude(text));
    if IsNegative(text) then -magnitude else magnitude
  }

  /** The reader's normal form of an integer: int up to 2^31 - 1, unsigned above. */
  function Canonical(n: int): Number
    requires MIN_INT64 <= n <= MAX_UINT64
  {
    if n <= MAX_INT32 then IntNumber(n) else UIntNumber(n)
  }

  /** What a number token means: its exact value when that fits in 64 bits, otherwise not an integer. */
  function NumberMeaning(text: bytes): Number {
    if IsIntegerText(text) && MIN_INT64 <= IntegerValue(text) <= MAX_UINT64
    then Canonical(IntegerValue(text))
    else NotInteger
  }

  /** One turn of decodeNumber's loop, on the digits read so far. */
  lemma OneMoreDigit(digits: bytes, k: nat)
    requires k < |digits| && AllDigits(digits[..k])
    ensures IsDigit(digits[k]) ==> AllDigits(digits[..k + 1])
                                   && DecimalValue(digits[..k + 1]) == DecimalValue(digits[..k]) * 10 + (digits[k] - 48)
    ensures !IsDigit(digits[k]) ==> !AllDigits(digits)
  {
    assert digits[..k + 1] == digits[..k] + [digits[k]];
    assert digits[..k + 1][..k] == digits[..k];
  }

  /** decodeNumber: accumulates digits in an unsigned 64-bit word and gives up before it could overflow. */
  method DecodeNumber(text: bytes) returns (decoded: Number)
    requires text != []
    ensures decoded == NumberMeaning(text)
  {
    hide DecimalValue, AllDigits;
    var current := 0;
    var isNegative := text[current] == MINUS;
    if isNegative {
      current := current + 1;
    }
    var maxIntegerValue := if isNegative then MAX_INT64 + 1 else MAX_UINT64;
    var threshold := maxIntegerValue / 10;
    var value := 0;
    ghost var sign := current;
    ghost var digits := Magnitude(text);
    NoDigits(digits);
    while current < |text|
      invariant sign <= current <= |text|
      invariant AllDigits(digits[..current - sign])
      invariant value == DecimalValue(digits[..current - sign])
      invariant 0 <= value <= maxIntegerValue
    {
      ghost var k := current - sign;
      var c := text[current];
      current := current + 1;
      assert c == digits[k];
      OneMoreDigit(digits, k);
      if c < ZERO || c > NINE {
        return NotInteger;
      }
      var digit := c - ZERO;
      if value >= threshold {
        if value > threshold || current != |text| || digit > maxIntegerValue % 10 {
          TooLarge(digits, k, maxIntegerValue);
          return NotInteger;
        }
      }
      // the machine word does not wrap
      assert value * 10 + digit <= maxIntegerValue;
      value := value * 10 + digit;
    }
    assert digits[..current - sign] == digits;
    if isNegative && value == maxIntegerValue {
      decoded := IntNumber(MIN_INT64);
    } else if isNegative {
      decoded := IntNumber(-value);
    } else if value <= MAX_INT32 {
      decoded := IntNumber(value);
    } else {
      decoded := UIntNumber(value);
    }
  }

  lemma NoDigits(digits: bytes)
    ensures AllDigits(digits[..0]) && DecimalValue(digits[..0]) == 0
  {
  }

  /** Where decodeNumber gives up, the whole digit string is indeed above the limit. */
  lemma TooLarge(digits: bytes, k: nat, max: nat)
    requires k < |digits| && AllDigits(digits[..k]) && max > 10
    requires DecimalValue(digits[..k]) >= max / 10
    requires DecimalValue(digits[..k]) > max / 10 || k + 1 != |digits| || digits[k] - 48 > max % 10
    ensures AllDigits(digits) ==> DecimalValue(digits) > max
  {
    if AllDigits(digits) {
      DecimalValueStep(digits, k);
      DecimalValueGrows(digits, k + 1);
      if k + 1 < |digits| {
        DecimalValueStep(digits, k + 1);
        DecimalValueGrows(digits, k + 2);
      } else {
        assert digits[..k + 1] == digits;
      }
    }
  }

  /** What a C string function sees of a byte buffer: everything before the first NUL. */
  function CString(s: bytes): (t: bytes)
    ensures t <= s && NUL !in t
  {
    if s == [] || s[0] == NUL then [] else [s[0]] + CString(s[1..])
  }

  lemma {:induction false} CStringStopsAtNul(t: bytes, rest: bytes)
    requires NUL !in t
    ensures CString(t + [NUL] + rest) == t
  {
    if t != [] {
      assert (t + [NUL] + rest)[1..] == t[1..] + [NUL] + rest;
      CStringStopsAtNul(t[1..], rest);
    }
  }

  lemma {:induction false} CStringWhole(s: bytes)
    ensures CString(s) == s <==> NUL !in s
  {
    if s != [] && s[0] != NUL {
      CStringWhole(s[1..]);
      assert s == [s[0]] + s[1..];
    }
  }

  lemma Pow10Twenty()
    ensures Pow10(20) > MAX_UINT64
  {
    assert Pow10(5) == 100000;
    assert Pow10(10) == 10000000000;
    assert Pow10(15) == 1000000000000000;
  }

  /** uintToString: fills the buffer downwards from `last`, using at most 21 bytes. */
  method UintToString(value: uint64, buffer: array<byte>, last: nat) returns (current: nat)
    requires 21 <= last <= buffer.Length
    modifies buffer
    ensures last - 21 <= current < last - 1
    ensures buffer[current..last] == Decimal(value) + [NUL]
  {
    current := last - 1;
    buffer[current] := NUL;
    Pow10Twenty();
    DecimalLength(value, 20);
    var v: nat := value;
    ghost var shown: bytes := [];
    var more := true;
    while more
      invariant last - 21 <= current == last - 1 - |shown|
      invariant buffer[current..last] == shown + [NUL]
      invariant if more then Decimal(v) + shown == Decimal(value) else shown == Decimal(value)
      decreases more, v
    {
      assert |Decimal(v)| + |shown| == |Decimal(value)|;
      current := current - 1;
      buffer[current] := v % 10 + ZERO;
      ghost var digit: byte := v % 10 + 48;
      assert buffer[current..last] == [digit] + (shown + [NUL]) == ([digit] + shown) + [NUL];
      if v >= 10 {
        Associate(Decimal(v / 10), [digit], shown);
      }
      shown := [digit] + shown;
      v := v / 10;
      more := v != 0;
    }
  }

  /** The std::string made from a pointer into the buffer: everything up to the NUL. */
  method StringAt(buffer: array<byte>, current: nat, ghost shown: bytes) returns (text: bytes)
    requires current <= buffer.Length && buffer[current..] == shown + [NUL] && NUL !in shown
    ensures text == shown
  {
    text := CString(buffer[current..]);
    assert shown + [NUL] + [] == shown + [NUL];
    CStringStopsAtNul(shown, []);
  }

  /** valueToString(LargestUInt) */
  method UIntValueToString(value: uint64) returns (text: bytes)
    ensures text == Decimal(value)
  {
    var buffer := new byte[UINT_TO_STRING_BUFFER_SIZE];
    var current := UintToString(value, buffer, UINT_TO_STRING_BUFFER_SIZE);
    assert current >= 0;
    text := StringAt(buffer, current, Decimal(value));
  }

  /** valueToString(LargestInt) */
  method IntValueToString(value: int64) returns (text: bytes)
    ensures text == SignedText(value)
  {
    var buffer := new byte[UINT_TO_STRING_BUFFER_SIZE];
    var magnitude := if value == MIN_INT64 then MAX_INT64 + 1 else if value < 0 then -value else value;
    var current := UintToString(magnitude, buffer, UINT_TO_STRING_BUFFER_SIZE);
    ghost var shown := Decimal(magnitude);
    if value < 0 {
      current := current - 1;
      buffer[current] := MINUS;
      assert buffer[current..] == [MINUS] + (shown + [NUL]) == ([MINUS] + shown) + [NUL];
      shown := [MINUS] + shown;
    }
    assert current >= 0;
    text := StringAt(buffer, current, shown);
  }

  /** Printing and reading back any 64-bit integer gives the same number, in the reader's normal form. */
  lemma PrintedIntegerReadsBack(n: int)
    requires MIN_INT64 <= n <= MAX_UINT64
    ensures NumberMeaning(SignedText(n)) == Canonical(n)
  {
    if n < 0 {
      DecimalValueOfDecimal(-n);
      assert Magnitude(SignedText(n)) == Decimal(-n);
    } else {
      DecimalValueOfDecimal(n);
    }
  }

  lemma SignIsWritten(n: int)
    ensures |SignedText(n)| > 0 && (SignedText(n)[0] == MINUS <==> n < 0)
  {
    if n >= 0 {
      assert IsDigit(Decimal(n)[0]);
    }
  }

  /** Two integers print the same only when they are the same. */
  lemma SignedTextInjective(m: int, n: int)
    requires SignedText(m) == SignedText(n)
    ensures m == n
  {
    SignIsWritten(m);
    SignIsWritten(n);
    if m < 0 {
      assert Decimal(-m) == SignedText(m)[1..] == SignedText(n)[1..] == Decimal(-n);
      DecimalInjective(-m, -n);
    } else {
      DecimalInjective(m, n);
    }
  }
}
