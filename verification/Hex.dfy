// Numbers and bytes in hexadecimal text, two lower-case digits a byte.

module Hex {
  import opened Text

  type byte = n: int | 0 <= n < 256

  function Digit(n: int): (c: char)
    requires 0 <= n < 16
    ensures IsHexDigit(c)
  {
    if n < 10 then ('0' as int + n) as char else ('a' as int + n - 10) as char
  }

  function DigitValue(c: char): (n: int)
    requires IsHexDigit(c)
    ensures 0 <= n < 16 && Digit(n) == c
  {
    if c <= '9' then c as int - '0' as int else c as int - 'a' as int + 10
  }

  lemma DigitValueOfDigit(n: int)
    requires 0 <= n < 16
    ensures DigitValue(Digit(n)) == n
  {
  }

  function Pow16(k: nat): (p: nat)
    ensures p >= 1
  {
    if k == 0 then 1 else 16 * Pow16(k - 1)
  }

  // The number that BigInt(`0x...`) reads.
  function Value(s: string): (n: nat)
    requires AllHex(s)
    ensures n < Pow16(|s|)
  {
    if s == [] then 0 else 16 * Value(s[..|s| - 1]) + DigitValue(s[|s| - 1])
  }

  // n.toString(16)
  function Digits(n: nat): (s: string)
    ensures AllHex(s) && |s| >= 1
  {
    if n < 16 then [Digit(n)] else Digits(n / 16) + [Digit(n % 16)]
  }

  // s.padStart(width, '0')
  function PadStart(s: string, width: nat): (r: string)
    ensures |r| >= width
  {
    if |s| >= width then s else Zeros(width - |s|) + s
  }

  function Zeros(k: nat): (s: string)
    ensures |s| == k && AllHex(s)
  {
    seq(k, i => '0')
  }

  predicate AllZeros(s: string) {
    forall i | 0 <= i < |s| :: s[i] == '0'
  }

  // The last `width` digits of n.
  function Fixed(n: nat, width: nat): (s: string)
    ensures |s| == width && AllHex(s)
  {
    if width == 0 then "" else Fixed(n / 16, width - 1) + [Digit(n % 16)]
  }

  lemma {:induction false} ValueOfFixed(n: nat, width: nat)
    requires n < Pow16(width)
    ensures Value(Fixed(n, width)) == n
  {
    if width > 0 {
      ValueOfFixed(n / 16, width - 1);
      DigitValueOfDigit(n % 16);
      assert Fixed(n, width)[..width - 1] == Fixed(n / 16, width - 1);
    }
  }

  lemma {:induction false} FixedOfValue(s: string)
    requires AllHex(s)
    ensures Fixed(Value(s), |s|) == s
  {
    if s != [] {
      FixedOfValue(s[..|s| - 1]);
      assert Value(s) / 16 == Value(s[..|s| - 1]);
      assert s == s[..|s| - 1] + [s[|s| - 1]];
    }
  }

  lemma {:induction false} FixedZero(width: nat)
    ensures Fixed(0, width) == Zeros(width)
  {
    if width > 0 {
      FixedZero(width - 1);
    }
  }

  // Padding the shortest digits on the left gives the fixed-width digits.
  lemma {:induction false} PaddedDigits(n: nat, width: nat)
    requires n < Pow16(width) && width >= 1
    decreases width
    ensures PadStart(Digits(n), width) == Fixed(n, width)
    ensures |Digits(n)| <= width
  {
    if n < 16 {
      FixedZero(width - 1);
    } else if width > 1 {
      PaddedDigits(n / 16, width - 1);
    }
  }

  // The digits of a too large number do not fit.
  lemma {:induction false} LongDigits(n: nat, width: nat)
    requires n >= Pow16(width)
    ensures |Digits(n)| > width
  {
    if width > 0 {
      LongDigits(n / 16, width - 1);
    }
  }

  function BytesHex(b: seq<byte>): (s: string)
    ensures |s| == 2 * |b| && AllHex(s)
  {
    if b == [] then "" else [Digit(b[0] / 16), Digit(b[0] % 16)] + BytesHex(b[1..])
  }

  // The bytes of an even number of digits.
  function HexBytes(s: string): (b: seq<byte>)
    requires AllHex(s) && |s| % 2 == 0
    ensures |b| == |s| / 2
  {
    if s == [] then [] else [16 * DigitValue(s[0]) + DigitValue(s[1])] + HexBytes(s[2..])
  }

  lemma {:induction false} HexBytesOfBytesHex(b: seq<byte>)
    ensures HexBytes(BytesHex(b)) == b
  {
    if b != [] {
      DigitValueOfDigit(b[0] / 16);
      DigitValueOfDigit(b[0] % 16);
      HexBytesOfBytesHex(b[1..]);
      assert BytesHex(b)[2..] == BytesHex(b[1..]);
    }
  }

  lemma DigitsOfPair(high: char, low: char)
    requires IsHexDigit(high) && IsHexDigit(low)
    ensures var n := 16 * DigitValue(high) + DigitValue(low); Digit(n / 16) == high && Digit(n % 16) == low
  {
    hide DigitValue, Digit;
    var n := 16 * DigitValue(high) + DigitValue(low);
    assert n / 16 == DigitValue(high) && n % 16 == DigitValue(low);
  }

  lemma {:induction false} BytesHexOfHexBytes(s: string)
    requires AllHex(s) && |s| % 2 == 0
    ensures BytesHex(HexBytes(s)) == s
  {
    hide DigitValue, Digit;
    if s != [] {
      DigitsOfPair(s[0], s[1]);
      BytesHexOfHexBytes(s[2..]);
      assert HexBytes(s)[1..] == HexBytes(s[2..]);
      assert s == [s[0], s[1]] + s[2..];
    }
  }
}
