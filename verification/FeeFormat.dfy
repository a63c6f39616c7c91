// apps/web/v4/proof-network-preflight.js: how preflightProofNetworkProvider prints an estimated fee. The
// currency symbol that follows the number is not part of this model.

module FeeFormat {
  import opened Results
  import H = Hex

  // ---- Decimal numbers ----

  predicate IsDigit(c: char) {
    '0' <= c <= '9'
  }

  predicate AllDigits(s: string) {
    forall c <- s :: IsDigit(c)
  }

  function Digit(n: nat): (c: char)
    requires n < 10
    ensures IsDigit(c) && DigitValue(c) == n
  {
    ('0' as int + n) as char
  }

  function DigitValue(c: char): (n: nat)
    requires IsDigit(c)
    ensures n < 10
  {
    c as int - '0' as int
  }

  // BigInt's toString
  function Decimal(n: nat): (s: string)
    ensures s != "" && AllDigits(s)
  {
    if n < 10 then [Digit(n)] else Decimal(n / 10) + [Digit(n % 10)]
  }

  function Value(s: string): nat
    requires AllDigits(s)
  {
    if s == "" then 0 else 10 * Value(s[..|s| - 1]) + DigitValue(s[|s| - 1])
  }

  function Pow10(k: nat): (p: nat)
    ensures p >= 1
  {
    if k == 0 then 1 else 10 * Pow10(k - 1)
  }

  // ---- Printing ----

  // replace(/0+$/u, '')
  function StripZeros(s: string): (r: string)
    ensures r <= s
  {
    if s != "" && s[|s| - 1] == '0' then StripZeros(s[..|s| - 1]) else s
  }

  // slice(0, -decimals) and slice(-decimals), where -0 is 0.
  function SliceBefore(s: string, decimals: nat): string {
    if decimals == 0 || decimals > |s| then "" else s[..|s| - decimals]
  }

  function SliceLast(s: string, decimals: nat): string {
    if decimals == 0 || decimals > |s| then s else s[|s| - decimals..]
  }

  function Whole(fee: nat, decimals: nat): string {
    SliceBefore(H.PadStart(Decimal(fee), decimals + 1), decimals)
  }

  function Fraction(fee: nat, decimals: nat): string {
    StripZeros(SliceLast(H.PadStart(Decimal(fee), decimals + 1), decimals))
  }

  function Print(fee: nat, decimals: nat): string {
    var whole, fraction := Whole(fee, decimals), Fraction(fee, decimals);
    whole + (if fraction != "" then "." + fraction else "")
  }

  // ---- Reading ----

  // The part before the first point.
  function BeforePoint(s: string): (r: string)
    ensures r <= s && '.' !in r
  {
    if s == "" || s[0] == '.' then "" else [s[0]] + BeforePoint(s[1..])
  }

  // A decimal number in units of 10^-decimals; None when it is no number or no whole number of units.
  function Read(s: string, decimals: nat): Option<nat> {
    var whole := BeforePoint(s);
    var fraction := if |whole| == |s| then "" else s[|whole| + 1..];
    if AllDigits(whole) && AllDigits(fraction) && (whole != "" || fraction != "") && |fraction| <= decimals then
      Some(Value(whole) * Pow10(decimals) + Value(fraction) * Pow10(decimals - |fraction|))
    else None
  }

  // ---- Lemmas about digits ----

  lemma {:induction false} ValueOfDecimal(n: nat)
    ensures Value(Decimal(n)) == n
  {
    if n >= 10 {
      ValueOfDecimal(n / 10);
      assert Decimal(n)[..|Decimal(n)| - 1] == Decimal(n / 10);
    } else {
      assert [Digit(n)][..0] == "";
    }
  }

  lemma {:induction false} ValueOfJoin(a: string, b: string)
    requires AllDigits(a) && AllDigits(b)
    ensures AllDigits(a + b) && Value(a + b) == Value(a) * Pow10(|b|) + Value(b)
  {
    if b == "" {
      assert a + b == a;
    } else {
      var c := b[..|b| - 1];
      ValueOfJoin(a, c);
      assert (a + b)[..|a + b| - 1] == a + c;
      assert Value(a + b) == 10 * (Value(a) * Pow10(|c|) + Value(c)) + DigitValue(b[|b| - 1]);
      Distribute(Value(a), Pow10(|c|), Value(c));
    }
  }

  lemma Distribute(x: nat, p: nat, y: nat)
    ensures 10 * (x * p + y) == x * (10 * p) + 10 * y
  {}

  lemma {:induction false} ValueOfZeros(k: nat)
    ensures Value(H.Zeros(k)) == 0
  {
    if k > 0 {
      ValueOfZeros(k - 1);
      assert H.Zeros(k)[..k - 1] == H.Zeros(k - 1);
    }
  }

  lemma ValueOfPadded(s: string, length: nat)
    requires AllDigits(s)
    ensures AllDigits(H.PadStart(s, length)) && Value(H.PadStart(s, length)) == Value(s)
  {
    if |s| < length {
      ValueOfZeros(length - |s|);
      ValueOfJoin(H.Zeros(length - |s|), s);
    }
  }

  // What was stripped are zeros.
  lemma {:induction false} Stripped(s: string)
    ensures s == StripZeros(s) + H.Zeros(|s| - |StripZeros(s)|)
    ensures var r := StripZeros(s); r == "" || r[|r| - 1] != '0'
  {
    if s != "" && s[|s| - 1] == '0' {
      Stripped(s[..|s| - 1]);
      var r := StripZeros(s);
      assert s == s[..|s| - 1] + "0";
      assert H.Zeros(|s| - |r|) == H.Zeros(|s| - 1 - |r|) + "0";
    }
  }

  lemma ValueOfStripped(s: string)
    requires AllDigits(s)
    ensures AllDigits(StripZeros(s)) && Value(s) == Value(StripZeros(s)) * Pow10(|s| - |StripZeros(s)|)
  {
    var r := StripZeros(s);
    Stripped(s);
    ValueOfZeros(|s| - |r|);
    ValueOfJoin(r, H.Zeros(|s| - |r|));
  }

  lemma {:induction false} PointFound(whole: string, rest: string)
    requires AllDigits(whole)
    ensures BeforePoint(whole + "." + rest) == whole && BeforePoint(whole) == whole
  {
    if whole == "" {
      assert ("." + rest)[0] == '.';
    } else {
      PointFound(whole[1..], rest);
      assert whole[0] in whole && (whole + "." + rest)[0] == whole[0];
      assert (whole + "." + rest)[1..] == whole[1..] + "." + rest;
      assert [whole[0]] + whole[1..] == whole;
    }
  }

  // ---- The printed fee ----

  lemma Parts(fee: nat, decimals: nat)
    requires decimals >= 1
    ensures var padded := H.PadStart(Decimal(fee), decimals + 1);
      && |padded| > decimals && AllDigits(padded)
      && Whole(fee, decimals) == padded[..|padded| - decimals]
      && Fraction(fee, decimals) == StripZeros(padded[|padded| - decimals..])
      && fee == Value(padded[..|padded| - decimals]) * Pow10(decimals) + Value(padded[|padded| - decimals..])
  {
    hide Decimal, Value, H.PadStart, StripZeros, Pow10;
    var padded := H.PadStart(Decimal(fee), decimals + 1);
    ValueOfDecimal(fee);
    ValueOfPadded(Decimal(fee), decimals + 1);
    var k := |padded| - decimals;
    assert padded == padded[..k] + padded[k..];
    ValueOfJoin(padded[..k], padded[k..]);
  }

  lemma ReadOfParts(whole: string, fraction: string, decimals: nat)
    requires AllDigits(whole) && AllDigits(fraction) && whole != "" && |fraction| <= decimals
    ensures Read(whole + (if fraction != "" then "." + fraction else ""), decimals)
         == Some(Value(whole) * Pow10(decimals) + Value(fraction) * Pow10(decimals - |fraction|))
  {
    PointFound(whole, fraction);
    if fraction == "" {
      assert whole + "" == whole;
      assert Value("") == 0;
    } else {
      var s := whole + ("." + fraction);
      assert s == whole + "." + fraction;
      assert s[|whole| + 1..] == fraction;
      assert BeforePoint(s) == whole;
    }
  }

  lemma PrintReadsBack(fee: nat, decimals: nat)
    requires decimals >= 1
    ensures Read(Print(fee, decimals), decimals) == Some(fee)
  {
    hide Read, Value, Decimal;
    Parts(fee, decimals);
    var padded := H.PadStart(Decimal(fee), decimals + 1);
    var tail := padded[|padded| - decimals..];
    ValueOfStripped(tail);
    ReadOfParts(Whole(fee, decimals), Fraction(fee, decimals), decimals);
  }

  // Without decimals the whole part is lost and the point comes first.
  lemma PrintWithoutDecimals(fee: nat)
    requires fee > 0
    ensures Read(Print(fee, 0), 0) == None
  {
    hide Read, Decimal;
    ValueOfDecimal(fee);
    ValueOfStripped(Decimal(fee));
    var f := Fraction(fee, 0);
    assert H.PadStart(Decimal(fee), 1) == Decimal(fee);
    assert f == StripZeros(Decimal(fee));
    assert f != "";
    NotReadWithoutWhole(f);
    assert Print(fee, 0) == "." + f;
  }

  lemma NotReadWithoutWhole(f: string)
    requires f != ""
    ensures Read("." + f, 0) == None
  {
    assert ("." + f)[1..] == f;
  }

  // A positive fee reads back exactly when the currency has decimals.
  lemma ExactlyWithDecimals(gas: nat, price: nat, decimals: nat)
    requires gas > 0 && price > 0
    ensures Read(Print(gas * price, decimals), decimals) == Some(gas * price) <==> decimals >= 1
  {
    hide Read, Print;
    assert gas * price > 0;
    if decimals >= 1 {
      PrintReadsBack(gas * price, decimals);
    } else {
      PrintWithoutDecimals(gas * price);
    }
  }

  // Distinct fees are printed differently.
  lemma PrintIsInjective(fee: nat, other: nat, decimals: nat)
    requires decimals >= 1 && Print(fee, decimals) == Print(other, decimals)
    ensures fee == other
  {
    hide Read, Print;
    PrintReadsBack(fee, decimals);
    PrintReadsBack(other, decimals);
  }

  lemma {:induction false} NoLeadingZero(n: nat)
    ensures n > 0 ==> Decimal(n)[0] != '0'
  {
    if n >= 10 {
      NoLeadingZero(n / 10);
      assert Decimal(n)[0] == Decimal(n / 10)[0];
    }
  }

  lemma WholeIsCanonical(fee: nat, decimals: nat)
    requires decimals >= 1
    ensures var whole := Whole(fee, decimals); whole == "0" || (whole != "" && whole[0] != '0')
  {
    hide Decimal, Value;
    var s := Decimal(fee);
    NoLeadingZero(fee);
    if |s| <= decimals {
      var padded := H.PadStart(s, decimals + 1);
      assert padded[0] == '0' && |padded| == decimals + 1;
      assert padded[..1] == "0";
    } else {
      assert fee > 0 by { ZeroIsOneDigit(); }
    }
  }

  lemma ZeroIsOneDigit()
    ensures |Decimal(0)| == 1
  {}

  // The whole part has no leading zero unless it is "0", and the fraction no trailing zero.
  lemma PrintIsCanonical(fee: nat, decimals: nat)
    requires decimals >= 1
    ensures var whole, fraction := Whole(fee, decimals), Fraction(fee, decimals);
      && (whole == "0" || (whole != "" && whole[0] != '0'))
      && (fraction == "" || fraction[|fraction| - 1] != '0')
  {
    hide Decimal, Whole, H.PadStart;
    WholeIsCanonical(fee, decimals);
    Stripped(SliceLast(H.PadStart(Decimal(fee), decimals + 1), decimals));
  }
}
