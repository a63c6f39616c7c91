// Hexadecimal text as the web code and the registry code write it, and some classes of characters.

module Text {

  predicate IsHexDigit(c: char) {
    '0' <= c <= '9' || 'a' <= c <= 'f'
  }

  predicate AllHex(s: string) {
    forall i | 0 <= i < |s| :: IsHexDigit(s[i])
  }

  function LowerChar(c: char): char {
    if 'A' <= c <= 'Z' then (c as int + 32) as char else c
  }

  // toLowerCase. No character outside ASCII has a lower-case form that is a hexadecimal digit or 'x'.
  function Lower(s: string): (r: string)
    ensures |r| == |s|
  {
    seq(|s|, i requires 0 <= i < |s| => LowerChar(s[i]))
  }

  // The pattern 0x followed by 64 lower-case digits: intents, transaction hashes and report hashes.
  predicate IsHash(s: string) {
    |s| == 66 && s[0] == '0' && s[1] == 'x' && AllHex(s[2..])
  }

  lemma LowerKeepsHash(s: string)
    requires IsHash(s)
    ensures Lower(s) == s
  {
    forall i | 0 <= i < |s| ensures LowerChar(s[i]) == s[i] {
      if i >= 2 {
        assert s[i] == s[2..][i - 2];
      }
    }
  }

  predicate IsHexInAnyCase(c: char) {
    '0' <= c <= '9' || 'a' <= c <= 'f' || 'A' <= c <= 'F'
  }

  // Text is a hash in lower case exactly if it is one with the prefix and the digits in any case.
  lemma HashInAnyCaseExactly(s: string)
    ensures IsHash(Lower(s)) <==>
      |s| == 66 && s[0] == '0' && (s[1] == 'x' || s[1] == 'X') && forall i | 2 <= i < 66 :: IsHexInAnyCase(s[i])
    ensures forall i | 0 <= i < |s| ::
      Lower(s)[i] == s[i] || ('A' <= s[i] <= 'Z' && Lower(s)[i] as int == s[i] as int - 'A' as int + 'a' as int)
  {
    var t := Lower(s);
    if IsHash(t) {
      forall i | 2 <= i < 66 ensures IsHexInAnyCase(s[i]) {
        assert t[2..][i - 2] == LowerChar(s[i]);
      }
    }
    if |s| == 66 && forall i | 2 <= i < 66 :: IsHexInAnyCase(s[i]) {
      forall i | 0 <= i < 64 ensures IsHexDigit(t[2..][i]) {
        assert IsHexInAnyCase(s[i + 2]);
      }
    }
  }

  // The code points that trim removes: white space and line terminators of ECMAScript.
  predicate IsSpace(k: int) {
    9 <= k <= 13 || k == 0x20 || k == 0xA0 || k == 0x1680 || 0x2000 <= k <= 0x200A
    || k == 0x2028 || k == 0x2029 || k == 0x202F || k == 0x205F || k == 0x3000 || k == 0xFEFF
  }

  predicate IsQuote(c: char) {
    c == '"' || c == '\''
  }
}
