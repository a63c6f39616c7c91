// Reading one dynamic string out of ABI data: decodeTupleString of
// apps/web/v4/proof-network-preflight.js and decodeCanonicalString of packages/proof/src/registry.js,
// which differ in the smallest offset and the greatest length they allow.

module AbiString {
  import opened Results
  import opened Text
  import opened Hex
  import opened Utf8
  import Spec = AbiSpec

  const MAX_SAFE_INTEGER: nat := 9007199254740991

  // The encoding of a string with the bytes b.
  function Tail(b: seq<byte>): (s: string)
    ensures AllHex(s)
    ensures |s| == 64 + PaddedLength(|b|)
  {
    MissingIsPadding(|b|);
    Fixed(|b|, 64) + (BytesHex(b) + Zeros(Spec.Missing(2 * |b|)))
  }

  // The digits of a byte string of this length, rounded up to whole words.
  function PaddedLength(length: nat): nat {
    (length + 31) / 32 * 64
  }

  lemma MissingIsPadding(n: nat)
    ensures 2 * n + Spec.Missing(2 * n) == PaddedLength(n)
  {
    assert 2 * n % 64 == 2 * (n % 32);
  }

  lemma TailIsEncoding(b: seq<byte>)
    ensures Tail(b) == Spec.Enc(Spec.Bytes(b))
  {
  }

  // The bytes whose length word is at the offset. body is text of hexadecimal digits.
  function RawBytes(body: string, offset: nat): (b: seq<byte>)
    requires AllHex(body) && 2 * offset + 64 <= |body|
    requires 2 * offset + 64 + 2 * Value(body[2 * offset..2 * offset + 64]) <= |body|
  {
    var length := Value(body[2 * offset..2 * offset + 64]);
    HexBytes(body[2 * offset + 64..2 * offset + 64 + 2 * length])
  }

  // The text and the end of its padding. Number(BigInt(...)) rounds only values that the safe-integer
  // checks refuse, so the numbers are exact here.
  function DecodeString(body: string, offset: nat, minOffset: nat, maxLength: nat): Outcome<(Unicode, nat)>
    requires AllHex(body)
  {
    if offset > MAX_SAFE_INTEGER || offset < minOffset || offset % 32 != 0 then Fail
    else
      var start := offset * 2;
      if start + 64 > |body| then Fail
      else
        var length := Value(body[start..start + 64]);
        if length > MAX_SAFE_INTEGER || length > maxLength then Fail
        else
          var valueStart := start + 64;
          var valueEnd := valueStart + length * 2;
          var paddedEnd := valueStart + PaddedLength(length);
          if valueEnd > |body| || paddedEnd > |body| || !AllZeros(body[valueEnd..paddedEnd]) then Fail
          else
            var text := TextDecode(HexBytes(body[valueStart..valueEnd]));
            if text.Fail? then Fail else Ok((text.value, paddedEnd))
  }

  lemma SmallFits(n: nat)
    requires n <= MAX_SAFE_INTEGER
    ensures n < Pow16(64)
  {
    assert Pow16(7) == 268435456;
    assert Pow16(14) == 72057594037927936 by {
      assert Pow16(10) == 16 * 16 * 16 * Pow16(7);
      assert Pow16(14) == 16 * 16 * 16 * 16 * Pow16(10);
    }
    Pow16Grows(14, 64);
  }

  lemma {:induction false} Pow16Grows(k: nat, m: nat)
    requires k <= m
    ensures Pow16(k) <= Pow16(m)
    decreases m - k
  {
    if k < m {
      Pow16Grows(k + 1, m);
    }
  }

  lemma PartsOfJoin(a: string, b: string, c: string)
    ensures (a + (b + c))[..|a|] == a
    ensures (a + (b + c))[|a|..|a| + |b|] == b
    ensures (a + (b + c))[|a| + |b|..] == c
  {
  }

  // The three parts of an encoded string.
  lemma PartsOfTail(b: seq<byte>)
    ensures 64 + 2 * |b| <= |Tail(b)|
    ensures Tail(b)[..64] == Fixed(|b|, 64)
    ensures Tail(b)[64..64 + 2 * |b|] == BytesHex(b)
    ensures Tail(b)[64 + 2 * |b|..] == Zeros(Spec.Missing(2 * |b|))
  {
    hide Fixed, BytesHex, Spec.Missing, Zeros;
    PartsOfJoin(Fixed(|b|, 64), BytesHex(b), Zeros(Spec.Missing(2 * |b|)));
  }

  lemma PartsOfSlice(body: string, from: nat, to: nat, k: nat, m: nat)
    requires k <= m && from + m <= to <= |body|
    ensures body[from..to][k..m] == body[from + k..from + m]
  {
    var s := body[from..to];
    assert forall i | k <= i < m :: s[i] == body[from + i];
  }

  // An encoded string is read back, without its byte order mark, and the reader stops at its end.
  lemma DecodeOfTail(body: string, offset: nat, minOffset: nat, maxLength: nat, b: seq<byte>)
    requires AllHex(body) && minOffset <= offset <= MAX_SAFE_INTEGER && offset % 32 == 0
    requires |b| <= maxLength <= MAX_SAFE_INTEGER && Decode(b).Some?
    requires 2 * offset + |Tail(b)| <= |body| && body[2 * offset..2 * offset + |Tail(b)|] == Tail(b)
    ensures DecodeString(body, offset, minOffset, maxLength) == Ok((DropBom(Decode(b).value), 2 * offset + |Tail(b)|))
  {
    hide Fixed, BytesHex, HexBytes, Value, Pow16, Decode, Tail, PaddedLength, Spec.Missing;
    var start, size := 2 * offset, |Tail(b)|;
    SmallFits(|b|);
    ValueOfFixed(|b|, 64);
    HexBytesOfBytesHex(b);
    PartsOfTail(b);
    MissingIsPadding(|b|);
    PartsOfSlice(body, start, start + size, 0, 64);
    PartsOfSlice(body, start, start + size, 64, 64 + 2 * |b|);
    PartsOfSlice(body, start, start + size, 64 + 2 * |b|, size);
  }

  // What is read is an encoded string: the checks force the unique encoding.
  lemma TailOfDecode(body: string, offset: nat, minOffset: nat, maxLength: nat)
    requires AllHex(body) && DecodeString(body, offset, minOffset, maxLength).Ok?
    ensures var (text, end) := DecodeString(body, offset, minOffset, maxLength).value;
      && 2 * offset + 64 + 2 * Value(body[2 * offset..2 * offset + 64]) <= |body|
      && var b := RawBytes(body, offset);
      && |b| <= maxLength && Decode(b).Some? && text == DropBom(Decode(b).value)
      && end == 2 * offset + |Tail(b)| <= |body|
      && body[2 * offset..end] == Tail(b)
  {
    hide Fixed, BytesHex, HexBytes, Value, Pow16, Decode, PaddedLength, Spec.Missing;
    var start := 2 * offset;
    var length := Value(body[start..start + 64]);
    var b := RawBytes(body, offset);
    var end := DecodeString(body, offset, minOffset, maxLength).value.1;
    FixedOfValue(body[start..start + 64]);
    BytesHexOfHexBytes(body[start + 64..start + 64 + 2 * length]);
    MissingIsPadding(length);
    var padding := body[start + 64 + 2 * length..end];
    assert padding == Zeros(Spec.Missing(2 * length));
    assert body[start..end] == body[start..start + 64] + (body[start + 64..start + 64 + 2 * length] + padding);
  }

  // Encodings of different strings differ, whatever follows them.
  lemma TailIsPrefixFree(b: seq<byte>, rest: string, c: seq<byte>, more: string)
    requires |b| < Pow16(64) && |c| < Pow16(64)
    requires Tail(b) + rest == Tail(c) + more
    ensures b == c && rest == more
  {
    hide Fixed, BytesHex, HexBytes, Value, Pow16, Tail, PaddedLength;
    var s := Tail(b) + rest;
    ValueOfFixed(|b|, 64);
    ValueOfFixed(|c|, 64);
    PartsOfTail(b);
    PartsOfTail(c);
    HexBytesOfBytesHex(b);
    HexBytesOfBytesHex(c);
    assert s[..64] == Tail(b)[..64] && s[..64] == Tail(c)[..64];
    assert s[64..64 + 2 * |b|] == Tail(b)[64..64 + 2 * |b|];
    assert s[64..64 + 2 * |c|] == Tail(c)[64..64 + 2 * |c|];
    assert rest == s[|Tail(b)|..];
    assert more == s[|Tail(c)|..];
  }
}
