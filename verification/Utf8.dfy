// UTF-8 as TextEncoder writes it and as TextDecoder('utf-8', { fatal: true }) reads it. Strings are
// sequences of Unicode scalar values.

module Utf8 {
  import opened Results
  import opened Hex

  type Scalar = n: int | 0 <= n < 0xD800 || 0xE000 <= n < 0x110000
  type Unicode = seq<Scalar>

  const BOM: Scalar := 0xFEFF

  predicate IsContinuation(b: byte) {
    0x80 <= b < 0xC0
  }

  // The continuation byte with the low six bits of n.
  function Last(n: nat): (b: byte)
    ensures 0x80 <= b < 0xC0
  {
    0x80 + n % 64
  }

  // Six more bits, from a continuation byte.
  function Pack(high: nat, low: byte): (n: nat)
    requires IsContinuation(low)
  {
    high * 64 + Lead(low, 0x80)
  }

  function EncodeScalar(c: Scalar): (b: seq<byte>)
    ensures 1 <= |b| <= 4
  {
    if c < 0x80 then [c]
    else if c < 0x800 then [0xC0 + c / 64, Last(c)]
    else if c < 0x10000 then [0xE0 + c / 64 / 64, Last(c / 64), Last(c)]
    else [0xF0 + c / 64 / 64 / 64, Last(c / 64 / 64), Last(c / 64), Last(c)]
  }

  function Encode(t: Unicode): seq<byte> {
    if t == [] then [] else EncodeScalar(t[0]) + Encode(t[1..])
  }

  predicate IsScalar(n: int) {
    0 <= n < 0xD800 || 0xE000 <= n < 0x110000
  }

  // The first character and the number of its bytes; None is an ill-formed beginning. Overlong forms,
  // surrogates and values above 0x10FFFF are ill-formed.
  function DecodeScalar(b: seq<byte>): (r: Option<(Scalar, nat)>)
    requires b != []
    ensures r.Some? ==> 1 <= r.value.1 <= |b|
  {
    if b[0] < 0x80 then Some((b[0], 1))
    else if 0xC2 <= b[0] < 0xE0 && |b| >= 2 && IsContinuation(b[1]) then Some((Pack(Lead(b[0], 0xC0), b[1]), 2))
    else if 0xE0 <= b[0] < 0xF0 && |b| >= 3 && IsContinuation(b[1]) && IsContinuation(b[2]) then
      var n := Pack(Pack(Lead(b[0], 0xE0), b[1]), b[2]);
      if n >= 0x800 && IsScalar(n) then Some((n, 3)) else None
    else if 0xF0 <= b[0] < 0xF5 && |b| >= 4 && IsContinuation(b[1]) && IsContinuation(b[2]) && IsContinuation(b[3]) then
      var n := Pack(Pack(Pack(Lead(b[0], 0xF0), b[1]), b[2]), b[3]);
      if n >= 0x10000 && IsScalar(n) then Some((n, 4)) else None
    else None
  }

  function Lead(b: byte, mark: int): (n: nat)
    requires 0 <= mark <= b
  {
    var n: int := b;
    n - mark
  }

  function Decode(b: seq<byte>): Option<Unicode> {
    if b == [] then Some([])
    else
      var first := DecodeScalar(b);
      if first.None? then None
      else
        var rest := Decode(b[first.value.1..]);
        if rest.None? then None else Some([first.value.0] + rest.value)
  }

  // The decoder drops one leading byte order mark.
  function DropBom(t: Unicode): Unicode {
    if t != [] && t[0] == BOM then t[1..] else t
  }

  function TextDecode(b: seq<byte>): Outcome<Unicode> {
    var t := Decode(b);
    if t.None? then Fail else Ok(DropBom(t.value))
  }

  lemma PackOfLast(n: nat)
    ensures Pack(n / 64, Last(n)) == n
  {
  }

  lemma LastOfPack(high: nat, low: byte)
    requires IsContinuation(low)
    ensures Pack(high, low) / 64 == high && Last(Pack(high, low)) == low
  {
  }

  lemma DecodeScalarOfEncoded(c: Scalar, rest: seq<byte>)
    ensures DecodeScalar(EncodeScalar(c) + rest) == Some((c, |EncodeScalar(c)|))
  {
    PackOfLast(c);
    PackOfLast(c / 64);
    PackOfLast(c / 64 / 64);
  }

  lemma EncodeScalarOfDecoded(b: seq<byte>)
    requires b != [] && DecodeScalar(b).Some?
    ensures EncodeScalar(DecodeScalar(b).value.0) == b[..DecodeScalar(b).value.1]
  {
    var length := DecodeScalar(b).value.1;
    if length == 2 {
      LastOfPack(Lead(b[0], 0xC0), b[1]);
    } else if length == 3 {
      LastOfPack(Pack(Lead(b[0], 0xE0), b[1]), b[2]);
      LastOfPack(Lead(b[0], 0xE0), b[1]);
    } else if length == 4 {
      LastOfPack(Pack(Pack(Lead(b[0], 0xF0), b[1]), b[2]), b[3]);
      LastOfPack(Pack(Lead(b[0], 0xF0), b[1]), b[2]);
      LastOfPack(Lead(b[0], 0xF0), b[1]);
    }
  }

  lemma {:induction false} DecodeOfEncode(t: Unicode)
    ensures Decode(Encode(t)) == Some(t)
  {
    if t != [] {
      DecodeScalarOfEncoded(t[0], Encode(t[1..]));
      DecodeOfEncode(t[1..]);
      var b := Encode(t);
      assert b[|EncodeScalar(t[0])|..] == Encode(t[1..]);
      assert t == [t[0]] + t[1..];
    }
  }

  lemma EncodeCons(c: Scalar, t: Unicode)
    ensures Encode([c] + t) == EncodeScalar(c) + Encode(t)
  {
    assert ([c] + t)[1..] == t;
  }

  lemma {:induction false} EncodeOfDecode(b: seq<byte>)
    requires Decode(b).Some?
    ensures Encode(Decode(b).value) == b
  {
    hide EncodeScalar, DecodeScalar;
    if b != [] {
      var first := DecodeScalar(b).value;
      EncodeScalarOfDecoded(b);
      EncodeOfDecode(b[first.1..]);
      var rest := Decode(b[first.1..]).value;
      EncodeCons(first.0, rest);
      assert Decode(b).value == [first.0] + rest;
      assert b == b[..first.1] + b[first.1..];
    }
  }

  // Distinct texts have distinct encodings.
  lemma EncodeIsInjective(t: Unicode, u: Unicode)
    requires Encode(t) == Encode(u)
    ensures t == u
  {
    DecodeOfEncode(t);
    DecodeOfEncode(u);
  }

  // A byte order mark is three bytes.
  lemma BomIsThreeBytes(t: Unicode)
    requires t != [] && t[0] == BOM
    ensures |Encode(t)| == |Encode(DropBom(t))| + 3
  {
  }
}
