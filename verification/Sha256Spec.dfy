// SHA-256 as FIPS 180-4 defines it. A word is a number below 2^32; addition is modulo 2^32, and the bit
// operations go through the bits of the word.

module Sha256Spec {
  import opened Hex
  import opened Sha256Constants

  const TWO32: nat := 0x1_0000_0000

  function Bits(w: Word): bv32 {
    w as bv32
  }

  function Number(b: bv32): (w: Word)
  {
    b as int
  }

  function Add(x: Word, y: Word): Word {
    (x + y) % TWO32
  }

  // ---- Sections 3.2 and 4.1.2 ----

  function And(b: bv32, c: bv32): bv32 { b & c }
  function Or(b: bv32, c: bv32): bv32 { b | c }
  function Xor(b: bv32, c: bv32): bv32 { b ^ c }
  function Not(b: bv32): bv32 { !b }

  function Shl(b: bv32, n: bv6): bv32
    requires n <= 32
  {
    b << n
  }

  function Shr(b: bv32, n: bv6): bv32
    requires n <= 32
  {
    b >> n
  }

  function Rotr(b: bv32, n: bv6): bv32
    requires n <= 32
  {
    Or(Shr(b, n), Shl(b, 32 - n))
  }

  function BigSigma0(x: Word): Word { Number(Xor(Xor(Rotr(Bits(x), 2), Rotr(Bits(x), 13)), Rotr(Bits(x), 22))) }
  function BigSigma1(x: Word): Word { Number(Xor(Xor(Rotr(Bits(x), 6), Rotr(Bits(x), 11)), Rotr(Bits(x), 25))) }
  function SmallSigma0(x: Word): Word { Number(Xor(Xor(Rotr(Bits(x), 7), Rotr(Bits(x), 18)), Shr(Bits(x), 3))) }
  function SmallSigma1(x: Word): Word { Number(Xor(Xor(Rotr(Bits(x), 17), Rotr(Bits(x), 19)), Shr(Bits(x), 10))) }
  function Ch(x: Word, y: Word, z: Word): Word { Number(Xor(And(Bits(x), Bits(y)), And(Not(Bits(x)), Bits(z)))) }
  function Maj(x: Word, y: Word, z: Word): Word {
    Number(Xor(Xor(And(Bits(x), Bits(y)), And(Bits(x), Bits(z))), And(Bits(y), Bits(z))))
  }

  // ---- Section 5.1.1 ----

  function ByteOf(n: nat): byte {
    n % 256
  }

  // A number in four and in eight bytes, highest first.
  function Big32(n: nat): (b: seq<byte>)
    ensures |b| == 4
  {
    var n1: nat := n / 256;
    var n2: nat := n1 / 256;
    var n3: nat := n2 / 256;
    [ByteOf(n3), ByteOf(n2), ByteOf(n1), ByteOf(n)]
  }

  function Big64(n: nat): (b: seq<byte>)
    ensures |b| == 8
  {
    Big32(n / TWO32) + Big32(n % TWO32)
  }

  // The zero bytes after the bit 1 that make the length 56 modulo 64.
  function ZeroBytes(length: nat): (z: nat)
    ensures z < 64
  {
    (55 - length) % 64
  }

  function Padded(m: seq<byte>): seq<byte> {
    m + [0x80] + seq(ZeroBytes(|m|), i => 0) + Big64(8 * |m|)
  }

  // With k zero bits after the bit 1, k is the smallest solution of l + 1 + k = 448 mod 512.
  lemma ZerosAreStandard(length: nat)
    ensures var k := 8 * ZeroBytes(length) + 7;
      0 <= k < 512 && (8 * length + 1 + k) % 512 == 448
    ensures (length + 1 + ZeroBytes(length) + 8) % 64 == 0
  {
    var q := (55 - length) / 64;
    assert 55 - length == 64 * q + ZeroBytes(length);
    assert 8 * length + 1 + (8 * ZeroBytes(length) + 7) == 448 + 512 * (-q);
    assert length + 1 + ZeroBytes(length) + 8 == 64 * (1 - q);
  }

  lemma PaddedLength(m: seq<byte>)
    ensures |Padded(m)| == |m| + 1 + ZeroBytes(|m|) + 8
    ensures |Padded(m)| % 64 == 0
  {
    hide ZeroBytes;
    ZerosAreStandard(|m|);
  }

  // Four bytes as a word, highest first.
  function WordAt(b: seq<byte>, o: nat): (w: Word)
    requires o + 4 <= |b|
  {
    0x100_0000 * ValueOf(b[o]) + 0x1_0000 * ValueOf(b[o + 1]) + 0x100 * ValueOf(b[o + 2]) + ValueOf(b[o + 3])
  }

  function ValueOf(b: byte): nat {
    b
  }

  lemma WordOfBig32(n: nat)
    requires n < TWO32
    ensures WordAt(Big32(n), 0) == n
  {}

  // The length field is the 64-bit big-endian form of the length in bits.
  lemma LengthFieldHoldsTheLength(m: seq<byte>)
    requires 8 * |m| < TWO32 * TWO32
    ensures var p := Padded(m);
      |p| >= 8 && TWO32 * WordAt(p, |p| - 8) + WordAt(p, |p| - 4) == 8 * |m|
  {
    hide Big32, WordAt;
    var n := 8 * |m|;
    var before := m + [0x80] + seq(ZeroBytes(|m|), i => 0);
    WordOfBig32(n / TWO32);
    WordOfBig32(n % TWO32);
    WordsOfJoin(before, Big32(n / TWO32), Big32(n % TWO32));
  }

  lemma WordsOfJoin(a: seq<byte>, b: seq<byte>, c: seq<byte>)
    requires |b| == |c| == 4
    ensures var p := a + (b + c);
      WordAt(p, |p| - 8) == WordAt(b, 0) && WordAt(p, |p| - 4) == WordAt(c, 0)
  {
  }

  // Distinct messages have distinct padded forms.
  lemma PaddingIsInjective(m: seq<byte>, n: seq<byte>)
    requires 8 * |m| < TWO32 * TWO32 && 8 * |n| < TWO32 * TWO32 && Padded(m) == Padded(n)
    ensures m == n
  {
    hide WordAt, ZeroBytes, Big64;
    LengthFieldHoldsTheLength(m);
    LengthFieldHoldsTheLength(n);
    assert m == Padded(m)[..|m|] && n == Padded(n)[..|n|];
  }

  // ---- Section 6.2.2 ----

  datatype Vars = Vars(a: Word, b: Word, c: Word, d: Word, e: Word, f: Word, g: Word, h: Word)

  // The message schedule of a block of 16 words.
  function W(block: seq<Word>, t: nat): Word
    requires |block| == 16
  {
    if t < 16 then block[t]
    else Add(Add(Add(SmallSigma1(W(block, t - 2)), W(block, t - 7)), SmallSigma0(W(block, t - 15))), W(block, t - 16))
  }

  function Round(v: Vars, k: Word, w: Word): Vars {
    var t1 := Add(Add(Add(Add(v.h, BigSigma1(v.e)), Ch(v.e, v.f, v.g)), k), w);
    var t2 := Add(BigSigma0(v.a), Maj(v.a, v.b, v.c));
    Vars(Add(t1, t2), v.a, v.b, v.c, Add(v.d, t1), v.e, v.f, v.g)
  }

  function Rounds(v: Vars, block: seq<Word>, n: nat): Vars
    requires |block| == 16 && n <= 64
  {
    if n == 0 then v else Round(Rounds(v, block, n - 1), RoundConstant(n - 1), W(block, n - 1))
  }

  function Compress(hash: Vars, block: seq<Word>): Vars
    requires |block| == 16
  {
    var v := Rounds(hash, block, 64);
    Vars(Add(v.a, hash.a), Add(v.b, hash.b), Add(v.c, hash.c), Add(v.d, hash.d),
         Add(v.e, hash.e), Add(v.f, hash.f), Add(v.g, hash.g), Add(v.h, hash.h))
  }

  function BlockAt(b: seq<byte>, o: nat): (r: seq<Word>)
    requires o + 64 <= |b|
    ensures |r| == 16
  {
    seq(16, i requires 0 <= i < 16 => WordAt(b, o + 4 * i))
  }

  const INITIAL: Vars := Vars(InitialHash(0), InitialHash(1), InitialHash(2), InitialHash(3),
                              InitialHash(4), InitialHash(5), InitialHash(6), InitialHash(7))

  // The hash value after n blocks.
  function HashAfter(b: seq<byte>, n: nat): Vars
    requires 64 * n <= |b|
  {
    if n == 0 then INITIAL else Compress(HashAfter(b, n - 1), BlockAt(b, 64 * (n - 1)))
  }

  function Digest(v: Vars): seq<byte> {
    Big32(v.a) + Big32(v.b) + Big32(v.c) + Big32(v.d) + Big32(v.e) + Big32(v.f) + Big32(v.g) + Big32(v.h)
  }

  function Hash(m: seq<byte>): seq<byte> {
    PaddedLength(m);
    Digest(HashAfter(Padded(m), |Padded(m)| / 64))
  }
}
