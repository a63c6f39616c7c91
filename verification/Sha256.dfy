// apps/web/v4/runtime/browser/sha256.js: sha256Bytes on JavaScript numbers. The bitwise operators take a
// number modulo 2^32 and yield a signed 32-bit number, except >>>, which yields an unsigned one.

module Sha256 {
  import opened Hex
  import opened Sha256Constants
  import opened Sha256Spec

  // ---- Numbers ----

  // Integers up to 2^53 are exact.
  predicate IsExact(n: int) {
    -0x20_0000_0000_0000 <= n <= 0x20_0000_0000_0000
  }

  type Exact = n: int | IsExact(n)

  // A sum is written so only where it is exact.
  function Plus(m: Exact, n: Exact): (r: Exact)
    requires IsExact(m + n)
    ensures r == m + n
  {
    m + n
  }

  // n >>> 0
  function ToUint32(n: Exact): Word {
    n % TWO32
  }

  function ToSigned(w: Word): (n: int)
    ensures -0x8000_0000 <= n < 0x8000_0000
  {
    if w >= 0x8000_0000 then w - 0x1_0000_0000 else w
  }

  function In(n: Exact): bv32 {
    Bits(ToUint32(n))
  }

  function Out(b: bv32): (n: Exact)
    ensures -0x8000_0000 <= n < 0x8000_0000
  {
    ToSigned(Number(b))
  }

  // m & n, m | n, m ^ n, ~n, n << k and n >>> k
  function JsAnd(m: Exact, n: Exact): (r: Exact) { Out(And(In(m), In(n))) }
  function JsOr(m: Exact, n: Exact): (r: Exact) { Out(Or(In(m), In(n))) }
  function JsNot(n: Exact): (r: Exact) { Out(Not(In(n))) }

  function JsXor(m: Exact, n: Exact): (r: Exact)
    ensures -0x8000_0000 <= r < 0x8000_0000
  {
    Out(Xor(In(m), In(n)))
  }


  function JsShiftLeft(n: Exact, k: bv6): Exact
    requires k < 32
  {
    Out(Shl(In(n), k))
  }

  function JsShiftRight(n: Exact, k: bv6): Exact
    requires k < 32
  {
    Number(Shr(In(n), k))
  }

  function Rotate(value: Exact, bits: bv6): Exact
    requires 0 < bits < 32
  {
    JsOr(JsShiftRight(value, bits), JsShiftLeft(value, 32 - bits))
  }

  // ---- What the operators mean for words ----

  lemma NumberOfBits(b: bv32)
    ensures Number(b) as bv32 == b
  {}

  lemma UnsignedOfWord(w: Word)
    ensures ToUint32(w) == w && ToUint32(ToSigned(w)) == w
  {}

  // The bits of a result are the bits it was made of, whether it is read as signed or as unsigned.
  lemma InOfOut(b: bv32)
    ensures In(Out(b)) == b && In(Number(b)) == b && ToUint32(Out(b)) == Number(b)
  {
    hide Number, ToUint32, ToSigned;
    UnsignedOfWord(Number(b));
    NumberOfBits(b);
  }

  lemma InOfWord(w: Word)
    ensures In(w) == Bits(w)
  {
    hide ToUint32, Bits;
    UnsignedOfWord(w);
  }

  lemma RotateIsRotr(x: Word, n: bv6)
    requires 0 < n < 32
    ensures In(Rotate(x, n)) == Rotr(Bits(x), n)
  {
    hide In, Out, Number, Bits, Or, Shr, Shl;
    InOfWord(x);
    InOfOut(Shr(Bits(x), n));
    InOfOut(Shl(Bits(x), 32 - n));
    InOfOut(Or(Shr(Bits(x), n), Shl(Bits(x), 32 - n)));
  }

  lemma XorOfThree(p: Exact, q: Exact, r: Exact)
    ensures ToUint32(JsXor(JsXor(p, q), r)) == Number(Xor(Xor(In(p), In(q)), In(r)))
  {
    hide In, Out, Number, ToUint32, Xor;
    InOfOut(Xor(In(p), In(q)));
    InOfOut(Xor(Xor(In(p), In(q)), In(r)));
  }

  // The expressions of the source, each the function of the standard once it is reduced.

  function Sum0(x: Word): (r: Exact)
    ensures -0x8000_0000 <= r < 0x8000_0000
  {
    JsXor(JsXor(Rotate(x, 2), Rotate(x, 13)), Rotate(x, 22))
  }

  function Sum1(x: Word): (r: Exact)
    ensures -0x8000_0000 <= r < 0x8000_0000
  {
    JsXor(JsXor(Rotate(x, 6), Rotate(x, 11)), Rotate(x, 25))
  }

  function Sigma0(x: Word): (r: Exact)
    ensures -0x8000_0000 <= r < 0x8000_0000
  {
    JsXor(JsXor(Rotate(x, 7), Rotate(x, 18)), JsShiftRight(x, 3))
  }

  function Sigma1(x: Word): (r: Exact)
    ensures -0x8000_0000 <= r < 0x8000_0000
  {
    JsXor(JsXor(Rotate(x, 17), Rotate(x, 19)), JsShiftRight(x, 10))
  }

  function Choose(x: Word, y: Word, z: Word): (r: Exact)
    ensures -0x8000_0000 <= r < 0x8000_0000
  {
    JsXor(JsAnd(x, y), JsAnd(JsNot(x), z))
  }

  function Majority(x: Word, y: Word, z: Word): (r: Exact)
    ensures -0x8000_0000 <= r < 0x8000_0000
  {
    JsXor(JsXor(JsAnd(x, y), JsAnd(x, z)), JsAnd(y, z))
  }

  lemma BigSigmasAgree(x: Word)
    ensures ToUint32(Sum0(x)) == BigSigma0(x) && ToUint32(Sum1(x)) == BigSigma1(x)
  {
    hide In, Number, Bits, Rotate, JsXor, Xor, ToUint32, Rotr;
    RotateIsRotr(x, 2); RotateIsRotr(x, 13); RotateIsRotr(x, 22);
    RotateIsRotr(x, 6); RotateIsRotr(x, 11); RotateIsRotr(x, 25);
    XorOfThree(Rotate(x, 2), Rotate(x, 13), Rotate(x, 22));
    XorOfThree(Rotate(x, 6), Rotate(x, 11), Rotate(x, 25));
  }

  lemma SmallSigmasAgree(x: Word)
    ensures ToUint32(Sigma0(x)) == SmallSigma0(x) && ToUint32(Sigma1(x)) == SmallSigma1(x)
  {
    hide In, Number, Bits, Rotate, JsXor, Xor, ToUint32, Rotr, Shr;
    RotateIsRotr(x, 7); RotateIsRotr(x, 18); RotateIsRotr(x, 17); RotateIsRotr(x, 19);
    XorOfThree(Rotate(x, 7), Rotate(x, 18), JsShiftRight(x, 3));
    XorOfThree(Rotate(x, 17), Rotate(x, 19), JsShiftRight(x, 10));
    InOfWord(x);
    InOfOut(Shr(Bits(x), 3));
    InOfOut(Shr(Bits(x), 10));
  }

  lemma ChooseAgrees(x: Word, y: Word, z: Word)
    ensures ToUint32(Choose(x, y, z)) == Ch(x, y, z)
  {
    hide In, Out, Number, Bits, ToUint32, And, Not, Xor;
    InOfWord(x); InOfWord(y); InOfWord(z);
    InOfOut(Not(Bits(x)));
    InOfOut(And(Bits(x), Bits(y)));
    InOfOut(And(Not(Bits(x)), Bits(z)));
    InOfOut(Xor(And(Bits(x), Bits(y)), And(Not(Bits(x)), Bits(z))));
  }

  lemma MajorityAgrees(x: Word, y: Word, z: Word)
    ensures ToUint32(Majority(x, y, z)) == Maj(x, y, z)
  {
    hide In, Out, Number, Bits, ToUint32, And, Xor, JsXor;
    InOfWord(x); InOfWord(y); InOfWord(z);
    InOfOut(And(Bits(x), Bits(y)));
    InOfOut(And(Bits(x), Bits(z)));
    InOfOut(And(Bits(y), Bits(z)));
    XorOfThree(JsAnd(x, y), JsAnd(x, z), JsAnd(y, z));
  }

  // Adding exactly and reducing once is adding modulo 2^32 at each step.
  lemma SumOfTwo(m: Exact, n: Exact)
    requires IsExact(m + n)
    ensures ToUint32(m + n) == Add(ToUint32(m), ToUint32(n))
  {}

  lemma SumOfFive(h: Word, s: Exact, c: Exact, k: Word, w: Word)
    requires -0x1_0000_0000 <= s <= 0x1_0000_0000 && -0x1_0000_0000 <= c <= 0x1_0000_0000
    ensures ToUint32(h + s + c + k + w) == Add(Add(Add(Add(h, ToUint32(s)), ToUint32(c)), k), w)
  {
    hide ToUint32, Add;
    UnsignedOfWord(h); UnsignedOfWord(k); UnsignedOfWord(w);
    SumOfTwo(h, s);
    SumOfTwo(h + s, c);
    SumOfTwo(h + s + c, k);
    SumOfTwo(h + s + c + k, w);
  }

  lemma SumOfFour(w16: Word, s0: Exact, w7: Word, s1: Exact)
    requires -0x1_0000_0000 <= s0 <= 0x1_0000_0000 && -0x1_0000_0000 <= s1 <= 0x1_0000_0000
    ensures ToUint32(w16 + s0 + w7 + s1) == Add(Add(Add(ToUint32(s1), w7), ToUint32(s0)), w16)
  {
    hide ToUint32, Add;
    UnsignedOfWord(w16); UnsignedOfWord(w7);
    SumOfTwo(s1, w7);
    SumOfTwo(s1 + w7, s0);
    SumOfTwo(s1 + w7 + s0, w16);
    assert s1 + w7 + s0 + w16 == w16 + s0 + w7 + s1;
  }

  // ---- Blocks ----

  method FillSchedule(view: array<byte>, offset: nat, words: array<Word>)
    requires offset + 64 <= view.Length && words.Length == 64
    modifies words
    ensures forall t :: 0 <= t < 64 ==> words[t] == W(BlockAt(view[..], offset), t)
  {
    hide WordAt, W, Sigma0, Sigma1, ToUint32;
    ghost var block := BlockAt(view[..], offset);
    for index := 0 to 16
      invariant forall t :: 0 <= t < index ==> words[t] == W(block, t)
    {
      words[index] := WordAt(view[..], offset + index * 4);
      FirstWords(block, index);
    }
    for index := 16 to 64
      invariant forall t :: 0 <= t < index ==> words[t] == W(block, t)
    {
      var left, right := words[index - 15], words[index - 2];
      var sigma0, sigma1 := Sigma0(left), Sigma1(right);
      LaterWords(block, index);
      words[index] := ToUint32(Plus(Plus(Plus(words[index - 16], sigma0), words[index - 7]), sigma1));
    }
  }

  lemma FirstWords(block: seq<Word>, t: nat)
    requires |block| == 16 && t < 16
    ensures W(block, t) == block[t]
  {}

  lemma LaterWords(block: seq<Word>, t: nat)
    requires |block| == 16 && 16 <= t
    ensures W(block, t)
         == ToUint32(W(block, t - 16) + Sigma0(W(block, t - 15)) + W(block, t - 7) + Sigma1(W(block, t - 2)))
  {
    hide Sigma0, Sigma1, ToUint32, Add, SmallSigma0, SmallSigma1;
    var left, right := W(block, t - 15), W(block, t - 2);
    SmallSigmasAgree(left);
    SmallSigmasAgree(right);
    SumOfFour(W(block, t - 16), Sigma0(left), W(block, t - 7), Sigma1(right));
  }

  method RunRounds(hash: Vars, words: array<Word>, ghost block: seq<Word>) returns (v: Vars)
    requires words.Length == 64 && |block| == 16
    requires forall t :: 0 <= t < 64 ==> words[t] == W(block, t)
    ensures v == Rounds(hash, block, 64)
  {
    hide Sum0, Sum1, Choose, Majority, ToUint32, Add, W, Round;
    var a, b, c, d, e, f, g, h := hash.a, hash.b, hash.c, hash.d, hash.e, hash.f, hash.g, hash.h;
    for index := 0 to 64
      invariant Vars(a, b, c, d, e, f, g, h) == Rounds(hash, block, index)
    {
      var sum1, choose := Sum1(e), Choose(e, f, g);
      var temporary1 := ToUint32(Plus(Plus(Plus(Plus(h, sum1), choose), RoundConstant(index)), words[index]));
      var sum0, majority := Sum0(a), Majority(a, b, c);
      var temporary2 := ToUint32(Plus(sum0, majority));
      OneRound(Vars(a, b, c, d, e, f, g, h), RoundConstant(index), words[index], sum1, choose, sum0, majority);
      h := g; g := f; f := e; e := ToUint32(Plus(d, temporary1));
      d := c; c := b; b := a; a := ToUint32(Plus(temporary1, temporary2));
    }
    return Vars(a, b, c, d, e, f, g, h);
  }

  // An operator's result, which is a signed 32-bit number.
  type Int32 = n: int | -0x8000_0000 <= n < 0x8000_0000

  lemma OneRound(v: Vars, k: Word, w: Word, sum1: Int32, choose: Int32, sum0: Int32, majority: Int32)
    requires sum1 == Sum1(v.e) && choose == Choose(v.e, v.f, v.g)
    requires sum0 == Sum0(v.a) && majority == Majority(v.a, v.b, v.c)
    ensures var t1, t2 := ToUint32(v.h + sum1 + choose + k + w), ToUint32(sum0 + majority);
      Round(v, k, w) == Vars(ToUint32(t1 + t2), v.a, v.b, v.c, ToUint32(v.d + t1), v.e, v.f, v.g)
  {
    hide Sum0, Sum1, Choose, Majority, BigSigma0, BigSigma1, Ch, Maj;
    BigSigmasAgree(v.a);
    BigSigmasAgree(v.e);
    ChooseAgrees(v.e, v.f, v.g);
    MajorityAgrees(v.a, v.b, v.c);
    SumOfFive(v.h, sum1, choose, k, w);
    SumOfTwo(sum0, majority);
  }

  // ---- The whole ----

  // DataView.setUint32
  method SetUint32(view: array<byte>, o: nat, value: Exact)
    requires o + 4 <= view.Length
    modifies view
    ensures view[o..o + 4] == Big32(ToUint32(value))
    ensures forall k :: 0 <= k < view.Length && (k < o || o + 4 <= k) ==> view[k] == old(view[k])
  {
    hide Big32, ToUint32;
    var b := Big32(ToUint32(value));
    view[o], view[o + 1], view[o + 2], view[o + 3] := b[0], b[1], b[2], b[3];
  }

  method Pad(source: seq<byte>) returns (padded: array<byte>)
    requires |source| < 0x4_0000_0000_0000
    ensures fresh(padded) && padded[..] == Padded(source)
  {
    hide Big32, ToUint32, ZeroBytes, Padded;
    var paddedLength := (|source| + 9 + 63) / 64 * 64;
    PaddedLengthIs(|source|);
    padded := new byte[paddedLength](i => 0);
    forall i | 0 <= i < |source| {
      padded[i] := source[i];
    }
    padded[|source|] := 0x80;
    var bitLength: Exact := |source| * 8;
    SetUint32(padded, paddedLength - 8, bitLength / TWO32);
    ghost var before := padded[..];
    SetUint32(padded, paddedLength - 4, bitLength);
    ghost var p := padded[..];
    LengthWords(bitLength);
    assert forall k :: 0 <= k < |p| - 4 ==> p[k] == before[k];
    assert p[..|p| - 4] == before[..|p| - 4];
    assert p[|p| - 8..|p| - 4] == p[..|p| - 4][|p| - 8..];
    assert before[|p| - 8..|p| - 4] == before[..|p| - 4][|p| - 8..] == Big32(bitLength / TWO32);
    assert p[|p| - 4..] == Big32(bitLength % TWO32);
    Assembled(p, source);
  }

  lemma Assembled(p: seq<byte>, m: seq<byte>)
    requires var z := ZeroBytes(|m|);
      && |p| == |m| + 1 + z + 8
      && (forall k :: 0 <= k < |m| ==> p[k] == m[k])
      && p[|m|] == 0x80
      && (forall k :: |m| < k <= |m| + z ==> p[k] == 0)
      && p[|p| - 8..|p| - 4] == Big32(8 * |m| / TWO32) && p[|p| - 4..] == Big32(8 * |m| % TWO32)
    ensures p == Padded(m)
  {
    hide Big32, ZeroBytes;
    var z := ZeroBytes(|m|);
    assert p[..|m|] == m;
    assert p[|m|..|m| + 1] == [0x80];
    assert p[|m| + 1..|m| + 1 + z] == seq(z, i => 0);
    assert p == p[..|m|] + p[|m|..|m| + 1] + p[|m| + 1..|m| + 1 + z] + (p[|p| - 8..|p| - 4] + p[|p| - 4..]);
  }

  lemma PaddedLengthIs(n: nat)
    ensures (n + 9 + 63) / 64 * 64 == n + 1 + ZeroBytes(n) + 8
  {
    ZerosAreStandard(n);
    var q := (n + 1 + ZeroBytes(n) + 8) / 64;
    assert 64 * q == n + 1 + ZeroBytes(n) + 8;
    assert (n + 9 + 63) / 64 == q;
  }

  lemma LengthWords(n: nat)
    requires IsExact(n)
    ensures ToUint32(n / TWO32) == n / TWO32 && ToUint32(n) == n % TWO32
  {}

  ghost predicate HashIs(hash: seq<Word>, v: Vars) {
    |hash| == 8 && hash == [v.a, v.b, v.c, v.d, v.e, v.f, v.g, v.h]
  }

  method CompressBlock(view: array<byte>, offset: nat, hash: array<Word>, words: array<Word>, ghost v: Vars)
    requires offset + 64 <= view.Length && words.Length == 64 && words != hash && HashIs(hash[..], v)
    modifies hash, words
    ensures HashIs(hash[..], Compress(v, BlockAt(view[..], offset)))
  {
    hide W, Rounds, BlockAt, ToUint32;
    FillSchedule(view, offset, words);
    var r := RunRounds(Vars(hash[0], hash[1], hash[2], hash[3], hash[4], hash[5], hash[6], hash[7]), words,
                       BlockAt(view[..], offset));
    ghost var old8 := hash[..];
    AddsBack(v, r, old8);
    hash[0] := ToUint32(Plus(hash[0], r.a)); hash[1] := ToUint32(Plus(hash[1], r.b));
    hash[2] := ToUint32(Plus(hash[2], r.c)); hash[3] := ToUint32(Plus(hash[3], r.d));
    hash[4] := ToUint32(Plus(hash[4], r.e)); hash[5] := ToUint32(Plus(hash[5], r.f));
    hash[6] := ToUint32(Plus(hash[6], r.g)); hash[7] := ToUint32(Plus(hash[7], r.h));
  }

  lemma AddsBack(v: Vars, r: Vars, hash: seq<Word>)
    requires HashIs(hash, v)
    ensures ToUint32(hash[0] + r.a) == Add(r.a, v.a) && ToUint32(hash[1] + r.b) == Add(r.b, v.b)
    ensures ToUint32(hash[2] + r.c) == Add(r.c, v.c) && ToUint32(hash[3] + r.d) == Add(r.d, v.d)
    ensures ToUint32(hash[4] + r.e) == Add(r.e, v.e) && ToUint32(hash[5] + r.f) == Add(r.f, v.f)
    ensures ToUint32(hash[6] + r.g) == Add(r.g, v.g) && ToUint32(hash[7] + r.h) == Add(r.h, v.h)
  {}

  method WriteWords(hash: array<Word>, ghost v: Vars) returns (output: array<byte>)
    requires hash.Length == 8 && HashIs(hash[..], v)
    ensures output[..] == Digest(v)
  {
    hide Big32, ToUint32, Digest;
    output := new byte[32](i => 0);
    for index := 0 to 8
      invariant forall k :: 0 <= k < index ==> output[4 * k..4 * k + 4] == Big32(hash[k])
    {
      ghost var before := output[..];
      SetUint32(output, index * 4, hash[index]);
      UnsignedOfWord(hash[index]);
      forall k | 0 <= k < index
        ensures output[4 * k..4 * k + 4] == Big32(hash[k])
      {
        assert output[4 * k..4 * k + 4] == before[4 * k..4 * k + 4];
      }
    }
    ghost var b := output[..];
    assert forall k :: 0 <= k < 8 ==> b[4 * k..4 * k + 4] == Big32(hash[k]);
    EightWords(b, hash[..], v);
  }

  method Sha256Bytes(source: seq<byte>) returns (output: array<byte>)
    requires |source| < 0x4_0000_0000_0000
    ensures output[..] == Hash(source)
  {
    hide Compress, BlockAt, Padded, InitialHash, Big32;
    var padded := Pad(source);
    PaddedLength(source);
    var hash := new Word[8](i requires 0 <= i < 8 => InitialHash(i));
    var words := new Word[64](i => 0);
    var offset, n := 0, 0;
    while offset < padded.Length
      invariant offset == 64 * n <= padded.Length && hash.Length == 8 && words.Length == 64
      invariant padded[..] == Padded(source)
      invariant HashIs(hash[..], HashAfter(Padded(source), n))
    {
      CompressBlock(padded, offset, hash, words, HashAfter(Padded(source), n));
      offset, n := offset + 64, n + 1;
    }
    output := WriteWords(hash, HashAfter(Padded(source), n));
  }

  lemma EightWords(b: seq<byte>, hash: seq<Word>, v: Vars)
    requires |b| == 32 && HashIs(hash, v)
    requires forall k :: 0 <= k < 8 ==> b[4 * k..4 * k + 4] == Big32(hash[k])
    ensures b == Digest(v)
  {
    hide Big32;
    var part := (k: nat) requires k < 8 => b[4 * k..4 * k + 4];
    assert hash[0] == v.a && hash[1] == v.b && hash[2] == v.c && hash[3] == v.d;
    assert hash[4] == v.e && hash[5] == v.f && hash[6] == v.g && hash[7] == v.h;
    assert part(0) == Big32(v.a) && part(1) == Big32(v.b) && part(2) == Big32(v.c) && part(3) == Big32(v.d);
    assert part(4) == Big32(v.e) && part(5) == Big32(v.f) && part(6) == Big32(v.g) && part(7) == Big32(v.h);
    var left := part(0) + part(1) + part(2) + part(3);
    assert b[..16] == left;
    assert b[16..] == part(4) + part(5) + part(6) + part(7);
    assert b == left + part(4) + part(5) + part(6) + part(7);
  }
}
