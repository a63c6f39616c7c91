// packages/analyzer/src/keccak.js: the sponge of keccak256Bytes and its padding.

module KeccakSponge {
  import opened Keccak
  import opened KeccakSpec

  // ---- The padding ----

  function PaddedLength(n: nat): nat {
    (n + 1 + (RATE - 1)) / RATE * RATE
  }

  function Zeros(n: nat): seq<bv8> {
    seq(n, i => 0)
  }

  // What follows a message when r bytes are left of its last block: the bits 1 0...0 1.
  function Tail(r: nat): (t: seq<bv8>)
    requires r > 0
    ensures |t| == r
  {
    if r == 1 then [0x81] else [0x01] + Zeros(r - 2) + [0x80]
  }

  lemma LengthFits(n: nat)
    ensures n < PaddedLength(n) <= n + RATE
    ensures PaddedLength(n) % RATE == 0
  {
    var q := (n + RATE) / RATE;
    assert q * RATE <= n + RATE < q * RATE + RATE;
  }

  function Padded(m: seq<bv8>): (p: seq<bv8>)
    ensures |p| == PaddedLength(|m|)
  {
    LengthFits(|m|);
    m + Tail(PaddedLength(|m|) - |m|)
  }

  lemma Associates<T>(a: seq<T>, b: seq<T>, c: seq<T>)
    ensures (a + b) + c == a + (b + c)
  {}

  lemma RestOfJoin<T>(a: seq<T>, b: seq<T>)
    requires a != []
    ensures (a + b)[0] == a[0] && (a + b)[1..] == a[1..] + b
  {}

  lemma {:induction false} BitsOfJoin(a: seq<bv8>, b: seq<bv8>)
    ensures Bits(a + b) == Bits(a) + Bits(b)
  {
    hide ByteBits;
    if a == [] {
      assert a + b == b;
    } else {
      BitsOfJoin(a[1..], b);
      RestOfJoin(a, b);
      Associates(ByteBits(a[0]), Bits(a[1..]), Bits(b));
    }
  }

  lemma {:induction false} BitsOfZeros(n: nat)
    ensures Bits(Zeros(n)) == seq(8 * n, i => false)
  {
    if n > 0 {
      BitsOfZeros(n - 1);
      assert Zeros(n)[1..] == Zeros(n - 1);
      ZeroBits();
    }
  }

  lemma ZeroBits()
    ensures ByteBits(0) == [false, false, false, false, false, false, false, false]
    ensures ByteBits(0x01) == [true, false, false, false, false, false, false, false]
    ensures ByteBits(0x80) == [false, false, false, false, false, false, false, true]
    ensures ByteBits(0x81) == [true, false, false, false, false, false, false, true]
  {}

  lemma SingleBits(b: bv8)
    ensures Bits([b]) == ByteBits(b)
  {
    hide ByteBits;
    assert [b][1..] == [];
  }

  lemma BitsOfTail(r: nat)
    requires r > 0
    ensures Bits(Tail(r)) == [true] + seq(8 * r - 2, i => false) + [true]
  {
    hide Bits, ByteBits;
    ZeroBits();
    if r == 1 {
      SingleBits(0x81);
    } else {
      SingleBits(0x01);
      SingleBits(0x80);
      BitsOfZeros(r - 2);
      BitsOfJoin([0x01], Zeros(r - 2));
      BitsOfJoin([0x01] + Zeros(r - 2), [0x80]);
    }
  }

  // The padded message is the message followed by pad10*1.
  lemma PaddingIsStandard(m: seq<bv8>)
    ensures Bits(Padded(m)) == Bits(m) + Pad101(8 * |m|)
    ensures |Padded(m)| % RATE == 0
  {
    hide Bits, Tail, PaddedLength, Padded, Pad101;
    LengthFits(|m|);
    var r := PaddedLength(|m|) - |m|;
    assert Padded(m) == m + Tail(r) by { PaddedIs(m); }
    BitsOfJoin(m, Tail(r));
    TailIsPad101(|m|, r);
  }

  lemma TailIsPad101(n: nat, r: nat)
    requires 0 < r <= RATE && (n + r) % RATE == 0
    ensures Bits(Tail(r)) == Pad101(8 * n)
  {
    hide Bits, Tail;
    BitsOfTail(r);
    ZerosBetween(n, r);
  }

  lemma PaddedIs(m: seq<bv8>)
    ensures |m| < PaddedLength(|m|) && Padded(m) == m + Tail(PaddedLength(|m|) - |m|)
  {
    LengthFits(|m|);
  }

  lemma ZerosBetween(n: nat, r: nat)
    requires 0 < r <= RATE && (n + r) % RATE == 0
    ensures (-(8 * n) - 2) % 1088 == 8 * r - 2
  {
    var q := (n + r) / RATE;
    assert -(8 * n) - 2 == 8 * r - 2 + 1088 * (-q);
  }

  lemma PaddingIsInjective(m: seq<bv8>, n: seq<bv8>)
    requires Padded(m) == Padded(n)
    ensures m == n
  {
    if |m| == |n| {
      SamePrefix(m, n);
    } else if |m| < |n| {
      LastOne(m, |n|);
      FirstOne(n);
    } else {
      LastOne(n, |m|);
      FirstOne(m);
    }
  }

  lemma SamePrefix(m: seq<bv8>, n: seq<bv8>)
    requires Padded(m) == Padded(n) && |m| == |n|
    ensures m == n
  {
    hide Tail;
    assert m == Padded(m)[..|m|];
    assert n == Padded(n)[..|n|];
  }

  lemma FirstOne(m: seq<bv8>)
    ensures |m| < |Padded(m)|
    ensures Padded(m)[|m|] == 0x01 || Padded(m)[|m|] == 0x81
  {
    LengthFits(|m|);
  }

  lemma LastOne(m: seq<bv8>, k: nat)
    requires |m| < k < |Padded(m)|
    ensures Padded(m)[k] == 0 || Padded(m)[k] == 0x80
  {
  }

  method Pad(bytes: seq<bv8>) returns (padded: array<bv8>)
    ensures fresh(padded) && padded[..] == Padded(bytes)
  {
    LengthFits(|bytes|);
    padded := new bv8[PaddedLength(|bytes|)](i => 0);
    forall i | 0 <= i < |bytes| {
      padded[i] := bytes[i];
    }
    padded[|bytes|] := 0x01;
    padded[padded.Length - 1] := padded[padded.Length - 1] | 0x80;
  }

  // ---- Absorbing ----

  // How many of the first i bytes of a block go to lane l.
  function Taken(i: nat, l: nat): (n: nat)
    ensures n <= 8 && (n > 0 ==> 8 * l + n <= i)
  {
    if i <= 8 * l then 0 else if i >= 8 * l + 8 then 8 else i - 8 * l
  }

  // The state after the first i bytes of a block.
  ghost predicate HoldsMixed(state: seq<BigInt>, a: State, block: seq<bv8>, i: nat)
    requires i <= RATE == |block|
  {
    |state| == 25 && forall l :: 0 <= l < 25 ==> state[l] == Wide(Mixed(a[l], block, 8 * l, Taken(i, l)))
  }

  method AbsorbBlock(state: array<BigInt>, padded: array<bv8>, offset: nat, ghost a: State)
    requires state.Length == 25 && Holds(state[..], a)
    requires offset + RATE <= padded.Length
    modifies state
    ensures Holds(state[..], XorBlock(a, padded[offset..offset + RATE]))
  {
    hide Wide, BitXor, ShiftLeft, Mixed, HoldsMixed, XorBlock, Holds;
    ghost var block := padded[offset..offset + RATE];
    NothingMixed(state[..], a, block);
    for i := 0 to RATE
      invariant HoldsMixed(state[..], a, block, i)
    {
      var lane := i / 8;
      var shift := i % 8 * 8;
      ghost var before := state[..];
      state[lane] := BitXor(state[lane], ShiftLeft(padded[offset + i] as BigInt, shift));
      assert state[..] == before[lane := BitXor(before[lane], ShiftLeft(block[i] as BigInt, shift))];
      OneByteMixed(before, a, block, i);
    }
    AllMixed(state[..], a, block);
  }

  lemma NothingMixed(state: seq<BigInt>, a: State, block: seq<bv8>)
    requires Holds(state, a) && |block| == RATE
    ensures HoldsMixed(state, a, block, 0)
  {
    hide Wide;
  }

  lemma OneByteMixed(state: seq<BigInt>, a: State, block: seq<bv8>, i: nat)
    requires i < RATE == |block| && HoldsMixed(state, a, block, i)
    ensures HoldsMixed(state[i / 8 := BitXor(state[i / 8], ShiftLeft(block[i] as BigInt, i % 8 * 8))], a, block, i + 1)
  {
    hide Wide, BitXor, ShiftLeft, Mixed, Taken;
    var lane, k := i / 8, i % 8;
    TakenNext(i);
    MixedNext(a[lane], block, 8 * lane, k);
    WideByte(Mixed(a[lane], block, 8 * lane, k), block[i], k);
  }

  lemma TakenNext(i: nat)
    ensures Taken(i, i / 8) == i % 8 && Taken(i + 1, i / 8) == i % 8 + 1
    ensures forall l: nat :: l != i / 8 ==> Taken(i + 1, l) == Taken(i, l)
  {}

  lemma MixedNext(v: bv64, b: seq<bv8>, base: nat, k: nat)
    requires k < 8 && base + k < |b|
    ensures Mixed(v, b, base, k + 1) == Xor(Mixed(v, b, base, k), ByteAt(b[base + k], k))
  {
    hide Xor, ByteAt;
  }

  lemma AllMixed(state: seq<BigInt>, a: State, block: seq<bv8>)
    requires |block| == RATE && HoldsMixed(state, a, block, RATE)
    ensures Holds(state, XorBlock(a, block))
  {
    hide Wide, LaneOfBytes, Xor;
    forall l | 0 <= l < 25
      ensures state[l] == Wide(XorBlock(a, block)[l])
    {
      if l < 17 {
        MixedLane(a[l], block, 8 * l);
      }
    }
  }

  method Keccak256Bytes(bytes: seq<bv8>) returns (output: array<bv8>)
    ensures output[..] == Digest(Absorb(zero, Padded(bytes), |Padded(bytes)| / RATE))
  {
    hide Wide, Holds, Permute, Padded, PaddedLength, XorBlock, Digest, Absorb, LowByte, ShiftRight;
    var padded := Pad(bytes);
    var state := new BigInt[25](i => 0);
    ZeroState(state[..]);
    var offset, n := 0, 0;
    LengthFits(|bytes|);
    AbsorbNone(Padded(bytes));
    while offset < padded.Length
      invariant offset == RATE * n <= padded.Length
      invariant padded[..] == Padded(bytes)
      invariant state.Length == 25 && Holds(state[..], Absorb(zero, Padded(bytes), n))
    {
      ghost var a := Absorb(zero, Padded(bytes), n);
      AbsorbBlock(state, padded, offset, a);
      Permutation(state, XorBlock(a, padded[offset..offset + RATE]));
      AbsorbNext(Padded(bytes), n);
      offset, n := offset + RATE, n + 1;
    }
    assert n == |Padded(bytes)| / RATE;
    ghost var last := Absorb(zero, Padded(bytes), n);
    output := new bv8[32](i => 0);
    for i := 0 to output.Length
      invariant Holds(state[..], last)
      invariant forall k :: 0 <= k < i ==> output[k] == Digest(last)[k]
    {
      var lane := i / 8;
      var shift := i % 8 * 8;
      output[i] := LowByte(ShiftRight(state[lane], shift));
      DigestByte(state[..], last, i);
    }
  }

  lemma ZeroState(state: seq<BigInt>)
    requires |state| == 25 && forall i :: 0 <= i < 25 ==> state[i] == 0
    ensures Holds(state, zero)
  {
    assert Wide(0) == 0;
  }

  lemma AbsorbNone(bytes: seq<bv8>)
    ensures Absorb(zero, bytes, 0) == zero
  {}

  lemma AbsorbNext(bytes: seq<bv8>, n: nat)
    requires RATE * (n + 1) <= |bytes|
    ensures Absorb(zero, bytes, n + 1) == Permute(XorBlock(Absorb(zero, bytes, n), bytes[RATE * n..RATE * n + RATE]))
  {
    hide Permute, XorBlock;
  }

  lemma DigestByte(state: seq<BigInt>, a: State, i: nat)
    requires Holds(state, a) && i < 32
    ensures LowByte(ShiftRight(state[i / 8], i % 8 * 8)) == Digest(a)[i]
  {
    hide Wide, LowByte, ShiftRight, ByteOfLane;
    NarrowByte(a[i / 8], i % 8);
  }
}
