// packages/analyzer/src/keccak.js: Keccak-256 over BigInt lanes.
//
// A BigInt is a bit-vector of 128 bits read as two's complement. That is wide enough to be exact: lanes stay
// below 2^64 (this is part of what is proved), a lane is shifted by less than 64 places, and what ~ sets
// above bit 63 is cut off by the conjunction with a lane.

module Keccak {
  import opened KeccakOffsets
  import opened KeccakSpec

  type BigInt = bv128

  const MASK_64: BigInt := 0xffff_ffff_ffff_ffff

  function BitXor(v: BigInt, w: BigInt): BigInt { v ^ w }
  function BitAnd(v: BigInt, w: BigInt): BigInt { v & w }
  function BitOr(v: BigInt, w: BigInt): BigInt { v | w }
  function BitNot(v: BigInt): BigInt { !v }

  function ShiftLeft(v: BigInt, n: nat): BigInt
    requires n <= 64
  {
    v << n as bv8
  }

  function ShiftRight(v: BigInt, n: nat): BigInt
    requires n <= 64
  {
    v >> n as bv8
  }

  // A lane of the standard as a BigInt.
  function Wide(v: bv64): BigInt {
    v as BigInt
  }

  ghost predicate Holds(state: seq<BigInt>, a: State) {
    |state| == 25 && forall i :: 0 <= i < 25 ==> state[i] == Wide(a[i])
  }

  // ---- Operations on lanes ----

  function RotateLeft64(value: BigInt, shift: nat): BigInt
    requires shift < 64
  {
    if shift == 0 then BitAnd(value, MASK_64)
    else BitAnd(BitOr(ShiftLeft(value, shift), ShiftRight(value, 64 - shift)), MASK_64)
  }

  predicate Agrees(v: bv64, shift: nat)
    requires shift < 64
  {
    RotateLeft64(Wide(v), shift) == Wide(RotL(v, shift))
  }

  // One lemma for each rotation that the table asks for.
  lemma RotateBy0(v: bv64) ensures Agrees(v, 0) {}
  lemma RotateBy1(v: bv64) ensures Agrees(v, 1) {}
  lemma RotateBy2(v: bv64) ensures Agrees(v, 2) { assert 2 as bv7 == 2 && 2 as bv8 == 2 && 62 as bv8 == 62; }
  lemma RotateBy3(v: bv64) ensures Agrees(v, 3) { assert 3 as bv7 == 3 && 3 as bv8 == 3 && 61 as bv8 == 61; }
  lemma RotateBy6(v: bv64) ensures Agrees(v, 6) { assert 6 as bv7 == 6 && 6 as bv8 == 6 && 58 as bv8 == 58; }
  lemma RotateBy8(v: bv64) ensures Agrees(v, 8) { assert 8 as bv7 == 8 && 8 as bv8 == 8 && 56 as bv8 == 56; }
  lemma RotateBy10(v: bv64) ensures Agrees(v, 10) { assert 10 as bv7 == 10 && 10 as bv8 == 10 && 54 as bv8 == 54; }
  lemma RotateBy14(v: bv64) ensures Agrees(v, 14) { assert 14 as bv7 == 14 && 14 as bv8 == 14 && 50 as bv8 == 50; }
  lemma RotateBy15(v: bv64) ensures Agrees(v, 15) { assert 15 as bv7 == 15 && 15 as bv8 == 15 && 49 as bv8 == 49; }
  lemma RotateBy18(v: bv64) ensures Agrees(v, 18) { assert 18 as bv7 == 18 && 18 as bv8 == 18 && 46 as bv8 == 46; }
  lemma RotateBy20(v: bv64) ensures Agrees(v, 20) { assert 20 as bv7 == 20 && 20 as bv8 == 20 && 44 as bv8 == 44; }
  lemma RotateBy21(v: bv64) ensures Agrees(v, 21) { assert 21 as bv7 == 21 && 21 as bv8 == 21 && 43 as bv8 == 43; }
  lemma RotateBy25(v: bv64) ensures Agrees(v, 25) { assert 25 as bv7 == 25 && 25 as bv8 == 25 && 39 as bv8 == 39; }
  lemma RotateBy27(v: bv64) ensures Agrees(v, 27) { assert 27 as bv7 == 27 && 27 as bv8 == 27 && 37 as bv8 == 37; }
  lemma RotateBy28(v: bv64) ensures Agrees(v, 28) { assert 28 as bv7 == 28 && 28 as bv8 == 28 && 36 as bv8 == 36; }
  lemma RotateBy36(v: bv64) ensures Agrees(v, 36) { assert 36 as bv7 == 36 && 36 as bv8 == 36 && 28 as bv8 == 28; }
  lemma RotateBy39(v: bv64) ensures Agrees(v, 39) { assert 39 as bv7 == 39 && 39 as bv8 == 39 && 25 as bv8 == 25; }
  lemma RotateBy41(v: bv64) ensures Agrees(v, 41) { assert 41 as bv7 == 41 && 41 as bv8 == 41 && 23 as bv8 == 23; }
  lemma RotateBy43(v: bv64) ensures Agrees(v, 43) { assert 43 as bv7 == 43 && 43 as bv8 == 43 && 21 as bv8 == 21; }
  lemma RotateBy44(v: bv64) ensures Agrees(v, 44) { assert 44 as bv7 == 44 && 44 as bv8 == 44 && 20 as bv8 == 20; }
  lemma RotateBy45(v: bv64) ensures Agrees(v, 45) { assert 45 as bv7 == 45 && 45 as bv8 == 45 && 19 as bv8 == 19; }
  lemma RotateBy55(v: bv64) ensures Agrees(v, 55) { assert 55 as bv7 == 55 && 55 as bv8 == 55 && 9 as bv8 == 9; }
  lemma RotateBy56(v: bv64) ensures Agrees(v, 56) { assert 56 as bv7 == 56 && 56 as bv8 == 56 && 8 as bv8 == 8; }
  lemma RotateBy61(v: bv64) ensures Agrees(v, 61) { assert 61 as bv7 == 61 && 61 as bv8 == 61 && 3 as bv8 == 3; }
  lemma RotateBy62(v: bv64) ensures Agrees(v, 62) { assert 62 as bv7 == 62 && 62 as bv8 == 62 && 2 as bv8 == 2; }

  lemma RotationsAgree(v: bv64, i: nat)
    requires i < 25
    ensures Agrees(v, Offset(i))
  {
    hide Agrees, RotateLeft64, RotL, Wide;

    RotateBy0(v); RotateBy1(v); RotateBy2(v); RotateBy3(v); RotateBy6(v);
    RotateBy8(v); RotateBy10(v); RotateBy14(v); RotateBy15(v); RotateBy18(v);
    RotateBy20(v); RotateBy21(v); RotateBy25(v); RotateBy27(v); RotateBy28(v);
    RotateBy36(v); RotateBy39(v); RotateBy41(v); RotateBy43(v); RotateBy44(v);
    RotateBy45(v); RotateBy55(v); RotateBy56(v); RotateBy61(v); RotateBy62(v);
  }

  // The shift to the left loses nothing, as on BigInts.
  predicate Exact(v: bv64, shift: nat)
    requires shift < 64
  {
    ShiftRight(ShiftLeft(Wide(v), shift), shift) == Wide(v)
  }

  lemma ExactBy0(v: bv64) ensures Exact(v, 0) { assert 0 as bv8 == 0; }
  lemma ExactBy1(v: bv64) ensures Exact(v, 1) { assert 1 as bv8 == 1; }
  lemma ExactBy2(v: bv64) ensures Exact(v, 2) { assert 2 as bv8 == 2; }
  lemma ExactBy3(v: bv64) ensures Exact(v, 3) { assert 3 as bv8 == 3; }
  lemma ExactBy6(v: bv64) ensures Exact(v, 6) { assert 6 as bv8 == 6; }
  lemma ExactBy8(v: bv64) ensures Exact(v, 8) { assert 8 as bv8 == 8; }
  lemma ExactBy10(v: bv64) ensures Exact(v, 10) { assert 10 as bv8 == 10; }
  lemma ExactBy14(v: bv64) ensures Exact(v, 14) { assert 14 as bv8 == 14; }
  lemma ExactBy15(v: bv64) ensures Exact(v, 15) { assert 15 as bv8 == 15; }
  lemma ExactBy18(v: bv64) ensures Exact(v, 18) { assert 18 as bv8 == 18; }
  lemma ExactBy20(v: bv64) ensures Exact(v, 20) { assert 20 as bv8 == 20; }
  lemma ExactBy21(v: bv64) ensures Exact(v, 21) { assert 21 as bv8 == 21; }
  lemma ExactBy25(v: bv64) ensures Exact(v, 25) { assert 25 as bv8 == 25; }
  lemma ExactBy27(v: bv64) ensures Exact(v, 27) { assert 27 as bv8 == 27; }
  lemma ExactBy28(v: bv64) ensures Exact(v, 28) { assert 28 as bv8 == 28; }
  lemma ExactBy36(v: bv64) ensures Exact(v, 36) { assert 36 as bv8 == 36; }
  lemma ExactBy39(v: bv64) ensures Exact(v, 39) { assert 39 as bv8 == 39; }
  lemma ExactBy41(v: bv64) ensures Exact(v, 41) { assert 41 as bv8 == 41; }
  lemma ExactBy43(v: bv64) ensures Exact(v, 43) { assert 43 as bv8 == 43; }
  lemma ExactBy44(v: bv64) ensures Exact(v, 44) { assert 44 as bv8 == 44; }
  lemma ExactBy45(v: bv64) ensures Exact(v, 45) { assert 45 as bv8 == 45; }
  lemma ExactBy55(v: bv64) ensures Exact(v, 55) { assert 55 as bv8 == 55; }
  lemma ExactBy56(v: bv64) ensures Exact(v, 56) { assert 56 as bv8 == 56; }
  lemma ExactBy61(v: bv64) ensures Exact(v, 61) { assert 61 as bv8 == 61; }
  lemma ExactBy62(v: bv64) ensures Exact(v, 62) { assert 62 as bv8 == 62; }

  lemma ShiftIsExact(v: bv64, i: nat)
    requires i < 25
    ensures Exact(v, Offset(i))
  {
    hide Exact, Wide;

    ExactBy0(v); ExactBy1(v); ExactBy2(v); ExactBy3(v); ExactBy6(v);
    ExactBy8(v); ExactBy10(v); ExactBy14(v); ExactBy15(v); ExactBy18(v);
    ExactBy20(v); ExactBy21(v); ExactBy25(v); ExactBy27(v); ExactBy28(v);
    ExactBy36(v); ExactBy39(v); ExactBy41(v); ExactBy43(v); ExactBy44(v);
    ExactBy45(v); ExactBy55(v); ExactBy56(v); ExactBy61(v); ExactBy62(v);
  }

  lemma WideXor(v: bv64, w: bv64)
    ensures BitXor(Wide(v), Wide(w)) == Wide(Xor(v, w))
  {}

  lemma WideMasked(v: bv64)
    ensures BitAnd(Wide(v), MASK_64) == Wide(v)
  {}

  lemma WideSelect(u: bv64, v: bv64, w: bv64)
    ensures BitAnd(BitXor(Wide(u), BitAnd(BitNot(Wide(v)), Wide(w))), MASK_64) == Wide(Select(u, v, w))
  {}

  lemma WideFits(v: bv64)
    ensures Wide(v) <= MASK_64
  {}

  // ---- The steps of a round, in place ----

  method ThetaEffects(state: array<BigInt>, ghost a: State) returns (d: array<BigInt>)
    requires state.Length == 25 && Holds(state[..], a)
    ensures fresh(d)
    ensures d.Length == 5 && forall k :: 0 <= k < 5 ==> d[k] == Wide(ThetaEffect(a, k))
  {
    hide Wide, RotateLeft64, BitXor, Column, ThetaEffect;
    var c := new BigInt[5](i => 0);
    d := new BigInt[5](i => 0);
    for x := 0 to 5
      invariant forall k :: 0 <= k < x ==> c[k] == Wide(Column(a, k))
    {
      c[x] := BitXor(BitXor(BitXor(BitXor(state[x], state[x + 5]), state[x + 10]), state[x + 15]), state[x + 20]);
      WideColumn(state[..], a, x);
    }
    for x := 0 to 5
      invariant forall k :: 0 <= k < 5 ==> c[k] == Wide(Column(a, k))
      invariant forall k :: 0 <= k < x ==> d[k] == Wide(ThetaEffect(a, k))
    {
      var previous, next := (x + 4) % 5, (x + 1) % 5;
      d[x] := BitXor(c[previous], RotateLeft64(c[next], 1));
      WideEffect(a, x);
    }
  }

  method ThetaInPlace(state: array<BigInt>, ghost a: State)
    requires state.Length == 25 && Holds(state[..], a)
    modifies state
    ensures Holds(state[..], Theta(a))
  {
    hide Wide, BitXor, BitAnd, Theta, ThetaEffect;
    var d := ThetaEffects(state, a);
    for y := 0 to 5
      invariant forall k :: 0 <= k < 5 ==> d[k] == Wide(ThetaEffect(a, k))
      invariant forall k :: 0 <= k < 5 * y ==> state[k] == Wide(Theta(a)[k])
      invariant forall k :: 5 * y <= k < 25 ==> state[k] == Wide(a[k])
    {
      for x := 0 to 5
        invariant forall k :: 0 <= k < 5 ==> d[k] == Wide(ThetaEffect(a, k))
        invariant forall k :: 0 <= k < 5 * y + x ==> state[k] == Wide(Theta(a)[k])
        invariant forall k :: 5 * y + x <= k < 25 ==> state[k] == Wide(a[k])
      {
        var index := x + 5 * y;
        state[index] := BitAnd(BitXor(state[index], d[x]), MASK_64);
        WideTheta(a, x, y);
      }
    }
  }

  lemma WideColumn(s: seq<BigInt>, a: State, x: nat)
    requires x < 5 && Holds(s, a)
    ensures BitXor(BitXor(BitXor(BitXor(s[x], s[x + 5]), s[x + 10]), s[x + 15]), s[x + 20]) == Wide(Column(a, x))
  {
    hide Wide, Xor, BitXor;
    WideXor(a[x], a[x + 5]);
    WideXor(Xor(a[x], a[x + 5]), a[x + 10]);
    WideXor(Xor(Xor(a[x], a[x + 5]), a[x + 10]), a[x + 15]);
    WideXor(Xor(Xor(Xor(a[x], a[x + 5]), a[x + 10]), a[x + 15]), a[x + 20]);
  }

  // The columns wrap around: (x + 4) mod 5 is x - 1 mod 5.
  lemma WideEffect(a: State, x: nat)
    requires x < 5
    ensures BitXor(Wide(Column(a, (x + 4) % 5)), RotateLeft64(Wide(Column(a, (x + 1) % 5)), 1))
      == Wide(ThetaEffect(a, x))
  {
    hide Wide, BitXor, RotateLeft64, RotL, Column, Xor;
    RotateBy1(Column(a, (x + 1) % 5));
    assert (x + 4) % 5 == (x - 1) % 5;
    WideXor(Column(a, (x - 1) % 5), RotL(Column(a, (x + 1) % 5), 1));
  }

  lemma WideTheta(a: State, x: nat, y: nat)
    requires x < 5 && y < 5
    ensures BitAnd(BitXor(Wide(a[x + 5 * y]), Wide(ThetaEffect(a, x))), MASK_64) == Wide(Theta(a)[x + 5 * y])
  {
    hide Wide, BitXor, BitAnd, Xor, ThetaEffect;
    WideXor(a[x + 5 * y], ThetaEffect(a, x));
    WideMasked(Xor(a[x + 5 * y], ThetaEffect(a, x)));
    assert (x + 5 * y) % 5 == x;
  }

  // The lane that the scatter of rho and pi moves to lane k, as pi gathers it.
  function Source(k: nat): (s: nat)
    requires k < 25
    ensures s < 25
  {
    (k % 5 + 3 * (k / 5)) % 5 + 5 * (k % 5)
  }

  function Target(x: nat, y: nat): (t: nat)
    requires x < 5 && y < 5
    ensures t < 25
  {
    y + 5 * ((2 * x + 3 * y) % 5)
  }

  // Modulo 5, (x, y) -> (y, 2x + 3y) and (x, y) -> (x + 3y, x) undo each other.
  lemma WalkBack(x: nat, y: nat, t: nat)
    requires x < 5 && y < 5 && t == (2 * x + 3 * y) % 5
    ensures (y + 3 * t) % 5 == x
  {
    var q := (2 * x + 3 * y) / 5;
    assert y + 3 * t == x + 5 * (x + 2 * y - 3 * q);
  }

  lemma WalkOn(x: nat, y: nat, t: nat)
    requires x < 5 && y < 5 && t == (x + 3 * y) % 5
    ensures (2 * t + 3 * x) % 5 == y
  {
    var q := (x + 3 * y) / 5;
    assert 2 * t + 3 * x == y + 5 * (x + y - 2 * q);
  }

  lemma SourceOfTarget(x: nat, y: nat)
    requires x < 5 && y < 5
    ensures Source(Target(x, y)) == x + 5 * y
  {
    var t := (2 * x + 3 * y) % 5;
    WalkBack(x, y, t);
    assert Target(x, y) % 5 == y && Target(x, y) / 5 == t;
  }

  lemma TargetOfSource(k: nat)
    requires k < 25
    ensures Target(Source(k) % 5, Source(k) / 5) == k
  {
    var x, y := k % 5, k / 5;
    var t := (x + 3 * y) % 5;
    WalkOn(x, y, t);
    assert Source(k) == t + 5 * x;
    assert Source(k) % 5 == t && Source(k) / 5 == x;
    assert k == x + 5 * y;
  }

  // Scattering the rotated lanes builds what pi gathers.
  method RhoPi(state: array<BigInt>, ghost a: State) returns (b: array<BigInt>)
    requires state.Length == 25 && Holds(state[..], a)
    ensures fresh(b) && b.Length == 25 && Holds(b[..], Pi(Rho(a)))
  {
    hide Wide, RotateLeft64, Rho, RotL, Source, Target, Offset;
    b := new BigInt[25](i => 0);
    for y := 0 to 5
      invariant forall k :: 0 <= k < 25 && Source(k) < 5 * y ==> b[k] == Wide(Pi(Rho(a))[k])
    {
      for x := 0 to 5
        invariant forall k :: 0 <= k < 25 && Source(k) < 5 * y + x ==> b[k] == Wide(Pi(Rho(a))[k])
      {
        var sourceIndex := x + 5 * y;
        var targetX := y;
        var targetY := (2 * x + 3 * y) % 5;
        b[targetX + 5 * targetY] := RotateLeft64(state[sourceIndex], Offset(sourceIndex));
        Scattered(a, x, y);
      }
    }
  }

  lemma Gathered(a: State, x: nat, y: nat)
    requires x < 5 && y < 5
    ensures Pi(Rho(a))[Target(x, y)] == RotL(a[x + 5 * y], Offset(x + 5 * y))
  {
    hide RotL, Offset, Target;
    SourceOfTarget(x, y);
  }

  lemma Scattered(a: State, x: nat, y: nat)
    requires x < 5 && y < 5
    ensures y + 5 * ((2 * x + 3 * y) % 5) == Target(x, y)
    ensures RotateLeft64(Wide(a[x + 5 * y]), Offset(x + 5 * y)) == Wide(Pi(Rho(a))[Target(x, y)])
    ensures forall k :: 0 <= k < 25 && Source(k) == x + 5 * y ==> k == Target(x, y)
  {
    hide Wide, RotateLeft64, RotL, Offset, Pi, Rho, Source, Target;
    assert y + 5 * ((2 * x + 3 * y) % 5) == Target(x, y) by { TargetIs(x, y); }
    Gathered(a, x, y);
    RotationsAgree(a[x + 5 * y], x + 5 * y);
    SourceIsHit(x, y);
  }

  lemma TargetIs(x: nat, y: nat)
    requires x < 5 && y < 5
    ensures Target(x, y) == y + 5 * ((2 * x + 3 * y) % 5)
  {}

  lemma SourceIsHit(x: nat, y: nat)
    requires x < 5 && y < 5
    ensures forall k :: 0 <= k < 25 && Source(k) == x + 5 * y ==> k == Target(x, y)
  {
    hide Source, Target;
    forall k | 0 <= k < 25 && Source(k) == x + 5 * y
      ensures k == Target(x, y)
    {
      TargetOfSource(k);
    }
  }

  method ChiInPlace(state: array<BigInt>, b: array<BigInt>, ghost a: State)
    requires state.Length == 25 && b.Length == 25 && state != b && Holds(b[..], a)
    modifies state
    ensures Holds(state[..], Chi(a))
  {
    hide Wide, BitXor, BitAnd, BitNot, Chi;
    for y := 0 to 5
      invariant forall k :: 0 <= k < 5 * y ==> state[k] == Wide(Chi(a)[k])
      invariant Holds(b[..], a)
    {
      for x := 0 to 5
        invariant forall k :: 0 <= k < 5 * y + x ==> state[k] == Wide(Chi(a)[k])
        invariant Holds(b[..], a)
      {
        var index := x + 5 * y;
        state[index] := BitAnd(BitXor(b[index], BitAnd(BitNot(b[(x + 1) % 5 + 5 * y]), b[(x + 2) % 5 + 5 * y])),
                               MASK_64);
        WideChi(a, x, y);
      }
    }
  }

  lemma ChiAt(a: State, x: nat, y: nat)
    requires x < 5 && y < 5
    ensures Chi(a)[x + 5 * y] == ChiLane(a, x, y)
  {
    hide ChiLane;
    var i := x + 5 * y;
    assert i % 5 == x && i / 5 == y;
  }

  lemma WideChi(a: State, x: nat, y: nat)
    requires x < 5 && y < 5
    ensures BitAnd(BitXor(Wide(a[x + 5 * y]),
                          BitAnd(BitNot(Wide(a[(x + 1) % 5 + 5 * y])), Wide(a[(x + 2) % 5 + 5 * y]))),
                   MASK_64)
         == Wide(Chi(a)[x + 5 * y])
  {
    hide Wide, BitXor, BitAnd, BitNot, Select, Chi;
    ChiAt(a, x, y);
    WideSelect(a[x + 5 * y], a[(x + 1) % 5 + 5 * y], a[(x + 2) % 5 + 5 * y]);
  }

  // ---- The round constants ----

  // The table that permutation runs through.
  function TableConstant(ir: nat): bv64
    requires ir < 24
  {
    match ir
    case 0 => 0x0000000000000001 case 1 => 0x0000000000008082 case 2 => 0x800000000000808a
    case 3 => 0x8000000080008000 case 4 => 0x000000000000808b case 5 => 0x0000000080000001
    case 6 => 0x8000000080008081 case 7 => 0x8000000000008009 case 8 => 0x000000000000008a
    case 9 => 0x0000000000000088 case 10 => 0x0000000080008009 case 11 => 0x000000008000000a
    case 12 => 0x000000008000808b case 13 => 0x800000000000008b case 14 => 0x8000000000008089
    case 15 => 0x8000000000008003 case 16 => 0x8000000000008002 case 17 => 0x8000000000000080
    case 18 => 0x000000000000800a case 19 => 0x800000008000000a case 20 => 0x8000000080008081
    case 21 => 0x8000000000008080 case 22 => 0x0000000080000001 case _ => 0x8000000080008008
  }

  // The round constant read off a register r at step 7 ir.
  function ConstantAt(r: bv8): bv64 {
    var r1 := Clocked(r);
    var r2 := Clocked(r1);
    var r3 := Clocked(r2);
    var r4 := Clocked(r3);
    var r5 := Clocked(r4);
    var r6 := Clocked(r5);
    Tap(r, 0x1) | Tap(r1, 0x2) | Tap(r2, 0x8) | Tap(r3, 0x80)
    | Tap(r4, 0x8000) | Tap(r5, 0x8000_0000) | Tap(r6, 0x8000_0000_0000_0000)
  }

  function Clocked7(r: bv8): bv8 {
    Clocked(Clocked(Clocked(Clocked(Clocked(Clocked(Clocked(r)))))))
  }

  lemma Entry(ir: nat, r: bv8, next: bv8, c: bv64)
    requires Register(7 * ir) == r && Clocked7(r) == next && ConstantAt(r) == c
    ensures Register(7 * (ir + 1)) == next && RoundConstant(ir) == c
  {
    hide Clocked, Tap;
    var t := 7 * ir;
    assert Register(t + 1) == Clocked(Register(t));
    assert Register(t + 2) == Clocked(Register(t + 1));
    assert Register(t + 3) == Clocked(Register(t + 2));
    assert Register(t + 4) == Clocked(Register(t + 3));
    assert Register(t + 5) == Clocked(Register(t + 4));
    assert Register(t + 6) == Clocked(Register(t + 5));
    assert Register(t + 7) == Clocked(Register(t + 6));
  }

  lemma Entries0To5()
    requires Register(0) == 0x01
    ensures Register(42) == 0x35
    ensures RoundConstant(0) == 0x0000000000000001 && RoundConstant(1) == 0x0000000000008082
    ensures RoundConstant(2) == 0x800000000000808a && RoundConstant(3) == 0x8000000080008000
    ensures RoundConstant(4) == 0x000000000000808b && RoundConstant(5) == 0x0000000080000001
  {
    hide Register, RoundConstant;
    Entry(0, 0x01, 0x80, 0x0000000000000001);
    Entry(1, 0x80, 0xd8, 0x0000000000008082);
    Entry(2, 0xd8, 0x1a, 0x800000000000808a);
    Entry(3, 0x1a, 0xdf, 0x8000000080008000);
    Entry(4, 0xdf, 0x09, 0x000000000000808b);
    Entry(5, 0x09, 0x35, 0x0000000080000001);
  }

  lemma Entries6To11()
    requires Register(42) == 0x35
    ensures Register(84) == 0xd5
    ensures RoundConstant(6) == 0x8000000080008081 && RoundConstant(7) == 0x8000000000008009
    ensures RoundConstant(8) == 0x000000000000008a && RoundConstant(9) == 0x0000000000000088
    ensures RoundConstant(10) == 0x0000000080008009 && RoundConstant(11) == 0x000000008000000a
  {
    hide Register, RoundConstant;
    Entry(6, 0x35, 0x4f, 0x8000000080008081);
    Entry(7, 0x4f, 0xca, 0x8000000000008009);
    Entry(8, 0xca, 0x70, 0x000000000000008a);
    Entry(9, 0x70, 0x41, 0x0000000000000088);
    Entry(10, 0x41, 0xec, 0x0000000080008009);
    Entry(11, 0xec, 0xd5, 0x000000008000000a);
  }

  lemma Entries12To17()
    requires Register(84) == 0xd5
    ensures Register(126) == 0xf2
    ensures RoundConstant(12) == 0x000000008000808b && RoundConstant(13) == 0x800000000000008b
    ensures RoundConstant(14) == 0x8000000000008089 && RoundConstant(15) == 0x8000000000008003
    ensures RoundConstant(16) == 0x8000000000008002 && RoundConstant(17) == 0x8000000000000080
  {
    hide Register, RoundConstant;
    Entry(12, 0xd5, 0xcd, 0x000000008000808b);
    Entry(13, 0xcd, 0x63, 0x800000000000008b);
    Entry(14, 0x63, 0xab, 0x8000000000008089);
    Entry(15, 0xab, 0xaa, 0x8000000000008003);
    Entry(16, 0xaa, 0x2a, 0x8000000000008002);
    Entry(17, 0x2a, 0xf2, 0x8000000000000080);
  }

  lemma Entries18To23()
    requires Register(126) == 0xf2
    ensures Register(168) == 0x8e
    ensures RoundConstant(18) == 0x000000000000800a && RoundConstant(19) == 0x800000008000000a
    ensures RoundConstant(20) == 0x8000000080008081 && RoundConstant(21) == 0x8000000000008080
    ensures RoundConstant(22) == 0x0000000080000001 && RoundConstant(23) == 0x8000000080008008
  {
    hide Register, RoundConstant;
    Entry(18, 0xf2, 0xe8, 0x000000000000800a);
    Entry(19, 0xe8, 0x37, 0x800000008000000a);
    Entry(20, 0x37, 0x3e, 0x8000000080008081);
    Entry(21, 0x3e, 0x0b, 0x8000000000008080);
    Entry(22, 0x0b, 0x44, 0x0000000080000001);
    Entry(23, 0x44, 0x8e, 0x8000000080008008);
  }

  // The table holds what the shift register of the standard produces.
  lemma RoundConstantsAreStandard(ir: nat)
    requires ir < 24
    ensures TableConstant(ir) == RoundConstant(ir)
  {
    hide RoundConstant, Register;
    assert Register(0) == 0x01 by { FirstRegister(); }
    Entries0To5();
    Entries6To11();
    Entries12To17();
    Entries18To23();
  }

  lemma FirstRegister()
    ensures Register(0) == 0x01
  {}

  // ---- The permutation ----

  method Permutation(state: array<BigInt>, ghost a: State)
    requires state.Length == 25 && Holds(state[..], a)
    modifies state
    ensures Holds(state[..], Permute(a))
    ensures forall i :: 0 <= i < 25 ==> state[i] <= MASK_64
  {
    hide Wide, BitXor, BitAnd, Theta, Rho, Pi, Chi, Iota, RoundConstant, TableConstant;
    for ir := 0 to 24
      invariant Holds(state[..], Rounds(a, ir))
    {
      ghost var t := Theta(Rounds(a, ir));
      ThetaInPlace(state, Rounds(a, ir));
      var b := RhoPi(state, t);
      ChiInPlace(state, b, Pi(Rho(t)));
      state[0] := BitAnd(BitXor(state[0], Wide(TableConstant(ir))), MASK_64);
      WideIota(Chi(Pi(Rho(t))), ir);
    }
    LanesFit(state[..], Permute(a));
  }

  lemma WideIota(a: State, ir: nat)
    requires ir < 24
    ensures var i := Iota(a, RoundConstant(ir));
      && i[0] == Xor(a[0], RoundConstant(ir))
      && BitAnd(BitXor(Wide(a[0]), Wide(TableConstant(ir))), MASK_64) == Wide(i[0])
      && forall k :: 1 <= k < 25 ==> i[k] == a[k]
  {
    hide Wide, BitXor, BitAnd, RoundConstant, TableConstant, Xor;
    RoundConstantsAreStandard(ir);
    WideXor(a[0], RoundConstant(ir));
    WideMasked(Xor(a[0], RoundConstant(ir)));
  }

  // Every lane lies in [0, 2^64).
  lemma LanesFit(state: seq<BigInt>, a: State)
    requires Holds(state, a)
    ensures forall i :: 0 <= i < 25 ==> state[i] <= MASK_64
  {
    hide Wide;
    forall i | 0 <= i < 25
      ensures state[i] <= MASK_64
    {
      WideFits(a[i]);
    }
  }

  // ---- A lane mixed byte by byte ----

  predicate WidensAt(b: bv8, k: nat, shift: nat)
    requires k < 8 && shift <= 64
  {
    ShiftLeft(b as BigInt, shift) == Wide(ByteAt(b, k))
  }

  lemma Widens0(b: bv8) ensures WidensAt(b, 0, 0) {}
  lemma Widens1(b: bv8) ensures WidensAt(b, 1, 8) { assert 8 as bv8 == 8; }
  lemma Widens2(b: bv8) ensures WidensAt(b, 2, 16) { assert 16 as bv8 == 16; }
  lemma Widens3(b: bv8) ensures WidensAt(b, 3, 24) { assert 24 as bv8 == 24; }
  lemma Widens4(b: bv8) ensures WidensAt(b, 4, 32) { assert 32 as bv8 == 32; }
  lemma Widens5(b: bv8) ensures WidensAt(b, 5, 40) { assert 40 as bv8 == 40; }
  lemma Widens6(b: bv8) ensures WidensAt(b, 6, 48) { assert 48 as bv8 == 48; }
  lemma Widens7(b: bv8) ensures WidensAt(b, 7, 56) { assert 56 as bv8 == 56; }

  lemma WideByte(v: bv64, b: bv8, k: nat)
    requires k < 8
    ensures BitXor(Wide(v), ShiftLeft(b as BigInt, 8 * k)) == Wide(Xor(v, ByteAt(b, k)))
  {
    hide Wide, BitXor, Xor, ByteAt, ShiftLeft;
    assert WidensAt(b, k, 8 * k) by {
      hide WidensAt;
      Widens0(b); Widens1(b); Widens2(b); Widens3(b); Widens4(b); Widens5(b); Widens6(b); Widens7(b);
    }
    WideXor(v, ByteAt(b, k));
  }

  // Lane v after the first n bytes of b from base on were xored into it.
  function Mixed(v: bv64, b: seq<bv8>, base: nat, n: nat): bv64
    requires n <= 8 && (n > 0 ==> base + n <= |b|)
  {
    if n == 0 then v else Xor(Mixed(v, b, base, n - 1), ByteAt(b[base + n - 1], n - 1))
  }

  lemma XorIs(v: bv64, w: bv64)
    ensures Xor(v, w) == v ^ w
  {}

  lemma XorRegroups(u: bv64, v: bv64, w: bv64, a: bv64, b: bv64, c: bv64, d: bv64)
    requires a == u ^ v && b == a ^ w && c == v ^ w && d == u ^ c
    ensures b == d
  {}

  lemma XorAssociates(u: bv64, v: bv64, w: bv64)
    ensures Xor(Xor(u, v), w) == Xor(u, Xor(v, w))
  {
    hide Xor;
    XorIs(u, v);
    XorIs(Xor(u, v), w);
    XorIs(v, w);
    XorIs(u, Xor(v, w));
    XorRegroups(u, v, w, Xor(u, v), Xor(Xor(u, v), w), Xor(v, w), Xor(u, Xor(v, w)));
  }

  lemma XorNothing(v: bv64)
    ensures Xor(v, 0) == v
  {}

  // Xoring byte after byte into a lane is xoring the lane that the bytes make up.
  lemma {:induction false} MixedIsXor(v: bv64, b: seq<bv8>, base: nat, n: nat)
    requires n <= 8 && base + 8 <= |b|
    ensures Mixed(v, b, base, n) == Xor(v, Joined(b[base..base + 8], n))
  {
    hide Xor, ByteAt;
    if n == 0 {
      XorNothing(v);
    } else {
      MixedIsXor(v, b, base, n - 1);
      XorAssociates(v, Joined(b[base..base + 8], n - 1), ByteAt(b[base + n - 1], n - 1));
    }
  }

  lemma MixedLane(v: bv64, b: seq<bv8>, base: nat)
    requires base + 8 <= |b|
    ensures Mixed(v, b, base, 8) == Xor(v, LaneOfBytes(b[base..base + 8]))
  {
    hide Mixed, Joined, Xor;
    MixedIsXor(v, b, base, 8);
  }

  // ---- The bytes of a lane ----

  function LowByte(v: BigInt): bv8 {
    (v & 0xFF) as bv8
  }

  predicate Narrows(v: bv64, k: nat, shift: nat)
    requires k < 8 && shift <= 64
  {
    LowByte(ShiftRight(Wide(v), shift)) == ByteOfLane(v, k)
  }

  lemma Narrows0(v: bv64) ensures Narrows(v, 0, 0) {}
  lemma Narrows1(v: bv64) ensures Narrows(v, 1, 8) { assert 8 as bv8 == 8; }
  lemma Narrows2(v: bv64) ensures Narrows(v, 2, 16) { assert 16 as bv8 == 16; }
  lemma Narrows3(v: bv64) ensures Narrows(v, 3, 24) { assert 24 as bv8 == 24; }
  lemma Narrows4(v: bv64) ensures Narrows(v, 4, 32) { assert 32 as bv8 == 32; }
  lemma Narrows5(v: bv64) ensures Narrows(v, 5, 40) { assert 40 as bv8 == 40; }
  lemma Narrows6(v: bv64) ensures Narrows(v, 6, 48) { assert 48 as bv8 == 48; }
  lemma Narrows7(v: bv64) ensures Narrows(v, 7, 56) { assert 56 as bv8 == 56; }

  lemma NarrowByte(v: bv64, k: nat)
    requires k < 8
    ensures LowByte(ShiftRight(Wide(v), 8 * k)) == ByteOfLane(v, k)
  {
    hide Wide, LowByte, ShiftRight, ByteOfLane;
    assert Narrows(v, k, 8 * k) by {
      hide Narrows;
      Narrows0(v); Narrows1(v); Narrows2(v); Narrows3(v); Narrows4(v); Narrows5(v); Narrows6(v); Narrows7(v);
    }
  }
}
