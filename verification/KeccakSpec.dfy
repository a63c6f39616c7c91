// Keccak as FIPS 202 defines it, for lanes of 64 bits: the permutation of sections 3.2 to 3.4 and the
// sponge of sections 4 and 5.1 with rate 1088 and the original Keccak padding, whose message ends in the
// bits 1 0...0 1 without a domain suffix. Lane (x, y) of a state has the index x + 5 y.

module KeccakSpec {
  import opened KeccakOffsets

  type State = s: seq<bv64> | |s| == 25 witness seq(25, i => 0)

  const zero: State := seq(25, i => 0)

  function RotL(v: bv64, s: nat): bv64
    requires s < 64
  {
    Rotated(v, s as bv7)
  }

  function Rotated(v: bv64, s: bv7): bv64 {
    if 0 < s < 64 then (v << s) | (v >> (64 - s)) else v
  }

  function Xor(v: bv64, w: bv64): bv64 {
    v ^ w
  }

  function Select(u: bv64, v: bv64, w: bv64): bv64 {
    u ^ (!v & w)
  }

  function Column(a: State, x: nat): bv64
    requires x < 5
  {
    Xor(Xor(Xor(Xor(a[x], a[x + 5]), a[x + 10]), a[x + 15]), a[x + 20])
  }

  function ThetaEffect(a: State, x: nat): bv64
    requires x < 5
  {
    Xor(Column(a, (x - 1) % 5), RotL(Column(a, (x + 1) % 5), 1))
  }

  function Theta(a: State): State {
    seq(25, i requires 0 <= i < 25 => Xor(a[i], ThetaEffect(a, i % 5)))
  }

  function Rho(a: State): State {
    seq(25, i requires 0 <= i < 25 => RotL(a[i], Offset(i)))
  }

  function Pi(a: State): State {
    seq(25, i requires 0 <= i < 25 => a[(i % 5 + 3 * (i / 5)) % 5 + 5 * (i % 5)])
  }

  function ChiLane(a: State, x: nat, y: nat): bv64
    requires x < 5 && y < 5
  {
    Select(a[x + 5 * y], a[(x + 1) % 5 + 5 * y], a[(x + 2) % 5 + 5 * y])
  }

  function Chi(a: State): State {
    seq(25, i requires 0 <= i < 25 => ChiLane(a, i % 5, i / 5))
  }

  function Iota(a: State, rc: bv64): State {
    a[0 := Xor(a[0], rc)]
  }

  // Algorithm 5: the shift register whose lowest bit is rc(t).
  function Register(t: nat): bv8 {
    if t == 0 then 1 else Clocked(Register(t - 1))
  }

  function Clocked(r: bv8): bv8 {
    (r << 1) ^ (if r & 0x80 != 0 then 0x71 else 0)
  }

  function Tap(r: bv8, mask: bv64): bv64 {
    if r & 1 != 0 then mask else 0
  }

  // RC[2^j - 1] = rc(j + 7 ir)
  function RoundConstant(ir: nat): bv64 {
    Tap(Register(7 * ir), 0x1) | Tap(Register(7 * ir + 1), 0x2) | Tap(Register(7 * ir + 2), 0x8)
    | Tap(Register(7 * ir + 3), 0x80) | Tap(Register(7 * ir + 4), 0x8000)
    | Tap(Register(7 * ir + 5), 0x8000_0000) | Tap(Register(7 * ir + 6), 0x8000_0000_0000_0000)
  }

  function Round(a: State, ir: nat): State {
    Iota(Chi(Pi(Rho(Theta(a)))), RoundConstant(ir))
  }

  // The first n rounds.
  function Rounds(a: State, n: nat): State {
    if n == 0 then a else Round(Rounds(a, n - 1), n - 1)
  }

  function Permute(a: State): State {
    Rounds(a, 24)
  }

  // ---- The sponge ----

  const RATE: nat := 136

  // A byte at place k of a lane, counted from the lowest.
  function ByteAt(b: bv8, k: nat): bv64
    requires k < 8
  {
    match k
    case 0 => b as bv64
    case 1 => b as bv64 << 8
    case 2 => b as bv64 << 16
    case 3 => b as bv64 << 24
    case 4 => b as bv64 << 32
    case 5 => b as bv64 << 40
    case 6 => b as bv64 << 48
    case _ => b as bv64 << 56
  }

  // The first n bytes placed side by side.
  function Joined(b: seq<bv8>, n: nat): bv64
    requires n <= 8 && n <= |b|
  {
    if n == 0 then 0 else Xor(Joined(b, n - 1), ByteAt(b[n - 1], n - 1))
  }

  function LaneOfBytes(b: seq<bv8>): bv64
    requires |b| == 8
  {
    Joined(b, 8)
  }

  // A block of the rate xored into the first 17 lanes.
  function XorBlock(a: State, block: seq<bv8>): State
    requires |block| == RATE
  {
    seq(25, i requires 0 <= i < 25 => if i < 17 then Xor(a[i], LaneOfBytes(block[8 * i..8 * i + 8])) else a[i])
  }

  // The state after the first n blocks.
  function Absorb(a: State, bytes: seq<bv8>, n: nat): State
    requires RATE * n <= |bytes|
  {
    if n == 0 then a
    else Permute(XorBlock(Absorb(a, bytes, n - 1), bytes[RATE * (n - 1)..RATE * n]))
  }

  function ByteOfLane(v: bv64, k: nat): bv8
    requires k < 8
  {
    (match k
     case 0 => v & 0xFF
     case 1 => (v >> 8) & 0xFF
     case 2 => (v >> 16) & 0xFF
     case 3 => (v >> 24) & 0xFF
     case 4 => (v >> 32) & 0xFF
     case 5 => (v >> 40) & 0xFF
     case 6 => (v >> 48) & 0xFF
     case 7 => (v >> 56) & 0xFF) as bv8
  }

  lemma ElsewhereUnchanged(v: bv64, b: bv8, j: nat, k: nat)
    requires j < 8 && k < 8 && j != k
    ensures ByteOfLane(Xor(v, ByteAt(b, j)), k) == ByteOfLane(v, k)
  {
    match j case 0 => case 1 => case 2 => case 3 => case 4 => case 5 => case 6 => case 7 =>
  }

  lemma PlacedThere(v: bv64, b: bv8, k: nat)
    requires k < 8 && ByteOfLane(v, k) == 0
    ensures ByteOfLane(Xor(v, ByteAt(b, k)), k) == b
  {
    match k case 0 => case 1 => case 2 => case 3 => case 4 => case 5 => case 6 => case 7 =>
  }

  lemma {:induction false} JoinedHolds(b: seq<bv8>, n: nat, k: nat)
    requires n <= 8 && n <= |b| && k < 8
    ensures ByteOfLane(Joined(b, n), k) == if k < n then b[k] else 0
  {
    hide ByteOfLane, Xor, ByteAt;
    if n == 0 {
      assert ByteOfLane(0, k) == 0 by { NoBytes(k); }
    } else {
      JoinedHolds(b, n - 1, k);
      if k == n - 1 {
        PlacedThere(Joined(b, n - 1), b[n - 1], k);
      } else {
        ElsewhereUnchanged(Joined(b, n - 1), b[n - 1], n - 1, k);
      }
    }
  }

  lemma NoBytes(k: nat)
    requires k < 8
    ensures ByteOfLane(0, k) == 0
  {}

  // A lane holds the bytes it is made of.
  lemma LaneHoldsItsBytes(b: seq<bv8>, k: nat)
    requires |b| == 8 && k < 8
    ensures ByteOfLane(LaneOfBytes(b), k) == b[k]
  {
    JoinedHolds(b, 8, k);
  }

  // The first 256 bits of the state.
  function Digest(a: State): (d: seq<bv8>)
    ensures |d| == 32
  {
    seq(32, i requires 0 <= i < 32 => ByteOfLane(a[i / 8], i % 8))
  }

  // ---- The padding ----

  // The bits of bytes, lowest bit first.
  function Bits(b: seq<bv8>): (s: seq<bool>)
    ensures |s| == 8 * |b|
  {
    if b == [] then []
    else ByteBits(b[0]) + Bits(b[1..])
  }

  function ByteBits(b: bv8): seq<bool> {
    [b & 1 != 0, b & 2 != 0, b & 4 != 0, b & 8 != 0, b & 16 != 0, b & 32 != 0, b & 64 != 0, b & 128 != 0]
  }

  // pad10*1 of section 5.1 for the rate 1088 and a message of m bits
  function Pad101(m: int): seq<bool> {
    [true] + seq((-m - 2) % 1088, i => false) + [true]
  }
}
