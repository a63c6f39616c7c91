// apps/web/lib/zip.js: crc32, the checksum of section 4.4.7 of APPNOTE.TXT. JavaScript's bitwise operators
// work on 32 bits, and none of those used here depends on the sign.

module Crc32 {

  const POLYNOMIAL: bv32 := 0xEDB8_8320

  // One turn of the inner loop.
  function Step(crc: bv32): bv32 {
    Xor(crc >> 1, Feedback(crc & 1))
  }

  function Feedback(bit: bv32): bv32 {
    if bit != 0 then POLYNOMIAL else 0
  }

  function Steps(crc: bv32, n: nat): bv32 {
    if n == 0 then crc else Step(Steps(crc, n - 1))
  }

  function Xor(v: bv32, w: bv32): bv32 {
    v ^ w
  }

  // The register after one more byte, and after bytes.
  function Update(crc: bv32, b: bv8): bv32 {
    Steps(Xor(crc, b as bv32), 8)
  }

  function Fold(crc: bv32, bytes: seq<bv8>): bv32
    decreases bytes
  {
    if bytes == [] then crc else Fold(Update(crc, bytes[0]), bytes[1..])
  }

  function Crc(bytes: seq<bv8>): bv32 {
    Xor(Fold(0xFFFF_FFFF, bytes), 0xFFFF_FFFF)
  }

  method Checksum(bytes: seq<bv8>) returns (r: bv32)
    ensures r == Crc(bytes)
  {
    hide Step;
    var crc: bv32 := 0xFFFF_FFFF;
    for i := 0 to |bytes|
      invariant Fold(crc, bytes[i..]) == Fold(0xFFFF_FFFF, bytes)
    {
      ghost var before := crc;
      crc := Xor(crc, bytes[i] as bv32);
      ghost var mixed := crc;
      for bit := 0 to 8
        invariant crc == Steps(mixed, bit)
      {
        MaskIsCondition(crc);
        crc := (crc >> 1) ^ (POLYNOMIAL & (0 - (crc & 1)));
      }
      assert crc == Update(before, bytes[i]);
      assert bytes[i..][1..] == bytes[i + 1..];
    }
    r := Xor(crc, 0xFFFF_FFFF);
  }

  // -(crc & 1) is a mask of zeros or of ones.
  lemma MaskIsCondition(crc: bv32)
    ensures (crc >> 1) ^ (POLYNOMIAL & (0 - (crc & 1))) == Step(crc)
  {}

  // ---- The update is linear ----

  lemma Commutes(v: bv32, w: bv32)
    ensures Xor(v, w) == Xor(w, v)
  {}

  lemma Associates(v: bv32, w: bv32, u: bv32)
    ensures Xor(Xor(v, w), u) == Xor(v, Xor(w, u))
  {}

  lemma Cancels(v: bv32, w: bv32)
    ensures Xor(Xor(v, w), w) == v
  {}

  lemma ZeroIsEqual(v: bv32, w: bv32)
    ensures Xor(v, w) == 0 <==> v == w
  {
    hide Xor;
    Cancels(v, w);
    Commutes(0, w);
    ZeroIsNeutral(w);
  }

  lemma ZeroIsNeutral(w: bv32)
    ensures Xor(w, 0) == w && Xor(w, w) == 0
  {}

  lemma XorBytes(b: bv8, c: bv8)
    ensures (b ^ c) as bv32 == Xor(b as bv32, c as bv32)
    ensures b ^ c == 0 <==> b == c
  {}

  lemma XorIs(v: bv32, w: bv32)
    ensures Xor(v, w) == v ^ w
  {}

  lemma ShiftOfXor(v: bv32, w: bv32)
    ensures (v ^ w) >> 1 == (v >> 1) ^ (w >> 1)
    ensures (v ^ w) & 1 == (v & 1) ^ (w & 1)
  {}

  lemma ShiftAndBitAreLinear(v: bv32, w: bv32)
    ensures Xor(v, w) >> 1 == Xor(v >> 1, w >> 1)
    ensures Xor(v, w) & 1 == Xor(v & 1, w & 1)
  {
    hide Xor;
    XorIs(v, w);
    XorIs(v >> 1, w >> 1);
    XorIs(v & 1, w & 1);
    ShiftOfXor(v, w);
  }

  lemma LowestBit(v: bv32)
    ensures v & 1 == 0 || v & 1 == 1
  {}

  lemma FeedbackIsLinear(a: bv32, b: bv32)
    requires (a == 0 || a == 1) && (b == 0 || b == 1)
    ensures Feedback(Xor(a, b)) == Xor(Feedback(a), Feedback(b))
  {}

  lemma XorSwaps(a: bv32, b: bv32, c: bv32, d: bv32)
    ensures Xor(Xor(a, b), Xor(c, d)) == Xor(Xor(a, c), Xor(b, d))
  {
    hide Xor;
    Associates(Xor(a, b), c, d);
    Associates(a, b, c);
    Commutes(b, c);
    Associates(a, c, b);
    Associates(Xor(a, c), b, d);
  }

  lemma StepIsLinear(v: bv32, w: bv32)
    ensures Step(Xor(v, w)) == Xor(Step(v), Step(w))
  {
    hide Xor, Feedback;
    ShiftAndBitAreLinear(v, w);
    LowestBit(v);
    LowestBit(w);
    FeedbackIsLinear(v & 1, w & 1);
    XorSwaps(v >> 1, w >> 1, Feedback(v & 1), Feedback(w & 1));
  }

  lemma {:induction false} StepsAreLinear(v: bv32, w: bv32, n: nat)
    ensures Steps(Xor(v, w), n) == Xor(Steps(v, n), Steps(w, n))
  {
    hide Step, Xor;
    if n > 0 {
      StepsAreLinear(v, w, n - 1);
      StepIsLinear(Steps(v, n - 1), Steps(w, n - 1));
    }
  }

  lemma XorRegroups(s: bv32, t: bv32, u: bv32, b: bv8, c: bv8, d: bv8)
    ensures Xor(Xor(Xor(s, t), u), (b ^ c ^ d) as bv32)
      == Xor(Xor(Xor(s, b as bv32), Xor(t, c as bv32)), Xor(u, d as bv32))
  {
    hide Xor;
    XorBytes(b ^ c, d);
    XorBytes(b, c);
    XorSwaps(Xor(s, t), u, Xor(b as bv32, c as bv32), d as bv32);
    XorSwaps(s, t, b as bv32, c as bv32);
  }

  lemma UpdateIsLinear(s: bv32, t: bv32, u: bv32, b: bv8, c: bv8, d: bv8)
    ensures Update(Xor(Xor(s, t), u), b ^ c ^ d) == Xor(Xor(Update(s, b), Update(t, c)), Update(u, d))
  {
    hide Xor, Steps;
    XorRegroups(s, t, u, b, c, d);
    StepsAreLinear(Xor(Xor(s, b as bv32), Xor(t, c as bv32)), Xor(u, d as bv32), 8);
    StepsAreLinear(Xor(s, b as bv32), Xor(t, c as bv32), 8);
  }

  function Sum(a: seq<bv8>, b: seq<bv8>, c: seq<bv8>): (r: seq<bv8>)
    requires |a| == |b| == |c|
    ensures |r| == |a|
  {
    seq(|a|, i requires 0 <= i < |a| => a[i] ^ b[i] ^ c[i])
  }

  lemma {:induction false} FoldIsLinear(s: bv32, t: bv32, u: bv32, a: seq<bv8>, b: seq<bv8>, c: seq<bv8>)
    requires |a| == |b| == |c|
    ensures Fold(Xor(Xor(s, t), u), Sum(a, b, c)) == Xor(Xor(Fold(s, a), Fold(t, b)), Fold(u, c))
    decreases a
  {
    hide Xor, Update;
    if a != [] {
      UpdateIsLinear(s, t, u, a[0], b[0], c[0]);
      FoldIsLinear(Update(s, a[0]), Update(t, b[0]), Update(u, c[0]), a[1..], b[1..], c[1..]);
      assert Sum(a, b, c)[1..] == Sum(a[1..], b[1..], c[1..]);
    }
  }

  // The checksum is affine over xor: the sum of three inputs of one length has the sum of their checksums.
  lemma ChecksumIsAffine(a: seq<bv8>, b: seq<bv8>, c: seq<bv8>)
    requires |a| == |b| == |c|
    ensures Crc(Sum(a, b, c)) == Xor(Xor(Crc(a), Crc(b)), Crc(c))
  {
    hide Fold;
    FoldIsLinear(0xFFFF_FFFF, 0xFFFF_FFFF, 0xFFFF_FFFF, a, b, c);
  }

  // ---- Changes within four bytes are detected ----

  // The bit that a step shifts out shows at the top: a step whose result is small only shifted.
  lemma StepBack(v: bv32)
    requires Step(v) < 0x8000_0000
    ensures v == Step(v) << 1
  {}

  lemma StepsBack(v: bv32, n: nat, result: bv32)
    requires n > 0 && Steps(v, n) == result && result < 0x8000_0000
    ensures Steps(v, n - 1) == result << 1
  {
    hide Step;
    StepBack(Steps(v, n - 1));
  }

  lemma SmallShifts(v: bv32)
    requires v < 0x100_0000
    ensures v << 1 << 1 << 1 << 1 << 1 << 1 << 1 << 1 == v << 8
    ensures v < 0x8000_0000 && v << 1 < 0x8000_0000 && v << 1 << 1 < 0x8000_0000 && v << 1 << 1 << 1 < 0x8000_0000
    ensures v << 1 << 1 << 1 << 1 < 0x8000_0000 && v << 1 << 1 << 1 << 1 << 1 < 0x8000_0000
    ensures v << 1 << 1 << 1 << 1 << 1 << 1 < 0x8000_0000 && v << 1 << 1 << 1 << 1 << 1 << 1 << 1 < 0x8000_0000
  {}

  lemma EightStepsBack(v: bv32, result: bv32)
    requires Steps(v, 8) == result && result < 0x100_0000
    ensures v == result << 8
  {
    hide Steps;
    SmallShifts(result);
    var r1 := result << 1; var r2 := r1 << 1; var r3 := r2 << 1; var r4 := r3 << 1;
    var r5 := r4 << 1; var r6 := r5 << 1; var r7 := r6 << 1;
    StepsBack(v, 8, result); StepsBack(v, 7, r1); StepsBack(v, 6, r2); StepsBack(v, 5, r3);
    StepsBack(v, 4, r4); StepsBack(v, 3, r5); StepsBack(v, 2, r6); StepsBack(v, 1, r7);
    assert Steps(v, 0) == v by { NoSteps(v); }
  }

  lemma NoSteps(v: bv32)
    ensures Steps(v, 0) == v
  {}

  // A register that can be cancelled by the next k bytes.
  predicate Fits(v: bv32, k: nat) {
    match k
    case 0 => v == 0
    case 1 => v < 0x100
    case 2 => v < 0x1_0000
    case 3 => v < 0x100_0000
    case _ => true
  }

  lemma FitsBack(v: bv32, b: bv8, k: nat)
    requires k < 4 && Fits(v, k)
    ensures v < 0x100_0000
    ensures Fits(Xor(v << 8, b as bv32), k + 1)
    ensures Xor(v << 8, b as bv32) == 0 ==> b == 0 && v == 0
  {}

  // Registers s and t that one byte each, b and c, lead to s1 and t1, where s1 and t1 are close.
  lemma OneByteBack(s: bv32, t: bv32, b: bv8, c: bv8, k: nat)
    requires k < 4 && Fits(Xor(Update(s, b), Update(t, c)), k)
    ensures Fits(Xor(s, t), k + 1)
    ensures s == t ==> b == c && Update(s, b) == Update(t, c)
  {
    hide Xor, Steps, Fits;
    var e := Xor(Update(s, b), Update(t, c));
    StepsAreLinear(Xor(s, b as bv32), Xor(t, c as bv32), 8);
    XorSwaps(s, b as bv32, t, c as bv32);
    XorBytes(b, c);
    FitsBack(e, b ^ c, k);
    EightStepsBack(Xor(Xor(s, t), (b ^ c) as bv32), e);
    Cancels(Xor(s, t), (b ^ c) as bv32);
    ZeroIsEqual(s, t);
    ZeroIsEqual(Update(s, b), Update(t, c));
  }

  // Where equally long inputs of at most four bytes lead two registers together.
  lemma {:induction false} Differences(s: bv32, t: bv32, u: seq<bv8>, v: seq<bv8>)
    requires |u| == |v| <= 4 && Fold(s, u) == Fold(t, v)
    ensures Fits(Xor(s, t), |u|)
    ensures s == t ==> u == v
    decreases u
  {
    hide Xor, Update, Fits;
    if u == [] {
      ZeroIsEqual(s, t);
      NothingFits();
    } else {
      Differences(Update(s, u[0]), Update(t, v[0]), u[1..], v[1..]);
      OneByteBack(s, t, u[0], v[0], |u| - 1);
      assert u == [u[0]] + u[1..] && v == [v[0]] + v[1..];
    }
  }

  lemma NothingFits()
    ensures Fits(0, 0)
  {}

  lemma {:induction false} FoldOfJoin(s: bv32, a: seq<bv8>, b: seq<bv8>)
    ensures Fold(s, a + b) == Fold(Fold(s, a), b)
    decreases a
  {
    hide Update;
    if a == [] {
      assert a + b == b;
    } else {
      FoldOfJoin(Update(s, a[0]), a[1..], b);
      assert (a + b)[1..] == a[1..] + b;
    }
  }

  lemma {:induction false} FoldIsInjective(s: bv32, t: bv32, b: seq<bv8>)
    requires Fold(s, b) == Fold(t, b)
    ensures s == t
    decreases b
  {
    hide Xor, Steps;
    if b != [] {
      FoldIsInjective(Update(s, b[0]), Update(t, b[0]), b[1..]);
      UpdateIsInjective(s, t, b[0]);
    }
  }

  // For a fixed byte the update is one-to-one in the register.
  lemma UpdateIsInjective(s: bv32, t: bv32, b: bv8)
    requires Update(s, b) == Update(t, b)
    ensures s == t
  {
    hide Xor, Steps;
    var v, w := Xor(s, b as bv32), Xor(t, b as bv32);
    ZeroIsEqual(Update(s, b), Update(t, b));
    StepsAreLinear(v, w, 8);
    EightStepsBack(Xor(v, w), 0);
    ZeroIsEqual(v, w);
    Cancels(s, b as bv32);
    Cancels(t, b as bv32);
  }

  // ... and for a fixed register it is one-to-one in the byte.
  lemma UpdateSeparatesBytes(s: bv32, b: bv8, c: bv8)
    requires Update(s, b) == Update(s, c)
    ensures b == c
  {
    hide Xor, Update, Fits;
    ZeroIsEqual(Update(s, b), Update(s, c));
    NothingFits();
    OneByteBack(s, s, b, c, 0);
  }

  // Whatever changes within four consecutive bytes, the checksum changes. In particular it tells apart
  // equally long inputs that differ in one byte.
  lemma ChangeIsDetected(before: seq<bv8>, u: seq<bv8>, v: seq<bv8>, after: seq<bv8>)
    requires |u| == |v| <= 4 && u != v
    ensures Crc(before + u + after) != Crc(before + v + after)
  {
    hide Fold, Xor;
    var s := Fold(0xFFFF_FFFF, before);
    FoldOfJoin(0xFFFF_FFFF, before + u, after);
    FoldOfJoin(0xFFFF_FFFF, before + v, after);
    FoldOfJoin(0xFFFF_FFFF, before, u);
    FoldOfJoin(0xFFFF_FFFF, before, v);
    if Fold(Fold(s, u), after) == Fold(Fold(s, v), after) {
      FoldIsInjective(Fold(s, u), Fold(s, v), after);
      Differences(s, s, u, v);
    }
    XorCancels(Fold(Fold(s, u), after), Fold(Fold(s, v), after));
  }

  lemma XorCancels(v: bv32, w: bv32)
    ensures Xor(v, 0xFFFF_FFFF) == Xor(w, 0xFFFF_FFFF) ==> v == w
  {}

  // ---- Which checksum it is ----

  function Eight(v: bv32): bv32 {
    Steps(v, 8)
  }

  function LowByte(v: bv32): bv8 {
    (v & 0xFF) as bv8
  }

  function Rest(v: bv32): bv32 {
    v >> 8
  }

  // The checksum as it is stored, with its low byte first.
  function LittleEndian(v: bv32): seq<bv8> {
    [LowByte(v), LowByte(Rest(v)), LowByte(Rest(Rest(v))), LowByte(Rest(Rest(Rest(v))))]
  }

  // A bit that is not at the bottom is only shifted.
  lemma StepShifts(v: bv32)
    requires v < 0x8000_0000
    ensures Step(v << 1) == v
  {}

  lemma StepsShift(v: bv32, w: bv32, n: nat)
    requires n > 0 && Steps(v, n - 1) == w << 1 && w < 0x8000_0000
    ensures Steps(v, n) == w
  {
    hide Step;
    StepShifts(w);
  }

  lemma EightShift(v: bv32)
    requires v < 0x100_0000
    ensures Eight(v << 8) == v
  {
    hide Steps;
    SmallShifts(v);
    var w, r1 := v << 8, v << 1; var r2 := r1 << 1; var r3 := r2 << 1; var r4 := r3 << 1;
    var r5 := r4 << 1; var r6 := r5 << 1; var r7 := r6 << 1;
    assert Steps(w, 0) == r7 << 1 by { NoSteps(w); }
    StepsShift(w, r7, 1); StepsShift(w, r6, 2); StepsShift(w, r5, 3); StepsShift(w, r4, 4);
    StepsShift(w, r3, 5); StepsShift(w, r2, 6); StepsShift(w, r1, 7); StepsShift(w, v, 8);
  }

  lemma ByteAndRest(d: bv32)
    ensures Xor(LowByte(d) as bv32, Rest(d) << 8) == d && Rest(d) < 0x100_0000
  {}

  // Reading the low byte of d is reading d and moving on by a byte.
  lemma ByteIsRead(s: bv32, d: bv32)
    ensures Eight(Xor(s, d)) == Xor(Update(s, LowByte(d)), Rest(d))
  {
    hide Xor, Steps, LowByte, Rest;
    var b := LowByte(d) as bv32;
    ByteAndRest(d);
    Associates(s, b, Rest(d) << 8);
    StepsAreLinear(Xor(s, b), Rest(d) << 8, 8);
    EightShift(Rest(d));
  }

  lemma FourBytes(d: bv32)
    ensures Rest(Rest(Rest(Rest(d)))) == 0
  {}

  lemma ByteFolded(bytes: seq<bv8>, i: nat, s: bv32)
    requires i < |bytes|
    ensures Fold(s, bytes[i..]) == Fold(Update(s, bytes[i]), bytes[i + 1..])
  {
    hide Update;
    assert bytes[i..][1..] == bytes[i + 1..];
  }

  lemma NothingFolded(s: bv32)
    ensures Fold(s, []) == s
  {}

  lemma WordIsRead(s: bv32, d: bv32)
    ensures Fold(s, LittleEndian(d)) == Eight(Eight(Eight(Eight(Xor(s, d)))))
  {
    hide Xor, Steps, Update, Eight, Fold, LowByte, Rest;
    var bytes := LittleEndian(d);
    ByteIsRead(s, d);
    ByteFolded(bytes, 0, s);
    var s1, d1 := Update(s, bytes[0]), Rest(d);
    ByteIsRead(s1, d1);
    ByteFolded(bytes, 1, s1);
    var s2, d2 := Update(s1, bytes[1]), Rest(d1);
    ByteIsRead(s2, d2);
    ByteFolded(bytes, 2, s2);
    var s3, d3 := Update(s2, bytes[2]), Rest(d2);
    ByteIsRead(s3, d3);
    ByteFolded(bytes, 3, s3);
    var s4 := Update(s3, bytes[3]);
    FourBytes(d);
    ZeroIsNeutral(s4);
    NothingFolded(s4);
    assert bytes[0..] == bytes && bytes[4..] == [];
  }

  lemma Inverted(s: bv32)
    ensures Xor(s, Xor(s, 0xFFFF_FFFF)) == 0xFFFF_FFFF
  {
    hide Xor;
    Associates(s, s, 0xFFFF_FFFF);
    ZeroIsNeutral(s);
    Commutes(0, 0xFFFF_FFFF);
    ZeroIsNeutral(0xFFFF_FFFF);
  }

  lemma OnesAreRead()
    ensures Eight(Eight(Eight(Eight(0xFFFF_FFFF)))) == 0xDEBB_20E3
  {
    assert Steps(0xFFFF_FFFF, 8) == 0x2DFD_1072;
    assert Steps(0x2DFD_1072, 8) == 0xBE26_ED00;
    assert Steps(0xBE26_ED00, 8) == 0x00BE_26ED;
    assert Steps(0x00BE_26ED, 8) == 0xDEBB_20E3;
  }

  // Input that is followed by its own checksum has one and the same checksum, whatever the input: the residue of
  // CRC-32.
  lemma ChecksumOfChecked(bytes: seq<bv8>)
    ensures Crc(bytes + LittleEndian(Crc(bytes))) == 0x2144_DF1C
  {
    hide Fold, Eight, LittleEndian, Xor;
    var s := Fold(0xFFFF_FFFF, bytes);
    FoldOfJoin(0xFFFF_FFFF, bytes, LittleEndian(Crc(bytes)));
    WordIsRead(s, Crc(bytes));
    Inverted(s);
    OnesAreRead();
    XorIs(0xDEBB_20E3, 0xFFFF_FFFF);
  }

  lemma Digits123()
    ensures Update(0xFFFF_FFFF, 0x31) == 0x7C23_1048
    ensures Update(0x7C23_1048, 0x32) == 0xB0AC_BB32
    ensures Update(0xB0AC_BB32, 0x33) == 0x77B7_9C2D
  {
    Mixed(0xFFFF_FFFF, 0x31, 0xFFFF_FFCE, 0x7C23_1048);
    Mixed(0x7C23_1048, 0x32, 0x7C23_107A, 0xB0AC_BB32);
    Mixed(0xB0AC_BB32, 0x33, 0xB0AC_BB01, 0x77B7_9C2D);
  }

  lemma Digits456()
    ensures Update(0x77B7_9C2D, 0x34) == 0x641C_1F5C
    ensures Update(0x641C_1F5C, 0x35) == 0x340A_C5E3
    ensures Update(0x340A_C5E3, 0x36) == 0xF68D_2C9E
  {
    Mixed(0x77B7_9C2D, 0x34, 0x77B7_9C19, 0x641C_1F5C);
    Mixed(0x641C_1F5C, 0x35, 0x641C_1F69, 0x340A_C5E3);
    Mixed(0x340A_C5E3, 0x36, 0x340A_C5D5, 0xF68D_2C9E);
  }

  lemma Digits789()
    ensures Update(0xF68D_2C9E, 0x37) == 0xAFFC_9660
    ensures Update(0xAFFC_9660, 0x38) == 0x651F_2550
    ensures Update(0x651F_2550, 0x39) == 0x340B_C6D9
  {
    Mixed(0xF68D_2C9E, 0x37, 0xF68D_2CA9, 0xAFFC_9660);
    Mixed(0xAFFC_9660, 0x38, 0xAFFC_9658, 0x651F_2550);
    Mixed(0x651F_2550, 0x39, 0x651F_2569, 0x340B_C6D9);
  }

  lemma Mixed(s: bv32, b: bv8, mixed: bv32, t: bv32)
    requires Xor(s, b as bv32) == mixed && Steps(mixed, 8) == t
    ensures Update(s, b) == t
  {}

  // The check value of CRC-32, which is the checksum of the digits from 1 to 9.
  lemma CheckValue()
    ensures Crc([0x31, 0x32, 0x33, 0x34, 0x35, 0x36, 0x37, 0x38, 0x39]) == 0xCBF4_3926
  {
    hide Fold, Update;
    var digits: seq<bv8> := [0x31, 0x32, 0x33, 0x34, 0x35, 0x36, 0x37, 0x38, 0x39];
    Digits123();
    Digits456();
    Digits789();
    ByteFolded(digits, 0, 0xFFFF_FFFF);
    ByteFolded(digits, 1, 0x7C23_1048);
    ByteFolded(digits, 2, 0xB0AC_BB32);
    ByteFolded(digits, 3, 0x77B7_9C2D);
    ByteFolded(digits, 4, 0x641C_1F5C);
    ByteFolded(digits, 5, 0x340A_C5E3);
    ByteFolded(digits, 6, 0xF68D_2C9E);
    ByteFolded(digits, 7, 0xAFFC_9660);
    ByteFolded(digits, 8, 0x651F_2550);
    assert digits[0..] == digits && digits[9..] == [];
    NothingFolded(0x340B_C6D9);
  }
}
