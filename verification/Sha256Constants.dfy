// The constants of SHA-256 (sections 4.2.2 and 5.3.3 of FIPS 180-4).

module Sha256Constants {

  type Word = n: int | 0 <= n < 0x1_0000_0000

  // ROUND in apps/web/v4/runtime/browser/sha256.js
  function RoundConstant(i: nat): Word
    requires i < 64
  {
    match i
    case 0 => 0x428a2f98 case 1 => 0x71374491 case 2 => 0xb5c0fbcf case 3 => 0xe9b5dba5
    case 4 => 0x3956c25b case 5 => 0x59f111f1 case 6 => 0x923f82a4 case 7 => 0xab1c5ed5
    case 8 => 0xd807aa98 case 9 => 0x12835b01 case 10 => 0x243185be case 11 => 0x550c7dc3
    case 12 => 0x72be5d74 case 13 => 0x80deb1fe case 14 => 0x9bdc06a7 case 15 => 0xc19bf174
    case 16 => 0xe49b69c1 case 17 => 0xefbe4786 case 18 => 0x0fc19dc6 case 19 => 0x240ca1cc
    case 20 => 0x2de92c6f case 21 => 0x4a7484aa case 22 => 0x5cb0a9dc case 23 => 0x76f988da
    case 24 => 0x983e5152 case 25 => 0xa831c66d case 26 => 0xb00327c8 case 27 => 0xbf597fc7
    case 28 => 0xc6e00bf3 case 29 => 0xd5a79147 case 30 => 0x06ca6351 case 31 => 0x14292967
    case 32 => 0x27b70a85 case 33 => 0x2e1b2138 case 34 => 0x4d2c6dfc case 35 => 0x53380d13
    case 36 => 0x650a7354 case 37 => 0x766a0abb case 38 => 0x81c2c92e case 39 => 0x92722c85
    case 40 => 0xa2bfe8a1 case 41 => 0xa81a664b case 42 => 0xc24b8b70 case 43 => 0xc76c51a3
    case 44 => 0xd192e819 case 45 => 0xd6990624 case 46 => 0xf40e3585 case 47 => 0x106aa070
    case 48 => 0x19a4c116 case 49 => 0x1e376c08 case 50 => 0x2748774c case 51 => 0x34b0bcb5
    case 52 => 0x391c0cb3 case 53 => 0x4ed8aa4a case 54 => 0x5b9cca4f case 55 => 0x682e6ff3
    case 56 => 0x748f82ee case 57 => 0x78a5636f case 58 => 0x84c87814 case 59 => 0x8cc70208
    case 60 => 0x90befffa case 61 => 0xa4506ceb case 62 => 0xbef9a3f7 case _ => 0xc67178f2
  }

  // INITIAL
  function InitialHash(i: nat): Word
    requires i < 8
  {
    match i
    case 0 => 0x6a09e667 case 1 => 0xbb67ae85 case 2 => 0x3c6ef372 case 3 => 0xa54ff53a
    case 4 => 0x510e527f case 5 => 0x9b05688c case 6 => 0x1f83d9ab case _ => 0x5be0cd19
  }

  // w is the first 32 bits of the fractional part of the cube root of p, whose whole part is n ...
  predicate IsCubeRootFraction(w: Word, p: nat, n: nat) {
    var r := n * 0x1_0000_0000 + w;
    r * r * r <= p * 0x1_0000_0000_0000_0000_0000_0000 < (r + 1) * (r + 1) * (r + 1)
  }

  // ... and of the square root of p.
  predicate IsSquareRootFraction(w: Word, p: nat, n: nat) {
    var r := n * 0x1_0000_0000 + w;
    r * r <= p * 0x1_0000_0000_0000_0000 < (r + 1) * (r + 1)
  }

  lemma InitialHashIsStandard()

    ensures IsSquareRootFraction(InitialHash(0), 2, 1) && IsSquareRootFraction(InitialHash(1), 3, 1)
    ensures IsSquareRootFraction(InitialHash(2), 5, 2) && IsSquareRootFraction(InitialHash(3), 7, 2)
    ensures IsSquareRootFraction(InitialHash(4), 11, 3) && IsSquareRootFraction(InitialHash(5), 13, 3)
    ensures IsSquareRootFraction(InitialHash(6), 17, 4) && IsSquareRootFraction(InitialHash(7), 19, 4)
  {}

  lemma RoundConstants0To3()
    ensures IsCubeRootFraction(RoundConstant(0), 2, 1) && IsCubeRootFraction(RoundConstant(1), 3, 1)
    ensures IsCubeRootFraction(RoundConstant(2), 5, 1) && IsCubeRootFraction(RoundConstant(3), 7, 1)
  {}

  lemma RoundConstants4To7()
    ensures IsCubeRootFraction(RoundConstant(4), 11, 2) && IsCubeRootFraction(RoundConstant(5), 13, 2)
    ensures IsCubeRootFraction(RoundConstant(6), 17, 2) && IsCubeRootFraction(RoundConstant(7), 19, 2)
  {}

  lemma RoundConstants8To11()
    ensures IsCubeRootFraction(RoundConstant(8), 23, 2) && IsCubeRootFraction(RoundConstant(9), 29, 3)
    ensures IsCubeRootFraction(RoundConstant(10), 31, 3) && IsCubeRootFraction(RoundConstant(11), 37, 3)
  {}

  lemma RoundConstants12To15()
    ensures IsCubeRootFraction(RoundConstant(12), 41, 3) && IsCubeRootFraction(RoundConstant(13), 43, 3)
    ensures IsCubeRootFraction(RoundConstant(14), 47, 3) && IsCubeRootFraction(RoundConstant(15), 53, 3)
  {}

  lemma RoundConstants16To19()
    ensures IsCubeRootFraction(RoundConstant(16), 59, 3) && IsCubeRootFraction(RoundConstant(17), 61, 3)
    ensures IsCubeRootFraction(RoundConstant(18), 67, 4) && IsCubeRootFraction(RoundConstant(19), 71, 4)
  {}

  lemma RoundConstants20To23()
    ensures IsCubeRootFraction(RoundConstant(20), 73, 4) && IsCubeRootFraction(RoundConstant(21), 79, 4)
    ensures IsCubeRootFraction(RoundConstant(22), 83, 4) && IsCubeRootFraction(RoundConstant(23), 89, 4)
  {}

  lemma RoundConstants24To27()
    ensures IsCubeRootFraction(RoundConstant(24), 97, 4) && IsCubeRootFraction(RoundConstant(25), 101, 4)
    ensures IsCubeRootFraction(RoundConstant(26), 103, 4) && IsCubeRootFraction(RoundConstant(27), 107, 4)
  {}

  lemma RoundConstants28To31()
    ensures IsCubeRootFraction(RoundConstant(28), 109, 4) && IsCubeRootFraction(RoundConstant(29), 113, 4)
    ensures IsCubeRootFraction(RoundConstant(30), 127, 5) && IsCubeRootFraction(RoundConstant(31), 131, 5)
  {}

  lemma RoundConstants32To35()
    ensures IsCubeRootFraction(RoundConstant(32), 137, 5) && IsCubeRootFraction(RoundConstant(33), 139, 5)
    ensures IsCubeRootFraction(RoundConstant(34), 149, 5) && IsCubeRootFraction(RoundConstant(35), 151, 5)
  {}

  lemma RoundConstants36To39()
    ensures IsCubeRootFraction(RoundConstant(36), 157, 5) && IsCubeRootFraction(RoundConstant(37), 163, 5)
    ensures IsCubeRootFraction(RoundConstant(38), 167, 5) && IsCubeRootFraction(RoundConstant(39), 173, 5)
  {}

  lemma RoundConstants40To43()
    ensures IsCubeRootFraction(RoundConstant(40), 179, 5) && IsCubeRootFraction(RoundConstant(41), 181, 5)
    ensures IsCubeRootFraction(RoundConstant(42), 191, 5) && IsCubeRootFraction(RoundConstant(43), 193, 5)
  {}

  lemma RoundConstants44To47()
    ensures IsCubeRootFraction(RoundConstant(44), 197, 5) && IsCubeRootFraction(RoundConstant(45), 199, 5)
    ensures IsCubeRootFraction(RoundConstant(46), 211, 5) && IsCubeRootFraction(RoundConstant(47), 223, 6)
  {}

  lemma RoundConstants48To51()
    ensures IsCubeRootFraction(RoundConstant(48), 227, 6) && IsCubeRootFraction(RoundConstant(49), 229, 6)
    ensures IsCubeRootFraction(RoundConstant(50), 233, 6) && IsCubeRootFraction(RoundConstant(51), 239, 6)
  {}

  lemma RoundConstants52To55()
    ensures IsCubeRootFraction(RoundConstant(52), 241, 6) && IsCubeRootFraction(RoundConstant(53), 251, 6)
    ensures IsCubeRootFraction(RoundConstant(54), 257, 6) && IsCubeRootFraction(RoundConstant(55), 263, 6)
  {}

  lemma RoundConstants56To59()
    ensures IsCubeRootFraction(RoundConstant(56), 269, 6) && IsCubeRootFraction(RoundConstant(57), 271, 6)
    ensures IsCubeRootFraction(RoundConstant(58), 277, 6) && IsCubeRootFraction(RoundConstant(59), 281, 6)
  {}

  lemma RoundConstants60To63()
    ensures IsCubeRootFraction(RoundConstant(60), 283, 6) && IsCubeRootFraction(RoundConstant(61), 293, 6)
    ensures IsCubeRootFraction(RoundConstant(62), 307, 6) && IsCubeRootFraction(RoundConstant(63), 311, 6)
  {}

  // The first 64 prime numbers.
  function Prime(i: nat): nat
    requires i < 64
  {
    match i
    case 0 => 2 case 1 => 3 case 2 => 5 case 3 => 7
    case 4 => 11 case 5 => 13 case 6 => 17 case 7 => 19
    case 8 => 23 case 9 => 29 case 10 => 31 case 11 => 37
    case 12 => 41 case 13 => 43 case 14 => 47 case 15 => 53
    case 16 => 59 case 17 => 61 case 18 => 67 case 19 => 71
    case 20 => 73 case 21 => 79 case 22 => 83 case 23 => 89
    case 24 => 97 case 25 => 101 case 26 => 103 case 27 => 107
    case 28 => 109 case 29 => 113 case 30 => 127 case 31 => 131
    case 32 => 137 case 33 => 139 case 34 => 149 case 35 => 151
    case 36 => 157 case 37 => 163 case 38 => 167 case 39 => 173
    case 40 => 179 case 41 => 181 case 42 => 191 case 43 => 193
    case 44 => 197 case 45 => 199 case 46 => 211 case 47 => 223
    case 48 => 227 case 49 => 229 case 50 => 233 case 51 => 239
    case 52 => 241 case 53 => 251 case 54 => 257 case 55 => 263
    case 56 => 269 case 57 => 271 case 58 => 277 case 59 => 281
    case 60 => 283 case 61 => 293 case 62 => 307 case _ => 311
  }

  function CubeRoot(p: nat): nat {
    if p < 8 then 1 else if p < 27 then 2 else if p < 64 then 3 else if p < 125 then 4 else if p < 216 then 5 else 6
  }

  lemma RoundConstantsAreStandard(i: nat)
    requires i < 64
    ensures IsCubeRootFraction(RoundConstant(i), Prime(i), CubeRoot(Prime(i)))
  {
    hide IsCubeRootFraction, RoundConstant;
    RoundConstants0To3(); RoundConstants4To7(); RoundConstants8To11(); RoundConstants12To15();
    RoundConstants16To19(); RoundConstants20To23(); RoundConstants24To27(); RoundConstants28To31();
    RoundConstants32To35(); RoundConstants36To39(); RoundConstants40To43(); RoundConstants44To47();
    RoundConstants48To51(); RoundConstants52To55(); RoundConstants56To59(); RoundConstants60To63();
  }
}
