// The rotation offsets of the step rho of Keccak (section 3.2.2 of FIPS 202).

module KeccakOffsets {

  // Table 2: the rotation of lane i.
  function Offset(i: nat): (r: nat)
    requires i < 25
    ensures r < 64
  {
    match i
    case 0 => 0 case 1 => 1 case 2 => 62 case 3 => 28 case 4 => 27
    case 5 => 36 case 6 => 44 case 7 => 6 case 8 => 55 case 9 => 20
    case 10 => 3 case 11 => 10 case 12 => 43 case 13 => 25 case 14 => 39
    case 15 => 41 case 16 => 45 case 17 => 15 case 18 => 21 case 19 => 8
    case 20 => 18 case 21 => 2 case 22 => 61 case 23 => 56 case _ => 14
  }

  datatype Place = Place(x: nat, y: nat)

  // Algorithm 2: the walk starts at (1, 0) and goes on from (x, y) to (y, 2x + 3y).
  function Onward(p: Place): Place {
    Place(p.y, (2 * p.x + 3 * p.y) % 5)
  }

  function Walk(t: nat): Place {
    if t == 0 then Place(1, 0) else Onward(Walk(t - 1))
  }

  // Where the walk is, step by step.
  function PlaceAt(t: nat): Place {
    match t
    case 0 => Place(1, 0) case 1 => Place(0, 2) case 2 => Place(2, 1) case 3 => Place(1, 2)
    case 4 => Place(2, 3) case 5 => Place(3, 3) case 6 => Place(3, 0) case 7 => Place(0, 1)
    case 8 => Place(1, 3) case 9 => Place(3, 1) case 10 => Place(1, 4) case 11 => Place(4, 4)
    case 12 => Place(4, 0) case 13 => Place(0, 3) case 14 => Place(3, 4) case 15 => Place(4, 3)
    case 16 => Place(3, 2) case 17 => Place(2, 2) case 18 => Place(2, 0) case 19 => Place(0, 4)
    case 20 => Place(4, 2) case 21 => Place(2, 4) case 22 => Place(4, 1) case _ => Place(1, 1)
  }

  lemma PlacesFollow(t: nat)
    requires 0 < t < 24
    ensures PlaceAt(t) == Onward(PlaceAt(t - 1))
  {
    match t
    case 1 => case 2 => case 3 => case 4 => case 5 => case 6 => case 7 => case 8 =>
    case 9 => case 10 => case 11 => case 12 => case 13 => case 14 => case 15 => case 16 =>
    case 17 => case 18 => case 19 => case 20 => case 21 => case 22 => case _ =>
  }

  lemma {:induction false} WalkIs(t: nat)
    requires t < 24
    ensures Walk(t) == PlaceAt(t)
  {
    hide PlaceAt, Onward;
    if t == 0 {
      WalkStarts();
    } else {
      WalkIs(t - 1);
      PlacesFollow(t);
    }
  }

  lemma WalkStarts()
    ensures Walk(0) == PlaceAt(0)
  {}

  // The offset of the lane at p is (t + 1)(t + 2)/2 modulo 64.
  predicate Turns(t: nat, p: Place) {
    p.x < 5 && p.y < 5 && Offset(p.x + 5 * p.y) == (t + 1) * (t + 2) / 2 % 64
  }

  lemma Steps0To5()
    ensures Turns(0, PlaceAt(0)) && Turns(1, PlaceAt(1)) && Turns(2, PlaceAt(2))
    ensures Turns(3, PlaceAt(3)) && Turns(4, PlaceAt(4)) && Turns(5, PlaceAt(5))
  {}

  lemma Steps6To11()
    ensures Turns(6, PlaceAt(6)) && Turns(7, PlaceAt(7)) && Turns(8, PlaceAt(8))
    ensures Turns(9, PlaceAt(9)) && Turns(10, PlaceAt(10)) && Turns(11, PlaceAt(11))
  {}

  lemma Steps12To17()
    ensures Turns(12, PlaceAt(12)) && Turns(13, PlaceAt(13)) && Turns(14, PlaceAt(14))
    ensures Turns(15, PlaceAt(15)) && Turns(16, PlaceAt(16)) && Turns(17, PlaceAt(17))
  {}

  lemma Steps18To23()
    ensures Turns(18, PlaceAt(18)) && Turns(19, PlaceAt(19)) && Turns(20, PlaceAt(20))
    ensures Turns(21, PlaceAt(21)) && Turns(22, PlaceAt(22)) && Turns(23, PlaceAt(23))
  {}

  // At each step t the walk reaches a lane with the offset that algorithm 2 gives it there.
  lemma OffsetsFollowTheWalk(t: nat)
    requires t < 24
    ensures Turns(t, Walk(t))
  {
    hide Walk, PlaceAt, Turns;
    WalkIs(t);
    Steps0To5();
    Steps6To11();
    Steps12To17();
    Steps18To23();
  }

  // The walk reaches every lane but the first, whose offset is 0, in its 24 steps.
  lemma WalkReaches(i: nat) returns (t: nat)
    requires 0 < i < 25
    ensures t < 24 && Walk(t) == Place(i % 5, i / 5)
  {
    hide Walk;
    t := match i
      case 1 => 0 case 10 => 1 case 7 => 2 case 11 => 3 case 17 => 4 case 18 => 5
      case 3 => 6 case 5 => 7 case 16 => 8 case 8 => 9 case 21 => 10 case 24 => 11
      case 4 => 12 case 15 => 13 case 23 => 14 case 19 => 15 case 13 => 16 case 12 => 17
      case 2 => 18 case 20 => 19 case 14 => 20 case 22 => 21 case 9 => 22 case _ => 23;
    WalkIs(t);
  }
}
