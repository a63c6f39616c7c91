// packages/benchmark/src/comparator.js: the matching of compareBenchmarkResult.

module BenchmarkComparator {
  import opened Results

  // The four fields that identity compares.
  datatype Key = Key(detectorId: string, sourceClass: string, sinkClass: string, disposition: string)

  datatype Finding = Finding(key: Key, fingerprint: string)

  // Positions of the expected finding and of the actual finding it is paired with.
  datatype Pair = Pair(expected: nat, actual: nat)

  datatype Comparison = Comparison(matches: seq<Pair>, falseNegatives: seq<nat>, falsePositives: seq<nat>)

  predicate Identity(actual: Finding, expected: Key) {
    actual.key == expected
  }

  function Keys(findings: seq<Finding>): (r: seq<Key>)
    ensures |r| == |findings|
  {
    seq(|findings|, i requires 0 <= i < |findings| => findings[i].key)
  }

  predicate InRange(positions: seq<nat>, n: nat) {
    forall k :: 0 <= k < |positions| ==> positions[k] < n
  }

  // The first of the remaining positions whose finding is the expected one.
  function FirstMatch(projected: seq<Finding>, remaining: seq<nat>, expected: Key): (r: Option<nat>)
    requires InRange(remaining, |projected|)
    ensures r.Some? ==> r.value < |remaining| && Identity(projected[remaining[r.value]], expected)
    ensures r.None? ==> forall k :: 0 <= k < |remaining| ==> !Identity(projected[remaining[k]], expected)
  {
    if remaining == [] then None
    else if Identity(projected[remaining[0]], expected) then Some(0)
    else
      var rest := FirstMatch(projected, remaining[1..], expected);
      if rest.None? then None else Some(rest.value + 1)
  }

  function KeysAt(projected: seq<Finding>, positions: seq<nat>): (r: seq<Key>)
    requires InRange(positions, |projected|)
    ensures |r| == |positions|
  {
    seq(|positions|, k requires 0 <= k < |positions| => projected[positions[k]].key)
  }

  function Removed<T>(s: seq<T>, k: nat): seq<T>
    requires k < |s|
  {
    s[..k] + s[k + 1..]
  }

  // A one-to-one pairing of expected with actual findings of the same identity.
  ghost predicate IsMatching(expected: seq<Key>, projected: seq<Finding>, pairs: seq<Pair>) {
    && (forall i :: 0 <= i < |pairs| ==>
         var p := pairs[i];
         p.expected < |expected| && p.actual < |projected| && Identity(projected[p.actual], expected[p.expected]))
    && (forall i, j :: 0 <= i < j < |pairs| ==>
      pairs[i].expected != pairs[j].expected && pairs[i].actual != pairs[j].actual)
  }

  // What matches can share: for each key the smaller of the two numbers of findings.
  function Shared(expected: seq<Key>, projected: seq<Finding>): multiset<Key> {
    multiset(expected) * multiset(Keys(projected))
  }

  function MatchedKeys(expected: seq<Key>, pairs: seq<Pair>): (r: seq<Key>)
    requires forall k :: 0 <= k < |pairs| ==> pairs[k].expected < |expected|
    ensures |r| == |pairs|
  {
    seq(|pairs|, k requires 0 <= k < |pairs| => expected[pairs[k].expected])
  }

  lemma MultisetOfRemoved<T>(s: seq<T>, k: nat)
    requires k < |s|
    ensures multiset(s) == multiset(Removed(s, k)) + multiset{s[k]}
  {
    assert s == s[..k] + [s[k]] + s[k + 1..];
  }

  lemma KeysOfAll(projected: seq<Finding>, positions: seq<nat>)
    requires positions == seq(|projected|, i => i)
    ensures KeysAt(projected, positions) == Keys(projected)
  {}

  // Of the first i expected findings, the false negatives are those that no match pairs, in order.
  ghost predicate Unmatched(i: nat, pairs: seq<Pair>, falseNegatives: seq<nat>) {
    && Ascending(falseNegatives)
    && (forall p <- pairs :: p.expected < i)
    && forall e: nat :: e in falseNegatives <==> e < i && forall p <- pairs :: p.expected != e
  }

  function ExpectedAt(expected: seq<Key>, positions: seq<nat>): (r: seq<Key>)
    requires forall e <- positions :: e < |expected|
    ensures |r| == |positions|
  {
    seq(|positions|, k requires 0 <= k < |positions| => assert positions[k] in positions; expected[positions[k]])
  }

  // The state of the loop after the first i expected findings.
  ghost predicate Progress(expected: seq<Key>, projected: seq<Finding>, i: nat, remaining: seq<nat>, c: Comparison)
    requires i <= |expected|
  {
    && IsMatching(expected, projected, c.matches)
    && (forall p <- c.matches :: p.expected < i && p.actual !in remaining)
    && Unmatched(i, c.matches, c.falseNegatives)
    && multiset(MatchedKeys(expected, c.matches)) + multiset(ExpectedAt(expected, c.falseNegatives))
      == multiset(expected[..i])
    && InRange(remaining, |projected|)
    && Ascending(remaining)
    && (forall a: nat :: a < |projected| ==> a in remaining || exists p <- c.matches :: p.actual == a)
    && multiset(MatchedKeys(expected, c.matches)) == multiset(expected[..i]) * multiset(Keys(projected))
    && multiset(KeysAt(projected, remaining)) == multiset(Keys(projected)) - multiset(MatchedKeys(expected, c.matches))
  }

  lemma OneMore(e: multiset<Key>, a: multiset<Key>, k: Key)
    ensures k in a - e * a ==> (e + multiset{k}) * a == e * a + multiset{k}
    ensures k !in a - e * a ==> (e + multiset{k}) * a == e * a
  {
    assert (a - e * a)[k] == if a[k] <= e[k] then 0 else a[k] - e[k];
    assert forall x :: ((e + multiset{k}) * a)[x] == if x == k then (if e[k] < a[k] then e[k] + 1 else a[k])
      else (e * a)[x];
  }

  lemma OneLess(x: multiset<Key>, a: multiset<Key>, m: multiset<Key>, k: Key)
    requires x + multiset{k} == a - m
    ensures x == a - (m + multiset{k})
  {
    forall y
      ensures x[y] == (a - (m + multiset{k}))[y]
    {
      assert (x + multiset{k})[y] == (a - m)[y];
    }
  }

  lemma ExpectedGrow(expected: seq<Key>, i: nat)
    requires i < |expected|
    ensures multiset(expected[..i + 1]) == multiset(expected[..i]) + multiset{expected[i]}
  {
    assert expected[..i + 1] == expected[..i] + [expected[i]];
  }

  lemma KeysRemaining(projected: seq<Finding>, remaining: seq<nat>, key: Key)
    requires InRange(remaining, |projected|)
    ensures key in multiset(KeysAt(projected, remaining)) <==>
      exists j :: 0 <= j < |remaining| && projected[remaining[j]].key == key
  {
    var keys := KeysAt(projected, remaining);
    assert forall j :: 0 <= j < |keys| ==> keys[j] == projected[remaining[j]].key;
  }

  lemma Missed(expected: seq<Key>, projected: seq<Finding>, i: nat, remaining: seq<nat>, c: Comparison)
    requires i < |expected| && Progress(expected, projected, i, remaining, c)
    requires FirstMatch(projected, remaining, expected[i]).None?
    ensures Progress(expected, projected, i + 1, remaining, c.(falseNegatives := c.falseNegatives + [i]))
  {
    hide IsMatching, KeysAt, MatchedKeys, Keys, ExpectedAt;
    ExpectedGrow(expected, i);
    KeysRemaining(projected, remaining, expected[i]);
    OneMore(multiset(expected[..i]), multiset(Keys(projected)), expected[i]);
    MissedIsUnmatched(i, c.matches, c.falseNegatives);
    MissedAt(expected, i, c.falseNegatives);
  }

  lemma MissedIsUnmatched(i: nat, pairs: seq<Pair>, falseNegatives: seq<nat>)
    requires Unmatched(i, pairs, falseNegatives)
    ensures Unmatched(i + 1, pairs, falseNegatives + [i])
  {
    assert forall k :: 0 <= k < |falseNegatives| ==> falseNegatives[k] in falseNegatives;
  }

  lemma MissedAt(expected: seq<Key>, i: nat, falseNegatives: seq<nat>)
    requires i < |expected| && forall e <- falseNegatives :: e < i
    ensures forall e <- falseNegatives + [i] :: e < |expected|
    ensures ExpectedAt(expected, falseNegatives + [i]) == ExpectedAt(expected, falseNegatives) + [expected[i]]
  {}

  lemma PairAdded(expected: seq<Key>, projected: seq<Finding>, pairs: seq<Pair>, pair: Pair)
    requires IsMatching(expected, projected, pairs)
    requires pair.expected < |expected| && pair.actual < |projected|
    requires Identity(projected[pair.actual], expected[pair.expected])
    requires forall p <- pairs :: p.expected != pair.expected && p.actual != pair.actual
    ensures IsMatching(expected, projected, pairs + [pair])
    ensures MatchedKeys(expected, pairs + [pair]) == MatchedKeys(expected, pairs) + [expected[pair.expected]]
  {
    assert forall i :: 0 <= i < |pairs| ==> pairs[i] in pairs;
  }

  predicate Ascending(positions: seq<nat>) {
    forall a, b :: 0 <= a < b < |positions| ==> positions[a] < positions[b]
  }

  lemma RestOfPositions(positions: seq<nat>, k: nat, n: nat)
    requires k < |positions| && InRange(positions, n) && Ascending(positions)
    ensures var rest := Removed(positions, k);
      && InRange(rest, n) && Ascending(rest) && positions[k] !in rest
      && forall i: nat :: i in positions <==> i in rest || i == positions[k]
  {
    var rest := Removed(positions, k);
    assert positions == positions[..k] + [positions[k]] + positions[k + 1..];
  }

  lemma KeysOfRest(projected: seq<Finding>, remaining: seq<nat>, k: nat)
    requires k < |remaining| && InRange(remaining, |projected|) && InRange(Removed(remaining, k), |projected|)
    ensures multiset(KeysAt(projected, remaining))
         == multiset(KeysAt(projected, Removed(remaining, k))) + multiset{projected[remaining[k]].key}
  {
    var keys := KeysAt(projected, remaining);
    MultisetOfRemoved(keys, k);
    assert Removed(keys, k) == KeysAt(projected, Removed(remaining, k));
  }

  lemma Matched(expected: seq<Key>, projected: seq<Finding>, i: nat, remaining: seq<nat>, c: Comparison, k: nat)
    requires i < |expected| && Progress(expected, projected, i, remaining, c)
    requires k < |remaining| && Identity(projected[remaining[k]], expected[i])
    ensures Progress(expected, projected, i + 1, Removed(remaining, k),
                     c.(matches := c.matches + [Pair(i, remaining[k])]))
  {
    hide IsMatching, KeysAt, MatchedKeys, Removed, Keys, Ascending, Unmatched, ExpectedAt;
    assert remaining[k] in remaining;
    PairedIsMatched(i, c.matches, c.falseNegatives, Pair(i, remaining[k]));
    ExpectedGrow(expected, i);
    KeysRemaining(projected, remaining, expected[i]);
    OneMore(multiset(expected[..i]), multiset(Keys(projected)), expected[i]);
    PairAdded(expected, projected, c.matches, Pair(i, remaining[k]));
    RestOfPositions(remaining, k, |projected|);
    KeysOfRest(projected, remaining, k);
    OneLess(multiset(KeysAt(projected, Removed(remaining, k))), multiset(Keys(projected)),
            multiset(MatchedKeys(expected, c.matches)), expected[i]);
    var pairs := c.matches + [Pair(i, remaining[k])];
    assert pairs[|c.matches|] in pairs;
    forall a: nat | a < |projected|
      ensures a in Removed(remaining, k) || exists p <- pairs :: p.actual == a
    {
      if a !in remaining {
        var p :| p in c.matches && p.actual == a;
        assert p in pairs;
      }
    }
  }

  lemma PairedIsMatched(i: nat, pairs: seq<Pair>, falseNegatives: seq<nat>, pair: Pair)
    requires Unmatched(i, pairs, falseNegatives) && pair.expected == i
    ensures Unmatched(i + 1, pairs + [pair], falseNegatives)
  {
    var more := pairs + [pair];
    assert more[|pairs|] in more;
    assert forall p: Pair :: p in more <==> p in pairs || p == pair;
  }

  function NotAllowed(projected: seq<Finding>, positions: seq<nat>, allowed: seq<string>): (r: seq<nat>)
    requires InRange(positions, |projected|)
    ensures forall k :: k in r <==> k in positions && k < |projected| && projected[k].key.detectorId !in allowed
  {
    if positions == [] then []
    else
      var k := positions[0];
      (if projected[k].key.detectorId in allowed then [] else [k]) + NotAllowed(projected, positions[1..], allowed)
  }

  lemma {:induction false} NotAllowedAscends(projected: seq<Finding>, positions: seq<nat>, allowed: seq<string>)
    requires InRange(positions, |projected|) && Ascending(positions)
    ensures Ascending(NotAllowed(projected, positions, allowed))
  {
    if positions != [] {
      var rest := NotAllowed(projected, positions[1..], allowed);
      NotAllowedAscends(projected, positions[1..], allowed);
      forall k | 0 <= k < |rest|
        ensures positions[0] < rest[k]
      {
        assert rest[k] in rest && rest[k] in positions[1..];
      }
    }
  }

  // How many of the keys satisfy p.
  function CountIf(keys: seq<Key>, p: Key -> bool): nat {
    if keys == [] then 0 else (if p(keys[0]) then 1 else 0) + CountIf(keys[1..], p)
  }

  function NotAmong(allowed: seq<string>): Key -> bool {
    (key: Key) => key.detectorId !in allowed
  }

  // What the comparison says: the pairs match as many findings as any pairing can; the false negatives are
  // exactly the expected findings that are not paired, the false positives exactly the actual ones that are
  // neither paired nor allowed, each once and in order.
  ghost predicate IsComparison(projected: seq<Finding>, expected: seq<Key>, allowed: seq<string>, c: Comparison) {
    && IsMatching(expected, projected, c.matches)
    && multiset(MatchedKeys(expected, c.matches)) == Shared(expected, projected)
    && Unmatched(|expected|, c.matches, c.falseNegatives)
    && multiset(MatchedKeys(expected, c.matches)) + multiset(ExpectedAt(expected, c.falseNegatives))
      == multiset(expected)
    && Ascending(c.falsePositives)
    && (forall a: nat :: a in c.falsePositives <==>
         && a < |projected| && projected[a].key.detectorId !in allowed
         && forall p <- c.matches :: p.actual != a)
    && |c.falsePositives| + CountIf(MatchedKeys(expected, c.matches), NotAmong(allowed))
       == CountIf(Keys(projected), NotAmong(allowed))
  }

  method Compare(projected: seq<Finding>, expected: seq<Key>, allowed: seq<string>) returns (c: Comparison)
    ensures IsComparison(projected, expected, allowed, c)
    ensures |c.matches| == |Shared(expected, projected)|
    ensures |c.matches| + |c.falseNegatives| == |expected|
  {
    hide Progress, IsMatching, FirstMatch, Removed, Shared, NotAllowed;
    var remaining: seq<nat> := seq(|projected|, i => i);
    c := Comparison([], [], []);
    NothingCompared(expected, projected, remaining);
    for i := 0 to |expected|
      invariant Progress(expected, projected, i, remaining, c)
    {
      assert InRange(remaining, |projected|) by { Positions(expected, projected, i, remaining, c); }
      var index := FirstMatch(projected, remaining, expected[i]);
      if index.None? {
        Missed(expected, projected, i, remaining, c);
        c := c.(falseNegatives := c.falseNegatives + [i]);
      } else {
        Matched(expected, projected, i, remaining, c, index.value);
        c := c.(matches := c.matches + [Pair(i, remaining[index.value])]);
        remaining := Removed(remaining, index.value);
      }
    }
    AllCompared(expected, projected, remaining, allowed, c);
    c := c.(falsePositives := NotAllowed(projected, remaining, allowed));
    IsCompared(projected, expected, allowed, c);
  }

  lemma IsCompared(projected: seq<Finding>, expected: seq<Key>, allowed: seq<string>, c: Comparison)
    requires IsComparison(projected, expected, allowed, c)
    ensures |c.matches| == |Shared(expected, projected)|
    ensures |c.matches| + |c.falseNegatives| == |expected|
  {
    var matched, missed := MatchedKeys(expected, c.matches), ExpectedAt(expected, c.falseNegatives);
    assert |matched| == |multiset(matched)| && |missed| == |multiset(missed)| && |expected| == |multiset(expected)|;
  }

  lemma NothingCompared(expected: seq<Key>, projected: seq<Finding>, remaining: seq<nat>)
    requires remaining == seq(|projected|, i => i)
    ensures Progress(expected, projected, 0, remaining, Comparison([], [], []))
  {
    KeysOfAll(projected, remaining);
    assert expected[..0] == [] && MatchedKeys(expected, []) == [];
    assert multiset(expected[..0]) * multiset(Keys(projected)) == multiset{};
    var c := Comparison([], [], []);
    forall a: nat | a < |projected|
      ensures a in remaining
    {
      assert remaining[a] == a;
    }
    assert multiset(MatchedKeys(expected, c.matches)) == multiset{};
    assert multiset(KeysAt(projected, remaining)) == multiset(Keys(projected));
    assert multiset(Keys(projected)) - multiset{} == multiset(Keys(projected));
  }

  lemma Positions(expected: seq<Key>, projected: seq<Finding>, i: nat, remaining: seq<nat>, c: Comparison)
    requires i <= |expected| && Progress(expected, projected, i, remaining, c)
    ensures InRange(remaining, |projected|)
  {}

  lemma AllCompared(expected: seq<Key>, projected: seq<Finding>, remaining: seq<nat>, allowed: seq<string>,
                    c: Comparison)
    requires Progress(expected, projected, |expected|, remaining, c)
    ensures InRange(remaining, |projected|)
    ensures IsComparison(projected, expected, allowed, c.(falsePositives := NotAllowed(projected, remaining, allowed)))
  {
    hide IsMatching, Unmatched, MatchedKeys, ExpectedAt, KeysAt, Keys, CountIf, NotAmong;
    assert expected[..|expected|] == expected;
    assert forall p <- c.matches :: p.actual !in remaining;
    PositionsInRange(remaining, |projected|);
    var matched, rest, all := MatchedKeys(expected, c.matches), KeysAt(projected, remaining), Keys(projected);
    MatchedTwice(expected, projected, c.matches);
    RestAndMatched(multiset(rest), multiset(all), multiset(matched));
    CountIfOfSum(rest, matched, all, NotAmong(allowed));
    NotAllowedCounts(projected, remaining, allowed);
    NotAllowedAscends(projected, remaining, allowed);
  }

  lemma PositionsInRange(positions: seq<nat>, n: nat)
    requires InRange(positions, n)
    ensures forall a <- positions :: a < n
  {
    forall a | a in positions
      ensures a < n
    {
      var k :| 0 <= k < |positions| && positions[k] == a;
    }
  }

  lemma RestAndMatched<T>(rest: multiset<T>, all: multiset<T>, matched: multiset<T>)
    requires rest == all - matched && matched <= all
    ensures rest + matched == all
  {}

  lemma {:induction false} NotAllowedCounts(projected: seq<Finding>, positions: seq<nat>, allowed: seq<string>)
    requires InRange(positions, |projected|)
    ensures |NotAllowed(projected, positions, allowed)| == CountIf(KeysAt(projected, positions), NotAmong(allowed))
  {
    if positions != [] {
      NotAllowedCounts(projected, positions[1..], allowed);
      assert KeysAt(projected, positions)[1..] == KeysAt(projected, positions[1..]);
    }
  }

  lemma {:induction false} CountIfOfRemoved(keys: seq<Key>, k: nat, p: Key -> bool)
    requires k < |keys|
    ensures CountIf(keys, p) == CountIf(Removed(keys, k), p) + if p(keys[k]) then 1 else 0
  {
    if k == 0 {
      assert Removed(keys, k) == keys[1..];
    } else {
      CountIfOfRemoved(keys[1..], k - 1, p);
      assert Removed(keys, k)[1..] == Removed(keys[1..], k - 1);
    }
  }

  lemma {:induction false} CountIfOfJoin(a: seq<Key>, b: seq<Key>, p: Key -> bool)
    ensures CountIf(a + b, p) == CountIf(a, p) + CountIf(b, p)
  {
    if a == [] {
      assert a + b == b;
    } else {
      CountIfOfJoin(a[1..], b, p);
      assert (a + b)[1..] == a[1..] + b;
    }
  }

  // The number depends on the multiset of keys only.
  lemma {:induction false} CountIfOfSame(a: seq<Key>, b: seq<Key>, p: Key -> bool)
    requires multiset(a) == multiset(b)
    ensures CountIf(a, p) == CountIf(b, p)
    decreases |a|
  {
    hide Removed;
    if a == [] {
      assert |multiset(b)| == 0;
    } else {
      assert a[0] in multiset(b);
      var k :| 0 <= k < |b| && b[k] == a[0];
      MultisetOfRemoved(a, 0);
      MultisetOfRemoved(b, k);
      CancelOne(multiset(Removed(a, 0)), multiset(Removed(b, k)), a[0]);
      RemovedIsShorter(a, 0);
      CountIfOfSame(Removed(a, 0), Removed(b, k), p);
      CountIfOfRemoved(a, 0, p);
      CountIfOfRemoved(b, k, p);
    }
  }

  lemma CountIfOfSum(a: seq<Key>, b: seq<Key>, sum: seq<Key>, p: Key -> bool)
    requires multiset(a) + multiset(b) == multiset(sum)
    ensures CountIf(a, p) + CountIf(b, p) == CountIf(sum, p)
  {
    assert multiset(a + b) == multiset(sum);
    CountIfOfSame(a + b, sum, p);
    CountIfOfJoin(a, b, p);
  }

  // ---- The matching is maximum ----

  lemma MatchedTwice(expected: seq<Key>, projected: seq<Finding>, pairs: seq<Pair>)
    requires IsMatching(expected, projected, pairs)
    ensures multiset(MatchedKeys(expected, pairs)) <= multiset(expected)
    ensures multiset(MatchedKeys(expected, pairs)) <= multiset(Keys(projected))
  {
    var expectedAt := seq(|pairs|, k requires 0 <= k < |pairs| => pairs[k].expected);
    var actualAt := seq(|pairs|, k requires 0 <= k < |pairs| => pairs[k].actual);
    ChosenFrom(expected, expectedAt);
    ChosenFrom(Keys(projected), actualAt);
    assert Chosen(expected, expectedAt) == MatchedKeys(expected, pairs);
    assert Chosen(Keys(projected), actualAt) == MatchedKeys(expected, pairs);
  }

  function Chosen(keys: seq<Key>, positions: seq<nat>): (r: seq<Key>)
    requires InRange(positions, |keys|)
    ensures |r| == |positions|
  {
    seq(|positions|, k requires 0 <= k < |positions| => keys[positions[k]])
  }

  predicate Distinct(positions: seq<nat>) {
    forall i, j :: 0 <= i < j < |positions| ==> positions[i] != positions[j]
  }

  lemma NoLongerLast(positions: seq<nat>, n: nat, k: nat)
    requires k < |positions| && InRange(positions, n + 1) && Distinct(positions) && positions[k] == n
    ensures InRange(Removed(positions, k), n) && Distinct(Removed(positions, k))
  {}

  lemma ChosenWithLast(keys: seq<Key>, positions: seq<nat>, k: nat)
    requires keys != [] && InRange(positions, |keys|) && k < |positions| && positions[k] == |keys| - 1
    requires InRange(Removed(positions, k), |keys| - 1)
    ensures multiset(Chosen(keys, positions))
         == multiset(Chosen(keys[..|keys| - 1], Removed(positions, k))) + multiset{keys[|keys| - 1]}
  {
    var chosen := Chosen(keys, positions);
    MultisetOfRemoved(chosen, k);
    assert Removed(chosen, k) == Chosen(keys[..|keys| - 1], Removed(positions, k));
  }

  lemma FirstInRange(positions: seq<nat>, n: nat)
    requires positions != [] && InRange(positions, n)
    ensures n > 0
  {
    assert positions[0] < n;
  }

  // Keys chosen at distinct positions are no more than there are.
  lemma {:induction false} ChosenFrom(keys: seq<Key>, positions: seq<nat>)
    requires InRange(positions, |keys|) && Distinct(positions)
    ensures multiset(Chosen(keys, positions)) <= multiset(keys)
    decreases |keys|
  {
    hide Chosen, Removed, Distinct;
    if keys == [] {
      if positions != [] {
        FirstInRange(positions, 0);
      }
    } else {
      var last := |keys| - 1;
      assert keys == keys[..last] + [keys[last]];
      if k :| 0 <= k < |positions| && positions[k] == last {
        NoLongerLast(positions, last, k);
        ChosenWithLast(keys, positions, k);
        ChosenFrom(keys[..last], Removed(positions, k));
      } else {
        ChosenFrom(keys[..last], positions);
        assert Chosen(keys, positions) == Chosen(keys[..last], positions) by { ChosenBefore(keys, positions); }
      }
    }
  }

  lemma ChosenBefore(keys: seq<Key>, positions: seq<nat>)
    requires keys != [] && InRange(positions, |keys| - 1)
    ensures Chosen(keys, positions) == Chosen(keys[..|keys| - 1], positions)
  {}

  // No one-to-one pairing is larger than the greedy one, whatever the order of the oracle or the findings.
  lemma MatchingIsBounded(expected: seq<Key>, projected: seq<Finding>, pairs: seq<Pair>)
    requires IsMatching(expected, projected, pairs)
    ensures |pairs| <= |Shared(expected, projected)|
  {
    MatchedTwice(expected, projected, pairs);
    var m, shared := multiset(MatchedKeys(expected, pairs)), Shared(expected, projected);
    assert m <= shared;
    assert shared == m + (shared - m);
  }

  // The number of matches depends neither on the order of the oracle nor on that of the findings.
  lemma OrderDoesNotMatter(expected: seq<Key>, projected: seq<Finding>, expected': seq<Key>, projected': seq<Finding>)
    requires multiset(expected) == multiset(expected') && multiset(projected) == multiset(projected')
    ensures Shared(expected, projected) == Shared(expected', projected')
  {
    SameKeys(projected, projected');
  }

  lemma KeysOfRemoved(s: seq<Finding>, k: nat)
    requires k < |s|
    ensures multiset(s) == multiset(Removed(s, k)) + multiset{s[k]}
    ensures multiset(Keys(s)) == multiset(Keys(Removed(s, k))) + multiset{s[k].key}
  {
    MultisetOfRemoved(s, k);
    MultisetOfRemoved(Keys(s), k);
    assert Removed(Keys(s), k) == Keys(Removed(s, k));
  }

  lemma CancelOne<T>(x: multiset<T>, y: multiset<T>, e: T)
    requires x + multiset{e} == y + multiset{e}
    ensures x == y
  {
    assert x == x + multiset{e} - multiset{e};
    assert y == y + multiset{e} - multiset{e};
  }

  lemma {:induction false} SameKeys(a: seq<Finding>, b: seq<Finding>)
    requires multiset(a) == multiset(b)
    ensures multiset(Keys(a)) == multiset(Keys(b))
    decreases |a|
  {
    hide Keys, Removed;
    if a == [] {
      assert |multiset(b)| == 0;
    } else {
      assert a[0] in multiset(b);
      var k :| 0 <= k < |b| && b[k] == a[0];
      KeysOfRemoved(a, 0);
      KeysOfRemoved(b, k);
      CancelOne(multiset(Removed(a, 0)), multiset(Removed(b, k)), a[0]);
      assert |Removed(a, 0)| < |a| by { RemovedIsShorter(a, 0); }
      SameKeys(Removed(a, 0), Removed(b, k));
    }
  }

  lemma RemovedIsShorter<T>(s: seq<T>, k: nat)
    requires k < |s|
    ensures |Removed(s, k)| == |s| - 1
  {}
}
