// packages/benchmark/src/metrics.js: the integer counts of aggregate, detectorResult and calculateMetrics.
// The ratios derived from them are not part of this model.

module BenchmarkMetrics {
  import opened BenchmarkComparator

  // A match with whether it raised no issue; of the other findings only the detector counts here.
  datatype Match = Match(detectorId: string, clean: bool)

  datatype CaseResult = CaseResult(domain: string, matches: seq<Match>, falseNegatives: seq<string>,
                                   falsePositives: seq<string>)

  datatype Counts = Counts(truePositives: nat, falsePositives: nat, falseNegatives: nat)

  function Plus(a: Counts, b: Counts): Counts {
    Counts(a.truePositives + b.truePositives, a.falsePositives + b.falsePositives, a.falseNegatives + b.falseNegatives)
  }

  const NONE := Counts(0, 0, 0)

  function Clean(matches: seq<Match>, clean: bool): nat {
    if matches == [] then 0
    else (if matches[0].clean == clean then 1 else 0) + Clean(matches[1..], clean)
  }

  function CountsOf(r: CaseResult): Counts {
    Counts(Clean(r.matches, true), |r.falsePositives|, |r.falseNegatives| + Clean(r.matches, false))
  }

  // findingLevel of aggregate
  function Aggregate(results: seq<CaseResult>): Counts {
    if results == [] then NONE else Plus(CountsOf(results[0]), Aggregate(results[1..]))
  }

  function OfDomain(results: seq<CaseResult>, domain: string): seq<CaseResult> {
    if results == [] then []
    else (if results[0].domain == domain then [results[0]] else []) + OfDomain(results[1..], domain)
  }

  // ---- Per detector ----

  function MatchesOf(matches: seq<Match>, detectorId: string): seq<Match> {
    if matches == [] then []
    else (if matches[0].detectorId == detectorId then [matches[0]] else []) + MatchesOf(matches[1..], detectorId)
  }

  function NamesOf(names: seq<string>, detectorId: string): seq<string> {
    if names == [] then []
    else (if names[0] == detectorId then [names[0]] else []) + NamesOf(names[1..], detectorId)
  }

  function DetectorResult(r: CaseResult, detectorId: string): CaseResult {
    r.(matches := MatchesOf(r.matches, detectorId),
       falseNegatives := NamesOf(r.falseNegatives, detectorId),
       falsePositives := NamesOf(r.falsePositives, detectorId))
  }

  predicate Mentions(r: CaseResult, detectorId: string) {
    || (exists m <- r.matches :: m.detectorId == detectorId)
    || detectorId in r.falseNegatives || detectorId in r.falsePositives
  }

  // The relevant results, cut down to one detector.
  function OfDetector(results: seq<CaseResult>, detectorId: string): seq<CaseResult> {
    if results == [] then []
    else
      var relevant := if Mentions(results[0], detectorId) then [DetectorResult(results[0], detectorId)] else [];
      relevant + OfDetector(results[1..], detectorId)
  }

  // ---- Conservation ----

  // Every expected finding of a case counts once: as a true positive or as a false negative.
  lemma {:induction false} MatchesSplit(matches: seq<Match>)
    ensures Clean(matches, true) + Clean(matches, false) == |matches|
  {
    if matches != [] {
      MatchesSplit(matches[1..]);
    }
  }

  function Total(parts: seq<Counts>): Counts {
    if parts == [] then NONE else Plus(parts[0], Total(parts[1..]))
  }

  lemma PlusNothing(c: Counts)
    ensures Plus(NONE, c) == c && Plus(c, NONE) == c
  {}

  lemma PlusRegroups(a: Counts, b: Counts, c: Counts, d: Counts)
    ensures Plus(Plus(a, b), Plus(c, d)) == Plus(Plus(a, c), Plus(b, d))
  {}

  lemma {:induction false} TotalOfSums(a: seq<Counts>, b: seq<Counts>, sums: seq<Counts>)
    requires |a| == |b| == |sums| && forall i :: 0 <= i < |a| ==> sums[i] == Plus(a[i], b[i])
    ensures Total(sums) == Plus(Total(a), Total(b))
  {
    hide Plus;
    if a == [] {
      PlusNothing(NONE);
    } else {
      TotalOfSums(a[1..], b[1..], sums[1..]);
      PlusRegroups(a[0], b[0], Total(a[1..]), Total(b[1..]));
    }
  }

  lemma {:induction false} TotalOfNothing(parts: seq<Counts>)
    requires forall i :: 0 <= i < |parts| ==> parts[i] == NONE
    ensures Total(parts) == NONE
  {
    hide Plus;
    if parts != [] {
      TotalOfNothing(parts[1..]);
      PlusNothing(NONE);
    }
  }

  lemma {:induction false} TotalOfOne(parts: seq<Counts>, k: nat)
    requires k < |parts| && forall i :: 0 <= i < |parts| && i != k ==> parts[i] == NONE
    ensures Total(parts) == parts[k]
  {
    hide Plus;
    if k == 0 {
      TotalOfNothing(parts[1..]);
      PlusNothing(parts[0]);
    } else {
      TotalOfOne(parts[1..], k - 1);
      PlusNothing(parts[k]);
    }
  }

  ghost predicate DistinctNames(names: seq<string>) {
    forall i, j :: 0 <= i < j < |names| ==> names[i] != names[j]
  }

  function PerDomain(results: seq<CaseResult>, domains: seq<string>): (r: seq<Counts>)
    ensures |r| == |domains|
  {
    seq(|domains|, i requires 0 <= i < |domains| => Aggregate(OfDomain(results, domains[i])))
  }

  // What one case adds to the domain or detector at position k.
  function At(n: nat, k: nat, c: Counts): (r: seq<Counts>)
    ensures |r| == n
  {
    seq(n, i => if i == k then c else NONE)
  }

  lemma AddedToOne(n: nat, k: nat, c: Counts)
    requires k < n
    ensures Total(At(n, k, c)) == c
  {
    TotalOfOne(At(n, k, c), k);
  }

  lemma AggregateOfDomain(r: CaseResult, rest: seq<CaseResult>, domain: string)
    ensures Aggregate(OfDomain([r] + rest, domain))
         == Plus(if r.domain == domain then CountsOf(r) else NONE, Aggregate(OfDomain(rest, domain)))
  {
    hide CountsOf, Plus;
    PlusNothing(Aggregate(OfDomain(rest, domain)));
    assert ([r] + rest)[1..] == rest;
    assert ([r] + OfDomain(rest, domain))[1..] == OfDomain(rest, domain);
    assert [] + OfDomain(rest, domain) == OfDomain(rest, domain);
  }

  lemma NoDomains(domains: seq<string>)
    ensures forall i :: 0 <= i < |domains| ==> PerDomain([], domains)[i] == NONE
  {}

  // The counts of the domains add up to the overall counts.
  lemma {:induction false} DomainsAddUp(results: seq<CaseResult>, domains: seq<string>)
    requires DistinctNames(domains) && forall r <- results :: r.domain in domains
    ensures Total(PerDomain(results, domains)) == Aggregate(results)
  {
    hide CountsOf, Total, Plus, OfDomain;
    if results == [] {
      NoDomains(domains);
      TotalOfNothing(PerDomain(results, domains));
    } else {
      var r, rest := results[0], results[1..];
      assert r in results;
      var k :| 0 <= k < |domains| && domains[k] == r.domain;
      DomainsAddUp(rest, domains);
      AddedToOne(|domains|, k, CountsOf(r));
      assert results == [r] + rest;
      forall i | 0 <= i < |domains|
        ensures PerDomain(results, domains)[i] == Plus(At(|domains|, k, CountsOf(r))[i], PerDomain(rest, domains)[i])
      {
        AggregateOfDomain(r, rest, domains[i]);
      }
      TotalOfSums(At(|domains|, k, CountsOf(r)), PerDomain(rest, domains), PerDomain(results, domains));
    }
  }

  // ---- Detectors ----

  function PartsOf(r: CaseResult, detectors: seq<string>): (parts: seq<Counts>)
    ensures |parts| == |detectors|
  {
    seq(|detectors|, i requires 0 <= i < |detectors| => CountsOf(DetectorResult(r, detectors[i])))
  }

  // The finding of a case that is counted next, what it adds, and the case without it.
  function Single(r: CaseResult): (Counts, string, CaseResult)
    requires r.matches != [] || r.falseNegatives != [] || r.falsePositives != []
  {
    if r.matches != [] then
      (if r.matches[0].clean then Counts(1, 0, 0) else Counts(0, 0, 1),
       r.matches[0].detectorId, r.(matches := r.matches[1..]))
    else if r.falseNegatives != [] then
      (Counts(0, 0, 1), r.falseNegatives[0], r.(falseNegatives := r.falseNegatives[1..]))
    else (Counts(0, 1, 0), r.falsePositives[0], r.(falsePositives := r.falsePositives[1..]))
  }

  predicate Covers(detectors: seq<string>, r: CaseResult) {
    && (forall m <- r.matches :: m.detectorId in detectors)
    && (forall n <- r.falseNegatives :: n in detectors) && (forall n <- r.falsePositives :: n in detectors)
  }

  lemma FirstMatchOf(matches: seq<Match>, detectorId: string, clean: bool)
    requires matches != []
    ensures Clean(MatchesOf(matches, detectorId), clean)
         == (if matches[0].detectorId == detectorId && matches[0].clean == clean then 1 else 0)
          + Clean(MatchesOf(matches[1..], detectorId), clean)
  {
    var rest := MatchesOf(matches[1..], detectorId);
    assert ([matches[0]] + rest)[1..] == rest;
    assert [] + rest == rest;
  }

  lemma SingleCounts(r: CaseResult, detectorId: string)
    requires r.matches != [] || r.falseNegatives != [] || r.falsePositives != []
    ensures var (c, d, rest) := Single(r);
      && CountsOf(r) == Plus(c, CountsOf(rest))
      && CountsOf(DetectorResult(r, detectorId))
         == Plus(if d == detectorId then c else NONE, CountsOf(DetectorResult(rest, detectorId)))
  {
    hide MatchesOf;
    if r.matches != [] {
      FirstMatchOf(r.matches, detectorId, true);
      FirstMatchOf(r.matches, detectorId, false);
    }
  }

  lemma NothingCounted(r: CaseResult, detectorId: string)
    requires r.matches == [] && r.falseNegatives == [] && r.falsePositives == []
    ensures CountsOf(r) == NONE && CountsOf(DetectorResult(r, detectorId)) == NONE
  {}

  lemma SingleCovered(detectors: seq<string>, r: CaseResult)
    requires Covers(detectors, r) && (r.matches != [] || r.falseNegatives != [] || r.falsePositives != [])
    ensures Single(r).1 in detectors && Covers(detectors, Single(r).2)
  {
    if r.matches != [] {
      assert r.matches[0] in r.matches;
    } else if r.falseNegatives != [] {
      assert r.falseNegatives[0] in r.falseNegatives;
    } else {
      assert r.falsePositives[0] in r.falsePositives;
    }
  }

  lemma {:induction false} PartsAddUp(r: CaseResult, detectors: seq<string>)
    requires DistinctNames(detectors) && Covers(detectors, r)
    ensures Total(PartsOf(r, detectors)) == CountsOf(r)
    decreases |r.matches| + |r.falseNegatives| + |r.falsePositives|
  {
    hide CountsOf, DetectorResult, Total, Plus, Covers;
    var n, parts := |detectors|, PartsOf(r, detectors);
    if r.matches == [] && r.falseNegatives == [] && r.falsePositives == [] {
      forall i | 0 <= i < n
        ensures parts[i] == NONE
      {
        NothingCounted(r, detectors[i]);
      }
      NothingCounted(r, "");
      TotalOfNothing(parts);
    } else {
      var (c, d, rest) := Single(r);
      SingleCovered(detectors, r);
      var k :| 0 <= k < n && detectors[k] == d;
      PartsAddUp(rest, detectors);
      AddedToOne(n, k, c);
      forall i | 0 <= i < n
        ensures parts[i] == Plus(At(n, k, c)[i], PartsOf(rest, detectors)[i])
      {
        SingleCounts(r, detectors[i]);
      }
      TotalOfSums(At(n, k, c), PartsOf(rest, detectors), parts);
      SingleCounts(r, d);
    }
  }

  function PerDetector(results: seq<CaseResult>, detectors: seq<string>): (r: seq<Counts>)
    ensures |r| == |detectors|
  {
    seq(|detectors|, i requires 0 <= i < |detectors| => Aggregate(OfDetector(results, detectors[i])))
  }

  lemma NotMentioned(r: CaseResult, detectorId: string)
    requires !Mentions(r, detectorId)
    ensures CountsOf(DetectorResult(r, detectorId)) == NONE
  {
    NoMatchesOf(r.matches, detectorId);
    NoNamesOf(r.falseNegatives, detectorId);
    NoNamesOf(r.falsePositives, detectorId);
  }

  lemma {:induction false} NoMatchesOf(matches: seq<Match>, detectorId: string)
    requires forall m <- matches :: m.detectorId != detectorId
    ensures MatchesOf(matches, detectorId) == []
  {
    if matches != [] {
      assert matches[0] in matches;
      NoMatchesOf(matches[1..], detectorId);
    }
  }

  lemma {:induction false} NoNamesOf(names: seq<string>, detectorId: string)
    requires detectorId !in names
    ensures NamesOf(names, detectorId) == []
  {
    if names != [] {
      NoNamesOf(names[1..], detectorId);
    }
  }

  lemma AggregateOfDetector(r: CaseResult, rest: seq<CaseResult>, detectorId: string)
    ensures Aggregate(OfDetector([r] + rest, detectorId))
         == Plus(CountsOf(DetectorResult(r, detectorId)), Aggregate(OfDetector(rest, detectorId)))
  {
    hide CountsOf, Plus, Mentions, DetectorResult;
    var cut := DetectorResult(r, detectorId);
    assert ([r] + rest)[1..] == rest;
    if Mentions(r, detectorId) {
      assert ([cut] + OfDetector(rest, detectorId))[1..] == OfDetector(rest, detectorId);
    } else {
      NotMentioned(r, detectorId);
      PlusNothing(Aggregate(OfDetector(rest, detectorId)));
      assert [] + OfDetector(rest, detectorId) == OfDetector(rest, detectorId);
    }
  }

  // The counts of the detectors, too, add up to the overall counts.
  lemma {:induction false} DetectorsAddUp(results: seq<CaseResult>, detectors: seq<string>)
    requires DistinctNames(detectors) && forall r <- results :: Covers(detectors, r)
    ensures Total(PerDetector(results, detectors)) == Aggregate(results)
  {
    hide CountsOf, Total, Plus, DetectorResult, Covers, OfDetector;
    if results == [] {
      NoDetectors(detectors);
      TotalOfNothing(PerDetector(results, detectors));
    } else {
      var r, rest := results[0], results[1..];
      assert r in results && results == [r] + rest;
      DetectorsAddUp(rest, detectors);
      PartsAddUp(r, detectors);
      forall i | 0 <= i < |detectors|
        ensures PerDetector(results, detectors)[i] == Plus(PartsOf(r, detectors)[i], PerDetector(rest, detectors)[i])
      {
        AggregateOfDetector(r, rest, detectors[i]);
      }
      TotalOfSums(PartsOf(r, detectors), PerDetector(rest, detectors), PerDetector(results, detectors));
    }
  }

  lemma NoDetectors(detectors: seq<string>)
    ensures forall i :: 0 <= i < |detectors| ==> PerDetector([], detectors)[i] == NONE
  {}

  // ---- The counts of what was compared ----

  datatype Oracle = Oracle(domain: string, expectedFindings: seq<Key>, allowedAdditionalFindings: seq<string>)

  function Detectors(keys: seq<Key>): (r: seq<string>)
    ensures |r| == |keys|
  {
    seq(|keys|, i requires 0 <= i < |keys| => keys[i].detectorId)
  }

  function MatchDetectors(matches: seq<Match>): (r: seq<string>)
    ensures |r| == |matches|
  {
    seq(|matches|, i requires 0 <= i < |matches| => matches[i].detectorId)
  }

  // The case result that is made of the comparison c. Which matches are clean is left open.
  ghost predicate MadeOf(r: CaseResult, oracle: Oracle, projected: seq<Finding>, c: Comparison) {
    && IsComparison(projected, oracle.expectedFindings, oracle.allowedAdditionalFindings, c)
    && InRange(c.falsePositives, |projected|)
    && r.domain == oracle.domain
    && MatchDetectors(r.matches) == Detectors(MatchedKeys(oracle.expectedFindings, c.matches))
    && r.falseNegatives == Detectors(ExpectedAt(oracle.expectedFindings, c.falseNegatives))
    && r.falsePositives == Detectors(KeysAt(projected, c.falsePositives))
  }

  ghost predicate IsResultOf(r: CaseResult, oracle: Oracle, projected: seq<Finding>) {
    exists c :: MadeOf(r, oracle, projected, c)
  }

  // compareBenchmarkResult, where clean says for which pairs details finds no issue.
  method CompareCase(projected: seq<Finding>, oracle: Oracle, clean: Pair -> bool) returns (r: CaseResult)
    ensures IsResultOf(r, oracle, projected)
  {
    hide IsComparison;
    var expected := oracle.expectedFindings;
    var c := Compare(projected, expected, oracle.allowedAdditionalFindings);
    ComparisonInRange(projected, expected, oracle.allowedAdditionalFindings, c);
    var matches := seq(|c.matches|, i requires 0 <= i < |c.matches| =>
      Match(expected[c.matches[i].expected].detectorId, clean(c.matches[i])));
    r := CaseResult(oracle.domain, matches, Detectors(ExpectedAt(expected, c.falseNegatives)),
                    Detectors(KeysAt(projected, c.falsePositives)));
    assert MatchDetectors(r.matches) == Detectors(MatchedKeys(expected, c.matches));
    assert MadeOf(r, oracle, projected, c);
  }

  lemma ComparisonInRange(projected: seq<Finding>, expected: seq<Key>, allowed: seq<string>, c: Comparison)
    requires IsComparison(projected, expected, allowed, c)
    ensures InRange(c.falsePositives, |projected|)
    ensures forall k :: 0 <= k < |c.matches| ==> c.matches[k].expected < |expected|
    ensures forall e <- c.falseNegatives :: e < |expected|
  {
    assert forall k :: 0 <= k < |c.falsePositives| ==> c.falsePositives[k] in c.falsePositives;
  }

  function OfId(detectorId: string): Key -> bool {
    (key: Key) => key.detectorId == detectorId
  }

  lemma {:induction false} NamesCount(keys: seq<Key>, detectorId: string)
    ensures |NamesOf(Detectors(keys), detectorId)| == CountIf(keys, OfId(detectorId))
  {
    if keys != [] {
      NamesCount(keys[1..], detectorId);
      assert Detectors(keys)[1..] == Detectors(keys[1..]);
    }
  }

  lemma {:induction false} MatchesCount(matches: seq<Match>, keys: seq<Key>, detectorId: string)
    requires MatchDetectors(matches) == Detectors(keys)
    ensures |MatchesOf(matches, detectorId)| == CountIf(keys, OfId(detectorId))
  {
    assert |matches| == |MatchDetectors(matches)| == |Detectors(keys)| == |keys|;
    if keys != [] {
      assert MatchDetectors(matches)[0] == Detectors(keys)[0];
      assert MatchDetectors(matches[1..]) == MatchDetectors(matches)[1..] == Detectors(keys)[1..]
        == Detectors(keys[1..]);
      MatchesCount(matches[1..], keys[1..], detectorId);
    }
  }

  // In each case every expected finding of the oracle counts exactly once, also detector by detector.
  lemma CaseCounts(r: CaseResult, oracle: Oracle, projected: seq<Finding>, detectorId: string)
    requires IsResultOf(r, oracle, projected)
    ensures var c := CountsOf(r); c.truePositives + c.falseNegatives == |oracle.expectedFindings|
    ensures var c := CountsOf(DetectorResult(r, detectorId));
      c.truePositives + c.falseNegatives == CountIf(oracle.expectedFindings, OfId(detectorId))
  {
    hide CountIf, OfId, MatchesOf, NamesOf;
    var c :| MadeOf(r, oracle, projected, c);
    var expected := oracle.expectedFindings;
    var matched, missed := MatchedKeys(expected, c.matches), ExpectedAt(expected, c.falseNegatives);
    IsCompared(projected, expected, oracle.allowedAdditionalFindings, c);
    assert |r.matches| == |MatchDetectors(r.matches)| == |c.matches|;
    MatchesSplit(r.matches);
    MatchesSplit(MatchesOf(r.matches, detectorId));
    MatchesCount(r.matches, matched, detectorId);
    NamesCount(missed, detectorId);
    CountIfOfSum(matched, missed, expected, OfId(detectorId));
  }

  ghost predicate AreResultsOf(results: seq<CaseResult>, oracles: seq<Oracle>, findings: seq<seq<Finding>>) {
    |results| == |oracles| == |findings| &&
    forall i :: 0 <= i < |results| ==> IsResultOf(results[i], oracles[i], findings[i])
  }

  function ExpectedFindings(oracles: seq<Oracle>): nat {
    if oracles == [] then 0 else |oracles[0].expectedFindings| + ExpectedFindings(oracles[1..])
  }

  function ExpectedOf(oracles: seq<Oracle>, detectorId: string): nat {
    if oracles == [] then 0
    else CountIf(oracles[0].expectedFindings, OfId(detectorId)) + ExpectedOf(oracles[1..], detectorId)
  }

  function OraclesOf(oracles: seq<Oracle>, domain: string): seq<Oracle> {
    if oracles == [] then []
    else (if oracles[0].domain == domain then [oracles[0]] else []) + OraclesOf(oracles[1..], domain)
  }

  // True positives and false negatives together are the expected findings of the oracles.
  lemma {:induction false} EveryExpectedFindingCounts(results: seq<CaseResult>, oracles: seq<Oracle>,
                                                      findings: seq<seq<Finding>>)
    requires AreResultsOf(results, oracles, findings)
    ensures var c := Aggregate(results); c.truePositives + c.falseNegatives == ExpectedFindings(oracles)
  {
    hide IsResultOf, CountsOf, DetectorResult;
    if results != [] {
      CaseCounts(results[0], oracles[0], findings[0], "");
      EveryExpectedFindingCounts(results[1..], oracles[1..], findings[1..]);
    }
  }

  lemma {:induction false} EveryExpectedFindingCountsInDomain(results: seq<CaseResult>, oracles: seq<Oracle>,
                                                              findings: seq<seq<Finding>>, domain: string)
    requires AreResultsOf(results, oracles, findings)
    ensures var c := Aggregate(OfDomain(results, domain));
      c.truePositives + c.falseNegatives == ExpectedFindings(OraclesOf(oracles, domain))
  {
    hide IsResultOf, CountsOf, DetectorResult, OfDomain, OraclesOf, ExpectedFindings, Aggregate;
    if results == [] {
      NothingInDomain(domain);
    } else {
      CaseCounts(results[0], oracles[0], findings[0], "");
      SameDomain(results[0], oracles[0], findings[0]);
      EveryExpectedFindingCountsInDomain(results[1..], oracles[1..], findings[1..], domain);
      AggregateOfDomain(results[0], results[1..], domain);
      assert results == [results[0]] + results[1..];
      ExpectedInDomain(oracles, domain);
    }
  }

  lemma NothingInDomain(domain: string)
    ensures Aggregate(OfDomain([], domain)) == NONE && ExpectedFindings(OraclesOf([], domain)) == 0
  {}

  lemma ExpectedInDomain(oracles: seq<Oracle>, domain: string)
    requires oracles != []
    ensures ExpectedFindings(OraclesOf(oracles, domain))
         == (if oracles[0].domain == domain then |oracles[0].expectedFindings| else 0)
           + ExpectedFindings(OraclesOf(oracles[1..], domain))
  {
    var rest := OraclesOf(oracles[1..], domain);
    assert ([oracles[0]] + rest)[1..] == rest && [] + rest == rest;
  }

  lemma SameDomain(r: CaseResult, oracle: Oracle, projected: seq<Finding>)
    requires IsResultOf(r, oracle, projected)
    ensures r.domain == oracle.domain
  {}

  lemma {:induction false} EveryExpectedFindingCountsPerDetector(results: seq<CaseResult>, oracles: seq<Oracle>,
                                                                 findings: seq<seq<Finding>>, detectorId: string)
    requires AreResultsOf(results, oracles, findings)
    ensures var c := Aggregate(OfDetector(results, detectorId));
      c.truePositives + c.falseNegatives == ExpectedOf(oracles, detectorId)
  {
    hide IsResultOf, CountsOf, DetectorResult, Mentions;
    if results != [] {
      CaseCounts(results[0], oracles[0], findings[0], detectorId);
      EveryExpectedFindingCountsPerDetector(results[1..], oracles[1..], findings[1..], detectorId);
      AggregateOfDetector(results[0], results[1..], detectorId);
      assert results == [results[0]] + results[1..];
    }
  }

  // Summed over the domains, too, they are the expected findings of the oracles.
  lemma DomainsCountExpected(results: seq<CaseResult>, oracles: seq<Oracle>, findings: seq<seq<Finding>>,
                             domains: seq<string>)
    requires AreResultsOf(results, oracles, findings)
    requires DistinctNames(domains) && forall r <- results :: r.domain in domains
    ensures var c := Total(PerDomain(results, domains)); c.truePositives + c.falseNegatives == ExpectedFindings(oracles)
    ensures forall i :: 0 <= i < |domains| ==>
      var c := PerDomain(results, domains)[i];
      c.truePositives + c.falseNegatives == ExpectedFindings(OraclesOf(oracles, domains[i]))
  {
    DomainsAddUp(results, domains);
    EveryExpectedFindingCounts(results, oracles, findings);
    forall i | 0 <= i < |domains|
      ensures var c := PerDomain(results, domains)[i];
        c.truePositives + c.falseNegatives == ExpectedFindings(OraclesOf(oracles, domains[i]))
    {
      EveryExpectedFindingCountsInDomain(results, oracles, findings, domains[i]);
    }
  }
}
