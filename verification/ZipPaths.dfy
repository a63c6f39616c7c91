// What apps/web/lib/unzip.js makes of the names in an archive.

module ZipPaths {
  import opened Results
  import opened Utf8
  import opened ZipFormat
  import opened Unzip

  lemma {:induction false} SplitOfPart(part: Unicode)
    requires SLASH !in part
    ensures Split(part) == [part]
  {
    if part != [] {
      SplitOfPart(part[1..]);
      assert [part[0]] + part[1..] == part;
    }
  }

  lemma {:induction false} SplitAfterPart(part: Unicode, rest: Unicode)
    requires SLASH !in part
    ensures Split(part + [SLASH] + rest) == [part] + Split(rest)
  {
    var t := part + [SLASH] + rest;
    if part == [] {
      assert t[1..] == rest;
    } else {
      SplitAfterPart(part[1..], rest);
      assert t[1..] == part[1..] + [SLASH] + rest;
      assert [part[0]] + part[1..] == part;
    }
  }

  lemma {:induction false} SplitOfJoin(parts: seq<Unicode>)
    requires parts != [] && forall p <- parts :: SLASH !in p
    ensures Split(Join(parts)) == parts
  {
    if |parts| == 1 {
      SplitOfPart(parts[0]);
    } else {
      SplitOfJoin(parts[1..]);
      SplitAfterPart(parts[0], Join(parts[1..]));
    }
  }

  lemma {:induction false} PartsHoldNoSlash(t: Unicode)
    ensures forall p <- Split(t) :: SLASH !in p
  {
    if t != [] {
      PartsHoldNoSlash(t[1..]);
      var rest := Split(t[1..]);
      assert rest[0] in rest;
    }
  }

  // A cleaned path never climbs: none of its parts is empty, "." or "..".
  lemma CleanPathNeverClimbs(t: Unicode)
    requires CleanPath(t).Some? && CleanPath(t).value != []
    ensures forall p <- Split(CleanPath(t).value) :: p != [] && p != [DOT] && p != [DOT, DOT]
  {
    hide Split, Join, Kept;
    var parts := Split(Slashes(t));
    PartsHoldNoSlash(Slashes(t));
    var kept := Kept(parts);
    assert kept != [] by {
      JoinOfNothing();
    }
    SplitOfJoin(kept);
  }

  lemma JoinOfNothing()
    ensures Join([]) == []
  {}

  // ---- Which names are considered, and as what ----

  // A part of a path, between slashes.
  predicate IsPart(p: Unicode) {
    SLASH !in p && BACKSLASH !in p
  }

  // A part that names a file or a directory that is looked into.
  predicate IsPlainPart(p: Unicode) {
    IsPart(p) && p != [] && p != [DOT] && p != [DOT, DOT] && LowerAscii(p) !in IGNORED
  }

  lemma {:induction false} PartsAreFound(parts: seq<Unicode>)
    requires parts != [] && forall p <- parts :: IsPart(p)
    ensures BACKSLASH !in Join(parts) && Slashes(Join(parts)) == Join(parts) && Split(Join(parts)) == parts
  {
    hide Split, Join;
    SplitOfJoin(parts);
    NoBackslash(parts);
    assert Slashes(Join(parts)) == Join(parts);
  }

  lemma {:induction false} NoBackslash(parts: seq<Unicode>)
    requires forall p <- parts :: IsPart(p)
    ensures BACKSLASH !in Join(parts)
  {
    if parts != [] {
      assert parts[0] in parts;
      NoBackslash(parts[1..]);
    }
  }

  lemma {:induction false} KeptOfJoin(a: seq<Unicode>, b: seq<Unicode>)
    ensures Kept(a + b) == Kept(a) + Kept(b)
  {
    hide Skipped;
    if a == [] {
      assert a + b == b;
    } else {
      KeptOfJoin(a[1..], b);
      assert (a + b)[1..] == a[1..] + b;
      Regroup(if Skipped(a[0]) then [] else [a[0]], Kept(a[1..]), Kept(b));
    }
  }

  lemma Regroup(p: seq<Unicode>, q: seq<Unicode>, r: seq<Unicode>)
    ensures p + (q + r) == (p + q) + r
  {}

  lemma {:induction false} AllKept(parts: seq<Unicode>)
    requires forall p <- parts :: !Skipped(p)
    ensures Kept(parts) == parts
  {
    if parts != [] {
      AllKept(parts[1..]);
    }
  }

  // Backslashes separate parts, too.
  lemma BackslashesAreSlashes(name: Unicode, slashed: Unicode)
    requires |slashed| == |name|
    requires forall i | 0 <= i < |name| :: slashed[i] == if name[i] == 0x5C then 0x2F else name[i]
    ensures Considered(name) == Considered(slashed)
  {
    assert Slashes(name) == slashed == Slashes(slashed);
  }

  // A plain path is considered as it is.
  lemma PlainPathIsKept(parts: seq<Unicode>)
    requires parts != [] && forall p <- parts :: IsPlainPart(p)
    ensures Considered(Join(parts)) == Some(Join(parts)) && Join(parts) != []
  {
    hide Split, Join, LowerAscii;
    PartsAreFound(parts);
    AllKept(parts);
    assert Join(parts) != [] by { JoinIsSomething(parts); }
  }

  lemma JoinIsSomething(parts: seq<Unicode>)
    requires parts != [] && parts[0] != []
    ensures Join(parts) != []
  {}

  // Empty parts and single dots do not count.
  lemma DotsAreDropped(a: seq<Unicode>, x: Unicode, b: seq<Unicode>)
    requires x == [] || x == [DOT]
    requires a + b != [] && forall p <- a + b :: IsPart(p)
    ensures Considered(Join(a + [x] + b)) == Considered(Join(a + b))
  {
    hide Split, Join, LowerAscii, Kept, Excluded, Slashes;
    var all := a + [x] + b;
    PartsAreFound(a + b);
    PartsAreFound(all);
    KeptWithout(a, x, b);
    assert [DOT, DOT] in all <==> [DOT, DOT] in a + b;
  }

  lemma KeptWithout(a: seq<Unicode>, x: Unicode, b: seq<Unicode>)
    requires Skipped(x)
    ensures Kept(a + [x] + b) == Kept(a + b)
  {
    hide Kept;
    KeptOfJoin(a, b);
    KeptOfJoin(a + [x], b);
    KeptOfJoin(a, [x]);
    AllSkipped(x);
  }

  lemma AllSkipped(x: Unicode)
    requires Skipped(x)
    ensures Kept([x]) == []
  {
    assert [x][1..] == [];
  }

  // A name that climbs is passed over, and so is all that lies in an ignored directory, in whatever case.
  lemma ClimbingAndIgnoredArePassed(parts: seq<Unicode>, part: Unicode)
    requires part in parts && (forall p <- parts :: IsPart(p))
    requires part == [DOT, DOT] || LowerAscii(part) in IGNORED
    ensures Considered(Join(parts)).None?
  {
    hide Split, Join;
    PartsAreFound(parts);
    if part != [DOT, DOT] && [DOT, DOT] !in parts {
      IgnoredIsNamed(part);
      var i :| 0 <= i < |parts| && parts[i] == part;
      assert parts == parts[..i] + [part] + parts[i + 1..];
      KeptOfJoin(parts[..i] + [part], parts[i + 1..]);
      KeptOfJoin(parts[..i], [part]);
      assert Kept([part]) == [part] by { AllKept([part]); }
      var kept := Kept(parts);
      assert part in kept;
      SplitOfJoin(kept);
      assert Excluded(Join(kept));
    }
  }

  lemma IgnoredIsNamed(part: Unicode)
    requires LowerAscii(part) in IGNORED
    ensures !Skipped(part)
  {
    assert forall name <- IGNORED :: |name| > 1 by { IgnoredLengths(); }
    assert |LowerAscii(part)| == |part|;
  }

  lemma IgnoredLengths()
    ensures forall name <- IGNORED :: |name| > 1
  {
    assert |Ascii("node_modules")| > 1 && |Ascii(".git")| > 1 && |Ascii("out")| > 1 && |Ascii("cache")| > 1;
    assert |Ascii("artifacts")| > 1 && |Ascii("dist")| > 1 && |Ascii("build")| > 1;
  }
}
