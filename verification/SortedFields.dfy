// Association lists ordered by key, as Object.keys(value).sort() orders them: by UTF-16 code units.

module SortedFields {

  type Unit = n: int | 0 <= n < 0x10000
  type Str = seq<Unit>

  datatype Field<T> = Field(key: Str, value: T)

  predicate Less(s: Str, t: Str) {
    t != [] && (s == [] || s[0] < t[0] || (s[0] == t[0] && Less(s[1..], t[1..])))
  }

  lemma {:induction false} LessIsIrreflexive(s: Str)
    ensures !Less(s, s)
  {
    if s != [] {
      LessIsIrreflexive(s[1..]);
    }
  }

  lemma {:induction false} LessIsTotal(s: Str, t: Str)
    ensures Less(s, t) || Less(t, s) || s == t
  {
    if s != [] && t != [] && s[0] == t[0] {
      LessIsTotal(s[1..], t[1..]);
      assert s == [s[0]] + s[1..] && t == [t[0]] + t[1..];
    }
  }

  lemma {:induction false} LessIsTransitive(s: Str, t: Str, u: Str)
    requires Less(s, t) && Less(t, u)
    ensures Less(s, u)
  {
    if s != [] && s[0] == t[0] == u[0] {
      LessIsTransitive(s[1..], t[1..], u[1..]);
    }
  }

  predicate HasKey<T>(f: seq<Field<T>>, key: Str) {
    exists i | 0 <= i < |f| :: f[i].key == key
  }

  predicate DistinctKeys<T>(f: seq<Field<T>>) {
    f == [] || (!HasKey(f[1..], f[0].key) && DistinctKeys(f[1..]))
  }

  predicate Sorted<T>(f: seq<Field<T>>) {
    f == [] || ((forall i | 1 <= i < |f| :: Less(f[0].key, f[i].key)) && Sorted(f[1..]))
  }

  function Insert<T>(x: Field<T>, f: seq<Field<T>>): seq<Field<T>> {
    if f == [] || Less(x.key, f[0].key) then [x] + f else [f[0]] + Insert(x, f[1..])
  }

  function Sort<T>(f: seq<Field<T>>): seq<Field<T>> {
    if f == [] then [] else Insert(f[0], Sort(f[1..]))
  }

  // What the list says about each key.
  function ToMap<T>(f: seq<Field<T>>): (m: map<Str, T>)
    ensures forall key :: key in m <==> HasKey(f, key)
  {
    if f == [] then map[]
    else
      var rest := ToMap(f[1..]);
      assert forall key :: HasKey(f, key) <==> key == f[0].key || HasKey(f[1..], key) by {
        forall key ensures HasKey(f, key) <==> key == f[0].key || HasKey(f[1..], key) { KeysOfCons(f, key); }
      }
      rest[f[0].key := f[0].value]
  }

  lemma KeysOfCons<T>(f: seq<Field<T>>, key: Str)
    requires f != []
    ensures HasKey(f, key) <==> key == f[0].key || HasKey(f[1..], key)
  {
    if HasKey(f[1..], key) {
      var i :| 0 <= i < |f[1..]| && f[1..][i].key == key;
      assert f[i + 1].key == key;
    }
    if HasKey(f, key) && key != f[0].key {
      var i :| 0 <= i < |f| && f[i].key == key;
      assert f[1..][i - 1].key == key;
    }
  }

  lemma {:induction false} InsertKeepsMap<T>(x: Field<T>, f: seq<Field<T>>)
    requires !HasKey(f, x.key)
    ensures ToMap(Insert(x, f)) == ToMap(f)[x.key := x.value]
  {
    if f == [] || Less(x.key, f[0].key) {
      assert ([x] + f)[1..] == f;
    } else {
      KeysOfCons(f, x.key);
      InsertKeepsMap(x, f[1..]);
      assert ([f[0]] + Insert(x, f[1..]))[1..] == Insert(x, f[1..]);
    }
  }

  lemma {:induction false} InsertKeepsSorted<T>(x: Field<T>, f: seq<Field<T>>)
    requires Sorted(f) && !HasKey(f, x.key)
    ensures Sorted(Insert(x, f))
    ensures forall key :: HasKey(Insert(x, f), key) <==> key == x.key || HasKey(f, key)
  {
    InsertKeepsMap(x, f);
    assert forall key :: key in ToMap(Insert(x, f)) <==> HasKey(Insert(x, f), key);
    if f == [] {
    } else if Less(x.key, f[0].key) {
      forall i | 1 <= i < |[x] + f| ensures Less(x.key, ([x] + f)[i].key) {
        if i > 1 {
          LessIsTransitive(x.key, f[0].key, f[i - 1].key);
        }
      }
      assert ([x] + f)[1..] == f;
    } else {
      KeysOfCons(f, x.key);
      LessIsTotal(x.key, f[0].key);
      var rest := Insert(x, f[1..]);
      InsertKeepsSorted(x, f[1..]);
      assert ([f[0]] + rest)[1..] == rest;
      forall i | 1 <= i < |[f[0]] + rest| ensures Less(f[0].key, ([f[0]] + rest)[i].key) {
        var key := rest[i - 1].key;
        assert HasKey(rest, key);
      }
    }
  }

  // Sorting keeps what the list says and orders it.
  lemma {:induction false} SortIsSorted<T>(f: seq<Field<T>>)
    requires DistinctKeys(f)
    ensures Sorted(Sort(f)) && ToMap(Sort(f)) == ToMap(f)
  {
    if f != [] {
      SortIsSorted(f[1..]);
      var rest := Sort(f[1..]);
      assert forall key :: HasKey(rest, key) <==> key in ToMap(rest);
      InsertKeepsMap(f[0], rest);
      InsertKeepsSorted(f[0], rest);
    }
  }

  lemma {:induction false} SortKeepsElement<T>(f: seq<Field<T>>, x: Field<T>)
    ensures x in Sort(f) <==> x in f
  {
    if f != [] {
      SortKeepsElement(f[1..], x);
      InsertKeepsElement(f[0], Sort(f[1..]), x);
      assert f == [f[0]] + f[1..];
    }
  }

  lemma {:induction false} InsertKeepsElement<T>(x: Field<T>, f: seq<Field<T>>, y: Field<T>)
    ensures y in Insert(x, f) <==> y == x || y in f
  {
    if f != [] {
      InsertKeepsElement(x, f[1..], y);
      assert f == [f[0]] + f[1..];
    }
  }

  // The first key does not come again.
  lemma SmallestIsFirst<T>(f: seq<Field<T>>)
    requires Sorted(f) && f != []
    ensures !HasKey(f[1..], f[0].key)
  {
    if HasKey(f[1..], f[0].key) {
      var i :| 0 <= i < |f[1..]| && f[1..][i].key == f[0].key;
      assert Less(f[0].key, f[i + 1].key);
      LessIsIrreflexive(f[0].key);
    }
  }

  lemma SmallestKeys<T>(f: seq<Field<T>>, g: seq<Field<T>>)
    requires Sorted(f) && Sorted(g) && ToMap(f) == ToMap(g) && f != [] && g != []
    ensures f[0].key == g[0].key
  {
    assert HasKey(f, f[0].key) && HasKey(g, g[0].key);
    assert f[0].key in ToMap(g) && g[0].key in ToMap(f);
    var i :| 0 <= i < |g| && g[i].key == f[0].key;
    var j :| 0 <= j < |f| && f[j].key == g[0].key;
    if i > 0 && j > 0 {
      LessIsTransitive(f[0].key, g[0].key, f[0].key);
      LessIsIrreflexive(f[0].key);
    }
  }

  // Without its first entry a sorted list says the same about all other keys.
  lemma TailOfMap<T>(f: seq<Field<T>>)
    requires Sorted(f) && f != []
    ensures ToMap(f[1..]) == ToMap(f) - {f[0].key} && f[0].key in ToMap(f) && ToMap(f)[f[0].key] == f[0].value
  {
    hide HasKey, Less;
    SmallestIsFirst(f);
    RemoveAdded(ToMap(f[1..]), f[0].key, f[0].value);
  }

  lemma RemoveAdded<T>(m: map<Str, T>, key: Str, value: T)
    requires key !in m
    ensures m[key := value] - {key} == m
  {
  }

  lemma OnlyEmptyHasNoKeys<T>(f: seq<Field<T>>)
    ensures f == [] <==> ToMap(f) == map[]
  {
    if f != [] {
      assert HasKey(f, f[0].key);
    }
  }

  // A sorted list is determined by what it says.
  lemma {:induction false} SortedIsUnique<T>(f: seq<Field<T>>, g: seq<Field<T>>)
    requires Sorted(f) && Sorted(g) && ToMap(f) == ToMap(g)
    ensures f == g
  {
    if f == [] || g == [] {
      OnlyEmptyHasNoKeys(f);
      OnlyEmptyHasNoKeys(g);
    } else {
      hide ToMap, HasKey, Less;
      SmallestKeys(f, g);
      TailOfMap(f);
      TailOfMap(g);
      SortedIsUnique(f[1..], g[1..]);
      assert f == [f[0]] + f[1..] && g == [g[0]] + g[1..];
    }
  }
}
