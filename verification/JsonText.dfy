// The texts that the canonical JSON printer makes (apps/web/v4/canonical.js), character by character.

module JsonText {
  import opened Results
  import opened SortedFields
  import opened CanonicalJson

  function UnitOf(c: char): (u: Unit)
    ensures c < 128 as char ==> u == c as int
  {
    c as int % 0x10000
  }

  // The units of ASCII text.
  function Units(s: string): (r: Str)
    ensures |r| == |s| && forall i | 0 <= i < |s| :: r[i] == UnitOf(s[i])
  {
    seq(|s|, i requires 0 <= i < |s| => UnitOf(s[i]))
  }

  // The parts, with commas between them.
  function Listed(parts: seq<Str>): Str {
    if |parts| <= 1 then (if parts == [] then [] else parts[0])
    else Listed(parts[..|parts| - 1]) + Units(",") + parts[|parts| - 1]
  }

  // ---- Literals and strings ----

  lemma LiteralsArePrinted(text: Str)
    ensures Encode(Null) == Ok(Some(Units("null")))
    ensures Encode(Bool(true)) == Ok(Some(Units("true"))) && Encode(Bool(false)) == Ok(Some(Units("false")))
    ensures Encode(Number(text)) == Ok(Some(text))
  {
    assert Units("null") == NULL_TEXT && Units("true") == TRUE_TEXT && Units("false") == FALSE_TEXT;
  }

  // Between its quotes a string is printed unit by unit, except for surrogate pairs.
  lemma StringsArePrinted(s: Str)
    ensures Encode(Text(s)) == Ok(Some(Units("\"") + Escape(s) + Units("\"")))
  {
    hide Escape;
    assert Units("\"") == [QUOTE];
  }

  lemma EscapeUnfolds(s: Str)
    requires s != []
    ensures Escape(s)
         == if |s| >= 2 && IsHigh(s[0]) && IsLow(s[1]) then [s[0], s[1]] + Escape(s[2..])
            else EscapeUnit(s[0]) + Escape(s[1..])
  {
    hide EscapeUnit;
  }

  lemma PairStep(s: Str, t: Str)
    requires |s| >= 2 && IsHigh(s[0]) && IsLow(s[1]) && Escape(s[2..] + t) == Escape(s[2..]) + Escape(t)
    ensures Escape(s + t) == Escape(s) + Escape(t)
  {
    hide Escape, EscapeUnit;
    EscapeUnfolds(s);
    EscapeUnfolds(s + t);
    assert (s + t)[2..] == s[2..] + t;
    Appended([s[0], s[1]], Escape(s[2..]), Escape(t));
  }

  lemma UnitStep(s: Str, t: Str)
    requires s != [] && !(IsHigh(s[0]) && |s + t| >= 2 && IsLow((s + t)[1]))
    requires Escape(s[1..] + t) == Escape(s[1..]) + Escape(t)
    ensures Escape(s + t) == Escape(s) + Escape(t)
  {
    hide Escape, EscapeUnit;
    EscapeUnfolds(s);
    EscapeUnfolds(s + t);
    assert (s + t)[1..] == s[1..] + t;
    Appended(EscapeUnit(s[0]), Escape(s[1..]), Escape(t));
  }

  lemma {:induction false} EscapesAreJoined(s: Str, t: Str)
    requires s != [] && t != [] ==> !(IsHigh(s[|s| - 1]) && IsLow(t[0]))
    ensures Escape(s + t) == Escape(s) + Escape(t)
  {
    hide IsHigh, IsLow, EscapeUnit;
    if s == [] {
      assert s + t == t && Escape(s) == [];
    } else {
      hide Escape;
      if |s| >= 2 && IsHigh(s[0]) && IsLow(s[1]) {
        EscapesAreJoined(s[2..], t);
        PairStep(s, t);
      } else {
        EscapesAreJoined(s[1..], t);
        UnitStep(s, t);
      }
    }
  }

  lemma Appended(a: Str, b: Str, c: Str)
    ensures a + (b + c) == (a + b) + c
  {}

  predicate IsLowerHex(u: Unit) {
    0x30 <= u <= 0x39 || 0x61 <= u <= 0x66
  }

  // Seven units have short escapes.
  lemma ShortEscapesArePrinted()
    ensures Escape([8]) == Units("\\b") && Escape([9]) == Units("\\t") && Escape([10]) == Units("\\n")
    ensures Escape([12]) == Units("\\f") && Escape([13]) == Units("\\r")
    ensures Escape([0x22]) == Units("\\\"") && Escape([0x5C]) == Units("\\\\")
  {
    hide Units;
    forall u: Unit
      ensures Escape([u]) == EscapeUnit(u)
    {
      OneUnit(u);
    }
  }

  lemma OneUnit(u: Unit)
    ensures Escape([u]) == EscapeUnit(u)
  {
    assert [u][1..] == [];
  }

  // Other control characters and lone surrogates are written with four lower-case digits; all else stands for
  // itself, surrogate pairs included.
  lemma OtherUnitsArePrinted(u: Unit, v: Unit)
    requires u !in {8, 9, 10, 12, 13, 0x22, 0x5C}
    ensures 0x20 <= u && !(0xD800 <= u < 0xE000) ==> Escape([u]) == [u]
    ensures 0xD800 <= u < 0xDC00 <= v < 0xE000 ==> Escape([u, v]) == [u, v]
    ensures u < 0x20 || 0xD800 <= u < 0xE000 ==>
      var e := Escape([u]);
      && |e| == 6 && e[..2] == Units("\\u") && (forall i | 2 <= i < 6 :: IsLowerHex(e[i]))
      && FourDigits(e[2..]) == Some(u)
  {
    hide FourDigits;
    OneUnit(u);
    UnicodeEscapeIsRead(u);
    var e := UnicodeEscape(u);
    assert e[2..] == e[2..6] && e[..2] == Units("\\u");
    assert [u, v][2..] == [];
  }

  // ---- Arrays ----

  lemma {:induction false} ListedFromFront(parts: seq<Str>)
    requires |parts| >= 2
    ensures Listed(parts) == parts[0] + Units(",") + Listed(parts[1..])
  {
    hide Units;
    var init, tail, last := parts[..|parts| - 1], parts[1..], parts[|parts| - 1];
    if |parts| == 2 {
      assert init == [parts[0]] && tail == [parts[1]];
    } else {
      ListedFromFront(init);
      assert init[1..] == tail[..|tail| - 1];
      Regrouped(parts[0] + Units(","), Listed(init[1..]), Units(","), last);
    }
  }

  lemma Regrouped(a: Str, b: Str, c: Str, d: Str)
    ensures a + b + c + d == a + (b + c + d)
  {}

  lemma {:induction false} JoinIsListed(parts: seq<Str>)
    ensures Join(parts) == Listed(parts)
  {
    if |parts| >= 2 {
      ListedFromFront(parts);
      JoinIsListed(parts[1..]);
      assert Units(",") == [COMMA];
    }
  }

  // Items are printed in their order, and those that are printed as nothing leave their place empty.
  lemma ArraysArePrinted(items: seq<Json>, texts: seq<Str>)
    requires |texts| == |items|
    requires forall i | 0 <= i < |items| :: Encode(items[i]) in {Ok(Some(texts[i])), Ok(None)}
    requires forall i | 0 <= i < |items| :: Encode(items[i]) == Ok(None) ==> texts[i] == []
    ensures Encode(Array(items)) == Ok(Some(Units("[") + Listed(texts) + Units("]")))
  {
    hide Join, Listed;
    ItemsAreEncoded(items, texts);
    JoinIsListed(texts);
    assert Units("[") == [OPEN_ARRAY] && Units("]") == [CLOSE_ARRAY];
  }

  lemma {:induction false} ItemsAreEncoded(items: seq<Json>, texts: seq<Str>)
    requires |texts| == |items|
    requires forall i | 0 <= i < |items| :: Encode(items[i]) in {Ok(Some(texts[i])), Ok(None)}
    requires forall i | 0 <= i < |items| :: Encode(items[i]) == Ok(None) ==> texts[i] == []
    ensures EncodeItems(items) == Ok(texts)
  {
    hide Encode;
    if items != [] {
      ItemsAreEncoded(items[1..], texts[1..]);
      assert texts == [texts[0]] + texts[1..];
    }
  }

  // ---- Objects ----

  // s comes before t as Array.prototype.sort orders strings: by their first different unit, or as a prefix.
  ghost predicate Before(s: Str, t: Str) {
    exists n: nat :: n <= |s| && n <= |t| && s[..n] == t[..n]
      && ((n == |s| && n < |t|) || (n < |s| && n < |t| && s[n] < t[n]))
  }

  lemma {:induction false} LessIsBefore(s: Str, t: Str)
    requires Less(s, t)
    ensures Before(s, t)
  {
    if s == [] || s[0] < t[0] {
      assert s[..0] == t[..0];
    } else {
      LessIsBefore(s[1..], t[1..]);
      var n: nat :| n <= |s[1..]| && n <= |t[1..]| && s[1..][..n] == t[1..][..n]
        && ((n == |s[1..]| && n < |t[1..]|) || (n < |s[1..]| && n < |t[1..]| && s[1..][n] < t[1..][n]));
      assert s[..n + 1] == [s[0]] + s[1..][..n] && t[..n + 1] == [t[0]] + t[1..][..n];
    }
  }

  lemma {:induction false} SortedAt<T>(f: seq<Field<T>>, i: nat)
    requires Sorted(f) && 0 < i < |f|
    ensures Less(f[i - 1].key, f[i].key)
  {
    if i > 1 {
      SortedAt(f[1..], i - 1);
    }
  }

  lemma {:induction false} InsertPermutes<T>(x: Field<T>, f: seq<Field<T>>)
    ensures multiset(Insert(x, f)) == multiset([x] + f)
  {
    if f != [] {
      InsertPermutes(x, f[1..]);
      assert f == [f[0]] + f[1..];
    }
  }

  lemma {:induction false} SortPermutes<T>(f: seq<Field<T>>)
    ensures multiset(Sort(f)) == multiset(f) && |Sort(f)| == |f|
  {
    if f != [] {
      SortPermutes(f[1..]);
      InsertPermutes(f[0], Sort(f[1..]));
      assert f == [f[0]] + f[1..];
      assert |multiset(Sort(f))| == |multiset(f)|;
    }
  }

  // A member: the key as a string, a colon, and the text of the value, where undefined becomes a word.
  predicate IsMember(text: Str, f: Field<Json>) {
    var key, value := Encode(Text(f.key)), Encode(f.value);
    && key.Ok? && key.value.Some? && value.Ok?
    && text == key.value.value + Units(":") + OrElse(value.value, Units("undefined"))
  }

  lemma {:induction false} MembersAre(fields: seq<Field<Json>>, i: nat)
    requires EncodeFields(fields).Ok? && i < |fields|
    ensures var members := Members(EncodeFields(fields).value); |members| == |fields| && IsMember(members[i], fields[i])
  {
    hide Encode;
    if i > 0 {
      MembersAre(fields[1..], i - 1);
    } else {
      MemberIs(fields[0]);
    }
    MembersCount(fields);
  }

  lemma MemberIs(f: Field<Json>)
    requires Encode(f.value).Ok?
    ensures IsMember(Quoted(f.key) + [COLON] + OrElse(Encode(f.value).value, UNDEFINED_TEXT), f)
  {
    hide Quoted;
    assert Units(":") == [COLON] && Units("undefined") == UNDEFINED_TEXT;
  }

  lemma {:induction false} MembersCount(fields: seq<Field<Json>>)
    requires EncodeFields(fields).Ok?
    ensures |Members(EncodeFields(fields).value)| == |fields|
  {
    hide Encode, Quoted;
    if fields != [] {
      MembersCount(fields[1..]);
    }
  }

  // Members can be sorted before or after their values are printed.
  lemma {:induction false} InsertEncoded(x: Field<Json>, fields: seq<Field<Json>>)
    requires Encode(x.value).Ok? && EncodeFields(fields).Ok?
    ensures EncodeFields(Insert(x, fields))
         == Ok(Insert(Field(x.key, OrElse(Encode(x.value).value, UNDEFINED_TEXT)), EncodeFields(fields).value))
  {
    hide Encode;
    if fields == [] || Less(x.key, fields[0].key) {
      assert ([x] + fields)[1..] == fields;
    } else {
      InsertEncoded(x, fields[1..]);
      assert ([fields[0]] + Insert(x, fields[1..]))[1..] == Insert(x, fields[1..]);
    }
  }

  lemma {:induction false} SortEncoded(fields: seq<Field<Json>>)
    requires EncodeFields(fields).Ok?
    ensures EncodeFields(Sort(fields)) == Ok(Sort(EncodeFields(fields).value))
  {
    hide Encode;
    if fields != [] {
      SortEncoded(fields[1..]);
      InsertEncoded(fields[0], Sort(fields[1..]));
    }
  }

  // An object is printed with the members in ascending order of their keys, each of them once.
  lemma ObjectsArePrinted(fields: seq<Field<Json>>) returns (order: seq<Field<Json>>, texts: seq<Str>)
    requires WellFormed(Object(fields)) && Accepted(Object(fields))
    ensures multiset(order) == multiset(fields) && |texts| == |order|
    ensures forall i | 0 < i < |order| :: Before(order[i - 1].key, order[i].key)
    ensures forall i | 0 <= i < |order| :: IsMember(texts[i], order[i])
    ensures Encode(Object(fields)) == Ok(Some(Units("{") + Listed(texts) + Units("}")))
  {
    hide Sorted, Sort, Before, Less, IsMember, Members, Join, Listed;
    EncodesFields(fields);
    order := Sort(fields);
    SortEncoded(fields);
    texts := Members(EncodeFields(order).value);
    MembersCount(order);
    SortPermutes(fields);
    SortIsSorted(fields);
    forall i | 0 < i < |order| ensures Before(order[i - 1].key, order[i].key) {
      SortedAt(order, i);
      LessIsBefore(order[i - 1].key, order[i].key);
    }
    forall i | 0 <= i < |order| ensures IsMember(texts[i], order[i]) {
      MembersAre(order, i);
    }
    JoinIsListed(texts);
    assert Units("{") == [OPEN_OBJECT] && Units("}") == [CLOSE_OBJECT];
  }
}
