// The canonical JSON printer (apps/web/v4/canonical.js) that all report hashes rest on.
//
// Strings are sequences of UTF-16 code units. A finite number is the text that Number::toString gives
// it. An object is its own enumerable properties with string keys. Values that are not JSON are of three
// kinds: undefined, numbers that are not finite and big integers are refused; of functions and symbols
// JSON.stringify makes undefined, without an error; and an array may have holes, which map skips.

module CanonicalJson {
  import opened Results
  import opened SortedFields

  datatype Json =
    | Null
    | Bool(value: bool)
    | Number(text: Str)
    | Text(units: Str)
    | Array(items: seq<Json>)
    | Object(fields: seq<Field<Json>>)
    | Refused
    | Silent
    | Hole

  const QUOTE: Unit := 0x22
  const BACKSLASH: Unit := 0x5C
  const COMMA: Unit := 0x2C
  const COLON: Unit := 0x3A
  const OPEN_ARRAY: Unit := 0x5B
  const CLOSE_ARRAY: Unit := 0x5D
  const OPEN_OBJECT: Unit := 0x7B
  const CLOSE_OBJECT: Unit := 0x7D
  const NULL_TEXT: Str := [0x6E, 0x75, 0x6C, 0x6C]
  const TRUE_TEXT: Str := [0x74, 0x72, 0x75, 0x65]
  const FALSE_TEXT: Str := [0x66, 0x61, 0x6C, 0x73, 0x65]
  const UNDEFINED_TEXT: Str := [0x75, 0x6E, 0x64, 0x65, 0x66, 0x69, 0x6E, 0x65, 0x64]

  // ---- JSON.stringify of a string ----

  predicate IsHigh(u: Unit) {
    0xD800 <= u < 0xDC00
  }

  predicate IsLow(u: Unit) {
    0xDC00 <= u < 0xE000
  }

  function HexUnit(n: int): (u: Unit)
    requires 0 <= n < 16
  {
    if n < 10 then 0x30 + n else 0x61 + n - 10
  }

  // The escape of section 7 of RFC 8259 with four digits.
  function UnicodeEscape(u: Unit): Str {
    [BACKSLASH, 0x75, HexUnit(u / 0x1000), HexUnit(u / 0x100 % 16), HexUnit(u / 16 % 16), HexUnit(u % 16)]
  }

  // One unit that is not half of a surrogate pair.
  function EscapeUnit(u: Unit): (r: Str)
    ensures r != []
  {
    if u == 8 then [BACKSLASH, 0x62]
    else if u == 9 then [BACKSLASH, 0x74]
    else if u == 10 then [BACKSLASH, 0x6E]
    else if u == 12 then [BACKSLASH, 0x66]
    else if u == 13 then [BACKSLASH, 0x72]
    else if u == QUOTE || u == BACKSLASH then [BACKSLASH, u]
    else if u < 0x20 || IsHigh(u) || IsLow(u) then UnicodeEscape(u)
    else [u]
  }

  function Escape(s: Str): Str {
    if s == [] then []
    else if |s| >= 2 && IsHigh(s[0]) && IsLow(s[1]) then [s[0], s[1]] + Escape(s[2..])
    else EscapeUnit(s[0]) + Escape(s[1..])
  }

  function Quoted(s: Str): Str {
    [QUOTE] + Escape(s) + [QUOTE]
  }

  // ---- The printer ----

  function Join(parts: seq<Str>): Str {
    if parts == [] then []
    else if |parts| == 1 then parts[0]
    else parts[0] + [COMMA] + Join(parts[1..])
  }

  // encode: members are printed in the order of their sorted keys. The result None is undefined.
  function Encode(v: Json): Outcome<Option<Str>> {
    match v
    case Null => Ok(Some(NULL_TEXT))
    case Bool(b) => Ok(Some(if b then TRUE_TEXT else FALSE_TEXT))
    case Number(text) => Ok(Some(text))
    case Text(units) => Ok(Some(Quoted(units)))
    case Array(items) =>
      var parts := EncodeItems(items);
      if parts.Fail? then Fail else Ok(Some([OPEN_ARRAY] + Join(parts.value) + [CLOSE_ARRAY]))
    case Object(fields) =>
      var parts := EncodeFields(fields);
      if parts.Fail? then Fail else Ok(Some([OPEN_OBJECT] + Join(Members(Sort(parts.value))) + [CLOSE_OBJECT]))
    case Refused => Fail
    case Silent => Ok(None)
    case Hole => Ok(None)
  }

  // join leaves the places of undefined items and of holes empty.
  function EncodeItems(items: seq<Json>): (r: Outcome<seq<Str>>) {
    if items == [] then Ok([])
    else
      var first, rest := Encode(items[0]), EncodeItems(items[1..]);
      if first.Fail? || rest.Fail? then Fail else Ok([OrElse(first.value, [])] + rest.value)
  }

  // Each key with the text of its value; the template makes a text of undefined.
  function EncodeFields(fields: seq<Field<Json>>): (r: Outcome<seq<Field<Str>>>) {
    if fields == [] then Ok([])
    else
      var first, rest := Encode(fields[0].value), EncodeFields(fields[1..]);
      if first.Fail? || rest.Fail? then Fail
      else Ok([Field(fields[0].key, OrElse(first.value, UNDEFINED_TEXT))] + rest.value)
  }

  function OrElse(text: Option<Str>, other: Str): Str {
    if text.Some? then text.value else other
  }

  function Members(fields: seq<Field<Str>>): seq<Str> {
    if fields == [] then []
    else [Quoted(fields[0].key) + [COLON] + fields[0].value] + Members(fields[1..])
  }

  // ---- What a value means: objects are maps ----
  //
  // On JSON values this is equality up to the order of members. Items that are functions, symbols or holes
  // are one and the same gap, and an array with a gap as its only item is taken for an empty one.

  datatype Meaning =
    | MNull
    | MBool(value: bool)
    | MNumber(text: Str)
    | MText(units: Str)
    | MArray(items: seq<Meaning>)
    | MObject(members: map<Str, Meaning>)
    | MRefused
    | MSilent
    | MGap

  function MeaningOf(v: Json): Meaning {
    match v
    case Null => MNull
    case Bool(b) => MBool(b)
    case Number(text) => MNumber(text)
    case Text(units) => MText(units)
    case Array(items) => MArray(if LoneGap(items) then [] else MeaningOfItems(items))
    case Object(fields) => MObject(MeaningOfFields(fields))
    case Refused => MRefused
    case Silent => MSilent
    case Hole => MGap
  }

  function MeaningOfItems(items: seq<Json>): seq<Meaning> {
    if items == [] then []
    else [if IsGap(items[0]) then MGap else MeaningOf(items[0])] + MeaningOfItems(items[1..])
  }

  predicate IsGap(v: Json) {
    v.Silent? || v.Hole?
  }

  predicate LoneGap(items: seq<Json>) {
    |items| == 1 && IsGap(items[0])
  }

  function MeaningOfFields(fields: seq<Field<Json>>): map<Str, Meaning> {
    if fields == [] then map[]
    else MeaningOfFields(fields[1..])[fields[0].key := MeaningOf(fields[0].value)]
  }

  // ---- Which values are JSON ----

  predicate NumberUnit(u: Unit) {
    0x30 <= u <= 0x39 || u == 0x2B || u == 0x2D || u == 0x2E || u == 0x65
  }

  // Digits, sign, point and exponent, and a digit or a sign first.
  predicate NumberText(s: Str) {
    s != [] && (0x30 <= s[0] <= 0x39 || s[0] == 0x2D) && forall i | 0 <= i < |s| :: NumberUnit(s[i])
  }

  // An object has each key once, and only arrays have holes.
  predicate WellFormed(v: Json) {
    match v
    case Number(text) => NumberText(text)
    case Array(items) => forall i | 0 <= i < |items| :: items[i].Hole? || WellFormed(items[i])
    case Object(fields) => DistinctKeys(fields) && forall i | 0 <= i < |fields| :: WellFormed(fields[i].value)
    case Hole => false
    case _ => true
  }

  // Nothing in the value is refused.
  predicate Accepted(v: Json) {
    match v
    case Refused => false
    case Array(items) => forall i | 0 <= i < |items| :: Accepted(items[i])
    case Object(fields) => forall i | 0 <= i < |fields| :: Accepted(fields[i].value)
    case _ => true
  }

  predicate IsJson(v: Json) {
    match v
    case Refused => false
    case Silent => false
    case Hole => false
    case Array(items) => forall i | 0 <= i < |items| :: IsJson(items[i])
    case Object(fields) => forall i | 0 <= i < |fields| :: IsJson(fields[i].value)
    case _ => true
  }

  // ---- Strings can be read back ----

  function HexDigitOf(u: Unit): Option<int> {
    if 0x30 <= u <= 0x39 then Some(u - 0x30) else if 0x61 <= u <= 0x66 then Some(u - 0x61 + 10) else None
  }

  function ShortEscape(u: Unit): Option<Unit> {
    if u == 0x62 then Some(8) else if u == 0x74 then Some(9) else if u == 0x6E then Some(10)
    else if u == 0x66 then Some(12) else if u == 0x72 then Some(13)
    else if u == QUOTE || u == BACKSLASH then Some(u) else None
  }

  function FourDigits(s: Str): Option<Unit>
    requires |s| == 4
  {
    var a, b, c, d := HexDigitOf(s[0]), HexDigitOf(s[1]), HexDigitOf(s[2]), HexDigitOf(s[3]);
    if a.Some? && b.Some? && c.Some? && d.Some? then
      Some(a.value * 0x1000 + b.value * 0x100 + c.value * 16 + d.value)
    else None
  }

  // The contents of a string literal after its opening quote, and what follows the closing one.
  function ReadString(t: Str): Option<(Str, Str)> {
    if t == [] then None
    else if t[0] == QUOTE then Some(([], t[1..]))
    else if t[0] != BACKSLASH then Push(t[0], ReadString(t[1..]))
    else if |t| >= 6 && t[1] == 0x75 && FourDigits(t[2..6]).Some?
      then Push(FourDigits(t[2..6]).value, ReadString(t[6..]))
    else if |t| >= 2 && ShortEscape(t[1]).Some? then Push(ShortEscape(t[1]).value, ReadString(t[2..]))
    else None
  }

  function Push(u: Unit, r: Option<(Str, Str)>): Option<(Str, Str)> {
    if r.None? then None else Some(([u] + r.value.0, r.value.1))
  }

  lemma HexDigitIsRead(n: int)
    requires 0 <= n < 16
    ensures HexDigitOf(HexUnit(n)) == Some(n)
  {}

  lemma DigitsAddUp(u: Unit)
    ensures u / 0x1000 * 0x1000 + u / 0x100 % 16 * 0x100 + u / 16 % 16 * 16 + u % 16 == u
  {
    assert u / 0x100 == u / 16 / 16 && u / 0x1000 == u / 16 / 16 / 16;
  }

  lemma UnicodeEscapeIsRead(u: Unit)
    ensures FourDigits(UnicodeEscape(u)[2..6]) == Some(u)
  {
    hide HexDigitOf, HexUnit;
    HexDigitIsRead(u / 0x1000);
    HexDigitIsRead(u / 0x100 % 16);
    HexDigitIsRead(u / 16 % 16);
    HexDigitIsRead(u % 16);
    DigitsAddUp(u);
  }

  lemma UnitIsRead(u: Unit, rest: Str)
    ensures ReadString(EscapeUnit(u) + rest) == Push(u, ReadString(rest))
  {
    var escape := EscapeUnit(u);
    if |escape| == 6 {
      LongEscapeIsRead(u, rest);
    } else if |escape| == 2 {
      ShortEscapeIsRead(escape, u, rest);
    } else {
      LiteralIsRead(u, rest);
    }
  }

  lemma LongEscapeIsRead(u: Unit, rest: Str)
    ensures ReadString(UnicodeEscape(u) + rest) == Push(u, ReadString(rest))
  {
    hide FourDigits, HexUnit;
    var t := UnicodeEscape(u) + rest;
    UnicodeEscapeIsRead(u);
    assert t[2..6] == UnicodeEscape(u)[2..6] && t[6..] == rest;
  }

  lemma ShortEscapeIsRead(escape: Str, u: Unit, rest: Str)
    requires |escape| == 2 && escape[0] == BACKSLASH && escape[1] != 0x75 && ShortEscape(escape[1]) == Some(u)
    ensures ReadString(escape + rest) == Push(u, ReadString(rest))
  {
    hide FourDigits, ShortEscape;
    var t := escape + rest;
    assert t[2..] == rest;
  }

  lemma LiteralIsRead(u: Unit, rest: Str)
    requires u != QUOTE && u != BACKSLASH
    ensures ReadString([u] + rest) == Push(u, ReadString(rest))
  {
    assert ([u] + rest)[1..] == rest;
  }

  function PushAll(s: Str, r: Option<(Str, Str)>): Option<(Str, Str)> {
    if r.None? then None else Some((s + r.value.0, r.value.1))
  }

  lemma PushIsPushAll(u: Unit, s: Str, r: Option<(Str, Str)>)
    ensures Push(u, PushAll(s, r)) == PushAll([u] + s, r)
  {
    if r.Some? {
      assert [u] + (s + r.value.0) == ([u] + s) + r.value.0;
    }
  }

  lemma {:induction false} EscapeIsRead(s: Str, tail: Str)
    ensures ReadString(Escape(s) + tail) == PushAll(s, ReadString(tail))
  {
    hide ReadString, EscapeUnit, PushAll, Push;
    if s == [] {
      assert Escape(s) + tail == tail;
      EmptyPush(ReadString(tail));
    } else if |s| >= 2 && IsHigh(s[0]) && IsLow(s[1]) {
      EscapeIsRead(s[2..], tail);
      var rest := Escape(s[2..]) + tail;
      LiteralIsRead(s[1], rest);
      LiteralIsRead(s[0], [s[1]] + rest);
      assert Escape(s) + tail == [s[0]] + ([s[1]] + rest);
      PushIsPushAll(s[1], s[2..], ReadString(tail));
      PushIsPushAll(s[0], [s[1]] + s[2..], ReadString(tail));
      assert s == [s[0]] + ([s[1]] + s[2..]);
    } else {
      EscapeIsRead(s[1..], tail);
      UnitIsRead(s[0], Escape(s[1..]) + tail);
      assert Escape(s) + tail == EscapeUnit(s[0]) + (Escape(s[1..]) + tail);
      PushIsPushAll(s[0], s[1..], ReadString(tail));
      assert s == [s[0]] + s[1..];
    }
  }

  lemma EmptyPush(r: Option<(Str, Str)>)
    ensures PushAll([], r) == r
  {
    if r.Some? {
      assert [] + r.value.0 == r.value.0;
    }
  }

  // A string literal is read back, and nothing after its closing quote is touched.
  lemma StringIsRead(s: Str, rest: Str)
    ensures ReadString(Escape(s) + ([QUOTE] + rest)) == Some((s, rest))
  {
    EscapeIsRead(s, [QUOTE] + rest);
    assert ([QUOTE] + rest)[1..] == rest;
    assert s + [] == s;
  }

  // Literals of different strings differ, whatever follows them.
  lemma QuotedIsPrefixFree(s: Str, r: Str, t: Str, q: Str)
    requires Quoted(s) + r == Quoted(t) + q
    ensures s == t && r == q
  {
    assert (Quoted(s) + r)[1..] == Escape(s) + ([QUOTE] + r);
    assert (Quoted(t) + q)[1..] == Escape(t) + ([QUOTE] + q);
    StringIsRead(s, r);
    StringIsRead(t, q);
  }

  // ---- The printer on values whose keys are in order ----

  function Print(v: Json): Str {
    match v
    case Null => NULL_TEXT
    case Bool(b) => if b then TRUE_TEXT else FALSE_TEXT
    case Number(text) => text
    case Text(units) => Quoted(units)
    case Array(items) => [OPEN_ARRAY] + PrintItems(items, [CLOSE_ARRAY])
    case Object(fields) => [OPEN_OBJECT] + PrintFields(fields, [CLOSE_OBJECT])
    case Silent => UNDEFINED_TEXT
    case Hole => []
    case Refused => []
  }

  // The items with commas between them, and the end.
  function PrintItems(items: seq<Json>, end: Str): Str {
    if items == [] then end
    else Print(items[0]) + (if |items| == 1 then end else [COMMA] + PrintItems(items[1..], end))
  }

  function PrintFields(fields: seq<Field<Json>>, end: Str): Str {
    if fields == [] then end
    else
      var rest := if |fields| == 1 then end else [COMMA] + PrintFields(fields[1..], end);
      Quoted(fields[0].key) + ([COLON] + (Print(fields[0].value) + rest))
  }

  // Accepted values whose numbers are number texts and whose arrays do not consist of one hole.
  predicate Printable(v: Json) {
    match v
    case Refused => false
    case Number(text) => NumberText(text)
    case Array(items) => items != [Hole] && forall i | 0 <= i < |items| :: Printable(items[i])
    case Object(fields) => forall i | 0 <= i < |fields| :: Printable(fields[i].value)
    case _ => true
  }

  // What may follow a value.
  predicate Delimited(r: Str) {
    r == [] || r[0] == COMMA || r[0] == CLOSE_ARRAY || r[0] == CLOSE_OBJECT
  }

  // A number ends where something else begins.
  lemma NumberEnds(s: Str, r: Str, t: Str, q: Str)
    requires NumberText(t) && Delimited(r) && s + r == t + q
    ensures |t| <= |s|
  {
    assert forall i | 0 <= i < |t| :: NumberUnit((s + r)[i]) by {
      assert forall i | 0 <= i < |t| :: (t + q)[i] == t[i];
    }
    assert r != [] ==> (s + r)[|s|] == r[0];
  }

  lemma NumberIsPrefixFree(s: Str, r: Str, t: Str, q: Str)
    requires NumberText(s) && NumberText(t) && Delimited(r) && Delimited(q) && s + r == t + q
    ensures s == t && r == q
  {
    NumberEnds(s, r, t, q);
    NumberEnds(t, q, s, r);
    SameLength(s, r, t, q);
  }

  // Which values a text can start.
  predicate StartsLike(v: Json, u: Unit) {
    match v
    case Null => u == 0x6E
    case Bool(b) => u == if b then 0x74 else 0x66
    case Number(_) => 0x30 <= u <= 0x39 || u == 0x2D
    case Text(_) => u == QUOTE
    case Array(_) => u == OPEN_ARRAY
    case Object(_) => u == OPEN_OBJECT
    case Silent => u == 0x75
    case _ => false
  }

  lemma FirstUnit(v: Json)
    requires Printable(v) && !v.Hole?
    ensures Print(v) != [] && StartsLike(v, Print(v)[0])
  {
  }

  lemma CancelFirst(u: Unit, s: Str, t: Str)
    requires [u] + s == [u] + t
    ensures s == t
  {
    assert ([u] + s)[1..] == s && ([u] + t)[1..] == t;
  }

  lemma SameLength(s: Str, r: Str, t: Str, q: Str)
    requires s + r == t + q && |s| == |t|
    ensures s == t && r == q
  {
    assert (s + r)[..|s|] == s && (t + q)[..|t|] == t;
    assert (s + r)[|s|..] == r && (t + q)[|t|..] == q;
  }

  lemma SameConstructor(v: Json, r: Str, w: Json, q: Str)
    requires Printable(v) && Printable(w) && Delimited(r) && Delimited(q) && Print(v) + r == Print(w) + q
    ensures v.Number? <==> w.Number?
    ensures v.Text? <==> w.Text?
    ensures v.Array? <==> w.Array?
    ensures v.Object? <==> w.Object?
    ensures v.Null? || v.Bool? || v.Silent? || v.Hole? ==> v == w
  {
    hide Print;
    if v.Hole? || w.Hole? {
      NothingForHole();
      assert [] + r == r && [] + q == q;
      if !v.Hole? { OnlyHoleIsEmpty(v, r, q); }
      if !w.Hole? { OnlyHoleIsEmpty(w, q, r); }
    } else {
      FirstUnit(v);
      FirstUnit(w);
      assert Print(v)[0] == (Print(v) + r)[0];
      assert Print(w)[0] == (Print(w) + q)[0];
    }
  }

  lemma OnlyHoleIsEmpty(v: Json, r: Str, q: Str)
    requires Printable(v) && !v.Hole? && Delimited(q)
    ensures Print(v) + r != q
  {
    hide Print;
    FirstUnit(v);
    assert (Print(v) + r)[0] == Print(v)[0];
  }

  lemma NothingForHole()
    ensures Print(Hole) == []
  {}

  lemma UndefinedForSilent()
    ensures Print(Silent) == UNDEFINED_TEXT
  {}

  // The contents of two arrays or objects after their equal first units.
  lemma Inner(open: Unit, a: Str, r: Str, b: Str, q: Str)
    requires [open] + a + r == [open] + b + q
    ensures a + r == b + q
  {
    assert [open] + a + r == [open] + (a + r) && [open] + b + q == [open] + (b + q);
    CancelFirst(open, a + r, b + q);
  }

  // Printed values differ, whatever may follow them: the printed text determines the value.
  lemma {:induction false} PrintIsPrefixFree(v: Json, r: Str, w: Json, q: Str)
    requires Printable(v) && Printable(w) && Delimited(r) && Delimited(q)
    requires Print(v) + r == Print(w) + q
    ensures v == w && r == q
    decreases v, 1
  {
    hide PrintItems, PrintFields, Quoted, NumberText, Delimited;
    SameConstructor(v, r, w, q);
    match v
    case Number(text) => NumberIsPrefixFree(text, r, w.text, q);
    case Text(units) => QuotedIsPrefixFree(units, r, w.units, q);
    case Array(items) =>
      Inner(OPEN_ARRAY, PrintItems(items, [CLOSE_ARRAY]), r, PrintItems(w.items, [CLOSE_ARRAY]), q);
      ItemsArePrefixFree(items, r, w.items, q);
    case Object(fields) =>
      Inner(OPEN_OBJECT, PrintFields(fields, [CLOSE_OBJECT]), r, PrintFields(w.fields, [CLOSE_OBJECT]), q);
      FieldsArePrefixFree(fields, r, w.fields, q);
    case _ =>
      SameLength(Print(v), r, Print(w), q);
  }

  // What follows an item: the end of the list, or a comma and more items.
  function AfterItem(rest: seq<Json>, r: Str): Str {
    if rest == [] then [CLOSE_ARRAY] + r else [COMMA] + (PrintItems(rest, [CLOSE_ARRAY]) + r)
  }

  lemma SplitItems(items: seq<Json>, r: Str)
    requires items != []
    ensures PrintItems(items, [CLOSE_ARRAY]) + r == Print(items[0]) + AfterItem(items[1..], r)
  {
    hide Print;
    var more := PrintItems(items[1..], [CLOSE_ARRAY]);
    assert Print(items[0]) + [CLOSE_ARRAY] + r == Print(items[0]) + ([CLOSE_ARRAY] + r);
    assert Print(items[0]) + ([COMMA] + more) + r == Print(items[0]) + ([COMMA] + (more + r));
  }

  lemma AfterItemStarts(rest: seq<Json>, r: Str)
    ensures AfterItem(rest, r) != [] && AfterItem(rest, r)[0] == if rest == [] then CLOSE_ARRAY else COMMA
  {
  }

  lemma NonEmptyItems(items: seq<Json>, r: Str)
    requires items != [] && items != [Hole] && Printable(items[0])
    ensures var t := PrintItems(items, [CLOSE_ARRAY]) + r; t != [] && t[0] != CLOSE_ARRAY
  {
    hide Print;
    SplitItems(items, r);
    if items[0].Hole? {
      NothingForHole();
      AfterItemStarts(items[1..], r);
      assert |items| == 1 ==> items == [Hole];
    } else {
      FirstUnit(items[0]);
    }
  }

  lemma {:induction false} ItemsArePrefixFree(a: seq<Json>, r: Str, b: seq<Json>, q: Str)
    requires (forall i | 0 <= i < |a| :: Printable(a[i])) && (forall i | 0 <= i < |b| :: Printable(b[i]))
    requires (a == [] ==> b != [Hole]) && (b == [] ==> a != [Hole])
    requires PrintItems(a, [CLOSE_ARRAY]) + r == PrintItems(b, [CLOSE_ARRAY]) + q
    ensures a == b && r == q
    decreases a, 0
  {
    hide Print, AfterItem, Printable;
    if a != [] && b != [] {
      SplitItems(a, r);
      SplitItems(b, q);
      AfterItemStarts(a[1..], r);
      AfterItemStarts(b[1..], q);
      PrintIsPrefixFree(a[0], AfterItem(a[1..], r), b[0], AfterItem(b[1..], q));
      RestOfItems(a[1..], r, b[1..], q);
      assert a == [a[0]] + a[1..] && b == [b[0]] + b[1..];
    } else {
      if a != [] { NonEmptyItems(a, r); }
      if b != [] { NonEmptyItems(b, q); }
      SameLength([CLOSE_ARRAY], r, [CLOSE_ARRAY], q);
    }
  }

  lemma {:induction false} RestOfItems(a: seq<Json>, r: Str, b: seq<Json>, q: Str)
    requires (forall i | 0 <= i < |a| :: Printable(a[i])) && (forall i | 0 <= i < |b| :: Printable(b[i]))
    requires AfterItem(a, r) == AfterItem(b, q)
    ensures a == b && r == q
    decreases a, 1
  {
    hide Print, PrintItems, Printable;
    AfterItemStarts(a, r);
    AfterItemStarts(b, q);
    if a == [] {
      CancelFirst(CLOSE_ARRAY, r, q);
    } else {
      CancelFirst(COMMA, PrintItems(a, [CLOSE_ARRAY]) + r, PrintItems(b, [CLOSE_ARRAY]) + q);
      ItemsArePrefixFree(a, r, b, q);
    }
  }

  function AfterField(rest: seq<Field<Json>>, r: Str): Str {
    if rest == [] then [CLOSE_OBJECT] + r else [COMMA] + (PrintFields(rest, [CLOSE_OBJECT]) + r)
  }

  lemma SplitFields(fields: seq<Field<Json>>, r: Str)
    requires fields != []
    ensures PrintFields(fields, [CLOSE_OBJECT]) + r
         == Quoted(fields[0].key) + ([COLON] + (Print(fields[0].value) + AfterField(fields[1..], r)))
  {
    hide Print, Quoted;
    var end := if |fields| == 1 then [CLOSE_OBJECT] else [COMMA] + PrintFields(fields[1..], [CLOSE_OBJECT]);
    assert end + r == AfterField(fields[1..], r);
    assert Quoted(fields[0].key) + ([COLON] + (Print(fields[0].value) + end)) + r
        == Quoted(fields[0].key) + ([COLON] + (Print(fields[0].value) + (end + r)));
  }

  lemma AfterFieldStarts(rest: seq<Field<Json>>, r: Str)
    ensures AfterField(rest, r) != [] && AfterField(rest, r)[0] == if rest == [] then CLOSE_OBJECT else COMMA
  {
  }

  lemma NonEmptyFields(fields: seq<Field<Json>>, r: Str)
    requires fields != []
    ensures var t := PrintFields(fields, [CLOSE_OBJECT]) + r; t != [] && t[0] != CLOSE_OBJECT
  {
    hide Print;
    SplitFields(fields, r);
  }

  lemma {:induction false} FieldsArePrefixFree(a: seq<Field<Json>>, r: Str, b: seq<Field<Json>>, q: Str)
    requires (forall i | 0 <= i < |a| :: Printable(a[i].value)) && (forall i | 0 <= i < |b| :: Printable(b[i].value))
    requires PrintFields(a, [CLOSE_OBJECT]) + r == PrintFields(b, [CLOSE_OBJECT]) + q
    ensures a == b && r == q
    decreases a, 0
  {
    hide Print, AfterField, Printable, Quoted;
    if a != [] && b != [] {
      SplitFields(a, r);
      SplitFields(b, q);
      AfterFieldStarts(a[1..], r);
      AfterFieldStarts(b[1..], q);
      var x, y := Print(a[0].value) + AfterField(a[1..], r), Print(b[0].value) + AfterField(b[1..], q);
      QuotedIsPrefixFree(a[0].key, [COLON] + x, b[0].key, [COLON] + y);
      CancelFirst(COLON, x, y);
      PrintIsPrefixFree(a[0].value, AfterField(a[1..], r), b[0].value, AfterField(b[1..], q));
      RestOfFields(a[1..], r, b[1..], q);
      assert a == [a[0]] + a[1..] && b == [b[0]] + b[1..];
    } else {
      if a != [] { NonEmptyFields(a, r); }
      if b != [] { NonEmptyFields(b, q); }
      SameLength([CLOSE_OBJECT], r, [CLOSE_OBJECT], q);
    }
  }

  lemma {:induction false} RestOfFields(a: seq<Field<Json>>, r: Str, b: seq<Field<Json>>, q: Str)
    requires (forall i | 0 <= i < |a| :: Printable(a[i].value)) && (forall i | 0 <= i < |b| :: Printable(b[i].value))
    requires AfterField(a, r) == AfterField(b, q)
    ensures a == b && r == q
    decreases a, 1
  {
    hide Print, PrintFields, Printable;
    AfterFieldStarts(a, r);
    AfterFieldStarts(b, q);
    if a == [] {
      CancelFirst(CLOSE_OBJECT, r, q);
    } else {
      CancelFirst(COMMA, PrintFields(a, [CLOSE_OBJECT]) + r, PrintFields(b, [CLOSE_OBJECT]) + q);
      FieldsArePrefixFree(a, r, b, q);
    }
  }

  // ---- The value with every object in key order, and every gap a hole ----

  function SortDeep(v: Json): Json {
    match v
    case Array(items) => Array(if LoneGap(items) then [] else SortItems(items))
    case Object(fields) => Object(Sort(SortValues(fields)))
    case _ => v
  }

  function SortItems(items: seq<Json>): (r: seq<Json>)
    ensures |r| == |items|
    ensures forall i | 0 <= i < |items| :: r[i] == if IsGap(items[i]) then Hole else SortDeep(items[i])
  {
    if items == [] then []
    else [if IsGap(items[0]) then Hole else SortDeep(items[0])] + SortItems(items[1..])
  }

  // The members in their given order, each value sorted inside.
  function SortValues(fields: seq<Field<Json>>): (r: seq<Field<Json>>)
    ensures |r| == |fields|
    ensures forall i | 0 <= i < |fields| :: r[i] == Field(fields[i].key, SortDeep(fields[i].value))
  {
    if fields == [] then [] else [Field(fields[0].key, SortDeep(fields[0].value))] + SortValues(fields[1..])
  }

  // The text of each value, under its key.
  function Texts(fields: seq<Field<Json>>): seq<Field<Str>> {
    if fields == [] then [] else [Field(fields[0].key, Print(fields[0].value))] + Texts(fields[1..])
  }

  // Sorting looks at keys only, so it does not matter whether values are printed before or after.
  lemma {:induction false} InsertTexts(x: Field<Json>, fields: seq<Field<Json>>)
    ensures Texts(Insert(x, fields)) == Insert(Field(x.key, Print(x.value)), Texts(fields))
  {
    hide Print;
    var y := Field(x.key, Print(x.value));
    if fields == [] || Less(x.key, fields[0].key) {
      assert ([x] + fields)[1..] == fields;
      assert Texts([x] + fields) == [y] + Texts(fields);
    } else {
      InsertTexts(x, fields[1..]);
      assert ([fields[0]] + Insert(x, fields[1..]))[1..] == Insert(x, fields[1..]);
      assert Texts(fields)[1..] == Texts(fields[1..]);
    }
  }

  lemma {:induction false} SortTexts(fields: seq<Field<Json>>)
    ensures Texts(Sort(fields)) == Sort(Texts(fields))
  {
    hide Print;
    if fields != [] {
      SortTexts(fields[1..]);
      InsertTexts(fields[0], Sort(fields[1..]));
      assert Texts(fields)[1..] == Texts(fields[1..]);
    }
  }

  // The texts of items, for Join.
  function ItemTexts(items: seq<Json>): seq<Str> {
    if items == [] then [] else [Print(items[0])] + ItemTexts(items[1..])
  }

  lemma {:induction false} JoinItems(items: seq<Json>, end: Str)
    ensures |ItemTexts(items)| == |items|
    ensures Join(ItemTexts(items)) + end == PrintItems(items, end)
  {
    hide Print;
    if items != [] {
      JoinItems(items[1..], end);
      var rest := ItemTexts(items[1..]);
      assert ([Print(items[0])] + rest)[1..] == rest;
      assert Print(items[0]) + [COMMA] + Join(rest) + end == Print(items[0]) + ([COMMA] + (Join(rest) + end));
    }
  }

  lemma {:induction false} JoinMembers(fields: seq<Field<Json>>, end: Str)
    ensures |Members(Texts(fields))| == |fields|
    ensures Join(Members(Texts(fields))) + end == PrintFields(fields, end)
  {
    hide Print, Quoted;
    if fields != [] {
      JoinMembers(fields[1..], end);
      var member := Quoted(fields[0].key) + [COLON] + Print(fields[0].value);
      var rest := Members(Texts(fields[1..]));
      assert Texts(fields)[1..] == Texts(fields[1..]);
      assert Members(Texts(fields)) == [member] + rest;
      assert ([member] + rest)[1..] == rest;
      assert member + [COMMA] + Join(rest) + end
          == Quoted(fields[0].key) + ([COLON] + (Print(fields[0].value) + ([COMMA] + (Join(rest) + end))));
      assert member + end == Quoted(fields[0].key) + ([COLON] + (Print(fields[0].value) + end));
    }
  }

  // What encode returns for an accepted value.
  function Shown(v: Json): Option<Str> {
    if IsGap(v) then None else Some(Print(SortDeep(v)))
  }

  // The printer prints the sorted value, and fails exactly on values that are not accepted.
  lemma {:induction false} EncodePrintsSorted(v: Json)
    requires WellFormed(v) || v.Hole?
    ensures Encode(v) == if Accepted(v) then Ok(Shown(v)) else Fail
    decreases v, 1
  {
    hide Join, Sort, Members;
    match v
    case Array(items) =>
      EncodesItems(items);
      var sorted := if LoneGap(items) then [] else SortItems(items);
      JoinItems(sorted, [CLOSE_ARRAY]);
      var text := Join(ItemTexts(sorted));
      assert Join(ItemTexts(SortItems(items))) == text by { JoinLoneGap(items); }
      assert [OPEN_ARRAY] + text + [CLOSE_ARRAY] == [OPEN_ARRAY] + (text + [CLOSE_ARRAY]);
    case Object(fields) =>
      EncodesFields(fields);
      SortTexts(SortValues(fields));
      JoinMembers(Sort(SortValues(fields)), [CLOSE_OBJECT]);
      var text := Join(Members(Texts(Sort(SortValues(fields)))));
      assert [OPEN_OBJECT] + text + [CLOSE_OBJECT] == [OPEN_OBJECT] + (text + [CLOSE_OBJECT]);
    case _ =>
  }

  // One empty part joins to the same as no part.
  lemma JoinLoneGap(items: seq<Json>)
    ensures LoneGap(items) ==> Join(ItemTexts(SortItems(items))) == Join(ItemTexts([]))
  {
    if LoneGap(items) {
      var lone := SortItems(items);
      assert lone == [Hole] && lone[1..] == [];
      assert ItemTexts(lone) == [[]];
    }
  }

  lemma {:induction false} EncodesItems(items: seq<Json>)
    requires forall i | 0 <= i < |items| :: items[i].Hole? || WellFormed(items[i])
    ensures EncodeItems(items) ==
      if forall i | 0 <= i < |items| :: Accepted(items[i]) then Ok(ItemTexts(SortItems(items))) else Fail
    decreases items, 0
  {
    hide Print;
    if items != [] {
      NothingForHole();
      EncodePrintsSorted(items[0]);
      EncodesItems(items[1..]);
      assert (forall i | 0 <= i < |items| :: Accepted(items[i])) <==>
        Accepted(items[0]) && forall i | 0 <= i < |items[1..]| :: Accepted(items[1..][i]);
      assert SortItems(items)[1..] == SortItems(items[1..]);
    }
  }

  lemma {:induction false} EncodesFields(fields: seq<Field<Json>>)
    requires forall i | 0 <= i < |fields| :: WellFormed(fields[i].value)
    ensures EncodeFields(fields) ==
      if forall i | 0 <= i < |fields| :: Accepted(fields[i].value) then Ok(Texts(SortValues(fields))) else Fail
    decreases fields, 0
  {
    hide Print;
    if fields != [] {
      UndefinedForSilent();
      EncodePrintsSorted(fields[0].value);
      EncodesFields(fields[1..]);
      assert (forall i | 0 <= i < |fields| :: Accepted(fields[i].value)) <==>
        Accepted(fields[0].value) && forall i | 0 <= i < |fields[1..]| :: Accepted(fields[1..][i].value);
      assert SortValues(fields)[1..] == SortValues(fields[1..]);
    }
  }

  // ---- Meanings ----

  // The meaning of an object depends only on what its members say about each key.
  lemma {:induction false} MeaningOfMap(fields: seq<Field<Json>>)
    ensures MeaningOfFields(fields) == map key | key in ToMap(fields) :: MeaningOf(ToMap(fields)[key])
  {
    hide MeaningOf;
    if fields != [] {
      MeaningOfMap(fields[1..]);
    }
  }

  lemma {:induction false} SortedMeansTheSame(v: Json)
    requires WellFormed(v)
    ensures MeaningOf(SortDeep(v)) == MeaningOf(v)
    decreases v, 1
  {
    hide Sort, ToMap;
    match v
    case Array(items) =>
      SortedItemsMeanTheSame(items);
      if |items| == 1 {
        SortingMakesNoGap(items[0]);
      }
    case Object(fields) =>
      SortedValuesMeanTheSame(fields);
      SortValuesKeepsKeys(fields);
      SortIsSorted(SortValues(fields));
      MeaningOfMap(Sort(SortValues(fields)));
      MeaningOfMap(SortValues(fields));
    case _ =>
  }

  lemma {:induction false} SortedItemsMeanTheSame(items: seq<Json>)
    requires forall i | 0 <= i < |items| :: items[i].Hole? || WellFormed(items[i])
    ensures MeaningOfItems(SortItems(items)) == MeaningOfItems(items)
    decreases items, 0
  {
    if items != [] {
      if !IsGap(items[0]) {
        SortedMeansTheSame(items[0]);
        SortingMakesNoGap(items[0]);
      }
      SortedItemsMeanTheSame(items[1..]);
      assert SortItems(items)[1..] == SortItems(items[1..]);
    }
  }

  lemma SortingMakesNoGap(v: Json)
    ensures IsGap(SortDeep(v)) <==> IsGap(v)
  {}

  lemma {:induction false} SortedValuesMeanTheSame(fields: seq<Field<Json>>)
    requires forall i | 0 <= i < |fields| :: WellFormed(fields[i].value)
    ensures MeaningOfFields(SortValues(fields)) == MeaningOfFields(fields)
    decreases fields, 0
  {
    if fields != [] {
      SortedMeansTheSame(fields[0].value);
      SortedValuesMeanTheSame(fields[1..]);
      assert SortValues(fields)[1..] == SortValues(fields[1..]);
    }
  }

  lemma {:induction false} SortValuesKeepsKeys(fields: seq<Field<Json>>)
    ensures DistinctKeys(fields) ==> DistinctKeys(SortValues(fields))
    ensures forall key :: HasKey(SortValues(fields), key) <==> HasKey(fields, key)
  {
    if fields != [] {
      SortValuesKeepsKeys(fields[1..]);
      assert SortValues(fields)[1..] == SortValues(fields[1..]);
      forall key ensures HasKey(SortValues(fields), key) <==> HasKey(fields, key) {
        KeysOfCons(fields, key);
        KeysOfCons(SortValues(fields), key);
      }
    }
  }

  // The member of a key, where each key comes once.
  lemma {:induction false} MemberOfKey(fields: seq<Field<Json>>, i: nat)
    requires DistinctKeys(fields) && i < |fields|
    ensures HasKey(fields, fields[i].key) && ToMap(fields)[fields[i].key] == fields[i].value
  {
    assert HasKey(fields, fields[i].key);
    if i > 0 {
      MemberOfKey(fields[1..], i - 1);
      assert fields[1..][i - 1] == fields[i];
    }
  }

  lemma {:induction false} SameMeaningSameSorted(v: Json, w: Json)
    requires WellFormed(v) && WellFormed(w) && MeaningOf(v) == MeaningOf(w)
    ensures SortDeep(v) == SortDeep(w)
    decreases v, 1
  {
    hide Sort, ToMap, HasKey;
    match v
    case Array(items) =>
      NoItems(items);
      NoItems(w.items);
      if !LoneGap(items) && !LoneGap(w.items) {
        SameItems(items, w.items);
      } else {
        OnlyNoItemsMeanNothing(items);
        OnlyNoItemsMeanNothing(w.items);
      }
    case Object(fields) =>
      SameFields(fields, w.fields);
      SortValuesKeepsKeys(fields);
      SortValuesKeepsKeys(w.fields);
      SortIsSorted(SortValues(fields));
      SortIsSorted(SortValues(w.fields));
      SortedIsUnique(Sort(SortValues(fields)), Sort(SortValues(w.fields)));
    case _ =>
  }

  lemma NoItems(items: seq<Json>)
    ensures SortItems([]) == [] && MeaningOfItems([]) == []
  {}

  lemma OnlyNoItemsMeanNothing(items: seq<Json>)
    ensures |MeaningOfItems(items)| == 0 <==> items == []
  {}

  // A meaning other than a gap is that of no gap.
  lemma MeaningIsGap(v: Json)
    requires WellFormed(v) && !IsGap(v)
    ensures MeaningOf(v) != MGap
  {}

  lemma {:induction false} SameItems(a: seq<Json>, b: seq<Json>)
    requires forall i | 0 <= i < |a| :: a[i].Hole? || WellFormed(a[i])
    requires forall i | 0 <= i < |b| :: b[i].Hole? || WellFormed(b[i])
    requires MeaningOfItems(a) == MeaningOfItems(b)
    ensures SortItems(a) == SortItems(b)
    decreases a, 0
  {
    if a != [] && b != [] {
      var x, y := MeaningOfItems(a[1..]), MeaningOfItems(b[1..]);
      var first, other := MeaningOfItems(a)[0], MeaningOfItems(b)[0];
      assert MeaningOfItems(a)[1..] == x && MeaningOfItems(b)[1..] == y;
      if !IsGap(a[0]) { MeaningIsGap(a[0]); }
      if !IsGap(b[0]) { MeaningIsGap(b[0]); }
      if !IsGap(a[0]) && !IsGap(b[0]) {
        SameMeaningSameSorted(a[0], b[0]);
      }
      SameItems(a[1..], b[1..]);
    }
  }

  lemma {:induction false} SameFields(a: seq<Field<Json>>, b: seq<Field<Json>>)
    requires DistinctKeys(a) && DistinctKeys(b)
    requires (forall i | 0 <= i < |a| :: WellFormed(a[i].value)) && (forall i | 0 <= i < |b| :: WellFormed(b[i].value))
    requires MeaningOfFields(a) == MeaningOfFields(b)
    ensures ToMap(SortValues(a)) == ToMap(SortValues(b))
    decreases a, 0
  {
    hide ToMap, MeaningOf, SortDeep, DistinctKeys, WellFormed, MeaningOfFields;
    MeaningOfMap(a);
    MeaningOfMap(b);
    SortValuesKeepsKeys(a);
    SortValuesKeepsKeys(b);
    assert forall key :: key in ToMap(a) <==> key in MeaningOfFields(a);
    assert forall key :: key in ToMap(b) <==> key in MeaningOfFields(b);
    forall key | HasKey(a, key) ensures HasKey(b, key) && ToMap(SortValues(a))[key] == ToMap(SortValues(b))[key] {
      assert key in MeaningOfFields(a) && key in ToMap(b) && HasKey(b, key);
      var i :| 0 <= i < |a| && a[i].key == key;
      var j :| 0 <= j < |b| && b[j].key == key;
      MemberOfKey(a, i);
      MemberOfKey(b, j);
      MemberOfKey(SortValues(a), i);
      MemberOfKey(SortValues(b), j);
      SameMeaningSameSorted(a[i].value, b[j].value);
    }
    assert forall key :: key in ToMap(SortValues(a)) <==> HasKey(a, key);
    assert forall key :: key in ToMap(SortValues(b)) <==> HasKey(b, key);
  }

  lemma {:induction false} SortedIsPrintable(v: Json)
    requires WellFormed(v) && Accepted(v)
    ensures Printable(SortDeep(v))
  {
    match v
    case Array(items) =>
      forall i | 0 <= i < |items| ensures Printable(SortItems(items)[i]) {
        if IsGap(items[i]) { HoleIsPrintable(); } else { SortedIsPrintable(items[i]); }
      }
      LoneHole(items);
    case Object(fields) =>
      forall i | 0 <= i < |fields| ensures Printable(SortDeep(fields[i].value)) { SortedIsPrintable(fields[i].value); }
      SortedAreElements(SortValues(fields));
    case _ =>
  }

  // Every member of the sorted list is a member of the list, and the other way round.
  lemma SortedAreElements(fields: seq<Field<Json>>)
    ensures forall i | 0 <= i < |Sort(fields)| :: Sort(fields)[i] in fields
    ensures forall i | 0 <= i < |fields| :: fields[i] in Sort(fields)
  {
    var sorted := Sort(fields);
    forall i | 0 <= i < |sorted| ensures sorted[i] in fields {
      SortKeepsElement(fields, sorted[i]);
    }
    forall i | 0 <= i < |fields| ensures fields[i] in sorted {
      SortKeepsElement(fields, fields[i]);
    }
  }

  lemma HoleIsPrintable()
    ensures Printable(Hole)
  {}

  lemma LoneHole(items: seq<Json>)
    requires forall i | 0 <= i < |items| :: items[i].Hole? || WellFormed(items[i])
    ensures SortItems(items) == [Hole] ==> LoneGap(items)
  {
    if |items| == 1 {
      SortingMakesNoGap(items[0]);
      assert SortItems(items)[0] == if IsGap(items[0]) then Hole else SortDeep(items[0]);
    }
  }

  // ---- Main results ----

  // The printer fails exactly on values in which something is refused, and its result is undefined exactly
  // for a function or a symbol.
  lemma FailsExactlyOnRefused(v: Json)
    requires WellFormed(v)
    ensures Encode(v).Fail? <==> !Accepted(v)
    ensures Encode(v) == Ok(None) <==> v.Silent?
  {
    EncodePrintsSorted(v);
  }

  // The printed tree determines the text and is determined by it.
  lemma SameTextSameSorted(v: Json, w: Json)
    requires WellFormed(v) && WellFormed(w) && Accepted(v) && Accepted(w)
    ensures Encode(v) == Encode(w) <==> SortDeep(v) == SortDeep(w)
  {
    hide Encode, Print, SortDeep;
    EncodePrintsSorted(v);
    EncodePrintsSorted(w);
    SortingMakesNoGap(v);
    SortingMakesNoGap(w);
    if Encode(v) == Encode(w) {
      if IsGap(v) {
        SilentIsSorted();
      } else {
        SortedIsPrintable(v);
        SortedIsPrintable(w);
        assert Print(SortDeep(v)) + [] == Print(SortDeep(w)) + [];
        PrintIsPrefixFree(SortDeep(v), [], SortDeep(w), []);
      }
    }
  }

  lemma SilentIsSorted()
    ensures SortDeep(Silent) == Silent
  {}

  // Two accepted values have one canonical text exactly when they mean the same: equal up to the order of
  // object members, at every depth, and up to what stands in gaps.
  lemma CanonicalTextIsMeaning(v: Json, w: Json)
    requires WellFormed(v) && WellFormed(w) && Accepted(v) && Accepted(w)
    ensures Encode(v) == Encode(w) <==> MeaningOf(v) == MeaningOf(w)
  {
    hide Encode, SortDeep, MeaningOf;
    SameTextSameSorted(v, w);
    if MeaningOf(v) == MeaningOf(w) {
      SameMeaningSameSorted(v, w);
    }
    if SortDeep(v) == SortDeep(w) {
      SortedMeansTheSame(v);
      SortedMeansTheSame(w);
    }
  }

  // The meaning of a JSON array is the meanings of its items.
  lemma {:induction false} JsonArrayMeansItsItems(items: seq<Json>)
    requires forall i | 0 <= i < |items| :: IsJson(items[i])
    ensures MeaningOf(Array(items)) == MArray(MeaningOfItems(items))
    ensures MeaningOfItems(items) == seq(|items|, i requires 0 <= i < |items| => MeaningOf(items[i]))
  {
    if items != [] {
      JsonArrayMeansItsItems(items[1..]);
    }
  }

  // ---- Values that share the text of a JSON value ----

  // Gaps occur only as the single item of an array.
  predicate OnlyLoneGaps(v: Json) {
    match v
    case Array(items) => LoneGap(items) || forall i | 0 <= i < |items| :: OnlyLoneGaps(items[i])
    case Object(fields) => forall i | 0 <= i < |fields| :: OnlyLoneGaps(fields[i].value)
    case Silent => false
    case Hole => false
    case _ => true
  }

  // The value with an empty array for each array of one gap.
  function Emptied(v: Json): Json {
    match v
    case Array(items) => Array(if LoneGap(items) then [] else EmptiedItems(items))
    case Object(fields) => Object(EmptiedValues(fields))
    case _ => v
  }

  function EmptiedItems(items: seq<Json>): (r: seq<Json>)
    ensures |r| == |items| && forall i | 0 <= i < |items| :: r[i] == Emptied(items[i])
  {
    if items == [] then [] else [Emptied(items[0])] + EmptiedItems(items[1..])
  }

  function EmptiedValues(fields: seq<Field<Json>>): (r: seq<Field<Json>>)
    ensures |r| == |fields| && forall i | 0 <= i < |fields| :: r[i] == Field(fields[i].key, Emptied(fields[i].value))
  {
    if fields == [] then []
    else [Field(fields[0].key, Emptied(fields[0].value))] + EmptiedValues(fields[1..])
  }

  lemma {:induction false} SameKeysDistinct(a: seq<Field<Json>>, b: seq<Field<Json>>)
    requires |a| == |b| && (forall i | 0 <= i < |a| :: a[i].key == b[i].key) && DistinctKeys(a)
    ensures DistinctKeys(b)
  {
    if a != [] {
      assert forall i | 0 <= i < |a[1..]| :: a[1..][i].key == b[1..][i].key;
      SameKeysDistinct(a[1..], b[1..]);
    }
  }

  lemma {:induction false} EmptiedIsJson(v: Json)
    requires WellFormed(v) && Accepted(v) && OnlyLoneGaps(v)
    ensures WellFormed(Emptied(v)) && IsJson(Emptied(v)) && SortDeep(Emptied(v)) == SortDeep(v)
    decreases v, 1
  {
    hide Sort, DistinctKeys, NumberText;
    match v
    case Array(items) =>
      if !LoneGap(items) {
        EmptiedItemsAreJson(items);
      }
    case Object(fields) =>
      EmptiedValuesAreJson(fields);
      SameKeysDistinct(fields, EmptiedValues(fields));
    case _ =>
  }

  lemma {:induction false} EmptiedItemsAreJson(items: seq<Json>)
    requires forall i | 0 <= i < |items| ::
      (items[i].Hole? || WellFormed(items[i])) && Accepted(items[i]) && OnlyLoneGaps(items[i])
    ensures forall i | 0 <= i < |items| :: WellFormed(EmptiedItems(items)[i]) && IsJson(EmptiedItems(items)[i])
    ensures SortItems(EmptiedItems(items)) == SortItems(items)
    decreases items, 0
  {
    hide WellFormed, Accepted;
    var emptied := EmptiedItems(items);
    forall i | 0 <= i < |items|
      ensures WellFormed(emptied[i]) && IsJson(emptied[i])
      ensures SortItems(emptied)[i] == SortItems(items)[i]
    {
      GapIsNotJson(emptied[i]);
      EmptiedIsJson(items[i]);
    }
    assert SortItems(emptied) == SortItems(items);
  }

  lemma {:induction false} EmptiedValuesAreJson(fields: seq<Field<Json>>)
    requires forall i | 0 <= i < |fields| ::
      WellFormed(fields[i].value) && Accepted(fields[i].value) && OnlyLoneGaps(fields[i].value)
    ensures forall i | 0 <= i < |fields| ::
      WellFormed(EmptiedValues(fields)[i].value) && IsJson(EmptiedValues(fields)[i].value)
    ensures SortValues(EmptiedValues(fields)) == SortValues(fields)
    decreases fields, 0
  {
    hide WellFormed, Accepted, OnlyLoneGaps, IsJson, SortDeep;
    var emptied := EmptiedValues(fields);
    forall i | 0 <= i < |fields|
      ensures WellFormed(emptied[i].value) && IsJson(emptied[i].value)
      ensures SortValues(emptied)[i] == SortValues(fields)[i]
    {
      EmptiedIsJson(fields[i].value);
    }
    assert SortValues(emptied) == SortValues(fields);
  }

  // Sorting keeps JSON, and makes JSON of nothing that has other gaps.
  lemma {:induction false} SortedJson(v: Json)
    requires Accepted(v)
    ensures IsJson(v) ==> IsJson(SortDeep(v))
    ensures IsJson(SortDeep(v)) ==> OnlyLoneGaps(v)
  {
    hide Sort;
    match v
    case Array(items) =>
      forall i | 0 <= i < |items|
        ensures IsJson(items[i]) ==> IsJson(SortItems(items)[i])
        ensures IsJson(SortItems(items)[i]) ==> OnlyLoneGaps(items[i])
      {
        SortedJson(items[i]);
        GapIsNotJson(items[i]);
      }
    case Object(fields) =>
      forall i | 0 <= i < |fields|
        ensures IsJson(fields[i].value) ==> IsJson(SortValues(fields)[i].value)
        ensures IsJson(SortValues(fields)[i].value) ==> OnlyLoneGaps(fields[i].value)
      {
        SortedJson(fields[i].value);
      }
      SortedValuesJson(SortValues(fields));
    case _ =>
  }

  lemma GapIsNotJson(v: Json)
    ensures !IsJson(Hole) && (IsGap(v) ==> !IsJson(v))
  {}

  lemma SortedValuesJson(fields: seq<Field<Json>>)
    ensures (forall i | 0 <= i < |fields| :: IsJson(fields[i].value)) <==> IsJson(Object(Sort(fields)))
  {
    hide IsJson;
    SortedAreElements(fields);
    ObjectIsJson(Sort(fields));
    var sorted := Sort(fields);
    if forall i | 0 <= i < |sorted| :: IsJson(sorted[i].value) {
      forall i | 0 <= i < |fields| ensures IsJson(fields[i].value) {
        assert fields[i] in sorted;
      }
    }
    if forall i | 0 <= i < |fields| :: IsJson(fields[i].value) {
      forall i | 0 <= i < |sorted| ensures IsJson(sorted[i].value) {
        assert sorted[i] in fields;
      }
    }
  }

  lemma ObjectIsJson(fields: seq<Field<Json>>)
    ensures IsJson(Object(fields)) <==> forall i | 0 <= i < |fields| :: IsJson(fields[i].value)
  {}

  // A value that is printed has the text of a JSON value exactly when its gaps are the single items of
  // arrays. So a value that is not JSON shares the text of one exactly if it has only such gaps.
  lemma SharesTextOfJsonExactly(v: Json)
    requires WellFormed(v) && Accepted(v)
    ensures (exists w :: WellFormed(w) && IsJson(w) && Encode(w) == Encode(v)) <==> OnlyLoneGaps(v)
  {
    hide Encode, WellFormed, Accepted, IsJson, OnlyLoneGaps, Emptied;
    if OnlyLoneGaps(v) {
      EmptiedIsJson(v);
      JsonIsAccepted(Emptied(v));
      SameTextSameSorted(v, Emptied(v));
    }
    if w :| WellFormed(w) && IsJson(w) && Encode(w) == Encode(v) {
      JsonIsAccepted(w);
      SameTextSameSorted(v, w);
      SortedJson(v);
      SortedJson(w);
    }
  }

  lemma {:induction false} JsonIsAccepted(v: Json)
    requires IsJson(v)
    ensures Accepted(v) && OnlyLoneGaps(v)
  {
    match v
    case Array(items) =>
      forall i | 0 <= i < |items| ensures Accepted(items[i]) && OnlyLoneGaps(items[i]) { JsonIsAccepted(items[i]); }
    case Object(fields) =>
      forall i | 0 <= i < |fields|
        ensures Accepted(fields[i].value) && OnlyLoneGaps(fields[i].value)
      {
        JsonIsAccepted(fields[i].value);
      }
    case _ =>
  }

  lemma EncodesOneItem(v: Json)
    requires Encode(v).Ok?
    ensures EncodeItems([v]) == Ok([OrElse(Encode(v).value, [])])
  {
    hide Encode;
    var items, text := [v], OrElse(Encode(v).value, []);
    assert items[1..] == [] && [text] + [] == [text];
  }

  lemma EncodesOneField(key: Str, v: Json)
    requires Encode(v).Ok?
    ensures EncodeFields([Field(key, v)]) == Ok([Field(key, OrElse(Encode(v).value, UNDEFINED_TEXT))])
  {
    hide Encode;
    var fields, text := [Field(key, v)], Field(key, OrElse(Encode(v).value, UNDEFINED_TEXT));
    assert fields[1..] == [] && [text] + [] == [text];
  }

  // An array of one function and an array of one hole have the text of the empty array.
  lemma LoneGapsCollide()
    ensures !IsJson(Array([Silent])) && !IsJson(Array([Hole])) && IsJson(Array([]))
    ensures Encode(Array([Silent])) == Encode(Array([Hole])) == Encode(Array([]))
    ensures Encode(Array([])) == Ok(Some([OPEN_ARRAY, CLOSE_ARRAY]))
  {
    EncodesOneItem(Silent);
    EncodesOneItem(Hole);
    var brackets := [OPEN_ARRAY] + [] + [CLOSE_ARRAY];
    assert EncodeItems([]) == Ok([]) && Join([[]]) == Join([]) == [];
    assert brackets == [OPEN_ARRAY, CLOSE_ARRAY];
    assert !IsJson([Silent][0]) && !IsJson([Hole][0]);
  }

  // A method is printed as the word undefined, which no JSON reader accepts.
  lemma MethodIsPrinted(key: Str)
    ensures Encode(Object([Field(key, Silent)]))
      == Ok(Some([OPEN_OBJECT] + (Quoted(key) + [COLON] + UNDEFINED_TEXT) + [CLOSE_OBJECT]))
    ensures !exists w :: WellFormed(w) && IsJson(w) && Encode(w) == Encode(Object([Field(key, Silent)]))
  {
    hide Quoted;
    var v := Object([Field(key, Silent)]);
    var member := Quoted(key) + [COLON] + UNDEFINED_TEXT;
    var members := [member];
    EncodesOneField(key, Silent);
    var texts := [Field(key, UNDEFINED_TEXT)];
    assert texts[1..] == [] && members[1..] == [];
    assert Sort(texts) == texts;
    assert Members(texts) == members;
    OneDistinctKey(v.fields);
    assert !OnlyLoneGaps(v.fields[0].value);
    SharesTextOfJsonExactly(v);
  }

  lemma OneDistinctKey(fields: seq<Field<Json>>)
    requires |fields| == 1
    ensures DistinctKeys(fields)
  {
    assert fields[1..] == [];
  }
}
