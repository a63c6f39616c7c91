// The reader of getLatestReport results (decodeRegistryReportRecord in
// apps/web/v4/proof-network-preflight.js). It never encodes anything; its offset, padding and length
// checks alone decide.

module RegistryRecord {
  import opened Results
  import opened Text
  import opened Hex
  import opened Utf8
  import opened AbiString
  import Spec = AbiSpec

  // publisher is the address in lower case; the source returns its checksummed spelling.
  datatype Report = Report(
    sourceHash: string, reportHash: string, score: nat, scannerVersion: Unicode, reportURI: Unicode,
    publisher: string, publishedAt: nat)

  const MAX_BYTES := 8192
  const MAX_STRING := 512

  // The registry's answer for a record: a tuple that holds the record as a dynamic tuple.
  function AbiValue(r: Report): Spec.Value {
    Spec.Tuple([Spec.Tuple([
      Spec.Static(Drop0x(r.sourceHash)), Spec.Static(Drop0x(r.reportHash)), Spec.Static(Fixed(r.score, 64)),
      Spec.Bytes(Encode(r.scannerVersion)), Spec.Bytes(Encode(r.reportURI)),
      Spec.Static(Zeros(24) + Drop0x(r.publisher)), Spec.Static(Fixed(r.publishedAt, 64))])])
  }

  function Drop0x(s: string): string {
    if |s| >= 2 then s[2..] else s
  }

  predicate IsAddress(s: string) {
    |s| == 42 && s[0] == '0' && s[1] == 'x' && AllHex(s[2..])
  }

  // The records that a registry can hold and the reader is meant for.
  predicate Valid(r: Report) {
    && IsHash(r.sourceHash) && IsHash(r.reportHash)
    && r.score <= 100
    && |Encode(r.scannerVersion)| <= 512 && |Encode(r.reportURI)| <= 512
    && IsAddress(r.publisher) && !AllZeros(r.publisher[2..])
    && r.publishedAt <= 9_007_199_254_740_991
  }

  // What the reader makes of a record: TextDecoder drops a leading byte order mark of each string.
  function AsRead(r: Report): Report {
    r.(scannerVersion := DropBom(r.scannerVersion), reportURI := DropBom(r.reportURI))
  }

  predicate IsHexData(s: string) {
    |s| >= 2 && s[0] == '0' && s[1] == 'x' && AllHex(s[2..])
  }

  function Word(body: string, i: nat): (w: string)
    requires AllHex(body) && 64 * (i + 1) <= |body|
    ensures AllHex(w) && |w| == 64
  {
    body[64 * i..64 * (i + 1)]
  }

  function DecodeReport(value: string): Outcome<Report> {
    var normalized := Lower(value);
    // (length - 2) / 2 > maxBytes, without rounding
    if !IsHexData(normalized) || |normalized| - 2 > 2 * MAX_BYTES then Fail
    else
      var encoded := normalized[2..];
      if |encoded| < 64 + 7 * 64 || Value(encoded[..64]) != 32 then Fail
      else DecodeBody(encoded[64..])
  }

  function DecodeBody(body: string): Outcome<Report>
    requires AllHex(body) && |body| >= 7 * 64
  {
    var score, scannerOffset, uriOffset := Value(Word(body, 2)), Value(Word(body, 3)), Value(Word(body, 4));
    var publishedAt := Value(Word(body, 6));
    var publisherWord := Word(body, 5);
    if score > 100 || scannerOffset != 224 || publishedAt > MAX_SAFE_INTEGER then Fail
    else if !AllZeros(publisherWord[..24]) || AllZeros(publisherWord[24..]) then Fail
    else
      var scannerVersion := DecodeString(body, scannerOffset, 224, MAX_STRING);
      if scannerVersion.Fail? then Fail
      else if 2 * uriOffset != scannerVersion.value.1 then Fail
      else
        var reportURI := DecodeString(body, uriOffset, 224, MAX_STRING);
        if reportURI.Fail? || reportURI.value.1 != |body| then Fail
        else Ok(Report("0x" + Word(body, 0), "0x" + Word(body, 1), score, scannerVersion.value.0, reportURI.value.0,
                       "0x" + publisherWord[24..], publishedAt))
  }

  // ---- The canonical encoding, unfolded ----

  function Head(r: Report): string
    requires Valid(r)
  {
    HeadOf(r.sourceHash[2..], r.reportHash[2..], Fixed(r.score, 64), Fixed(224, 64),
           Fixed(224 + |Tail(Encode(r.scannerVersion))| / 2, 64),
           Zeros(24) + r.publisher[2..], Fixed(r.publishedAt, 64))
  }

  function HeadOf(w0: string, w1: string, w2: string, w3: string, w4: string, w5: string, w6: string): string {
    w0 + (w1 + (w2 + (w3 + (w4 + (w5 + w6)))))
  }

  function Body(r: Report): string
    requires Valid(r)
  {
    Head(r) + (Tail(Encode(r.scannerVersion)) + Tail(Encode(r.reportURI)))
  }

  // The heads and tails of the last four fields, with their offsets from at on.
  lemma LastFour(b: seq<byte>, c: seq<byte>, w5: string, w6: string)
    requires |w5| == |w6| == 64
    ensures var items := [Spec.Bytes(b)] + ([Spec.Bytes(c)] + ([Spec.Static(w5)] + [Spec.Static(w6)]));
      && Spec.HeadSize(items) == 128
      && Spec.Heads(items, 224) == Fixed(224, 64) + (Fixed(224 + |Tail(b)| / 2, 64) + (w5 + w6))
      && Spec.Tails(items) == Tail(b) + Tail(c)
  {
    hide Fixed, Tail, Spec.Heads, Spec.Tails, Spec.HeadSize, Spec.Enc, Spec.Dynamic;
    TailIsEncoding(b);
    TailIsEncoding(c);
    Spec.BytesAreDynamic(b);
    Spec.BytesAreDynamic(c);
    var at := 224 + |Tail(b)| / 2;
    var after := at + |Tail(c)| / 2;
    var from6 := [Spec.Static(w6)];
    var from5 := [Spec.Static(w5)] + from6;
    var from4 := [Spec.Bytes(c)] + from5;
    assert from6 == [Spec.Static(w6)] + [];
    Spec.NoItems(after);
    Spec.ConsStatic(w6, [], after);
    Spec.ConsStatic(w5, from6, after);
    Spec.ConsDynamic(Spec.Bytes(c), from5, at);
    Spec.ConsDynamic(Spec.Bytes(b), from4, 224);
    assert w6 + "" == w6;
    assert Tail(c) + "" == Tail(c);
  }

  lemma RecordTuple(w0: string, w1: string, w2: string, b: seq<byte>, c: seq<byte>, w5: string, w6: string)
    requires |w0| == |w1| == |w2| == |w5| == |w6| == 64
    ensures Spec.Enc(Spec.Tuple([Spec.Static(w0), Spec.Static(w1), Spec.Static(w2), Spec.Bytes(b), Spec.Bytes(c),
                                 Spec.Static(w5), Spec.Static(w6)]))
         == HeadOf(w0, w1, w2, Fixed(224, 64), Fixed(224 + |Tail(b)| / 2, 64), w5, w6) + (Tail(b) + Tail(c))
  {
    hide Fixed, Tail, Spec.Heads, Spec.Tails, Spec.HeadSize, Spec.Enc, Spec.Dynamic;
    LastFour(b, c, w5, w6);
    var from3 := [Spec.Bytes(b)] + ([Spec.Bytes(c)] + ([Spec.Static(w5)] + [Spec.Static(w6)]));
    var from2 := [Spec.Static(w2)] + from3;
    var from1 := [Spec.Static(w1)] + from2;
    var from0 := [Spec.Static(w0)] + from1;
    Spec.ConsStatic(w2, from3, 224);
    Spec.ConsStatic(w1, from2, 224);
    Spec.ConsStatic(w0, from1, 224);
    Spec.EncTuple(from0, 224);
    assert from0 == [Spec.Static(w0), Spec.Static(w1), Spec.Static(w2), Spec.Bytes(b), Spec.Bytes(c),
                     Spec.Static(w5), Spec.Static(w6)];
  }

  lemma CanonicalIsUnfolded(r: Report)
    requires Valid(r)
    ensures Spec.Enc(AbiValue(r)) == Fixed(32, 64) + Body(r)
  {
    var fields := AbiValue(r).items[0];
    assert Spec.Dynamic(fields) by {
      assert Spec.Dynamic(fields.items[3]);
    }
    hide Fixed, Tail, Spec.Enc, Encode;
    Spec.EncOnlyItem(fields);
    RecordTuple(r.sourceHash[2..], r.reportHash[2..], Fixed(r.score, 64), Encode(r.scannerVersion), Encode(r.reportURI),
                Zeros(24) + r.publisher[2..], Fixed(r.publishedAt, 64));
  }

  // ---- The reader against the canonical encoding ----

  lemma PartsOfHead(w0: string, w1: string, w2: string, w3: string, w4: string, w5: string, w6: string, rest: string)
    requires |w0| == |w1| == |w2| == |w3| == |w4| == |w5| == |w6| == 64
    requires AllHex(w0) && AllHex(w1) && AllHex(w2) && AllHex(w3)
    requires AllHex(w4) && AllHex(w5) && AllHex(w6) && AllHex(rest)
    ensures var body := HeadOf(w0, w1, w2, w3, w4, w5, w6) + rest;
      && AllHex(body) && |body| == 448 + |rest| && body[448..] == rest
      && Word(body, 0) == w0 && Word(body, 1) == w1 && Word(body, 2) == w2 && Word(body, 3) == w3
      && Word(body, 4) == w4 && Word(body, 5) == w5 && Word(body, 6) == w6
  {
  }

  lemma HeadOfParts(body: string)
    requires AllHex(body) && |body| >= 448
    ensures body == HeadOf(Word(body, 0), Word(body, 1), Word(body, 2), Word(body, 3), Word(body, 4), Word(body, 5),
                           Word(body, 6)) + body[448..]
  {
  }

  lemma JoinedSlices(head: string, s: string, t: string)
    ensures (head + (s + t))[|head|..|head| + |s|] == s
    ensures (head + (s + t))[|head| + |s|..|head| + |s| + |t|] == t
  {
  }

  lemma JoinedHex(head: string, s: string, t: string)
    requires AllHex(head) && AllHex(s) && AllHex(t)
    ensures AllHex(head + (s + t))
  {
  }

  // Where the second string starts, in bytes.
  lemma SecondOffset(b: seq<byte>)
    requires |b| <= MAX_STRING
    ensures var at := 224 + |Tail(b)| / 2; 2 * at == 448 + |Tail(b)| && at % 32 == 0 && at <= MAX_SAFE_INTEGER
  {
    hide Tail;
    assert |Tail(b)| == 64 + (|b| + 31) / 32 * 64;
    hide PaddedLength;
    assert |Tail(b)| / 2 == 32 + (|b| + 31) / 32 * 32;
  }

  // The two strings after a head are read one after the other, up to the end.
  lemma TwoTails(body: string, head: string, b: seq<byte>, c: seq<byte>, at: nat)
    requires AllHex(head) && |head| == 448 && body == head + (Tail(b) + Tail(c))
    requires |b| <= MAX_STRING && |c| <= MAX_STRING && Decode(b).Some? && Decode(c).Some?
    requires 2 * at == 448 + |Tail(b)| && at % 32 == 0 && at <= MAX_SAFE_INTEGER
    ensures AllHex(body)
    ensures DecodeString(body, 224, 224, MAX_STRING) == Ok((DropBom(Decode(b).value), 2 * at))
    ensures DecodeString(body, at, 224, MAX_STRING) == Ok((DropBom(Decode(c).value), |body|))
  {
    hide Tail, Decode, DecodeString, PaddedLength, DropBom, AllHex;
    TailsAreHex(body, head, b, c);
    FirstTail(body, head, Tail(c), b);
    SecondOfTwo(body, head, b, c, at);
  }

  lemma TailsAreHex(body: string, head: string, b: seq<byte>, c: seq<byte>)
    requires AllHex(head) && body == head + (Tail(b) + Tail(c))
    ensures AllHex(body)
  {
    hide Tail, PaddedLength, AllHex;
    JoinedHex(head, Tail(b), Tail(c));
  }

  lemma SecondOfTwo(body: string, head: string, b: seq<byte>, c: seq<byte>, at: nat)
    requires AllHex(body) && |head| == 448 && body == head + (Tail(b) + Tail(c))
    requires |c| <= MAX_STRING && Decode(c).Some?
    requires 2 * at == 448 + |Tail(b)| && at % 32 == 0 && at <= MAX_SAFE_INTEGER
    ensures DecodeString(body, at, 224, MAX_STRING) == Ok((DropBom(Decode(c).value), |body|))
  {
    hide Tail, Decode, DecodeString, PaddedLength, DropBom, AllHex;
    Regrouped(head, Tail(b), Tail(c));
    SecondTail(body, head + Tail(b), c, at);
  }

  lemma Regrouped(head: string, s: string, t: string)
    ensures head + (s + t) == (head + s) + t
  {}

  lemma FirstTail(body: string, head: string, rest: string, b: seq<byte>)
    requires AllHex(body) && |head| == 448 && body == head + (Tail(b) + rest)
    requires |b| <= MAX_STRING && Decode(b).Some?
    ensures DecodeString(body, 224, 224, MAX_STRING) == Ok((DropBom(Decode(b).value), 448 + |Tail(b)|))
  {
    hide Tail, Decode, DecodeString, PaddedLength, DropBom, AllHex;
    JoinedSlices(head, Tail(b), rest);
    DecodeOfTail(body, 224, 224, MAX_STRING, b);
  }

  lemma LastSlice(before: string, t: string)
    ensures (before + t)[|before|..|before| + |t|] == t
  {}

  lemma SecondTail(body: string, before: string, c: seq<byte>, at: nat)
    requires AllHex(body) && body == before + Tail(c) && |before| == 2 * at
    requires |c| <= MAX_STRING && Decode(c).Some? && at % 32 == 0 && 224 <= at <= MAX_SAFE_INTEGER
    ensures DecodeString(body, at, 224, MAX_STRING) == Ok((DropBom(Decode(c).value), |body|))
  {
    hide Tail, Decode, DecodeString, PaddedLength, DropBom, AllHex;
    LastSlice(before, Tail(c));
    var start, tail := 2 * at, Tail(c);
    assert |body| == start + |tail| && body[start..start + |tail|] == tail;
    DecodeOfTail(body, at, 224, MAX_STRING, c);
  }

  // The scalar words of a canonical body.
  lemma WordsOfBody(r: Report, body: string, at: nat)
    requires Valid(r) && body == Body(r) && at == 224 + |Tail(Encode(r.scannerVersion))| / 2 <= MAX_SAFE_INTEGER
    ensures AllHex(body) && |body| >= 448 && AllHex(Head(r)) && |Head(r)| == 448
    ensures Word(body, 0) == r.sourceHash[2..] && Word(body, 1) == r.reportHash[2..]
    ensures Value(Word(body, 2)) == r.score && Value(Word(body, 3)) == 224 && Value(Word(body, 4)) == at
    ensures Word(body, 5) == Zeros(24) + r.publisher[2..] && Value(Word(body, 6)) == r.publishedAt
  {
    hide Fixed, Tail, Encode, Value, Pow16, HeadOf, Word;
    SmallFits(r.score);
    SmallFits(r.publishedAt);
    SmallFits(224);
    SmallFits(at);
    ValueOfFixed(r.score, 64);
    ValueOfFixed(r.publishedAt, 64);
    ValueOfFixed(224, 64);
    ValueOfFixed(at, 64);
    var rest := Tail(Encode(r.scannerVersion)) + Tail(Encode(r.reportURI));
    PartsOfHead(r.sourceHash[2..], r.reportHash[2..], Fixed(r.score, 64), Fixed(224, 64), Fixed(at, 64),
                Zeros(24) + r.publisher[2..], Fixed(r.publishedAt, 64), rest);
    PartsOfHead(r.sourceHash[2..], r.reportHash[2..], Fixed(r.score, 64), Fixed(224, 64), Fixed(at, 64),
                Zeros(24) + r.publisher[2..], Fixed(r.publishedAt, 64), "");
    assert Head(r) + "" == Head(r);
  }

  lemma StripWord(s: string)
    requires AllHex(s)
    ensures (Zeros(24) + s)[..24] == Zeros(24) && (Zeros(24) + s)[24..] == s
  {
  }

  // Every canonical body is accepted, as the record it encodes.
  lemma DecodeOfBody(r: Report)
    requires Valid(r)
    ensures AllHex(Body(r)) && |Body(r)| >= 448 && DecodeBody(Body(r)) == Ok(AsRead(r))
  {
    hide Fixed, Tail, Encode, Decode, DecodeString, PaddedLength, DropBom, Value, Pow16, HeadOf, Head, Word;
    var version, uri := Encode(r.scannerVersion), Encode(r.reportURI);
    DecodeOfEncode(r.scannerVersion);
    DecodeOfEncode(r.reportURI);
    SecondOffset(version);
    WordsOfBody(r, Body(r), 224 + |Tail(version)| / 2);
    StripWord(r.publisher[2..]);
    TwoTails(Body(r), Head(r), version, uri, 224 + |Tail(version)| / 2);
    assert r.sourceHash == "0x" + r.sourceHash[2..];
    assert r.reportHash == "0x" + r.reportHash[2..];
    assert r.publisher == "0x" + r.publisher[2..];
  }

  // The record whose encoding an accepted body is, byte order marks included.
  function Written(body: string): Outcome<Report>
    requires AllHex(body) && |body| >= 448
  {
    var uriOffset := Value(Word(body, 4));
    if DecodeBody(body).Fail? then Fail
    else
      TailOfDecode(body, 224, 224, MAX_STRING);
      TailOfDecode(body, uriOffset, 224, MAX_STRING);
      Ok(DecodeBody(body).value.(
        scannerVersion := Decode(RawBytes(body, 224)).value,
        reportURI := Decode(RawBytes(body, uriOffset)).value))
  }

  lemma WrittenIsValid(body: string)
    requires AllHex(body) && |body| >= 448 && DecodeBody(body).Ok?
    ensures Valid(Written(body).value) && DecodeBody(body) == Ok(AsRead(Written(body).value))
  {
    hide Value, Decode, Encode, DecodeString, RawBytes, PaddedLength, Tail, DropBom;
    var uriOffset := Value(Word(body, 4));
    TailOfDecode(body, 224, 224, MAX_STRING);
    TailOfDecode(body, uriOffset, 224, MAX_STRING);
    EncodeOfDecode(RawBytes(body, 224));
    EncodeOfDecode(RawBytes(body, uriOffset));
    var r := DecodeBody(body).value;
    assert r.sourceHash[2..] == Word(body, 0) && r.reportHash[2..] == Word(body, 1)
      && r.publisher[2..] == Word(body, 5)[24..];
  }

  // Two strings that lie one after the other make up the rest of the body.
  lemma SlicesJoin(body: string, from: nat, mid: nat)
    requires from <= mid <= |body|
    ensures body[from..] == body[from..mid] + body[mid..|body|]
  {
  }

  // What the checks say about the parts of an accepted body.
  lemma PartsOfAccepted(body: string, r: Report)
    requires AllHex(body) && |body| >= 448 && DecodeBody(body).Ok? && r == Written(body).value
    ensures Valid(r)
    ensures r.sourceHash[2..] == Word(body, 0) && r.reportHash[2..] == Word(body, 1)
    ensures Fixed(r.score, 64) == Word(body, 2) && Fixed(224, 64) == Word(body, 3)
    ensures Fixed(Value(Word(body, 4)), 64) == Word(body, 4)
    ensures 2 * Value(Word(body, 4)) == 448 + |Tail(Encode(r.scannerVersion))|
    ensures Zeros(24) + r.publisher[2..] == Word(body, 5) && Fixed(r.publishedAt, 64) == Word(body, 6)
    ensures body[448..] == Tail(Encode(r.scannerVersion)) + Tail(Encode(r.reportURI))
  {
    WrittenIsValid(body);
    hide Value, Decode, Encode, DecodeString, RawBytes, PaddedLength, Tail, DropBom, Fixed, Word, AllZeros;
    var uriOffset := Value(Word(body, 4));
    TailOfDecode(body, 224, 224, MAX_STRING);
    TailOfDecode(body, uriOffset, 224, MAX_STRING);
    EncodeOfDecode(RawBytes(body, 224));
    EncodeOfDecode(RawBytes(body, uriOffset));
    SlicesJoin(body, 448, 2 * uriOffset);
    FixedOfValue(Word(body, 2));
    FixedOfValue(Word(body, 3));
    FixedOfValue(Word(body, 4));
    FixedOfValue(Word(body, 6));
    ZeroPrefix(Word(body, 5));
  }

  lemma ZeroPrefix(word: string)
    requires |word| == 64 && AllZeros(word[..24])
    ensures word == Zeros(24) + word[24..]
  {
    assert word == word[..24] + word[24..];
    assert word[..24] == Zeros(24);
  }

  // Every accepted body is canonical: the checks leave no freedom.
  lemma BodyOfDecode(body: string)
    requires AllHex(body) && |body| >= 448 && DecodeBody(body).Ok?
    ensures Valid(Written(body).value) && Body(Written(body).value) == body
  {
    BodyOfParts(body, Written(body).value);
  }

  lemma BodyOfParts(body: string, r: Report)
    requires AllHex(body) && |body| >= 448 && DecodeBody(body).Ok? && r == Written(body).value
    ensures Valid(r) && Body(r) == body
  {
    hide Value, Encode, Tail, Fixed, HeadOf, Word, Written, DecodeBody, Zeros, Valid;
    PartsOfAccepted(body, r);
    HeadOfParts(body);
    assert (448 + |Tail(Encode(r.scannerVersion))|) / 2 == 224 + |Tail(Encode(r.scannerVersion))| / 2;
  }

  // ---- Main results ----

  // The reader accepts exactly the canonical ABI encodings of valid records (in either letter case),
  // and returns the encoded record without byte order marks.
  lemma AcceptsExactlyCanonicalEncodings(value: string, q: Report)
    ensures DecodeReport(value) == Ok(q) <==>
      exists r :: Valid(r) && Lower(value) == "0x" + Spec.Enc(AbiValue(r)) && q == AsRead(r)
  {
    hide Value, Decode, Encode, DecodeString, Body, Fixed, Tail, DropBom, Pow16;
    if DecodeReport(value) == Ok(q) {
      var encoded := Lower(value)[2..];
      var body := encoded[64..];
      assert AllHex(encoded) && AllHex(encoded[..64]) && AllHex(body);
      BodyOfDecode(body);
      WrittenIsValid(body);
      CanonicalIsUnfolded(Written(body).value);
      FixedOfValue(encoded[..64]);
      assert encoded == encoded[..64] + body;
      assert Lower(value) == "0x" + encoded;
    }
    forall r | Valid(r) && Lower(value) == "0x" + Spec.Enc(AbiValue(r)) ensures DecodeReport(value) == Ok(AsRead(r)) {
      CanonicalIsRead(value, r);
    }
  }

  lemma CanonicalIsRead(value: string, r: Report)
    requires Valid(r) && Lower(value) == "0x" + Spec.Enc(AbiValue(r))
    ensures DecodeReport(value) == Ok(AsRead(r))
  {
    hide Value, Body, Fixed, Pow16, DecodeBody, AsRead, Valid, Spec.Enc, AbiValue, Lower;
    CanonicalIsUnfolded(r);
    BodyIsShort(r);
    DecodeOfBody(r);
    SmallFits(32);
    ValueOfFixed(32, 64);
    var encoded := Lower(value)[2..];
    assert encoded == Fixed(32, 64) + Body(r);
    assert encoded[..64] == Fixed(32, 64) && encoded[64..] == Body(r);
  }

  lemma BodyIsShort(r: Report)
    requires Valid(r)
    ensures |Body(r)| <= 2 * MAX_BYTES - 64
  {
    hide Tail, Fixed, Encode, Zeros;
  }

  // Different records have different encodings, so the record is determined by the bytes.
  lemma CanonicalIsInjective(r: Report, t: Report)
    requires Valid(r) && Valid(t) && Spec.Enc(AbiValue(r)) == Spec.Enc(AbiValue(t))
    ensures r == t
  {
    CanonicalIsUnfolded(r);
    CanonicalIsUnfolded(t);
    DecodeOfBody(r);
    DecodeOfBody(t);
    hide Value, Decode, Encode, DecodeString, Fixed, DropBom, Pow16, Body, Tail;
    assert Body(r) == (Fixed(32, 64) + Body(r))[64..];
    assert Body(t) == (Fixed(32, 64) + Body(t))[64..];
    StringsOfEqualBodies(r, t);
    EncodeIsInjective(r.scannerVersion, t.scannerVersion);
    EncodeIsInjective(r.reportURI, t.reportURI);
  }

  lemma StringsOfEqualBodies(r: Report, t: Report)
    requires Valid(r) && Valid(t) && Body(r) == Body(t)
    ensures Encode(r.scannerVersion) == Encode(t.scannerVersion) && Encode(r.reportURI) == Encode(t.reportURI)
  {
    SmallFits(MAX_STRING);
    var b, c, d, e := Encode(r.scannerVersion), Encode(r.reportURI), Encode(t.scannerVersion), Encode(t.reportURI);
    SecondOffset(b);
    SecondOffset(d);
    WordsOfBody(r, Body(r), 224 + |Tail(b)| / 2);
    WordsOfBody(t, Body(t), 224 + |Tail(d)| / 2);
    hide Value, Encode, Tail, Head, Word, Pow16, PaddedLength;
    assert Body(r)[448..] == Tail(b) + Tail(c);
    assert Body(t)[448..] == Tail(d) + Tail(e);
    TailIsPrefixFree(b, Tail(c), d, Tail(e));
    assert Tail(c) + "" == Tail(e) + "";
    TailIsPrefixFree(c, "", e, "");
  }

  // What is returned encodes back to the input exactly when no string starts with a byte order mark.
  lemma ReadsBackExactlyWithoutBom(r: Report)
    requires Valid(r)
    ensures Spec.Enc(AbiValue(AsRead(r))) == Spec.Enc(AbiValue(r)) <==>
      && DropBom(r.scannerVersion) == r.scannerVersion
      && DropBom(r.reportURI) == r.reportURI
  {
    hide Encode;
    if r.scannerVersion != [] && r.scannerVersion[0] == BOM {
      BomIsThreeBytes(r.scannerVersion);
    }
    if r.reportURI != [] && r.reportURI[0] == BOM {
      BomIsThreeBytes(r.reportURI);
    }
    if Spec.Enc(AbiValue(AsRead(r))) == Spec.Enc(AbiValue(r)) {
      CanonicalIsInjective(AsRead(r), r);
    }
  }
}
