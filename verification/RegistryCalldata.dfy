// The publishReport calldata codec (packages/proof/src/registry.js): the encoder, and the decoder that
// reads the fields and then encodes them again to check itself.

module RegistryCalldata {
  import opened Results
  import opened Text
  import opened Hex
  import opened Utf8
  import opened AbiString
  import Spec = AbiSpec

  // score is what Number(score) gives; values that are not integers are not part of the type.
  datatype Payload = Payload(
    projectId: string, sourceHash: string, reportHash: string, score: int, scannerVersion: Unicode, reportURI: Unicode)

  // What functionSelector yields for publishReport(bytes32,bytes32,bytes32,uint16,string,string), taken as given.
  const SELECTOR := "0x6133eb3a"
  const MAX_STRING := 4096

  function TrimStart(t: Unicode): Unicode {
    if t != [] && IsSpace(t[0]) then TrimStart(t[1..]) else t
  }

  function TrimEnd(t: Unicode): Unicode {
    if t != [] && IsSpace(t[|t| - 1]) then TrimEnd(t[..|t| - 1]) else t
  }

  function Trim(t: Unicode): Unicode {
    TrimEnd(TrimStart(t))
  }

  function StripHexPrefix(s: string): string {
    if |s| >= 2 && s[0] == '0' && (s[1] == 'x' || s[1] == 'X') then s[2..] else s
  }

  function RequireBytes32(s: string): (r: Outcome<string>)
    ensures r.Ok? ==> |r.value| == 64 && AllHex(r.value)
  {
    var hex := Lower(StripHexPrefix(s));
    if |hex| == 64 && AllHex(hex) then Ok(hex) else Fail
  }

  // Sixty-four digits in any case, with or without a prefix.
  ghost predicate SpellsBytes32(s: string, digits: string) {
    && |digits| == 64 && (s == digits || s == "0x" + digits || s == "0X" + digits)
    && forall c <- digits :: IsHexDigit(c) || 'A' <= c <= 'F'
  }

  // These and no others are accepted, and their digits are written in lower case.
  lemma Bytes32Exactly(s: string)
    ensures RequireBytes32(s).Ok? <==> exists digits :: SpellsBytes32(s, digits)
    ensures forall digits :: SpellsBytes32(s, digits) ==> RequireBytes32(s) == Ok(Lower(digits))
  {
    if RequireBytes32(s).Ok? {
      var digits := StripHexPrefix(s);
      forall i | 0 <= i < 64
        ensures IsHexDigit(digits[i]) || 'A' <= digits[i] <= 'F'
      {
        assert IsHexDigit(Lower(digits)[i]);
      }
      assert |s| > 64 ==> s[..2] == "0x" || s[..2] == "0X";
      assert |s| > 64 ==> s == s[..2] + digits;
      assert SpellsBytes32(s, digits);
    }
    forall digits | SpellsBytes32(s, digits)
      ensures RequireBytes32(s) == Ok(Lower(digits))
    {
      assert digits[1] in digits;
      assert StripHexPrefix(s) == digits;
      assert forall i | 0 <= i < 64 :: digits[i] in digits;
    }
  }

  // Trimming removes all white space at both ends and nothing else.
  lemma TrimsExactly(t: Unicode) returns (before: Unicode, after: Unicode)
    ensures t == before + Trim(t) + after
    ensures (forall c <- before :: IsSpace(c)) && (forall c <- after :: IsSpace(c))
    ensures Trim(t) != [] ==> !IsSpace(Trim(t)[0]) && !IsSpace(Trim(t)[|Trim(t)| - 1])
  {
    hide IsSpace;
    before := StartTrimmed(t);
    after := EndTrimmed(TrimStart(t));
  }

  lemma {:induction false} StartTrimmed(t: Unicode) returns (before: Unicode)
    ensures t == before + TrimStart(t) && forall c <- before :: IsSpace(c)
    ensures TrimStart(t) != [] ==> !IsSpace(TrimStart(t)[0])
  {
    hide IsSpace;
    if t != [] && IsSpace(t[0]) {
      before := StartTrimmed(t[1..]);
      before := [t[0]] + before;
    } else {
      before := [];
    }
  }

  lemma {:induction false} EndTrimmed(t: Unicode) returns (after: Unicode)
    ensures t == TrimEnd(t) + after && forall c <- after :: IsSpace(c)
    ensures TrimEnd(t) != [] ==> !IsSpace(TrimEnd(t)[|TrimEnd(t)| - 1])
  {
    hide IsSpace;
    if t != [] && IsSpace(t[|t| - 1]) {
      after := EndTrimmed(t[..|t| - 1]);
      after := after + [t[|t| - 1]];
    } else {
      after := [];
    }
  }

  function PadWord(hex: string): Outcome<string> {
    if |hex| > 64 then Fail else Ok(PadStart(hex, 64))
  }

  function EncodeDynamicString(t: Unicode): Outcome<string> {
    var body := BytesHex(Encode(t));
    var length := PadWord(Digits(|body| / 2));
    if length.Fail? then Fail else Ok(length.value + Spec.PadRight(body))
  }

  function EncodePublishReport(p: Payload): Outcome<string> {
    var version := Trim(p.scannerVersion);
    if p.score < 0 || p.score > 100 || version == [] then Fail
    else
      var versionTail, uriTail := EncodeDynamicString(version), EncodeDynamicString(p.reportURI);
      var projectId, sourceHash, reportHash :=
        RequireBytes32(p.projectId), RequireBytes32(p.sourceHash), RequireBytes32(p.reportHash);
      if versionTail.Fail? || uriTail.Fail? || projectId.Fail? || sourceHash.Fail? || reportHash.Fail? then Fail
      else
        var versionOffset := 6 * 32;
        var score, first := PadWord(Digits(p.score)), PadWord(Digits(versionOffset));
        var second := PadWord(Digits(versionOffset + |versionTail.value| / 2));
        if score.Fail? || first.Fail? || second.Fail? then Fail
        else
          Ok(SELECTOR + (Head(projectId.value, sourceHash.value, reportHash.value,
                              score.value, first.value, second.value)
                         + (versionTail.value + uriTail.value)))
  }

  function Head(w0: string, w1: string, w2: string, w3: string, w4: string, w5: string): string {
    w0 + (w1 + (w2 + (w3 + (w4 + w5))))
  }

  function Word(body: string, i: nat): (w: string)
    requires AllHex(body) && 64 * (i + 1) <= |body|
    ensures AllHex(w) && |w| == 64
  {
    body[64 * i..64 * (i + 1)]
  }

  predicate IsPublishData(data: string) {
    && |data| >= 3 && data[0] == '0' && data[1] == 'x' && AllHex(data[2..])
    && |data| % 2 == 0
    && SELECTOR <= data
  }

  function DecodePublishReport(value: string): Outcome<Payload> {
    var data := Lower(value);
    if !IsPublishData(data) then Fail
    else
      var body := data[|SELECTOR|..];
      if |body| < 64 * 6 then Fail
      else
        BodyIsHex(data);
        var payload := ReadFields(body);
        if payload.Fail? then Fail
        else
          var again := EncodePublishReport(payload.value);
          if again.Ok? && Lower(again.value) == data then payload else Fail
  }

  lemma BodyIsHex(data: string)
    requires IsPublishData(data)
    ensures AllHex(data[|SELECTOR|..])
  {
    assert forall i | 10 <= i < |data| :: data[i] == data[2..][i - 2];
  }

  function ReadFields(body: string): Outcome<Payload>
    requires AllHex(body) && |body| >= 64 * 6
  {
    var score := Value(Word(body, 3));
    if score > 100 then Fail
    else
      var scannerVersion := DecodeString(body, Value(Word(body, 4)), 192, MAX_STRING);
      var reportURI := DecodeString(body, Value(Word(body, 5)), 192, MAX_STRING);
      if scannerVersion.Fail? || reportURI.Fail? then Fail
      else Ok(Payload("0x" + Word(body, 0), "0x" + Word(body, 1), "0x" + Word(body, 2), score,
                      scannerVersion.value.0, reportURI.value.0))
  }

  // ---- The encoder in closed form ----

  // The payload that the calldata carries: hashes in lower case with their prefix, version trimmed.
  function Normalize(p: Payload): Payload {
    p.(projectId := "0x" + Lower(StripHexPrefix(p.projectId)),
       sourceHash := "0x" + Lower(StripHexPrefix(p.sourceHash)),
       reportHash := "0x" + Lower(StripHexPrefix(p.reportHash)),
       scannerVersion := Trim(p.scannerVersion))
  }

  // What the encoder demands. The length limits are beyond every JavaScript string.
  predicate Encodable(p: Payload) {
    && RequireBytes32(p.projectId).Ok? && RequireBytes32(p.sourceHash).Ok? && RequireBytes32(p.reportHash).Ok?
    && 0 <= p.score <= 100 && Trim(p.scannerVersion) != []
    && |Encode(Trim(p.scannerVersion))| < Pow16(64) && |Encode(p.reportURI)| < Pow16(64)
    && 192 + |Tail(Encode(Trim(p.scannerVersion)))| / 2 < Pow16(64)
  }

  function Body(p: Payload): string
    requires Encodable(p)
  {
    var b := Encode(Trim(p.scannerVersion));
    Head(RequireBytes32(p.projectId).value, RequireBytes32(p.sourceHash).value, RequireBytes32(p.reportHash).value,
         Fixed(p.score, 64), Fixed(192, 64), Fixed(192 + |Tail(b)| / 2, 64))
    + (Tail(b) + Tail(Encode(p.reportURI)))
  }

  lemma PadWordOfDigits(n: nat)
    ensures PadWord(Digits(n)) == if n < Pow16(64) then Ok(Fixed(n, 64)) else Fail
  {
    hide Pow16, Digits, Fixed;
    if n < Pow16(64) {
      PaddedDigits(n, 64);
    } else {
      LongDigits(n, 64);
    }
  }

  lemma DynamicStringIsTail(t: Unicode)
    ensures EncodeDynamicString(t) == if |Encode(t)| < Pow16(64) then Ok(Tail(Encode(t))) else Fail
  {
    hide Pow16, Digits, Fixed, BytesHex, Encode, PadWord;
    PadWordOfDigits(|Encode(t)|);
  }

  lemma EncodedIsBody(p: Payload)
    ensures EncodePublishReport(p) == if Encodable(p) then Ok(SELECTOR + Body(p)) else Fail
  {
    hide Pow16, Digits, Fixed, Encode, PadWord, EncodeDynamicString, RequireBytes32, Tail, Trim;
    DynamicStringIsTail(Trim(p.scannerVersion));
    DynamicStringIsTail(p.reportURI);
    SmallFits(192);
    PadWordOfDigits(192);
    PadWordOfDigits(192 + |Tail(Encode(Trim(p.scannerVersion)))| / 2);
    if 0 <= p.score <= 100 {
      SmallFits(p.score);
      PadWordOfDigits(p.score);
    }
  }

  // The argument tuple of publishReport(bytes32,bytes32,bytes32,uint16,string,string).
  function AbiValue(p: Payload): Spec.Value
    requires Encodable(p)
  {
    Spec.Tuple([
      Spec.Static(RequireBytes32(p.projectId).value), Spec.Static(RequireBytes32(p.sourceHash).value),
      Spec.Static(RequireBytes32(p.reportHash).value), Spec.Static(Fixed(p.score, 64)),
      Spec.Bytes(Encode(Trim(p.scannerVersion))), Spec.Bytes(Encode(p.reportURI))])
  }

  lemma TwoStrings(b: seq<byte>, c: seq<byte>)
    ensures var items := [Spec.Bytes(b)] + [Spec.Bytes(c)];
      && Spec.HeadSize(items) == 64
      && Spec.Heads(items, 192) == Fixed(192, 64) + Fixed(192 + |Tail(b)| / 2, 64)
      && Spec.Tails(items) == Tail(b) + Tail(c)
  {
    hide Fixed, Tail, Spec.Heads, Spec.Tails, Spec.HeadSize, Spec.Enc, Spec.Dynamic, PaddedLength, Pow16;
    Spec.BytesAreDynamic(b);
    Spec.BytesAreDynamic(c);
    TailIsEncoding(b);
    TailIsEncoding(c);
    var at := 192 + |Tail(b)| / 2;
    Spec.NoItems(at + |Tail(c)| / 2);
    assert [Spec.Bytes(c)] == [Spec.Bytes(c)] + [];
    Spec.ConsDynamic(Spec.Bytes(c), [], at);
    Spec.ConsDynamic(Spec.Bytes(b), [Spec.Bytes(c)], 192);
    assert Fixed(at, 64) + "" == Fixed(at, 64);
    assert Tail(c) + "" == Tail(c);
  }

  lemma ArgumentTuple(w0: string, w1: string, w2: string, w3: string, b: seq<byte>, c: seq<byte>)
    requires |w0| == |w1| == |w2| == |w3| == 64
    ensures Spec.Enc(Spec.Tuple([Spec.Static(w0), Spec.Static(w1), Spec.Static(w2), Spec.Static(w3), Spec.Bytes(b),
                                 Spec.Bytes(c)]))
         == Head(w0, w1, w2, w3, Fixed(192, 64), Fixed(192 + |Tail(b)| / 2, 64)) + (Tail(b) + Tail(c))
  {
    hide Fixed, Tail, Spec.Heads, Spec.Tails, Spec.HeadSize, Spec.Enc, Spec.Dynamic;
    TwoStrings(b, c);
    var from4 := [Spec.Bytes(b)] + [Spec.Bytes(c)];
    var from3 := [Spec.Static(w3)] + from4;
    var from2 := [Spec.Static(w2)] + from3;
    var from1 := [Spec.Static(w1)] + from2;
    var from0 := [Spec.Static(w0)] + from1;
    Spec.ConsStatic(w3, from4, 192);
    Spec.ConsStatic(w2, from3, 192);
    Spec.ConsStatic(w1, from2, 192);
    Spec.ConsStatic(w0, from1, 192);
    Spec.EncTuple(from0, 192);
    assert from0 == [Spec.Static(w0), Spec.Static(w1), Spec.Static(w2), Spec.Static(w3), Spec.Bytes(b), Spec.Bytes(c)];
  }

  // The encoder writes the selector and the ABI encoding of the arguments, and fails on nothing else
  // than an unencodable payload.
  lemma EncoderFollowsAbi(p: Payload)
    ensures EncodePublishReport(p) == if Encodable(p) then Ok(SELECTOR + Spec.Enc(AbiValue(p))) else Fail
  {
    hide Encodable, Spec.Enc, Tail, Fixed, Pow16;
    EncodedIsBody(p);
    if Encodable(p) {
      BodyIsAbi(p);
    }
  }

  lemma BodyIsAbi(p: Payload)
    requires Encodable(p)
    ensures Spec.Enc(AbiValue(p)) == Body(p)
  {
    hide Pow16, Fixed, Tail, Spec.Enc, Encode, RequireBytes32, Trim;
    ArgumentTuple(RequireBytes32(p.projectId).value,
                  RequireBytes32(p.sourceHash).value, RequireBytes32(p.reportHash).value,
                  Fixed(p.score, 64), Encode(Trim(p.scannerVersion)), Encode(p.reportURI));
  }

  // ---- Reading an encoded body ----

  lemma PartsOfHead(w0: string, w1: string, w2: string, w3: string, w4: string, w5: string, rest: string)
    requires |w0| == |w1| == |w2| == |w3| == |w4| == |w5| == 64
    requires AllHex(w0) && AllHex(w1) && AllHex(w2) && AllHex(w3) && AllHex(w4) && AllHex(w5) && AllHex(rest)
    ensures var body := Head(w0, w1, w2, w3, w4, w5) + rest;
      && AllHex(body) && |body| == 384 + |rest| && body[384..] == rest
      && Word(body, 0) == w0 && Word(body, 1) == w1 && Word(body, 2) == w2
      && Word(body, 3) == w3 && Word(body, 4) == w4 && Word(body, 5) == w5
  {
  }

  lemma WordsOfBody(p: Payload, body: string, at: nat)
    requires Encodable(p) && body == Body(p) && at == 192 + |Tail(Encode(Trim(p.scannerVersion)))| / 2
    ensures AllHex(body) && |body| >= 384
    ensures body[384..] == Tail(Encode(Trim(p.scannerVersion))) + Tail(Encode(p.reportURI))
    ensures Word(body, 0) == RequireBytes32(p.projectId).value && Word(body, 1) == RequireBytes32(p.sourceHash).value
    ensures Word(body, 2) == RequireBytes32(p.reportHash).value
    ensures Value(Word(body, 3)) == p.score && Value(Word(body, 4)) == 192 && Value(Word(body, 5)) == at
  {
    hide Fixed, Tail, Encode, Value, Pow16, Head, Word, RequireBytes32, Trim;
    SmallFits(192);
    SmallFits(p.score);
    ValueOfFixed(p.score, 64);
    ValueOfFixed(192, 64);
    ValueOfFixed(at, 64);
    PartsOfHead(RequireBytes32(p.projectId).value,
                RequireBytes32(p.sourceHash).value, RequireBytes32(p.reportHash).value,
                Fixed(p.score, 64), Fixed(192, 64), Fixed(at, 64),
                Tail(Encode(Trim(p.scannerVersion))) + Tail(Encode(p.reportURI)));
  }

  lemma SecondOffset(b: seq<byte>)
    ensures var at := 192 + |Tail(b)| / 2; 2 * at == 384 + |Tail(b)| && at % 32 == 0
    ensures |b| <= MAX_STRING ==> 192 + |Tail(b)| / 2 <= MAX_SAFE_INTEGER
  {
    assert |Tail(b)| == 64 + (|b| + 31) / 32 * 64;
    hide Tail, PaddedLength;
    OffsetArithmetic(|b|, (|b| + 31) / 32, |Tail(b)|);
  }

  lemma OffsetArithmetic(n: nat, words: nat, tail: nat)
    requires words == (n + 31) / 32 && tail == 64 + words * 64
    ensures var at := 192 + tail / 2; 2 * at == 384 + tail && at % 32 == 0
    ensures n <= MAX_STRING ==> 192 + tail / 2 <= MAX_SAFE_INTEGER
  {
    assert tail / 2 == 32 + 32 * words;
    assert 192 + tail / 2 == 32 * (7 + words);
  }

  // A length word beyond the limit is refused.
  lemma LongIsRefused(body: string, offset: nat, minOffset: nat, maxLength: nat, b: seq<byte>)
    requires AllHex(body) && maxLength < |b| < Pow16(64)
    requires 2 * offset + |Tail(b)| <= |body| && body[2 * offset..2 * offset + |Tail(b)|] == Tail(b)
    ensures DecodeString(body, offset, minOffset, maxLength).Fail?
  {
    hide Fixed, BytesHex, HexBytes, Value, Pow16, Decode, Tail, PaddedLength;
    PartsOfTail(b);
    ValueOfFixed(|b|, 64);
    PartsOfSlice(body, 2 * offset, 2 * offset + |Tail(b)|, 0, 64);
  }

  // A string of the body is read, without its byte order mark, exactly when it is short enough.
  lemma StringIsRead(body: string, at: nat, t: Unicode)
    requires AllHex(body) && 192 <= at && at % 32 == 0 && |Encode(t)| < Pow16(64)
    requires |Encode(t)| <= MAX_STRING ==> at <= MAX_SAFE_INTEGER
    requires 2 * at + |Tail(Encode(t))| <= |body| && body[2 * at..2 * at + |Tail(Encode(t))|] == Tail(Encode(t))
    ensures var s := DecodeString(body, at, 192, MAX_STRING);
      if |Encode(t)| <= MAX_STRING then s.Ok? && s.value.0 == DropBom(t) else s.Fail?
  {
    hide Tail, DecodeString, Decode, Encode, Pow16, DropBom;
    if |Encode(t)| <= MAX_STRING {
      DecodeOfEncode(t);
      DecodeOfTail(body, at, 192, MAX_STRING, Encode(t));
    } else {
      LongIsRefused(body, at, 192, MAX_STRING, Encode(t));
    }
  }

  lemma JoinedSlices(body: string, s: string, t: string)
    requires |body| >= 384 && body[384..] == s + t
    ensures 384 + |s| + |t| == |body|
    ensures body[384..384 + |s|] == s
    ensures body[384 + |s|..384 + |s| + |t|] == t
  {
    PartsOfSlice(body, 384, |body|, 0, |s|);
    PartsOfSlice(body, 384, |body|, |s|, |s| + |t|);
    assert body[384..|body|] == body[384..];
  }

  predicate Short(p: Payload) {
    |Encode(Trim(p.scannerVersion))| <= 4096 && |Encode(p.reportURI)| <= 4096
  }

  lemma FieldsOfBody(p: Payload, body: string)
    requires Encodable(p) && body == Body(p)
    ensures AllHex(body) && |body| >= 384
    ensures ReadFields(body) ==
      if !Short(p) then Fail
      else Ok(Normalize(p).(scannerVersion := DropBom(Trim(p.scannerVersion)), reportURI := DropBom(p.reportURI)))
  {
    hide Tail, DecodeString, Encode, Pow16, DropBom, Value, Word, Body, Trim;
    var version := Trim(p.scannerVersion);
    var at := 192 + |Tail(Encode(version))| / 2;
    WordsOfBody(p, body, at);
    SecondOffset(Encode(version));
    JoinedSlices(body, Tail(Encode(version)), Tail(Encode(p.reportURI)));
    StringIsRead(body, 192, version);
    if |Encode(version)| <= MAX_STRING {
      StringIsRead(body, at, p.reportURI);
    }
  }

  // ---- Normalization ----

  lemma {:induction false} TrimStartIsTrimmed(t: Unicode)
    ensures var u := TrimStart(t); u != [] ==> !IsSpace(u[0])
  {
    if t != [] && IsSpace(t[0]) {
      TrimStartIsTrimmed(t[1..]);
    }
  }

  lemma {:induction false} TrimEndIsTrimmed(t: Unicode)
    ensures var u := TrimEnd(t); u <= t && (u != [] ==> !IsSpace(u[|u| - 1]))
  {
    if t != [] && IsSpace(t[|t| - 1]) {
      TrimEndIsTrimmed(t[..|t| - 1]);
    }
  }

  // A trimmed text does not change again, and has no byte order mark, which is white space.
  lemma TrimIsIdempotent(t: Unicode)
    ensures Trim(Trim(t)) == Trim(t) && DropBom(Trim(t)) == Trim(t)
  {
    TrimStartIsTrimmed(t);
    TrimEndIsTrimmed(TrimStart(t));
  }

  lemma LowerTwice(s: string)
    ensures Lower(Lower(s)) == Lower(s)
  {
    assert forall i | 0 <= i < |s| :: LowerChar(LowerChar(s[i])) == LowerChar(s[i]);
  }

  lemma NormalHash(s: string)
    requires RequireBytes32(s).Ok?
    ensures RequireBytes32("0x" + Lower(StripHexPrefix(s))) == RequireBytes32(s)
  {
    LowerTwice(StripHexPrefix(s));
    assert StripHexPrefix("0x" + Lower(StripHexPrefix(s))) == Lower(StripHexPrefix(s));
  }

  // A payload and its normal form have the same calldata.
  lemma NormalFormEncodesAlike(p: Payload)
    requires Encodable(p)
    ensures Encodable(Normalize(p)) && Body(Normalize(p)) == Body(p)
  {
    hide Pow16, Fixed, Tail, Encode, RequireBytes32, Trim, Head;
    TrimIsIdempotent(p.scannerVersion);
    NormalHash(p.projectId);
    NormalHash(p.sourceHash);
    NormalHash(p.reportHash);
  }

  lemma NormalFormIsStable(p: Payload)
    requires Encodable(p)
    ensures Normalize(Normalize(p)) == Normalize(p)
  {
    hide Trim, Encode, Tail, Pow16;
    TrimIsIdempotent(p.scannerVersion);
    NormalHash(p.projectId);
    NormalHash(p.sourceHash);
    NormalHash(p.reportHash);
  }

  // Equal calldata come from payloads with the same normal form: the encoding loses nothing else.
  lemma BodyDeterminesPayload(p: Payload, q: Payload)
    requires Encodable(p) && Encodable(q) && Body(p) == Body(q)
    ensures Normalize(p) == Normalize(q)
  {
    hide Pow16, Value, Tail, Encode, Word, Trim, PaddedLength, Body;
    var b, c := Encode(Trim(p.scannerVersion)), Encode(p.reportURI);
    var d, e := Encode(Trim(q.scannerVersion)), Encode(q.reportURI);
    WordsOfBody(p, Body(p), 192 + |Tail(b)| / 2);
    WordsOfBody(q, Body(q), 192 + |Tail(d)| / 2);
    TailIsPrefixFree(b, Tail(c), d, Tail(e));
    assert Tail(c) + "" == Tail(e) + "";
    TailIsPrefixFree(c, "", e, "");
    EncodeIsInjective(Trim(p.scannerVersion), Trim(q.scannerVersion));
    EncodeIsInjective(p.reportURI, q.reportURI);
  }

  // ---- Main results ----

  // Two payloads have the same calldata exactly when they have the same normal form.
  lemma CalldataIsInjective(p: Payload, q: Payload)
    requires EncodePublishReport(p).Ok? && EncodePublishReport(q).Ok?
    ensures EncodePublishReport(p) == EncodePublishReport(q) <==> Normalize(p) == Normalize(q)
  {
    hide EncodePublishReport, Encodable, Body, Normalize;
    EncodedIsBody(p);
    EncodedIsBody(q);
    NormalFormEncodesAlike(p);
    NormalFormEncodesAlike(q);
    if EncodePublishReport(p) == EncodePublishReport(q) {
      assert (SELECTOR + Body(p))[10..] == Body(p) && (SELECTOR + Body(q))[10..] == Body(q);
      BodyDeterminesPayload(p, q);
    }
  }

  // The payloads whose calldata the decoder gives back: strings within its limit, and no byte order
  // mark in front of the report URI, which the text decoder would drop.
  predicate Decodable(p: Payload) {
    Short(p) && DropBom(p.reportURI) == p.reportURI
  }

  lemma BodyIsEvenHex(p: Payload)
    requires Encodable(p)
    ensures AllHex(Body(p)) && |Body(p)| >= 384 && |Body(p)| % 2 == 0
  {
    hide Encodable, Body, Tail, Encode, Trim, PaddedLength, Word, Value;
    WordsOfBody(p, Body(p), 192 + |Tail(Encode(Trim(p.scannerVersion)))| / 2);
    JoinedSlices(Body(p), Tail(Encode(Trim(p.scannerVersion))), Tail(Encode(p.reportURI)));
    SecondOffset(Encode(Trim(p.scannerVersion)));
    SecondOffset(Encode(p.reportURI));
  }

  lemma SelectorAndHex(body: string, data: string)
    requires AllHex(body) && |body| % 2 == 0 && data == SELECTOR + body
    ensures Lower(data) == data && IsPublishData(data) && data[|SELECTOR|..] == body
  {
    forall i | 2 <= i < |data| ensures IsHexDigit(data[i]) {
      if i >= 10 {
        assert data[i] == body[i - 10];
      }
    }
  }

  // The decoder on the calldata of a payload: it gives the normal form back exactly when it can.
  lemma RoundTrip(p: Payload, value: string)
    requires EncodePublishReport(p) == Ok(Lower(value))
    ensures DecodePublishReport(value) == if Decodable(p) then Ok(Normalize(p)) else Fail
  {
    hide EncodePublishReport, Encodable, Body, Trim, Encode, ReadFields, Lower, DropBom, IsPublishData;
    EncodedIsBody(p);
    BodyIsEvenHex(p);
    SelectorAndHex(Body(p), Lower(value));
    FieldsOfBody(p, Body(p));
    TrimIsIdempotent(p.scannerVersion);
    if Short(p) {
      var q := Normalize(p).(reportURI := DropBom(p.reportURI));
      assert ReadFields(Body(p)) == Ok(q);
      if DropBom(p.reportURI) == p.reportURI {
        assert q == Normalize(p);
        NormalFormEncodesAlike(p);
        EncodedIsBody(q);
      } else if EncodePublishReport(q).Ok? {
        BomLessDiffers(p, q);
      }
    }
  }

  // Without its byte order mark the payload has other calldata.
  lemma BomLessDiffers(p: Payload, q: Payload)
    requires EncodePublishReport(p).Ok? && EncodePublishReport(q).Ok?
    requires q == Normalize(p).(reportURI := DropBom(p.reportURI)) && DropBom(p.reportURI) != p.reportURI
    ensures Lower(EncodePublishReport(q).value) != EncodePublishReport(p).value
  {
    hide EncodePublishReport, Encodable, Body, Trim, Encode, Lower, DropBom, IsPublishData;
    EncodedIsBody(q);
    BodyIsEvenHex(q);
    SelectorAndHex(Body(q), SELECTOR + Body(q));
    CalldataIsInjective(p, q);
  }

  // The decoder accepts exactly the calldata of decodable payloads, and returns their normal form.
  lemma AcceptsExactlyEncodedPayloads(value: string, q: Payload)
    ensures DecodePublishReport(value) == Ok(q) <==>
      exists p :: EncodePublishReport(p) == Ok(Lower(value)) && Decodable(p) && q == Normalize(p)
  {
    hide EncodePublishReport, ReadFields, Normalize, Decodable, IsPublishData;
    if DecodePublishReport(value) == Ok(q) {
      LowerOfEncoded(q);
      RoundTrip(q, value);
    }
    forall p | EncodePublishReport(p) == Ok(Lower(value)) && Decodable(p)
      ensures DecodePublishReport(value) == Ok(Normalize(p))
    {
      RoundTrip(p, value);
    }
  }

  // Calldata is written in lower case already.
  lemma LowerOfEncoded(p: Payload)
    ensures var d := EncodePublishReport(p); d.Ok? ==> Lower(d.value) == d.value
  {
    hide EncodePublishReport, Encodable, Body, Lower;
    EncodedIsBody(p);
    if Encodable(p) {
      BodyIsEvenHex(p);
      SelectorAndHex(Body(p), SELECTOR + Body(p));
    }
  }
}
