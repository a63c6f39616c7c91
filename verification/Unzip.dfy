// apps/web/lib/unzip.js: cleanPath and readZipEntries.

module Unzip {
  import opened Results
  import opened Hex
  import opened Text
  import opened Utf8
  import opened ZipFormat

  const MAX_ENTRY_BYTES: nat := 12 * 1024 * 1024
  const MAX_TOTAL_BYTES: nat := 40 * 1024 * 1024
  const MAX_ENTRIES: nat := 2500

  // What a browser supplies, and looksLikeSolidity with its regular expressions.
  datatype Browser = Browser(
    decode: seq<byte> -> Unicode,
    inflate: seq<byte> -> Option<seq<byte>>,
    looksLikeSolidity: Unicode -> bool)

  // TextDecoder reads well-formed UTF-8 and drops a byte order mark; what it makes of other bytes is left open.
  ghost predicate DecodesText(browser: Browser) {
    forall b :: TextDecode(b).Ok? ==> browser.decode(b) == TextDecode(b).value
  }

  datatype File = File(path: Unicode, content: Unicode)

  // ---- Paths ----

  // Text in ASCII.
  function Ascii(s: string): Unicode {
    seq(|s|, i requires 0 <= i < |s| => if s[i] as int < 0x80 then s[i] as int else 0)
  }

  const DOT: Scalar := 0x2E

  // The parts between slashes.
  function Split(t: Unicode): (parts: seq<Unicode>)
    ensures parts != []
  {
    if t == [] then [[]]
    else
      var rest := Split(t[1..]);
      if t[0] == SLASH then [[]] + rest else [[t[0]] + rest[0]] + rest[1..]
  }

  function Join(parts: seq<Unicode>): Unicode {
    if parts == [] then []
    else if |parts| == 1 then parts[0]
    else parts[0] + [SLASH] + Join(parts[1..])
  }

  predicate Skipped(part: Unicode) {
    part == [] || part == [DOT]
  }

  function Kept(parts: seq<Unicode>): (r: seq<Unicode>)
    ensures forall p <- r :: p in parts && !Skipped(p)
  {
    if parts == [] then []
    else (if Skipped(parts[0]) then [] else [parts[0]]) + Kept(parts[1..])
  }

  function CleanPath(t: Unicode): Option<Unicode> {
    var parts := Split(Slashes(t));
    if [DOT, DOT] in parts then None else Some(Join(Kept(parts)))
  }

  function LowerScalar(c: Scalar): Scalar {
    if 0x41 <= c <= 0x5A then c + 32 else c
  }

  function LowerAscii(t: Unicode): Unicode {
    seq(|t|, i requires 0 <= i < |t| => LowerScalar(t[i]))
  }

  const IGNORED: seq<Unicode> := [Ascii("node_modules"), Ascii(".git"), Ascii("out"), Ascii("cache"),
                                  Ascii("artifacts"), Ascii("dist"), Ascii("build")]

  // The pattern of ignored directories, which matches a whole part of the path.
  predicate Excluded(path: Unicode) {
    exists part <- Split(path) :: LowerAscii(part) in IGNORED
  }

  predicate EndsWithSol(path: Unicode) {
    |path| >= 4 && LowerAscii(path[|path| - 4..]) == Ascii(".sol")
  }

  function NamedSol(path: Unicode): Unicode {
    if EndsWithSol(path) then path else path + Ascii(".sol")
  }

  // The path under which an entry is considered at all.
  function Considered(rawName: Unicode): Option<Unicode> {
    var path := CleanPath(rawName);
    if path.None? || path.value == [] || Excluded(path.value) then None else path
  }

  // ---- Reading ----

  // subarray, which clamps its bounds.
  function Subarray(b: seq<byte>, from: nat, to: nat): seq<byte> {
    if from >= |b| || to <= from then [] else b[from..if to > |b| then |b| else to]
  }

  // The end record: the last offset with its signature within the last 65557 bytes, or -1.
  function FindEnd(b: seq<byte>, offset: int, minimum: nat): (r: int)
    requires offset + 22 <= |b|
    ensures r == -1 || (minimum <= r <= offset && U32At(b, r) == END_SIGNATURE)
    ensures forall k :: minimum <= k <= offset && (r == -1 || r < k) ==> U32At(b, k) != END_SIGNATURE
    decreases offset
  {
    if offset < minimum then -1
    else if U32At(b, offset) == END_SIGNATURE then offset
    else FindEnd(b, offset - 1, minimum)
  }

  function Minimum(b: seq<byte>): nat {
    if |b| >= 65557 then |b| - 65557 else 0
  }

  function Cons(file: File, rest: Outcome<seq<File>>): Outcome<seq<File>> {
    if rest.Ok? then Ok([file] + rest.value) else Fail
  }

  // A file that counts as Solidity is added, others are passed over.
  function Add(browser: Browser, path: Unicode, content: Unicode, rest: Outcome<seq<File>>): Outcome<seq<File>> {
    if EndsWithSol(path) || browser.looksLikeSolidity(content) then Cons(File(NamedSol(path), content), rest) else rest
  }

  // The bytes of an entry's content: Fail is a thrown error, None a method that is not supported.
  function Content(browser: Browser, method_: nat, compressed: seq<byte>): Outcome<Option<seq<byte>>> {
    if method_ == 0 then Ok(Some(compressed))
    else if method_ == 8 then
      var inflated := browser.inflate(compressed);
      if inflated.None? then Fail else Ok(inflated)
    else Ok(None)
  }

  // The entries that count directory records from cursor on describe.
  function ReadFrom(browser: Browser, b: seq<byte>, cursor: nat, count: nat, total: nat): Outcome<seq<File>>
    decreases count
  {
    if count == 0 then Ok([])
    else if cursor + 46 > |b| || U32At(b, cursor) != CENTRAL_SIGNATURE then Fail
    else
      var nameLength := U16At(b, cursor + 28);
      var next := cursor + 46 + nameLength + U16At(b, cursor + 30) + U16At(b, cursor + 32);
      var path := Considered(browser.decode(Subarray(b, cursor + 46, cursor + 46 + nameLength)));
      var size := U32At(b, cursor + 24);
      var localOffset := U32At(b, cursor + 42);
      if path.None? then ReadFrom(browser, b, next, count - 1, total)
      else if U16At(b, cursor + 8) % 2 == 1 then Fail
      else if size > MAX_ENTRY_BYTES || total + size > MAX_TOTAL_BYTES then Fail
      else if localOffset + 30 > |b| || U32At(b, localOffset) != LOCAL_SIGNATURE then Fail
      else
        var dataStart := localOffset + 30 + U16At(b, localOffset + 26) + U16At(b, localOffset + 28);
        var content := Content(browser, U16At(b, cursor + 10),
                               Subarray(b, dataStart, dataStart + U32At(b, cursor + 20)));
        if content.Fail? then Fail
        else if content.value.None? then ReadFrom(browser, b, next, count - 1, total)
        else if |content.value.value| > MAX_ENTRY_BYTES then Fail
        else
          var bytes := content.value.value;
          Add(browser, path.value, browser.decode(bytes), ReadFrom(browser, b, next, count - 1, total + |bytes|))
  }

  function ReadZip(browser: Browser, b: seq<byte>): Outcome<seq<File>> {
    var end := FindEnd(b, |b| - 22, Minimum(b));
    if end < 0 then Fail
    else if U16At(b, end + 10) > MAX_ENTRIES then Fail
    else ReadFrom(browser, b, U32At(b, end + 16), U16At(b, end + 10), 0)
  }

  function Joined(first: seq<File>, rest: Outcome<seq<File>>): Outcome<seq<File>> {
    if rest.Ok? then Ok(first + rest.value) else Fail
  }

  lemma JoinedCons(first: seq<File>, file: File, rest: Outcome<seq<File>>)
    ensures Joined(first, Cons(file, rest)) == Joined(first + [file], rest)
  {
    if rest.Ok? {
      assert first + ([file] + rest.value) == (first + [file]) + rest.value;
    }
  }

  method FindEndRecord(bytes: seq<byte>) returns (end: int)
    ensures end == FindEnd(bytes, |bytes| - 22, Minimum(bytes))
  {
    hide U32At;
    var offset := |bytes| - 22;
    while offset >= Minimum(bytes)
      invariant offset + 22 <= |bytes|
      invariant FindEnd(bytes, offset, Minimum(bytes)) == FindEnd(bytes, |bytes| - 22, Minimum(bytes))
    {
      if U32At(bytes, offset) == END_SIGNATURE {
        return offset;
      }
      offset := offset - 1;
    }
    return -1;
  }

  // Every offset that a DataView reads is checked to lie inside, for whatever bytes a file holds.
  method ReadZipEntries(browser: Browser, bytes: seq<byte>) returns (r: Outcome<seq<File>>)
    ensures r == ReadZip(browser, bytes)
  {
    hide Considered, Content, U16At, U32At, Subarray, EndsWithSol, NamedSol, FindEnd, Joined, ReadFrom;
    var end := FindEndRecord(bytes);
    if end < 0 {
      return Fail;
    }
    var entryCount := U16At(bytes, end + 10);
    if entryCount > MAX_ENTRIES {
      return Fail;
    }
    var cursor: nat := U32At(bytes, end + 16);
    var totalBytes: nat := 0;
    var entries: seq<File> := [];
    ghost var all := ReadFrom(browser, bytes, cursor, entryCount, 0);
    JoinedNothing(all);
    for index := 0 to entryCount
      invariant Joined(entries, ReadFrom(browser, bytes, cursor, entryCount - index, totalBytes)) == all
    {
      ghost var left := entryCount - index - 1;
      var step := ReadEntry(browser, bytes, cursor, left, totalBytes);
      match step {
        case Broken =>
          JoinedFail(entries);
          return Fail;
        case Passed(next, length) =>
          cursor, totalBytes := next, totalBytes + length;
        case Read(next, length, file) =>
          cursor, totalBytes := next, totalBytes + length;
          JoinedCons(entries, file, ReadFrom(browser, bytes, cursor, left, totalBytes));
          entries := entries + [file];
      }
    }
    assert ReadFrom(browser, bytes, cursor, 0, totalBytes) == Ok([]) by {
      NothingLeft(browser, bytes, cursor, totalBytes);
    }
    JoinedEnd(entries);
    return Ok(entries);
  }

  lemma JoinedNothing(all: Outcome<seq<File>>)
    ensures Joined([], all) == all
  {
    if all.Ok? {
      assert [] + all.value == all.value;
    }
  }

  lemma JoinedFail(first: seq<File>)
    ensures Joined(first, Fail) == Fail
  {}

  lemma JoinedEnd(first: seq<File>)
    ensures Joined(first, Ok([])) == Ok(first)
  {
    assert first + [] == first;
  }

  lemma NothingLeft(browser: Browser, b: seq<byte>, cursor: nat, total: nat)
    ensures ReadFrom(browser, b, cursor, 0, total) == Ok([])
  {}

  // One turn of the reading loop: a thrown error, an entry passed over, or a file, with the next cursor and
  // the bytes that were added to the total.
  datatype Step = Broken | Passed(next: nat, length: nat) | Read(next: nat, length: nat, file: File)

  function Continued(browser: Browser, b: seq<byte>, step: Step, count: nat, total: nat): Outcome<seq<File>> {
    match step
    case Broken => Fail
    case Passed(next, length) => ReadFrom(browser, b, next, count, total + length)
    case Read(next, length, file) => Cons(file, ReadFrom(browser, b, next, count, total + length))
  }

  method ReadEntry(browser: Browser, bytes: seq<byte>, cursor: nat, ghost count: nat, totalBytes: nat)
      returns (step: Step)
    ensures Continued(browser, bytes, step, count, totalBytes)
      == ReadFrom(browser, bytes, cursor, count + 1, totalBytes)
  {
    hide Considered, Content, U16At, U32At, Subarray, EndsWithSol, NamedSol;
    if cursor + 46 > |bytes| || U32At(bytes, cursor) != CENTRAL_SIGNATURE {
      return Broken;
    }
    var flags := U16At(bytes, cursor + 8);
    var method_ := U16At(bytes, cursor + 10);
    var compressedSize := U32At(bytes, cursor + 20);
    var uncompressedSize := U32At(bytes, cursor + 24);
    var nameLength := U16At(bytes, cursor + 28);
    var extraLength := U16At(bytes, cursor + 30);
    var commentLength := U16At(bytes, cursor + 32);
    var localOffset := U32At(bytes, cursor + 42);
    var path := Considered(browser.decode(Subarray(bytes, cursor + 46, cursor + 46 + nameLength)));
    var next := cursor + 46 + nameLength + extraLength + commentLength;
    if path.None? {
      return Passed(next, 0);
    }
    if flags % 2 == 1 {
      return Broken;
    }
    if uncompressedSize > MAX_ENTRY_BYTES || totalBytes + uncompressedSize > MAX_TOTAL_BYTES {
      return Broken;
    }
    if localOffset + 30 > |bytes| || U32At(bytes, localOffset) != LOCAL_SIGNATURE {
      return Broken;
    }
    var dataStart := localOffset + 30 + U16At(bytes, localOffset + 26) + U16At(bytes, localOffset + 28);
    var contentBytes := Content(browser, method_, Subarray(bytes, dataStart, dataStart + compressedSize));
    if contentBytes.Fail? {
      return Broken;
    }
    if contentBytes.value.None? {
      return Passed(next, 0);
    }
    var length := |contentBytes.value.value|;
    if length > MAX_ENTRY_BYTES {
      return Broken;
    }
    var content := browser.decode(contentBytes.value.value);
    if EndsWithSol(path.value) || browser.looksLikeSolidity(content) {
      return Read(next, length, File(NamedSol(path.value), content));
    }
    return Passed(next, length);
  }
}
