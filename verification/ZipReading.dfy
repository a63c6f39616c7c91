// What readZipEntries (apps/web/lib/unzip.js) makes of any archive that is laid out as APPNOTE.TXT says, whoever has
// written it: with extra fields, comments, and bytes between its parts.

module ZipReading {
  import opened Results
  import opened Hex
  import opened Utf8
  import opened ZipFormat
  import opened ZipLayout
  import opened Unzip
  import opened ZipPaths

  // ---- Finding the directory ----

  lemma SignatureRead(b: seq<byte>, k: nat)
    requires k + 4 <= |b|
    ensures U32At(b, k) == END_SIGNATURE <==> EndSignature(b, k)
  {
    var s := b[k..k + 4];
    assert s[0] == b[k] && s[1] == b[k + 1] && s[2] == b[k + 2] && s[3] == b[k + 3];
  }

  // The search from the back finds the end record, however long the comment behind it is.
  lemma EndIsFound(b: seq<byte>, e: nat, count: nat, start: nat, comment: seq<byte>)
    requires EndRecord(b, e, count, start, comment) && LastEnd(b, e)
    ensures FindEnd(b, |b| - 22, Minimum(b)) == e
  {
    hide U32At, EndSignature;
    forall k: nat | k + 4 <= |b|
      ensures U32At(b, k) == END_SIGNATURE <==> EndSignature(b, k)
    {
      SignatureRead(b, k);
    }
    assert EndSignature(b, e) by { EndIsSigned(b, e, count, start, comment); }
    CommentFits(b, e, count, start, comment);
  }

  lemma EndIsSigned(b: seq<byte>, e: nat, count: nat, start: nat, comment: seq<byte>)
    requires EndRecord(b, e, count, start, comment)
    ensures EndSignature(b, e)
  {}

  lemma CommentFits(b: seq<byte>, e: nat, count: nat, start: nat, comment: seq<byte>)
    requires EndRecord(b, e, count, start, comment)
    ensures Minimum(b) <= e
  {}

  // ---- Reading the directory ----

  function Members(placed: seq<Placed>): seq<Member> {
    if placed == [] then [] else [placed[0].member] + Members(placed[1..])
  }

  // Stored and deflated contents can be read; None is any other method, Fail a content that cannot be inflated.
  function ContentOf(browser: Browser, m: Member): Outcome<Option<seq<byte>>> {
    if m.method_ == 0 then Ok(Some(m.compressed))
    else if m.method_ != 8 then Ok(None)
    else
      var inflated := browser.inflate(m.compressed);
      if inflated.Some? then Ok(inflated) else Fail
  }

  // What reading should make of the files of an archive, said without bytes or offsets: names that are not
  // considered and unknown methods are passed over, an encrypted or too large file ends the reading, and what has
  // the ending .sol or looks like Solidity comes back. total counts the contents read so far.
  function Extracted(browser: Browser, members: seq<Member>, total: nat): Outcome<seq<File>> {
    if members == [] then Ok([])
    else
      var m, rest := members[0], members[1..];
      var path, content := Considered(browser.decode(m.name)), ContentOf(browser, m);
      if path.None? then Extracted(browser, rest, total)
      else if m.flags % 2 == 1 || m.size > 12_582_912 || total + m.size > 41_943_040 || content.Fail? then Fail
      else if content.value.None? then Extracted(browser, rest, total)
      else if |content.value.value| > 12_582_912 then Fail
      else
        var text, others := browser.decode(content.value.value),
                            Extracted(browser, rest, total + |content.value.value|);
        var named := |path.value| >= 4 && LowerAscii(path.value[|path.value| - 4..]) == Ascii(".sol");
        if !named && !browser.looksLikeSolidity(text) then others
        else if others.Fail? then Fail
        else Ok([File(if named then path.value else path.value + Ascii(".sol"), text)] + others.value)
  }

  // What one turn of the reading loop takes from the two records.
  lemma RecordsRead(b: seq<byte>, c: nat, p: Placed)
    requires DirectoryRecord(b, c, p) && LocalRecord(b, p)
    ensures var m := p.member;
      && c + 46 <= |b| && U32At(b, c) == CENTRAL_SIGNATURE
      && U16At(b, c + 28) == |m.name| && Subarray(b, c + 46, c + 46 + |m.name|) == m.name
      && c + 46 + U16At(b, c + 28) + U16At(b, c + 30) + U16At(b, c + 32) == c + RecordLength(p)
      && U16At(b, c + 8) == m.flags && U16At(b, c + 10) == m.method_ && U32At(b, c + 24) == m.size
      && U32At(b, c + 42) == p.offset && p.offset + 30 <= |b| && U32At(b, p.offset) == LOCAL_SIGNATURE
      && var data: nat := p.offset + 30 + U16At(b, p.offset + 26) + U16At(b, p.offset + 28);
      Subarray(b, data, data + U32At(b, c + 20)) == m.compressed
  {
    var m := p.member;
    var s, t := b[c..c + 4], b[p.offset..p.offset + 4];
    assert s[0] == b[c] && s[1] == b[c + 1] && s[2] == b[c + 2] && s[3] == b[c + 3];
    assert t[0] == b[p.offset] && t[1] == b[p.offset + 1] && t[2] == b[p.offset + 2] && t[3] == b[p.offset + 3];
    var fields := b[c + 46..c + RecordLength(p)];
    assert fields[..|m.name|] == (m.name + p.centralExtra + p.comment)[..|m.name|] == m.name;
    assert fields[..|m.name|] == b[c + 46..c + 46 + |m.name|];
  }

  lemma {:induction false} DirectoryIsRead(browser: Browser, b: seq<byte>, c: nat, placed: seq<Placed>, total: nat)
    requires Directory(b, c, placed)
    ensures ReadFrom(browser, b, c, |placed|, total) == Extracted(browser, Members(placed), total)
    decreases |placed|
  {
    hide U16At, U32At, Considered, DirectoryRecord, LocalRecord, Subarray, RecordLength, LowerAscii, Ascii;
    if placed != [] {
      var p := placed[0];
      RecordsRead(b, c, p);
      var next := c + RecordLength(p);
      DirectoryIsRead(browser, b, next, placed[1..], total);
      var content := ContentOf(browser, p.member);
      if content.Ok? && content.value.Some? {
        DirectoryIsRead(browser, b, next, placed[1..], total + |content.value.value|);
      }
    }
  }

  // For every archive that is laid out in this way.
  lemma LaidOutIsRead(browser: Browser, b: seq<byte>, e: nat, start: nat, comment: seq<byte>, placed: seq<Placed>)
    requires EndRecord(b, e, |placed|, start, comment) && LastEnd(b, e) && Directory(b, start, placed)
    ensures ReadZip(browser, b)
         == if |placed| > 2500 then Fail else Extracted(browser, Members(placed), 0)
  {
    hide FindEnd, ReadFrom, U16At, U32At, Extracted, Directory;
    EndIsFound(b, e, |placed|, start, comment);
    DirectoryIsRead(browser, b, start, placed, 0);
  }

  // ---- Solidity projects ----

  // A plain path that ends like a Solidity file.
  ghost predicate IsCleanSol(name: Unicode) {
    && (exists parts :: parts != [] && Join(parts) == name && forall p <- parts :: IsPlainPart(p))
    && |name| >= 4 && LowerAscii(name[|name| - 4..]) == Ascii(".sol")
  }

  lemma CleanSolIsKept(name: Unicode)
    requires IsCleanSol(name)
    ensures Considered(name) == Some(name) && EndsWithSol(name) && BACKSLASH !in name
  {
    var parts :| parts != [] && Join(parts) == name && forall p <- parts :: IsPlainPart(p);
    PlainPathIsKept(parts);
    PartsAreFound(parts);
  }

  // This is the content of a file that is stored or deflated, not encrypted, of the size that the directory says,
  // and not too large.
  predicate IsContent(browser: Browser, m: Member, content: seq<byte>) {
    && m.flags % 2 == 0 && m.size == |content| <= MAX_ENTRY_BYTES
    && if m.method_ == 0 then content == m.compressed
       else m.method_ == 8 && browser.inflate(m.compressed) == Some(content)
  }

  function TotalSize(members: seq<Member>): nat {
    if members == [] then 0 else members[0].size + TotalSize(members[1..])
  }

  function ProjectFiles(browser: Browser, members: seq<Member>, contents: seq<seq<byte>>): seq<File>
    requires |contents| == |members|
  {
    seq(|members|, i requires 0 <= i < |members| =>
      File(browser.decode(members[i].name), browser.decode(contents[i])))
  }

  lemma {:induction false} CleanIsExtracted(browser: Browser, members: seq<Member>, contents: seq<seq<byte>>,
                                            total: nat)
    requires |contents| == |members| && total + TotalSize(members) <= MAX_TOTAL_BYTES
    requires forall i | 0 <= i < |members| ::
      IsCleanSol(browser.decode(members[i].name)) && IsContent(browser, members[i], contents[i])
    ensures Extracted(browser, members, total) == Ok(ProjectFiles(browser, members, contents))
    decreases |members|
  {
    hide Considered, IsCleanSol;
    if members != [] {
      var m := members[0];
      CleanSolIsKept(browser.decode(m.name));
      CleanIsExtracted(browser, members[1..], contents[1..], total + m.size);
      assert [File(browser.decode(m.name), browser.decode(contents[0]))]
        + ProjectFiles(browser, members[1..], contents[1..]) == ProjectFiles(browser, members, contents);
    }
  }

  // The files of a clean project come back from every archive in which they are laid out, in the order of the
  // directory, with exactly their names and contents.
  lemma ProjectComesBack(browser: Browser, b: seq<byte>, e: nat, start: nat, comment: seq<byte>, placed: seq<Placed>,
                         contents: seq<seq<byte>>)
    requires EndRecord(b, e, |placed|, start, comment) && LastEnd(b, e) && Directory(b, start, placed)
    requires |placed| <= MAX_ENTRIES && TotalSize(Members(placed)) <= MAX_TOTAL_BYTES
    requires var members := Members(placed);
      && |contents| == |members|
      && forall i | 0 <= i < |members| ::
           IsCleanSol(browser.decode(members[i].name)) && IsContent(browser, members[i], contents[i])
    ensures ReadZip(browser, b) == Ok(ProjectFiles(browser, Members(placed), contents))
  {
    hide ReadZip, Directory, EndRecord, LastEnd, IsCleanSol, IsContent;
    LaidOutIsRead(browser, b, e, start, comment, placed);
    CleanIsExtracted(browser, Members(placed), contents, 0);
  }
}
