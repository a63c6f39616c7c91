// What readZipEntries makes of an archive that createZip has written.

module ZipRoundTrip {
  import opened Results
  import opened Hex
  import opened Utf8
  import opened ZipFormat
  import opened ZipLayout
  import opened ZipReading
  import opened ZipRecords
  import opened Unzip

  // What reading should make of entries, said without bytes or offsets.
  function Expected(browser: Browser, entries: seq<Entry>, total: nat): Outcome<seq<File>> {
    if entries == [] then Ok([])
    else
      var e, rest := entries[0], entries[1..];
      var path := Considered(DropBom(Slashes(e.name)));
      var size := |DataBytes(e)|;
      if path.None? then Expected(browser, rest, total)
      else if size > MAX_ENTRY_BYTES || total + size > MAX_TOTAL_BYTES then Fail
      else Add(browser, path.value, browser.decode(DataBytes(e)), Expected(browser, rest, total + size))
  }

  lemma NameRead(browser: Browser, e: Entry)
    requires DecodesText(browser)
    ensures browser.decode(NameBytes(e)) == DropBom(Slashes(e.name))
  {
    hide Encode, Decode;
    DecodeOfEncode(Slashes(e.name));
    assert TextDecode(NameBytes(e)).Ok?;
  }

  // ---- A written archive is laid out as the standard says ----

  function MemberOf(e: Entry): Member {
    Member(NameBytes(e), 0x0800, 0, DataBytes(e), |DataBytes(e)|)
  }

  function PlacedFrom(entries: seq<Entry>, o: nat): seq<Placed> {
    if entries == [] then []
    else
      var next := o + 30 + |NameBytes(entries[0])| + |DataBytes(entries[0])|;
      [Placed(MemberOf(entries[0]), o, [], [], [])] + PlacedFrom(entries[1..], next)
  }

  function MembersOf(entries: seq<Entry>): seq<Member> {
    seq(|entries|, i requires 0 <= i < |entries| => MemberOf(entries[i]))
  }

  lemma {:induction false} PlacedMembers(entries: seq<Entry>, o: nat)
    ensures Members(PlacedFrom(entries, o)) == MembersOf(entries) && |PlacedFrom(entries, o)| == |entries|
    decreases |entries|
  {
    hide NameBytes, DataBytes;
    if entries != [] {
      var next := o + 30 + |NameBytes(entries[0])| + |DataBytes(entries[0])|;
      PlacedMembers(entries[1..], next);
      assert [MemberOf(entries[0])] + MembersOf(entries[1..]) == MembersOf(entries);
    }
  }

  lemma EntryIsPlaced(b: seq<byte>, o: nat, c: nat, e: Entry)
    requires EntryAt(b, o, c, e)
    ensures var p := Placed(MemberOf(e), o, [], [], []); DirectoryRecord(b, c, p) && LocalRecord(b, p)
  {
    hide U16At, U32At, NameBytes, DataBytes;
    var name := NameBytes(e);
    assert name + [] == name && name + [] + [] == name;
  }

  lemma {:induction false} EntriesArePlaced(b: seq<byte>, o: nat, c: nat, entries: seq<Entry>)
    requires EntriesAt(b, o, c, entries)
    ensures Directory(b, c, PlacedFrom(entries, o))
    decreases |entries|
  {
    hide NameBytes, DataBytes, EntryAt, DirectoryRecord, LocalRecord;
    if entries != [] {
      var e, rest := entries[0], entries[1..];
      var o', c' := o + 30 + |NameBytes(e)| + |DataBytes(e)|, c + 46 + |NameBytes(e)|;
      assert EntryAt(b, o + LocalLength(entries[..0]), c + DirectoryLength(entries[..0]), e);
      EntryIsPlaced(b, o, c, e);
      forall i | 0 <= i < |rest|
        ensures EntryAt(b, o' + LocalLength(rest[..i]), c' + DirectoryLength(rest[..i]), rest[i])
      {
        assert entries[..i + 1][1..] == rest[..i] && entries[i + 1] == rest[i];
      }
      EntriesArePlaced(b, o', c', rest);
    }
  }

  lemma ZipIsLaidOut(b: seq<byte>, entries: seq<Entry>)
    requires IsZip(b, entries)
    ensures var start := LocalLength(entries);
      var e := start + DirectoryLength(entries);
      EndRecord(b, e, |entries|, start, []) && LastEnd(b, e) && Directory(b, start, PlacedFrom(entries, 0))
  {
    hide EntriesAt, EndAt, EndRecord, LastEnd, Directory, PlacedFrom, LocalLength, DirectoryLength;
    var start := LocalLength(entries);
    EntriesArePlaced(b, 0, start, entries);
    EndIsPlaced(b, start + DirectoryLength(entries), |entries|, DirectoryLength(entries), start);
  }

  lemma EndIsPlaced(b: seq<byte>, e: nat, count: nat, length: nat, start: nat)
    requires EndAt(b, e, count, length, start)
    ensures EndRecord(b, e, count, start, []) && LastEnd(b, e)
  {
    hide U16At, U32At;
  }

  // ---- The round trip ----

  lemma {:induction false} ExtractedIsExpected(browser: Browser, entries: seq<Entry>, total: nat)
    requires DecodesText(browser)
    ensures Extracted(browser, MembersOf(entries), total) == Expected(browser, entries, total)
    decreases |entries|
  {
    hide NameBytes, DataBytes, Considered, DecodesText, Slashes, DropBom, LowerAscii, Ascii;
    if entries != [] {
      var e := entries[0];
      NameRead(browser, e);
      assert MembersOf(entries)[1..] == MembersOf(entries[1..]);
      ExtractedIsExpected(browser, entries[1..], total);
      ExtractedIsExpected(browser, entries[1..], total + |DataBytes(e)|);
    }
  }

  // Reading an archive that was written yields exactly what the entries themselves call for.
  lemma RoundTrip(browser: Browser, b: seq<byte>, entries: seq<Entry>)
    requires DecodesText(browser) && IsZip(b, entries)
    ensures ReadZip(browser, b) == if |entries| > 2500 then Fail else Expected(browser, entries, 0)
  {
    hide DecodesText, IsZip, Expected, Extracted, ReadZip, Directory, EndRecord, LastEnd, PlacedFrom;
    ZipIsLaidOut(b, entries);
    PlacedMembers(entries, 0);
    var start := LocalLength(entries);
    LaidOutIsRead(browser, b, start + DirectoryLength(entries), start, [], PlacedFrom(entries, 0));
    ExtractedIsExpected(browser, entries, 0);
  }

  // ---- A Solidity project ----

  // A clean name that does not begin with a byte order mark, which TextDecoder would drop.
  ghost predicate IsCleanName(name: Unicode) {
    IsCleanSol(name) && name[0] != BOM
  }

  // The name with its backslashes, U+005C, made slashes, U+002F.
  predicate IsSlashed(name: Unicode, slashed: Unicode) {
    && |slashed| == |name|
    && forall i | 0 <= i < |name| :: slashed[i] == if name[i] == 0x5C then 0x2F else name[i]
  }

  // The names under which the entries should come back.
  ghost predicate CleanNames(entries: seq<Entry>, names: seq<Unicode>) {
    && |names| == |entries|
    && forall i | 0 <= i < |entries| :: IsSlashed(entries[i].name, names[i]) && IsCleanName(names[i])
  }

  function DataLength(entries: seq<Entry>): nat {
    if entries == [] then 0 else |DataBytes(entries[0])| + DataLength(entries[1..])
  }

  // The limits of the reader, and the length of names that the format allows.
  predicate WithinLimits(entries: seq<Entry>) {
    && |entries| <= MAX_ENTRIES && DataLength(entries) <= MAX_TOTAL_BYTES
    && forall e <- entries :: |DataBytes(e)| <= MAX_ENTRY_BYTES && |NameBytes(e)| < 0x1_0000
  }

  function Files(browser: Browser, entries: seq<Entry>, names: seq<Unicode>): seq<File>
    requires |names| == |entries|
  {
    seq(|entries|, i requires 0 <= i < |entries| => File(names[i], browser.decode(DataBytes(entries[i]))))
  }

  lemma {:induction false} LengthsBound(entries: seq<Entry>)
    requires forall e <- entries :: |NameBytes(e)| < 0x1_0000
    ensures LocalLength(entries) <= DataLength(entries) + |entries| * 65565
    ensures DirectoryLength(entries) <= |entries| * 65581
  {
    hide NameBytes, DataBytes;
    if entries != [] {
      assert entries[0] in entries;
      LengthsBound(entries[1..]);
    }
  }

  lemma {:induction false} CleanMembers(browser: Browser, entries: seq<Entry>, names: seq<Unicode>)
    requires DecodesText(browser) && CleanNames(entries, names)
    ensures forall i | 0 <= i < |entries| :: browser.decode(NameBytes(entries[i])) == names[i]
    ensures forall i | 0 <= i < |entries| :: IsCleanSol(names[i])
    ensures TotalSize(MembersOf(entries)) == DataLength(entries)
    ensures ProjectFiles(browser, MembersOf(entries), Contents(entries)) == Files(browser, entries, names)
  {
    hide NameBytes, DataBytes, IsCleanName, IsSlashed, DecodesText;
    if entries != [] {
      CleanNameIsRead(browser, entries[0], names[0]);
      CleanMembers(browser, entries[1..], names[1..]);
      assert MembersOf(entries) == [MemberOf(entries[0])] + MembersOf(entries[1..]);
      assert entries == [entries[0]] + entries[1..] && names == [names[0]] + names[1..];
    }
  }

  function Contents(entries: seq<Entry>): seq<seq<byte>> {
    seq(|entries|, i requires 0 <= i < |entries| => DataBytes(entries[i]))
  }

  lemma CleanNameIsRead(browser: Browser, e: Entry, name: Unicode)
    requires DecodesText(browser) && IsSlashed(e.name, name) && IsCleanName(name)
    ensures browser.decode(NameBytes(e)) == name && IsCleanSol(name)
  {
    hide NameBytes, DecodesText, IsCleanSol;
    NameRead(browser, e);
    CleanSolIsKept(name);
    assert Slashes(e.name) == name;
  }

  // Every file of a clean project comes back under its name, in order, with the text of its bytes.
  lemma ProjectRoundTrip(browser: Browser, entries: seq<Entry>, names: seq<Unicode>)
    requires DecodesText(browser) && WithinLimits(entries) && CleanNames(entries, names)
    ensures IsZip(Archive(entries), entries)
    ensures ReadZip(browser, Archive(entries)) == Ok(Files(browser, entries, names))
  {
    hide DecodesText, IsCleanSol, Files, ReadZip, Archive, IsZip, EndRecord, LastEnd, Directory, PlacedFrom,
      ProjectFiles, NameBytes, DataBytes, CleanNames;
    LengthsBound(entries);
    ArchiveIsZip(entries);
    ZipIsLaidOut(Archive(entries), entries);
    PlacedMembers(entries, 0);
    CleanMembers(browser, entries, names);
    var start := LocalLength(entries);
    ProjectComesBack(browser, Archive(entries), start + DirectoryLength(entries), start, [],
                     PlacedFrom(entries, 0), Contents(entries));
  }

  function TextFiles(entries: seq<Entry>, names: seq<Unicode>): seq<File>
    requires |names| == |entries| && forall e <- entries :: e.data.Text?
  {
    seq(|entries|, i requires 0 <= i < |entries| => File(names[i], entries[i].data.text))
  }

  lemma TextRead(browser: Browser, t: Unicode)
    requires DecodesText(browser)
    ensures browser.decode(Encode(t)) == DropBom(t)
  {
    hide Encode, Decode;
    DecodeOfEncode(t);
    assert TextDecode(Encode(t)).Ok?;
  }

  // Texts come back unchanged exactly when none starts with a byte order mark.
  lemma TextsComeBackExactly(browser: Browser, entries: seq<Entry>, names: seq<Unicode>)
    requires DecodesText(browser) && WithinLimits(entries) && CleanNames(entries, names)
    requires forall e <- entries :: e.data.Text?
    ensures ReadZip(browser, Archive(entries)) == Ok(TextFiles(entries, names))
        <==> forall e <- entries :: e.data.text == [] || e.data.text[0] != BOM
  {
    hide DecodesText, IsCleanName, IsSlashed, ReadZip, Archive, WithinLimits, Encode, IsZip;
    ProjectRoundTrip(browser, entries, names);
    var read, written := Files(browser, entries, names), TextFiles(entries, names);
    forall i | 0 <= i < |entries|
      ensures read[i] == written[i] <==> entries[i].data.text == [] || entries[i].data.text[0] != BOM
    {
      var text := entries[i].data.text;
      TextRead(browser, text);
      assert entries[i] in entries && DataBytes(entries[i]) == Encode(text);
      assert text != [] && text[0] == BOM ==> |DropBom(text)| < |text|;
      assert read[i] == File(names[i], DropBom(text));
    }
    if read == written {
      forall e <- entries
        ensures e.data.text == [] || e.data.text[0] != BOM
      {
        var i :| 0 <= i < |entries| && entries[i] == e;
        assert read[i] == written[i];
      }
    }
  }
}
