// What APPNOTE.TXT says about the bytes of an archive: where the records of a file stand (sections 4.3.7, 4.3.12
// and 4.3.16), and for the archives of apps/web/lib/zip.js what every field says.

module ZipLayout {
  import opened Hex
  import opened ZipFormat
  import Crc32

  // ---- Any archive ----

  // A file: its name, the general purpose flags, the compression method and what it is compressed to, and the size
  // that the directory gives for its content.
  datatype Member = Member(name: seq<byte>, flags: nat, method_: nat, compressed: seq<byte>, size: nat)

  // Where its local header is, and what stands in the fields of variable length.
  datatype Placed = Placed(
    member: Member, offset: nat, localExtra: seq<byte>, centralExtra: seq<byte>, comment: seq<byte>)

  function RecordLength(p: Placed): nat {
    46 + |p.member.name| + |p.centralExtra| + |p.comment|
  }

  // Section 4.3.12, at c.
  ghost predicate DirectoryRecord(b: seq<byte>, c: nat, p: Placed) {
    var m := p.member;
    && c + RecordLength(p) <= |b|
    && b[c..c + 4] == [0x50, 0x4B, 1, 2]
    && U16At(b, c + 8) == m.flags && U16At(b, c + 10) == m.method_
    && U32At(b, c + 20) == |m.compressed| && U32At(b, c + 24) == m.size
    && U16At(b, c + 28) == |m.name| && U16At(b, c + 30) == |p.centralExtra| && U16At(b, c + 32) == |p.comment|
    && U32At(b, c + 42) == p.offset
    && b[c + 46..c + RecordLength(p)] == m.name + p.centralExtra + p.comment
  }

  // Section 4.3.7, with the data behind it. Sizes and checksum may stand behind the data instead.
  ghost predicate LocalRecord(b: seq<byte>, p: Placed) {
    var m, o := p.member, p.offset;
    var data := o + 30 + |m.name| + |p.localExtra|;
    && data + |m.compressed| <= |b|
    && b[o..o + 4] == [0x50, 0x4B, 3, 4]
    && U16At(b, o + 26) == |m.name| && U16At(b, o + 28) == |p.localExtra|
    && b[o + 30..data] == m.name + p.localExtra
    && b[data..data + |m.compressed|] == m.compressed
  }

  // The directory records follow each other from c on; local records may stand anywhere.
  ghost predicate Directory(b: seq<byte>, c: nat, placed: seq<Placed>)
    decreases |placed|
  {
    placed != [] ==>
      && DirectoryRecord(b, c, placed[0]) && LocalRecord(b, placed[0])
      && Directory(b, c + RecordLength(placed[0]), placed[1..])
  }

  // Section 4.3.16, at e: the count and the place of the directory, and the comment.
  ghost predicate EndRecord(b: seq<byte>, e: nat, count: nat, start: nat, comment: seq<byte>) {
    && |b| == e + 22 + |comment|
    && b[e..e + 4] == [0x50, 0x4B, 5, 6]
    && U16At(b, e + 10) == count && U32At(b, e + 16) == start && U16At(b, e + 20) == |comment|
    && b[e + 22..] == comment
  }

  ghost predicate EndSignature(b: seq<byte>, k: nat)
    requires k + 4 <= |b|
  {
    b[k..k + 4] == [0x50, 0x4B, 5, 6]
  }

  // No later place looks like an end record: the comment does not hold its signature.
  ghost predicate LastEnd(b: seq<byte>, e: nat) {
    forall k: nat :: e < k && k + 22 <= |b| ==> !EndSignature(b, k)
  }

  // ---- The archives that are written ----

  function LocalLength(entries: seq<Entry>): nat {
    if entries == [] then 0 else 30 + |NameBytes(entries[0])| + |DataBytes(entries[0])| + LocalLength(entries[1..])
  }

  function DirectoryLength(entries: seq<Entry>): nat {
    if entries == [] then 0 else 46 + |NameBytes(entries[0])| + DirectoryLength(entries[1..])
  }

  // What the fields of the format can hold.
  ghost predicate Fits(entries: seq<Entry>) {
    && |entries| < 0x1_0000 && (forall e <- entries :: |NameBytes(e)| < 0x1_0000)
    && LocalLength(entries) + DirectoryLength(entries) + 22 < 0x1_0000_0000
  }

  // The local header of an entry at o, in front of name and data: version 2.0, the flag for names in UTF-8, stored,
  // no time, and checksum and sizes of the data that follows.
  ghost predicate LocalAt(b: seq<byte>, o: nat, name: seq<byte>, size: nat) {
    var data := o + 30 + |name|;
    && data + size <= |b|
    && var crc := Crc32.Crc(AsBits(b[data..data + size])) as nat;
    && b[o..o + 4] == [0x50, 0x4B, 3, 4]
    && U16At(b, o + 4) == 20 && U16At(b, o + 6) == 0x0800 && U16At(b, o + 8) == 0
    && U16At(b, o + 10) == 0 && U16At(b, o + 12) == 0
    && U32At(b, o + 14) == crc && U32At(b, o + 18) == size && U32At(b, o + 22) == size
    && U16At(b, o + 26) == |name| && U16At(b, o + 28) == 0 && b[o + 30..data] == name
  }

  // The directory record of the same entry at c, with its local header at o.
  ghost predicate CentralAt(b: seq<byte>, c: nat, o: nat, name: seq<byte>, size: nat) {
    var data := o + 30 + |name|;
    && data + size <= |b| && c + 46 + |name| <= |b|
    && var crc := Crc32.Crc(AsBits(b[data..data + size])) as nat;
    && b[c..c + 4] == [0x50, 0x4B, 1, 2]
    && U16At(b, c + 4) == 20 && U16At(b, c + 6) == 20 && U16At(b, c + 8) == 0x0800 && U16At(b, c + 10) == 0
    && U16At(b, c + 12) == 0 && U16At(b, c + 14) == 0
    && U32At(b, c + 16) == crc && U32At(b, c + 20) == size && U32At(b, c + 24) == size
    && U16At(b, c + 28) == |name| && U16At(b, c + 30) == 0 && U16At(b, c + 32) == 0
    && U16At(b, c + 34) == 0 && U16At(b, c + 36) == 0 && U32At(b, c + 38) == 0 && U32At(b, c + 42) == o
    && b[c + 46..c + 46 + |name|] == name
  }

  ghost predicate EndAt(b: seq<byte>, e: nat, count: nat, length: nat, start: nat) {
    && |b| == e + 22
    && b[e..e + 4] == [0x50, 0x4B, 5, 6]
    && U16At(b, e + 4) == 0 && U16At(b, e + 6) == 0 && U16At(b, e + 8) == count && U16At(b, e + 10) == count
    && U32At(b, e + 12) == length && U32At(b, e + 16) == start && U16At(b, e + 20) == 0
  }

  ghost predicate EntryAt(b: seq<byte>, o: nat, c: nat, e: Entry) {
    var name, data := NameBytes(e), DataBytes(e);
    && LocalAt(b, o, name, |data|) && CentralAt(b, c, o, name, |data|)
    && b[o + 30 + |name|..o + 30 + |name| + |data|] == data
  }

  // The entries in their order, from o on in the local part and from c on in the directory.
  ghost predicate EntriesAt(b: seq<byte>, o: nat, c: nat, entries: seq<Entry>) {
    forall i | 0 <= i < |entries| ::
      EntryAt(b, o + LocalLength(entries[..i]), c + DirectoryLength(entries[..i]), entries[i])
  }

  // The bytes are a ZIP archive of the entries: local records with data, directory, end record, and nothing else.
  ghost predicate IsZip(b: seq<byte>, entries: seq<Entry>) {
    var start := LocalLength(entries);
    var end := start + DirectoryLength(entries);
    EntriesAt(b, 0, start, entries) && EndAt(b, end, |entries|, DirectoryLength(entries), start)
  }
}
