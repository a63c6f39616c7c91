// The records that apps/web/lib/zip.js puts together, field by field, and where their fields stand.

module ZipRecords {
  import opened Hex
  import opened ZipFormat
  import opened ZipLayout
  import Crc32

  // ---- Reading fields ----

  lemma PartOfJoin(b: seq<byte>, o: nat, a: seq<byte>, rest: seq<byte>)
    requires o <= |b| && b[o..] == a + rest
    ensures o + |a| <= |b| && At(b, o, a) && b[o + |a|..] == rest
  {
    assert b[o..][..|a|] == a && b[o..][|a|..] == rest;
    assert b[o..o + |a|] == b[o..][..|a|] && b[o + |a|..] == b[o..][|a|..];
  }

  // From o on, b holds the fields from field k on and then rest.
  ghost predicate Holds(b: seq<byte>, o: nat, fields: seq<seq<byte>>, k: nat, rest: seq<byte>) {
    o <= |b| && k <= |fields| && b[o..] == Flatten(fields[k..]) + rest
  }

  lemma FirstField(b: seq<byte>, o: nat, fields: seq<seq<byte>>, rest: seq<byte>)
    requires o <= |b| && b[o..] == Flatten(fields) + rest
    ensures Holds(b, o, fields, 0, rest)
  {
    assert fields[0..] == fields;
  }

  lemma Field(b: seq<byte>, o: nat, fields: seq<seq<byte>>, k: nat, rest: seq<byte>, next: nat)
    requires Holds(b, o, fields, k, rest) && k < |fields| && next == o + |fields[k]|
    ensures At(b, o, fields[k]) && Holds(b, next, fields, k + 1, rest)
  {
    assert fields[k..][0] == fields[k] && fields[k..][1..] == fields[k + 1..];
    Regroup(fields[k], Flatten(fields[k + 1..]), rest);
    PartOfJoin(b, o, fields[k], Flatten(fields[k + 1..]) + rest);
  }

  lemma LastField(b: seq<byte>, o: nat, fields: seq<seq<byte>>, rest: seq<byte>)
    requires Holds(b, o, fields, |fields|, rest)
    ensures o <= |b| && b[o..] == rest
  {
    assert Flatten(fields[|fields|..]) == [];
    assert [] + rest == rest;
  }

  lemma CentralFieldsAre(name: seq<byte>, crc: bv32, size: nat, offset: nat)
    ensures var f := CentralFields(name, crc, size, offset);
      && |f| == 18
      && f[0] == U32(CENTRAL_SIGNATURE) && f[1] == f[2] == U16(20) && f[3] == U16(0x0800)
      && f[4] == f[5] == f[6] == U16(0) && f[7] == U32(crc as nat) && f[8] == f[9] == U32(size)
      && f[10] == U16(|name|) && f[11] == f[12] == f[13] == f[14] == U16(0) && f[15] == U32(0)
      && f[16] == U32(offset) && f[17] == name
  {
    hide U16, U32;
  }

  // The directory record up to its sizes ...
  lemma CentralFront(b: seq<byte>, o: nat, f: seq<seq<byte>>, rest: seq<byte>)
    requires Holds(b, o, f, 0, rest) && |f| == 18
    requires |f[0]| == |f[7]| == |f[8]| == |f[9]| == 4
    requires |f[1]| == |f[2]| == |f[3]| == |f[4]| == |f[5]| == |f[6]| == 2
    ensures At(b, o, f[0]) && At(b, o + 4, f[1]) && At(b, o + 6, f[2]) && At(b, o + 8, f[3]) && At(b, o + 10, f[4])
    ensures At(b, o + 12, f[5]) && At(b, o + 14, f[6]) && At(b, o + 16, f[7])
    ensures At(b, o + 20, f[8]) && At(b, o + 24, f[9])
    ensures Holds(b, o + 28, f, 10, rest)
  {
    hide Holds, At;
    Field(b, o, f, 0, rest, o + 4);
    Field(b, o + 4, f, 1, rest, o + 6);
    Field(b, o + 6, f, 2, rest, o + 8);
    Field(b, o + 8, f, 3, rest, o + 10);
    Field(b, o + 10, f, 4, rest, o + 12);
    Field(b, o + 12, f, 5, rest, o + 14);
    Field(b, o + 14, f, 6, rest, o + 16);
    Field(b, o + 16, f, 7, rest, o + 20);
    Field(b, o + 20, f, 8, rest, o + 24);
    Field(b, o + 24, f, 9, rest, o + 28);
  }

  // ... and from its lengths on.
  lemma CentralBack(b: seq<byte>, o: nat, f: seq<seq<byte>>, rest: seq<byte>)
    requires Holds(b, o + 28, f, 10, rest) && |f| == 18
    requires |f[10]| == |f[11]| == |f[12]| == |f[13]| == |f[14]| == 2 && |f[15]| == |f[16]| == 4
    ensures At(b, o + 28, f[10]) && At(b, o + 30, f[11]) && At(b, o + 32, f[12]) && At(b, o + 34, f[13])
    ensures At(b, o + 36, f[14]) && At(b, o + 38, f[15]) && At(b, o + 42, f[16]) && At(b, o + 46, f[17])
    ensures Holds(b, o + 46 + |f[17]|, f, 18, rest)
  {
    hide Holds, At;
    Field(b, o + 28, f, 10, rest, o + 30);
    Field(b, o + 30, f, 11, rest, o + 32);
    Field(b, o + 32, f, 12, rest, o + 34);
    Field(b, o + 34, f, 13, rest, o + 36);
    Field(b, o + 36, f, 14, rest, o + 38);
    Field(b, o + 38, f, 15, rest, o + 42);
    Field(b, o + 42, f, 16, rest, o + 46);
    Field(b, o + 46, f, 17, rest, o + 46 + |f[17]|);
  }

  lemma CentralStart(b: seq<byte>, o: nat, name: seq<byte>, crc: bv32, size: nat, offset: nat, rest: seq<byte>)
    requires o <= |b| && b[o..] == Flatten(CentralFields(name, crc, size, offset)) + rest
    ensures At(b, o, U32(CENTRAL_SIGNATURE)) && At(b, o + 4, U16(20)) && At(b, o + 6, U16(20))
    ensures At(b, o + 8, U16(0x0800)) && At(b, o + 10, U16(0)) && At(b, o + 12, U16(0)) && At(b, o + 14, U16(0))
    ensures At(b, o + 16, U32(crc as nat)) && At(b, o + 20, U32(size)) && At(b, o + 24, U32(size))
    ensures Holds(b, o + 28, CentralFields(name, crc, size, offset), 10, rest)
  {
    hide U16, U32, Flatten, Holds, At, CentralFields;
    var f := CentralFields(name, crc, size, offset);
    CentralFieldsAre(name, crc, size, offset);
    FirstField(b, o, f, rest);
    CentralFront(b, o, f, rest);
  }

  lemma CentralEnd(b: seq<byte>, o: nat, name: seq<byte>, crc: bv32, size: nat, offset: nat, rest: seq<byte>)
    requires Holds(b, o + 28, CentralFields(name, crc, size, offset), 10, rest)
    ensures At(b, o + 28, U16(|name|)) && At(b, o + 30, U16(0)) && At(b, o + 32, U16(0)) && At(b, o + 34, U16(0))
    ensures At(b, o + 36, U16(0)) && At(b, o + 38, U32(0)) && At(b, o + 42, U32(offset)) && At(b, o + 46, name)
    ensures o + 46 + |name| <= |b| && b[o + 46 + |name|..] == rest
  {
    hide U16, U32, Flatten, Holds, At, CentralFields;
    var f := CentralFields(name, crc, size, offset);
    CentralFieldsAre(name, crc, size, offset);
    CentralBack(b, o, f, rest);
    LastField(b, o + 46 + |name|, f, rest);
  }

  lemma LocalFieldsAre(name: seq<byte>, crc: bv32, size: nat)
    ensures var f := LocalFields(name, crc, size);
      && |f| == 12
      && f[0] == U32(LOCAL_SIGNATURE) && f[1] == U16(20) && f[2] == U16(0x0800) && f[3] == f[4] == f[5] == U16(0)
      && f[6] == U32(crc as nat) && f[7] == f[8] == U32(size)
      && f[9] == U16(|name|) && f[10] == U16(0) && f[11] == name
  {
    hide U16, U32;
  }

  lemma LocalFront(b: seq<byte>, o: nat, f: seq<seq<byte>>, rest: seq<byte>)
    requires Holds(b, o, f, 0, rest) && |f| == 12
    requires |f[0]| == |f[6]| == |f[7]| == |f[8]| == 4 && |f[1]| == |f[2]| == |f[3]| == |f[4]| == |f[5]| == 2
    ensures At(b, o, f[0]) && At(b, o + 4, f[1]) && At(b, o + 6, f[2]) && At(b, o + 8, f[3]) && At(b, o + 10, f[4])
    ensures At(b, o + 12, f[5]) && At(b, o + 14, f[6]) && At(b, o + 18, f[7]) && At(b, o + 22, f[8])
    ensures Holds(b, o + 26, f, 9, rest)
  {
    hide Holds, At;
    Field(b, o, f, 0, rest, o + 4);
    Field(b, o + 4, f, 1, rest, o + 6);
    Field(b, o + 6, f, 2, rest, o + 8);
    Field(b, o + 8, f, 3, rest, o + 10);
    Field(b, o + 10, f, 4, rest, o + 12);
    Field(b, o + 12, f, 5, rest, o + 14);
    Field(b, o + 14, f, 6, rest, o + 18);
    Field(b, o + 18, f, 7, rest, o + 22);
    Field(b, o + 22, f, 8, rest, o + 26);
  }

  lemma LocalFieldsRead(b: seq<byte>, o: nat, name: seq<byte>, crc: bv32, size: nat, rest: seq<byte>)
    requires o <= |b| && b[o..] == Flatten(LocalFields(name, crc, size)) + rest
    ensures At(b, o, U32(LOCAL_SIGNATURE)) && At(b, o + 4, U16(20)) && At(b, o + 6, U16(0x0800))
    ensures At(b, o + 8, U16(0)) && At(b, o + 10, U16(0)) && At(b, o + 12, U16(0))
    ensures At(b, o + 14, U32(crc as nat)) && At(b, o + 18, U32(size)) && At(b, o + 22, U32(size))
    ensures At(b, o + 26, U16(|name|)) && At(b, o + 28, U16(0)) && At(b, o + 30, name)
    ensures o + 30 + |name| <= |b| && b[o + 30 + |name|..] == rest
  {
    hide U16, U32, Flatten, Holds, At, LocalFields;
    var f := LocalFields(name, crc, size);
    LocalFieldsAre(name, crc, size);
    FirstField(b, o, f, rest);
    LocalFront(b, o, f, rest);
    Field(b, o + 26, f, 9, rest, o + 28);
    Field(b, o + 28, f, 10, rest, o + 30);
    Field(b, o + 30, f, 11, rest, o + 30 + |name|);
    LastField(b, o + 30 + |name|, f, rest);
  }

  lemma EndFieldsAre(count: nat, length: nat, offset: nat)
    ensures var f := EndFields(count, length, offset);
      && |f| == 8
      && f[0] == U32(END_SIGNATURE) && f[1] == f[2] == U16(0) && f[3] == f[4] == U16(count)
      && f[5] == U32(length) && f[6] == U32(offset) && f[7] == U16(0)
  {
    hide U16, U32;
  }

  lemma EndFieldsRead(b: seq<byte>, o: nat, count: nat, length: nat, offset: nat)
    requires o <= |b| && b[o..] == Flatten(EndFields(count, length, offset))
    ensures At(b, o, U32(END_SIGNATURE)) && At(b, o + 4, U16(0)) && At(b, o + 6, U16(0))
    ensures At(b, o + 8, U16(count)) && At(b, o + 10, U16(count)) && At(b, o + 12, U32(length))
    ensures At(b, o + 16, U32(offset)) && At(b, o + 20, U16(0))
    ensures o + 22 == |b|
  {
    hide U16, U32, Flatten, Holds, At, EndFields;
    var f := EndFields(count, length, offset);
    EndFieldsAre(count, length, offset);
    assert Flatten(f) == Flatten(f) + [];
    FirstField(b, o, f, []);
    Field(b, o, f, 0, [], o + 4);
    Field(b, o + 4, f, 1, [], o + 6);
    Field(b, o + 6, f, 2, [], o + 8);
    Field(b, o + 8, f, 3, [], o + 10);
    Field(b, o + 10, f, 4, [], o + 12);
    Field(b, o + 12, f, 5, [], o + 16);
    Field(b, o + 16, f, 6, [], o + 20);
    Field(b, o + 20, f, 7, [], o + 22);
    LastField(b, o + 22, f, []);
  }

  // ---- The same as numbers ----

  // They read "PK" and two more bytes.
  lemma Signatures()
    ensures U32(LOCAL_SIGNATURE) == [0x50, 0x4B, 3, 4]
    ensures U32(CENTRAL_SIGNATURE) == [0x50, 0x4B, 1, 2]
    ensures U32(END_SIGNATURE) == [0x50, 0x4B, 5, 6]
  {}

  lemma CrcFits(crc: bv32)
    ensures crc as nat < 0x1_0000_0000
  {}

  // A local header with its data, from o on.
  lemma LocalWritten(b: seq<byte>, o: nat, name: seq<byte>, data: seq<byte>, rest: seq<byte>)
    requires |name| < 0x1_0000 && |data| < 0x1_0000_0000
    requires o <= |b| && b[o..] == Flatten(LocalFields(name, Crc32.Crc(AsBits(data)), |data|)) + (data + rest)
    ensures LocalAt(b, o, name, |data|)
    ensures b[o + 30 + |name|..o + 30 + |name| + |data|] == data
    ensures b[o + 30 + |name| + |data|..] == rest
  {
    hide U16, U32, U16At, U32At, Flatten, LocalFields, AsBits, Crc32.Crc, At;
    var crc := Crc32.Crc(AsBits(data));
    LocalFieldsRead(b, o, name, crc, |data|, data + rest);
    PartOfJoin(b, o + 30 + |name|, data, rest);
    assert b[o + 30 + |name|..o + 30 + |name| + |data|] == data by { AtIs(b, o + 30 + |name|, data); }
    assert b[o + 30..o + 30 + |name|] == name by { AtIs(b, o + 30, name); }
    LocalNumbers(b, o, |name|, crc, |data|);
  }

  lemma AtIs(b: seq<byte>, o: nat, x: seq<byte>)
    requires At(b, o, x)
    ensures o + |x| <= |b| && b[o..o + |x|] == x
  {}

  lemma LocalNumbers(b: seq<byte>, o: nat, nameLength: nat, crc: bv32, size: nat)
    requires At(b, o, U32(LOCAL_SIGNATURE)) && At(b, o + 4, U16(20)) && At(b, o + 6, U16(0x0800))
    requires At(b, o + 8, U16(0)) && At(b, o + 10, U16(0)) && At(b, o + 12, U16(0))
    requires At(b, o + 14, U32(crc as nat)) && At(b, o + 18, U32(size)) && At(b, o + 22, U32(size))
    requires At(b, o + 26, U16(nameLength)) && At(b, o + 28, U16(0))
    requires nameLength < 0x1_0000 && size < 0x1_0000_0000
    ensures o + 30 <= |b| && b[o..o + 4] == [0x50, 0x4B, 3, 4]
    ensures U16At(b, o + 4) == 20 && U16At(b, o + 6) == 0x0800 && U16At(b, o + 8) == 0
    ensures U16At(b, o + 10) == 0 && U16At(b, o + 12) == 0
    ensures U32At(b, o + 14) == crc as nat && U32At(b, o + 18) == size && U32At(b, o + 22) == size
    ensures U16At(b, o + 26) == nameLength && U16At(b, o + 28) == 0
  {
    hide U16, U32, U16At, U32At, At;
    CrcFits(crc);
    Signatures();
    AtIs(b, o, U32(LOCAL_SIGNATURE));
    U16ReadsBack(b, o + 4, 20);
    U16ReadsBack(b, o + 6, 0x0800);
    U16ReadsBack(b, o + 8, 0);
    U16ReadsBack(b, o + 10, 0);
    U16ReadsBack(b, o + 12, 0);
    U32ReadsBack(b, o + 14, crc as nat);
    U32ReadsBack(b, o + 18, size);
    U32ReadsBack(b, o + 22, size);
    U16ReadsBack(b, o + 26, nameLength);
    U16ReadsBack(b, o + 28, 0);
  }

  // The directory record at c of data that stands behind its local header at o.
  lemma CentralWritten(b: seq<byte>, c: nat, o: nat, name: seq<byte>, data: seq<byte>, rest: seq<byte>)
    requires |name| < 0x1_0000 && |data| < 0x1_0000_0000 && o < 0x1_0000_0000
    requires c <= |b| && b[c..] == Flatten(CentralFields(name, Crc32.Crc(AsBits(data)), |data|, o)) + rest
    requires o + 30 + |name| + |data| <= |b| && b[o + 30 + |name|..o + 30 + |name| + |data|] == data
    ensures CentralAt(b, c, o, name, |data|) && b[c + 46 + |name|..] == rest
  {
    hide U16, U32, U16At, U32At, Flatten, CentralFields, AsBits, Crc32.Crc, At;
    var crc := Crc32.Crc(AsBits(data));
    CentralStart(b, c, name, crc, |data|, o, rest);
    CentralEnd(b, c, name, crc, |data|, o, rest);
    assert b[c + 46..c + 46 + |name|] == name by { AtIs(b, c + 46, name); }
    CentralNumbers(b, c, crc, |data|);
    CentralLengths(b, c, |name|, o);
  }

  lemma CentralNumbers(b: seq<byte>, c: nat, crc: bv32, size: nat)
    requires At(b, c, U32(CENTRAL_SIGNATURE)) && At(b, c + 4, U16(20)) && At(b, c + 6, U16(20))
    requires At(b, c + 8, U16(0x0800)) && At(b, c + 10, U16(0)) && At(b, c + 12, U16(0)) && At(b, c + 14, U16(0))
    requires At(b, c + 16, U32(crc as nat)) && At(b, c + 20, U32(size)) && At(b, c + 24, U32(size))
    requires size < 0x1_0000_0000
    ensures c + 28 <= |b| && b[c..c + 4] == [0x50, 0x4B, 1, 2]
    ensures U16At(b, c + 4) == 20 && U16At(b, c + 6) == 20 && U16At(b, c + 8) == 0x0800 && U16At(b, c + 10) == 0
    ensures U16At(b, c + 12) == 0 && U16At(b, c + 14) == 0
    ensures U32At(b, c + 16) == crc as nat && U32At(b, c + 20) == size && U32At(b, c + 24) == size
  {
    hide U16, U32, U16At, U32At, At;
    CrcFits(crc);
    Signatures();
    AtIs(b, c, U32(CENTRAL_SIGNATURE));
    U16ReadsBack(b, c + 4, 20);
    U16ReadsBack(b, c + 6, 20);
    U16ReadsBack(b, c + 8, 0x0800);
    U16ReadsBack(b, c + 10, 0);
    U16ReadsBack(b, c + 12, 0);
    U16ReadsBack(b, c + 14, 0);
    U32ReadsBack(b, c + 16, crc as nat);
    U32ReadsBack(b, c + 20, size);
    U32ReadsBack(b, c + 24, size);
  }

  lemma CentralLengths(b: seq<byte>, c: nat, nameLength: nat, o: nat)
    requires At(b, c + 28, U16(nameLength)) && At(b, c + 30, U16(0)) && At(b, c + 32, U16(0)) && At(b, c + 34, U16(0))
    requires At(b, c + 36, U16(0)) && At(b, c + 38, U32(0)) && At(b, c + 42, U32(o))
    requires nameLength < 0x1_0000 && o < 0x1_0000_0000
    ensures c + 46 <= |b|
    ensures U16At(b, c + 28) == nameLength && U16At(b, c + 30) == 0 && U16At(b, c + 32) == 0
    ensures U16At(b, c + 34) == 0 && U16At(b, c + 36) == 0 && U32At(b, c + 38) == 0 && U32At(b, c + 42) == o
  {
    hide U16, U32, U16At, U32At, At;
    U16ReadsBack(b, c + 28, nameLength);
    U16ReadsBack(b, c + 30, 0);
    U16ReadsBack(b, c + 32, 0);
    U16ReadsBack(b, c + 34, 0);
    U16ReadsBack(b, c + 36, 0);
    U32ReadsBack(b, c + 38, 0);
    U32ReadsBack(b, c + 42, o);
  }

  lemma EndWritten(b: seq<byte>, e: nat, count: nat, length: nat, start: nat)
    requires e <= |b| && b[e..] == Flatten(EndFields(count, length, start))
    requires count < 0x1_0000 && length < 0x1_0000_0000 && start < 0x1_0000_0000
    ensures EndAt(b, e, count, length, start)
  {
    hide U16, U32, U16At, U32At, Flatten, EndFields, At;
    EndFieldsRead(b, e, count, length, start);
    Signatures();
    AtIs(b, e, U32(END_SIGNATURE));
    U16ReadsBack(b, e + 4, 0);
    U16ReadsBack(b, e + 6, 0);
    U16ReadsBack(b, e + 8, count);
    U16ReadsBack(b, e + 10, count);
    U32ReadsBack(b, e + 12, length);
    U32ReadsBack(b, e + 16, start);
    U16ReadsBack(b, e + 20, 0);
  }

  lemma HeaderLengths(e: Entry, offset: nat)
    ensures |LocalHeader(e)| == 30 + |NameBytes(e)| && |CentralHeader(e, offset)| == 46 + |NameBytes(e)|
  {
    hide NameBytes, DataBytes;
    var name, data := NameBytes(e), DataBytes(e);
    var crc := Crc32.Crc(AsBits(data));
    var h, g := LocalHeader(e), CentralHeader(e, offset);
    assert h + [] == h && h[0..] == h && g + [] == g && g[0..] == g;
    LocalFieldsRead(h, 0, name, crc, |data|, []);
    CentralStart(g, 0, name, crc, |data|, offset, []);
    CentralEnd(g, 0, name, crc, |data|, offset, []);
  }

  // ---- The whole archive ----

  lemma {:induction false} PartLengths(entries: seq<Entry>, offset: nat)
    ensures |Locals(entries)| == LocalLength(entries) && |Central(entries, offset)| == DirectoryLength(entries)
    decreases |entries|
  {
    hide NameBytes, DataBytes, LocalHeader, CentralHeader;
    if entries != [] {
      HeaderLengths(entries[0], offset);
      PartLengths(entries[1..], offset + |LocalHeader(entries[0])| + |DataBytes(entries[0])|);
    }
  }

  lemma LocalsBegin(b: seq<byte>, o: nat, entries: seq<Entry>, rest: seq<byte>)
    requires entries != [] && o <= |b| && b[o..] == Locals(entries) + rest
    ensures b[o..] == LocalHeader(entries[0]) + (DataBytes(entries[0]) + (Locals(entries[1..]) + rest))
  {
    hide LocalHeader, DataBytes;
    Regroup(LocalHeader(entries[0]) + DataBytes(entries[0]), Locals(entries[1..]), rest);
    Regroup(LocalHeader(entries[0]), DataBytes(entries[0]), Locals(entries[1..]) + rest);
  }

  lemma CentralBegins(b: seq<byte>, c: nat, o: nat, entries: seq<Entry>, rest: seq<byte>, next: nat)
    requires entries != [] && next == o + 30 + |NameBytes(entries[0])| + |DataBytes(entries[0])|
    requires c <= |b| && b[c..] == Central(entries, o) + rest
    ensures b[c..] == CentralHeader(entries[0], o) + (Central(entries[1..], next) + rest)
  {
    hide LocalHeader, CentralHeader, NameBytes, DataBytes;
    HeaderLengths(entries[0], o);
    Regroup(CentralHeader(entries[0], o), Central(entries[1..], next), rest);
  }

  lemma EntryWrittenAt(b: seq<byte>, o: nat, c: nat, e: Entry, localRest: seq<byte>, centralRest: seq<byte>)
    requires |b| < 0x1_0000_0000 && |NameBytes(e)| < 0x1_0000
    requires o <= |b| && b[o..] == LocalHeader(e) + (DataBytes(e) + localRest)
    requires c <= |b| && b[c..] == CentralHeader(e, o) + centralRest
    ensures EntryAt(b, o, c, e)
    ensures o + 30 + |NameBytes(e)| + |DataBytes(e)| <= |b| && c + 46 + |NameBytes(e)| <= |b|
    ensures b[o + 30 + |NameBytes(e)| + |DataBytes(e)|..] == localRest && b[c + 46 + |NameBytes(e)|..] == centralRest
  {
    hide NameBytes, DataBytes, Flatten, CentralFields, LocalFields, LocalAt, CentralAt, AsBits, Crc32.Crc;
    var name, data := NameBytes(e), DataBytes(e);
    LocalWritten(b, o, name, data, localRest);
    Inside(b, o, name, |data|);
    CentralWritten(b, c, o, name, data, centralRest);
    InsideDirectory(b, c, o, name, |data|);
  }

  lemma Inside(b: seq<byte>, o: nat, name: seq<byte>, size: nat)
    requires LocalAt(b, o, name, size)
    ensures o + 30 + |name| + size <= |b|
  {}

  lemma InsideDirectory(b: seq<byte>, c: nat, o: nat, name: seq<byte>, size: nat)
    requires CentralAt(b, c, o, name, size)
    ensures c + 46 + |name| <= |b|
  {}

  lemma {:induction false} EntriesWritten(b: seq<byte>, o: nat, c: nat, entries: seq<Entry>, localRest: seq<byte>,
                                          centralRest: seq<byte>)
    requires |b| < 0x1_0000_0000 && forall e <- entries :: |NameBytes(e)| < 0x1_0000
    requires o <= |b| && b[o..] == Locals(entries) + localRest
    requires c <= |b| && b[c..] == Central(entries, o) + centralRest
    ensures EntriesAt(b, o, c, entries)
    decreases |entries|
  {
    hide NameBytes, DataBytes, Locals, Central, LocalHeader, CentralHeader, EntryAt;
    if entries != [] {
      var e, rest := entries[0], entries[1..];
      assert e in entries;
      var o', c' := o + 30 + |NameBytes(e)| + |DataBytes(e)|, c + 46 + |NameBytes(e)|;
      LocalsBegin(b, o, entries, localRest);
      CentralBegins(b, c, o, entries, centralRest, o');
      EntryWrittenAt(b, o, c, e, Locals(rest) + localRest, Central(rest, o') + centralRest);
      EntriesWritten(b, o', c', rest, localRest, centralRest);
      forall i | 0 <= i < |entries|
        ensures EntryAt(b, o + LocalLength(entries[..i]), c + DirectoryLength(entries[..i]), entries[i])
      {
        if i > 0 {
          assert entries[..i][1..] == rest[..i - 1] && entries[i] == rest[i - 1];
        }
      }
    }
  }

  lemma ArchiveIsZip(entries: seq<Entry>)
    requires Fits(entries)
    ensures IsZip(Archive(entries), entries)
  {
    hide Flatten, U16At, U32At, Locals, Central, U16, U32, EndFields, NameBytes, DataBytes, EntriesAt, EndAt;
    var b := Archive(entries);
    var locals, central, end := Locals(entries), Central(entries, 0), End(entries);
    var start := LocalLength(entries);
    var last := start + DirectoryLength(entries);
    PartLengths(entries, 0);
    Regroup(locals, central, end);
    assert b[0..] == b;
    PartOfJoin(b, 0, locals, central + end);
    PartOfJoin(b, start, central, end);
    EndFieldsRead(b, last, |entries|, |central|, start);
    EndWritten(b, last, |entries|, |central|, start);
    EntriesWritten(b, 0, start, entries, central + end, end);
  }
}
