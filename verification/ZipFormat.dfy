// The little-endian numbers and the records of a ZIP archive (sections 4.3.7, 4.3.12 and 4.3.16 of
// APPNOTE.TXT) with the fields that apps/web/lib/zip.js gives them.

module ZipFormat {
  import opened Hex
  import opened Utf8
  import Crc32

  const LOCAL_SIGNATURE: nat := 0x04034b50
  const CENTRAL_SIGNATURE: nat := 0x02014b50
  const END_SIGNATURE: nat := 0x06054b50

  function Low(v: nat): byte {
    v % 256
  }

  // u16 and u32: the low 16 and the low 32 bits.
  function U16(v: nat): (b: seq<byte>)
    ensures |b| == 2
  {
    var high: nat := v / 256;
    [Low(v), Low(high)]
  }

  function U32(v: nat): (b: seq<byte>)
    ensures |b| == 4
  {
    var high: nat := v / 256;
    var higher: nat := high / 256;
    var highest: nat := higher / 256;
    [Low(v), Low(high), Low(higher), Low(highest)]
  }

  function U16At(b: seq<byte>, o: nat): nat
    requires o + 2 <= |b|
  {
    var low: nat := b[o];
    var high: nat := b[o + 1];
    low + 256 * high
  }

  function U32At(b: seq<byte>, o: nat): nat
    requires o + 4 <= |b|
  {
    U16At(b, o) + 0x1_0000 * U16At(b, o + 2)
  }

  // The bytes x stand in b at o.
  ghost predicate At(b: seq<byte>, o: nat, x: seq<byte>) {
    o + |x| <= |b| && b[o..o + |x|] == x
  }

  lemma U16ReadsBack(b: seq<byte>, o: nat, v: nat)
    requires At(b, o, U16(v)) && v < 0x1_0000
    ensures o + 2 <= |b| && U16At(b, o) == v
  {
    assert b[o] == b[o..o + 2][0] && b[o + 1] == b[o..o + 2][1];
  }

  lemma U32ReadsBack(b: seq<byte>, o: nat, v: nat)
    requires At(b, o, U32(v)) && v < 0x1_0000_0000
    ensures o + 4 <= |b| && U32At(b, o) == v
  {
    var s := b[o..o + 4];
    assert b[o] == s[0] && b[o + 1] == s[1] && b[o + 2] == s[2] && b[o + 3] == s[3];
    FourDigits(v);
  }

  lemma FourDigits(v: nat)
    requires v < 0x1_0000_0000
    ensures v == v % 256 + 256 * (v / 256 % 256) + 0x1_0000 * (v / 256 / 256 % 256 + 256 * (v / 256 / 256 / 256 % 256))
  {
    assert v / 256 / 256 / 256 < 256;
  }

  function Flatten(parts: seq<seq<byte>>): seq<byte> {
    if parts == [] then [] else parts[0] + Flatten(parts[1..])
  }

  // ---- Entries and their records ----

  // data is bytes, or text that is encoded.
  datatype Data = Bytes(bytes: seq<byte>) | Text(text: Unicode)

  datatype Entry = Entry(name: Unicode, data: Data)

  const BACKSLASH: Scalar := 0x5C
  const SLASH: Scalar := 0x2F

  // replaceAll('\\', '/')
  function Slashes(t: Unicode): (r: Unicode)
    ensures |r| == |t|
  {
    seq(|t|, i requires 0 <= i < |t| => if t[i] == BACKSLASH then SLASH else t[i])
  }

  function NameBytes(e: Entry): seq<byte> {
    Encode(Slashes(e.name))
  }

  function DataBytes(e: Entry): seq<byte> {
    if e.data.Bytes? then e.data.bytes else Encode(e.data.text)
  }

  function AsBits(b: seq<byte>): seq<bv8> {
    seq(|b|, i requires 0 <= i < |b| => b[i] as bv8)
  }

  function LocalFields(name: seq<byte>, crc: bv32, size: nat): seq<seq<byte>> {
    [U32(LOCAL_SIGNATURE), U16(20), U16(0x0800), U16(0), U16(0), U16(0),
     U32(crc as nat), U32(size), U32(size), U16(|name|), U16(0), name]
  }

  function CentralFields(name: seq<byte>, crc: bv32, size: nat, offset: nat): seq<seq<byte>> {
    [U32(CENTRAL_SIGNATURE), U16(20), U16(20), U16(0x0800), U16(0), U16(0), U16(0),
     U32(crc as nat), U32(size), U32(size), U16(|name|), U16(0), U16(0),
     U16(0), U16(0), U32(0), U32(offset), name]
  }

  function EndFields(count: nat, centralLength: nat, offset: nat): seq<seq<byte>> {
    [U32(END_SIGNATURE), U16(0), U16(0), U16(count), U16(count), U32(centralLength), U32(offset), U16(0)]
  }

  function LocalHeader(e: Entry): seq<byte> {
    Flatten(LocalFields(NameBytes(e), Crc32.Crc(AsBits(DataBytes(e))), |DataBytes(e)|))
  }

  function CentralHeader(e: Entry, offset: nat): seq<byte> {
    Flatten(CentralFields(NameBytes(e), Crc32.Crc(AsBits(DataBytes(e))), |DataBytes(e)|, offset))
  }

  function Locals(entries: seq<Entry>): seq<byte> {
    if entries == [] then [] else LocalHeader(entries[0]) + DataBytes(entries[0]) + Locals(entries[1..])
  }

  function Central(entries: seq<Entry>, offset: nat): seq<byte> {
    if entries == [] then []
    else
      var next := offset + |LocalHeader(entries[0])| + |DataBytes(entries[0])|;
      CentralHeader(entries[0], offset) + Central(entries[1..], next)
  }

  function End(entries: seq<Entry>): seq<byte> {
    Flatten(EndFields(|entries|, |Central(entries, 0)|, |Locals(entries)|))
  }

  function Archive(entries: seq<Entry>): seq<byte> {
    Locals(entries) + Central(entries, 0) + End(entries)
  }

  lemma Regroup(a: seq<byte>, b: seq<byte>, c: seq<byte>)
    ensures (a + b) + c == a + (b + c)
  {}
}
