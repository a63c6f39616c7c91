// apps/web/lib/zip.js: concat and createZip.

module ZipWriter {
  import opened Hex
  import opened Utf8
  import opened ZipFormat
  import opened ZipLayout
  import opened ZipRecords
  import Crc32

  lemma JoinAssociates(p: seq<byte>, q: seq<byte>, r: seq<byte>)
    ensures (p + q) + r == p + (q + r)
  {}

  lemma {:induction false} FlattenOfJoin(a: seq<seq<byte>>, b: seq<seq<byte>>)
    ensures Flatten(a + b) == Flatten(a) + Flatten(b)
  {
    if a == [] {
      assert a + b == b;
    } else {
      FlattenOfJoin(a[1..], b);
      assert (a + b)[1..] == a[1..] + b;
      JoinAssociates(a[0], Flatten(a[1..]), Flatten(b));
    }
  }

  lemma FlattenOfOne(p: seq<byte>)
    ensures Flatten([p]) == p
  {
    var parts := [p];
    assert parts[1..] == [];
    assert p + Flatten(parts[1..]) == p;
  }

  lemma FlattenOfPair(p: seq<byte>, q: seq<byte>)
    ensures Flatten([p, q]) == p + q
  {
    var parts := [p, q];
    assert parts[1..] == [q];
    FlattenOfOne(q);
  }

  method Concat(parts: seq<seq<byte>>) returns (output: array<byte>)
    ensures fresh(output) && output[..] == Flatten(parts)
  {
    var length := 0;
    for i := 0 to |parts|
      invariant length == |Flatten(parts[..i])|
    {
      assert parts[..i + 1] == parts[..i] + [parts[i]];
      FlattenOfJoin(parts[..i], [parts[i]]);
      FlattenOfOne(parts[i]);
      length := length + |parts[i]|;
    }
    assert parts[..|parts|] == parts && parts[0..] == parts;
    output := new byte[length](i => 0);
    var offset := 0;
    for i := 0 to |parts|
      invariant offset == |Flatten(parts[..i])| && offset + |Flatten(parts[i..])| == output.Length
      invariant output[..offset] == Flatten(parts[..i])
    {
      assert parts[..i + 1] == parts[..i] + [parts[i]];
      FlattenOfJoin(parts[..i], [parts[i]]);
      FlattenOfOne(parts[i]);
      assert parts[i..][1..] == parts[i + 1..];
      ghost var done := output[..offset];
      forall k | 0 <= k < |parts[i]| {
        output[offset + k] := parts[i][k];
      }
      assert output[..offset + |parts[i]|] == done + parts[i];
      offset := offset + |parts[i]|;
    }
    assert offset == output.Length;
    assert output[..] == output[..offset];
  }

  method CreateZip(entries: seq<Entry>) returns (archive: array<byte>)
    ensures archive[..] == Archive(entries)
    ensures Fits(entries) ==> IsZip(archive[..], entries)
  {
    hide Flatten, LocalFields, CentralFields, EndFields, Central, Locals, NameBytes, DataBytes, AsBits, IsZip, Fits;
    var localParts: seq<seq<byte>> := [];
    var centralParts: seq<seq<byte>> := [];
    var offset := 0;
    NothingWritten(entries);
    for i := 0 to |entries|
      invariant offset == |Flatten(localParts)|
      invariant Flatten(localParts) + Locals(entries[i..]) == Locals(entries)
      invariant Flatten(centralParts) + Central(entries[i..], offset) == Central(entries, 0)
    {
      var entry := entries[i];
      var name, data := NameBytes(entry), DataBytes(entry);
      var checksum := Crc32.Checksum(AsBits(data));
      var localHeader := Concat(LocalFields(name, checksum, |data|));
      var centralHeader := Concat(CentralFields(name, checksum, |data|, offset));
      EntryWritten(entries, i, localParts, centralParts, offset, localHeader[..], centralHeader[..]);
      localParts := localParts + [localHeader[..], data];
      centralParts := centralParts + [centralHeader[..]];
      offset := offset + localHeader.Length + |data|;
    }
    var central := Concat(centralParts);
    var end := Concat(EndFields(|entries|, central.Length, offset));
    AllWritten(entries, localParts, centralParts, offset);
    FlattenOfJoin(localParts, [central[..], end[..]]);
    FlattenOfPair(central[..], end[..]);
    archive := Concat(localParts + [central[..], end[..]]);
    Regroup(Locals(entries), central[..], end[..]);
    if Fits(entries) {
      ArchiveIsZip(entries);
    }
  }

  lemma NothingWritten(entries: seq<Entry>)
    ensures Flatten([]) == []
    ensures Flatten([]) + Locals(entries[0..]) == Locals(entries)
    ensures Flatten([]) + Central(entries[0..], 0) == Central(entries, 0)
  {
    assert entries[0..] == entries;
  }

  lemma EntryWritten(entries: seq<Entry>, i: nat, localParts: seq<seq<byte>>, centralParts: seq<seq<byte>>, offset: nat,
                     localHeader: seq<byte>, centralHeader: seq<byte>)
    requires i < |entries|
    requires localHeader == LocalHeader(entries[i]) && centralHeader == CentralHeader(entries[i], offset)
    ensures var data := DataBytes(entries[i]);
      var locals := localParts + [localHeader, data];
      && |Flatten(locals)| == |Flatten(localParts)| + |localHeader| + |data|
      && Flatten(locals) + Locals(entries[i + 1..]) == Flatten(localParts) + Locals(entries[i..])
      && Flatten(centralParts + [centralHeader]) + Central(entries[i + 1..], offset + |localHeader| + |data|)
         == Flatten(centralParts) + Central(entries[i..], offset)
  {
    hide Flatten, LocalHeader, CentralHeader, DataBytes;
    var data := DataBytes(entries[i]);
    assert entries[i..][1..] == entries[i + 1..];
    FlattenOfJoin(localParts, [localHeader, data]);
    FlattenOfPair(localHeader, data);
    Regroup(Flatten(localParts), localHeader + data, Locals(entries[i + 1..]));
    FlattenOfJoin(centralParts, [centralHeader]);
    FlattenOfOne(centralHeader);
    Regroup(Flatten(centralParts), centralHeader, Central(entries[i + 1..], offset + |localHeader| + |data|));
  }

  lemma AllWritten(entries: seq<Entry>, localParts: seq<seq<byte>>, centralParts: seq<seq<byte>>, offset: nat)
    requires Flatten(localParts) + Locals(entries[|entries|..]) == Locals(entries)
    requires Flatten(centralParts) + Central(entries[|entries|..], offset) == Central(entries, 0)
    ensures Flatten(localParts) == Locals(entries) && Flatten(centralParts) == Central(entries, 0)
  {
    assert Locals(entries[|entries|..]) == [] && Central(entries[|entries|..], offset) == [];
  }
}
