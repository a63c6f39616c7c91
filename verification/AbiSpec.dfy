// The Solidity Contract ABI Specification, "Formal Specification of the Encoding", for the types the
// registry uses: static words, byte strings and tuples. Encodings are hexadecimal text.

module AbiSpec {
  import opened Text
  import opened Hex

  // A static word is its 64 digits.
  datatype Value = Static(word: string) | Bytes(bytes: seq<byte>) | Tuple(items: seq<Value>)

  predicate Dynamic(v: Value) {
    match v
    case Static(_) => false
    case Bytes(_) => true
    case Tuple(items) => exists i | 0 <= i < |items| :: Dynamic(items[i])
  }

  function PadRight(s: string): (r: string)
    ensures |r| % 64 == 0 && s <= r
  {
    s + Zeros(Missing(|s|))
  }

  // The digits that are missing to a whole number of words.
  function Missing(n: nat): (k: nat)
    ensures (n + k) % 64 == 0
  {
    (64 - n % 64) % 64
  }

  function Enc(v: Value): string
    decreases v, 0
  {
    match v
    case Static(word) => word
    case Bytes(b) => Fixed(|b|, 64) + PadRight(BytesHex(b))
    case Tuple(items) => Heads(items, HeadSize(items)) + Tails(items)
  }

  // Sizes and offsets are in bytes.
  function HeadSize(items: seq<Value>): nat
    decreases items, 1
  {
    if items == [] then 0
    else (if Dynamic(items[0]) then 32 else |Enc(items[0])| / 2) + HeadSize(items[1..])
  }

  // The head of a dynamic item is the offset of its tail.
  function Heads(items: seq<Value>, offset: nat): string
    decreases items, 1
  {
    if items == [] then ""
    else if Dynamic(items[0]) then Fixed(offset, 64) + Heads(items[1..], offset + |Enc(items[0])| / 2)
    else Enc(items[0]) + Heads(items[1..], offset)
  }

  function Tails(items: seq<Value>): string
    decreases items, 1
  {
    if items == [] then ""
    else (if Dynamic(items[0]) then Enc(items[0]) else "") + Tails(items[1..])
  }

  lemma BytesAreDynamic(b: seq<byte>)
    ensures Dynamic(Bytes(b))
  {}

  // One more item at the front.

  lemma ConsStatic(word: string, rest: seq<Value>, offset: nat)
    requires |word| == 64
    ensures HeadSize([Static(word)] + rest) == 32 + HeadSize(rest)
    ensures Heads([Static(word)] + rest, offset) == word + Heads(rest, offset)
    ensures Tails([Static(word)] + rest) == Tails(rest)
  {
    assert ([Static(word)] + rest)[1..] == rest;
  }

  lemma ConsDynamic(v: Value, rest: seq<Value>, offset: nat)
    requires Dynamic(v)
    ensures HeadSize([v] + rest) == 32 + HeadSize(rest)
    ensures Heads([v] + rest, offset) == Fixed(offset, 64) + Heads(rest, offset + |Enc(v)| / 2)
    ensures Tails([v] + rest) == Enc(v) + Tails(rest)
  {
    hide Enc, Dynamic, Fixed;
    assert ([v] + rest)[1..] == rest;
  }

  lemma NoItems(offset: nat)
    ensures HeadSize([]) == 0 && Heads([], offset) == "" && Tails([]) == ""
  {
  }

  lemma EncTuple(items: seq<Value>, size: nat)
    requires HeadSize(items) == size
    ensures Enc(Tuple(items)) == Heads(items, size) + Tails(items)
  {
  }

  // A tuple that holds one dynamic item: the offset 32, then the item.
  lemma EncOnlyItem(v: Value)
    requires Dynamic(v)
    ensures Enc(Tuple([v])) == Fixed(32, 64) + Enc(v)
  {
    hide Fixed;
    NoItems(32 + |Enc(v)| / 2);
    assert [v] == [v] + [];
    ConsDynamic(v, [], 32);
    EncTuple([v], 32);
    assert Fixed(32, 64) + "" == Fixed(32, 64);
    assert Enc(v) + "" == Enc(v);
  }
}
