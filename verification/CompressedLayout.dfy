/**
 * The two layouts of a compressed message (section 2.2.42 of MS-SMB2). Nothing on the wire says
 * which one was written: a reader tries the unchained layout first and the chained one second.
 */
module CompressedLayout {
  import opened Bytes
  import opened Segments

  datatype Algorithm = Stored | Lznt1 | Lz77 | Lz77Huffman | PatternV1 | Lz4

  function Code(a: Algorithm): (code: nat)
    ensures code < U16
    ensures FromCode(code) == Some(a)
  {
    match a
    case Stored => 0
    case Lznt1 => 1
    case Lz77 => 2
    case Lz77Huffman => 3
    case PatternV1 => 4
    case Lz4 => 5
  }

  function FromCode(code: nat): (a: Option<Algorithm>) {
    match code
    case 0 => Some(Stored)
    case 1 => Some(Lznt1)
    case 2 => Some(Lz77)
    case 3 => Some(Lz77Huffman)
    case 4 => Some(PatternV1)
    case 5 => Some(Lz4)
    case _ => None
  }

  predicate SizeRequired(a: Algorithm) {
    a == Lznt1 || a == Lz77 || a == Lz77Huffman || a == Lz4
  }

  datatype Item = Item(algorithm: Algorithm, flags: nat, originalSize: Option<nat>, payload: seq<byte>)

  datatype Message =
    | Unchained(originalSize: nat, algorithm: Algorithm, data: seq<byte>)
    | Chained(originalSize: nat, items: seq<Item>)

  const MAGIC: seq<byte> := [0xfc, 0x53, 0x4d, 0x42]
  const UNCHAINED_SIZE: nat := 16
  const CHAINED_SIZE: nat := 8

  // ----- writing -----

  function SizeField(item: Item): (s: seq<byte>) {
    if item.originalSize.Some? then LE(item.originalSize.value, 4) else []
  }

  /** The length field of an item counts the size field when there is one. */
  function ItemLength(item: Item): (n: nat) {
    |item.payload| + if SizeRequired(item.algorithm) then 4 else 0
  }

  predicate ItemWritable(item: Item) {
    && (item.originalSize.Some? <==> SizeRequired(item.algorithm))
    && (item.originalSize.Some? ==> item.originalSize.value < U32)
    && item.flags < U16
    && ItemLength(item) < U32
  }

  function ItemHeader(item: Item): (s: seq<byte>)
    ensures |s| == 8
  {
    LE(Code(item.algorithm), 2) + LE(item.flags, 2) + LE(ItemLength(item), 4)
  }

  function ItemBytes(item: Item): (s: seq<byte>)
    ensures |s| >= 8
  {
    ItemHeader(item) + (SizeField(item) + item.payload)
  }

  function ItemsBytes(items: seq<Item>): (s: seq<byte>) {
    if items == [] then [] else ItemBytes(items[0]) + ItemsBytes(items[1..])
  }

  predicate Writable(m: Message) {
    && m.originalSize < U32
    && (m.Unchained? ==> m.algorithm != Stored)
    && (m.Chained? ==> forall i :: 0 <= i < |m.items| ==> ItemWritable(m.items[i]))
  }

  function UnchainedHeader(size: nat, algorithm: Algorithm): (s: seq<byte>)
    ensures |s| == UNCHAINED_SIZE
  {
    MAGIC + LE(size, 4) + LE(Code(algorithm), 2) + LE(0, 2) + LE(0, 4)
  }

  function MessageBytes(m: Message): (s: seq<byte>)
  {
    match m
    case Unchained(size, algorithm, data) => UnchainedHeader(size, algorithm) + data
    case Chained(size, items) => MAGIC + LE(size, 4) + ItemsBytes(items)
  }

  // ----- reading -----

  function Field(s: seq<byte>, at: nat, width: nat): (n: nat)
    requires at + width <= |s|
  {
    FromLE(s[at..at + width])
  }

  /** The unchained layout needs a known algorithm other than `Stored` and zero flags. */
  function ReadUnchained(s: seq<byte>): (m: Option<Message>)
  {
    if |s| < UNCHAINED_SIZE || s[..4] != MAGIC then None
    else
      var algorithm := FromCode(Field(s, 8, 2));
      if algorithm.None? || algorithm.value == Stored || Field(s, 10, 2) != 0 then None
      else Some(Unchained(Field(s, 4, 4), algorithm.value, Behind(s, UNCHAINED_SIZE + Field(s, 12, 4))))
  }

  /** The stream ended inside an item, the item is invalid, or it was read and `rest` remains. */
  datatype ItemRead = Ended | Invalid | Read(item: Item, rest: seq<byte>)

  /** A payload that runs past the end of the stream is cut off there. */
  function ReadPayload(
    algorithm: Algorithm, flags: nat, originalSize: Option<nat>, length: nat, s: seq<byte>)
    : (r: ItemRead)
  {
    if |s| < length then Read(Item(algorithm, flags, originalSize, s), [])
    else Read(Item(algorithm, flags, originalSize, s[..length]), s[length..])
  }

  function ReadItem(s: seq<byte>): (r: ItemRead)
    ensures r.Read? ==> |r.rest| < |s|
  {
    if |s| < 2 then Ended
    else
      var algorithm := FromCode(Field(s, 0, 2));
      if algorithm.None? then Invalid
      else if |s| < 8 then Ended
      else
        var flags, length := Field(s, 2, 2), Field(s, 4, 4);
        if !SizeRequired(algorithm.value) then ReadPayload(algorithm.value, flags, None, length, s[8..])
        else if |s| < 12 then Ended
        else if length < 4 then Invalid
        else ReadPayload(algorithm.value, flags, Some(Field(s, 8, 4)), length - 4, s[12..])
  }

  /** Items up to the end of the stream; a cut-off item header is dropped. */
  function ReadItems(s: seq<byte>): (items: Option<seq<Item>>)
    decreases |s|
  {
    match ReadItem(s)
    case Ended => Some([])
    case Invalid => None
    case Read(item, rest) => Prepend(item, ReadItems(rest))
  }

  function Prepend(item: Item, rest: Option<seq<Item>>): (items: Option<seq<Item>>) {
    match rest
    case None => None
    case Some(tail) => Some([item] + tail)
  }

  function ReadChained(s: seq<byte>): (m: Option<Message>)
  {
    if |s| < CHAINED_SIZE || s[..4] != MAGIC then None
    else
      match ReadItems(s[CHAINED_SIZE..])
      case None => None
      case Some(items) => Some(Chained(Field(s, 4, 4), items))
  }

  function ReadMessage(s: seq<byte>): (m: Option<Message>) {
    if ReadUnchained(s).Some? then ReadUnchained(s) else ReadChained(s)
  }

  // ----- round trips -----

  lemma {:induction false} FieldAt(head: seq<byte>, n: nat, width: nat, tail: seq<byte>)
    requires n < Capacity(width)
    ensures Field(head + LE(n, width) + tail, |head|, width) == n
  {
    var s := head + LE(n, width) + tail;
    assert s[|head|..|head| + width] == LE(n, width);
    LERoundTrip(n, width);
  }

  lemma {:induction false} ItemHeaderReads(item: Item, tail: seq<byte>)
    requires ItemWritable(item)
    ensures var s := ItemHeader(item) + tail;
      && Field(s, 0, 2) == Code(item.algorithm)
      && Field(s, 2, 2) == item.flags
      && Field(s, 4, 4) == ItemLength(item)
      && s[8..] == tail
  {
    Capacities();
    var s := ItemHeader(item) + tail;
    var code, flags, length := LE(Code(item.algorithm), 2), LE(item.flags, 2), LE(ItemLength(item), 4);
    assert s == [] + code + (flags + length + tail);
    FieldAt([], Code(item.algorithm), 2, flags + length + tail);
    assert s == code + flags + (length + tail);
    FieldAt(code, item.flags, 2, length + tail);
    assert s == (code + flags) + length + tail;
    FieldAt(code + flags, ItemLength(item), 4, tail);
  }

  lemma {:induction false} SizeFieldReads(item: Item, header: seq<byte>, rest: seq<byte>)
    requires item.originalSize.Some? && item.originalSize.value < U32 && |header| == 8
    ensures var s := header + (SizeField(item) + rest);
      |s| >= 12 && Field(s, 8, 4) == item.originalSize.value && s[12..] == rest
  {
    Capacities();
    var s := header + (SizeField(item) + rest);
    assert s == header + SizeField(item) + rest;
    FieldAt(header, item.originalSize.value, 4, rest);
  }

  /** A written item reads back as itself and leaves what follows it. */
  lemma {:induction false} ItemReads(item: Item, rest: seq<byte>)
    requires ItemWritable(item)
    ensures ReadItem(ItemBytes(item) + rest) == Read(item, rest)
  {
    var behind := SizeField(item) + (item.payload + rest);
    var s := ItemHeader(item) + behind;
    assert ItemBytes(item) + rest == s;
    ItemHeaderReads(item, behind);
    assert (item.payload + rest)[..|item.payload|] == item.payload;
    assert (item.payload + rest)[|item.payload|..] == rest;
    if item.originalSize.Some? {
      SizeFieldReads(item, ItemHeader(item), item.payload + rest);
    } else {
      assert behind == item.payload + rest;
    }
  }

  lemma {:induction false} ItemsRead(items: seq<Item>)
    requires forall i :: 0 <= i < |items| ==> ItemWritable(items[i])
    ensures ReadItems(ItemsBytes(items)) == Some(items)
  {
    if items != [] {
      ItemReads(items[0], ItemsBytes(items[1..]));
      ItemsRead(items[1..]);
      assert [items[0]] + items[1..] == items;
    }
  }

  lemma {:induction false} MagicReads(size: nat, tail: seq<byte>)
    requires size < U32
    ensures var s := MAGIC + LE(size, 4) + tail;
      s[..4] == MAGIC && Field(s, 4, 4) == size && s[8..] == tail
  {
    Capacities();
    FieldAt(MAGIC, size, 4, tail);
  }

  /** Whether the first item of a chained message looks like an unchained header. */
  predicate Ambiguous(items: seq<Item>) {
    items != [] && items[0].algorithm != Stored && items[0].flags == 0
  }

  lemma {:induction false} FieldsBehind(head: seq<byte>, tail: seq<byte>)
    requires |head| == 8 && |tail| >= 4
    ensures Field(head + tail, 8, 2) == Field(tail, 0, 2)
    ensures Field(head + tail, 10, 2) == Field(tail, 2, 2)
  {
    assert (head + tail)[8..10] == tail[0..2];
    assert (head + tail)[10..12] == tail[2..4];
  }

  lemma {:induction false} FirstItemFields(head: seq<byte>, item: Item, rest: seq<byte>)
    requires |head| == 8 && ItemWritable(item)
    ensures var s := head + (ItemBytes(item) + rest);
      |s| >= UNCHAINED_SIZE && Field(s, 8, 2) == Code(item.algorithm) && Field(s, 10, 2) == item.flags
  {
    var behind := SizeField(item) + item.payload + rest;
    assert ItemBytes(item) + rest == ItemHeader(item) + behind;
    ItemHeaderReads(item, behind);
    FieldsBehind(head, ItemHeader(item) + behind);
  }

  lemma {:induction false} ChainedAsUnchained(size: nat, items: seq<Item>)
    requires Writable(Chained(size, items))
    ensures ReadUnchained(MessageBytes(Chained(size, items))).Some? <==> Ambiguous(items)
  {
    MagicReads(size, ItemsBytes(items));
    if items != [] {
      FirstItemFields(MAGIC + LE(size, 4), items[0], ItemsBytes(items[1..]));
    }
  }

  /**
   * A chained message reads back as itself exactly when it has no items, or its first item is
   * stored or has a flag set.
   */
  lemma {:induction false} ChainedRoundTrip(size: nat, items: seq<Item>)
    requires Writable(Chained(size, items))
    ensures ReadMessage(MessageBytes(Chained(size, items))) == Some(Chained(size, items))
      <==> items == [] || items[0].algorithm == Stored || items[0].flags != 0
  {
    ChainedAsUnchained(size, items);
    if !Ambiguous(items) {
      MagicReads(size, ItemsBytes(items));
      ItemsRead(items);
    }
  }

  lemma {:induction false} FiveFields(
    m: seq<byte>, a: seq<byte>, b: seq<byte>, c: seq<byte>, d: seq<byte>, data: seq<byte>)
    requires |m| == |a| == |d| == 4 && |b| == |c| == 2
    ensures var s := (m + a + b + c + d) + data;
      && s[..4] == m && s[4..8] == a && s[8..10] == b && s[10..12] == c && s[12..16] == d
      && s[16..] == data
  {
  }

  lemma {:induction false} UnchainedHeaderReads(size: nat, algorithm: Algorithm, data: seq<byte>)
    requires size < U32
    ensures var s := UnchainedHeader(size, algorithm) + data;
      && s[..4] == MAGIC
      && Field(s, 4, 4) == size
      && Field(s, 8, 2) == Code(algorithm)
      && Field(s, 10, 2) == 0
      && Field(s, 12, 4) == 0
      && s[16..] == data
  {
    FiveFields(MAGIC, LE(size, 4), LE(Code(algorithm), 2), LE(0, 2), LE(0, 4), data);
    Capacities();
    LERoundTrip(size, 4);
    LERoundTrip(Code(algorithm), 2);
    LERoundTrip(0, 2);
    LERoundTrip(0, 4);
  }

  /** Every unchained message that can be written reads back as itself. */
  lemma {:induction false} UnchainedRoundTrip(size: nat, algorithm: Algorithm, data: seq<byte>)
    requires Writable(Unchained(size, algorithm, data))
    ensures ReadMessage(MessageBytes(Unchained(size, algorithm, data)))
      == Some(Unchained(size, algorithm, data))
  {
    UnchainedHeaderReads(size, algorithm, data);
  }
}
