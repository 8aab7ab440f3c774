/**
 * Compressing and decompressing messages: the chained form keeps the header as it is and picks
 * LZ4, PatternV1 or plain storage for the rest; the unchained form always uses LZ4.
 */
module Compression {
  import opened Bytes
  import opened CompressedLayout

  const HEADER_SIZE: nat := 64
  const MAX_FRAME_SIZE: nat := 0xff_ffff
  const PATTERN_SIZE: nat := 8

  datatype CompressionError =
    | UnsupportedAlgorithm | UnsupportedMethod | NoSupportedAlgorithm
    | InvalidCompressed | InvalidDecompressed | ChainFailed | SizeLimitExceeded
    | Lz4Failed | PatternPanics

  /** LZ4 as a foreign library; `expand` decompresses into a buffer of the given size. */
  datatype Codec = Codec(
    compress: seq<byte> -> seq<byte>,
    expand: (seq<byte>, nat) -> Option<seq<byte>>,
    bound: nat -> nat)

  ghost predicate Faithful(c: Codec) {
    && (forall d {:trigger c.compress(d)} :: c.expand(c.compress(d), |d|) == Some(d))
    && (forall s, n {:trigger c.expand(s, n)} :: c.expand(s, n).Some? ==> |c.expand(s, n).value| <= n)
    && (forall d {:trigger c.compress(d)} :: |c.compress(d)| <= c.bound(|d|))
  }

  /** The compiled-in algorithms, and the LZ4 library. */
  datatype Features = Features(pattern: bool, lz4: bool, codec: Codec)

  // ----- single algorithms -----

  function Repeat(b: byte, count: nat): (s: seq<byte>)
    ensures |s| == count
    ensures forall i :: 0 <= i < count ==> s[i] == b
  {
    seq(count, _ => b)
  }

  predicate Uniform(data: seq<byte>) {
    data != [] && forall i :: 0 <= i < |data| ==> data[i] == data[0]
  }

  function PatternOf(data: seq<byte>): (payload: seq<byte>)
    requires data != []
    ensures |payload| == PATTERN_SIZE
  {
    [data[0], 0, 0, 0] + LE(|data|, 4)
  }

  /** PatternV1 accepts exactly the runs of one byte. */
  method PatternCompress(data: seq<byte>) returns (r: Result<seq<byte>, CompressionError>)
    ensures r.Ok? <==> Uniform(data)
    ensures r.Ok? ==> r.value == PatternOf(data)
    ensures r.Err? ==> r.error == NoSupportedAlgorithm
  {
    if data == [] {
      return Err(NoSupportedAlgorithm);
    }
    var pattern := data[0];
    for i := 0 to |data|
      invariant forall k :: 0 <= k < i ==> data[k] == pattern
    {
      if data[i] != pattern {
        return Err(NoSupportedAlgorithm);
      }
    }
    r := Ok(PatternOf(data));
  }

  function PatternExpand(payload: seq<byte>): (r: Result<seq<byte>, CompressionError>) {
    if |payload| != PATTERN_SIZE then Err(PatternPanics)
    else Ok(Repeat(payload[0], FromLE(payload[4..8])))
  }

  function Lz4Expand(codec: Codec, payload: seq<byte>, size: Option<nat>)
    : (r: Result<seq<byte>, CompressionError>)
  {
    if size.None? then Err(InvalidCompressed)
    else match codec.expand(payload, size.value)
      case None => Err(Lz4Failed)
      case Some(data) => if |data| != size.value then Err(Lz4Failed) else Ok(data)
  }

  function Expand(f: Features, a: Algorithm, payload: seq<byte>, size: Option<nat>)
    : (r: Result<seq<byte>, CompressionError>)
  {
    if a == Stored then Ok(payload)
    else if a == PatternV1 && f.pattern then PatternExpand(payload)
    else if a == Lz4 && f.lz4 then Lz4Expand(f.codec, payload, size)
    else Err(UnsupportedAlgorithm)
  }

  /** A run of one byte survives PatternV1 exactly when its length fits 32 bits. */
  lemma {:induction false} PatternRoundTrip(data: seq<byte>)
    requires Uniform(data)
    ensures PatternExpand(PatternOf(data)) == Ok(data) <==> |data| < U32
  {
    Capacities();
    FitsField(|data|, 4);
    var payload := PatternOf(data);
    assert payload[4..8] == LE(|data|, 4);
    var expanded := PatternExpand(payload).value;
    if |data| < U32 {
      assert expanded == data;
    } else {
      assert |expanded| != |data|;
    }
  }

  // ----- chained -----

  /** What an item stands for; an announced item size must be met. */
  function ItemExpansion(f: Features, item: Item): (data: Option<seq<byte>>) {
    match Expand(f, item.algorithm, item.payload, item.originalSize)
    case Err(_) => None
    case Ok(data) =>
      if item.originalSize.Some? && item.originalSize.value != |data| then None else Some(data)
  }

  type ItemFn = Item -> Option<seq<byte>>

  function ExpansionIn(f: Features): (expand: ItemFn) {
    (item: Item) => ItemExpansion(f, item)
  }

  /** The expansions of the first `n` items, joined in order. */
  function Expansions(expand: ItemFn, items: seq<Item>, n: nat): (data: Option<seq<byte>>)
    requires n <= |items|
  {
    if n == 0 then Some([])
    else
      var before, last := Expansions(expand, items, n - 1), expand(items[n - 1]);
      if before.None? || last.None? then None else Some(before.value + last.value)
  }

  lemma {:induction false} ExpansionsGrow(expand: ItemFn, items: seq<Item>, i: nat, n: nat)
    requires i <= n <= |items|
    ensures Expansions(expand, items, n).Some? ==>
      && Expansions(expand, items, i).Some?
      && |Expansions(expand, items, i).value| <= |Expansions(expand, items, n).value|
    decreases n
  {
    if i < n {
      ExpansionsGrow(expand, items, i, n - 1);
    }
  }

  /** The meaning of a chained message: all items expand, to exactly the announced size. */
  function Meaning(expand: ItemFn, originalSize: nat, items: seq<Item>): (data: Option<seq<byte>>) {
    var data := Expansions(expand, items, |items|);
    if originalSize >= HEADER_SIZE && data.Some? && |data.value| == originalSize then data else None
  }

  /** The first `n` items expand to no more than the announced size. */
  ghost predicate FitsSoFar(expand: ItemFn, originalSize: nat, items: seq<Item>, n: nat)
    requires n <= |items|
  {
    Expansions(expand, items, n).Some? && |Expansions(expand, items, n).value| <= originalSize
  }

  /** What is reported about an item that does not expand or does not fit. */
  function ItemError(f: Features, item: Item): (e: CompressionError) {
    match Expand(f, item.algorithm, item.payload, item.originalSize)
    case Err(error) => error
    case Ok(_) => ChainFailed
  }

  /** Short messages are invalid; otherwise the first item that fails decides, then the total size. */
  ghost predicate FailsWith(
    f: Features, expand: ItemFn, originalSize: nat, items: seq<Item>, error: CompressionError)
  {
    if originalSize < HEADER_SIZE then error == InvalidCompressed
    else if FitsSoFar(expand, originalSize, items, |items|) then error == ChainFailed
    else
      exists i ::
        0 <= i < |items| && FirstToFail(expand, originalSize, items, i) && error == ItemError(f, items[i])
  }

  ghost predicate FirstToFail(expand: ItemFn, originalSize: nat, items: seq<Item>, i: nat)
    requires i < |items|
  {
    FitsSoFar(expand, originalSize, items, i) && !FitsSoFar(expand, originalSize, items, i + 1)
  }

  method DecompressItem(f: Features, item: Item, data: seq<byte>, originalSize: nat)
    returns (r: Result<seq<byte>, CompressionError>)
    ensures var expansion := ItemExpansion(f, item);
      && (r.Ok? <==> expansion.Some? && |data| + |expansion.value| <= originalSize)
      && (r.Ok? ==> r.value == data + expansion.value)
      && (r.Err? ==> r.error == ItemError(f, item))
  {
    var expanded := Expand(f, item.algorithm, item.payload, item.originalSize);
    if expanded.Err? {
      return expanded;
    }
    var out := data + expanded.value;
    if |out| > originalSize {
      return Err(ChainFailed);
    }
    if item.originalSize.Some? && |out| - |data| != item.originalSize.value {
      return Err(ChainFailed);
    }
    r := Ok(out);
  }

  method DecompressAll(f: Features, ghost expand: ItemFn, originalSize: nat, items: seq<Item>)
    returns (r: Result<seq<byte>, CompressionError>)
    requires forall item {:trigger ItemExpansion(f, item)} :: expand(item) == ItemExpansion(f, item)
    ensures r.Ok? <==> Meaning(expand, originalSize, items).Some?
    ensures r.Ok? ==> Some(r.value) == Meaning(expand, originalSize, items)
    ensures r.Err? ==> FailsWith(f, expand, originalSize, items, r.error)
  {
    if originalSize < HEADER_SIZE {
      return Err(InvalidCompressed);
    }
    var data: seq<byte> := [];
    var i := 0;
    while i < |items|
      invariant 0 <= i <= |items|
      invariant Expansions(expand, items, i) == Some(data) && |data| <= originalSize
    {
      ExpansionsGrow(expand, items, i + 1, |items|);
      assert expand(items[i]) == ItemExpansion(f, items[i]);
      var next := DecompressItem(f, items[i], data, originalSize);
      if next.Err? {
        assert FirstToFail(expand, originalSize, items, i);
        return next;
      }
      data := next.value;
      i := i + 1;
    }
    if |data| != originalSize {
      return Err(ChainFailed);
    }
    r := Ok(data);
  }

  /**
   * Chained decompression succeeds exactly when the message has a meaning, and returns it: the
   * concatenation of the item expansions, of exactly the announced size.
   */
  method ChainedDecompress(f: Features, m: Message) returns (r: Result<seq<byte>, CompressionError>)
    ensures r.Ok? <==> m.Chained? && Meaning(ExpansionIn(f), m.originalSize, m.items).Some?
    ensures r.Ok? ==> Some(r.value) == Meaning(ExpansionIn(f), m.originalSize, m.items)
    ensures m.Unchained? ==> r == Err(UnsupportedMethod)
    ensures m.Chained? && r.Err? ==> FailsWith(f, ExpansionIn(f), m.originalSize, m.items, r.error)
  {
    if m.Unchained? {
      return Err(UnsupportedMethod);
    }
    r := DecompressAll(f, ExpansionIn(f), m.originalSize, m.items);
  }

  function StoredItem(flags: nat, data: seq<byte>): (item: Item) {
    Item(Stored, flags, None, data)
  }

  /** How the data behind the header is represented. */
  function Chosen(f: Features, algorithms: seq<Algorithm>, rest: seq<byte>): (item: Item)
    requires rest != []
  {
    if Lz4 in algorithms && f.lz4 && |f.codec.compress(rest)| < |rest| then
      Item(Lz4, 0, Some(|rest| % U32), f.codec.compress(rest))
    else if PatternV1 in algorithms && f.pattern && Uniform(rest) then
      Item(PatternV1, 0, None, PatternOf(rest))
    else
      StoredItem(0, rest)
  }

  function ChainedForm(f: Features, algorithms: seq<Algorithm>, data: seq<byte>): (m: Message)
    requires |data| >= HEADER_SIZE
  {
    var header, rest := StoredItem(1, data[..HEADER_SIZE]), data[HEADER_SIZE..];
    Chained(|data| % U32, [header] + if rest == [] then [] else [Chosen(f, algorithms, rest)])
  }

  method ChainedCompress(f: Features, data: seq<byte>, algorithms: seq<Algorithm>)
    returns (r: Result<Message, CompressionError>)
    ensures r == if |data| < HEADER_SIZE then Err(InvalidCompressed) else Ok(ChainedForm(f, algorithms, data))
  {
    if |data| < HEADER_SIZE {
      return Err(InvalidCompressed);
    }
    var originalSize := |data| % U32;
    var items := [StoredItem(1, data[..HEADER_SIZE])];
    var rest := data[HEADER_SIZE..];
    if rest != [] {
      var compressed := false;
      if Lz4 in algorithms && f.lz4 {
        var shorter := f.codec.compress(rest);
        if |shorter| < |rest| {
          items := items + [Item(Lz4, 0, Some(|rest| % U32), shorter)];
          compressed := true;
        }
      }
      if !compressed && PatternV1 in algorithms && f.pattern {
        var pattern := PatternCompress(rest);
        if pattern.Ok? {
          items := items + [Item(PatternV1, 0, None, pattern.value)];
          compressed := true;
        }
      }
      if !compressed {
        items := items + [StoredItem(0, rest)];
      }
    } else {
      assert items == items + [];
    }
    r := Ok(Chained(originalSize, items));
  }

  lemma {:induction false} Lz4ItemExpands(f: Features, data: seq<byte>)
    requires Faithful(f.codec) && f.lz4
    ensures ItemExpansion(f, Item(Lz4, 0, Some(|data|), f.codec.compress(data))) == Some(data)
  {
    assert f.codec.expand(f.codec.compress(data), |data|) == Some(data);
  }

  lemma {:induction false} PatternItemExpands(f: Features, data: seq<byte>)
    requires f.pattern && Uniform(data) && |data| < U32
    ensures ItemExpansion(f, Item(PatternV1, 0, None, PatternOf(data))) == Some(data)
  {
    PatternRoundTrip(data);
  }

  /** Whichever representation was chosen, it expands to the data it stands for. */
  lemma {:induction false} ChosenExpands(f: Features, algorithms: seq<Algorithm>, rest: seq<byte>)
    requires Faithful(f.codec) && rest != [] && |rest| < U32
    ensures ItemExpansion(f, Chosen(f, algorithms, rest)) == Some(rest)
  {
    if Lz4 in algorithms && f.lz4 && |f.codec.compress(rest)| < |rest| {
      Lz4ItemExpands(f, rest);
    } else if PatternV1 in algorithms && f.pattern && Uniform(rest) {
      PatternItemExpands(f, rest);
    }
  }

  lemma {:induction false} OneItem(expand: ItemFn, items: seq<Item>, first: seq<byte>)
    requires |items| >= 1 && expand(items[0]) == Some(first)
    ensures Expansions(expand, items, 1) == Some(first)
  {
    assert Expansions(expand, items, 0) == Some([]);
    assert [] + first == first;
  }

  lemma {:induction false} TwoItems(expand: ItemFn, items: seq<Item>, first: seq<byte>, second: seq<byte>)
    requires |items| >= 2 && expand(items[0]) == Some(first) && expand(items[1]) == Some(second)
    ensures Expansions(expand, items, 2) == Some(first + second)
  {
    OneItem(expand, items, first);
  }

  lemma {:induction false} ChainedExpands(f: Features, algorithms: seq<Algorithm>, data: seq<byte>)
    requires Faithful(f.codec) && HEADER_SIZE <= |data| < U32
    ensures var m := ChainedForm(f, algorithms, data);
      Expansions(ExpansionIn(f), m.items, |m.items|) == Some(data)
  {
    var expand, items := ExpansionIn(f), ChainedForm(f, algorithms, data).items;
    var header, rest := data[..HEADER_SIZE], data[HEADER_SIZE..];
    assert data == header + rest;
    assert expand(items[0]) == Some(header);
    if rest == [] {
      assert header == data;
      OneItem(expand, items, header);
    } else {
      ChosenExpands(f, algorithms, rest);
      TwoItems(expand, items, header, rest);
    }
  }

  lemma {:induction false} MeaningHasSize(expand: ItemFn, originalSize: nat, items: seq<Item>)
    ensures Meaning(expand, originalSize, items).Some? ==>
      |Meaning(expand, originalSize, items).value| == originalSize
  {
  }

  /**
   * Chained decompression of chained compression returns the data exactly when its length fits
   * the 32-bit size field.
   */
  lemma {:induction false} ChainedRoundTripIff(f: Features, algorithms: seq<Algorithm>, data: seq<byte>)
    requires Faithful(f.codec) && |data| >= HEADER_SIZE
    ensures var m := ChainedForm(f, algorithms, data);
      Meaning(ExpansionIn(f), m.originalSize, m.items) == Some(data) <==> |data| < U32
  {
    var m := ChainedForm(f, algorithms, data);
    if |data| < U32 {
      ChainedExpands(f, algorithms, data);
    } else {
      MeaningHasSize(ExpansionIn(f), m.originalSize, m.items);
    }
  }

  /** Every message chained compression emits survives being written and read. */
  lemma {:induction false} ChainedFormSurvives(f: Features, algorithms: seq<Algorithm>, data: seq<byte>)
    requires |data| >= HEADER_SIZE && |data| < U32
    ensures var m := ChainedForm(f, algorithms, data);
      Writable(m) && ReadMessage(MessageBytes(m)) == Some(m)
  {
    var m := ChainedForm(f, algorithms, data);
    forall i | 0 <= i < |m.items|
      ensures ItemWritable(m.items[i])
    {
    }
    ChainedRoundTrip(m.originalSize, m.items);
  }

  // ----- unchained -----

  function UnchainedMeaning(f: Features, m: Message): (r: Result<seq<byte>, CompressionError>) {
    if m.Chained? then Err(UnsupportedMethod)
    else match Expand(f, m.algorithm, m.data, Some(m.originalSize))
      case Err(error) => Err(error)
      case Ok(data) => if |data| != m.originalSize then Err(InvalidDecompressed) else Ok(data)
  }

  function UnchainedForm(f: Features, data: seq<byte>): (m: Message) {
    Unchained(|data| % U32, Lz4, f.codec.compress(data))
  }

  function UnchainedCompress(f: Features, data: seq<byte>, algorithms: seq<Algorithm>)
    : (r: Result<Message, CompressionError>)
  {
    if Lz4 !in algorithms then Err(NoSupportedAlgorithm)
    else if !f.lz4 then Err(UnsupportedAlgorithm)
    else Ok(UnchainedForm(f, data))
  }

  lemma {:induction false} UnchainedRoundTripIff(f: Features, data: seq<byte>)
    requires Faithful(f.codec) && f.lz4
    ensures UnchainedMeaning(f, UnchainedForm(f, data)) == Ok(data) <==> |data| < U32
  {
    if |data| < U32 {
      assert f.codec.expand(f.codec.compress(data), |data|) == Some(data);
    }
  }

  // ----- whole connections -----

  datatype Capabilities = Capabilities(chained: bool, algorithms: seq<Algorithm>)

  method Compress(f: Features, caps: Capabilities, data: seq<byte>)
    returns (r: Result<Message, CompressionError>)
    ensures r == Compressed(f, caps, data)
  {
    if caps.chained {
      r := ChainedCompress(f, data, caps.algorithms);
    } else {
      r := UnchainedCompress(f, data, caps.algorithms);
    }
  }

  function Compressed(f: Features, caps: Capabilities, data: seq<byte>)
    : (r: Result<Message, CompressionError>)
  {
    if !caps.chained then UnchainedCompress(f, data, caps.algorithms)
    else if |data| < HEADER_SIZE then Err(InvalidCompressed)
    else Ok(ChainedForm(f, caps.algorithms, data))
  }

  /** The bytes a received message stands for, where it stands for any. */
  function Restored(f: Features, caps: Capabilities, m: Message): (data: Option<seq<byte>>) {
    if m.originalSize > MAX_FRAME_SIZE then None
    else match m
      case Unchained(_, _, _) =>
        var data := UnchainedMeaning(f, m);
        if data.Ok? then Some(data.value) else None
      case Chained(size, items) => if caps.chained then Meaning(ExpansionIn(f), size, items) else None
  }

  /** `parses` says whether the restored bytes are a response. */
  method Decompress(f: Features, caps: Capabilities, m: Message, parses: seq<byte> -> bool)
    returns (r: Result<seq<byte>, CompressionError>)
    ensures r.Ok? <==> Restored(f, caps, m).Some? && parses(Restored(f, caps, m).value)
    ensures r.Ok? ==> r.value == Restored(f, caps, m).value && |r.value| == m.originalSize
    ensures m.originalSize > MAX_FRAME_SIZE ==> r == Err(SizeLimitExceeded)
  {
    if m.originalSize > MAX_FRAME_SIZE {
      return Err(SizeLimitExceeded);
    }
    if m.Unchained? {
      r := UnchainedMeaning(f, m);
    } else if caps.chained {
      r := ChainedDecompress(f, m);
    } else {
      return Err(UnsupportedMethod);
    }
    if r.Ok? && !parses(r.value) {
      r := Err(InvalidDecompressed);
    }
  }

  /**
   * Whatever was negotiated and however long the data, decompressing what was compressed
   * returns the data exactly when it fits a frame, and what fits 32 bits survives the wire.
   */
  lemma {:induction false} ConnectionRoundTrip(f: Features, caps: Capabilities, data: seq<byte>)
    requires Faithful(f.codec) && Compressed(f, caps, data).Ok?
    ensures var m := Compressed(f, caps, data).value;
      && (|data| < U32 ==> Writable(m) && ReadMessage(MessageBytes(m)) == Some(m))
      && (Restored(f, caps, m) == Some(data) <==> |data| <= MAX_FRAME_SIZE)
  {
    if caps.chained {
      ChainedRoundTripIff(f, caps.algorithms, data);
      if |data| < U32 {
        ChainedFormSurvives(f, caps.algorithms, data);
      }
    } else {
      UnchainedRoundTripIff(f, data);
      if |data| < U32 {
        UnchainedRoundTrip(|data|, Lz4, f.codec.compress(data));
      }
    }
  }

  // ----- compressing into the transform arena -----

  /** A buffer of zeros with `data` copied to `at`. */
  method CopyInto(output: array<byte>, at: nat, data: seq<byte>)
    requires at + |data| <= output.Length
    modifies output
    ensures forall i :: 0 <= i < output.Length ==>
      output[i] == if at <= i < at + |data| then data[i - at] else old(output[i])
  {
    for k := 0 to |data|
      invariant forall i :: 0 <= i < output.Length ==>
        output[i] == if at <= i < at + k then data[i - at] else old(output[i])
    {
      output[at + k] := data[k];
    }
  }

  /** Fills a zeroed buffer in place and cuts it to what was written. */
  method FillArena(capacity: nat, prefix: nat, header: seq<byte>, body: seq<byte>)
    returns (s: seq<byte>)
    requires prefix + |header| + |body| <= capacity
    ensures s == Zeros(prefix) + (header + body)
  {
    var output := new byte[capacity](_ => 0);
    CopyInto(output, prefix, header);
    CopyInto(output, prefix + |header|, body);
    s := output[..prefix + |header| + |body|];
  }

  /**
   * Writes the unchained header behind `prefix` zero bytes and lets LZ4 write behind it into the
   * same buffer, which is then cut to what was written.
   */
  method CompressTransform(f: Features, caps: Capabilities, data: seq<byte>, prefix: nat)
    returns (r: Result<seq<byte>, CompressionError>)
    requires Faithful(f.codec)
    ensures r.Ok? <==>
      && Lz4 in caps.algorithms && f.lz4 && |data| < U32
      && prefix + UNCHAINED_SIZE + f.codec.bound(|data|) < U64
    ensures r.Ok? ==> r.value == Zeros(prefix) + MessageBytes(UnchainedForm(f, data))
  {
    if Lz4 !in caps.algorithms {
      return Err(NoSupportedAlgorithm);
    }
    if |data| >= U32 {
      return Err(InvalidCompressed);
    }
    if !f.lz4 {
      return Err(NoSupportedAlgorithm);
    }
    var headerEnd := prefix + UNCHAINED_SIZE;
    var capacity := headerEnd + f.codec.bound(|data|);
    if capacity >= U64 {
      return Err(InvalidCompressed);
    }
    var header, compressed := UnchainedHeader(|data|, Lz4), f.codec.compress(data);
    assert |compressed| <= f.codec.bound(|data|);
    assert MessageBytes(UnchainedForm(f, data)) == header + compressed;
    var output := FillArena(capacity, prefix, header, compressed);
    r := Ok(output);
  }

  /** What `CompressTransform` leaves behind the prefix reads as unchained and stands for the data. */
  lemma {:induction false} TransformRoundTrip(f: Features, data: seq<byte>, prefix: nat)
    requires Faithful(f.codec) && f.lz4 && |data| < U32
    ensures var arena := Zeros(prefix) + MessageBytes(UnchainedForm(f, data));
      && ReadMessage(arena[prefix..]) == Some(UnchainedForm(f, data))
      && UnchainedMeaning(f, UnchainedForm(f, data)) == Ok(data)
  {
    var arena := Zeros(prefix) + MessageBytes(UnchainedForm(f, data));
    assert arena[prefix..] == MessageBytes(UnchainedForm(f, data));
    UnchainedRoundTrip(|data|, Lz4, f.codec.compress(data));
    UnchainedRoundTripIff(f, data);
  }
}
