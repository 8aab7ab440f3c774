/**
 * Lists of variable-length entries, each preceded by the distance to the next one
 * (sections 2.4.16 and 2.7.1 of MS-FSCC): how they are written, and how a reader follows them.
 */
module ChainedList {
  import opened Bytes
  import opened Streams

  const PREFIX_SIZE: nat := 4

  /** How one item is written at a position, and read from a position of a stream. */
  datatype Codec<!T> = Codec(enc: (T, nat) -> seq<byte>, dec: (seq<byte>, nat) -> Option<T>)

  datatype ReadError = Misaligned(at: nat) | EndOfStream(at: nat) | BadItem(at: nat)

  /** Whatever surrounds it, the item is read back from where it was written. */
  ghost predicate Delimits<T>(c: Codec<T>, item: T, before: seq<byte>, after: seq<byte>) {
    c.dec(before + c.enc(item, |before|) + after, |before|) == Some(item)
  }

  /** The items delimit themselves at every position an entry of the list can start at. */
  ghost predicate SelfDelimiting<T(!new)>(c: Codec<T>, items: seq<T>, pad: nat)
    requires pad > 0
  {
    forall item, before, after | item in items && |before| >= PREFIX_SIZE && (|before| - PREFIX_SIZE) % pad == 0 ::
      Delimits(c, item, before, after)
  }

  // ---- Entries one behind the other ----

  /** What an item becomes at a position. */
  type EntryFn<!T> = (T, nat) -> seq<byte>

  function Strung<T>(entry: EntryFn<T>, final: EntryFn<T>, items: seq<T>, at: nat): (s: seq<byte>) {
    if items == [] then []
    else if |items| == 1 then final(items[0], at)
    else entry(items[0], at) + Strung(entry, final, items[1..], at + |entry(items[0], at)|)
  }

  /** Where entry `i` begins. */
  function StartIn<T>(entry: EntryFn<T>, items: seq<T>, at: nat, i: nat): (start: nat)
    requires i < |items|
    ensures start >= at
  {
    if i == 0 then at else StartIn(entry, items[1..], at + |entry(items[0], at)|, i - 1)
  }

  /** The next entry, and the entries behind it. */
  lemma {:induction false} StrungStep<T>(
    entry: EntryFn<T>, final: EntryFn<T>, items: seq<T>, i: nat, front: seq<byte>)
    requires i < |items|
    ensures var e := if i == |items| - 1 then final(items[i], |front|) else entry(items[i], |front|);
      front + Strung(entry, final, items[i..], |front|)
        == front + e + Strung(entry, final, items[i + 1..], |front + e|)
  {
    assert items[i..][0] == items[i] && items[i..][1..] == items[i + 1..];
    var e := if i == |items| - 1 then final(items[i], |front|) else entry(items[i], |front|);
    Associative(front, e, Strung(entry, final, items[i + 1..], |front + e|));
  }

  lemma {:induction false} StartNext<T>(entry: EntryFn<T>, items: seq<T>, at: nat, i: nat)
    requires i + 1 < |items|
    ensures var start := StartIn(entry, items, at, i);
      StartIn(entry, items, at, i + 1) == start + |entry(items[i], start)|
    decreases i
  {
    if i > 0 {
      StartNext(entry, items[1..], at + |entry(items[0], at)|, i - 1);
    }
  }

  /** From entry `i` on, a list is the list of the remaining items. */
  lemma {:induction false} RestAt<T>(
    entry: EntryFn<T>, final: EntryFn<T>, items: seq<T>, at: nat, i: nat, rest: seq<T>)
    requires i < |items| && rest == items[i..]
    ensures var s, from := Strung(entry, final, items, at), StartIn(entry, items, at, i) - at;
      from <= |s| && s[from..] == Strung(entry, final, rest, at + from)
    decreases i
  {
    if i == 0 {
      assert rest == items;
    } else {
      var others, next := items[1..], at + |entry(items[0], at)|;
      assert others[i - 1..] == rest;
      RestAt(entry, final, others, next, i - 1, rest);
      var from := StartIn(entry, others, next, i - 1) - next;
      DropPast(entry(items[0], at), Strung(entry, final, others, next), from,
        Strung(entry, final, rest, next + from));
    }
  }

  lemma {:induction false} DropPast(head: seq<byte>, tail: seq<byte>, n: nat, rest: seq<byte>)
    requires n <= |tail| && tail[n..] == rest
    ensures (head + tail)[|head| + n..] == rest
  {
  }

  // ---- The format ----

  /** Distance from a non-final entry at `at` to the next one. */
  function Stride<T>(c: Codec<T>, item: T, at: nat, pad: nat): (n: nat)
    requires pad > 0
    ensures n >= PREFIX_SIZE
  {
    var used := PREFIX_SIZE + |c.enc(item, at + PREFIX_SIZE)|;
    used + Padding(at + used, pad)
  }

  /**
   * A non-final entry at `at`: its distance (cut to 32 bits), the item, and up to the next entry
   * what lies there in the stream `under`.
   */
  function Entry<T>(c: Codec<T>, item: T, at: nat, pad: nat, under: seq<byte>): (s: seq<byte>)
    requires pad > 0
    ensures |s| == Stride(c, item, at, pad)
  {
    var body := c.enc(item, at + PREFIX_SIZE);
    var stride := Stride(c, item, at, pad);
    LE(stride, 4) + body + Between(under, at + PREFIX_SIZE + |body|, at + stride)
  }

  function FinalEntry<T>(c: Codec<T>, item: T, at: nat): (s: seq<byte>)
  {
    LE(0, 4) + c.enc(item, at + PREFIX_SIZE)
  }

  function EntryIn<T>(c: Codec<T>, pad: nat, under: seq<byte>): (entry: EntryFn<T>)
    requires pad > 0
  {
    (item: T, at: nat) => Entry(c, item, at, pad, under)
  }

  function FinalIn<T>(c: Codec<T>): (final: EntryFn<T>) {
    (item: T, at: nat) => FinalEntry(c, item, at)
  }

  /** The list at `at`, written into the stream `under`. */
  function ListBytes<T>(c: Codec<T>, items: seq<T>, at: nat, pad: nat, under: seq<byte>): (s: seq<byte>)
    requires pad > 0
  {
    Strung(EntryIn(c, pad, under), FinalIn(c), items, at)
  }

  /** Every distance in the list fits its 32-bit field. */
  predicate StridesFit<T>(c: Codec<T>, items: seq<T>, at: nat, pad: nat)
    requires pad > 0
  {
    |items| <= 1 ||
    (&& Stride(c, items[0], at, pad) < U32
     && StridesFit(c, items[1..], at + Stride(c, items[0], at, pad), pad))
  }

  // ---- Writing ----

  /**
   * Writes the list wherever the writer is, patching each distance once its entry is written.
   * Nothing before the position changes, nor anything behind the list or between its entries.
   */
  method WriteList<T>(c: Codec<T>, items: seq<T>, pad: nat, w: Writer)
    requires pad > 0
    modifies w
    ensures w.Front() == old(w.Front()) + ListBytes(c, items, old(w.pos), pad, old(w.bytes))
    ensures w.Back() == Behind(old(w.bytes), w.pos)
    ensures items == [] ==> unchanged(w)
    ensures items != [] ==> w.Dense()
  {
    ghost var target := w.Front() + ListBytes(c, items, w.pos, pad, w.bytes);
    var i := 0;
    assert items[0..] == items;
    while i < |items|
      invariant 0 <= i <= |items|
      invariant i == 0 ==> unchanged(w)
      invariant i == |items| != 0 ==> w.Dense()
      invariant w.Back() == Behind(old(w.bytes), w.pos)
      invariant w.Front() + ListBytes(c, items[i..], w.pos, pad, old(w.bytes)) == target
    {
      StrungStep(EntryIn(c, pad, old(w.bytes)), FinalIn(c), items, i, w.Front());
      WriteEntry(c, items[i], i == |items| - 1, pad, w, old(w.bytes));
      i := i + 1;
    }
  }

  /** One round of the loop of `WriteList`. The padding behind an entry is skipped, not written. */
  method WriteEntry<T>(c: Codec<T>, item: T, isLast: bool, pad: nat, w: Writer, ghost under: seq<byte>)
    requires pad > 0 && w.Back() == Behind(under, w.pos)
    modifies w
    ensures isLast ==> w.Dense()
    ensures w.Back() == Behind(under, w.pos)
    ensures w.Front() == old(w.Front())
      + if isLast then FinalEntry(c, item, old(w.pos)) else Entry(c, item, old(w.pos), pad, under)
  {
    var positionBefore := w.pos;
    ghost var front := w.Front();
    var body := WriteItem(c, item, w, under);
    if !isLast {
      LinkEntry(c, item, pad, w, positionBefore, front, body, under);
    }
  }

  /** Links an entry that was just written to the next one, which starts aligned. */
  method LinkEntry<T>(c: Codec<T>, item: T, pad: nat, w: Writer, positionBefore: nat,
                      ghost front: seq<byte>, ghost body: seq<byte>, ghost under: seq<byte>)
    requires pad > 0 && |front| == positionBefore && body == c.enc(item, positionBefore + PREFIX_SIZE)
    requires w.pos == positionBefore + PREFIX_SIZE + |body|
    requires w.bytes == front + (LE(0, 4) + body) + Behind(under, w.pos)
    modifies w
    ensures w.Back() == Behind(under, w.pos)
    ensures w.Front() == front + Entry(c, item, positionBefore, pad, under)
  {
    var positionAfterItem := w.pos;
    var positionAfter := positionAfterItem + Padding(positionAfterItem, pad);
    assert positionAfter == positionBefore + Stride(c, item, positionBefore, pad);
    PatchLink(w, positionBefore, positionAfterItem, positionAfter, front, body, under);
  }

  /** Seeks back to fill in the distance, then on to where the next entry starts. */
  method PatchLink(w: Writer, positionBefore: nat, positionAfterItem: nat, positionAfter: nat,
                   ghost front: seq<byte>, ghost body: seq<byte>, ghost under: seq<byte>)
    requires |front| == positionBefore && positionBefore + 4 + |body| == positionAfterItem <= positionAfter
    requires w.bytes == front + (LE(0, 4) + body) + Behind(under, positionAfterItem)
    modifies w
    ensures w.pos == positionAfter && w.Back() == Behind(under, positionAfter)
    ensures w.Front() == front + (LE(positionAfter - positionBefore, 4) + body
                                  + Between(under, positionAfterItem, positionAfter))
  {
    var link := LE(positionAfter - positionBefore, 4);
    OverwriteCases(w.bytes, positionBefore, link);
    w.SeekTo(positionBefore);
    w.Write(link);
    Relink(front, body, link, under, positionAfterItem, positionAfter);
    w.SeekTo(positionAfter);
  }

  /** The item behind a distance of zero. */
  method WriteItem<T>(c: Codec<T>, item: T, w: Writer, ghost under: seq<byte>) returns (body: seq<byte>)
    requires w.Back() == Behind(under, w.pos)
    modifies w
    ensures body == c.enc(item, old(w.pos) + PREFIX_SIZE) && w.pos == old(w.pos) + PREFIX_SIZE + |body| && w.Dense()
    ensures w.Front() == old(w.Front()) + (LE(0, 4) + body) && w.Back() == Behind(under, w.pos)
    ensures w.bytes == old(w.Front()) + (LE(0, 4) + body) + Behind(under, w.pos)
  {
    ghost var front := w.Front();
    w.Write(LE(0, 4));
    BehindTwice(under, |front|, 4);
    body := c.enc(item, w.pos);
    w.Write(body);
    BehindTwice(under, |front| + 4, |body|);
    Associative(front, LE(0, 4), body);
    w.Whole();
  }

  /** Patching the link of what was just written, then skipping the padding. */
  lemma {:induction false} Relink(
    front: seq<byte>, body: seq<byte>, link: seq<byte>, under: seq<byte>, used: nat, end: nat)
    requires |link| == 4 && |front| + 4 + |body| == used <= end
    ensures var patched := Splice(front + (LE(0, 4) + body) + Behind(under, used), |front|, link);
      && Between(patched, 0, end) == front + (link + body + Between(under, used, end))
      && Behind(patched, end) == Behind(under, end)
  {
    var rest := Behind(under, used);
    assert Splice(front + (LE(0, 4) + body) + rest, |front|, link) == front + (link + body) + rest;
    SkipOver(front + (link + body), under, end);
    Associative(front, link + body, Between(under, used, end));
  }

  /** Moving on over what lies behind `head`. */
  lemma {:induction false} SkipOver(head: seq<byte>, under: seq<byte>, end: nat)
    requires |head| <= end
    ensures Between(head + Behind(under, |head|), 0, end) == head + Between(under, |head|, end)
    ensures Behind(head + Behind(under, |head|), end) == Behind(under, end)
  {
    var s := head + Behind(under, |head|);
    forall i | 0 <= i < end
      ensures ByteAt(s, i) == (head + Between(under, |head|, end))[i]
    {
      assert i >= |head| ==> ByteAt(s, i) == ByteAt(under, i);
    }
  }

  // ---- Reading ----

  function Prepend<T>(item: T, more: Result<seq<T>, ReadError>): (r: Result<seq<T>, ReadError>)
    ensures r.Ok? <==> more.Ok?
    ensures r.Ok? ==> |r.value| == 1 + |more.value| && r.value[0] == item && r.value[1..] == more.value
  {
    match more
    case Ok(items) => Ok([item] + items)
    case Err(e) => Err(e)
  }

  /** What the reader returns from an entry at `at` onward. Distances are never zero inside the recursion. */
  function ReadFrom<T>(c: Codec<T>, bytes: seq<byte>, at: nat, pad: nat): (r: Result<seq<T>, ReadError>)
    requires pad > 0
    decreases if at <= |bytes| then |bytes| - at else 0
  {
    if at % pad != 0 then Err(Misaligned(at))
    else if at + PREFIX_SIZE > |bytes| then Err(EndOfStream(at))
    else match c.dec(bytes, at + PREFIX_SIZE)
      case None => Err(BadItem(at))
      case Some(item) =>
        var distance := FromLE(bytes[at..at + PREFIX_SIZE]);
        if distance == 0 then Ok([item])
        else Prepend(item, ReadFrom(c, bytes, at + distance, pad))
  }

  /** A reader that is already at the end of the stream has an empty list. */
  function Read<T>(c: Codec<T>, bytes: seq<byte>, start: nat, pad: nat): (r: Result<seq<T>, ReadError>)
    requires pad > 0
  {
    if start == |bytes| then Ok([]) else ReadFrom(c, bytes, start, pad)
  }

  function Joined<T>(items: seq<T>, more: Result<seq<T>, ReadError>): (r: Result<seq<T>, ReadError>) {
    match more
    case Ok(others) => Ok(items + others)
    case Err(e) => Err(e)
  }

  /**
   * Follows the distances until a zero one. Nothing about the stream is trusted: a distance
   * may lead anywhere, and the loop still ends.
   */
  method ReadList<T>(c: Codec<T>, bytes: seq<byte>, start: nat, pad: nat) returns (r: Result<seq<T>, ReadError>)
    requires pad > 0
    ensures r == Read(c, bytes, start, pad)
  {
    if start == |bytes| {
      return Ok([]);
    }
    var values: seq<T> := [];
    var at: nat := start;
    JoinedNothing(ReadFrom(c, bytes, start, pad));
    while true
      invariant Joined(values, ReadFrom(c, bytes, at, pad)) == ReadFrom(c, bytes, start, pad)
      decreases if at <= |bytes| then |bytes| - at else 0
    {
      if at % pad != 0 {
        return Err(Misaligned(at));
      }
      if at + PREFIX_SIZE > |bytes| {
        return Err(EndOfStream(at));
      }
      var distance := FromLE(bytes[at..at + PREFIX_SIZE]);
      var item := c.dec(bytes, at + PREFIX_SIZE);
      if item.None? {
        return Err(BadItem(at));
      }
      JoinedStep(values, item.value, ReadFrom(c, bytes, at + distance, pad));
      values := values + [item.value];
      if distance == 0 {
        return Ok(values);
      }
      at := at + distance;
    }
  }

  lemma {:induction false} JoinedStep<T>(values: seq<T>, item: T, more: Result<seq<T>, ReadError>)
    ensures Joined(values, Prepend(item, more)) == Joined(values + [item], more)
  {
    if more.Ok? {
      assert values + ([item] + more.value) == values + [item] + more.value;
    }
  }

  lemma {:induction false} JoinedNothing<T>(more: Result<seq<T>, ReadError>)
    ensures Joined([], more) == more
  {
    if more.Ok? {
      assert [] + more.value == more.value;
    }
  }

  /** A hostile list cannot be longer than the aligned positions it could occupy. */
  lemma {:induction false} CountBound<T>(c: Codec<T>, bytes: seq<byte>, at: nat, pad: nat)
    requires pad > 0 && ReadFrom(c, bytes, at, pad).Ok?
    ensures var n := |ReadFrom(c, bytes, at, pad).value|;
      n >= 1 && at + PREFIX_SIZE <= |bytes| && n <= (|bytes| - at - PREFIX_SIZE) / pad + 1
    decreases if at <= |bytes| then |bytes| - at else 0
  {
    CountFits(c, bytes, at, pad);
    UnitsFit(|ReadFrom(c, bytes, at, pad).value| - 1, |bytes| - at - PREFIX_SIZE, pad);
  }

  /** The length of `n` units. */
  function Units(n: nat, pad: nat): (length: nat) {
    if n == 0 then 0 else Units(n - 1, pad) + pad
  }

  lemma {:induction false} CountFits<T>(c: Codec<T>, bytes: seq<byte>, at: nat, pad: nat)
    requires pad > 0 && ReadFrom(c, bytes, at, pad).Ok?
    ensures var n := |ReadFrom(c, bytes, at, pad).value|;
      n >= 1 && at + PREFIX_SIZE + Units(n - 1, pad) <= |bytes|
    decreases if at <= |bytes| then |bytes| - at else 0
  {
    var distance := FromLE(bytes[at..at + PREFIX_SIZE]);
    if distance > 0 {
      CountFits(c, bytes, at + distance, pad);
      AlignedGap(at, distance, pad);
    }
  }

  lemma {:induction false} UnitsFit(n: nat, room: nat, pad: nat)
    requires pad > 0 && Units(n, pad) <= room
    ensures n <= room / pad
  {
    UnitsAre(n, pad);
    EuclidUnique(n * pad, pad, n, 0);
    DivMonotone(n * pad, room, pad);
  }

  lemma {:induction false} UnitsAre(n: nat, pad: nat)
    ensures Units(n, pad) == n * pad
  {
    if n > 0 {
      UnitsAre(n - 1, pad);
      assert n * pad == (n - 1) * pad + pad;
    }
  }

  lemma {:induction false} AlignedGap(at: nat, distance: nat, pad: nat)
    requires pad > 0 && at % pad == 0 && (at + distance) % pad == 0
    ensures distance % pad == 0
    ensures distance > 0 ==> distance >= pad
  {
    var k := (at + distance) / pad - at / pad;
    assert at == at / pad * pad && at + distance == (at + distance) / pad * pad;
    assert k * pad == (at + distance) / pad * pad - at / pad * pad == distance;
    EuclidUnique(distance, pad, k, 0);
    AtLeastOnce(k, pad);
    AtLeastOnce(1 - k, pad);
    assert (1 - k) * pad == pad - distance;
  }

  lemma {:induction false} DivMonotone(x: int, y: int, d: nat)
    requires d > 0 && x <= y
    ensures x / d <= y / d
  {
    AtLeastOnce(x / d - y / d, d);
    assert x == d * (x / d) + x % d && y == d * (y / d) + y % d;
    assert (x / d - y / d) * d == d * (x / d) - d * (y / d);
  }

  // ---- Reading what was written ----

  /** A reader at the start of a written list gets the items back, whatever lies around and under the list. */
  lemma {:induction false} ReadBack<T(!new)>(
    c: Codec<T>, items: seq<T>, before: seq<byte>, under: seq<byte>, after: seq<byte>, pad: nat)
    requires pad > 0 && items != [] && |before| % pad == 0
    requires SelfDelimiting(c, items, pad) && StridesFit(c, items, |before|, pad)
    ensures ReadFrom(c, before + ListBytes(c, items, |before|, pad, under) + after, |before|, pad) == Ok(items)
    decreases |items|
  {
    assert items[0] in items;
    if |items| == 1 {
      ReadFinal(c, items[0], before, after, pad);
      assert items == [items[0]];
    } else {
      ReadFirst(c, items, before, under, after, pad);
      OthersDelimit(c, items, pad);
      ReadBack(c, items[1..], before + Entry(c, items[0], |before|, pad, under), under, after, pad);
      assert items == [items[0]] + items[1..];
    }
  }

  lemma {:induction false} ReadFirst<T(!new)>(
    c: Codec<T>, items: seq<T>, before: seq<byte>, under: seq<byte>, after: seq<byte>, pad: nat)
    requires pad > 0 && |items| > 1 && |before| % pad == 0 && Stride(c, items[0], |before|, pad) < U32
    requires forall before', after' | |before'| == |before| + PREFIX_SIZE :: Delimits(c, items[0], before', after')
    ensures var next := before + Entry(c, items[0], |before|, pad, under);
      && |next| % pad == 0
      && ReadFrom(c, before + ListBytes(c, items, |before|, pad, under) + after, |before|, pad)
           == Prepend(items[0],
                ReadFrom(c, next + ListBytes(c, items[1..], |next|, pad, under) + after, |next|, pad))
  {
    var next := before + Entry(c, items[0], |before|, pad, under);
    var rest := ListBytes(c, items[1..], |next|, pad, under);
    ListTakesOne(c, items, before, under, after, pad);
    ReadNonFinal(c, items[0], before, under, rest + after, pad);
    Associative(next, rest, after);
  }

  lemma {:induction false} OthersDelimit<T(!new)>(c: Codec<T>, items: seq<T>, pad: nat)
    requires pad > 0 && items != [] && SelfDelimiting(c, items, pad)
    ensures SelfDelimiting(c, items[1..], pad)
  {
  }

  lemma {:induction false} ListTakesOne<T>(
    c: Codec<T>, items: seq<T>, before: seq<byte>, under: seq<byte>, after: seq<byte>, pad: nat)
    requires pad > 0 && |items| > 1
    ensures var entry := Entry(c, items[0], |before|, pad, under);
      before + ListBytes(c, items, |before|, pad, under) + after
        == before + entry + (ListBytes(c, items[1..], |before + entry|, pad, under) + after)
  {
    var entry := Entry(c, items[0], |before|, pad, under);
    var rest := ListBytes(c, items[1..], |before + entry|, pad, under);
    assert ListBytes(c, items, |before|, pad, under) == entry + rest;
    Associative(before, entry, rest);
    Associative(before + entry, rest, after);
  }

  lemma {:induction false} ReadFinal<T(!new)>(c: Codec<T>, item: T, before: seq<byte>, after: seq<byte>, pad: nat)
    requires pad > 0 && |before| % pad == 0
    requires forall before', after' | |before'| == |before| + PREFIX_SIZE :: Delimits(c, item, before', after')
    ensures ReadFrom(c, before + FinalEntry(c, item, |before|) + after, |before|, pad) == Ok([item])
  {
    var bytes, body := before + FinalEntry(c, item, |before|) + after, c.enc(item, |before| + PREFIX_SIZE);
    assert bytes == before + LE(0, 4) + body + after;
    EntryReads(c, item, before, LE(0, 4), body, after);
    Capacities();
    LERoundTrip(0, 4);
  }

  /** At a non-final entry the reader takes the item and goes on right behind the entry. */
  lemma {:induction false} ReadNonFinal<T(!new)>(
    c: Codec<T>, item: T, before: seq<byte>, under: seq<byte>, rest: seq<byte>, pad: nat)
    requires pad > 0 && |before| % pad == 0 && Stride(c, item, |before|, pad) < U32
    requires forall before', after | |before'| == |before| + PREFIX_SIZE :: Delimits(c, item, before', after)
    ensures var entry := Entry(c, item, |before|, pad, under);
      && |before + entry| % pad == 0
      && ReadFrom(c, before + entry + rest, |before|, pad)
           == Prepend(item, ReadFrom(c, before + entry + rest, |before + entry|, pad))
  {
    var stride, body := Stride(c, item, |before|, pad), c.enc(item, |before| + PREFIX_SIZE);
    var padding := Between(under, |before| + PREFIX_SIZE + |body|, |before| + stride);
    var bytes := before + Entry(c, item, |before|, pad, under) + rest;
    assert bytes == before + LE(stride, 4) + body + (padding + rest);
    EntryReads(c, item, before, LE(stride, 4), body, padding + rest);
    Capacities();
    LERoundTrip(stride, 4);
    PaddingAligns(|before| + PREFIX_SIZE + |body|, pad);
  }

  /** At an entry, the reader sees its link and decodes its item. */
  lemma {:induction false} EntryReads<T>(
    c: Codec<T>, item: T, before: seq<byte>, link: seq<byte>, body: seq<byte>, after: seq<byte>)
    requires |link| == PREFIX_SIZE && body == c.enc(item, |before| + PREFIX_SIZE)
    requires Delimits(c, item, before + link, after)
    ensures (before + link + body + after)[|before|..|before| + PREFIX_SIZE] == link
    ensures c.dec(before + link + body + after, |before| + PREFIX_SIZE) == Some(item)
  {
    assert |before + link| == |before| + PREFIX_SIZE;
  }

  /**
   * A list whose distances fit is read back, item for item, whatever lies around and under it,
   * exactly when it was started at an aligned position; an empty one exactly when the stream ends there.
   */
  lemma {:induction false} RoundTrip<T(!new)>(
    c: Codec<T>, items: seq<T>, before: seq<byte>, under: seq<byte>, after: seq<byte>, pad: nat)
    requires pad > 0 && SelfDelimiting(c, items, pad) && StridesFit(c, items, |before|, pad)
    ensures Read(c, before + ListBytes(c, items, |before|, pad, under) + after, |before|, pad) == Ok(items)
      <==> if items == [] then after == [] else |before| % pad == 0
  {
    if items == [] {
      assert before + [] + after == before + after;
      if after != [] && ReadFrom(c, before + after, |before|, pad).Ok? {
        CountBound(c, before + after, |before|, pad);
      }
    } else if |before| % pad == 0 {
      ReadBack(c, items, before, under, after, pad);
    }
  }

  /**
   * The link of the first entry: zero if it is the last one, otherwise the distance to the
   * next entry as long as that fits 32 bits; and aligned entries are whole units apart.
   */
  lemma {:induction false} FirstLink<T>(c: Codec<T>, items: seq<T>, at: nat, pad: nat, under: seq<byte>)
    requires pad > 0 && items != []
    ensures var s := ListBytes(c, items, at, pad, under);
      && |s| >= PREFIX_SIZE
      && (|items| == 1 ==> FromLE(s[..PREFIX_SIZE]) == 0)
      && (|items| > 1 ==>
            var stride := Stride(c, items[0], at, pad);
            && (FromLE(s[..PREFIX_SIZE]) == stride <==> stride < U32)
            && (at % pad == 0 ==> stride >= pad && stride % pad == 0))
  {
    var s, stride := ListBytes(c, items, at, pad, under), Stride(c, items[0], at, pad);
    var link := if |items| == 1 then 0 else stride;
    assert s[..PREFIX_SIZE] == LE(link, 4);
    FitsField(link, 4);
    Capacities();
    var used := PREFIX_SIZE + |c.enc(items[0], at + PREFIX_SIZE)|;
    PaddingAligns(at + used, pad);
    if at % pad == 0 {
      AlignedGap(at, stride, pad);
    }
  }

  lemma {:induction false} AlignedStart<T>(
    c: Codec<T>, items: seq<T>, at: nat, pad: nat, under: seq<byte>, i: nat)
    requires pad > 0 && i < |items| && at % pad == 0
    ensures StartIn(EntryIn(c, pad, under), items, at, i) % pad == 0
    decreases i
  {
    if i > 0 {
      PaddingAligns(at + PREFIX_SIZE + |c.enc(items[0], at + PREFIX_SIZE)|, pad);
      AlignedStart(c, items[1..], at + Stride(c, items[0], at, pad), pad, under, i - 1);
    }
  }

  lemma {:induction false} StrideFits<T>(
    c: Codec<T>, items: seq<T>, at: nat, pad: nat, under: seq<byte>, i: nat)
    requires pad > 0 && i + 1 < |items| && StridesFit(c, items, at, pad)
    ensures Stride(c, items[i], StartIn(EntryIn(c, pad, under), items, at, i), pad) < U32
    decreases i
  {
    if i > 0 {
      StrideFits(c, items[1..], at + Stride(c, items[0], at, pad), pad, under, i - 1);
    }
  }

  /**
   * Entry by entry: the last link is zero, and every other one is the distance to the next
   * entry, which for a list that starts aligned is a positive multiple of the alignment.
   */
  lemma {:induction false} LinkAt<T>(c: Codec<T>, items: seq<T>, at: nat, pad: nat, under: seq<byte>, i: nat)
    requires pad > 0 && i < |items| && StridesFit(c, items, at, pad)
    ensures var entry, s := EntryIn(c, pad, under), ListBytes(c, items, at, pad, under);
      var start := StartIn(entry, items, at, i);
      && start - at + PREFIX_SIZE <= |s|
      && var link := FromLE(s[start - at..][..PREFIX_SIZE]);
         if i + 1 == |items| then link == 0
         else
           && link == StartIn(entry, items, at, i + 1) - start
           && (at % pad == 0 ==> link >= pad && link % pad == 0)
  {
    var start := StartIn(EntryIn(c, pad, under), items, at, i);
    RestAt(EntryIn(c, pad, under), FinalIn(c), items, at, i, items[i..]);
    if i + 1 < |items| {
      StartNext(EntryIn(c, pad, under), items, at, i);
      StrideFits(c, items, at, pad, under, i);
    }
    if at % pad == 0 {
      AlignedStart(c, items, at, pad, under, i);
    }
    assert items[i..][0] == items[i];
    FirstLink(c, items[i..], start, pad, under);
  }
}
