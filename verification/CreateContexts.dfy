/**
 * Create contexts (section 2.2.13.2 of MS-SMB2): entries of a chained list whose own layout is
 * written with position markers. The bytes are worked out in closed form, and a list of
 * contexts is read back as written.
 */
module CreateContexts {
  import opened Bytes
  import opened BackPatch
  import opened ChainedList

  const NAME_OFFSET: Id := 0
  const DATA_OFFSET: Id := 1
  const DATA_LENGTH: Id := 2
  const UNIT: nat := 8
  const FIXED: nat := 12

  datatype Context = Context(name: seq<byte>, reserved: nat, data: seq<byte>)

  /** The fields as declared: offsets count from the entry's link, four bytes earlier. */
  function NameHead(ctx: Context): (s: Struct) {
    Then(Then(Then(Empty, Mark(NAME_OFFSET, 2)), Raw(LE(|ctx.name|, 2))), Raw(LE(ctx.reserved, 2)))
  }

  function Head(ctx: Context): (s: Struct) {
    Then(Then(NameHead(ctx), Mark(DATA_OFFSET, 2)), Mark(DATA_LENGTH, 4))
  }

  function NameField(ctx: Context): (f: Field) {
    Value(Then(Empty, Raw(ctx.name)), None, Some(Patch(NAME_OFFSET, PREFIX_SIZE)), Some(NAME_OFFSET))
  }

  function DataField(ctx: Context): (f: Field) {
    Value(Then(Empty, Raw(ctx.data)), Some(Patch(DATA_LENGTH, 0)),
          Some(Patch(DATA_OFFSET, PREFIX_SIZE)), Some(NAME_OFFSET))
  }

  function Named(ctx: Context): (s: Struct) {
    Then(Then(Head(ctx), Align(UNIT)), NameField(ctx))
  }

  function Layout(ctx: Context): (s: Struct) {
    Then(Then(Named(ctx), Align(UNIT)), DataField(ctx))
  }

  function NameEnd(ctx: Context): (n: nat) {
    |ctx.name| + Padding(|ctx.name|, UNIT)
  }

  /** Numbers that fit: the name length and the data offset 16 bits, the data length 32. */
  predicate Representable(ctx: Context) {
    |ctx.name| < U16 && ctx.reserved < U16 && FIXED + NameEnd(ctx) + PREFIX_SIZE < U16 && |ctx.data| < U32
  }

  /** The bytes of a context, written out. */
  function ContextBytes(ctx: Context): (s: seq<byte>)
    ensures |s| == FIXED + NameEnd(ctx) + |ctx.data|
  {
    LE(FIXED + PREFIX_SIZE, 2) + LE(|ctx.name|, 2) + LE(ctx.reserved, 2)
    + LE(FIXED + NameEnd(ctx) + PREFIX_SIZE, 2) + LE(|ctx.data|, 4)
    + ctx.name + Zeros(Padding(|ctx.name|, UNIT)) + ctx.data
  }

  predicate EntryPosition(at: nat) {
    at >= PREFIX_SIZE && (at - PREFIX_SIZE) % UNIT == 0
  }

  /** A struct's first pass, all at once. */
  ghost predicate LaidOut(struct: Struct, at: nat, size: nat, slots: map<Id, Slot>, contents: map<Id, nat>) {
    Size(struct, at) == size && Slots(struct, at) == slots && Contents(struct, at) == contents && Encodable(struct, at)
  }

  lemma {:induction false} LaidOutThen(
    before: Struct, field: Field, at: nat, size: nat, slots: map<Id, Slot>, contents: map<Id, nat>)
    requires LaidOut(before, at, size, slots, contents)
    requires forall id :: id in slots ==> slots[id].at <= at + size
    ensures FieldEncodable(field, slots, at + size) ==>
      LaidOut(Then(before, field), at, size + SizeOf(field, at + size),
              if field.Mark? then slots[field.id := Slot(at + size, field.width)] else slots,
              Patched(contents, field, slots, at + size))
    ensures Encodable(Then(before, field), at) <==> FieldEncodable(field, slots, at + size)
  {
  }

  function MarkerSlots(at: nat): (slots: map<Id, Slot>) {
    map[NAME_OFFSET := Slot(at, 2), DATA_OFFSET := Slot(at + 6, 2), DATA_LENGTH := Slot(at + 8, 4)]
  }

  function Numbers(nameOffset: nat, dataOffset: nat, dataLength: nat): (m: map<Id, nat>) {
    map[NAME_OFFSET := nameOffset, DATA_OFFSET := dataOffset, DATA_LENGTH := dataLength]
  }

  /** The first half of the head: the name's marker, its length and the reserved field. */
  lemma {:induction false} NameHeadLaidOut(ctx: Context, at: nat)
    ensures LaidOut(NameHead(ctx), at, 6, map[NAME_OFFSET := Slot(at, 2)], map[NAME_OFFSET := 0])
  {
    var h0: Struct := Empty;
    var h1 := Then(h0, Mark(NAME_OFFSET, 2));
    var h2 := Then(h1, Raw(LE(|ctx.name|, 2)));
    var nameOnly := map[NAME_OFFSET := Slot(at, 2)];
    LaidOutThen(h0, Mark(NAME_OFFSET, 2), at, 0, map[], map[]);
    LaidOutThen(h1, Raw(LE(|ctx.name|, 2)), at, 2, nameOnly, map[NAME_OFFSET := 0]);
    LaidOutThen(h2, Raw(LE(ctx.reserved, 2)), at, 4, nameOnly, map[NAME_OFFSET := 0]);
  }

  lemma {:induction false} HeadLaidOut(ctx: Context, at: nat)
    ensures LaidOut(Head(ctx), at, FIXED, MarkerSlots(at), Numbers(0, 0, 0))
  {
    var nameHead := NameHead(ctx);
    var nameOnly := map[NAME_OFFSET := Slot(at, 2)];
    var both := map[NAME_OFFSET := Slot(at, 2), DATA_OFFSET := Slot(at + 6, 2)];
    NameHeadLaidOut(ctx, at);
    LaidOutThen(nameHead, Mark(DATA_OFFSET, 2), at, 6, nameOnly, map[NAME_OFFSET := 0]);
    LaidOutThen(Then(nameHead, Mark(DATA_OFFSET, 2)), Mark(DATA_LENGTH, 4), at, 8, both,
      map[NAME_OFFSET := 0, DATA_OFFSET := 0]);
  }

  lemma {:induction false} EmitThen(before: Struct, field: Field, at: nat, contents: map<Id, nat>, s: seq<byte>)
    requires Emit(before, at, contents) == s
    ensures Emit(Then(before, field), at, contents) == s + EmitOf(field, at + |s|, contents)
  {
  }

  lemma {:induction false} RawStruct(bytes: seq<byte>, at: nat)
    ensures Size(Then(Empty, Raw(bytes)), at) == |bytes|
    ensures Encode(Then(Empty, Raw(bytes)), at) == bytes
    ensures Encodable(Then(Empty, Raw(bytes)), at)
  {
    assert Size(Empty, at) == 0;
    EmitThen(Empty, Raw(bytes), at, Contents(Then(Empty, Raw(bytes)), at), []);
    assert [] + bytes == bytes;
  }

  /** The first pass over an aligned value whose base is the first marker. */
  lemma {:induction false} AlignedLaidOut(
    before: Struct, value: Field, bytes: seq<byte>, at: nat, size: nat, numbers: map<Id, nat>)
    requires LaidOut(before, at, size, MarkerSlots(at), numbers) && size >= FIXED
    requires value.Value? && value.body == Then(Empty, Raw(bytes))
    ensures var here := at + size + Padding(at + size, UNIT);
      && (FieldEncodable(value, MarkerSlots(at), here) ==>
            LaidOut(Then(Then(before, Align(UNIT)), value), at, size + Padding(at + size, UNIT) + |bytes|,
                    MarkerSlots(at), Patched(numbers, value, MarkerSlots(at), here)))
      && (Encodable(Then(Then(before, Align(UNIT)), value), at) <==> FieldEncodable(value, MarkerSlots(at), here))
      && Contents(Then(Then(before, Align(UNIT)), value), at) == Patched(numbers, value, MarkerSlots(at), here)
  {
    var slots, padded := MarkerSlots(at), size + Padding(at + size, UNIT);
    LaidOutThen(before, Align(UNIT), at, size, slots, numbers);
    LaidOutThen(Then(before, Align(UNIT)), value, at, padded, slots, numbers);
    RawStruct(bytes, at + padded);
  }

  lemma {:induction false} NameNumbers(ctx: Context, at: nat)
    ensures FieldEncodable(NameField(ctx), MarkerSlots(at), at + FIXED)
    ensures Patched(Numbers(0, 0, 0), NameField(ctx), MarkerSlots(at), at + FIXED) == Numbers(FIXED + PREFIX_SIZE, 0, 0)
  {
    RawStruct(ctx.name, at + FIXED);
    Capacities();
  }

  lemma {:induction false} DataNumbers(ctx: Context, at: nat, here: nat)
    requires here == at + FIXED + NameEnd(ctx)
    ensures FieldEncodable(DataField(ctx), MarkerSlots(at), here)
      <==> FIXED + NameEnd(ctx) + PREFIX_SIZE < U16 && |ctx.data| < U32
    ensures Patched(Numbers(FIXED + PREFIX_SIZE, 0, 0), DataField(ctx), MarkerSlots(at), here)
      == Numbers(FIXED + PREFIX_SIZE, FIXED + NameEnd(ctx) + PREFIX_SIZE, |ctx.data|)
  {
    RawStruct(ctx.data, here);
    Capacities();
  }

  lemma {:induction false} NamedLaidOut(ctx: Context, at: nat)
    requires EntryPosition(at)
    ensures LaidOut(Named(ctx), at, FIXED + |ctx.name|, MarkerSlots(at), Numbers(FIXED + PREFIX_SIZE, 0, 0))
  {
    HeadLaidOut(ctx, at);
    HeadAligned(at);
    NameNumbers(ctx, at);
    AlignedLaidOut(Head(ctx), NameField(ctx), ctx.name, at, FIXED, Numbers(0, 0, 0));
  }

  /** The numbers the markers end up with, and when they fit. */
  lemma {:induction false} LayoutLaidOut(ctx: Context, at: nat)
    requires EntryPosition(at)
    ensures Contents(Layout(ctx), at) == Numbers(FIXED + PREFIX_SIZE, FIXED + NameEnd(ctx) + PREFIX_SIZE, |ctx.data|)
    ensures FIXED + NameEnd(ctx) + PREFIX_SIZE < U16 && |ctx.data| < U32 <==> Encodable(Layout(ctx), at)
  {
    NamedLaidOut(ctx, at);
    PaddingFromAligned(at + FIXED, |ctx.name|, UNIT);
    DataNumbers(ctx, at, at + FIXED + NameEnd(ctx));
    AlignedLaidOut(Named(ctx), DataField(ctx), ctx.data, at, FIXED + |ctx.name|, Numbers(FIXED + PREFIX_SIZE, 0, 0));
  }

  lemma {:induction false} HeadEmitted(ctx: Context, at: nat, contents: map<Id, nat>)
    requires contents.Keys == {NAME_OFFSET, DATA_OFFSET, DATA_LENGTH}
    ensures Emit(Head(ctx), at, contents) ==
      LE(contents[NAME_OFFSET], 2) + LE(|ctx.name|, 2) + LE(ctx.reserved, 2)
      + LE(contents[DATA_OFFSET], 2) + LE(contents[DATA_LENGTH], 4)
  {
    var h0: Struct := Empty;
    var h1 := Then(h0, Mark(NAME_OFFSET, 2));
    var h2 := Then(h1, Raw(LE(|ctx.name|, 2)));
    var h3 := Then(h2, Raw(LE(ctx.reserved, 2)));
    var h4 := Then(h3, Mark(DATA_OFFSET, 2));
    var s1 := LE(contents[NAME_OFFSET], 2);
    EmitThen(h0, Mark(NAME_OFFSET, 2), at, contents, []);
    assert [] + s1 == s1;
    EmitThen(h1, Raw(LE(|ctx.name|, 2)), at, contents, s1);
    EmitThen(h2, Raw(LE(ctx.reserved, 2)), at, contents, s1 + LE(|ctx.name|, 2));
    EmitThen(h3, Mark(DATA_OFFSET, 2), at, contents, s1 + LE(|ctx.name|, 2) + LE(ctx.reserved, 2));
    EmitThen(h4, Mark(DATA_LENGTH, 4), at, contents,
             s1 + LE(|ctx.name|, 2) + LE(ctx.reserved, 2) + LE(contents[DATA_OFFSET], 2));
  }

  /** An aligned value adds its padding and its bytes. */
  lemma {:induction false} AlignedEmitted(
    before: Struct, value: Field, bytes: seq<byte>, at: nat, contents: map<Id, nat>, s: seq<byte>)
    requires Emit(before, at, contents) == s
    requires value.Value? && value.body == Then(Empty, Raw(bytes))
    ensures Emit(Then(Then(before, Align(UNIT)), value), at, contents) == s + Zeros(Padding(at + |s|, UNIT)) + bytes
  {
    var padded := s + Zeros(Padding(at + |s|, UNIT));
    EmitThen(before, Align(UNIT), at, contents, s);
    EmitThen(Then(before, Align(UNIT)), value, at, contents, padded);
    RawStruct(bytes, at + |padded|);
  }

  /** The marker-based layout comes out as the closed form. */
  lemma {:induction false} LayoutEncodes(ctx: Context, at: nat)
    requires EntryPosition(at)
    ensures Encode(Layout(ctx), at) == ContextBytes(ctx)
  {
    var numbers := Numbers(FIXED + PREFIX_SIZE, FIXED + NameEnd(ctx) + PREFIX_SIZE, |ctx.data|);
    assert Contents(Layout(ctx), at) == numbers by { LayoutLaidOut(ctx, at); }
    LayoutEmitted(ctx, at, numbers);
  }

  lemma {:induction false} LayoutEmitted(ctx: Context, at: nat, contents: map<Id, nat>)
    requires EntryPosition(at) && contents.Keys == {NAME_OFFSET, DATA_OFFSET, DATA_LENGTH}
    ensures Emit(Layout(ctx), at, contents) ==
      LE(contents[NAME_OFFSET], 2) + LE(|ctx.name|, 2) + LE(ctx.reserved, 2)
      + LE(contents[DATA_OFFSET], 2) + LE(contents[DATA_LENGTH], 4)
      + ctx.name + Zeros(Padding(|ctx.name|, UNIT)) + ctx.data
  {
    HeadEmitted(ctx, at, contents);
    BodiesEmitted(ctx, at, contents, Emit(Head(ctx), at, contents));
  }

  lemma {:induction false} BodiesEmitted(ctx: Context, at: nat, contents: map<Id, nat>, head: seq<byte>)
    requires EntryPosition(at) && Emit(Head(ctx), at, contents) == head && |head| == FIXED
    ensures Emit(Layout(ctx), at, contents) == head + ctx.name + Zeros(Padding(|ctx.name|, UNIT)) + ctx.data
  {
    HeadAligned(at);
    assert Emit(Named(ctx), at, contents) == head + ctx.name by {
      AlignedEmitted(Head(ctx), NameField(ctx), ctx.name, at, contents, head);
      assert head + Zeros(0) == head;
    }
    AlignedEmitted(Named(ctx), DataField(ctx), ctx.data, at, contents, head + ctx.name);
    PaddingFromAligned(at + FIXED, |ctx.name|, UNIT);
  }

  // ---- Reading a context back ----

  function Field16(bytes: seq<byte>, at: nat): (n: nat)
    requires at + 2 <= |bytes|
  {
    FromLE(bytes[at..at + 2])
  }

  function Decode(bytes: seq<byte>, at: nat): (r: Option<Context>)
  {
    if at + FIXED > |bytes| then None
    else Locate(bytes, at, Field16(bytes, at), Field16(bytes, at + 2), Field16(bytes, at + 4),
                Field16(bytes, at + 6), FromLE(bytes[at + 8..at + 12]))
  }

  /** Follows the stored offsets; the data is cut off where the stream ends. */
  function Locate(bytes: seq<byte>, at: nat, nameOffset: nat, nameLength: nat, reserved: nat,
                  dataOffset: nat, dataLength: nat): (r: Option<Context>)
  {
    if nameOffset < PREFIX_SIZE then None
    else
      var seek := at + nameOffset - PREFIX_SIZE;
      var nameAt := seek + Padding(seek, UNIT);
      if nameAt + nameLength > |bytes| || dataOffset % UNIT != 0 then None
      else if dataLength > 0 && dataOffset < PREFIX_SIZE then None
      else
        var dataAt := if dataLength > 0 then at + dataOffset - PREFIX_SIZE else nameAt + nameLength;
        var dataEnd := if dataAt + dataLength <= |bytes| then dataAt + dataLength else |bytes|;
        Some(Context(bytes[nameAt..nameAt + nameLength], reserved,
                     if dataAt <= dataEnd then bytes[dataAt..dataEnd] else []))
  }

  lemma {:induction false} SliceAt(before: seq<byte>, middle: seq<byte>, after: seq<byte>)
    ensures (before + middle + after)[|before|..|before| + |middle|] == middle
  {
  }

  /** Where each part of a written context is found in the stream. */
  lemma {:induction false} PartsFound(ctx: Context, before: seq<byte>, after: seq<byte>)
    ensures var s, at := before + ContextBytes(ctx) + after, |before|;
      && s[at..at + 2] == LE(FIXED + PREFIX_SIZE, 2)
      && s[at + 2..at + 4] == LE(|ctx.name|, 2)
      && s[at + 4..at + 6] == LE(ctx.reserved, 2)
      && s[at + 6..at + 8] == LE(FIXED + NameEnd(ctx) + PREFIX_SIZE, 2)
      && s[at + 8..at + 12] == LE(|ctx.data|, 4)
  {
    var s, at := before + ContextBytes(ctx) + after, |before|;
    var a, b, c := LE(FIXED + PREFIX_SIZE, 2), LE(|ctx.name|, 2), LE(ctx.reserved, 2);
    var d, e := LE(FIXED + NameEnd(ctx) + PREFIX_SIZE, 2), LE(|ctx.data|, 4);
    var rest := ctx.name + Zeros(Padding(|ctx.name|, UNIT)) + ctx.data + after;
    assert s == before + (a + b + c + d + e) + rest;
    FieldsFound(before, a, b, c, d, e, rest);
  }

  lemma {:induction false} FieldsFound(
    before: seq<byte>, a: seq<byte>, b: seq<byte>, c: seq<byte>, d: seq<byte>, e: seq<byte>, rest: seq<byte>)
    requires |a| == |b| == |c| == |d| == 2 && |e| == 4
    ensures var s, at := before + (a + b + c + d + e) + rest, |before|;
      && s[at..at + 2] == a && s[at + 2..at + 4] == b && s[at + 4..at + 6] == c
      && s[at + 6..at + 8] == d && s[at + 8..at + 12] == e
  {
    var s := before + (a + b + c + d + e) + rest;
    assert s == before + a + (b + c + d + e + rest);
    SliceAt(before, a, b + c + d + e + rest);
    assert s == (before + a) + b + (c + d + e + rest);
    SliceAt(before + a, b, c + d + e + rest);
    assert s == (before + a + b) + c + (d + e + rest);
    SliceAt(before + a + b, c, d + e + rest);
    assert s == (before + a + b + c) + d + (e + rest);
    SliceAt(before + a + b + c, d, e + rest);
    assert s == (before + a + b + c + d) + e + rest;
    SliceAt(before + a + b + c + d, e, rest);
  }

  lemma {:induction false} BodiesFound(ctx: Context, before: seq<byte>, after: seq<byte>)
    ensures var s, at := before + ContextBytes(ctx) + after, |before| + FIXED;
      && s[at..at + |ctx.name|] == ctx.name
      && s[at + NameEnd(ctx)..at + NameEnd(ctx) + |ctx.data|] == ctx.data
  {
    var s := before + ContextBytes(ctx) + after;
    var head := LE(FIXED + PREFIX_SIZE, 2) + LE(|ctx.name|, 2) + LE(ctx.reserved, 2)
      + LE(FIXED + NameEnd(ctx) + PREFIX_SIZE, 2) + LE(|ctx.data|, 4);
    var zeros := Zeros(Padding(|ctx.name|, UNIT));
    assert s[|before| + FIXED..|before| + FIXED + |ctx.name|] == ctx.name by {
      assert s == (before + head) + ctx.name + (zeros + ctx.data + after);
      SliceAt(before + head, ctx.name, zeros + ctx.data + after);
    }
    assert s == (before + head + ctx.name + zeros) + ctx.data + after;
    SliceAt(before + head + ctx.name + zeros, ctx.data, after);
  }

  /** A context that fits its fields is read back from between any two stretches of bytes. */
  lemma {:induction false} ContextDelimits(ctx: Context, before: seq<byte>, after: seq<byte>)
    requires Representable(ctx) && EntryPosition(|before|)
    ensures Decode(before + ContextBytes(ctx) + after, |before|) == Some(ctx)
  {
    HeaderReads(ctx, before, after);
    BodiesFound(ctx, before, after);
    BodiesLocated(ctx, before + ContextBytes(ctx) + after, |before|);
  }

  lemma {:induction false} HeadAligned(at: nat)
    requires EntryPosition(at)
    ensures Padding(at + FIXED, UNIT) == 0
  {
    PaddingAligns(at + FIXED, UNIT);
  }

  lemma {:induction false} DataAligned(ctx: Context)
    ensures (FIXED + NameEnd(ctx) + PREFIX_SIZE) % UNIT == 0
  {
    PaddingAligns(|ctx.name|, UNIT);
  }

  lemma {:induction false} BodiesLocated(ctx: Context, s: seq<byte>, at: nat)
    requires EntryPosition(at) && at + FIXED + NameEnd(ctx) + |ctx.data| <= |s|
    requires s[at + FIXED..at + FIXED + |ctx.name|] == ctx.name
    requires s[at + FIXED + NameEnd(ctx)..at + FIXED + NameEnd(ctx) + |ctx.data|] == ctx.data
    ensures Locate(s, at, FIXED + PREFIX_SIZE, |ctx.name|, ctx.reserved, FIXED + NameEnd(ctx) + PREFIX_SIZE, |ctx.data|)
      == Some(ctx)
  {
    HeadAligned(at);
    DataAligned(ctx);
    LocateAligned(s, at, |ctx.name|, ctx.reserved, FIXED + NameEnd(ctx) + PREFIX_SIZE, |ctx.data|);
  }

  /** Where offsets that lie inside the stream lead. */
  lemma {:induction false} LocateAligned(
    s: seq<byte>, at: nat, nameLength: nat, reserved: nat, dataOffset: nat, dataLength: nat)
    requires Padding(at + FIXED, UNIT) == 0 && dataOffset % UNIT == 0 && dataOffset >= PREFIX_SIZE
    requires at + FIXED + nameLength <= |s| && at + dataOffset - PREFIX_SIZE + dataLength <= |s|
    ensures Locate(s, at, FIXED + PREFIX_SIZE, nameLength, reserved, dataOffset, dataLength)
      == Some(Context(s[at + FIXED..at + FIXED + nameLength], reserved,
                      s[at + dataOffset - PREFIX_SIZE..at + dataOffset - PREFIX_SIZE + dataLength]))
  {
    var nameEnd, dataAt := at + FIXED + nameLength, at + dataOffset - PREFIX_SIZE;
    if dataLength == 0 {
      assert s[nameEnd..nameEnd] == s[dataAt..dataAt];
    }
  }

  lemma {:induction false} HeaderReads(ctx: Context, before: seq<byte>, after: seq<byte>)
    requires Representable(ctx)
    ensures var s, at := before + ContextBytes(ctx) + after, |before|;
      && Field16(s, at) == FIXED + PREFIX_SIZE && Field16(s, at + 2) == |ctx.name|
      && Field16(s, at + 4) == ctx.reserved && Field16(s, at + 6) == FIXED + NameEnd(ctx) + PREFIX_SIZE
      && FromLE(s[at + 8..at + 12]) == |ctx.data|
  {
    Capacities();
    PartsFound(ctx, before, after);
    LERoundTrip(FIXED + PREFIX_SIZE, 2);
    LERoundTrip(|ctx.name|, 2);
    LERoundTrip(ctx.reserved, 2);
    LERoundTrip(FIXED + NameEnd(ctx) + PREFIX_SIZE, 2);
    LERoundTrip(|ctx.data|, 4);
  }

  /** Create contexts as items of a chained list. */
  function ContextCodec(): (c: Codec<Context>) {
    Codec((ctx: Context, at: nat) => Encode(Layout(ctx), at), (bytes: seq<byte>, at: nat) => Decode(bytes, at))
  }

  /**
   * Any list of representable contexts, written by the marker-based writer into a chained
   * list anywhere in a stream, is read back as the same list exactly when it starts at a
   * multiple of eight; an empty one exactly when the stream ends there.
   */
  lemma {:induction false} ContextsRoundTrip(
    contexts: seq<Context>, before: seq<byte>, under: seq<byte>, after: seq<byte>)
    requires forall ctx :: ctx in contexts ==> Representable(ctx)
    requires StridesFit(ContextCodec(), contexts, |before|, UNIT)
    ensures var codec := ContextCodec();
      var written := before + ListBytes(codec, contexts, |before|, UNIT, under) + after;
      (Read(codec, written, |before|, UNIT) == Ok(contexts))
      <==> (if contexts == [] then after == [] else |before| % UNIT == 0)
  {
    var codec := ContextCodec();
    forall ctx, b, rest | ctx in contexts && |b| >= PREFIX_SIZE && (|b| - PREFIX_SIZE) % UNIT == 0
      ensures Delimits(codec, ctx, b, rest)
    {
      LayoutEncodes(ctx, |b|);
      ContextDelimits(ctx, b, rest);
    }
    RoundTrip(codec, contexts, before, under, after, UNIT);
  }
}
