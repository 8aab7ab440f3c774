/**
 * Position markers: fields written as placeholders and filled in by seeking back once the
 * value they describe has been written. The single pass is compared with an encoder that
 * computes every size and offset before it emits the first byte.
 */
module BackPatch {
  import opened Bytes
  import opened Streams

  type Id = nat

  /** Which marker of the enclosing struct to fill, and what to add to the measured number. */
  datatype Patch = Patch(marker: Id, plus: nat)

  /** The fields of a struct, in declaration order. Marker names are local to their struct. */
  datatype Struct = Empty | Then(before: Struct, field: Field)

  datatype Field =
    | Raw(bytes: seq<byte>)
    | Mark(id: Id, width: nat)
    | Align(unit: nat)
    | Value(body: Struct, size: Option<Patch>, offset: Option<Patch>, base: Option<Id>)

  datatype Slot = Slot(at: nat, width: nat)

  // ---- The two-pass encoder ----

  /** Encoded length of a struct that starts at `start`. */
  function Size(struct: Struct, start: nat): (n: nat)
  {
    match struct
    case Empty => 0
    case Then(before, field) => Size(before, start) + SizeOf(field, start + Size(before, start))
  }

  function SizeOf(field: Field, at: nat): (n: nat)
  {
    match field
    case Raw(bytes) => |bytes|
    case Mark(_, width) => width
    case Align(unit) => if unit == 0 then 0 else Padding(at, unit)
    case Value(body, _, _, _) => Size(body, at)
  }

  /** Where each marker of the struct lives. */
  function Slots(struct: Struct, start: nat): (m: map<Id, Slot>)
    ensures forall id :: id in m ==> start <= m[id].at && m[id].at + m[id].width <= start + Size(struct, start)
  {
    match struct
    case Empty => map[]
    case Then(before, Mark(id, width)) => Slots(before, start)[id := Slot(start + Size(before, start), width)]
    case Then(before, _) => Slots(before, start)
  }

  function BasePosition(slots: map<Id, Slot>, base: Option<Id>): (at: nat) {
    if base.Some? && base.value in slots then slots[base.value].at else 0
  }

  /** The final content of each marker, from sizes and positions alone; the last patch wins. */
  function Contents(struct: Struct, start: nat): (m: map<Id, nat>)
  {
    match struct
    case Empty => map[]
    case Then(before, field) =>
      Patched(Contents(before, start), field, Slots(before, start), start + Size(before, start))
  }

  /** Marker contents after one more field, which starts at `at`. */
  function Patched(m: map<Id, nat>, field: Field, slots: map<Id, Slot>, at: nat): (n: map<Id, nat>)
    requires forall id :: id in slots ==> slots[id].at <= at
  {
    match field
    case Mark(id, _) => m[id := 0]
    case Value(body, size, offset, base) =>
      var m1 := if offset.None? then m
                else m[offset.value.marker := at - BasePosition(slots, base) + offset.value.plus];
      if size.None? then m1 else m1[size.value.marker := Size(body, at) + size.value.plus]
    case _ => m
  }

  /** Second pass: emit the fields with the marker contents already known. */
  function Emit(struct: Struct, start: nat, contents: map<Id, nat>): (s: seq<byte>)
    ensures |s| == Size(struct, start)
    decreases struct
  {
    match struct
    case Empty => []
    case Then(before, field) =>
      Emit(before, start, contents) + EmitOf(field, start + Size(before, start), contents)
  }

  function EmitOf(field: Field, at: nat, contents: map<Id, nat>): (s: seq<byte>)
    ensures |s| == SizeOf(field, at)
    decreases field
  {
    match field
    case Raw(bytes) => bytes
    case Mark(id, width) => LE(if id in contents then contents[id] else 0, width)
    case Align(unit) => Zeros(SizeOf(field, at))
    case Value(body, _, _, _) => Emit(body, at, Contents(body, at))
  }

  function Encode(struct: Struct, start: nat): (s: seq<byte>)
    ensures |s| == Size(struct, start)
  {
    Emit(struct, start, Contents(struct, start))
  }

  /** Markers are declared once and before use, and every number fits its marker. */
  predicate Encodable(struct: Struct, start: nat)
    decreases struct
  {
    match struct
    case Empty => true
    case Then(before, field) =>
      Encodable(before, start) && FieldEncodable(field, Slots(before, start), start + Size(before, start))
  }

  predicate FieldEncodable(field: Field, slots: map<Id, Slot>, at: nat)
    requires forall id :: id in slots ==> slots[id].at <= at
    decreases field
  {
    match field
    case Mark(id, _) => id !in slots
    case Value(body, size, offset, base) =>
      && (offset.Some? && base.Some? ==> base.value in slots)
      && (offset.Some? ==> Holds(slots, offset.value.marker, at - BasePosition(slots, base) + offset.value.plus))
      && Encodable(body, at)
      && (size.Some? ==> Holds(slots, size.value.marker, Size(body, at) + size.value.plus))
    case _ => true
  }

  predicate Holds(slots: map<Id, Slot>, id: Id, n: nat) {
    id in slots && n < Capacity(slots[id].width)
  }

  // ---- How patching one marker shows in the output ----

  /** The content of a marker the struct does not have makes no difference. */
  lemma {:induction false} EmitIgnores(struct: Struct, start: nat, contents: map<Id, nat>, id: Id, n: nat)
    requires id !in Slots(struct, start)
    ensures Emit(struct, start, contents[id := n]) == Emit(struct, start, contents)
  {
    match struct
    case Empty =>
    case Then(before, field) =>
      EmitIgnores(before, start, contents, id, n);
  }

  /** Changing one marker's content rewrites exactly that marker's bytes. */
  lemma {:induction false} EmitPatched(struct: Struct, start: nat, contents: map<Id, nat>, id: Id, n: nat, slot: Slot)
    requires Encodable(struct, start) && id in Slots(struct, start) && Slots(struct, start)[id] == slot
    ensures Emit(struct, start, contents[id := n])
      == Splice(Emit(struct, start, contents), slot.at - start, LE(n, slot.width))
  {
    match struct
    case Then(before, field) =>
      if field.Mark? && field.id == id {
        EmitPatchedLast(before, field, start, contents, n, slot);
      } else {
        EmitPatched(before, start, contents, id, n, slot);
        EmitPatchedBefore(before, field, start, contents, id, n, slot);
      }
  }

  lemma {:induction false} EmitPatchedLast(
    before: Struct, field: Field, start: nat, contents: map<Id, nat>, n: nat, slot: Slot)
    requires field.Mark? && field.id !in Slots(before, start)
    requires slot == Slot(start + Size(before, start), field.width)
    ensures Emit(Then(before, field), start, contents[field.id := n])
      == Splice(Emit(Then(before, field), start, contents), slot.at - start, LE(n, slot.width))
  {
    EmitIgnores(before, start, contents, field.id, n);
    PatchLast(Emit(before, start, contents), EmitOf(field, slot.at, contents), LE(n, slot.width));
  }

  lemma {:induction false} EmitPatchedBefore(
    before: Struct, field: Field, start: nat, contents: map<Id, nat>, id: Id, n: nat, slot: Slot)
    requires !(field.Mark? && field.id == id)
    requires start <= slot.at && slot.at - start + slot.width <= Size(before, start)
    requires Emit(before, start, contents[id := n])
          == Splice(Emit(before, start, contents), slot.at - start, LE(n, slot.width))
    ensures Emit(Then(before, field), start, contents[id := n])
      == Splice(Emit(Then(before, field), start, contents), slot.at - start, LE(n, slot.width))
  {
    var at, contents' := start + Size(before, start), contents[id := n];
    EmitSplits(before, field, start, contents);
    EmitSplits(before, field, start, contents');
    EmitOfIgnores(field, at, contents, id, n);
    PatchFirst(Emit(Then(before, field), start, contents), Emit(Then(before, field), start, contents'),
      Emit(before, start, contents), Emit(before, start, contents'), EmitOf(field, at, contents),
      slot.at - start, LE(n, slot.width));
  }

  lemma {:induction false} EmitSplits(before: Struct, field: Field, start: nat, contents: map<Id, nat>)
    ensures Emit(Then(before, field), start, contents)
      == Emit(before, start, contents) + EmitOf(field, start + Size(before, start), contents)
  {
  }

  lemma {:induction false} EmitOfIgnores(field: Field, at: nat, contents: map<Id, nat>, id: Id, n: nat)
    requires !(field.Mark? && field.id == id)
    ensures EmitOf(field, at, contents[id := n]) == EmitOf(field, at, contents)
  {
  }

  lemma {:induction false} PatchFirst(
    e: seq<byte>, e': seq<byte>, head: seq<byte>, head': seq<byte>, tail: seq<byte>, at: nat, data: seq<byte>)
    requires at + |data| <= |head| && head' == Splice(head, at, data)
    requires e == head + tail && e' == head' + tail
    ensures e' == Splice(e, at, data)
  {
    SpliceHead(head, tail, at, data);
  }

  lemma {:induction false} PatchLast(head: seq<byte>, tail: seq<byte>, data: seq<byte>)
    requires |data| == |tail|
    ensures Splice(head + tail, |head|, data) == head + data
  {
  }

  // ---- What a reader finds in a marker ----

  lemma {:induction false} SliceOfHead(head: seq<byte>, tail: seq<byte>, from: nat, to: nat)
    requires from <= to <= |head|
    ensures (head + tail)[from..to] == head[from..to]
  {
  }

  lemma {:induction false} SliceOfTail(head: seq<byte>, tail: seq<byte>)
    ensures (head + tail)[|head|..|head| + |tail|] == tail
  {
  }

  lemma {:induction false} EmitAtSlot(struct: Struct, start: nat, contents: map<Id, nat>, id: Id, slot: Slot)
    requires Encodable(struct, start) && id in Slots(struct, start) && Slots(struct, start)[id] == slot
    requires id in contents
    ensures Emit(struct, start, contents)[slot.at - start..slot.at - start + slot.width] == LE(contents[id], slot.width)
  {
    match struct
    case Then(before, field) =>
      var head, tail := Emit(before, start, contents), EmitOf(field, start + Size(before, start), contents);
      EmitSplits(before, field, start, contents);
      if field.Mark? && field.id == id {
        SliceOfTail(head, tail);
      } else {
        EmitAtSlot(before, start, contents, id, slot);
        SliceOfHead(head, tail, slot.at - start, slot.at - start + slot.width);
      }
  }

  lemma {:induction false} ContentsFit(struct: Struct, start: nat, id: Id)
    requires Encodable(struct, start) && id in Slots(struct, start)
    ensures id in Contents(struct, start) && Contents(struct, start)[id] < Capacity(Slots(struct, start)[id].width)
  {
    match struct
    case Then(before, field) =>
      if field.Mark? && field.id == id {
      } else {
        ContentsFit(before, start, id);
      }
  }

  /** Every marker of an encoded struct reads back as the number the first pass computed for it. */
  lemma {:induction false} MarkerReads(struct: Struct, start: nat, id: Id)
    requires Encodable(struct, start) && id in Slots(struct, start)
    ensures var slot := Slots(struct, start)[id];
      && id in Contents(struct, start)
      && FromLE(Encode(struct, start)[slot.at - start..slot.at - start + slot.width]) == Contents(struct, start)[id]
  {
    var slot := Slots(struct, start)[id];
    ContentsFit(struct, start, id);
    EmitAtSlot(struct, start, Contents(struct, start), id, slot);
    LERoundTrip(Contents(struct, start)[id], slot.width);
  }

  /** What one more field adds to the encoding. */
  lemma {:induction false} EncodeThen(done: Struct, field: Field, start: nat)
    ensures var at := start + Size(done, start);
      var contents := Patched(Contents(done, start), field, Slots(done, start), at);
      Encode(Then(done, field), start) == Emit(done, start, contents) + EmitOf(field, at, contents)
  {
  }

  /** Filling in one marker of a struct that starts after `start` bytes of a stream. */
  function Put(s: seq<byte>, slots: map<Id, Slot>, patch: Option<Patch>, n: nat): (r: seq<byte>)
    requires patch.Some? ==> patch.value.marker in slots
    requires patch.Some? ==> slots[patch.value.marker].at + slots[patch.value.marker].width <= |s|
  {
    if patch.None? then s
    else Splice(s, slots[patch.value.marker].at, LE(n, slots[patch.value.marker].width))
  }

  function Recorded(contents: map<Id, nat>, patch: Option<Patch>, n: nat): (m: map<Id, nat>) {
    if patch.Some? then contents[patch.value.marker := n] else contents
  }

  /** Filling a marker of the finished part in place equals emitting it filled in. */
  lemma {:induction false} PutStep(under: seq<byte>, done: Struct, contents: map<Id, nat>, patch: Option<Patch>, n: nat)
    requires Encodable(done, |under|)
    requires patch.Some? ==> patch.value.marker in Slots(done, |under|)
    ensures Put(under + Emit(done, |under|, contents), Slots(done, |under|), patch, n)
      == under + Emit(done, |under|, Recorded(contents, patch, n))
  {
    if patch.Some? {
      var id, e := patch.value.marker, Emit(done, |under|, contents);
      var slot := Slots(done, |under|)[id];
      EmitPatched(done, |under|, contents, id, n, slot);
      PatchBehind(under, e, Emit(done, |under|, contents[id := n]), slot.at, LE(n, slot.width));
    }
  }

  lemma {:induction false} PatchBehind(under: seq<byte>, e: seq<byte>, e': seq<byte>, at: nat, data: seq<byte>)
    requires |under| <= at && at + |data| <= |under| + |e| && e' == Splice(e, at - |under|, data)
    ensures Splice(under + e, at, data) == under + e'
  {
    SpliceTail(under, e, at - |under|, data);
  }

  /** A patch to the finished part leaves what follows it alone. */
  lemma {:induction false} PutHead(head: seq<byte>, more: seq<byte>, slots: map<Id, Slot>, patch: Option<Patch>, n: nat)
    requires patch.Some? ==> patch.value.marker in slots
    requires patch.Some? ==> slots[patch.value.marker].at + slots[patch.value.marker].width <= |head|
    ensures Put(head + more, slots, patch, n) == Put(head, slots, patch, n) + more
  {
    if patch.Some? {
      SpliceHead(head, more, slots[patch.value.marker].at, LE(n, slots[patch.value.marker].width));
    }
  }

  function OffsetNumber(slots: map<Id, Slot>, field: Field, at: nat): (n: nat)
    requires field.Value? && BasePosition(slots, field.base) <= at
  {
    at - BasePosition(slots, field.base) + (if field.offset.Some? then field.offset.value.plus else 0)
  }

  function SizeNumber(field: Field, at: nat): (n: nat)
    requires field.Value?
  {
    Size(field.body, at) + (if field.size.Some? then field.size.value.plus else 0)
  }

  /** What writing one more field does to a stream, its markers being where `slots` says. */
  function FieldEffect(s: seq<byte>, field: Field, slots: map<Id, Slot>): (r: seq<byte>)
    requires forall id :: id in slots ==> slots[id].at + slots[id].width <= |s|
    requires FieldEncodable(field, slots, |s|)
  {
    match field
    case Value(body, size, offset, base) =>
      Put(Put(s, slots, offset, OffsetNumber(slots, field, |s|)) + Encode(body, |s|),
          slots, size, SizeNumber(field, |s|))
    case Mark(_, width) => s + LE(0, width)
    case _ => s + EmitOf(field, |s|, map[])
  }

  lemma {:induction false} PatchedIsRecorded(c0: map<Id, nat>, field: Field, slots: map<Id, Slot>, at: nat)
    requires field.Value? && forall id :: id in slots ==> slots[id].at <= at
    ensures Patched(c0, field, slots, at)
      == Recorded(Recorded(c0, field.offset, OffsetNumber(slots, field, at)), field.size, SizeNumber(field, at))
    ensures EmitOf(field, at, Patched(c0, field, slots, at)) == Encode(field.body, at)
  {
  }

  lemma {:induction false} ValueGlue(s0: seq<byte>, s1: seq<byte>, s2: seq<byte>, field: Field, slots: map<Id, Slot>)
    requires forall id :: id in slots ==> slots[id].at + slots[id].width <= |s0|
    requires field.Value? && |s0| == |s1| && FieldEncodable(field, slots, |s0|)
    requires Put(s0, slots, field.offset, OffsetNumber(slots, field, |s0|)) == s1
    requires Put(s1, slots, field.size, SizeNumber(field, |s0|)) == s2
    ensures FieldEffect(s0, field, slots) == s2 + Encode(field.body, |s0|)
  {
    PutHead(s1, Encode(field.body, |s0|), slots, field.size, SizeNumber(field, |s0|));
  }

  lemma {:induction false} ValueStep(under: seq<byte>, done: Struct, field: Field)
    requires field.Value? && Encodable(Then(done, field), |under|)
    ensures FieldEffect(under + Encode(done, |under|), field, Slots(done, |under|))
      == under + Encode(Then(done, field), |under|)
  {
    var at := |under| + Size(done, |under|);
    var slots, c0 := Slots(done, |under|), Contents(done, |under|);
    var c1 := Recorded(c0, field.offset, OffsetNumber(slots, field, at));
    var c2 := Recorded(c1, field.size, SizeNumber(field, at));
    var e0, e1, e2 := Emit(done, |under|, c0), Emit(done, |under|, c1), Emit(done, |under|, c2);
    assert Put(under + e0, slots, field.offset, OffsetNumber(slots, field, at)) == under + e1 by {
      PutStep(under, done, c0, field.offset, OffsetNumber(slots, field, at));
    }
    assert Put(under + e1, slots, field.size, SizeNumber(field, at)) == under + e2 by {
      PutStep(under, done, c1, field.size, SizeNumber(field, at));
    }
    ValueGlue(under + e0, under + e1, under + e2, field, slots);
    assert Encode(Then(done, field), |under|) == e2 + Encode(field.body, at) by {
      EncodeThen(done, field, |under|);
      PatchedIsRecorded(c0, field, slots, at);
    }
    Associative(under, e2, Encode(field.body, at));
  }

  lemma {:induction false} MarkStep(under: seq<byte>, done: Struct, id: Id, width: nat)
    requires Encodable(Then(done, Mark(id, width)), |under|)
    ensures under + Encode(done, |under|) + LE(0, width) == under + Encode(Then(done, Mark(id, width)), |under|)
  {
    EncodeThen(done, Mark(id, width), |under|);
    EmitIgnores(done, |under|, Contents(done, |under|), id, 0);
    Associative(under, Encode(done, |under|), LE(0, width));
  }

  lemma {:induction false} PlainStep(under: seq<byte>, done: Struct, field: Field)
    requires field.Raw? || field.Align?
    ensures under + Encode(done, |under|) + EmitOf(field, |under| + Size(done, |under|), map[])
      == under + Encode(Then(done, field), |under|)
  {
    EncodeThen(done, field, |under|);
    Associative(under, Encode(done, |under|), EmitOf(field, |under| + Size(done, |under|), map[]));
  }

  /** Field by field, the stream holds the two-pass encoding of what was written so far. */
  lemma {:induction false} FieldStep(under: seq<byte>, done: Struct, field: Field)
    requires Encodable(Then(done, field), |under|)
    ensures FieldEffect(under + Encode(done, |under|), field, Slots(done, |under|))
      == under + Encode(Then(done, field), |under|)
  {
    match field
    case Value(_, _, _, _) => ValueStep(under, done, field);
    case Mark(id, width) => MarkStep(under, done, id, width);
    case _ => PlainStep(under, done, field);
  }

  /** One more field overwrites as much more of what lies behind the position as it is long. */
  lemma {:induction false} BehindStep(back: seq<byte>, start: nat, done: Struct, field: Field)
    ensures Behind(Behind(back, Size(done, start)), SizeOf(field, start + Size(done, start)))
      == Behind(back, Size(Then(done, field), start))
  {
    BehindTwice(back, Size(done, start), SizeOf(field, start + Size(done, start)));
  }

  // ---- The single pass ----

  /** Overwriting something before `end` shows in what lies before `end` alone. */
  lemma {:induction false} OverwriteFront(s: seq<byte>, end: nat, at: nat, data: seq<byte>)
    requires at + |data| <= end
    ensures Between(Overwrite(s, at, data), 0, end) == Splice(Between(s, 0, end), at, data)
    ensures Behind(Overwrite(s, at, data), end) == Behind(s, end)
  {
    var after := Overwrite(s, at, data);
    forall i | 0 <= i < end
      ensures ByteAt(after, i) == if at <= i < at + |data| then data[i - at] else ByteAt(s, i)
    {
    }
  }

  /** A placeholder field that remembers, once, where it was written. */
  class PosMarker {
    const width: nat
    var pos: Option<nat>

    constructor (width: nat)
      ensures this.width == width && pos == None
    {
      this.width := width;
      pos := None;
    }

    /** The marker was written, inside the first `end` bytes. */
    ghost predicate Within(end: nat)
      reads this
    {
      pos.Some? && pos.value + width <= end
    }

    ghost predicate Accepts(n: nat)
      reads this
    {
      pos.Some? && n < Capacity(width)
    }

    /** Writes the default value; refused if the marker was written before. */
    method WritePlaceholder(w: Writer) returns (ok: bool)
      modifies this`pos, w
      ensures ok <==> old(pos).None?
      ensures ok ==> pos == Some(old(w.pos)) && (old(w.Dense()) ==> w.Dense())
      ensures ok ==> w.Front() == old(w.Front()) + LE(0, width) && w.Back() == Behind(old(w.Back()), width)
      ensures !ok ==> unchanged(this) && unchanged(w)
    {
      if pos.Some? {
        return false;
      }
      pos := Some(w.pos);
      w.Write(LE(0, width));
      return true;
    }

    /** Fills the marker in and comes back to where the writer was. */
    method WriteBack(n: nat, w: Writer) returns (ok: bool)
      modifies w
      ensures ok <==> Accepts(n)
      ensures ok ==> w.pos == old(w.pos) && (old(w.Dense()) ==> w.Dense())
      ensures ok ==>
        w.bytes == if width == 0 then old(w.bytes) else Overwrite(old(w.bytes), pos.value, LE(n, width))
      ensures ok && Within(old(w.pos)) ==>
        w.Front() == Splice(old(w.Front()), pos.value, LE(n, width)) && w.Back() == old(w.Back())
    {
      var returnTo := w.pos;
      if pos.None? {
        return false;
      }
      w.SeekTo(pos.value);
      if n >= Capacity(width) {
        return false;
      }
      w.Write(LE(n, width));
      w.SeekTo(returnTo);
      if pos.value + width <= returnTo {
        OverwriteFront(old(w.bytes), returnTo, pos.value, LE(n, width));
      }
      return true;
    }
  }

  /** Marker objects sit where the layout says. */
  ghost predicate Tracks(markers: map<Id, PosMarker>, slots: map<Id, Slot>)
    reads set id | id in markers :: markers[id]
  {
    && markers.Keys == slots.Keys
    && forall id :: id in markers ==> markers[id].pos == Some(slots[id].at) && markers[id].width == slots[id].width
  }

  /** Where a marker was written, if it was. */
  ghost function Placed(to: Option<PosMarker>): (slot: Option<Slot>)
    reads if to.Some? then {to.value} else {}
  {
    if to.Some? && to.value.pos.Some? then Some(Slot(to.value.pos.value, to.value.width)) else None
  }

  ghost function Fill(s: seq<byte>, slot: Option<Slot>, n: nat): (r: seq<byte>)
    requires slot.Some? ==> slot.value.at + slot.value.width <= |s|
    ensures |r| == |s|
  {
    if slot.None? then s else Splice(s, slot.value.at, LE(n, slot.value.width))
  }

  /** The offset filled in, the value behind what was there, then the size filled in. */
  ghost function Described(
    s: seq<byte>, offsetSlot: Option<Slot>, offsetNumber: nat, value: seq<byte>,
    sizeSlot: Option<Slot>, sizeNumber: nat): (r: seq<byte>)
    requires offsetSlot.Some? ==> offsetSlot.value.at + offsetSlot.value.width <= |s|
    requires sizeSlot.Some? ==> sizeSlot.value.at + sizeSlot.value.width <= |s|
    ensures |r| == |s| + |value|
  {
    Fill(Fill(s, offsetSlot, offsetNumber) + value, sizeSlot, sizeNumber)
  }

  ghost function StartOf(base: Option<PosMarker>): (at: nat)
    reads if base.Some? then {base.value} else {}
  {
    if base.Some? && base.value.pos.Some? then base.value.pos.value else 0
  }

  /** The base was written, if there is one, and the offset from it fits the marker. */
  ghost predicate OffsetAccepted(offsetTo: Option<PosMarker>, base: Option<PosMarker>, at: nat, plus: nat)
    requires StartOf(base) <= at
    reads if offsetTo.Some? then {offsetTo.value} else {}, if base.Some? then {base.value} else {}
  {
    offsetTo.Some? ==>
      (base.Some? ==> base.value.pos.Some?) && offsetTo.value.Accepts(at - StartOf(base) + plus)
  }

  /**
   * Writes a value and the markers that describe it: the offset before, the size after.
   * Nothing but those two fields changes in what was written earlier, the value is appended,
   * and the writer ends right behind it.
   */
  method WriteHero(body: Struct, w: Writer, sizeTo: Option<PosMarker>, offsetTo: Option<PosMarker>,
                   base: Option<PosMarker>, sizePlus: nat, offsetPlus: nat) returns (ok: bool)
    requires StartOf(base) <= w.pos
    requires offsetTo.Some? && offsetTo.value.pos.Some? ==> offsetTo.value.Within(w.pos)
    requires sizeTo.Some? && sizeTo.value.pos.Some? ==> sizeTo.value.Within(w.pos)
    modifies w
    ensures ok <==>
      && old(OffsetAccepted(offsetTo, base, w.pos, offsetPlus))
      && Encodable(body, old(w.pos))
      && old(sizeTo.Some? ==> sizeTo.value.Accepts(Size(body, w.pos) + sizePlus))
    ensures ok ==> w.pos == old(w.pos) + Size(body, old(w.pos)) && (old(w.Dense()) ==> w.Dense())
    ensures ok ==> w.Back() == Behind(old(w.Back()), Size(body, old(w.pos)))
    ensures ok ==>
      w.Front() == old(Described(w.Front(), Placed(offsetTo), w.pos - StartOf(base) + offsetPlus,
                                 Encode(body, w.pos), Placed(sizeTo), Size(body, w.pos) + sizePlus))
    decreases body, 1
  {
    var start := w.pos;
    ok := FillOffset(w, offsetTo, base, offsetPlus);
    if !ok {
      return;
    }
    ghost var patched := w.Front();
    var own;
    ok, own := WriteStruct(body, w);
    if !ok {
      return;
    }
    var total := w.pos - start;
    ghost var whole := w.Front();
    assert whole == patched + Encode(body, start) && total == Size(body, start);
    ok := FillIn(w, sizeTo, total + sizePlus);
  }

  /** Fills a marker in, if there is one. */
  method FillIn(w: Writer, to: Option<PosMarker>, n: nat) returns (ok: bool)
    requires to.Some? && to.value.pos.Some? ==> to.value.Within(w.pos)
    modifies w
    ensures ok <==> (to.Some? ==> to.value.Accepts(n))
    ensures ok ==> w.pos == old(w.pos) && (old(w.Dense()) ==> w.Dense()) && w.Back() == old(w.Back())
    ensures ok ==> w.Front() == old(Fill(w.Front(), Placed(to), n))
  {
    ok := true;
    if to.Some? {
      ok := to.value.WriteBack(n, w);
    }
  }

  /** Fills in where the value starts, counted from the base marker or from the start of the stream. */
  method FillOffset(w: Writer, offsetTo: Option<PosMarker>, base: Option<PosMarker>, plus: nat)
    returns (ok: bool)
    requires StartOf(base) <= w.pos
    requires offsetTo.Some? && offsetTo.value.pos.Some? ==> offsetTo.value.Within(w.pos)
    modifies w
    ensures ok <==> old(OffsetAccepted(offsetTo, base, w.pos, plus))
    ensures ok ==> w.pos == old(w.pos) && (old(w.Dense()) ==> w.Dense()) && w.Back() == old(w.Back())
    ensures ok ==> w.Front() == old(Fill(w.Front(), Placed(offsetTo), w.pos - StartOf(base) + plus))
  {
    ok := true;
    if offsetTo.Some? {
      var from := 0;
      if base.Some? {
        if base.value.pos.None? {
          return false;
        }
        from := base.value.pos.value;
      }
      ok := FillIn(w, offsetTo, w.pos - from + plus);
    }
  }

  /**
   * Writing a struct field by field, patching as it goes, produces what the two-pass encoder
   * produces, and fails exactly when that encoder has no answer.
   */
  method WriteStruct(struct: Struct, w: Writer) returns (ok: bool, markers: map<Id, PosMarker>)
    modifies w
    ensures ok <==> Encodable(struct, old(w.pos))
    ensures ok ==> (old(w.Dense()) ==> w.Dense()) && w.Front() == old(w.Front()) + Encode(struct, old(w.pos))
    ensures ok ==> w.Back() == Behind(old(w.Back()), Size(struct, old(w.pos)))
    ensures ok ==> fresh(markers.Values) && Tracks(markers, Slots(struct, old(w.pos)))
    decreases struct, 0
  {
    match struct
    case Empty =>
      ok, markers := true, map[];
    case Then(before, field) =>
      ghost var under, back := w.Front(), w.Back();
      ok, markers := WriteStruct(before, w);
      if ok {
        ok, markers := WriteField(field, w, markers, Slots(before, |under|));
        if ok {
          FieldStep(under, before, field);
          BehindStep(back, |under|, before, field);
        }
      }
  }

  /** One field of a struct whose markers so far are `markers`. */
  method WriteField(field: Field, w: Writer, markers: map<Id, PosMarker>, ghost slots: map<Id, Slot>)
    returns (ok: bool, after: map<Id, PosMarker>)
    requires Tracks(markers, slots)
    requires forall id :: id in slots ==> slots[id].at + slots[id].width <= w.pos
    modifies w
    ensures ok <==> FieldEncodable(field, slots, old(w.pos))
    ensures ok ==> (old(w.Dense()) ==> w.Dense()) && w.Front() == FieldEffect(old(w.Front()), field, slots)
    ensures ok ==> w.Back() == Behind(old(w.Back()), SizeOf(field, old(w.pos)))
    ensures ok ==> Tracks(after, if field.Mark? then slots[field.id := Slot(old(w.pos), field.width)] else slots)
    ensures ok ==> fresh(after.Values - markers.Values)
    decreases field, 2
  {
    after, ok := markers, true;
    match field {
      case Raw(bytes) =>
        w.Write(bytes);
      case Align(unit) =>
        w.Write(Zeros(if unit == 0 then 0 else Padding(w.pos, unit)));
      case Mark(id, width) =>
        if id in markers {
          ok := false;
          return;
        }
        var marker := new PosMarker(width);
        ok := marker.WritePlaceholder(w);
        after := markers[id := marker];
      case Value(_, _, _, _) =>
        ok := WriteValue(field, w, markers, slots);
    }
  }

  method WriteValue(field: Field, w: Writer, markers: map<Id, PosMarker>, ghost slots: map<Id, Slot>)
    returns (ok: bool)
    requires field.Value? && Tracks(markers, slots)
    requires forall id :: id in slots ==> slots[id].at + slots[id].width <= w.pos
    modifies w
    ensures ok <==> FieldEncodable(field, slots, old(w.pos))
    ensures ok ==> (old(w.Dense()) ==> w.Dense()) && w.Front() == FieldEffect(old(w.Front()), field, slots)
    ensures ok ==> w.Back() == Behind(old(w.Back()), SizeOf(field, old(w.pos)))
    decreases field, 1
  {
    var size, offset, base := field.size, field.offset, field.base;
    if (size.Some? && size.value.marker !in markers) || (offset.Some? && offset.value.marker !in markers)
      || (offset.Some? && base.Some? && base.value !in markers) {
      return false;
    }
    var sizeTo := if size.None? then None else Some(markers[size.value.marker]);
    var offsetTo := if offset.None? then None else Some(markers[offset.value.marker]);
    var from := if base.None? || base.value !in markers then None else Some(markers[base.value]);
    ok := WriteResolved(field, w, sizeTo, offsetTo, from, slots);
  }

  /** The marker object a patch names, found where the layout has its slot. */
  ghost predicate Resolves(to: Option<PosMarker>, patch: Option<Patch>, slots: map<Id, Slot>)
    reads if to.Some? then {to.value} else {}
  {
    && (to.Some? <==> patch.Some?)
    && (to.Some? ==> to.value.pos.Some? && patch.value.marker in slots)
    && Placed(to) == SlotOf(patch, slots)
  }

  method WriteResolved(field: Field, w: Writer, sizeTo: Option<PosMarker>, offsetTo: Option<PosMarker>,
                       from: Option<PosMarker>, ghost slots: map<Id, Slot>)
    returns (ok: bool)
    requires field.Value?
    requires Resolves(sizeTo, field.size, slots) && Resolves(offsetTo, field.offset, slots)
    requires StartOf(from) == BasePosition(slots, field.base) && (from.Some? ==> from.value.pos.Some?)
    requires field.offset.Some? && field.base.Some? ==> field.base.value in slots
    requires forall id :: id in slots ==> slots[id].at + slots[id].width <= w.pos
    modifies w
    ensures ok <==> FieldEncodable(field, slots, old(w.pos))
    ensures ok ==> (old(w.Dense()) ==> w.Dense()) && w.Front() == FieldEffect(old(w.Front()), field, slots)
    ensures ok ==> w.Back() == Behind(old(w.Back()), SizeOf(field, old(w.pos)))
    decreases field, 0
  {
    var sizePlus := if field.size.None? then 0 else field.size.value.plus;
    var offsetPlus := if field.offset.None? then 0 else field.offset.value.plus;
    ResolvedEncodableIff(field, sizeTo, offsetTo, from, slots, w.pos, sizePlus, offsetPlus);
    ghost var before, at, offsetSlot, sizeSlot := w.Front(), w.pos, Placed(offsetTo), Placed(sizeTo);
    ghost var offsetNumber, sizeNumber := w.pos - StartOf(from) + offsetPlus, Size(field.body, w.pos) + sizePlus;
    ghost var after;
    ok, after := WriteDescribed(field.body, w, sizeTo, offsetTo, from, sizePlus, offsetPlus,
      before, offsetSlot, offsetNumber, sizeSlot, sizeNumber);
    if ok {
      ValueEffect(after, before, field, slots, at, offsetSlot, offsetNumber, sizeSlot, sizeNumber);
    }
  }

  /** `WriteHero`, said with the slots and numbers of its markers. */
  method WriteDescribed(body: Struct, w: Writer, sizeTo: Option<PosMarker>, offsetTo: Option<PosMarker>,
                        from: Option<PosMarker>, sizePlus: nat, offsetPlus: nat, ghost before: seq<byte>,
                        ghost offsetSlot: Option<Slot>, ghost offsetNumber: nat,
                        ghost sizeSlot: Option<Slot>, ghost sizeNumber: nat)
    returns (ok: bool, ghost after: seq<byte>)
    requires StartOf(from) <= w.pos && before == w.Front()
    requires offsetTo.Some? && offsetTo.value.pos.Some? ==> offsetTo.value.Within(w.pos)
    requires sizeTo.Some? && sizeTo.value.pos.Some? ==> sizeTo.value.Within(w.pos)
    requires offsetSlot == Placed(offsetTo) && offsetNumber == w.pos - StartOf(from) + offsetPlus
    requires sizeSlot == Placed(sizeTo) && sizeNumber == Size(body, w.pos) + sizePlus
    modifies w
    ensures ok <==>
      && old(OffsetAccepted(offsetTo, from, w.pos, offsetPlus))
      && Encodable(body, old(w.pos))
      && old(sizeTo.Some? ==> sizeTo.value.Accepts(Size(body, w.pos) + sizePlus))
    ensures ok ==> (old(w.Dense()) ==> w.Dense()) && w.Front() == after
    ensures ok ==> w.Back() == Behind(old(w.Back()), Size(body, old(w.pos)))
    ensures ok ==> after == Described(before, offsetSlot, offsetNumber, Encode(body, |before|), sizeSlot, sizeNumber)
    decreases body, 2
  {
    ok := WriteHero(body, w, sizeTo, offsetTo, from, sizePlus, offsetPlus);
    after := w.Front();
  }

  lemma {:induction false} ResolvedEncodableIff(
    field: Field, sizeTo: Option<PosMarker>, offsetTo: Option<PosMarker>, from: Option<PosMarker>,
    slots: map<Id, Slot>, at: nat, sizePlus: nat, offsetPlus: nat)
    requires field.Value?
    requires Resolves(sizeTo, field.size, slots) && Resolves(offsetTo, field.offset, slots)
    requires StartOf(from) == BasePosition(slots, field.base) && (from.Some? ==> from.value.pos.Some?)
    requires field.offset.Some? && field.base.Some? ==> field.base.value in slots
    requires forall id :: id in slots ==> slots[id].at + slots[id].width <= at
    requires sizePlus == if field.size.None? then 0 else field.size.value.plus
    requires offsetPlus == if field.offset.None? then 0 else field.offset.value.plus
    ensures FieldEncodable(field, slots, at) <==>
      && OffsetAccepted(offsetTo, from, at, offsetPlus)
      && Encodable(field.body, at)
      && (sizeTo.Some? ==> sizeTo.value.Accepts(Size(field.body, at) + sizePlus))
  {
    ValueEncodableIff(field, slots, at);
  }

  /** The slot a patch names. */
  ghost function SlotOf(patch: Option<Patch>, slots: map<Id, Slot>): (slot: Option<Slot>) {
    if patch.Some? && patch.value.marker in slots then Some(slots[patch.value.marker]) else None
  }

  /** What a value does to a stream, said with the slots of its markers. */
  lemma {:induction false} ValueEffect(
    after: seq<byte>, s: seq<byte>, field: Field, slots: map<Id, Slot>, at: nat,
    offsetSlot: Option<Slot>, offsetNumber: nat, sizeSlot: Option<Slot>, sizeNumber: nat)
    requires |s| == at && forall id :: id in slots ==> slots[id].at + slots[id].width <= at
    requires field.Value? && FieldEncodable(field, slots, at)
    requires offsetSlot == SlotOf(field.offset, slots) && offsetNumber == OffsetNumber(slots, field, at)
    requires sizeSlot == SlotOf(field.size, slots) && sizeNumber == SizeNumber(field, at)
    requires after == Described(s, offsetSlot, offsetNumber, Encode(field.body, at), sizeSlot, sizeNumber)
    ensures after == FieldEffect(s, field, slots)
  {
    FillIsPut(s, slots, field.offset, offsetNumber);
    FillIsPut(Put(s, slots, field.offset, offsetNumber) + Encode(field.body, at), slots, field.size, sizeNumber);
  }

  lemma {:induction false} ValueEncodableIff(field: Field, slots: map<Id, Slot>, at: nat)
    requires field.Value? && forall id :: id in slots ==> slots[id].at <= at
    ensures FieldEncodable(field, slots, at) <==>
      && (field.offset.Some? && field.base.Some? ==> field.base.value in slots)
      && (field.offset.Some? ==> Holds(slots, field.offset.value.marker, OffsetNumber(slots, field, at)))
      && Encodable(field.body, at)
      && (field.size.Some? ==> Holds(slots, field.size.value.marker, SizeNumber(field, at)))
  {
  }

  lemma {:induction false} FillIsPut(s: seq<byte>, slots: map<Id, Slot>, patch: Option<Patch>, n: nat)
    requires patch.Some? ==> patch.value.marker in slots
    requires forall id :: id in slots ==> slots[id].at + slots[id].width <= |s|
    ensures Fill(s, SlotOf(patch, slots), n) == Put(s, slots, patch, n)
  {
  }
}
