/**
 * Direct-TCP framing: immutable outbound frames, the cursor that drains them by partial
 * writes, and the receiver that rebuilds them.
 */
module Transport {
  import opened Bytes
  import opened Segments

  const HEADER_SIZE: nat := 4
  const MAX_VECTORED_SEGMENTS: nat := 63
  const VECTORED_SLOTS: nat := 64

  datatype TransportError =
    | InvalidMessage
    | SegmentLimitExceeded(actual: nat, maximum: nat)
    | FrameTooLarge(announced: nat, maximum: nat)
    | CursorAdvanceOutOfBounds(requested: nat, remaining: nat)
    | WriteZero
    | NotConnected
    | BadMagic

  datatype SendFrame = SendFrame(segments: seq<seq<byte>>, totalLen: nat)

  /** Running sum of the segment lengths; `None` once it no longer fits 64 bits. */
  function CheckedTotal(total: nat, segments: seq<seq<byte>>): (r: Option<nat>)
    ensures r == if total + |Concat(segments)| < U64 || segments == []
                 then Some(total + |Concat(segments)|) else None
    decreases segments
  {
    if segments == [] then Some(total)
    else if total + |segments[0]| >= U64 then None
    else CheckedTotal(total + |segments[0]|, segments[1..])
  }

  function FromSegments(segments: seq<seq<byte>>, maximumSegments: nat): (r: Result<SendFrame, TransportError>)
    ensures r.Ok? <==> 0 < |segments| <= maximumSegments && 0 < |Concat(segments)| < U32
    ensures r.Ok? ==> r.value.segments == segments && r.value.totalLen == |Concat(segments)|
    ensures r.Err? && r.error.FrameTooLarge? ==> U32 <= |Concat(segments)| < U64
  {
    if segments == [] then Err(InvalidMessage)
    else if |segments| > maximumSegments then Err(SegmentLimitExceeded(|segments|, maximumSegments))
    else match CheckedTotal(0, segments)
      case None => Err(InvalidMessage)
      case Some(total) =>
        if total == 0 then Err(InvalidMessage)
        else if total > U32 - 1 then Err(FrameTooLarge(total, U32 - 1))
        else Ok(SendFrame(segments, total))
  }

  /** One zero byte, then the low 24 bits of the length, most significant byte first. */
  function FrameHeader(length: nat): (h: seq<byte>)
    ensures |h| == HEADER_SIZE
  {
    [0] + BE(length, 3)
  }

  /** What one frame looks like on the wire. */
  function FrameBytes(frame: SendFrame): (s: seq<byte>)
    ensures |s| == HEADER_SIZE + |Concat(frame.segments)|
  {
    FrameHeader(frame.totalLen) + Concat(frame.segments)
  }

  /** The non-empty pieces from a cursor position onward, in order. */
  function Pieces(segments: seq<seq<byte>>, index: nat, at: nat): (p: seq<seq<byte>>)
    requires index <= |segments| && at <= (if index < |segments| then |segments[index]| else 0)
    decreases |segments| - index
  {
    if index == |segments| then []
    else (if at < |segments[index]| then [segments[index][at..]] else []) + Pieces(segments, index + 1, 0)
  }

  lemma {:induction false} PiecesNonEmpty(segments: seq<seq<byte>>, index: nat, at: nat)
    requires index <= |segments| && at <= (if index < |segments| then |segments[index]| else 0)
    ensures [] !in Pieces(segments, index, at)
    decreases |segments| - index
  {
    if index < |segments| {
      PiecesNonEmpty(segments, index + 1, 0);
    }
  }

  /** Nothing is lost or reordered by leaving out the empty segments. */
  lemma {:induction false} PiecesCover(segments: seq<seq<byte>>, index: nat, at: nat)
    requires index < |segments| && at <= |segments[index]|
    ensures Before(segments, index) + at <= |Concat(segments)|
    ensures Concat(Pieces(segments, index, at)) == Concat(segments)[Before(segments, index) + at..]
    decreases |segments| - index
  {
    var flat, from := Concat(segments), Before(segments, index) + at;
    var piece := segments[index][at..];
    PieceAt(segments, index, at);
    BeforeNext(segments, index);
    if index + 1 < |segments| {
      PiecesCover(segments, index + 1, 0);
    }
    PieceFirst(flat, from, piece, Pieces(segments, index + 1, 0));
  }

  lemma {:induction false} PieceFirst(flat: seq<byte>, from: nat, piece: seq<byte>, others: seq<seq<byte>>)
    requires from + |piece| <= |flat| && flat[from..from + |piece|] == piece
    requires Concat(others) == flat[from + |piece|..]
    ensures Concat((if piece != [] then [piece] else []) + others) == flat[from..]
  {
    PutFirst(piece, others);
    JoinDrop(flat, from, from + |piece|);
  }

  lemma {:induction false} PutFirst(piece: seq<byte>, others: seq<seq<byte>>)
    ensures Concat((if piece != [] then [piece] else []) + others) == piece + Concat(others)
  {
    if piece == [] {
      assert [] + others == others;
    } else {
      assert ([piece] + others)[1..] == others;
    }
  }

  lemma {:induction false} ConcatPrefix(parts: seq<seq<byte>>, k: nat)
    requires k <= |parts|
    ensures Concat(parts[..k]) <= Concat(parts)
  {
    assert parts == parts[..k] + parts[k..];
    ConcatSplit(parts[..k], parts[k..]);
  }

  lemma {:induction false} ConcatNonEmpty(parts: seq<seq<byte>>)
    requires parts != [] && parts[0] != []
    ensures Concat(parts) != []
  {
  }

  /** The sum of the segment lengths from a cursor position onward. */
  function CountFrom(segments: seq<seq<byte>>, index: nat, at: nat): (n: nat)
    requires index <= |segments| && (index < |segments| ==> at <= |segments[index]|)
    ensures index < |segments| ==> n == |Concat(segments)| - Before(segments, index) - at
    ensures index == |segments| ==> n == 0
    decreases |segments| - index
  {
    if index == |segments| then 0
    else
      BeforeNext(segments, index);
      |segments[index]| - at + CountFrom(segments, index + 1, 0)
  }

  /** The first non-empty piece from a cursor position onward, or nothing. */
  function FirstPiece(segments: seq<seq<byte>>, index: nat, at: nat): (c: seq<byte>)
    requires index < |segments| && at <= |segments[index]|
    ensures var from := Before(segments, index) + at;
      && from + |c| <= |Concat(segments)|
      && c == Concat(segments)[from..from + |c|]
      && (c == [] <==> from == |Concat(segments)|)
    decreases |segments| - index
  {
    PieceAt(segments, index, at);
    BeforeNext(segments, index);
    if at < |segments[index]| then segments[index][at..]
    else if index + 1 == |segments| then []
    else FirstPiece(segments, index + 1, 0)
  }

  /** All write progress over one frame; the frame itself never changes. */
  class SendCursor {
    const header: seq<byte>
    const segments: seq<seq<byte>>
    var headerPos: nat
    var segmentIndex: nat
    var segmentPos: nat

    ghost predicate Valid()
      reads this
    {
      && |header| == HEADER_SIZE
      && headerPos <= HEADER_SIZE
      && segmentIndex <= |segments|
      && segmentPos <= (if segmentIndex < |segments| then |segments[segmentIndex]| else 0)
      && (headerPos < HEADER_SIZE ==> segmentIndex == 0 && segmentPos == 0)
    }

    /** The whole frame, as it appears on the wire. */
    ghost function Flat(): (s: seq<byte>)
      ensures |s| == |header| + |Concat(segments)|
    {
      header + Concat(segments)
    }

    /** How many segment bytes are behind the cursor. */
    ghost function SegmentOffset(): (n: nat)
      requires Valid()
      reads this
      ensures n <= |Concat(segments)|
    {
      OffsetBound(segments, segmentIndex, segmentPos);
      Before(segments, segmentIndex) + segmentPos
    }

    /** How many bytes of `Flat` are behind the cursor. */
    ghost function Written(): (n: nat)
      requires Valid()
      reads this
      ensures n <= |Flat()|
    {
      headerPos + SegmentOffset()
    }

    /** The bytes not yet written. */
    ghost function Rest(): (s: seq<byte>)
      requires Valid()
      reads this
    {
      Flat()[Written()..]
    }

    constructor Start(frame: SendFrame)
      ensures Valid() && segments == frame.segments && header == FrameHeader(frame.totalLen)
      ensures Flat() == FrameBytes(frame) && Written() == 0 && Rest() == FrameBytes(frame)
    {
      header := FrameHeader(frame.totalLen);
      segments := frame.segments;
      headerPos, segmentIndex, segmentPos := 0, 0, 0;
    }

    static method New(frame: SendFrame) returns (r: Result<SendCursor, TransportError>)
      ensures r.Ok? <==> frame.totalLen < U32
      ensures r.Ok? ==> fresh(r.value) && r.value.Valid() && r.value.segments == frame.segments
      ensures r.Ok? ==> r.value.Written() == 0 && r.value.Flat() == FrameBytes(frame)
      ensures r.Err? ==> r.error == FrameTooLarge(frame.totalLen, U32 - 1)
    {
      if frame.totalLen > U32 - 1 {
        return Err(FrameTooLarge(frame.totalLen, U32 - 1));
      }
      var cursor := new SendCursor.Start(frame);
      return Ok(cursor);
    }

    function Remaining(): (n: nat)
      requires Valid()
      reads this
      ensures n == |Rest()| == |Flat()| - Written()
    {
      HEADER_SIZE - headerPos + CountFrom(segments, segmentIndex, segmentPos)
    }

    function Chunk(): (c: seq<byte>)
      requires Valid()
      reads this
      ensures c <= Rest()
      ensures c == [] <==> Rest() == []
    {
      if headerPos < HEADER_SIZE then header[headerPos..]
      else if segmentIndex == |segments| then []
      else
        var from := Before(segments, segmentIndex) + segmentPos;
        assert Written() == HEADER_SIZE + from && Rest() == Concat(segments)[from..];
        FirstPiece(segments, segmentIndex, segmentPos)
    }

    method TryAdvance(count: nat) returns (r: Result<(), TransportError>)
      requires Valid()
      modifies this
      ensures Valid()
      ensures count > |old(Rest())| ==>
        r == Err(CursorAdvanceOutOfBounds(count, |old(Rest())|)) && unchanged(this)
      ensures count <= |old(Rest())| ==> r.Ok? && Written() == old(Written()) + count
    {
      var remaining := Remaining();
      if count > remaining {
        return Err(CursorAdvanceOutOfBounds(count, remaining));
      }
      ghost var written := Written();
      var headerCount := if count < HEADER_SIZE - headerPos then count else HEADER_SIZE - headerPos;
      headerPos := headerPos + headerCount;
      var left: nat := count - headerCount;
      while left > 0
        invariant Valid() && Written() + left == written + count
        invariant left > 0 ==> headerPos == HEADER_SIZE
        decreases left, |segments| - segmentIndex
      {
        var segment := segments[segmentIndex];
        var available := |segment| - segmentPos;
        var consumed := if left < available then left else available;
        BeforeNext(segments, segmentIndex);
        segmentPos := segmentPos + consumed;
        left := left - consumed;
        if segmentPos == |segment| {
          segmentIndex := segmentIndex + 1;
          segmentPos := 0;
        }
      }
      return Ok(());
    }

    /** Everything left to write, as a list of non-empty slices. */
    ghost function Slices(): (p: seq<seq<byte>>)
      requires Valid()
      reads this
    {
      (if headerPos < HEADER_SIZE then [header[headerPos..]] else []) + Pieces(segments, segmentIndex, segmentPos)
    }

    lemma {:induction false} SlicesAreRest()
      requires Valid()
      ensures Concat(Slices()) == Rest()
    {
      var head, flat, at := header[headerPos..], Concat(segments), SegmentOffset();
      assert Concat(Pieces(segments, segmentIndex, segmentPos)) == flat[at..] by {
        if segmentIndex < |segments| {
          PiecesCover(segments, segmentIndex, segmentPos);
        }
      }
      PutFirst(head, Pieces(segments, segmentIndex, segmentPos));
      if headerPos < HEADER_SIZE {
        assert at == 0 && flat[0..] == flat;
        assert Rest() == head + flat;
      } else {
        assert head == [] && Rest() == flat[at..];
      }
    }

    /** The first slices are exactly the next bytes of the frame. */
    lemma {:induction false} OfferedIsNext(count: nat, n: nat)
      requires Valid() && count <= |Slices()| && n <= |Concat(Slices()[..count])|
      ensures n <= Remaining()
      ensures Concat(Slices()[..count])[..n] == Flat()[Written()..Written() + n]
      ensures 0 < count ==> Concat(Slices()[..count]) != []
      ensures Remaining() > 0 ==> Slices() != []
    {
      SlicesAreRest();
      ConcatPrefix(Slices(), count);
      if 0 < count {
        PiecesNonEmpty(segments, segmentIndex, segmentPos);
        assert Slices()[0] != [];
        ConcatNonEmpty(Slices()[..count]);
      }
      assert Rest()[..n] == Flat()[Written()..Written() + n];
    }

    /** Fills the slots with the next slices, as many as there is room for. */
    method ChunksVectored(destination: array<seq<byte>>) returns (filled: nat)
      requires Valid()
      modifies destination
      ensures filled == (if |Slices()| < destination.Length then |Slices()| else destination.Length)
      ensures forall i :: 0 <= i < destination.Length ==>
        destination[i] == if i < filled then Slices()[i] else old(destination[i])
    {
      filled := 0;
      if destination.Length == 0 {
        return;
      }
      if headerPos < HEADER_SIZE {
        destination[0] := header[headerPos..];
        filled := 1;
      }
      filled := FillPieces(segments, segmentIndex, segmentPos, destination, filled);
    }
  }

  lemma {:induction false} HeadAndTail(pieces: seq<seq<byte>>, k: nat, head: seq<byte>, tail: seq<seq<byte>>)
    requires k <= |pieces| && pieces[k..] == [head] + tail
    ensures k < |pieces| && pieces[k] == head && pieces[k + 1..] == tail
  {
    assert |pieces[k..]| > 0;
    assert pieces[k] == pieces[k..][0];
    assert pieces[k + 1..] == pieces[k..][1..];
  }

  /** The segment loop of `ChunksVectored`, starting with `occupied` slots in use. */
  method FillPieces(segments: seq<seq<byte>>, segmentIndex: nat, segmentPos: nat,
                    destination: array<seq<byte>>, occupied: nat) returns (filled: nat)
    requires segmentIndex <= |segments|
    requires segmentPos <= (if segmentIndex < |segments| then |segments[segmentIndex]| else 0)
    requires occupied <= destination.Length
    modifies destination
    ensures occupied <= filled <= destination.Length
    ensures filled - occupied <= |Pieces(segments, segmentIndex, segmentPos)|
    ensures filled < destination.Length ==> filled - occupied == |Pieces(segments, segmentIndex, segmentPos)|
    ensures forall i :: 0 <= i < destination.Length ==>
      destination[i] ==
        if occupied <= i < filled then Pieces(segments, segmentIndex, segmentPos)[i - occupied]
        else old(destination[i])
  {
    ghost var pieces := Pieces(segments, segmentIndex, segmentPos);
    filled := occupied;
    var index: nat, start: nat := segmentIndex, segmentPos;
    while index < |segments| && filled < destination.Length
      invariant index <= |segments| && start <= (if index < |segments| then |segments[index]| else 0)
      invariant occupied <= filled <= destination.Length && filled - occupied <= |pieces|
      invariant pieces[filled - occupied..] == Pieces(segments, index, start)
      invariant forall i :: 0 <= i < destination.Length ==>
        destination[i] == if occupied <= i < filled then pieces[i - occupied] else old(destination[i])
    {
      if start < |segments[index]| {
        HeadAndTail(pieces, filled - occupied, segments[index][start..], Pieces(segments, index + 1, 0));
        destination[filled] := segments[index][start..];
        filled := filled + 1;
      }
      index, start := index + 1, 0;
    }
  }

  /** A frame within the limits, and a socket that keeps taking something until all is sent. */
  predicate Sendable(frame: SendFrame, accepted: seq<nat>) {
    && |frame.segments| <= MAX_VECTORED_SEGMENTS && frame.totalLen < U32
    && |accepted| >= |FrameBytes(frame)| && 0 !in accepted
  }

  /**
   * The TCP send loop. `accepted[i]` is how many bytes the socket is willing to take at the
   * i-th vectored write; a list that runs out stands for a socket error.
   */
  method Send(frame: SendFrame, accepted: seq<nat>)
    returns (r: Result<(), TransportError>, sent: seq<byte>, progress: seq<nat>)
    ensures Total(progress) <= |FrameBytes(frame)| && sent == FrameBytes(frame)[..Total(progress)]
    ensures 0 !in progress
    ensures r.Ok? ==> sent == FrameBytes(frame)
    ensures Sendable(frame, accepted) ==> r.Ok?
  {
    sent, progress := [], [];
    if |frame.segments| > MAX_VECTORED_SEGMENTS {
      r := Err(SegmentLimitExceeded(|frame.segments|, MAX_VECTORED_SEGMENTS));
      return;
    }
    var started := SendCursor.New(frame);
    if started.Err? {
      r := Err(started.error);
      return;
    }
    var cursor := started.value;
    var turn := 0;
    r := Ok(());
    while r.Ok? && cursor.Remaining() > 0
      invariant fresh(cursor) && cursor.Valid() && cursor.Flat() == FrameBytes(frame)
      invariant turn <= |accepted| && turn <= cursor.Written() == Total(progress)
      invariant sent == FrameBytes(frame)[..cursor.Written()]
      invariant 0 !in progress
      invariant r.Err? ==> |accepted| < |FrameBytes(frame)| || 0 in accepted
      decreases r.Ok?, cursor.Remaining()
    {
      if turn == |accepted| {
        r := Err(NotConnected);
      } else {
        ghost var from := cursor.Written();
        var written, bytes := WriteOnce(cursor, accepted[turn]);
        if written == 0 {
          r := Err(WriteZero);
        } else {
          JoinSlices(FrameBytes(frame), 0, from, cursor.Written());
          TotalSnoc(progress, written);
          sent, progress, turn := sent + bytes, progress + [written], turn + 1;
        }
      }
    }
  }

  /** One vectored write of what the cursor offers, then the matching advance. */
  method WriteOnce(cursor: SendCursor, accept: nat) returns (written: nat, bytes: seq<byte>)
    requires cursor.Valid() && cursor.Remaining() > 0
    modifies cursor
    ensures cursor.Valid()
    ensures written == |bytes| <= accept && (written == 0 <==> accept == 0)
    ensures cursor.Written() == old(cursor.Written()) + written
    ensures bytes == cursor.Flat()[old(cursor.Written())..cursor.Written()]
  {
    var offered := Offered(cursor);
    written := if accept < |offered| then accept else |offered|;
    bytes := offered[..written];
    assert bytes == cursor.Flat()[cursor.Written()..cursor.Written() + written];
    var moved := cursor.TryAdvance(written);
  }

  /** What one vectored write offers: something, and what comes next. */
  method Offered(cursor: SendCursor) returns (offered: seq<byte>)
    requires cursor.Valid() && cursor.Remaining() > 0
    ensures offered != [] && |offered| <= cursor.Remaining()
    ensures offered == cursor.Flat()[cursor.Written()..cursor.Written() + |offered|]
  {
    var slices := new seq<byte>[VECTORED_SLOTS];
    var count := cursor.ChunksVectored(slices);
    offered := Concat(slices[..count]);
    assert slices[..count] == cursor.Slices()[..count];
    cursor.OfferedIsNext(count, |offered|);
    assert offered[..|offered|] == offered;
  }

  function Total(counts: seq<nat>): (n: nat) {
    if counts == [] then 0 else counts[0] + Total(counts[1..])
  }

  lemma {:induction false} TotalSnoc(counts: seq<nat>, last: nat)
    ensures Total(counts + [last]) == Total(counts) + last
  {
    if counts == [] {
    } else {
      TotalSnoc(counts[1..], last);
      assert (counts + [last])[1..] == counts[1..] + [last];
    }
  }

  /** The default transport loop: the header, then each non-empty segment in one write. */
  method SendWithProgress(frame: SendFrame, wire: seq<byte>) returns (after: seq<byte>, progress: seq<nat>)
    ensures after == wire + FrameBytes(frame)
    ensures Total(progress) == |FrameBytes(frame)|
  {
    after := wire + FrameHeader(frame.totalLen);
    progress := [HEADER_SIZE];
    assert frame.segments[..0] == [];
    assert Total([HEADER_SIZE]) == HEADER_SIZE + Total([]);
    for i := 0 to |frame.segments|
      invariant after == wire + FrameHeader(frame.totalLen) + Concat(frame.segments[..i])
      invariant Total(progress) == HEADER_SIZE + |Concat(frame.segments[..i])|
    {
      var buf := frame.segments[i];
      ConcatSnoc(frame.segments[..i], buf);
      assert frame.segments[..i + 1] == frame.segments[..i] + [buf];
      if buf != [] {
        after := after + buf;
        TotalSnoc(progress, |buf|);
        progress := progress + [|buf|];
      }
    }
    assert frame.segments[..|frame.segments|] == frame.segments;
  }

  /** One receive call: its outcome, and what is left of the stream. */
  datatype Received = Received(outcome: Result<seq<byte>, TransportError>, rest: seq<byte>)

  function Receive(stream: seq<byte>, maximum: nat): (r: Received)
  {
    if |stream| < HEADER_SIZE then Received(Err(NotConnected), [])
    else
      var header, body := stream[..HEADER_SIZE], stream[HEADER_SIZE..];
      if header[0] != 0 then Received(Err(BadMagic), body)
      else
        var length := FromBE(header[1..]);
        if length > maximum then Received(Err(FrameTooLarge(length, maximum)), body)
        else if |body| < length then Received(Err(NotConnected), [])
        else Received(Ok(body[..length]), body[length..])
  }

  /** The reading half of a transport over the bytes that will arrive. */
  class Inbound {
    var stream: seq<byte>

    constructor (arriving: seq<byte>)
      ensures stream == arriving
    {
      stream := arriving;
    }

    method ReceiveExact(n: nat) returns (r: Option<seq<byte>>)
      modifies this
      ensures n <= |old(stream)| ==> r == Some(old(stream)[..n]) && stream == old(stream)[n..]
      ensures n > |old(stream)| ==> r.None? && stream == []
    {
      if n > |stream| {
        stream := [];
        return None;
      }
      r := Some(stream[..n]);
      stream := stream[n..];
    }

    method ReceiveWithLimit(maximum: nat) returns (r: Result<seq<byte>, TransportError>)
      modifies this
      ensures Receive(old(stream), maximum) == Received(r, stream)
      ensures r.Ok? ==> |r.value| <= maximum
    {
      var header := ReceiveExact(HEADER_SIZE);
      if header.None? {
        return Err(NotConnected);
      }
      if header.value[0] != 0 {
        return Err(BadMagic);
      }
      var length := FromBE(header.value[1..]);
      if length > maximum {
        return Err(FrameTooLarge(length, maximum));
      }
      var data := ReceiveExact(length);
      if data.None? {
        return Err(NotConnected);
      }
      return Ok(data.value);
    }
  }

  predicate Fits(frame: SendFrame, maximum: nat) {
    frame.totalLen < U24 && frame.totalLen <= maximum
  }

  /** Received payloads of `n` calls in a row, if none fails, and what is left. */
  function ReceiveMany(stream: seq<byte>, n: nat, maximum: nat): (r: Option<(seq<seq<byte>>, seq<byte>)>)
  {
    if n == 0 then Some(([], stream))
    else
      var first := Receive(stream, maximum);
      if first.outcome.Err? then None
      else PutBack(first.outcome.value, ReceiveMany(first.rest, n - 1, maximum))
  }

  function PutBack(
    payload: seq<byte>, later: Option<(seq<seq<byte>>, seq<byte>)>): (r: Option<(seq<seq<byte>>, seq<byte>)>)
    ensures r.Some? <==> later.Some?
    ensures r.Some? ==> r.value.0 != [] && r.value.0[0] == payload && r.value.0[1..] == later.value.0
    ensures r.Some? ==> r.value.1 == later.value.1
  {
    match later
    case None => None
    case Some((payloads, rest)) => Some(([payload] + payloads, rest))
  }

  lemma {:induction false} PutBackIs(
    payload: seq<byte>, later: Option<(seq<seq<byte>>, seq<byte>)>, all: seq<seq<byte>>, rest: seq<byte>)
    requires all != [] && all[0] == payload
    ensures PutBack(payload, later) == Some((all, rest)) <==> later == Some((all[1..], rest))
  {
    if later == Some((all[1..], rest)) {
      assert [payload] + all[1..] == all;
    }
  }

  function Payloads(frames: seq<SendFrame>): (p: seq<seq<byte>>)
    ensures |p| == |frames|
  {
    if frames == [] then [] else [Concat(frames[0].segments)] + Payloads(frames[1..])
  }

  function Wire(frames: seq<SendFrame>): (s: seq<byte>) {
    if frames == [] then [] else FrameBytes(frames[0]) + Wire(frames[1..])
  }

  /** The receiver reads the low 24 bits of the announced length, whatever was sent. */
  lemma {:induction false} ReceiveOfFrame(frame: SendFrame, tail: seq<byte>, maximum: nat)
    requires frame.totalLen == |Concat(frame.segments)|
    ensures var length := frame.totalLen % U24;
      Receive(FrameBytes(frame) + tail, maximum) ==
        if length > maximum then Received(Err(FrameTooLarge(length, maximum)), Concat(frame.segments) + tail)
        else Received(Ok(Concat(frame.segments)[..length]), Concat(frame.segments)[length..] + tail)
  {
    var stream := FrameBytes(frame) + tail;
    var payload := Concat(frame.segments);
    assert stream[..HEADER_SIZE] == FrameHeader(frame.totalLen);
    assert FrameHeader(frame.totalLen)[1..] == BE(frame.totalLen, 3);
    assert stream[HEADER_SIZE..] == payload + tail;
    FromBEofBE(frame.totalLen, 3);
    Capacities();
    var length := frame.totalLen % U24;
    assert length <= frame.totalLen;
    assert (payload + tail)[..length] == payload[..length];
    assert (payload + tail)[length..] == payload[length..] + tail;
  }

  /** One frame comes back whole exactly when its length fits. */
  lemma {:induction false} FrameSurvives(frame: SendFrame, tail: seq<byte>, maximum: nat)
    requires frame.totalLen == |Concat(frame.segments)|
    ensures var got := Receive(FrameBytes(frame) + tail, maximum);
      if Fits(frame, maximum) then got == Received(Ok(Concat(frame.segments)), tail)
      else got.outcome != Ok(Concat(frame.segments))
  {
    ReceiveOfFrame(frame, tail, maximum);
    var payload, length := Concat(frame.segments), frame.totalLen % U24;
    if Fits(frame, maximum) {
      assert length == |payload| && payload[..length] == payload;
      assert payload[length..] + tail == tail;
    }
  }

  /**
   * A run of frames is received back, payload for payload with nothing left over, exactly
   * when every frame fits the 24-bit length field and the receiver's limit.
   */
  lemma {:induction false} FramingRoundTrip(frames: seq<SendFrame>, tail: seq<byte>, maximum: nat)
    requires forall f :: f in frames ==> f.totalLen == |Concat(f.segments)|
    ensures (forall f :: f in frames ==> Fits(f, maximum)) <==>
      ReceiveMany(Wire(frames) + tail, |frames|, maximum) == Some((Payloads(frames), tail))
  {
    if frames == [] {
      assert Wire(frames) + tail == tail;
    } else {
      var more := Wire(frames[1..]) + tail;
      assert Wire(frames) + tail == FrameBytes(frames[0]) + more;
      assert frames[0] in frames;
      FrameSurvives(frames[0], more, maximum);
      var payload := Concat(frames[0].segments);
      assert Payloads(frames)[1..] == Payloads(frames[1..]);
      if Fits(frames[0], maximum) {
        PutBackIs(payload, ReceiveMany(more, |frames| - 1, maximum), Payloads(frames), tail);
        FramingRoundTrip(frames[1..], tail, maximum);
        assert forall f :: f in frames <==> f == frames[0] || f in frames[1..];
      } else {
        var got := ReceiveMany(FrameBytes(frames[0]) + more, |frames|, maximum);
        assert got.Some? ==> got.value.0[0] != payload;
      }
    }
  }

  lemma {:induction false} WireSnoc(frames: seq<SendFrame>, last: SendFrame)
    ensures Wire(frames + [last]) == Wire(frames) + FrameBytes(last)
  {
    if frames == [] {
      assert Wire([]) == [] && Wire([last]) == FrameBytes(last) + Wire([]);
    } else {
      assert (frames + [last])[0] == frames[0] && (frames + [last])[1..] == frames[1..] + [last];
      WireSnoc(frames[1..], last);
      Associative(FrameBytes(frames[0]), Wire(frames[1..]), FrameBytes(last));
    }
  }

  /**
   * Sends frames one after the other, each under its own schedule of partial writes, over a
   * stream that a receiver then reads. What fits is received as exactly the payloads sent.
   */
  method Exchange(frames: seq<SendFrame>, schedules: seq<seq<nat>>, maximum: nat)
    returns (sentAll: bool, wire: seq<byte>)
    requires |schedules| == |frames|
    requires forall f :: f in frames ==> f.totalLen == |Concat(f.segments)|
    ensures (forall i :: 0 <= i < |frames| ==> Sendable(frames[i], schedules[i])) ==> sentAll
    ensures sentAll ==> wire == Wire(frames)
    ensures sentAll ==>
      ((forall f :: f in frames ==> Fits(f, maximum)) <==>
       ReceiveMany(wire, |frames|, maximum) == Some((Payloads(frames), [])))
  {
    wire := [];
    for i := 0 to |frames|
      invariant wire == Wire(frames[..i])
    {
      var r, sent, progress := Send(frames[i], schedules[i]);
      if r.Err? {
        assert !Sendable(frames[i], schedules[i]);
        sentAll := false;
        return;
      }
      WireSnoc(frames[..i], frames[i]);
      assert frames[..i + 1] == frames[..i] + [frames[i]];
      wire := wire + sent;
    }
    assert frames[..|frames|] == frames;
    sentAll := true;
    FramingRoundTrip(frames, [], maximum);
    assert wire + [] == wire;
  }
}
