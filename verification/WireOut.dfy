/**
 * The builder of one outgoing message: payloads are attached, offsets are sealed, members are
 * signed in place (section 3.1.4.1 of MS-SMB2) and the message is handed over as segments.
 */
module WireOut {
  import opened Bytes
  import opened Segments
  import opened Arena

  const SIGNATURE: nat := 48
  const SIGNATURE_SIZE: nat := 16

  datatype Phase = Encoded | OffsetsFinalized | Protected

  datatype BuildError =
    | WrongPhase | SegmentLimitExceeded | OutOfOrder | NoSuchMember
    | SignatureEscapesMetadata | ShorterThanHeader | Unsigned | PartiallySigned | LengthOverflow

  datatype Builder = Builder(
    metadata: seq<byte>, payloads: seq<seq<byte>>, ranges: seq<Range>, segmentLimit: nat,
    phase: Phase, patched: nat)

  datatype WireMessage = WireMessage(
    metadata: seq<byte>, payloads: seq<seq<byte>>, ranges: seq<Range>, totalLen: nat)

  datatype Call =
    | AttachPayload(payload: seq<byte>)
    | FinalizeOffsets
    | PatchSignature(member: nat, signature: nat)
    | FinishSigned
    | FinishUnsigned

  // ----- one call -----

  function MemberCount(ranges: seq<Range>): (n: nat)
    ensures n > 0
  {
    if ranges == [] then 1 else |ranges|
  }

  function MemberRange(b: Builder, index: nat): (r: Option<Range>)
  {
    if b.ranges == [] then (if index == 0 then Some(Range(0, |b.metadata|)) else None)
    else if index < |b.ranges| then Some(b.ranges[index])
    else None
  }

  function Attached(b: Builder, payload: seq<byte>): (r: Result<Builder, BuildError>)
  {
    if b.phase != Encoded then Err(WrongPhase)
    else if payload == [] then Ok(b)
    else if 1 + |b.payloads| >= b.segmentLimit then Err(SegmentLimitExceeded)
    else Ok(b.(payloads := b.payloads + [payload]))
  }

  function Patched(b: Builder, member: nat, signature: nat): (r: Result<Builder, BuildError>)
  {
    if b.phase != OffsetsFinalized then Err(WrongPhase)
    else if member != b.patched then Err(OutOfOrder)
    else match MemberRange(b, member)
      case None => Err(NoSuchMember)
      case Some(range) =>
        if range.start + SIGNATURE + SIGNATURE_SIZE > |b.metadata| then Err(SignatureEscapesMetadata)
        else Ok(b.(
          metadata := Splice(b.metadata, range.start + SIGNATURE, LE(signature, SIGNATURE_SIZE)),
          patched := b.patched + 1))
  }

  /** The builder after an accepted call, or why the call is refused. */
  function Outcome(b: Builder, call: Call): (r: Result<Builder, BuildError>)
  {
    match call
    case AttachPayload(payload) => Attached(b, payload)
    case FinalizeOffsets =>
      if b.phase == Encoded then Ok(b.(phase := OffsetsFinalized)) else Err(WrongPhase)
    case PatchSignature(member, signature) => Patched(b, member, signature)
    case FinishSigned =>
      if b.phase != OffsetsFinalized then Err(WrongPhase)
      else if b.patched != MemberCount(b.ranges) then Err(Unsigned)
      else Ok(b.(phase := Protected))
    case FinishUnsigned =>
      if b.phase != OffsetsFinalized then Err(WrongPhase)
      else if b.patched != 0 then Err(PartiallySigned)
      else Ok(b.(phase := Protected))
  }

  function ZeroSignature(member: seq<byte>): (s: seq<byte>)
    requires |member| >= HEADER_SIZE
    ensures |s| == |member|
  {
    Splice(member, SIGNATURE, Zeros(SIGNATURE_SIZE))
  }

  /** What the signature of a member is computed over. */
  function SigningSegments(b: Builder, member: nat): (r: Result<seq<seq<byte>>, BuildError>)
  {
    if b.phase != OffsetsFinalized then Err(WrongPhase)
    else match MemberRange(b, member)
      case None => Err(NoSuchMember)
      case Some(range) =>
        if !(range.start <= range.end <= |b.metadata|) then Err(SignatureEscapesMetadata)
        else if range.end - range.start < HEADER_SIZE then Err(ShorterThanHeader)
        else Ok([ZeroSignature(b.metadata[range.start..range.end])]
          + if MemberCount(b.ranges) == 1 then b.payloads else [])
  }

  function Length(segments: seq<seq<byte>>): (n: nat) {
    |Concat(segments)|
  }

  function Sealed(b: Builder): (r: Result<WireMessage, BuildError>)
  {
    if b.phase != Protected then Err(WrongPhase)
    else if |b.metadata| + Length(b.payloads) >= U64 then Err(LengthOverflow)
    else Ok(WireMessage(b.metadata, b.payloads, b.ranges, |b.metadata| + Length(b.payloads)))
  }

  class WireBuilder {
    var metadata: seq<byte>
    var payloads: seq<seq<byte>>
    const ranges: seq<Range>
    const segmentLimit: nat
    var phase: Phase
    var patched: nat

    ghost function State(): (b: Builder)
      reads this
    {
      Builder(metadata, payloads, ranges, segmentLimit, phase, patched)
    }

    constructor (encoding: Encoding, segmentLimit: nat)
      ensures State() == Builder(encoding.metadata, [], encoding.ranges, segmentLimit, Encoded, 0)
    {
      metadata, payloads, ranges := encoding.metadata, [], encoding.ranges;
      this.segmentLimit, phase, patched := segmentLimit, Encoded, 0;
    }

    method AttachPayload(payload: seq<byte>) returns (r: Result<(), BuildError>)
      modifies this
      ensures Reports(r, old(State()), Call.AttachPayload(payload), State())
    {
      if phase != Encoded {
        return Err(WrongPhase);
      }
      if payload == [] {
        return Ok(());
      }
      if 1 + |payloads| >= segmentLimit {
        return Err(SegmentLimitExceeded);
      }
      payloads := payloads + [payload];
      r := Ok(());
    }

    method FinalizeOffsets() returns (r: Result<(), BuildError>)
      modifies this
      ensures Reports(r, old(State()), Call.FinalizeOffsets, State())
    {
      if phase != Encoded {
        return Err(WrongPhase);
      }
      phase := OffsetsFinalized;
      r := Ok(());
    }

    method RangeOfMember(index: nat) returns (r: Option<Range>)
      ensures r == MemberRange(State(), index)
    {
      if ranges == [] {
        if index == 0 {
          return Some(Range(0, |metadata|));
        }
        return None;
      }
      r := if index < |ranges| then Some(ranges[index]) else None;
    }

    method PatchSignature(member: nat, signature: nat) returns (r: Result<(), BuildError>)
      modifies this
      ensures Reports(r, old(State()), Call.PatchSignature(member, signature), State())
    {
      if phase != OffsetsFinalized {
        return Err(WrongPhase);
      }
      if member != patched {
        return Err(OutOfOrder);
      }
      var range := RangeOfMember(member);
      if range.None? {
        return Err(NoSuchMember);
      }
      var start := range.value.start + SIGNATURE;
      var end := start + SIGNATURE_SIZE;
      if end > |metadata| {
        return Err(SignatureEscapesMetadata);
      }
      metadata := metadata[..start] + LE(signature, SIGNATURE_SIZE) + metadata[end..];
      patched := patched + 1;
      r := Ok(());
    }

    method FinishSigned() returns (r: Result<(), BuildError>)
      modifies this
      ensures Reports(r, old(State()), Call.FinishSigned, State())
    {
      if phase != OffsetsFinalized {
        return Err(WrongPhase);
      }
      if patched != MemberCount(ranges) {
        return Err(Unsigned);
      }
      phase := Protected;
      r := Ok(());
    }

    method FinishUnsigned() returns (r: Result<(), BuildError>)
      modifies this
      ensures Reports(r, old(State()), Call.FinishUnsigned, State())
    {
      if phase != OffsetsFinalized {
        return Err(WrongPhase);
      }
      if patched != 0 {
        return Err(PartiallySigned);
      }
      phase := Protected;
      r := Ok(());
    }

    method OwnedSigningSegments(member: nat) returns (r: Result<seq<seq<byte>>, BuildError>)
      ensures r == SigningSegments(State(), member)
    {
      if phase != OffsetsFinalized {
        return Err(WrongPhase);
      }
      var range := RangeOfMember(member);
      if range.None? {
        return Err(NoSuchMember);
      }
      var start, end := range.value.start, range.value.end;
      if !(start <= end <= |metadata|) {
        return Err(SignatureEscapesMetadata);
      }
      if end - start < HEADER_SIZE {
        return Err(ShorterThanHeader);
      }
      var copy := metadata[start..end];
      copy := copy[..SIGNATURE] + Zeros(SIGNATURE_SIZE) + copy[SIGNATURE + SIGNATURE_SIZE..];
      var segments := [copy];
      if MemberCount(ranges) == 1 {
        segments := segments + payloads;
      } else {
        assert segments == segments + [];
      }
      r := Ok(segments);
    }

    /** Adds up the lengths with an overflow check at every segment. */
    method Seal() returns (r: Result<WireMessage, BuildError>)
      requires |metadata| < U64
      ensures r == Sealed(State())
    {
      if phase != Protected {
        return Err(WrongPhase);
      }
      var total, i := |metadata|, 0;
      while i < |payloads|
        invariant 0 <= i <= |payloads|
        invariant total == |metadata| + Before(payloads, i) < U64
      {
        BeforeNext(payloads, i);
        if total + |payloads[i]| >= U64 {
          assert Before(payloads, i + 1) <= Length(payloads);
          return Err(LengthOverflow);
        }
        total := total + |payloads[i]|;
        i := i + 1;
      }
      r := Ok(WireMessage(metadata, payloads, ranges, total));
    }
  }

  /** An accepted call leaves the builder in its outcome; a refused one changes nothing. */
  ghost predicate Reports(r: Result<(), BuildError>, before: Builder, call: Call, after: Builder) {
    match Outcome(before, call)
    case Ok(next) => r.Ok? && after == next
    case Err(error) => r == Err(error) && after == before
  }

  /** Joins all segments behind `prefix` zero bytes. */
  method IntoContiguous(message: WireMessage, prefix: nat) returns (r: Result<seq<byte>, BuildError>)
    ensures r.Ok? <==> prefix + message.totalLen < U64
    ensures r.Ok? ==> r.value == Zeros(prefix) + Concat([message.metadata] + message.payloads)
  {
    if prefix + message.totalLen >= U64 {
      return Err(LengthOverflow);
    }
    var contiguous := Zeros(prefix) + message.metadata;
    ghost var segments := [message.metadata] + message.payloads;
    assert segments[..1] == [message.metadata];
    assert Concat([message.metadata]) == message.metadata + Concat([]);
    var i := 0;
    while i < |message.payloads|
      invariant 0 <= i <= |message.payloads|
      invariant contiguous == Zeros(prefix) + Concat(segments[..i + 1])
    {
      var payload := message.payloads[i];
      assert segments[..i + 2] == segments[..i + 1] + [payload];
      ConcatSnoc(segments[..i + 1], payload);
      Associative(Zeros(prefix), Concat(segments[..i + 1]), payload);
      contiguous := contiguous + payload;
      i := i + 1;
    }
    assert segments[..i + 1] == segments;
    r := Ok(contiguous);
  }

  // ----- signed members -----

  /** Every member but the last is long enough for a header, and the last is not empty. */
  ghost predicate Framed(members: seq<seq<byte>>) {
    && members != [] && members[|members| - 1] != []
    && forall i :: 0 <= i < |members| - 1 ==> |members[i]| >= HEADER_SIZE
  }

  ghost predicate HasRanges(ranges: seq<Range>, members: seq<seq<byte>>) {
    if |members| == 1 then ranges == [] else AreRanges(ranges, members)
  }

  /** The builder that starts from an encoding of `members`. */
  ghost predicate Fresh(b: Builder, members: seq<seq<byte>>) {
    && Framed(members) && HasRanges(b.ranges, members)
    && b.metadata == Concat(members) && b.payloads == [] && b.segmentLimit > 0
    && b.phase == Encoded && b.patched == 0
  }

  /** What `Encode` returns is a fresh start. */
  lemma {:induction false} EncodingIsFresh(requests: seq<Request>, e: Encoding, segmentLimit: nat)
    requires Encodable(requests, segmentLimit)
    requires e.metadata == Concat(Members(requests).value)
    requires HasRanges(e.ranges, Members(requests).value)
    ensures Fresh(Builder(e.metadata, [], e.ranges, segmentLimit, Encoded, 0), Members(requests).value)
  {
    var members := Members(requests).value;
    forall i | 0 <= i < |members|
      ensures |members[i]| >= if i + 1 == |members| then 56 else HEADER_SIZE
    {
      MemberAt(requests, i);
      MemberLong(Before(members, i), requests[i], i + 1 == |members|);
    }
  }

  ghost predicate Signable(members: seq<seq<byte>>, signatures: seq<nat>) {
    && |signatures| <= |members|
    && forall i :: 0 <= i < |signatures| ==> |members[i]| >= HEADER_SIZE
  }

  function Sign(member: seq<byte>, signature: nat): (s: seq<byte>)
    requires |member| >= HEADER_SIZE
    ensures |s| == |member|
  {
    Splice(member, SIGNATURE, LE(signature, SIGNATURE_SIZE))
  }

  /** `signed` is `members` with the first ones carrying `signatures`. */
  ghost predicate IsSigned(signed: seq<seq<byte>>, members: seq<seq<byte>>, signatures: seq<nat>) {
    && Signable(members, signatures)
    && |signed| == |members|
    && (forall i :: 0 <= i < |signatures| ==> signed[i] == Sign(members[i], signatures[i]))
    && (forall i :: |signatures| <= i < |members| ==> signed[i] == members[i])
  }

  function SignAll(members: seq<seq<byte>>, signatures: seq<nat>): (signed: seq<seq<byte>>)
    requires Signable(members, signatures)
    ensures IsSigned(signed, members, signatures)
  {
    seq(|members|, i requires 0 <= i < |members| =>
      if i < |signatures| then Sign(members[i], signatures[i]) else members[i])
  }

  lemma {:induction false} SignedStarts(
    signed: seq<seq<byte>>, members: seq<seq<byte>>, signatures: seq<nat>, i: nat)
    requires IsSigned(signed, members, signatures) && i <= |members|
    ensures Before(signed, i) == Before(members, i)
  {
    if i > 0 {
      SignedStarts(signed, members, signatures, i - 1);
      BeforeNext(signed, i - 1);
      BeforeNext(members, i - 1);
    }
  }

  /** Overwriting inside one piece is overwriting at that piece's place in the whole. */
  lemma {:induction false} SplicePiece(pieces: seq<seq<byte>>, i: nat, at: nat, data: seq<byte>)
    requires i < |pieces| && at + |data| <= |pieces[i]|
    ensures Before(pieces, i) + at + |data| <= |Concat(pieces)|
    ensures Concat(pieces[i := Splice(pieces[i], at, data)])
      == Splice(Concat(pieces), Before(pieces, i) + at, data)
  {
    BeforeNext(pieces, i);
    var rest := pieces[1..];
    var changed := pieces[i := Splice(pieces[i], at, data)];
    if i == 0 {
      assert changed[1..] == rest;
      SpliceHead(pieces[0], Concat(rest), at, data);
    } else {
      SplicePiece(rest, i - 1, at, data);
      assert changed[1..] == rest[i - 1 := Splice(pieces[i], at, data)];
      SpliceTail(pieces[0], Concat(rest), Before(rest, i - 1) + at, data);
    }
  }

  // ----- every sequence of calls -----

  /** A sequence of calls, the latest outermost. */
  datatype History = Start | Then(before: History, call: Call)

  function After(b: Builder, call: Call): (next: Builder) {
    match Outcome(b, call)
    case Ok(next) => next
    case Err(_) => b
  }

  /** The builder after all calls, refused ones included. */
  function Run(b: Builder, h: History): (last: Builder) {
    match h
    case Start => b
    case Then(before, call) => After(Run(b, before), call)
  }

  predicate Patches(b: Builder, call: Call) {
    call.PatchSignature? && Outcome(b, call).Ok?
  }

  /** The signatures that were accepted, in order. */
  function Signatures(b: Builder, h: History): (signatures: seq<nat>) {
    match h
    case Start => []
    case Then(before, call) =>
      if Patches(Run(b, before), call) then Signatures(b, before) + [call.signature] else Signatures(b, before)
  }

  /** The members that accepted signatures were for, in order. */
  function SignedMembers(b: Builder, h: History): (members: seq<nat>) {
    match h
    case Start => []
    case Then(before, call) =>
      if Patches(Run(b, before), call) then SignedMembers(b, before) + [call.member] else SignedMembers(b, before)
  }

  predicate Attaches(b: Builder, call: Call) {
    call.AttachPayload? && Outcome(b, call).Ok? && call.payload != []
  }

  /** The non-empty payloads that were accepted, in order. */
  function Payloads(b: Builder, h: History): (payloads: seq<seq<byte>>) {
    match h
    case Start => []
    case Then(before, call) =>
      if Attaches(Run(b, before), call) then Payloads(b, before) + [call.payload] else Payloads(b, before)
  }

  /** What holds of the builder once `signatures` have been patched in. */
  ghost predicate Invariant(b: Builder, members: seq<seq<byte>>, signatures: seq<nat>) {
    && Framed(members) && HasRanges(b.ranges, members)
    && Signable(members, signatures)
    && b.metadata == Concat(SignAll(members, signatures))
    && b.patched == |signatures|
    && 1 + |b.payloads| <= b.segmentLimit
    && (b.phase == Encoded ==> b.patched == 0)
    && (b.phase == Protected ==> b.patched == 0 || b.patched == |members|)
  }

  lemma {:induction false} SameRange(
    signed: seq<seq<byte>>, members: seq<seq<byte>>, signatures: seq<nat>, i: nat)
    requires IsSigned(signed, members, signatures) && i < |members|
    ensures RangeOf(signed, i) == RangeOf(members, i)
    ensures |members| == 1 ==> RangeOf(signed, 0) == Range(0, |Concat(signed)|)
  {
    SignedStarts(signed, members, signatures, i);
    SignedStarts(signed, members, signatures, i + 1);
  }

  lemma {:induction false} RangeFound(
    b: Builder, members: seq<seq<byte>>, signatures: seq<nat>, i: nat)
    requires Invariant(b, members, signatures)
    ensures MemberCount(b.ranges) == |members|
    ensures var signed := SignAll(members, signatures);
      MemberRange(b, i) == if i < |members| then Some(RangeOf(signed, i)) else None
  {
    if i < |members| {
      SameRange(SignAll(members, signatures), members, signatures, i);
    }
  }

  lemma {:induction false} SignOneMore(members: seq<seq<byte>>, signatures: seq<nat>, signature: nat)
    requires Signable(members, signatures + [signature])
    ensures Signable(members, signatures)
    ensures var signed, i := SignAll(members, signatures), |signatures|;
      && |signed[i]| >= HEADER_SIZE
      && Before(signed, i) + HEADER_SIZE <= |Concat(signed)|
      && Concat(SignAll(members, signatures + [signature]))
        == Splice(Concat(signed), Before(signed, i) + SIGNATURE, LE(signature, SIGNATURE_SIZE))
  {
    var i, data := |signatures|, LE(signature, SIGNATURE_SIZE);
    assert (signatures + [signature])[..i] == signatures;
    var signed := SignAll(members, signatures);
    var next := SignAll(members, signatures + [signature]);
    assert next == signed[i := Splice(signed[i], SIGNATURE, data)];
    BeforeNext(signed, i);
    SplicePiece(signed, i, SIGNATURE, data);
  }

  lemma {:induction false} PatchFinds(
    b: Builder, members: seq<seq<byte>>, signatures: seq<nat>, call: Call)
    requires Invariant(b, members, signatures) && Patches(b, call)
    ensures call.member == |signatures| < |members|
    ensures |members[|signatures|]| >= HEADER_SIZE
    ensures MemberRange(b, call.member).value.start == Before(SignAll(members, signatures), call.member)
  {
    var i := call.member;
    RangeFound(b, members, signatures, i);
    BeforeNext(SignAll(members, signatures), i);
  }

  lemma {:induction false} PatchSplices(b: Builder, call: Call)
    requires Patches(b, call)
    ensures MemberRange(b, call.member).Some?
    ensures var at := MemberRange(b, call.member).value.start + SIGNATURE;
      && at + SIGNATURE_SIZE <= |b.metadata|
      && After(b, call)
        == b.(metadata := Splice(b.metadata, at, LE(call.signature, SIGNATURE_SIZE)), patched := b.patched + 1)
  {
  }

  lemma {:induction false} SignableNext(members: seq<seq<byte>>, signatures: seq<nat>, signature: nat)
    requires Signable(members, signatures) && |signatures| < |members|
    requires |members[|signatures|]| >= HEADER_SIZE
    ensures Signable(members, signatures + [signature])
  {
  }

  /** A patch writes into the signature field of the next unsigned member. */
  lemma {:induction false} PatchSigns(
    b: Builder, members: seq<seq<byte>>, signatures: seq<nat>, call: Call)
    requires Invariant(b, members, signatures) && Patches(b, call)
    ensures Invariant(After(b, call), members, signatures + [call.signature])
  {
    PatchFinds(b, members, signatures, call);
    PatchSplices(b, call);
    SignableNext(members, signatures, call.signature);
    SignOneMore(members, signatures, call.signature);
  }

  lemma {:induction false} OthersKeep(
    b: Builder, members: seq<seq<byte>>, signatures: seq<nat>, call: Call)
    requires Invariant(b, members, signatures) && !Patches(b, call)
    ensures Invariant(After(b, call), members, signatures)
  {
    RangeFound(b, members, signatures, 0);
  }

  /** Over every sequence of calls the members are signed one by one. */
  lemma {:induction false} RunKeeps(b: Builder, members: seq<seq<byte>>, h: History)
    requires Fresh(b, members)
    ensures Invariant(Run(b, h), members, Signatures(b, h))
  {
    if h == Start {
      assert SignAll(members, []) == members;
    } else {
      var now, signatures := Run(b, h.before), Signatures(b, h.before);
      RunKeeps(b, members, h.before);
      if Patches(now, h.call) {
        PatchSigns(now, members, signatures, h.call);
      } else {
        OthersKeep(now, members, signatures, h.call);
      }
    }
  }

  /** The accepted signatures are for members 0, 1, 2 and so on, each once. */
  lemma {:induction false} SignedInOrder(b: Builder, h: History)
    requires b.patched == 0
    ensures |SignedMembers(b, h)| == |Signatures(b, h)| == Run(b, h).patched
    ensures forall i :: 0 <= i < |SignedMembers(b, h)| ==> SignedMembers(b, h)[i] == i
  {
    if h != Start {
      SignedInOrder(b, h.before);
    }
  }

  lemma {:induction false} PayloadsInOrder(b: Builder, h: History)
    ensures Run(b, h).payloads == b.payloads + Payloads(b, h)
    ensures Run(b, h).segmentLimit == b.segmentLimit
    ensures b.phase != Encoded ==> Run(b, h).phase != Encoded && Payloads(b, h) == []
  {
    if h != Start {
      PayloadsInOrder(b, h.before);
    }
  }

  /**
   * Whatever calls were made, a sealed message is signed in all of its members, each once and
   * in wire order, or in none of them. It carries the accepted payloads in order and stays
   * within the segment limit, and its recorded length is the length of its segments.
   */
  lemma {:induction false} SealedMessage(b: Builder, members: seq<seq<byte>>, h: History)
    requires Fresh(b, members) && Sealed(Run(b, h)).Ok?
    ensures var message, signatures := Sealed(Run(b, h)).value, Signatures(b, h);
      && (signatures == [] || |signatures| == |members|)
      && (forall i :: 0 <= i < |SignedMembers(b, h)| ==> SignedMembers(b, h)[i] == i)
      && Signable(members, signatures)
      && message.metadata == Concat(SignAll(members, signatures))
      && message.payloads == Payloads(b, h)
      && 1 + |message.payloads| <= b.segmentLimit
      && message.totalLen == |Concat([message.metadata] + message.payloads)|
  {
    RunKeeps(b, members, h);
    SignedInOrder(b, h);
    PayloadsInOrder(b, h);
    var message := Sealed(Run(b, h)).value;
    assert ([message.metadata] + message.payloads)[1..] == message.payloads;
    assert [] + Payloads(b, h) == Payloads(b, h);
  }

  /** Signing changes bytes 48 to 63 of signed members and no others. */
  lemma {:induction false} OnlySignatures(members: seq<seq<byte>>, signatures: seq<nat>, i: nat, k: nat)
    requires Signable(members, signatures)
    requires i < |members| && k < |members[i]|
    ensures var signed := SignAll(members, signatures);
      var at := Before(members, i) + k;
      && at < |Concat(members)| == |Concat(signed)|
      && Concat(members)[at] == members[i][k]
      && Concat(signed)[at] ==
        if i < |signatures| && SIGNATURE <= k < HEADER_SIZE then LE(signatures[i], SIGNATURE_SIZE)[k - SIGNATURE]
        else members[i][k]
  {
    var signed := SignAll(members, signatures);
    SignedStarts(signed, members, signatures, i);
    SignedStarts(signed, members, signatures, |members|);
    ByteAt(members, i, k);
    ByteAt(signed, i, k);
  }

  lemma {:induction false} ByteAt(pieces: seq<seq<byte>>, i: nat, k: nat)
    requires i < |pieces| && k < |pieces[i]|
    ensures Before(pieces, i) + k < |Concat(pieces)|
    ensures Concat(pieces)[Before(pieces, i) + k] == pieces[i][k]
  {
    PieceAt(pieces, i, 0);
    var start := Before(pieces, i);
    assert Concat(pieces)[start..start + |pieces[i]|][k] == pieces[i][..][k];
  }

  // ----- signing input -----

  lemma {:induction false} ZeroSigned(member: seq<byte>, signature: nat)
    requires |member| >= HEADER_SIZE
    ensures ZeroSignature(Sign(member, signature)) == ZeroSignature(member)
  {
  }

  /** The signing input of a member depends on no signature. */
  lemma {:induction false} SigningInput(
    b: Builder, members: seq<seq<byte>>, signatures: seq<nat>, i: nat)
    requires Invariant(b, members, signatures) && b.phase == OffsetsFinalized
    ensures SigningSegments(b, i) ==
      if i >= |members| then Err(NoSuchMember)
      else if |members[i]| < HEADER_SIZE then Err(ShorterThanHeader)
      else Ok([ZeroSignature(members[i])] + if |members| == 1 then b.payloads else [])
  {
    RangeFound(b, members, signatures, i);
    if i < |members| {
      var signed := SignAll(members, signatures);
      PieceAt(signed, i, 0);
      BeforeNext(signed, i);
      assert signed[i][0..] == signed[i];
      if i < |signatures| {
        ZeroSigned(members[i], signatures[i]);
      }
    }
  }

  /** Signing input stays the same across every later sequence of accepted or refused calls. */
  lemma {:induction false} SigningStable(
    b: Builder, members: seq<seq<byte>>, earlier: History, later: History, i: nat)
    requires Fresh(b, members)
    requires Run(b, earlier).phase == OffsetsFinalized
    requires Run(Run(b, earlier), later).phase == OffsetsFinalized
    ensures SigningSegments(Run(Run(b, earlier), later), i) == SigningSegments(Run(b, earlier), i)
  {
    var now := Run(b, earlier);
    RunKeeps(b, members, earlier);
    SigningInput(now, members, Signatures(b, earlier), i);
    var signatures := ContinueKeeps(now, members, Signatures(b, earlier), later);
    SigningInput(Run(now, later), members, signatures, i);
    PayloadsInOrder(now, later);
    assert now.payloads + [] == now.payloads;
  }

  lemma {:induction false} ContinueKeeps(
    b: Builder, members: seq<seq<byte>>, signatures: seq<nat>, h: History)
    returns (all: seq<nat>)
    requires Invariant(b, members, signatures)
    ensures Invariant(Run(b, h), members, all)
  {
    all := signatures;
    if h != Start {
      all := ContinueKeeps(b, members, signatures, h.before);
      if Patches(Run(b, h.before), h.call) {
        PatchSigns(Run(b, h.before), members, all, h.call);
        all := all + [h.call.signature];
      } else {
        OthersKeep(Run(b, h.before), members, all, h.call);
      }
    }
  }

  function InputOf(b: Builder, member: nat): (input: seq<byte>) {
    var segments := SigningSegments(b, member);
    if segments.Ok? then Concat(segments.value) else []
  }

  function Joined(input: nat -> seq<byte>, count: nat): (joined: seq<byte>) {
    if count == 0 then [] else Joined(input, count - 1) + input(count - 1)
  }

  /** The signing inputs of the first `count` members, joined; a refused one adds nothing. */
  function Inputs(b: Builder, count: nat): (joined: seq<byte>) {
    Joined((i: nat) => InputOf(b, i), count)
  }

  function ZeroAll(members: seq<seq<byte>>): (zeroed: seq<seq<byte>>)
    requires forall i :: 0 <= i < |members| ==> |members[i]| >= HEADER_SIZE
    ensures |zeroed| == |members|
    ensures forall i :: 0 <= i < |members| ==> zeroed[i] == ZeroSignature(members[i])
  {
    seq(|members|, i requires 0 <= i < |members| => ZeroSignature(members[i]))
  }

  lemma {:induction false} ZeroStarts(members: seq<seq<byte>>, i: nat)
    requires forall i :: 0 <= i < |members| ==> |members[i]| >= HEADER_SIZE
    requires i <= |members|
    ensures Before(ZeroAll(members), i) == Before(members, i)
  {
    if i > 0 {
      ZeroStarts(members, i - 1);
      BeforeNext(members, i - 1);
      BeforeNext(ZeroAll(members), i - 1);
    }
  }

  lemma {:induction false} JoinedPieces(input: nat -> seq<byte>, pieces: seq<seq<byte>>, count: nat)
    requires count <= |pieces|
    requires forall i :: 0 <= i < |pieces| ==> input(i) == pieces[i]
    ensures Joined(input, count) == Concat(pieces[..count])
  {
    if count > 0 {
      JoinedPieces(input, pieces, count - 1);
      assert pieces[..count] == pieces[..count - 1] + [pieces[count - 1]];
      ConcatSnoc(pieces[..count - 1], pieces[count - 1]);
    }
  }

  lemma {:induction false} InputsWhole(b: Builder, members: seq<seq<byte>>, signatures: seq<nat>)
    requires Invariant(b, members, signatures) && b.phase == OffsetsFinalized
    requires forall i :: 0 <= i < |members| ==> |members[i]| >= HEADER_SIZE
    requires |members| == 1 || b.payloads == []
    ensures Inputs(b, |members|) == Concat(ZeroAll(members)) + Concat(b.payloads)
  {
    var zeroed := ZeroAll(members);
    var input := (i: nat) => InputOf(b, i);
    if |members| == 1 {
      SigningInput(b, members, signatures, 0);
      assert zeroed == [zeroed[0]];
      ConcatSplit(zeroed, b.payloads);
      assert Joined(input, 0) == [];
    } else {
      forall i | 0 <= i < |zeroed|
        ensures InputOf(b, i) == zeroed[i]
      {
        SigningInput(b, members, signatures, i);
        assert Concat([zeroed[i]] + []) == zeroed[i] + Concat([]);
      }
      JoinedPieces(input, zeroed, |members|);
      assert zeroed[..|members|] == zeroed;
    }
  }

  lemma {:induction false} ZeroedByte(
    members: seq<seq<byte>>, signatures: seq<nat>, i: nat, k: nat)
    requires Signable(members, signatures)
    requires forall i :: 0 <= i < |members| ==> |members[i]| >= HEADER_SIZE
    requires i < |members| && k < |members[i]|
    ensures var signed, zeroed := Concat(SignAll(members, signatures)), Concat(ZeroAll(members));
      var at := Before(members, i) + k;
      && at < |signed| == |zeroed|
      && zeroed[at] == if SIGNATURE <= k < HEADER_SIZE then 0 else signed[at]
  {
    OnlySignatures(members, signatures, i, k);
    ZeroStarts(members, i);
    ZeroStarts(members, |members|);
    ByteAt(ZeroAll(members), i, k);
  }

  lemma {:induction false} JoinedLength(input: nat -> seq<byte>, members: seq<seq<byte>>, count: nat)
    requires count <= |members|
    requires forall i :: 0 <= i < count ==> |input(i)| == |members[i]|
    ensures |Joined(input, count)| == Before(members, count)
  {
    if count > 0 {
      JoinedLength(input, members, count - 1);
      BeforeNext(members, count - 1);
    }
  }

  /** A last member without a full header has no signing input, and its bytes are missing. */
  lemma {:induction false} InputsShort(b: Builder, members: seq<seq<byte>>, signatures: seq<nat>)
    requires Invariant(b, members, signatures) && b.phase == OffsetsFinalized
    requires |members[|members| - 1]| < HEADER_SIZE
    ensures |Inputs(b, |members|)| < |b.metadata|
  {
    var n := |members| - 1;
    var input := (i: nat) => InputOf(b, i);
    forall i | 0 <= i <= n
      ensures |InputOf(b, i)| == if i < n then |members[i]| else 0
    {
      SigningInput(b, members, signatures, i);
      if i < n {
        assert Concat([ZeroSignature(members[i])] + []) == ZeroSignature(members[i]) + Concat([]);
      }
    }
    JoinedLength(input, members, n);
    BeforeNext(members, n);
    SignedStarts(SignAll(members, signatures), members, signatures, |members|);
  }

  /**
   * With one member, or without payloads, the signing inputs of all members join to the whole
   * message with the signature field of every member zeroed: first the metadata, whose byte at
   * offset `k` of member `i` is kept or zeroed, then the payloads. This holds exactly when the
   * last member has a full header; otherwise metadata bytes are missing.
   */
  lemma {:induction false} SigningCovers(
    b: Builder, members: seq<seq<byte>>, h: History, i: nat, k: nat)
    requires Fresh(b, members) && Run(b, h).phase == OffsetsFinalized
    requires |members| == 1 || Run(b, h).payloads == []
    requires i < |members| && k < |members[i]|
    ensures var now := Run(b, h);
      var joined, at := Inputs(now, |members|), Before(members, i) + k;
      if |members[|members| - 1]| < HEADER_SIZE then |joined| < |now.metadata|
      else
        && at < |now.metadata| <= |joined|
        && joined[at] == (if SIGNATURE <= k < HEADER_SIZE then 0 else now.metadata[at])
        && joined[|now.metadata|..] == Concat(now.payloads)
  {
    var now, signatures := Run(b, h), Signatures(b, h);
    RunKeeps(b, members, h);
    if |members[|members| - 1]| < HEADER_SIZE {
      InputsShort(now, members, signatures);
    } else {
      InputsWhole(now, members, signatures);
      ZeroedByte(members, signatures, i, k);
    }
  }
}
