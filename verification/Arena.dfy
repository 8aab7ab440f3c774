/**
 * Encoding requests into one shared metadata arena: a cursor that sees only its own member,
 * eight-byte padding between members, and the NextCommand chain through their headers
 * (section 2.2.1.2 of MS-SMB2).
 */
module Arena {
  import opened Bytes
  import opened Segments

  const HEADER_SIZE: nat := 64
  const MEMBER_ALIGNMENT: nat := 8

  datatype EncodeError = NoRequests | NoMetadataSegment | MemberNotEncodable

  // ----- cursor -----

  datatype CursorOp =
    | Write(data: seq<byte>)
    | SeekStart(offset: nat)
    | SeekCurrent(delta: int)
    | SeekEnd(delta: int)

  /** A stream of its own: the bytes of one member and a position in them. */
  datatype Stream = Stream(bytes: seq<byte>, position: nat)

  function Target(s: Stream, op: CursorOp): (t: int)
    requires !op.Write?
  {
    match op
    case SeekStart(offset) => offset
    case SeekCurrent(delta) => s.position + delta
    case SeekEnd(delta) => |s.bytes| + delta
  }

  /**
   * One write or seek on a stream whose first byte lies at address `base`. The address only
   * decides when a 64-bit position overflows.
   */
  function Apply(base: nat, s: Stream, op: CursorOp): (r: Option<Stream>)
  {
    if op.Write? then
      if base + s.position + |op.data| < U64
      then Some(Stream(Overwrite(s.bytes, s.position, op.data), s.position + |op.data|))
      else None
    else
      if 0 <= Target(s, op) < U64 then Some(s.(position := Target(s, op))) else None
  }

  /** The operations from index `from` on, in order, up to the first that fails. */
  function Run(base: nat, s: Stream, ops: seq<CursorOp>, from: nat): (r: Option<Stream>)
    requires from <= |ops|
    decreases |ops| - from
  {
    if from == |ops| then Some(s)
    else match Apply(base, s, ops[from])
      case None => None
      case Some(next) => Run(base, next, ops, from + 1)
  }

  /** Where the member lies in memory never changes what is written to it. */
  lemma {:induction false} RunIgnoresBase(base: nat, s: Stream, ops: seq<CursorOp>, from: nat)
    requires from <= |ops|
    ensures Run(base, s, ops, from).Some? ==> Run(0, s, ops, from) == Run(base, s, ops, from)
    decreases |ops| - from
  {
    if from < |ops| && Apply(base, s, ops[from]).Some? {
      RunIgnoresBase(base, Apply(base, s, ops[from]).value, ops, from + 1);
    }
  }

  class Metadata {
    var bytes: seq<byte>

    constructor ()
      ensures bytes == []
    {
      bytes := [];
    }
  }

  lemma {:induction false} OverwriteBehind(head: seq<byte>, s: seq<byte>, position: nat, data: seq<byte>)
    ensures Overwrite(head + s, |head| + position, data) == head + Overwrite(s, position, data)
  {
    var end := position + |data|;
    assert Grown(head + s, |head| + end) == head + Grown(s, end);
    SpliceTail(head, Grown(s, end), position, data);
  }

  /** A cursor over the arena from `base` on; refines a stream of its own. */
  class MetadataCursor {
    const arena: Metadata
    const base: nat
    var position: nat

    ghost predicate Valid()
      reads arena
    {
      base <= |arena.bytes|
    }

    ghost function View(): (s: Stream)
      requires Valid()
      reads this, arena
    {
      Stream(arena.bytes[base..], position)
    }

    constructor AtEnd(arena: Metadata)
      ensures this.arena == arena && base == |arena.bytes|
      ensures Valid() && View() == Stream([], 0)
    {
      this.arena := arena;
      base := |arena.bytes|;
      position := 0;
    }

    method Write(data: seq<byte>) returns (ok: bool)
      requires Valid()
      modifies this`position, arena
      ensures Valid()
      ensures arena.bytes[..base] == old(arena.bytes[..base])
      ensures Apply(base, old(View()), CursorOp.Write(data)) == if ok then Some(View()) else None
      ensures !ok ==> View() == old(View())
    {
      var start := base + position;
      var end := start + |data|;
      ok := end < U64;
      if ok {
        ghost var head, member := arena.bytes[..base], arena.bytes[base..];
        assert arena.bytes == head + member;
        if end > |arena.bytes| {
          arena.bytes := arena.bytes + Zeros(end - |arena.bytes|);
        }
        arena.bytes := arena.bytes[..start] + data + arena.bytes[end..];
        position := position + |data|;
        assert arena.bytes == Overwrite(head + member, start, data);
        OverwriteBehind(head, member, start - base, data);
      }
    }

    method Seek(op: CursorOp) returns (ok: bool)
      requires Valid() && !op.Write?
      modifies this`position
      ensures Apply(base, old(View()), op) == if ok then Some(View()) else None
      ensures !ok ==> View() == old(View())
    {
      var memberLength := |arena.bytes| - base;
      var next: int;
      match op {
        case SeekStart(offset) => next := offset;
        case SeekCurrent(delta) => next := position + delta;
        case SeekEnd(delta) => next := memberLength + delta;
      }
      ok := 0 <= next < U64;
      if ok {
        position := next;
      }
    }

    method Do(op: CursorOp) returns (ok: bool)
      requires Valid()
      modifies this`position, arena
      ensures Valid()
      ensures arena.bytes[..base] == old(arena.bytes[..base])
      ensures Apply(base, old(View()), op) == if ok then Some(View()) else None
    {
      if op.Write? {
        ok := Write(op.data);
      } else {
        ok := Seek(op);
      }
    }

    /** The operations from `from` on, stopping at the first that fails. */
    method Perform(ops: seq<CursorOp>, from: nat) returns (ok: bool)
      requires Valid() && from <= |ops|
      modifies this`position, arena
      ensures Valid()
      ensures arena.bytes[..base] == old(arena.bytes[..base])
      ensures Run(base, old(View()), ops, from) == if ok then Some(View()) else None
      decreases |ops| - from
    {
      ok := true;
      if from < |ops| {
        ok := Do(ops[from]);
        if ok {
          ok := Perform(ops, from + 1);
        }
      }
    }
  }

  // ----- headers and requests -----

  datatype Header = Header(
    creditCharge: nat, status: nat, command: nat, creditRequest: nat, flags: nat, nextCommand: nat,
    messageId: nat, treeId: Option<nat>, asyncId: Option<nat>, sessionId: nat, signature: nat)

  predicate FromServer(h: Header) {
    h.flags % 2 == 1
  }

  predicate IsAsync(h: Header) {
    h.flags / 2 % 2 == 1
  }

  function BeforeNextCommand(h: Header): (s: seq<byte>)
    ensures |s| == 20
  {
    [0xfe, 0x53, 0x4d, 0x42] + LE(HEADER_SIZE, 2) + LE(h.creditCharge, 2) + LE(h.status, 4)
    + LE(h.command, 2) + LE(h.creditRequest, 2) + LE(h.flags, 4)
  }

  /** Reserved and tree id, or the async id; an absent async id leaves no bytes at all. */
  function Ids(h: Header): (s: seq<byte>)
    ensures |s| == if IsAsync(h) && h.asyncId.None? then 0 else 8
  {
    if !IsAsync(h) then LE(0, 4) + (if h.treeId.Some? then LE(h.treeId.value, 4) else LE(0, 4))
    else if h.asyncId.Some? then LE(h.asyncId.value, 8)
    else []
  }

  function HeaderBytes(h: Header): (s: seq<byte>)
    ensures 56 <= |s| <= HEADER_SIZE
    ensures |s| == HEADER_SIZE <==> !(IsAsync(h) && h.asyncId.None?)
  {
    BeforeNextCommand(h) + LE(h.nextCommand, 4)
    + (LE(h.messageId, 8) + Ids(h) + LE(h.sessionId, 8) + LE(h.signature, 16))
  }

  predicate Writable(h: Header) {
    && !FromServer(h)
    && (h.treeId.Some? <==> !IsAsync(h))
  }

  /** A header, and the writes and seeks that its content makes behind it. */
  datatype Request = Request(header: Header, body: seq<CursorOp>)

  function Linked(r: Request, next: nat): (q: Request) {
    r.(header := r.header.(nextCommand := next))
  }

  /** What a request writes when it is the only thing in its stream. */
  function Standalone(base: nat, r: Request): (s: Option<seq<byte>>)
  {
    if !Writable(r.header) then None
    else match Apply(base, Stream([], 0), Write(HeaderBytes(r.header)))
      case None => None
      case Some(begun) =>
        var ended := Run(base, begun, r.body, 0);
        if ended.None? then None else Some(ended.value.bytes)
  }

  // ----- members -----

  function PaddedSize(base: nat, alone: seq<byte>): (n: nat)
    ensures n >= |alone|
  {
    |alone| + Padding(base + |alone|, MEMBER_ALIGNMENT)
  }

  /** The bytes of a member at `base`: padded and linked to its successor unless it is the last. */
  function Member(base: nat, r: Request, last: bool): (m: Option<seq<byte>>)
  {
    var alone := Standalone(base, Linked(r, 0));
    if alone.None? || last then alone
    else
      var size := PaddedSize(base, alone.value);
      if base + |alone.value| + 7 >= U64 || size >= U32 || size < HEADER_SIZE then None
      else Some(Splice(Padded(alone.value, size), 0, HeaderBytes(Linked(r, size).header)))
  }

  function Padded(s: seq<byte>, size: nat): (p: seq<byte>)
    requires |s| <= size
    ensures |p| == size
  {
    s + Zeros(size - |s|)
  }

  /** What the member at an index would be, were it to start at a given position. */
  type MemberFn = (nat, nat) -> Option<seq<byte>>

  function MemberIn(requests: seq<Request>, base: nat, i: nat): (m: Option<seq<byte>>) {
    if i < |requests| then Member(base, requests[i], i + 1 == |requests|) else None
  }

  function MemberOf(requests: seq<Request>): (member: MemberFn) {
    (base: nat, i: nat) => MemberIn(requests, base, i)
  }

  /** The members from index `from` on, each where the one before it ends, the first at `base`. */
  function Layout(member: MemberFn, count: nat, from: nat, base: nat): (ms: Option<seq<seq<byte>>>)
    requires from <= count
    ensures ms.Some? ==> |ms.value| == count - from
    decreases count - from
  {
    if from == count then Some([])
    else match member(base, from)
      case None => None
      case Some(m) => Prepend(m, Layout(member, count, from + 1, base + |m|))
  }

  function Members(requests: seq<Request>): (ms: Option<seq<seq<byte>>>)
    ensures ms.Some? ==> |ms.value| == |requests|
  {
    Layout(MemberOf(requests), |requests|, 0, 0)
  }

  function Prepend(m: seq<byte>, rest: Option<seq<seq<byte>>>): (ms: Option<seq<seq<byte>>>) {
    match rest
    case None => None
    case Some(tail) => Some([m] + tail)
  }

  function After(done: seq<seq<byte>>, rest: Option<seq<seq<byte>>>): (ms: Option<seq<seq<byte>>>) {
    match rest
    case None => None
    case Some(tail) => Some(done + tail)
  }

  lemma {:induction false} AfterNothing(ms: Option<seq<seq<byte>>>)
    ensures After([], ms) == ms
    ensures ms.Some? ==> After(ms.value, Some([])) == ms
  {
    if ms.Some? {
      assert [] + ms.value == ms.value == ms.value + [];
    }
  }

  lemma {:induction false} AfterOneMore(done: seq<seq<byte>>, m: seq<byte>, rest: Option<seq<seq<byte>>>)
    ensures After(done, Prepend(m, rest)) == After(done + [m], rest)
  {
    if rest.Some? {
      assert done + ([m] + rest.value) == (done + [m]) + rest.value;
    }
  }

  /** Overwrites the first bytes of a member with a header, as long as 64 bytes are there. */
  method PatchHeader(metadata: Metadata, start: nat, h: Header) returns (ok: bool)
    modifies metadata
    ensures ok <==> start + HEADER_SIZE <= |old(metadata.bytes)|
    ensures ok ==> metadata.bytes == Splice(old(metadata.bytes), start, HeaderBytes(h))
    ensures !ok ==> metadata.bytes == old(metadata.bytes)
  {
    ok := start + HEADER_SIZE <= |metadata.bytes|;
    if ok {
      var data := HeaderBytes(h);
      metadata.bytes := metadata.bytes[..start] + data + metadata.bytes[start + |data|..];
    }
  }

  lemma {:induction false} HeadThenRest(bytes: seq<byte>, head: seq<byte>)
    requires |head| <= |bytes| && bytes[..|head|] == head
    ensures bytes == head + bytes[|head|..]
  {
  }

  /** Writes one request behind what the arena already holds. */
  method WriteRequest(metadata: Metadata, request: Request) returns (ok: bool)
    modifies metadata
    ensures ok <==> Standalone(|old(metadata.bytes)|, request).Some?
    ensures ok ==>
      metadata.bytes == old(metadata.bytes) + Standalone(|old(metadata.bytes)|, request).value
  {
    if !Writable(request.header) {
      return false;
    }
    var cursor := new MetadataCursor.AtEnd(metadata);
    assert metadata.bytes[..cursor.base] == old(metadata.bytes);
    ok := cursor.Write(HeaderBytes(request.header));
    if ok {
      ok := cursor.Perform(request.body, 0);
    }
    HeadThenRest(metadata.bytes, old(metadata.bytes));
  }

  /** Writes one member behind what the arena already holds. */
  method EncodeMember(metadata: Metadata, request: Request, last: bool)
    returns (ok: bool, updated: Request)
    modifies metadata
    ensures var m := Member(|old(metadata.bytes)|, request, last);
      && (ok <==> m.Some?)
      && (ok ==> metadata.bytes == old(metadata.bytes) + m.value)
      && (ok ==> updated == Linked(request, if last then 0 else |m.value|))
  {
    var start := |metadata.bytes|;
    updated := Linked(request, 0);
    ok := WriteRequest(metadata, updated);
    if !ok || last {
      return;
    }
    ghost var head, alone := old(metadata.bytes), Standalone(start, updated).value;
    if |metadata.bytes| + 7 >= U64 {
      return false, updated;
    }
    var alignedEnd := |metadata.bytes| + Padding(|metadata.bytes|, MEMBER_ALIGNMENT);
    metadata.bytes := metadata.bytes + Zeros(alignedEnd - |metadata.bytes|);
    var size := alignedEnd - start;
    if size >= U32 {
      return false, updated;
    }
    updated := Linked(request, size);
    assert metadata.bytes == head + Padded(alone, size) by {
      Associative(head, alone, Zeros(size - |alone|));
    }
    ok := PatchHeader(metadata, start, updated.header);
    if ok {
      SpliceTail(head, Padded(alone, size), 0, HeaderBytes(updated.header));
    }
  }

  // ----- the whole arena -----

  datatype Range = Range(start: nat, end: nat)

  /** The metadata of all members, and the range of each; a lone member records no range. */
  datatype Encoding = Encoding(metadata: seq<byte>, ranges: seq<Range>)

  function RangeOf(members: seq<seq<byte>>, index: nat): (r: Range)
    requires index < |members|
  {
    Range(Before(members, index), Before(members, index + 1))
  }

  lemma {:induction false} BeforeExtends(members: seq<seq<byte>>, m: seq<byte>, index: nat)
    requires index <= |members|
    ensures Before(members + [m], index) == Before(members, index)
  {
    if index > 0 {
      BeforeExtends(members[1..], m, index - 1);
      assert (members + [m])[1..] == members[1..] + [m];
    }
  }

  /** The recorded ranges are where the members lie. */
  ghost predicate AreRanges(ranges: seq<Range>, members: seq<seq<byte>>) {
    && |ranges| == |members|
    && forall i :: 0 <= i < |ranges| ==> ranges[i] == RangeOf(members, i)
  }

  lemma {:induction false} RangesExtend(ranges: seq<Range>, members: seq<seq<byte>>, m: seq<byte>)
    requires AreRanges(ranges, members)
    ensures AreRanges(ranges + [Range(|Concat(members)|, |Concat(members + [m])|)], members + [m])
  {
    forall i | 0 <= i <= |members|
      ensures Before(members + [m], i) == Before(members, i)
    {
      BeforeExtends(members, m, i);
    }
  }

  /** Each request ends up with the length of its member as NextCommand, the last with zero. */
  ghost predicate AreLinked(updated: seq<Request>, requests: seq<Request>, members: seq<seq<byte>>) {
    && |updated| == |members| <= |requests|
    && forall i :: 0 <= i < |updated| ==>
      updated[i] == Linked(requests[i], if i + 1 == |requests| then 0 else |members[i]|)
  }

  lemma {:induction false} LinksExtend(
    updated: seq<Request>, requests: seq<Request>, members: seq<seq<byte>>, m: seq<byte>, next: nat)
    requires AreLinked(updated, requests, members) && |members| < |requests|
    requires next == if |members| + 1 == |requests| then 0 else |m|
    ensures AreLinked(updated + [Linked(requests[|members|], next)], requests, members + [m])
  {
  }

  lemma {:induction false} LayoutStep(
    all: Option<seq<seq<byte>>>, member: MemberFn, count: nat, index: nat,
    done: seq<seq<byte>>, base: nat, m: Option<seq<byte>>)
    requires index < count && m == member(base, index)
    requires all == After(done, Layout(member, count, index, base))
    ensures m.None? ==> all.None?
    ensures m.Some? ==>
      all == After(done + [m.value], Layout(member, count, index + 1, base + |m.value|))
  {
    if m.Some? {
      AfterOneMore(done, m.value, Layout(member, count, index + 1, base + |m.value|));
    }
  }

  predicate Encodable(requests: seq<Request>, segmentLimit: nat) {
    && requests != []
    && segmentLimit > 0
    && Members(requests).Some?
  }

  /**
   * Encodes all requests into one arena and leaves each request with its final NextCommand.
   * It fails exactly when there is no request, no room for a metadata segment, or a member
   * that cannot be laid out.
   */
  method Encode(requests: seq<Request>, segmentLimit: nat)
    returns (r: Result<Encoding, EncodeError>, updated: seq<Request>)
    ensures r.Ok? <==> Encodable(requests, segmentLimit)
    ensures requests == [] ==> r == Err(NoRequests)
    ensures requests != [] && segmentLimit == 0 ==> r == Err(NoMetadataSegment)
    ensures requests != [] && segmentLimit > 0 && r.Err? ==> r == Err(MemberNotEncodable)
    ensures r.Ok? ==>
      var members := Members(requests).value;
      && r.value.metadata == Concat(members)
      && (if |members| == 1 then r.value.ranges == [] else AreRanges(r.value.ranges, members))
      && AreLinked(updated, requests, members)
  {
    updated := [];
    if requests == [] {
      return Err(NoRequests), updated;
    }
    if segmentLimit == 0 {
      return Err(NoMetadataSegment), updated;
    }
    r, updated := EncodeAll(requests, MemberOf(requests));
  }

  /** `member` is what `MemberIn` computes. */
  ghost predicate Describes(member: MemberFn, requests: seq<Request>) {
    forall base: nat, i: nat {:trigger MemberIn(requests, base, i)} ::
      member(base, i) == MemberIn(requests, base, i)
  }

  method EncodeAt(metadata: Metadata, requests: seq<Request>, index: nat, ghost member: MemberFn)
    returns (ok: bool, updated: Request)
    requires index < |requests| && Describes(member, requests)
    modifies metadata
    ensures var m := member(|old(metadata.bytes)|, index);
      && (ok <==> m.Some?)
      && (ok ==> metadata.bytes == old(metadata.bytes) + m.value)
      && (ok ==> updated == Linked(requests[index], if index + 1 == |requests| then 0 else |m.value|))
  {
    assert member(|metadata.bytes|, index) == MemberIn(requests, |metadata.bytes|, index);
    ok, updated := EncodeMember(metadata, requests[index], index + 1 == |requests|);
  }

  method EncodeAll(requests: seq<Request>, ghost member: MemberFn)
    returns (r: Result<Encoding, EncodeError>, updated: seq<Request>)
    requires Describes(member, requests)
    ensures var all := Layout(member, |requests|, 0, 0);
      && (r.Ok? <==> all.Some?)
      && (r.Err? ==> r == Err(MemberNotEncodable))
      && (r.Ok? ==>
        && r.value.metadata == Concat(all.value)
        && (if |requests| == 1 then r.value.ranges == [] else AreRanges(r.value.ranges, all.value))
        && AreLinked(updated, requests, all.value))
  {
    updated := [];
    var metadata := new Metadata();
    var ranges: seq<Range> := [];
    ghost var members: seq<seq<byte>> := [];
    ghost var all := Layout(member, |requests|, 0, 0);
    AfterNothing(all);
    var index := 0;
    while index < |requests|
      invariant 0 <= index <= |requests|
      invariant |members| == index
      invariant all == After(members, Layout(member, |requests|, index, |metadata.bytes|))
      invariant metadata.bytes == Concat(members)
      invariant if |requests| == 1 then ranges == [] else AreRanges(ranges, members)
      invariant AreLinked(updated, requests, members)
    {
      var start := |metadata.bytes|;
      ghost var m := member(start, index);
      LayoutStep(all, member, |requests|, index, members, start, m);
      var ok, request := EncodeAt(metadata, requests, index, member);
      if !ok {
        return Err(MemberNotEncodable), updated;
      }
      ConcatSnoc(members, m.value);
      LinksExtend(updated, requests, members, m.value, request.header.nextCommand);
      updated := updated + [request];
      if |requests| > 1 {
        RangesExtend(ranges, members, m.value);
        ranges := ranges + [Range(start, |metadata.bytes|)];
      }
      members := members + [m.value];
      index := index + 1;
    }
    AfterNothing(Some(members));
    r := Ok(Encoding(metadata.bytes, ranges));
  }

  // ----- what the arena means -----

  /** Two streams of one length that differ at most in their first `n` bytes. */
  ghost predicate AgreeBehind(a: seq<byte>, b: seq<byte>, n: nat) {
    n <= |a| == |b| && a[n..] == b[n..]
  }

  lemma {:induction false} OverwriteAgrees(
    a: seq<byte>, b: seq<byte>, n: nat, position: nat, data: seq<byte>)
    requires AgreeBehind(a, b, n)
    ensures AgreeBehind(Overwrite(a, position, data), Overwrite(b, position, data), n)
  {
    var x, y := Overwrite(a, position, data), Overwrite(b, position, data);
    assert forall i :: n <= i < |a| ==> a[i] == a[n..][i - n] && b[i] == b[n..][i - n];
    assert forall i :: n <= i < |x| ==> x[i] == y[i];
  }

  /** Writes and seeks do the same behind any header: they never read what is there. */
  lemma {:induction false} SwapHead(s: Stream, t: Stream, ops: seq<CursorOp>, from: nat, n: nat)
    requires from <= |ops| && s.position == t.position && AgreeBehind(s.bytes, t.bytes, n)
    ensures var a, b := Run(0, s, ops, from), Run(0, t, ops, from);
      && (a.Some? <==> b.Some?)
      && (a.Some? ==> AgreeBehind(a.value.bytes, b.value.bytes, n))
    decreases |ops| - from
  {
    if from < |ops| {
      var op := ops[from];
      var u, v := Apply(0, s, op), Apply(0, t, op);
      if u.Some? {
        if op.Write? {
          OverwriteAgrees(s.bytes, t.bytes, n, s.position, op.data);
        }
        SwapHead(u.value, v.value, ops, from + 1, n);
      }
    }
  }

  lemma {:induction false} FirstWrite(base: nat, header: seq<byte>)
    ensures Apply(base, Stream([], 0), Write(header))
      == if base + |header| < U64 then Some(Stream(header, |header|)) else None
  {
    OverwriteCases([], 0, header);
    assert [] + header == header;
  }

  /** Relinking a request changes at most its header bytes. */
  lemma {:induction false} Relinked(r: Request, next: nat)
    ensures var a, b := Standalone(0, Linked(r, 0)), Standalone(0, Linked(r, next));
      && (a.Some? <==> b.Some?)
      && (a.Some? ==> AgreeBehind(a.value, b.value, |HeaderBytes(r.header)|))
  {
    var h, g := HeaderBytes(Linked(r, 0).header), HeaderBytes(Linked(r, next).header);
    if Writable(r.header) {
      FirstWrite(0, h);
      FirstWrite(0, g);
      SwapHead(Stream(h, |h|), Stream(g, |g|), r.body, 0, |h|);
    }
  }

  /** The encoding of the request begins with its header: the content has left it alone. */
  ghost predicate Intact(r: Request) {
    Standalone(0, r).Some? ==> HeaderBytes(r.header) <= Standalone(0, r).value
  }

  /** No write of `ops` touches the first `n` bytes. */
  predicate StaysBehind(s: Stream, ops: seq<CursorOp>, from: nat, n: nat)
    requires from <= |ops|
    decreases |ops| - from
  {
    from < |ops| ==>
      && (ops[from].Write? ==> s.position >= n)
      && match Apply(0, s, ops[from])
         case None => true
         case Some(next) => StaysBehind(next, ops, from + 1, n)
  }

  lemma {:induction false} HeadStays(h: seq<byte>, s: Stream, ops: seq<CursorOp>, from: nat)
    requires from <= |ops| && h <= s.bytes && StaysBehind(s, ops, from, |h|)
    ensures var a := Run(0, s, ops, from);
      a.Some? ==> h <= a.value.bytes
    decreases |ops| - from
  {
    if from < |ops| && Apply(0, s, ops[from]).Some? {
      HeadStays(h, Apply(0, s, ops[from]).value, ops, from + 1);
    }
  }

  /** Content that only writes behind the header leaves it alone. */
  lemma {:induction false} BehindIsIntact(r: Request)
    requires var header := HeaderBytes(r.header);
      StaysBehind(Stream(header, |header|), r.body, 0, |header|)
    ensures Intact(r)
  {
    var header := HeaderBytes(r.header);
    FirstWrite(0, header);
    HeadStays(header, Stream(header, |header|), r.body, 0);
  }

  lemma {:induction false} StandaloneIgnoresBase(base: nat, r: Request)
    ensures Standalone(base, r).Some? ==> Standalone(0, r) == Standalone(base, r)
  {
    var begun := Apply(base, Stream([], 0), Write(HeaderBytes(r.header)));
    if begun.Some? {
      RunIgnoresBase(base, begun.value, r.body, 0);
    }
  }

  /**
   * `m` is the standalone encoding of `q`, zero-padded to eight bytes unless it is the last.
   */
  ghost predicate IsPaddedEncoding(m: seq<byte>, q: Request, last: bool) {
    && Standalone(0, q).Some?
    && |Standalone(0, q).value| <= |m|
    && m == Padded(Standalone(0, q).value, |m|)
    && (last ==> |m| == |Standalone(0, q).value|)
    && (!last ==> |m| == |Standalone(0, q).value| + Padding(|Standalone(0, q).value|, MEMBER_ALIGNMENT))
  }

  /** Patching a header over an encoding gives the relinked encoding exactly if that one is intact. */
  lemma {:induction false} PatchedIff(a: seq<byte>, b: seq<byte>, header: seq<byte>, zeros: seq<byte>)
    requires AgreeBehind(a, b, |header|)
    ensures Splice(a + zeros, 0, header) == b + zeros <==> header <= b
  {
    var rest := b[|header|..];
    assert Splice(a + zeros, 0, header) == header + rest + zeros;
    if header <= b {
      assert header + rest == b;
    } else if header + rest + zeros == b + zeros {
      assert forall i :: 0 <= i < |header| ==> header[i] == (header + rest + zeros)[i] == (b + zeros)[i] == b[i];
    }
  }

  /**
   * A member is the padded standalone encoding of the request with its final header, unless it
   * is not the last one and its content has overwritten its header.
   */
  lemma {:induction false} MemberIsPaddedEncoding(base: nat, r: Request, last: bool)
    requires base % MEMBER_ALIGNMENT == 0 && Member(base, r, last).Some?
    ensures var m := Member(base, r, last).value;
      var q := Linked(r, if last then 0 else |m|);
      IsPaddedEncoding(m, q, last) <==> last || Intact(q)
  {
    StandaloneIgnoresBase(base, Linked(r, 0));
    var alone := Standalone(0, Linked(r, 0)).value;
    if !last {
      var m := Member(base, r, last).value;
      Relinked(r, |m|);
      PaddingFromAligned(base, |alone|, MEMBER_ALIGNMENT);
      PatchedIff(alone, Standalone(0, Linked(r, |m|)).value, HeaderBytes(Linked(r, |m|).header),
        Zeros(|m| - |alone|));
    } else {
      assert alone + Zeros(0) == alone;
    }
  }

  /** Non-final members end on an eight-byte boundary. */
  lemma {:induction false} MemberAligned(base: nat, r: Request)
    requires base % MEMBER_ALIGNMENT == 0
    ensures Member(base, r, false).Some? ==>
      (base + |Member(base, r, false).value|) % MEMBER_ALIGNMENT == 0
  {
    var alone := Standalone(base, Linked(r, 0));
    if alone.Some? {
      PaddingAligns(base + |alone.value|, MEMBER_ALIGNMENT);
    }
  }

  /** Each member is what its request writes at the position where the previous ones end. */
  ghost predicate LaidOut(member: MemberFn, base: nat, members: seq<seq<byte>>, from: nat, i: nat)
    requires i < |members|
  {
    member(base + Before(members, i), from + i) == Some(members[i])
  }

  lemma {:induction false} LayoutAt(member: MemberFn, count: nat, from: nat, base: nat, i: nat)
    requires from + i < count && Layout(member, count, from, base).Some?
    ensures LaidOut(member, base, Layout(member, count, from, base).value, from, i)
    decreases i
  {
    if i > 0 {
      var m := member(base, from).value;
      LayoutAt(member, count, from + 1, base + |m|, i - 1);
      BeforePrepended(m, Layout(member, count, from + 1, base + |m|).value, i);
    }
  }

  lemma {:induction false} BeforePrepended(m: seq<byte>, rest: seq<seq<byte>>, i: nat)
    requires 0 < i <= |rest|
    ensures Before([m] + rest, i) == |m| + Before(rest, i - 1)
    ensures ([m] + rest)[i] == rest[i - 1]
  {
    assert ([m] + rest)[1..] == rest;
  }

  lemma {:induction false} MemberAt(requests: seq<Request>, i: nat)
    requires Members(requests).Some? && i < |requests|
    ensures var members := Members(requests).value;
      Member(Before(members, i), requests[i], i + 1 == |requests|) == Some(members[i])
  {
    LayoutAt(MemberOf(requests), |requests|, 0, 0, i);
    assert MemberIn(requests, Before(Members(requests).value, i), i) == Some(Members(requests).value[i]);
  }

  /** A non-final member that starts on an eight-byte boundary also ends on one. */
  ghost predicate KeepsAlignment(member: MemberFn, count: nat) {
    forall base: nat, i: nat ::
      base % MEMBER_ALIGNMENT == 0 && i + 1 < count && member(base, i).Some? ==>
        (base + |member(base, i).value|) % MEMBER_ALIGNMENT == 0
  }

  lemma {:induction false} MemberInAligned(requests: seq<Request>, base: nat, i: nat)
    requires base % MEMBER_ALIGNMENT == 0 && i + 1 < |requests| && MemberIn(requests, base, i).Some?
    ensures (base + |MemberIn(requests, base, i).value|) % MEMBER_ALIGNMENT == 0
  {
    MemberAligned(base, requests[i]);
  }

  lemma {:induction false} MemberKeepsAlignment(requests: seq<Request>)
    ensures KeepsAlignment(MemberOf(requests), |requests|)
  {
    forall base: nat, i: nat |
      base % MEMBER_ALIGNMENT == 0 && i + 1 < |requests| && MemberIn(requests, base, i).Some?
      ensures (base + |MemberIn(requests, base, i).value|) % MEMBER_ALIGNMENT == 0
    {
      MemberInAligned(requests, base, i);
    }
  }

  lemma {:induction false} StartsAligned(member: MemberFn, members: seq<seq<byte>>, i: nat)
    requires Layout(member, |members|, 0, 0) == Some(members) && i < |members|
    requires KeepsAlignment(member, |members|)
    ensures Before(members, i) % MEMBER_ALIGNMENT == 0
  {
    if i > 0 {
      StartsAligned(member, members, i - 1);
      LayoutAt(member, |members|, 0, 0, i - 1);
      BeforeNext(members, i - 1);
    }
  }

  /**
   * The arena is the concatenation of the requests' standalone encodings with their final
   * headers, each but the last zero-padded to eight bytes; this holds of a member exactly when
   * it is the last one or its content has left its header alone.
   */
  lemma {:induction false} ArenaIsConcatenation(requests: seq<Request>, i: nat)
    requires Members(requests).Some? && i < |requests|
    ensures var members := Members(requests).value;
      var last := i + 1 == |requests|;
      var q := Linked(requests[i], if last then 0 else |members[i]|);
      IsPaddedEncoding(members[i], q, last) <==> last || Intact(q)
  {
    var members := Members(requests).value;
    MemberAt(requests, i);
    MemberKeepsAlignment(requests);
    StartsAligned(MemberOf(requests), members, i);
    MemberIsPaddedEncoding(Before(members, i), requests[i], i + 1 == |requests|);
  }

  // ----- following NextCommand -----

  const NEXT_COMMAND: nat := 20

  function NextCommandAt(arena: seq<byte>, at: nat): (next: nat) {
    if at + NEXT_COMMAND + 4 > |arena| then 0
    else FromLE(arena[at + NEXT_COMMAND..at + NEXT_COMMAND + 4])
  }

  /** The NextCommand stored in the header at each position. */
  function NextCommandIn(arena: seq<byte>): (next: nat -> nat) {
    (at: nat) => NextCommandAt(arena, at)
  }

  lemma {:induction false} NextCommandStored(h: Header)
    requires h.nextCommand < U32
    ensures FromLE(HeaderBytes(h)[NEXT_COMMAND..NEXT_COMMAND + 4]) == h.nextCommand
  {
    Capacities();
    LERoundTrip(h.nextCommand, 4);
    assert HeaderBytes(h)[NEXT_COMMAND..NEXT_COMMAND + 4] == LE(h.nextCommand, 4);
  }

  /** A member is never shorter than its header, and a non-final one has room for 64 bytes. */
  lemma {:induction false} MemberLong(base: nat, r: Request, last: bool)
    ensures Member(base, r, last).Some? ==>
      |Member(base, r, last).value| >= if last then 56 else HEADER_SIZE
  {
    if Member(base, r, last).Some? {
      StandaloneIgnoresBase(base, Linked(r, 0));
      Relinked(r, 0);
    }
  }

  /** A member's header carries its padded length, or zero in a last member whose header is intact. */
  lemma {:induction false} MemberLinks(base: nat, r: Request, last: bool)
    requires Member(base, r, last).Some?
    requires last ==> Intact(Linked(r, 0))
    ensures var m := Member(base, r, last).value;
      |m| >= 56 && FromLE(m[NEXT_COMMAND..NEXT_COMMAND + 4]) == if last then 0 else |m|
  {
    var m := Member(base, r, last).value;
    var header := Linked(r, if last then 0 else |m|).header;
    MemberHeader(base, r, last);
    NextCommandStored(header);
    SliceOfPrefix(m, HeaderBytes(header), NEXT_COMMAND, NEXT_COMMAND + 4);
  }

  /** A member begins with the header that links it, if it is not a last one whose content changed that. */
  lemma {:induction false} MemberHeader(base: nat, r: Request, last: bool)
    requires Member(base, r, last).Some?
    requires last ==> Intact(Linked(r, 0))
    ensures var m := Member(base, r, last).value;
      |m| < U32 || last
    ensures var m := Member(base, r, last).value;
      HeaderBytes(Linked(r, if last then 0 else |m|).header) <= m
  {
    if last {
      StandaloneIgnoresBase(base, Linked(r, 0));
    } else {
      var alone := Standalone(base, Linked(r, 0)).value;
      var size := PaddedSize(base, alone);
      SpliceAtStart(Padded(alone, size), HeaderBytes(Linked(r, size).header));
    }
  }

  lemma {:induction false} SpliceAtStart(s: seq<byte>, data: seq<byte>)
    requires |data| <= |s|
    ensures data <= Splice(s, 0, data)
  {
  }

  lemma {:induction false} SliceOfPrefix(s: seq<byte>, prefix: seq<byte>, from: nat, to: nat)
    requires from <= to <= |prefix| && prefix <= s
    ensures s[from..to] == prefix[from..to]
  {
    assert s[..|prefix|] == prefix;
  }

  function Starts(members: seq<seq<byte>>): (starts: seq<nat>)
    ensures |starts| == |members|
    ensures forall i :: 0 <= i < |starts| ==> starts[i] == Before(members, i)
  {
    seq(|members|, i requires 0 <= i < |members| => Before(members, i))
  }

  lemma {:induction false} LinkInArena(members: seq<seq<byte>>, i: nat)
    requires i < |members| && |members[i]| >= NEXT_COMMAND + 4
    ensures Before(members, i) + |members[i]| <= |Concat(members)|
    ensures NextCommandIn(Concat(members))(Before(members, i))
      == FromLE(members[i][NEXT_COMMAND..NEXT_COMMAND + 4])
  {
    PieceAt(members, i, 0);
    SliceOfSlice(Concat(members), Before(members, i), members[i], NEXT_COMMAND, NEXT_COMMAND + 4);
  }

  lemma {:induction false} SliceOfSlice(s: seq<byte>, at: nat, piece: seq<byte>, from: nat, to: nat)
    requires at + |piece| <= |s| && s[at..at + |piece|] == piece && from <= to <= |piece|
    ensures s[at + from..at + to] == piece[from..to]
  {
    forall k | 0 <= k < to - from
      ensures s[at + from..at + to][k] == piece[from..to][k]
    {
      assert s[at..at + |piece|][from + k] == s[at + from + k];
    }
  }

  /** Every header but the last holds the length of its member. */
  ghost predicate Chained(members: seq<seq<byte>>) {
    forall i :: 0 <= i < |members| ==>
      && |members[i]| >= NEXT_COMMAND + 4
      && (i + 1 < |members| ==> FromLE(members[i][NEXT_COMMAND..NEXT_COMMAND + 4]) == |members[i]|)
  }

  lemma {:induction false} MembersChained(requests: seq<Request>)
    ensures Members(requests).Some? ==> Chained(Members(requests).value)
  {
    if Members(requests).Some? {
      var members := Members(requests).value;
      forall i | 0 <= i < |members|
        ensures |members[i]| >= NEXT_COMMAND + 4
        ensures i + 1 < |members| ==> FromLE(members[i][NEXT_COMMAND..NEXT_COMMAND + 4]) == |members[i]|
      {
        MemberAt(requests, i);
        MemberLong(Before(members, i), requests[i], i + 1 == |members|);
        if i + 1 < |members| {
          MemberLinks(Before(members, i), requests[i], false);
        }
      }
    }
  }

  /** From each position but the last the link leads to the next one, where a header fits. */
  ghost predicate Leads(next: nat -> nat, size: nat, positions: seq<nat>) {
    && positions != []
    && (forall j :: 0 <= j < |positions| ==> positions[j] + NEXT_COMMAND + 4 <= size)
    && (forall j, k :: 0 <= j < k < |positions| && k == j + 1 ==>
      next(positions[j]) > 0 && positions[j] + next(positions[j]) == positions[k])
  }

  /** The link at `at` leads nowhere, or to where no header fits. */
  predicate Ends(next: nat -> nat, size: nat, at: nat) {
    next(at) == 0 || at + next(at) + NEXT_COMMAND + 4 > size
  }

  /** What a receiver visits that starts at 0 and follows links as long as they lead to a header. */
  ghost predicate IsWalk(next: nat -> nat, size: nat, visited: seq<nat>) {
    Leads(next, size, visited) && visited[0] == 0 && Ends(next, size, visited[|visited| - 1])
  }

  lemma {:induction false} WalksAgree(next: nat -> nat, size: nat, a: seq<nat>, b: seq<nat>, i: nat)
    requires IsWalk(next, size, a) && IsWalk(next, size, b) && i < |a|
    ensures i < |b| && a[i] == b[i]
  {
    if i > 0 {
      WalksAgree(next, size, a, b, i - 1);
      assert a[i - 1] + next(a[i - 1]) == a[i];
      assert i < |b| ==> b[i - 1] + next(b[i - 1]) == b[i];
    }
  }

  /** There is only one way to follow the links. */
  lemma {:induction false} WalkIsUnique(next: nat -> nat, size: nat, a: seq<nat>, b: seq<nat>)
    requires IsWalk(next, size, a) && IsWalk(next, size, b)
    ensures a == b
  {
    WalksAgree(next, size, a, b, |a| - 1);
    WalksAgree(next, size, b, a, |b| - 1);
    forall i | 0 <= i < |a|
      ensures a[i] == b[i]
    {
      WalksAgree(next, size, a, b, i);
    }
  }

  /** A member holds a link, to the next member if there is one. */
  predicate LinkedAt(next: nat -> nat, members: seq<seq<byte>>, j: nat)
    requires j < |members|
  {
    && |members[j]| >= NEXT_COMMAND + 4
    && (j + 1 < |members| ==> next(Before(members, j)) == |members[j]|)
  }

  lemma {:induction false} StartsLead(next: nat -> nat, members: seq<seq<byte>>)
    requires members != [] && forall j :: 0 <= j < |members| ==> LinkedAt(next, members, j)
    ensures Leads(next, |Concat(members)|, Starts(members))
  {
    var positions := Starts(members);
    forall j | 0 <= j < |positions|
      ensures positions[j] + NEXT_COMMAND + 4 <= |Concat(members)|
    {
      StartLeads(next, members, j);
    }
    forall j, k | 0 <= j < k < |positions| && k == j + 1
      ensures next(positions[j]) > 0 && positions[j] + next(positions[j]) == positions[k]
    {
      StartLeads(next, members, j);
    }
  }

  lemma {:induction false} StartLeads(next: nat -> nat, members: seq<seq<byte>>, j: nat)
    requires j < |members| && LinkedAt(next, members, j)
    ensures var at := Starts(members)[j];
      && at + NEXT_COMMAND + 4 <= |Concat(members)|
      && (j + 1 < |members| ==> next(at) > 0 && at + next(at) == Starts(members)[j + 1])
  {
    BeforeNext(members, j);
  }

  lemma {:induction false} ChainedWalk(members: seq<seq<byte>>)
    requires members != [] && Chained(members)
    ensures var next := NextCommandIn(Concat(members));
      && Leads(next, |Concat(members)|, Starts(members))
      && next(Before(members, |members| - 1))
        == FromLE(members[|members| - 1][NEXT_COMMAND..NEXT_COMMAND + 4])
  {
    var next := NextCommandIn(Concat(members));
    forall j | 0 <= j < |members|
      ensures LinkedAt(next, members, j)
    {
      LinkInArena(members, j);
    }
    StartsLead(next, members);
    LinkInArena(members, |members| - 1);
  }

  /**
   * Following NextCommand from the start of the arena visits every member exactly once, in
   * order, at the start of its range, if and only if the last link leads to no further header.
   * So it does whenever the content of the last request has left its header alone: the link is zero.
   */
  lemma {:induction false} WalkVisitsMembers(requests: seq<Request>)
    requires requests != []
    ensures Members(requests).Some? ==>
      var members := Members(requests).value;
      var next, size := NextCommandIn(Concat(members)), |Concat(members)|;
      var last := |members| - 1;
      && (IsWalk(next, size, Starts(members)) <==> Ends(next, size, RangeOf(members, last).start))
      && (Intact(Linked(requests[last], 0)) ==>
            next(RangeOf(members, last).start) == 0 && IsWalk(next, size, Starts(members)))
  {
    if Members(requests).Some? {
      var members := Members(requests).value;
      var last := |members| - 1;
      MembersChained(requests);
      ChainedWalk(members);
      if Intact(Linked(requests[last], 0)) {
        MemberAt(requests, last);
        MemberLinks(Before(members, last), requests[last], true);
      }
    }
  }

  /** The ranges follow one another without gap or overlap from the start of the arena to its end. */
  lemma {:induction false} RangesPartition(members: seq<seq<byte>>)
    requires members != []
    ensures RangeOf(members, 0).start == 0
    ensures RangeOf(members, |members| - 1).end == |Concat(members)|
    ensures forall i :: 0 <= i < |members| - 1 ==> RangeOf(members, i).end == RangeOf(members, i + 1).start
    ensures forall i :: 0 <= i < |members| ==>
      var r := RangeOf(members, i);
      r.start <= r.end <= |Concat(members)| && Concat(members)[r.start..r.end] == members[i]
  {
    forall i | 0 <= i < |members|
      ensures var r := RangeOf(members, i);
        r.start <= r.end <= |Concat(members)| && Concat(members)[r.start..r.end] == members[i]
    {
      BeforeNext(members, i);
      PieceAt(members, i, 0);
    }
  }
}
