# A verified model of the SMB client's hard core

This Dafny project models the parts of the SMB 2/3 client where mistakes are easy to make and hard
to see, and proves what those parts promise. Six components are covered:

- **Sending and receiving.** Outbound frames, the cursor that drains them by partial vectored
  writes, the TCP send loop and the receiver (`Transport`).
- **Building messages.** Requests encoded into one shared arena through an offset cursor, chained
  by NextCommand (`Arena`), then signed in place, sealed and handed over (`WireOut`).
- **Back-patching codecs.** Position markers (`BackPatch`), chained lists (`ChainedList`) and
  create contexts as an instance of both (`CreateContexts`).
- **Compression.** The two wire layouts (`CompressedLayout`) and the compressor and decompressor
  (`Compression`).
- **Recovery.** Session, share and handle recovery as transition systems over every interleaving
  (`SessionRecovery`, `TreeRecovery`, `ResourceRecovery`).
- **Test support with real state.** Transactional provisioning (`Provisioning`), the lock-free
  memory counters (`MemoryCounters`), the manual clock (`ManualClock`) and the delivery of its
  wake-ups (`WakeUps`).

`Bytes`, `Segments` and `Streams` hold what the codecs share, and `Locks` what session and share
recovery share.

How the models are built:

- Code that updates objects or loops is a class or a method, proved against a function that says
  what the result is; the lemmas are about that function. Buffers that grow are sequences that
  the methods reassign.
- Concurrent code is a function from a state and an event to the next state. A history is any
  finite sequence of events; an event that is not enabled has no effect. Statements are about the
  state after every history.
- Everything outside the program is a parameter: which bytes a socket accepts, how the appliance
  and the file system answer, what LZ4 does (only that decompression inverts compression, never
  yields more than the buffer, and compression respects its announced bound), which tokens and
  session ids are handed out (only that they are new).
- Integers are unbounded. Where the program cuts a number to 16, 24, 32 or 64 bits, or checks
  that it fits, the model does so explicitly.

Statements that would be false are replaced by the exact condition under which they hold, and the
two halves are proved together: frames longer than 24 bits (`Transport.FramingRoundTrip`), lists
that start unaligned (`ChainedList.RoundTrip`), chained messages that look unchained
(`CompressedLayout.ChainedRoundTrip`), data longer than 32 bits (`Compression.ChainedRoundTripIff`),
contents that write into their own header (`Arena.ArenaIsConcatenation`, `Arena.WalkVisitsMembers`)
and exhausted registration numbers (`ManualClock.DisplacedIff`). Two promises of the recovery code
hold only for calls that had not yet passed their check: a preparation that had passed it can still
succeed on a closed tree (`TreeRecovery.PrepareAfterCloseIff`), and a use that had read the old share
can still yield a file id after the share was replaced (`ResourceRecovery.StaleYieldsIff`); both come
with a history in which that happens. The provisioner records an unmount before the offline of a
volume unless a client records the offline directly and too early (`Provisioning.OrderBreaksIff`,
`Provisioning.Operations`), and loses no record unless a client holds a manifest that is older than
its file (`Provisioning.KnowsIff`, `Provisioning.OldManifestForgets`). The manual clock wakes in order
of deadlines unless two advances overlap (`WakeUps.DeliveredInOrderIff`, `WakeUps.OverlapReorders`).
The peak of the memory counters needs no exception for 64-bit wrap-around in the release build,
because the candidate wraps with the counter.

## Model

| member | source | states |
|---|---|---|
| Transport.CheckedTotal | crates/smb-transport/src/frame.rs:65-68 | the checked fold is the total length of all segments, and fails exactly when that total does not fit 64 bits |
| Transport.FromSegments | crates/smb-transport/src/frame.rs:55-82 | a frame is accepted exactly when it has one to `maximumSegments` segments and one to 2^32-1 bytes in total; the too-large error is reported only for totals of 2^32 and more |
| Transport.CountFrom | crates/smb-transport/src/iovec.rs:194-211 | the sum over the segments from the cursor on is the number of flat bytes behind it |
| Transport.FirstPiece | crates/smb-transport/src/iovec.rs:213-231 | the first non-empty rest of a segment is the next stretch of the flat bytes, and is empty exactly at their end |
| Transport.PiecesCover | crates/smb-transport/src/iovec.rs:238-268 | the non-empty slices from any cursor position join to the flat suffix from there |
| Transport.PiecesNonEmpty | crates/smb-transport/src/iovec.rs:238-268 | no slice offered to the socket is empty |
| Transport.SendCursor.New | crates/smb-transport/src/iovec.rs:144-162 | a cursor starts at byte 0 of header plus segments; only totals beyond 32 bits are refused |
| Transport.SendCursor.Remaining | crates/smb-transport/src/iovec.rs:194-211 | remaining is the frame length less what was advanced, empty segments anywhere |
| Transport.SendCursor.Chunk | crates/smb-transport/src/iovec.rs:213-231 | the chunk is a prefix of what is left, and non-empty exactly when bytes are left |
| Transport.SendCursor.TryAdvance | crates/smb-transport/src/iovec.rs:164-190 | an advance within the rest moves the cursor by exactly that many bytes and terminates; one beyond it is refused and changes nothing |
| Transport.SendCursor.SlicesAreRest | crates/smb-transport/src/iovec.rs:238-268 | all slices the cursor can offer join to exactly the unwritten bytes |
| Transport.SendCursor.OfferedIsNext | crates/smb-transport/src/iovec.rs:238-268 | whatever prefix of the offered slices is taken is the next stretch of the frame, and something is offered while bytes remain |
| Transport.SendCursor.ChunksVectored | crates/smb-transport/src/iovec.rs:238-268 | the slots are filled with the slices in order, all of them given enough slots, and the other slots are untouched |
| Transport.Offered | crates/smb-transport/src/tcp/transport.rs:170-182 | one vectored write offers something while bytes are left, and exactly what comes next |
| Transport.WriteOnce | crates/smb-transport/src/tcp/transport.rs:170-182 | one vectored write of any accepted size sends the next bytes of the frame and advances past them; it makes progress unless the socket takes nothing |
| Transport.Send | crates/smb-transport/src/tcp/transport.rs:154-189 | under every schedule what was sent is a prefix of the frame, reported byte for byte; success means the whole frame; positive writes for a frame within limits always succeed |
| Transport.SendWithProgress | crates/smb-transport/src/traits.rs:57-82 | the default loop puts exactly the frame on the wire and reports all of its bytes |
| Transport.Inbound.ReceiveExact | crates/smb-transport/src/traits.rs:91-91 | reads exactly `n` bytes or fails |
| Transport.Inbound.ReceiveWithLimit | crates/smb-transport/src/traits.rs:101-131 | one receive call does what `Receive` says and never returns more than the limit |
| Transport.ReceiveOfFrame | crates/smb-transport/src/tcp/msg.rs:6-10 | a sent frame is read by the low 24 bits of its length, whatever its real length |
| Transport.FrameSurvives | crates/smb-transport/src/traits.rs:101-131 | one frame is received whole, leaving what follows, when its length fits 24 bits and the limit, and otherwise never |
| Transport.FramingRoundTrip | crates/smb-transport/src/traits.rs:101-131 | a run of frames is received back payload for payload exactly when every frame fits |
| Transport.Exchange | crates/smb-transport/src/tcp/transport.rs:154-189 | frames sent one after the other under arbitrary partial-write schedules are received back as exactly those payloads, in order, exactly when every frame fits; sending succeeds whenever every frame is within the segment and length limits and every write takes something |
| Arena.RunIgnoresBase | crates/smb-msg/src/wire_out.rs:341-391 | where a member lies in the arena never changes what a successful run of writes and seeks puts into it |
| Arena.MetadataCursor.AtEnd | crates/smb-msg/src/wire_out.rs:342-349 | a cursor at the end of the arena looks like an empty stream of its own |
| Arena.MetadataCursor.Write | crates/smb-msg/src/wire_out.rs:358-371 | a write acts on the member as on a private stream, fails exactly on 64-bit overflow, and leaves earlier members untouched |
| Arena.MetadataCursor.Seek | crates/smb-msg/src/wire_out.rs:377-391 | seeking is relative to the member and fails exactly outside 0..2^64-1 |
| Arena.MetadataCursor.Perform | crates/smb-msg/src/wire_out.rs:335-391 | any sequence of writes and seeks refines the same sequence on a private stream and never changes earlier bytes |
| Arena.PatchHeader | crates/smb-msg/src/wire_out.rs:317-326 | the header is overwritten in place exactly when 64 bytes are there, and nothing else changes |
| Arena.WriteRequest | crates/smb-msg/src/plain.rs:282-290 | a request appends its standalone encoding, and fails exactly when the standalone encoding does |
| Arena.EncodeMember | crates/smb-msg/src/wire_out.rs:55-75 | one round of the loop appends the padded, relinked member and leaves its length in the request |
| Arena.EncodeAll | crates/smb-msg/src/wire_out.rs:54-81 | the loop lays out all members or fails, exactly as the layout says |
| Arena.Encode | crates/smb-msg/src/wire_out.rs:30-83 | encoding succeeds exactly for a non-empty list with room for metadata and encodable members, and otherwise says which of these is missing; the arena is the concatenation of the members, the ranges are where they lie, and each request ends up with its member's length as NextCommand |
| Arena.SwapHead | crates/smb-msg/src/wire_out.rs:317-326 | over two streams that agree behind their first bytes the same writes and seeks succeed alike and end in streams that agree there too, also when they write into the first bytes |
| Arena.Relinked | crates/smb-msg/src/wire_out.rs:57-71 | encoding a request with another NextCommand succeeds alike and gives the same bytes behind the header |
| Arena.BehindIsIntact | crates/smb-msg/src/plain.rs:282-290 | content whose writes all stay behind the header leaves the header alone |
| Arena.MemberIsPaddedEncoding | crates/smb-msg/src/wire_out.rs:55-72 | a member is the standalone encoding with the final header, padded to eight bytes unless it is the last, if and only if it is the last or the content left the header alone |
| Arena.ArenaIsConcatenation | crates/smb-msg/src/wire_out.rs:30-83 | member by member the arena holds the requests' standalone encodings with their final headers, zero-padded to eight bytes except the last; this is so of a member if and only if it is the last or its content left its own header alone |
| Arena.MemberLong | crates/smb-msg/src/wire_out.rs:62-72 | a member is never shorter than 56 bytes, and a non-final one has room for a whole header |
| Arena.MemberLinks | crates/smb-msg/src/header.rs:189-226 | bytes 20 to 23 of a non-final member hold its padded length, and those of a last member zero when its content left the header alone |
| Arena.WalkIsUnique | crates/smb-msg/src/wire_out.rs:62-72 | there is only one way to follow the links of an arena from its start |
| Arena.WalkVisitsMembers | crates/smb-msg/src/wire_out.rs:62-75 | following NextCommand from 0 visits every member exactly once, in order, at the start of its range, if and only if the last link leads to no further header; so it does, with a last link of zero, whenever the last content left its header alone |
| Arena.RangesPartition | crates/smb-msg/src/wire_out.rs:73-75 | the ranges cover the arena without gap or overlap and select the members |
| WireOut.WireBuilder.constructor | crates/smb-msg/src/wire_out.rs:76-82 | a builder starts unsigned, without payloads, in the first phase |
| WireOut.WireBuilder.AttachPayload | crates/smb-msg/src/wire_out.rs:86-96 | attaching does what the call's outcome says and changes nothing when refused |
| WireOut.WireBuilder.FinalizeOffsets | crates/smb-msg/src/wire_out.rs:100-104 | only the first phase can be finalised |
| WireOut.WireBuilder.RangeOfMember | crates/smb-msg/src/wire_out.rs:221-235 | the range of a member, or none |
| WireOut.WireBuilder.PatchSignature | crates/smb-msg/src/wire_out.rs:154-172 | a patch overwrites 16 bytes of the next unsigned member or is refused without effect |
| WireOut.WireBuilder.FinishSigned | crates/smb-msg/src/wire_out.rs:174-181 | protection as signed needs every member signed |
| WireOut.WireBuilder.FinishUnsigned | crates/smb-msg/src/wire_out.rs:183-190 | protection as unsigned needs no member signed |
| WireOut.WireBuilder.OwnedSigningSegments | crates/smb-msg/src/wire_out.rs:127-150 | the signing input, with all its error cases, is what `SigningSegments` says |
| WireOut.WireBuilder.Seal | crates/smb-msg/src/wire_out.rs:192-207 | sealing needs protection and a total length below 2^64, and records that total |
| WireOut.IntoContiguous | crates/smb-msg/src/wire_out.rs:285-296 | the arena is `prefix` zeros followed by all segments, or an overflow error |
| WireOut.EncodingIsFresh | crates/smb-msg/src/wire_out.rs:62-82 | whatever `Arena.Encode` returns is a fresh start, with every non-final member long enough for a header |
| WireOut.SplicePiece | crates/smb-msg/src/wire_out.rs:160-170 | overwriting inside one member is overwriting at that member's place in the arena |
| WireOut.PatchSigns | crates/smb-msg/src/wire_out.rs:154-172 | an accepted patch signs exactly the next unsigned member |
| WireOut.RunKeeps | crates/smb-msg/src/wire_out.rs:86-207 | after every sequence of calls the metadata is the encoded arena with exactly the accepted signatures in the first members |
| WireOut.SignedInOrder | crates/smb-msg/src/wire_out.rs:154-172 | accepted signatures are for members 0, 1, 2 and so on, each once |
| WireOut.PayloadsInOrder | crates/smb-msg/src/wire_out.rs:86-96 | the payloads are the accepted ones in order, and are fixed once offsets are final |
| WireOut.SealedMessage | crates/smb-msg/src/wire_out.rs:86-207 | over every sequence of calls a sealed message is signed in all members, each once and in order, or in none; payloads in order; segment count within the limit; recorded length equal to the length of the segments |
| WireOut.OnlySignatures | crates/smb-msg/src/wire_out.rs:154-172 | byte by byte, signing changes offsets 48 to 63 of signed members and nothing else |
| WireOut.SigningInput | crates/smb-msg/src/wire_out.rs:127-150 | the signing input of a member is its encoded bytes with a zero signature, plus the payloads of a lone member, whatever has been signed |
| WireOut.SigningStable | crates/smb-msg/src/wire_out.rs:127-172 | the signing input of every member is the same before and after every later sequence of calls |
| WireOut.SigningCovers | crates/smb-msg/src/wire_out.rs:127-150 | with one member or no payloads, the inputs of all members join to the whole message with its signature fields zeroed when the last member has a full header, and are shorter than the metadata when it has not |
| BackPatch.EmitPatched | crates/smb-dtyp/src/binrw_util/pos_marker.rs:122-154 | changing one marker's number rewrites exactly that marker's bytes |
| BackPatch.MarkerReads | crates/smb-dtyp/src/binrw_util/pos_marker.rs:67-84 | every marker of an encoded struct reads back as the number the first pass computed |
| BackPatch.FieldStep | crates/smb-dtyp/src/binrw_util/pos_marker.rs:157-192 | writing one more field and patching in place yields the two-pass encoding of the longer struct |
| BackPatch.PosMarker.WritePlaceholder | crates/smb-dtyp/src/binrw_util/pos_marker.rs:92-105 | wherever the writer is, a marker is written once, remembers where, leaves everything around it alone, and refuses a second time without effect |
| BackPatch.PosMarker.WriteBack | crates/smb-dtyp/src/binrw_util/pos_marker.rs:122-154 | wherever the writer is, filling in succeeds exactly when the marker was written and the number fits, changes only the marker's bytes and restores the position |
| BackPatch.FillOffset | crates/smb-dtyp/src/binrw_util/pos_marker.rs:157-192 | the offset marker receives start - base + plus, the position is restored, and it fails exactly when a marker was never written or the number does not fit |
| BackPatch.WriteHero | crates/smb-dtyp/src/binrw_util/pos_marker.rs:157-192 | anywhere in a stream, only the two marker fields and the place of the value change; they hold start - base + plus and length + plus; the writer ends behind the value; it fails exactly when a number does not fit or a marker is missing |
| BackPatch.WriteStruct | crates/smb-dtyp/src/binrw_util/pos_marker.rs:86-192 | for any nesting of structs, anywhere in a stream, the single pass writes what the two-pass encoder writes, leaves what lies before and behind alone, and fails exactly when that encoder has no answer |
| BackPatch.WriteField | crates/smb-dtyp/src/binrw_util/pos_marker.rs:86-105 | anywhere in a stream one field has the effect the layout says, markers included |
| BackPatch.WriteValue | crates/smb-dtyp/src/binrw_util/pos_marker.rs:283-312 | anywhere in a stream a value with size and offset markers relative to a base marker fills exactly those |
| ChainedList.WriteList | crates/smb-fscc/src/chained_list.rs:67-113 | wherever the writer is, the loop writes exactly the list format; the padding between entries keeps what lay there, and nothing before or behind the list changes |
| ChainedList.WriteEntry | crates/smb-fscc/src/chained_list.rs:73-110 | one round writes the entry, patches its link and skips the padding, wherever the writer is |
| ChainedList.ReadList | crates/smb-fscc/src/chained_list.rs:123-167 | on every finite stream the reader terminates with what following the links says |
| ChainedList.CountBound | crates/smb-fscc/src/chained_list.rs:140-165 | an accepted list of a hostile stream has at most (end - start - 4) / pad + 1 items |
| ChainedList.ReadBack | crates/smb-fscc/src/chained_list.rs:123-167 | a written list that starts aligned is read back item for item, whatever lies around it and under its padding |
| ChainedList.RoundTrip | crates/smb-fscc/src/chained_list.rs:67-167 | for self-delimiting items and links that fit, whatever lies around and under it, the list is read back exactly when it starts aligned, and an empty one exactly at the end of the stream |
| ChainedList.FirstLink | crates/smb-fscc/src/chained_list.rs:94-110 | a link holds the distance exactly when that fits 32 bits, and zero in the last entry |
| ChainedList.LinkAt | crates/smb-fscc/src/chained_list.rs:88-110 | for every entry of the list: the last link is 0, every other one leads to the next entry and is a positive multiple of the padding when the list starts aligned |
| CreateContexts.LayoutLaidOut | crates/smb-msg/src/create.rs:326-360 | the marker numbers of a context, and exactly when they fit |
| CreateContexts.LayoutEncodes | crates/smb-msg/src/create.rs:326-360 | the marker-based layout comes out as the closed form of the context's bytes |
| CreateContexts.ContextDelimits | crates/smb-msg/src/create.rs:326-360 | a context that fits its fields is read back from between any two stretches of bytes |
| CreateContexts.ContextsRoundTrip | crates/smb-msg/src/create.rs:309-360 | a list of representable contexts, anywhere in a stream, is read back as written exactly when it starts at a multiple of eight, and an empty one exactly at the end of the stream |
| CompressedLayout.Code | crates/smb-msg/src/negotiate.rs:399-409 | the algorithm codes are distinct and recognised |
| CompressedLayout.ItemReads | crates/smb-msg/src/compressed.rs:114-132 | a written item reads back as itself and leaves what follows |
| CompressedLayout.ItemsRead | crates/smb-msg/src/compressed.rs:86-92 | a written sequence of items reads back as itself |
| CompressedLayout.ChainedAsUnchained | crates/smb-msg/src/compressed.rs:18-66 | a chained message is mistaken for an unchained one exactly when its first item is compressed and has no flags |
| CompressedLayout.ChainedRoundTrip | crates/smb-msg/src/compressed.rs:18-132 | a chained message reads back as itself exactly when it has no items, or its first item is stored or has a flag set |
| CompressedLayout.UnchainedRoundTrip | crates/smb-msg/src/compressed.rs:48-66 | every unchained message that can be written reads back as itself |
| Compression.PatternCompress | crates/smb/src/compression.rs:419-437 | PatternV1 accepts exactly the non-empty runs of one byte |
| Compression.PatternRoundTrip | crates/smb/src/compression.rs:397-437 | a run survives PatternV1 exactly when its length fits 32 bits |
| Compression.DecompressItem | crates/smb/src/compression.rs:219-236 | one round of the loop appends the item's expansion, or fails with the error that the item's kind, its size or the announced total calls for |
| Compression.DecompressAll | crates/smb/src/compression.rs:211-244 | the loop succeeds exactly when all items expand to the announced total, and returns their concatenation; otherwise the error is that of the first item to fail, or of the total |
| Compression.ChainedDecompress | crates/smb/src/compression.rs:205-245 | chained decompression succeeds exactly on chained messages with a meaning, and returns that meaning, of exactly the announced size; otherwise it says which check failed first |
| Compression.ExpansionsGrow | crates/smb/src/compression.rs:219-228 | an early excess over the announced size can never be undone by later items |
| Compression.ChainedCompress | crates/smb/src/compression.rs:247-329 | short data is refused; otherwise the header is stored and the rest takes the first of LZ4, PatternV1 and storage that applies |
| Compression.ChosenExpands | crates/smb/src/compression.rs:268-323 | whichever representation is chosen expands to the data it stands for |
| Compression.ChainedRoundTripIff | crates/smb/src/compression.rs:205-329 | for every algorithm list, chained decompression of chained compression returns the data exactly when its length fits 32 bits |
| Compression.ChainedFormSurvives | crates/smb-msg/src/compressed.rs:84-132 | everything chained compression emits survives being written and read |
| Compression.UnchainedRoundTripIff | crates/smb/src/compression.rs:163-200 | unchained decompression of unchained compression returns the data exactly when its length fits 32 bits |
| Compression.Compress | crates/smb/src/compression.rs:70-76 | the negotiated capability decides the form |
| Compression.Decompress | crates/smb/src/compression.rs:24-55 | success needs the size limit, the capability, a meaning and a parsable response; the result has exactly the announced size; an oversized announcement is refused first |
| Compression.ConnectionRoundTrip | crates/smb/src/compression.rs:24-76 | whatever was negotiated and however long the data, compressing, writing, reading and decompressing returns the data exactly when it fits a frame of 2^24-1 bytes; what fits 32 bits survives writing and reading |
| Compression.CompressTransform | crates/smb/src/compression.rs:83-125 | the arena is `prefix` zeros and the unchained message; it fails exactly without LZ4, beyond 32 bits or on overflow |
| Compression.TransformRoundTrip | crates/smb/src/compression.rs:83-125 | the arena behind the prefix reads as unchained and stands for the input |
| SessionRecovery.TaskEffect | crates/smb/src/session.rs:440-544 | what any step of a recovery task does to the mutex, the flag, the setups and the other tasks |
| SessionRecovery.MutexKept | crates/smb/src/session.rs:444-452 | every event keeps the mutex held by one task and the flag up exactly in its flagged part |
| SessionRecovery.PermitsKept | crates/smb/src/session.rs:403-417 | every event keeps free permits plus permits of unfinished tasks equal to the capacity |
| SessionRecovery.IdsKept | crates/smb/src/session.rs:445-449 | every event keeps the current id unreplaced and every candidate id new |
| SessionRecovery.ReplacedOnceKept | crates/smb/src/session.rs:524-531 | every event keeps the replacements one chain of distinct ids ending at the current session |
| SessionRecovery.InvariantHolds | crates/smb/src/session.rs:390-544 | in every interleaving of any number of waiters, direct callers, failing attempts, timeouts and drops: the flag is up only while the mutex is held, permits are conserved, and each session id is replaced at most once |
| SessionRecovery.SetupIsForCurrent | crates/smb/src/session.rs:445-492 | every SessionSetup is begun by the mutex holder for the session that is current and not superseded |
| SessionRecovery.SupersededNeverSetsUp | crates/smb/src/session.rs:447-449 | once the id a task expects has been superseded, that task never begins a SessionSetup again |
| SessionRecovery.AttemptsBounded | crates/smb/src/session.rs:468-507 | in every interleaving no task begins more SessionSetup exchanges than the policy allows attempts |
| SessionRecovery.TaskProgresses | crates/smb/src/session.rs:476-507 | every step of a task brings it closer to its end and moves no other task, so no task retries forever |
| SessionRecovery.NeverStuck | crates/smb/src/session.rs:440-544 | while any task is unfinished, some task can take a step of its own |
| SessionRecovery.WaitersServedAlways | crates/smb/src/session.rs:390-438 | the task a waiter waits for recovers the id the waiter saw and owns a permit |
| TreeRecovery.TaskEffect | crates/smb/src/tree.rs:211-275 | what any step of a reconnect call does to the mutex, the flag, its reading and the published connections |
| TreeRecovery.TasksKept | crates/smb/src/tree.rs:211-275 | every event keeps the mutex discipline, the time windows of readings and the newness of share tokens |
| TreeRecovery.ClosingKept | crates/smb/src/tree.rs:478-491 | every event keeps at most one disconnect on its way or sent, and none before the tree is closed |
| TreeRecovery.InvariantHolds | crates/smb/src/tree.rs:211-337 | all share recovery invariants hold in every interleaving of reconnects, session replacements, preparations and closes |
| TreeRecovery.NoPrepareAfterClose | crates/smb/src/tree.rs:322-337 | once the tree is closed, a preparation that had not passed its check by then never succeeds, whenever it began |
| TreeRecovery.PrepareAfterCloseIff | crates/smb/src/tree.rs:322-337 | a preparation can still succeed on a closed tree exactly when it had passed its check before |
| TreeRecovery.LoadsAfterClose | crates/smb/src/tree.rs:322-337 | that happens: a preparation checks, the tree is closed, and the preparation loads its connection |
| TreeRecovery.OneDisconnect | crates/smb/src/tree.rs:478-491 | at most one TreeDisconnect is issued, and only on a closed tree |
| TreeRecovery.PublishedSessionWasCurrent | crates/smb/src/tree.rs:216-272 | every published connection names a session token that was current at some moment of the call that published it |
| TreeRecovery.ClosedStopsRecovery | crates/smb/src/tree.rs:213-272 | once the tree is closed at most one more connection is ever published, by a call that had confirmed before the close |
| ResourceRecovery.MoveValid | crates/smb/src/resource.rs:553-651 | every step of a use keeps what it knows about shares true of the handle, which only moves to newer shares |
| ResourceRecovery.MoveMutex | crates/smb/src/resource.rs:561-561 | every step keeps the handle's mutex with the use that is recovering it |
| ResourceRecovery.UseKeepsRecords | crates/smb/src/resource.rs:611-636 | every step keeps the record of reopened handles and given-out file ids truthful |
| ResourceRecovery.InvariantHolds | crates/smb/src/resource.rs:542-651 | all handle invariants hold in every interleaving of uses, share replacements and drops |
| ResourceRecovery.YieldedIsCurrent | crates/smb/src/resource.rs:542-551 | every file id given out belongs to a share that was current at some moment of that use |
| ResourceRecovery.ReopenedIsCurrent | crates/smb/src/resource.rs:574-637 | every reopened durable handle names the share that was current at the moment of that use when the server reopened the file |
| ResourceRecovery.ClosedOnce | crates/smb/src/resource.rs:1003-1016 | at most one caller sends the close |
| ResourceRecovery.NonDurableStays | crates/smb/src/resource.rs:558-560 | without a durable grant a handle belongs to one share for all of its life |
| ResourceRecovery.StaleNeverYields | crates/smb/src/resource.rs:430-434 | once the share of a handle without durable grant was replaced, no use that had not matched the old share by then ever yields its file id, whenever it began |
| ResourceRecovery.StaleYieldsIff | crates/smb/src/resource.rs:542-560 | such a handle can still yield to a use exactly when that use had read the handle's own share before the replacement |
| ResourceRecovery.YieldsAfterReplacement | crates/smb/src/resource.rs:542-560 | that happens: a use reads the share, the share is replaced, and the use yields the old file id |
| MemoryCounters.AccessKeepsBounds | crates/smb-tests/src/memory.rs:104-113 | every atomic access keeps the candidates bounded and never lowers the peak |
| MemoryCounters.AccessKeepsAccount | crates/smb-tests/src/memory.rs:104-113 | every atomic access leaves the highest value recorded or in the hands of a running call |
| MemoryCounters.PeakHolds | crates/smb-tests/src/memory.rs:48-74 | in every interleaving the highest value is recorded or about to be |
| MemoryCounters.PeakIsHighest | crates/smb-tests/src/memory.rs:48-74 | once all calls finished, the recorded peak is the largest value the live counter ever held, spurious failures included, and wrap-around as the release build does it |
| MemoryCounters.PeakNeverFalls | crates/smb-tests/src/memory.rs:104-113 | the peak never decreases and never exceeds what was reached |
| MemoryCounters.RunBalances | crates/smb-tests/src/memory.rs:48-74 | at every moment live bytes are allocated less freed bytes, up to what running calls still owe |
| MemoryCounters.LiveIsConserved | crates/smb-tests/src/memory.rs:56-74 | once all calls finished, live bytes are allocated less freed bytes, as long as nothing wrapped and no subtraction was cut off at zero |
| ManualClock.SaturatingAdd | crates/smb/src/clock.rs:13-16 | adding a duration never goes back and stops at the largest time |
| ManualClock.InsertInOrder | crates/smb/src/clock.rs:157-157 | inserting keeps the map ordered and displaces only an equal key |
| ManualClock.RemoveInOrder | crates/smb/src/clock.rs:184-184 | removing keeps the map ordered and removes only that key |
| ManualClock.DueIsPrefix | crates/smb/src/clock.rs:119-123 | the due sleepers are exactly the first ones of the ordered map |
| ManualClock.Clock.constructor | crates/smb/src/clock.rs:94-96 | a clock starts at zero with nobody asleep |
| ManualClock.Clock.ReadyKeys | crates/smb/src/clock.rs:119-123 | the keys of all due sleepers, in order |
| ManualClock.Clock.AdvanceTo | crates/smb/src/clock.rs:109-134 | going back is refused without effect; otherwise the due sleepers are removed and woken once each in order, and all others stay |
| ManualClock.Clock.SleepUntil | crates/smb/src/clock.rs:145-164 | a passed deadline registers nothing; any other registers under the next number, which saturates |
| ManualClock.Clock.DropSleep | crates/smb/src/clock.rs:181-187 | dropping removes exactly that registration |
| ManualClock.InvariantHolds | crates/smb/src/clock.rs:109-187 | over every run with at most 2^64 registrations: pending deadlines lie after now, those taken out to be woken had become due and were taken out in deadline-then-registration order without repeats, and no sleep that was not dropped is lost |
| ManualClock.AdvanceWakesDue | crates/smb/src/clock.rs:118-132 | an advance wakes exactly the pending sleepers due by its target and leaves exactly the others |
| ManualClock.TimeNeverGoesBack | crates/smb/src/clock.rs:115-118 | time never goes back |
| ManualClock.DisplacedIff | crates/smb/src/clock.rs:153-157 | of two sleeps for one deadline the second displaces the first exactly when registration numbers have run out |
| WakeUps.SendsInSequence | crates/smb/src/clock.rs:129-132 | in every interleaving of advances and sends, each send of an advance is for the next of the sleepers it took out |
| WakeUps.AdvanceDeliversInOrder | crates/smb/src/clock.rs:124-132 | in every interleaving what an advance has sent so far is a prefix of what it took out, in that order |
| WakeUps.BatchesAscend | crates/smb/src/clock.rs:118-128 | what advances take out ascends by deadline and registration, within each advance and from one to the next |
| WakeUps.DeliveredInOrderIff | crates/smb/src/clock.rs:109-134 | in every interleaving nobody is sent to twice, and all sends together follow deadline and registration order exactly when no advance sends after a later one did |
| WakeUps.OverlapReorders | crates/smb/src/clock.rs:129-132 | that fails: two advances overlap, and the sleeper with the later deadline is sent to first |
| WakeUps.NobodyLostOnTheWay | crates/smb/src/clock.rs:109-134 | in every interleaving a sleep that was not dropped is pending, was sent to, or is still to be sent to by the advance that took it out |
| Provisioning.MayDeleteIff | crates/smb-tests/src/ontap.rs:456-483 | deletion is allowed exactly for a created or ready resource, and for a volume only while no share or snapshot is disowned |
| Provisioning.World.Ask | crates/smb-tests/src/ontap.rs:760-773 | a call to the appliance turns out as the given replies say, whatever they are, is logged and leaves the manifest file alone |
| Provisioning.World.Write | crates/smb-tests/src/ontap.rs:646-683 | persisting replaces the manifest file or leaves it as it was, as the given replies say; it keeps the log safe exactly when nothing recorded is lost |
| Provisioning.Run.Create | crates/smb-tests/src/ontap.rs:542-561 | a run starts with nothing created, persisted, and never over an existing manifest, which is refused without a call; without one it succeeds when nobody refuses |
| Provisioning.Run.Load | crates/smb-tests/src/ontap.rs:563-578 | loading takes over exactly what the manifest file holds, the order of its mutations included |
| Provisioning.Run.Commit | crates/smb-tests/src/ontap.rs:635-644 | memory advances only after persisting succeeded, however old the manifest is; the log stays safe exactly when the new content keeps what the file records |
| Provisioning.Run.Record | crates/smb-tests/src/ontap.rs:406-432 | a resource moves only from an allowed state, and only after that was persisted, however old the manifest is; a recorded mismatch or mutation is overwritten exactly when the manifest does not know it |
| Provisioning.Run.RecordMutation | crates/smb-tests/src/ontap.rs:624-633 | a mutation is recorded at most once, and only after that was persisted, however old the manifest is; it breaks the unmount-before-offline order exactly when it is an offline whose unmount is not recorded, and overwrites records exactly when the manifest with it does not contain them |
| Provisioning.Run.VerifyOwned | crates/smb-tests/src/ontap.rs:892-905 | a disowned resource is recorded as such; only a confirmed one goes on |
| Provisioning.Run.Perform | crates/smb-tests/src/ontap.rs:924-957 | a volume step is done unless recorded, then recorded, and an offline record always follows an unmount record |
| Provisioning.Run.TakeOffline | crates/smb-tests/src/ontap.rs:917-957 | success leaves both the unmount and the offline recorded |
| Provisioning.Run.DeleteOwned | crates/smb-tests/src/ontap.rs:906-970 | a resource just found to be ours is deleted and recorded, or left as it was |
| Provisioning.Run.CleanupOne | crates/smb-tests/src/ontap.rs:887-971 | one round deletes the resource, disowns it or leaves it, and succeeds whenever deletion is allowed and nobody refuses |
| Provisioning.Run.CleanupResources | crates/smb-tests/src/ontap.rs:884-973 | without errors nothing is left created or ready, and there are none when nobody refuses and no child is disowned |
| Provisioning.Run.Cleanup | crates/smb-tests/src/ontap.rs:805-812 | success means nothing is left created or ready |
| Provisioning.Run.CreateSnapshot | crates/smb-tests/src/ontap.rs:814-835 | a planned or deleted snapshot becomes ready or the call fails, and is ready when nobody refuses; in any other state the call fails without a call to the appliance; no other resource changes; memory runs ahead of the file only by the reset |
| Provisioning.Run.DeleteSnapshot | crates/smb-tests/src/ontap.rs:837-848 | the snapshot is deleted, disowned or left as it was, and is deleted when that is allowed and nobody refuses; when it is not allowed, nobody is asked |
| Provisioning.Run.Provision | crates/smb-tests/src/ontap.rs:850-882 | success means everything but the snapshot is ready, and a fresh run succeeds when nobody refuses |
| Provisioning.Run.Apply | crates/smb-tests/src/ontap.rs:786-803 | an unauthorised run touches nothing; a failed one that cleans up without errors leaves nothing created or ready |
| Provisioning.CleanupOrder | crates/smb-tests/src/ontap.rs:434-454 | cleanup visits every created or ready resource, once, and nothing else |
| Provisioning.OrderBreaksIff | crates/smb-tests/src/ontap.rs:624-633 | one more record breaks the unmount-before-offline order exactly when it is an offline whose unmount is not recorded |
| Provisioning.KnowsIff | crates/smb-tests/src/ontap.rs:635-644 | recording a new state loses no recorded mismatch or mutation exactly when the manifest in memory knows all that the file records |
| Provisioning.OldManifestForgets | crates/smb-tests/src/ontap.rs:624-644 | it can lose them: with two manifests of one file, a mismatch recorded by one is overwritten by the next record of the other |
| Provisioning.Operate | crates/smb-tests/src/ontap.rs:542-848 | each operation of the provisioner does what it is for: its effect on the manifest, when it is refused without a call, and when it is bound to succeed because nobody refuses; it keeps the log safe, and the order intact unless it directly records an offline too early |
| Provisioning.Operations | crates/smb-tests/src/ontap.rs:542-973 | after any sequence of operations, failures and reloads, each of which had its own effect: every delete was for a resource on record as ours and just verified as ours, a volume with unmount and offline on record; recorded mismatches and mutations stay recorded; after a recorded share or snapshot mismatch no volume was touched; memory ran ahead of the file only by the reset of a deleted snapshot; and every volume delete followed the record of its unmount and then that of its offline, unless an offline was directly recorded too early |
| Provisioning.AgreedPlanIsReady | crates/smb-tests/src/ontap.rs:786-803 | creating a manifest and applying it ends with everything but the snapshot ready, in memory and on file, when nobody refuses |
| Provisioning.DirectOfflineBreaksOrder | crates/smb-tests/src/ontap.rs:624-633 | that happens, for replies that are all yes: recording an offline right after creating the manifest puts it before its unmount |

## Left out

- Negotiation, authentication, tracing, task spawning and sockets: plumbing over libraries that are not part of the repository.
- LZ4, AES, HMAC and SHA: only the LZ4 contract stated above is used; signatures are arbitrary numbers.
- `CompressedMessage::total_size` (crates/smb-msg/src/compressed.rs:27-38): it counts 4 bytes per chained item where the layout has 8 or 12, so the length is taken from the layout.
- Fixed-layout structures, DFS referrals and the text form of identifiers: they would only add easy members.
- Payload ownership (no copying, shared buffers): the model has values, so it says which bytes are sent, not who owns them.
- Debug assertions of the decompressors (no announced size for stored and PatternV1 items): the model follows the release build.
- CompressedLayout.ItemReads: an item whose length field is too small for its size field is treated as invalid when read; the release build would take the rest of the stream instead.
- Arena.Encode: the exact-length check on the request iterator has no counterpart, because a sequence always knows its length; the kinds of failure inside one member are one error.
- BackPatch.WriteHero: a base marker or a marker to be filled in that lies behind the value, and overflow of 64-bit stream positions, are not modelled.
- BackPatch.WriteStruct: a number that is too big for its marker fails the whole write; what a failed write leaves in the stream is not described.
- ChainedList.WriteList: item encoding is a total function of the item and its position; a failing item codec and big-endian lists are not modelled.
- CreateContexts.ContextDelimits: context data are raw bytes, and offsets below four bytes are treated as invalid.
- CreateContexts.ContextsRoundTrip: context data are raw bytes, as above; the typed payloads behind the context names are fixed-layout structures.
- SessionRecovery.InvariantHolds: errors of a waiter before it queues are the same event as giving up; what happens inside the object registry is not modelled. A waiter that arrives after the new session is stored and before the flag is lowered repeats the setup, so nothing stronger than one replacement per superseded id is claimed.
- TreeRecovery.InvariantHolds: the permits of share recovery follow the same protocol as those of session recovery and are not repeated.
- ResourceRecovery.InvariantHolds: waiting for the share is any delay that ends with a reading or an error; back-off delays and oplock slots are not modelled.
- MemoryCounters.LiveIsConserved: the call counters and the retained-payload counter, which use the same two loops, are not modelled.
- ManualClock.InvariantHolds: the order is that of taking sleepers out of the queue, sends being steps of their own in `WakeUps`; a poisoned lock is not modelled.
- WakeUps.NobodyLostOnTheWay: an advance that is itself dropped between two sends drops its remaining senders, which also completes those sleeps; that is not modelled, nor is when a woken task is scheduled.
- MemoryCounters.PeakIsHighest: the additions to the loaded value panic on overflow in a build with overflow checks; the model follows the release build.
- Provisioning.World.Write: persisting is one step that succeeds or fails; file-system durability inside it is not modelled.
- Provisioning.Run.Load: the manifest file holds what this program wrote; edited files, schema versions and metadata checks are not modelled.
- Provisioning.Operations: one manifest per file is live, and reloading replaces it; what an older one does to the records is in `Provisioning.KnowsIff` and `Provisioning.OldManifestForgets`. A mismatch that could not be recorded, and a share whose deletion failed, do not block the volume, in the program as in the model.
