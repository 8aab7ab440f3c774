/**
 * Open handles over a share that may be reconnected at any time. Every use of a handle first
 * checks that its share is current; a durable handle that is not gets reopened under the
 * handle's own mutex, with retries, while shares keep changing underneath.
 */
module ResourceRecovery {
  import opened Bytes

  // ----- state -----

  /** All share tokens so far, the current one last. */
  type Shares = s: seq<nat> | s != [] witness [0]

  /** A share token and the index at which it became current. */
  datatype Reading = Reading(share: nat, index: nat)

  function Current(shares: Shares): (r: Reading) {
    Reading(shares[|shares| - 1], |shares| - 1)
  }

  /** An open handle: the file id it stands for and the share that id belongs to. */
  datatype Handle = Handle(
    durable: bool, isOpen: bool, file: nat, share: Reading, mutex: Option<nat>, closes: nat)

  /** Where a use of a handle stands. */
  datatype Pc =
    | Begun
    | Checked                                          // found the handle open
    | Read(reading: Reading)                           // has read the current share
    | Queued                                           // waits for the handle's mutex
    | Holding(left: nat)                               // holds it, between attempts
    | Previous(previous: Reading, left: nat)           // has loaded what the handle stands for
    | Creating(reading: Reading, left: nat)            // a durable reconnect is in flight
    | Created(file: nat, reading: Reading, at: nat, left: nat)    // reopened while share `at` was current
    | Candidate(file: nat, reading: Reading, at: nat, left: nat)  // and the share was still current
    | Leaving(ok: bool)                                // about to release the mutex
    | Matched                                          // the handle is known to be current
    | Yielded(file: nat)
    | Failed

  predicate HoldsMutex(pc: Pc) {
    pc.Holding? || pc.Previous? || pc.Creating? || pc.Created? || pc.Candidate? || pc.Leaving?
  }

  predicate HasReading(pc: Pc) {
    pc.Read? || pc.Creating? || pc.Created? || pc.Candidate?
  }

  predicate IsCurrent(pc: Pc) {
    pc == Matched || pc == Leaving(true)
  }

  /** A use of a handle; `since` is the index of the share that was current when it began. */
  datatype Use = Use(handle: nat, closing: bool, since: nat, pc: Pc)

  /** A file id given out, with the time span of the use behind it. */
  datatype Record = Record(handle: nat, share: nat, since: nat, until: nat)

  /** A reopened handle: when the use began, and when the server reopened the file. */
  datatype Reopening = Reopening(handle: nat, share: nat, since: nat, at: nat)

  datatype State = State(
    shares: Shares, used: set<nat>, handles: map<nat, Handle>, uses: map<nat, Use>,
    given: seq<Record>, reopened: seq<Reopening>)

  ghost predicate Initial(s: State) {
    && |s.shares| == 1 && s.used == {s.shares[0]}
    && s.handles == map[] && s.uses == map[] && s.given == [] && s.reopened == []
  }

  // ----- steps -----

  datatype UseStep =
    | CheckOpen | ReadShare | ReadFails | Compare | Lock | LoadPrevious | ReadAgain
    | CreateSucceeds(file: nat) | CreateFails | Verify | Publish | Exhausted | Unlock | Finish | Drop

  datatype Event =
    | ReplaceShare(token: nat)
    | OpenHandle(handle: nat, durable: bool, file: nat, index: nat)
    | DropHandle(handle: nat)
    | BeginUse(use: nat, handle: nat, closing: bool)
    | OfUse(use: nat, step: UseStep)

  function Dropped(pc: Pc): (next: Pc) {
    if HoldsMutex(pc) then Leaving(false) else if pc.Yielded? then pc else Failed
  }

  /** Where a use of handle `h` goes from its position by a step, if it can take it. */
  function Move(attempts: nat, shares: Shares, h: Handle, use: Use, step: UseStep): (next: Option<Pc>) {
    var pc := use.pc;
    match step
    case CheckOpen => if pc == Begun then Some(if use.closing || h.isOpen then Checked else Failed) else None
    case ReadShare => if pc == Checked then Some(Read(Current(shares))) else None
    case ReadFails =>
      if pc == Checked then Some(Failed) else if pc.Previous? then Some(Holding(pc.left)) else None
    case Compare =>
      if !pc.Read? then None
      else if h.share.share == pc.reading.share then Some(Matched)
      else if h.durable then Some(Queued)
      else Some(Failed)
    case Lock => if pc == Queued && h.mutex == None then Some(Holding(attempts)) else None
    case LoadPrevious =>
      if pc.Holding? && pc.left > 0 then Some(Previous(h.share, pc.left - 1)) else None
    case ReadAgain =>
      if !pc.Previous? then None
      else if pc.previous.share == Current(shares).share then Some(Leaving(true))
      else Some(Creating(Current(shares), pc.left))
    case CreateSucceeds(file) => if pc.Creating? then Some(Created(file, pc.reading, |shares| - 1, pc.left)) else None
    case CreateFails =>
      if pc.Creating? || pc.Created? || pc.Candidate? then Some(Holding(pc.left)) else None
    case Verify =>
      if !pc.Created? then None
      else if Current(shares).share != pc.reading.share then Some(Holding(pc.left))
      else Some(Candidate(pc.file, pc.reading, pc.at, pc.left))
    case Publish => if pc.Candidate? then Some(Leaving(true)) else None
    case Exhausted => if pc == Holding(0) then Some(Leaving(false)) else None
    case Unlock => if pc.Leaving? then Some(if pc.ok then Matched else Failed) else None
    case Finish =>
      if pc != Matched then None
      else if use.closing && !h.isOpen then Some(Failed)
      else Some(Yielded(h.file))
    case Drop => Some(Dropped(pc))
  }

  predicate GivesOut(step: UseStep, pc: Pc) {
    step == Finish && pc.Yielded?
  }

  /** What the step does to the handle. */
  function Handled(h: Handle, u: nat, use: Use, step: UseStep, pc: Pc): (next: Handle)
    requires step == Publish ==> use.pc.Candidate?
  {
    h.(mutex := if step == Lock then Some(u) else if step == Unlock then None else h.mutex,
       file := if step == Publish then use.pc.file else h.file,
       share := if step == Publish then use.pc.reading else h.share,
       isOpen := if GivesOut(step, pc) && use.closing then false else h.isOpen,
       closes := if GivesOut(step, pc) && use.closing then h.closes + 1 else h.closes)
  }

  function Given(records: seq<Record>, shares: Shares, h: Handle, use: Use, step: UseStep, pc: Pc)
    : (next: seq<Record>)
  {
    if GivesOut(step, pc) then records + [Record(use.handle, h.share.share, use.since, |shares| - 1)] else records
  }

  function Reopened(reopened: seq<Reopening>, use: Use, step: UseStep): (next: seq<Reopening>)
    requires step == Publish ==> use.pc.Candidate?
  {
    if step == Publish
    then reopened + [Reopening(use.handle, use.pc.reading.share, use.since, use.pc.at)]
    else reopened
  }

  function UseNext(attempts: nat, s: State, u: nat, step: UseStep): (next: Option<State>)
    requires u in s.uses && s.uses[u].handle in s.handles
  {
    var use := s.uses[u];
    var h := s.handles[use.handle];
    match Move(attempts, s.shares, h, use, step)
    case None => None
    case Some(pc) =>
      Some(s.(
        uses := s.uses[u := use.(pc := pc)],
        handles := s.handles[use.handle := Handled(h, u, use, step, pc)],
        given := Given(s.given, s.shares, h, use, step, pc),
        reopened := Reopened(s.reopened, use, step)))
  }

  function Next(attempts: nat, s: State, e: Event): (next: Option<State>) {
    match e
    case ReplaceShare(token) =>
      if token in s.used then None
      else Some(s.(shares := s.shares + [token], used := s.used + {token}))
    case OpenHandle(h, durable, file, index) =>
      if h in s.handles || index >= |s.shares| then None
      else Some(s.(handles :=
        s.handles[h := Handle(durable, true, file, Reading(s.shares[index], index), None, 0)]))
    case DropHandle(h) =>
      if h in s.handles then Some(s.(handles := s.handles[h := s.handles[h].(isOpen := false)])) else None
    case BeginUse(u, h, closing) =>
      if u in s.uses || h !in s.handles then None
      else Some(s.(uses := s.uses[u := Use(h, closing, |s.shares| - 1, Begun)]))
    case OfUse(u, step) =>
      if u in s.uses && s.uses[u].handle in s.handles then UseNext(attempts, s, u, step) else None
  }

  datatype History = Start | Then(before: History, event: Event)

  function Advance(attempts: nat, s: State, e: Event): (next: State) {
    match Next(attempts, s, e)
    case None => s
    case Some(next) => next
  }

  /** The state after all events; one that is not enabled has no effect. */
  function Run(attempts: nat, s: State, h: History): (last: State) {
    match h
    case Start => s
    case Then(before, event) => Advance(attempts, Run(attempts, s, before), event)
  }

  // ----- invariants -----

  ghost predicate Distinct(shares: seq<nat>, used: set<nat>) {
    && (forall i, j :: 0 <= i < j < |shares| ==> shares[i] != shares[j])
    && (forall i :: 0 <= i < |shares| ==> shares[i] in used)
  }

  ghost predicate Names(shares: seq<nat>, r: Reading) {
    r.index < |shares| && shares[r.index] == r.share
  }

  ghost predicate HandleValid(shares: seq<nat>, h: Handle) {
    && Names(shares, h.share)
    && h.closes <= (if h.isOpen then 0 else 1)
  }

  /** What a use knows about shares, and about the handle it is using. */
  ghost predicate UseValid(shares: seq<nat>, use: Use, h: Handle) {
    && use.since < |shares|
    && (HasReading(use.pc) ==> Names(shares, use.pc.reading) && use.since <= use.pc.reading.index)
    && (IsCurrent(use.pc) || use.pc.Yielded? ==> use.since <= h.share.index)
    && (use.pc == Queued || HoldsMutex(use.pc) ==> h.durable)
    && (use.pc.Previous? ==> use.pc.previous == h.share)
    && (use.pc.Creating? || use.pc.Created? || use.pc.Candidate? ==>
      h.share.index < use.pc.reading.index)
    && (use.pc.Created? ==> use.pc.reading.index <= use.pc.at < |shares|)
    && (use.pc.Candidate? ==> use.pc.reading.index == use.pc.at)
  }

  ghost predicate CurrentDuring(shares: seq<nat>, r: Record) {
    && r.since <= r.until < |shares|
    && exists k :: r.since <= k <= r.until && shares[k] == r.share
  }

  ghost predicate RecordsValid(shares: seq<nat>, records: seq<Record>) {
    forall i :: 0 <= i < |records| ==> CurrentDuring(shares, records[i])
  }

  /** The handle was reopened on the share that was current when the server reopened the file. */
  ghost predicate ReopenedOn(shares: seq<nat>, r: Reopening) {
    r.since <= r.at < |shares| && shares[r.at] == r.share
  }

  ghost predicate ReopeningsValid(shares: seq<nat>, reopened: seq<Reopening>) {
    forall i :: 0 <= i < |reopened| ==> ReopenedOn(shares, reopened[i])
  }

  ghost predicate MutexHeld(handles: map<nat, Handle>, uses: map<nat, Use>) {
    && (forall u :: u in uses ==> uses[u].handle in handles)
    && (forall u :: u in uses ==>
      (HoldsMutex(uses[u].pc) <==> handles[uses[u].handle].mutex == Some(u)))
    && (forall h :: h in handles && handles[h].mutex.Some? ==>
      handles[h].mutex.value in uses && uses[handles[h].mutex.value].handle == h)
  }

  ghost predicate Invariant(s: State) {
    && Distinct(s.shares, s.used)
    && MutexHeld(s.handles, s.uses)
    && (forall h :: h in s.handles ==> HandleValid(s.shares, s.handles[h]))
    && (forall u :: u in s.uses ==> UseValid(s.shares, s.uses[u], s.handles[s.uses[u].handle]))
    && RecordsValid(s.shares, s.given)
    && ReopeningsValid(s.shares, s.reopened)
  }

  // ----- one step of a use -----

  lemma {:induction false} SameToken(shares: seq<nat>, used: set<nat>, a: Reading, b: Reading)
    requires Distinct(shares, used) && Names(shares, a) && Names(shares, b)
    ensures a.share == b.share <==> a.index == b.index
  {
  }

  lemma {:induction false} MoveValidHandle(
    attempts: nat, shares: Shares, h: Handle, u: nat, use: Use, step: UseStep, pc: Pc)
    requires HandleValid(shares, h) && UseValid(shares, use, h)
    requires Move(attempts, shares, h, use, step) == Some(pc)
    ensures var g := Handled(h, u, use, step, pc);
      && HandleValid(shares, g)
      && h.share.index <= g.share.index
      && g.durable == h.durable
      && (g.share != h.share ==> HoldsMutex(use.pc))
  {
  }

  lemma {:induction false} MoveValid(
    attempts: nat, shares: Shares, used: set<nat>, h: Handle, u: nat, use: Use, step: UseStep, pc: Pc)
    requires Distinct(shares, used) && HandleValid(shares, h) && UseValid(shares, use, h)
    requires Move(attempts, shares, h, use, step) == Some(pc)
    ensures var g := Handled(h, u, use, step, pc);
      && HandleValid(shares, g)
      && UseValid(shares, use.(pc := pc), g)
      && h.share.index <= g.share.index
      && g.durable == h.durable
      && (g.share != h.share ==> HoldsMutex(use.pc))
  {
    MoveValidHandle(attempts, shares, h, u, use, step, pc);
    SameToken(shares, used, h.share, Current(shares));
    if use.pc.Read? {
      SameToken(shares, used, h.share, use.pc.reading);
    }
  }

  lemma {:induction false} MoveMutex(
    attempts: nat, shares: Shares, h: Handle, u: nat, use: Use, step: UseStep, pc: Pc)
    requires Move(attempts, shares, h, use, step) == Some(pc)
    requires HoldsMutex(use.pc) <==> h.mutex == Some(u)
    ensures var g := Handled(h, u, use, step, pc);
      && (HoldsMutex(pc) <==> g.mutex == Some(u))
      && (g.mutex == h.mutex || (h.mutex == None && g.mutex == Some(u)) || (h.mutex == Some(u) && g.mutex == None))
  {
  }

  lemma {:induction false} OthersValid(shares: seq<nat>, other: Use, h: Handle, g: Handle)
    requires UseValid(shares, other, h) && h.share.index <= g.share.index
    requires g.durable == h.durable
    requires g.share != h.share ==> !HoldsMutex(other.pc)
    ensures UseValid(shares, other, g)
  {
  }

  lemma {:induction false} WasCurrent(shares: seq<nat>, r: Reading, record: Record)
    requires Names(shares, r) && record.share == r.share
    requires record.since <= r.index <= record.until < |shares|
    ensures CurrentDuring(shares, record)
  {
    assert shares[r.index] == record.share;
  }

  lemma {:induction false} UseKeepsValid(attempts: nat, s: State, u: nat, step: UseStep)
    requires Invariant(s)
    requires u in s.uses && UseNext(attempts, s, u, step).Some?
    ensures var n := UseNext(attempts, s, u, step).value;
      && (forall h :: h in n.handles ==> HandleValid(n.shares, n.handles[h]))
      && (forall v :: v in n.uses ==> n.uses[v].handle in n.handles)
      && (forall v :: v in n.uses ==> UseValid(n.shares, n.uses[v], n.handles[n.uses[v].handle]))
  {
    var n := UseNext(attempts, s, u, step).value;
    var use, pc := s.uses[u], n.uses[u].pc;
    var h, g := s.handles[use.handle], n.handles[use.handle];
    MoveValid(attempts, s.shares, s.used, h, u, use, step, pc);
    forall v | v in n.uses
      ensures n.uses[v].handle in n.handles
      ensures UseValid(n.shares, n.uses[v], n.handles[n.uses[v].handle])
    {
      if v != u && n.uses[v].handle == use.handle {
        assert n.uses[v] == s.uses[v];
        OthersValid(s.shares, s.uses[v], h, g);
      }
    }
  }

  lemma {:induction false} UseKeepsMutex(attempts: nat, s: State, u: nat, step: UseStep)
    requires MutexHeld(s.handles, s.uses)
    requires u in s.uses && UseNext(attempts, s, u, step).Some?
    ensures var n := UseNext(attempts, s, u, step).value;
      MutexHeld(n.handles, n.uses)
  {
    var n := UseNext(attempts, s, u, step).value;
    var use, pc := s.uses[u], n.uses[u].pc;
    MoveMutex(attempts, s.shares, s.handles[use.handle], u, use, step, pc);
  }

  lemma {:induction false} OneMoreRecord(shares: seq<nat>, records: seq<Record>, r: Record)
    requires RecordsValid(shares, records) && CurrentDuring(shares, r)
    ensures RecordsValid(shares, records + [r])
  {
  }

  lemma {:induction false} OneMoreReopening(shares: seq<nat>, reopened: seq<Reopening>, r: Reopening)
    requires ReopeningsValid(shares, reopened) && ReopenedOn(shares, r)
    ensures ReopeningsValid(shares, reopened + [r])
  {
  }

  /** What a use gives out was current at some moment since the use began. */
  lemma {:induction false} KeepsGiven(
    attempts: nat, records: seq<Record>, shares: Shares, h: Handle, use: Use, step: UseStep, pc: Pc)
    requires HandleValid(shares, h) && UseValid(shares, use, h) && RecordsValid(shares, records)
    requires Move(attempts, shares, h, use, step) == Some(pc)
    ensures RecordsValid(shares, Given(records, shares, h, use, step, pc))
  {
    if GivesOut(step, pc) {
      assert use.pc == Matched;
      var record := Record(use.handle, h.share.share, use.since, |shares| - 1);
      WasCurrent(shares, h.share, record);
      OneMoreRecord(shares, records, record);
    }
  }

  /** What is published was reopened on the share that was current then. */
  lemma {:induction false} KeepsReopened(shares: Shares, reopened: seq<Reopening>, h: Handle, use: Use, step: UseStep)
    requires UseValid(shares, use, h) && ReopeningsValid(shares, reopened)
    requires step == Publish ==> use.pc.Candidate?
    ensures ReopeningsValid(shares, Reopened(reopened, use, step))
  {
    if step == Publish {
      OneMoreReopening(shares, reopened, Reopening(use.handle, use.pc.reading.share, use.since, use.pc.at));
    }
  }

  lemma {:induction false} UseKeepsRecords(attempts: nat, s: State, u: nat, step: UseStep)
    requires Invariant(s)
    requires u in s.uses && UseNext(attempts, s, u, step).Some?
    ensures var n := UseNext(attempts, s, u, step).value;
      RecordsValid(n.shares, n.given) && ReopeningsValid(n.shares, n.reopened)
  {
    var use := s.uses[u];
    var h := s.handles[use.handle];
    KeepsGiven(attempts, s.given, s.shares, h, use, step, Move(attempts, s.shares, h, use, step).value);
    KeepsReopened(s.shares, s.reopened, h, use, step);
  }

  // ----- a new share -----

  lemma {:induction false} RecordsLast(shares: seq<nat>, token: nat, records: seq<Record>)
    requires RecordsValid(shares, records)
    ensures RecordsValid(shares + [token], records)
  {
    var longer := shares + [token];
    forall i | 0 <= i < |records|
      ensures CurrentDuring(longer, records[i])
    {
      var r := records[i];
      assert CurrentDuring(shares, r);
      var k :| r.since <= k <= r.until && shares[k] == r.share;
      assert longer[k] == r.share;
    }
  }

  lemma {:induction false} ReplaceKeeps(s: State, token: nat)
    requires Invariant(s) && token !in s.used
    ensures Invariant(s.(shares := s.shares + [token], used := s.used + {token}))
  {
    var longer := s.shares + [token];
    RecordsLast(s.shares, token, s.given);
    assert forall i :: 0 <= i < |s.shares| ==> longer[i] == s.shares[i];
  }

  // ----- every run -----

  lemma {:induction false} UseKeeps(attempts: nat, s: State, u: nat, step: UseStep)
    requires Invariant(s)
    requires u in s.uses && UseNext(attempts, s, u, step).Some?
    ensures Invariant(UseNext(attempts, s, u, step).value)
  {
    UseKeepsValid(attempts, s, u, step);
    UseKeepsMutex(attempts, s, u, step);
    UseKeepsRecords(attempts, s, u, step);
  }

  lemma {:induction false} OpenKeeps(s: State, h: nat, handle: Handle)
    requires Invariant(s) && h !in s.handles
    requires Names(s.shares, handle.share) && handle.isOpen && handle.closes == 0 && handle.mutex == None
    ensures Invariant(s.(handles := s.handles[h := handle]))
  {
  }

  lemma {:induction false} DropKeeps(s: State, h: nat)
    requires Invariant(s) && h in s.handles
    ensures Invariant(s.(handles := s.handles[h := s.handles[h].(isOpen := false)]))
  {
  }

  lemma {:induction false} BeginKeeps(s: State, u: nat, use: Use)
    requires Invariant(s) && u !in s.uses && use.handle in s.handles
    requires use.pc == Begun && use.since < |s.shares|
    ensures Invariant(s.(uses := s.uses[u := use]))
  {
  }

  lemma {:induction false} InvariantKept(attempts: nat, s: State, e: Event)
    requires Invariant(s)
    ensures Invariant(Advance(attempts, s, e))
  {
    if Next(attempts, s, e).Some? {
      match e
      case ReplaceShare(token) => ReplaceKeeps(s, token);
      case OpenHandle(h, durable, file, index) =>
        OpenKeeps(s, h, Handle(durable, true, file, Reading(s.shares[index], index), None, 0));
      case DropHandle(h) => DropKeeps(s, h);
      case BeginUse(u, h, closing) => BeginKeeps(s, u, Use(h, closing, |s.shares| - 1, Begun));
      case OfUse(u, step) => UseKeeps(attempts, s, u, step);
    }
  }

  /**
   * In every interleaving a handle's generation is changed only by the holder of its mutex,
   * every reopened handle and every file id given out belongs to a share that was current at
   * some moment of that use, and a handle is closed at most once.
   */
  lemma {:induction false} InvariantHolds(attempts: nat, s: State, h: History)
    requires Initial(s)
    ensures Invariant(Run(attempts, s, h))
  {
    if h != Start {
      InvariantHolds(attempts, s, h.before);
      InvariantKept(attempts, Run(attempts, s, h.before), h.event);
    }
  }

  /** Every file id given out belongs to a share that was current during the use. */
  lemma {:induction false} YieldedIsCurrent(attempts: nat, s: State, h: History, i: nat)
    requires Initial(s) && i < |Run(attempts, s, h).given|
    ensures CurrentDuring(Run(attempts, s, h).shares, Run(attempts, s, h).given[i])
  {
    InvariantHolds(attempts, s, h);
  }

  /** Every reopened durable handle names the share that was current when the file was reopened. */
  lemma {:induction false} ReopenedIsCurrent(attempts: nat, s: State, h: History, i: nat)
    requires Initial(s) && i < |Run(attempts, s, h).reopened|
    ensures ReopenedOn(Run(attempts, s, h).shares, Run(attempts, s, h).reopened[i])
  {
    InvariantHolds(attempts, s, h);
  }

  /** However many callers close a handle, one of them at most sends the close. */
  lemma {:induction false} ClosedOnce(attempts: nat, s: State, h: History, k: nat)
    requires Initial(s) && k in Run(attempts, s, h).handles
    ensures Run(attempts, s, h).handles[k].closes <= 1
  {
    InvariantHolds(attempts, s, h);
    assert HandleValid(Run(attempts, s, h).shares, Run(attempts, s, h).handles[k]);
  }

  // ----- handles that are not durable -----

  ghost predicate Stays(s: State, k: nat, h: Handle) {
    k in s.handles && s.handles[k].durable == h.durable && s.handles[k].share == h.share
  }

  lemma {:induction false} NonDurableStep(attempts: nat, s: State, e: Event, k: nat)
    requires Invariant(s) && k in s.handles && !s.handles[k].durable
    ensures Stays(Advance(attempts, s, e), k, s.handles[k])
  {
    if e.OfUse? && Next(attempts, s, e).Some? {
      var use := s.uses[e.use];
      assert UseValid(s.shares, use, s.handles[use.handle]);
    }
  }

  /** Without a durable grant a handle belongs to one share for all of its life. */
  lemma {:induction false} NonDurableStays(attempts: nat, s: State, later: History, k: nat)
    requires Invariant(s) && k in s.handles && !s.handles[k].durable
    ensures Invariant(Run(attempts, s, later))
    ensures Stays(Run(attempts, s, later), k, s.handles[k])
  {
    if later != Start {
      var before := Run(attempts, s, later.before);
      NonDurableStays(attempts, s, later.before, k);
      InvariantKept(attempts, before, later.event);
      NonDurableStep(attempts, before, later.event, k);
    }
  }

  /** The handle has no durable grant and its share has been replaced. */
  ghost predicate Stale(s: State, k: nat) {
    k in s.handles && !s.handles[k].durable && s.handles[k].share != Current(s.shares)
  }

  predicate GaveOut(s: State, k: nat, u: nat) {
    u in s.uses && s.uses[u].handle == k && s.uses[u].pc.Yielded?
  }

  /** The use yields in this continuation. */
  ghost predicate YieldsIn(attempts: nat, s: State, later: History, k: nat, u: nat) {
    GaveOut(Run(attempts, s, later), k, u)
  }

  /** The use has read the handle's own share, or has got past that check. */
  predicate HasMatched(s: State, k: nat, u: nat) {
    && u in s.uses && s.uses[u].handle == k && k in s.handles
    && var use := s.uses[u];
       || use.pc.Yielded?
       || ((use.pc == Matched || (use.pc.Read? && use.pc.reading.share == s.handles[k].share.share))
          && (use.closing ==> s.handles[k].isOpen))
  }

  lemma {:induction false} StaleMove(
    attempts: nat, shares: Shares, used: set<nat>, h: Handle, u: nat, use: Use, step: UseStep, pc: Pc)
    requires Distinct(shares, used) && HandleValid(shares, h) && UseValid(shares, use, h)
    requires !h.durable && h.share != Current(shares)
    requires Move(attempts, shares, h, use, step) == Some(pc)
    ensures var g := Handled(h, u, use, step, pc);
      && g.share == h.share && !g.durable && (g.isOpen ==> h.isOpen)
      && (pc.Yielded? ==> use.pc.Yielded? || (use.pc == Matched && (use.closing ==> h.isOpen)))
      && (pc == Matched ==> use.pc == Matched || (use.pc.Read? && use.pc.reading.share == h.share.share))
      && (pc.Read? && pc.reading.share == h.share.share ==> use.pc == pc)
  {
    SameToken(shares, used, h.share, Current(shares));
  }

  lemma {:induction false} StaleUseStep(attempts: nat, s: State, u: nat, step: UseStep, k: nat, v: nat)
    requires Invariant(s) && Stale(s, k) && !HasMatched(s, k, v)
    requires u in s.uses && UseNext(attempts, s, u, step).Some?
    ensures var n := UseNext(attempts, s, u, step).value;
      Stale(n, k) && !HasMatched(n, k, v)
  {
    var n := UseNext(attempts, s, u, step).value;
    var use := s.uses[u];
    if use.handle == k {
      assert UseValid(s.shares, use, s.handles[k]);
      StaleMove(attempts, s.shares, s.used, s.handles[k], u, use, step, n.uses[u].pc);
    }
  }

  lemma {:induction false} StaleStep(attempts: nat, s: State, e: Event, k: nat, v: nat)
    requires Invariant(s) && Stale(s, k) && !HasMatched(s, k, v)
    ensures var n := Advance(attempts, s, e);
      Stale(n, k) && !HasMatched(n, k, v)
  {
    if e.OfUse? && Next(attempts, s, e).Some? {
      StaleUseStep(attempts, s, e.use, e.step, k, v);
    }
  }

  /**
   * Once the share of a handle without durable grant has been replaced, no use that had not
   * matched that share before ever yields its file id or closes it, whenever it began.
   */
  lemma {:induction false} StaleNeverYields(attempts: nat, s: State, later: History, k: nat, u: nat)
    requires Invariant(s) && Stale(s, k) && !HasMatched(s, k, u)
    ensures var last := Run(attempts, s, later);
      Invariant(last) && Stale(last, k) && !HasMatched(last, k, u) && !GaveOut(last, k, u)
  {
    if later != Start {
      var before := Run(attempts, s, later.before);
      StaleNeverYields(attempts, s, later.before, k, u);
      InvariantKept(attempts, before, later.event);
      StaleStep(attempts, before, later.event, k, u);
    }
  }

  lemma {:induction false} MatchedCanYield(attempts: nat, s: State, k: nat, u: nat)
    returns (later: History)
    requires HasMatched(s, k, u)
    ensures YieldsIn(attempts, s, later, k, u)
  {
    later := Start;
    assert Run(attempts, s, Start) == s;
    if s.uses[u].pc.Read? {
      later := Then(Then(Start, OfUse(u, Compare)), OfUse(u, Finish));
      assert Run(attempts, s, Then(Start, OfUse(u, Compare))) == Advance(attempts, s, OfUse(u, Compare));
    } else if s.uses[u].pc == Matched {
      later := Then(Start, OfUse(u, Finish));
    }
  }

  lemma {:induction false} YieldsIff(attempts: nat, s: State, k: nat, u: nat)
    requires Invariant(s) && Stale(s, k)
    ensures (exists later :: YieldsIn(attempts, s, later, k, u)) <==> HasMatched(s, k, u)
  {
    if HasMatched(s, k, u) {
      var later := MatchedCanYield(attempts, s, k, u);
    } else {
      forall later
        ensures !YieldsIn(attempts, s, later, k, u)
      {
        StaleNeverYields(attempts, s, later, k, u);
      }
    }
  }

  /**
   * In every reachable state in which the share of a handle without durable grant has been
   * replaced, exactly the uses that had already matched that share can still yield.
   */
  lemma {:induction false} StaleYieldsIff(attempts: nat, s: State, h: History, k: nat, u: nat)
    requires Initial(s) && Stale(Run(attempts, s, h), k)
    ensures var now := Run(attempts, s, h);
      (exists later :: YieldsIn(attempts, now, later, k, u)) <==> HasMatched(now, k, u)
  {
    InvariantHolds(attempts, s, h);
    YieldsIff(attempts, Run(attempts, s, h), k, u);
  }

  lemma {:induction false} BeginsUse(attempts: nat, s: State, file: nat) returns (h: History)
    requires Initial(s)
    ensures Run(attempts, s, h)
      == s.(handles := map[0 := Handle(false, true, file, Current(s.shares), None, 0)],
            uses := map[0 := Use(0, false, 0, Begun)])
  {
    var open := Then(Start, OpenHandle(0, false, file, 0));
    assert Run(attempts, s, Start) == s;
    assert Run(attempts, s, open) == Advance(attempts, s, OpenHandle(0, false, file, 0));
    h := Then(open, BeginUse(0, 0, false));
  }

  lemma {:induction false} ReadsShare(attempts: nat, s: State, h: History, k: nat, u: nat) returns (more: History)
    requires var now := Run(attempts, s, h);
      && u in now.uses && now.uses[u].handle == k && now.uses[u].pc == Begun
      && k in now.handles && now.handles[k].isOpen
    ensures var now, next := Run(attempts, s, h), Run(attempts, s, more);
      && next.shares == now.shares && next.used == now.used && next.handles == now.handles
      && next.uses == now.uses[u := now.uses[u].(pc := Read(Current(now.shares)))]
  {
    var now, checked := Run(attempts, s, h), Then(h, OfUse(u, CheckOpen));
    assert Run(attempts, s, checked) == Advance(attempts, now, OfUse(u, CheckOpen));
    more := Then(checked, OfUse(u, ReadShare));
    assert now.handles[k := now.handles[k]] == now.handles;
  }

  /** That can happen: a use reads the share, the share is replaced, and the use still yields. */
  lemma {:induction false} YieldsAfterReplacement(attempts: nat, s: State, file: nat, token: nat)
    returns (h: History, later: History)
    requires Initial(s) && token !in s.used
    ensures var now := Run(attempts, s, h);
      Stale(now, 0) && !GaveOut(now, 0, 0) && YieldsIn(attempts, now, later, 0, 0)
  {
    var begun := BeginsUse(attempts, s, file);
    var read := ReadsShare(attempts, s, begun, 0, 0);
    h := Then(read, ReplaceShare(token));
    later := MatchedCanYield(attempts, Run(attempts, s, h), 0, 0);
  }
}
