/**
 * Share recovery as a transition system: sessions are replaced underneath a tree connection,
 * reconnect calls race for its mutex, commands are prepared against it and it may be closed or
 * disconnected by anyone at any time.
 */
module TreeRecovery {
  import opened Bytes
  import opened Locks

  // ----- state -----

  /** A tree connection: the session it was made on and the share token it got. */
  datatype Generation = Generation(session: nat, share: nat)

  /** A session token and the index at which it became current. */
  datatype Reading = Reading(session: nat, index: nat)

  /** Where a reconnect call stands. */
  datatype Pc =
    | Queued                                      // waits for the mutex
    | Locked                                      // holds the mutex
    | Open                                        // found the tree not closed
    | Read(reading: Reading)                      // has read the session token
    | Attempting(reading: Reading, left: nat)     // flag raised, between attempts
    | Connecting(reading: Reading, left: nat)     // a TreeConnect is in flight
    | Candidate(reading: Reading, share: nat)    // a new connection exists
    | Confirmed(reading: Reading, share: nat)    // and the tree was still not closed
    | Published                                   // the new connection is current
    | Unwinding                                   // gave up, flag still raised
    | Leaving                                     // flag lowered or never raised
    | Done

  predicate HoldsMutex(pc: Pc) {
    pc != Queued && pc != Done
  }

  predicate Flagged(pc: Pc) {
    pc.Attempting? || pc.Connecting? || pc.Candidate? || pc.Confirmed? || pc == Published || pc == Unwinding
  }

  predicate HasReading(pc: Pc) {
    pc.Read? || pc.Attempting? || pc.Connecting? || pc.Candidate? || pc.Confirmed?
  }

  predicate HasObject(pc: Pc) {
    pc.Candidate? || pc.Confirmed?
  }

  /** A reconnect call; `since` is the index of the session that was current when it began. */
  datatype Task = Task(since: nat, pc: Pc)

  /** A command being prepared: it checks that the tree is not closed, then loads the connection. */
  datatype Preparing = Begun | Passed | Refused | Loaded(generation: Generation)

  datatype Closing = Swapping | Issuing | Over

  /** A connection published by a call that began at session index `since` and ended by `until`. */
  datatype Publication = Publication(session: nat, since: nat, until: nat)

  /** All session tokens so far, the current one last. */
  type Sessions = s: seq<nat> | s != [] witness [0]

  /** All connections so far, the current one last. */
  type Generations = s: seq<Generation> | s != [] witness [Generation(0, 0)]

  datatype State = State(
    sessions: Sessions, generations: Generations, used: set<nat>,
    closed: bool, disconnects: nat, mutex: Option<nat>, recovering: bool,
    tasks: map<nat, Task>, prepares: map<nat, Preparing>, closings: map<nat, Closing>,
    publications: seq<Publication>)

  ghost predicate Initial(s: State) {
    && |s.sessions| == |s.generations| == 1
    && s.generations[0].session == s.sessions[0] && s.generations[0].share != s.sessions[0]
    && s.used == {s.sessions[0], s.generations[0].share}
    && !s.closed && s.disconnects == 0 && s.mutex == None && !s.recovering
    && s.tasks == map[] && s.prepares == map[] && s.closings == map[] && s.publications == []
  }

  function Last<T>(s: seq<T>): (last: T)
    requires s != []
  {
    s[|s| - 1]
  }

  // ----- steps -----

  datatype TaskStep =
    | Lock | Inspect | ReadSession | Decide | Begin | ConnectFails | ConnectSucceeds(share: nat)
    | GiveUp | Confirm | Publish | LowerFlag | Unlock | Drop

  datatype Event =
    | ReplaceSession(token: nat)
    | Call(task: nat)
    | OfTask(task: nat, step: TaskStep)
    | BeginPrepare(prepare: nat)
    | CheckClosed(prepare: nat)
    | LoadGeneration(prepare: nat)
    | BeginDisconnect(closing: nat)
    | SwapClosed(closing: nat)
    | IssueDisconnect(closing: nat)
    | DropContext

  function Dropped(pc: Pc): (next: Pc) {
    if Flagged(pc) then Unwinding else if HoldsMutex(pc) then Leaving else Done
  }

  function PublicationOf(s: State, task: Task): (p: Publication)
    requires task.pc.Confirmed?
  {
    Publication(task.pc.reading.session, task.since, |s.sessions| - 1)
  }

  /** Where a call goes from `pc` by a step, if it can take it. */
  function Move(attempts: nat, s: State, pc: Pc, step: TaskStep): (next: Option<Pc>) {
    match step
    case Lock => if pc == Queued && s.mutex == None then Some(Locked) else None
    case Inspect => if pc == Locked then Some(if s.closed then Leaving else Open) else None
    case ReadSession =>
      if pc == Open then Some(Read(Reading(Last(s.sessions), |s.sessions| - 1))) else None
    case Decide =>
      if !pc.Read? then None
      else if Last(s.generations).session == pc.reading.session then Some(Leaving)
      else Some(Attempting(pc.reading, attempts))
    case Begin =>
      if pc.Attempting? && pc.left > 0 then Some(Connecting(pc.reading, pc.left - 1)) else None
    case ConnectFails => if pc.Connecting? then Some(Attempting(pc.reading, pc.left)) else None
    case ConnectSucceeds(share) =>
      if pc.Connecting? && share !in s.used then Some(Candidate(pc.reading, share)) else None
    case GiveUp =>
      if pc == Open then Some(Leaving)
      else if pc.Attempting? && pc.left == 0 then Some(Unwinding)
      else None
    case Confirm =>
      if pc.Candidate? then Some(if s.closed then Unwinding else Confirmed(pc.reading, pc.share)) else None
    case Publish => if pc.Confirmed? then Some(Published) else None
    case LowerFlag => if pc == Published || pc == Unwinding then Some(Leaving) else None
    case Unlock => if pc == Leaving then Some(Done) else None
    case Drop => Some(Dropped(pc))
  }

  /** What the step does to the shared state while the call moves to `pc`. */
  function Perform(s: State, t: nat, step: TaskStep, pc: Pc): (next: State)
    requires t in s.tasks && (step == Publish ==> s.tasks[t].pc.Confirmed?)
  {
    var task := s.tasks[t];
    s.(tasks := s.tasks[t := task.(pc := pc)],
       mutex := if step == Lock then Some(t) else if step == Unlock then None else s.mutex,
       recovering :=
         if step == Decide && pc.Attempting? then true
         else if step == LowerFlag then false
         else s.recovering,
       used := if step.ConnectSucceeds? then s.used + {step.share} else s.used,
       generations :=
         if step == Publish then s.generations + [Generation(task.pc.reading.session, task.pc.share)]
         else s.generations,
       publications :=
         if step == Publish then s.publications + [PublicationOf(s, task)] else s.publications)
  }

  function TaskNext(attempts: nat, s: State, t: nat, step: TaskStep): (next: Option<State>)
    requires t in s.tasks
  {
    match Move(attempts, s, s.tasks[t].pc, step)
    case None => None
    case Some(pc) => Some(Perform(s, t, step, pc))
  }

  function Next(attempts: nat, s: State, e: Event): (next: Option<State>)
  {
    match e
    case ReplaceSession(token) =>
      if token in s.used then None
      else Some(s.(sessions := s.sessions + [token], used := s.used + {token}))
    case Call(t) =>
      if t in s.tasks then None else Some(s.(tasks := s.tasks[t := Task(|s.sessions| - 1, Queued)]))
    case OfTask(t, step) => if t in s.tasks then TaskNext(attempts, s, t, step) else None
    case BeginPrepare(p) =>
      if p in s.prepares then None else Some(s.(prepares := s.prepares[p := Begun]))
    case CheckClosed(p) =>
      if p in s.prepares && s.prepares[p] == Begun then
        Some(s.(prepares := s.prepares[p := if s.closed then Refused else Passed]))
      else None
    case LoadGeneration(p) =>
      if p in s.prepares && s.prepares[p] == Passed then
        Some(s.(prepares := s.prepares[p := Loaded(Last(s.generations))]))
      else None
    case BeginDisconnect(d) =>
      if d in s.closings then None else Some(s.(closings := s.closings[d := Swapping]))
    case SwapClosed(d) =>
      if d in s.closings && s.closings[d] == Swapping then
        Some(s.(closings := s.closings[d := if s.closed then Over else Issuing], closed := true))
      else None
    case IssueDisconnect(d) =>
      if d in s.closings && s.closings[d] == Issuing then
        Some(s.(closings := s.closings[d := Over], disconnects := s.disconnects + 1))
      else None
    case DropContext => Some(s.(closed := true))
  }

  datatype History = Start | Then(before: History, event: Event)

  function Advance(attempts: nat, s: State, e: Event): (next: State)
  {
    match Next(attempts, s, e)
    case None => s
    case Some(next) => next
  }

  /** The state after all events; one that is not enabled has no effect. */
  function Run(attempts: nat, s: State, h: History): (last: State)
  {
    match h
    case Start => s
    case Then(before, event) => Advance(attempts, Run(attempts, s, before), event)
  }

  // ----- what one step of a task changes -----

  /** A reading is either kept or taken now. */
  ghost predicate ReadingEffect(sessions: Sessions, before: Pc, after: Pc) {
    HasReading(after) ==>
      if HasReading(before) then after.reading == before.reading
      else after.reading == Reading(Last(sessions), |sessions| - 1)
  }

  ghost predicate ObjectEffect(used: set<nat>, now: set<nat>, before: Pc, after: Pc) {
    && used <= now
    && (HasObject(after) ==>
      if HasObject(before) then after.share == before.share
      else after.share !in used && after.share in now)
  }

  ghost predicate PublishEffect(s: State, t: nat, n: State)
    requires t in s.tasks
  {
    var task := s.tasks[t];
    || (n.generations == s.generations && n.publications == s.publications)
    || (task.pc.Confirmed?
       && n.tasks == s.tasks[t := task.(pc := Published)]
       && n.generations == s.generations + [Generation(task.pc.reading.session, task.pc.share)]
       && n.publications == s.publications + [PublicationOf(s, task)])
  }

  ghost predicate ControlEffect(s: State, t: nat, n: State) {
    && t in s.tasks && t in n.tasks
    && n.tasks == s.tasks[t := s.tasks[t].(pc := n.tasks[t].pc)]
    && n.sessions == s.sessions && n.closed == s.closed && n.disconnects == s.disconnects
    && n.prepares == s.prepares && n.closings == s.closings
    && MutexEffect(t, HoldsMutex(s.tasks[t].pc), HoldsMutex(n.tasks[t].pc), s.mutex, n.mutex)
    && FlagEffect(Flagged(s.tasks[t].pc), Flagged(n.tasks[t].pc), s.recovering, n.recovering)
  }

  ghost predicate DataEffect(s: State, t: nat, n: State) {
    && t in s.tasks && t in n.tasks
    && ReadingEffect(s.sessions, s.tasks[t].pc, n.tasks[t].pc)
    && ObjectEffect(s.used, n.used, s.tasks[t].pc, n.tasks[t].pc)
    && PublishEffect(s, t, n)
  }

  ghost predicate Effect(s: State, t: nat, n: State) {
    ControlEffect(s, t, n) && DataEffect(s, t, n)
  }

  lemma {:induction false} TaskControl(attempts: nat, s: State, t: nat, step: TaskStep)
    requires t in s.tasks && TaskNext(attempts, s, t, step).Some?
    ensures ControlEffect(s, t, TaskNext(attempts, s, t, step).value)
  {
  }

  lemma {:induction false} TaskData(attempts: nat, s: State, t: nat, step: TaskStep)
    requires t in s.tasks && TaskNext(attempts, s, t, step).Some?
    ensures DataEffect(s, t, TaskNext(attempts, s, t, step).value)
  {
  }

  lemma {:induction false} TaskEffect(attempts: nat, s: State, t: nat, step: TaskStep)
    requires t in s.tasks && TaskNext(attempts, s, t, step).Some?
    ensures Effect(s, t, TaskNext(attempts, s, t, step).value)
  {
    TaskControl(attempts, s, t, step);
    TaskData(attempts, s, t, step);
  }

  // ----- invariants -----

  ghost predicate MutexHeld(s: State) {
    && (s.mutex.Some? ==> s.mutex.value in s.tasks)
    && (forall t :: t in s.tasks ==> (HoldsMutex(s.tasks[t].pc) <==> s.mutex == Some(t)))
    && (s.recovering <==>
      s.mutex.Some? && s.mutex.value in s.tasks && Flagged(s.tasks[s.mutex.value].pc))
  }

  /** What a call has read was current at some moment since the call began. */
  ghost predicate InWindow(sessions: seq<nat>, task: Task) {
    && task.since < |sessions|
    && (HasReading(task.pc) ==>
      && task.since <= task.pc.reading.index < |sessions|
      && sessions[task.pc.reading.index] == task.pc.reading.session)
  }

  ghost predicate CurrentDuring(sessions: seq<nat>, p: Publication) {
    && p.since <= p.until < |sessions|
    && exists k :: p.since <= k <= p.until && sessions[k] == p.session
  }

  ghost predicate Windows(s: State) {
    && (forall t :: t in s.tasks ==> InWindow(s.sessions, s.tasks[t]))
    && (forall i :: 0 <= i < |s.publications| ==> CurrentDuring(s.sessions, s.publications[i]))
    && |s.generations| == |s.publications| + 1
    && (forall i :: 0 <= i < |s.publications| ==>
      s.generations[i + 1].session == s.publications[i].session)
  }

  ghost predicate ObjectsDistinct(generations: seq<Generation>) {
    forall i, j :: 0 <= i < j < |generations| ==> generations[i].share != generations[j].share
  }

  ghost predicate ObjectUnseen(generations: seq<Generation>, share: nat) {
    forall i :: 0 <= i < |generations| ==> generations[i].share != share
  }

  ghost predicate ObjectsFresh(s: State) {
    && ObjectsDistinct(s.generations)
    && (forall i :: 0 <= i < |s.generations| ==> s.generations[i].share in s.used)
    && (forall t :: t in s.tasks && HasObject(s.tasks[t].pc) ==>
      s.tasks[t].pc.share in s.used && ObjectUnseen(s.generations, s.tasks[t].pc.share))
  }

  function Issuers(closings: map<nat, Closing>): (issuers: set<nat>) {
    set d | d in closings && closings[d] == Issuing
  }

  /** At most one disconnect is on its way or sent, and only once the tree is closed. */
  ghost predicate DisconnectedOnce(s: State) {
    s.disconnects + |Issuers(s.closings)| <= if s.closed then 1 else 0
  }

  ghost predicate Invariant(s: State) {
    && MutexHeld(s) && Windows(s) && ObjectsFresh(s) && DisconnectedOnce(s)
  }

  lemma {:induction false} InitialHolds(s: State)
    requires Initial(s)
    ensures Invariant(s)
  {
    assert Issuers(s.closings) == {};
  }

  // ----- each invariant is kept -----

  lemma {:induction false} EffectKeepsMutex(s: State, t: nat, n: State)
    requires MutexHeld(s) && Effect(s, t, n)
    ensures MutexHeld(n)
  {
  }

  lemma {:induction false} EffectKeepsWindows(s: State, t: nat, n: State)
    requires Windows(s) && Effect(s, t, n)
    ensures Windows(n)
  {
    assert InWindow(s.sessions, s.tasks[t]);
    if n.publications != s.publications {
      var reading := s.tasks[t].pc.reading;
      var p := PublicationOf(s, s.tasks[t]);
      assert s.sessions[reading.index] == p.session;
      assert CurrentDuring(s.sessions, p);
    }
  }

  lemma {:induction false} OneMoreObject(generations: seq<Generation>, g: Generation)
    requires ObjectsDistinct(generations) && ObjectUnseen(generations, g.share)
    ensures ObjectsDistinct(generations + [g])
  {
  }

  lemma {:induction false} EffectKeepsObjects(s: State, t: nat, n: State)
    requires MutexHeld(s) && ObjectsFresh(s) && Effect(s, t, n)
    ensures ObjectsFresh(n)
  {
    if n.generations != s.generations {
      OneMoreObject(s.generations, Last(n.generations));
    }
  }

  lemma {:induction false} SessionKeepsWindows(s: State, token: nat)
    requires Windows(s)
    ensures Windows(s.(sessions := s.sessions + [token], used := s.used + {token}))
  {
    var longer := s.sessions + [token];
    assert forall i :: 0 <= i < |s.sessions| ==> longer[i] == s.sessions[i];
    forall i | 0 <= i < |s.publications|
      ensures CurrentDuring(longer, s.publications[i])
    {
      var p := s.publications[i];
      assert CurrentDuring(s.sessions, p);
      var k :| p.since <= k <= p.until && s.sessions[k] == p.session;
      assert longer[k] == p.session;
    }
  }

  lemma {:induction false} TaskKeepsTasks(attempts: nat, s: State, t: nat, step: TaskStep)
    requires Invariant(s) && t in s.tasks && TaskNext(attempts, s, t, step).Some?
    ensures var n := TaskNext(attempts, s, t, step).value;
      MutexHeld(n) && Windows(n) && ObjectsFresh(n)
  {
    var n := TaskNext(attempts, s, t, step).value;
    TaskEffect(attempts, s, t, step);
    EffectKeepsMutex(s, t, n);
    EffectKeepsWindows(s, t, n);
    EffectKeepsObjects(s, t, n);
  }

  lemma {:induction false} SessionKeepsTasks(s: State, token: nat)
    requires MutexHeld(s) && Windows(s) && ObjectsFresh(s)
    ensures var n := s.(sessions := s.sessions + [token], used := s.used + {token});
      MutexHeld(n) && Windows(n) && ObjectsFresh(n)
  {
    SessionKeepsWindows(s, token);
  }

  lemma {:induction false} CallKeepsTasks(s: State, t: nat)
    requires MutexHeld(s) && Windows(s) && ObjectsFresh(s) && t !in s.tasks
    ensures var n := s.(tasks := s.tasks[t := Task(|s.sessions| - 1, Queued)]);
      MutexHeld(n) && Windows(n) && ObjectsFresh(n)
  {
  }

  /** Preparing and closing leave the recovery tasks alone. */
  lemma {:induction false} SameTasks(s: State, n: State)
    requires MutexHeld(s) && Windows(s) && ObjectsFresh(s)
    requires n.mutex == s.mutex && n.recovering == s.recovering && n.tasks == s.tasks
    requires n.sessions == s.sessions && n.used == s.used
    requires n.generations == s.generations && n.publications == s.publications
    ensures MutexHeld(n) && Windows(n) && ObjectsFresh(n)
  {
  }

  lemma {:induction false} TasksKept(attempts: nat, s: State, e: Event)
    requires Invariant(s)
    ensures var n := Advance(attempts, s, e);
      MutexHeld(n) && Windows(n) && ObjectsFresh(n)
  {
    if Next(attempts, s, e).Some? {
      match e
      case OfTask(t, step) => TaskKeepsTasks(attempts, s, t, step);
      case ReplaceSession(token) => SessionKeepsTasks(s, token);
      case Call(t) => CallKeepsTasks(s, t);
      case _ => SameTasks(s, Advance(attempts, s, e));
    }
  }

  lemma {:induction false} IssuersChange(closings: map<nat, Closing>, d: nat, c: Closing)
    ensures var before, after := Issuers(closings), Issuers(closings[d := c]);
      |after| == |before| + (if c == Issuing && d !in before then 1 else 0)
        - (if c != Issuing && d in before then 1 else 0)
  {
    var before, after := Issuers(closings), Issuers(closings[d := c]);
    assert after == if c == Issuing then before + {d} else before - {d};
  }

  lemma {:induction false} ClosingKept(attempts: nat, s: State, e: Event)
    requires Invariant(s)
    ensures var n := Advance(attempts, s, e);
      DisconnectedOnce(n)
  {
    if Next(attempts, s, e).Some? {
      match e
      case OfTask(t, step) => TaskControl(attempts, s, t, step);
      case BeginDisconnect(d) => IssuersChange(s.closings, d, Swapping);
      case SwapClosed(d) => IssuersChange(s.closings, d, if s.closed then Over else Issuing);
      case IssueDisconnect(d) => IssuersChange(s.closings, d, Over);
      case _ =>
    }
  }

  // ----- every run -----

  lemma {:induction false} InvariantKept(attempts: nat, s: State, e: Event)
    requires Invariant(s)
    ensures Invariant(Advance(attempts, s, e))
  {
    TasksKept(attempts, s, e);
    ClosingKept(attempts, s, e);
  }

  /** All of the invariants hold in every interleaving. */
  lemma {:induction false} InvariantHolds(attempts: nat, s: State, h: History)
    requires Initial(s)
    ensures Invariant(Run(attempts, s, h))
  {
    if h == Start {
      InitialHolds(s);
    } else {
      var now := Run(attempts, s, h.before);
      InvariantHolds(attempts, s, h.before);
      InvariantKept(attempts, now, h.event);
    }
  }

  /** The preparation has passed the closed check. */
  predicate HasPassed(s: State, p: nat) {
    p in s.prepares && (s.prepares[p] == Passed || s.prepares[p].Loaded?)
  }

  predicate HasLoaded(s: State, p: nat) {
    p in s.prepares && s.prepares[p].Loaded?
  }

  /** The preparation succeeds in this continuation. */
  ghost predicate LoadsIn(attempts: nat, s: State, later: History, p: nat) {
    HasLoaded(Run(attempts, s, later), p)
  }

  lemma {:induction false} ClosedRefuses(attempts: nat, s: State, e: Event, p: nat)
    requires s.closed && !HasPassed(s, p)
    ensures Advance(attempts, s, e).closed && !HasPassed(Advance(attempts, s, e), p)
  {
    if e.OfTask? && Next(attempts, s, e).Some? {
      TaskControl(attempts, s, e.task, e.step);
    }
  }

  /** On a closed tree a preparation that has not passed the check never succeeds, whenever it began. */
  lemma {:induction false} NoPrepareAfterClose(attempts: nat, s: State, later: History, p: nat)
    requires s.closed && !HasPassed(s, p)
    ensures var last := Run(attempts, s, later);
      last.closed && !HasPassed(last, p) && !HasLoaded(last, p)
  {
    if later != Start {
      NoPrepareAfterClose(attempts, s, later.before, p);
      ClosedRefuses(attempts, Run(attempts, s, later.before), later.event, p);
    }
  }

  /** On a closed tree exactly the preparations that had passed the check can still succeed. */
  lemma {:induction false} PrepareAfterCloseIff(attempts: nat, s: State, p: nat)
    requires s.closed
    ensures (exists later :: LoadsIn(attempts, s, later, p)) <==> HasPassed(s, p)
  {
    if HasPassed(s, p) {
      var later := if s.prepares[p] == Passed then Then(Start, LoadGeneration(p)) else Start;
      assert Run(attempts, s, Start) == s;
      assert LoadsIn(attempts, s, later, p);
    } else {
      forall later
        ensures !LoadsIn(attempts, s, later, p)
      {
        NoPrepareAfterClose(attempts, s, later, p);
      }
    }
  }

  /** That can happen: a preparation passes the check, the tree is closed, and it loads after that. */
  lemma {:induction false} LoadsAfterClose(attempts: nat, s: State)
    requires Initial(s)
    ensures var open := Run(attempts, s, Then(Then(Start, BeginPrepare(0)), CheckClosed(0)));
      var shut := Run(attempts, open, Then(Then(Start, BeginDisconnect(0)), SwapClosed(0)));
      && shut.closed && !HasLoaded(shut, 0)
      && LoadsIn(attempts, shut, Then(Start, LoadGeneration(0)), 0)
  {
    var began := Advance(attempts, s, BeginPrepare(0));
    assert Run(attempts, s, Start) == s;
    assert Run(attempts, s, Then(Start, BeginPrepare(0))) == began;
    var open := Advance(attempts, began, CheckClosed(0));
    assert Run(attempts, open, Start) == open;
    var closing := Advance(attempts, open, BeginDisconnect(0));
    assert Run(attempts, open, Then(Start, BeginDisconnect(0))) == closing;
    var shut := Advance(attempts, closing, SwapClosed(0));
    assert Run(attempts, shut, Start) == shut;
  }

  /** However many callers disconnect, at most one TreeDisconnect is issued. */
  lemma {:induction false} OneDisconnect(attempts: nat, s: State, h: History)
    requires Initial(s)
    ensures Run(attempts, s, h).disconnects <= 1
    ensures Run(attempts, s, h).disconnects == 1 ==> Run(attempts, s, h).closed
  {
    InvariantHolds(attempts, s, h);
  }

  /**
   * Every connection published by recovery names a session that was current at some moment
   * between the beginning of the call that published it and its publication.
   */
  lemma {:induction false} PublishedSessionWasCurrent(attempts: nat, s: State, h: History, i: nat)
    requires Initial(s) && i + 1 < |Run(attempts, s, h).generations|
    ensures var now := Run(attempts, s, h);
      && i < |now.publications|
      && now.generations[i + 1].session == now.publications[i].session
      && CurrentDuring(now.sessions, now.publications[i])
  {
    InvariantHolds(attempts, s, h);
  }

  // ----- closing stops recovery -----

  predicate IsConfirmed(s: State) {
    s.mutex.Some? && s.mutex.value in s.tasks && s.tasks[s.mutex.value].pc.Confirmed?
  }

  /** Connections published so far, and the one that is about to be. */
  function Potential(s: State): (n: nat) {
    |s.generations| + if IsConfirmed(s) then 1 else 0
  }

  lemma {:induction false} ClosedTaskStep(attempts: nat, s: State, t: nat, step: TaskStep)
    requires MutexHeld(s) && s.closed
    requires t in s.tasks && TaskNext(attempts, s, t, step).Some?
    ensures var n := TaskNext(attempts, s, t, step).value;
      n.closed && Potential(n) <= Potential(s)
  {
    assert s.tasks[t].pc.Confirmed? ==> s.mutex == Some(t);
  }

  lemma {:induction false} ClosedStep(attempts: nat, s: State, e: Event)
    requires MutexHeld(s) && s.closed
    ensures Advance(attempts, s, e).closed && Potential(Advance(attempts, s, e)) <= Potential(s)
  {
    if e.OfTask? && Next(attempts, s, e).Some? {
      ClosedTaskStep(attempts, s, e.task, e.step);
    }
  }

  /**
   * Once the tree is closed at most one more connection is ever published, and only by a call
   * that had confirmed before the close.
   */
  lemma {:induction false} ClosedStopsRecovery(attempts: nat, s: State, h: History, later: History)
    requires Initial(s) && Run(attempts, s, h).closed
    ensures var now, last := Run(attempts, s, h), Run(attempts, Run(attempts, s, h), later);
      && Invariant(last) && last.closed
      && |last.generations| <= Potential(last) <= Potential(now) <= |now.generations| + 1
  {
    var now := Run(attempts, s, h);
    if later == Start {
      InvariantHolds(attempts, s, h);
    } else {
      var before := Run(attempts, now, later.before);
      ClosedStopsRecovery(attempts, s, h, later.before);
      InvariantKept(attempts, before, later.event);
      ClosedStep(attempts, before, later.event);
    }
  }
}
