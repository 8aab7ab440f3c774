/**
 * Session recovery as a transition system: any number of callers snapshot the session id and
 * queue bounded recovery tasks; the tasks serialise on a mutex, raise a flag, retry
 * SessionSetup and swap in the new session. Callers may time out, attempts may fail and tasks
 * may be dropped at any point.
 */
module SessionRecovery {
  import opened Bytes
  import opened Locks

  // ----- state -----

  /** Where a recovery task stands. */
  datatype Pc =
    | Queued                  // waits for the mutex
    | Locked                  // holds the mutex, has not compared ids
    | Preparing               // flag raised, no attempt made yet
    | Attempting(left: nat)   // between attempts
    | SettingUp(left: nat)    // a SessionSetup is in flight
    | Prepared(id: nat)       // the server handed out a new session
    | Published               // the new session is current, flag still raised
    | Replaying               // flag lowered, shares being reconnected
    | Unwinding               // gave up, flag still raised
    | Leaving                 // flag lowered or never raised, mutex still held
    | Finished                // mutex released, permit not yet
    | Done

  predicate HoldsMutex(pc: Pc) {
    pc != Queued && pc != Finished && pc != Done
  }

  predicate Flagged(pc: Pc) {
    HoldsMutex(pc) && pc != Locked && pc != Replaying && pc != Leaving
  }

  /** Between the id comparison and the publication of the new session. */
  predicate Replacing(pc: Pc) {
    pc == Preparing || pc.Attempting? || pc.SettingUp? || pc.Prepared?
  }

  datatype Task = Task(expected: nat, permit: bool, pc: Pc)

  datatype Waiter =
    | Snapshot(expected: nat)             // has read the session id
    | Wanting(expected: nat)              // found recovery necessary
    | Waiting(expected: nat, task: nat)   // its task has been spawned
    | Returned

  /** A SessionSetup exchange begun by a task. */
  datatype Setup = Setup(task: nat, expected: nat)

  /** A session id that a task replaced by another. */
  datatype Replacement = Replacement(task: nat, before: nat, after: nat)

  datatype State = State(
    current: nat, used: set<nat>, mutex: Option<nat>, recovering: bool, free: nat,
    tasks: map<nat, Task>, waiters: map<nat, Waiter>,
    setups: seq<Setup>, replacements: seq<Replacement>)

  datatype Config = Config(capacity: nat, attempts: nat)

  ghost predicate Initial(c: Config, s: State) {
    && s.used == {s.current} && s.mutex == None && !s.recovering && s.free == c.capacity
    && s.tasks == map[] && s.waiters == map[] && s.setups == [] && s.replacements == []
  }

  // ----- steps -----

  datatype TaskStep =
    | Lock | Compare | Prepare | Begin | SetupFails | SetupSucceeds(id: nat) | GiveUp | Publish
    | LowerFlag | Replayed | Unlock | Release | Drop

  datatype WaiterStep =
    | Check(sameGeneration: bool) | Spawn(task: nat) | Detach | Join

  datatype Event =
    | Arrive(waiter: nat)                   // a caller reads the session id
    | Call(task: nat, expected: nat)        // a direct call, not limited by permits
    | OfWaiter(waiter: nat, move: WaiterStep)
    | OfTask(task: nat, step: TaskStep)

  function SetTask(s: State, t: nat, pc: Pc): (next: State)
    requires t in s.tasks
  {
    s.(tasks := s.tasks[t := s.tasks[t].(pc := pc)])
  }

  /** Dropping a task unwinds it: flag, then mutex, then permit. */
  function Dropped(pc: Pc): (next: Pc) {
    if Flagged(pc) then Unwinding
    else if HoldsMutex(pc) then Leaving
    else if pc == Queued then Finished
    else pc
  }

  function TaskNext(c: Config, s: State, t: nat, step: TaskStep): (next: Option<State>)
    requires t in s.tasks
  {
    var task := s.tasks[t];
    match step
    case Lock =>
      if task.pc == Queued && s.mutex == None then Some(SetTask(s, t, Locked).(mutex := Some(t))) else None
    case Compare =>
      if task.pc != Locked then None
      else if s.current != task.expected then Some(SetTask(s, t, Leaving))
      else Some(SetTask(s, t, Preparing).(recovering := true))
    case Prepare =>
      if task.pc == Preparing then Some(SetTask(s, t, Attempting(c.attempts))) else None
    case Begin =>
      if task.pc.Attempting? && task.pc.left > 0 then
        Some(SetTask(s, t, SettingUp(task.pc.left - 1)).(setups := s.setups + [Setup(t, task.expected)]))
      else None
    case SetupFails =>
      if task.pc.SettingUp? then Some(SetTask(s, t, Attempting(task.pc.left))) else None
    case SetupSucceeds(id) =>
      if task.pc.SettingUp? && id !in s.used then
        Some(SetTask(s, t, Prepared(id)).(used := s.used + {id}))
      else None
    case GiveUp =>
      if task.pc == Preparing || task.pc == Attempting(0) || task.pc.Prepared? then
        Some(SetTask(s, t, Unwinding))
      else None
    case Publish =>
      if task.pc.Prepared? then
        Some(SetTask(s, t, Published).(
          current := task.pc.id,
          replacements := s.replacements + [Replacement(t, task.expected, task.pc.id)]))
      else None
    case LowerFlag =>
      if task.pc == Published then Some(SetTask(s, t, Replaying).(recovering := false))
      else if task.pc == Unwinding then Some(SetTask(s, t, Leaving).(recovering := false))
      else None
    case Replayed =>
      if task.pc == Replaying then Some(SetTask(s, t, Leaving)) else None
    case Unlock =>
      if task.pc == Leaving then Some(SetTask(s, t, Finished).(mutex := None)) else None
    case Release =>
      if task.pc == Finished then
        Some(SetTask(s, t, Done).(free := s.free + if task.permit then 1 else 0))
      else None
    case Drop =>
      Some(SetTask(s, t, Dropped(task.pc)))
  }

  function SetWaiter(s: State, w: nat, waiter: Waiter): (next: State) {
    s.(waiters := s.waiters[w := waiter])
  }

  function WaiterNext(s: State, w: nat, step: WaiterStep): (next: Option<State>)
    requires w in s.waiters
  {
    var waiter := s.waiters[w];
    match step
    case Check(sameGeneration) =>
      if !waiter.Snapshot? then None
      else if !s.recovering && sameGeneration then Some(SetWaiter(s, w, Returned))
      else Some(SetWaiter(s, w, Wanting(waiter.expected)))
    case Spawn(t) =>
      if !waiter.Wanting? || t in s.tasks then None
      else if s.free == 0 then Some(SetWaiter(s, w, Returned))
      else Some(SetWaiter(s, w, Waiting(waiter.expected, t)).(
        free := s.free - 1, tasks := s.tasks[t := Task(waiter.expected, true, Queued)]))
    case Detach =>
      if waiter.Returned? then None else Some(SetWaiter(s, w, Returned))
    case Join =>
      if waiter.Waiting? && waiter.task in s.tasks && s.tasks[waiter.task].pc == Done
      then Some(SetWaiter(s, w, Returned)) else None
  }

  function Next(c: Config, s: State, e: Event): (next: Option<State>) {
    match e
    case Arrive(w) => if w in s.waiters then None else Some(SetWaiter(s, w, Snapshot(s.current)))
    case Call(t, expected) =>
      if t in s.tasks then None else Some(s.(tasks := s.tasks[t := Task(expected, false, Queued)]))
    case OfWaiter(w, move) => if w in s.waiters then WaiterNext(s, w, move) else None
    case OfTask(t, step) => if t in s.tasks then TaskNext(c, s, t, step) else None
  }

  /** Events in order, the latest outermost; an event that is not enabled has no effect. */
  datatype History = Start | Then(before: History, event: Event)

  function Run(c: Config, s: State, h: History): (last: State) {
    match h
    case Start => s
    case Then(before, event) => Advance(c, Run(c, s, before), event)
  }

  function Advance(c: Config, s: State, e: Event): (next: State) {
    match Next(c, s, e)
    case None => s
    case Some(next) => next
  }

  // ----- invariants -----

  ghost predicate MutexHeld(s: State) {
    && (s.mutex.Some? ==> s.mutex.value in s.tasks)
    && forall t :: t in s.tasks ==> (HoldsMutex(s.tasks[t].pc) <==> s.mutex == Some(t))
  }

  /** The flag is up exactly while the mutex holder is in the flagged part of its recovery. */
  ghost predicate FlagMeansHeld(s: State) {
    s.recovering <==>
      s.mutex.Some? && s.mutex.value in s.tasks && Flagged(s.tasks[s.mutex.value].pc)
  }

  function Owners(tasks: map<nat, Task>): (owners: set<nat>) {
    set t | t in tasks && tasks[t].permit && tasks[t].pc != Done
  }

  /** No permit is lost or made up, whether or not anyone still waits for its task. */
  ghost predicate PermitsConserved(c: Config, s: State) {
    s.free + |Owners(s.tasks)| == c.capacity
  }

  ghost predicate Superseded(replacements: seq<Replacement>, id: nat) {
    exists i :: 0 <= i < |replacements| && replacements[i].before == id
  }

  /** A task that is replacing a session replaces the current one, by an id never seen before. */
  ghost predicate TaskFresh(task: Task, current: nat, used: set<nat>, replacements: seq<Replacement>) {
    && (Replacing(task.pc) ==> task.expected == current)
    && (task.pc.Prepared? ==>
      task.pc.id in used && task.pc.id != current && !Superseded(replacements, task.pc.id))
  }

  ghost predicate CurrentFresh(current: nat, used: set<nat>, replacements: seq<Replacement>) {
    && current in used && !Superseded(replacements, current)
    && forall i :: 0 <= i < |replacements| ==> replacements[i].before in used
  }

  ghost predicate IdsFresh(s: State) {
    && CurrentFresh(s.current, s.used, s.replacements)
    && forall t :: t in s.tasks ==> TaskFresh(s.tasks[t], s.current, s.used, s.replacements)
  }

  /** The replacements form one chain of distinct ids that ends at the current session. */
  ghost predicate ReplacedOnce(replacements: seq<Replacement>, current: nat) {
    && (forall i, j :: 0 <= i < j < |replacements| ==> replacements[i].before != replacements[j].before)
    && (forall i, j :: 0 <= i < j < |replacements| && j == i + 1 ==>
      replacements[i].after == replacements[j].before)
    && (replacements != [] ==> replacements[|replacements| - 1].after == current)
  }

  ghost predicate Invariant(c: Config, s: State) {
    && MutexHeld(s) && FlagMeansHeld(s) && PermitsConserved(c, s) && IdsFresh(s)
    && ReplacedOnce(s.replacements, s.current)
  }

  lemma {:induction false} InitialHolds(c: Config, s: State)
    requires Initial(c, s)
    ensures Invariant(c, s)
  {
    assert Owners(s.tasks) == {};
  }

  // ----- what one step of a task changes -----

  ghost predicate SetupEffect(t: nat, task: Task, setups: seq<Setup>, next: seq<Setup>) {
    next == setups || (task.pc.Attempting? && next == setups + [Setup(t, task.expected)])
  }

  ghost predicate Effect(s: State, t: nat, n: State) {
    && t in s.tasks && t in n.tasks
    && n.tasks == s.tasks[t := s.tasks[t].(pc := n.tasks[t].pc)]
    && n.waiters == s.waiters && s.used <= n.used
    && MutexEffect(t, HoldsMutex(s.tasks[t].pc), HoldsMutex(n.tasks[t].pc), s.mutex, n.mutex)
    && FlagEffect(Flagged(s.tasks[t].pc), Flagged(n.tasks[t].pc), s.recovering, n.recovering)
    && SetupEffect(t, s.tasks[t], s.setups, n.setups)
  }

  lemma {:induction false} TaskLocks(c: Config, s: State, t: nat, step: TaskStep)
    requires t in s.tasks && TaskNext(c, s, t, step).Some?
    ensures var n, pc := TaskNext(c, s, t, step).value, s.tasks[t].pc;
      && t in n.tasks
      && MutexEffect(t, HoldsMutex(pc), HoldsMutex(n.tasks[t].pc), s.mutex, n.mutex)
      && FlagEffect(Flagged(pc), Flagged(n.tasks[t].pc), s.recovering, n.recovering)
  {
  }

  lemma {:induction false} TaskMoves(c: Config, s: State, t: nat, step: TaskStep)
    requires t in s.tasks && TaskNext(c, s, t, step).Some?
    ensures var n := TaskNext(c, s, t, step).value;
      && t in n.tasks && n.tasks == s.tasks[t := s.tasks[t].(pc := n.tasks[t].pc)]
      && n.waiters == s.waiters && s.used <= n.used
      && SetupEffect(t, s.tasks[t], s.setups, n.setups)
  {
  }

  lemma {:induction false} TaskEffect(c: Config, s: State, t: nat, step: TaskStep)
    requires t in s.tasks && TaskNext(c, s, t, step).Some?
    ensures Effect(s, t, TaskNext(c, s, t, step).value)
  {
    TaskLocks(c, s, t, step);
    TaskMoves(c, s, t, step);
  }

  // ----- mutex and flag -----

  lemma {:induction false} EffectKeepsMutex(s: State, t: nat, n: State)
    requires MutexHeld(s) && FlagMeansHeld(s) && Effect(s, t, n)
    ensures MutexHeld(n) && FlagMeansHeld(n)
  {
  }

  lemma {:induction false} MutexKept(c: Config, s: State, e: Event)
    requires MutexHeld(s) && FlagMeansHeld(s)
    ensures MutexHeld(Advance(c, s, e)) && FlagMeansHeld(Advance(c, s, e))
  {
    if e.OfTask? && Next(c, s, e).Some? {
      TaskEffect(c, s, e.task, e.step);
      EffectKeepsMutex(s, e.task, Next(c, s, e).value);
    }
  }

  // ----- permits -----

  lemma {:induction false} OwnersAdd(tasks: map<nat, Task>, t: nat, task: Task)
    requires t !in tasks && task.pc == Queued
    ensures |Owners(tasks[t := task])| == |Owners(tasks)| + if task.permit then 1 else 0
  {
    assert Owners(tasks[t := task]) == if task.permit then Owners(tasks) + {t} else Owners(tasks);
  }

  lemma {:induction false} OwnersChange(tasks: map<nat, Task>, t: nat, pc: Pc)
    requires t in tasks && tasks[t].pc != Done
    ensures |Owners(tasks[t := tasks[t].(pc := pc)])|
      == |Owners(tasks)| - if tasks[t].permit && pc == Done then 1 else 0
  {
    var next := tasks[t := tasks[t].(pc := pc)];
    assert Owners(next) == if tasks[t].permit && pc == Done then Owners(tasks) - {t} else Owners(tasks);
  }

  lemma {:induction false} TaskKeepsPermits(c: Config, s: State, t: nat, step: TaskStep)
    requires PermitsConserved(c, s)
    requires t in s.tasks && TaskNext(c, s, t, step).Some?
    ensures PermitsConserved(c, TaskNext(c, s, t, step).value)
  {
    var next := TaskNext(c, s, t, step).value;
    if s.tasks[t].pc == Done {
      assert next.tasks == s.tasks;
    } else {
      OwnersChange(s.tasks, t, next.tasks[t].pc);
    }
  }

  lemma {:induction false} PermitsKept(c: Config, s: State, e: Event)
    requires PermitsConserved(c, s)
    ensures PermitsConserved(c, Advance(c, s, e))
  {
    if Next(c, s, e).Some? {
      match e
      case Arrive(_) =>
      case Call(t, expected) => OwnersAdd(s.tasks, t, Task(expected, false, Queued));
      case OfWaiter(w, move) =>
        if move.Spawn? && s.free > 0 {
          OwnersAdd(s.tasks, move.task, Task(s.waiters[w].expected, true, Queued));
        }
      case OfTask(t, step) => TaskKeepsPermits(c, s, t, step);
    }
  }

  // ----- session ids -----

  predicate Publishes(s: State, e: Event) {
    && e.OfTask? && e.step == Publish
    && e.task in s.tasks && s.tasks[e.task].pc.Prepared?
  }

  /** Only publication moves the session on. */
  lemma {:induction false} TaskKeepsSession(c: Config, s: State, t: nat, step: TaskStep)
    requires t in s.tasks && TaskNext(c, s, t, step).Some? && step != Publish
    ensures var next := TaskNext(c, s, t, step).value;
      && next.current == s.current && next.replacements == s.replacements && s.used <= next.used
      && next.tasks.Keys == s.tasks.Keys
      && forall u :: u in s.tasks && u != t ==> next.tasks[u] == s.tasks[u]
  {
  }

  lemma {:induction false} TaskStaysFresh(c: Config, s: State, t: nat, step: TaskStep)
    requires CurrentFresh(s.current, s.used, s.replacements)
    requires t in s.tasks && TaskFresh(s.tasks[t], s.current, s.used, s.replacements)
    requires TaskNext(c, s, t, step).Some? && step != Publish
    ensures var next := TaskNext(c, s, t, step).value;
      TaskFresh(next.tasks[t], s.current, next.used, s.replacements)
  {
  }

  lemma {:induction false} TaskKeepsIds(c: Config, s: State, t: nat, step: TaskStep)
    requires IdsFresh(s)
    requires t in s.tasks && TaskNext(c, s, t, step).Some? && step != Publish
    ensures IdsFresh(TaskNext(c, s, t, step).value)
  {
    TaskKeepsSession(c, s, t, step);
    TaskStaysFresh(c, s, t, step);
  }

  lemma {:induction false} SupersededAlso(replacements: seq<Replacement>, r: Replacement, id: nat)
    ensures Superseded(replacements + [r], id) <==> Superseded(replacements, id) || id == r.before
  {
    var more := replacements + [r];
    if Superseded(replacements, id) {
      var i :| 0 <= i < |replacements| && replacements[i].before == id;
      assert more[i].before == id;
    }
    assert more[|replacements|] == r;
  }

  /** No other task is replacing a session while this one publishes. */
  lemma {:induction false} OnlyReplacer(s: State, t: nat, u: nat)
    requires MutexHeld(s) && t in s.tasks && u in s.tasks && t != u
    requires HoldsMutex(s.tasks[t].pc)
    ensures !Replacing(s.tasks[u].pc)
  {
  }

  lemma {:induction false} PublishKeepsIds(c: Config, s: State, t: nat)
    requires MutexHeld(s) && IdsFresh(s)
    requires t in s.tasks && s.tasks[t].pc.Prepared?
    ensures IdsFresh(TaskNext(c, s, t, Publish).value)
  {
    var next := TaskNext(c, s, t, Publish).value;
    assert s.tasks[t].expected == s.current;
    SupersededAlso(s.replacements, Replacement(t, s.current, next.current), next.current);
    assert CurrentFresh(next.current, next.used, next.replacements);
    forall u | u in next.tasks
      ensures TaskFresh(next.tasks[u], next.current, next.used, next.replacements)
    {
      if u != t {
        OnlyReplacer(s, t, u);
      }
    }
  }

  lemma {:induction false} IdsKept(c: Config, s: State, e: Event)
    requires MutexHeld(s) && IdsFresh(s)
    ensures IdsFresh(Advance(c, s, e))
  {
    if Publishes(s, e) {
      PublishKeepsIds(c, s, e.task);
    } else if e.OfTask? && Next(c, s, e).Some? {
      TaskKeepsIds(c, s, e.task, e.step);
    }
  }

  lemma {:induction false} OneMoreReplaced(replacements: seq<Replacement>, current: nat, t: nat, id: nat)
    requires ReplacedOnce(replacements, current) && !Superseded(replacements, current)
    ensures ReplacedOnce(replacements + [Replacement(t, current, id)], id)
  {
    var last := Replacement(t, current, id);
    var more := replacements + [last];
    forall i, j | 0 <= i < j < |more|
      ensures more[i].before != more[j].before
    {
      assert more[i] == replacements[i];
      if j == |replacements| {
        assert replacements[i].before != current;
      } else {
        assert more[j] == replacements[j];
      }
    }
    forall i, j | 0 <= i < j < |more| && j == i + 1
      ensures more[i].after == more[j].before
    {
      assert more[i] == replacements[i];
      if j < |replacements| {
        assert more[j] == replacements[j];
      }
    }
  }

  lemma {:induction false} ReplacedOnceKept(c: Config, s: State, e: Event)
    requires IdsFresh(s) && ReplacedOnce(s.replacements, s.current)
    ensures ReplacedOnce(Advance(c, s, e).replacements, Advance(c, s, e).current)
  {
    if Publishes(s, e) {
      OneMoreReplaced(s.replacements, s.current, e.task, s.tasks[e.task].pc.id);
    } else if e.OfTask? && Next(c, s, e).Some? {
      TaskKeepsSession(c, s, e.task, e.step);
    }
  }

  // ----- every run -----

  lemma {:induction false} InvariantKept(c: Config, s: State, e: Event)
    requires Invariant(c, s)
    ensures Invariant(c, Advance(c, s, e))
  {
    MutexKept(c, s, e);
    PermitsKept(c, s, e);
    IdsKept(c, s, e);
    ReplacedOnceKept(c, s, e);
  }

  /**
   * In every interleaving: the flag is up only while the mutex is held, permits are conserved,
   * and each session id is replaced at most once.
   */
  lemma {:induction false} InvariantHolds(c: Config, s: State, h: History)
    requires Initial(c, s)
    ensures Invariant(c, Run(c, s, h))
  {
    if h == Start {
      InitialHolds(c, s);
    } else {
      InvariantHolds(c, s, h.before);
      InvariantKept(c, Run(c, s, h.before), h.event);
    }
  }

  // ----- who sets up -----

  /** A SessionSetup is begun only by the mutex holder, for the session that is current. */
  lemma {:induction false} SetupIsForCurrent(c: Config, s: State, h: History, e: Event)
    requires Initial(c, s)
    requires var now := Run(c, s, h); Advance(c, now, e).setups != now.setups
    ensures var now := Run(c, s, h);
      && e.OfTask? && now.mutex == Some(e.task) && e.task in now.tasks
      && now.tasks[e.task].expected == now.current
      && !Superseded(now.replacements, now.tasks[e.task].expected)
      && Advance(c, now, e).setups == now.setups + [Setup(e.task, now.current)]
  {
    InvariantHolds(c, s, h);
    var now := Run(c, s, h);
    if e.OfTask? && Next(c, now, e).Some? {
      TaskEffect(c, now, e.task, e.step);
      assert TaskFresh(now.tasks[e.task], now.current, now.used, now.replacements);
    }
  }

  function CountSetups(setups: seq<Setup>, t: nat): (n: nat) {
    if setups == [] then 0
    else CountSetups(setups[..|setups| - 1], t) + if setups[|setups| - 1].task == t then 1 else 0
  }

  lemma {:induction false} CountOneMore(setups: seq<Setup>, setup: Setup, t: nat)
    ensures CountSetups(setups + [setup], t) == CountSetups(setups, t) + if setup.task == t then 1 else 0
  {
    assert (setups + [setup])[..|setups|] == setups;
  }

  /** A step adds at most one setup, and that is its own task's. */
  lemma {:induction false} CountEffect(u: nat, task: Task, setups: seq<Setup>, next: seq<Setup>, t: nat)
    requires SetupEffect(u, task, setups, next)
    ensures CountSetups(next, t) == CountSetups(setups, t) + if t == u && next != setups then 1 else 0
  {
    if next != setups {
      CountOneMore(setups, Setup(u, task.expected), t);
    }
  }

  /** A task is of no more use: the id it wants to replace has been replaced. */
  ghost predicate Obsolete(s: State, t: nat) {
    t in s.tasks && Superseded(s.replacements, s.tasks[t].expected)
  }

  lemma {:induction false} ObsoleteEffect(c: Config, s: State, n: State, u: nat, t: nat)
    requires Effect(s, u, n) && IdsFresh(s) && Obsolete(s, t)
    ensures t in n.tasks && n.tasks[t].expected == s.tasks[t].expected
    ensures CountSetups(n.setups, t) == CountSetups(s.setups, t)
  {
    assert TaskFresh(s.tasks[t], s.current, s.used, s.replacements);
    CountEffect(u, s.tasks[u], s.setups, n.setups, t);
  }

  /** What has been replaced stays replaced. */
  lemma {:induction false} StaysSuperseded(c: Config, s: State, t: nat, step: TaskStep, id: nat)
    requires t in s.tasks && TaskNext(c, s, t, step).Some? && Superseded(s.replacements, id)
    ensures Superseded(TaskNext(c, s, t, step).value.replacements, id)
  {
    if step == Publish {
      SupersededAlso(s.replacements, Replacement(t, s.tasks[t].expected, s.tasks[t].pc.id), id);
    } else {
      TaskKeepsSession(c, s, t, step);
    }
  }

  lemma {:induction false} ObsoleteStep(c: Config, s: State, e: Event, t: nat)
    requires Invariant(c, s) && Obsolete(s, t)
    ensures Obsolete(Advance(c, s, e), t)
    ensures CountSetups(Advance(c, s, e).setups, t) == CountSetups(s.setups, t)
  {
    var next := Advance(c, s, e);
    if e.OfTask? && Next(c, s, e).Some? {
      TaskEffect(c, s, e.task, e.step);
      ObsoleteEffect(c, s, next, e.task, t);
      StaysSuperseded(c, s, e.task, e.step, s.tasks[t].expected);
    }
  }

  /**
   * Once the expected id has been superseded, the task never begins a SessionSetup again,
   * whatever else happens.
   */
  lemma {:induction false} SupersededNeverSetsUp(c: Config, s: State, h: History, later: History, t: nat)
    requires Initial(c, s)
    requires Obsolete(Run(c, s, h), t)
    ensures var now, last := Run(c, s, h), Run(c, Run(c, s, h), later);
      && Invariant(c, last) && Obsolete(last, t)
      && CountSetups(last.setups, t) == CountSetups(now.setups, t)
  {
    var now := Run(c, s, h);
    if later == Start {
      InvariantHolds(c, s, h);
    } else {
      SupersededNeverSetsUp(c, s, h, later.before, t);
      InvariantKept(c, Run(c, now, later.before), later.event);
      ObsoleteStep(c, Run(c, now, later.before), later.event, t);
    }
  }

  /** How many SessionSetups a task may still begin. */
  function Left(c: Config, pc: Pc): (n: nat) {
    match pc
    case Queued => c.attempts
    case Locked => c.attempts
    case Preparing => c.attempts
    case Attempting(left) => left
    case SettingUp(left) => left
    case _ => 0
  }

  ghost predicate WithinAttempts(c: Config, s: State, t: nat) {
    CountSetups(s.setups, t) + (if t in s.tasks then Left(c, s.tasks[t].pc) else c.attempts) <= c.attempts
  }

  lemma {:induction false} StepSpends(c: Config, s: State, t: nat, step: TaskStep)
    requires t in s.tasks && TaskNext(c, s, t, step).Some?
    ensures var n := TaskNext(c, s, t, step).value;
      Left(c, n.tasks[t].pc) + (if n.setups == s.setups then 0 else 1) <= Left(c, s.tasks[t].pc)
  {
  }

  lemma {:induction false} EffectWithinAttempts(c: Config, s: State, u: nat, n: State, t: nat)
    requires Effect(s, u, n) && WithinAttempts(c, s, t)
    requires Left(c, n.tasks[u].pc) + (if n.setups == s.setups then 0 else 1) <= Left(c, s.tasks[u].pc)
    ensures WithinAttempts(c, n, t)
  {
    CountEffect(u, s.tasks[u], s.setups, n.setups, t);
    if t == u {
      assert CountSetups(s.setups, t) + Left(c, s.tasks[t].pc) <= c.attempts;
    } else {
      assert t in n.tasks <==> t in s.tasks;
      assert t in s.tasks ==> n.tasks[t] == s.tasks[t];
    }
  }

  /** No task begins more SessionSetups than the policy allows attempts. */
  lemma {:induction false} AttemptsBounded(c: Config, s: State, h: History, t: nat)
    requires Initial(c, s)
    ensures WithinAttempts(c, Run(c, s, h), t)
  {
    if h != Start {
      AttemptsBounded(c, s, h.before, t);
      var now := Run(c, s, h.before);
      if h.event.OfTask? && Next(c, now, h.event).Some? {
        TaskEffect(c, now, h.event.task, h.event.step);
        StepSpends(c, now, h.event.task, h.event.step);
        EffectWithinAttempts(c, now, h.event.task, Run(c, s, h), t);
      }
    }
  }

  // ----- progress -----

  /** How many steps a task is away from its end, at most. */
  function Rank(c: Config, pc: Pc): (r: nat) {
    match pc
    case Queued => 9 + 2 * c.attempts
    case Locked => 8 + 2 * c.attempts
    case Preparing => 7 + 2 * c.attempts
    case SettingUp(left) => 7 + 2 * left
    case Attempting(left) => 6 + 2 * left
    case Prepared(_) => 5
    case Published => 4
    case Replaying => 3
    case Unwinding => 3
    case Leaving => 2
    case Finished => 1
    case Done => 0
  }

  lemma {:induction false} RankFalls(c: Config, s: State, t: nat, step: TaskStep)
    requires t in s.tasks && TaskNext(c, s, t, step).Some?
    ensures var before, after := s.tasks[t].pc, TaskNext(c, s, t, step).value.tasks[t].pc;
      Rank(c, after) < Rank(c, before) || (step == Drop && after == before)
  {
  }

  /** Every step of a task brings it closer to its end and moves no other task. */
  lemma {:induction false} TaskProgresses(c: Config, s: State, t: nat, step: TaskStep)
    requires t in s.tasks && TaskNext(c, s, t, step).Some?
    ensures var next := TaskNext(c, s, t, step).value;
      && (Rank(c, next.tasks[t].pc) < Rank(c, s.tasks[t].pc)
        || (step == Drop && next.tasks[t].pc == s.tasks[t].pc))
      && next.tasks.Keys == s.tasks.Keys
      && forall u :: u in s.tasks && u != t ==> next.tasks[u] == s.tasks[u]
  {
    RankFalls(c, s, t, step);
    TaskEffect(c, s, t, step);
  }

  function Forward(pc: Pc): (step: TaskStep)
    requires HoldsMutex(pc)
  {
    match pc
    case Locked => Compare
    case Preparing => Prepare
    case Attempting(left) => if left > 0 then Begin else GiveUp
    case SettingUp(_) => SetupFails
    case Prepared(_) => Publish
    case Published => LowerFlag
    case Unwinding => LowerFlag
    case Replaying => Replayed
    case Leaving => Unlock
  }

  lemma {:induction false} HolderMoves(c: Config, s: State, t: nat)
    requires t in s.tasks && HoldsMutex(s.tasks[t].pc)
    ensures TaskNext(c, s, t, Forward(s.tasks[t].pc)).Some?
  {
  }

  /** While any task is unfinished, some task can take a step of its own. */
  lemma {:induction false} NeverStuck(c: Config, s: State, h: History, u: nat)
    returns (t: nat, step: TaskStep)
    requires Initial(c, s)
    requires u in Run(c, s, h).tasks && Run(c, s, h).tasks[u].pc != Done
    ensures var now := Run(c, s, h);
      step != Drop && t in now.tasks && TaskNext(c, now, t, step).Some?
  {
    InvariantHolds(c, s, h);
    var now := Run(c, s, h);
    if now.mutex.Some? {
      t := now.mutex.value;
      step := Forward(now.tasks[t].pc);
      HolderMoves(c, now, t);
    } else {
      t := u;
      step := if now.tasks[u].pc == Queued then Lock else Release;
    }
  }

  // ----- waiters -----

  /** The task a waiter waits for recovers the id the waiter saw, and owns a permit. */
  ghost predicate Served(s: State, waiter: Waiter) {
    waiter.Waiting? ==>
      && waiter.task in s.tasks
      && s.tasks[waiter.task].expected == waiter.expected
      && s.tasks[waiter.task].permit
  }

  ghost predicate WaitersServed(s: State) {
    forall w :: w in s.waiters ==> Served(s, s.waiters[w])
  }

  lemma {:induction false} WaitersServedAlways(c: Config, s: State, h: History)
    requires Initial(c, s)
    ensures WaitersServed(Run(c, s, h))
  {
    if h != Start {
      WaitersServedAlways(c, s, h.before);
      var now := Run(c, s, h.before);
      if h.event.OfTask? && Next(c, now, h.event).Some? {
        TaskEffect(c, now, h.event.task, h.event.step);
      }
    }
  }
}
