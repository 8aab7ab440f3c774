/**
 * The manual clock: sleepers are kept in an ordered map from deadline and registration number,
 * and moving the clock forward wakes those that are due.
 */
module ManualClock {
  import opened Bytes

  const MAX: nat := U64 - 1

  /** Nanoseconds since the origin, stopping at the largest representable time. */
  function SaturatingAdd(time: nat, duration: nat): (t: nat)
    requires time <= MAX
    ensures time <= t <= MAX
    ensures t == if time + duration <= MAX then time + duration else MAX
  {
    var nanoseconds := if duration <= MAX then duration else MAX;
    if time + nanoseconds <= MAX then time + nanoseconds else MAX
  }

  datatype Key = Key(deadline: nat, sequence: nat)

  predicate Less(a: Key, b: Key) {
    a.deadline < b.deadline || (a.deadline == b.deadline && a.sequence < b.sequence)
  }

  datatype Sleeper = Sleeper(key: Key, id: nat)

  datatype ClockError = Backwards

  // ----- the ordered map -----

  ghost predicate Sorted(sleepers: seq<Sleeper>) {
    forall i, j :: 0 <= i < j < |sleepers| ==> Less(sleepers[i].key, sleepers[j].key)
  }

  /** Inserting under a key that is taken displaces the sleeper there. */
  function Insert(sleepers: seq<Sleeper>, x: Sleeper): (r: seq<Sleeper>)
  {
    if sleepers == [] then [x]
    else if Less(x.key, sleepers[0].key) then [x] + sleepers
    else if x.key == sleepers[0].key then [x] + sleepers[1..]
    else [sleepers[0]] + Insert(sleepers[1..], x)
  }

  function Remove(sleepers: seq<Sleeper>, key: Key): (r: seq<Sleeper>)
  {
    if sleepers == [] then []
    else if sleepers[0].key == key then Remove(sleepers[1..], key)
    else [sleepers[0]] + Remove(sleepers[1..], key)
  }

  lemma {:induction false} TailSorted(sleepers: seq<Sleeper>)
    requires Sorted(sleepers) && sleepers != []
    ensures Sorted(sleepers[1..])
    ensures forall y :: y in sleepers <==> y == sleepers[0] || y in sleepers[1..]
    ensures forall y :: y in sleepers[1..] ==> Less(sleepers[0].key, y.key)
  {
    assert sleepers == [sleepers[0]] + sleepers[1..];
  }

  lemma {:induction false} ConsSorted(x: Sleeper, tail: seq<Sleeper>)
    requires Sorted(tail) && forall y :: y in tail ==> Less(x.key, y.key)
    ensures Sorted([x] + tail)
  {
  }

  lemma {:induction false} InsertInOrder(sleepers: seq<Sleeper>, x: Sleeper)
    requires Sorted(sleepers)
    ensures Sorted(Insert(sleepers, x))
    ensures forall y :: y in Insert(sleepers, x) <==> y == x || (y in sleepers && y.key != x.key)
  {
    if sleepers != [] {
      var head, tail := sleepers[0], sleepers[1..];
      TailSorted(sleepers);
      if Less(x.key, head.key) {
        ConsSorted(x, sleepers);
      } else if x.key == head.key {
        ConsSorted(x, tail);
      } else {
        InsertInOrder(tail, x);
        ConsSorted(head, Insert(tail, x));
      }
    }
  }

  lemma {:induction false} RemoveInOrder(sleepers: seq<Sleeper>, key: Key)
    requires Sorted(sleepers)
    ensures Sorted(Remove(sleepers, key))
    ensures forall y :: y in Remove(sleepers, key) <==> y in sleepers && y.key != key
  {
    if sleepers != [] {
      TailSorted(sleepers);
      RemoveInOrder(sleepers[1..], key);
      if sleepers[0].key != key {
        ConsSorted(sleepers[0], Remove(sleepers[1..], key));
      }
    }
  }

  lemma {:induction false} RemoveAbsent(sleepers: seq<Sleeper>, key: Key)
    requires forall y :: y in sleepers ==> y.key != key
    ensures Remove(sleepers, key) == sleepers
  {
    if sleepers != [] {
      assert sleepers[0] in sleepers;
      RemoveAbsent(sleepers[1..], key);
    }
  }

  lemma {:induction false} RemoveFirst(sleepers: seq<Sleeper>)
    requires Sorted(sleepers) && sleepers != []
    ensures Remove(sleepers, sleepers[0].key) == sleepers[1..]
  {
    TailSorted(sleepers);
    RemoveAbsent(sleepers[1..], sleepers[0].key);
  }

  // ----- the clock -----

  datatype State = State(now: nat, nextSequence: nat, sleepers: seq<Sleeper>)

  const INITIAL := State(0, 0, [])

  /** How many of the first sleepers are due by `target`. */
  function DueCount(sleepers: seq<Sleeper>, target: nat): (n: nat)
    ensures n <= |sleepers|
    ensures forall i :: 0 <= i < n ==> sleepers[i].key.deadline <= target
    ensures n < |sleepers| ==> sleepers[n].key.deadline > target
  {
    if sleepers == [] || sleepers[0].key.deadline > target then 0
    else 1 + DueCount(sleepers[1..], target)
  }

  function Advanced(s: State, target: nat): (n: State) {
    if target < s.now then s
    else State(target, s.nextSequence, s.sleepers[DueCount(s.sleepers, target)..])
  }

  function Woken(s: State, target: nat): (woken: seq<Sleeper>) {
    if target < s.now then [] else s.sleepers[..DueCount(s.sleepers, target)]
  }

  function KeyFor(s: State, deadline: nat): (key: Key) {
    Key(deadline, s.nextSequence)
  }

  /** A deadline that has passed registers nothing. */
  function Slept(s: State, deadline: nat, id: nat): (n: State) {
    if deadline <= s.now then s
    else State(
      s.now,
      if s.nextSequence < MAX then s.nextSequence + 1 else MAX,
      Insert(s.sleepers, Sleeper(KeyFor(s, deadline), id)))
  }

  function DroppedSleep(s: State, key: Key): (n: State) {
    s.(sleepers := Remove(s.sleepers, key))
  }

  /** In an ordered map exactly the sleepers due by `target` come first. */
  lemma {:induction false} DueIsPrefix(sleepers: seq<Sleeper>, target: nat)
    requires Sorted(sleepers)
    ensures var n := DueCount(sleepers, target);
      && (forall i :: 0 <= i < n ==> sleepers[i].key.deadline <= target)
      && (forall i :: n <= i < |sleepers| ==> sleepers[i].key.deadline > target)
  {
    var n := DueCount(sleepers, target);
    forall i | n <= i < |sleepers|
      ensures sleepers[i].key.deadline > target
    {
      assert i == n || Less(sleepers[n].key, sleepers[i].key);
    }
  }

  class Clock {
    var now: nat
    var nextSequence: nat
    var sleepers: seq<Sleeper>

    ghost function View(): (s: State)
      reads this
    {
      State(now, nextSequence, sleepers)
    }

    ghost predicate Valid()
      reads this
    {
      Sorted(sleepers)
    }

    constructor ()
      ensures Valid() && View() == INITIAL
    {
      now, nextSequence, sleepers := 0, 0, [];
    }

    /** The keys in the range up to `target`, in order. */
    method ReadyKeys(target: nat) returns (keys: seq<Key>)
      requires Valid()
      ensures |keys| == DueCount(sleepers, target)
      ensures forall i :: 0 <= i < |keys| ==> keys[i] == sleepers[i].key
    {
      DueIsPrefix(sleepers, target);
      keys := [];
      var i := 0;
      while i < |sleepers| && sleepers[i].key.deadline <= target
        invariant 0 <= i <= DueCount(sleepers, target) && |keys| == i
        invariant forall k :: 0 <= k < i ==> keys[k] == sleepers[k].key
      {
        keys := keys + [sleepers[i].key];
        i := i + 1;
      }
    }

    /** Wakes all due sleepers, each once, in key order; refuses to go back. */
    method AdvanceTo(target: nat) returns (r: Result<(), ClockError>, woken: seq<Sleeper>)
      requires Valid()
      modifies this
      ensures Valid()
      ensures r.Err? <==> target < old(now)
      ensures View() == Advanced(old(View()), target)
      ensures woken == Woken(old(View()), target)
    {
      if target < now {
        return Err(Backwards), [];
      }
      now := target;
      var keys := ReadyKeys(target);
      woken := [];
      ghost var before := sleepers;
      var i := 0;
      while i < |keys|
        invariant 0 <= i <= |keys| <= |before|
        invariant sleepers == before[i..] && woken == before[..i]
        invariant now == target && nextSequence == old(nextSequence)
      {
        assert sleepers[0] == before[i] && keys[i] == before[i].key;
        RemoveFirst(sleepers);
        woken := woken + [sleepers[0]];
        sleepers := Remove(sleepers, keys[i]);
        i := i + 1;
      }
      r := Ok(());
    }

    /** Registers a sleeper unless its deadline has passed. */
    method SleepUntil(deadline: nat, id: nat) returns (registered: Option<Key>)
      requires Valid()
      modifies this
      ensures Valid()
      ensures View() == Slept(old(View()), deadline, id)
      ensures registered
        == if deadline <= old(now) then None else Some(KeyFor(old(View()), deadline))
    {
      if deadline <= now {
        return None;
      }
      var key := Key(deadline, nextSequence);
      nextSequence := if nextSequence < MAX then nextSequence + 1 else MAX;
      InsertInOrder(sleepers, Sleeper(key, id));
      sleepers := Insert(sleepers, Sleeper(key, id));
      registered := Some(key);
    }

    method DropSleep(key: Key)
      requires Valid()
      modifies this
      ensures Valid()
      ensures View() == DroppedSleep(old(View()), key)
    {
      RemoveInOrder(sleepers, key);
      sleepers := Remove(sleepers, key);
    }
  }

  // ----- every run -----

  datatype Event = Sleep(deadline: nat, id: nat) | Drop(key: Key) | Advance(target: nat)

  datatype History = Start | Then(before: History, event: Event)

  function Next(s: State, e: Event): (n: State) {
    match e
    case Sleep(deadline, id) => Slept(s, deadline, id)
    case Drop(key) => DroppedSleep(s, key)
    case Advance(target) => Advanced(s, target)
  }

  function Run(h: History): (s: State) {
    match h
    case Start => INITIAL
    case Then(before, event) => Next(Run(before), event)
  }

  /** Everyone who ever registered, in order of registration. */
  function Registered(h: History): (all: seq<Sleeper>) {
    match h
    case Start => []
    case Then(before, event) =>
      if event.Sleep? && event.deadline > Run(before).now
      then Registered(before) + [Sleeper(KeyFor(Run(before), event.deadline), event.id)]
      else Registered(before)
  }

  /** The keys of registered sleeps that were dropped. */
  function Dropped(h: History): (keys: set<Key>) {
    match h
    case Start => {}
    case Then(before, event) =>
      if event.Drop? && exists x :: x in Registered(before) && x.key == event.key
      then Dropped(before) + {event.key}
      else Dropped(before)
  }

  /** Everyone who was woken, in order of waking. */
  function AllWoken(h: History): (woken: seq<Sleeper>) {
    match h
    case Start => []
    case Then(before, event) =>
      if event.Advance? then AllWoken(before) + Woken(Run(before), event.target) else AllWoken(before)
  }

  /** Registrations are numbered one after the other. */
  ghost predicate Numbered(all: seq<Sleeper>, next: nat) {
    && (forall i :: 0 <= i < |all| ==> all[i].key.sequence == i)
    && next == if |all| <= MAX then |all| else MAX
  }

  /** Sleepers wait exactly until their deadline. */
  ghost predicate Waits(now: nat, pending: seq<Sleeper>, all: seq<Sleeper>) {
    && Sorted(pending)
    && forall x :: x in pending ==> x in all && x.key.deadline > now
  }

  /** The woken are all due, and were woken in order of deadline and registration. */
  ghost predicate WokenInOrder(now: nat, woken: seq<Sleeper>, all: seq<Sleeper>) {
    && Sorted(woken)
    && forall x :: x in woken ==> x in all && x.key.deadline <= now
  }

  /** Nobody is forgotten: a sleep that was not dropped is pending or was woken. */
  ghost predicate NobodyLost(
    all: seq<Sleeper>, dropped: set<Key>, pending: seq<Sleeper>, woken: seq<Sleeper>)
  {
    forall x :: x in all && x.key !in dropped ==> x in pending || x in woken
  }

  ghost predicate Invariant(h: History) {
    var s, all := Run(h), Registered(h);
    && Numbered(all, s.nextSequence)
    && Waits(s.now, s.sleepers, all)
    && WokenInOrder(s.now, AllWoken(h), all)
    && NobodyLost(all, Dropped(h), s.sleepers, AllWoken(h))
  }

  lemma {:induction false} SleepKeeps(h: History, deadline: nat, id: nat)
    requires Invariant(h) && |Registered(h)| < U64 && deadline > Run(h).now
    ensures Invariant(Then(h, Sleep(deadline, id)))
  {
    var s, all := Run(h), Registered(h);
    var x := Sleeper(KeyFor(s, deadline), id);
    InsertInOrder(s.sleepers, x);
    forall y | y in s.sleepers
      ensures y.key != x.key
    {
      var i :| 0 <= i < |all| && all[i] == y;
      assert y.key.sequence == i < |all|;
    }
    assert forall y :: y in all + [x] <==> y in all || y == x;
  }

  lemma {:induction false} DropKeeps(h: History, key: Key)
    requires Invariant(h)
    ensures Invariant(Then(h, Drop(key)))
  {
    RemoveInOrder(Run(h).sleepers, key);
  }

  lemma {:induction false} SplitSorted(sleepers: seq<Sleeper>, n: nat)
    requires Sorted(sleepers) && n <= |sleepers|
    ensures Sorted(sleepers[..n]) && Sorted(sleepers[n..])
    ensures forall x :: x in sleepers <==> x in sleepers[..n] || x in sleepers[n..]
  {
    assert sleepers == sleepers[..n] + sleepers[n..];
  }

  lemma {:induction false} JoinSorted(a: seq<Sleeper>, b: seq<Sleeper>, time: nat)
    requires Sorted(a) && Sorted(b)
    requires forall x :: x in a ==> x.key.deadline <= time
    requires forall x :: x in b ==> x.key.deadline > time
    ensures Sorted(a + b)
  {
    forall i, j | 0 <= i < j < |a + b|
      ensures Less((a + b)[i].key, (a + b)[j].key)
    {
      if i < |a| <= j {
        assert a[i] in a && b[j - |a|] in b;
      }
    }
  }

  /** Splitting a queue at the first sleeper not yet due. */
  lemma {:induction false} SplitAtDue(sleepers: seq<Sleeper>, target: nat, due: seq<Sleeper>, rest: seq<Sleeper>)
    requires Sorted(sleepers)
    requires due == sleepers[..DueCount(sleepers, target)] && rest == sleepers[DueCount(sleepers, target)..]
    ensures Sorted(due) && Sorted(rest)
    ensures forall x :: x in sleepers <==> x in due || x in rest
    ensures forall x :: x in due ==> x.key.deadline <= target
    ensures forall x :: x in rest ==> x.key.deadline > target
  {
    DueIsPrefix(sleepers, target);
    SplitSorted(sleepers, DueCount(sleepers, target));
  }

  lemma {:induction false} WakesInOrder(
    now: nat, target: nat, pending: seq<Sleeper>, woken: seq<Sleeper>, all: seq<Sleeper>, due: seq<Sleeper>)
    requires now <= target && Waits(now, pending, all) && WokenInOrder(now, woken, all)
    requires Sorted(due) && forall x :: x in due ==> x in pending && x.key.deadline <= target
    ensures WokenInOrder(target, woken + due, all)
  {
    JoinSorted(woken, due, now);
  }

  lemma {:induction false} WakingLosesNobody(
    all: seq<Sleeper>, dropped: set<Key>, pending: seq<Sleeper>, woken: seq<Sleeper>,
    due: seq<Sleeper>, rest: seq<Sleeper>)
    requires NobodyLost(all, dropped, pending, woken)
    requires forall x :: x in pending ==> x in due || x in rest
    ensures NobodyLost(all, dropped, rest, woken + due)
  {
  }

  lemma {:induction false} AdvanceWakes(
    s: State, target: nat, all: seq<Sleeper>, dropped: set<Key>, woken: seq<Sleeper>)
    requires Waits(s.now, s.sleepers, all) && WokenInOrder(s.now, woken, all)
    requires NobodyLost(all, dropped, s.sleepers, woken)
    ensures var n, due := Advanced(s, target), Woken(s, target);
      && Waits(n.now, n.sleepers, all) && WokenInOrder(n.now, woken + due, all)
      && NobodyLost(all, dropped, n.sleepers, woken + due)
  {
    var n, due := Advanced(s, target), Woken(s, target);
    if target >= s.now {
      SplitAtDue(s.sleepers, target, due, n.sleepers);
      WakesInOrder(s.now, target, s.sleepers, woken, all, due);
      WakingLosesNobody(all, dropped, s.sleepers, woken, due, n.sleepers);
    } else {
      assert woken + due == woken;
    }
  }

  lemma {:induction false} AdvanceKeeps(h: History, target: nat)
    requires Invariant(h)
    ensures Invariant(Then(h, Advance(target)))
  {
    AdvanceWakes(Run(h), target, Registered(h), Dropped(h), AllWoken(h));
  }

  /**
   * Over every run with at most 2^64 registrations: whoever is pending has a deadline after
   * now, whoever was taken out to be woken had become due, taking out follows deadline and
   * registration order without repeats, and no sleep that was not dropped is lost.
   */
  lemma {:induction false} InvariantHolds(h: History)
    requires |Registered(h)| <= U64
    ensures Invariant(h)
  {
    if h != Start {
      InvariantHolds(h.before);
      match h.event
      case Sleep(deadline, id) =>
        if deadline > Run(h.before).now {
          SleepKeeps(h.before, deadline, id);
        }
      case Drop(key) => DropKeeps(h.before, key);
      case Advance(target) => AdvanceKeeps(h.before, target);
    }
  }

  /** An advance wakes exactly the pending sleepers that are due by its target. */
  lemma {:induction false} AdvanceWakesDue(h: History, target: nat, x: Sleeper)
    requires |Registered(h)| <= U64 && target >= Run(h).now
    ensures x in Woken(Run(h), target) <==> x in Run(h).sleepers && x.key.deadline <= target
    ensures x in Advanced(Run(h), target).sleepers <==> x in Run(h).sleepers && x.key.deadline > target
  {
    InvariantHolds(h);
    DueIsPrefix(Run(h).sleepers, target);
  }

  /** Time never goes back. */
  lemma {:induction false} TimeNeverGoesBack(h: History, e: Event)
    ensures Run(Then(h, e)).now >= Run(h).now
  {
  }

  /**
   * Of two sleeps for one deadline the second displaces the first exactly when registration
   * numbers have run out.
   */
  lemma {:induction false} DisplacedIff(s: State, deadline: nat, a: nat, b: nat)
    requires Sorted(s.sleepers) && s.nextSequence <= MAX && deadline > s.now && a != b
    ensures var first := Sleeper(KeyFor(s, deadline), a);
      first in Slept(Slept(s, deadline, a), deadline, b).sleepers <==> s.nextSequence < MAX
  {
    var one := Slept(s, deadline, a);
    InsertInOrder(s.sleepers, Sleeper(KeyFor(s, deadline), a));
    InsertInOrder(one.sleepers, Sleeper(KeyFor(one, deadline), b));
  }
}
