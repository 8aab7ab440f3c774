/**
 * The lock-free memory counters under any interleaving of allocations, reallocations and
 * deallocations: every atomic access is a step of its own, and a weak compare-and-swap may fail
 * for no reason. Counters wrap at 64 bits, as in a build without overflow checks.
 */
module MemoryCounters {
  import opened Bytes

  // ----- state -----

  /** Where a call stands; `more` is what a reallocation adds after subtracting. */
  datatype Pc =
    | CountAllocated(bytes: nat)
    | CountReallocated(amount: nat, bytes: nat)
    | CountDeallocated(bytes: nat, more: Option<nat>)
    | LoadLive(amount: nat, more: Option<nat>)
    | Subtract(amount: nat, more: Option<nat>, observed: nat)
    | Add(bytes: nat)
    | LoadPeak(candidate: nat)
    | Raise(candidate: nat, observed: nat)
    | Done

  /** `gained` and `freed` are the counters of allocated and deallocated bytes. */
  datatype State = State(live: nat, peak: nat, gained: nat, freed: nat, calls: seq<Pc>)

  const INITIAL := State(0, 0, 0, 0, [])

  datatype Event =
    | Allocate(bytes: nat)
    | Deallocate(bytes: nat)
    | Reallocate(amount: nat, bytes: nat)
    | Step(call: nat, spurious: bool)

  function Wrap(n: nat): (r: nat)
    ensures r < U64
    ensures n < U64 ==> r == n
  {
    n % U64
  }

  function SaturatingSub(n: nat, amount: nat): (r: nat)
    ensures r <= n
  {
    if n >= amount then n - amount else 0
  }

  function Set(s: State, i: nat, pc: Pc): (next: State)
    requires i < |s.calls|
  {
    s.(calls := s.calls[i := pc])
  }

  function AfterSubtract(more: Option<nat>): (pc: Pc) {
    if more.Some? then Add(more.value) else Done
  }

  /** One atomic access of call `i`. */
  function Access(s: State, i: nat, spurious: bool): (next: State)
    requires i < |s.calls|
  {
    match s.calls[i]
    case CountAllocated(bytes) =>
      Set(s, i, Add(bytes)).(gained := Wrap(s.gained + bytes))
    case CountReallocated(amount, bytes) =>
      Set(s, i, CountDeallocated(amount, Some(bytes))).(gained := Wrap(s.gained + bytes))
    case CountDeallocated(amount, more) =>
      Set(s, i, LoadLive(amount, more)).(freed := Wrap(s.freed + amount))
    case LoadLive(amount, more) => Set(s, i, Subtract(amount, more, s.live))
    case Subtract(amount, more, observed) =>
      if s.live == observed && !spurious
      then Set(s, i, AfterSubtract(more)).(live := SaturatingSub(observed, amount))
      else Set(s, i, Subtract(amount, more, s.live))
    case Add(bytes) => Set(s, i, LoadPeak(Wrap(s.live + bytes))).(live := Wrap(s.live + bytes))
    case LoadPeak(candidate) => Set(s, i, Raise(candidate, s.peak))
    case Raise(candidate, observed) =>
      if candidate <= observed then Set(s, i, Done)
      else if s.peak == observed && !spurious then Set(s, i, Done).(peak := candidate)
      else Set(s, i, Raise(candidate, s.peak))
    case Done => s
  }

  function Next(s: State, e: Event): (next: State) {
    match e
    case Allocate(bytes) => s.(calls := s.calls + [CountAllocated(bytes)])
    case Deallocate(bytes) => s.(calls := s.calls + [CountDeallocated(bytes, None)])
    case Reallocate(amount, bytes) => s.(calls := s.calls + [CountReallocated(amount, bytes)])
    case Step(i, spurious) => if i < |s.calls| then Access(s, i, spurious) else s
  }

  datatype History = Start | Then(before: History, event: Event)

  function Run(h: History): (s: State) {
    match h
    case Start => INITIAL
    case Then(before, event) => Next(Run(before), event)
  }

  predicate Quiet(s: State) {
    forall i :: 0 <= i < |s.calls| ==> s.calls[i] == Done
  }

  // ----- the peak -----

  /** The largest value `live` held at any moment. */
  function Highest(h: History): (n: nat)
    ensures n >= Run(h).live
  {
    match h
    case Start => 0
    case Then(before, _) =>
      if Run(h).live > Highest(before) then Run(h).live else Highest(before)
  }

  predicate Pending(pc: Pc) {
    pc.LoadPeak? || pc.Raise?
  }

  ghost predicate CallValid(pc: Pc, peak: nat, highest: nat) {
    && (Pending(pc) ==> pc.candidate <= highest)
    && (pc.Raise? ==> pc.observed <= peak)
  }

  /** The highest value is recorded, or some call still has it in hand. */
  ghost predicate Accounted(s: State, highest: nat) {
    s.peak == highest
    || exists i :: 0 <= i < |s.calls| && Pending(s.calls[i]) && s.calls[i].candidate == highest
  }

  ghost predicate PeakInvariant(s: State, highest: nat) {
    && s.live <= highest && s.peak <= highest
    && (forall i :: 0 <= i < |s.calls| ==> CallValid(s.calls[i], s.peak, highest))
    && Accounted(s, highest)
  }

  function Max(a: nat, b: nat): (m: nat) {
    if a > b then a else b
  }

  /** The values in hand stay bounded and the peak never falls. */
  lemma {:induction false} AccessKeepsBounds(s: State, highest: nat, i: nat, spurious: bool)
    requires PeakInvariant(s, highest) && i < |s.calls|
    ensures var n := Access(s, i, spurious);
      var higher := Max(n.live, highest);
      && s.peak <= n.peak <= higher
      && forall j :: 0 <= j < |n.calls| ==> CallValid(n.calls[j], n.peak, higher)
  {
    assert CallValid(s.calls[i], s.peak, highest);
  }

  /** A call that had the highest value in hand still has it, or has recorded it. */
  lemma {:induction false} AccessKeepsAccount(s: State, highest: nat, i: nat, spurious: bool)
    requires PeakInvariant(s, highest) && i < |s.calls|
    ensures var n := Access(s, i, spurious);
      Accounted(n, Max(n.live, highest))
  {
    var n := Access(s, i, spurious);
    assert CallValid(s.calls[i], s.peak, highest);
    if n.live >= highest && s.calls[i].Add? {
      assert n.calls[i].candidate == Max(n.live, highest);
    } else if s.peak != highest {
      var j :| 0 <= j < |s.calls| && Pending(s.calls[j]) && s.calls[j].candidate == highest;
      assert j != i ==> n.calls[j] == s.calls[j];
      assert n.peak == highest || (Pending(n.calls[j]) && n.calls[j].candidate == highest);
    }
  }

  lemma {:induction false} CallKeepsPeak(s: State, highest: nat, pc: Pc)
    requires PeakInvariant(s, highest) && !Pending(pc)
    ensures PeakInvariant(s.(calls := s.calls + [pc]), highest)
  {
    var calls := s.calls + [pc];
    if s.peak != highest {
      var j :| 0 <= j < |s.calls| && Pending(s.calls[j]) && s.calls[j].candidate == highest;
      assert calls[j] == s.calls[j];
    }
  }

  lemma {:induction false} PeakHolds(h: History)
    ensures PeakInvariant(Run(h), Highest(h))
  {
    if h != Start {
      PeakHolds(h.before);
      var s, highest := Run(h.before), Highest(h.before);
      match h.event
      case Allocate(bytes) => CallKeepsPeak(s, highest, CountAllocated(bytes));
      case Deallocate(bytes) => CallKeepsPeak(s, highest, CountDeallocated(bytes, None));
      case Reallocate(amount, bytes) => CallKeepsPeak(s, highest, CountReallocated(amount, bytes));
      case Step(i, spurious) =>
        if i < |s.calls| {
          AccessKeepsBounds(s, highest, i, spurious);
          AccessKeepsAccount(s, highest, i, spurious);
        }
    }
  }

  /** Once all calls have finished, the recorded peak is the largest value `live` ever held. */
  lemma {:induction false} PeakIsHighest(h: History)
    requires Quiet(Run(h))
    ensures Run(h).peak == Highest(h)
  {
    PeakHolds(h);
  }

  /** On the way there the peak never falls, and never exceeds what `live` has reached. */
  lemma {:induction false} PeakNeverFalls(h: History, e: Event)
    ensures Run(h).peak <= Run(Then(h, e)).peak <= Highest(Then(h, e))
  {
    PeakHolds(h);
    PeakHolds(Then(h, e));
    if e.Step? && e.call < |Run(h).calls| {
      AccessKeepsBounds(Run(h), Highest(h), e.call, e.spurious);
    }
  }

  // ----- conservation -----

  /** Bytes a call has counted as allocated but not yet added, less those not yet subtracted. */
  function Owed(pc: Pc): (n: int) {
    match pc
    case CountAllocated(_) => 0
    case CountReallocated(_, _) => 0
    case CountDeallocated(_, more) => if more.Some? then more.value else 0
    case LoadLive(amount, more) => (if more.Some? then more.value else 0) - amount
    case Subtract(amount, more, _) => (if more.Some? then more.value else 0) - amount
    case Add(bytes) => bytes
    case LoadPeak(_) => 0
    case Raise(_, _) => 0
    case Done => 0
  }

  function TotalOwed(calls: seq<Pc>): (n: int) {
    if calls == [] then 0 else TotalOwed(calls[..|calls| - 1]) + Owed(calls[|calls| - 1])
  }

  lemma {:induction false} TotalOwedSet(calls: seq<Pc>, i: nat, pc: Pc)
    requires i < |calls|
    ensures TotalOwed(calls[i := pc]) == TotalOwed(calls) - Owed(calls[i]) + Owed(pc)
  {
    var n := |calls| - 1;
    var changed := calls[i := pc];
    if i == n {
      assert changed[..n] == calls[..n];
    } else {
      TotalOwedSet(calls[..n], i, pc);
      assert changed[..n] == calls[..n][i := pc];
    }
  }

  lemma {:induction false} TotalOwedQuiet(calls: seq<Pc>)
    requires forall i :: 0 <= i < |calls| ==> calls[i] == Done
    ensures TotalOwed(calls) == 0
  {
    if calls != [] {
      TotalOwedQuiet(calls[..|calls| - 1]);
    }
  }

  /** No counter wrapped and no subtraction was cut off at zero. */
  ghost predicate Exact(s: State, e: Event) {
    e.Step? && e.call < |s.calls| ==>
      match s.calls[e.call]
      case CountAllocated(bytes) => s.gained + bytes < U64
      case CountReallocated(_, bytes) => s.gained + bytes < U64
      case CountDeallocated(amount, _) => s.freed + amount < U64
      case Subtract(amount, _, observed) => amount <= observed
      case Add(bytes) => s.live + bytes < U64
      case _ => true
  }

  ghost predicate ExactRun(h: History) {
    h.Then? ==> ExactRun(h.before) && Exact(Run(h.before), h.event)
  }

  ghost predicate Balanced(s: State) {
    s.live + TotalOwed(s.calls) == s.gained - s.freed
  }

  lemma {:induction false} AccessBalances(s: State, i: nat, spurious: bool)
    requires Balanced(s) && i < |s.calls| && Exact(s, Step(i, spurious))
    ensures Balanced(Access(s, i, spurious))
  {
    var n := Access(s, i, spurious);
    if n != s {
      TotalOwedSet(s.calls, i, n.calls[i]);
    }
  }

  /** In every run the live bytes are what was allocated less what was freed, up to calls under way. */
  lemma {:induction false} RunBalances(h: History)
    requires ExactRun(h)
    ensures Balanced(Run(h))
  {
    if h != Start {
      RunBalances(h.before);
      var s := Run(h.before);
      if h.event.Step? {
        if h.event.call < |s.calls| {
          AccessBalances(s, h.event.call, h.event.spurious);
        }
      } else {
        assert Run(h).calls[..|s.calls|] == s.calls;
      }
    }
  }

  /** Once all calls have finished, live bytes are allocated bytes less deallocated bytes. */
  lemma {:induction false} LiveIsConserved(h: History)
    requires ExactRun(h) && Quiet(Run(h))
    ensures Run(h).live == Run(h).gained - Run(h).freed
  {
    RunBalances(h);
    TotalOwedQuiet(Run(h).calls);
  }
}
