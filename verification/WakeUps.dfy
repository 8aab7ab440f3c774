/**
 * Delivering wake-ups. An advance takes the due sleepers out of the clock in one step and then
 * sends to them one by one, yielding in between, so that advances may overlap.
 */
module WakeUps {
  import opened Bytes
  import opened ManualClock

  /** Something happens to the clock, or an advance makes its next send; advances are numbered in order. */
  datatype Step = Tick(event: Event) | Send(advance: nat)

  datatype Trace = Quiet | More(before: Trace, step: Step)

  /** What has happened to the clock. */
  function HistoryOf(t: Trace): (h: History) {
    match t
    case Quiet => Start
    case More(before, Tick(event)) => Then(HistoryOf(before), event)
    case More(before, Send(_)) => HistoryOf(before)
  }

  /** Whom each advance took out, in order. */
  function Batches(t: Trace): (batches: seq<seq<Sleeper>>) {
    match t
    case Quiet => []
    case More(before, Tick(Advance(target))) => Batches(before) + [Woken(Run(HistoryOf(before)), target)]
    case More(before, _) => Batches(before)
  }

  /** A send: which advance made it, and which of its sleepers it was for. */
  datatype Delivery = Delivery(advance: nat, index: nat)

  function Count(sent: seq<Delivery>, a: nat): (n: nat) {
    if sent == [] then 0
    else Count(sent[..|sent| - 1], a) + if sent[|sent| - 1].advance == a then 1 else 0
  }

  /** The advance has someone left to send to. */
  predicate CanSend(batches: seq<seq<Sleeper>>, sent: seq<Delivery>, a: nat) {
    a < |batches| && Count(sent, a) < |batches[a]|
  }

  /** All sends, in order; an advance that is done sends nothing more. */
  function Deliveries(t: Trace): (sent: seq<Delivery>) {
    match t
    case Quiet => []
    case More(before, Tick(_)) => Deliveries(before)
    case More(before, Send(a)) =>
      var sent := Deliveries(before);
      if CanSend(Batches(before), sent, a) then sent + [Delivery(a, Count(sent, a))] else sent
  }

  // ----- sends are numbered -----

  /** Each advance sends to its sleepers one after the other. */
  ghost predicate InSequence(batches: seq<seq<Sleeper>>, sent: seq<Delivery>) {
    && (forall i :: 0 <= i < |sent| ==> sent[i].index == Count(sent[..i], sent[i].advance))
    && (forall i :: 0 <= i < |sent| ==>
      sent[i].advance < |batches| && sent[i].index < |batches[sent[i].advance]|)
  }

  lemma {:induction false} CountOneMore(sent: seq<Delivery>, d: Delivery, a: nat)
    ensures Count(sent + [d], a) == Count(sent, a) + if d.advance == a then 1 else 0
  {
    assert (sent + [d])[..|sent|] == sent;
  }

  lemma {:induction false} CountGrows(sent: seq<Delivery>, i: nat, j: nat, a: nat)
    requires i <= j <= |sent|
    ensures Count(sent[..i], a) <= Count(sent[..j], a)
    decreases j
  {
    if i < j {
      CountGrows(sent, i, j - 1, a);
      assert sent[..j] == sent[..j - 1] + [sent[j - 1]];
      CountOneMore(sent[..j - 1], sent[j - 1], a);
    }
  }

  /** Batches that were taken out stay as they are. */
  lemma {:induction false} MoreBatches(batches: seq<seq<Sleeper>>, batch: seq<Sleeper>, sent: seq<Delivery>)
    requires InSequence(batches, sent)
    ensures InSequence(batches + [batch], sent)
  {
    forall i | 0 <= i < |sent|
      ensures sent[i].advance < |batches + [batch]| && sent[i].index < |(batches + [batch])[sent[i].advance]|
    {
      assert (batches + [batch])[sent[i].advance] == batches[sent[i].advance];
    }
  }

  lemma {:induction false} OneMoreSend(batches: seq<seq<Sleeper>>, sent: seq<Delivery>, a: nat)
    requires InSequence(batches, sent) && CanSend(batches, sent, a)
    ensures InSequence(batches, sent + [Delivery(a, Count(sent, a))])
  {
    var more := sent + [Delivery(a, Count(sent, a))];
    forall i | 0 <= i < |more|
      ensures more[i].index == Count(more[..i], more[i].advance)
      ensures more[i].advance < |batches| && more[i].index < |batches[more[i].advance]|
    {
      assert more[..i] == sent[..i];
      if i == |sent| {
        assert sent[..i] == sent;
      } else {
        assert more[i] == sent[i];
      }
    }
  }

  lemma {:induction false} SendsInSequence(t: Trace)
    ensures InSequence(Batches(t), Deliveries(t))
  {
    match t
    case Quiet =>
    case More(before, step) =>
      SendsInSequence(before);
      match step
      case Tick(event) =>
        if event.Advance? {
          MoreBatches(Batches(before), Woken(Run(HistoryOf(before)), event.target), Deliveries(before));
        }
      case Send(a) =>
        if CanSend(Batches(before), Deliveries(before), a) {
          OneMoreSend(Batches(before), Deliveries(before), a);
        }
  }

  /** Who was sent to, in order. */
  function Delivered(t: Trace): (sleepers: seq<Sleeper>)
    ensures |sleepers| == |Deliveries(t)|
  {
    SendsInSequence(t);
    var batches, sent := Batches(t), Deliveries(t);
    seq(|sent|, i requires 0 <= i < |sent| => batches[sent[i].advance][sent[i].index])
  }

  lemma {:induction false} LaterIndex(batches: seq<seq<Sleeper>>, sent: seq<Delivery>, i: nat, j: nat)
    requires InSequence(batches, sent) && i < j < |sent| && sent[i].advance == sent[j].advance
    ensures sent[i].index < sent[j].index
  {
    var a := sent[i].advance;
    assert sent[..i + 1] == sent[..i] + [sent[i]];
    CountOneMore(sent[..i], sent[i], a);
    CountGrows(sent, i + 1, j, a);
  }

  // ----- batches are ordered -----

  /** In each batch, and from one batch to the next, deadlines and registrations ascend. */
  ghost predicate Ascending(batches: seq<seq<Sleeper>>) {
    && (forall a :: 0 <= a < |batches| ==> Sorted(batches[a]))
    && (forall a, b :: 0 <= a < b < |batches| ==> AllBefore(batches[a], batches[b]))
  }

  ghost predicate AllBefore(first: seq<Sleeper>, second: seq<Sleeper>) {
    forall x, y :: x in first && y in second ==> Less(x.key, y.key)
  }

  ghost predicate InSomeBatch(batches: seq<seq<Sleeper>>, x: Sleeper) {
    exists a :: 0 <= a < |batches| && x in batches[a]
  }

  lemma {:induction false} InOneMoreBatch(batches: seq<seq<Sleeper>>, batch: seq<Sleeper>, x: Sleeper)
    ensures InSomeBatch(batches + [batch], x) <==> InSomeBatch(batches, x) || x in batch
  {
    var more := batches + [batch];
    if InSomeBatch(batches, x) {
      var a :| 0 <= a < |batches| && x in batches[a];
      assert x in more[a];
    }
    if x in batch {
      assert x in more[|batches|];
    }
  }

  /** The batches hold exactly those who were taken out. */
  lemma {:induction false} BatchesHold(t: Trace, x: Sleeper)
    ensures InSomeBatch(Batches(t), x) <==> x in AllWoken(HistoryOf(t))
  {
    match t
    case Quiet =>
    case More(before, step) =>
      BatchesHold(before, x);
      if step.Tick? && step.event.Advance? {
        InOneMoreBatch(Batches(before), Woken(Run(HistoryOf(before)), step.event.target), x);
      }
  }

  lemma {:induction false} OneMoreAscends(batches: seq<seq<Sleeper>>, batch: seq<Sleeper>, now: nat)
    requires Ascending(batches) && Sorted(batch)
    requires forall x :: InSomeBatch(batches, x) ==> x.key.deadline <= now
    requires forall x :: x in batch ==> x.key.deadline > now
    ensures Ascending(batches + [batch])
  {
    var more := batches + [batch];
    forall a, b | 0 <= a < b < |more|
      ensures AllBefore(more[a], more[b])
    {
      assert more[a] == batches[a];
      if b == |batches| {
        forall x, y | x in batches[a] && y in batch
          ensures Less(x.key, y.key)
        {
          assert InSomeBatch(batches, x);
        }
      } else {
        assert more[b] == batches[b];
      }
    }
  }

  lemma {:induction false} BatchesAscend(t: Trace)
    requires |Registered(HistoryOf(t))| <= U64
    ensures Ascending(Batches(t))
  {
    match t
    case Quiet =>
    case More(before, step) =>
      BatchesAscend(before);
      if step.Tick? && step.event.Advance? {
        var h, target := HistoryOf(before), step.event.target;
        InvariantHolds(h);
        forall x | InSomeBatch(Batches(before), x)
          ensures x.key.deadline <= Run(h).now
        {
          BatchesHold(before, x);
        }
        TakenOutSorted(Run(h), target, Registered(h));
        OneMoreAscends(Batches(before), Woken(Run(h), target), Run(h).now);
      }
  }

  lemma {:induction false} TakenOutSorted(s: State, target: nat, all: seq<Sleeper>)
    requires Waits(s.now, s.sleepers, all)
    ensures Sorted(Woken(s, target)) && forall x :: x in Woken(s, target) ==> x.key.deadline > s.now
  {
    if target >= s.now {
      SplitSorted(s.sleepers, DueCount(s.sleepers, target));
    }
  }

  // ----- what is promised of every trace -----

  /** Who was sent to by one advance, in order. */
  function DeliveredBy(t: Trace, a: nat): (sleepers: seq<Sleeper>) {
    match t
    case Quiet => []
    case More(before, Tick(_)) => DeliveredBy(before, a)
    case More(before, Send(b)) =>
      if b == a && CanSend(Batches(before), Deliveries(before), a)
      then DeliveredBy(before, a) + [Batches(before)[a][Count(Deliveries(before), a)]]
      else DeliveredBy(before, a)
  }

  /** Each advance sends to those it took out, in their order, one by one from the first. */
  lemma {:induction false} AdvanceDeliversInOrder(t: Trace, a: nat)
    ensures a >= |Batches(t)| ==> DeliveredBy(t, a) == [] && Count(Deliveries(t), a) == 0
    ensures a < |Batches(t)| ==> Count(Deliveries(t), a) <= |Batches(t)[a]|
    ensures a < |Batches(t)| ==> DeliveredBy(t, a) == Batches(t)[a][..Count(Deliveries(t), a)]
  {
    match t
    case Quiet =>
    case More(before, step) =>
      AdvanceDeliversInOrder(before, a);
      match step
      case Tick(_) =>
      case Send(b) =>
        var batches, sent := Batches(before), Deliveries(before);
        if CanSend(batches, sent, b) {
          CountOneMore(sent, Delivery(b, Count(sent, b)), a);
          if a == b {
            TakeOneMore(batches[a], Count(sent, a));
          }
        }
  }

  lemma {:induction false} TakeOneMore(s: seq<Sleeper>, n: nat)
    requires n < |s|
    ensures s[..n] + [s[n]] == s[..n + 1]
  {
  }

  /** No send of an advance comes after one of a later advance. */
  ghost predicate InTurn(sent: seq<Delivery>) {
    forall i, j :: 0 <= i < j < |sent| ==> sent[i].advance <= sent[j].advance
  }

  lemma {:induction false} OrderOfTwo(t: Trace, i: nat, j: nat)
    requires |Registered(HistoryOf(t))| <= U64 && i < j < |Deliveries(t)|
    ensures var sent, to := Deliveries(t), Delivered(t);
      && (sent[i].advance <= sent[j].advance <==> Less(to[i].key, to[j].key))
      && to[i] != to[j]
  {
    var batches, sent, to := Batches(t), Deliveries(t), Delivered(t);
    SendsInSequence(t);
    BatchesAscend(t);
    var a, b := sent[i].advance, sent[j].advance;
    assert to[i] in batches[a] && to[j] in batches[b];
    if a == b {
      LaterIndex(batches, sent, i, j);
    } else if a < b {
      assert AllBefore(batches[a], batches[b]);
    } else {
      assert AllBefore(batches[b], batches[a]);
    }
  }

  /**
   * Over every trace with at most 2^64 registrations: nobody is sent to twice, and all sends
   * follow deadline and registration order if and only if advances send in turn.
   */
  lemma {:induction false} DeliveredInOrderIff(t: Trace)
    requires |Registered(HistoryOf(t))| <= U64
    ensures forall i, j :: 0 <= i < j < |Delivered(t)| ==> Delivered(t)[i] != Delivered(t)[j]
    ensures Sorted(Delivered(t)) <==> InTurn(Deliveries(t))
  {
    var sent, to := Deliveries(t), Delivered(t);
    forall i, j | 0 <= i < j < |sent|
      ensures sent[i].advance <= sent[j].advance <==> Less(to[i].key, to[j].key)
      ensures to[i] != to[j]
    {
      OrderOfTwo(t, i, j);
    }
  }

  lemma {:induction false} TwoAsleep(first: Sleeper, second: Sleeper) returns (t: Trace)
    requires first == Sleeper(Key(1, 0), 0) && second == Sleeper(Key(2, 1), 1)
    ensures Run(HistoryOf(t)) == State(0, 2, [first, second]) && Registered(HistoryOf(t)) == [first, second]
    ensures Batches(t) == [] && Deliveries(t) == []
  {
    var t1 := More(Quiet, Tick(Sleep(1, 0)));
    assert Run(HistoryOf(t1)) == State(0, 1, [first]) && Registered(HistoryOf(t1)) == [first];
    t := More(t1, Tick(Sleep(2, 1)));
  }

  /** An advance to the deadline of the first sleeper takes out that one alone. */
  lemma {:induction false} TakesOutFirst(t: Trace, target: nat, first: Sleeper, others: seq<Sleeper>)
    returns (more: Trace)
    requires Run(HistoryOf(t)).sleepers == [first] + others && Run(HistoryOf(t)).now < target == first.key.deadline
    requires others != [] ==> others[0].key.deadline > target
    ensures Run(HistoryOf(more)) == Run(HistoryOf(t)).(now := target, sleepers := others)
    ensures Registered(HistoryOf(more)) == Registered(HistoryOf(t))
    ensures Batches(more) == Batches(t) + [[first]] && Deliveries(more) == Deliveries(t)
  {
    more := More(t, Tick(Advance(target)));
    var sleepers := [first] + others;
    assert sleepers[1..] == others && sleepers[0] == first;
    assert DueCount(sleepers, target) == 1;
    assert sleepers[..1] == [first];
  }

  /** Advances may fail to send in turn: two overlap, and the second one sends first. */
  lemma {:induction false} OverlapReorders() returns (t: Trace)
    ensures |Registered(HistoryOf(t))| <= U64 && !Sorted(Delivered(t))
  {
    var first, second := Sleeper(Key(1, 0), 0), Sleeper(Key(2, 1), 1);
    t := TwoAsleep(first, second);
    t := TakesOutFirst(t, 1, first, [second]);
    t := TakesOutFirst(t, 2, second, []);
    SecondSendsFirst(t);
    t := More(More(t, Send(1)), Send(0));
    assert !InTurn(Deliveries(t)) by {
      assert Deliveries(t)[0].advance > Deliveries(t)[1].advance;
    }
    DeliveredInOrderIff(t);
  }

  lemma {:induction false} SecondSendsFirst(t: Trace)
    requires Deliveries(t) == [] && |Batches(t)| == 2 && Batches(t)[0] != [] && Batches(t)[1] != []
    ensures var more := More(More(t, Send(1)), Send(0));
      HistoryOf(more) == HistoryOf(t) && Deliveries(more) == [Delivery(1, 0), Delivery(0, 0)]
  {
    assert Count([], 0) == 0 && Count([], 1) == 0;
    var once := More(t, Send(1));
    assert Deliveries(once) == [Delivery(1, 0)] && Batches(once) == Batches(t);
    CountOneMore([], Delivery(1, 0), 0);
    assert [] + [Delivery(1, 0)] == [Delivery(1, 0)];
  }

  /** Taken out and not yet sent to. */
  ghost predicate InFlight(t: Trace, x: Sleeper) {
    exists a, k :: 0 <= a < |Batches(t)| && Count(Deliveries(t), a) <= k < |Batches(t)[a]| && Batches(t)[a][k] == x
  }

  lemma {:induction false} WasSent(sent: seq<Delivery>, a: nat, k: nat)
    requires forall i :: 0 <= i < |sent| ==> sent[i].index == Count(sent[..i], sent[i].advance)
    requires k < Count(sent, a)
    ensures Delivery(a, k) in sent
  {
    var last := |sent| - 1;
    var front := sent[..last];
    assert forall i :: 0 <= i < last ==> front[i] == sent[i] && front[..i] == sent[..i];
    if k < Count(front, a) {
      WasSent(front, a, k);
    } else {
      assert sent[last] == Delivery(a, k);
    }
  }

  lemma {:induction false} SentOrInFlight(t: Trace, a: nat, k: nat)
    requires a < |Batches(t)| && k < |Batches(t)[a]|
    ensures InFlight(t, Batches(t)[a][k]) || Batches(t)[a][k] in Delivered(t)
  {
    var sent := Deliveries(t);
    if k < Count(sent, a) {
      SendsInSequence(t);
      WasSent(sent, a, k);
      var i :| 0 <= i < |sent| && sent[i] == Delivery(a, k);
      assert Delivered(t)[i] == Batches(t)[a][k];
    }
  }

  lemma {:induction false} TakenOut(t: Trace, x: Sleeper)
    requires x in AllWoken(HistoryOf(t))
    ensures InFlight(t, x) || x in Delivered(t)
  {
    BatchesHold(t, x);
    var batches := Batches(t);
    var a :| 0 <= a < |batches| && x in batches[a];
    var k :| 0 <= k < |batches[a]| && batches[a][k] == x;
    SentOrInFlight(t, a, k);
  }

  /** Nobody is lost on the way: a sleep that was not dropped is pending, in flight or was sent to. */
  lemma {:induction false} NobodyLostOnTheWay(t: Trace, x: Sleeper)
    requires |Registered(HistoryOf(t))| <= U64
    requires x in Registered(HistoryOf(t)) && x.key !in Dropped(HistoryOf(t))
    ensures x in Run(HistoryOf(t)).sleepers || InFlight(t, x) || x in Delivered(t)
  {
    InvariantHolds(HistoryOf(t));
    if x in AllWoken(HistoryOf(t)) {
      TakenOut(t, x);
    }
  }
}
