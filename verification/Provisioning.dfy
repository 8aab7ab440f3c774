/**
 * Provisioning and cleanup of test resources on a storage appliance. The appliance and the file
 * system may refuse any call; everything the run does to them is kept in a log, and the log is
 * what the safety properties are about.
 */
module Provisioning {
  import opened Bytes

  // ----- resources -----

  datatype VolumeRole = Functional | Performance | ContinuouslyAvailable

  datatype ShareRole =
    | Plain | Encrypted | PerformancePlain | PerformanceEncrypted | ContinuouslyAvailableShare

  datatype Kind = VolumeOf(volume: VolumeRole) | ShareOf(share: ShareRole) | Snapshot

  datatype Lifecycle = Planned | Created | Ready | OwnershipMismatch | Deleted

  datatype Mutation =
    | EveryoneAclRemoved(share: ShareRole)
    | TestAclGranted(share: ShareRole)
    | VolumeUnmounted(volume: VolumeRole)
    | VolumeOfflined(volume: VolumeRole)

  type Inventory = map<Kind, Lifecycle>

  /** What a manifest file holds. */
  datatype Saved = Saved(inventory: Inventory, mutations: seq<Mutation>)

  ghost predicate Complete(inventory: Inventory) {
    forall k: Kind :: k in inventory
  }

  predicate Owned(state: Lifecycle) {
    state == Created || state == Ready
  }

  function StateOf(inventory: Inventory, k: Kind): (state: Option<Lifecycle>) {
    if k in inventory then Some(inventory[k]) else None
  }

  predicate OwnedIn(inventory: Inventory, k: Kind) {
    k in inventory && Owned(inventory[k])
  }

  const CHILDREN: seq<Kind> := [
    ShareOf(Plain), ShareOf(Encrypted), Snapshot, ShareOf(PerformancePlain),
    ShareOf(PerformanceEncrypted), ShareOf(ContinuouslyAvailableShare)]

  const CLEANUP_ORDER: seq<Kind> := [
    Snapshot, ShareOf(ContinuouslyAvailableShare), ShareOf(PerformanceEncrypted),
    ShareOf(PerformancePlain), ShareOf(Encrypted), ShareOf(Plain),
    VolumeOf(ContinuouslyAvailable), VolumeOf(Performance), VolumeOf(Functional)]

  const VOLUMES: seq<VolumeRole> := [Functional, Performance, ContinuouslyAvailable]

  const SHARES: seq<ShareRole> :=
    [Plain, Encrypted, PerformancePlain, PerformanceEncrypted, ContinuouslyAvailableShare]

  const READY_ORDER: seq<Kind> := [
    VolumeOf(Functional), ShareOf(Plain), ShareOf(Encrypted), VolumeOf(Performance),
    ShareOf(PerformancePlain), ShareOf(PerformanceEncrypted), VolumeOf(ContinuouslyAvailable),
    ShareOf(ContinuouslyAvailableShare)]

  predicate IsChild(k: Kind) {
    !k.VolumeOf?
  }

  /** Some share or the snapshot is recorded as not ours. */
  ghost predicate ChildMismatch(inventory: Inventory) {
    exists k: Kind :: IsChild(k) && k in inventory && inventory[k] == OwnershipMismatch
  }

  predicate AnyMismatch(inventory: Inventory, kinds: seq<Kind>) {
    exists i :: 0 <= i < |kinds| && StateOf(inventory, kinds[i]) == Some(OwnershipMismatch)
  }

  predicate MayDelete(inventory: Inventory, k: Kind) {
    && StateOf(inventory, k) != Some(OwnershipMismatch)
    && !(k.VolumeOf? && AnyMismatch(inventory, CHILDREN))
    && OwnedIn(inventory, k)
  }

  lemma {:induction false} ChildrenListed(k: Kind)
    requires IsChild(k)
    ensures k in CHILDREN
  {
    match k
    case Snapshot => assert CHILDREN[2] == k;
    case ShareOf(role) =>
      match role
      case Plain => assert CHILDREN[0] == k;
      case Encrypted => assert CHILDREN[1] == k;
      case PerformancePlain => assert CHILDREN[3] == k;
      case PerformanceEncrypted => assert CHILDREN[4] == k;
      case ContinuouslyAvailableShare => assert CHILDREN[5] == k;
  }

  /** A kind may be deleted exactly when it is ours and, for a volume, no child is disowned. */
  lemma {:induction false} MayDeleteIff(inventory: Inventory, k: Kind)
    ensures MayDelete(inventory, k) <==>
      OwnedIn(inventory, k) && (k.VolumeOf? ==> !ChildMismatch(inventory))
  {
    if ChildMismatch(inventory) {
      var c: Kind :| IsChild(c) && c in inventory && inventory[c] == OwnershipMismatch;
      ChildrenListed(c);
      assert AnyMismatch(inventory, CHILDREN);
    }
    assert forall i :: 0 <= i < |CHILDREN| ==> IsChild(CHILDREN[i]);
  }

  // ----- the outside world -----

  datatype Action =
    | Create(kind: Kind) | RemoveEveryoneAcl(share: ShareRole) | GrantTestAcl(share: ShareRole)
    | VerifyReady(kind: Kind) | VerifyOwned(kind: Kind) | Delete(kind: Kind)
    | Unmount(volume: VolumeRole) | Offline(volume: VolumeRole)
    | Persist(next: Saved)

  /** A call fails, or succeeds; a verification that succeeds says yes or no. */
  datatype Reply = Refused | Done(yes: bool)

  /** A call, its outcome and what the run had in memory when it made the call. */
  datatype Entry = Entry(action: Action, reply: Reply, memory: Saved)

  datatype Log = Nothing | Then(before: Log, last: Entry)

  /** The call acts on the volume `k` itself. */
  predicate TakesAway(action: Action, k: Kind) {
    (action.Unmount? || action.Offline?) && k == VolumeOf(action.volume)
  }

  /**
   * The ownership of `k` has just been confirmed: since then nothing was done but taking this
   * very volume away and recording that.
   */
  predicate JustOwned(log: Log, k: Kind) {
    match log
    case Nothing => false
    case Then(before, e) =>
      if e.action.VerifyOwned? then e.action.kind == k && e.reply == Done(true)
      else (TakesAway(e.action, k) || RecordsMutation(e)) && JustOwned(before, k)
  }

  /** The call persists mutations and no new state of any resource. */
  predicate RecordsMutation(e: Entry) {
    e.action.Persist? && e.action.next.inventory == e.memory.inventory
  }

  /** What the manifest file holds: the latest content that was persisted. */
  function DiskOf(log: Log): (disk: Option<Saved>) {
    match log
    case Nothing => None
    case Then(before, e) =>
      if e.action.Persist? && e.reply.Done? then Some(e.action.next) else DiskOf(before)
  }

  ghost predicate NoRepeats(mutations: seq<Mutation>) {
    forall i, j :: 0 <= i < j < |mutations| ==> mutations[i] != mutations[j]
  }

  /** A volume is recorded as offlined only after it was recorded as unmounted. */
  ghost predicate UnmountedFirst(mutations: seq<Mutation>) {
    forall j :: 0 <= j < |mutations| && mutations[j].VolumeOfflined? ==>
      VolumeUnmounted(mutations[j].volume) in mutations[..j]
  }

  /** Disowned resources stay disowned and recorded mutations stay recorded. */
  ghost predicate Follows(disk: Option<Saved>, next: Saved) {
    && Complete(next.inventory) && NoRepeats(next.mutations)
    && (disk.Some? ==>
      && (forall k :: k in disk.value.inventory && disk.value.inventory[k] == OwnershipMismatch ==>
        k in next.inventory && next.inventory[k] == OwnershipMismatch)
      && disk.value.mutations <= next.mutations)
  }

  /** In memory a run knows what is on disk, except that it may have reset a deleted snapshot. */
  ghost predicate InStep(memory: Saved, disk: Saved) {
    && memory.mutations == disk.mutations
    && Complete(disk.inventory)
    && (memory.inventory == disk.inventory
      || (disk.inventory[Snapshot] == Deleted && memory.inventory == disk.inventory[Snapshot := Planned]))
  }

  /** What must be true of a call to the appliance or the file system when it is made. */
  ghost predicate Safe(before: Log, e: Entry) {
    && Permitted(before, e)
    && (!e.action.Persist? ==> DiskOf(before).Some? && InStep(e.memory, DiskOf(before).value))
  }

  ghost predicate Permitted(before: Log, e: Entry) {
    match e.action
    case Delete(k) =>
      && OwnedIn(e.memory.inventory, k)
      && JustOwned(before, k)
      && (k.VolumeOf? ==>
        && !ChildMismatch(e.memory.inventory)
        && VolumeUnmounted(k.volume) in e.memory.mutations
        && VolumeOfflined(k.volume) in e.memory.mutations)
    case Unmount(v) =>
      && OwnedIn(e.memory.inventory, VolumeOf(v)) && !ChildMismatch(e.memory.inventory)
      && JustOwned(before, VolumeOf(v))
    case Offline(v) =>
      && OwnedIn(e.memory.inventory, VolumeOf(v)) && !ChildMismatch(e.memory.inventory)
      && JustOwned(before, VolumeOf(v))
      && VolumeUnmounted(v) in e.memory.mutations
    case Persist(next) => Follows(DiskOf(before), next)
    case _ => true
  }

  ghost predicate SafeLog(log: Log) {
    log.Then? ==> SafeLog(log.before) && Safe(log.before, log.last)
  }

  /** `later` is `log` with more calls behind it. */
  ghost predicate Extends(later: Log, log: Log) {
    later == log || (later.Then? && Extends(later.before, log))
  }

  /** Every call since `log` was answered, and every question with yes. */
  ghost predicate Agreed(later: Log, log: Log) {
    later == log || (later.Then? && later.last.reply == Done(true) && Agreed(later.before, log))
  }

  function Size(log: Log): (n: nat) {
    if log.Nothing? then 0 else 1 + Size(log.before)
  }

  /** Call number `i` was answered as `replies(i)` says. */
  ghost predicate Answered(log: Log, replies: nat -> Reply) {
    log.Then? ==> log.last.reply == replies(Size(log.before)) && Answered(log.before, replies)
  }

  lemma {:induction false} LongerLog(later: Log, log: Log)
    requires Extends(later, log)
    ensures later != log ==> Size(later) > Size(log)
  {
    if later != log {
      LongerLog(later.before, log);
    }
  }

  lemma {:induction false} Chain(a: Log, b: Log, c: Log)
    requires Extends(a, b) && Extends(b, c)
    ensures Extends(a, c)
    ensures Agreed(a, c) ==> Agreed(a, b) && Agreed(b, c)
  {
    if a != b {
      Chain(a.before, b, c);
      LongerLog(a.before, c);
    }
  }

  /** The appliance and the file system; `replies` decides how every call turns out. */
  class World {
    const replies: nat -> Reply
    var calls: nat
    var disk: Option<Saved>
    ghost var log: Log

    /** The log tells what was asked and answered, and what the manifest file holds. */
    ghost predicate Recorded()
      reads this
    {
      calls == Size(log) && Answered(log, replies) && disk == DiskOf(log)
    }

    ghost predicate Valid()
      reads this
    {
      Recorded() && SafeLog(log)
    }

    constructor (replies: nat -> Reply)
      ensures Valid() && log == Nothing && this.replies == replies
    {
      this.replies, calls, disk, log := replies, 0, None, Nothing;
    }

    method Ask(action: Action, ghost memory: Saved) returns (r: Reply)
      requires Valid() && !action.Persist?
      requires forall reply :: Safe(log, Entry(action, reply, memory))
      modifies this
      ensures Valid() && disk == old(disk)
      ensures log == Then(old(log), Entry(action, r, memory))
      ensures r == replies(old(calls))
      ensures Agreed(log, old(log)) <==> r == Done(true)
    {
      r := replies(calls);
      calls := calls + 1;
      log := Then(log, Entry(action, r, memory));
      assert Size(log) == 1 + Size(old(log));
    }

    /** Replaces the manifest file, or leaves it as it was. */
    method Write(next: Saved, ghost memory: Saved) returns (ok: bool)
      requires Recorded()
      modifies this
      ensures Recorded() && (Valid() <==> old(Valid()) && Follows(old(disk), next))
      ensures ok <==> replies(old(calls)).Done?
      ensures disk == if ok then Some(next) else old(disk)
      ensures log.Then? && log.before == old(log)
      ensures log.last.action == Persist(next) && log.last.memory == memory
      ensures Agreed(log, old(log)) ==> ok
    {
      var r := replies(calls);
      calls := calls + 1;
      ok := r.Done?;
      if ok {
        disk := Some(next);
      }
      log := Then(log, Entry(Persist(next), r, memory));
      assert Size(log) == 1 + Size(old(log));
    }
  }

  // ----- manifests -----

  function PlannedInventory(): (inventory: Inventory)
    ensures forall k :: k in inventory ==> inventory[k] == Planned
  {
    map[
      VolumeOf(Functional) := Planned, ShareOf(Plain) := Planned, ShareOf(Encrypted) := Planned,
      Snapshot := Planned, VolumeOf(Performance) := Planned, ShareOf(PerformancePlain) := Planned,
      ShareOf(PerformanceEncrypted) := Planned, VolumeOf(ContinuouslyAvailable) := Planned,
      ShareOf(ContinuouslyAvailableShare) := Planned]
  }

  lemma {:induction false} PlannedIsComplete()
    ensures Complete(PlannedInventory())
  {
    forall k: Kind
      ensures k in PlannedInventory()
    {
      match k
      case Snapshot =>
      case VolumeOf(v) => match v { case Functional => case Performance => case ContinuouslyAvailable => }
      case ShareOf(r) =>
        match r {
          case Plain => case Encrypted => case PerformancePlain =>
          case PerformanceEncrypted => case ContinuouslyAvailableShare =>
        }
    }
  }

  lemma {:induction false} DiskIsValid(log: Log)
    requires SafeLog(log)
    ensures DiskOf(log).Some? ==>
      Complete(DiskOf(log).value.inventory) && NoRepeats(DiskOf(log).value.mutations)
  {
    if log.Then? {
      DiskIsValid(log.before);
    }
  }

  /** Recording `m` now would put the offline of a volume before its unmount. */
  predicate TooEarly(mutations: seq<Mutation>, m: Mutation) {
    m.VolumeOfflined? && VolumeUnmounted(m.volume) !in mutations
  }

  /** One more record breaks the order exactly when it comes too early. */
  lemma {:induction false} OrderBreaksIff(mutations: seq<Mutation>, m: Mutation)
    requires UnmountedFirst(mutations)
    ensures UnmountedFirst(mutations + [m]) <==> !TooEarly(mutations, m)
  {
    var next := mutations + [m];
    assert next[..|mutations|] == mutations;
    assert forall j :: 0 <= j < |mutations| ==> next[..j] == mutations[..j];
    assert next[|mutations|] == m;
  }

  /** An order that holds now held at every earlier time. */
  lemma {:induction false} OrderHeldBefore(earlier: seq<Mutation>, later: seq<Mutation>)
    requires earlier <= later && UnmountedFirst(later)
    ensures UnmountedFirst(earlier)
  {
    assert forall j :: 0 <= j < |earlier| ==> earlier[j] == later[j] && earlier[..j] == later[..j];
  }

  /** The manifest in memory knows every mismatch and every mutation that its file records. */
  ghost predicate Knows(memory: Saved, disk: Option<Saved>) {
    disk.Some? ==>
      && (forall k :: StateOf(disk.value.inventory, k) == Some(OwnershipMismatch) ==>
        StateOf(memory.inventory, k) == Some(OwnershipMismatch))
      && disk.value.mutations <= memory.mutations
  }

  lemma {:induction false} KnowsAll(next: Saved, disk: Option<Saved>)
    requires Complete(next.inventory) && NoRepeats(next.mutations)
    ensures Follows(disk, next) <==> Knows(next, disk)
  {
    if disk.Some? {
      assert forall j :: StateOf(disk.value.inventory, j) == Some(OwnershipMismatch) <==>
        j in disk.value.inventory && disk.value.inventory[j] == OwnershipMismatch;
    }
  }

  /** Recording a new state loses nothing exactly when the manifest knows what the file records. */
  lemma {:induction false} KnowsIff(memory: Saved, disk: Option<Saved>, k: Kind, to: Lifecycle)
    requires Complete(memory.inventory) && NoRepeats(memory.mutations)
    requires memory.inventory[k] != OwnershipMismatch
    ensures var next := memory.(inventory := memory.inventory[k := to]);
      Follows(disk, next) <==> Knows(if to == OwnershipMismatch then next else memory, disk)
  {
    var next := memory.(inventory := memory.inventory[k := to]);
    KnowsAll(next, disk);
    if to != OwnershipMismatch {
      assert forall j :: StateOf(next.inventory, j) == Some(OwnershipMismatch) <==>
        StateOf(memory.inventory, j) == Some(OwnershipMismatch);
    }
  }

  datatype Problem =
    | ManifestExists | NoManifest | NotPersisted | WrongPlan | ProvisionFailed(cleanupErrors: nat)

  class Run {
    const world: World
    var inventory: Inventory
    var mutations: seq<Mutation>

    ghost function Memory(): (m: Saved)
      reads this
    {
      Saved(inventory, mutations)
    }

    /** A manifest in memory, however old it is. */
    ghost predicate Live()
      reads this, world
    {
      world.Recorded() && Complete(inventory) && NoRepeats(mutations)
    }

    /** A manifest in memory that is as new as its file. */
    ghost predicate Valid()
      reads this, world
    {
      Live() && world.Valid() && world.disk.Some? && InStep(Memory(), world.disk.value)
    }

    /** Takes over what the manifest file holds. */
    constructor (world: World, saved: Saved)
      requires world.Valid() && world.disk == Some(saved)
      ensures this.world == world && Valid() && Memory() == saved
    {
      this.world, inventory, mutations := world, saved.inventory, saved.mutations;
      new;
      DiskIsValid(world.log);
    }

    /** Starts a run with nothing created, unless the manifest file is already there. */
    static method Create(world: World) returns (r: Result<Run, Problem>)
      requires world.Valid()
      modifies world
      ensures world.Valid() && Extends(world.log, old(world.log))
      ensures r.Ok? ==>
        && old(world.disk) == None && fresh(r.value) && r.value.world == world && r.value.Valid()
        && r.value.Memory() == Saved(PlannedInventory(), []) && world.disk == Some(r.value.Memory())
      ensures r.Err? ==> world.disk == old(world.disk)
      ensures old(world.disk).Some? ==> r == Err(ManifestExists) && world.log == old(world.log)
      ensures old(world.disk).None? && Agreed(world.log, old(world.log)) ==> r.Ok?
    {
      if world.disk.Some? {
        return Err(ManifestExists);
      }
      var saved := Saved(PlannedInventory(), []);
      PlannedIsComplete();
      var ok := world.Write(saved, saved);
      if !ok {
        return Err(NotPersisted);
      }
      var run := new Run(world, saved);
      r := Ok(run);
    }

    /** Reads the manifest file back. */
    static method Load(world: World) returns (r: Result<Run, Problem>)
      requires world.Valid()
      ensures r.Ok? <==> world.disk.Some?
      ensures r.Ok? ==>
        fresh(r.value) && r.value.world == world && r.value.Valid() && r.value.Memory() == world.disk.value
    {
      if world.disk.None? {
        return Err(NoManifest);
      }
      var run := new Run(world, world.disk.value);
      r := Ok(run);
    }

    /** Persists first; memory follows only when that succeeded. */
    method Commit(next: Saved) returns (ok: bool)
      requires Live() && Complete(next.inventory) && NoRepeats(next.mutations)
      modifies this, world
      ensures Live() && (old(Valid()) && Follows(old(world.disk), next) ==> Valid())
      ensures world.Valid() <==> old(world.Valid()) && Follows(old(world.disk), next)
      ensures Extends(world.log, old(world.log))
      ensures next.inventory == old(inventory) ==>
        forall k :: JustOwned(old(world.log), k) ==> JustOwned(world.log, k)
      ensures Memory() == if ok then next else old(Memory())
      ensures ok ==> world.disk == Some(next)
      ensures Agreed(world.log, old(world.log)) ==> ok
    {
      ok := world.Write(next, Memory());
      if ok {
        inventory, mutations := next.inventory, next.mutations;
      }
    }

    /** The transition of one resource from one of the allowed states. */
    method Record(k: Kind, allowed: set<Lifecycle>, to: Lifecycle) returns (ok: bool)
      requires Live() && OwnershipMismatch !in allowed
      modifies this, world
      ensures Live() && (old(Valid()) ==> Valid())
      ensures world.Valid() <==> old(world.Valid()) && (old(inventory)[k] in allowed ==>
        Knows(if to == OwnershipMismatch then old(Memory()).(inventory := old(inventory)[k := to]) else old(Memory()),
              old(world.disk)))
      ensures Extends(world.log, old(world.log))
      ensures mutations == old(mutations)
      ensures old(inventory)[k] !in allowed ==> !ok && world.log == old(world.log)
      ensures inventory == if ok then old(inventory)[k := to] else old(inventory)
      ensures ok ==> world.disk == Some(Memory())
      ensures Agreed(world.log, old(world.log)) && old(inventory)[k] in allowed ==> ok
    {
      if inventory[k] !in allowed {
        return false;
      }
      KnowsIff(Memory(), world.disk, k, to);
      ok := Commit(Saved(inventory[k := to], mutations));
    }

    method RecordMutation(m: Mutation) returns (ok: bool)
      requires Live()
      modifies this, world
      ensures Live() && (old(Valid()) ==> Valid())
      ensures world.Valid() <==> old(world.Valid()) && (m !in old(mutations) ==>
        Knows(old(Memory()).(mutations := old(mutations) + [m]), old(world.disk)))
      ensures Extends(world.log, old(world.log))
      ensures forall k :: JustOwned(old(world.log), k) ==> JustOwned(world.log, k)
      ensures inventory == old(inventory)
      ensures ok && old(UnmountedFirst(mutations)) ==>
        (UnmountedFirst(mutations) <==> !TooEarly(old(mutations), m))
      ensures m in old(mutations) ==> !ok && world.log == old(world.log)
      ensures mutations == if ok then old(mutations) + [m] else old(mutations)
      ensures ok ==> world.disk == Some(Memory())
      ensures Agreed(world.log, old(world.log)) && m !in old(mutations) ==> ok
    {
      if m in mutations {
        return false;
      }
      var next := mutations + [m];
      if UnmountedFirst(mutations) {
        OrderBreaksIff(mutations, m);
      }
      KnowsAll(Saved(inventory, next), world.disk);
      ok := Commit(Saved(inventory, next));
    }

    /** Asks whether a resource is ours and records it when it is not. */
    method VerifyOwned(k: Kind) returns (owned: bool)
      requires Valid() && MayDelete(inventory, k)
      modifies this, world
      ensures Valid() && mutations == old(mutations)
      ensures Extends(world.log, old(world.log))
      ensures owned ==> JustOwned(world.log, k) && inventory == old(inventory)
      ensures inventory == old(inventory) || inventory == old(inventory)[k := OwnershipMismatch]
      ensures Agreed(world.log, old(world.log)) ==> owned
    {
      var r := world.Ask(Action.VerifyOwned(k), Memory());
      owned := r == Done(true);
      if r == Done(false) {
        ghost var asked := world.log;
        var recorded := Record(k, {Created, Ready}, OwnershipMismatch);
        Chain(world.log, asked, old(world.log));
      }
    }

    /** Takes one step of taking a volume away, unless that is already recorded. */
    method Perform(action: Action, m: Mutation) returns (ok: bool)
      requires Valid()
      requires (action.Unmount? && m == VolumeUnmounted(action.volume))
        || (action.Offline? && m == VolumeOfflined(action.volume)
          && VolumeUnmounted(action.volume) in mutations)
      requires MayDelete(inventory, VolumeOf(action.volume))
      requires JustOwned(world.log, VolumeOf(action.volume))
      modifies this, world
      ensures Valid() && inventory == old(inventory) && old(mutations) <= mutations
      ensures old(UnmountedFirst(mutations)) ==> UnmountedFirst(mutations)
      ensures Extends(world.log, old(world.log)) && JustOwned(world.log, VolumeOf(action.volume))
      ensures ok ==> m in mutations
      ensures Agreed(world.log, old(world.log)) ==> ok
    {
      if m in mutations {
        return true;
      }
      MayDeleteIff(inventory, VolumeOf(action.volume));
      var r := world.Ask(action, Memory());
      if r.Refused? {
        return false;
      }
      ghost var asked := world.log;
      ok := RecordMutation(m);
      Chain(world.log, asked, old(world.log));
    }

    /** Unmounts and offlines a volume unless that is already recorded. */
    method TakeOffline(v: VolumeRole) returns (ok: bool)
      requires Valid() && MayDelete(inventory, VolumeOf(v))
      requires JustOwned(world.log, VolumeOf(v))
      modifies this, world
      ensures Valid() && inventory == old(inventory)
      ensures old(UnmountedFirst(mutations)) ==> UnmountedFirst(mutations)
      ensures Extends(world.log, old(world.log)) && JustOwned(world.log, VolumeOf(v))
      ensures ok ==> VolumeUnmounted(v) in mutations && VolumeOfflined(v) in mutations
      ensures Agreed(world.log, old(world.log)) ==> ok
    {
      ok := Perform(Unmount(v), VolumeUnmounted(v));
      if ok {
        ghost var unmounted := world.log;
        ok := Perform(Offline(v), VolumeOfflined(v));
        Chain(world.log, unmounted, old(world.log));
      }
    }

    /** Deletes a resource that was just found to be ours, and records it. */
    method DeleteOwned(k: Kind) returns (ok: bool)
      requires Valid() && MayDelete(inventory, k)
      requires JustOwned(world.log, k)
      requires k.VolumeOf? ==>
        VolumeUnmounted(k.volume) in mutations && VolumeOfflined(k.volume) in mutations
      modifies this, world
      ensures Valid() && mutations == old(mutations)
      ensures Extends(world.log, old(world.log))
      ensures inventory == if ok then old(inventory)[k := Deleted] else old(inventory)
      ensures Agreed(world.log, old(world.log)) ==> ok
    {
      MayDeleteIff(inventory, k);
      var r := world.Ask(Delete(k), Memory());
      if r.Refused? {
        return false;
      }
      ghost var asked := world.log;
      ok := Record(k, {Created, Ready}, Deleted);
      Chain(world.log, asked, old(world.log));
    }

    /** One round of cleanup; a resource is either deleted, disowned or left as it was. */
    method CleanupOne(k: Kind) returns (ok: bool)
      requires Valid()
      modifies this, world
      ensures Valid() && Extends(world.log, old(world.log))
      ensures old(UnmountedFirst(mutations)) ==> UnmountedFirst(mutations)
      ensures ok ==> inventory == old(inventory)[k := Deleted]
      ensures !ok ==>
        inventory == old(inventory) || inventory == old(inventory)[k := OwnershipMismatch]
      ensures Agreed(world.log, old(world.log)) && MayDelete(old(inventory), k) ==> ok
    {
      if !MayDelete(inventory, k) {
        return false;
      }
      ok := VerifyOwned(k);
      if !ok {
        return;
      }
      ghost var checked := world.log;
      if k.VolumeOf? {
        ok := TakeOffline(k.volume);
        if !ok {
          Chain(world.log, checked, old(world.log));
          return;
        }
      }
      ghost var offline := world.log;
      ok := DeleteOwned(k);
      Chain(world.log, offline, checked);
      Chain(world.log, checked, old(world.log));
    }

    /** Cleans up everything that is ours, in order; the result counts the errors. */
    method CleanupResources() returns (errors: nat)
      requires Valid()
      modifies this, world
      ensures Valid() && Extends(world.log, old(world.log))
      ensures old(UnmountedFirst(mutations)) ==> UnmountedFirst(mutations)
      ensures errors == 0 ==> forall k: Kind :: !OwnedIn(inventory, k)
      ensures Agreed(world.log, old(world.log)) && !ChildMismatch(old(inventory)) ==> errors == 0
    {
      var order := CleanupOrder(inventory);
      errors := 0;
      var i := 0;
      while i < |order|
        invariant 0 <= i <= |order|
        invariant Valid() && Extends(world.log, old(world.log))
        invariant old(UnmountedFirst(mutations)) ==> UnmountedFirst(mutations)
        invariant errors == 0 ==> NothingBefore(inventory, order, i)
        invariant Agreed(world.log, old(world.log)) && !ChildMismatch(old(inventory)) ==>
          errors == 0 && AllBehind(inventory, order, i)
      {
        ghost var before, now := world.log, inventory;
        MayDeleteIff(inventory, order[i]);
        DeletedStep(inventory, order, i);
        var ok := CleanupOne(order[i]);
        Chain(world.log, before, old(world.log));
        if !ok {
          errors := errors + 1;
        }
        i := i + 1;
      }
    }

    /** Deletes everything of this run. */
    method Cleanup() returns (ok: bool)
      requires Valid()
      modifies this, world
      ensures Valid() && Extends(world.log, old(world.log))
      ensures old(UnmountedFirst(mutations)) ==> UnmountedFirst(mutations)
      ensures ok ==> forall k: Kind :: !OwnedIn(inventory, k)
      ensures Agreed(world.log, old(world.log)) && !ChildMismatch(old(inventory)) ==> ok
    {
      var errors := CleanupResources();
      ok := errors == 0;
    }

    /** A call to the appliance that needs no safety check, then what is recorded about it. */
    method CreateResource(k: Kind) returns (ok: bool)
      requires Valid()
      modifies this, world
      ensures Valid() && Extends(world.log, old(world.log))
      ensures mutations == old(mutations)
      ensures inventory == if ok then old(inventory)[k := Created] else old(inventory)
      ensures Agreed(world.log, old(world.log)) && old(inventory)[k] == Planned ==> ok
    {
      var r := world.Ask(Action.Create(k), Memory());
      if r.Refused? {
        return false;
      }
      ghost var asked := world.log;
      ok := Record(k, {Planned}, Created);
      Chain(world.log, asked, old(world.log));
    }

    method MakeReady(k: Kind) returns (ok: bool)
      requires Valid()
      modifies this, world
      ensures Valid() && Extends(world.log, old(world.log))
      ensures mutations == old(mutations)
      ensures inventory == if ok then old(inventory)[k := Ready] else old(inventory)
      ensures Agreed(world.log, old(world.log)) && old(inventory)[k] == Created ==> ok
    {
      var r := world.Ask(Action.VerifyReady(k), Memory());
      if r != Done(true) {
        return false;
      }
      ghost var asked := world.log;
      ok := Record(k, {Created}, Ready);
      Chain(world.log, asked, old(world.log));
    }

    /** Creates a snapshot again after the last one was deleted. */
    method CreateSnapshot() returns (ok: bool)
      requires Valid()
      modifies this, world
      ensures Valid() && Extends(world.log, old(world.log)) && mutations == old(mutations)
      ensures ok ==> inventory == old(inventory)[Snapshot := Ready]
      ensures forall k: Kind :: k != Snapshot ==> inventory[k] == old(inventory)[k]
      ensures old(inventory)[Snapshot] !in {Planned, Deleted} ==> !ok && world.log == old(world.log)
      ensures Agreed(world.log, old(world.log)) && old(inventory)[Snapshot] in {Planned, Deleted} ==> ok
    {
      if inventory[Snapshot] == Deleted {
        inventory := inventory[Snapshot := Planned];
      } else if inventory[Snapshot] != Planned {
        return false;
      }
      ok := CreateResource(Snapshot);
      if ok {
        ghost var created := world.log;
        ok := MakeReady(Snapshot);
        Chain(world.log, created, old(world.log));
      }
    }

    method DeleteSnapshot() returns (ok: bool)
      requires Valid()
      modifies this, world
      ensures Valid() && Extends(world.log, old(world.log)) && mutations == old(mutations)
      ensures ok ==> inventory == old(inventory)[Snapshot := Deleted]
      ensures !ok ==>
        inventory == old(inventory) || inventory == old(inventory)[Snapshot := OwnershipMismatch]
      ensures !MayDelete(old(inventory), Snapshot) ==> !ok && world.log == old(world.log)
      ensures Agreed(world.log, old(world.log)) && MayDelete(old(inventory), Snapshot) ==> ok
    {
      if !MayDelete(inventory, Snapshot) {
        return false;
      }
      ok := VerifyOwned(Snapshot);
      if ok {
        ghost var checked := world.log;
        ok := DeleteOwned(Snapshot);
        Chain(world.log, checked, old(world.log));
      }
    }

    /** Changes an access list and records that. */
    method ChangeAcl(action: Action, m: Mutation) returns (ok: bool)
      requires Valid() && (action.RemoveEveryoneAcl? || action.GrantTestAcl?)
      modifies this, world
      ensures Valid() && Extends(world.log, old(world.log)) && inventory == old(inventory)
      ensures old(UnmountedFirst(mutations)) && !TooEarly(old(mutations), m) ==> UnmountedFirst(mutations)
      ensures ok ==> m !in old(mutations)
      ensures mutations == if ok then old(mutations) + [m] else old(mutations)
      ensures Agreed(world.log, old(world.log)) && m !in old(mutations) ==> ok
    {
      var r := world.Ask(action, Memory());
      if r.Refused? {
        return false;
      }
      ghost var asked := world.log;
      ok := RecordMutation(m);
      Chain(world.log, asked, old(world.log));
    }

    method CreateVolumes() returns (ok: bool)
      requires Valid()
      modifies this, world
      ensures Valid() && Extends(world.log, old(world.log)) && mutations == old(mutations)
      ensures forall k: Kind :: !k.VolumeOf? ==> inventory[k] == old(inventory)[k]
      ensures ok ==> forall v: VolumeRole :: inventory[VolumeOf(v)] == Created
      ensures
        (Agreed(world.log, old(world.log)) && forall v: VolumeRole :: old(inventory)[VolumeOf(v)] == Planned)
        ==> ok
    {
      ok := true;
      var i := 0;
      while i < |VOLUMES|
        invariant 0 <= i <= |VOLUMES|
        invariant Valid() && Extends(world.log, old(world.log)) && mutations == old(mutations)
        invariant forall k: Kind :: !k.VolumeOf? ==> inventory[k] == old(inventory)[k]
        invariant forall j :: 0 <= j < i ==> inventory[VolumeOf(VOLUMES[j])] == Created
        invariant forall j :: i <= j < |VOLUMES| ==>
          inventory[VolumeOf(VOLUMES[j])] == old(inventory)[VolumeOf(VOLUMES[j])]
      {
        ghost var before := world.log;
        ok := CreateResource(VolumeOf(VOLUMES[i]));
        Chain(world.log, before, old(world.log));
        if !ok {
          return;
        }
        i := i + 1;
      }
      forall v: VolumeRole
        ensures inventory[VolumeOf(v)] == Created
      {
        match v
        case Functional => assert VOLUMES[0] == v;
        case Performance => assert VOLUMES[1] == v;
        case ContinuouslyAvailable => assert VOLUMES[2] == v;
      }
    }

    /** Creates one share and restricts its access list. */
    method CreateShare(role: ShareRole) returns (ok: bool)
      requires Valid()
      modifies this, world
      ensures Valid() && Extends(world.log, old(world.log))
      ensures old(UnmountedFirst(mutations)) ==> UnmountedFirst(mutations)
      ensures ok ==> inventory == old(inventory)[ShareOf(role) := Created]
      ensures ok ==> mutations == old(mutations) + [EveryoneAclRemoved(role)] + [TestAclGranted(role)]
      ensures Agreed(world.log, old(world.log)) && old(Untouched(Memory(), role)) ==> ok
    {
      ok := CreateResource(ShareOf(role));
      if ok {
        ghost var created := world.log;
        ok := ChangeAcl(RemoveEveryoneAcl(role), EveryoneAclRemoved(role));
        Chain(world.log, created, old(world.log));
      }
      if ok {
        ghost var removed := world.log;
        ok := ChangeAcl(GrantTestAcl(role), TestAclGranted(role));
        Chain(world.log, removed, old(world.log));
      }
    }

    method CreateShares() returns (ok: bool)
      requires Valid()
      modifies this, world
      ensures Valid() && Extends(world.log, old(world.log))
      ensures old(UnmountedFirst(mutations)) ==> UnmountedFirst(mutations)
      ensures ok ==> forall k: Kind ::
        inventory[k] == if k.ShareOf? then Created else old(inventory)[k]
      ensures
        (Agreed(world.log, old(world.log)) && forall role: ShareRole :: old(Untouched(Memory(), role)))
        ==> ok
    {
      ok := true;
      ghost var start := Memory();
      var i := 0;
      while i < |SHARES|
        invariant 0 <= i <= |SHARES|
        invariant Valid() && Extends(world.log, old(world.log))
        invariant old(UnmountedFirst(mutations)) ==> UnmountedFirst(mutations)
        invariant SharesCreated(start, Memory(), i)
      {
        ghost var before, memory := world.log, Memory();
        ok := CreateShare(SHARES[i]);
        Chain(world.log, before, old(world.log));
        if !ok {
          return;
        }
        OneMoreShare(start, memory, Memory(), i);
        i := i + 1;
      }
      forall k: Kind | k.ShareOf?
        ensures inventory[k] == Created
      {
        ShareListed(k.share);
      }
    }

    method MakeAllReady() returns (ok: bool)
      requires Valid()
      modifies this, world
      ensures Valid() && Extends(world.log, old(world.log)) && mutations == old(mutations)
      ensures ok ==> forall k: Kind :: k != Snapshot ==> inventory[k] == Ready
      ensures
        (Agreed(world.log, old(world.log)) && forall k: Kind :: k != Snapshot ==> old(inventory)[k] == Created)
        ==> ok
    {
      ok := true;
      ghost var start := inventory;
      var i := 0;
      while i < |READY_ORDER|
        invariant 0 <= i <= |READY_ORDER|
        invariant Valid() && Extends(world.log, old(world.log)) && mutations == old(mutations)
        invariant MadeReady(start, inventory, i)
      {
        ghost var before, now := world.log, inventory;
        ok := MakeReady(READY_ORDER[i]);
        Chain(world.log, before, old(world.log));
        if !ok {
          return;
        }
        OneMoreReady(start, now, inventory, i);
        i := i + 1;
      }
      forall k: Kind | k != Snapshot
        ensures inventory[k] == Ready
      {
        ReadyListed(k);
      }
    }

    /** Creates and checks everything but the snapshot. */
    method Provision() returns (ok: bool)
      requires Valid()
      modifies this, world
      ensures Valid() && Extends(world.log, old(world.log))
      ensures old(UnmountedFirst(mutations)) ==> UnmountedFirst(mutations)
      ensures ok ==> forall k: Kind :: k != Snapshot ==> inventory[k] == Ready
      ensures Agreed(world.log, old(world.log)) && old(Memory()) == Saved(PlannedInventory(), []) ==> ok
    {
      ok := CreateVolumes();
      if ok {
        ghost var volumes := world.log;
        ok := CreateShares();
        Chain(world.log, volumes, old(world.log));
      }
      if ok {
        ghost var shares := world.log;
        ok := MakeAllReady();
        Chain(world.log, shares, old(world.log));
      }
    }

    /** Provisions, and cleans up again when that fails. */
    method Apply(authorized: bool) returns (r: Result<(), Problem>)
      requires Valid()
      modifies this, world
      ensures Valid() && Extends(world.log, old(world.log))
      ensures old(UnmountedFirst(mutations)) ==> UnmountedFirst(mutations)
      ensures r.Ok? ==> authorized && forall k: Kind :: k != Snapshot ==> inventory[k] == Ready
      ensures r == Err(ProvisionFailed(0)) ==> forall k: Kind :: !OwnedIn(inventory, k)
      ensures !authorized ==> r == Err(WrongPlan) && world.log == old(world.log)
      ensures
        (authorized && Agreed(world.log, old(world.log)) && old(Memory()) == Saved(PlannedInventory(), []))
        ==> r.Ok?
    {
      if !authorized {
        return Err(WrongPlan);
      }
      var ok := Provision();
      if ok {
        return Ok(());
      }
      ghost var failed := world.log;
      var errors := CleanupResources();
      Chain(world.log, failed, old(world.log));
      r := Err(ProvisionFailed(errors));
    }
  }

  /** Nothing has been done about this share yet. */
  ghost predicate Untouched(memory: Saved, role: ShareRole) {
    && StateOf(memory.inventory, ShareOf(role)) == Some(Planned)
    && EveryoneAclRemoved(role) !in memory.mutations
    && TestAclGranted(role) !in memory.mutations
  }

  /** The first `i` shares have been created and nothing else has been done. */
  ghost predicate SharesCreated(start: Saved, now: Saved, i: nat)
    requires i <= |SHARES|
  {
    && (forall k: Kind :: !k.ShareOf? ==> StateOf(now.inventory, k) == StateOf(start.inventory, k))
    && (forall j :: 0 <= j < i ==> StateOf(now.inventory, ShareOf(SHARES[j])) == Some(Created))
    && (forall j :: i <= j < |SHARES| ==> Untouched(start, SHARES[j]) ==> Untouched(now, SHARES[j]))
  }

  lemma {:induction false} SharesDistinct(i: nat, j: nat)
    requires i < |SHARES| && j < |SHARES| && i != j
    ensures SHARES[i] != SHARES[j]
  {
  }

  lemma {:induction false} OneMoreShare(start: Saved, now: Saved, next: Saved, i: nat)
    requires i < |SHARES| && SharesCreated(start, now, i)
    requires next.inventory == now.inventory[ShareOf(SHARES[i]) := Created]
    requires next.mutations == now.mutations + [EveryoneAclRemoved(SHARES[i])] + [TestAclGranted(SHARES[i])]
    ensures SharesCreated(start, next, i + 1)
  {
    forall j | i + 1 <= j < |SHARES| && Untouched(start, SHARES[j])
      ensures Untouched(next, SHARES[j])
    {
      assert Untouched(now, SHARES[j]);
      SharesDistinct(i, j);
    }
  }

  lemma {:induction false} ShareListed(role: ShareRole)
    ensures role in SHARES
  {
    match role
    case Plain => assert SHARES[0] == role;
    case Encrypted => assert SHARES[1] == role;
    case PerformancePlain => assert SHARES[2] == role;
    case PerformanceEncrypted => assert SHARES[3] == role;
    case ContinuouslyAvailableShare => assert SHARES[4] == role;
  }

  /** The first `i` resources are ready and the others are as they were. */
  ghost predicate MadeReady(start: Inventory, now: Inventory, i: nat)
    requires i <= |READY_ORDER|
  {
    && (forall j :: 0 <= j < i ==> StateOf(now, READY_ORDER[j]) == Some(Ready))
    && (forall j :: i <= j < |READY_ORDER| ==> StateOf(now, READY_ORDER[j]) == StateOf(start, READY_ORDER[j]))
  }

  lemma {:induction false} ReadyDistinct(i: nat, j: nat)
    requires i < |READY_ORDER| && j < |READY_ORDER| && i != j
    ensures READY_ORDER[i] != READY_ORDER[j]
  {
  }

  lemma {:induction false} OneMoreReady(start: Inventory, now: Inventory, next: Inventory, i: nat)
    requires i < |READY_ORDER| && MadeReady(start, now, i) && next == now[READY_ORDER[i] := Ready]
    ensures MadeReady(start, next, i + 1)
  {
    forall j | i < j < |READY_ORDER|
      ensures StateOf(next, READY_ORDER[j]) == StateOf(start, READY_ORDER[j])
    {
      ReadyDistinct(i, j);
    }
  }

  lemma {:induction false} ReadyListed(k: Kind)
    requires k != Snapshot
    ensures k in READY_ORDER
  {
    match k
    case VolumeOf(v) =>
      match v {
        case Functional => assert READY_ORDER[0] == k;
        case Performance => assert READY_ORDER[3] == k;
        case ContinuouslyAvailable => assert READY_ORDER[6] == k;
      }
    case ShareOf(r) =>
      match r {
        case Plain => assert READY_ORDER[1] == k;
        case Encrypted => assert READY_ORDER[2] == k;
        case PerformancePlain => assert READY_ORDER[4] == k;
        case PerformanceEncrypted => assert READY_ORDER[5] == k;
        case ContinuouslyAvailableShare => assert READY_ORDER[7] == k;
      }
  }

  function CleanupOrder(inventory: Inventory): (order: seq<Kind>)
    ensures forall k: Kind :: OwnedIn(inventory, k) ==> k in order
    ensures forall i :: 0 <= i < |order| ==> OwnedIn(inventory, order[i])
    ensures Different(order)
  {
    OrderIsComplete();
    Filtered(inventory, CLEANUP_ORDER)
  }

  /** Whatever is still ours comes at index `i` or later. */
  ghost predicate NothingBefore(inventory: Inventory, order: seq<Kind>, i: nat)
    requires i <= |order|
  {
    forall k: Kind :: OwnedIn(inventory, k) ==> k in order[i..]
  }

  /** Everything from index `i` on may still be deleted. */
  ghost predicate AllBehind(inventory: Inventory, order: seq<Kind>, i: nat) {
    !ChildMismatch(inventory) && forall j :: i <= j < |order| ==> OwnedIn(inventory, order[j])
  }

  lemma {:induction false} DeletedStep(inventory: Inventory, order: seq<Kind>, i: nat)
    requires i < |order| && Different(order)
    ensures var next := inventory[order[i] := Deleted];
      && (NothingBefore(inventory, order, i) ==> NothingBefore(next, order, i + 1))
      && (AllBehind(inventory, order, i) ==> AllBehind(next, order, i + 1))
  {
    var next := inventory[order[i] := Deleted];
    assert order[i..] == [order[i]] + order[i + 1..];
    assert forall k: Kind :: OwnedIn(next, k) ==> k != order[i] && OwnedIn(inventory, k);
  }

  ghost predicate Different(kinds: seq<Kind>) {
    forall i, j :: 0 <= i < j < |kinds| ==> kinds[i] != kinds[j]
  }

  function Filtered(inventory: Inventory, kinds: seq<Kind>): (order: seq<Kind>)
    ensures forall k: Kind :: k in order <==> k in kinds && OwnedIn(inventory, k)
    ensures Different(kinds) ==> Different(order)
  {
    if kinds == [] then []
    else if OwnedIn(inventory, kinds[0]) then [kinds[0]] + Filtered(inventory, kinds[1..])
    else Filtered(inventory, kinds[1..])
  }

  function Position(k: Kind): (i: nat)
    ensures i < |CLEANUP_ORDER| && CLEANUP_ORDER[i] == k
  {
    match k
    case Snapshot => 0
    case ShareOf(ContinuouslyAvailableShare) => 1
    case ShareOf(PerformanceEncrypted) => 2
    case ShareOf(PerformancePlain) => 3
    case ShareOf(Encrypted) => 4
    case ShareOf(Plain) => 5
    case VolumeOf(ContinuouslyAvailable) => 6
    case VolumeOf(Performance) => 7
    case VolumeOf(Functional) => 8
  }

  /** Every kind of resource is cleaned up, once. */
  lemma {:induction false} OrderIsComplete()
    ensures forall k: Kind :: k in CLEANUP_ORDER
    ensures Different(CLEANUP_ORDER)
  {
    forall k: Kind
      ensures k in CLEANUP_ORDER
    {
      assert CLEANUP_ORDER[Position(k)] == k;
    }
    forall i | 0 <= i < |CLEANUP_ORDER|
      ensures Position(CLEANUP_ORDER[i]) == i
    {
    }
  }

  // ----- what a safe log shows -----

  lemma {:induction false} SafePrefix(log: Log, earlier: Log)
    requires SafeLog(log) && Extends(log, earlier)
    ensures SafeLog(earlier)
  {
    if log != earlier {
      SafePrefix(log.before, earlier);
    }
  }

  /** The manifest file says that `k` is not ours. */
  ghost predicate Disowned(log: Log, k: Kind) {
    DiskOf(log).Some? && StateOf(DiskOf(log).value.inventory, k) == Some(OwnershipMismatch)
  }

  lemma {:induction false} DisownedStays(later: Log, log: Log, k: Kind)
    requires SafeLog(later) && Extends(later, log) && Disowned(log, k)
    ensures Disowned(later, k)
  {
    if later != log {
      DisownedStays(later.before, log, k);
    }
  }

  lemma {:induction false} MutationsOnlyGrow(later: Log, log: Log)
    requires SafeLog(later) && Extends(later, log) && DiskOf(log).Some?
    ensures DiskOf(later).Some?
    ensures DiskOf(log).value.mutations <= DiskOf(later).value.mutations
    ensures NoRepeats(DiskOf(later).value.mutations)
  {
    DiskIsValid(later);
    if later != log {
      MutationsOnlyGrow(later.before, log);
    }
  }

  ghost predicate Precedes(mutations: seq<Mutation>, a: Mutation, b: Mutation) {
    exists i, j :: 0 <= i < j < |mutations| && mutations[i] == a && mutations[j] == b
  }

  lemma {:induction false} UnmountPrecedes(mutations: seq<Mutation>, v: VolumeRole)
    requires UnmountedFirst(mutations) && VolumeOfflined(v) in mutations
    ensures Precedes(mutations, VolumeUnmounted(v), VolumeOfflined(v))
  {
    var j :| 0 <= j < |mutations| && mutations[j] == VolumeOfflined(v);
    var i :| 0 <= i < j && mutations[..j][i] == VolumeUnmounted(v);
    assert mutations[i] == VolumeUnmounted(v);
  }

  ghost predicate InOrder(disk: Option<Saved>) {
    disk.Some? ==> UnmountedFirst(disk.value.mutations)
  }

  predicate IsVolumeWork(action: Action) {
    action.Unmount? || action.Offline? || (action.Delete? && action.kind.VolumeOf?)
  }

  // ----- what is promised of every log -----

  /** The delete was for a resource recorded as ours and just confirmed to be, a volume being taken away first. */
  ghost predicate DeleteWasDue(before: Log, k: Kind) {
    && DiskOf(before).Some? && OwnedIn(DiskOf(before).value.inventory, k) && JustOwned(before, k)
    && (k.VolumeOf? ==>
      && VolumeUnmounted(k.volume) in DiskOf(before).value.mutations
      && VolumeOfflined(k.volume) in DiskOf(before).value.mutations)
  }

  ghost predicate DeletesWereDue(log: Log) {
    forall before, e :: Extends(log, Then(before, e)) && e.action.Delete? ==>
      DeleteWasDue(before, e.action.kind)
  }

  /** Every volume delete followed the record of an unmount and then that of an offline. */
  ghost predicate DeletesFollowedOrder(log: Log) {
    forall before, e :: Extends(log, Then(before, e)) && e.action.Delete? && e.action.kind.VolumeOf? ==>
      && DiskOf(before).Some?
      && Precedes(DiskOf(before).value.mutations,
           VolumeUnmounted(e.action.kind.volume), VolumeOfflined(e.action.kind.volume))
  }

  /** A mismatch that was recorded once is recorded ever after. */
  ghost predicate MismatchesStay(log: Log) {
    forall later, earlier, k :: Extends(log, later) && Extends(later, earlier) && Disowned(earlier, k) ==>
      Disowned(later, k)
  }

  /** Once a share or the snapshot is recorded as disowned, no volume is touched. */
  ghost predicate VolumesLeftAlone(log: Log) {
    forall before, e, earlier, k ::
      Extends(log, Then(before, e)) && Extends(before, earlier) && IsChild(k) && Disowned(earlier, k) ==>
        !IsVolumeWork(e.action)
  }

  /** Recorded mutations are never lost and never repeat. */
  ghost predicate MutationsStay(log: Log) {
    forall later, earlier :: Extends(log, later) && Extends(later, earlier) && DiskOf(earlier).Some? ==>
      && DiskOf(later).Some?
      && DiskOf(earlier).value.mutations <= DiskOf(later).value.mutations
      && NoRepeats(DiskOf(later).value.mutations)
  }

  /** What a run had in memory was on disk, but for the reset of a deleted snapshot. */
  ghost predicate MemoryFollowedDisk(log: Log) {
    forall before, e :: Extends(log, Then(before, e)) && !e.action.Persist? ==>
      DiskOf(before).Some? && InStep(e.memory, DiskOf(before).value)
  }

  lemma {:induction false} CallWasSafe(log: Log, before: Log, e: Entry)
    requires SafeLog(log) && Extends(log, Then(before, e))
    ensures SafeLog(before) && Safe(before, e) && Extends(log, before)
  {
    SafePrefix(log, Then(before, e));
    Chain(log, Then(before, e), before);
  }

  lemma {:induction false} DeletesAreDue(log: Log)
    requires SafeLog(log)
    ensures DeletesWereDue(log)
    ensures InOrder(DiskOf(log)) ==> DeletesFollowedOrder(log)
  {
    forall before, e | Extends(log, Then(before, e)) && e.action.Delete?
      ensures DeleteWasDue(before, e.action.kind)
      ensures InOrder(DiskOf(log)) && e.action.kind.VolumeOf? ==>
        Precedes(DiskOf(before).value.mutations,
          VolumeUnmounted(e.action.kind.volume), VolumeOfflined(e.action.kind.volume))
    {
      CallWasSafe(log, before, e);
      MutationsOnlyGrow(log, before);
      if InOrder(DiskOf(log)) && e.action.kind.VolumeOf? {
        OrderHeldBefore(DiskOf(before).value.mutations, DiskOf(log).value.mutations);
        UnmountPrecedes(DiskOf(before).value.mutations, e.action.kind.volume);
      }
    }
  }

  lemma {:induction false} DisownedVolumesLeftAlone(log: Log, before: Log, e: Entry, earlier: Log, k: Kind)
    requires SafeLog(log) && Extends(log, Then(before, e)) && Extends(before, earlier)
    requires IsChild(k) && Disowned(earlier, k)
    ensures !IsVolumeWork(e.action)
  {
    CallWasSafe(log, before, e);
    DisownedStays(before, earlier, k);
    if !e.action.Persist? {
      assert e.memory.inventory[k] == OwnershipMismatch;
      assert ChildMismatch(e.memory.inventory);
    }
  }

  lemma {:induction false} RecordsStay(log: Log)
    requires SafeLog(log)
    ensures MismatchesStay(log) && MutationsStay(log)
  {
    forall later, earlier, k | Extends(log, later) && Extends(later, earlier) && Disowned(earlier, k)
      ensures Disowned(later, k)
    {
      SafePrefix(log, later);
      DisownedStays(later, earlier, k);
    }
    forall later, earlier | Extends(log, later) && Extends(later, earlier) && DiskOf(earlier).Some?
      ensures DiskOf(later).Some?
      ensures DiskOf(earlier).value.mutations <= DiskOf(later).value.mutations
      ensures NoRepeats(DiskOf(later).value.mutations)
    {
      SafePrefix(log, later);
      MutationsOnlyGrow(later, earlier);
    }
  }

  lemma {:induction false} SafeLogShows(log: Log)
    requires SafeLog(log)
    ensures VolumesLeftAlone(log) && MemoryFollowedDisk(log)
  {
    forall before, e, earlier, k |
      Extends(log, Then(before, e)) && Extends(before, earlier) && IsChild(k) && Disowned(earlier, k)
      ensures !IsVolumeWork(e.action)
    {
      DisownedVolumesLeftAlone(log, before, e, earlier, k);
    }
    forall before, e | Extends(log, Then(before, e)) && !e.action.Persist?
      ensures DiskOf(before).Some? && InStep(e.memory, DiskOf(before).value)
    {
      CallWasSafe(log, before, e);
    }
  }

  // ----- every sequence of operations -----

  lemma {:induction false} SameOnDisk(memory: Saved, disk: Saved)
    requires InStep(memory, disk)
    ensures forall k: Kind :: k != Snapshot ==> StateOf(disk.inventory, k) == StateOf(memory.inventory, k)
  {
  }

  datatype Operation =
    | NewManifest | Reload | ApplyPlan(authorized: bool) | CleanUp | MakeSnapshot | DropSnapshot
    | MarkCreated(kind: Kind) | MarkReady(kind: Kind) | MarkDeleted(kind: Kind) | MarkDisowned(kind: Kind)
    | MarkMutation(mutation: Mutation)

  /** The operation only records something. */
  predicate IsMark(op: Operation) {
    op.MarkCreated? || op.MarkReady? || op.MarkDeleted? || op.MarkDisowned? || op.MarkMutation?
  }

  /** The operation records an offline directly, without taking the volume offline. */
  predicate MarksOffline(op: Operation) {
    op.MarkMutation? && op.mutation.VolumeOfflined?
  }

  lemma {:induction false} OrderStaysBroken(later: Log, log: Log)
    requires SafeLog(later) && Extends(later, log) && InOrder(DiskOf(later))
    ensures InOrder(DiskOf(log))
  {
    if DiskOf(log).Some? {
      MutationsOnlyGrow(later, log);
      OrderHeldBefore(DiskOf(log).value.mutations, DiskOf(later).value.mutations);
    }
  }

  /** The manifest a client holds, if any, and what has been asked so far. */
  datatype Stage = Stage(held: Option<Saved>, log: Log)

  ghost function StageOf(world: World, run: Run?): (stage: Stage)
    reads world, if run == null then {} else {run}
  {
    Stage(if run == null then None else Some(run.Memory()), world.log)
  }

  /** A direct record of a state: refused without a call, or made unless the file cannot be written. */
  ghost predicate Marked(a: Stage, b: Stage, k: Kind, allowed: set<Lifecycle>, to: Lifecycle)
    requires a.held.Some? && Complete(a.held.value.inventory)
  {
    var inventory := a.held.value.inventory;
    && (b.held == a.held || b.held == Some(a.held.value.(inventory := inventory[k := to])))
    && (inventory[k] !in allowed ==> b == a)
    && (inventory[k] in allowed && Agreed(b.log, a.log) ==> b.held.Some? && b.held.value.inventory[k] == to)
  }

  /** A direct record of a mutation, likewise. */
  ghost predicate MutationMarked(a: Stage, b: Stage, m: Mutation)
    requires a.held.Some?
  {
    var mutations := a.held.value.mutations;
    && (b.held == a.held || b.held == Some(a.held.value.(mutations := mutations + [m])))
    && (m in mutations ==> b == a)
    && (m !in mutations && Agreed(b.log, a.log) ==> b.held.Some? && m in b.held.value.mutations)
  }

  /**
   * What an operation does to the held manifest, and when it is bound to succeed. A provisioning
   * operation that fails consumes the manifest; without a manifest there is nothing to operate on.
   */
  ghost predicate Did(op: Operation, a: Stage, b: Stage)
    requires a.held.Some? ==> Complete(a.held.value.inventory)
  {
    && Extends(b.log, a.log)
    && (b.held.Some? ==>
      && Complete(b.held.value.inventory)
      && DiskOf(b.log).Some? && InStep(b.held.value, DiskOf(b.log).value))
    && match op
       case NewManifest =>
         && (b.held.Some? ==> DiskOf(a.log) == None && b.held.value == Saved(PlannedInventory(), []))
         && (DiskOf(a.log).Some? ==> b == Stage(None, a.log))
         && (DiskOf(a.log).None? && Agreed(b.log, a.log) ==> b.held.Some?)
       case Reload => b == Stage(DiskOf(a.log), a.log)
       case _ => if a.held.None? then b == a else DidHeld(op, a, b)
  }

  ghost predicate DidHeld(op: Operation, a: Stage, b: Stage)
    requires a.held.Some? && Complete(a.held.value.inventory)
  {
    var before := a.held.value;
    var agreed := Agreed(b.log, a.log);
    match op
    case ApplyPlan(authorized) =>
      && (!authorized ==> b == Stage(None, a.log))
      && (b.held.Some? ==> AllReady(b.held.value.inventory))
      && (authorized && agreed && before == Saved(PlannedInventory(), []) ==> b.held.Some?)
    case CleanUp =>
      && (b.held.Some? ==> forall k: Kind :: !OwnedIn(b.held.value.inventory, k))
      && (agreed && !ChildMismatch(before.inventory) ==> b.held.Some?)
    case MakeSnapshot =>
      && (b.held.Some? ==> b.held.value == before.(inventory := before.inventory[Snapshot := Ready]))
      && (before.inventory[Snapshot] !in {Planned, Deleted} ==> b == Stage(None, a.log))
      && (before.inventory[Snapshot] in {Planned, Deleted} && agreed ==> b.held.Some?)
    case DropSnapshot =>
      && (b.held.Some? ==> b.held.value == before.(inventory := before.inventory[Snapshot := Deleted]))
      && (!MayDelete(before.inventory, Snapshot) ==> b == Stage(None, a.log))
      && (MayDelete(before.inventory, Snapshot) && agreed ==> b.held.Some?)
    case MarkCreated(k) => Marked(a, b, k, {Planned}, Created)
    case MarkReady(k) => Marked(a, b, k, {Created}, Ready)
    case MarkDeleted(k) => Marked(a, b, k, {Created, Ready}, Deleted)
    case MarkDisowned(k) => Marked(a, b, k, {Created, Ready}, OwnershipMismatch)
    case MarkMutation(m) => MutationMarked(a, b, m)
    case _ => true
  }

  ghost predicate AllReady(inventory: Inventory) {
    forall k: Kind :: k != Snapshot ==> StateOf(inventory, k) == Some(Ready)
  }

  /** The operation put the offline of a volume on record before its unmount. */
  ghost predicate CameEarly(op: Operation, a: Stage, b: Stage) {
    && op.MarkMutation? && a.held.Some? && TooEarly(a.held.value.mutations, op.mutation)
    && b.held != a.held
  }

  ghost predicate SomeCameEarly(ops: seq<Operation>, stages: seq<Stage>)
    requires |stages| <= |ops| + 1
  {
    exists i, j :: 0 <= i < j < |stages| && j == i + 1 && CameEarly(ops[i], stages[i], stages[j])
  }

  lemma {:induction false} EarlyMarksOffline(ops: seq<Operation>, stages: seq<Stage>)
    requires |stages| <= |ops| + 1 && SomeCameEarly(ops, stages)
    ensures exists op :: op in ops && MarksOffline(op)
  {
    var i, j :| 0 <= i < j < |stages| && j == i + 1 && CameEarly(ops[i], stages[i], stages[j]);
    assert ops[i] in ops && MarksOffline(ops[i]);
  }

  lemma {:induction false} OneMoreStage(ops: seq<Operation>, stages: seq<Stage>, next: Stage)
    requires 0 < |stages| <= |ops|
    ensures SomeCameEarly(ops, stages + [next]) <==>
      SomeCameEarly(ops, stages) || CameEarly(ops[|stages| - 1], stages[|stages| - 1], next)
  {
    var more := stages + [next];
    assert forall i :: 0 <= i < |stages| ==> more[i] == stages[i];
    if SomeCameEarly(ops, stages) {
      var i, j :| 0 <= i < j < |stages| && j == i + 1 && CameEarly(ops[i], stages[i], stages[j]);
      assert CameEarly(ops[i], more[i], more[j]);
    }
    if CameEarly(ops[|stages| - 1], stages[|stages| - 1], next) {
      var i, j := |stages| - 1, |stages|;
      assert CameEarly(ops[i], more[i], more[j]);
    }
  }

  /** One operation on the manifest a client holds, if any. */
  method Operate(world: World, run: Run?, op: Operation) returns (next: Run?, early: bool)
    requires world.Valid() && (run != null ==> run.world == world && run.Valid())
    modifies world, if run == null then {} else {run}
    ensures world.Valid() && Extends(world.log, old(world.log))
    ensures next != null ==> next.world == world && next.Valid() && (next == run || fresh(next))
    ensures Did(op, old(StageOf(world, run)), StageOf(world, next))
    ensures early <==> CameEarly(op, old(StageOf(world, run)), StageOf(world, next))
    ensures InOrder(world.disk) <==> old(InOrder(world.disk)) && !early
  {
    next, early := run, false;
    if op.NewManifest? {
      var created := Run.Create(world);
      next := if created.Ok? then created.value else null;
    } else if op.Reload? {
      var loaded := Run.Load(world);
      next := if loaded.Ok? then loaded.value else null;
    } else if run != null {
      var ok;
      ok, early := OperateOn(run, op);
      if !ok {
        next := null;
      }
    }
    if InOrder(world.disk) {
      OrderStaysBroken(world.log, old(world.log));
    }
  }

  /** One operation on a manifest; `ok` says whether the manifest is still there afterwards. */
  method OperateOn(run: Run, op: Operation) returns (ok: bool, early: bool)
    requires run.Valid() && !op.NewManifest? && !op.Reload?
    modifies run, run.world
    ensures run.Valid() && Extends(run.world.log, old(run.world.log))
    ensures DidHeld(op, old(StageOf(run.world, run)),
                    Stage(if ok then Some(run.Memory()) else None, run.world.log))
    ensures early <==> CameEarly(op, old(StageOf(run.world, run)), StageOf(run.world, run))
    ensures early ==> ok
    ensures old(InOrder(run.world.disk)) ==> (InOrder(run.world.disk) <==> !early)
  {
    ok, early := true, false;
    if IsMark(op) {
      early := Mark(run, op);
      return;
    }
    match op {
      case ApplyPlan(authorized) =>
        var applied := run.Apply(authorized);
        ok := applied.Ok?;
      case CleanUp =>
        ok := run.Cleanup();
      case MakeSnapshot =>
        ok := run.CreateSnapshot();
      case DropSnapshot =>
        ok := run.DeleteSnapshot();
    }
  }

  /** A direct record; whether or not it is made, the client keeps the manifest. */
  method Mark(run: Run, op: Operation) returns (early: bool)
    requires run.Valid() && IsMark(op)
    modifies run, run.world
    ensures run.Valid() && Extends(run.world.log, old(run.world.log))
    ensures DidHeld(op, old(StageOf(run.world, run)), StageOf(run.world, run))
    ensures early <==> CameEarly(op, old(StageOf(run.world, run)), StageOf(run.world, run))
    ensures old(InOrder(run.world.disk)) ==> (InOrder(run.world.disk) <==> !early)
  {
    early := false;
    match op {
      case MarkCreated(k) =>
        var _ := run.Record(k, {Planned}, Created);
      case MarkReady(k) =>
        var _ := run.Record(k, {Created}, Ready);
      case MarkDeleted(k) =>
        var _ := run.Record(k, {Created, Ready}, Deleted);
      case MarkDisowned(k) =>
        var _ := run.Record(k, {Created, Ready}, OwnershipMismatch);
      case MarkMutation(m) =>
        var tooEarly := TooEarly(run.mutations, m);
        var recorded := run.RecordMutation(m);
        early := recorded && tooEarly;
    }
  }

  lemma {:induction false} EveryoneAgrees(log: Log, earlier: Log, replies: nat -> Reply)
    requires Extends(log, earlier) && Answered(log, replies) && forall i :: replies(i) == Done(true)
    ensures Agreed(log, earlier)
  {
    if log != earlier {
      EveryoneAgrees(log.before, earlier, replies);
    }
  }

  /**
   * Any operations, reloads included, against a world that answers in any way; `stages` tells
   * what each of them did. Deletes were due, mismatches and mutations stay recorded, disowned
   * children protect the volumes, and memory ran ahead of the file only by the reset of a deleted
   * snapshot. Volume deletes followed the unmount-then-offline order exactly as long as no offline
   * was recorded directly before its unmount.
   */
  method Operations(replies: nat -> Reply, ops: seq<Operation>)
    returns (world: World, early: bool, ghost stages: seq<Stage>)
    ensures fresh(world) && world.Valid() && world.replies == replies
    ensures |stages| == |ops| + 1 && stages[0] == Stage(None, Nothing) && stages[|ops|].log == world.log
    ensures forall i :: 0 <= i < |stages| && stages[i].held.Some? ==> Complete(stages[i].held.value.inventory)
    ensures forall i, j :: 0 <= i < j < |stages| && j == i + 1 ==> Did(ops[i], stages[i], stages[j])
    ensures early <==> SomeCameEarly(ops, stages)
    ensures (forall op :: op in ops ==> !MarksOffline(op)) ==> !early
    ensures DeletesWereDue(world.log) && MismatchesStay(world.log) && MutationsStay(world.log)
    ensures VolumesLeftAlone(world.log) && MemoryFollowedDisk(world.log)
    ensures InOrder(world.disk) <==> !early
    ensures !early ==> DeletesFollowedOrder(world.log)
  {
    world := new World(replies);
    early := false;
    var run: Run? := null;
    stages := [StageOf(world, run)];
    var i := 0;
    while i < |ops|
      invariant 0 <= i <= |ops|
      invariant fresh(world) && world.Valid() && world.replies == replies
      invariant run != null ==> fresh(run) && run.world == world && run.Valid()
      invariant InOrder(world.disk) <==> !early
      invariant |stages| == i + 1 && stages[0] == Stage(None, Nothing) && stages[i] == StageOf(world, run)
      invariant forall k :: 0 <= k <= i && stages[k].held.Some? ==> Complete(stages[k].held.value.inventory)
      invariant forall j, k :: 0 <= j < k <= i && k == j + 1 ==> Did(ops[j], stages[j], stages[k])
      invariant early <==> SomeCameEarly(ops, stages)
    {
      var now;
      ghost var before := stages;
      run, now := Operate(world, run, ops[i]);
      OneMoreStage(ops, before, StageOf(world, run));
      stages := before + [StageOf(world, run)];
      early := early || now;
      i := i + 1;
    }
    if early {
      EarlyMarksOffline(ops, stages);
    }
    DeletesAreDue(world.log);
    RecordsStay(world.log);
    SafeLogShows(world.log);
  }

  /** A new manifest that is applied when nobody refuses ends with everything ready. */
  lemma {:induction false} AgreedPlanIsReady(stages: seq<Stage>)
    requires |stages| == 3 && stages[0] == Stage(None, Nothing)
    requires stages[1].held.Some? ==> Complete(stages[1].held.value.inventory)
    requires Did(NewManifest, stages[0], stages[1]) && Did(ApplyPlan(true), stages[1], stages[2])
    requires Agreed(stages[2].log, Nothing)
    ensures stages[2].held.Some? && AllReady(stages[2].held.value.inventory)
    ensures DiskOf(stages[2].log).Some? && AllReady(DiskOf(stages[2].log).value.inventory)
  {
    Chain(stages[2].log, stages[1].log, Nothing);
    SameOnDisk(stages[2].held.value, DiskOf(stages[2].log).value);
  }

  /** When nobody refuses, recording an offline right after creating the manifest breaks the order. */
  method DirectOfflineBreaksOrder(replies: nat -> Reply, v: VolumeRole) returns (world: World)
    ensures fresh(world) && world.Valid() && world.replies == replies
    ensures Agreed(world.log, Nothing) ==> !InOrder(world.disk)
    ensures (forall i :: replies(i) == Done(true)) ==> !InOrder(world.disk)
  {
    world := new World(replies);
    var created := Run.Create(world);
    ghost var start := world.log;
    if created.Ok? {
      var recorded := created.value.RecordMutation(VolumeOfflined(v));
      Chain(world.log, start, Nothing);
    }
    if forall i :: replies(i) == Done(true) {
      EveryoneAgrees(world.log, Nothing, replies);
    }
  }

  /**
   * A manifest that is older than its file loses what the file records: one manifest records a
   * mismatch, and another one that was loaded before records something else.
   */
  method OldManifestForgets(replies: nat -> Reply, k: Kind, other: Kind) returns (world: World)
    requires k != other && forall i :: replies(i) == Done(true)
    ensures fresh(world) && world.Recorded() && world.replies == replies && !MismatchesStay(world.log)
  {
    world := new World(replies);
    var created := Run.Create(world);
    EveryoneAgrees(world.log, Nothing, replies);
    var first := created.value;
    var loaded := Run.Load(world);
    var second := loaded.value;
    ghost var start := world.log;
    var _ := first.Record(k, {Planned}, Created);
    EveryoneAgrees(world.log, start, replies);
    ghost var before := world.log;
    var _ := first.Record(k, {Created, Ready}, OwnershipMismatch);
    EveryoneAgrees(world.log, before, replies);
    ghost var recorded := world.log;
    assert Disowned(recorded, k);
    var _ := second.Record(other, {Planned}, Created);
    EveryoneAgrees(world.log, recorded, replies);
    assert Extends(world.log, world.log) && !Disowned(world.log, k);
  }
}
