/** The transaction manager: many transactions active at once, each ending in one
    commit or one rollback. `Manager` is its history-keeping specification,
    `TransactionManager` the service. */
module TransactionManager {
  import opened Text
  import opened Rollback
  import opened TransactionHistory

  // ------------------------------------------------------------- specification

  datatype Fate = Committed | RolledBack(actions: nat, errors: nat)

  /** `fates` and `log` are history: how each finished transaction ended, and how
      often each registered action, named by transaction and index, has run. */
  datatype Manager = Manager(
    world: World,
    active: map<TxId, TxState>,
    fates: map<TxId, Fate>,
    log: multiset<(TxId, nat)>)

  datatype CopyResult = Copied | CopyThrows(residue: Option<Node>)

  datatype Status = Done | NotFound | AlreadyCommitted | IoError | RollbackErrors(count: nat)

  datatype Step =
    | Start(id: TxId, now: int)
    | AddAction(id: TxId, effect: World -> Outcome)
    | SnapshotFile(id: TxId, path: Path, stamp: nat, copy: CopyResult)
    | Commit(id: TxId, unlinkFails: nat -> bool)
    | Abort(id: TxId, faults: Faults)
    | CleanupStale(order: seq<TxId>, now: int, maxAge: int, faultsOf: TxId -> Faults)
    | Outside(after: World)

  function AfterStart(m: Manager, id: TxId, now: int): Manager {
    m.(active := m.active[id := TxState(now, [], [], false)])
  }

  function AfterAddAction(m: Manager, id: TxId, u: Undo): Manager
    requires id in m.active
  {
    var tx := m.active[id];
    m.(active := m.active[id := tx.(actions := tx.actions + [u])])
  }

  function AfterSnapshot(m: Manager, id: TxId, path: Path, stamp: nat, copy: CopyResult): Manager
    requires id in m.active
  {
    var backup := BackupPath(id, Basename(path), stamp);
    if path !in m.world.files then AfterAddAction(m, id, RemoveIfPresent(path))
    else if m.world.files[path].Directory? then m
    else if copy.CopyThrows? then m.(world := m.world.(files := Put(m.world.files, backup, copy.residue)))
    else
      var tx := m.active[id];
      m.(world := m.world.(files := m.world.files[backup := m.world.files[path]]),
         active := m.active[id := tx.(snapshots := tx.snapshots + [Snapshot(path, backup)])])
  }

  function Without(active: map<TxId, TxState>, id: TxId): map<TxId, TxState> {
    map k | k in active && k != id :: active[k]
  }

  function AfterCommit(m: Manager, id: TxId, unlinkFails: nat -> bool): Manager
    requires id in m.active
  {
    if m.active[id].committed then m
    else
      m.(world := Cleanup(m.world, m.active[id].snapshots, unlinkFails),
         active := Without(m.active, id),
         fates := m.fates[id := Committed])
  }

  function Tagged(id: TxId, ran: seq<nat>): multiset<(TxId, nat)> {
    if ran == [] then multiset{} else multiset{(id, ran[0])} + Tagged(id, ran[1..])
  }

  function AfterAbort(m: Manager, id: TxId, faults: Faults): Manager
    requires id in m.active
  {
    if m.active[id].committed then m
    else
      var tx := m.active[id];
      var report := RollBack(m.world, tx, faults);
      Manager(report.world, Without(m.active, id),
              m.fates[id := RolledBack(|tx.actions|, report.errors)],
              m.log + Tagged(id, report.ran))
  }

  predicate IsStale(tx: TxState, now: int, maxAge: int) {
    now - tx.startedAt > maxAge && !tx.committed
  }

  /** Visits the transactions in the given (insertion) order; a failing rollback is
      only logged. Returns the manager and the number of clean rollbacks. */
  function AfterCleanup(m: Manager, order: seq<TxId>, now: int, maxAge: int, faultsOf: TxId -> Faults): (Manager, nat)
    decreases |order|
  {
    if order == [] then (m, 0)
    else
      var id := order[0];
      if id in m.active && IsStale(m.active[id], now, maxAge) then
        var clean := if RollBack(m.world, m.active[id], faultsOf(id)).errors == 0 then 1 else 0;
        var (after, cleaned) := AfterCleanup(AfterAbort(m, id, faultsOf(id)), order[1..], now, maxAge, faultsOf);
        (after, clean + cleaned)
      else AfterCleanup(m, order[1..], now, maxAge, faultsOf)
  }

  /** Calls on an id that is not active throw and change nothing. */
  function Next(m: Manager, s: Step): Manager {
    match s
    case Start(id, now) => AfterStart(m, id, now)
    case AddAction(id, effect) => if id in m.active then AfterAddAction(m, id, Custom(effect)) else m
    case SnapshotFile(id, path, stamp, copy) => if id in m.active then AfterSnapshot(m, id, path, stamp, copy) else m
    case Commit(id, unlinkFails) => if id in m.active then AfterCommit(m, id, unlinkFails) else m
    case Abort(id, faults) => if id in m.active then AfterAbort(m, id, faults) else m
    case CleanupStale(order, now, maxAge, faultsOf) => AfterCleanup(m, order, now, maxAge, faultsOf).0
    case Outside(after) => m.(world := after)
  }

  /** Ids are never reissued. */
  predicate FreshIds(m: Manager, s: Step) {
    s.Start? ==> s.id !in m.active && s.id !in m.fates
  }

  function Runs(m: Manager, steps: seq<Step>): Manager
    decreases |steps|
  {
    if steps == [] then m else Runs(Next(m, steps[0]), steps[1..])
  }

  predicate FreshRun(m: Manager, steps: seq<Step>)
    decreases |steps|
  {
    steps == [] || (FreshIds(m, steps[0]) && FreshRun(Next(m, steps[0]), steps[1..]))
  }

  const EMPTY_LOG: multiset<(TxId, nat)> := multiset{}

  function Initial(w: World): Manager { Manager(w, map[], map[], EMPTY_LOG) }

  // -------------------------------------------------------- exactly once, or never

  /** How often action `i` of transaction `id` must have run. */
  function TimesRun(m: Manager, id: TxId, i: nat): nat {
    if id in m.fates && m.fates[id].RolledBack? && i < m.fates[id].actions then 1 else 0
  }

  ghost predicate Consistent(m: Manager) {
    && m.active.Keys !! m.fates.Keys
    && (forall id :: id in m.active ==> !m.active[id].committed)
    && (forall id, i: nat :: m.log[(id, i)] == TimesRun(m, id, i))
  }

  lemma {:induction false} TaggedCounts(id: TxId, n: nat, other: TxId, i: nat)
    ensures Tagged(id, Descending(n))[(other, i)] == if other == id && i < n then 1 else 0
  {
    if n > 0 {
      TaggedCounts(id, n - 1, other, i);
      assert Descending(n)[1..] == Descending(n - 1);
    }
  }

  lemma AbortConsistent(m: Manager, id: TxId, faults: Faults)
    requires Consistent(m) && id in m.active
    ensures Consistent(AfterAbort(m, id, faults))
  {
    var tx := m.active[id];
    var next := AfterAbort(m, id, faults);
    EveryUndoRuns(m.world, tx.actions, faults.onUndo);
    forall other, i: nat ensures next.log[(other, i)] == TimesRun(next, other, i) {
      TaggedCounts(id, |tx.actions|, other, i);
      assert m.log[(other, i)] == TimesRun(m, other, i);
    }
  }

  lemma {:induction false} CleanupConsistent(m: Manager, order: seq<TxId>, now: int, maxAge: int,
                                             faultsOf: TxId -> Faults)
    requires Consistent(m)
    ensures Consistent(AfterCleanup(m, order, now, maxAge, faultsOf).0)
    decreases |order|
  {
    if order != [] {
      if order[0] in m.active && IsStale(m.active[order[0]], now, maxAge) {
        AbortConsistent(m, order[0], faultsOf(order[0]));
        CleanupConsistent(AfterAbort(m, order[0], faultsOf(order[0])), order[1..], now, maxAge, faultsOf);
      } else {
        CleanupConsistent(m, order[1..], now, maxAge, faultsOf);
      }
    }
  }

  lemma StepConsistent(m: Manager, s: Step)
    requires Consistent(m) && FreshIds(m, s)
    ensures Consistent(Next(m, s))
  {
    match s
    case Abort(id, faults) => if id in m.active { AbortConsistent(m, id, faults); }
    case CleanupStale(order, now, maxAge, faultsOf) => CleanupConsistent(m, order, now, maxAge, faultsOf);
    case _ =>
      assert forall id, i: nat :: TimesRun(Next(m, s), id, i) == TimesRun(m, id, i);
  }

  /** Over any interleaving, with any failures: an action of a rolled back transaction
      has run exactly once, one of a committed or still active transaction never. */
  lemma {:induction false} ExactlyOnceOrNever(m: Manager, steps: seq<Step>)
    requires Consistent(m) && FreshRun(m, steps)
    ensures Consistent(Runs(m, steps))
    decreases |steps|
  {
    if steps != [] {
      StepConsistent(m, steps[0]);
      ExactlyOnceOrNever(Next(m, steps[0]), steps[1..]);
    }
  }

  lemma InitiallyConsistent(w: World)
    ensures Consistent(Initial(w))
  {}

  // ---------------------------------------------------------- endings are final

  lemma {:induction false} CleanupKeepsFates(m: Manager, order: seq<TxId>, now: int, maxAge: int,
                                             faultsOf: TxId -> Faults, id: TxId)
    requires id in m.fates && id !in m.active
    ensures var after := AfterCleanup(m, order, now, maxAge, faultsOf).0;
            id in after.fates && after.fates[id] == m.fates[id] && id !in after.active
    decreases |order|
  {
    if order != [] {
      if order[0] in m.active && IsStale(m.active[order[0]], now, maxAge) {
        CleanupKeepsFates(AfterAbort(m, order[0], faultsOf(order[0])), order[1..], now, maxAge, faultsOf, id);
      } else {
        CleanupKeepsFates(m, order[1..], now, maxAge, faultsOf, id);
      }
    }
  }

  /** A finished transaction keeps its ending and is never active again. */
  lemma {:induction false} FinishedForGood(m: Manager, steps: seq<Step>, id: TxId)
    requires FreshRun(m, steps) && id in m.fates && id !in m.active
    ensures id in Runs(m, steps).fates && Runs(m, steps).fates[id] == m.fates[id]
    ensures id !in Runs(m, steps).active
    decreases |steps|
  {
    if steps != [] {
      match steps[0] {
        case CleanupStale(order, now, maxAge, faultsOf) => CleanupKeepsFates(m, order, now, maxAge, faultsOf, id);
        case _ =>
      }
      FinishedForGood(Next(m, steps[0]), steps[1..], id);
    }
  }

  // ------------------------------------------------------------------- cleanup

  ghost predicate Lists(order: seq<TxId>, ids: set<TxId>) {
    && (forall id :: id in ids <==> id in order)
    && (forall i, j :: 0 <= i < j < |order| ==> order[i] != order[j])
  }

  /** Ended by this cleanup, without an error. */
  predicate CleanlyEnded(before: Manager, after: Manager, id: TxId) {
    id in before.active && id in after.fates && after.fates[id].RolledBack? && after.fates[id].errors == 0
  }

  predicate NoRepeats(order: seq<TxId>) {
    forall i, j :: 0 <= i < j < |order| ==> order[i] != order[j]
  }

  lemma {:induction false} CleanupVisits(m: Manager, order: seq<TxId>, now: int, maxAge: int,
                                         faultsOf: TxId -> Faults, id: TxId)
    requires NoRepeats(order)
    ensures var after := AfterCleanup(m, order, now, maxAge, faultsOf).0;
            && (id in after.active <==>
                id in m.active && !(id in order && IsStale(m.active[id], now, maxAge)))
            && (id in after.active ==> after.active[id] == m.active[id])
            && (id !in order ==>
                  (id in after.fates <==> id in m.fates) && (id in m.fates ==> after.fates[id] == m.fates[id]))
            && (id in m.active && id in order && IsStale(m.active[id], now, maxAge) ==>
                id in after.fates && after.fates[id].RolledBack?)
    decreases |order|
  {
    if order != [] {
      var tail := order[1..];
      assert order == [order[0]] + tail;
      if order[0] in m.active && IsStale(m.active[order[0]], now, maxAge) {
        CleanupVisits(AfterAbort(m, order[0], faultsOf(order[0])), tail, now, maxAge, faultsOf, id);
      } else {
        CleanupVisits(m, tail, now, maxAge, faultsOf, id);
      }
    }
  }

  lemma {:induction false} CleanupCounts(m: Manager, order: seq<TxId>, now: int, maxAge: int, faultsOf: TxId -> Faults)
    requires NoRepeats(order) && m.active.Keys !! m.fates.Keys
    ensures var (after, cleaned) := AfterCleanup(m, order, now, maxAge, faultsOf);
            cleaned == |set id | id in order && CleanlyEnded(m, after, id)|
    decreases |order|
  {
    var after := AfterCleanup(m, order, now, maxAge, faultsOf).0;
    var all := set id | id in order && CleanlyEnded(m, after, id);
    if order == [] {
      assert all == {};
    } else {
      var id, tail := order[0], order[1..];
      assert order == [id] + tail;
      assert id !in tail;
      var stale := id in m.active && IsStale(m.active[id], now, maxAge);
      var mid := if stale then AfterAbort(m, id, faultsOf(id)) else m;
      CleanupCounts(mid, tail, now, maxAge, faultsOf);
      CleanupVisits(mid, tail, now, maxAge, faultsOf, id);
      var rest := set k | k in tail && CleanlyEnded(mid, after, k);
      assert forall k :: k in tail ==> CleanlyEnded(mid, after, k) == CleanlyEnded(m, after, k);
      assert id !in rest;
      CountWithFirst(all, rest, id, CleanlyEnded(m, after, id));
    }
  }

  lemma CountWithFirst(all: set<TxId>, rest: set<TxId>, id: TxId, counted: bool)
    requires id !in rest
    requires forall k :: k in all <==> k in rest || (k == id && counted)
    ensures |all| == |rest| + if counted then 1 else 0
  {
    assert all == if counted then rest + {id} else rest;
  }

  /** `cleanupStaleTransactions` leaves active exactly the transactions that are not
      over age, even when rollbacks fail, and counts the clean rollbacks. */
  lemma CleanupExact(m: Manager, order: seq<TxId>, now: int, maxAge: int, faultsOf: TxId -> Faults)
    requires Consistent(m) && Lists(order, m.active.Keys)
    ensures var (after, cleaned) := AfterCleanup(m, order, now, maxAge, faultsOf);
            && after.active == (map id | id in m.active && now - m.active[id].startedAt <= maxAge :: m.active[id])
            && (forall id :: id in m.active && id !in after.active ==> id in after.fates && after.fates[id].RolledBack?)
            && cleaned == |set id | id in order && CleanlyEnded(m, after, id)|
  {
    var after := AfterCleanup(m, order, now, maxAge, faultsOf).0;
    forall id
      ensures id in after.active <==> id in m.active && now - m.active[id].startedAt <= maxAge
      ensures id in after.active ==> after.active[id] == m.active[id]
      ensures id in m.active && id !in after.active ==> id in after.fates && after.fates[id].RolledBack?
    {
      CleanupVisits(m, order, now, maxAge, faultsOf, id);
    }
    CleanupCounts(m, order, now, maxAge, faultsOf);
  }

  /** The cleanup meets no error in the transaction. */
  ghost predicate RollsBackCleanly(m: Manager, id: TxId, faults: Faults)
    requires id in m.active
  {
    NeverThrows(m.active[id].actions) && AllWorks(faults, |m.active[id].actions|, |m.active[id].snapshots|)
  }

  function StaleIds(m: Manager, order: seq<TxId>, now: int, maxAge: int): set<TxId> {
    set id | id in order && id in m.active && IsStale(m.active[id], now, maxAge)
  }

  lemma {:induction false} CleanCount(m: Manager, order: seq<TxId>, now: int, maxAge: int, faultsOf: TxId -> Faults)
    requires NoRepeats(order)
    requires forall id :: id in StaleIds(m, order, now, maxAge) ==> RollsBackCleanly(m, id, faultsOf(id))
    ensures AfterCleanup(m, order, now, maxAge, faultsOf).1 == |StaleIds(m, order, now, maxAge)|
    decreases |order|
  {
    if order == [] {
      assert StaleIds(m, order, now, maxAge) == {};
    } else {
      var id, tail := order[0], order[1..];
      assert order == [id] + tail && id !in tail;
      var stale := id in m.active && IsStale(m.active[id], now, maxAge);
      var mid := if stale then AfterAbort(m, id, faultsOf(id)) else m;
      if stale { CleanRollBack(m.world, m.active[id], faultsOf(id)); }
      assert forall k :: k in tail ==> (k in mid.active <==> k in m.active);
      assert forall k :: k in tail && k in m.active ==> mid.active[k] == m.active[k];
      CleanCount(mid, tail, now, maxAge, faultsOf);
      CountWithFirst(StaleIds(m, order, now, maxAge), StaleIds(mid, tail, now, maxAge), id, stale);
    }
  }

  /** Where nothing goes wrong the cleanup counts every transaction over age. */
  lemma CleanCleanup(m: Manager, order: seq<TxId>, now: int, maxAge: int, faultsOf: TxId -> Faults)
    requires Consistent(m) && Lists(order, m.active.Keys)
    requires forall id :: id in m.active ==> RollsBackCleanly(m, id, faultsOf(id))
    ensures AfterCleanup(m, order, now, maxAge, faultsOf).1
            == |set id | id in m.active && now - m.active[id].startedAt > maxAge|
  {
    CleanCount(m, order, now, maxAge, faultsOf);
    assert StaleIds(m, order, now, maxAge) == set id | id in m.active && now - m.active[id].startedAt > maxAge;
  }

  /** A commit leaves no backup of the transaction whose unlinking works, and no other file,
      account or transaction changes. */
  lemma CommitExact(m: Manager, id: TxId, unlinkFails: nat -> bool, b: Path)
    requires id in m.active && !m.active[id].committed
    ensures var n := AfterCommit(m, id, unlinkFails);
            && Lookup(n.world.files, b)
               == (if Unlinked(m.active[id].snapshots, unlinkFails, b) then None else Lookup(m.world.files, b))
            && n.world.accounts == m.world.accounts && n.world.quotas == m.world.quotas
            && n.active == (map k | k in m.active && k != id :: m.active[k])
            && n.fates == m.fates[id := Committed] && n.log == m.log
  {
    CleanupUnlinks(m.world, m.active[id].snapshots, unlinkFails, b);
  }

  /** A start adds a transaction with nothing recorded. */
  lemma StartExact(m: Manager, id: TxId, now: int)
    ensures Next(m, Start(id, now)) == m.(active := m.active[id := TxState(now, [], [], false)])
  {}

  /** A snapshot, by what it finds: for a missing path the registration of its removal; of a regular
      file a copy under the backup's name, recorded; where the copy throws, whatever it left there
      and no record; of a directory nothing. */
  lemma SnapshotExact(m: Manager, id: TxId, path: Path, stamp: nat, copy: CopyResult, p: Path)
    requires id in m.active
    ensures var n, tx := Next(m, SnapshotFile(id, path, stamp, copy)), m.active[id];
            var backup, found := BackupPath(id, Basename(path), stamp), Lookup(m.world.files, path);
            var copied := found.Some? && found.value.Regular? && copy.Copied?;
            && n.active.Keys == m.active.Keys && (forall k :: k in m.active && k != id ==> n.active[k] == m.active[k])
            && n.active[id].actions == (if found.None? then tx.actions + [RemoveIfPresent(path)] else tx.actions)
            && n.active[id].snapshots
               == (if copied then tx.snapshots + [Snapshot(path, backup)] else tx.snapshots)
            && n.world.accounts == m.world.accounts && n.world.quotas == m.world.quotas
            && Lookup(n.world.files, p)
               == (if p != backup || found.None? || found.value.Directory? then Lookup(m.world.files, p)
                   else if copy.Copied? then found else copy.residue)
            && n.fates == m.fates && n.log == m.log
  {}

  /** Anything can happen to the machine from outside, without the manager knowing. */
  lemma OutsideExact(m: Manager, after: World)
    ensures Next(m, Outside(after)) == m.(world := after)
  {}

  /** A rollback without faults whose actions do not throw reports no error. */
  lemma CleanAbort(m: Manager, id: TxId, faults: Faults)
    requires id in m.active && !m.active[id].committed && RollsBackCleanly(m, id, faults)
    ensures AfterAbort(m, id, faults).fates == m.fates[id := RolledBack(|m.active[id].actions|, 0)]
  {
    CleanRollBack(m.world, m.active[id], faults);
  }

  // --------------------------------------------------------------- the service

  class Transaction {
    const id: TxId
    const startedAt: int
    var rollbackActions: seq<Undo>
    var fileSnapshots: seq<Snapshot>
    var committed: bool

    constructor (id: TxId, now: int)
      ensures this.id == id && State() == TxState(now, [], [], false)
    {
      this.id, this.startedAt := id, now;
      rollbackActions, fileSnapshots, committed := [], [], false;
    }

    ghost function State(): TxState
      reads this
    {
      TxState(startedAt, rollbackActions, fileSnapshots, committed)
    }
  }

  /** The cleanup from its k-th transaction on. */
  lemma CleanupFrom(m: Manager, order: seq<TxId>, k: nat, now: int, maxAge: int, faultsOf: TxId -> Faults)
    requires k < |order|
    ensures AfterCleanup(m, order[k..], now, maxAge, faultsOf)
            == var id := order[k];
               if id in m.active && IsStale(m.active[id], now, maxAge) then
                 var rest := AfterCleanup(AfterAbort(m, id, faultsOf(id)), order[k + 1..], now, maxAge, faultsOf);
                 (rest.0, (if RollBack(m.world, m.active[id], faultsOf(id)).errors == 0 then 1 else 0) + rest.1)
               else AfterCleanup(m, order[k + 1..], now, maxAge, faultsOf)
  {
    assert order[k..][0] == order[k] && order[k..][1..] == order[k + 1..];
  }

  class TransactionManagerService {
    var activeTransactions: map<TxId, Transaction>
    var world: World

    ghost predicate Valid()
      reads this, activeTransactions.Values
    {
      forall id :: id in activeTransactions ==> activeTransactions[id].id == id
    }

    ghost function Active(): map<TxId, TxState>
      reads this, activeTransactions.Values
    {
      map id | id in activeTransactions :: activeTransactions[id].State()
    }

    /** The service's part of the specification state, given a history. */
    ghost function Abstract(fates: map<TxId, Fate>, log: multiset<(TxId, nat)>): Manager
      reads this, activeTransactions.Values
    {
      Manager(world, Active(), fates, log)
    }

    constructor (w: World)
      ensures Valid() && Active() == map[] && world == w
    {
      activeTransactions, world := map[], w;
    }

    method StartTransaction(id: TxId, now: int)
      requires Valid() && id !in activeTransactions
      modifies this`activeTransactions
      ensures Valid() && id in activeTransactions && fresh(activeTransactions[id])
      ensures activeTransactions == old(activeTransactions)[id := activeTransactions[id]]
      ensures Active() == old(Active())[id := TxState(now, [], [], false)]
    {
      var transaction := new Transaction(id, now);
      activeTransactions := activeTransactions[id := transaction];
    }

    method AddRollbackAction(id: TxId, action: Undo) returns (s: Status)
      requires Valid()
      modifies if id in activeTransactions then {activeTransactions[id]} else {}
      ensures Valid()
      ensures id !in old(Active()) ==> s == NotFound && Active() == old(Active())
      ensures id in old(Active()) ==>
                var tx := old(Active())[id];
                s == Done && Active() == old(Active())[id := tx.(actions := tx.actions + [action])]
    {
      if id !in activeTransactions { return NotFound; }
      var transaction := activeTransactions[id];
      transaction.rollbackActions := transaction.rollbackActions + [action];
      assert forall k :: k in activeTransactions && k != id ==> activeTransactions[k].id != transaction.id;
      s := Done;
    }

    method SnapshotFile(id: TxId, filePath: Path, now: nat, copy: CopyResult) returns (s: Status)
      requires Valid()
      modifies this`world, if id in activeTransactions then {activeTransactions[id]} else {}
      ensures Valid()
      ensures id !in old(Active()) ==> s == NotFound && Active() == old(Active()) && world == old(world)
      ensures id in old(Active()) ==>
                var after := AfterSnapshot(old(Abstract(map[], EMPTY_LOG)), id, filePath, now, copy);
                world == after.world && Active() == after.active
      ensures s == IoError <==>
              id in old(Active()) && filePath in old(world).files
              && (old(world).files[filePath].Directory? || copy.CopyThrows?)
    {
      if id !in activeTransactions { return NotFound; }
      if filePath !in world.files {
        s := AddRollbackAction(id, RemoveIfPresent(filePath));
        return;
      }
      var backupPath := BackupPath(id, Basename(filePath), now);
      if world.files[filePath].Directory? { return IoError; }
      if copy.CopyThrows? {
        world := world.(files := Put(world.files, backupPath, copy.residue));
        return IoError;
      }
      world := world.(files := world.files[backupPath := world.files[filePath]]);
      PushSnapshot(id, Snapshot(filePath, backupPath));
      s := Done;
    }

    method PushSnapshot(id: TxId, snapshot: Snapshot)
      requires Valid() && id in activeTransactions
      modifies activeTransactions[id]
      ensures Valid()
      ensures var tx := old(Active())[id];
              Active() == old(Active())[id := tx.(snapshots := tx.snapshots + [snapshot])]
    {
      var transaction := activeTransactions[id];
      transaction.fileSnapshots := transaction.fileSnapshots + [snapshot];
    }

    method Commit(id: TxId, unlinkFails: nat -> bool) returns (s: Status)
      requires Valid()
      modifies this, if id in activeTransactions then {activeTransactions[id]} else {}
      ensures Valid()
      ensures id !in old(Active()) ==> s == NotFound && Active() == old(Active()) && world == old(world)
      ensures id in old(Active()) && old(Active())[id].committed ==>
                s == AlreadyCommitted && Active() == old(Active()) && world == old(world)
      ensures id in old(Active()) && !old(Active())[id].committed ==>
                s == Done
                && Active() == AfterCommit(old(Abstract(map[], EMPTY_LOG)), id, unlinkFails).active
                && world == AfterCommit(old(Abstract(map[], EMPTY_LOG)), id, unlinkFails).world
    {
      if id !in activeTransactions { return NotFound; }
      var transaction := activeTransactions[id];
      if transaction.committed { return AlreadyCommitted; }
      UnlinkBackups(transaction.fileSnapshots, unlinkFails);
      MarkCommitted(id);
      s := Done;
    }

    method MarkCommitted(id: TxId)
      requires Valid() && id in activeTransactions
      modifies this`activeTransactions, activeTransactions[id]
      ensures Valid() && Active() == Without(old(Active()), id)
    {
      activeTransactions[id].committed := true;
      Drop(id);
    }

    /** Unlinks the backups that exist; a failure is only logged. */
    method UnlinkBackups(snapshots: seq<Snapshot>, unlinkFails: nat -> bool)
      modifies this`world
      ensures world == Cleanup(old(world), snapshots, unlinkFails)
    {
      for k := 0 to |snapshots|
        invariant world == Cleanup(old(world), snapshots[..k], unlinkFails)
      {
        assert snapshots[..k + 1][..k] == snapshots[..k];
        PutAbsent(world.files, snapshots[k].backupPath);
        if snapshots[k].backupPath in world.files && !unlinkFails(k) {
          world := world.(files := Put(world.files, snapshots[k].backupPath, None));
        }
      }
      assert snapshots[..|snapshots|] == snapshots;
    }

    /** Undo actions newest first, then snapshots oldest first; whatever throws is
        counted and the next one still runs; the transaction is gone at the end. */
    method RollbackTransaction(id: TxId, faults: Faults) returns (s: Status)
      requires Valid()
      modifies this
      ensures Valid() && activeTransactions.Values <= old(activeTransactions.Values)
      ensures id !in old(Active()) ==> s == NotFound && Active() == old(Active()) && world == old(world)
      ensures id in old(Active()) && old(Active())[id].committed ==>
                s == AlreadyCommitted && Active() == old(Active()) && world == old(world)
      ensures id in old(Active()) && !old(Active())[id].committed ==>
                var report := RollBack(old(world), old(Active())[id], faults);
                && world == report.world
                && Active() == Without(old(Active()), id)
                && s == if report.errors == 0 then Done else RollbackErrors(report.errors)
    {
      if id !in activeTransactions { return NotFound; }
      var transaction := activeTransactions[id];
      if transaction.committed { return AlreadyCommitted; }
      var undoErrors := RunActions(transaction.rollbackActions, faults.onUndo);
      var restoreErrors := RestoreSnapshots(transaction.fileSnapshots, faults.onRestore);
      var errors := undoErrors + restoreErrors;
      Drop(id);
      s := if errors == 0 then Done else RollbackErrors(errors);
    }

    method RunActions(actions: seq<Undo>, fails: nat -> bool) returns (errors: nat)
      modifies this`world
      ensures world == RunUndos(old(world), actions, fails).world
      ensures errors == RunUndos(old(world), actions, fails).errors
    {
      var n := |actions|;
      var reversedActions := seq(n, (k: nat) requires k < n => actions[n - 1 - k]);
      errors := 0;
      ghost var undone := RunUndos(world, actions, fails);
      assert actions[..n] == actions;
      for k := 0 to n
        invariant RunUndos(world, actions[..n - k], fails).world == undone.world
        invariant errors + RunUndos(world, actions[..n - k], fails).errors == undone.errors
      {
        assert actions[..n - k][..n - k - 1] == actions[..n - k - 1];
        var o := RunUndo(world, reversedActions[k], fails(n - 1 - k));
        world := o.world;
        if o.threw { errors := errors + 1; }
      }
    }

    method RestoreSnapshots(snapshots: seq<Snapshot>, fault: nat -> RestoreFault) returns (errors: nat)
      modifies this`world
      ensures world == RestoreAll(old(world), snapshots, fault).world
      ensures errors == RestoreAll(old(world), snapshots, fault).errors
    {
      errors := 0;
      for k := 0 to |snapshots|
        invariant world == RestoreAll(old(world), snapshots[..k], fault).world
        invariant errors == RestoreAll(old(world), snapshots[..k], fault).errors
      {
        assert snapshots[..k + 1][..k] == snapshots[..k];
        var o := Restore(world, snapshots[k], fault(k));
        world := o.world;
        if o.threw { errors := errors + 1; }
      }
      assert snapshots[..|snapshots|] == snapshots;
    }

    /** One round of the cleanup loop. */
    method CleanupOne(id: TxId, now: int, maxAgeMs: int, faults: Faults) returns (clean: bool)
      requires Valid() && id in activeTransactions
      modifies this
      ensures Valid() && activeTransactions.Values <= old(activeTransactions.Values)
      ensures var m := old(Abstract(map[], EMPTY_LOG));
              if IsStale(m.active[id], now, maxAgeMs) then
                && world == AfterAbort(m, id, faults).world && Active() == AfterAbort(m, id, faults).active
                && clean == (RollBack(m.world, m.active[id], faults).errors == 0)
              else
                world == m.world && Active() == m.active && !clean
    {
      clean := false;
      var transaction := activeTransactions[id];
      if now - transaction.startedAt > maxAgeMs && !transaction.committed {
        var s := RollbackTransaction(id, faults);
        clean := s == Done;
      }
    }

    /** Default age limit of the cleanup: one hour, in milliseconds. */
    static const MAX_AGE_MS := 3600000

    method CleanupStaleTransactions(order: seq<TxId>, now: int, maxAgeMs: int, faultsOf: TxId -> Faults)
      returns (cleaned: nat)
      requires Valid() && Lists(order, activeTransactions.Keys)
      modifies this
      ensures Valid()
      ensures var (after, count) := AfterCleanup(old(Abstract(map[], EMPTY_LOG)), order, now, maxAgeMs, faultsOf);
              world == after.world && Active() == after.active && cleaned == count
    {
      cleaned := 0;
      ghost var m := Abstract(map[], EMPTY_LOG);
      ghost var goal := AfterCleanup(m, order, now, maxAgeMs, faultsOf);
      for k := 0 to |order|
        invariant Valid()
        invariant m.world == world && m.active == Active()
        invariant AfterCleanup(m, order[k..], now, maxAgeMs, faultsOf).0 == goal.0
        invariant cleaned + AfterCleanup(m, order[k..], now, maxAgeMs, faultsOf).1 == goal.1
        invariant activeTransactions.Values <= old(activeTransactions.Values)
      {
        var id := order[k];
        CleanupFrom(m, order, k, now, maxAgeMs, faultsOf);
        if id in activeTransactions {
          var clean := CleanupOne(id, now, maxAgeMs, faultsOf(id));
          if IsStale(m.active[id], now, maxAgeMs) { m := AfterAbort(m, id, faultsOf(id)); }
          if clean { cleaned := cleaned + 1; }
        }
      }
      assert order[|order|..] == [];
    }

    lemma PutAbsent(files: map<Path, Node>, p: Path)
      ensures p !in files ==> Put(files, p, None) == files
    {}

    /** `activeTransactions.delete(id)`, with what the caller needs about the others. */
    method Drop(id: TxId)
      requires Valid()
      modifies this`activeTransactions
      ensures activeTransactions == map k | k in old(activeTransactions) && k != id :: old(activeTransactions)[k]
      ensures Valid() && activeTransactions.Values <= old(activeTransactions.Values)
    {
      ghost var before := activeTransactions;
      activeTransactions := map k | k in activeTransactions && k != id :: activeTransactions[k];
      assert forall k :: k in activeTransactions ==> before[k] in before.Values;
    }
  }
}
