/** What a rollback does to the machine: the undo actions newest first, then the
    file snapshots oldest first, every failure noted and none of them stopping
    the rest. */
module Rollback {
  import opened Text

  type Path = string
  type TxId = string
  datatype Node = Directory | Regular(content: string)
  datatype Account = Account(uid: int, shell: string, password: Option<string>)

  /** The machine as the panel sees it: files and directories, OS accounts, disk quotas. */
  datatype World = World(files: map<Path, Node>, accounts: map<string, Account>, quotas: map<string, nat>)

  /** What an undo action leaves behind, and whether it threw. */
  datatype Outcome = Outcome(world: World, threw: bool)

  /** `RemoveIfPresent` is what `snapshotFile` registers for a missing file; `Custom`
      is a closure handed to `addRollbackAction`. Since a closure runs at most once,
      an arbitrary function of the world covers arbitrary failures. */
  datatype Undo = RemoveIfPresent(path: Path) | Custom(effect: World -> Outcome)

  datatype Snapshot = Snapshot(originalPath: Path, backupPath: Path)

  datatype TxState = TxState(startedAt: int, actions: seq<Undo>, snapshots: seq<Snapshot>, committed: bool)

  /** How restoring one snapshot can go wrong: the copy may leave anything (or
      nothing) at its destination, or the backup may refuse to be unlinked. */
  datatype RestoreFault = NoFault | CopyFails(residue: Option<Node>) | UnlinkFails

  /** I/O outcomes of one rollback, by action index and by snapshot index. */
  datatype Faults = Faults(onUndo: nat -> bool, onRestore: nat -> RestoreFault)

  const NO_FAULTS: Faults := Faults((i: nat) => false, (i: nat) => NoFault)

  /** `ran` lists the indices of the actions executed, in execution order. */
  datatype Report = Report(world: World, errors: nat, ran: seq<nat>)

  function Lookup(files: map<Path, Node>, p: Path): Option<Node> {
    if p in files then Some(files[p]) else None
  }

  function Put(files: map<Path, Node>, p: Path, n: Option<Node>): (r: map<Path, Node>)
    ensures Lookup(r, p) == n
    ensures forall q :: q != p ==> Lookup(r, q) == Lookup(files, q)
  {
    match n
    case Some(node) => files[p := node]
    case None => map q | q in files && q != p :: files[q]
  }

  function RunUndo(w: World, u: Undo, unlinkFails: bool): Outcome {
    match u
    case RemoveIfPresent(p) =>
      if p !in w.files then Outcome(w, false)
      else if unlinkFails then Outcome(w, true)
      else Outcome(w.(files := Put(w.files, p, None)), false)
    case Custom(effect) => effect(w)
  }

  /** Runs `us[|us| - 1]` first and `us[0]` last. */
  function RunUndos(w: World, us: seq<Undo>, fails: nat -> bool): (r: Report)
    ensures r.errors <= |us|
    decreases |us|
  {
    if us == [] then Report(w, 0, [])
    else
      var last := |us| - 1;
      var o := RunUndo(w, us[last], fails(last));
      var rest := RunUndos(o.world, us[..last], fails);
      Report(rest.world, rest.errors + (if o.threw then 1 else 0), [last] + rest.ran)
  }

  function Restore(w: World, s: Snapshot, fault: RestoreFault): Outcome {
    if s.backupPath !in w.files then Outcome(w, false)
    else
      match fault
      case NoFault =>
        Outcome(w.(files := Put(w.files[s.originalPath := w.files[s.backupPath]], s.backupPath, None)), false)
      case CopyFails(residue) =>
        Outcome(w.(files := Put(w.files, s.originalPath, residue)), true)
      case UnlinkFails =>
        Outcome(w.(files := w.files[s.originalPath := w.files[s.backupPath]]), true)
  }

  /** Restores `ss[0]` first. */
  function RestoreAll(w: World, ss: seq<Snapshot>, fault: nat -> RestoreFault): (r: Report)
    ensures r.errors <= |ss|
  {
    if ss == [] then Report(w, 0, [])
    else
      var last := |ss| - 1;
      var before := RestoreAll(w, ss[..last], fault);
      var o := Restore(before.world, ss[last], fault(last));
      Report(o.world, before.errors + (if o.threw then 1 else 0), before.ran + [last])
  }

  function RollBack(w: World, tx: TxState, faults: Faults): Report {
    var undone := RunUndos(w, tx.actions, faults.onUndo);
    var restored := RestoreAll(undone.world, tx.snapshots, faults.onRestore);
    Report(restored.world, undone.errors + restored.errors, undone.ran)
  }

  /** The snapshot files a commit unlinks. */
  function Cleanup(w: World, ss: seq<Snapshot>, unlinkFails: nat -> bool): World {
    if ss == [] then w
    else
      var last := |ss| - 1;
      var before := Cleanup(w, ss[..last], unlinkFails);
      if unlinkFails(last) then before
      else before.(files := Put(before.files, ss[last].backupPath, None))
  }

  // ------------------------------------------------- errors and execution order

  /** The world in which action `k` runs: every newer action has run already. */
  function WorldAt(w: World, us: seq<Undo>, fails: nat -> bool, k: nat): World
    requires k < |us|
    decreases |us|
  {
    var last := |us| - 1;
    if k == last then w
    else WorldAt(RunUndo(w, us[last], fails(last)).world, us[..last], fails, k)
  }

  predicate Throws(w: World, us: seq<Undo>, fails: nat -> bool, k: nat)
    requires k < |us|
  {
    RunUndo(WorldAt(w, us, fails, k), us[k], fails(k)).threw
  }

  /** The world in which snapshot `k` is restored: every older one was attempted. */
  function RestoreWorldAt(w: World, ss: seq<Snapshot>, fault: nat -> RestoreFault, k: nat): World
    requires k < |ss|
  {
    RestoreAll(w, ss[..k], fault).world
  }

  predicate RestoreThrows(w: World, ss: seq<Snapshot>, fault: nat -> RestoreFault, k: nat)
    requires k < |ss|
  {
    Restore(RestoreWorldAt(w, ss, fault, k), ss[k], fault(k)).threw
  }

  /** A set that grows by its next index, or does not. */
  lemma OneMore(older: set<nat>, all: set<nat>, n: nat, more: bool)
    requires forall k: nat :: k in all <==> k in older || (more && k == n)
    requires n !in older
    ensures |all| == |older| + (if more then 1 else 0)
  {
    assert all == older + (if more then {n} else {});
  }

  function UndoThrowers(w: World, us: seq<Undo>, fails: nat -> bool): set<nat> {
    set k: nat | k < |us| && Throws(w, us, fails, k)
  }

  /** The error count is the number of actions that threw. */
  lemma {:induction false} UndoErrorsCounted(w: World, us: seq<Undo>, fails: nat -> bool)
    ensures RunUndos(w, us, fails).errors == |UndoThrowers(w, us, fails)|
    decreases |us|
  {
    if us != [] {
      var last := |us| - 1;
      var init := us[..last];
      var next := RunUndo(w, us[last], fails(last)).world;
      UndoErrorsCounted(next, init, fails);
      forall k: nat | k < last ensures Throws(w, us, fails, k) == Throws(next, init, fails, k) {}
      OneMore(UndoThrowers(next, init, fails), UndoThrowers(w, us, fails), last, Throws(w, us, fails, last));
    }
  }

  /** An unlinking undo action throws exactly when the path is there and cannot be unlinked;
      a closure throws when it says so. */
  lemma {:induction false} ThrowsIff(w: World, us: seq<Undo>, fails: nat -> bool, k: nat)
    requires k < |us|
    ensures Throws(w, us, fails, k)
            <==> match us[k]
                 case RemoveIfPresent(p) => p in WorldAt(w, us, fails, k).files && fails(k)
                 case Custom(effect) => effect(WorldAt(w, us, fails, k)).threw
  {}

  predicate Removes(u: Undo, p: Path) { u.RemoveIfPresent? && u.path == p }

  /** Action k finds its path, which no action that ran before has removed, and cannot unlink it. */
  predicate StaysBehind(w: World, us: seq<Undo>, fails: nat -> bool, k: nat)
    requires k < |us|
  {
    us[k].RemoveIfPresent? && us[k].path in w.files && fails(k)
    && forall j :: k < j < |us| && Removes(us[j], us[k].path) ==> fails(j)
  }

  function LeftBehind(w: World, us: seq<Undo>, fails: nat -> bool): set<nat> {
    set k: nat | k < |us| && StaysBehind(w, us, fails, k)
  }

  lemma StaysBehindNext(w: World, us: seq<Undo>, fails: nat -> bool, k: nat)
    requires k + 1 < |us| && us[|us| - 1].RemoveIfPresent?
    ensures StaysBehind(w, us, fails, k)
            == StaysBehind(RunUndo(w, us[|us| - 1], fails(|us| - 1)).world, us[..|us| - 1], fails, k)
  {
    var last, init := |us| - 1, us[..|us| - 1];
    var next := RunUndo(w, us[last], fails(last)).world;
    if us[k].RemoveIfPresent? {
      assert us[k].path in next.files <==> us[k].path in w.files && (us[k].path == us[last].path ==> fails(last));
      if StaysBehind(next, init, fails, k) {
        forall j | k < j < |us| && Removes(us[j], us[k].path) ensures fails(j) {
          if j < last { assert init[j] == us[j]; }
        }
      }
      if StaysBehind(w, us, fails, k) {
        forall j | k < j < |init| && Removes(init[j], us[k].path) ensures fails(j) {
          assert Removes(us[j], us[k].path);
        }
      }
    }
  }

  /** The error count of the actions `snapshotFile` registers, by the first world and the faults
      alone. */
  lemma {:induction false} RemovalErrorsExact(w: World, us: seq<Undo>, fails: nat -> bool)
    requires forall k :: 0 <= k < |us| ==> us[k].RemoveIfPresent?
    ensures RunUndos(w, us, fails).errors == |LeftBehind(w, us, fails)|
    decreases |us|
  {
    if us == [] {
      assert LeftBehind(w, us, fails) == {};
    } else {
      var last, init := |us| - 1, us[..|us| - 1];
      var next := RunUndo(w, us[last], fails(last)).world;
      RemovalErrorsExact(next, init, fails);
      forall k: nat | k < last ensures StaysBehind(w, us, fails, k) == StaysBehind(next, init, fails, k) {
        StaysBehindNext(w, us, fails, k);
      }
      ThrowsIff(w, us, fails, last);
      OneMore(LeftBehind(next, init, fails), LeftBehind(w, us, fails), last, StaysBehind(w, us, fails, last));
    }
  }

  function Throwers(w: World, ss: seq<Snapshot>, fault: nat -> RestoreFault): set<nat> {
    set k: nat | k < |ss| && RestoreThrows(w, ss, fault, k)
  }

  lemma ThrowsInPrefix(w: World, ss: seq<Snapshot>, fault: nat -> RestoreFault, k: nat)
    requires k + 1 < |ss|
    ensures RestoreThrows(w, ss, fault, k) == RestoreThrows(w, ss[..|ss| - 1], fault, k)
  {
    assert ss[..|ss| - 1][..k] == ss[..k];
  }

  lemma ThrowersGrow(w: World, ss: seq<Snapshot>, fault: nat -> RestoreFault)
    requires ss != []
    ensures |Throwers(w, ss, fault)|
            == |Throwers(w, ss[..|ss| - 1], fault)| + (if RestoreThrows(w, ss, fault, |ss| - 1) then 1 else 0)
  {
    var last := |ss| - 1;
    forall k: nat
      ensures k in Throwers(w, ss, fault)
              <==> k in Throwers(w, ss[..last], fault) || (RestoreThrows(w, ss, fault, last) && k == last)
    {
      if k < last { ThrowsInPrefix(w, ss, fault, k); }
    }
    OneMore(Throwers(w, ss[..last], fault), Throwers(w, ss, fault), last, RestoreThrows(w, ss, fault, last));
  }

  /** The error count is the number of snapshots whose restoring threw. */
  lemma {:induction false} RestoreErrorsCounted(w: World, ss: seq<Snapshot>, fault: nat -> RestoreFault)
    ensures RestoreAll(w, ss, fault).errors == |Throwers(w, ss, fault)|
  {
    if ss != [] {
      RestoreErrorsCounted(w, ss[..|ss| - 1], fault);
      ThrowersGrow(w, ss, fault);
    }
  }

  function Descending(n: nat): (s: seq<nat>)
    ensures |s| == n && forall k :: 0 <= k < n ==> s[k] == n - 1 - k
  {
    seq(n, (k: nat) requires k < n => n - 1 - k)
  }

  /** Whatever throws, all the actions run, each once, newest first. */
  lemma {:induction false} EveryUndoRuns(w: World, us: seq<Undo>, fails: nat -> bool)
    ensures RunUndos(w, us, fails).ran == Descending(|us|)
    decreases |us|
  {
    if us != [] {
      var last := |us| - 1;
      EveryUndoRuns(RunUndo(w, us[last], fails(last)).world, us[..last], fails);
      assert Descending(|us|) == [last] + Descending(last);
    }
  }

  /** And all the snapshots are attempted, oldest first. */
  lemma {:induction false} EveryRestoreRuns(w: World, ss: seq<Snapshot>, fault: nat -> RestoreFault)
    ensures |RestoreAll(w, ss, fault).ran| == |ss|
    ensures forall k :: 0 <= k < |ss| ==> RestoreAll(w, ss, fault).ran[k] == k
  {
    if ss != [] { EveryRestoreRuns(w, ss[..|ss| - 1], fault); }
  }

  // ------------------------------------------------------------ last-in first-out

  /** `steps[k]` takes `worlds[k]` to `worlds[k + 1]`; its undo takes it back. */
  ghost predicate Inverts(u: Undo, before: World, after: World) {
    RunUndo(after, u, false) == Outcome(before, false)
  }

  /** LIFO: actions that each invert the step they were registered after, run
      after any number of steps, lead back to the first world. */
  lemma {:induction false} LifoReturnsToStart(worlds: seq<World>, us: seq<Undo>, fails: nat -> bool)
    requires |worlds| == |us| + 1
    requires forall k :: 0 <= k < |us| ==> Inverts(us[k], worlds[k], worlds[k + 1]) && !fails(k)
    ensures RunUndos(worlds[|us|], us, fails).world == worlds[0]
    ensures RunUndos(worlds[|us|], us, fails).errors == 0
  {
    if us != [] {
      var last := |us| - 1;
      assert Inverts(us[last], worlds[last], worlds[last + 1]) && !fails(last);
      LifoReturnsToStart(worlds[..|us|], us[..last], fails);
    }
  }

  // -------------------------------------------------------------- file snapshots

  ghost predicate BackupsApart(ss: seq<Snapshot>) {
    forall i, j :: 0 <= i < |ss| && 0 <= j < |ss| ==> ss[i].originalPath != ss[j].backupPath
  }

  ghost predicate IsBackup(ss: seq<Snapshot>, p: Path) {
    exists i :: 0 <= i < |ss| && ss[i].backupPath == p
  }

  /** The backup has been used up: a snapshot naming it was restored without a fault,
      which unlinks it. */
  ghost predicate Consumed(ss: seq<Snapshot>, fault: nat -> RestoreFault, b: Path) {
    exists j :: 0 <= j < |ss| && ss[j].backupPath == b && fault(j).NoFault?
  }

  /** The newest snapshot of `p` that still finds its backup. */
  ghost function LastRestored(w: World, ss: seq<Snapshot>, fault: nat -> RestoreFault, p: Path): (r: Option<nat>)
    ensures r.Some? ==> r.value < |ss| && ss[r.value].originalPath == p
  {
    if ss == [] then None
    else
      var last, init := |ss| - 1, ss[..|ss| - 1];
      var s := ss[last];
      if s.originalPath == p && s.backupPath in w.files && !Consumed(init, fault, s.backupPath) then Some(last)
      else LastRestored(w, init, fault, p)
  }

  /** A path that nobody restores to: the backup is there until it is used up. */
  lemma {:induction false} BackupAfter(w: World, ss: seq<Snapshot>, fault: nat -> RestoreFault, b: Path)
    requires forall i :: 0 <= i < |ss| ==> ss[i].originalPath != b
    ensures Lookup(RestoreAll(w, ss, fault).world.files, b)
            == if Consumed(ss, fault, b) then None else Lookup(w.files, b)
  {
    if ss != [] {
      var last, init := |ss| - 1, ss[..|ss| - 1];
      BackupAfter(w, init, fault, b);
      ConsumedNext(ss, fault, b);
    }
  }

  lemma ConsumedNext(ss: seq<Snapshot>, fault: nat -> RestoreFault, b: Path)
    requires ss != []
    ensures Consumed(ss, fault, b)
            <==> Consumed(ss[..|ss| - 1], fault, b) || (ss[|ss| - 1].backupPath == b && fault(|ss| - 1).NoFault?)
  {
    var init := ss[..|ss| - 1];
    if Consumed(init, fault, b) {
      var j :| 0 <= j < |init| && init[j].backupPath == b && fault(j).NoFault?;
      assert ss[j] == init[j];
    }
    if j :| 0 <= j < |ss| && ss[j].backupPath == b && fault(j).NoFault? {
      if j < |init| { assert init[j].backupPath == b; }
    }
  }

  /** Snapshot k finds its backup, and something goes wrong with it. */
  ghost predicate GoesWrong(w: World, ss: seq<Snapshot>, fault: nat -> RestoreFault, k: nat)
    requires k < |ss|
  {
    ss[k].backupPath in w.files && !Consumed(ss[..k], fault, ss[k].backupPath) && !fault(k).NoFault?
  }

  ghost function WentWrong(w: World, ss: seq<Snapshot>, fault: nat -> RestoreFault): set<nat> {
    set k: nat | k < |ss| && GoesWrong(w, ss, fault, k)
  }

  lemma ThrowsIffFault(before: World, s: Snapshot, fault: RestoreFault)
    ensures Restore(before, s, fault).threw <==> s.backupPath in before.files && !fault.NoFault?
  {}

  /** The error count of the restoring, by the first world and the faults alone: the snapshots
      whose backup was there, not used up by an older one, and failed to be copied or unlinked. */
  lemma {:induction false} RestoreErrorsExact(w: World, ss: seq<Snapshot>, fault: nat -> RestoreFault)
    requires BackupsApart(ss)
    ensures RestoreAll(w, ss, fault).errors == |WentWrong(w, ss, fault)|
  {
    if ss == [] {
      assert WentWrong(w, ss, fault) == {};
    } else {
      var last, init := |ss| - 1, ss[..|ss| - 1];
      RestoreErrorsExact(w, init, fault);
      forall i | 0 <= i < |init| ensures init[i].originalPath != ss[last].backupPath { assert ss[i] == init[i]; }
      BackupAfter(w, init, fault, ss[last].backupPath);
      ThrowsIffFault(RestoreAll(w, init, fault).world, ss[last], fault(last));
      assert forall k: nat :: k < last ==> init[..k] == ss[..k] && init[k] == ss[k];
      OneMore(WentWrong(w, init, fault), WentWrong(w, ss, fault), last, GoesWrong(w, ss, fault, last));
    }
  }

  /** Restoring, for any list of snapshots, names repeated or missing, and any faults:
      a path ends with what the backup of the newest snapshot that still finds one held,
      or with the residue of its copy; other paths are left alone. */
  lemma {:induction false} RestoreAllExact(w: World, ss: seq<Snapshot>, fault: nat -> RestoreFault, p: Path)
    requires BackupsApart(ss) && !IsBackup(ss, p)
    ensures Lookup(RestoreAll(w, ss, fault).world.files, p)
            == match LastRestored(w, ss, fault, p)
               case None => Lookup(w.files, p)
               case Some(k) =>
                 if fault(k).CopyFails? then fault(k).residue else Lookup(w.files, ss[k].backupPath)
  {
    if ss != [] {
      var last, init := |ss| - 1, ss[..|ss| - 1];
      NotInPrefix(ss, p);
      RestoreAllExact(w, init, fault, p);
      forall i | 0 <= i < |init| ensures init[i].originalPath != ss[last].backupPath { assert ss[i] == init[i]; }
      BackupAfter(w, init, fault, ss[last].backupPath);
      assert ss[last].originalPath != ss[last].backupPath;
      RestoreOne(RestoreAll(w, init, fault).world, ss[last], fault(last), p);
    }
  }

  /** One snapshot. */
  lemma RestoreOne(before: World, s: Snapshot, fault: RestoreFault, p: Path)
    requires p != s.backupPath && s.originalPath != s.backupPath
    ensures Lookup(Restore(before, s, fault).world.files, p)
            == if p != s.originalPath || s.backupPath !in before.files then Lookup(before.files, p)
               else if fault.CopyFails? then fault.residue
               else Lookup(before.files, s.backupPath)
  {}

  lemma NotInPrefix(ss: seq<Snapshot>, p: Path)
    requires ss != [] && !IsBackup(ss, p)
    ensures !IsBackup(ss[..|ss| - 1], p) && p != ss[|ss| - 1].backupPath
  {
    var init := ss[..|ss| - 1];
    assert forall i :: 0 <= i < |init| ==> init[i].backupPath == ss[i].backupPath;
    assert p == ss[|ss| - 1].backupPath ==> IsBackup(ss, p);
  }

  lemma {:induction false} RestoringIsOnlyFiles(w: World, ss: seq<Snapshot>, fault: nat -> RestoreFault)
    ensures RestoreAll(w, ss, fault).world.accounts == w.accounts
    ensures RestoreAll(w, ss, fault).world.quotas == w.quotas
  {
    if ss != [] {
      RestoringIsOnlyFiles(w, ss[..|ss| - 1], fault);
    }
  }

  /** A custom action keeps its hands off this transaction's backups. */
  ghost predicate KeepsBackups(us: seq<Undo>, ss: seq<Snapshot>) {
    forall k :: 0 <= k < |us| ==>
      match us[k]
      case RemoveIfPresent(p) => !IsBackup(ss, p)
      case Custom(effect) =>
        forall w: World, b :: IsBackup(ss, b) ==> Lookup(effect(w).world.files, b) == Lookup(w.files, b)
  }

  lemma {:induction false} UndosKeepBackups(w: World, us: seq<Undo>, ss: seq<Snapshot>, fails: nat -> bool, b: Path)
    requires KeepsBackups(us, ss) && IsBackup(ss, b)
    ensures Lookup(RunUndos(w, us, fails).world.files, b) == Lookup(w.files, b)
    decreases |us|
  {
    if us != [] {
      var last := |us| - 1;
      var o := RunUndo(w, us[last], fails(last));
      assert KeepsBackups(us[..last], ss);
      UndosKeepBackups(o.world, us[..last], ss, fails, b);
    }
  }

  lemma {:induction false} SameBackups(w: World, v: World, ss: seq<Snapshot>, fault: nat -> RestoreFault, p: Path)
    requires forall i :: 0 <= i < |ss| ==> Lookup(v.files, ss[i].backupPath) == Lookup(w.files, ss[i].backupPath)
    ensures LastRestored(v, ss, fault, p) == LastRestored(w, ss, fault, p)
  {
    if ss != [] {
      var init := ss[..|ss| - 1];
      assert forall i :: 0 <= i < |init| ==> init[i] == ss[i];
      SameBackups(w, v, init, fault, p);
      assert Lookup(v.files, ss[|ss| - 1].backupPath) == Lookup(w.files, ss[|ss| - 1].backupPath);
    }
  }

  /** Rollback as a whole: a path gets what the backup of its newest snapshot that still
      finds one held before; any other path is where the undo actions left it. */
  lemma RollBackExact(w: World, tx: TxState, faults: Faults, p: Path)
    requires BackupsApart(tx.snapshots) && KeepsBackups(tx.actions, tx.snapshots) && !IsBackup(tx.snapshots, p)
    ensures Lookup(RollBack(w, tx, faults).world.files, p)
            == match LastRestored(w, tx.snapshots, faults.onRestore, p)
               case None => Lookup(RunUndos(w, tx.actions, faults.onUndo).world.files, p)
               case Some(k) =>
                 if faults.onRestore(k).CopyFails? then faults.onRestore(k).residue
                 else Lookup(w.files, tx.snapshots[k].backupPath)
  {
    var undone := RunUndos(w, tx.actions, faults.onUndo).world;
    forall i | 0 <= i < |tx.snapshots|
      ensures Lookup(undone.files, tx.snapshots[i].backupPath) == Lookup(w.files, tx.snapshots[i].backupPath)
    {
      assert IsBackup(tx.snapshots, tx.snapshots[i].backupPath);
      UndosKeepBackups(w, tx.actions, tx.snapshots, faults.onUndo, tx.snapshots[i].backupPath);
    }
    SameBackups(w, undone, tx.snapshots, faults.onRestore, p);
    RestoreAllExact(undone, tx.snapshots, faults.onRestore, p);
  }

  /** The error count of a whole rollback: the actions that threw, and the snapshots whose backup
      was there and that went wrong. */
  lemma RollBackErrorsExact(w: World, tx: TxState, faults: Faults)
    requires BackupsApart(tx.snapshots) && KeepsBackups(tx.actions, tx.snapshots)
    ensures RollBack(w, tx, faults).errors
            == |UndoThrowers(w, tx.actions, faults.onUndo)| + |WentWrong(w, tx.snapshots, faults.onRestore)|
  {
    var ss, undone := tx.snapshots, RunUndos(w, tx.actions, faults.onUndo).world;
    UndoErrorsCounted(w, tx.actions, faults.onUndo);
    RestoreErrorsExact(undone, ss, faults.onRestore);
    forall k: nat | k < |ss| ensures ss[k].backupPath in undone.files <==> ss[k].backupPath in w.files {
      assert IsBackup(ss, ss[k].backupPath);
      UndosKeepBackups(w, tx.actions, ss, faults.onUndo, ss[k].backupPath);
    }
    assert WentWrong(undone, ss, faults.onRestore) == WentWrong(w, ss, faults.onRestore);
  }

  ghost predicate NeverThrows(us: seq<Undo>) {
    forall k, w: World :: 0 <= k < |us| && us[k].Custom? ==> !us[k].effect(w).threw
  }

  predicate AllWorks(faults: Faults, undos: nat, restores: nat) {
    && (forall k :: 0 <= k < undos ==> !faults.onUndo(k))
    && (forall k :: 0 <= k < restores ==> faults.onRestore(k).NoFault?)
  }

  lemma NoFaultsAllWork(undos: nat, restores: nat)
    ensures AllWorks(NO_FAULTS, undos, restores)
  {}

  lemma {:induction false} UndosDoNotThrow(w: World, us: seq<Undo>, fails: nat -> bool)
    requires NeverThrows(us) && forall k :: 0 <= k < |us| ==> !fails(k)
    ensures RunUndos(w, us, fails).errors == 0
    decreases |us|
  {
    if us != [] {
      var last := |us| - 1;
      ThrowsIff(w, us, fails, last);
      UndosDoNotThrow(RunUndo(w, us[last], fails(last)).world, us[..last], fails);
    }
  }

  lemma {:induction false} RestoresDoNotThrow(w: World, ss: seq<Snapshot>, fault: nat -> RestoreFault)
    requires forall k :: 0 <= k < |ss| ==> fault(k).NoFault?
    ensures RestoreAll(w, ss, fault).errors == 0
  {
    if ss != [] {
      RestoresDoNotThrow(w, ss[..|ss| - 1], fault);
      ThrowsIffFault(RestoreAll(w, ss[..|ss| - 1], fault).world, ss[|ss| - 1], NoFault);
    }
  }

  /** Nothing goes wrong in a rollback whose actions do not throw and whose calls all work. */
  lemma CleanRollBack(w: World, tx: TxState, faults: Faults)
    requires NeverThrows(tx.actions) && AllWorks(faults, |tx.actions|, |tx.snapshots|)
    ensures RollBack(w, tx, faults).errors == 0
  {
    UndosDoNotThrow(w, tx.actions, faults.onUndo);
    RestoresDoNotThrow(RunUndos(w, tx.actions, faults.onUndo).world, tx.snapshots, faults.onRestore);
  }

  // ------------------------------------------------------------- after a commit

  predicate Unlinked(ss: seq<Snapshot>, unlinkFails: nat -> bool, b: Path) {
    exists k :: 0 <= k < |ss| && ss[k].backupPath == b && !unlinkFails(k)
  }

  /** Of the files a commit unlinks the snapshots' backups, except where every attempt fails. */
  lemma {:induction false} CleanupUnlinks(w: World, ss: seq<Snapshot>, unlinkFails: nat -> bool, b: Path)
    ensures Lookup(Cleanup(w, ss, unlinkFails).files, b)
            == if Unlinked(ss, unlinkFails, b) then None else Lookup(w.files, b)
    ensures Cleanup(w, ss, unlinkFails).accounts == w.accounts && Cleanup(w, ss, unlinkFails).quotas == w.quotas
  {
    if ss != [] {
      var last, init := |ss| - 1, ss[..|ss| - 1];
      CleanupUnlinks(w, init, unlinkFails, b);
      if k :| 0 <= k < |init| && init[k].backupPath == b && !unlinkFails(k) { assert ss[k] == init[k]; }
      if k :| 0 <= k < |ss| && ss[k].backupPath == b && !unlinkFails(k) {
        if k < last { assert init[k] == ss[k]; }
      }
    }
  }
}
