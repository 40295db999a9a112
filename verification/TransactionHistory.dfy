/** One transaction seen over a whole run: its own snapshots and registrations,
    interleaved with arbitrary changes of the machine by its own operation and by
    everybody else. */
module TransactionHistory {
  import opened Text
  import opened Rollback

  const SNAPSHOT_DIR := "/tmp/serverhubx-snapshots"

  // --------------------------------------------------------------- backup names

  /** `path.basename`: what follows the last slash. */
  function Basename(p: Path): string {
    var parts := Split(p, '/');
    parts[|parts| - 1]
  }

  function BackupPrefix(id: TxId): string { SNAPSHOT_DIR + "/" + id + "-" }

  function BackupPath(id: TxId, base: string, stamp: nat): Path {
    BackupPrefix(id) + base + "-" + ToDecimal(stamp)
  }

  predicate BackupName(id: TxId, p: Path) { StartsWith(p, BackupPrefix(id)) }

  /** The base name is what follows the last slash, the backup's name is put together from
      transaction, base name and time. */
  lemma BackupNames(dir: string, base: string, id: TxId, stamp: nat)
    requires '/' !in base
    ensures Basename(dir + ("/" + base)) == base && Basename(base) == base
    ensures BackupPath(id, base, stamp) == "/tmp/serverhubx-snapshots" + "/" + id + "-" + base + "-" + ToDecimal(stamp)
  {
    var parts := Split(dir, '/');
    JoinOfSplit(dir, '/');
    JoinPush(parts, base, '/');
    SplitOfJoinLast(parts, base, '/');
    SplitWhole(base, '/');
  }

  /** Ids are UUIDs, all of the same length: no path is a backup of two transactions. */
  lemma BackupsOfOneTransaction(id1: TxId, id2: TxId, p: Path)
    requires |id1| == |id2| && BackupName(id1, p) && BackupName(id2, p)
    ensures id1 == id2
  {
    var n := |SNAPSHOT_DIR + "/"|;
    assert BackupPrefix(id1)[n..n + |id1|] == id1;
    assert BackupPrefix(id2)[n..n + |id2|] == id2;
    assert p[n..n + |id1|] == BackupPrefix(id1)[n..n + |id1|];
    assert p[n..n + |id2|] == BackupPrefix(id2)[n..n + |id2|];
  }

  lemma StampNoLonger(base1: string, d1: string, base2: string, d2: string)
    requires base1 + "-" + d1 == base2 + "-" + d2
    requires forall i :: 0 <= i < |d2| ==> IsDigit(d2[i])
    ensures |d2| <= |d1|
  {
    var t := base2 + "-" + d2;
    assert (base1 + "-" + d1)[|base1|] == '-';
    forall i | |base2| < i < |t| ensures IsDigit(t[i]) {
      assert t[i] == d2[i - |base2| - 1];
    }
  }

  /** Within a transaction a backup name determines base name and time stamp. */
  lemma BackupPathInjective(id: TxId, base1: string, stamp1: nat, base2: string, stamp2: nat)
    requires BackupPath(id, base1, stamp1) == BackupPath(id, base2, stamp2)
    ensures base1 == base2 && stamp1 == stamp2
  {
    var n := |BackupPrefix(id)|;
    var d1, d2 := ToDecimal(stamp1), ToDecimal(stamp2);
    var t1, t2 := base1 + "-" + d1, base2 + "-" + d2;
    assert BackupPath(id, base1, stamp1)[n..] == t1;
    assert BackupPath(id, base2, stamp2)[n..] == t2;
    StampNoLonger(base1, d1, base2, d2);
    StampNoLonger(base2, d2, base1, d1);
    assert t1[|base1| + 1..] == d1 && t2[|base2| + 1..] == d2;
    assert t1[..|base1|] == base1 && t2[..|base2|] == base2;
    DecimalInjective(stamp1, stamp2);
  }

  // ---------------------------------------------------------------------- runs

  /** `Change` is anything that happens to the machine between two calls of this
      transaction: writes by its own operation, other transactions, other processes. */
  datatype Event =
    | Snap(path: Path, stamp: nat)
    | Register(effect: World -> Outcome)
    | Change(after: World)

  datatype Run = Run(world: World, tx: TxState)

  /** `snapshotFile`; copying a directory throws and changes nothing. */
  function TakeSnapshot(id: TxId, r: Run, path: Path, stamp: nat): Run {
    if path !in r.world.files then
      r.(tx := r.tx.(actions := r.tx.actions + [RemoveIfPresent(path)]))
    else if r.world.files[path].Directory? then r
    else
      var backup := BackupPath(id, Basename(path), stamp);
      Run(r.world.(files := r.world.files[backup := r.world.files[path]]),
          r.tx.(snapshots := r.tx.snapshots + [Snapshot(path, backup)]))
  }

  function Apply(id: TxId, r: Run, e: Event): Run {
    match e
    case Snap(path, stamp) => TakeSnapshot(id, r, path, stamp)
    case Register(effect) => r.(tx := r.tx.(actions := r.tx.actions + [Custom(effect)]))
    case Change(after) => r.(world := after)
  }

  function RunAll(id: TxId, start: World, es: seq<Event>): Run {
    if es == [] then Run(start, TxState(0, [], [], false))
    else Apply(id, RunAll(id, start, es[..|es| - 1]), es[|es| - 1])
  }

  ghost predicate KeepsPath(effect: World -> Outcome, p: Path) {
    forall w: World :: Lookup(effect(w).world.files, p) == Lookup(w.files, p)
  }

  /** Snapshots are not taken of backups, registered actions leave every backup of the
      transaction alone, and so does everybody else those made so far. */
  ghost predicate Legal(id: TxId, r: Run, e: Event) {
    match e
    case Snap(path, _) => !BackupName(id, path)
    case Register(effect) => forall b :: BackupName(id, b) ==> KeepsPath(effect, b)
    case Change(after) => forall b :: IsBackup(r.tx.snapshots, b) ==> Lookup(after.files, b) == Lookup(r.world.files, b)
  }

  ghost predicate LegalRun(id: TxId, start: World, es: seq<Event>) {
    forall k :: 0 <= k < |es| ==> Legal(id, RunAll(id, start, es[..k]), es[k])
  }

  lemma LegalPrefix(id: TxId, start: World, es: seq<Event>, n: nat)
    requires LegalRun(id, start, es) && n <= |es|
    ensures LegalRun(id, start, es[..n])
  {
    forall k | 0 <= k < n ensures Legal(id, RunAll(id, start, es[..n][..k]), es[..n][k]) {
      assert es[..n][..k] == es[..k];
      assert Legal(id, RunAll(id, start, es[..k]), es[k]);
    }
  }

  lemma LegalPush(id: TxId, start: World, es: seq<Event>, e: Event)
    requires LegalRun(id, start, es) && Legal(id, RunAll(id, start, es), e)
    ensures LegalRun(id, start, es + [e]) && RunAll(id, start, es + [e]) == Apply(id, RunAll(id, start, es), e)
  {
    var more := es + [e];
    assert more[..|es|] == es;
    forall k | 0 <= k < |more| ensures Legal(id, RunAll(id, start, more[..k]), more[k]) {
      if k < |es| { assert more[..k] == es[..k] && Legal(id, RunAll(id, start, es[..k]), es[k]); }
    }
  }

  // --------------------------------------------- what the history alone says was saved

  /** The snapshot copies something: the path is a regular file. */
  predicate Copies(w: World, e: Event) { e.Snap? && e.path in w.files && w.files[e.path].Regular? }

  /** What the snapshots saw, in their order. */
  function Contents(id: TxId, start: World, es: seq<Event>): seq<Node> {
    if es == [] then []
    else
      var init, w := es[..|es| - 1], RunAll(id, start, es[..|es| - 1]).world;
      Contents(id, start, init) + if Copies(w, es[|es| - 1]) then [w.files[es[|es| - 1].path]] else []
  }

  /** What the newest effective snapshot of `p` saw. */
  function SavedBy(id: TxId, start: World, es: seq<Event>, p: Path): Option<Node> {
    if es == [] then None
    else
      var init, w := es[..|es| - 1], RunAll(id, start, es[..|es| - 1]).world;
      if Copies(w, es[|es| - 1]) && es[|es| - 1].path == p then Some(w.files[p]) else SavedBy(id, start, init, p)
  }

  // ------------------------------------------------------ positions in a snapshot list

  /** The newest snapshot of `p`. */
  function LastSnapshotOf(ss: seq<Snapshot>, p: Path): (r: Option<nat>)
    ensures r.Some? ==> r.value < |ss| && ss[r.value].originalPath == p
    ensures r.Some? ==> forall k :: r.value < k < |ss| ==> ss[k].originalPath != p
    ensures r.None? ==> forall k :: 0 <= k < |ss| ==> ss[k].originalPath != p
  {
    if ss == [] then None
    else if ss[|ss| - 1].originalPath == p then Some(|ss| - 1)
    else LastSnapshotOf(ss[..|ss| - 1], p)
  }

  /** The newest snapshot whose backup is `b`. */
  function NewestWith(ss: seq<Snapshot>, b: Path): (r: Option<nat>)
    ensures r.Some? ==> r.value < |ss| && ss[r.value].backupPath == b
    ensures r.Some? ==> forall k :: r.value < k < |ss| ==> ss[k].backupPath != b
    ensures r.None? ==> forall k :: 0 <= k < |ss| ==> ss[k].backupPath != b
  {
    if ss == [] then None
    else if ss[|ss| - 1].backupPath == b then Some(|ss| - 1)
    else NewestWith(ss[..|ss| - 1], b)
  }

  /** The newest snapshot of `p` that is the first to name its backup. */
  function LastFirst(ss: seq<Snapshot>, p: Path): (r: Option<nat>)
    ensures r.Some? ==> r.value < |ss| && ss[r.value].originalPath == p
    ensures r.Some? ==> NewestWith(ss[..r.value], ss[r.value].backupPath).None?
    ensures forall k :: 0 <= k < |ss| && (r.Some? ==> r.value < k) && ss[k].originalPath == p ==>
              NewestWith(ss[..k], ss[k].backupPath).Some?
  {
    if ss == [] then None
    else
      var last, init := |ss| - 1, ss[..|ss| - 1];
      assert forall k :: 0 <= k < last ==> ss[..k] == init[..k] && ss[k] == init[k];
      if ss[last].originalPath == p && NewestWith(init, ss[last].backupPath).None? then Some(last)
      else LastFirst(init, p)
  }

  /** The snapshot whose content a rollback gives `p`: the newest one that wrote the backup
      which the newest first-named snapshot of `p` restores. */
  function RestoredFrom(ss: seq<Snapshot>, p: Path): (r: Option<nat>)
    ensures r.Some? ==> r.value < |ss|
  {
    match LastFirst(ss, p)
    case None => None
    case Some(k) => NewestWith(ss, ss[k].backupPath)
  }

  /** The names let `p` come back: it gets what its own newest snapshot saw. */
  predicate ComesBack(ss: seq<Snapshot>, p: Path) { RestoredFrom(ss, p) == LastSnapshotOf(ss, p) }

  // ------------------------------------------------------------------ the snapshot table

  ghost predicate WellNamed(id: TxId, ss: seq<Snapshot>) {
    forall i :: 0 <= i < |ss| ==> BackupName(id, ss[i].backupPath) && !BackupName(id, ss[i].originalPath)
  }

  lemma {:induction false} SnapshotsWellNamed(id: TxId, start: World, es: seq<Event>)
    requires LegalRun(id, start, es)
    ensures WellNamed(id, RunAll(id, start, es).tx.snapshots)
  {
    if es != [] {
      var n := |es| - 1;
      LegalPrefix(id, start, es, n);
      SnapshotsWellNamed(id, start, es[..n]);
      assert Legal(id, RunAll(id, start, es[..n]), es[n]);
    }
  }

  /** The table and the contents it was filled with. */
  ghost predicate Holds(r: Run, seen: seq<Node>, b: Path) {
    && |seen| == |r.tx.snapshots|
    && (NewestWith(r.tx.snapshots, b).Some? ==>
          Lookup(r.world.files, b) == Some(seen[NewestWith(r.tx.snapshots, b).value]))
  }

  lemma HoldsStep(id: TxId, r: Run, e: Event, seen: seq<Node>, b: Path)
    requires Holds(r, seen, b) && WellNamed(id, r.tx.snapshots) && Legal(id, r, e)
    ensures Holds(Apply(id, r, e), seen + if Copies(r.world, e) then [r.world.files[e.path]] else [], b)
  {
    var next := Apply(id, r, e);
    if Copies(r.world, e) {
      assert next.tx.snapshots[..|r.tx.snapshots|] == r.tx.snapshots;
    } else {
      assert next.tx.snapshots == r.tx.snapshots && seen + [] == seen;
    }
  }

  /** Along every run each backup holds what the newest snapshot naming it saw. */
  lemma {:induction false} SnapshotTable(id: TxId, start: World, es: seq<Event>, b: Path)
    requires LegalRun(id, start, es)
    ensures Holds(RunAll(id, start, es), Contents(id, start, es), b)
  {
    if es != [] {
      var n := |es| - 1;
      LegalPrefix(id, start, es, n);
      SnapshotTable(id, start, es[..n], b);
      SnapshotsWellNamed(id, start, es[..n]);
      assert Legal(id, RunAll(id, start, es[..n]), es[n]);
      HoldsStep(id, RunAll(id, start, es[..n]), es[n], Contents(id, start, es[..n]), b);
    }
  }

  lemma {:induction false} ContentsLength(id: TxId, start: World, es: seq<Event>)
    ensures |Contents(id, start, es)| == |RunAll(id, start, es).tx.snapshots|
  {
    if es != [] { ContentsLength(id, start, es[..|es| - 1]); }
  }

  lemma LastSnapshotPush(ss: seq<Snapshot>, s: Snapshot, p: Path)
    ensures LastSnapshotOf(ss + [s], p) == if s.originalPath == p then Some(|ss|) else LastSnapshotOf(ss, p)
  {
    assert (ss + [s])[..|ss|] == ss;
  }

  /** The table's newest entry for a path is the history's newest effective snapshot. */
  lemma {:induction false} SavedIsNewest(id: TxId, start: World, es: seq<Event>, p: Path)
    ensures |Contents(id, start, es)| == |RunAll(id, start, es).tx.snapshots|
    ensures SavedBy(id, start, es, p)
            == match LastSnapshotOf(RunAll(id, start, es).tx.snapshots, p)
               case None => None
               case Some(m) => Some(Contents(id, start, es)[m])
  {
    ContentsLength(id, start, es);
    if es != [] {
      var init, e := es[..|es| - 1], es[|es| - 1];
      var r := RunAll(id, start, init);
      ContentsLength(id, start, init);
      SavedIsNewest(id, start, init, p);
      if Copies(r.world, e) {
        LastSnapshotPush(r.tx.snapshots, Snapshot(e.path, BackupPath(id, Basename(e.path), e.stamp)), p);
      } else {
        assert RunAll(id, start, es).tx.snapshots == r.tx.snapshots;
      }
    }
  }

  lemma {:induction false} AllPresent(w: World, ss: seq<Snapshot>, p: Path)
    requires forall i :: 0 <= i < |ss| ==> ss[i].backupPath in w.files
    ensures LastRestored(w, ss, NO_FAULTS.onRestore, p) == LastFirst(ss, p)
  {
    if ss != [] {
      var init, b := ss[..|ss| - 1], ss[|ss| - 1].backupPath;
      AllPresent(w, init, p);
      if NewestWith(init, b).Some? {
        var j := NewestWith(init, b).value;
        assert init[j].backupPath == b && NO_FAULTS.onRestore(j).NoFault?;
      }
    }
  }

  /** No registered action touches any backup file of the transaction. */
  lemma {:induction false} ActionsLegal(id: TxId, start: World, es: seq<Event>, k: nat)
    requires LegalRun(id, start, es) && k < |RunAll(id, start, es).tx.actions|
    ensures ActionLegal(id, RunAll(id, start, es).tx.actions[k])
  {
    var n := |es| - 1;
    LegalPrefix(id, start, es, n);
    if k < |RunAll(id, start, es[..n]).tx.actions| {
      ActionsLegal(id, start, es[..n], k);
    }
    assert Legal(id, RunAll(id, start, es[..n]), es[n]);
  }

  ghost predicate ActionLegal(id: TxId, u: Undo) {
    match u
    case RemoveIfPresent(p) => !BackupName(id, p)
    case Custom(effect) => forall b :: BackupName(id, b) ==> KeepsPath(effect, b)
  }

  // -------------------------------------------------------------- main results

  /** After any run, a rollback without I/O failure gives each path the content of the
      snapshot the names assign to it, and leaves every other path as the undo actions
      leave it. */
  lemma RollbackAfterRun(id: TxId, start: World, es: seq<Event>, p: Path)
    requires LegalRun(id, start, es) && !BackupName(id, p)
    ensures var r := RunAll(id, start, es);
            |Contents(id, start, es)| == |r.tx.snapshots|
            && Lookup(RollBack(r.world, r.tx, NO_FAULTS).world.files, p)
               == match RestoredFrom(r.tx.snapshots, p)
                  case None => Lookup(RunUndos(r.world, r.tx.actions, NO_FAULTS.onUndo).world.files, p)
                  case Some(j) => Some(Contents(id, start, es)[j])
  {
    var r := RunAll(id, start, es);
    SnapshotsWellNamed(id, start, es);
    SavedIsNewest(id, start, es, p);
    forall k | 0 <= k < |r.tx.actions| ensures ActionLegal(id, r.tx.actions[k]) { ActionsLegal(id, start, es, k); }
    assert !IsBackup(r.tx.snapshots, p) && KeepsBackups(r.tx.actions, r.tx.snapshots);
    forall i | 0 <= i < |r.tx.snapshots| ensures r.tx.snapshots[i].backupPath in r.world.files {
      SnapshotTable(id, start, es, r.tx.snapshots[i].backupPath);
    }
    AllPresent(r.world, r.tx.snapshots, p);
    RollBackExact(r.world, r.tx, NO_FAULTS, p);
    var k := LastFirst(r.tx.snapshots, p);
    if k.Some? { SnapshotTable(id, start, es, r.tx.snapshots[k.value].backupPath); }
  }

  /** So where the names let a path come back, it has the content of its newest snapshot. */
  lemma NewestComesBack(id: TxId, start: World, es: seq<Event>, p: Path)
    requires LegalRun(id, start, es) && !BackupName(id, p) && ComesBack(RunAll(id, start, es).tx.snapshots, p)
    ensures var r := RunAll(id, start, es);
            Lookup(RollBack(r.world, r.tx, NO_FAULTS).world.files, p)
            == if SavedBy(id, start, es, p).Some? then SavedBy(id, start, es, p)
               else Lookup(RunUndos(r.world, r.tx.actions, NO_FAULTS.onUndo).world.files, p)
  {
    RollbackAfterRun(id, start, es, p);
    SavedIsNewest(id, start, es, p);
  }

  // ------------------------------------------------ paths that were missing, or snapped once

  /** Every snapshot of `p` saw it missing, and there is one. */
  ghost predicate SnappedMissing(id: TxId, start: World, es: seq<Event>, p: Path) {
    && (exists k :: 0 <= k < |es| && es[k].Snap? && es[k].path == p)
    && MissingAtSnaps(id, start, es, p)
  }

  ghost predicate MissingAtSnaps(id: TxId, start: World, es: seq<Event>, p: Path) {
    forall k :: 0 <= k < |es| && es[k].Snap? && es[k].path == p ==> p !in RunAll(id, start, es[..k]).world.files
  }

  /** Registered actions mind their own paths. */
  ghost predicate ActionsKeepPath(es: seq<Event>, p: Path) {
    forall j :: 0 <= j < |es| && es[j].Register? ==> KeepsPath(es[j].effect, p)
  }

  lemma MissingPrefix(id: TxId, start: World, es: seq<Event>, p: Path, n: nat)
    requires MissingAtSnaps(id, start, es, p) && n <= |es|
    ensures MissingAtSnaps(id, start, es[..n], p)
  {
    forall k | 0 <= k < n && es[..n][k].Snap? && es[..n][k].path == p
      ensures p !in RunAll(id, start, es[..n][..k]).world.files
    {
      assert es[..n][k] == es[k] && es[..n][..k] == es[..k];
    }
  }

  lemma {:induction false} NothingSaved(id: TxId, start: World, es: seq<Event>, p: Path)
    requires MissingAtSnaps(id, start, es, p)
    ensures LastSnapshotOf(RunAll(id, start, es).tx.snapshots, p).None?
  {
    if es != [] {
      var n := |es| - 1;
      MissingPrefix(id, start, es, p, n);
      NothingSaved(id, start, es[..n], p);
      var ss, next := RunAll(id, start, es[..n]).tx.snapshots, RunAll(id, start, es).tx.snapshots;
      if next != ss { assert next[..|ss|] == ss; }
    }
  }

  /** Where the removal of a path that was missing at a snapshot is registered. */
  lemma {:induction false} RemovalRegistered(id: TxId, start: World, es: seq<Event>, p: Path, k: nat)
    requires k < |es| && es[k].Snap? && es[k].path == p && p !in RunAll(id, start, es[..k]).world.files
    ensures RemoveIfPresent(p) in RunAll(id, start, es).tx.actions
  {
    var n := |es| - 1;
    if k < n {
      assert es[..n][..k] == es[..k];
      RemovalRegistered(id, start, es[..n], p, k);
    }
  }

  ghost predicate UndoKeepsPath(u: Undo, p: Path) {
    match u
    case RemoveIfPresent(_) => true
    case Custom(effect) => KeepsPath(effect, p)
  }

  lemma {:induction false} CustomActionsKeep(id: TxId, start: World, es: seq<Event>, p: Path, k: nat)
    requires ActionsKeepPath(es, p) && k < |RunAll(id, start, es).tx.actions|
    ensures UndoKeepsPath(RunAll(id, start, es).tx.actions[k], p)
  {
    var n := |es| - 1;
    if k < |RunAll(id, start, es[..n]).tx.actions| {
      CustomActionsKeep(id, start, es[..n], p, k);
    }
  }

  /** Undo actions can only remove `p`, and one of them does. */
  lemma {:induction false} UndosRemove(w: World, us: seq<Undo>, fails: nat -> bool, p: Path)
    requires forall k :: 0 <= k < |us| ==> UndoKeepsPath(us[k], p) && !fails(k)
    requires RemoveIfPresent(p) in us || p !in w.files
    ensures p !in RunUndos(w, us, fails).world.files
    decreases |us|
  {
    if us != [] {
      var last := |us| - 1;
      var o := RunUndo(w, us[last], fails(last));
      assert UndoKeepsPath(us[last], p) && !fails(last);
      assert Lookup(o.world.files, p) == Lookup(w.files, p) || p !in o.world.files;
      if RemoveIfPresent(p) !in us[..last] {
        assert us == us[..last] + [us[last]];
        assert p !in o.world.files;
      }
      UndosRemove(o.world, us[..last], fails, p);
    }
  }

  /** A path snapshotted, any number of times, only while it was missing is absent after
      the rollback, whatever the run did to it. */
  lemma MissingStaysAbsent(id: TxId, start: World, es: seq<Event>, p: Path)
    requires LegalRun(id, start, es) && SnappedMissing(id, start, es, p) && ActionsKeepPath(es, p)
    ensures var r := RunAll(id, start, es); p !in RollBack(r.world, r.tx, NO_FAULTS).world.files
  {
    var r := RunAll(id, start, es);
    var k :| 0 <= k < |es| && es[k].Snap? && es[k].path == p;
    LegalPrefix(id, start, es, k);
    assert Legal(id, RunAll(id, start, es[..k]), es[k]);
    RollbackAfterRun(id, start, es, p);
    NothingSaved(id, start, es, p);
    RemovalRegistered(id, start, es, p, k);
    forall j | 0 <= j < |r.tx.actions| ensures UndoKeepsPath(r.tx.actions[j], p) && !NO_FAULTS.onUndo(j) {
      CustomActionsKeep(id, start, es, p, j);
    }
    UndosRemove(r.world, r.tx.actions, NO_FAULTS.onUndo, p);
  }

  /** `p` is snapshotted at event `k` and at no other. */
  ghost predicate SnappedOnceAt(es: seq<Event>, p: Path, k: nat) {
    && k < |es| && es[k].Snap? && es[k].path == p
    && forall j :: 0 <= j < |es| && j != k && es[j].Snap? ==> es[j].path != p
  }

  lemma {:induction false} NeverSaved(id: TxId, start: World, es: seq<Event>, p: Path)
    requires forall j :: 0 <= j < |es| && es[j].Snap? ==> es[j].path != p
    ensures SavedBy(id, start, es, p).None?
  {
    if es != [] { NeverSaved(id, start, es[..|es| - 1], p); }
  }

  lemma {:induction false} SavedOnce(id: TxId, start: World, es: seq<Event>, p: Path, k: nat)
    requires SnappedOnceAt(es, p, k)
    ensures var seen := Lookup(RunAll(id, start, es[..k]).world.files, p);
            SavedBy(id, start, es, p) == if seen.Some? && seen.value.Regular? then seen else None
  {
    var n := |es| - 1;
    if k == n {
      NeverSaved(id, start, es[..n], p);
    } else {
      assert es[..n][..k] == es[..k];
      SavedOnce(id, start, es[..n], p, k);
    }
  }

  /** A path snapshotted once comes back exactly as that snapshot saw it, whether
      the file existed or not, whatever the rest of the run did to it. */
  lemma SnapshotOnceRestores(id: TxId, start: World, es: seq<Event>, p: Path, k: nat)
    requires LegalRun(id, start, es) && ComesBack(RunAll(id, start, es).tx.snapshots, p)
    requires SnappedOnceAt(es, p, k) && ActionsKeepPath(es, p)
    requires Lookup(RunAll(id, start, es[..k]).world.files, p) != Some(Directory)
    ensures var r := RunAll(id, start, es);
            Lookup(RollBack(r.world, r.tx, NO_FAULTS).world.files, p)
            == Lookup(RunAll(id, start, es[..k]).world.files, p)
  {
    LegalPrefix(id, start, es, k);
    assert Legal(id, RunAll(id, start, es[..k]), es[k]);
    if p in RunAll(id, start, es[..k]).world.files {
      NewestComesBack(id, start, es, p);
      SavedOnce(id, start, es, p, k);
    } else {
      MissingStaysAbsent(id, start, es, p);
    }
  }

  // -------------------------------------------------- when the names let a path come back

  /** The table that snapshots of these paths at these times make, all of them copying. */
  function Table(id: TxId, snaps: seq<Event>): (ss: seq<Snapshot>)
    requires forall i :: 0 <= i < |snaps| ==> snaps[i].Snap?
    ensures |ss| == |snaps|
    ensures forall i :: 0 <= i < |ss| ==>
              ss[i] == Snapshot(snaps[i].path, BackupPath(id, Basename(snaps[i].path), snaps[i].stamp))
  {
    seq(|snaps|, (i: nat) requires i < |snaps| =>
      Snapshot(snaps[i].path, BackupPath(id, Basename(snaps[i].path), snaps[i].stamp)))
  }

  predicate AllSnaps(snaps: seq<Event>) { forall i :: 0 <= i < |snaps| ==> snaps[i].Snap? }

  /** The snapshots of a run that copied something. */
  function Effective(id: TxId, start: World, es: seq<Event>): (snaps: seq<Event>)
    ensures AllSnaps(snaps)
  {
    if es == [] then []
    else
      var init, e := es[..|es| - 1], es[|es| - 1];
      Effective(id, start, init) + if Copies(RunAll(id, start, init).world, e) then [e] else []
  }

  /** The table of any run is made by its effective snapshots. */
  lemma {:induction false} TableOfRun(id: TxId, start: World, es: seq<Event>)
    ensures RunAll(id, start, es).tx.snapshots == Table(id, Effective(id, start, es))
  {
    if es != [] { TableOfRun(id, start, es[..|es| - 1]); }
  }

  predicate SameName(e: Event, f: Event)
    requires e.Snap? && f.Snap?
  {
    Basename(e.path) == Basename(f.path) && e.stamp == f.stamp
  }

  lemma SameNameIff(id: TxId, e: Event, f: Event)
    requires e.Snap? && f.Snap?
    ensures SameName(e, f) <==> BackupPath(id, Basename(e.path), e.stamp) == BackupPath(id, Basename(f.path), f.stamp)
  {
    if BackupPath(id, Basename(e.path), e.stamp) == BackupPath(id, Basename(f.path), f.stamp) {
      BackupPathInjective(id, Basename(e.path), e.stamp, Basename(f.path), f.stamp);
    }
  }

  lemma SameBackupIff(id: TxId, snaps: seq<Event>, i: nat, j: nat)
    requires AllSnaps(snaps) && i < |snaps| && j < |snaps|
    ensures Table(id, snaps)[i].backupPath == Table(id, snaps)[j].backupPath <==> SameName(snaps[i], snaps[j])
  {
    SameNameIff(id, snaps[i], snaps[j]);
  }

  predicate ClockForward(snaps: seq<Event>)
    requires AllSnaps(snaps)
  {
    forall i, j :: 0 <= i <= j < |snaps| ==> snaps[i].stamp <= snaps[j].stamp
  }

  /** Of the snapshots with the base name and the millisecond of snapshot m, the first is
      one of `p`, and m is the last. */
  predicate Alone(snaps: seq<Event>, p: Path, m: nat)
    requires AllSnaps(snaps) && m < |snaps|
  {
    && (forall j :: m < j < |snaps| ==> !SameName(snaps[j], snaps[m]))
    && (forall j :: 0 <= j <= m && FirstOfName(snaps, j, m) ==> snaps[j].path == p)
  }

  predicate FirstOfName(snaps: seq<Event>, j: nat, m: nat)
    requires AllSnaps(snaps) && j < |snaps| && m < |snaps|
  {
    SameName(snaps[j], snaps[m]) && forall i :: 0 <= i < j ==> !SameName(snaps[i], snaps[m])
  }

  /** Snapshot j is the first to name the backup of snapshot m. */
  predicate FirstNaming(ss: seq<Snapshot>, j: nat, m: nat)
    requires j < |ss| && m < |ss|
  {
    ss[j].backupPath == ss[m].backupPath && NewestWith(ss[..j], ss[m].backupPath).None?
  }

  lemma FirstOfNameIff(id: TxId, snaps: seq<Event>, j: nat, m: nat)
    requires AllSnaps(snaps) && j < |snaps| && m < |snaps|
    ensures FirstOfName(snaps, j, m) <==> FirstNaming(Table(id, snaps), j, m)
  {
    var ss := Table(id, snaps);
    var b := ss[m].backupPath;
    forall i | 0 <= i < |ss| ensures ss[i].backupPath == b <==> SameName(snaps[i], snaps[m]) {
      SameBackupIff(id, snaps, i, m);
    }
    assert forall i :: 0 <= i < j ==> ss[..j][i].backupPath == ss[i].backupPath;
  }

  lemma {:induction false} SomeFirstNaming(ss: seq<Snapshot>, j: nat, m: nat) returns (f: nat)
    requires j < |ss| && m < |ss| && ss[j].backupPath == ss[m].backupPath
    ensures f <= j && FirstNaming(ss, f, m)
  {
    f := j;
    var before := NewestWith(ss[..j], ss[m].backupPath);
    if before.Some? { f := SomeFirstNaming(ss, before.value, m); }
  }

  lemma NotAfterFirst(ss: seq<Snapshot>, j: nat, k: nat, m: nat)
    requires j < |ss| && k < |ss| && m < |ss| && ss[j].backupPath == ss[m].backupPath && FirstNaming(ss, k, m)
    ensures k <= j
  {
    var earlier := ss[..k];
    assert forall i :: 0 <= i < k ==> earlier[i] == ss[i];
  }

  /** No snapshot of `p` between the two is the first to name its backup. */
  ghost predicate NoFirstBetween(ss: seq<Snapshot>, p: Path, f: nat, m: nat)
    requires m < |ss|
  {
    forall k :: f < k <= m && ss[k].originalPath == p ==> NewestWith(ss[..k], ss[k].backupPath).Some?
  }

  /** What coming back takes, in terms of the table. */
  lemma ComesBackInTable(ss: seq<Snapshot>, p: Path, m: nat, f: nat)
    requires LastSnapshotOf(ss, p) == Some(m) && f <= m && FirstNaming(ss, f, m)
    ensures ComesBack(ss, p)
            <==> ss[f].originalPath == p && NewestWith(ss, ss[m].backupPath) == Some(m) && NoFirstBetween(ss, p, f, m)
  {
    var k := LastFirst(ss, p);
    if ss[f].originalPath == p && NoFirstBetween(ss, p, f, m) {
      assert k.Some? && f <= k.value <= m;
      assert k.value == f;
    }
    if ComesBack(ss, p) {
      assert ss[k.value].backupPath == ss[m].backupPath;
      NotAfterFirst(ss, k.value, f, m);
      NotAfterFirst(ss, f, k.value, m);
    }
  }

  /** The same in terms of names. */
  lemma AloneInTable(id: TxId, snaps: seq<Event>, p: Path, m: nat, f: nat)
    requires AllSnaps(snaps) && f <= m < |snaps| && FirstNaming(Table(id, snaps), f, m)
    ensures Alone(snaps, p, m)
            <==> snaps[f].path == p && NewestWith(Table(id, snaps), Table(id, snaps)[m].backupPath) == Some(m)
  {
    FirstOfNameIff(id, snaps, f, m);
    NewestOfName(id, snaps, m);
    forall j | 0 <= j <= m && FirstOfName(snaps, j, m) ensures j == f {
      FirstOfNameIff(id, snaps, j, m);
      NotAfterFirst(Table(id, snaps), j, f, m);
      NotAfterFirst(Table(id, snaps), f, j, m);
    }
  }

  lemma NewestOfName(id: TxId, snaps: seq<Event>, m: nat)
    requires AllSnaps(snaps) && m < |snaps|
    ensures NewestWith(Table(id, snaps), Table(id, snaps)[m].backupPath) == Some(m)
            <==> forall j :: m < j < |snaps| ==> !SameName(snaps[j], snaps[m])
  {
    var ss := Table(id, snaps);
    forall j | 0 <= j < |snaps| ensures ss[j].backupPath == ss[m].backupPath <==> SameName(snaps[j], snaps[m]) {
      SameBackupIff(id, snaps, j, m);
    }
  }

  /** No snapshot of `p` after the first of m's name, up to m, is the first of its own name. */
  predicate Unrivalled(snaps: seq<Event>, p: Path, m: nat)
    requires AllSnaps(snaps) && m < |snaps|
  {
    forall f, k :: 0 <= f < k <= m && FirstOfName(snaps, f, m) && snaps[k].path == p ==>
      exists i :: 0 <= i < k && SameName(snaps[i], snaps[k])
  }

  lemma NamedBefore(id: TxId, snaps: seq<Event>, k: nat)
    requires AllSnaps(snaps) && k < |snaps|
    ensures NewestWith(Table(id, snaps)[..k], Table(id, snaps)[k].backupPath).Some?
            <==> exists i :: 0 <= i < k && SameName(snaps[i], snaps[k])
  {
    var ss := Table(id, snaps);
    var at := NewestWith(ss[..k], ss[k].backupPath);
    if at.Some? { SameBackupIff(id, snaps, at.value, k); }
    if i :| 0 <= i < k && SameName(snaps[i], snaps[k]) {
      SameBackupIff(id, snaps, i, k);
      assert ss[..k][i].backupPath == ss[k].backupPath;
    }
  }

  lemma UnrivalledInTable(id: TxId, snaps: seq<Event>, p: Path, m: nat, f: nat)
    requires AllSnaps(snaps) && f <= m < |snaps| && FirstNaming(Table(id, snaps), f, m)
    ensures Unrivalled(snaps, p, m) <==> NoFirstBetween(Table(id, snaps), p, f, m)
  {
    var ss := Table(id, snaps);
    FirstOfNameIff(id, snaps, f, m);
    forall k: nat | k <= m
      ensures NewestWith(ss[..k], ss[k].backupPath).Some? <==> exists i :: 0 <= i < k && SameName(snaps[i], snaps[k])
    {
      NamedBefore(id, snaps, k);
    }
    forall j: nat | j <= m && FirstOfName(snaps, j, m) ensures j == f {
      FirstOfNameIff(id, snaps, j, m);
      NotAfterFirst(ss, j, f, m);
      NotAfterFirst(ss, f, j, m);
    }
  }

  /** The exact condition for a path to come back, in terms of paths, base names and
      stamps, whichever way the clock goes. */
  lemma ComesBackIff(id: TxId, snaps: seq<Event>, p: Path, m: nat)
    requires AllSnaps(snaps) && LastSnapshotOf(Table(id, snaps), p) == Some(m)
    ensures ComesBack(Table(id, snaps), p) <==> Alone(snaps, p, m) && Unrivalled(snaps, p, m)
  {
    var f := SomeFirstNaming(Table(id, snaps), m, m);
    ComesBackInTable(Table(id, snaps), p, m, f);
    AloneInTable(id, snaps, p, m, f);
    UnrivalledInTable(id, snaps, p, m, f);
  }

  /** While the clock does not go back the second half is never at stake. */
  lemma ForwardComesBackIff(id: TxId, snaps: seq<Event>, p: Path, m: nat)
    requires AllSnaps(snaps) && ClockForward(snaps) && LastSnapshotOf(Table(id, snaps), p) == Some(m)
    ensures ComesBack(Table(id, snaps), p) <==> Alone(snaps, p, m)
  {
    ComesBackIff(id, snaps, p, m);
    if Alone(snaps, p, m) {
      forall f, k | 0 <= f < k <= m && FirstOfName(snaps, f, m) && snaps[k].path == p
        ensures exists i :: 0 <= i < k && SameName(snaps[i], snaps[k])
      {
        assert snaps[f].path == p && snaps[m].path == p;
        assert snaps[f].stamp <= snaps[k].stamp <= snaps[m].stamp;
        assert SameName(snaps[f], snaps[k]);
      }
    }
  }

  lemma DistinctComesBack(ss: seq<Snapshot>, p: Path)
    requires forall i, j :: 0 <= i < j < |ss| ==> ss[i].backupPath != ss[j].backupPath
    ensures ComesBack(ss, p)
  {
    var m := LastSnapshotOf(ss, p);
    if m.Some? {
      assert forall i :: 0 <= i < m.value ==> ss[..m.value][i] == ss[i];
      assert NewestWith(ss[..m.value], ss[m.value].backupPath).None?;
    }
  }

  /** Snapshots that pairwise differ in base name or stamp let every path come back. */
  lemma DistinctStampsSuffice(id: TxId, snaps: seq<Event>, p: Path)
    requires AllSnaps(snaps) && forall i, j :: 0 <= i < j < |snaps| ==> !SameName(snaps[i], snaps[j])
    ensures ComesBack(Table(id, snaps), p)
  {
    var ss := Table(id, snaps);
    forall i, j | 0 <= i < j < |ss| ensures ss[i].backupPath != ss[j].backupPath { SameBackupIff(id, snaps, i, j); }
    DistinctComesBack(ss, p);
  }

  // ------------------------------------------------------- where the guarantee ends

  const BLANK := World(map[], map[], map[])

  /** The run has taken these snapshots, the i-th of them with content i. */
  ghost predicate Marked(id: TxId, snaps: seq<Event>, es: seq<Event>)
    requires AllSnaps(snaps)
  {
    && LegalRun(id, BLANK, es)
    && RunAll(id, BLANK, es).tx == TxState(0, [], Table(id, snaps), false)
    && |Contents(id, BLANK, es)| == |snaps|
    && forall i :: 0 <= i < |snaps| ==> Contents(id, BLANK, es)[i] == Regular(ToDecimal(i))
  }

  function Written(w: World, p: Path, content: string): Event { Change(w.(files := w.files[p := Regular(content)])) }

  lemma WriteThenSnap(id: TxId, es: seq<Event>, e: Event, content: string)
    requires e.Snap? && !BackupName(id, e.path) && LegalRun(id, BLANK, es)
    requires forall b :: IsBackup(RunAll(id, BLANK, es).tx.snapshots, b) ==> BackupName(id, b)
    ensures var r := RunAll(id, BLANK, es);
            var more := es + [Written(r.world, e.path, content)] + [e];
            && LegalRun(id, BLANK, more)
            && RunAll(id, BLANK, more).tx
               == r.tx.(snapshots := r.tx.snapshots + [Snapshot(e.path, BackupPath(id, Basename(e.path), e.stamp))])
            && Contents(id, BLANK, more) == Contents(id, BLANK, es) + [Regular(content)]
  {
    var r := RunAll(id, BLANK, es);
    var write := Written(r.world, e.path, content);
    LegalPush(id, BLANK, es, write);
    LegalPush(id, BLANK, es + [write], e);
    assert (es + [write])[..|es|] == es && (es + [write] + [e])[..|es| + 1] == es + [write];
  }

  lemma MarkedPush(id: TxId, snaps: seq<Event>, last: Event, es: seq<Event>) returns (more: seq<Event>)
    requires AllSnaps(snaps) && Marked(id, snaps, es) && last.Snap? && !BackupName(id, last.path)
    ensures Marked(id, snaps + [last], more)
  {
    var mark := ToDecimal(|snaps|);
    TableNamed(id, snaps);
    WriteThenSnap(id, es, last, mark);
    more := es + [Written(RunAll(id, BLANK, es).world, last.path, mark)] + [last];
    assert Table(id, snaps + [last])
           == Table(id, snaps) + [Snapshot(last.path, BackupPath(id, Basename(last.path), last.stamp))];
  }

  /** Each path is written just before it is snapshotted. */
  lemma {:induction false} MarkedRun(id: TxId, snaps: seq<Event>) returns (es: seq<Event>)
    requires AllSnaps(snaps) && forall i :: 0 <= i < |snaps| ==> !BackupName(id, snaps[i].path)
    ensures Marked(id, snaps, es)
  {
    es := [];
    if snaps != [] {
      var init, last := snaps[..|snaps| - 1], snaps[|snaps| - 1];
      es := MarkedRun(id, init);
      es := MarkedPush(id, init, last, es);
      assert snaps == init + [last];
    }
  }

  lemma TableNamed(id: TxId, snaps: seq<Event>)
    requires AllSnaps(snaps)
    ensures forall b :: IsBackup(Table(id, snaps), b) ==> BackupName(id, b)
  {
    forall i | 0 <= i < |snaps| ensures BackupName(id, Table(id, snaps)[i].backupPath) {
      assert BackupPrefix(id) <= BackupPath(id, Basename(snaps[i].path), snaps[i].stamp);
    }
  }

  /** Conversely, snapshots whose names do not let a path come back are taken by some run
      in which it does not: the condition is the weakest that looks at names alone. */
  lemma NamesMatter(id: TxId, snaps: seq<Event>, p: Path) returns (es: seq<Event>)
    requires AllSnaps(snaps) && forall i :: 0 <= i < |snaps| ==> !BackupName(id, snaps[i].path)
    requires !BackupName(id, p) && !ComesBack(Table(id, snaps), p)
    ensures LegalRun(id, BLANK, es) && RunAll(id, BLANK, es).tx.snapshots == Table(id, snaps)
    ensures var r := RunAll(id, BLANK, es);
            SavedBy(id, BLANK, es, p).Some?
            && Lookup(RollBack(r.world, r.tx, NO_FAULTS).world.files, p) != SavedBy(id, BLANK, es, p)
  {
    var marked := MarkedRun(id, snaps);
    var r := RunAll(id, BLANK, marked);
    var last := Written(r.world, p, "");
    TableNamed(id, snaps);
    LegalPush(id, BLANK, marked, last);
    es := marked + [last];
    assert es[..|marked|] == marked;
    RollbackAfterRun(id, BLANK, es, p);
    SavedIsNewest(id, BLANK, es, p);
    MarksDiffer(Table(id, snaps), p);
  }

  lemma MarksDiffer(ss: seq<Snapshot>, p: Path)
    requires !ComesBack(ss, p)
    ensures LastSnapshotOf(ss, p).Some?
    ensures RestoredFrom(ss, p).Some? ==> ToDecimal(RestoredFrom(ss, p).value) != ToDecimal(LastSnapshotOf(ss, p).value)
  {
    var j, m := RestoredFrom(ss, p), LastSnapshotOf(ss, p);
    if j.Some? && m.Some? && ToDecimal(j.value) == ToDecimal(m.value) { DecimalInjective(j.value, m.value); }
  }

  /** Two files of the same base name snapshotted in the same millisecond share one
      backup: the first gets the second one's content, the second is not restored. */
  lemma CollidingBackups(id: TxId, start: World, p: Path, q: Path, stamp: nat, after: World)
    requires p != q && Basename(p) == Basename(q)
    requires !BackupName(id, p) && !BackupName(id, q)
    requires p in start.files && start.files[p].Regular? && q in start.files && start.files[q].Regular?
    requires BackupPath(id, Basename(p), stamp) in after.files
    requires after.files[BackupPath(id, Basename(p), stamp)] == start.files[q]
    ensures var tx := RunAll(id, start, [Snap(p, stamp), Snap(q, stamp)]).tx;
            var done := RollBack(after, tx, NO_FAULTS).world;
            Lookup(done.files, p) == Some(start.files[q]) && Lookup(done.files, q) == Lookup(after.files, q)
  {
    var b := BackupPath(id, Basename(p), stamp);
    assert BackupName(id, b);
    CollidingTable(id, start, p, q, stamp);
    RestoreTwo(after, Snapshot(p, b), Snapshot(q, b));
  }

  lemma CollidingTable(id: TxId, start: World, p: Path, q: Path, stamp: nat)
    requires p != q && Basename(p) == Basename(q) && !BackupName(id, q)
    requires p in start.files && start.files[p].Regular? && q in start.files && start.files[q].Regular?
    ensures var b := BackupPath(id, Basename(p), stamp);
            RunAll(id, start, [Snap(p, stamp), Snap(q, stamp)]).tx
            == TxState(0, [], [Snapshot(p, b), Snapshot(q, b)], false)
  {
    RunTwo(id, start, Snap(p, stamp), Snap(q, stamp));
    assert BackupName(id, BackupPath(id, Basename(p), stamp));
  }

  lemma RunTwo(id: TxId, start: World, e1: Event, e2: Event)
    ensures RunAll(id, start, [e1, e2]) == Apply(id, Apply(id, Run(start, TxState(0, [], [], false)), e1), e2)
  {
    assert [e1, e2][..1] == [e1];
    assert RunAll(id, start, [e1][..0]) == Run(start, TxState(0, [], [], false));
    assert RunAll(id, start, [e1]) == Apply(id, Run(start, TxState(0, [], [], false)), e1);
  }

  lemma RestoreTwo(w: World, s1: Snapshot, s2: Snapshot)
    ensures RestoreAll(w, [s1, s2], NO_FAULTS.onRestore).world
            == Restore(Restore(w, s1, NoFault).world, s2, NoFault).world
  {
    assert [s1, s2][..1] == [s1];
    assert RestoreAll(w, [s1][..0], NO_FAULTS.onRestore).world == w;
    assert RestoreAll(w, [s1], NO_FAULTS.onRestore).world == Restore(w, s1, NoFault).world;
  }
}
