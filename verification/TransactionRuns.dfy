/** One transaction inside a run of the manager: what all the others do is, from its side,
    change of the machine that spares its backups. So whatever is proved of a transaction's
    history holds at the end of a run with many transactions interleaved. */
module TransactionRuns {
  import opened Text
  import opened Rollback
  import opened TransactionHistory
  import opened TransactionManager

  // -------------------------------------------- other transactions are bystanders

  /** Nothing transaction `tx` has recorded names `q`. */
  ghost predicate Minds(tx: TxState, q: Path) {
    && (forall i :: 0 <= i < |tx.snapshots| ==> tx.snapshots[i].originalPath != q && tx.snapshots[i].backupPath != q)
    && (forall k :: 0 <= k < |tx.actions| ==>
          match tx.actions[k]
          case RemoveIfPresent(p) => p != q
          case Custom(effect) => KeepsPath(effect, q))
  }

  lemma {:induction false} UndosMind(w: World, us: seq<Undo>, fails: nat -> bool, q: Path)
    requires forall k :: 0 <= k < |us| ==>
               match us[k]
               case RemoveIfPresent(p) => p != q
               case Custom(effect) => KeepsPath(effect, q)
    ensures Lookup(RunUndos(w, us, fails).world.files, q) == Lookup(w.files, q)
    decreases |us|
  {
    if us != [] {
      var last := |us| - 1;
      var o := RunUndo(w, us[last], fails(last));
      UndosMind(o.world, us[..last], fails, q);
    }
  }

  lemma {:induction false} RestoresMind(w: World, ss: seq<Snapshot>, fault: nat -> RestoreFault, q: Path)
    requires forall i :: 0 <= i < |ss| ==> ss[i].originalPath != q && ss[i].backupPath != q
    ensures Lookup(RestoreAll(w, ss, fault).world.files, q) == Lookup(w.files, q)
  {
    if ss != [] {
      RestoresMind(w, ss[..|ss| - 1], fault, q);
    }
  }

  lemma {:induction false} CleanupMinds(w: World, ss: seq<Snapshot>, unlinkFails: nat -> bool, q: Path)
    requires forall i :: 0 <= i < |ss| ==> ss[i].backupPath != q
    ensures Lookup(Cleanup(w, ss, unlinkFails).files, q) == Lookup(w.files, q)
  {
    if ss != [] {
      CleanupMinds(w, ss[..|ss| - 1], unlinkFails, q);
    }
  }

  /** No other active transaction has recorded `q`. */
  ghost predicate OthersMind(m: Manager, id: TxId, q: Path) {
    forall other :: other in m.active && other != id ==> Minds(m.active[other], q)
  }

  /** The step is not about `q`, if somebody else's. */
  ghost predicate StepMinds(m: Manager, s: Step, id: TxId, q: Path) {
    match s
    case AddAction(other, effect) => other != id ==> KeepsPath(effect, q)
    case SnapshotFile(other, path, stamp, _) =>
      other != id ==> path != q && BackupPath(other, Basename(path), stamp) != q
    case Outside(after) => Lookup(after.files, q) == Lookup(m.world.files, q)
    case _ => true
  }

  /** A step the transaction itself writes files with. */
  predicate OwnSnapshot(s: Step, id: TxId) { s.SnapshotFile? && s.id == id }

  lemma CommitMinds(m: Manager, other: TxId, unlinkFails: nat -> bool, q: Path)
    requires other in m.active && Minds(m.active[other], q)
    ensures Lookup(AfterCommit(m, other, unlinkFails).world.files, q) == Lookup(m.world.files, q)
  {
    CleanupMinds(m.world, m.active[other].snapshots, unlinkFails, q);
  }

  lemma AbortMinds(m: Manager, other: TxId, faults: Faults, q: Path)
    requires other in m.active && Minds(m.active[other], q)
    ensures Lookup(AfterAbort(m, other, faults).world.files, q) == Lookup(m.world.files, q)
  {
    var tx := m.active[other];
    UndosMind(m.world, tx.actions, faults.onUndo, q);
    RestoresMind(RunUndos(m.world, tx.actions, faults.onUndo).world, tx.snapshots, faults.onRestore, q);
  }

  lemma {:induction false} CleanupShrinks(m: Manager, order: seq<TxId>, now: int, maxAge: int,
                                          faultsOf: TxId -> Faults, id: TxId)
    requires id !in m.active
    ensures id !in AfterCleanup(m, order, now, maxAge, faultsOf).0.active
    decreases |order|
  {
    if order != [] {
      if order[0] in m.active && IsStale(m.active[order[0]], now, maxAge) {
        CleanupShrinks(AfterAbort(m, order[0], faultsOf(order[0])), order[1..], now, maxAge, faultsOf, id);
      } else {
        CleanupShrinks(m, order[1..], now, maxAge, faultsOf, id);
      }
    }
  }

  /** A cleanup spares what stays active. */
  lemma {:induction false} CleanupSpares(m: Manager, order: seq<TxId>, now: int, maxAge: int,
                                         faultsOf: TxId -> Faults, id: TxId, q: Path)
    requires OthersMind(m, id, q) && id in m.active
    requires id in AfterCleanup(m, order, now, maxAge, faultsOf).0.active
    ensures var after := AfterCleanup(m, order, now, maxAge, faultsOf).0;
            after.active[id] == m.active[id] && OthersMind(after, id, q)
            && Lookup(after.world.files, q) == Lookup(m.world.files, q)
    decreases |order|
  {
    if order != [] {
      var first := order[0];
      if first in m.active && IsStale(m.active[first], now, maxAge) {
        var next := AfterAbort(m, first, faultsOf(first));
        if first == id {
          CleanupShrinks(next, order[1..], now, maxAge, faultsOf, id);
        } else {
          AbortMinds(m, first, faultsOf(first), q);
          CleanupSpares(next, order[1..], now, maxAge, faultsOf, id, q);
        }
      } else {
        CleanupSpares(m, order[1..], now, maxAge, faultsOf, id, q);
      }
    }
  }

  lemma SnapshotMinds(m: Manager, other: TxId, path: Path, stamp: nat, copy: CopyResult, id: TxId, q: Path)
    requires other in m.active && other != id && OthersMind(m, id, q)
    requires path != q && BackupPath(other, Basename(path), stamp) != q
    ensures var next := AfterSnapshot(m, other, path, stamp, copy);
            Lookup(next.world.files, q) == Lookup(m.world.files, q) && OthersMind(next, id, q)
  {
    var next := AfterSnapshot(m, other, path, stamp, copy);
    assert Minds(m.active[other], q);
    assert Minds(next.active[other], q);
  }

  lemma ActionMinds(m: Manager, other: TxId, effect: World -> Outcome, id: TxId, q: Path)
    requires other in m.active && OthersMind(m, id, q) && (other != id ==> KeepsPath(effect, q))
    ensures OthersMind(AfterAddAction(m, other, Custom(effect)), id, q)
  {
    var next := AfterAddAction(m, other, Custom(effect));
    if other != id {
      assert Minds(m.active[other], q);
      assert Minds(next.active[other], q);
    }
  }

  /** Any step of the manager but a snapshot of transaction `id`, whatever fails in it, the
      cleanup of stale transactions included: what `id` has recorded and every path the
      others do not name stay as they are. */
  lemma BystanderStep(m: Manager, s: Step, id: TxId, q: Path)
    requires id in m.active && id in Next(m, s).active && FreshIds(m, s) && !OwnSnapshot(s, id)
    requires OthersMind(m, id, q) && StepMinds(m, s, id, q)
    ensures Lookup(Next(m, s).world.files, q) == Lookup(m.world.files, q)
    ensures OthersMind(Next(m, s), id, q)
    ensures !(s.AddAction? && s.id == id) ==> Next(m, s).active[id] == m.active[id]
  {
    match s
    case CleanupStale(order, now, maxAge, faultsOf) => CleanupSpares(m, order, now, maxAge, faultsOf, id, q);
    case Commit(other, unlinkFails) => if other in m.active && other != id { CommitMinds(m, other, unlinkFails, q); }
    case Abort(other, faults) => if other in m.active && other != id { AbortMinds(m, other, faults, q); }
    case SnapshotFile(other, path, stamp, copy) =>
      if other in m.active { SnapshotMinds(m, other, path, stamp, copy, id, q); }
    case AddAction(other, effect) => if other in m.active { ActionMinds(m, other, effect, id, q); }
    case Start(_, _) =>
    case Outside(_) =>
  }

  // ------------------------------------------------------------- the run as a history

  /** What transaction `id` sees of a step. */
  function EventOf(m: Manager, s: Step, id: TxId): Event {
    if s.AddAction? && s.id == id then Register(s.effect)
    else if OwnSnapshot(s, id) && !FailedCopy(m, s) then Snap(s.path, s.stamp)
    else Change(Next(m, s).world)
  }

  predicate FailedCopy(m: Manager, s: Step)
    requires s.SnapshotFile?
  {
    s.copy.CopyThrows? && s.path in m.world.files && m.world.files[s.path].Regular?
  }

  function EventsOf(m: Manager, steps: seq<Step>, id: TxId): (es: seq<Event>)
    ensures |es| == |steps|
  {
    if steps == [] then []
    else
      var init := steps[..|steps| - 1];
      EventsOf(m, init, id) + [EventOf(Runs(m, init), steps[|steps| - 1], id)]
  }

  /** Nobody but transaction `id` touches its backups: snapshots are not taken of them (and
      ids are UUIDs, all of one length), registered actions and outside changes leave them
      alone, and a copy of its own that fails does not land on one already made. */
  ghost predicate Civil(m: Manager, s: Step, id: TxId) {
    match s
    case AddAction(_, effect) => forall b :: BackupName(id, b) ==> KeepsPath(effect, b)
    case SnapshotFile(other, path, stamp, _) =>
      |other| == |id| && !BackupName(id, path)
      && (other == id && id in m.active && FailedCopy(m, s) ==>
            !IsBackup(m.active[id].snapshots, BackupPath(id, Basename(path), stamp)))
    case Outside(after) => forall b :: BackupName(id, b) ==> Lookup(after.files, b) == Lookup(m.world.files, b)
    case _ => true
  }

  lemma CivilMinds(m: Manager, s: Step, id: TxId, b: Path)
    requires Civil(m, s, id) && BackupName(id, b)
    ensures StepMinds(m, s, id, b)
  {
    match s
    case SnapshotFile(other, path, stamp, _) =>
      var backup := BackupPath(other, Basename(path), stamp);
      assert BackupName(other, backup);
      if backup == b && other != id { BackupsOfOneTransaction(other, id, b); }
    case _ =>
  }

  /** Transaction `id` is active along the run and its backups are left alone. */
  ghost predicate Orderly(m: Manager, steps: seq<Step>, id: TxId) {
    && id in Runs(m, steps).active
    && forall k :: 0 <= k < |steps| ==>
         id in Runs(m, steps[..k]).active && FreshIds(Runs(m, steps[..k]), steps[k])
         && Civil(Runs(m, steps[..k]), steps[k], id)
  }

  /** Transaction `id` has just begun. */
  ghost predicate Begun(m: Manager, id: TxId) {
    && id in m.active && m.active[id].actions == [] && m.active[id].snapshots == [] && !m.active[id].committed
    && forall b :: BackupName(id, b) ==> OthersMind(m, id, b)
  }

  lemma {:induction false} RunsPush(m: Manager, steps: seq<Step>)
    requires steps != []
    ensures Runs(m, steps) == Next(Runs(m, steps[..|steps| - 1]), steps[|steps| - 1])
    decreases |steps|
  {
    if |steps| > 1 {
      RunsPush(Next(m, steps[0]), steps[1..]);
      assert steps[1..][..|steps| - 2] == steps[..|steps| - 1][1..];
    }
  }

  lemma OrderlyPrefix(m: Manager, steps: seq<Step>, id: TxId, n: nat)
    requires Orderly(m, steps, id) && n <= |steps|
    ensures Orderly(m, steps[..n], id)
  {
    assert steps[..|steps|] == steps;
    forall k | 0 <= k < n ensures steps[..n][..k] == steps[..k] {}
  }

  /** The manager and the history agree on the transaction. */
  ghost predicate Agree(m: Manager, id: TxId, r: TransactionHistory.Run) {
    && id in m.active && r.world == m.world && !m.active[id].committed
    && r.tx.actions == m.active[id].actions && r.tx.snapshots == m.active[id].snapshots
  }

  ghost predicate BackupsMinded(m: Manager, id: TxId) { forall b :: BackupName(id, b) ==> OthersMind(m, id, b) }

  lemma OwnSnapshotAgrees(m: Manager, s: Step, id: TxId, r: TransactionHistory.Run)
    requires Agree(m, id, r) && OwnSnapshot(s, id) && BackupsMinded(m, id) && Civil(m, s, id)
    requires WellNamed(id, r.tx.snapshots)
    ensures Legal(id, r, EventOf(m, s, id)) && Agree(Next(m, s), id, Apply(id, r, EventOf(m, s, id)))
    ensures BackupsMinded(Next(m, s), id)
  {
    forall b | BackupName(id, b) ensures OthersMind(Next(m, s), id, b) {
      assert OthersMind(m, id, b);
      assert forall other :: other in m.active && other != id ==> Next(m, s).active[other] == m.active[other];
    }
  }

  lemma OtherStepAgrees(m: Manager, s: Step, id: TxId, r: TransactionHistory.Run)
    requires Agree(m, id, r) && !OwnSnapshot(s, id) && BackupsMinded(m, id) && Civil(m, s, id)
    requires WellNamed(id, r.tx.snapshots) && id in Next(m, s).active && FreshIds(m, s)
    ensures Legal(id, r, EventOf(m, s, id)) && Agree(Next(m, s), id, Apply(id, r, EventOf(m, s, id)))
    ensures BackupsMinded(Next(m, s), id)
  {
    forall b | BackupName(id, b)
      ensures Lookup(Next(m, s).world.files, b) == Lookup(m.world.files, b) && OthersMind(Next(m, s), id, b)
      ensures !(s.AddAction? && s.id == id) ==> Next(m, s).active[id] == m.active[id]
    {
      assert OthersMind(m, id, b);
      CivilMinds(m, s, id, b);
      BystanderStep(m, s, id, b);
    }
    assert BackupName(id, BackupPrefix(id));
  }

  /** Along every orderly run the transaction's history, computed from the events it sees,
      is a legal one and agrees with the manager in world, actions and snapshots. */
  lemma {:induction false} RunIsHistory(m: Manager, steps: seq<Step>, id: TxId)
    requires Begun(m, id) && Orderly(m, steps, id)
    ensures LegalRun(id, m.world, EventsOf(m, steps, id))
    ensures Agree(Runs(m, steps), id, RunAll(id, m.world, EventsOf(m, steps, id)))
    ensures BackupsMinded(Runs(m, steps), id)
  {
    if steps != [] {
      var n := |steps| - 1;
      var init, es := steps[..n], EventsOf(m, steps[..n], id);
      OrderlyPrefix(m, steps, id, n);
      RunIsHistory(m, init, id);
      RunsPush(m, steps);
      SnapshotsWellNamed(id, m.world, es);
      var before, r := Runs(m, init), RunAll(id, m.world, es);
      if OwnSnapshot(steps[n], id) {
        OwnSnapshotAgrees(before, steps[n], id, r);
      } else {
        OtherStepAgrees(before, steps[n], id, r);
      }
      LegalPush(id, m.world, es, EventOf(before, steps[n], id));
    }
  }

  // ------------------------------------------------------------- rolling back at the end

  lemma {:induction false} EventsPrefix(m: Manager, steps: seq<Step>, id: TxId, n: nat)
    requires n <= |steps|
    ensures EventsOf(m, steps, id)[..n] == EventsOf(m, steps[..n], id)
  {
    if n == |steps| {
      assert steps[..n] == steps;
    } else {
      EventsPrefix(m, steps[..|steps| - 1], id, n);
      assert steps[..|steps| - 1][..n] == steps[..n];
    }
  }

  lemma {:induction false} EventAt(m: Manager, steps: seq<Step>, id: TxId, k: nat)
    requires k < |steps|
    ensures EventsOf(m, steps, id)[k] == EventOf(Runs(m, steps[..k]), steps[k], id)
  {
    if k < |steps| - 1 {
      EventAt(m, steps[..|steps| - 1], id, k);
      assert steps[..|steps| - 1][..k] == steps[..k];
    }
  }

  /** The world before step k, in the run and in the history. */
  lemma WorldBefore(m: Manager, steps: seq<Step>, id: TxId, k: nat)
    requires Begun(m, id) && Orderly(m, steps, id) && k <= |steps|
    ensures RunAll(id, m.world, EventsOf(m, steps, id)[..k]).world == Runs(m, steps[..k]).world
  {
    OrderlyPrefix(m, steps, id, k);
    RunIsHistory(m, steps[..k], id);
    EventsPrefix(m, steps, id, k);
  }

  /** The actions the transaction has registered mind their own paths. */
  ghost predicate OwnActionsKeep(steps: seq<Step>, id: TxId, p: Path) {
    forall j :: 0 <= j < |steps| && steps[j].AddAction? && steps[j].id == id ==> KeepsPath(steps[j].effect, p)
  }

  lemma EventsKeep(m: Manager, steps: seq<Step>, id: TxId, p: Path)
    requires OwnActionsKeep(steps, id, p)
    ensures ActionsKeepPath(EventsOf(m, steps, id), p)
  {
    var es := EventsOf(m, steps, id);
    forall j | 0 <= j < |es| && es[j].Register? ensures KeepsPath(es[j].effect, p) { EventAt(m, steps, id, j); }
  }

  /** Aborting after any run: a path whose snapshots' names let it come back has the content
      its newest snapshot saw. */
  lemma AbortRestoresNewest(m: Manager, steps: seq<Step>, id: TxId, p: Path)
    requires Begun(m, id) && Orderly(m, steps, id) && !BackupName(id, p)
    requires ComesBack(Runs(m, steps).active[id].snapshots, p)
    ensures var w, saved := Runs(m, steps).world, SavedBy(id, m.world, EventsOf(m, steps, id), p);
            Lookup(AfterAbort(Runs(m, steps), id, NO_FAULTS).world.files, p)
            == if saved.Some? then saved
               else Lookup(RunUndos(w, Runs(m, steps).active[id].actions, NO_FAULTS.onUndo).world.files, p)
  {
    RunIsHistory(m, steps, id);
    NewestComesBack(id, m.world, EventsOf(m, steps, id), p);
  }

  /** A path the transaction snapshots, any number of times, only while it is missing is
      absent after the abort, whatever all the others did in between. */
  lemma AbortLeavesAbsent(m: Manager, steps: seq<Step>, id: TxId, p: Path, k: nat)
    requires Begun(m, id) && Orderly(m, steps, id) && OwnActionsKeep(steps, id, p)
    requires k < |steps| && OwnSnapshot(steps[k], id) && steps[k].path == p
    requires forall j :: 0 <= j < |steps| && OwnSnapshot(steps[j], id) && steps[j].path == p ==>
               p !in Runs(m, steps[..j]).world.files
    ensures p !in AfterAbort(Runs(m, steps), id, NO_FAULTS).world.files
  {
    RunIsHistory(m, steps, id);
    EventsKeep(m, steps, id, p);
    EventsMissing(m, steps, id, p, k);
    MissingStaysAbsent(id, m.world, EventsOf(m, steps, id), p);
  }

  lemma EventsMissing(m: Manager, steps: seq<Step>, id: TxId, p: Path, k: nat)
    requires Begun(m, id) && Orderly(m, steps, id)
    requires k < |steps| && OwnSnapshot(steps[k], id) && steps[k].path == p
    requires forall j :: 0 <= j < |steps| && OwnSnapshot(steps[j], id) && steps[j].path == p ==>
               p !in Runs(m, steps[..j]).world.files
    ensures SnappedMissing(id, m.world, EventsOf(m, steps, id), p)
  {
    var es := EventsOf(m, steps, id);
    EventAt(m, steps, id, k);
    assert es[k].Snap? && es[k].path == p;
    forall j | 0 <= j < |es| && es[j].Snap? && es[j].path == p
      ensures p !in RunAll(id, m.world, es[..j]).world.files
    {
      EventAt(m, steps, id, j);
      WorldBefore(m, steps, id, j);
    }
  }

  /** A path the transaction snapshots once is after the abort exactly as it was before the
      snapshot: so it is as it was when the transaction began if nobody had written it yet,
      with any number of other transactions snapshotting, committing, rolling back and being
      cleaned up in between. */
  lemma AbortRestores(m: Manager, steps: seq<Step>, id: TxId, p: Path, k: nat)
    requires Begun(m, id) && Orderly(m, steps, id) && OwnActionsKeep(steps, id, p)
    requires ComesBack(Runs(m, steps).active[id].snapshots, p)
    requires k < |steps| && OwnSnapshot(steps[k], id) && steps[k].path == p
    requires !FailedCopy(Runs(m, steps[..k]), steps[k])
    requires forall j :: 0 <= j < |steps| && j != k && OwnSnapshot(steps[j], id) ==> steps[j].path != p
    requires Lookup(Runs(m, steps[..k]).world.files, p) != Some(Directory)
    ensures Lookup(AfterAbort(Runs(m, steps), id, NO_FAULTS).world.files, p)
            == Lookup(Runs(m, steps[..k]).world.files, p)
  {
    RunIsHistory(m, steps, id);
    EventsKeep(m, steps, id, p);
    EventsOnce(m, steps, id, p, k);
    WorldBefore(m, steps, id, k);
    SnapshotOnceRestores(id, m.world, EventsOf(m, steps, id), p, k);
  }

  lemma EventsOnce(m: Manager, steps: seq<Step>, id: TxId, p: Path, k: nat)
    requires k < |steps| && OwnSnapshot(steps[k], id) && steps[k].path == p
    requires !FailedCopy(Runs(m, steps[..k]), steps[k])
    requires forall j :: 0 <= j < |steps| && j != k && OwnSnapshot(steps[j], id) ==> steps[j].path != p
    ensures SnappedOnceAt(EventsOf(m, steps, id), p, k)
  {
    var es := EventsOf(m, steps, id);
    EventAt(m, steps, id, k);
    forall j | 0 <= j < |es| && j != k && es[j].Snap? ensures es[j].path != p { EventAt(m, steps, id, j); }
  }

  // ------------------------------------------------------- paths of one transaction only

  /** No step before n is about `p`: others mind it and the transaction snapshots others. */
  ghost predicate NotYetWritten(m: Manager, steps: seq<Step>, id: TxId, p: Path, n: nat)
    requires n <= |steps|
  {
    OthersMind(m, id, p) && !BackupName(id, p)
    && forall j :: 0 <= j < n ==> StepMinds(Runs(m, steps[..j]), steps[j], id, p)
  }

  lemma OwnSnapshotSpares(m: Manager, s: Step, id: TxId, p: Path)
    requires id in m.active && OwnSnapshot(s, id) && !BackupName(id, p) && OthersMind(m, id, p)
    ensures Lookup(Next(m, s).world.files, p) == Lookup(m.world.files, p) && OthersMind(Next(m, s), id, p)
  {
    assert BackupName(id, BackupPath(id, Basename(s.path), s.stamp));
    assert forall other :: other in m.active && other != id ==> Next(m, s).active[other] == m.active[other];
  }

  /** Other transactions on disjoint paths do not change it. */
  lemma {:induction false} DisjointSpares(m: Manager, steps: seq<Step>, id: TxId, p: Path, n: nat)
    requires Begun(m, id) && Orderly(m, steps, id) && n <= |steps| && NotYetWritten(m, steps, id, p, n)
    ensures Lookup(Runs(m, steps[..n]).world.files, p) == Lookup(m.world.files, p)
    ensures OthersMind(Runs(m, steps[..n]), id, p)
  {
    if n > 0 {
      DisjointSpares(m, steps, id, p, n - 1);
      RunsPush(m, steps[..n]);
      assert steps[..n][..n - 1] == steps[..n - 1];
      OrderlyPrefix(m, steps, id, n);
      if OwnSnapshot(steps[n - 1], id) {
        OwnSnapshotSpares(Runs(m, steps[..n - 1]), steps[n - 1], id, p);
      } else {
        BystanderStep(Runs(m, steps[..n - 1]), steps[n - 1], id, p);
      }
    }
  }

  /** So if the path is snapshotted once, before its first write, and the others work on
      other paths until then, it is after the abort as it was when the transaction began. */
  lemma AbortRestoresStart(m: Manager, steps: seq<Step>, id: TxId, p: Path, k: nat)
    requires Begun(m, id) && Orderly(m, steps, id) && OwnActionsKeep(steps, id, p)
    requires ComesBack(Runs(m, steps).active[id].snapshots, p)
    requires k < |steps| && OwnSnapshot(steps[k], id) && steps[k].path == p
    requires !FailedCopy(Runs(m, steps[..k]), steps[k])
    requires forall j :: 0 <= j < |steps| && j != k && OwnSnapshot(steps[j], id) ==> steps[j].path != p
    requires Lookup(m.world.files, p) != Some(Directory) && NotYetWritten(m, steps, id, p, k)
    ensures Lookup(AfterAbort(Runs(m, steps), id, NO_FAULTS).world.files, p) == Lookup(m.world.files, p)
  {
    DisjointSpares(m, steps, id, p, k);
    AbortRestores(m, steps, id, p, k);
  }
}
