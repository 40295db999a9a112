/** Backup retention: completed backups past the cutoff go, then the oldest ones beyond
    the schedule's maximum. */
module Retention {
  import opened Text

  type Id = string

  datatype Backup = Backup(schedule: string, createdAt: int, completed: bool, storagePath: Option<string>)

  type Rows = map<Id, Backup>

  predicate Counts(b: Backup, schedule: string) { b.schedule == schedule && b.completed }

  /** The rows of the first query, and of the second. */
  function Expired(rows: Rows, schedule: string, cutoff: int): set<Id> {
    set id | id in rows && Counts(rows[id], schedule) && rows[id].createdAt < cutoff
  }

  function Completed(rows: Rows, schedule: string): set<Id> {
    set id | id in rows && Counts(rows[id], schedule)
  }

  predicate Distinct(order: seq<Id>) { forall i, j :: 0 <= i < j < |order| ==> order[i] != order[j] }

  /** A query result: each row once. */
  ghost predicate Lists(order: seq<Id>, ids: set<Id>) { Distinct(order) && forall id :: id in order <==> id in ids }

  predicate NewestFirst(order: seq<Id>, rows: Rows) {
    && (forall i :: 0 <= i < |order| ==> order[i] in rows)
    && (forall i, j :: 0 <= i < j < |order| ==> rows[order[i]].createdAt >= rows[order[j]].createdAt)
  }

  predicate HasPath(b: Backup) { b.storagePath.Some? && b.storagePath.value != "" }

  /** The storage deletions tried while these backups are removed, in order. */
  function Attempts(rows: Rows, order: seq<Id>): seq<Id> {
    if order == [] then []
    else
      var last := order[|order| - 1];
      Attempts(rows, order[..|order| - 1]) + if last in rows && HasPath(rows[last]) then [last] else []
  }

  function Without(rows: Rows, order: seq<Id>): Rows { map id | id in rows && id !in order :: rows[id] }

  function Excess(order: seq<Id>, maxBackups: nat): seq<Id> {
    if |order| > maxBackups then order[maxBackups..] else []
  }

  /** What `applyRetention` leaves; `expired` and `all` are the two query results. */
  function AfterRetention(rows: Rows, maxBackups: nat, expired: seq<Id>, all: seq<Id>): Rows {
    Without(Without(rows, expired), Excess(all, maxBackups))
  }

  /** The lists are results of the two queries, the second on what the first loop left. */
  ghost predicate Queried(rows: Rows, schedule: string, cutoff: int, expired: seq<Id>, all: seq<Id>) {
    && Lists(expired, Expired(rows, schedule, cutoff))
    && Lists(all, Completed(Without(rows, expired), schedule))
    && NewestFirst(all, Without(rows, expired))
  }

  // --------------------------------------------------------------- what remains

  lemma {:induction false} ListSize(order: seq<Id>, ids: set<Id>)
    requires Lists(order, ids)
    ensures |order| == |ids|
  {
    if order == [] {
      assert ids == {};
    } else {
      var last, init := order[|order| - 1], order[..|order| - 1];
      assert order == init + [last];
      assert last !in init;
      ListSize(init, ids - {last});
    }
  }

  /** The unexpired completed backups of the schedule. */
  function Unexpired(rows: Rows, schedule: string, cutoff: int): set<Id> {
    set id | id in rows && Counts(rows[id], schedule) && rows[id].createdAt >= cutoff
  }

  lemma SecondQuery(rows: Rows, schedule: string, cutoff: int, expired: seq<Id>, all: seq<Id>)
    requires Queried(rows, schedule, cutoff, expired, all)
    ensures Completed(Without(rows, expired), schedule) == Unexpired(rows, schedule, cutoff)
  {
    assert forall id :: id in expired <==> id in Expired(rows, schedule, cutoff);
  }

  /** Which rows stay, and that they stay as they are: other schedules' and uncompleted
      backups always, expired ones never, unexpired ones if among the first of the
      second query. */
  lemma StaysIff(rows: Rows, schedule: string, cutoff: int, maxBackups: nat, expired: seq<Id>, all: seq<Id>, id: Id)
    requires Queried(rows, schedule, cutoff, expired, all) && id in rows
    ensures var left := AfterRetention(rows, maxBackups, expired, all);
            && (id in left ==> left[id] == rows[id])
            && (rows[id].schedule != schedule || !rows[id].completed ==> id in left)
            && (rows[id].schedule == schedule && rows[id].completed && rows[id].createdAt < cutoff ==> id !in left)
            && (rows[id].schedule == schedule && rows[id].completed && rows[id].createdAt >= cutoff ==>
                  (id in left <==> exists i :: 0 <= i < |all| && i < maxBackups && all[i] == id))
  {
    SecondQuery(rows, schedule, cutoff, expired, all);
    assert id in expired <==> id in Expired(rows, schedule, cutoff);
    assert id in all <==> id in Unexpired(rows, schedule, cutoff);
    InExcessIff(all, maxBackups, id);
  }

  lemma InExcessIff(order: seq<Id>, n: nat, id: Id)
    requires Distinct(order)
    ensures id in Excess(order, n) <==> exists i :: n <= i < |order| && order[i] == id
    ensures id in order ==> (id !in Excess(order, n) <==> exists i :: 0 <= i < |order| && i < n && order[i] == id)
  {
    if id in order {
      var k :| 0 <= k < |order| && order[k] == id;
      if n <= k { assert order[n..][k - n] == id; }
    }
    if id in Excess(order, n) {
      var j :| 0 <= j < |order[n..]| && order[n..][j] == id;
      assert order[n + j] == id;
    }
  }

  function Min(a: nat, b: nat): nat { if a < b then a else b }

  lemma KeptAre(rows: Rows, schedule: string, cutoff: int, maxBackups: nat, expired: seq<Id>, all: seq<Id>)
    requires Queried(rows, schedule, cutoff, expired, all)
    ensures var left := AfterRetention(rows, maxBackups, expired, all);
            && |Completed(left, schedule)| == Min(maxBackups, |Unexpired(rows, schedule, cutoff)|)
            && Completed(left, schedule) <= Unexpired(rows, schedule, cutoff)
  {
    var left := AfterRetention(rows, maxBackups, expired, all);
    SecondQuery(rows, schedule, cutoff, expired, all);
    var kept := all[..Min(maxBackups, |all|)];
    forall id ensures id in kept <==> id in Completed(left, schedule) {
      InExcessIff(all, maxBackups, id);
      if id in kept {
        var k :| 0 <= k < |kept| && kept[k] == id;
        assert all[k] == id;
        assert id in all;
      }
      if id in Completed(left, schedule) {
        assert id in Completed(Without(rows, expired), schedule);
        assert id in all;
        var i :| 0 <= i < |all| && i < maxBackups && all[i] == id;
        assert kept[i] == id;
      }
    }
    ListSize(all, Unexpired(rows, schedule, cutoff));
    ListSize(kept, Completed(left, schedule));
  }

  /** Exactly min(maxBackups, n) of the schedule's n unexpired completed backups remain,
      and no other completed backup of the schedule. */
  lemma ExactlyMaxRemain(rows: Rows, schedule: string, cutoff: int, maxBackups: nat, expired: seq<Id>, all: seq<Id>)
    requires Queried(rows, schedule, cutoff, expired, all)
    ensures var left := AfterRetention(rows, maxBackups, expired, all);
            var mine := set id | id in left && left[id].schedule == schedule && left[id].completed;
            var young := set id | id in rows && rows[id].schedule == schedule && rows[id].completed
                                  && rows[id].createdAt >= cutoff;
            && (|mine| == |young| || |mine| == maxBackups) && |mine| <= |young| && |mine| <= maxBackups
            && mine <= young
  {
    KeptAre(rows, schedule, cutoff, maxBackups, expired, all);
    SameSets(rows, AfterRetention(rows, maxBackups, expired, all), schedule, cutoff);
  }

  lemma SameSets(rows: Rows, left: Rows, schedule: string, cutoff: int)
    ensures (set id | id in left && left[id].schedule == schedule && left[id].completed) == Completed(left, schedule)
    ensures (set id | id in rows && rows[id].schedule == schedule && rows[id].completed && rows[id].createdAt >= cutoff)
            == Unexpired(rows, schedule, cutoff)
  {}

  /** No unexpired backup is removed that is strictly newer than one that is kept. */
  lemma NewestKept(rows: Rows, schedule: string, cutoff: int, maxBackups: nat, expired: seq<Id>, all: seq<Id>,
                   gone: Id, kept: Id)
    requires Queried(rows, schedule, cutoff, expired, all)
    requires gone in Unexpired(rows, schedule, cutoff) && kept in Unexpired(rows, schedule, cutoff)
    requires gone !in AfterRetention(rows, maxBackups, expired, all)
    requires kept in AfterRetention(rows, maxBackups, expired, all)
    ensures rows[gone].createdAt <= rows[kept].createdAt
    ensures rows[gone].schedule == schedule && rows[gone].completed && rows[gone].createdAt >= cutoff
  {
    StaysIff(rows, schedule, cutoff, maxBackups, expired, all, kept);
    SecondQuery(rows, schedule, cutoff, expired, all);
    InExcessIff(all, maxBackups, gone);
    assert gone in all;
    var i :| 0 <= i < |all| && i < maxBackups && all[i] == kept;
    var j :| maxBackups <= j < |all| && all[j] == gone;
  }

  /** Doing it again at the same clock removes nothing, whatever the queries' order. */
  lemma Idempotent(rows: Rows, schedule: string, cutoff: int, maxBackups: nat, expired: seq<Id>, all: seq<Id>,
                   expired2: seq<Id>, all2: seq<Id>)
    requires Queried(rows, schedule, cutoff, expired, all)
    requires Queried(AfterRetention(rows, maxBackups, expired, all), schedule, cutoff, expired2, all2)
    ensures AfterRetention(AfterRetention(rows, maxBackups, expired, all), maxBackups, expired2, all2)
            == AfterRetention(rows, maxBackups, expired, all)
    ensures Attempts(AfterRetention(rows, maxBackups, expired, all), expired2 + Excess(all2, maxBackups)) == []
  {
    var left := AfterRetention(rows, maxBackups, expired, all);
    KeptAre(rows, schedule, cutoff, maxBackups, expired, all);
    forall id ensures id !in Expired(left, schedule, cutoff) {
      if id in rows { StaysIff(rows, schedule, cutoff, maxBackups, expired, all, id); }
    }
    assert Expired(left, schedule, cutoff) == {};
    ListSize(expired2, {});
    assert Without(left, []) == left;
    ListSize(all2, Completed(left, schedule));
  }

  // ------------------------------------------------------------ storage deletions

  lemma {:induction false} AttemptsExact(rows: Rows, order: seq<Id>, id: Id)
    requires Distinct(order)
    ensures multiset(Attempts(rows, order))[id] == if id in order && id in rows && HasPath(rows[id]) then 1 else 0
  {
    if order != [] {
      var last, init := order[|order| - 1], order[..|order| - 1];
      AttemptsExact(rows, init, id);
      assert order == init + [last];
      assert last !in init;
    }
  }

  /** One storage deletion is tried for each removed backup that has a path, none for
      any other. */
  lemma OneAttemptEach(rows: Rows, schedule: string, cutoff: int, maxBackups: nat, expired: seq<Id>, all: seq<Id>,
                       id: Id)
    requires Queried(rows, schedule, cutoff, expired, all)
    ensures multiset(Attempts(rows, expired) + Attempts(Without(rows, expired), Excess(all, maxBackups)))[id]
            == if id in rows && id !in AfterRetention(rows, maxBackups, expired, all)
                  && rows[id].storagePath.GetOr("") != "" then 1 else 0
  {
    var excess := Excess(all, maxBackups);
    AttemptsExact(rows, expired, id);
    AttemptsExact(Without(rows, expired), excess, id);
    var first, second := Attempts(rows, expired), Attempts(Without(rows, expired), excess);
    assert multiset(first + second) == multiset(first) + multiset(second);
    InExcessIff(all, maxBackups, id);
    if id in excess { assert id in all; }
  }

  // ---------------------------------------------------------------- the service

  class BackupsService {
    var backupRepository: Rows
    /** Backups whose file the storage was asked to delete, in order; whether it did is
        not looked at. */
    var asked: seq<Id>

    constructor (rows: Rows)
      ensures backupRepository == rows && asked == []
    {
      backupRepository, asked := rows, [];
    }

    method RemoveAll(backups: seq<Id>)
      modifies this
      ensures backupRepository == Without(old(backupRepository), backups)
      ensures Distinct(backups) ==> asked == old(asked) + Attempts(old(backupRepository), backups)
    {
      for k := 0 to |backups|
        invariant backupRepository == Without(old(backupRepository), backups[..k])
        invariant Distinct(backups) ==> asked == old(asked) + Attempts(old(backupRepository), backups[..k])
      {
        assert backups[..k + 1] == backups[..k] + [backups[k]];
        assert backups[..k + 1][..k] == backups[..k];
        assert Distinct(backups) ==> backups[k] !in backups[..k];
        if backups[k] in backupRepository && HasPath(backupRepository[backups[k]]) {
          asked := asked + [backups[k]];
        }
        backupRepository := backupRepository - {backups[k]};
      }
      assert backups[..|backups|] == backups;
    }

    method RemoveExcess(all: seq<Id>, maxBackups: nat)
      requires Distinct(all)
      modifies this
      ensures backupRepository == Without(old(backupRepository), Excess(all, maxBackups))
      ensures asked == old(asked) + Attempts(old(backupRepository), Excess(all, maxBackups))
    {
      if |all| > maxBackups {
        var toDelete := all[maxBackups..];
        RemoveAll(toDelete);
      }
    }

    method ApplyRetention(schedule: string, cutoff: int, maxBackups: nat, expired: seq<Id>, all: seq<Id>)
      requires Queried(backupRepository, schedule, cutoff, expired, all)
      modifies this
      ensures backupRepository == AfterRetention(old(backupRepository), maxBackups, expired, all)
      ensures asked == old(asked) + Attempts(old(backupRepository), expired)
                       + Attempts(Without(old(backupRepository), expired), Excess(all, maxBackups))
    {
      RemoveAll(expired);
      RemoveExcess(all, maxBackups);
    }
  }
}
