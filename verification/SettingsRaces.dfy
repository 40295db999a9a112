/** One setting seen at the awaits: a query of the table and the change of the cache that
    follows it are two steps, and other calls come in between. */
module SettingsRaces {
  import opened Text
  import opened SettingsCache

  /** A call that has used the table, after `seen` steps, and will leave the cache entry as
      `entry`. */
  datatype Pending = Pending(seen: nat, entry: Option<Value>)

  /** `cachedAt` is the `seen` of the call that last changed the cache entry. */
  datatype Key = Key(row: Option<Value>, cache: Option<Value>, cachedAt: nat, pending: seq<Pending>)

  datatype Step =
    /** the query of `get`, when the entry is not cached, or of a reload */
    | Read(reload: bool)
    /** the save of `set`, or the deletion */
    | Write(value: Option<Value>)
    /** call k goes on after its query */
    | Finish(k: nat)
    /** `clearCache`, before its query */
    | Clear

  function Start(row: Option<Value>): Key { Key(row, None, 0, []) }

  /** `now` counts the steps so far, this one included; there is no call to finish beyond
      the waiting ones. */
  function Next(s: Key, step: Step, now: nat): Key {
    match step
    case Read(reload) =>
      // `get` leaves the cache alone when there is no row
      if !reload && s.row.None? then s else s.(pending := s.pending + [Pending(now, s.row)])
    case Write(v) => s.(row := v, pending := s.pending + [Pending(now, v)])
    case Finish(k) =>
      if k >= |s.pending| then s
      else
        s.(cache := s.pending[k].entry, cachedAt := s.pending[k].seen, pending := s.pending[..k] + s.pending[k + 1..])
    case Clear => s.(cache := None)
  }

  function After(row: Option<Value>, steps: seq<Step>): Key {
    if steps == [] then Start(row) else Next(After(row, steps[..|steps| - 1]), steps[|steps| - 1], |steps|)
  }

  /** The row after these steps, by its writes alone. */
  function RowAfter(row: Option<Value>, steps: seq<Step>): Option<Value> {
    if steps == [] then row
    else if steps[|steps| - 1].Write? then steps[|steps| - 1].value
    else RowAfter(row, steps[..|steps| - 1])
  }

  predicate Fresh(s: Key) { s.cache.Some? ==> s.cache == s.row }

  // -------------------------------------------------------- what the cache holds, exactly

  ghost predicate Dated(row: Option<Value>, steps: seq<Step>, seen: nat, entry: Option<Value>) {
    seen <= |steps| && entry == RowAfter(row, steps[..seen])
  }

  lemma DatedLater(row: Option<Value>, steps: seq<Step>, seen: nat, entry: Option<Value>)
    requires steps != [] && Dated(row, steps[..|steps| - 1], seen, entry)
    ensures Dated(row, steps, seen, entry)
  {
    assert steps[..|steps| - 1][..seen] == steps[..seen];
  }

  /** What the cache holds and the waiting calls will write, dated. */
  ghost predicate AllDated(row: Option<Value>, steps: seq<Step>, s: Key) {
    && (s.cache.Some? ==> Dated(row, steps, s.cachedAt, s.cache))
    && (forall k :: 0 <= k < |s.pending| ==> Dated(row, steps, s.pending[k].seen, s.pending[k].entry))
  }

  lemma AllDatedLater(row: Option<Value>, steps: seq<Step>, s: Key)
    requires steps != [] && AllDated(row, steps[..|steps| - 1], s)
    ensures AllDated(row, steps, s)
  {
    if s.cache.Some? { DatedLater(row, steps, s.cachedAt, s.cache); }
    forall k | 0 <= k < |s.pending| ensures Dated(row, steps, s.pending[k].seen, s.pending[k].entry) {
      DatedLater(row, steps, s.pending[k].seen, s.pending[k].entry);
    }
  }

  lemma StepKeepsDated(row: Option<Value>, steps: seq<Step>, s: Key, step: Step)
    requires AllDated(row, steps, s)
    requires step.Read? ==> s.row == RowAfter(row, steps)
    requires step.Write? ==> step.value == RowAfter(row, steps)
    ensures AllDated(row, steps, Next(s, step, |steps|))
  {
    assert steps[..|steps|] == steps;
  }

  /** At every moment the cache entry is the row as it was when the call that wrote the
      entry last used the table, and so is what each waiting call will write. */
  lemma {:induction false} EntriesAreOldRows(row: Option<Value>, steps: seq<Step>)
    ensures After(row, steps).row == RowAfter(row, steps)
    ensures AllDated(row, steps, After(row, steps))
  {
    if steps != [] {
      var init := steps[..|steps| - 1];
      EntriesAreOldRows(row, init);
      AllDatedLater(row, steps, After(row, init));
      StepKeepsDated(row, steps, After(row, init), steps[|steps| - 1]);
    }
  }

  /** Each write brings a value the row has not had. */
  predicate Novel(row: Option<Value>, steps: seq<Step>) {
    forall j :: 0 <= j < |steps| && steps[j].Write? ==>
      steps[j].value != row && forall i :: 0 <= i < j && steps[i].Write? ==> steps[i].value != steps[j].value
  }

  predicate WriteSince(steps: seq<Step>, at: nat) { exists j :: at <= j < |steps| && steps[j].Write? }

  lemma {:induction false} SameRow(row: Option<Value>, steps: seq<Step>, at: nat)
    requires at <= |steps| && !WriteSince(steps, at)
    ensures RowAfter(row, steps) == RowAfter(row, steps[..at])
  {
    if at < |steps| {
      var init := steps[..|steps| - 1];
      assert !steps[|steps| - 1].Write?;
      assert init[..at] == steps[..at];
      assert forall j :: at <= j < |init| ==> init[j] == steps[j];
      SameRow(row, init, at);
    } else {
      assert steps[..at] == steps;
    }
  }

  /** The row is one of those written, or the first. */
  lemma {:induction false} RowFrom(row: Option<Value>, steps: seq<Step>)
    ensures RowAfter(row, steps) == row
            || exists i :: 0 <= i < |steps| && steps[i].Write? && RowAfter(row, steps) == steps[i].value
  {
    if steps != [] && !steps[|steps| - 1].Write? {
      var init := steps[..|steps| - 1];
      RowFrom(row, init);
      if i :| 0 <= i < |init| && init[i].Write? && RowAfter(row, init) == init[i].value {
        assert steps[i].Write? && RowAfter(row, steps) == steps[i].value;
      }
    }
  }

  lemma {:induction false} NewRow(row: Option<Value>, steps: seq<Step>, at: nat)
    requires at <= |steps| && WriteSince(steps, at) && Novel(row, steps)
    ensures RowAfter(row, steps) != RowAfter(row, steps[..at])
  {
    var init := steps[..|steps| - 1];
    if steps[|steps| - 1].Write? {
      RowFrom(row, steps[..at]);
      assert forall i :: 0 <= i < at ==> steps[..at][i] == steps[i];
    } else {
      assert init[..at] == steps[..at];
      var j :| at <= j < |steps| && steps[j].Write?;
      assert init[j].Write?;
      NewRow(row, init, at);
    }
  }

  /** The exact condition: with every write bringing a new value, the cache is stale exactly
      when the table has been written since the call that filled the entry used it. */
  lemma StaleIff(row: Option<Value>, steps: seq<Step>)
    requires Novel(row, steps)
    ensures !Fresh(After(row, steps))
            <==> After(row, steps).cache.Some? && WriteSince(steps, After(row, steps).cachedAt)
  {
    EntriesAreOldRows(row, steps);
    var s := After(row, steps);
    if s.cache.Some? {
      if WriteSince(steps, s.cachedAt) {
        NewRow(row, steps, s.cachedAt);
      } else {
        SameRow(row, steps, s.cachedAt);
      }
    }
  }

  // ------------------------------------------------------------- what rules it out

  /** No write happens while another call is between its query and its cache change. */
  predicate NoOvertaking(row: Option<Value>, steps: seq<Step>) {
    steps == []
    || (NoOvertaking(row, steps[..|steps| - 1])
        && (steps[|steps| - 1].Write? ==> After(row, steps[..|steps| - 1]).pending == []))
  }

  ghost predicate UpToDate(s: Key) {
    && (forall k :: 0 <= k < |s.pending| ==> s.pending[k].entry == s.row)
    && (s.pending == [] ==> Fresh(s))
  }

  lemma {:induction false} StaysUpToDate(row: Option<Value>, steps: seq<Step>)
    requires NoOvertaking(row, steps)
    ensures UpToDate(After(row, steps))
  {
    if steps != [] {
      StaysUpToDate(row, steps[..|steps| - 1]);
    }
  }

  /** Then the cache is coherent whenever no call is under way, reads overlapping as they
      may. */
  lemma CoherentAtRest(row: Option<Value>, steps: seq<Step>)
    requires NoOvertaking(row, steps) && After(row, steps).pending == []
    ensures Fresh(After(row, steps))
  {
    StaysUpToDate(row, steps);
  }

  lemma RunsOn(row: Option<Value>, steps: seq<Step>, step: Step)
    ensures After(row, steps + [step]) == Next(After(row, steps), step, |steps| + 1)
  {
    assert (steps + [step])[..|steps|] == steps;
  }

  /** A new process has an empty cache; then the cache entry changes only when a call ends, to what
      that call had seen or written, and when the cache is cleared. */
  lemma CacheChanges(row: Option<Value>, steps: seq<Step>, step: Step)
    ensures After(row, []).cache.None? && After(row, []).pending == []
    ensures var s, n := After(row, steps), After(row, steps + [step]);
            && (step == Clear ==> n.cache.None? && n.row == s.row && n.pending == s.pending)
            && (step.Finish? && step.k < |s.pending| ==>
                  n.cache == s.pending[step.k].entry && |n.pending| == |s.pending| - 1 && n.row == s.row)
            && (step.Read? || step.Write? ==> n.cache == s.cache)
  {
    RunsOn(row, steps, step);
  }

  /** And one write that overtakes is enough: a `get` queries the row, a `set` or `delete`
      runs in between, and the old value stays in the cache with nothing left to remove it. */
  lemma OvertakenReadIsStale(v: Value, w: Option<Value>) returns (steps: seq<Step>)
    requires w != Some(v)
    ensures steps == [Read(false), Write(w), Finish(1), Finish(0)]
    ensures After(Some(v), steps).row == w && After(Some(v), steps).cache == Some(v)
    ensures After(Some(v), steps).pending == []
  {
    RunsOn(Some(v), [], Read(false));
    RunsOn(Some(v), [] + [Read(false)], Write(w));
    RunsOn(Some(v), [] + [Read(false)] + [Write(w)], Finish(1));
    steps := [] + [Read(false)] + [Write(w)] + [Finish(1)] + [Finish(0)];
    RunsOn(Some(v), [] + [Read(false)] + [Write(w)] + [Finish(1)], Finish(0));
  }
}
