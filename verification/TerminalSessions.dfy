/** Terminal sessions: creation, destruction, PTY exit, idle cleanup and shutdown,
    interleaved at every await. A removal is two steps: the entity is ended when it
    starts, the id leaves the session map when its database save has come back. */
module TerminalSessions {
  import opened Text
  import opened NumberTexts

  type Id = string

  datatype Status = Active | Ended | Error

  datatype Entity = Entity(status: Status, lastActivityAt: nat, endedAt: Option<nat>, endReason: string)

  datatype Manager = Manager(
    clock: nat,
    /** every entity ever created */
    entities: map<Id, Entity>,
    /** creations whose first save is in flight */
    creating: set<Id>,
    /** the keys of the session map */
    sessions: set<Id>,
    /** removals whose save is in flight; one id may have several */
    removing: multiset<Id>,
    /** creations whose first save threw */
    refused: set<Id>)

  const IDLE_REASON := "Idle timeout"
  const SHUTDOWN_REASON := "Server shutdown"

  datatype Action =
    | Create(id: Id)
    | Created(id: Id, saved: bool, spawned: bool)
    /** `destroySession` or `handlePtyExit`, up to the await */
    | Remove(id: Id, reason: string)
    /** the same, after the await */
    | Removed(id: Id)
    | Touch(id: Id)
    /** a cleanup run that began at `started` reaches the entry */
    | Visit(id: Id, started: nat)
    | Shutdown

  datatype Step = Step(now: nat, action: Action)

  /** New ids are fresh (128 random bits), continuations run once, time does not go back. */
  predicate Enabled(m: Manager, s: Step) {
    && m.clock <= s.now
    && match s.action
       case Create(id) => id !in m.entities
       case Created(id, _, _) => id in m.creating
       case Removed(id) => id in m.removing
       case Visit(_, started) => started <= s.now
       case _ => true
  }

  function End(e: Entity, now: nat, reason: string): Entity {
    e.(status := Ended, endedAt := Some(now), endReason := reason)
  }

  function Put(m: Manager, id: Id, e: Entity): Manager { m.(entities := m.entities[id := e]) }

  /** Present entries only: the map knows an entity for each of its keys. */
  predicate Known(m: Manager, id: Id) { id in m.sessions && id in m.entities }

  function BeginRemoval(m: Manager, id: Id, now: nat, reason: string): Manager {
    if Known(m, id) then
      Put(m, id, End(m.entities[id], now, reason)).(removing := m.removing + multiset{id})
    else m
  }

  predicate IsIdle(e: Entity, started: nat, timeout: nat) { started - e.lastActivityAt > timeout }

  function CreatedAt(m: Manager, id: Id, saved: bool, spawned: bool, now: nat): Manager {
    var n := m.(creating := m.creating - {id});
    if !saved then n.(refused := m.refused + {id})
    else if id !in m.entities then n
    else if spawned then n.(sessions := n.sessions + {id})
    else Put(n, id, n.entities[id].(status := Error, endedAt := Some(now), endReason := "spawn failed"))
  }

  function EndAll(m: Manager, now: nat): map<Id, Entity> {
    map id | id in m.entities ::
      if id in m.sessions then End(m.entities[id], now, SHUTDOWN_REASON) else m.entities[id]
  }

  function Act(m: Manager, a: Action, now: nat, timeout: nat): Manager {
    match a
    case Create(id) => Put(m, id, Entity(Active, now, None, "")).(creating := m.creating + {id})
    case Created(id, saved, spawned) => CreatedAt(m, id, saved, spawned, now)
    case Remove(id, reason) => BeginRemoval(m, id, now, reason)
    case Removed(id) => m.(removing := m.removing - multiset{id}, sessions := m.sessions - {id})
    case Touch(id) => if Known(m, id) then Put(m, id, m.entities[id].(lastActivityAt := now)) else m
    case Visit(id, started) =>
      if Known(m, id) && IsIdle(m.entities[id], started, timeout) then BeginRemoval(m, id, now, IDLE_REASON) else m
    case Shutdown => m.(entities := EndAll(m, now), removing := m.removing + multiset(m.sessions))
  }

  function Next(m: Manager, s: Step, timeout: nat): Manager {
    Act(m, s.action, s.now, timeout).(clock := s.now)
  }

  /** The state after a run of enabled steps; `Runs` says they were. */
  predicate Runs(m: Manager, steps: seq<Step>, timeout: nat)
    decreases |steps|
  {
    steps == [] || (Enabled(m, steps[0]) && Runs(Next(m, steps[0], timeout), steps[1..], timeout))
  }

  function After(m: Manager, steps: seq<Step>, timeout: nat): Manager
    decreases |steps|
  {
    if steps == [] then m else After(Next(m, steps[0], timeout), steps[1..], timeout)
  }

  const START := Manager(0, map[], {}, {}, multiset{}, {})

  // ---------------------------------------------------------------- invariant

  predicate IdOk(m: Manager, id: Id) {
    && (id in m.creating ==> id in m.entities && m.entities[id].status == Active && id !in m.sessions)
    && (id in m.sessions ==> id in m.entities && m.entities[id].status != Error)
    && (id in m.sessions ==> (m.entities[id].status == Ended <==> id in m.removing))
    && (id in m.removing ==> id in m.entities && m.entities[id].status == Ended)
    && (id in m.refused ==> id in m.entities && id !in m.creating && id !in m.sessions)
    && (id in m.entities ==> EntityOk(m.entities[id], m.clock))
    && (id in m.entities && m.entities[id].status == Active ==> id in m.creating || id in m.sessions || id in m.refused)
  }

  predicate EntityOk(e: Entity, clock: nat) {
    && (e.status == Active <==> e.endedAt.None?)
    && e.lastActivityAt <= clock && (e.endedAt.Some? ==> e.endedAt.value <= clock)
  }

  ghost predicate Inv(m: Manager) { forall id :: IdOk(m, id) }

  lemma StepKeepsOk(m: Manager, s: Step, timeout: nat, id: Id)
    requires Enabled(m, s) && IdOk(m, id)
    ensures IdOk(Next(m, s, timeout), id)
  {}

  lemma StepKeepsInv(m: Manager, s: Step, timeout: nat)
    requires Enabled(m, s) && Inv(m)
    ensures Inv(Next(m, s, timeout))
  {
    forall id ensures IdOk(Next(m, s, timeout), id) { StepKeepsOk(m, s, timeout, id); }
  }

  lemma {:induction false} RunKeepsInv(m: Manager, steps: seq<Step>, timeout: nat)
    requires Inv(m) && Runs(m, steps, timeout)
    ensures Inv(After(m, steps, timeout))
    decreases |steps|
  {
    if steps != [] {
      StepKeepsInv(m, steps[0], timeout);
      RunKeepsInv(Next(m, steps[0], timeout), steps[1..], timeout);
    }
  }

  // --------------------------------------------------------- safety over whole runs

  /** One step of one session's life: the id never comes back, the status only moves
      forward, `endedAt` is never unset nor moved back. */
  predicate Advances(m: Manager, n: Manager, id: Id) {
    && (id in m.entities ==> id in n.entities && Forward(m.entities[id], n.entities[id]))
    && (id in m.entities && id !in m.creating ==> id !in n.creating && (id in n.sessions ==> id in m.sessions))
    && (id in m.sessions && id !in n.sessions ==>
          id in n.entities && n.entities[id].status == Ended && n.entities[id].endedAt.Some?)
  }

  predicate Forward(e: Entity, f: Entity) {
    && (e.status == Ended ==> f.status == Ended)
    && (e.status == Error ==> f.status == Error)
    && (e.endedAt.Some? ==> f.endedAt.Some? && e.endedAt.value <= f.endedAt.value)
    && e.lastActivityAt <= f.lastActivityAt
  }

  lemma StepAdvances(m: Manager, s: Step, timeout: nat, id: Id)
    requires Enabled(m, s) && IdOk(m, id)
    ensures Advances(m, Next(m, s, timeout), id)
  {}

  /** Along every run: an id that has left the session map never returns, a session that
      has left it is ENDED with its end time set, ENDED and ERROR are final. */
  lemma {:induction false} RunAdvances(m: Manager, steps: seq<Step>, timeout: nat, id: Id)
    requires Inv(m) && Runs(m, steps, timeout)
    ensures Advances(m, After(m, steps, timeout), id)
    decreases |steps|
  {
    assert IdOk(m, id);
    if steps != [] {
      var n := Next(m, steps[0], timeout);
      StepKeepsInv(m, steps[0], timeout);
      StepAdvances(m, steps[0], timeout, id);
      RunAdvances(n, steps[1..], timeout, id);
      assert IdOk(n, id);
    }
  }

  /** A created id enters the map at most once: at whatever point of a run it has left,
      it is outside for the rest of the run. */
  lemma EntersOnce(steps: seq<Step>, later: seq<Step>, timeout: nat, id: Id)
    requires Runs(START, steps, timeout) && Runs(After(START, steps, timeout), later, timeout)
    requires id in After(START, steps, timeout).entities && id !in After(START, steps, timeout).creating
    requires id !in After(START, steps, timeout).sessions
    ensures id !in After(After(START, steps, timeout), later, timeout).sessions
  {
    RunKeepsInv(START, steps, timeout);
    RunAdvances(After(START, steps, timeout), later, timeout, id);
  }

  /** Quiescence: once no creation and no removal is in flight, the active sessions are
      exactly those of the map, and every other one is ENDED or ERROR with its end time
      set, unless its very first save threw. */
  lemma SettledSessionsAreActive(steps: seq<Step>, timeout: nat, id: Id)
    requires Runs(START, steps, timeout)
    requires After(START, steps, timeout).removing == multiset{} && After(START, steps, timeout).creating == {}
    requires id in After(START, steps, timeout).entities && id !in After(START, steps, timeout).refused
    ensures var m := After(START, steps, timeout);
            (id in m.sessions <==> m.entities[id].status == Active)
            && (id !in m.sessions <==> m.entities[id].endedAt.Some?)
  {
    RunKeepsInv(START, steps, timeout);
    assert IdOk(After(START, steps, timeout), id);
  }

  // ------------------------------------------------------------------- idleness

  predicate Alive(m: Manager, id: Id) { Known(m, id) && m.entities[id].status == Active }

  /** A step that may end the session whatever its activity. */
  predicate Asks(a: Action, id: Id) {
    a.Shutdown? || (a.Remove? && a.id == id)
  }

  lemma StepSparesBusy(m: Manager, s: Step, timeout: nat, id: Id)
    requires Enabled(m, s) && IdOk(m, id) && Alive(m, id) && !Asks(s.action, id)
    requires s.now <= m.entities[id].lastActivityAt + timeout
    ensures Alive(Next(m, s, timeout), id)
  {}

  /** A session with activity at some moment is not ended by any cleanup run, however
      its visits interleave, until more than the timeout has passed since then. */
  lemma {:induction false} ActivityProtects(m: Manager, steps: seq<Step>, timeout: nat, id: Id)
    requires Inv(m) && Runs(m, steps, timeout) && Alive(m, id)
    requires forall k :: 0 <= k < |steps| ==> !Asks(steps[k].action, id)
    requires After(m, steps, timeout).clock <= m.entities[id].lastActivityAt + timeout
    ensures Alive(After(m, steps, timeout), id)
    decreases |steps|
  {
    if steps != [] {
      var n := Next(m, steps[0], timeout);
      assert IdOk(m, id);
      ClockAdvances(n, steps[1..], timeout);
      StepKeepsInv(m, steps[0], timeout);
      StepSparesBusy(m, steps[0], timeout, id);
      StepAdvances(m, steps[0], timeout, id);
      ActivityProtects(n, steps[1..], timeout, id);
    }
  }

  lemma {:induction false} ClockAdvances(m: Manager, steps: seq<Step>, timeout: nat)
    requires Runs(m, steps, timeout)
    ensures m.clock <= After(m, steps, timeout).clock
    decreases |steps|
  {
    if steps != [] { ClockAdvances(Next(m, steps[0], timeout), steps[1..], timeout); }
  }

  /** The session's last activity, by the steps alone. */
  function LastTouched(at: nat, steps: seq<Step>, id: Id): nat {
    if steps == [] then at
    else if steps[|steps| - 1].action == Touch(id) then steps[|steps| - 1].now
    else LastTouched(at, steps[..|steps| - 1], id)
  }

  /** Step k is a visit of the session by a cleanup run that began more than the timeout
      after the session's last activity. */
  predicate IdleVisit(at: nat, steps: seq<Step>, k: nat, id: Id, timeout: nat)
    requires k < |steps|
  {
    && steps[k].action.Visit? && steps[k].action.id == id
    && steps[k].action.started - LastTouched(at, steps[..k], id) > timeout
  }

  lemma {:induction false} RunsPush(m: Manager, steps: seq<Step>, timeout: nat)
    requires Runs(m, steps, timeout) && steps != []
    ensures var init, last := steps[..|steps| - 1], steps[|steps| - 1];
            && Runs(m, init, timeout) && Enabled(After(m, init, timeout), last)
            && After(m, steps, timeout) == Next(After(m, init, timeout), last, timeout)
    decreases |steps|
  {
    if |steps| > 1 {
      RunsPush(Next(m, steps[0], timeout), steps[1..], timeout);
      assert steps[1..][..|steps| - 2] == steps[..|steps| - 1][1..];
    }
  }

  lemma StepEndsIff(m: Manager, s: Step, timeout: nat, id: Id)
    requires IdOk(m, id) && Enabled(m, s) && !Asks(s.action, id) && Alive(m, id)
    ensures !Alive(Next(m, s, timeout), id)
            <==> s.action.Visit? && s.action.id == id && s.action.started - m.entities[id].lastActivityAt > timeout
    ensures Alive(Next(m, s, timeout), id) ==>
              Next(m, s, timeout).entities[id].lastActivityAt
              == if s.action == Touch(id) then s.now else m.entities[id].lastActivityAt
  {}

  lemma EndedStays(m: Manager, s: Step, timeout: nat, id: Id)
    requires IdOk(m, id) && Enabled(m, s) && id in m.entities && m.entities[id].status == Ended
    ensures var n := Next(m, s, timeout); id in n.entities && n.entities[id].status == Ended
  {
    StepAdvances(m, s, timeout, id);
  }

  /** Over whole runs: a session nobody asks to end is ended exactly when some cleanup run,
      however its visits interleave with the rest, began more than the timeout after the
      activity before its visit. */
  lemma {:induction false} IdleEndIff(m: Manager, steps: seq<Step>, timeout: nat, id: Id)
    requires Inv(m) && Runs(m, steps, timeout) && Alive(m, id)
    requires forall k :: 0 <= k < |steps| ==> !Asks(steps[k].action, id)
    ensures var at, n := m.entities[id].lastActivityAt, After(m, steps, timeout);
            && (!Alive(n, id) <==> exists k :: 0 <= k < |steps| && IdleVisit(at, steps, k, id, timeout))
            && (Alive(n, id) ==> n.entities[id].lastActivityAt == LastTouched(at, steps, id))
            && (!Alive(n, id) ==> id in n.entities && n.entities[id].status == Ended)
  {
    if steps != [] {
      var at, init, last := m.entities[id].lastActivityAt, steps[..|steps| - 1], steps[|steps| - 1];
      var before := After(m, init, timeout);
      RunsPush(m, steps, timeout);
      IdleEndIff(m, init, timeout, id);
      RunKeepsInv(m, init, timeout);
      assert IdOk(before, id);
      if Alive(before, id) { StepEndsIff(before, last, timeout, id); } else { EndedStays(before, last, timeout, id); }
      VisitsOf(at, steps, id, timeout);
    }
  }

  lemma VisitsOf(at: nat, steps: seq<Step>, id: Id, timeout: nat)
    requires steps != []
    ensures var init := steps[..|steps| - 1];
            (exists k :: 0 <= k < |steps| && IdleVisit(at, steps, k, id, timeout))
            <==> IdleVisit(at, steps, |init|, id, timeout)
                 || exists k :: 0 <= k < |init| && IdleVisit(at, init, k, id, timeout)
  {
    var init := steps[..|steps| - 1];
    forall k | 0 <= k < |init|
      ensures IdleVisit(at, steps, k, id, timeout) <==> IdleVisit(at, init, k, id, timeout)
    {
      assert init[..k] == steps[..k] && init[k] == steps[k];
    }
  }

  // ------------------------------------------- what became of a session, by the steps alone

  predicate Happened(steps: seq<Step>, a: Action) { exists j :: 0 <= j < |steps| && steps[j].action == a }

  /** `a` happened in step j, and `b` did not since. */
  predicate StandsSince(steps: seq<Step>, j: int, a: Action, b: Action) {
    0 <= j < |steps| && steps[j].action == a && forall k :: j < k < |steps| ==> steps[k].action != b
  }

  ghost predicate Stands(steps: seq<Step>, a: Action, b: Action) { exists j :: StandsSince(steps, j, a, b) }

  lemma HappenedPush(steps: seq<Step>, a: Action)
    requires steps != []
    ensures Happened(steps, a) <==> Happened(steps[..|steps| - 1], a) || steps[|steps| - 1].action == a
  {
    var init, n := steps[..|steps| - 1], |steps| - 1;
    if j :| 0 <= j < n && init[j].action == a { assert steps[j].action == a; }
    if j :| 0 <= j < |steps| && steps[j].action == a {
      if j < n { assert init[j].action == a; }
    }
  }

  lemma StandsSincePush(steps: seq<Step>, j: nat, a: Action, b: Action)
    requires j + 1 < |steps|
    ensures StandsSince(steps, j, a, b)
            <==> StandsSince(steps[..|steps| - 1], j, a, b) && steps[|steps| - 1].action != b
  {
    var init, n := steps[..|steps| - 1], |steps| - 1;
    assert forall k :: 0 <= k < n ==> init[k] == steps[k];
    if StandsSince(steps, j, a, b) { assert steps[n].action != b; }
  }

  lemma StandsPush(steps: seq<Step>, a: Action, b: Action)
    requires steps != []
    ensures Stands(steps, a, b)
            <==> steps[|steps| - 1].action == a
                 || (Stands(steps[..|steps| - 1], a, b) && steps[|steps| - 1].action != b)
  {
    var init, n := steps[..|steps| - 1], |steps| - 1;
    if steps[n].action == a { assert StandsSince(steps, n, a, b); }
    if j :| StandsSince(init, j, a, b) {
      StandsSincePush(steps, j, a, b);
      assert steps[n].action != b ==> StandsSince(steps, j, a, b);
    }
    if j :| StandsSince(steps, j, a, b) {
      if j < n { StandsSincePush(steps, j, a, b); }
    }
  }

  predicate HasStatus(m: Manager, id: Id, status: Status) { id in m.entities && m.entities[id].status == status }

  lemma StepEnters(m: Manager, s: Step, timeout: nat, id: Id)
    requires Enabled(m, s) && IdOk(m, id)
    ensures var n := Next(m, s, timeout);
            && (id in n.sessions
                <==> s.action == Created(id, true, true) || (id in m.sessions && s.action != Removed(id)))
            && (id in n.entities <==> s.action == Create(id) || id in m.entities)
            && (HasStatus(n, id, Error) <==> s.action == Created(id, true, false) || HasStatus(m, id, Error))
            && (id in n.refused <==> id in m.refused || s.action == Created(id, false, true)
                                     || s.action == Created(id, false, false))
            && (s.action == Created(id, true, true) ==> Alive(n, id))
            && (s.action == Created(id, true, false) ==> n.entities[id].endedAt == Some(s.now))
  {}

  /** Over whole runs: an id is in the session map exactly when its creation was saved and its
      PTY started, with no removal completed since; it is known from `Create` on; it is ERROR
      exactly when it was saved and the PTY did not start, and a creation whose save threw is
      neither. */
  lemma {:induction false} EntersIff(steps: seq<Step>, timeout: nat, id: Id)
    requires Runs(START, steps, timeout)
    ensures var m := After(START, steps, timeout);
            && (id in m.sessions <==> Stands(steps, Created(id, true, true), Removed(id)))
            && (id in m.entities <==> Happened(steps, Create(id)))
            && (HasStatus(m, id, Error) <==> Happened(steps, Created(id, true, false)))
            && (id in m.refused
                <==> Happened(steps, Created(id, false, true)) || Happened(steps, Created(id, false, false)))
            && (id in m.refused ==> !HasStatus(m, id, Error) && id !in m.sessions)
  {
    if steps != [] {
      var init, last := steps[..|steps| - 1], steps[|steps| - 1];
      RunsPush(START, steps, timeout);
      EntersIff(init, timeout, id);
      RunKeepsInv(START, init, timeout);
      assert IdOk(After(START, init, timeout), id);
      StepEnters(After(START, init, timeout), last, timeout, id);
      StandsPush(steps, Created(id, true, true), Removed(id));
      HappenedPush(steps, Create(id));
      HappenedPush(steps, Created(id, true, false));
      HappenedPush(steps, Created(id, false, true));
      HappenedPush(steps, Created(id, false, false));
    }
  }

  /** The step ends the session: a removal or the shutdown, or a visit when it is idle, while it
      is in the map. */
  predicate EndsIt(m: Manager, a: Action, timeout: nat, id: Id) {
    id in m.sessions && id in m.entities
    && match a
       case Remove(other, _) => other == id
       case Shutdown => true
       case Visit(other, started) => other == id && started - m.entities[id].lastActivityAt > timeout
       case _ => false
  }

  /** When and why the last such step ended the session, and when it was last used. */
  datatype Record = Record(ended: Option<(nat, string)>, lastActivityAt: nat)

  function Why(a: Action): string {
    match a
    case Remove(_, reason) => reason
    case Shutdown => "Server shutdown"
    case Visit(_, _) => "Idle timeout"
    case Created(_, _, _) => "spawn failed"
    case _ => ""
  }

  function RecordOf(steps: seq<Step>, timeout: nat, id: Id): Record {
    if steps == [] then Record(None, 0)
    else
      var init, last := steps[..|steps| - 1], steps[|steps| - 1];
      var m, before := After(START, init, timeout), RecordOf(init, timeout, id);
      if last.action == Create(id) then Record(None, last.now)
      else if EndsIt(m, last.action, timeout, id) || last.action == Created(id, true, false) then
        before.(ended := Some((last.now, Why(last.action))))
      else if last.action == Touch(id) && id in m.sessions then before.(lastActivityAt := last.now)
      else before
  }

  predicate Records(e: Entity, r: Record) {
    && e.lastActivityAt == r.lastActivityAt
    && (e.status == Active <==> r.ended.None?)
    && e.endedAt == (if r.ended.Some? then Some(r.ended.value.0) else None)
    && e.endReason == (if r.ended.Some? then r.ended.value.1 else "")
  }

  lemma StepRecords(m: Manager, s: Step, timeout: nat, id: Id)
    requires Enabled(m, s) && IdOk(m, id) && id in Next(m, s, timeout).entities
    ensures var e := Next(m, s, timeout).entities[id];
            if s.action == Create(id) then Records(e, Record(None, s.now))
            else
              id in m.entities
              && forall r :: Records(m.entities[id], r) ==>
                Records(e, if EndsIt(m, s.action, timeout, id) || s.action == Created(id, true, false) then
                             r.(ended := Some((s.now, Why(s.action))))
                           else if s.action == Touch(id) && id in m.sessions then r.(lastActivityAt := s.now)
                           else r)
  {}

  /** And its record says when and why it ended last, and when it was last used. */
  lemma {:induction false} RecordsExact(steps: seq<Step>, timeout: nat, id: Id)
    requires Runs(START, steps, timeout) && id in After(START, steps, timeout).entities
    ensures Records(After(START, steps, timeout).entities[id], RecordOf(steps, timeout, id))
  {
    if steps != [] {
      var init, last := steps[..|steps| - 1], steps[|steps| - 1];
      RunsPush(START, steps, timeout);
      RunKeepsInv(START, init, timeout);
      assert IdOk(After(START, init, timeout), id);
      StepRecords(After(START, init, timeout), last, timeout, id);
      if last.action != Create(id) { RecordsExact(init, timeout, id); }
    }
  }

  /** What can happen when: calls and cleanup visits at any time, a creation under a new id, a
      continuation while it is waited for. */
  lemma CanHappen(m: Manager, now: nat, id: Id, reason: string, started: nat, saved: bool, spawned: bool)
    requires m.clock <= now
    ensures Enabled(m, Step(now, Remove(id, reason))) && Enabled(m, Step(now, Touch(id)))
    ensures Enabled(m, Step(now, Shutdown)) && (started <= now ==> Enabled(m, Step(now, Visit(id, started))))
    ensures Enabled(m, Step(now, Create(id))) <==> id !in m.entities
    ensures Enabled(m, Step(now, Created(id, saved, spawned))) <==> id in m.creating
    ensures Enabled(m, Step(now, Removed(id))) <==> id in m.removing
  {}

  // ------------------------------------------------------------------- shutdown

  /** Steps that can still happen once the service is torn down. */
  predicate Draining(a: Action) { !a.Create? }

  lemma StepAfterShutdown(m: Manager, s: Step, timeout: nat, id: Id)
    requires Enabled(m, s) && IdOk(m, id) && Draining(s.action)
    ensures var n := Next(m, s, timeout);
            id in n.sessions && n.entities[id].status == Active ==>
              || (id in m.sessions && m.entities[id].status == Active)
              || id in m.creating
    ensures id in Next(m, s, timeout).creating ==> id in m.creating
  {}

  /** Shutdown ends every session of the map; what is still alive after any number of
      later steps was, at the moment of the shutdown, waiting for its first save. */
  lemma {:induction false} SurvivorsWereBeingCreated(m: Manager, now: nat, steps: seq<Step>, timeout: nat, id: Id)
    requires Inv(m) && Enabled(m, Step(now, Shutdown))
    requires Runs(Next(m, Step(now, Shutdown), timeout), steps, timeout)
    requires forall k :: 0 <= k < |steps| ==> Draining(steps[k].action)
    requires Alive(After(Next(m, Step(now, Shutdown), timeout), steps, timeout), id)
    ensures id in m.creating
  {
    var n := Next(m, Step(now, Shutdown), timeout);
    StepKeepsInv(m, Step(now, Shutdown), timeout);
    assert IdOk(m, id);
    AliveComesFrom(n, steps, timeout, id);
  }

  lemma {:induction false} AliveComesFrom(m: Manager, steps: seq<Step>, timeout: nat, id: Id)
    requires Inv(m) && Runs(m, steps, timeout)
    requires forall k :: 0 <= k < |steps| ==> Draining(steps[k].action)
    requires Alive(After(m, steps, timeout), id)
    ensures Alive(m, id) || id in m.creating
    decreases |steps|
  {
    if steps != [] {
      var n := Next(m, steps[0], timeout);
      assert IdOk(m, id);
      StepKeepsInv(m, steps[0], timeout);
      AliveComesFrom(n, steps[1..], timeout, id);
      assert IdOk(n, id);
      StepAfterShutdown(m, steps[0], timeout, id);
    }
  }

  /** The shutdown leaves a session running exactly when a creation was in flight: its
      continuation puts the new session into a map nothing cleans any more. */
  lemma ShutdownLeaksIff(m: Manager, now: nat, timeout: nat, id: Id)
    requires Inv(m) && Enabled(m, Step(now, Shutdown))
    ensures id in m.creating <==> LeakedBy(m, now, timeout, id)
  {
    var n := Next(m, Step(now, Shutdown), timeout);
    if id in m.creating {
      var steps := [Step(now, Created(id, true, true))];
      assert IdOk(m, id);
      assert steps[1..] == [];
      assert Runs(n, steps, timeout);
      assert Leak(n, steps, timeout, id);
    }
    if LeakedBy(m, now, timeout, id) {
      var steps :| Leak(n, steps, timeout, id);
      SurvivorsWereBeingCreated(m, now, steps, timeout, id);
    }
  }

  ghost predicate LeakedBy(m: Manager, now: nat, timeout: nat, id: Id)
    requires Enabled(m, Step(now, Shutdown))
  {
    exists steps :: Leak(Next(m, Step(now, Shutdown), timeout), steps, timeout, id)
  }

  predicate Leak(n: Manager, steps: seq<Step>, timeout: nat, id: Id) {
    && Runs(n, steps, timeout)
    && (forall k :: 0 <= k < |steps| ==> Draining(steps[k].action))
    && Alive(After(n, steps, timeout), id)
  }

  // ------------------------------------------------- a cleanup run without interleaving

  /** The loop over the entries, each destruction awaited before the next visit. */
  function Cleaned(m: Manager, order: seq<Id>, now: nat, timeout: nat): Manager {
    if order == [] then m
    else
      var before := Cleaned(m, order[..|order| - 1], now, timeout);
      CleanedOne(before, order[|order| - 1], now, timeout)
  }

  /** An idle entry ends and leaves the map. */
  function CleanedOne(m: Manager, id: Id, now: nat, timeout: nat): Manager {
    if Known(m, id) && IsIdle(m.entities[id], now, timeout) then
      Put(m, id, End(m.entities[id], now, IDLE_REASON)).(sessions := m.sessions - {id})
    else m
  }

  /** That is a visit followed at once by its continuation. */
  lemma VisitThenRemoved(m: Manager, id: Id, now: nat, timeout: nat)
    requires Known(m, id) && IsIdle(m.entities[id], now, timeout)
    ensures Act(Act(m, Visit(id, now), now, timeout), Removed(id), now, timeout) == CleanedOne(m, id, now, timeout)
  {
    assert m.removing + multiset{id} - multiset{id} == m.removing;
  }

  /** A run over all entries removes exactly the idle ones, which end as timed out, and
      leaves the rest alone. */
  lemma {:induction false} CleanedExact(m: Manager, order: seq<Id>, now: nat, timeout: nat, id: Id)
    requires Inv(m) && m.clock <= now
    ensures var n := Cleaned(m, order, now, timeout);
            var goes := id in order && Known(m, id) && IsIdle(m.entities[id], now, timeout);
            && (id in n.sessions <==> id in m.sessions && !goes)
            && (id in n.entities <==> id in m.entities)
            && (id in m.entities ==>
                  n.entities[id] == if goes then End(m.entities[id], now, IDLE_REASON) else m.entities[id])
            && n.removing == m.removing && n.creating == m.creating && n.refused == m.refused
  {
    if order != [] {
      var init, last := order[..|order| - 1], order[|order| - 1];
      CleanedExact(m, init, now, timeout, id);
      CleanedExact(m, init, now, timeout, last);
      assert order == init + [last];
      CleanedOneExact(Cleaned(m, init, now, timeout), last, now, timeout, id);
    }
  }

  lemma CleanedOneExact(m: Manager, last: Id, now: nat, timeout: nat, id: Id)
    ensures var n := CleanedOne(m, last, now, timeout);
            var goes := id == last && Known(m, id) && IsIdle(m.entities[id], now, timeout);
            && (id in n.sessions <==> id in m.sessions && !goes)
            && (id in n.entities <==> id in m.entities)
            && (id in m.entities ==>
                  n.entities[id] == if goes then End(m.entities[id], now, IDLE_REASON) else m.entities[id])
            && n.removing == m.removing && n.creating == m.creating && n.refused == m.refused
  {}

  // --------------------------------------------------- the shutdown loop, entry by entry

  function EndEach(m: Manager, order: seq<Id>, now: nat): Manager {
    if order == [] then m
    else BeginRemoval(EndEach(m, order[..|order| - 1], now), order[|order| - 1], now, SHUTDOWN_REASON)
  }

  predicate Distinct(order: seq<Id>) { forall i, j :: 0 <= i < j < |order| ==> order[i] != order[j] }

  lemma {:induction false} EndEachExact(m: Manager, order: seq<Id>, now: nat, id: Id)
    requires Distinct(order) && forall i :: 0 <= i < |order| ==> Known(m, order[i])
    ensures var n := EndEach(m, order, now);
            && n.sessions == m.sessions && n.creating == m.creating && n.clock == m.clock && n.refused == m.refused
            && (id in n.entities <==> id in m.entities)
            && (id in m.entities ==>
                  n.entities[id] == if id in order then End(m.entities[id], now, SHUTDOWN_REASON) else m.entities[id])
            && n.removing[id] == m.removing[id] + if id in order then 1 else 0
  {
    if order != [] {
      var init, last := order[..|order| - 1], order[|order| - 1];
      assert order == init + [last];
      EndEachExact(m, init, now, id);
      EndEachExact(m, init, now, last);
      assert last !in init;
    }
  }

  /** Ending the entries one after the other, none awaited, is the shutdown step. */
  lemma EndEachIsShutdown(m: Manager, order: seq<Id>, now: nat, timeout: nat)
    requires Distinct(order) && m.sessions <= m.entities.Keys
    requires forall id :: id in order <==> id in m.sessions
    ensures EndEach(m, order, now) == Act(m, Shutdown, now, timeout)
  {
    var n, r := EndEach(m, order, now), Act(m, Shutdown, now, timeout);
    assert forall i :: 0 <= i < |order| ==> order[i] in m.sessions && Known(m, order[i]);
    EndEachExact(m, order, now, "");
    forall id
      ensures id in n.entities <==> id in r.entities
      ensures id in n.entities ==> n.entities[id] == r.entities[id]
      ensures n.removing[id] == r.removing[id]
    {
      EndEachExact(m, order, now, id);
    }
    assert n.entities == r.entities;
    assert n.removing == r.removing;
  }

  // ---------------------------------------------------------------- the service

  /** Signal 0 counts as none. */
  function ExitReason(exitCode: int, signal: Option<nat>): string {
    if signal.GetOr(0) != 0 then "Process killed by signal " + ToDecimal(signal.GetOr(0))
    else "Process exited with code " + IntToString(exitCode)
  }

  /** The reason tells a signal from an exit, and which it was; signal 0 is told as an exit. */
  lemma ExitReasonIff(code1: int, signal1: Option<nat>, code2: int, signal2: Option<nat>)
    ensures ExitReason(code1, signal1) == ExitReason(code2, signal2)
            <==> signal1.GetOr(0) == signal2.GetOr(0) && (signal1.GetOr(0) == 0 ==> code1 == code2)
  {
    var killed, exited := "Process killed by signal ", "Process exited with code ";
    var r1, r2 := ExitReason(code1, signal1), ExitReason(code2, signal2);
    assert killed[8] != exited[8];
    assert r1[8] == (if signal1.GetOr(0) != 0 then killed[8] else exited[8]);
    assert r2[8] == (if signal2.GetOr(0) != 0 then killed[8] else exited[8]);
    if r1 == r2 {
      assert r1[25..] == (if signal1.GetOr(0) != 0 then ToDecimal(signal1.GetOr(0)) else IntToString(code1));
      assert r2[25..] == (if signal2.GetOr(0) != 0 then ToDecimal(signal2.GetOr(0)) else IntToString(code2));
      if signal1.GetOr(0) != 0 {
        DecimalInjective(signal1.GetOr(0), signal2.GetOr(0));
      } else {
        IntegerReads(code1);
        IntegerReads(code2);
      }
    }
  }

  lemma ExitReasons()
    ensures ExitReason(1, None) == ExitReason(1, Some(0)) == "Process exited with code 1"
    ensures ExitReason(1, Some(9)) == "Process killed by signal 9"
  {}

  class TerminalSession {
    const sessionId: Id
    var status: Status
    var lastActivityAt: nat
    var endedAt: Option<nat>
    var endReason: string

    constructor (sessionId: Id, now: nat)
      ensures this.sessionId == sessionId && View() == Entity(Active, now, None, "")
    {
      this.sessionId := sessionId;
      status, lastActivityAt, endedAt, endReason := Active, now, None, "";
    }

    ghost function View(): Entity
      reads this
    {
      Entity(status, lastActivityAt, endedAt, endReason)
    }

    method End(status: Status, reason: string, now: nat)
      modifies this
      ensures View() == old(View()).(status := status, endedAt := Some(now), endReason := reason)
    {
      this.status, endedAt, endReason := status, Some(now), reason;
    }
  }

  class SessionManagerService {
    var sessions: map<Id, TerminalSession>
    const idleTimeout: nat

    /** All entities so far, the creations and removals now waiting for the database
        (what the pending continuations hold), and the creations that failed to. */
    ghost var known: map<Id, TerminalSession>
    ghost var creating: set<Id>
    ghost var removing: multiset<Id>
    ghost var refused: set<Id>

    ghost predicate Valid()
      reads this, known.Values
    {
      && (forall id :: id in known ==> known[id].sessionId == id)
      && (forall id :: id in sessions ==> id in known && sessions[id] == known[id])
    }

    ghost function Abstract(clock: nat): Manager
      reads this, known.Values
    {
      Manager(clock, map id | id in known :: known[id].View(), creating, sessions.Keys, removing, refused)
    }

    /** `TERMINAL_IDLE_TIMEOUT` is in seconds. */
    constructor (timeoutSeconds: nat)
      ensures Valid() && Abstract(0) == START && idleTimeout == timeoutSeconds * 1000
    {
      sessions, idleTimeout := map[], timeoutSeconds * 1000;
      known, creating, removing, refused := map[], {}, multiset{}, {};
    }

    /** `createSession` up to the first save. */
    method CreateSession(id: Id, now: nat) returns (entity: TerminalSession)
      requires Valid() && id !in known
      modifies this`known, this`creating
      ensures Valid() && fresh(entity) && known == old(known)[id := entity]
      ensures Abstract(now) == Act(old(Abstract(now)), Create(id), now, idleTimeout)
    {
      entity := new TerminalSession(id, now);
      known, creating := known[id := entity], creating + {id};
    }

    method EndEntity(id: Id, entity: TerminalSession, status: Status, reason: string, now: nat)
      requires Valid() && id in known && known[id] == entity
      modifies entity
      ensures Valid()
      ensures var m := old(Abstract(now));
              Abstract(now) == Put(m, id, m.entities[id].(status := status, endedAt := Some(now), endReason := reason))
    {
      entity.End(status, reason, now);
      assert forall k :: k in known && k != id ==> known[k].sessionId != entity.sessionId;
    }

    /** The rest of `createSession`: the save threw, or the PTY starts or does not. */
    method SessionSaved(id: Id, entity: TerminalSession, saved: bool, spawned: bool, now: nat)
      requires Valid() && id in known && known[id] == entity && id in creating
      modifies this`creating, this`refused, this`sessions, entity
      ensures Valid()
      ensures Abstract(now) == Act(old(Abstract(now)), Created(id, saved, spawned), now, idleTimeout)
    {
      ghost var m := Abstract(now);
      creating := creating - {id};
      if !saved {
        refused := refused + {id};
        assert Abstract(now).entities == m.entities;
        return;
      }
      if spawned {
        sessions := sessions[id := entity];
        assert Abstract(now).entities == m.entities;
        assert sessions.Keys == m.sessions + {id};
      } else {
        EndEntity(id, entity, Error, "spawn failed", now);
      }
    }

    /** `destroySession` and `handlePtyExit` up to their save. */
    method BeginRemove(id: Id, reason: string, now: nat) returns (waits: bool)
      requires Valid()
      modifies this`removing, if id in sessions then {sessions[id]} else {}
      ensures Valid() && waits == (id in sessions)
      ensures Abstract(now) == Act(old(Abstract(now)), Remove(id, reason), now, idleTimeout)
    {
      waits := id in sessions;
      if waits {
        sessions[id].End(Ended, reason, now);
        removing := removing + multiset{id};
      }
    }

    method DestroySession(id: Id, reason: Option<string>, now: nat) returns (waits: bool)
      requires Valid()
      modifies this`removing, if id in sessions then {sessions[id]} else {}
      ensures Valid()
      ensures var why := if reason.GetOr("") == "" then "Session closed" else reason.value;
              Abstract(now) == Act(old(Abstract(now)), Remove(id, why), now, idleTimeout)
    {
      waits := BeginRemove(id, if reason.GetOr("") == "" then "Session closed" else reason.value, now);
    }

    method HandlePtyExit(id: Id, exitCode: int, signal: Option<nat>, now: nat) returns (waits: bool)
      requires Valid()
      modifies this`removing, if id in sessions then {sessions[id]} else {}
      ensures Valid()
      ensures Abstract(now) == Act(old(Abstract(now)), Remove(id, ExitReason(exitCode, signal)), now, idleTimeout)
    {
      waits := BeginRemove(id, ExitReason(exitCode, signal), now);
    }

    /** What follows the save in both, whether it worked or not. */
    method FinishRemove(id: Id, now: nat)
      requires Valid() && id in removing
      modifies this`removing, this`sessions
      ensures Valid()
      ensures Abstract(now) == Act(old(Abstract(now)), Removed(id), now, idleTimeout)
    {
      removing := removing - multiset{id};
      sessions := sessions - {id};
    }

    method UpdateActivity(id: Id, now: nat)
      requires Valid()
      modifies if id in sessions then {sessions[id]} else {}
      ensures Valid()
      ensures Abstract(now) == Act(old(Abstract(now)), Touch(id), now, idleTimeout)
    {
      if id in sessions { sessions[id].lastActivityAt := now; }
    }

    /** One round of the cleanup loop, `started` being the time the run began at. */
    method VisitSession(id: Id, started: nat, now: nat) returns (waits: bool)
      requires Valid() && id in sessions
      modifies this`removing, sessions[id]
      ensures Valid() && sessions == old(sessions) && known == old(known)
      ensures Abstract(now) == Act(old(Abstract(now)), Visit(id, started), now, idleTimeout)
      ensures waits <==> IsIdle(old(sessions[id].View()), started, idleTimeout)
      ensures waits ==> removing == old(removing) + multiset{id}
    {
      waits := started - sessions[id].lastActivityAt > idleTimeout;
      if waits { waits := BeginRemove(id, IDLE_REASON, now); }
    }

    method CleanupOne(id: Id, now: nat)
      requires Valid() && id in sessions
      modifies this`removing, this`sessions, sessions[id]
      ensures Valid() && known == old(known) && sessions.Values <= old(sessions.Values)
      ensures Abstract(now) == CleanedOne(old(Abstract(now)), id, now, idleTimeout)
    {
      ghost var m := Abstract(now);
      var waits := VisitSession(id, now, now);
      if waits {
        FinishRemove(id, now);
        VisitThenRemoved(m, id, now, idleTimeout);
      }
    }

    method CleanupIdleSessions(order: seq<Id>, now: nat)
      requires Valid()
      modifies this`removing, this`sessions, sessions.Values
      ensures Valid() && Abstract(now) == Cleaned(old(Abstract(now)), order, now, idleTimeout)
    {
      ghost var entry := Abstract(now);
      for k := 0 to |order|
        invariant Valid() && sessions.Values <= old(sessions.Values) && known == old(known)
        invariant Abstract(now) == Cleaned(entry, order[..k], now, idleTimeout)
      {
        assert order[..k + 1][..k] == order[..k];
        if order[k] in sessions { CleanupOne(order[k], now); }
      }
      assert order[..|order|] == order;
    }

    method DestroyEach(order: seq<Id>, now: nat)
      requires Valid()
      modifies this`removing, sessions.Values
      ensures Valid() && Abstract(now) == EndEach(old(Abstract(now)), order, now)
    {
      ghost var entry := Abstract(now);
      for k := 0 to |order|
        invariant Valid()
        invariant Abstract(now) == EndEach(entry, order[..k], now)
      {
        assert order[..k + 1][..k] == order[..k];
        if order[k] in sessions {
          var waits := DestroySession(order[k], Some(SHUTDOWN_REASON), now);
        }
      }
      assert order[..|order|] == order;
    }

    /** `onModuleDestroy`: every removal is started and none is awaited. */
    method OnModuleDestroy(order: seq<Id>, now: nat)
      requires Valid() && Distinct(order) && forall id :: id in order <==> id in sessions
      modifies this`removing, sessions.Values
      ensures Valid() && Abstract(now) == Act(old(Abstract(now)), Shutdown, now, idleTimeout)
    {
      EndEachIsShutdown(Abstract(now), order, now, idleTimeout);
      DestroyEach(order, now);
    }
  }
}
