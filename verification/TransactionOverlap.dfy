/** One transaction seen at the awaits: a rollback copies the list of actions when it
    starts, awaits them one by one, and forgets the transaction only at its end. Until
    then further actions can be registered, and further rollbacks and commits started. */
module TransactionOverlap {

  /** `registered` counts the actions so far; an entry of `rollbacks` is a rollback under
      way, with the number of its actions still to run; `runs` has the index of an action
      once for each time it ran. */
  datatype State = State(registered: nat, active: bool, rollbacks: seq<nat>, runs: multiset<nat>)

  datatype Step =
    | Register
    | Begin
    /** rollback k runs its newest remaining action */
    | RunNext(k: nat)
    | End(k: nat)
    | CommitEnds

  const START := State(0, true, [], multiset{})

  /** Registering and starting throw on a transaction that is no longer known. A commit
      that started earlier ends whatever happened in between. */
  predicate Enabled(s: State, step: Step) {
    match step
    case Register => s.active
    case Begin => s.active
    case RunNext(k) => k < |s.rollbacks| && s.rollbacks[k] > 0
    case End(k) => k < |s.rollbacks| && s.rollbacks[k] == 0
    case CommitEnds => true
  }

  function Next(s: State, step: Step): State
    requires Enabled(s, step)
  {
    match step
    case Register => s.(registered := s.registered + 1)
    case Begin => s.(rollbacks := s.rollbacks + [s.registered])
    case RunNext(k) =>
      s.(rollbacks := s.rollbacks[k := s.rollbacks[k] - 1], runs := s.runs + multiset{s.rollbacks[k] - 1})
    case End(k) => s.(rollbacks := s.rollbacks[..k] + s.rollbacks[k + 1..], active := false)
    case CommitEnds => s.(active := false)
  }

  predicate Runs(s: State, steps: seq<Step>)
    decreases |steps|
  {
    steps == [] || (Enabled(s, steps[0]) && Runs(Next(s, steps[0]), steps[1..]))
  }

  function After(s: State, steps: seq<Step>): State
    requires Runs(s, steps)
    decreases |steps|
  {
    if steps == [] then s else After(Next(s, steps[0]), steps[1..])
  }

  /** The rollbacks started in a run while action i was registered. */
  function RollbacksSeeing(s: State, steps: seq<Step>, i: nat): nat
    requires Runs(s, steps)
    decreases |steps|
  {
    if steps == [] then 0
    else (if steps[0].Begin? && s.registered > i then 1 else 0) + RollbacksSeeing(Next(s, steps[0]), steps[1..], i)
  }

  /** The rollbacks under way that have action i still to run. */
  function Waiting(rollbacks: seq<nat>, i: nat): nat {
    if rollbacks == [] then 0
    else Waiting(rollbacks[..|rollbacks| - 1], i) + if rollbacks[|rollbacks| - 1] > i then 1 else 0
  }

  lemma WaitingPush(rs: seq<nat>, n: nat, i: nat)
    ensures Waiting(rs + [n], i) == Waiting(rs, i) + if n > i then 1 else 0
  {
    assert (rs + [n])[..|rs|] == rs;
  }

  lemma {:induction false} WaitingUpdate(rs: seq<nat>, k: nat, n: nat, i: nat)
    requires k < |rs|
    ensures Waiting(rs[k := n], i) + (if rs[k] > i then 1 else 0) == Waiting(rs, i) + (if n > i then 1 else 0)
  {
    var last := |rs| - 1;
    if k == last {
      assert rs[k := n][..last] == rs[..last];
    } else {
      assert rs[k := n][..last] == rs[..last][k := n];
      WaitingUpdate(rs[..last], k, n, i);
    }
  }

  lemma {:induction false} WaitingRemove(rs: seq<nat>, k: nat, i: nat)
    requires k < |rs|
    ensures Waiting(rs[..k] + rs[k + 1..], i) + (if rs[k] > i then 1 else 0) == Waiting(rs, i)
  {
    var last := |rs| - 1;
    if k == last {
      assert rs[..k] + rs[k + 1..] == rs[..last];
    } else {
      assert (rs[..k] + rs[k + 1..])[..last - 1] == rs[..last][..k] + rs[..last][k + 1..];
      WaitingRemove(rs[..last], k, i);
    }
  }

  lemma StepCounts(s: State, step: Step, i: nat)
    requires Enabled(s, step)
    ensures Next(s, step).runs[i] + Waiting(Next(s, step).rollbacks, i)
            == s.runs[i] + Waiting(s.rollbacks, i) + if step.Begin? && s.registered > i then 1 else 0
  {
    match step
    case Begin => WaitingPush(s.rollbacks, s.registered, i);
    case RunNext(k) => WaitingUpdate(s.rollbacks, k, s.rollbacks[k] - 1, i);
    case End(k) => WaitingRemove(s.rollbacks, k, i);
    case _ =>
  }

  lemma {:induction false} RunCounts(s: State, steps: seq<Step>, i: nat)
    requires Runs(s, steps)
    ensures After(s, steps).runs[i] + Waiting(After(s, steps).rollbacks, i)
            == s.runs[i] + Waiting(s.rollbacks, i) + RollbacksSeeing(s, steps, i)
    decreases |steps|
  {
    if steps != [] {
      StepCounts(s, steps[0], i);
      RunCounts(Next(s, steps[0]), steps[1..], i);
    }
  }

  /** Once nothing is under way, an action has run as often as rollbacks were started
      after its registration: exactly once when there was one such rollback; not at all
      when it was registered during the only one; twice when two overlapped. */
  lemma RunsAreStarts(steps: seq<Step>, i: nat)
    requires Runs(START, steps) && After(START, steps).rollbacks == []
    ensures After(START, steps).runs[i] == RollbacksSeeing(START, steps, i)
  {
    RunCounts(START, steps, i);
  }

  /** A second rollback can only start before the first one has ended: from the end of
      any rollback or commit on, no more are started and nothing is registered. */
  lemma {:induction false} ClosedForGood(s: State, steps: seq<Step>, i: nat)
    requires Runs(s, steps) && !s.active
    ensures !After(s, steps).active && After(s, steps).registered == s.registered && RollbacksSeeing(s, steps, i) == 0
    decreases |steps|
  {
    if steps != [] { ClosedForGood(Next(s, steps[0]), steps[1..], i); }
  }

  function Registrations(steps: seq<Step>): nat {
    if steps == [] then 0 else (if steps[0].Register? then 1 else 0) + Registrations(steps[1..])
  }

  /** The transaction is known exactly until some rollback or commit of it has ended, and has as
      many actions as have been registered. A commit can end at any time. */
  lemma {:induction false} KnownIff(s: State, steps: seq<Step>)
    requires Runs(s, steps)
    ensures After(s, steps).active
            <==> s.active && forall j :: 0 <= j < |steps| ==> !steps[j].End? && steps[j] != CommitEnds
    ensures After(s, steps).registered == s.registered + Registrations(steps)
    ensures Enabled(After(s, steps), CommitEnds)
    decreases |steps|
  {
    if steps != [] {
      var rest := steps[1..];
      KnownIff(Next(s, steps[0]), rest);
      assert forall j :: 0 < j < |steps| ==> steps[j] == rest[j - 1];
    }
  }

  lemma OneFirst(s: State, step: Step, rest: seq<Step>)
    requires Enabled(s, step) && Runs(Next(s, step), rest)
    ensures Runs(s, [step] + rest) && After(s, [step] + rest) == After(Next(s, step), rest)
  {
    assert ([step] + rest)[1..] == rest;
  }

  /** The two rollbacks of `OverlapRunsTwice`, from the moment both have started. */
  lemma TwoFinish(s: State) returns (tail: seq<Step>)
    requires s == State(1, true, [1, 1], multiset{})
    ensures Runs(s, tail) && After(s, tail).runs[0] == 2 && After(s, tail).rollbacks == []
  {
    var a := Next(s, RunNext(0));
    var b := Next(a, RunNext(1));
    assert b.rollbacks == [0, 0];
    var c := Next(b, End(1));
    assert c.rollbacks == [0];
    OneFirst(c, End(0), []);
    OneFirst(b, End(1), [End(0)] + []);
    OneFirst(a, RunNext(1), [End(1)] + ([End(0)] + []));
    tail := [RunNext(0)] + ([RunNext(1)] + ([End(1)] + ([End(0)] + [])));
    OneFirst(s, RunNext(0), [RunNext(1)] + ([End(1)] + ([End(0)] + [])));
  }

  /** Overlapping rollbacks of one transaction, say by its owner and by the cleanup of
      stale transactions, do run an action twice. */
  lemma OverlapRunsTwice() returns (steps: seq<Step>)
    ensures Runs(START, steps) && After(START, steps).runs[0] == 2 && After(START, steps).rollbacks == []
  {
    var a := Next(START, Register);
    var b := Next(a, Begin);
    var c := Next(b, Begin);
    assert c.rollbacks == [1, 1];
    var tail := TwoFinish(c);
    OneFirst(b, Begin, tail);
    OneFirst(a, Begin, [Begin] + tail);
    OneFirst(START, Register, [Begin] + ([Begin] + tail));
    steps := [Register] + ([Begin] + ([Begin] + tail));
  }
}
