/** One alert rule and its instances at the awaits: rounds of evaluation that outlast the
    interval overlap, and users acknowledge and resolve in between. */
module AlertRaces {
  import opened Text
  import opened AlertEngine

  /** How far a round whose series of breaches is old enough has come: it has loaded the rule,
      searched for a firing instance and found none, saved its own instance; it is over. */
  datatype Round = Loaded(last: Option<int>) | Searched | Created | Over

  /** An instance, and the round that created it. */
  datatype Alert = Alert(status: Status, firedAt: int, round: nat)

  /** A loaded instance whose new status is still to be saved. */
  datatype Saving = Saving(id: nat, status: Status)

  datatype State = State(cooldownSeconds: int, last: Option<int>, rounds: seq<Round>, alerts: seq<Alert>,
                         saving: seq<Saving>, now: int)

  datatype Step =
    | Load
    /** the cooldown, and the search */
    | Look(k: nat)
    | Create(k: nat)
    /** the update of the rule */
    | Mark(k: nat)
    /** round k throws */
    | Stop(k: nat)
    /** a round that does not breach searches for the firing instances */
    | Sweep
    | LoadToAcknowledge(id: nat)
    | LoadToResolve(id: nat)
    | Save(k: nat)
    /** saving k fails */
    | Lose(k: nat)
    | Tick(ms: nat)

  function Begin(cooldownSeconds: int): State { State(cooldownSeconds, None, [], [], [], 0) }

  predicate IsAt(s: State, k: nat, p: Round) { k < |s.rounds| && s.rounds[k] == p }

  function Move(s: State, k: nat, p: Round): State
    requires k < |s.rounds|
  {
    s.(rounds := s.rounds[k := p])
  }

  predicate StillCooling(s: State, last: Option<int>) {
    last.Some? && s.now - last.value < 1000 * s.cooldownSeconds
  }

  predicate AnyFiring(alerts: seq<Alert>) { exists i :: 0 <= i < |alerts| && alerts[i].status == Firing }

  /** What a quiet round is going to save. */
  function ToResolve(alerts: seq<Alert>): seq<Saving> {
    if alerts == [] then []
    else
      var n := |alerts| - 1;
      ToResolve(alerts[..n]) + if alerts[n].status == Firing then [Saving(n, Resolved)] else []
  }

  function Dropped(saving: seq<Saving>, k: nat): seq<Saving>
    requires k < |saving|
  {
    saving[..k] + saving[k + 1..]
  }

  /** Each round takes its steps in order: other steps do nothing. */
  function Next(s: State, step: Step): State {
    match step
    case Load => s.(rounds := s.rounds + [Loaded(s.last)])
    case Look(k) =>
      if k < |s.rounds| && s.rounds[k].Loaded? then
        Move(s, k, if StillCooling(s, s.rounds[k].last) || AnyFiring(s.alerts) then Over else Searched)
      else s
    case Create(k) =>
      if IsAt(s, k, Searched) then Move(s, k, Created).(alerts := s.alerts + [Alert(Firing, s.now, k)]) else s
    case Mark(k) => if IsAt(s, k, Created) then Move(s, k, Over).(last := Some(s.now)) else s
    case Stop(k) => if k < |s.rounds| then Move(s, k, Over) else s
    case Sweep => s.(saving := s.saving + ToResolve(s.alerts))
    case LoadToAcknowledge(id) =>
      if id < |s.alerts| && s.alerts[id].status == Firing then s.(saving := s.saving + [Saving(id, Acknowledged)])
      else s
    case LoadToResolve(id) =>
      if id < |s.alerts| && s.alerts[id].status != Resolved then s.(saving := s.saving + [Saving(id, Resolved)]) else s
    case Save(k) =>
      if k < |s.saving| && s.saving[k].id < |s.alerts| then
        var w := s.saving[k];
        s.(saving := Dropped(s.saving, k), alerts := s.alerts[w.id := s.alerts[w.id].(status := w.status)])
      else s
    case Lose(k) => if k < |s.saving| then s.(saving := Dropped(s.saving, k)) else s
    case Tick(ms) => s.(now := s.now + ms)
  }

  function After(s: State, steps: seq<Step>): State {
    if steps == [] then s else Next(After(s, steps[..|steps| - 1]), steps[|steps| - 1])
  }

  // ------------------------------------------------------- how many instances fire at once

  function CountFiring(alerts: seq<Alert>): nat {
    if alerts == [] then 0
    else CountFiring(alerts[..|alerts| - 1]) + if alerts[|alerts| - 1].status == Firing then 1 else 0
  }

  /** The rounds between the search and the save. */
  function CountSearched(rounds: seq<Round>): nat {
    if rounds == [] then 0
    else CountSearched(rounds[..|rounds| - 1]) + if rounds[|rounds| - 1] == Searched then 1 else 0
  }

  lemma FiringPush(alerts: seq<Alert>, a: Alert)
    ensures CountFiring(alerts + [a]) == CountFiring(alerts) + if a.status == Firing then 1 else 0
  {
    assert (alerts + [a])[..|alerts|] == alerts;
  }

  lemma {:induction false} FiringUpdate(alerts: seq<Alert>, i: nat, a: Alert)
    requires i < |alerts|
    ensures CountFiring(alerts[i := a]) + (if alerts[i].status == Firing then 1 else 0)
            == CountFiring(alerts) + if a.status == Firing then 1 else 0
  {
    var n := |alerts| - 1;
    if i == n {
      assert alerts[i := a][..n] == alerts[..n];
    } else {
      assert alerts[i := a][..n] == alerts[..n][i := a];
      FiringUpdate(alerts[..n], i, a);
    }
  }

  lemma {:induction false} NoneFiring(alerts: seq<Alert>)
    ensures AnyFiring(alerts) <==> CountFiring(alerts) > 0
  {
    if alerts != [] {
      var n := |alerts| - 1;
      NoneFiring(alerts[..n]);
      if AnyFiring(alerts[..n]) {
        var i :| 0 <= i < n && alerts[..n][i].status == Firing;
        assert alerts[i].status == Firing;
      }
      if i :| 0 <= i < |alerts| && alerts[i].status == Firing {
        if i < n { assert alerts[..n][i].status == Firing; }
      }
    }
  }

  lemma SearchedPush(rounds: seq<Round>, p: Round)
    ensures CountSearched(rounds + [p]) == CountSearched(rounds) + if p == Searched then 1 else 0
  {
    assert (rounds + [p])[..|rounds|] == rounds;
  }

  lemma {:induction false} SearchedUpdate(rounds: seq<Round>, k: nat, p: Round)
    requires k < |rounds|
    ensures CountSearched(rounds[k := p]) + (if rounds[k] == Searched then 1 else 0)
            == CountSearched(rounds) + if p == Searched then 1 else 0
  {
    var n := |rounds| - 1;
    if k == n {
      assert rounds[k := p][..n] == rounds[..n];
    } else {
      assert rounds[k := p][..n] == rounds[..n][k := p];
      SearchedUpdate(rounds[..n], k, p);
    }
  }

  /** Nothing that is going to be saved is a firing. */
  predicate SavesAdvance(s: State) { forall j :: 0 <= j < |s.saving| ==> s.saving[j].status != Firing }

  lemma {:induction false} SweptAreFiring(alerts: seq<Alert>)
    ensures forall j :: 0 <= j < |ToResolve(alerts)| ==>
              var w := ToResolve(alerts)[j];
              w.status == Resolved && w.id < |alerts| && alerts[w.id].status == Firing
    ensures forall i :: 0 <= i < |alerts| && alerts[i].status == Firing ==> Saving(i, Resolved) in ToResolve(alerts)
  {
    if alerts != [] { SweptAreFiring(alerts[..|alerts| - 1]); }
  }

  lemma StepKeepsSaves(s: State, step: Step)
    requires SavesAdvance(s)
    ensures SavesAdvance(Next(s, step))
  {
    SweptAreFiring(s.alerts);
  }

  lemma RoundStepBound(s: State, step: Step, c: nat)
    requires CountFiring(s.alerts) + CountSearched(s.rounds) <= c && CountSearched(Next(s, step).rounds) <= c
    requires step.Load? || step.Look? || step.Create? || step.Mark? || step.Stop?
    ensures CountFiring(Next(s, step).alerts) + CountSearched(Next(s, step).rounds) <= c
  {
    var n := Next(s, step);
    NoneFiring(s.alerts);
    match step
    case Load => SearchedPush(s.rounds, Loaded(s.last));
    case Look(k) =>
      if k < |s.rounds| { SearchedUpdate(s.rounds, k, if n.rounds[k] == Searched then Searched else Over); }
    case Create(k) => if k < |s.rounds| {
      SearchedUpdate(s.rounds, k, Created);
      FiringPush(s.alerts, Alert(Firing, s.now, k));
    }
    case Mark(k) => if k < |s.rounds| { SearchedUpdate(s.rounds, k, Over); }
    case Stop(k) => if k < |s.rounds| { SearchedUpdate(s.rounds, k, Over); }
    case _ =>
  }

  lemma OtherStepBound(s: State, step: Step)
    requires SavesAdvance(s)
    requires !(step.Load? || step.Look? || step.Create? || step.Mark? || step.Stop?)
    ensures CountFiring(Next(s, step).alerts) <= CountFiring(s.alerts) && Next(s, step).rounds == s.rounds
  {
    if step.Save? && step.k < |s.saving| && s.saving[step.k].id < |s.alerts| {
      var w := s.saving[step.k];
      FiringUpdate(s.alerts, w.id, s.alerts[w.id].(status := w.status));
    }
  }

  /** At no time more than c rounds are between the search and the save. */
  predicate Overlap(s: State, steps: seq<Step>, c: nat) {
    if steps == [] then CountSearched(s.rounds) <= c
    else Overlap(s, steps[..|steps| - 1], c) && CountSearched(After(s, steps).rounds) <= c
  }

  /** As many instances of a rule fire at once as rounds overlap there, and no more: with no
      overlap (c = 1) there is one at most. */
  lemma {:induction false} FiringBound(cooldownSeconds: int, steps: seq<Step>, c: nat)
    requires Overlap(Begin(cooldownSeconds), steps, c)
    ensures var s := After(Begin(cooldownSeconds), steps);
            SavesAdvance(s) && CountFiring(s.alerts) + CountSearched(s.rounds) <= c
  {
    if steps != [] {
      var init, last := steps[..|steps| - 1], steps[|steps| - 1];
      var s := After(Begin(cooldownSeconds), init);
      FiringBound(cooldownSeconds, init, c);
      StepKeepsSaves(s, last);
      if last.Load? || last.Look? || last.Create? || last.Mark? || last.Stop? {
        RoundStepBound(s, last, c);
      } else {
        OtherStepBound(s, last);
      }
    }
  }

  /** c rounds that load, then search, then save. */
  function Together(c: nat, n: nat): seq<Step> {
    if n == 0 then []
    else Together(c, n - 1) + [if n <= c then Load else if n <= 2 * c then Look(n - c - 1) else Create(n - 2 * c - 1)]
  }

  /** How far round k is after n of these steps. */
  function PhaseIn(c: nat, n: nat, k: nat): Round {
    if 2 * c + k < n then Created else if c + k < n then Searched else Loaded(None)
  }

  function InStep(cooldownSeconds: int, c: nat, n: nat): State {
    State(cooldownSeconds, None, seq(if n < c then n else c, (k: nat) => PhaseIn(c, n, k)),
          seq(if n < 2 * c then 0 else n - 2 * c, (k: nat) => Alert(Firing, 0, k)), [], 0)
  }

  lemma {:induction false} TogetherRun(cooldownSeconds: int, c: nat, n: nat)
    requires n <= 3 * c
    ensures After(Begin(cooldownSeconds), Together(c, n)) == InStep(cooldownSeconds, c, n)
    ensures Overlap(Begin(cooldownSeconds), Together(c, n), c)
  {
    var s := InStep(cooldownSeconds, c, n);
    SearchedAtMost(s.rounds);
    if n > 0 {
      var before := InStep(cooldownSeconds, c, n - 1);
      TogetherRun(cooldownSeconds, c, n - 1);
      assert Together(c, n)[..|Together(c, n)| - 1] == Together(c, n - 1);
      assert Next(before, Together(c, n)[|Together(c, n)| - 1]) == s by { TogetherStep(cooldownSeconds, c, n); }
    }
  }

  lemma TogetherStep(cooldownSeconds: int, c: nat, n: nat)
    requires 0 < n <= 3 * c
    ensures var step := if n <= c then Load else if n <= 2 * c then Look(n - c - 1) else Create(n - 2 * c - 1);
            Next(InStep(cooldownSeconds, c, n - 1), step) == InStep(cooldownSeconds, c, n)
  {
    var before, s := InStep(cooldownSeconds, c, n - 1), InStep(cooldownSeconds, c, n);
    if n <= c {
      assert before.rounds + [Loaded(None)] == s.rounds && before.alerts == s.alerts;
    } else if n <= 2 * c {
      assert before.rounds[n - c - 1 := Searched] == s.rounds && before.alerts == s.alerts == [];
    } else {
      assert before.rounds[n - 2 * c - 1 := Created] == s.rounds;
      assert before.alerts + [Alert(Firing, 0, n - 2 * c - 1)] == s.alerts;
    }
  }

  lemma {:induction false} SearchedAtMost(rounds: seq<Round>)
    ensures CountSearched(rounds) <= |rounds|
  {
    if rounds != [] { SearchedAtMost(rounds[..|rounds| - 1]); }
  }

  lemma {:induction false} AllFiring(alerts: seq<Alert>)
    requires forall i :: 0 <= i < |alerts| ==> alerts[i].status == Firing
    ensures CountFiring(alerts) == |alerts|
  {
    if alerts != [] { AllFiring(alerts[..|alerts| - 1]); }
  }

  /** For every c some run with no more than c overlapping rounds has c firing instances. */
  lemma FiringBoundReached(cooldownSeconds: int, c: nat)
    ensures Overlap(Begin(cooldownSeconds), Together(c, 3 * c), c)
    ensures CountFiring(After(Begin(cooldownSeconds), Together(c, 3 * c)).alerts) == c
  {
    TogetherRun(cooldownSeconds, c, 3 * c);
    AllFiring(InStep(cooldownSeconds, c, 3 * c).alerts);
  }

  /** A round that has loaded the rule goes on to create an instance exactly when the cooldown of
      the firing it has loaded is over and no instance fires. */
  lemma LookIff(s: State, k: nat)
    requires k < |s.rounds| && s.rounds[k].Loaded?
    ensures var last, n := s.rounds[k].last, Next(s, Look(k));
            && n.rounds[k]
               == (if (last.Some? && s.now - last.value < 1000 * s.cooldownSeconds)
                      || exists i :: 0 <= i < |s.alerts| && s.alerts[i].status == Firing
                   then Over else Searched)
            && n == s.(rounds := s.rounds[k := n.rounds[k]])
  {}

  /** No two instances are one round's. */
  predicate OwnRounds(s: State) {
    && (forall i :: 0 <= i < |s.alerts| ==>
          s.alerts[i].round < |s.rounds| && s.rounds[s.alerts[i].round] in {Created, Over})
    && (forall i, j :: 0 <= i < j < |s.alerts| ==> s.alerts[i].round != s.alerts[j].round)
  }

  lemma StepKeepsOwn(s: State, step: Step)
    requires OwnRounds(s)
    ensures OwnRounds(Next(s, step))
  {}

  /** Over every interleaving a round creates one instance at most. */
  lemma {:induction false} OnePerRound(cooldownSeconds: int, steps: seq<Step>)
    ensures OwnRounds(After(Begin(cooldownSeconds), steps))
    ensures var alerts := After(Begin(cooldownSeconds), steps).alerts;
            forall i, j :: 0 <= i < j < |alerts| ==> alerts[i].round != alerts[j].round
  {
    if steps != [] {
      OnePerRound(cooldownSeconds, steps[..|steps| - 1]);
      StepKeepsOwn(After(Begin(cooldownSeconds), steps[..|steps| - 1]), steps[|steps| - 1]);
    }
  }

  function Elapsed(steps: seq<Step>): nat {
    if steps == [] then 0
    else Elapsed(steps[..|steps| - 1]) + if steps[|steps| - 1].Tick? then steps[|steps| - 1].ms else 0
  }

  /** When a round that had created its instance last wrote that to the rule. */
  function LastMark(s: State, steps: seq<Step>): Option<int> {
    if steps == [] then s.last
    else
      var init, last := steps[..|steps| - 1], steps[|steps| - 1];
      if last.Mark? && IsAt(After(s, init), last.k, Created) then Some(s.now + Elapsed(init)) else LastMark(s, init)
  }

  lemma {:induction false} LastExact(s: State, steps: seq<Step>)
    ensures After(s, steps).now == s.now + Elapsed(steps)
    ensures After(s, steps).last == LastMark(s, steps)
  {
    if steps != [] { LastExact(s, steps[..|steps| - 1]); }
  }

  // ------------------------------------------------------------------------- the cooldown

  /** Rounds that loaded the rule after a firing at t was written to it know of it, and past
      the search they are a cooldown later. */
  predicate KnowsOf(s: State, r: Round, t: int) {
    match r
    case Loaded(last) => last.Some? && t <= last.value
    case Searched => s.now - t >= 1000 * s.cooldownSeconds
    case _ => true
  }

  predicate Informed(s: State, first: nat, t: int) {
    && first <= |s.rounds| && s.last.Some? && t <= s.last.value <= s.now
    && (forall k :: first <= k < |s.rounds| ==> KnowsOf(s, s.rounds[k], t))
    && (forall i :: 0 <= i < |s.alerts| && first <= s.alerts[i].round ==>
          s.alerts[i].firedAt - t >= 1000 * s.cooldownSeconds)
  }

  lemma StepInformed(s: State, step: Step, first: nat, t: int)
    requires Informed(s, first, t)
    ensures Informed(Next(s, step), first, t) && Next(s, step).cooldownSeconds == s.cooldownSeconds
  {}

  predicate RoundsExist(s: State) { forall i :: 0 <= i < |s.alerts| ==> s.alerts[i].round < |s.rounds| }

  lemma {:induction false} RunInformed(s: State, steps: seq<Step>, first: nat, t: int)
    requires Informed(s, first, t)
    ensures Informed(After(s, steps), first, t) && After(s, steps).cooldownSeconds == s.cooldownSeconds
  {
    if steps != [] {
      RunInformed(s, steps[..|steps| - 1], first, t);
      StepInformed(After(s, steps[..|steps| - 1]), steps[|steps| - 1], first, t);
    }
  }

  lemma StepKeepsRounds(s: State, step: Step)
    requires RoundsExist(s) && (s.last.Some? ==> s.last.value <= s.now)
    ensures var n := Next(s, step);
            RoundsExist(n) && n.cooldownSeconds == s.cooldownSeconds && (n.last.Some? ==> n.last.value <= n.now)
  {}

  lemma {:induction false} RoundsOfAlerts(cooldownSeconds: int, steps: seq<Step>)
    ensures var s := After(Begin(cooldownSeconds), steps);
            RoundsExist(s) && s.cooldownSeconds == cooldownSeconds && (s.last.Some? ==> s.last.value <= s.now)
  {
    if steps != [] {
      RoundsOfAlerts(cooldownSeconds, steps[..|steps| - 1]);
      StepKeepsRounds(After(Begin(cooldownSeconds), steps[..|steps| - 1]), steps[|steps| - 1]);
    }
  }

  /** Once a firing has been written to the rule, at t, a round that loads the rule afterwards
      creates no instance before the cooldown is over: two firings closer together need a round
      that loaded the rule before the other's firing was written to it. */
  lemma SpacedAfterLoad(cooldownSeconds: int, before: seq<Step>, steps: seq<Step>, i: nat)
    requires var s := After(Begin(cooldownSeconds), before);
             && s.last.Some? && i < |After(s, steps).alerts| && |s.rounds| <= After(s, steps).alerts[i].round
    ensures var s := After(Begin(cooldownSeconds), before);
            After(s, steps).alerts[i].firedAt - s.last.value >= 1000 * cooldownSeconds
  {
    var s := After(Begin(cooldownSeconds), before);
    RoundsOfAlerts(cooldownSeconds, before);
    RunInformed(s, steps, |s.rounds|, s.last.value);
  }

  // ------------------------------------------------------------------------- the statuses

  predicate AcknowledgementPending(s: State, id: nat) { Saving(id, Acknowledged) in s.saving }

  predicate Closed(s: State, id: nat) {
    id < |s.alerts| && s.alerts[id].status == Resolved && !AcknowledgementPending(s, id) && SavesAdvance(s)
  }

  lemma StepKeepsClosed(s: State, step: Step, id: nat)
    requires Closed(s, id)
    ensures Closed(Next(s, step), id)
  {
    StepKeepsSaves(s, step);
    SweptAreFiring(s.alerts);
    if step.Save? && step.k < |s.saving| { assert s.saving[step.k] in s.saving; }
  }

  lemma {:induction false} RunKeepsClosed(s: State, steps: seq<Step>, id: nat)
    requires Closed(s, id)
    ensures Closed(After(s, steps), id)
  {
    if steps != [] {
      RunKeepsClosed(s, steps[..|steps| - 1], id);
      StepKeepsClosed(After(s, steps[..|steps| - 1]), steps[|steps| - 1], id);
    }
  }

  lemma AfterOne(s: State, step: Step)
    ensures After(s, [step]) == Next(s, step)
  {
    assert [step][..0] == [];
  }

  /** A resolved instance stays so, whatever happens next, exactly when no acknowledgement that
      was loaded before is still to be saved. */
  lemma ResolvedForGoodIff(s: State, id: nat)
    requires SavesAdvance(s) && id < |s.alerts| && s.alerts[id].status == Resolved
    ensures (forall steps :: id < |After(s, steps).alerts| && After(s, steps).alerts[id].status == Resolved)
            <==> !AcknowledgementPending(s, id)
  {
    if AcknowledgementPending(s, id) {
      var k :| 0 <= k < |s.saving| && s.saving[k] == Saving(id, Acknowledged);
      AfterOne(s, Save(k));
      assert After(s, [Save(k)]).alerts[id].status == Acknowledged;
    } else {
      forall steps ensures id < |After(s, steps).alerts| && After(s, steps).alerts[id].status == Resolved {
        RunKeepsClosed(s, steps, id);
      }
    }
  }

  lemma AfterPush(s: State, steps: seq<Step>, last: Step)
    ensures After(s, steps + [last]) == Next(After(s, steps), last)
  {
    assert (steps + [last])[..|steps|] == steps;
  }

  /** One user acknowledges while another one resolves, and saves last: the resolution is gone. */
  lemma AcknowledgedAfterResolved(s: State)
    requires |s.alerts| == 1 && s.alerts[0].status == Firing && s.saving == []
    ensures var a := After(s, [LoadToAcknowledge(0)] + [LoadToResolve(0)] + [Save(1)]);
            && a.alerts == [s.alerts[0].(status := Resolved)]
            && After(a, [Save(0)]).alerts == [s.alerts[0].(status := Acknowledged)]
  {
    AfterOne(s, LoadToAcknowledge(0));
    AfterPush(s, [LoadToAcknowledge(0)], LoadToResolve(0));
    AfterPush(s, [LoadToAcknowledge(0)] + [LoadToResolve(0)], Save(1));
    var a := After(s, [LoadToAcknowledge(0)] + [LoadToResolve(0)] + [Save(1)]);
    assert a.saving == [Saving(0, Acknowledged)];
    AfterOne(a, Save(0));
  }

  /** The step has loaded the instance in order to give it this status. */
  predicate LoadsFor(s: State, step: Step, w: Saving) {
    && w.id < |s.alerts|
    && match w.status
       case Acknowledged => step == LoadToAcknowledge(w.id) && s.alerts[w.id].status == Firing
       case Resolved =>
         (step == LoadToResolve(w.id) && s.alerts[w.id].status != Resolved)
         || (step == Sweep && s.alerts[w.id].status == Firing)
       case Firing => false
  }

  lemma StepSaves(s: State, step: Step, w: Saving)
    ensures w in Next(s, step).saving ==> w in s.saving || LoadsFor(s, step, w)
    ensures LoadsFor(s, step, w) ==> w in Next(s, step).saving
    ensures !step.Save? && !step.Lose? && w in s.saving ==> w in Next(s, step).saving
  {
    SweptAreFiring(s.alerts);
  }

  /** What is going to be saved was loaded for it in some step before. */
  lemma {:induction false} SavingsWereLoaded(cooldownSeconds: int, steps: seq<Step>, w: Saving)
    requires w in After(Begin(cooldownSeconds), steps).saving
    ensures exists j :: 0 <= j < |steps| && LoadsFor(After(Begin(cooldownSeconds), steps[..j]), steps[j], w)
  {
    if steps != [] {
      var init, last := steps[..|steps| - 1], steps[|steps| - 1];
      StepSaves(After(Begin(cooldownSeconds), init), last, w);
      if LoadsFor(After(Begin(cooldownSeconds), init), last, w) {
        assert LoadsFor(After(Begin(cooldownSeconds), steps[..|init|]), steps[|init|], w);
      } else {
        SavingsWereLoaded(cooldownSeconds, init, w);
        var j :| 0 <= j < |init| && LoadsFor(After(Begin(cooldownSeconds), init[..j]), init[j], w);
        assert init[..j] == steps[..j] && init[j] == steps[j];
      }
    }
  }

  /** A save gives the instance its status and is over; a lost one only is over. */
  lemma SaveDoes(s: State, k: nat)
    requires k < |s.saving| && s.saving[k].id < |s.alerts|
    ensures var n, w := Next(s, Save(k)), s.saving[k];
            n.alerts == s.alerts[w.id := s.alerts[w.id].(status := w.status)]
            && n.saving == s.saving[..k] + s.saving[k + 1..] && n.rounds == s.rounds
    ensures Next(s, Lose(k)) == s.(saving := s.saving[..k] + s.saving[k + 1..])
  {}

  lemma StepKeepsTable(s: State, step: Step, id: nat)
    requires SavesAdvance(s) && id < |s.alerts|
    ensures id < |Next(s, step).alerts| && Next(s, step).alerts[id].firedAt == s.alerts[id].firedAt
    ensures s.alerts[id].status != Firing ==> Next(s, step).alerts[id].status != Firing
  {}

  predicate SavePending(s: State, id: nat) { exists j :: 0 <= j < |s.saving| && s.saving[j].id == id }

  /** Every instance up to n that fires is about to be saved. */
  predicate Handled(s: State, n: nat) {
    n <= |s.alerts| && SavesAdvance(s) && forall i :: 0 <= i < n && s.alerts[i].status == Firing ==> SavePending(s, i)
  }

  lemma PendingAfterDrop(s: State, k: nat, id: nat)
    requires k < |s.saving| && s.saving[k].id != id && SavePending(s, id)
    ensures SavePending(s.(saving := Dropped(s.saving, k)), id)
  {
    var j :| 0 <= j < |s.saving| && s.saving[j].id == id;
    assert Dropped(s.saving, k)[if j < k then j else j - 1].id == id;
  }

  lemma PendingAfterAdd(s: State, more: seq<Saving>, id: nat)
    requires SavePending(s, id)
    ensures SavePending(s.(saving := s.saving + more), id)
  {
    var j :| 0 <= j < |s.saving| && s.saving[j].id == id;
    assert (s.saving + more)[j].id == id;
  }

  lemma StepKeepsHandled(s: State, step: Step, n: nat)
    requires Handled(s, n) && !step.Lose?
    ensures Handled(Next(s, step), n)
  {
    StepKeepsSaves(s, step);
    forall i | 0 <= i < n && Next(s, step).alerts[i].status == Firing ensures SavePending(Next(s, step), i) {
      StepKeepsTable(s, step, i);
      match step
      case Sweep => PendingAfterAdd(s, ToResolve(s.alerts), i);
      case LoadToAcknowledge(id) => PendingAfterAdd(s, [Saving(id, Acknowledged)], i);
      case LoadToResolve(id) => PendingAfterAdd(s, [Saving(id, Resolved)], i);
      case Save(k) => if Next(s, step) != s { PendingAfterDrop(s, k, i); }
      case _ =>
    }
  }

  /** After a quiet round has searched, an instance fires on only while its save is pending, or
      if it was created later, by a round that had searched before: no save failing. */
  lemma {:induction false} SweepResolves(s: State, steps: seq<Step>)
    requires SavesAdvance(s) && forall j :: 0 <= j < |steps| ==> !steps[j].Lose?
    ensures Handled(After(Next(s, Sweep), steps), |s.alerts|)
  {
    if steps == [] {
      StepKeepsSaves(s, Sweep);
      SweptAreFiring(s.alerts);
      forall i | 0 <= i < |s.alerts| && s.alerts[i].status == Firing ensures SavePending(Next(s, Sweep), i) {
        assert Saving(i, Resolved) in Next(s, Sweep).saving;
      }
    } else {
      SweepResolves(s, steps[..|steps| - 1]);
      StepKeepsHandled(After(Next(s, Sweep), steps[..|steps| - 1]), steps[|steps| - 1], |s.alerts|);
    }
  }
}
