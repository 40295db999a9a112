/** The alert engine: threshold checks with a breach timer, a duration, a cooldown
    and instances that fire, are acknowledged and get resolved. Times are in
    milliseconds, durations in seconds. */
module AlertEngine {
  import opened Text

  type RuleId = string
  type InstanceId = nat

  // -------------------------------------------------------------------- states

  datatype Operator = Gt | Lt | Eq | Ne | Gte | Lte
  datatype Status = Firing | Acknowledged | Resolved

  datatype Params = Params(threshold: real, operator: Operator, durationSeconds: int, cooldownSeconds: int,
                           enabled: bool)
  datatype Rule = Rule(params: Params, lastTriggeredAt: Option<int>, triggerCount: nat)

  /** An instance's id is its position in the table. */
  datatype Instance = Instance(ruleId: RuleId, status: Status, firedAt: int, resolvedAt: Option<int>)

  datatype Event = AlertFired(id: InstanceId) | AlertResolved(id: InstanceId)

  datatype Engine = Engine(
    breach: map<RuleId, int>,
    rules: map<RuleId, Rule>,
    instances: seq<Instance>,
    emitted: seq<Event>)

  /** The readings of the clock that one evaluation can make: four in order when it breaches,
      one for each instance it resolves when it does not. */
  datatype Clock = Clock(eval: int, cool: int, fired: int, mark: int, resolved: InstanceId -> int)

  predicate ClockOk(c: Clock) { 0 < c.eval <= c.cool <= c.fired <= c.mark }

  // ---------------------------------------------------------------- evaluation

  function CheckThreshold(value: real, threshold: real, op: Operator): bool {
    match op
    case Gt => value > threshold
    case Lt => value < threshold
    case Eq => value == threshold
    case Ne => value != threshold
    case Gte => value >= threshold
    case Lte => value <= threshold
  }

  predicate IsFiring(i: Instance, r: RuleId) { i.ruleId == r && i.status == Firing }

  predicate HasFiring(instances: seq<Instance>, r: RuleId) {
    exists k :: 0 <= k < |instances| && IsFiring(instances[k], r)
  }

  predicate CoolingDown(rule: Rule, now: int) {
    rule.lastTriggeredAt.Some? && now - rule.lastTriggeredAt.value < 1000 * rule.params.cooldownSeconds
  }

  function Fire(e: Engine, r: RuleId, c: Clock): Engine
    requires r in e.rules
  {
    var rule := e.rules[r];
    if CoolingDown(rule, c.cool) || HasFiring(e.instances, r) then e
    else
      e.(instances := e.instances + [Instance(r, Firing, c.fired, None)],
         rules := e.rules[r := Rule(rule.params, Some(c.mark), rule.triggerCount + 1)],
         emitted := e.emitted + [AlertFired(|e.instances|)])
  }

  function Resolve(i: Instance, now: int): Instance { i.(status := Resolved, resolvedAt := Some(now)) }

  /** Every firing instance of the rule is resolved and announced, in table order. */
  function ResolveFiring(e: Engine, r: RuleId, times: InstanceId -> int, n: nat): Engine
    requires n <= |e.instances|
    ensures |ResolveFiring(e, r, times, n).instances| == |e.instances|
  {
    if n == 0 then e
    else
      var d := ResolveFiring(e, r, times, n - 1);
      if IsFiring(d.instances[n - 1], r) then
        d.(instances := d.instances[n - 1 := Resolve(d.instances[n - 1], times(n - 1))],
           emitted := d.emitted + [AlertResolved(n - 1)])
      else d
  }

  /** The timer entry as the code tests it: a stored 0 counts as none. */
  function BreachStart(e: Engine, r: RuleId): Option<int> {
    if r in e.breach && e.breach[r] != 0 then Some(e.breach[r]) else None
  }

  function Breaching(rule: Rule, metric: real): bool {
    CheckThreshold(metric, rule.params.threshold, rule.params.operator)
  }

  function AfterEvaluation(e: Engine, r: RuleId, metric: Option<real>, c: Clock): Engine
    requires r in e.rules
  {
    if metric.None? then e
    else if Breaching(e.rules[r], metric.value) then
      match BreachStart(e, r)
      case None => e.(breach := e.breach[r := c.eval])
      case Some(b) =>
        if c.eval - b >= 1000 * e.rules[r].params.durationSeconds then Fire(e, r, c) else e
    else
      var cleared := e.(breach := map k | k in e.breach && k != r :: e.breach[k]);
      ResolveFiring(cleared, r, c.resolved, |e.instances|)
  }

  function AfterAcknowledge(e: Engine, id: InstanceId): Engine {
    if id < |e.instances| && e.instances[id].status == Firing
    then e.(instances := e.instances[id := e.instances[id].(status := Acknowledged)])
    else e
  }

  function AfterResolve(e: Engine, id: InstanceId, now: int): Engine {
    if id < |e.instances| && e.instances[id].status != Resolved
    then e.(instances := e.instances[id := Resolve(e.instances[id], now)])
    else e
  }

  function AfterUpdate(e: Engine, r: RuleId, p: Params): Engine {
    if r in e.rules then e.(rules := e.rules[r := e.rules[r].(params := p)])
    else e.(rules := e.rules[r := Rule(p, None, 0)])
  }

  // ------------------------------------------------------------- runs, histories

  datatype Step =
    | Evaluate(rule: RuleId, metric: Option<real>, clock: Clock)
    | Acknowledge(id: InstanceId)
    | ResolveByUser(id: InstanceId, now: int)
    | Update(rule: RuleId, params: Params)

  datatype Evaluation = Evaluation(rule: RuleId, time: int, breaching: bool)
  datatype FiringRecord = FiringRecord(rule: RuleId, clock: Clock, cooldownSeconds: int)

  /** The engine with its history: every evaluation that saw a metric, every firing. */
  datatype World = World(engine: Engine, evals: seq<Evaluation>, firings: seq<FiringRecord>, now: int)

  predicate Enabled(w: World, s: Step) {
    match s
    case Evaluate(r, _, c) => r in w.engine.rules && w.engine.rules[r].params.enabled && ClockOk(c) && w.now <= c.eval
    case Update(r, _) => true
    case Acknowledge(_) => true
    case ResolveByUser(_, now) => w.now <= now
  }

  function NextEngine(e: Engine, s: Step): Engine
    requires s.Evaluate? ==> s.rule in e.rules
  {
    match s
    case Evaluate(r, metric, c) => AfterEvaluation(e, r, metric, c)
    case Acknowledge(id) => AfterAcknowledge(e, id)
    case ResolveByUser(id, now) => AfterResolve(e, id, now)
    case Update(r, p) => AfterUpdate(e, r, p)
  }

  predicate Fires(e: Engine, s: Step)
    requires s.Evaluate? ==> s.rule in e.rules
  {
    |NextEngine(e, s).instances| > |e.instances|
  }

  function Next(w: World, s: Step): World
    requires Enabled(w, s)
  {
    var e := NextEngine(w.engine, s);
    match s
    case Evaluate(r, metric, c) =>
      World(e,
            if metric.None? then w.evals
            else w.evals + [Evaluation(r, c.eval, Breaching(w.engine.rules[r], metric.value))],
            if !Fires(w.engine, s) then w.firings
            else w.firings + [FiringRecord(r, c, w.engine.rules[r].params.cooldownSeconds)],
            c.mark)
    case ResolveByUser(_, now) => w.(engine := e, now := now)
    case _ => w.(engine := e)
  }

  const START := World(Engine(map[], map[], [], []), [], [], 0)

  ghost predicate Run(trace: seq<World>, steps: seq<Step>) {
    && |trace| == |steps| + 1 && trace[0] == START
    && forall k :: 0 <= k < |steps| ==> Enabled(trace[k], steps[k]) && trace[k + 1] == Next(trace[k], steps[k])
  }

  // ------------------------------------------- what the history says, on its own

  /** When the rule's current unbroken series of breaching evaluations began. */
  function SeriesStart(evals: seq<Evaluation>, r: RuleId): Option<int> {
    if evals == [] then None
    else
      var before, last := SeriesStart(evals[..|evals| - 1], r), evals[|evals| - 1];
      if last.rule != r then before
      else if !last.breaching then None
      else if before.Some? then before else Some(last.time)
  }

  function LastFiring(firings: seq<FiringRecord>, r: RuleId): Option<FiringRecord> {
    if firings == [] then None
    else if firings[|firings| - 1].rule == r then Some(firings[|firings| - 1])
    else LastFiring(firings[..|firings| - 1], r)
  }

  /** Evaluation `i` opened a series of the rule that no later evaluation broke. */
  ghost predicate Unbroken(evals: seq<Evaluation>, r: RuleId, i: nat) {
    && i < |evals| && evals[i].rule == r
    && forall j :: i <= j < |evals| && evals[j].rule == r ==> evals[j].breaching
  }

  lemma {:induction false} SeriesStartMeaning(evals: seq<Evaluation>, r: RuleId) returns (i: nat)
    requires SeriesStart(evals, r).Some?
    ensures Unbroken(evals, r, i) && evals[i].time == SeriesStart(evals, r).value
  {
    var n := |evals| - 1;
    if evals[n].rule == r && SeriesStart(evals[..n], r).None? {
      i := n;
    } else {
      i := SeriesStartMeaning(evals[..n], r);
      assert forall j :: i <= j < n ==> evals[..n][j] == evals[j];
    }
  }

  // ----------------------------------------------------------------- invariants

  ghost predicate TimersOk(w: World) {
    && (forall r :: r in w.engine.breach ==> 0 < w.engine.breach[r])
    && (forall r :: BreachStart(w.engine, r) == SeriesStart(w.evals, r))
    && (forall r :: r !in w.engine.rules ==> SeriesStart(w.evals, r).None? && LastFiring(w.firings, r).None?)
    && (forall r :: r in w.engine.rules ==>
          w.engine.rules[r].lastTriggeredAt
          == if LastFiring(w.firings, r).Some? then Some(LastFiring(w.firings, r).value.clock.mark) else None)
  }

  /** Firings are in the order of time and, per rule, a cooldown apart. */
  ghost predicate FiringsOk(w: World) {
    && (forall j :: 0 <= j < |w.firings| ==> ClockOk(w.firings[j].clock) && w.firings[j].clock.mark <= w.now)
    && (forall j, k :: 0 <= j < k < |w.firings| ==> w.firings[j].clock.mark <= w.firings[k].clock.eval)
    && (forall j, k :: 0 <= j < k < |w.firings| && w.firings[j].rule == w.firings[k].rule ==>
          Spaced(w.firings[j], w.firings[k]))
  }

  predicate Spaced(earlier: FiringRecord, later: FiringRecord) {
    later.clock.fired - earlier.clock.fired >= 1000 * later.cooldownSeconds
  }

  ghost predicate OneFiring(e: Engine) {
    forall i, j :: 0 <= i < j < |e.instances| && e.instances[i].status == Firing && e.instances[j].status == Firing ==>
                     e.instances[i].ruleId != e.instances[j].ruleId
  }

  function InstancesOf(instances: seq<Instance>, r: RuleId): nat {
    if instances == [] then 0
    else InstancesOf(instances[..|instances| - 1], r) + if instances[|instances| - 1].ruleId == r then 1 else 0
  }

  function Count(events: seq<Event>, e: Event): nat { multiset(events)[e] }

  /** Counters and events agree with the table. */
  ghost predicate BooksOk(e: Engine) {
    && (forall r :: r in e.rules ==> e.rules[r].triggerCount == InstancesOf(e.instances, r))
    && (forall r :: r !in e.rules ==> InstancesOf(e.instances, r) == 0)
    && (forall i: nat :: i < |e.instances| ==> EventsOk(e, i))
    && (forall i: nat :: i >= |e.instances| ==>
          Count(e.emitted, AlertFired(i)) == 0 && Count(e.emitted, AlertResolved(i)) == 0)
  }

  ghost predicate EventsOk(e: Engine, i: nat)
    requires i < |e.instances|
  {
    && Count(e.emitted, AlertFired(i)) == 1
    && Count(e.emitted, AlertResolved(i)) <= (if e.instances[i].status == Resolved then 1 else 0)
  }

  ghost predicate Inv(w: World) { TimersOk(w) && FiringsOk(w) && OneFiring(w.engine) && BooksOk(w.engine) }

  // ------------------------------------------------------- resolving the firing

  lemma {:induction false} ResolveFiringExact(e: Engine, r: RuleId, times: InstanceId -> int, n: nat, i: nat)
    requires n <= |e.instances|
    ensures var d := ResolveFiring(e, r, times, n);
            && d.breach == e.breach && d.rules == e.rules
            && (i < |e.instances| ==>
                  d.instances[i]
                  == if i < n && IsFiring(e.instances[i], r) then Resolve(e.instances[i], times(i)) else e.instances[i])
            && Count(d.emitted, AlertFired(i)) == Count(e.emitted, AlertFired(i))
            && Count(d.emitted, AlertResolved(i))
               == Count(e.emitted, AlertResolved(i)) + if i < n && IsFiring(e.instances[i], r) then 1 else 0
  {
    if n > 0 {
      ResolveFiringExact(e, r, times, n - 1, i);
      if n - 1 != i { ResolveFiringExact(e, r, times, n - 1, n - 1); }
    }
  }

  lemma {:induction false} SameOwnersSameCounts(a: seq<Instance>, b: seq<Instance>, r: RuleId)
    requires |a| == |b| && forall i :: 0 <= i < |a| ==> a[i].ruleId == b[i].ruleId
    ensures InstancesOf(a, r) == InstancesOf(b, r)
  {
    if a != [] {
      SameOwnersSameCounts(a[..|a| - 1], b[..|b| - 1], r);
    }
  }

  lemma {:induction false} NoInstancesOf(instances: seq<Instance>, r: RuleId, i: nat)
    requires InstancesOf(instances, r) == 0 && i < |instances|
    ensures instances[i].ruleId != r
  {
    if i < |instances| - 1 { NoInstancesOf(instances[..|instances| - 1], r, i); }
  }

  /** A non-breaching evaluation leaves no firing instance of the rule. */
  lemma QuietEvaluationResolves(e: Engine, r: RuleId, metric: real, c: Clock)
    requires r in e.rules && !Breaching(e.rules[r], metric)
    ensures !HasFiring(AfterEvaluation(e, r, Some(metric), c).instances, r)
    ensures r !in AfterEvaluation(e, r, Some(metric), c).breach
  {
    var cleared := e.(breach := map k | k in e.breach && k != r :: e.breach[k]);
    var d := ResolveFiring(cleared, r, c.resolved, |e.instances|);
    forall k | 0 <= k < |d.instances| ensures !IsFiring(d.instances[k], r) {
      ResolveFiringExact(cleared, r, c.resolved, |e.instances|, k);
    }
    ResolveFiringExact(cleared, r, c.resolved, |e.instances|, 0);
  }

  // ------------------------------------------------------------ steps keep them

  lemma CountPush(events: seq<Event>, x: Event, y: Event)
    ensures Count(events + [x], y) == Count(events, y) + if x == y then 1 else 0
  {
    assert multiset(events + [x]) == multiset(events) + multiset{x};
  }

  lemma InstancesPush(instances: seq<Instance>, x: Instance, q: RuleId)
    ensures InstancesOf(instances + [x], q) == InstancesOf(instances, q) + if x.ruleId == q then 1 else 0
  {
    assert (instances + [x])[..|instances|] == instances;
  }

  lemma BooksAfterFire(e: Engine, r: RuleId, c: Clock)
    requires BooksOk(e) && r in e.rules
    ensures BooksOk(Fire(e, r, c))
  {
    var d := Fire(e, r, c);
    if !CoolingDown(e.rules[r], c.cool) && !HasFiring(e.instances, r) {
      var n := |e.instances|;
      forall q ensures InstancesOf(d.instances, q) == InstancesOf(e.instances, q) + if q == r then 1 else 0 {
        InstancesPush(e.instances, d.instances[n], q);
      }
      forall i: nat
        ensures Count(d.emitted, AlertFired(i)) == Count(e.emitted, AlertFired(i)) + if i == n then 1 else 0
        ensures Count(d.emitted, AlertResolved(i)) == Count(e.emitted, AlertResolved(i))
      {
        CountPush(e.emitted, AlertFired(n), AlertFired(i));
        CountPush(e.emitted, AlertFired(n), AlertResolved(i));
      }
      forall i: nat | i < |d.instances| ensures EventsOk(d, i) {
        if i < n { assert EventsOk(e, i); }
      }
    }
  }

  lemma BooksAfterQuiet(e: Engine, r: RuleId, times: InstanceId -> int)
    requires BooksOk(e)
    ensures BooksOk(ResolveFiring(e, r, times, |e.instances|))
  {
    var d := ResolveFiring(e, r, times, |e.instances|);
    ResolveFiringExact(e, r, times, |e.instances|, 0);
    forall i: nat | i < |e.instances| ensures d.instances[i].ruleId == e.instances[i].ruleId && EventsOk(d, i) {
      ResolveFiringExact(e, r, times, |e.instances|, i);
      assert EventsOk(e, i);
    }
    forall i: nat | i >= |e.instances|
      ensures Count(d.emitted, AlertFired(i)) == 0 && Count(d.emitted, AlertResolved(i)) == 0
    {
      ResolveFiringExact(e, r, times, |e.instances|, i);
    }
    forall q ensures InstancesOf(d.instances, q) == InstancesOf(e.instances, q) {
      SameOwnersSameCounts(d.instances, e.instances, q);
    }
  }

  lemma BooksStep(w: World, s: Step)
    requires BooksOk(w.engine) && Enabled(w, s)
    ensures BooksOk(Next(w, s).engine)
  {
    var e := w.engine;
    match s
    case Evaluate(r, metric, c) =>
      if metric.Some? {
        if Breaching(e.rules[r], metric.value) {
          BooksAfterFire(e, r, c);
          var d := AfterEvaluation(e, r, metric, c);
          if d.instances == e.instances {
            forall i: nat | i < |e.instances| ensures EventsOk(d, i) { assert EventsOk(e, i); }
          }
        } else {
          var cleared := e.(breach := map k | k in e.breach && k != r :: e.breach[k]);
          forall i: nat | i < |e.instances| ensures EventsOk(cleared, i) { assert EventsOk(e, i); }
          BooksAfterQuiet(cleared, r, c.resolved);
        }
      }
    case _ =>
      var d := NextEngine(e, s);
      forall q ensures InstancesOf(d.instances, q) == InstancesOf(e.instances, q) {
        SameOwnersSameCounts(d.instances, e.instances, q);
      }
      forall i: nat | i < |d.instances| ensures EventsOk(d, i) { assert EventsOk(e, i); }
  }

  lemma OneFiringStep(w: World, s: Step)
    requires OneFiring(w.engine) && Enabled(w, s)
    ensures OneFiring(Next(w, s).engine)
  {
    var e, d := w.engine, NextEngine(w.engine, s);
    match s
    case Evaluate(r, metric, c) =>
      if metric.Some? && !Breaching(e.rules[r], metric.value) {
        forall i: nat | i < |e.instances|
          ensures d.instances[i].ruleId == e.instances[i].ruleId
          ensures d.instances[i].status == Firing ==> e.instances[i].status == Firing
        {
          ResolveFiringExact(e.(breach := map k | k in e.breach && k != r :: e.breach[k]),
                             r, c.resolved, |e.instances|, i);
        }
      } else if d.instances != e.instances {
        forall i | 0 <= i < |e.instances| && e.instances[i].status == Firing ensures e.instances[i].ruleId != r {
          assert !IsFiring(e.instances[i], r);
        }
      }
    case _ =>
  }

  lemma SeriesPush(evals: seq<Evaluation>, x: Evaluation, r: RuleId)
    ensures SeriesStart(evals + [x], r)
            == if x.rule != r then SeriesStart(evals, r)
               else if !x.breaching then None
               else if SeriesStart(evals, r).Some? then SeriesStart(evals, r) else Some(x.time)
  {
    assert (evals + [x])[..|evals|] == evals;
  }

  lemma LastFiringPush(firings: seq<FiringRecord>, x: FiringRecord, r: RuleId)
    ensures LastFiring(firings + [x], r) == if x.rule == r then Some(x) else LastFiring(firings, r)
  {
    assert (firings + [x])[..|firings|] == firings;
  }

  /** The timer table after an evaluation, rule by rule. */
  lemma TimerAfter(e: Engine, r: RuleId, metric: real, c: Clock, q: RuleId)
    requires r in e.rules && ClockOk(c)
    ensures var d := AfterEvaluation(e, r, Some(metric), c);
            && d.rules.Keys == e.rules.Keys
            && BreachStart(d, q)
               == (if q != r then BreachStart(e, q)
                   else if !Breaching(e.rules[r], metric) then None
                   else if BreachStart(e, r).Some? then BreachStart(e, r) else Some(c.eval))
            && (q in d.breach ==> (q in e.breach && d.breach[q] == e.breach[q]) || d.breach[q] == c.eval)
            && (q in e.rules ==> d.rules[q].lastTriggeredAt
                                 == (if q == r && |d.instances| > |e.instances| then Some(c.mark)
                                     else e.rules[q].lastTriggeredAt))
  {
    if !Breaching(e.rules[r], metric) {
      var cleared := e.(breach := map k | k in e.breach && k != r :: e.breach[k]);
      ResolveFiringExact(cleared, r, c.resolved, |e.instances|, 0);
    }
  }

  /** An evaluation, seen by one rule. */
  lemma EvaluationAt(w: World, r: RuleId, metric: real, c: Clock, q: RuleId)
    requires TimersOk(w) && Enabled(w, Evaluate(r, Some(metric), c))
    ensures var v := Next(w, Evaluate(r, Some(metric), c));
            var rec := FiringRecord(r, c, w.engine.rules[r].params.cooldownSeconds);
            && v.engine.rules.Keys == w.engine.rules.Keys
            && (q in v.engine.breach ==> 0 < v.engine.breach[q])
            && BreachStart(v.engine, q) == SeriesStart(v.evals, q)
            && LastFiring(v.firings, q)
               == (if v.firings != w.firings && q == r then Some(rec) else LastFiring(w.firings, q))
            && (q in w.engine.rules ==>
                  v.engine.rules[q].lastTriggeredAt
                  == if q == r && v.firings != w.firings then Some(c.mark) else w.engine.rules[q].lastTriggeredAt)
  {
    TimerAfter(w.engine, r, metric, c, q);
    SeriesPush(w.evals, Evaluation(r, c.eval, Breaching(w.engine.rules[r], metric)), q);
    LastFiringPush(w.firings, FiringRecord(r, c, w.engine.rules[r].params.cooldownSeconds), q);
  }

  lemma TimersStep(w: World, s: Step)
    requires TimersOk(w) && Enabled(w, s)
    ensures TimersOk(Next(w, s))
  {
    var v := Next(w, s);
    match s
    case Evaluate(r, metric, c) =>
      if metric.Some? {
        TimerAfter(w.engine, r, metric.value, c, r);
        forall q
          ensures q in v.engine.breach ==> 0 < v.engine.breach[q]
          ensures BreachStart(v.engine, q) == SeriesStart(v.evals, q)
          ensures LastFiring(v.firings, q)
                  == if v.firings != w.firings && q == r
                     then Some(FiringRecord(r, c, w.engine.rules[r].params.cooldownSeconds))
                     else LastFiring(w.firings, q)
          ensures q in w.engine.rules ==>
                    v.engine.rules[q].lastTriggeredAt
                    == if q == r && v.firings != w.firings then Some(c.mark) else w.engine.rules[q].lastTriggeredAt
        {
          EvaluationAt(w, r, metric.value, c, q);
        }
      }
    case _ =>
  }

  lemma {:induction false} LastFiringIsLast(firings: seq<FiringRecord>, r: RuleId, j: nat)
    requires j < |firings| && firings[j].rule == r
    ensures LastFiring(firings, r).Some?
    ensures exists k :: j <= k < |firings| && firings[k].rule == r && LastFiring(firings, r).value == firings[k]
  {
    var n := |firings| - 1;
    if firings[n].rule != r {
      LastFiringIsLast(firings[..n], r, j);
      var k :| j <= k < n && firings[..n][k].rule == r && LastFiring(firings[..n], r).value == firings[..n][k];
      assert firings[k] == firings[..n][k];
    }
  }

  lemma FiringsStep(w: World, s: Step)
    requires TimersOk(w) && FiringsOk(w) && Enabled(w, s)
    ensures FiringsOk(Next(w, s))
  {
    var v := Next(w, s);
    match s
    case Evaluate(r, metric, c) =>
      if v.firings != w.firings {
        var rec := v.firings[|w.firings|];
        assert v.firings == w.firings + [rec];
        assert !CoolingDown(w.engine.rules[r], c.cool);
        forall j | 0 <= j < |w.firings| && w.firings[j].rule == r ensures Spaced(w.firings[j], rec) {
          LastFiringIsLast(w.firings, r, j);
          var k :| j <= k < |w.firings| && w.firings[k].rule == r && LastFiring(w.firings, r).value == w.firings[k];
          assert ClockOk(w.firings[j].clock) && ClockOk(w.firings[k].clock);
        }
      }
    case _ =>
  }

  lemma {:induction false} RunKeepsInv(trace: seq<World>, steps: seq<Step>, k: nat)
    requires Run(trace, steps) && k < |trace|
    ensures Inv(trace[k])
  {
    if k > 0 {
      RunKeepsInv(trace, steps, k - 1);
      var w, s := trace[k - 1], steps[k - 1];
      assert Enabled(w, s) && trace[k] == Next(w, s);
      TimersStep(w, s);
      FiringsStep(w, s);
      OneFiringStep(w, s);
      BooksStep(w, s);
    }
  }

  // --------------------------------------------------------------- main results

  /** Whenever an alert fires, an evaluation at least the duration earlier was
      breaching and so was every evaluation of the rule since, this one included. */
  lemma FiringJustified(trace: seq<World>, steps: seq<Step>, k: nat) returns (i: nat)
    requires Run(trace, steps) && k < |steps| && steps[k].Evaluate? && Fires(trace[k].engine, steps[k])
    ensures var r, after := steps[k].rule, trace[k + 1].evals;
            && Unbroken(after, r, i) && i < |after| - 1
            && after[|after| - 1] == Evaluation(r, steps[k].clock.eval, true)
            && steps[k].clock.fired - after[i].time >= 1000 * trace[k].engine.rules[r].params.durationSeconds
  {
    RunKeepsInv(trace, steps, k);
    var w, r := trace[k], steps[k].rule;
    assert trace[k + 1] == Next(w, steps[k]) && Enabled(w, steps[k]);
    assert steps[k].metric.Some?;
    QuietKeepsLength(w.engine, r, steps[k].metric.value, steps[k].clock);
    i := SeriesStartMeaning(w.evals, r);
  }

  lemma QuietKeepsLength(e: Engine, r: RuleId, metric: real, c: Clock)
    requires r in e.rules
    ensures !Breaching(e.rules[r], metric) ==> |AfterEvaluation(e, r, Some(metric), c).instances| == |e.instances|
  {}

  /** Any two firings of a rule are at least the (later) cooldown apart. */
  lemma FiringsSpaced(trace: seq<World>, steps: seq<Step>, n: nat, j: nat, k: nat)
    requires Run(trace, steps) && n < |trace| && j < k < |trace[n].firings|
    requires trace[n].firings[j].rule == trace[n].firings[k].rule
    ensures var earlier, later := trace[n].firings[j], trace[n].firings[k];
            later.clock.fired - earlier.clock.fired >= 1000 * later.cooldownSeconds
  {
    RunKeepsInv(trace, steps, n);
  }

  /** The exact firing condition, in terms of the history alone: this evaluation
      breaches, the unbroken series of breaches is old enough, the last firing is a
      cooldown ago, and no instance is firing. */
  lemma FiresIff(trace: seq<World>, steps: seq<Step>, k: nat)
    requires Run(trace, steps) && k < |steps| && steps[k].Evaluate? && steps[k].metric.Some?
    requires Enabled(trace[k], steps[k])
    ensures var w, r, c := trace[k], steps[k].rule, steps[k].clock;
            var p, since, last := w.engine.rules[r].params, SeriesStart(w.evals, r), LastFiring(w.firings, r);
            Fires(w.engine, steps[k]) <==>
            && CheckThreshold(steps[k].metric.value, p.threshold, p.operator)
            && since.Some? && c.eval - since.value >= 1000 * p.durationSeconds
            && (last.Some? ==> c.cool - last.value.clock.mark >= 1000 * p.cooldownSeconds)
            && !HasFiring(w.engine.instances, r)
  {
    RunKeepsInv(trace, steps, k);
    var w, r := trace[k], steps[k].rule;
    QuietKeepsLength(w.engine, r, steps[k].metric.value, steps[k].clock);
  }

  /** In every reachable state: one firing instance per rule at most, trigger counts
      equal to the instances made, one fired event per instance and at most one
      resolved event, the latter only for a resolved instance. */
  lemma BooksBalance(trace: seq<World>, steps: seq<Step>, k: nat)
    requires Run(trace, steps) && k < |trace|
    ensures OneFiring(trace[k].engine) && BooksOk(trace[k].engine)
  {
    RunKeepsInv(trace, steps, k);
  }

  /** The operators are the order of the numbers: of below, equal and above exactly one breaches,
      the other three are their negations, the threshold itself breaches where equality counts,
      and going further never ends a breach. */
  lemma OperatorsAreTheOrder(value: real, more: real, threshold: real)
    requires value <= more
    ensures CheckThreshold(value, threshold, Gt) ==> CheckThreshold(more, threshold, Gt)
    ensures CheckThreshold(value, threshold, Gte) ==> CheckThreshold(more, threshold, Gte)
    ensures CheckThreshold(more, threshold, Lt) ==> CheckThreshold(value, threshold, Lt)
    ensures CheckThreshold(more, threshold, Lte) ==> CheckThreshold(value, threshold, Lte)
    ensures CheckThreshold(value, threshold, Gt) || CheckThreshold(value, threshold, Lt)
            || CheckThreshold(value, threshold, Eq)
    ensures !(CheckThreshold(value, threshold, Gt) && CheckThreshold(value, threshold, Lt))
    ensures CheckThreshold(value, threshold, Eq) ==>
              !CheckThreshold(value, threshold, Gt) && !CheckThreshold(value, threshold, Lt)
    ensures CheckThreshold(value, threshold, Gte) == !CheckThreshold(value, threshold, Lt)
    ensures CheckThreshold(value, threshold, Lte) == !CheckThreshold(value, threshold, Gt)
    ensures CheckThreshold(value, threshold, Ne) == !CheckThreshold(value, threshold, Eq)
    ensures CheckThreshold(threshold, threshold, Eq) && CheckThreshold(threshold, threshold, Gte)
    ensures CheckThreshold(threshold, threshold, Lte)
    ensures CheckThreshold(value, threshold, Eq) && CheckThreshold(more, threshold, Eq) ==> value == more
  {}

  /** The firing condition in numbers, operator by operator. */
  lemma FiresInNumbers(trace: seq<World>, steps: seq<Step>, k: nat)
    requires Run(trace, steps) && k < |steps| && steps[k].Evaluate? && steps[k].metric.Some?
    requires Enabled(trace[k], steps[k])
    ensures var w, r, c, value := trace[k], steps[k].rule, steps[k].clock, steps[k].metric.value;
            var p, since, last := w.engine.rules[r].params, SeriesStart(w.evals, r), LastFiring(w.firings, r);
            var ready := && since.Some? && c.eval - since.value >= 1000 * p.durationSeconds
                         && (last.Some? ==> c.cool - last.value.clock.mark >= 1000 * p.cooldownSeconds)
                         && !HasFiring(w.engine.instances, r);
            && (p.operator == Gt ==> (Fires(w.engine, steps[k]) <==> ready && value > p.threshold))
            && (p.operator == Lt ==> (Fires(w.engine, steps[k]) <==> ready && value < p.threshold))
            && (p.operator == Eq ==> (Fires(w.engine, steps[k]) <==> ready && value == p.threshold))
            && (p.operator == Ne ==> (Fires(w.engine, steps[k]) <==> ready && value != p.threshold))
            && (p.operator == Gte ==> (Fires(w.engine, steps[k]) <==> ready && value >= p.threshold))
            && (p.operator == Lte ==> (Fires(w.engine, steps[k]) <==> ready && value <= p.threshold))
  {
    FiresIff(trace, steps, k);
  }

  /** What a firing leaves: one more instance, firing since that moment, one more on the rule's
      counter, its time on the rule, one more event; nothing else of the engine changes. */
  lemma FiringLeaves(e: Engine, r: RuleId, metric: Option<real>, c: Clock)
    requires r in e.rules && |AfterEvaluation(e, r, metric, c).instances| > |e.instances|
    ensures var d := AfterEvaluation(e, r, metric, c);
            && d.instances == e.instances + [Instance(r, Firing, c.fired, None)]
            && d.emitted == e.emitted + [AlertFired(|e.instances|)]
            && d.rules.Keys == e.rules.Keys && (forall q :: q in e.rules && q != r ==> d.rules[q] == e.rules[q])
            && d.rules[r].lastTriggeredAt == Some(c.mark) && d.rules[r].triggerCount == e.rules[r].triggerCount + 1
            && d.rules[r].params == e.rules[r].params && d.breach == e.breach
  {
    if metric.Some? { QuietKeepsLength(e, r, metric.value, c); }
  }

  predicate Allowed(before: Status, after: Status) {
    before == after || (before == Firing && after == Acknowledged) || after == Resolved
  }

  /** No step takes an instance backwards, and none touches a resolved one. */
  lemma StatusOnlyAdvances(w: World, s: Step, i: InstanceId)
    requires Enabled(w, s) && i < |w.engine.instances|
    ensures var e, d := w.engine, NextEngine(w.engine, s);
            && |e.instances| <= |d.instances|
            && Allowed(e.instances[i].status, d.instances[i].status)
            && d.instances[i].ruleId == e.instances[i].ruleId && d.instances[i].firedAt == e.instances[i].firedAt
            && (e.instances[i].status == Resolved ==> d.instances[i] == e.instances[i])
            && (s.Evaluate? && e.instances[i].status == Acknowledged ==> d.instances[i] == e.instances[i])
  {
    match s
    case Evaluate(r, metric, c) =>
      if metric.Some? && !Breaching(w.engine.rules[r], metric.value) {
        ResolveFiringExact(w.engine.(breach := map k | k in w.engine.breach && k != r :: w.engine.breach[k]),
                           r, c.resolved, |w.engine.instances|, i);
      }
    case _ =>
  }

  /** Editing a rule gives it the new parameters and keeps its history; a new rule has none.
      Nothing else changes: no instance, no timer, no other rule. */
  lemma UpdateExact(w: World, r: RuleId, p: Params)
    ensures Enabled(w, Update(r, p))
    ensures var e, d := w.engine, Next(w, Update(r, p)).engine;
            && d == e.(rules := e.rules[r := d.rules[r]]) && d.rules[r].params == p
            && (r in e.rules ==> d.rules[r].lastTriggeredAt == e.rules[r].lastTriggeredAt
                                 && d.rules[r].triggerCount == e.rules[r].triggerCount)
            && (r !in e.rules ==> d.rules[r].lastTriggeredAt.None? && d.rules[r].triggerCount == 0)
  {}

  /** Users can act at any time, and enabled rules be evaluated. */
  lemma CanHappen(w: World, id: InstanceId, now: int, r: RuleId, metric: Option<real>, times: InstanceId -> int)
    requires w.now <= now && 0 < now
    ensures Enabled(w, Acknowledge(id)) && Enabled(w, ResolveByUser(id, now))
    ensures Next(w, ResolveByUser(id, now)).now == now
    ensures Enabled(w, Evaluate(r, metric, Clock(now, now, now, now, times)))
            <==> r in w.engine.rules && w.engine.rules[r].params.enabled
  {}

  /** The step resolves instance i: a user does, or an evaluation of its rule that does not breach
      while it fires. */
  predicate Resolves(w: World, s: Step, i: InstanceId) {
    i < |w.engine.instances| && w.engine.instances[i].status != Resolved
    && match s
       case ResolveByUser(id, _) => id == i
       case Evaluate(r, metric, _) =>
         r in w.engine.rules && metric.Some? && !Breaching(w.engine.rules[r], metric.value)
         && IsFiring(w.engine.instances[i], r)
       case _ => false
  }

  predicate Acknowledges(w: World, s: Step, i: InstanceId) {
    s == Acknowledge(i) && i < |w.engine.instances| && w.engine.instances[i].status == Firing
  }

  /** When the step resolves it. */
  function ResolvedWhen(s: Step, i: InstanceId): int {
    match s
    case Evaluate(_, _, c) => c.resolved(i)
    case ResolveByUser(_, now) => now
    case _ => 0
  }

  predicate HasStatus(w: World, i: InstanceId, status: Status) {
    i < |w.engine.instances| && w.engine.instances[i].status == status
  }

  lemma StepStatus(w: World, s: Step, i: InstanceId)
    requires Enabled(w, s)
    ensures var v := Next(w, s);
            && (HasStatus(v, i, Resolved) <==> HasStatus(w, i, Resolved) || Resolves(w, s, i))
            && (HasStatus(v, i, Acknowledged)
                <==> (HasStatus(w, i, Acknowledged) || Acknowledges(w, s, i)) && !Resolves(w, s, i))
            && (Resolves(w, s, i) ==> v.engine.instances[i].resolvedAt == Some(ResolvedWhen(s, i)))
            && (i < |w.engine.instances| && !Resolves(w, s, i) && !Acknowledges(w, s, i) ==>
                  i < |v.engine.instances| && v.engine.instances[i] == w.engine.instances[i])
  {
    match s
    case Evaluate(r, metric, c) =>
      if metric.Some? && !Breaching(w.engine.rules[r], metric.value) {
        ResolveFiringExact(w.engine.(breach := map k | k in w.engine.breach && k != r :: w.engine.breach[k]),
                           r, c.resolved, |w.engine.instances|, i);
      }
    case _ =>
  }

  /** Over whole runs: an instance is resolved exactly when some step resolved it, and stays
      unchanged by every step that neither resolves nor acknowledges it. */
  lemma {:induction false} ResolvedIff(trace: seq<World>, steps: seq<Step>, k: nat, i: InstanceId)
    requires Run(trace, steps) && k < |trace|
    ensures HasStatus(trace[k], i, Resolved) <==> exists j :: 0 <= j < k && Resolves(trace[j], steps[j], i)
  {
    if k > 0 {
      ResolvedIff(trace, steps, k - 1, i);
      StepStatus(trace[k - 1], steps[k - 1], i);
    }
  }

  /** And acknowledged exactly when it was while firing, and has not been resolved. */
  lemma {:induction false} AcknowledgedIff(trace: seq<World>, steps: seq<Step>, k: nat, i: InstanceId)
    requires Run(trace, steps) && k < |trace|
    ensures HasStatus(trace[k], i, Acknowledged)
            <==> !HasStatus(trace[k], i, Resolved)
                 && exists j :: 0 <= j < k && Acknowledges(trace[j], steps[j], i)
  {
    if k > 0 {
      AcknowledgedIff(trace, steps, k - 1, i);
      StepStatus(trace[k - 1], steps[k - 1], i);
      AcknowledgedWas(trace, steps, k - 1, i);
    }
  }

  lemma {:induction false} AcknowledgedWas(trace: seq<World>, steps: seq<Step>, k: nat, i: InstanceId)
    requires Run(trace, steps) && k < |trace|
    ensures (exists j :: 0 <= j < k && Acknowledges(trace[j], steps[j], i)) ==>
              HasStatus(trace[k], i, Acknowledged) || HasStatus(trace[k], i, Resolved)
  {
    if k > 0 {
      AcknowledgedWas(trace, steps, k - 1, i);
      StepStatus(trace[k - 1], steps[k - 1], i);
    }
  }

  // ------------------------------------------------------------------ services

  class AlertEngineService {
    var breachTimestamps: map<RuleId, int>
    var rules: map<RuleId, Rule>
    var instances: seq<Instance>
    var emitted: seq<Event>

    ghost function State(): Engine
      reads this
    {
      Engine(breachTimestamps, rules, instances, emitted)
    }

    constructor ()
      ensures State() == START.engine
    {
      breachTimestamps, rules, instances, emitted := map[], map[], [], [];
    }

    method EvaluateRule(r: RuleId, metric: Option<real>, c: Clock)
      requires r in rules
      modifies this
      ensures State() == AfterEvaluation(old(State()), r, metric, c)
    {
      if metric.None? { return; }
      var rule := rules[r];
      var isBreaching := CheckThreshold(metric.value, rule.params.threshold, rule.params.operator);
      if isBreaching {
        if r !in breachTimestamps || breachTimestamps[r] == 0 {
          breachTimestamps := breachTimestamps[r := c.eval];
        } else {
          var breachDuration := c.eval - breachTimestamps[r];
          if breachDuration >= 1000 * rule.params.durationSeconds {
            HandleAlertFiring(r, c);
          }
        }
      } else {
        breachTimestamps := map k | k in breachTimestamps && k != r :: breachTimestamps[k];
        HandleAlertResolved(r, c.resolved);
      }
    }

    method HandleAlertFiring(r: RuleId, c: Clock)
      requires r in rules
      modifies this
      ensures State() == Fire(old(State()), r, c)
    {
      var rule := rules[r];
      if rule.lastTriggeredAt.Some? {
        var timeSinceLastTrigger := c.cool - rule.lastTriggeredAt.value;
        if timeSinceLastTrigger < 1000 * rule.params.cooldownSeconds { return; }
      }
      for k := 0 to |instances|
        invariant State() == old(State())
        invariant forall j :: 0 <= j < k ==> !IsFiring(instances[j], r)
      {
        if IsFiring(instances[k], r) { return; }
      }
      var id := |instances|;
      instances := instances + [Instance(r, Firing, c.fired, None)];
      rules := rules[r := Rule(rule.params, Some(c.mark), rule.triggerCount + 1)];
      emitted := emitted + [AlertFired(id)];
    }

    method HandleAlertResolved(r: RuleId, times: InstanceId -> int)
      modifies this`instances, this`emitted
      ensures State() == ResolveFiring(old(State()), r, times, |old(instances)|)
    {
      for k := 0 to |instances|
        invariant |instances| == |old(instances)|
        invariant State() == ResolveFiring(old(State()), r, times, k)
      {
        if IsFiring(instances[k], r) {
          instances := instances[k := Resolve(instances[k], times(k))];
          emitted := emitted + [AlertResolved(k)];
        }
      }
    }

    /** Returns false where the source throws. */
    method AcknowledgeAlert(id: InstanceId) returns (ok: bool)
      modifies this`instances
      ensures State() == AfterAcknowledge(old(State()), id)
      ensures ok <==> id < |old(instances)| && old(instances)[id].status == Firing
    {
      if id >= |instances| || instances[id].status != Firing { return false; }
      instances := instances[id := instances[id].(status := Acknowledged)];
      ok := true;
    }

    method ResolveAlert(id: InstanceId, now: int) returns (ok: bool)
      modifies this`instances
      ensures State() == AfterResolve(old(State()), id, now)
      ensures ok <==> id < |old(instances)| && old(instances)[id].status != Resolved
    {
      if id >= |instances| || instances[id].status == Resolved { return false; }
      instances := instances[id := Resolve(instances[id], now)];
      ok := true;
    }
  }
}
