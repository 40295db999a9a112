/** The axios response interceptor: the first request answered 401 leads a token
    refresh, the others queue behind it until the refresh call settles. */
module RefreshQueue {
  import opened Text

  type RequestId = nat
  type EntryId = nat
  type Token = string

  // -------------------------------------------------------------------- states

  datatype Outcome = Resolved(token: Token) | Rejected

  /** Who waits on a queued promise: an ordinary request, or the refresh call
      itself, whose 401 goes through the same interceptor. */
  datatype Owner = Follower(request: RequestId) | RefreshCall

  /** A `{ resolve, reject }` pair; `settled` counts how often either was called. */
  datatype Entry = Entry(owner: Owner, settled: nat, outcome: Option<Outcome>)

  datatype Phase = InFlight | Queued(entry: EntryId) | Leading | Finished(ok: bool)

  /** `retried` is the `_retry` mark on the request's config; `led` is history. */
  datatype Request = Request(phase: Phase, retried: bool, led: nat)

  /** `Stuck`: the refresh call was itself answered 401 and waits in its own queue. */
  datatype Refresh = Idle | Running(leader: RequestId) | Stuck(leader: RequestId, entry: EntryId)

  datatype Client = Client(
    isRefreshing: bool,
    failedQueue: seq<EntryId>,
    entries: map<EntryId, Entry>,
    nextEntry: EntryId,
    requests: map<RequestId, Request>,
    refresh: Refresh)

  datatype Reply = Ok | Unauthorized | OtherError
  datatype RefreshReply = NewToken(token: Token) | RefreshUnauthorized | RefreshError

  datatype Step =
    | Send(r: RequestId)
    | Answer(r: RequestId, reply: Reply)
    | AnswerRefresh(outcome: RefreshReply)
    | Continue(e: EntryId)

  // --------------------------------------------------------------------- steps

  function Settle(e: Entry, o: Outcome): Entry {
    // A promise keeps the first outcome it is given.
    Entry(e.owner, e.settled + 1, if e.outcome.None? then Some(o) else e.outcome)
  }

  /** `processQueue`: one call of resolve or reject per queued pair, in queue order. */
  function SettleAll(entries: map<EntryId, Entry>, queue: seq<EntryId>, o: Outcome): (r: map<EntryId, Entry>)
    requires forall e :: e in queue ==> e in entries
    ensures r.Keys == entries.Keys
  {
    if queue == [] then entries
    else
      var last := queue[|queue| - 1];
      var before := SettleAll(entries, queue[..|queue| - 1], o);
      before[last := Settle(before[last], o)]
  }

  function Enqueue(c: Client, owner: Owner): Client {
    c.(failedQueue := c.failedQueue + [c.nextEntry],
       entries := c.entries[c.nextEntry := Entry(owner, 0, None)],
       nextEntry := c.nextEntry + 1)
  }

  function SetPhase(c: Client, r: RequestId, p: Phase): Client
    requires r in c.requests
  {
    c.(requests := c.requests[r := c.requests[r].(phase := p)])
  }

  function OnUnauthorized(c: Client, r: RequestId): Client
    requires r in c.requests
  {
    if c.requests[r].retried then SetPhase(c, r, Finished(false))
    else if c.isRefreshing then SetPhase(Enqueue(c, Follower(r)), r, Queued(c.nextEntry))
    else
      c.(isRefreshing := true,
         requests := c.requests[r := Request(Leading, true, c.requests[r].led + 1)],
         refresh := Running(r))
  }

  predicate QueueKnown(c: Client) { forall e :: e in c.failedQueue ==> e in c.entries }

  function OnRefreshSettled(c: Client, leader: RequestId, o: Outcome): Client
    requires leader in c.requests && QueueKnown(c)
  {
    var flushed := c.(entries := SettleAll(c.entries, c.failedQueue, o), failedQueue := []);
    SetPhase(flushed, leader, if o.Resolved? then InFlight else Finished(false))
      .(isRefreshing := false, refresh := Idle)
  }

  function OnContinue(c: Client, e: EntryId): Client
    requires e in c.entries
  {
    match c.entries[e].owner
    case RefreshCall => c
    case Follower(r) =>
      if c.entries[e].outcome.None? || r !in c.requests || c.requests[r].phase != Queued(e) then c
      else SetPhase(c, r, if c.entries[e].outcome.value.Resolved? then InFlight else Finished(false))
  }

  /** Which events can happen. */
  predicate Enabled(c: Client, s: Step) {
    match s
    case Send(r) => r !in c.requests
    case Answer(r, _) => r in c.requests && c.requests[r].phase == InFlight
    case AnswerRefresh(_) => c.refresh.Running? && c.refresh.leader in c.requests && QueueKnown(c)
    case Continue(e) => e in c.entries
  }

  function Next(c: Client, s: Step): Client
    requires Enabled(c, s)
  {
    match s
    case Send(r) => c.(requests := c.requests[r := Request(InFlight, false, 0)])
    case Answer(r, Ok) => SetPhase(c, r, Finished(true))
    case Answer(r, OtherError) => SetPhase(c, r, Finished(false))
    case Answer(r, Unauthorized) => OnUnauthorized(c, r)
    case AnswerRefresh(NewToken(token)) => OnRefreshSettled(c, c.refresh.leader, Resolved(token))
    case AnswerRefresh(RefreshError) => OnRefreshSettled(c, c.refresh.leader, Rejected)
    case AnswerRefresh(RefreshUnauthorized) =>
      Enqueue(c, RefreshCall).(refresh := Stuck(c.refresh.leader, c.nextEntry))
    case Continue(e) => OnContinue(c, e)
  }

  const START := Client(false, [], map[], 0, map[], Idle)

  ghost predicate Run(trace: seq<Client>, steps: seq<Step>) {
    && |trace| == |steps| + 1
    && forall k :: 0 <= k < |steps| ==> Enabled(trace[k], steps[k]) && trace[k + 1] == Next(trace[k], steps[k])
  }

  // ----------------------------------------------------------------- invariant

  predicate Distinct(q: seq<EntryId>) { forall i, j :: 0 <= i < j < |q| ==> q[i] != q[j] }

  /** One leader at most, and it is the request the refresh call belongs to. */
  ghost predicate LeaderOk(c: Client) {
    && (c.isRefreshing <==> !c.refresh.Idle?)
    && (!c.refresh.Idle? ==> c.refresh.leader in c.requests && c.requests[c.refresh.leader].phase == Leading)
    && (forall r :: r in c.requests && c.requests[r].phase == Leading ==> !c.refresh.Idle? && c.refresh.leader == r)
  }

  predicate Leads(c: Client, r: RequestId) { r in c.requests && c.requests[r].phase == Leading }

  ghost predicate RequestsOk(c: Client) {
    forall r :: r in c.requests ==>
      && c.requests[r].led == (if c.requests[r].retried then 1 else 0)
      && (c.requests[r].phase == Leading ==> c.requests[r].retried)
      && (c.requests[r].phase.Queued? ==> !c.requests[r].retried && OwnedBy(c, c.requests[r].phase.entry, r))
  }

  predicate OwnedBy(c: Client, e: EntryId, r: RequestId) {
    e in c.entries && c.entries[e].owner == Follower(r)
  }

  /** The queue holds exactly the promises nobody has settled yet. */
  ghost predicate QueueOk(c: Client) {
    && QueueKnown(c) && Distinct(c.failedQueue)
    && (c.failedQueue != [] ==> c.isRefreshing)
    && (forall e :: e in c.entries ==> e < c.nextEntry && EntryOk(c, e))
    && (c.refresh.Stuck? ==> c.refresh.entry in c.failedQueue)
  }

  ghost predicate EntryOk(c: Client, e: EntryId)
    requires e in c.entries
  {
    && c.entries[e].settled == (if e in c.failedQueue then 0 else 1)
    && (c.entries[e].outcome.None? <==> e in c.failedQueue)
  }

  ghost predicate Inv(c: Client) { LeaderOk(c) && RequestsOk(c) && QueueOk(c) }

  /** Distinct entries are settled once each, all the same way, and no others. */
  lemma {:induction false} SettleAllExact(entries: map<EntryId, Entry>, queue: seq<EntryId>, o: Outcome, e: EntryId)
    requires (forall k :: k in queue ==> k in entries) && Distinct(queue) && e in entries
    ensures SettleAll(entries, queue, o)[e] == if e in queue then Settle(entries[e], o) else entries[e]
  {
    if queue != [] {
      var init, last := queue[..|queue| - 1], queue[|queue| - 1];
      assert queue == init + [last];
      assert last !in init;
      SettleAllExact(entries, init, o, e);
    }
  }

  lemma EnqueueKeeps(c: Client, owner: Owner)
    requires QueueOk(c) && c.isRefreshing
    ensures QueueOk(Enqueue(c, owner))
  {
    var d := Enqueue(c, owner);
    assert c.nextEntry !in c.failedQueue;
    forall e | e in d.entries ensures e < d.nextEntry && EntryOk(d, e) {
      if e != c.nextEntry { assert EntryOk(c, e); }
    }
  }

  /** The step in which the refresh call settles: every promise queued at that moment
      is settled exactly once and with the same outcome, no other promise is touched,
      the queue is empty and the flag is down. */
  lemma SettlingStep(c: Client, o: Outcome)
    requires Inv(c) && c.refresh.Running?
    ensures var d := OnRefreshSettled(c, c.refresh.leader, o);
            && Inv(d)
            && d.failedQueue == [] && !d.isRefreshing && d.refresh.Idle?
            && d.entries.Keys == c.entries.Keys
            && (forall e :: e in c.failedQueue ==>
                  d.entries[e].settled == c.entries[e].settled + 1 == 1 && d.entries[e].outcome == Some(o))
            && (forall e :: e in c.entries && e !in c.failedQueue ==> d.entries[e] == c.entries[e])
  {
    var d := OnRefreshSettled(c, c.refresh.leader, o);
    forall e | e in c.entries
      ensures d.entries[e] == if e in c.failedQueue then Settle(c.entries[e], o) else c.entries[e]
      ensures EntryOk(d, e)
    {
      SettleAllExact(c.entries, c.failedQueue, o, e);
      assert EntryOk(c, e);
    }
  }

  lemma StepKeepsInv(c: Client, s: Step)
    requires Inv(c) && Enabled(c, s)
    ensures Inv(Next(c, s))
  {
    match s
    case Answer(r, Unauthorized) =>
      if !c.requests[r].retried && c.isRefreshing { EnqueueKeeps(c, Follower(r)); }
    case AnswerRefresh(NewToken(token)) => SettlingStep(c, Resolved(token));
    case AnswerRefresh(RefreshError) => SettlingStep(c, Rejected);
    case AnswerRefresh(RefreshUnauthorized) => EnqueueKeeps(c, RefreshCall);
    case _ => QueueUntouched(c, s);
  }

  /** A step that neither queues nor settles. */
  lemma QueueUntouched(c: Client, s: Step)
    requires Inv(c) && Enabled(c, s) && (s.Send? || s.Continue? || (s.Answer? && !s.reply.Unauthorized?))
    ensures Inv(Next(c, s))
  {
    var d := Next(c, s);
    assert d.entries == c.entries && d.failedQueue == c.failedQueue;
    assert forall e :: e in c.entries ==> EntryOk(c, e) ==> EntryOk(d, e);
  }

  lemma {:induction false} RunKeepsInv(trace: seq<Client>, steps: seq<Step>, k: nat)
    requires Run(trace, steps) && trace[0] == START && k < |trace|
    ensures Inv(trace[k])
  {
    if k > 0 {
      RunKeepsInv(trace, steps, k - 1);
      StepKeepsInv(trace[k - 1], steps[k - 1]);
    }
  }

  /** In every reachable state: at most one request leads, a waiting queue means a
      refresh under way, no request has led twice, no promise was settled twice, and
      nobody waits on an unsettled promise unless a refresh is under way. */
  lemma ProtocolSafety(trace: seq<Client>, steps: seq<Step>, k: nat)
    requires Run(trace, steps) && trace[0] == START && k < |trace|
    ensures var c := trace[k];
            && (forall r1, r2 :: Leads(c, r1) && Leads(c, r2) ==> r1 == r2)
            && (c.failedQueue != [] ==> c.isRefreshing)
            && (forall r :: r in c.requests ==> c.requests[r].led <= 1)
            && (forall e :: e in c.entries ==> c.entries[e].settled <= 1)
            && (!c.isRefreshing ==> forall r :: r in c.requests && c.requests[r].phase.Queued? ==>
                  c.requests[r].phase.entry in c.entries && c.entries[c.requests[r].phase.entry].outcome.Some?)
  {
    RunKeepsInv(trace, steps, k);
    var c := trace[k];
    forall e | e in c.entries ensures c.entries[e].settled <= 1 { assert EntryOk(c, e); }
    if !c.isRefreshing {
      forall r | r in c.requests && c.requests[r].phase.Queued?
        ensures c.requests[r].phase.entry in c.entries && c.entries[c.requests[r].phase.entry].outcome.Some?
      {
        assert OwnedBy(c, c.requests[r].phase.entry, r);
        assert EntryOk(c, c.requests[r].phase.entry);
      }
    }
  }

  /** A promise only changes in a step in which the refresh call settles. */
  lemma OnlySettlingSettles(c: Client, s: Step, e: EntryId)
    requires Inv(c) && Enabled(c, s) && e in c.entries
    requires !s.AnswerRefresh? || s.outcome.RefreshUnauthorized?
    ensures Next(c, s).entries[e] == c.entries[e]
  {
    assert e < c.nextEntry;
  }

  /** The queue drains in the refresh's answer exactly when that answer is not a 401. */
  lemma DrainsIffNot401(c: Client, outcome: RefreshReply)
    requires Inv(c) && c.refresh.Running?
    ensures Next(c, AnswerRefresh(outcome)).failedQueue == [] <==> !outcome.RefreshUnauthorized?
  {
    match outcome
    case NewToken(token) => SettlingStep(c, Resolved(token));
    case RefreshError => SettlingStep(c, Rejected);
    case RefreshUnauthorized =>
  }

  /** And after a 401 it never does: the flag stays up, the leader stays pending and
      no promise queued then or later is ever settled, whatever else happens. */
  lemma {:induction false} StuckForever(trace: seq<Client>, steps: seq<Step>, k: nat)
    requires Run(trace, steps) && Inv(trace[0]) && trace[0].refresh.Stuck? && k < |trace|
    ensures Inv(trace[k]) && trace[k].refresh == trace[0].refresh && trace[k].isRefreshing
    ensures trace[k].requests.Keys >= trace[0].requests.Keys
    ensures trace[k].requests[trace[0].refresh.leader].phase == Leading
    ensures trace[0].failedQueue <= trace[k].failedQueue
    ensures forall e :: e in trace[k].failedQueue ==> e in trace[k].entries && trace[k].entries[e].outcome.None?
  {
    if k > 0 {
      StuckForever(trace, steps, k - 1);
      StepKeepsInv(trace[k - 1], steps[k - 1]);
      assert trace[k] == Next(trace[k - 1], steps[k - 1]);
      assert trace[k - 1].failedQueue <= trace[k].failedQueue;
    }
    forall e | e in trace[k].failedQueue ensures e in trace[k].entries && trace[k].entries[e].outcome.None? {
      assert e in trace[k].entries;
      assert EntryOk(trace[k], e);
    }
  }

  /** A request that is sent is in flight, not retried, and nothing else changes. */
  lemma SendDoes(c: Client, r: RequestId)
    requires Inv(c) && Enabled(c, Send(r))
    ensures Next(c, Send(r)) == c.(requests := c.requests[r := Request(InFlight, false, 0)])
    ensures !HasLed(Next(c, Send(r)), r) && Enabled(Next(c, Send(r)), Answer(r, Ok))
  {}

  /** What can happen when: a request is sent once, answered while in flight, the refresh call
      answered while it runs, and a queued promise go on at any time. */
  lemma CanHappen(c: Client, r: RequestId, reply: Reply, answer: RefreshReply, e: EntryId)
    requires Inv(c)
    ensures Enabled(c, Send(r)) <==> r !in c.requests
    ensures Enabled(c, Answer(r, reply)) <==> HasPhase(c, r, InFlight)
    ensures Enabled(c, AnswerRefresh(answer)) <==> c.refresh.Running?
    ensures Enabled(c, Continue(e)) <==> e in c.entries
  {}

  // ------------------------------------------------------ what becomes of each request

  /** By the refresh's answer: a new token resolves every promise queued so far with that token
      and sends the leader out again, an error rejects them and fails the leader, a 401 leaves
      all of them waiting. No other request changes, the followers' included. */
  lemma ReplyDecides(c: Client, reply: RefreshReply)
    requires Inv(c) && c.refresh.Running?
    ensures var d, leader := Next(c, AnswerRefresh(reply)), c.refresh.leader;
            && (forall e :: e in c.failedQueue ==>
                  e in d.entries
                  && d.entries[e].outcome == (match reply
                                              case NewToken(t) => Some(Resolved(t))
                                              case RefreshError => Some(Rejected)
                                              case RefreshUnauthorized => None))
            && d.requests[leader] == c.requests[leader].(phase := match reply
                                                                  case NewToken(_) => InFlight
                                                                  case RefreshError => Finished(false)
                                                                  case RefreshUnauthorized => Leading)
            && d.requests[leader].retried
            && (d.refresh.Idle? <==> !reply.RefreshUnauthorized?) && d.isRefreshing == !d.refresh.Idle?
            && (reply.RefreshUnauthorized? ==>
                  d.refresh.Stuck? && d.refresh.leader == leader && d.failedQueue == c.failedQueue + [d.refresh.entry]
                  && d.entries[d.refresh.entry].owner == RefreshCall)
            && d.requests.Keys == c.requests.Keys
            && (forall r :: r in c.requests && r != leader ==> d.requests[r] == c.requests[r])
  {
    match reply
    case NewToken(token) => SettlingStep(c, Resolved(token));
    case RefreshError => SettlingStep(c, Rejected);
    case RefreshUnauthorized =>
      forall e | e in c.failedQueue ensures c.entries[e].outcome.None? { assert EntryOk(c, e); }
  }

  /** The request waits on the promise, which has this outcome. */
  predicate Waits(c: Client, r: RequestId, e: EntryId, outcome: Option<Outcome>) {
    && r in c.requests && c.requests[r].phase == Queued(e) && !c.requests[r].retried
    && e in c.entries && c.entries[e].owner == Follower(r) && c.entries[e].outcome == outcome
  }

  lemma StillWaits(c: Client, s: Step, r: RequestId, e: EntryId, outcome: Outcome)
    requires Inv(c) && Enabled(c, s) && Waits(c, r, e, Some(outcome)) && s != Continue(e)
    ensures Waits(Next(c, s), r, e, Some(outcome)) && Next(c, s).requests[r] == c.requests[r]
  {
    assert EntryOk(c, e);
    match s
    case AnswerRefresh(NewToken(token)) => SettlingStep(c, Resolved(token));
    case AnswerRefresh(RefreshError) => SettlingStep(c, Rejected);
    case _ =>
  }

  lemma {:induction false} WaitsUntil(trace: seq<Client>, steps: seq<Step>, j: nat, k: nat, r: RequestId, e: EntryId,
                                      outcome: Outcome)
    requires Run(trace, steps) && trace[0] == START && j <= k < |trace|
    requires Waits(trace[j], r, e, Some(outcome)) && forall i :: j <= i < k ==> steps[i] != Continue(e)
    ensures Waits(trace[k], r, e, Some(outcome)) && trace[k].requests[r] == trace[j].requests[r]
  {
    if j < k {
      WaitsUntil(trace, steps, j, k - 1, r, e, outcome);
      RunKeepsInv(trace, steps, k - 1);
      StillWaits(trace[k - 1], steps[k - 1], r, e, outcome);
    }
  }

  /** A follower queued when the refresh settles, in step j, waits unchanged for its turn, in step
      k, whatever comes in between; then it goes out again after a new token, and fails after an
      error. */
  lemma FollowerGoesOn(trace: seq<Client>, steps: seq<Step>, j: nat, k: nat, r: RequestId, e: EntryId,
                       reply: RefreshReply)
    requires Run(trace, steps) && trace[0] == START && j < k < |steps|
    requires steps[j] == AnswerRefresh(reply) && !reply.RefreshUnauthorized? && steps[k] == Continue(e)
    requires Waits(trace[j], r, e, None) && forall i :: j < i < k ==> steps[i] != Continue(e)
    ensures r in trace[k].requests && trace[k].requests[r] == trace[j].requests[r]
    ensures trace[k + 1] == trace[k].(requests := trace[k + 1].requests)
    ensures trace[k + 1].requests
            == trace[k].requests[r := trace[j].requests[r].(phase := if reply.NewToken? then InFlight
                                                                     else Finished(false))]
  {
    RunKeepsInv(trace, steps, j);
    assert EntryOk(trace[j], e);
    ReplyDecides(trace[j], reply);
    assert trace[j + 1] == Next(trace[j], steps[j]);
    SettlingStep(trace[j], if reply.NewToken? then Resolved(reply.token) else Rejected);
    WaitsUntil(trace, steps, j + 1, k, r, e, if reply.NewToken? then Resolved(reply.token) else Rejected);
  }

  /** A step that fails the request: an error that is no 401, a 401 after its refresh, an error of
      the refresh it leads, or the rejection of the promise it waits on. */
  predicate Fails(c: Client, s: Step, r: RequestId) {
    r in c.requests
    && match s
       case Answer(q, reply) => q == r && (reply == OtherError || (reply == Unauthorized && c.requests[r].retried))
       case AnswerRefresh(reply) => reply == RefreshError && !c.refresh.Idle? && c.refresh.leader == r
       case Continue(e) => Waits(c, r, e, Some(Rejected))
       case Send(_) => false
  }

  /** A step in which the request becomes the leader. */
  predicate TakesLead(c: Client, s: Step, r: RequestId) {
    s == Answer(r, Unauthorized) && r in c.requests && !c.requests[r].retried && !c.isRefreshing
  }

  lemma StepPhase(c: Client, s: Step, r: RequestId)
    requires Inv(c) && Enabled(c, s)
    ensures var d := Next(c, s);
            && (HasPhase(d, r, Finished(true)) <==> HasPhase(c, r, Finished(true)) || s == Answer(r, Ok))
            && (HasPhase(d, r, Finished(false)) <==> HasPhase(c, r, Finished(false)) || Fails(c, s, r))
            && (HasLed(d, r) <==> HasLed(c, r) || TakesLead(c, s, r))
  {
    match s
    case AnswerRefresh(reply) => ReplyDecides(c, reply);
    case Continue(e) =>
      if r in c.requests && c.requests[r].phase == Queued(e) {
        assert OwnedBy(c, e, r);
      }
    case _ =>
  }

  predicate HasPhase(c: Client, r: RequestId, p: Phase) { r in c.requests && c.requests[r].phase == p }

  predicate HasLed(c: Client, r: RequestId) { r in c.requests && c.requests[r].retried }

  lemma StepPhaseIn(trace: seq<Client>, steps: seq<Step>, k: nat, r: RequestId)
    requires Run(trace, steps) && trace[0] == START && k < |steps|
    ensures var c, d, s := trace[k], trace[k + 1], steps[k];
            && (HasPhase(d, r, Finished(true)) <==> HasPhase(c, r, Finished(true)) || s == Answer(r, Ok))
            && (HasPhase(d, r, Finished(false)) <==> HasPhase(c, r, Finished(false)) || Fails(c, s, r))
            && (HasLed(d, r) <==> HasLed(c, r) || TakesLead(c, s, r))
  {
    RunKeepsInv(trace, steps, k);
    StepPhase(trace[k], steps[k], r);
  }

  /** Over whole runs: a request has succeeded exactly when some answer to it was no error. */
  lemma {:induction false} SucceededIff(trace: seq<Client>, steps: seq<Step>, k: nat, r: RequestId)
    requires Run(trace, steps) && trace[0] == START && k < |trace|
    ensures HasPhase(trace[k], r, Finished(true)) <==> exists j :: 0 <= j < k && steps[j] == Answer(r, Ok)
  {
    if k > 0 {
      SucceededIff(trace, steps, k - 1, r);
      StepPhaseIn(trace, steps, k - 1, r);
    }
  }

  /** It has failed exactly when one of the failing steps above happened to it. */
  lemma {:induction false} FailedIff(trace: seq<Client>, steps: seq<Step>, k: nat, r: RequestId)
    requires Run(trace, steps) && trace[0] == START && k < |trace|
    ensures HasPhase(trace[k], r, Finished(false)) <==> exists j :: 0 <= j < k && Fails(trace[j], steps[j], r)
  {
    if k > 0 {
      FailedIff(trace, steps, k - 1, r);
      StepPhaseIn(trace, steps, k - 1, r);
    }
  }

  /** And it bears the retry mark exactly when it once was answered 401 with no refresh under way. */
  lemma {:induction false} LedIff(trace: seq<Client>, steps: seq<Step>, k: nat, r: RequestId)
    requires Run(trace, steps) && trace[0] == START && k < |trace|
    ensures HasLed(trace[k], r) <==> exists j :: 0 <= j < k && TakesLead(trace[j], steps[j], r)
  {
    if k > 0 {
      LedIff(trace, steps, k - 1, r);
      StepPhaseIn(trace, steps, k - 1, r);
    }
  }

  /** A request answered 401 while another one's refresh is under way, itself not yet retried,
      joins the end of the queue with a promise of its own. */
  lemma FollowerQueues(c: Client, r: RequestId)
    requires Inv(c) && Enabled(c, Answer(r, Unauthorized)) && c.isRefreshing && !c.requests[r].retried
    ensures var d := Next(c, Answer(r, Unauthorized));
            exists e :: e !in c.entries && d.failedQueue == c.failedQueue + [e] && Waits(d, r, e, None)
  {
    var e := c.nextEntry;
    assert e !in c.entries;
    assert Waits(Next(c, Answer(r, Unauthorized)), r, e, None);
  }

  // ---------------------------------------------------------------- the client

  class ApiClient {
    var isRefreshing: bool
    var failedQueue: seq<EntryId>
    var entries: map<EntryId, Entry>
    var nextEntry: EntryId
    var requests: map<RequestId, Request>
    var refresh: Refresh

    ghost function State(): Client
      reads this
    {
      Client(isRefreshing, failedQueue, entries, nextEntry, requests, refresh)
    }

    constructor ()
      ensures State() == START
    {
      isRefreshing, failedQueue, entries, nextEntry, requests, refresh := false, [], map[], 0, map[], Idle;
    }

    /** Calls resolve or reject on every queued pair, then empties the queue. */
    method ProcessQueue(outcome: Outcome)
      requires QueueKnown(State())
      modifies this`failedQueue, this`entries
      ensures failedQueue == [] && entries == SettleAll(old(entries), old(failedQueue), outcome)
    {
      for k := 0 to |failedQueue|
        invariant failedQueue == old(failedQueue)
        invariant entries == SettleAll(old(entries), failedQueue[..k], outcome)
      {
        assert failedQueue[..k + 1][..k] == failedQueue[..k];
        var e := failedQueue[k];
        entries := entries[e := Settle(entries[e], outcome)];
      }
      assert failedQueue[..|failedQueue|] == failedQueue;
      failedQueue := [];
    }

    method Push(owner: Owner) returns (e: EntryId)
      modifies this`failedQueue, this`entries, this`nextEntry
      ensures e == old(nextEntry) && State() == Enqueue(old(State()), owner)
    {
      e := nextEntry;
      failedQueue := failedQueue + [e];
      entries := entries[e := Entry(owner, 0, None)];
      nextEntry := e + 1;
    }

    /** The interceptor on the answer to an ordinary request. */
    method OnAnswer(r: RequestId, reply: Reply)
      requires Enabled(State(), Answer(r, reply))
      modifies this
      ensures State() == Next(old(State()), Answer(r, reply))
    {
      var original := requests[r];
      if reply == Ok {
        requests := requests[r := original.(phase := Finished(true))];
        return;
      }
      if reply == Unauthorized && !original.retried {
        if isRefreshing {
          var e := Push(Follower(r));
          requests := requests[r := original.(phase := Queued(e))];
          return;
        }
        requests := requests[r := Request(Leading, true, original.led + 1)];
        isRefreshing := true;
        refresh := Running(r);
        return;
      }
      requests := requests[r := original.(phase := Finished(false))];
    }

    /** The leader's continuation when the refresh call settles: `try` or `catch`,
        then `finally`. A 401 does not settle it: it re-enters the interceptor. */
    method OnRefreshAnswer(reply: RefreshReply)
      requires Enabled(State(), AnswerRefresh(reply))
      modifies this
      ensures State() == Next(old(State()), AnswerRefresh(reply))
    {
      var leader := refresh.leader;
      match reply {
        case RefreshUnauthorized =>
          var e := Push(RefreshCall);
          refresh := Stuck(leader, e);
        case NewToken(token) =>
          ProcessQueue(Resolved(token));
          requests := requests[leader := requests[leader].(phase := InFlight)];
          isRefreshing, refresh := false, Idle;
        case RefreshError =>
          ProcessQueue(Rejected);
          requests := requests[leader := requests[leader].(phase := Finished(false))];
          isRefreshing, refresh := false, Idle;
      }
    }

    /** `.then` and `.catch` of a queued promise. */
    method OnSettled(e: EntryId)
      requires Enabled(State(), Continue(e))
      modifies this`requests
      ensures State() == Next(old(State()), Continue(e))
    {
      match entries[e].owner {
        case RefreshCall =>
        case Follower(r) =>
          if entries[e].outcome.Some? && r in requests && requests[r].phase == Queued(e) {
            var ok := entries[e].outcome.value.Resolved?;
            requests := requests[r := requests[r].(phase := if ok then InFlight else Finished(false))];
          }
      }
    }
  }
}
