/** One password-reset token and its user seen at the awaits of `resetPassword`: several
    resets can be under way with the token, and logins come in between. */
module AuthRaces {

  /** How far a reset has come: it has read the token, changed the password, deleted the
      token, listed the refresh tokens to delete; it is over. */
  datatype Phase = Holds | Changed | Deleted | Listed(keys: set<string>) | Over

  /** `usable` is whether the reset token can be read; `tokens` are the user's refresh
      tokens; `changes` counts the password changes made with the reset token. */
  datatype State = State(usable: bool, tokens: set<string>, resets: seq<Phase>, changes: nat)

  datatype Step =
    | Begin
    | Change(k: nat)
    | Delete(k: nat)
    | List(k: nat)
    | Remove(k: nat)
    /** reset k throws */
    | Stop(k: nat)
    | Login(token: string)
    | Logout(token: string)
    | Expire

  predicate At(s: State, k: nat, p: Phase) { k < |s.resets| && s.resets[k] == p }

  function Move(s: State, k: nat, p: Phase): State
    requires k < |s.resets|
  {
    s.(resets := s.resets[k := p])
  }

  /** A reset that finds no token is refused, and each reset takes its steps in order: other
      steps do nothing. */
  function Next(s: State, step: Step): State {
    match step
    case Begin => if s.usable then s.(resets := s.resets + [Holds]) else s
    case Change(k) => if At(s, k, Holds) then Move(s, k, Changed).(changes := s.changes + 1) else s
    case Delete(k) => if At(s, k, Changed) then Move(s, k, Deleted).(usable := false) else s
    case List(k) => if At(s, k, Deleted) then Move(s, k, Listed(s.tokens)) else s
    case Remove(k) =>
      if k < |s.resets| && s.resets[k].Listed? then Move(s, k, Over).(tokens := s.tokens - s.resets[k].keys) else s
    case Stop(k) => if k < |s.resets| then Move(s, k, Over) else s
    case Login(t) => s.(tokens := s.tokens + {t})
    case Logout(t) => s.(tokens := s.tokens - {t})
    case Expire => s.(usable := false)
  }

  function After(s: State, steps: seq<Step>): State
    decreases |steps|
  {
    if steps == [] then s else After(Next(s, steps[0]), steps[1..])
  }

  // -------------------------------------------------------------- how often it is used

  /** The resets that read the token while it could be read. */
  function Readers(s: State, steps: seq<Step>): nat
    decreases |steps|
  {
    if steps == [] then 0
    else (if steps[0].Begin? && s.usable then 1 else 0) + Readers(Next(s, steps[0]), steps[1..])
  }

  /** The resets that threw before they changed the password. */
  function GaveUp(s: State, steps: seq<Step>): nat
    decreases |steps|
  {
    if steps == [] then 0
    else (if steps[0].Stop? && At(s, steps[0].k, Holds) then 1 else 0) + GaveUp(Next(s, steps[0]), steps[1..])
  }

  function Holding(resets: seq<Phase>): nat {
    if resets == [] then 0
    else Holding(resets[..|resets| - 1]) + if resets[|resets| - 1] == Holds then 1 else 0
  }

  lemma HoldingPush(resets: seq<Phase>, p: Phase)
    ensures Holding(resets + [p]) == Holding(resets) + if p == Holds then 1 else 0
  {
    assert (resets + [p])[..|resets|] == resets;
  }

  lemma {:induction false} HoldingUpdate(resets: seq<Phase>, k: nat, p: Phase)
    requires k < |resets|
    ensures Holding(resets[k := p]) + (if resets[k] == Holds then 1 else 0)
            == Holding(resets) + if p == Holds then 1 else 0
  {
    var last := |resets| - 1;
    if k == last {
      assert resets[k := p][..last] == resets[..last];
    } else {
      assert resets[k := p][..last] == resets[..last][k := p];
      HoldingUpdate(resets[..last], k, p);
    }
  }

  lemma StepUses(s: State, step: Step)
    ensures Next(s, step).changes + Holding(Next(s, step).resets)
            + (if step.Stop? && At(s, step.k, Holds) then 1 else 0)
            == s.changes + Holding(s.resets) + if step.Begin? && s.usable then 1 else 0
  {
    match step
    case Begin => HoldingPush(s.resets, Holds);
    case Change(k) => if k < |s.resets| { HoldingUpdate(s.resets, k, Changed); }
    case Delete(k) => if k < |s.resets| { HoldingUpdate(s.resets, k, Deleted); }
    case List(k) => if k < |s.resets| { HoldingUpdate(s.resets, k, Listed(s.tokens)); }
    case Remove(k) => if k < |s.resets| { HoldingUpdate(s.resets, k, Over); }
    case Stop(k) => if k < |s.resets| { HoldingUpdate(s.resets, k, Over); }
    case _ =>
  }

  /** Over every interleaving each password change belongs to one reset that read the token:
      the token changes the password as often as resets read it and did not throw before, so
      more than once exactly when such resets overlap. */
  lemma {:induction false} UsesAreReaders(s: State, steps: seq<Step>)
    ensures After(s, steps).changes + Holding(After(s, steps).resets) + GaveUp(s, steps)
            == s.changes + Holding(s.resets) + Readers(s, steps)
    decreases |steps|
  {
    if steps != [] {
      StepUses(s, steps[0]);
      UsesAreReaders(Next(s, steps[0]), steps[1..]);
    }
  }

  /** After the first deletion, or the expiry, nobody reads it any more. */
  lemma {:induction false} UnusableForGood(s: State, steps: seq<Step>)
    requires !s.usable
    ensures !After(s, steps).usable && Readers(s, steps) == 0 && After(s, steps).changes >= s.changes
    decreases |steps|
  {
    if steps != [] { UnusableForGood(Next(s, steps[0]), steps[1..]); }
  }

  /** Hence once per reset in sequence: a reset that deletes the token before any other one
      has read it makes the last change. */
  lemma DeletedIsSpent(s: State, k: nat, steps: seq<Step>)
    requires At(s, k, Changed) && Holding(s.resets) == 0
    ensures After(Next(s, Delete(k)), steps).changes == s.changes
  {
    HoldingUpdate(s.resets, k, Deleted);
    UnusableForGood(Next(s, Delete(k)), steps);
    UsesAreReaders(Next(s, Delete(k)), steps);
  }

  /** The step ends the reset token's use: it expires, or a reset that has changed the password
      deletes it. */
  predicate Unusable(s: State, step: Step) {
    step == Expire || (step.Delete? && step.k < |s.resets| && s.resets[step.k] == Changed)
  }

  /** The token can be read exactly until the first of these steps. */
  lemma {:induction false} UsableIff(s: State, steps: seq<Step>)
    ensures After(s, steps).usable
            <==> s.usable && forall j :: 0 <= j < |steps| ==> !Unusable(After(s, steps[..j]), steps[j])
    decreases |steps|
  {
    if steps != [] {
      var init, last := steps[..|steps| - 1], steps[|steps| - 1];
      assert steps == init + [last];
      UsableIff(s, init);
      AfterPush(s, init, last);
      assert forall j :: 0 <= j < |init| ==> init[..j] == steps[..j] && init[j] == steps[j];
    }
  }

  // ---------------------------------------------------------------- what survives a reset

  /** A step takes a token if it is its logout, or the end of a reset that has listed it. */
  predicate Takes(s: State, step: Step, t: string) {
    step == Logout(t)
    || (step.Remove? && step.k < |s.resets| && s.resets[step.k].Listed? && t in s.resets[step.k].keys)
  }

  /** No step from the i-th on takes the token. */
  predicate Untaken(s: State, steps: seq<Step>, i: nat, t: string) {
    forall j :: i <= j < |steps| ==> !Takes(After(s, steps[..j]), steps[j], t)
  }

  lemma StepTokens(s: State, step: Step, t: string)
    ensures t in Next(s, step).tokens <==> step == Login(t) || (t in s.tokens && !Takes(s, step, t))
  {}

  lemma {:induction false} AfterPush(s: State, steps: seq<Step>, last: Step)
    ensures After(s, steps + [last]) == Next(After(s, steps), last)
    decreases |steps|
  {
    if steps == [] {
      assert steps + [last] == [last] && [last][1..] == [];
    } else {
      assert (steps + [last])[1..] == steps[1..] + [last];
      AfterPush(Next(s, steps[0]), steps[1..], last);
    }
  }

  lemma UntakenPush(s: State, steps: seq<Step>, last: Step, i: nat, t: string)
    requires i <= |steps|
    ensures Untaken(s, steps + [last], i, t) <==> Untaken(s, steps, i, t) && !Takes(After(s, steps), last, t)
  {
    var all := steps + [last];
    assert all[..|steps|] == steps && all[|steps|] == last;
    forall j | 0 <= j < |steps| ensures all[..j] == steps[..j] && all[j] == steps[j] {}
    if Untaken(s, all, i, t) {
      forall j | i <= j < |steps| ensures !Takes(After(s, steps[..j]), steps[j], t) {
        assert !Takes(After(s, all[..j]), all[j], t);
      }
      assert !Takes(After(s, all[..|steps|]), all[|steps|], t);
    }
  }

  predicate StoredAt(s: State, steps: seq<Step>, j: int, t: string) {
    0 <= j < |steps| && steps[j] == Login(t) && Untaken(s, steps, j + 1, t)
  }

  lemma StoredPush(s: State, steps: seq<Step>, last: Step, t: string)
    ensures (exists j :: StoredAt(s, steps + [last], j, t))
            <==> last == Login(t) || ((exists j :: StoredAt(s, steps, j, t)) && !Takes(After(s, steps), last, t))
  {
    var all := steps + [last];
    if last == Login(t) { assert StoredAt(s, all, |steps|, t); }
    if j :| StoredAt(s, steps, j, t) && !Takes(After(s, steps), last, t) {
      UntakenPush(s, steps, last, j + 1, t);
      assert all[j] == steps[j];
      assert StoredAt(s, all, j, t);
    }
    if j :| StoredAt(s, all, j, t) {
      if j < |steps| {
        UntakenPush(s, steps, last, j + 1, t);
        assert all[j] == steps[j];
        assert StoredAt(s, steps, j, t);
      }
    }
  }

  /** Over every interleaving of logins, logouts and resets the user has a refresh token in the
      end exactly when it was stored at some point, or was there to begin with, and no step after
      that took it. */
  lemma {:induction false} TokensExact(s: State, steps: seq<Step>, t: string)
    ensures t in After(s, steps).tokens
            <==> (t in s.tokens && Untaken(s, steps, 0, t)) || exists j :: StoredAt(s, steps, j, t)
    decreases |steps|
  {
    if steps != [] {
      var init, last := steps[..|steps| - 1], steps[|steps| - 1];
      assert steps == init + [last];
      TokensExact(s, init, t);
      AfterPush(s, init, last);
      StepTokens(After(s, init), last, t);
      UntakenPush(s, init, last, 0, t);
      StoredPush(s, init, last, t);
    }
  }

  /** A login between the listing and the deletion of a reset outlives it. */
  lemma LoginDuringReset(t: string)
    ensures var s := After(State(true, {}, [Deleted], 1), [List(0), Login(t), Remove(0)]);
            s.tokens == {t} && s.resets == [Over]
  {
    var s := State(true, {}, [Deleted], 1);
    AfterPush(s, [], List(0));
    AfterPush(s, [List(0)], Login(t));
    AfterPush(s, [List(0), Login(t)], Remove(0));
    assert [List(0)] + [Login(t)] == [List(0), Login(t)];
    assert [List(0), Login(t)] + [Remove(0)] == [List(0), Login(t), Remove(0)];
    assert [] + [List(0)] == [List(0)];
  }

  lemma StepSurvives(s: State, step: Step, k: nat, t: string)
    requires k < |s.resets| && step != Stop(k)
    requires s.resets[k].Listed? && (t in s.tokens ==> t in s.resets[k].keys) && step != Login(t)
    ensures var n := Next(s, step);
            && k < |n.resets|
            && (n.resets[k] == Over ==> t !in n.tokens)
            && (n.resets[k] != Over ==> n.resets[k].Listed? && (t in n.tokens ==> t in n.resets[k].keys))
  {}

  lemma {:induction false} StaysGone(s: State, steps: seq<Step>, t: string)
    requires t !in s.tokens && forall j :: 0 <= j < |steps| ==> steps[j] != Login(t)
    ensures t !in After(s, steps).tokens
    decreases |steps|
  {
    if steps != [] { StaysGone(Next(s, steps[0]), steps[1..], t); }
  }

  /** A refresh token the user still has once a reset has run to its end was stored after the
      reset listed the tokens: all those of before are gone. */
  lemma {:induction false} SurvivorsAreNew(s: State, steps: seq<Step>, k: nat, t: string)
    requires k < |s.resets| && s.resets[k].Listed? && (t in s.tokens ==> t in s.resets[k].keys)
    requires forall j :: 0 <= j < |steps| ==> steps[j] != Stop(k)
    requires k < |After(s, steps).resets| && After(s, steps).resets[k] == Over && t in After(s, steps).tokens
    ensures exists j :: 0 <= j < |steps| && steps[j] == Login(t)
    decreases |steps|
  {
    if steps != [] && steps[0] != Login(t) {
      var n, rest := Next(s, steps[0]), steps[1..];
      StepSurvives(s, steps[0], k, t);
      if forall j :: 0 <= j < |rest| ==> rest[j] != Login(t) {
        if n.resets[k] == Over { StaysGone(n, rest, t); } else { SurvivorsAreNew(n, rest, k, t); }
      } else {
        var j :| 0 <= j < |rest| && rest[j] == Login(t);
        assert steps[j + 1] == Login(t);
      }
    }
  }
}
