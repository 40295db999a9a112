/** Locking an account after failed logins: five attempts, then one every 15 minutes. */
module Lockout {
  import opened Text

  const MAX_FAILED := 5
  /** 15 minutes, in milliseconds like all times here. */
  const LOCK_MS := 900000

  datatype Account = Account(failedLoginAttempts: nat, lockedUntil: Option<nat>)

  const CLEAR := Account(0, None)

  predicate IsLocked(a: Account, now: nat) { a.lockedUntil.Some? && now < a.lockedUntil.value }

  function Failed(a: Account, now: nat): Account {
    var n := a.failedLoginAttempts + 1;
    Account(n, if n >= MAX_FAILED then Some(now + LOCK_MS) else a.lockedUntil)
  }

  /** An attempt looks at the lock, then verifies the password, then records the result
      (at its own reading of the clock). */
  datatype Event =
    | Attempt(checkedAt: nat, recordedAt: nat, correct: bool)
    | Unlock(at: nat)

  datatype Outcome = Refused | Wrong | Right | Unlocked

  function OutcomeOf(a: Account, e: Event): Outcome {
    match e
    case Unlock(_) => Unlocked
    case Attempt(checkedAt, _, correct) =>
      if IsLocked(a, checkedAt) then Refused else if correct then Right else Wrong
  }

  function Next(a: Account, e: Event): Account {
    match OutcomeOf(a, e)
    case Refused => a
    case Wrong => Failed(a, e.recordedAt)
    case _ => CLEAR
  }

  function After(a: Account, es: seq<Event>): Account {
    if es == [] then a else Next(After(a, es[..|es| - 1]), es[|es| - 1])
  }

  /** What the callers got, in order. */
  function Outcomes(a: Account, es: seq<Event>): seq<Outcome> {
    if es == [] then [] else Outcomes(a, es[..|es| - 1]) + [OutcomeOf(After(a, es[..|es| - 1]), es[|es| - 1])]
  }

  function Begins(e: Event): nat { if e.Attempt? then e.checkedAt else e.at }
  function Ends(e: Event): nat { if e.Attempt? then e.recordedAt else e.at }

  /** One event after the other, from time t0 on. */
  predicate Sequential(es: seq<Event>, t0: nat) {
    && (forall k :: 0 <= k < |es| ==> t0 <= Begins(es[k]) <= Ends(es[k]))
    && (forall k :: 0 < k < |es| ==> Ends(es[k - 1]) <= Begins(es[k]))
  }

  // ------------------------------------------------------------------ the counter

  /** The number of `Wrong`s since the last `Right` or `Unlocked`. */
  function Trailing(os: seq<Outcome>): nat {
    if os == [] then 0
    else
      match os[|os| - 1]
      case Refused => Trailing(os[..|os| - 1])
      case Wrong => Trailing(os[..|os| - 1]) + 1
      case _ => 0
  }

  /** `failedLoginAttempts` is always the number of failed checks since the last success
      or unlock. */
  lemma {:induction false} CounterExact(es: seq<Event>)
    ensures After(CLEAR, es).failedLoginAttempts == Trailing(Outcomes(CLEAR, es))
  {
    if es != [] {
      var init := es[..|es| - 1];
      CounterExact(init);
      var os := Outcomes(CLEAR, init);
      var o := OutcomeOf(After(CLEAR, init), es[|es| - 1]);
      assert (os + [o])[..|os|] == os;
    }
  }

  /** When the last failed check was recorded. */
  function LastWrongAt(es: seq<Event>): nat {
    if es == [] then 0
    else
      var init, last := es[..|es| - 1], es[|es| - 1];
      if last.Attempt? && OutcomeOf(After(CLEAR, init), last) == Wrong then last.recordedAt else LastWrongAt(init)
  }

  predicate LockedByHistory(es: seq<Event>, now: nat) {
    Trailing(Outcomes(CLEAR, es)) >= 5 && now < LastWrongAt(es) + 900000
  }

  /** The account is locked exactly when five checks or more have failed since the last success
      or unlock, and the last of them less than 15 minutes ago. */
  lemma {:induction false} LockedIff(es: seq<Event>, now: nat)
    ensures IsLocked(After(CLEAR, es), now) <==> LockedByHistory(es, now)
  {
    CounterExact(es);
    if es != [] {
      var init, last := es[..|es| - 1], es[|es| - 1];
      var os, o := Outcomes(CLEAR, init), OutcomeOf(After(CLEAR, init), last);
      LockedIff(init, now);
      CounterExact(init);
      assert (os + [o])[..|os|] == os;
    }
  }

  /** What an attempt comes to, by the history: refused on a locked account whatever the
      password, otherwise by the password; and an unlock always unlocks. */
  lemma AttemptIff(es: seq<Event>, checkedAt: nat, recordedAt: nat, correct: bool)
    ensures var o, locked := OutcomeOf(After(CLEAR, es), Attempt(checkedAt, recordedAt, correct)),
                             LockedByHistory(es, checkedAt);
            && (o == Refused <==> locked)
            && (o == Right <==> !locked && correct)
            && (o == Wrong <==> !locked && !correct)
    ensures OutcomeOf(After(CLEAR, es), Unlock(checkedAt)) == Unlocked
    ensures Trailing(Outcomes(CLEAR, es + [Unlock(checkedAt)])) == 0 && After(CLEAR, es + [Unlock(checkedAt)]) == CLEAR
  {
    LockedIff(es, checkedAt);
    assert (es + [Unlock(checkedAt)])[..|es|] == es;
  }

  // -------------------------------------------------------------------- the bound

  function Count(os: seq<Outcome>, o: Outcome): nat {
    if os == [] then 0 else Count(os[..|os| - 1], o) + if os[|os| - 1] == o then 1 else 0
  }

  predicate NoReset(os: seq<Outcome>) { forall k :: 0 <= k < |os| ==> os[k] == Refused || os[k] == Wrong }

  /** The lock an account with n failed checks since t0 carries. */
  predicate LockReaches(a: Account, t0: nat, n: nat) {
    && a.failedLoginAttempts == n
    && (if n < MAX_FAILED then a.lockedUntil.None?
        else a.lockedUntil.Some? && a.lockedUntil.value >= t0 + LOCK_MS * (n - 4))
  }

  lemma SequentialPrefix(es: seq<Event>, t0: nat)
    requires es != [] && Sequential(es, t0)
    ensures Sequential(es[..|es| - 1], t0)
  {}

  lemma LockStep(a: Account, e: Event, t0: nat, n: nat)
    requires LockReaches(a, t0, n) && e.Attempt? && t0 <= e.checkedAt <= e.recordedAt
    requires OutcomeOf(a, e) == Wrong
    ensures LockReaches(Next(a, e), t0, n + 1)
    ensures e.checkedAt >= t0 + (if n < MAX_FAILED then 0 else LOCK_MS * (n - 4))
  {}

  lemma {:induction false} LockGrows(es: seq<Event>, t0: nat)
    requires Sequential(es, t0) && NoReset(Outcomes(CLEAR, es))
    ensures LockReaches(After(CLEAR, es), t0, Count(Outcomes(CLEAR, es), Wrong))
  {
    if es != [] {
      var init, last := es[..|es| - 1], es[|es| - 1];
      var os, o := Outcomes(CLEAR, init), OutcomeOf(After(CLEAR, init), last);
      SequentialPrefix(es, t0);
      assert Outcomes(CLEAR, es) == os + [o];
      assert NoReset(os) by { assert forall k :: 0 <= k < |os| ==> (os + [o])[k] == os[k]; }
      LockGrows(init, t0);
      assert (os + [o])[..|os|] == os;
      assert o == (os + [o])[|os|];
      if o == Wrong { LockStep(After(CLEAR, init), last, t0, Count(os, Wrong)); }
    }
  }

  /** The lockout bound: of the attempts that follow a success or an unlock at t0 one
      after the other, with no further success or unlock, at most 5 + floor(T / 15 min)
      are checked against the password within T of t0; all others are refused. */
  lemma {:induction false} LockoutBound(es: seq<Event>, t0: nat, T: nat)
    requires Sequential(es, t0) && NoReset(Outcomes(CLEAR, es))
    requires forall k :: 0 <= k < |es| ==> Begins(es[k]) <= t0 + T
    ensures Count(Outcomes(CLEAR, es), Wrong) <= 5 + T / 900000
  {
    if es != [] {
      var init, last := es[..|es| - 1], es[|es| - 1];
      var os, o := Outcomes(CLEAR, init), OutcomeOf(After(CLEAR, init), last);
      SequentialPrefix(es, t0);
      assert NoReset(os) by { assert forall k :: 0 <= k < |os| ==> (os + [o])[k] == os[k]; }
      assert (os + [o])[..|os|] == os;
      LockoutBound(init, t0, T);
      assert o == (os + [o])[|os|];
      if o == Wrong {
        LockGrows(init, t0);
        LockStep(After(CLEAR, init), last, t0, Count(os, Wrong));
        FitsIn(Count(os, Wrong), T);
      }
    }
  }

  lemma FitsIn(n: nat, T: nat)
    requires n < MAX_FAILED || T >= LOCK_MS * (n - 4)
    ensures n + 1 <= MAX_FAILED + T / LOCK_MS
  {
    if n >= MAX_FAILED { assert T / LOCK_MS >= n - 4; }
  }

  /** Whatever came before, a success or an unlock clears the account: the bound holds
      in the time after each of them. */
  lemma BoundAfterReset(before: seq<Event>, reset: Event, es: seq<Event>, T: nat)
    requires var o := OutcomeOf(After(CLEAR, before), reset); o == Right || o == Unlocked
    requires Sequential(es, Ends(reset)) && NoReset(Outcomes(After(CLEAR, before + [reset]), es))
    requires forall k :: 0 <= k < |es| ==> Begins(es[k]) <= Ends(reset) + T
    ensures Count(Outcomes(After(CLEAR, before + [reset]), es), Wrong) <= 5 + T / 900000
  {
    assert (before + [reset])[..|before|] == before;
    assert After(CLEAR, before + [reset]) == CLEAR;
    LockoutBound(es, Ends(reset), T);
  }

  // -------------------------------------------------------------------- tightness

  function Guess(at: nat): Event { Attempt(at, at, false) }

  /** Five guesses at once, then one each time the lock runs out. */
  function Guesses(t0: nat, n: nat): seq<Event> {
    if n == 0 then []
    else Guesses(t0, n - 1) + [Guess(if n <= MAX_FAILED then t0 else t0 + LOCK_MS * (n - 5))]
  }

  lemma {:induction false} GuessTimes(t0: nat, n: nat, k: nat)
    requires k < n
    ensures |Guesses(t0, n)| == n && Guesses(t0, n)[k] == Guess(if k < MAX_FAILED then t0 else t0 + LOCK_MS * (k - 4))
  {
    if k < n - 1 {
      GuessTimes(t0, n - 1, k);
    } else if n > 1 {
      GuessTimes(t0, n - 1, 0);
    }
  }

  /** The account after n such guesses. */
  function Guessed(t0: nat, n: nat): Account {
    Account(n, if n < MAX_FAILED then None else Some(t0 + LOCK_MS * (n - 4)))
  }

  lemma GuessStep(t0: nat, n: nat)
    ensures var e := Guess(if n + 1 <= MAX_FAILED then t0 else t0 + LOCK_MS * (n - 4));
            OutcomeOf(Guessed(t0, n), e) == Wrong && Next(Guessed(t0, n), e) == Guessed(t0, n + 1)
  {}

  lemma CountOneMore(os: seq<Outcome>)
    requires NoReset(os)
    ensures NoReset(os + [Wrong]) && Count(os + [Wrong], Wrong) == Count(os, Wrong) + 1
  {
    assert (os + [Wrong])[..|os|] == os;
  }

  lemma {:induction false} GuessesAllChecked(t0: nat, n: nat)
    ensures After(CLEAR, Guesses(t0, n)) == Guessed(t0, n)
    ensures NoReset(Outcomes(CLEAR, Guesses(t0, n))) && Count(Outcomes(CLEAR, Guesses(t0, n)), Wrong) == n
  {
    if n > 0 {
      GuessesAllChecked(t0, n - 1);
      GuessStep(t0, n - 1);
      assert Guesses(t0, n)[..|Guesses(t0, n)| - 1] == Guesses(t0, n - 1);
      CountOneMore(Outcomes(CLEAR, Guesses(t0, n - 1)));
    }
  }

  /** The bound is reached: for every T some sequence of wrong passwords gets exactly
      5 + floor(T / 15 min) of them checked within T. */
  lemma BoundIsReached(t0: nat, T: nat)
    ensures var es := Guesses(t0, MAX_FAILED + T / LOCK_MS);
            && Sequential(es, t0)
            && (forall k :: 0 <= k < |es| ==> Begins(es[k]) <= t0 + T)
            && Count(Outcomes(CLEAR, es), Wrong) == 5 + T / 900000
  {
    var n := MAX_FAILED + T / LOCK_MS;
    var es := Guesses(t0, n);
    GuessTimes(t0, n, 0);
    forall k | 0 <= k < |es| ensures es[k] == Guess(if k < MAX_FAILED then t0 else t0 + LOCK_MS * (k - 4)) {
      GuessTimes(t0, n, k);
    }
    GuessesAllChecked(t0, n);
  }

  // ----------------------------------------------------------- overlapping attempts

  /** The two halves of attempts that overlap: the look at the lock, and the record of
      a wrong password, with the slow hash in between. */
  datatype Half = Check(at: nat) | Record(at: nat)

  datatype Overlapping = Overlapping(account: Account, hashing: nat, checked: nat)

  function NextHalf(s: Overlapping, h: Half): Overlapping {
    match h
    case Check(at) => if IsLocked(s.account, at) then s else s.(hashing := s.hashing + 1, checked := s.checked + 1)
    case Record(at) => if s.hashing == 0 then s else Overlapping(Failed(s.account, at), s.hashing - 1, s.checked)
  }

  function AfterHalves(s: Overlapping, hs: seq<Half>): Overlapping {
    if hs == [] then s else NextHalf(AfterHalves(s, hs[..|hs| - 1]), hs[|hs| - 1])
  }

  /** The bound needs sequential attempts: any number that look at the lock before the
      first one is recorded are all checked, at a single moment. */
  lemma {:induction false} OverlapHasNoBound(t0: nat, n: nat)
    ensures AfterHalves(Overlapping(CLEAR, 0, 0), seq(n, (_: nat) => Check(t0))) == Overlapping(CLEAR, n, n)
  {
    if n > 0 {
      OverlapHasNoBound(t0, n - 1);
      assert seq(n, (_: nat) => Check(t0))[..n - 1] == seq(n - 1, (_: nat) => Check(t0));
    }
  }

  const START := Overlapping(CLEAR, 0, 0)

  function Last(hs: seq<Half>, t0: nat): nat { if hs == [] then t0 else hs[|hs| - 1].at }

  /** The halves come one after the other from t0 on, and at no time more than c attempts are
      between the look at the lock and the record. */
  predicate Legal(s: Overlapping, hs: seq<Half>, t0: nat, c: nat) {
    if hs == [] then s.hashing <= c
    else
      var init := hs[..|hs| - 1];
      Legal(s, init, t0, c) && Last(init, t0) <= hs[|hs| - 1].at && AfterHalves(s, hs).hashing <= c
  }

  lemma {:induction false} LegalHashing(s: Overlapping, hs: seq<Half>, t0: nat, c: nat)
    requires Legal(s, hs, t0, c)
    ensures AfterHalves(s, hs).hashing <= c && t0 <= Last(hs, t0)
  {
    if hs != [] { LegalHashing(s, hs[..|hs| - 1], t0, c); }
  }

  /** Locked w times over since t0. Until somebody looks at a lock that has run out, at most
      4 + c * w attempts have been checked; afterwards the ones still hashing come on top. */
  predicate Rounds(s: Overlapping, t0: nat, now: nat, c: nat, w: nat) {
    && s.account.failedLoginAttempts >= MAX_FAILED && s.account.lockedUntil.Some?
    && t0 + LOCK_MS * w <= s.account.lockedUntil.value <= now + LOCK_MS
    && s.checked <= 4 + c * w + (if s.account.lockedUntil.value <= now then s.hashing else 0)
  }

  ghost predicate Bounded(s: Overlapping, t0: nat, now: nat, c: nat) {
    if s.account.failedLoginAttempts < MAX_FAILED then
      s.account.lockedUntil.None? && s.checked == s.account.failedLoginAttempts + s.hashing
    else exists w: nat :: Rounds(s, t0, now, c, w)
  }

  lemma RecordOpensRound(s: Overlapping, t0: nat, now: nat, at: nat, c: nat, w: nat)
    requires Rounds(s, t0, now, c, w) && t0 <= now <= at && 0 < s.hashing <= c
    ensures Bounded(NextHalf(s, Record(at)), t0, at, c)
  {
    var n := NextHalf(s, Record(at));
    if s.account.lockedUntil.value <= now {
      assert c * (w + 1) == c * w + c;
      assert Rounds(n, t0, at, c, w + 1);
    } else {
      assert Rounds(n, t0, at, c, w);
    }
  }

  lemma HalfStep(s: Overlapping, t0: nat, now: nat, h: Half, c: nat)
    requires Bounded(s, t0, now, c) && t0 <= now <= h.at && s.hashing <= c && NextHalf(s, h).hashing <= c
    ensures Bounded(NextHalf(s, h), t0, h.at, c)
  {
    var n := NextHalf(s, h);
    if s.account.failedLoginAttempts < MAX_FAILED {
      if n.account.failedLoginAttempts >= MAX_FAILED { assert Rounds(n, t0, h.at, c, 1); }
    } else {
      var w: nat :| Rounds(s, t0, now, c, w);
      if h.Record? && s.hashing > 0 {
        RecordOpensRound(s, t0, now, h.at, c, w);
      } else {
        assert Rounds(n, t0, h.at, c, w);
      }
    }
  }

  lemma {:induction false} HalvesBounded(hs: seq<Half>, t0: nat, c: nat)
    requires Legal(START, hs, t0, c)
    ensures Bounded(AfterHalves(START, hs), t0, Last(hs, t0), c)
  {
    if hs != [] {
      var init, last := hs[..|hs| - 1], hs[|hs| - 1];
      HalvesBounded(init, t0, c);
      LegalHashing(START, init, t0, c);
      HalfStep(AfterHalves(START, init), t0, Last(init, t0), last, c);
    }
  }

  lemma CheckedFits(s: Overlapping, t0: nat, at: nat, c: nat, T: nat)
    requires Bounded(s, t0, at, c) && s.hashing <= c && at <= t0 + T
    requires s.account.lockedUntil.None? || s.account.lockedUntil.value <= at
    ensures s.checked <= 4 + c * (1 + T / LOCK_MS)
  {
    var q := T / LOCK_MS;
    assert c * (1 + q) == c + c * q && c * q >= 0;
    if s.account.failedLoginAttempts >= MAX_FAILED {
      var w: nat :| Rounds(s, t0, at, c, w);
      assert w <= q;
      MoreRounds(c, w, q);
    }
  }

  lemma MoreRounds(c: nat, w: nat, q: nat)
    requires w <= q
    ensures c * w <= c * q
  {}

  /** The bound for attempts that overlap, each record being made at once: of wrong passwords
      with at most c of them between the look at the lock and the record, at most
      4 + c * (1 + floor(T / 15 min)) are checked within T of a success or an unlock. */
  lemma {:induction false} OverlapBound(hs: seq<Half>, t0: nat, c: nat, T: nat)
    requires Legal(START, hs, t0, c)
    requires forall k :: 0 <= k < |hs| && hs[k].Check? ==> hs[k].at <= t0 + T
    ensures AfterHalves(START, hs).checked <= 4 + c * (1 + T / 900000)
  {
    if hs == [] {
      MoreRounds(c, 0, 1 + T / LOCK_MS);
    } else {
      var init, last := hs[..|hs| - 1], hs[|hs| - 1];
      OverlapBound(init, t0, c, T);
      var s := AfterHalves(START, init);
      if last.Check? && !IsLocked(s.account, last.at) {
        HalvesBounded(hs, t0, c);
        CheckedFits(NextHalf(s, last), t0, last.at, c, T);
      }
    }
  }

  // ---------------------------------------------------- and this bound is reached, too

  lemma {:induction false} LegalConcat(s: Overlapping, a: seq<Half>, b: seq<Half>, t0: nat, c: nat)
    ensures AfterHalves(s, a + b) == AfterHalves(AfterHalves(s, a), b) && Last(a + b, t0) == Last(b, Last(a, t0))
    ensures Legal(s, a, t0, c) && Legal(AfterHalves(s, a), b, Last(a, t0), c) ==> Legal(s, a + b, t0, c)
  {
    if b == [] {
      assert a + b == a;
    } else {
      var init := b[..|b| - 1];
      assert (a + b)[..|a + b| - 1] == a + init;
      LegalConcat(s, a, init, t0, c);
    }
  }

  /** n checks, and n records. */
  function Checks(at: nat, n: nat): seq<Half> { if n == 0 then [] else Checks(at, n - 1) + [Check(at)] }
  function Records(at: nat, n: nat): seq<Half> { if n == 0 then [] else Records(at, n - 1) + [Record(at)] }

  lemma {:induction false} ChecksRun(s: Overlapping, t0: nat, at: nat, n: nat, c: nat)
    requires !IsLocked(s.account, at) && t0 <= at && s.hashing + n <= c
    ensures AfterHalves(s, Checks(at, n)) == s.(hashing := s.hashing + n, checked := s.checked + n)
    ensures Legal(s, Checks(at, n), t0, c) && Last(Checks(at, n), t0) == if n == 0 then t0 else at
  {
    if n > 0 {
      ChecksRun(s, t0, at, n - 1, c);
      assert Checks(at, n)[..|Checks(at, n)| - 1] == Checks(at, n - 1);
    }
  }

  lemma {:induction false} RecordsRun(s: Overlapping, t0: nat, at: nat, n: nat, c: nat)
    requires n <= s.hashing <= c && t0 <= at
    ensures var f := s.account.failedLoginAttempts + n;
            var lock := if n > 0 && f >= MAX_FAILED then Some(at + LOCK_MS) else s.account.lockedUntil;
            AfterHalves(s, Records(at, n)) == Overlapping(Account(f, lock), s.hashing - n, s.checked)
    ensures Legal(s, Records(at, n), t0, c) && Last(Records(at, n), t0) == if n == 0 then t0 else at
  {
    if n > 0 {
      RecordsRun(s, t0, at, n - 1, c);
      assert Records(at, n)[..|Records(at, n)| - 1] == Records(at, n - 1);
    }
  }

  function Batch(at: nat, n: nat): seq<Half> { Checks(at, n) + Records(at, n) }

  lemma BatchRun(s: Overlapping, t0: nat, at: nat, n: nat, c: nat)
    requires !IsLocked(s.account, at) && t0 <= at && s.hashing == 0 && 0 < n <= c
    ensures var f := s.account.failedLoginAttempts + n;
            var lock := if f >= MAX_FAILED then Some(at + LOCK_MS) else s.account.lockedUntil;
            AfterHalves(s, Batch(at, n)) == Overlapping(Account(f, lock), 0, s.checked + n)
    ensures Legal(s, Batch(at, n), t0, c) && Last(Batch(at, n), t0) == at
  {
    ChecksRun(s, t0, at, n, c);
    RecordsRun(AfterHalves(s, Checks(at, n)), at, at, n, c);
    LegalConcat(s, Checks(at, n), Records(at, n), t0, c);
  }

  /** Four guesses one by one, then c at once, and again c at once whenever the lock runs out. */
  function Waves(t0: nat, c: nat, w: nat): seq<Half> {
    if w == 0 then Batch(t0, 1) + Batch(t0, 1) + Batch(t0, 1) + Batch(t0, 1)
    else Waves(t0, c, w - 1) + Batch(t0 + LOCK_MS * (w - 1), c)
  }

  lemma FourGuesses(t0: nat, c: nat)
    requires c > 0
    ensures AfterHalves(START, Waves(t0, c, 0)) == Overlapping(Account(4, None), 0, 4)
    ensures Legal(START, Waves(t0, c, 0), t0, c) && Last(Waves(t0, c, 0), t0) == t0
  {
    var one := Batch(t0, 1);
    BatchRun(START, t0, t0, 1, c);
    BatchRun(AfterHalves(START, one), t0, t0, 1, c);
    LegalConcat(START, one, one, t0, c);
    BatchRun(AfterHalves(START, one + one), t0, t0, 1, c);
    LegalConcat(START, one + one, one, t0, c);
    BatchRun(AfterHalves(START, one + one + one), t0, t0, 1, c);
    LegalConcat(START, one + one + one, one, t0, c);
  }

  /** After w waves. */
  function Waved(t0: nat, c: nat, w: nat): Overlapping {
    var n := 4 + c * w;
    Overlapping(Account(n, if w == 0 then None else Some(t0 + LOCK_MS * w)), 0, n)
  }

  lemma WaveCount(c: nat, w: nat)
    requires w > 0
    ensures c * (w - 1) + c == c * w
  {}

  lemma WaveRun(t0: nat, from: nat, c: nat, w: nat)
    requires c > 0 && w > 0 && from <= t0 + LOCK_MS * (w - 1)
    ensures var at := t0 + LOCK_MS * (w - 1);
            && AfterHalves(Waved(t0, c, w - 1), Batch(at, c)) == Waved(t0, c, w)
            && Legal(Waved(t0, c, w - 1), Batch(at, c), from, c) && Last(Batch(at, c), from) == at
  {
    BatchRun(Waved(t0, c, w - 1), from, t0 + LOCK_MS * (w - 1), c, c);
    WaveCount(c, w);
  }

  lemma WaveAppended(t0: nat, c: nat, w: nat, before: seq<Half>)
    requires c > 0 && w > 0 && Last(before, t0) <= t0 + LOCK_MS * (w - 1)
    requires AfterHalves(START, before) == Waved(t0, c, w - 1) && Legal(START, before, t0, c)
    ensures var hs, at := before + Batch(t0 + LOCK_MS * (w - 1), c), t0 + LOCK_MS * (w - 1);
            AfterHalves(START, hs) == Waved(t0, c, w) && Legal(START, hs, t0, c) && Last(hs, t0) == at
  {
    WaveRun(t0, Last(before, t0), c, w);
    LegalConcat(START, before, Batch(t0 + LOCK_MS * (w - 1), c), t0, c);
  }

  lemma {:induction false} WavesRun(t0: nat, c: nat, w: nat)
    requires c > 0
    ensures AfterHalves(START, Waves(t0, c, w)) == Waved(t0, c, w) && Legal(START, Waves(t0, c, w), t0, c)
    ensures Last(Waves(t0, c, w), t0) == if w == 0 then t0 else t0 + LOCK_MS * (w - 1)
  {
    if w == 0 {
      FourGuesses(t0, c);
    } else {
      WavesRun(t0, c, w - 1);
      WaveAppended(t0, c, w, Waves(t0, c, w - 1));
    }
  }

  lemma {:induction false} NoLater(s: Overlapping, hs: seq<Half>, t0: nat, c: nat, k: nat)
    requires Legal(s, hs, t0, c) && k < |hs|
    ensures hs[k].at <= Last(hs, t0)
  {
    if k < |hs| - 1 {
      NoLater(s, hs[..|hs| - 1], t0, c, k);
    }
  }

  /** For every c > 0 and T some run gets exactly that many checked within T. */
  lemma OverlapBoundIsReached(t0: nat, c: nat, T: nat)
    requires c > 0
    ensures var hs := Waves(t0, c, 1 + T / LOCK_MS);
            && Legal(START, hs, t0, c)
            && (forall k :: 0 <= k < |hs| ==> hs[k].at <= t0 + T)
            && AfterHalves(START, hs).checked == 4 + c * (1 + T / 900000)
  {
    var w := 1 + T / LOCK_MS;
    var hs := Waves(t0, c, w);
    WavesRun(t0, c, w);
    assert LOCK_MS * (w - 1) <= T;
    forall k | 0 <= k < |hs| ensures hs[k].at <= t0 + T { NoLater(START, hs, t0, c, k); }
  }

  // ------------------------------------------------------------------ the service

  class User {
    var failedLoginAttempts: nat
    var lockedUntil: Option<nat>
    var isActive: bool

    constructor ()
      ensures View() == CLEAR && isActive
    {
      failedLoginAttempts, lockedUntil, isActive := 0, None, true;
    }

    ghost function View(): Account
      reads this
    {
      Account(failedLoginAttempts, lockedUntil)
    }

    method RecordLoginAttempt(success: bool, now: nat)
      modifies this`failedLoginAttempts, this`lockedUntil
      ensures View() == if success then CLEAR else Failed(old(View()), now)
    {
      if success {
        failedLoginAttempts, lockedUntil := 0, None;
      } else {
        failedLoginAttempts := failedLoginAttempts + 1;
        if failedLoginAttempts >= MAX_FAILED { lockedUntil := Some(now + LOCK_MS); }
      }
    }

    method UnlockAccount()
      modifies this`failedLoginAttempts, this`lockedUntil
      ensures View() == CLEAR
    {
      failedLoginAttempts, lockedUntil := 0, None;
    }

    /** `validateUser` for an account that exists; a deactivated one is refused before
        anything is looked at. */
    method ValidateUser(correct: bool, checkedAt: nat, recordedAt: nat) returns (outcome: Outcome)
      modifies this`failedLoginAttempts, this`lockedUntil
      ensures isActive ==> outcome == OutcomeOf(old(View()), Attempt(checkedAt, recordedAt, correct))
      ensures outcome == Right <==> isActive && correct
                                    && !(old(lockedUntil).Some? && checkedAt < old(lockedUntil).value)
      ensures outcome == Wrong <==> isActive && !correct
                                    && !(old(lockedUntil).Some? && checkedAt < old(lockedUntil).value)
      ensures isActive ==> View() == Next(old(View()), Attempt(checkedAt, recordedAt, correct))
      ensures !isActive ==> outcome == Refused && View() == old(View())
    {
      if !isActive { return Refused; }
      if lockedUntil.Some? && checkedAt < lockedUntil.value { return Refused; }
      RecordLoginAttempt(correct, recordedAt);
      outcome := if correct then Right else Wrong;
    }
  }
}
