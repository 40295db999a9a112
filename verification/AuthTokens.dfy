/** Refresh tokens and password-reset tokens: keys with a time to live in Redis, against
    the history of what the callers were told. */
module AuthTokens {
  import opened Text

  // --------------------------------------------------------------------- Redis

  /** Milliseconds; an entry is gone from `expiresAt` on. */
  datatype Entry = Entry(value: string, expiresAt: nat)

  type Redis = map<string, Entry>

  predicate Exists(r: Redis, key: string, now: nat) { key in r && now < r[key].expiresAt }

  function Get(r: Redis, key: string, now: nat): Option<string> {
    if Exists(r, key, now) then Some(r[key].value) else None
  }

  function SetEx(r: Redis, key: string, seconds: nat, value: string, now: nat): Redis {
    r[key := Entry(value, now + 1000 * seconds)]
  }

  /** `KEYS prefix*`: expired keys are not listed. */
  function KeysWith(r: Redis, prefix: string, now: nat): set<string> {
    set k | k in r && StartsWith(k, prefix) && Exists(r, k, now)
  }

  // ---------------------------------------------------------------------- keys

  const REFRESH_TOKEN_PREFIX := "refresh_token:"
  const PASSWORD_RESET_PREFIX := "password_reset:"
  const RESET_SECONDS := 3600

  function UserPrefix(u: string): string { REFRESH_TOKEN_PREFIX + (u + ":") }
  function RefreshKey(u: string, t: string): string { REFRESH_TOKEN_PREFIX + (u + (":" + t)) }
  function ResetKey(t: string): string { PASSWORD_RESET_PREFIX + t }

  /** User ids are UUIDs: what matters is that they hold no colon. */
  predicate UserId(u: string) { u != "" && ':' !in u }

  lemma AtFront(v: string, tail: string, k: nat)
    ensures k < |v| ==> (v + tail)[k] == v[k] && v[k] in v
  {}

  lemma FirstColon(u: string, v: string, a: string, b: string)
    requires ':' !in v && u + (":" + a) == v + (":" + b)
    ensures |v| <= |u|
  {
    assert (u + (":" + a))[|u|] == ':';
    AtFront(v, ":" + b, |u|);
  }

  lemma ColonSplits(u: string, v: string, a: string, b: string)
    requires ':' !in u && ':' !in v && u + (":" + a) == v + (":" + b)
    ensures u == v && a == b
  {
    FirstColon(u, v, a, b);
    FirstColon(v, u, b, a);
    Cut(u, ":" + a);
    Cut(v, ":" + b);
    Cut(":", a);
    Cut(":", b);
  }

  /** The key determines user and token, whatever the token looks like. */
  lemma RefreshKeyInjective(u: string, v: string, s: string, t: string)
    requires UserId(u) && UserId(v) && RefreshKey(u, s) == RefreshKey(v, t)
    ensures u == v && s == t
  {
    Cut(REFRESH_TOKEN_PREFIX, u + (":" + s));
    Cut(REFRESH_TOKEN_PREFIX, v + (":" + t));
    ColonSplits(u, v, s, t);
  }

  /** The deletion pattern of a user matches that user's keys and no others. */
  lemma PrefixMatchesIff(u: string, v: string, t: string)
    requires UserId(u) && UserId(v)
    ensures StartsWith(RefreshKey(v, t), UserPrefix(u)) <==> u == v
  {
    var key := RefreshKey(v, t);
    if u == v {
      assert u + (":" + t) == (u + ":") + t;
      assert key == UserPrefix(u) + t;
    }
    if StartsWith(key, UserPrefix(u)) {
      var rest := key[|UserPrefix(u)|..];
      assert key == UserPrefix(u) + rest;
      assert UserPrefix(u) + rest == RefreshKey(u, rest) by { assert (u + ":") + rest == u + (":" + rest); }
      RefreshKeyInjective(u, v, rest, t);
    }
  }

  lemma ResetKeysApart(t: string, u: string, s: string)
    ensures ResetKey(t) != RefreshKey(u, s) && !StartsWith(ResetKey(t), UserPrefix(u))
  {
    assert ResetKey(t)[0] == 'p' && RefreshKey(u, s)[0] == 'r' && UserPrefix(u)[0] == 'r';
  }

  lemma ResetKeyInjective(s: string, t: string)
    requires ResetKey(s) == ResetKey(t)
    ensures s == t
  {
    Cut(PASSWORD_RESET_PREFIX, s);
    Cut(PASSWORD_RESET_PREFIX, t);
  }

  // -------------------------------------------------------------------- expiry

  function UnitSeconds(c: char): Option<nat> {
    if c == 's' then Some(1)
    else if c == 'm' then Some(60)
    else if c == 'h' then Some(3600)
    else if c == 'd' then Some(86400)
    else None
  }

  /** Seconds; anything that is not digits and a unit counts as 15 minutes. */
  function ParseExpiry(s: string): nat {
    if |s| < 2 || UnitSeconds(s[|s| - 1]).None? || !AllDigits(s[..|s| - 1]) then 900
    else DigitsValue(s[..|s| - 1]) * UnitSeconds(s[|s| - 1]).value
  }

  /** A printed number and a unit read as that many units. */
  lemma ParsedExpiry(n: nat, unit: char)
    requires UnitSeconds(unit).Some?
    ensures ParseExpiry(ToDecimal(n) + [unit]) == n * UnitSeconds(unit).value
  {
    var s := ToDecimal(n) + [unit];
    assert s[..|s| - 1] == ToDecimal(n);
    DecimalValue(n);
  }

  /** Seconds, minutes, hours and days in numbers, and 15 minutes for whatever is not digits
      and one of the four letters. */
  lemma ExpiryInSeconds(n: nat, s: string)
    ensures ParseExpiry(ToDecimal(n) + "s") == n && ParseExpiry(ToDecimal(n) + "m") == 60 * n
    ensures ParseExpiry(ToDecimal(n) + "h") == 3600 * n && ParseExpiry(ToDecimal(n) + "d") == 86400 * n
    ensures |s| < 2 || s[|s| - 1] !in "smhd" || (exists i :: 0 <= i < |s| - 1 && !IsDigit(s[i])) ==>
              ParseExpiry(s) == 900
  {
    ParsedExpiry(n, 's');
    ParsedExpiry(n, 'm');
    ParsedExpiry(n, 'h');
    ParsedExpiry(n, 'd');
    if i :| 0 <= i < |s| - 1 && !IsDigit(s[i]) { assert s[..|s| - 1][i] == s[i]; }
  }

  lemma KeysInRedis()
    ensures RefreshKey("u", "t") == "refresh_token:u:t" && ResetKey("t") == "password_reset:t"
    ensures UserPrefix("u") == "refresh_token:u:"
  {}

  // ---------------------------------------------------------------- operations

  /** Where a password reset stops with an exception, if anywhere. */
  datatype Stop = Nowhere | AtPassword | AtDelete | AtInvalidate

  datatype Op =
    | Login(user: string, token: string)
    | Logout(user: string, token: string)
    | RequestReset(found: Option<string>, token: string)
    | ResetPassword(token: string, password: string, stop: Stop)

  datatype Call = Call(now: nat, op: Op)

  /** `users` holds the passwords by user id; `expiry` is the refresh expiry in seconds. */
  datatype State = State(redis: Redis, users: map<string, string>)

  function InvalidateAll(r: Redis, u: string, now: nat): Redis { r - KeysWith(r, UserPrefix(u), now) }

  /** The user a reset token stands for, if it works now. */
  function ResetUser(s: State, token: string, now: nat): Option<string> {
    match Get(s.redis, ResetKey(token), now)
    case None => None
    case Some(u) => if u == "" then None else Some(u)
  }

  function AfterReset(s: State, u: string, token: string, password: string, stop: Stop, now: nat): State {
    if u !in s.users || stop == AtPassword then s
    else
      var changed := s.(users := s.users[u := password]);
      if stop == AtDelete then changed
      else
        var deleted := changed.(redis := changed.redis - {ResetKey(token)});
        if stop == AtInvalidate then deleted else deleted.(redis := InvalidateAll(deleted.redis, u, now))
  }

  function Next(s: State, c: Call, expiry: nat): State {
    match c.op
    case Login(u, t) => if expiry == 0 then s else s.(redis := SetEx(s.redis, RefreshKey(u, t), expiry, "1", c.now))
    case Logout(u, t) => s.(redis := s.redis - {RefreshKey(u, t)})
    case RequestReset(found, t) =>
      if found.None? then s else s.(redis := SetEx(s.redis, ResetKey(t), RESET_SECONDS, found.value, c.now))
    case ResetPassword(t, password, stop) =>
      match ResetUser(s, t, c.now)
      case None => s
      case Some(u) => AfterReset(s, u, t, password, stop, c.now)
  }

  // ------------------------------------------------------------------- history

  /** What happened, as the callers see it. */
  datatype Seen =
    | Stored(user: string, token: string, at: nat)
    | LoggedOut(user: string, token: string)
    | Requested(token: string, user: string, at: nat)
    | Used(token: string)
    | Invalidated(user: string)

  function Observed(s: State, c: Call, expiry: nat): seq<Seen> {
    match c.op
    case Login(u, t) => if expiry == 0 then [] else [Stored(u, t, c.now)]
    case Logout(u, t) => [LoggedOut(u, t)]
    case RequestReset(found, t) => if found.None? then [] else [Requested(t, found.value, c.now)]
    case ResetPassword(t, _, stop) =>
      match ResetUser(s, t, c.now)
      case None => []
      case Some(u) =>
        if u !in s.users || stop == AtPassword || stop == AtDelete then []
        else if stop == AtInvalidate then [Used(t)]
        else [Used(t), Invalidated(u)]
  }

  function After(s: State, calls: seq<Call>, expiry: nat): State {
    if calls == [] then s else Next(After(s, calls[..|calls| - 1], expiry), calls[|calls| - 1], expiry)
  }

  function History(s: State, calls: seq<Call>, expiry: nat): seq<Seen> {
    if calls == [] then []
    else
      var init := calls[..|calls| - 1];
      History(s, init, expiry) + Observed(After(s, init, expiry), calls[|calls| - 1], expiry)
  }

  /** The event takes the token away from the user, or gives it a new time of storing. */
  predicate Ends(e: Seen, u: string, t: string) {
    e == LoggedOut(u, t) || e == Invalidated(u) || (e.Stored? && e.user == u && e.token == t)
  }

  /** Stored at event i, less than the expiry ago; not logged out nor reset since. */
  predicate ValidSince(log: seq<Seen>, i: int, u: string, t: string, now: nat, expiry: nat) {
    && 0 <= i < |log| && log[i].Stored? && log[i].user == u && log[i].token == t
    && now < log[i].at + 1000 * expiry
    && forall j :: i < j < |log| ==> !Ends(log[j], u, t)
  }

  ghost predicate ValidByHistory(log: seq<Seen>, u: string, t: string, now: nat, expiry: nat) {
    exists i :: ValidSince(log, i, u, t, now, expiry)
  }

  predicate Spends(e: Seen, t: string) { e == Used(t) || (e.Requested? && e.token == t) }

  /** Requested for `u` at event i, less than an hour ago, and neither used nor requested again since. */
  predicate ResettableSince(log: seq<Seen>, i: int, t: string, u: string, now: nat) {
    && 0 <= i < |log| && log[i].Requested? && log[i].token == t && log[i].user == u
    && now < log[i].at + 3600000
    && forall j :: i < j < |log| ==> !Spends(log[j], t)
  }

  ghost predicate ResettableByHistory(log: seq<Seen>, t: string, u: string, now: nat) {
    exists i :: ResettableSince(log, i, t, u, now)
  }

  // ---------------------------------------------------------------- refinement

  lemma ValidAppend(log: seq<Seen>, e: Seen, u: string, t: string, now: nat, expiry: nat)
    ensures ValidByHistory(log + [e], u, t, now, expiry)
            <==> if e.Stored? && e.user == u && e.token == t then now < e.at + 1000 * expiry
                 else !Ends(e, u, t) && ValidByHistory(log, u, t, now, expiry)
  {
    var more := log + [e];
    if i :| ValidSince(more, i, u, t, now, expiry) {
      if i < |log| {
        assert !Ends(more[|log|], u, t);
        assert forall j :: 0 <= j < |log| ==> more[j] == log[j];
        assert ValidSince(log, i, u, t, now, expiry);
      }
    }
    if i :| ValidSince(log, i, u, t, now, expiry) {
      if !Ends(e, u, t) { assert ValidSince(more, i, u, t, now, expiry); }
    }
    if e.Stored? && e.user == u && e.token == t && now < e.at + 1000 * expiry {
      assert ValidSince(more, |log|, u, t, now, expiry);
    }
  }

  lemma ResettableAppend(log: seq<Seen>, e: Seen, t: string, u: string, now: nat)
    ensures ResettableByHistory(log + [e], t, u, now)
            <==> if e.Requested? && e.token == t then e.user == u && now < e.at + 3600000
                 else e != Used(t) && ResettableByHistory(log, t, u, now)
  {
    var more := log + [e];
    if i :| ResettableSince(more, i, t, u, now) {
      if i < |log| {
        assert !Spends(more[|log|], t);
        assert forall j :: 0 <= j < |log| ==> more[j] == log[j];
        assert ResettableSince(log, i, t, u, now);
      }
    }
    if i :| ResettableSince(log, i, t, u, now) {
      if !Spends(e, t) { assert ResettableSince(more, i, t, u, now); }
    }
    if e.Requested? && e.token == t && e.user == u && now < e.at + 3600000 {
      assert ResettableSince(more, |log|, t, u, now);
    }
  }

  predicate WellFormed(s: State) { forall u :: u in s.users ==> UserId(u) }

  /** Whose ids appear in the call. */
  predicate CallOk(c: Call) {
    match c.op
    case Login(u, _) => UserId(u)
    case Logout(u, _) => UserId(u)
    case RequestReset(found, _) => found.Some? ==> UserId(found.value)
    case ResetPassword(_, _, _) => true
  }

  predicate CallsOk(calls: seq<Call>, now: nat) {
    forall k :: 0 <= k < |calls| ==> CallOk(calls[k]) && calls[k].now <= now
  }

  lemma {:induction false} UsersKept(s: State, calls: seq<Call>, expiry: nat)
    requires WellFormed(s)
    ensures WellFormed(After(s, calls, expiry))
  {
    if calls != [] { UsersKept(s, calls[..|calls| - 1], expiry); }
  }

  /** What deleting all of a user's keys does to one refresh key, seen from later on. */
  lemma InvalidatedKey(r: Redis, v: string, u: string, t: string, at: nat, now: nat)
    requires UserId(u) && UserId(v) && at <= now
    ensures Exists(InvalidateAll(r, v, at), RefreshKey(u, t), now) <==> v != u && Exists(r, RefreshKey(u, t), now)
  {
    PrefixMatchesIff(v, u, t);
  }

  /** One call, seen through one refresh key. */
  lemma StepOnRefreshKey(s: State, c: Call, expiry: nat, u: string, t: string, now: nat)
    requires WellFormed(s) && CallOk(c) && c.now <= now && UserId(u)
    ensures Exists(Next(s, c, expiry).redis, RefreshKey(u, t), now)
            <==> match c.op
                 case Login(v, r) =>
                   if expiry > 0 && v == u && r == t then now < c.now + 1000 * expiry
                   else Exists(s.redis, RefreshKey(u, t), now)
                 case Logout(v, r) => !(v == u && r == t) && Exists(s.redis, RefreshKey(u, t), now)
                 case RequestReset(_, _) => Exists(s.redis, RefreshKey(u, t), now)
                 case ResetPassword(_, _, _) =>
                   Invalidated(u) !in Observed(s, c, expiry) && Exists(s.redis, RefreshKey(u, t), now)
  {
    match c.op
    case Login(v, r) => if RefreshKey(v, r) == RefreshKey(u, t) { RefreshKeyInjective(v, u, r, t); }
    case Logout(v, r) => if RefreshKey(v, r) == RefreshKey(u, t) { RefreshKeyInjective(v, u, r, t); }
    case RequestReset(_, r) => ResetKeysApart(r, u, t);
    case ResetPassword(r, _, _) =>
      ResetKeysApart(r, u, t);
      var who := ResetUser(s, r, c.now);
      if who.Some? && who.value in s.users {
        InvalidatedKey(s.redis - {ResetKey(r)}, who.value, u, t, c.now, now);
      }
  }

  /** The refinement: over any run of logins, logouts, reset requests and resets, with
      resets breaking off anywhere, a refresh token is accepted exactly when the history
      says so. */
  lemma {:induction false} RefreshTokenIff(s: State, calls: seq<Call>, expiry: nat, u: string, t: string, now: nat)
    requires WellFormed(s) && s.redis == map[] && CallsOk(calls, now) && UserId(u)
    ensures Exists(After(s, calls, expiry).redis, RefreshKey(u, t), now)
            <==> ValidByHistory(History(s, calls, expiry), u, t, now, expiry)
  {
    if calls != [] {
      var init, last := calls[..|calls| - 1], calls[|calls| - 1];
      RefreshTokenIff(s, init, expiry, u, t, now);
      UsersKept(s, init, expiry);
      StepOnRefreshKey(After(s, init, expiry), last, expiry, u, t, now);
      HistoryStep(After(s, init, expiry), last, expiry, History(s, init, expiry), u, t, now);
    }
  }

  /** The same call, seen through the history. */
  lemma HistoryStep(s: State, c: Call, expiry: nat, log: seq<Seen>, u: string, t: string, now: nat)
    ensures ValidByHistory(log + Observed(s, c, expiry), u, t, now, expiry)
            <==> match c.op
                 case Login(v, r) =>
                   if expiry > 0 && v == u && r == t then now < c.now + 1000 * expiry
                   else ValidByHistory(log, u, t, now, expiry)
                 case Logout(v, r) => !(v == u && r == t) && ValidByHistory(log, u, t, now, expiry)
                 case RequestReset(_, _) => ValidByHistory(log, u, t, now, expiry)
                 case ResetPassword(_, _, _) =>
                   Invalidated(u) !in Observed(s, c, expiry) && ValidByHistory(log, u, t, now, expiry)
  {
    var seen := Observed(s, c, expiry);
    if seen == [] {
      assert log + seen == log;
    } else if |seen| == 1 {
      ValidAppend(log, seen[0], u, t, now, expiry);
    } else {
      ValidAppend(log, seen[0], u, t, now, expiry);
      ValidAppend(log + [seen[0]], seen[1], u, t, now, expiry);
      assert log + seen == log + [seen[0]] + [seen[1]];
    }
  }

  // -------------------------------------------------------------- reset tokens

  /** One call, seen through one reset key. */
  lemma StepOnResetKey(s: State, c: Call, expiry: nat, t: string, now: nat)
    requires WellFormed(s) && CallOk(c) && c.now <= now
    ensures Get(Next(s, c, expiry).redis, ResetKey(t), now)
            == match c.op
               case RequestReset(found, r) =>
                 if found.Some? && r == t then if now < c.now + 3600000 then found else None
                 else Get(s.redis, ResetKey(t), now)
               case ResetPassword(_, _, _) =>
                 if Used(t) in Observed(s, c, expiry) then None else Get(s.redis, ResetKey(t), now)
               case _ => Get(s.redis, ResetKey(t), now)
  {
    match c.op
    case Login(u, r) => ResetKeysApart(t, u, r);
    case Logout(u, r) => ResetKeysApart(t, u, r);
    case RequestReset(_, r) => if ResetKey(r) == ResetKey(t) { ResetKeyInjective(r, t); }
    case ResetPassword(r, _, _) =>
      if ResetKey(r) == ResetKey(t) { ResetKeyInjective(r, t); }
      var who := ResetUser(s, r, c.now);
      if who.Some? { ResetKeysApart(t, who.value, ""); }
  }

  lemma ResetHistoryStep(s: State, c: Call, expiry: nat, log: seq<Seen>, t: string, u: string, now: nat)
    ensures ResettableByHistory(log + Observed(s, c, expiry), t, u, now)
            <==> match c.op
                 case RequestReset(found, r) =>
                   if found.Some? && r == t then found.value == u && now < c.now + 3600000
                   else ResettableByHistory(log, t, u, now)
                 case ResetPassword(_, _, _) =>
                   Used(t) !in Observed(s, c, expiry) && ResettableByHistory(log, t, u, now)
                 case _ => ResettableByHistory(log, t, u, now)
  {
    var seen := Observed(s, c, expiry);
    if seen == [] {
      assert log + seen == log;
    } else if |seen| == 1 {
      ResettableAppend(log, seen[0], t, u, now);
    } else {
      ResettableAppend(log, seen[0], t, u, now);
      ResettableAppend(log + [seen[0]], seen[1], t, u, now);
      assert log + seen == log + [seen[0]] + [seen[1]];
    }
  }

  /** A reset token stands for a user exactly when it was requested for that user less
      than 3600 seconds ago and has neither been used up nor been issued again. */
  lemma {:induction false} ResetTokenIff(s: State, calls: seq<Call>, expiry: nat, t: string, u: string, now: nat)
    requires WellFormed(s) && s.redis == map[] && CallsOk(calls, now)
    ensures Get(After(s, calls, expiry).redis, ResetKey(t), now) == Some(u)
            <==> ResettableByHistory(History(s, calls, expiry), t, u, now)
    ensures ResetUser(After(s, calls, expiry), t, now) == Some(u)
            <==> u != "" && ResettableByHistory(History(s, calls, expiry), t, u, now)
  {
    if calls != [] {
      var init, last := calls[..|calls| - 1], calls[|calls| - 1];
      ResetTokenIff(s, init, expiry, t, u, now);
      UsersKept(s, init, expiry);
      StepOnResetKey(After(s, init, expiry), last, expiry, t, now);
      ResetHistoryStep(After(s, init, expiry), last, expiry, History(s, init, expiry), t, u, now);
    }
  }

  /** A working token does not work a second time exactly when the reset got past the
      password change and the deletion; one that breaks off before leaves it usable. */
  lemma SpentIff(s: State, t: string, password: string, stop: Stop, now: nat)
    requires WellFormed(s) && ResetUser(s, t, now).Some?
    ensures ResetUser(Next(s, Call(now, ResetPassword(t, password, stop)), 0), t, now).None?
            <==> ResetUser(s, t, now).value in s.users && stop != AtPassword && stop != AtDelete
  {
    StepOnResetKey(s, Call(now, ResetPassword(t, password, stop)), 0, t, now);
  }

  /** A reset, complete or not, changes no other user's password and takes no other
      user's refresh tokens. */
  lemma ResetSparesOthers(s: State, t: string, password: string, stop: Stop, at: nat, v: string, r: string, now: nat)
    requires WellFormed(s) && UserId(v) && at <= now && ResetUser(s, t, at) != Some(v)
    ensures var n := Next(s, Call(at, ResetPassword(t, password, stop)), 0);
            && (Exists(n.redis, RefreshKey(v, r), now) <==> Exists(s.redis, RefreshKey(v, r), now))
            && (v in n.users <==> v in s.users)
            && (v in s.users ==> n.users[v] == s.users[v])
  {
    StepOnRefreshKey(s, Call(at, ResetPassword(t, password, stop)), 0, v, r, now);
  }

  /** A completed reset gives its user the new password and takes all refresh tokens. */
  lemma ResetTakesAll(s: State, t: string, password: string, at: nat, r: string, now: nat)
    requires WellFormed(s) && ResetUser(s, t, at).Some? && ResetUser(s, t, at).value in s.users && at <= now
    ensures var n, u := Next(s, Call(at, ResetPassword(t, password, Nowhere)), 0), ResetUser(s, t, at).value;
            !Exists(n.redis, RefreshKey(u, r), now) && u in n.users && n.users[u] == password
  {
    StepOnRefreshKey(s, Call(at, ResetPassword(t, password, Nowhere)), 0, ResetUser(s, t, at).value, r, now);
  }

  /** What a reset with a working token does, by where it stops: the password changes unless the
      user is unknown or the change throws, the user's refresh tokens go only if it comes to its
      end. */
  lemma ResetExact(s: State, t: string, password: string, stop: Stop, at: nat, r: string, now: nat)
    requires WellFormed(s) && ResetUser(s, t, at).Some? && UserId(ResetUser(s, t, at).value) && at <= now
    ensures var n, u := Next(s, Call(at, ResetPassword(t, password, stop)), 0), ResetUser(s, t, at).value;
            && n.users == (if u in s.users && stop != AtPassword then s.users[u := password] else s.users)
            && (Exists(n.redis, RefreshKey(u, r), now)
                <==> Exists(s.redis, RefreshKey(u, r), now) && !(u in s.users && stop == Nowhere))
  {
    StepOnRefreshKey(s, Call(at, ResetPassword(t, password, stop)), 0, ResetUser(s, t, at).value, r, now);
  }

  /** Without a working token nothing happens. */
  lemma ResetRefused(s: State, t: string, password: string, stop: Stop, at: nat)
    requires ResetUser(s, t, at).None?
    ensures Next(s, Call(at, ResetPassword(t, password, stop)), 0) == s
  {}

  // ---------------------------------------------------------------- the service

  datatype Answer = Done | Unauthorized | Failed

  class AuthService {
    var redis: Redis
    var users: map<string, string>
    const refreshTokenExpiry: string

    constructor (users: map<string, string>, refreshTokenExpiry: string)
      ensures Abstract() == State(map[], users) && this.refreshTokenExpiry == refreshTokenExpiry
    {
      redis, this.users, this.refreshTokenExpiry := map[], users, refreshTokenExpiry;
    }

    ghost function Abstract(): State
      reads this
    {
      State(redis, users)
    }

    /** Redis refuses a time to live of zero: the login fails. */
    method StoreRefreshToken(user: string, token: string, now: nat) returns (a: Answer)
      modifies this`redis
      ensures Abstract() == Next(old(Abstract()), Call(now, Login(user, token)), ParseExpiry(refreshTokenExpiry))
      ensures a == if ParseExpiry(refreshTokenExpiry) == 0 then Failed else Done
    {
      var expirySeconds := ParseExpiry(refreshTokenExpiry);
      if expirySeconds == 0 { return Failed; }
      redis := SetEx(redis, RefreshKey(user, token), expirySeconds, "1", now);
      a := Done;
    }

    method ValidateRefreshToken(user: string, token: string, now: nat) returns (valid: bool)
      ensures valid <==> Exists(redis, RefreshKey(user, token), now)
    {
      valid := RefreshKey(user, token) in redis && now < redis[RefreshKey(user, token)].expiresAt;
    }

    /** The token is gone even when the user is not found afterwards. */
    method Logout(user: string, token: string, now: nat) returns (a: Answer)
      modifies this`redis
      ensures Abstract() == Next(old(Abstract()), Call(now, Op.Logout(user, token)), ParseExpiry(refreshTokenExpiry))
      ensures a == if user in users then Done else Failed
    {
      redis := redis - {RefreshKey(user, token)};
      a := if user in users then Done else Failed;
    }

    method RequestPasswordReset(found: Option<string>, token: string, now: nat)
      modifies this`redis
      ensures Abstract()
              == Next(old(Abstract()), Call(now, RequestReset(found, token)), ParseExpiry(refreshTokenExpiry))
    {
      if found.None? { return; }
      redis := SetEx(redis, ResetKey(token), RESET_SECONDS, found.value, now);
    }

    method InvalidateAllRefreshTokens(user: string, now: nat)
      modifies this`redis
      ensures redis == InvalidateAll(old(redis), user, now)
    {
      var keys := KeysWith(redis, UserPrefix(user), now);
      if keys != {} { redis := redis - keys; }
    }

    method ResetPassword(token: string, newPassword: string, stop: Stop, now: nat) returns (a: Answer)
      modifies this
      ensures Abstract()
              == Next(old(Abstract()), Call(now, Op.ResetPassword(token, newPassword, stop)),
                      ParseExpiry(refreshTokenExpiry))
      ensures a == Unauthorized <==> ResetUser(old(Abstract()), token, now).None?
      ensures a == Done <==> ResetUser(old(Abstract()), token, now).Some? && stop == Nowhere
                             && ResetUser(old(Abstract()), token, now).value in old(users)
    {
      var userId := Get(redis, ResetKey(token), now);
      if userId.None? || userId.value == "" { return Unauthorized; }
      if stop == AtPassword || userId.value !in users { return Failed; }
      users := users[userId.value := newPassword];
      if stop == AtDelete { return Failed; }
      redis := redis - {ResetKey(token)};
      if stop == AtInvalidate { return Failed; }
      InvalidateAllRefreshTokens(userId.value, now);
      a := Done;
    }
  }
}
