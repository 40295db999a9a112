/** Quiet hours: a window of the day given as two `HH:MM` strings, decided by comparing
    strings. */
module QuietHours {
  import opened Text

  /** JavaScript's `<=` on strings. */
  predicate LexLe(a: string, b: string) {
    if a == "" then true
    else if b == "" then false
    else if a[0] != b[0] then a[0] < b[0]
    else LexLe(a[1..], b[1..])
  }

  function TwoDigits(n: nat): string
    requires n < 100
  {
    ['0' + (n / 10) as char, '0' + (n % 10) as char]
  }

  /** A minute of the day, or of the hour after it, as `HH:MM`. */
  function Clock(minute: nat): string
    requires minute < 1500
  {
    TwoDigits(minute / 60) + (":" + TwoDigits(minute % 60))
  }

  const DAY := 1440

  /** The comparison in `isInQuietHours`. */
  predicate Within(current: string, start: string, end: string) {
    if LexLe(start, end) then LexLe(start, current) && LexLe(current, end)
    else LexLe(start, current) || LexLe(current, end)
  }

  datatype Schedule = Schedule(enabled: bool, start: Option<string>, end: Option<string>)

  predicate Given(s: Option<string>) { s.Some? && s.value != "" }

  predicate IsInQuietHours(prefs: Option<Schedule>, current: string) {
    && prefs.Some? && prefs.value.enabled && Given(prefs.value.start) && Given(prefs.value.end)
    && Within(current, prefs.value.start.value, prefs.value.end.value)
  }

  // ------------------------------------------------------------- string against number

  lemma DigitsOrder(a: nat, b: nat, r: string, s: string)
    requires a < 100 && b < 100
    ensures LexLe(TwoDigits(a) + r, TwoDigits(b) + s) <==> a < b || (a == b && LexLe(r, s))
  {
    var x, y := TwoDigits(a) + r, TwoDigits(b) + s;
    assert x[1..][1..] == r && y[1..][1..] == s;
  }

  /** On padded clock strings the string order is the order of the minutes. */
  lemma ClockOrder(a: nat, b: nat)
    requires a < 1500 && b < 1500
    ensures LexLe(Clock(a), Clock(b)) <==> a <= b
  {
    var x, y := ":" + TwoDigits(a % 60), ":" + TwoDigits(b % 60);
    DigitsOrder(a / 60, b / 60, x, y);
    assert x[1..] == TwoDigits(a % 60) + "" && y[1..] == TwoDigits(b % 60) + "";
    DigitsOrder(a % 60, b % 60, "", "");
  }

  lemma Wrapped(x: int)
    requires -DAY < x < DAY
    ensures x % DAY == if x < 0 then x + DAY else x
  {}

  lemma Cyclic(t: nat, s: nat, e: nat)
    requires t < DAY && s < DAY && e < DAY
    ensures (if s <= e then s <= t <= e else s <= t || t <= e) <==> (t - s) % DAY <= (e - s) % DAY
  {
    Wrapped(t - s);
    Wrapped(e - s);
  }

  lemma ClockTexts()
    ensures Clock(0) == "00:00" && Clock(547) == "09:07" && Clock(1439) == "23:59" && Clock(1440) == "24:00"
  {}

  /** The comparison decides the cyclic window, whether it spans midnight or not: the
      time since the start is at most the window's length. */
  lemma WindowIff(t: nat, s: nat, e: nat)
    requires t < 1440 && s < 1440 && e < 1440
    ensures IsInQuietHours(Some(Schedule(true, Some(Clock(s)), Some(Clock(e)))), Clock(t))
            <==> (t - s) % 1440 <= (e - s) % 1440
  {
    assert Clock(s) != "" && Clock(e) != "";
    WithinIff(t, s, e);
    Cyclic(t, s, e);
  }

  lemma WithinIff(t: nat, s: nat, e: nat)
    requires t < 1500 && s < 1500 && e < 1500
    ensures Within(Clock(t), Clock(s), Clock(e)) <==> if s <= e then s <= t <= e else s <= t || t <= e
  {
    ClockOrder(s, e);
    ClockOrder(s, t);
    ClockOrder(t, e);
  }

  // -------------------------------------------------- bounds that are any strings at all

  lemma {:induction false} LexTotal(a: string, b: string)
    ensures LexLe(a, b) || LexLe(b, a)
  {
    if a != "" && b != "" { LexTotal(a[1..], b[1..]); }
  }

  lemma {:induction false} LexTransitive(a: string, b: string, c: string)
    requires LexLe(a, b) && LexLe(b, c)
    ensures LexLe(a, c)
  {
    if a != "" && b != "" && c != "" && a[0] == b[0] == c[0] { LexTransitive(a[1..], b[1..], c[1..]); }
  }

  /** How many of the first n minutes come before p begins to hold. */
  function Boundary(p: nat -> bool, n: nat): (r: nat)
    ensures r <= n
  {
    if n == 0 then 0 else Boundary(p, n - 1) + if p(n - 1) then 0 else 1
  }

  predicate Stays(p: nat -> bool, n: nat) { forall t, u :: 0 <= t <= u < n && p(t) ==> p(u) }

  lemma {:induction false} BoundaryIs(p: nat -> bool, n: nat, t: nat)
    requires Stays(p, n) && t < n
    ensures p(t) <==> Boundary(p, n) <= t
  {
    if n > 1 { BoundaryIs(p, n - 1, n - 2); }
    if t < n - 1 { BoundaryIs(p, n - 1, t); }
  }

  function FromStart(s: string): nat -> bool { (t: nat) => t < DAY && LexLe(s, Clock(t)) }
  function PastEnd(s: string): nat -> bool { (t: nat) => t < DAY && !LexLe(Clock(t), s) }

  /** The minutes of the day before a start, and up to an end. */
  function Before(s: string): nat { Boundary(FromStart(s), DAY) }
  function UpTo(s: string): nat { Boundary(PastEnd(s), DAY) }

  lemma FromStartStays(s: string, t: nat, u: nat)
    requires t <= u < DAY && FromStart(s)(t)
    ensures FromStart(s)(u)
  {
    ClockOrder(t, u);
    LexTransitive(s, Clock(t), Clock(u));
  }

  lemma PastEndStays(s: string, t: nat, u: nat)
    requires t <= u < DAY && PastEnd(s)(t)
    ensures PastEnd(s)(u)
  {
    ClockOrder(t, u);
    if LexLe(Clock(u), s) { LexTransitive(Clock(t), Clock(u), s); }
  }

  lemma CutsStay(s: string)
    ensures Stays(FromStart(s), DAY) && Stays(PastEnd(s), DAY)
  {
    var p, q := FromStart(s), PastEnd(s);
    forall t, u | 0 <= t <= u < DAY && p(t) ensures p(u) { FromStartStays(s, t, u); }
    forall t, u | 0 <= t <= u < DAY && q(t) ensures q(u) { PastEndStays(s, t, u); }
  }

  /** Any string cuts the day in two, as a start and as an end. */
  lemma StringCuts(s: string, t: nat)
    requires t < DAY
    ensures LexLe(s, Clock(t)) <==> Before(s) <= t
    ensures LexLe(Clock(t), s) <==> t < UpTo(s)
  {
    CutsStay(s);
    BoundaryIs(FromStart(s), DAY, t);
    BoundaryIs(PastEnd(s), DAY, t);
    assert FromStart(s)(t) == LexLe(s, Clock(t)) && PastEnd(s)(t) == !LexLe(Clock(t), s);
  }

  /** Whatever the two strings are, the quiet minutes are one stretch of the day, or the day
      without one. */
  lemma AnyWindow(t: nat, start: string, end: string)
    requires t < DAY
    ensures var from, to := Before(start), UpTo(end);
            if LexLe(start, end) then from <= to && (Within(Clock(t), start, end) <==> from <= t < to)
            else to <= from && (Within(Clock(t), start, end) <==> !(to <= t < from))
  {
    StringCuts(start, t);
    StringCuts(end, t);
    BoundsInOrder(start, end);
  }

  lemma BoundsInOrder(start: string, end: string)
    ensures if LexLe(start, end) then Before(start) <= UpTo(end) else UpTo(end) <= Before(start)
  {
    var from, to := Before(start), UpTo(end);
    if LexLe(start, end) && to < from {
      StringCuts(start, to);
      StringCuts(end, to);
      LexTotal(start, Clock(to));
      LexTransitive(Clock(to), start, end);
      assert false;
    }
    if !LexLe(start, end) && from < to {
      StringCuts(start, from);
      StringCuts(end, from);
      LexTransitive(start, Clock(from), end);
      assert false;
    }
  }

  /** `9:00` for `09:00`. */
  function Unpadded(h: nat, m: nat): string
    requires h < 10 && m < 60
  {
    ['0' + h as char] + (":" + TwoDigits(m))
  }

  lemma UnpaddedOrder(t: nat, h: nat, m: nat)
    requires t < DAY && h < 10 && m < 60
    ensures LexLe(Clock(t), Unpadded(h, m)) <==> t < 600 * (h + 1)
    ensures LexLe(Unpadded(h, m), Clock(t)) <==> 600 * (h + 1) <= t
  {
    var x, y := Clock(t), Unpadded(h, m);
    assert x[0] == '0' + (t / 60 / 10) as char && y[0] == '0' + h as char;
    assert x[1..][0] == '0' + (t / 60 % 10) as char && y[1..][0] == ':';
  }

  /** An hour without its leading zero is taken for ten times the next hour: `0:30` for 10:00,
      `1:30` for 20:00, and from `2:00` on for a time after the end of the day. */
  lemma UnpaddedCuts(h: nat, m: nat)
    requires h < 10 && m < 60
    ensures var cut := if h < 2 then 600 * (h + 1) else DAY;
            Before(Unpadded(h, m)) == cut && UpTo(Unpadded(h, m)) == cut
  {
    var cut, v := if h < 2 then 600 * (h + 1) else DAY, Unpadded(h, m);
    UnpaddedOrder(cut - 1, h, m);
    StringCuts(v, cut - 1);
    if cut < DAY {
      UnpaddedOrder(cut, h, m);
      StringCuts(v, cut);
    }
  }

  /** A quiet window given as 9:00 to 17:00 is kept from midnight to 17:00. */
  lemma NineToFive(t: nat)
    requires t < DAY
    ensures Within(Clock(t), "9:00", Clock(1020)) <==> t <= 1020
  {
    assert Unpadded(9, 0) == "9:00";
    UnpaddedOrder(1020, 9, 0);
    UnpaddedOrder(t, 9, 0);
    ClockOrder(t, 1020);
  }

  /** Without the switch, or without a bound, no time is quiet. */
  lemma NeverQuiet(prefs: Option<Schedule>, current: string)
    requires prefs.None? || !prefs.value.enabled || prefs.value.start.GetOr("") == "" || prefs.value.end.GetOr("") == ""
    ensures !IsInQuietHours(prefs, current)
  {}

  /** All other preferences keep the stretch their two strings stand for. */
  lemma QuietIff(prefs: Option<Schedule>, t: nat)
    requires t < DAY
    requires prefs.Some? && prefs.value.enabled
    requires prefs.value.start.GetOr("") != "" && prefs.value.end.GetOr("") != ""
    ensures var from, to := Before(prefs.value.start.value), UpTo(prefs.value.end.value);
            IsInQuietHours(prefs, Clock(t))
            <==> if LexLe(prefs.value.start.value, prefs.value.end.value) then from <= t < to else t < to || from <= t
  {
    AnyWindow(t, prefs.value.start.value, prefs.value.end.value);
  }

  // ------------------------------------------------------------- the midnight hour

  /** What `toLocaleTimeString('en-US', { hour12: false, … })` gives where the locale
      data count the hours from 1 to 24: the first hour of the day prints as 24. */
  function Printed24(t: nat): string
    requires t < DAY
  {
    Clock(if t < 60 then t + DAY else t)
  }

  /** Printed that way, the decision is still the cyclic window's exactly outside the
      midnight hour, and inside it for the times that are out of a window not spanning
      midnight or in one that does. */
  lemma Printed24Iff(t: nat, s: nat, e: nat)
    requires t < DAY && s < DAY && e < DAY
    ensures (Within(Printed24(t), Clock(s), Clock(e)) <==> Within(Clock(t), Clock(s), Clock(e)))
            <==> t >= 60 || (if s <= e then t < s || e < t else t <= e || s <= t)
  {
    WithinIff(t, s, e);
    if t < 60 { WithinIff(t + DAY, s, e); }
  }

  /** A quiet window 00:00 to 06:00 is not kept at half past midnight. */
  lemma MidnightExample()
    ensures Within(Clock(30), Clock(0), Clock(360)) && !Within(Printed24(30), Clock(0), Clock(360))
  {
    WithinIff(30, 0, 360);
    WithinIff(30 + DAY, 0, 360);
  }
}
