/** Reading and rewriting sshd_config. The file is a list of lines; a keyword and its
    value stand on one line. */
module SshdConfig {
  import opened Text
  import opened NumberTexts
  import opened ConfLines

  // ------------------------------------------------------------------ keywords

  function Lower(c: char): char { if 'A' <= c <= 'Z' then c - 'A' + 'a' else c }

  /** Equality without regard to case (the `i` flag). */
  predicate FoldEq(a: string, b: string) {
    |a| == |b| && forall i :: 0 <= i < |a| ==> Lower(a[i]) == Lower(b[i])
  }

  predicate IsWord(key: string) {
    key != "" && key[0] != '#' && forall i :: 0 <= i < |key| ==> !IsSpace(key[i])
  }

  /** What follows the keyword, white space first. */
  function AfterWord(t: string, key: string): Option<string> {
    if |t| > |key| && FoldEq(t[..|key|], key) && IsSpace(t[|key|]) then Some(t[|key|..]) else None
  }

  /** A line without its leading blanks and one comment sign. */
  function Uncomment(line: string): string {
    var t := TrimLeft(line);
    if t != "" && t[0] == '#' then TrimLeft(t[1..]) else t
  }

  /** The value of an active `keyword value` line. */
  function ActiveValue(line: string, key: string): Option<string> {
    match AfterWord(TrimLeft(line), key)
    case None => None
    case Some(rest) => if Trim(rest) == "" then None else Some(Trim(rest))
  }

  function Reader(key: string): string -> Option<string> { (line: string) => ActiveValue(line, key) }

  /** A line `updateSetting` takes for the keyword's: active or commented out. */
  function Updatable(key: string): string -> bool { (line: string) => AfterWord(Uncomment(line), key).Some? }

  /** The first line `f` gives a value for. */
  function FirstValue(lines: seq<string>, f: string -> Option<string>): Option<string> {
    if lines == [] then None
    else if f(lines[0]).Some? then f(lines[0])
    else FirstValue(lines[1..], f)
  }

  /** The first active value: what `getValue` finds. */
  function Read(lines: seq<string>, key: string): Option<string> { FirstValue(lines, Reader(key)) }

  function Directive(key: string, value: string): string { key + (" " + value) }

  predicate Value(v: string) { v != "" && Trimmed(v) }

  /** Letters are compared without regard to case, everything else as it is. */
  lemma FoldsLetters(c: char, i: nat)
    ensures i < 26 ==> Lower("ABCDEFGHIJKLMNOPQRSTUVWXYZ"[i]) == "abcdefghijklmnopqrstuvwxyz"[i]
    ensures c !in "ABCDEFGHIJKLMNOPQRSTUVWXYZ" ==> Lower(c) == c
  {
    assert "ABCDEFGHIJKLMNOPQRSTUVWXYZ"[0] == 'A' && "ABCDEFGHIJKLMNOPQRSTUVWXYZ"[25] == 'Z';
    if 'A' <= c <= 'Z' { assert "ABCDEFGHIJKLMNOPQRSTUVWXYZ"[c as int - 'A' as int] == c; }
  }

  // ------------------------------------------------------------------- writing

  /** The pattern's leading `\s*#?\s*` reaches back over blank lines and at most one
      line that is a lone comment sign: the replacement swallows them. */
  function RegionStart(lines: seq<string>, i: nat, hashUsed: bool): (j: nat)
    requires i <= |lines|
    ensures j <= i
  {
    if i == 0 then 0
    else if Blank(lines[i - 1]) then RegionStart(lines, i - 1, hashUsed)
    else if !hashUsed && Trim(lines[i - 1]) == "#" then RegionStart(lines, i - 1, true)
    else i
  }

  predicate Commented(line: string) {
    var t := TrimLeft(line);
    t != "" && t[0] == '#'
  }

  /** `updateSetting`: replaces the first updatable line, or appends one. */
  function SetValue(lines: seq<string>, key: string, value: string): seq<string> {
    match First(lines, Updatable(key))
    case None => lines + [Directive(key, value)]
    case Some(i) => Collapse(lines, RegionStart(lines, i, Commented(lines[i])), i, Directive(key, value))
  }

  // -------------------------------------------------------------- single lines

  lemma WordStart(t: string, key: string)
    requires IsWord(key) && AfterWord(t, key).Some?
    ensures t != "" && !IsSpace(t[0]) && t[0] != '#'
  {
    assert t[..|key|][0] == t[0];
    assert Lower(t[0]) == Lower(key[0]);
  }

  /** An active line is updatable for the same keyword. */
  lemma ActiveIsUpdatable(line: string, key: string)
    requires IsWord(key) && ActiveValue(line, key).Some?
    ensures Updatable(key)(line) && !Commented(line)
  {
    WordStart(TrimLeft(line), key);
  }

  lemma WordsAgree(t: string, key1: string, key2: string)
    requires IsWord(key1) && IsWord(key2) && AfterWord(t, key1).Some? && AfterWord(t, key2).Some?
    ensures FoldEq(key1, key2)
  {
    WordLength(t, key1, key2);
    WordLength(t, key2, key1);
    assert forall i :: 0 <= i < |key1| ==> t[..|key1|][i] == t[..|key2|][i];
  }

  lemma WordLength(t: string, key1: string, key2: string)
    requires IsWord(key2) && AfterWord(t, key1).Some? && AfterWord(t, key2).Some?
    ensures |key2| <= |key1|
  {
    if |key1| < |key2| {
      assert t[..|key2|][|key1|] == t[|key1|];
      assert Lower(t[|key1|]) == Lower(key2[|key1|]);
      SpaceIsLower(t[|key1|], key2[|key1|]);
      assert false;
    }
  }

  lemma SpaceIsLower(c: char, d: char)
    requires IsSpace(c) && Lower(c) == Lower(d)
    ensures IsSpace(d)
  {}

  /** A line updatable for one keyword is not active for another. */
  lemma OneWordPerLine(line: string, key1: string, key2: string)
    requires IsWord(key1) && IsWord(key2) && Updatable(key1)(line) && ActiveValue(line, key2).Some?
    ensures FoldEq(key1, key2)
  {
    ActiveIsUpdatable(line, key2);
    WordsAgree(Uncomment(line), key1, key2);
  }

  lemma ForeignWord(line: string, key1: string, key2: string)
    requires IsWord(key1) && IsWord(key2) && !FoldEq(key1, key2) && Updatable(key1)(line)
    ensures ActiveValue(line, key2).None?
  {
    if ActiveValue(line, key2).Some? {
      OneWordPerLine(line, key1, key2);
      assert false;
    }
  }

  lemma EmptyNotActive(line: string, key: string)
    requires IsWord(key) && Empty(line)
    ensures ActiveValue(line, key).None?
  {
    TrimLeftBlank(line);
    var t := TrimLeft(line);
    if !Blank(line) {
      LoneHash(t);
      if AfterWord(t, key).Some? { WordStart(t, key); }
    }
  }

  lemma {:induction false} LoneHash(t: string)
    requires TrimRight(t) == "#"
    ensures t[0] == '#' && TrimLeft(t[1..]) == ""
  {
    if IsSpace(t[|t| - 1]) {
      LoneHash(t[..|t| - 1]);
      assert t[..|t| - 1][1..] == t[1..][..|t| - 2];
      AppendBlank(t[..|t| - 1][1..], t[|t| - 1]);
      assert t[1..] == t[..|t| - 1][1..] + [t[|t| - 1]];
    }
  }

  lemma AppendBlank(s: string, c: char)
    requires TrimLeft(s) == "" && IsSpace(c)
    ensures TrimLeft(s + [c]) == ""
  {
    TrimLeftBlank(s);
    TrimLeftBlank(s + [c]);
  }

  /** A written directive is active for its keyword, with its value, and for no other. */
  lemma DirectiveReads(key: string, value: string, other: string)
    requires IsWord(key) && IsWord(other) && Value(value)
    ensures ActiveValue(Directive(key, value), other) == if FoldEq(key, other) then Some(value) else None
  {
    var d := Directive(key, value);
    assert d[0] == key[0];
    assert TrimLeft(d) == d;
    Cut(key, " " + value);
    assert d[|key|] == ' ';
    if FoldEq(key, other) {
      assert d[|other|..] == " " + value;
      assert TrimLeft(" " + value) == value by {
        Cut(" ", value);
        assert TrimLeft(value) == value;
      }
      TrimOfTrimmed(value);
    } else if AfterWord(d, other).Some? {
      assert AfterWord(d, key).Some? by { assert d[..|key|] == key; }
      WordsAgree(d, key, other);
      assert false;
    }
  }

  lemma WordTaken(word: string, gap: char, rest: string, key: string)
    requires IsWord(key) && FoldEq(word, key) && IsSpace(gap)
    ensures var t := word + ([gap] + rest);
            t != "" && !IsSpace(t[0]) && t[0] != '#' && AfterWord(t, key).Some?
  {
    var t := word + ([gap] + rest);
    assert Lower(word[0]) == Lower(key[0]) && t[0] == word[0];
    if IsSpace(word[0]) { SpaceIsLower(word[0], key[0]); }
    HashIsLower(word[0], key[0]);
    Cut(word, [gap] + rest);
    assert t[|key|] == gap;
  }

  /** A line with the keyword in any case is taken for it, blanks around and one comment sign
      before it. */
  lemma UpdatableLine(pad: string, pad2: string, word: string, gap: char, rest: string, key: string)
    requires Blank(pad) && Blank(pad2) && IsWord(key) && FoldEq(word, key) && IsSpace(gap)
    ensures Updatable(key)(pad + (word + ([gap] + rest)))
    ensures Updatable(key)(pad + ("#" + (pad2 + (word + ([gap] + rest)))))
  {
    WordTaken(word, gap, rest, key);
    UncommentPads(pad, pad2, word + ([gap] + rest));
  }

  lemma UncommentPads(pad: string, pad2: string, t: string)
    requires Blank(pad) && Blank(pad2) && t != "" && !IsSpace(t[0]) && t[0] != '#'
    ensures Uncomment(pad + t) == t && Uncomment(pad + ("#" + (pad2 + t))) == t
  {
    PadOf(pad, t);
    PadOf(pad2, t);
    Cut("#", pad2 + t);
    PadOf(pad, "#" + (pad2 + t));
  }

  lemma HashIsLower(c: char, d: char)
    requires Lower(c) == Lower(d) && d != '#'
    ensures c != '#'
  {}

  // --------------------------------------------------------------- whole files

  lemma {:induction false} ValueAppend(a: seq<string>, b: seq<string>, f: string -> Option<string>)
    ensures FirstValue(a + b, f) == if FirstValue(a, f).Some? then FirstValue(a, f) else FirstValue(b, f)
  {
    if a == [] {
      assert a + b == b;
    } else {
      assert (a + b)[1..] == a[1..] + b;
      ValueAppend(a[1..], b, f);
    }
  }

  lemma ValueOne(line: string, f: string -> Option<string>)
    ensures FirstValue([line], f) == f(line)
  {
    assert [line][1..] == [];
  }

  lemma ValuePush(lines: seq<string>, n: nat, m: nat, f: string -> Option<string>)
    requires n <= m < |lines|
    ensures FirstValue(lines[n..m + 1], f)
            == if FirstValue(lines[n..m], f).Some? then FirstValue(lines[n..m], f) else f(lines[m])
  {
    assert lines[n..m + 1] == lines[n..m] + [lines[m]];
    ValueAppend(lines[n..m], [lines[m]], f);
    ValueOne(lines[m], f);
  }

  /** Lines j to i replaced by one line. */
  function Collapse(lines: seq<string>, j: nat, i: nat, d: string): seq<string>
    requires j <= i < |lines|
  {
    lines[..j] + [d] + lines[i + 1..]
  }

  lemma CollapseNew(lines: seq<string>, j: nat, i: nat, d: string, f: string -> Option<string>)
    requires j <= i < |lines| && FirstValue(lines[..j], f).None? && f(d).Some?
    ensures FirstValue(Collapse(lines, j, i, d), f) == f(d)
  {
    ValueAppend(lines[..j] + [d], lines[i + 1..], f);
    ValueAppend(lines[..j], [d], f);
    ValueOne(d, f);
  }

  lemma CollapseAround(lines: seq<string>, j: nat, i: nat, d: string, f: string -> Option<string>)
    requires j <= i < |lines| && FirstValue(lines[j..i + 1], f).None? && f(d).None?
    ensures FirstValue(Collapse(lines, j, i, d), f) == FirstValue(lines, f)
  {
    ValueAppend(lines[..j] + [d], lines[i + 1..], f);
    ValueAppend(lines[..j], [d], f);
    ValueOne(d, f);
    assert lines == lines[..j] + lines[j..i + 1] + lines[i + 1..];
    ValueAppend(lines[..j] + lines[j..i + 1], lines[i + 1..], f);
    ValueAppend(lines[..j], lines[j..i + 1], f);
  }

  /** The swallowed lines are all blank or lone comment signs. */
  predicate Empty(line: string) { Blank(line) || Trim(line) == "#" }

  lemma {:induction false} RegionEmpty(lines: seq<string>, i: nat, hashUsed: bool, k: nat)
    requires i <= |lines| && RegionStart(lines, i, hashUsed) <= k < i
    ensures Empty(lines[k])
  {
    if k < i - 1 {
      RegionEmpty(lines, i - 1, if Blank(lines[i - 1]) then hashUsed else true, k);
    }
  }

  lemma {:induction false} NothingBetween(lines: seq<string>, j: nat, i: nat, f: string -> Option<string>)
    requires j <= i <= |lines| && forall k :: j <= k < i ==> f(lines[k]).None?
    ensures FirstValue(lines[j..i], f).None?
  {
    if j < i {
      NothingBetween(lines, j, i - 1, f);
      ValuePush(lines, j, i - 1, f);
    }
  }

  lemma NotUpdatableNotActive(line: string, key: string, other: string)
    requires IsWord(key) && IsWord(other) && FoldEq(key, other) && !Updatable(key)(line)
    ensures ActiveValue(line, other).None?
  {
    if ActiveValue(line, other).Some? {
      ActiveIsUpdatable(line, other);
      FoldedWord(Uncomment(line), other, key);
      assert false;
    }
  }

  lemma MatchedLineForeign(lines: seq<string>, key: string, i: nat, other: string, k: nat)
    requires IsWord(key) && IsWord(other) && !FoldEq(key, other) && i < |lines| && Updatable(key)(lines[i])
    requires RegionStart(lines, i, Commented(lines[i])) <= k <= i
    ensures ActiveValue(lines[k], other).None?
  {
    if k < i {
      RegionEmpty(lines, i, Commented(lines[i]), k);
      EmptyNotActive(lines[k], other);
    } else {
      ForeignWord(lines[i], key, other);
    }
  }

  lemma MatchReadsForeign(lines: seq<string>, key: string, i: nat, j: nat, other: string)
    requires IsWord(key) && IsWord(other) && !FoldEq(key, other) && i < |lines| && Updatable(key)(lines[i])
    requires j == RegionStart(lines, i, Commented(lines[i]))
    ensures FirstValue(lines[j..i + 1], Reader(other)).None?
  {
    var f := Reader(other);
    forall k | j <= k < i + 1 ensures f(lines[k]).None? { MatchedLineForeign(lines, key, i, other, k); }
    NothingBetween(lines, j, i + 1, f);
  }

  /** No active line of the keyword stands before its first updatable one. */
  lemma PrefixReadsNothing(lines: seq<string>, key: string, other: string, n: nat)
    requires IsWord(key) && IsWord(other) && FoldEq(key, other) && n <= |lines|
    requires First(lines, Updatable(key)).None? || n <= First(lines, Updatable(key)).value
    ensures FirstValue(lines[..n], Reader(other)).None?
  {
    forall k | 0 <= k < n ensures ActiveValue(lines[k], other).None? {
      RejectedBefore(lines, Updatable(key), k);
      NotUpdatableNotActive(lines[k], key, other);
    }
    NothingBetween(lines, 0, n, Reader(other));
    assert lines[..n] == lines[0..n];
  }

  lemma SetThenReadSame(lines: seq<string>, key: string, value: string, other: string)
    requires IsWord(key) && IsWord(other) && Value(value) && FoldEq(key, other)
    ensures Read(SetValue(lines, key, value), other) == Some(value)
  {
    var d, f := Directive(key, value), Reader(other);
    DirectiveReads(key, value, other);
    var at := First(lines, Updatable(key));
    if at.None? {
      PrefixReadsNothing(lines, key, other, |lines|);
      assert lines[..|lines|] == lines;
      ValueAppend(lines, [d], f);
      ValueOne(d, f);
    } else {
      var n := RegionStart(lines, at.value, Commented(lines[at.value]));
      PrefixReadsNothing(lines, key, other, n);
      CollapseNew(lines, n, at.value, d, f);
    }
  }

  lemma AppendKeeps(lines: seq<string>, d: string, f: string -> Option<string>)
    requires f(d).None?
    ensures FirstValue(lines + [d], f) == FirstValue(lines, f)
  {
    ValueAppend(lines, [d], f);
    ValueOne(d, f);
  }

  lemma SetThenReadOther(lines: seq<string>, key: string, value: string, other: string)
    requires IsWord(key) && IsWord(other) && Value(value) && !FoldEq(key, other)
    ensures Read(SetValue(lines, key, value), other) == Read(lines, other)
  {
    var d, f := Directive(key, value), Reader(other);
    DirectiveReads(key, value, other);
    assert f(d) == ActiveValue(d, other);
    match First(lines, Updatable(key))
    case None => AppendKeeps(lines, d, f);
    case Some(i) =>
      var j := RegionStart(lines, i, Commented(lines[i]));
      MatchReadsForeign(lines, key, i, j, other);
      CollapseAround(lines, j, i, d, f);
  }

  /** Set then get: the keyword reads as the new value whether its first line was
      active, commented out, repeated or missing; every other keyword reads as before. */
  lemma SetThenRead(lines: seq<string>, key: string, value: string, other: string)
    requires IsWord(key) && IsWord(other) && Value(value)
    ensures Read(SetValue(lines, key, value), other) == if FoldEq(key, other) then Some(value) else Read(lines, other)
  {
    if FoldEq(key, other) {
      SetThenReadSame(lines, key, value, other);
    } else {
      SetThenReadOther(lines, key, value, other);
    }
  }

  lemma SetValueCollapses(lines: seq<string>, key: string, value: string, i: nat)
    requires First(lines, Updatable(key)) == Some(i)
    ensures var j := RegionStart(lines, i, Commented(lines[i]));
            SetValue(lines, key, value) == lines[..j] + [key + (" " + value)] + lines[i + 1..]
  {}

  lemma RegionAllEmpty(lines: seq<string>, i: nat, hashUsed: bool)
    requires i <= |lines|
    ensures forall k :: RegionStart(lines, i, hashUsed) <= k < i ==> Empty(lines[k])
    ensures i > 0 && !Empty(lines[i - 1]) ==> RegionStart(lines, i, hashUsed) == i
  {
    forall k | RegionStart(lines, i, hashUsed) <= k < i ensures Empty(lines[k]) { RegionEmpty(lines, i, hashUsed, k); }
  }

  /** What one update writes: the first line taken for the keyword, active or commented out, gives
      way to the new one, with nothing but blank lines and lone comment signs swallowed before it;
      without such a line the new one comes last. */
  lemma SetValueExact(lines: seq<string>, key: string, value: string, at: Option<nat>) returns (j: nat)
    requires at == First(lines, Updatable(key))
    ensures at.None? ==> SetValue(lines, key, value) == lines + [key + (" " + value)]
    ensures at.Some? ==>
              j <= at.value
              && SetValue(lines, key, value) == lines[..j] + [key + (" " + value)] + lines[at.value + 1..]
              && (forall k :: j <= k < at.value ==> Empty(lines[k]))
              && (at.value > 0 && !Empty(lines[at.value - 1]) ==> j == at.value)
  {
    j := 0;
    if at.Some? {
      var hashUsed := Commented(lines[at.value]);
      j := RegionStart(lines, at.value, hashUsed);
      RegionAllEmpty(lines, at.value, hashUsed);
      SetValueCollapses(lines, key, value, at.value);
    }
  }

  lemma FoldedWord(t: string, key1: string, key2: string)
    requires FoldEq(key2, key1) && AfterWord(t, key1).Some?
    ensures AfterWord(t, key2).Some?
  {}

  // ------------------------------------------------------------------ settings

  datatype Settings = Settings(permitRootLogin: string, passwordAuthentication: bool, pubkeyAuthentication: bool,
                               maxAuthTries: int, loginGraceTime: int)

  /** The settings a caller wants changed, numbers as they are printed: the request validation
      asks for at least 1 and lets fractions through. */
  datatype Partial = Partial(permitRootLogin: Option<string>, passwordAuthentication: Option<bool>,
                             pubkeyAuthentication: Option<bool>, maxAuthTries: Option<NumberText>,
                             loginGraceTime: Option<NumberText>)

  const ROOT_LOGIN := "PermitRootLogin"
  const PASSWORD := "PasswordAuthentication"
  const PUBKEY := "PubkeyAuthentication"
  const TRIES := "MaxAuthTries"
  const GRACE := "LoginGraceTime"

  function FlagIn(lines: seq<string>, key: string, fallback: bool): bool {
    match Read(lines, key)
    case None => fallback
    case Some(v) => FoldEq(v, "yes")
  }

  function NumberIn(lines: seq<string>, key: string, fallback: int): int {
    match Read(lines, key)
    case None => fallback
    case Some(v) => ParseInt(v).GetOr(0)
  }

  function GetSettings(lines: seq<string>): Settings {
    Settings(Read(lines, ROOT_LOGIN).GetOr("prohibit-password"), FlagIn(lines, PASSWORD, true),
             FlagIn(lines, PUBKEY, true), NumberIn(lines, TRIES, 6), NumberIn(lines, GRACE, 120))
  }

  /** The whole part of a given number. */
  function WholeOr(n: Option<NumberText>, fallback: int): int { if n.Some? then Whole(n.value) else fallback }

  function Overridden(s: Settings, p: Partial): Settings {
    Settings(p.permitRootLogin.GetOr(s.permitRootLogin), p.passwordAuthentication.GetOr(s.passwordAuthentication),
             p.pubkeyAuthentication.GetOr(s.pubkeyAuthentication), WholeOr(p.maxAuthTries, s.maxAuthTries),
             WholeOr(p.loginGraceTime, s.loginGraceTime))
  }

  function ShowFlag(b: Option<bool>): Option<string> {
    match b
    case None => None
    case Some(v) => Some(if v then "yes" else "no")
  }

  function SetIf(lines: seq<string>, key: string, value: Option<string>): seq<string> {
    if value.None? then lines else SetValue(lines, key, value.value)
  }

  /** The five keywords one after the other, in the order of the source. */
  function UpdateAll(lines: seq<string>, p: Partial): seq<string> {
    var a := SetIf(lines, ROOT_LOGIN, p.permitRootLogin);
    var b := SetIf(a, PASSWORD, ShowFlag(p.passwordAuthentication));
    var c := SetIf(b, PUBKEY, ShowFlag(p.pubkeyAuthentication));
    var d := SetIf(c, TRIES, p.maxAuthTries);
    SetIf(d, GRACE, p.loginGraceTime)
  }

  predicate Printable(value: Option<string>) { value.Some? ==> Value(value.value) }

  lemma SetIfThenRead(lines: seq<string>, key: string, value: Option<string>, other: string)
    requires IsWord(key) && IsWord(other) && Printable(value)
    ensures Read(SetIf(lines, key, value), other)
            == if FoldEq(key, other) && value.Some? then value else Read(lines, other)
  {
    if value.Some? { SetThenRead(lines, key, value.value, other); }
  }

  /** The value a keyword gets from the last of five assignments naming it. */
  lemma SetInOrder(lines: seq<string>, k1: string, k2: string, k3: string, k4: string, k5: string, v1: Option<string>,
                   v2: Option<string>, v3: Option<string>, v4: Option<string>, v5: Option<string>, other: string)
    requires IsWord(k1) && IsWord(k2) && IsWord(k3) && IsWord(k4) && IsWord(k5) && IsWord(other)
    requires Printable(v1) && Printable(v2) && Printable(v3) && Printable(v4) && Printable(v5)
    ensures Read(SetIf(SetIf(SetIf(SetIf(SetIf(lines, k1, v1), k2, v2), k3, v3), k4, v4), k5, v5), other)
            == if FoldEq(k5, other) && v5.Some? then v5
               else if FoldEq(k4, other) && v4.Some? then v4
               else if FoldEq(k3, other) && v3.Some? then v3
               else if FoldEq(k2, other) && v2.Some? then v2
               else if FoldEq(k1, other) && v1.Some? then v1
               else Read(lines, other)
  {
    var a := SetIf(lines, k1, v1);
    var b := SetIf(a, k2, v2);
    var c := SetIf(b, k3, v3);
    var d := SetIf(c, k4, v4);
    SetIfThenRead(lines, k1, v1, other);
    SetIfThenRead(a, k2, v2, other);
    SetIfThenRead(b, k3, v3, other);
    SetIfThenRead(c, k4, v4, other);
    SetIfThenRead(d, k5, v5, other);
  }

  predicate GoodPartial(p: Partial) { Printable(p.permitRootLogin) }

  lemma PrintedValues(p: Partial)
    ensures Printable(ShowFlag(p.passwordAuthentication)) && Printable(ShowFlag(p.pubkeyAuthentication))
    ensures Printable(p.maxAuthTries) && Printable(p.loginGraceTime)
  {
    if p.maxAuthTries.Some? { NumberTextTrimmed(p.maxAuthTries.value); }
    if p.loginGraceTime.Some? { NumberTextTrimmed(p.loginGraceTime.value); }
  }

  lemma SettingWords()
    ensures IsWord(ROOT_LOGIN) && IsWord(PASSWORD) && IsWord(PUBKEY) && IsWord(TRIES) && IsWord(GRACE)
  {}

  /** What any keyword reads as after an update. */
  lemma ReadAfterUpdate(lines: seq<string>, p: Partial, other: string)
    requires GoodPartial(p) && IsWord(other)
    ensures Read(UpdateAll(lines, p), other)
            == if FoldEq(GRACE, other) && p.loginGraceTime.Some? then p.loginGraceTime
               else if FoldEq(TRIES, other) && p.maxAuthTries.Some? then p.maxAuthTries
               else if FoldEq(PUBKEY, other) && p.pubkeyAuthentication.Some? then ShowFlag(p.pubkeyAuthentication)
               else if FoldEq(PASSWORD, other) && p.passwordAuthentication.Some? then ShowFlag(p.passwordAuthentication)
               else if FoldEq(ROOT_LOGIN, other) && p.permitRootLogin.Some? then p.permitRootLogin
               else Read(lines, other)
  {
    SettingWords();
    PrintedValues(p);
    SetInOrder(lines, ROOT_LOGIN, PASSWORD, PUBKEY, TRIES, GRACE, p.permitRootLogin, ShowFlag(p.passwordAuthentication),
               ShowFlag(p.pubkeyAuthentication), p.maxAuthTries, p.loginGraceTime, other);
  }

  lemma NumberOverridden(lines: seq<string>, after: seq<string>, key: string, n: Option<NumberText>, fallback: int)
    requires Read(after, key) == if n.Some? then n else Read(lines, key)
    ensures NumberIn(after, key, fallback) == WholeOr(n, NumberIn(lines, key, fallback))
  {
    if n.Some? {
      ParseNumberText(n.value, "");
      assert n.value + "" == n.value;
    }
  }

  lemma FlagOverridden(lines: seq<string>, after: seq<string>, key: string, b: Option<bool>, fallback: bool)
    requires Read(after, key) == if b.Some? then ShowFlag(b) else Read(lines, key)
    ensures FlagIn(after, key, fallback) == b.GetOr(FlagIn(lines, key, fallback))
  {
    if b == Some(false) { assert |"no"| != |"yes"|; }
  }

  lemma FlagsAfterUpdate(lines: seq<string>, p: Partial)
    requires GoodPartial(p)
    ensures FlagIn(UpdateAll(lines, p), PASSWORD, true) == p.passwordAuthentication.GetOr(FlagIn(lines, PASSWORD, true))
    ensures FlagIn(UpdateAll(lines, p), PUBKEY, true) == p.pubkeyAuthentication.GetOr(FlagIn(lines, PUBKEY, true))
  {
    SettingWords();
    SettingLengths();
    ReadAfterUpdate(lines, p, PASSWORD);
    FlagOverridden(lines, UpdateAll(lines, p), PASSWORD, p.passwordAuthentication, true);
    ReadAfterUpdate(lines, p, PUBKEY);
    FlagOverridden(lines, UpdateAll(lines, p), PUBKEY, p.pubkeyAuthentication, true);
  }

  lemma NumbersAfterUpdate(lines: seq<string>, p: Partial)
    requires GoodPartial(p)
    ensures NumberIn(UpdateAll(lines, p), TRIES, 6) == WholeOr(p.maxAuthTries, NumberIn(lines, TRIES, 6))
    ensures NumberIn(UpdateAll(lines, p), GRACE, 120) == WholeOr(p.loginGraceTime, NumberIn(lines, GRACE, 120))
  {
    SettingWords();
    SettingLengths();
    ReadAfterUpdate(lines, p, TRIES);
    NumberOverridden(lines, UpdateAll(lines, p), TRIES, p.maxAuthTries, 6);
    ReadAfterUpdate(lines, p, GRACE);
    NumberOverridden(lines, UpdateAll(lines, p), GRACE, p.loginGraceTime, 120);
  }

  /** Reading the settings back after an update gives the old ones overridden by the
      given ones, a given number by its whole part, for any file: keys active, commented
      out, repeated or missing. */
  lemma UpdateThenGet(lines: seq<string>, p: Partial)
    requires GoodPartial(p)
    ensures GetSettings(UpdateAll(lines, p)) == Overridden(GetSettings(lines), p)
  {
    SettingWords();
    SettingLengths();
    ReadAfterUpdate(lines, p, ROOT_LOGIN);
    FlagsAfterUpdate(lines, p);
    NumbersAfterUpdate(lines, p);
  }

  /** A given number reads back as given exactly when it is printed in digits only. */
  lemma NumbersReadBackIff(lines: seq<string>, p: Partial)
    requires GoodPartial(p)
    ensures p.maxAuthTries.Some? ==>
              (IntToString(GetSettings(UpdateAll(lines, p)).maxAuthTries) == p.maxAuthTries.value
               <==> AllDigits(p.maxAuthTries.value))
    ensures p.loginGraceTime.Some? ==>
              (IntToString(GetSettings(UpdateAll(lines, p)).loginGraceTime) == p.loginGraceTime.value
               <==> AllDigits(p.loginGraceTime.value))
  {
    NumbersAfterUpdate(lines, p);
    if p.maxAuthTries.Some? { WholeIff(p.maxAuthTries.value); }
    if p.loginGraceTime.Some? { WholeIff(p.loginGraceTime.value); }
  }

  lemma SettingLengths()
    ensures |ROOT_LOGIN| == 15 && |PASSWORD| == 22 && |PUBKEY| == 20 && |TRIES| == 12 && |GRACE| == 14
  {}

  lemma FlagsInFile(lines: seq<string>, p: Partial)
    requires GoodPartial(p)
    ensures p.passwordAuthentication.Some? ==>
              Read(UpdateAll(lines, p), "PasswordAuthentication")
              == Some(if p.passwordAuthentication.value then "yes" else "no")
    ensures p.pubkeyAuthentication.Some? ==>
              Read(UpdateAll(lines, p), "PubkeyAuthentication")
              == Some(if p.pubkeyAuthentication.value then "yes" else "no")
  {
    SettingWords();
    SettingLengths();
    ReadAfterUpdate(lines, p, PASSWORD);
    ReadAfterUpdate(lines, p, PUBKEY);
  }

  /** The settings by their keywords in the file. */
  lemma KeywordsInFile(lines: seq<string>, p: Partial)
    requires GoodPartial(p)
    ensures var n := UpdateAll(lines, p);
            && (p.permitRootLogin.Some? ==> Read(n, "PermitRootLogin") == p.permitRootLogin)
            && (p.passwordAuthentication.Some? ==>
                  Read(n, "PasswordAuthentication") == Some(if p.passwordAuthentication.value then "yes" else "no"))
            && (p.pubkeyAuthentication.Some? ==>
                  Read(n, "PubkeyAuthentication") == Some(if p.pubkeyAuthentication.value then "yes" else "no"))
            && (p.maxAuthTries.Some? ==> Read(n, "MaxAuthTries") == p.maxAuthTries)
            && (p.loginGraceTime.Some? ==> Read(n, "LoginGraceTime") == p.loginGraceTime)
  {
    FlagsInFile(lines, p);
    NumbersInFile(lines, p);
  }

  lemma NumbersInFile(lines: seq<string>, p: Partial)
    requires GoodPartial(p)
    ensures p.permitRootLogin.Some? ==> Read(UpdateAll(lines, p), "PermitRootLogin") == p.permitRootLogin
    ensures p.maxAuthTries.Some? ==> Read(UpdateAll(lines, p), "MaxAuthTries") == p.maxAuthTries
    ensures p.loginGraceTime.Some? ==> Read(UpdateAll(lines, p), "LoginGraceTime") == p.loginGraceTime
  {
    SettingWords();
    SettingLengths();
    ReadAfterUpdate(lines, p, ROOT_LOGIN);
    ReadAfterUpdate(lines, p, TRIES);
    ReadAfterUpdate(lines, p, GRACE);
  }

  /** And what is read for a keyword the file does not have. */
  lemma ReadWithoutLine(lines: seq<string>)
    ensures Read(lines, "PermitRootLogin").None? ==> GetSettings(lines).permitRootLogin == "prohibit-password"
    ensures Read(lines, "PasswordAuthentication").None? ==> GetSettings(lines).passwordAuthentication
    ensures Read(lines, "PubkeyAuthentication").None? ==> GetSettings(lines).pubkeyAuthentication
    ensures Read(lines, "MaxAuthTries").None? ==> GetSettings(lines).maxAuthTries == 6
    ensures Read(lines, "LoginGraceTime").None? ==> GetSettings(lines).loginGraceTime == 120
    ensures Read(lines, "Port").None? ==> PortIn(lines) == 22
  {}

  /** A keyword no setting stands for reads as before. */
  lemma OtherKeywordsKept(lines: seq<string>, p: Partial, other: string)
    requires GoodPartial(p) && IsWord(other)
    requires !FoldEq(ROOT_LOGIN, other) && !FoldEq(PASSWORD, other) && !FoldEq(PUBKEY, other)
    requires !FoldEq(TRIES, other) && !FoldEq(GRACE, other)
    ensures Read(UpdateAll(lines, p), other) == Read(lines, other)
  {
    ReadAfterUpdate(lines, p, other);
  }

  // ---------------------------------------------------------------------- port

  const PORT := "Port"

  function PortIn(lines: seq<string>): int { NumberIn(lines, PORT, 22) }

  /** What follows the digits on a line `changeSSHPort` takes for the port's: the
      keyword in this very spelling, then digits. */
  function AfterPort(line: string): Option<string> {
    var t := TrimLeft(line);
    if |t| > |PORT| && StartsWith(t, PORT) && IsSpace(t[|PORT|]) then
      var u := TrimLeft(t[|PORT|..]);
      var digits := TakeDigits(u);
      if digits == "" then None else Some(u[|digits|..])
    else None
  }

  function PortLine(): string -> bool { (line: string) => AfterPort(line).Some? }

  function PortDirective(v: NumberText, rest: string): string { Directive(PORT, v + rest) }

  /** `changeSSHPort`'s edit: the first such line, with the blank lines before it, gives
      way to the new port; without one the directive goes to the top. */
  function ReplacePort(lines: seq<string>, v: NumberText): seq<string> {
    match First(lines, PortLine())
    case None => [PortDirective(v, "")] + lines
    case Some(i) => Collapse(lines, RegionStart(lines, i, true), i, PortDirective(v, AfterPort(lines[i]).value))
  }

  lemma AfterPortStops(line: string)
    requires AfterPort(line).Some?
    ensures var rest := AfterPort(line).value; rest != "" ==> !IsDigit(rest[0])
    ensures ActiveValue(line, PORT).Some?
  {
    var t := TrimLeft(line);
    assert t[..|PORT|] == PORT;
    var rest := t[|PORT|..];
    var u := TrimLeft(rest);
    var digits := TakeDigits(u);
    assert IsDigit(digits[0]) && u[0] == digits[0];
    assert TrimRight(u) != "" by { TrimRightKeepsFront([u[0]], u[1..]); assert u == [u[0]] + u[1..]; }
  }

  lemma TrimAfterNumber(v: NumberText, rest: string)
    ensures Trim(" " + (v + rest)) == v + TrimRight(rest)
  {
    NumberTextTrimmed(v);
    assert TrimLeft(" " + (v + rest)) == v + rest by {
      Cut(" ", v + rest);
      assert (v + rest)[0] == v[0];
    }
    TrimRightAppend(v, rest);
    assert v + "" == v;
  }

  lemma PortDirectiveValue(v: NumberText, rest: string)
    ensures ActiveValue(PortDirective(v, rest), PORT) == Some(v + TrimRight(rest))
  {
    var d := PortDirective(v, rest);
    Cut(PORT, " " + (v + rest));
    assert d[0] == 'P' && TrimLeft(d) == d;
    TrimAfterNumber(v, rest);
    assert d[|PORT|] == ' ';
  }

  /** The new line reads as the whole part of the new port, whatever was kept behind it. */
  lemma PortDirectiveReads(v: NumberText, rest: string)
    requires rest != "" ==> !IsDigit(rest[0])
    ensures ActiveValue(PortDirective(v, rest), PORT).Some?
    ensures ParseInt(ActiveValue(PortDirective(v, rest), PORT).value) == Some(Whole(v))
  {
    PortDirectiveValue(v, rest);
    var kept := TrimRight(rest);
    assert kept != "" ==> kept[0] == rest[0];
    ParseNumberText(v, kept);
  }

  lemma PortDirectiveForeign(v: NumberText, rest: string, other: string)
    requires IsWord(other) && !FoldEq(PORT, other)
    ensures ActiveValue(PortDirective(v, rest), other).None?
  {
    PortDirectiveValue(v, rest);
    ActiveOnce(PortDirective(v, rest), PORT, other);
  }

  /** A line is active for one keyword only. */
  lemma ActiveOnce(line: string, key: string, other: string)
    requires IsWord(key) && IsWord(other) && !FoldEq(key, other) && ActiveValue(line, key).Some?
    ensures ActiveValue(line, other).None?
  {
    ActiveIsUpdatable(line, key);
    ForeignWord(line, key, other);
  }

  /** Blank lines swallowed by the pattern read as nothing. */
  lemma SwallowedBlanks(lines: seq<string>, i: nat, key: string)
    requires i <= |lines| && IsWord(key)
    ensures FirstValue(lines[RegionStart(lines, i, true)..i], Reader(key)).None?
  {
    var j, f := RegionStart(lines, i, true), Reader(key);
    forall k | j <= k < i ensures f(lines[k]).None? {
      RegionEmpty(lines, i, true, k);
      EmptyNotActive(lines[k], key);
    }
    NothingBetween(lines, j, i, f);
  }

  lemma ValueCut(lines: seq<string>, j: nat, i: nat, f: string -> Option<string>)
    requires j <= i <= |lines| && FirstValue(lines[j..i], f).None?
    ensures FirstValue(lines[..i], f) == FirstValue(lines[..j], f)
  {
    assert lines[..i] == lines[..j] + lines[j..i];
    ValueAppend(lines[..j], lines[j..i], f);
  }

  lemma ValuePrefix(lines: seq<string>, i: nat, f: string -> Option<string>)
    requires i <= |lines| && FirstValue(lines[..i], f).Some?
    ensures FirstValue(lines, f) == FirstValue(lines[..i], f)
  {
    assert lines == lines[..i] + lines[i..];
    ValueAppend(lines[..i], lines[i..], f);
  }

  lemma CollapseBehind(lines: seq<string>, j: nat, i: nat, d: string, f: string -> Option<string>)
    requires j <= i < |lines| && FirstValue(lines[..j], f).Some?
    ensures FirstValue(Collapse(lines, j, i, d), f) == FirstValue(lines[..j], f)
  {
    ValueAppend(lines[..j] + [d], lines[i + 1..], f);
    ValueAppend(lines[..j], [d], f);
  }

  /** A line is taken for the port's exactly when it is `Port` in this spelling, blanks, digits and
      anything, blanks before. */
  lemma PortLineParsed(pad: string, gap: string, digits: string, rest: string)
    requires Blank(pad) && Blank(gap) && gap != "" && AllDigits(digits) && digits != ""
    requires rest != "" ==> !IsDigit(rest[0])
    ensures AfterPort(pad + ("Port" + (gap + (digits + rest)))) == Some(rest)
  {
    var u := digits + rest;
    assert u[0] == digits[0] && IsDigit(digits[0]);
    PadOf(gap, u);
    Cut("Port", gap + u);
    assert ("Port" + (gap + u))[0] == 'P' && ("Port" + (gap + u))[4] == gap[0];
    assert IsSpace(gap[0]);
    PadOf(pad, "Port" + (gap + u));
    TakeDigitsStops(digits, rest);
    Cut(digits, rest);
  }

  lemma PortLineRendered(line: string) returns (pad: string, gap: string, digits: string)
    requires AfterPort(line).Some?
    ensures Blank(pad) && Blank(gap) && gap != "" && AllDigits(digits) && digits != ""
    ensures line == pad + ("Port" + (gap + (digits + AfterPort(line).value)))
  {
    var t := TrimLeft(line);
    pad := Pad(line);
    PadAndRest(line);
    var after := t[|PORT|..];
    gap := Pad(after);
    PadAndRest(after);
    assert after[0] == t[|PORT|] && gap != "";
    var u := TrimLeft(after);
    digits := TakeDigits(u);
    assert u == digits + u[|digits|..];
    assert t == "Port" + after;
  }

  /** What changing the port writes: the first such line gives way to the new port, with what
      followed its digits, only blank lines before it being swallowed; without one the directive
      comes first. */
  lemma ReplacePortExact(lines: seq<string>, v: NumberText, at: Option<nat>) returns (j: nat)
    requires at == First(lines, PortLine())
    ensures at.None? ==> ReplacePort(lines, v) == ["Port " + v] + lines
    ensures at.Some? ==>
              j <= at.value
              && ReplacePort(lines, v)
                 == lines[..j] + ["Port " + v + AfterPort(lines[at.value]).value] + lines[at.value + 1..]
              && (forall k :: j <= k < at.value ==> Blank(lines[k]))
              && (at.value > 0 && !Blank(lines[at.value - 1]) ==> j == at.value)
  {
    j := 0;
    if at.Some? {
      j := RegionStart(lines, at.value, true);
      PortDirectiveText(v, AfterPort(lines[at.value]).value);
      AllBlanks(lines, at.value);
    } else {
      PortDirectiveText(v, "");
      assert "Port " + v + "" == "Port " + v;
    }
  }

  lemma PortDirectiveText(v: NumberText, rest: string)
    ensures PortDirective(v, rest) == "Port " + v + rest
  {
    assert PortDirective(v, rest) == "Port" + (" " + (v + rest));
  }

  lemma AllBlanks(lines: seq<string>, i: nat)
    requires i <= |lines|
    ensures forall k :: RegionStart(lines, i, true) <= k < i ==> Blank(lines[k])
    ensures i > 0 && !Blank(lines[i - 1]) ==> RegionStart(lines, i, true) == i
  {
    forall k | RegionStart(lines, i, true) <= k < i ensures Blank(lines[k]) { OnlyBlanks(lines, i, k); }
  }

  lemma {:induction false} OnlyBlanks(lines: seq<string>, i: nat, k: nat)
    requires i <= |lines| && RegionStart(lines, i, true) <= k < i
    ensures Blank(lines[k])
  {
    if k < i - 1 { OnlyBlanks(lines, i - 1, k); }
  }

  /** No active port line, in any spelling, stands before the line that is rewritten. */
  predicate PortLineIsFirst(lines: seq<string>) {
    match First(lines, PortLine())
    case None => true
    case Some(i) => Read(lines[..i], PORT).None?
  }

  lemma PortPrepended(lines: seq<string>, v: NumberText)
    ensures PortIn([PortDirective(v, "")] + lines) == Whole(v)
  {
    var d := PortDirective(v, "");
    PortDirectiveReads(v, "");
    ValueAppend([d], lines, Reader(PORT));
    ValueOne(d, Reader(PORT));
  }

  lemma PrefixOfPort(lines: seq<string>, i: nat)
    requires i <= |lines|
    ensures Read(lines[..RegionStart(lines, i, true)], PORT) == Read(lines[..i], PORT)
  {
    SwallowedBlanks(lines, i, PORT);
    ValueCut(lines, RegionStart(lines, i, true), i, Reader(PORT));
  }

  lemma PortCollapsed(lines: seq<string>, v: NumberText, j: nat, i: nat, rest: string)
    requires j <= i < |lines| && (rest != "" ==> !IsDigit(rest[0])) && Read(lines[..j], PORT) == Read(lines[..i], PORT)
    ensures PortIn(Collapse(lines, j, i, PortDirective(v, rest)))
            == if Read(lines[..i], PORT).None? then Whole(v) else PortIn(lines)
  {
    PortDirectiveReads(v, rest);
    if Read(lines[..i], PORT).None? {
      CollapseNew(lines, j, i, PortDirective(v, rest), Reader(PORT));
    } else {
      CollapseBehind(lines, j, i, PortDirective(v, rest), Reader(PORT));
      ValuePrefix(lines, i, Reader(PORT));
    }
  }

  lemma PortReplaced(lines: seq<string>, v: NumberText, i: nat)
    requires First(lines, PortLine()) == Some(i)
    ensures PortIn(ReplacePort(lines, v)) == if Read(lines[..i], PORT).None? then Whole(v) else PortIn(lines)
  {
    AfterPortStops(lines[i]);
    PrefixOfPort(lines, i);
    PortCollapsed(lines, v, RegionStart(lines, i, true), i, AfterPort(lines[i]).value);
  }

  /** The port reads back as the new one's whole part exactly when no active port line in another
      spelling (`port 2222`, `Port any`) comes before the one that is rewritten, or the
      port was the new one already. */
  lemma NewPortReadsIff(lines: seq<string>, v: NumberText)
    ensures PortIn(ReplacePort(lines, v)) == Whole(v) <==> PortLineIsFirst(lines) || PortIn(lines) == Whole(v)
  {
    match First(lines, PortLine())
    case None => PortPrepended(lines, v);
    case Some(i) => PortReplaced(lines, v, i);
  }

  /** It reads back as the port that was given exactly when that is printed in digits only, too. */
  lemma NewPortAsGivenIff(lines: seq<string>, v: NumberText)
    ensures IntToString(PortIn(ReplacePort(lines, v))) == v
            <==> AllDigits(v) && (PortLineIsFirst(lines) || PortIn(lines) == Whole(v))
  {
    NewPortReadsIff(lines, v);
    IntegerText(PortIn(ReplacePort(lines, v)), v);
  }

  /** Changing the port leaves what every other keyword reads as. */
  lemma PortKeepsOthers(lines: seq<string>, v: NumberText, other: string)
    requires IsWord(other) && !FoldEq(PORT, other)
    ensures Read(ReplacePort(lines, v), other) == Read(lines, other)
  {
    var f := Reader(other);
    match First(lines, PortLine())
    case None =>
      PortDirectiveForeign(v, "", other);
      ValueAppend([PortDirective(v, "")], lines, f);
      ValueOne(PortDirective(v, ""), f);
    case Some(i) =>
      AfterPortStops(lines[i]);
      ActiveOnce(lines[i], PORT, other);
      PortDirectiveForeign(v, AfterPort(lines[i]).value, other);
      SwallowedBlanks(lines, i, other);
      ValuePush(lines, RegionStart(lines, i, true), i, f);
      CollapseAround(lines, RegionStart(lines, i, true), i, PortDirective(v, AfterPort(lines[i]).value), f);
  }
}
