/** Strings as the services handle them: JavaScript's `split`, `join`, `trim`,
    `startsWith`, `String(n)` and `parseInt(s, 10)`, on plain ASCII text. */
module Text {

  datatype Option<+T> = None | Some(value: T) {
    function GetOr(fallback: T): T {
      if Some? then value else fallback
    }
  }

  predicate IsSpace(c: char) {
    c == ' ' || c == '\t' || c == '\n' || c == '\r' || c == '\U{0B}' || c == '\U{0C}'
  }

  predicate IsDigit(c: char) { '0' <= c <= '9' }

  predicate AllDigits(s: string) { forall i :: 0 <= i < |s| ==> IsDigit(s[i]) }

  predicate StartsWith(s: string, prefix: string) { prefix <= s }

  /** Every character of `s` is white space. */
  predicate Blank(s: string) { forall i :: 0 <= i < |s| ==> IsSpace(s[i]) }

  // ---------------------------------------------------------------- trimming

  /** The leading white space of `s`. */
  function Pad(s: string): string {
    if s != "" && IsSpace(s[0]) then [s[0]] + Pad(s[1..]) else ""
  }

  function TrimLeft(s: string): (r: string)
    ensures |r| <= |s|
  {
    if s != "" && IsSpace(s[0]) then TrimLeft(s[1..]) else s
  }

  function TrimRight(s: string): (r: string)
    ensures r <= s
    ensures r != "" ==> !IsSpace(r[|r| - 1])
  {
    if s != "" && IsSpace(s[|s| - 1]) then TrimRight(s[..|s| - 1]) else s
  }

  function Trim(s: string): string { TrimRight(TrimLeft(s)) }

  /** Nothing to trim on either side. */
  predicate Trimmed(s: string) {
    s != "" ==> !IsSpace(s[0]) && !IsSpace(s[|s| - 1])
  }

  lemma BlankCons(c: char, s: string)
    requires IsSpace(c) && Blank(s)
    ensures Blank([c] + s)
  {}

  lemma Associates(a: string, b: string, c: string)
    ensures a + (b + c) == a + b + c
  {}

  /** White space, then the rest. */
  lemma {:induction false} PadAndRest(s: string)
    ensures s == Pad(s) + TrimLeft(s) && Blank(Pad(s))
    ensures TrimLeft(s) != "" ==> !IsSpace(TrimLeft(s)[0])
  {
    if s != "" && IsSpace(s[0]) {
      var rest := s[1..];
      PadAndRest(rest);
      BlankCons(s[0], Pad(rest));
      Associates([s[0]], Pad(rest), TrimLeft(rest));
      assert s == [s[0]] + rest;
    }
  }

  lemma {:induction false} PadOf(pad: string, s: string)
    requires Blank(pad) && (s != "" ==> !IsSpace(s[0]))
    ensures Pad(pad + s) == pad && TrimLeft(pad + s) == s
  {
    if pad == "" {
      assert pad + s == s;
    } else {
      assert (pad + s)[1..] == pad[1..] + s;
      assert IsSpace(pad[0]);
      assert Blank(pad[1..]) by {
        forall i | 0 <= i < |pad[1..]| ensures IsSpace(pad[1..][i]) { assert IsSpace(pad[i + 1]); }
      }
      PadOf(pad[1..], s);
    }
  }

  lemma TrimIsTrimmed(s: string)
    ensures Trimmed(Trim(s))
    ensures forall c :: c in Trim(s) ==> c in s
  {
    PadAndRest(s);
    var l := TrimLeft(s);
    var t := TrimRight(l);
    if t != "" { assert t[0] == l[0]; }
    forall c | c in t ensures c in s {
      var i :| 0 <= i < |t| && t[i] == c;
      assert l[i] == c;
    }
  }

  lemma {:induction false} TrimRightAppend(front: string, s: string)
    ensures TrimRight(front + s) == if TrimRight(s) == "" then TrimRight(front) else front + TrimRight(s)
  {
    if s == "" {
      assert front + s == front;
    } else if IsSpace(s[|s| - 1]) {
      assert (front + s)[..|front + s| - 1] == front + s[..|s| - 1];
      TrimRightAppend(front, s[..|s| - 1]);
    }
  }

  lemma {:induction false} TrimRightKeepsFront(front: string, s: string)
    requires front != "" && !IsSpace(front[|front| - 1])
    ensures front <= TrimRight(front + s)
  {
    if s == "" {
      assert front + s == front;
    } else {
      assert (front + s)[..|front + s| - 1] == front + s[..|s| - 1];
      TrimRightKeepsFront(front, s[..|s| - 1]);
    }
  }

  lemma TrimOfTrimmed(s: string)
    requires Trimmed(s)
    ensures TrimLeft(s) == s && Trim(s) == s
  {}

  lemma {:induction false} TrimLeftBlank(s: string)
    ensures Blank(s) <==> TrimLeft(s) == ""
  {
    PadAndRest(s);
    if TrimLeft(s) == "" {
      assert s == Pad(s);
    } else {
      assert s[|Pad(s)|] == TrimLeft(s)[0];
    }
  }

  lemma {:induction false} TrimRightBlank(s: string)
    ensures Blank(s) <==> TrimRight(s) == ""
  {
    if s != "" {
      var init, last := s[..|s| - 1], s[|s| - 1];
      assert s == init + [last];
      if IsSpace(last) {
        TrimRightBlank(init);
        assert Blank(init) ==> Blank(s);
      }
    }
  }

  /** Cutting a concatenation where it was joined. */
  lemma Cut(a: string, b: string)
    ensures (a + b)[..|a|] == a && (a + b)[|a|..] == b
  {}

  // ------------------------------------------------------- splitting, joining

  function Split(s: string, sep: char): (parts: seq<string>)
    ensures |parts| >= 1
    ensures forall i :: 0 <= i < |parts| ==> sep !in parts[i]
  {
    if s == "" then [""]
    else if s[0] == sep then [""] + Split(s[1..], sep)
    else
      var rest := Split(s[1..], sep);
      [[s[0]] + rest[0]] + rest[1..]
  }

  function Join(parts: seq<string>, sep: char): string {
    if |parts| == 0 then ""
    else if |parts| == 1 then parts[0]
    else parts[0] + [sep] + Join(parts[1..], sep)
  }

  lemma {:induction false} SplitChars(s: string, sep: char, i: nat, c: char)
    requires i < |Split(s, sep)| && c in Split(s, sep)[i]
    ensures c in s
  {
    if s != "" {
      var rest := Split(s[1..], sep);
      if s[0] == sep {
        SplitChars(s[1..], sep, i - 1, c);
      } else if i > 0 {
        SplitChars(s[1..], sep, i, c);
      } else if c != s[0] {
        assert c in rest[0];
        SplitChars(s[1..], sep, 0, c);
      }
    }
  }

  lemma {:induction false} JoinOfSplit(s: string, sep: char)
    ensures Join(Split(s, sep), sep) == s
  {
    if s != "" {
      JoinOfSplit(s[1..], sep);
      var rest := Split(s[1..], sep);
      if s[0] == sep {
        assert ([""] + rest)[1..] == rest;
      } else {
        var parts := [[s[0]] + rest[0]] + rest[1..];
        assert parts[1..] == rest[1..];
        assert Join(parts, sep) == [s[0]] + Join(rest, sep);
      }
      assert [s[0]] + s[1..] == s;
    }
  }

  lemma {:induction false} SplitOfJoin(parts: seq<string>, sep: char)
    requires |parts| >= 1
    requires forall i :: 0 <= i < |parts| ==> sep !in parts[i]
    ensures Split(Join(parts, sep), sep) == parts
  {
    if |parts| == 1 {
      SplitWord(parts[0], "", sep);
      assert parts[0] + "" == parts[0];
    } else {
      SplitOfJoin(parts[1..], sep);
      SplitWord(parts[0], [sep] + Join(parts[1..], sep), sep);
      var tail := [sep] + Join(parts[1..], sep);
      assert tail[1..] == Join(parts[1..], sep);
      assert Split(tail, sep) == [""] + parts[1..];
      assert parts[0] + [sep] + Join(parts[1..], sep) == parts[0] + tail;
      assert parts[0] + "" == parts[0];
    }
  }

  /** A separator-free word in front only lengthens the first part. */
  lemma {:induction false} SplitWord(word: string, s: string, sep: char)
    requires sep !in word
    ensures Split(word + s, sep) == [word + Split(s, sep)[0]] + Split(s, sep)[1..]
  {
    if word == "" {
      assert word + s == s;
      assert word + Split(s, sep)[0] == Split(s, sep)[0];
    } else {
      assert (word + s)[1..] == word[1..] + s;
      SplitWord(word[1..], s, sep);
      assert [word[0]] + (word[1..] + Split(s, sep)[0]) == word + Split(s, sep)[0];
    }
  }

  /** A separator-free line in front is the first part. */
  lemma SplitLine(line: string, s: string, sep: char)
    requires sep !in line
    ensures Split(line + ([sep] + s), sep) == [line] + Split(s, sep)
  {
    SplitWord(line, [sep] + s, sep);
    assert ([sep] + s)[1..] == s;
    assert Split([sep] + s, sep) == [""] + Split(s, sep);
    assert line + "" == line;
  }

  lemma SplitWhole(line: string, sep: char)
    requires sep !in line
    ensures Split(line, sep) == [line]
  {
    SplitWord(line, "", sep);
    assert line + "" == line;
  }

  lemma JoinCons(part: string, rest: seq<string>, sep: char)
    requires rest != []
    ensures Join([part] + rest, sep) == part + ([sep] + Join(rest, sep))
  {
    assert ([part] + rest)[1..] == rest;
  }

  lemma {:induction false} JoinPush(parts: seq<string>, last: string, sep: char)
    requires parts != []
    ensures Join(parts + [last], sep) == Join(parts, sep) + ([sep] + last)
  {
    if |parts| == 1 {
      assert (parts + [last])[1..] == [last];
    } else {
      assert (parts + [last])[1..] == parts[1..] + [last];
      JoinPush(parts[1..], last, sep);
    }
  }

  lemma SplitOfJoinCons(first: string, rest: seq<string>, sep: char)
    requires sep !in first && rest != []
    ensures Split(Join([first] + rest, sep), sep) == [first] + Split(Join(rest, sep), sep)
  {
    JoinCons(first, rest, sep);
    SplitLine(first, Join(rest, sep), sep);
  }

  lemma PartsCons(parts: seq<string>, last: seq<string>)
    requires parts != []
    ensures parts + last == [parts[0]] + (parts[1..] + last)
  {}

  /** Joining and splitting, the last part being split itself. */
  lemma {:induction false} SplitOfJoinLast(lines: seq<string>, last: string, sep: char)
    requires forall i :: 0 <= i < |lines| ==> sep !in lines[i]
    ensures Split(Join(lines + [last], sep), sep) == lines + Split(last, sep)
  {
    if lines == [] {
      assert lines + [last] == [last];
    } else {
      var rest := lines[1..];
      SplitOfJoinLast(rest, last, sep);
      PartsCons(lines, [last]);
      PartsCons(lines, Split(last, sep));
      SplitOfJoinCons(lines[0], rest + [last], sep);
    }
  }

  lemma {:induction false} JoinChars(parts: seq<string>, sep: char, c: char)
    requires c in Join(parts, sep)
    ensures c == sep || exists i :: 0 <= i < |parts| && c in parts[i]
  {
    if |parts| > 1 && c != sep && c !in parts[0] {
      JoinChars(parts[1..], sep, c);
      var i :| 0 <= i < |parts[1..]| && c in parts[1..][i];
      assert c in parts[i + 1];
    }
  }

  // ---------------------------------------------------------------- numbers

  /** The value of a string of digits. */
  function DigitsValue(s: string): (n: nat)
    requires forall i :: 0 <= i < |s| ==> IsDigit(s[i])
  {
    if s == "" then 0
    else
      assert IsDigit(s[|s| - 1]);
      10 * DigitsValue(s[..|s| - 1]) + (s[|s| - 1] as int - '0' as int)
  }

  function TakeDigits(s: string): (r: string)
    ensures r <= s
    ensures forall i :: 0 <= i < |r| ==> IsDigit(r[i])
    ensures |r| < |s| ==> !IsDigit(s[|r|])
  {
    if s != "" && IsDigit(s[0]) then [s[0]] + TakeDigits(s[1..]) else ""
  }

  /** `String(n)` for a natural number. */
  function ToDecimal(n: nat): (s: string)
    ensures s != "" && (forall i :: 0 <= i < |s| ==> IsDigit(s[i]))
  {
    var digit := ['0' + (n % 10) as char];
    if n < 10 then digit else ToDecimal(n / 10) + digit
  }

  /** `String(n)` for any integer. */
  function IntToString(n: int): string {
    if n < 0 then "-" + ToDecimal(-n) else ToDecimal(n)
  }

  function ParseUnsigned(u: string): Option<nat> {
    var digits := TakeDigits(u);
    if digits == "" then None else Some(DigitsValue(digits))
  }

  function Negate(n: Option<nat>): Option<int> {
    match n
    case None => None
    case Some(v) => var m: int := v; Some(-m)
  }

  /** `parseInt(s, 10)`; `None` is NaN. */
  function ParseInt(s: string): Option<int> {
    var t := TrimLeft(s);
    if t == "" then None
    else if t[0] == '-' then Negate(ParseUnsigned(t[1..]))
    else if t[0] == '+' then ParseUnsigned(t[1..])
    else ParseUnsigned(t)
  }

  lemma {:induction false} DecimalValue(n: nat)
    ensures DigitsValue(ToDecimal(n)) == n
  {
    var s := ToDecimal(n);
    if n >= 10 {
      DecimalValue(n / 10);
      assert s[..|s| - 1] == ToDecimal(n / 10);
    } else {
      assert s[..0] == "";
    }
  }

  lemma {:induction false} TakeDigitsStops(digits: string, rest: string)
    requires forall i :: 0 <= i < |digits| ==> IsDigit(digits[i])
    requires rest != "" ==> !IsDigit(rest[0])
    ensures TakeDigits(digits + rest) == digits
  {
    if digits == "" {
      assert digits + rest == rest;
    } else {
      assert (digits + rest)[1..] == digits[1..] + rest;
      TakeDigitsStops(digits[1..], rest);
      assert [digits[0]] + digits[1..] == digits;
    }
  }

  lemma ParseIntOfDigit(s: string)
    requires s != "" && IsDigit(s[0])
    ensures ParseInt(s) == ParseUnsigned(s)
  {
    assert TrimLeft(s) == s;
  }

  lemma DecimalInjective(m: nat, n: nat)
    requires ToDecimal(m) == ToDecimal(n)
    ensures m == n
  {
    DecimalValue(m);
    DecimalValue(n);
  }
}
