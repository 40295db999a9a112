/** LFD: numeric settings in csf.conf, and the csf.ignore address list. */
module LfdConfig {
  import opened Text
  import opened NumberTexts
  import opened ConfLines

  // ------------------------------------------------------------------ settings

  /** The configuration keys behind `LFDSettings`. */
  const KEYS: seq<string> := [
    "LF_TRIGGER", "LF_INTERVAL", "LF_SSHD", "LF_FTPD", "LF_SMTPAUTH",
    "LF_IMAPD", "LF_POP3D", "LF_HTACCESS", "LF_MODSEC", "LF_DIRECTADMIN"
  ]

  /** The values read for keys the file does not have. */
  const FALLBACKS: seq<nat> := [10, 3600, 5, 10, 5, 10, 10, 5, 5, 5]

  function Numbered(key: string): string -> bool { (line: string) => ParseNumber(line, key).Some? }

  predicate Present(lines: seq<string>, key: string) { First(lines, Numbered(key)).Some? }

  lemma DigitsOfMatch(line: string, key: string)
    requires ParseNumber(line, key).Some?
    ensures var d := ParseNumber(line, key).value.digits;
            d != "" && forall i :: 0 <= i < |d| ==> IsDigit(d[i])
  {}

  function NumberIn(line: string, key: string): nat
    requires ParseNumber(line, key).Some?
  {
    DigitsOfMatch(line, key);
    DigitsValue(ParseNumber(line, key).value.digits)
  }

  function GetValue(lines: seq<string>, key: string, fallback: nat): nat {
    match First(lines, Numbered(key))
    case None => fallback
    case Some(i) => NumberIn(lines[i], key)
  }

  function UpdateLine(line: string, key: string, value: NumberText): string
    requires ParseNumber(line, key).Some?
  {
    var m := ParseNumber(line, key).value;
    RenderHead(key, Head(m.gap1, m.gap2, "\"" + (value + ("\"" + m.rest))))
  }

  /** Rewrites the first matching line; a key the file does not have stays absent. */
  function UpdateValue(lines: seq<string>, key: string, value: Option<NumberText>): (r: seq<string>)
    ensures |r| == |lines|
  {
    match First(lines, Numbered(key))
    case None => lines
    case Some(i) => if value.None? then lines else lines[i := UpdateLine(lines[i], key, value.value)]
  }

  /** What stays between the digits and the old rest when the line is matched again. */
  function Remains(value: string, rest: string): string {
    if AllDigits(value) then rest else value[|TakeDigits(value)|..] + ("\"" + rest)
  }

  /** Behind the digits, past one optional quote. */
  lemma QuotedRest(value: NumberText, rest: string)
    ensures DropQuote((value + ("\"" + rest))[|TakeDigits(value)|..]) == Remains(value, rest)
  {
    var digits := TakeDigits(value);
    var tail := "\"" + rest;
    TakeAllDigits(value);
    if AllDigits(value) {
      Cut(value, tail);
      Cut("\"", rest);
    } else {
      assert |digits| < |value|;
      assert (value + tail)[|digits|..] == value[|digits|..] + tail;
      assert (value[|digits|..] + tail)[0] == value[|digits|];
    }
  }

  lemma ParsedValue(key: string, gap1: string, gap2: string, value: NumberText, rest: string)
    requires Blank(gap1) && Blank(gap2)
    ensures ParseNumber(RenderHead(key, Head(gap1, gap2, "\"" + (value + ("\"" + rest)))), key)
            == Some(NumberLine(gap1, gap2, TakeDigits(value), Remains(value, rest)))
  {
    var tail := "\"" + rest;
    ParsedHead(key, Head(gap1, gap2, "\"" + (value + tail)));
    Cut("\"", value + tail);
    TakeDigitsOf(value, tail);
    QuotedRest(value, rest);
  }

  lemma UpdatedLine(line: string, key: string, value: NumberText)
    requires ParseNumber(line, key).Some?
    ensures ParseNumber(UpdateLine(line, key, value), key).Some?
    ensures NumberIn(UpdateLine(line, key, value), key) == Whole(value)
    ensures ParseNumber(UpdateLine(line, key, value), key).value.rest
            == Remains(value, ParseNumber(line, key).value.rest)
  {
    RenderedHead(line, key);
    var m := ParseNumber(line, key).value;
    ParsedValue(key, m.gap1, m.gap2, value, m.rest);
  }

  lemma NumberLineForeign(line: string, key: string, other: string)
    requires IsKey(key) && IsKey(other) && key != other && ParseNumber(line, key).Some?
    ensures ParseNumber(line, other).None? && ParseList(line, other).None?
  {
    if ParseHead(line, other).Some? { OneKeyPerLine(line, key, other); }
  }

  lemma UpdateKeepsMatch(line: string, key: string, value: NumberText, other: string)
    requires IsKey(key) && IsKey(other) && ParseNumber(line, key).Some?
    ensures Numbered(other)(UpdateLine(line, key, value)) == Numbered(other)(line)
    ensures other != key ==> !Numbered(other)(line)
  {
    UpdatedLine(line, key, value);
    if other != key {
      NumberLineForeign(line, key, other);
      NumberLineForeign(UpdateLine(line, key, value), key, other);
    }
  }

  lemma UpdateKeepsFirst(lines: seq<string>, key: string, value: Option<NumberText>, other: string)
    requires IsKey(key) && IsKey(other)
    ensures First(UpdateValue(lines, key, value), Numbered(other)) == First(lines, Numbered(other))
  {
    var at := First(lines, Numbered(key));
    if at.Some? && value.Some? {
      UpdateKeepsMatch(lines[at.value], key, value.value, other);
      FirstAfterUpdate(lines, at.value, UpdateLine(lines[at.value], key, value.value), Numbered(other));
    }
  }

  /** One update: the key reads as the whole part of the new value if the file has it, every
      other key and every other line is as before. */
  lemma UpdateValueExact(lines: seq<string>, key: string, value: Option<NumberText>, other: string, fallback: nat)
    requires IsKey(key) && IsKey(other)
    ensures GetValue(UpdateValue(lines, key, value), other, fallback)
            == if other == key && value.Some? && Present(lines, key) then Whole(value.value)
               else GetValue(lines, other, fallback)
    ensures First(UpdateValue(lines, key, value), Numbered(other)) == First(lines, Numbered(other))
    ensures forall i :: 0 <= i < |lines| && First(lines, Numbered(key)) != Some(i) ==>
                          UpdateValue(lines, key, value)[i] == lines[i]
  {
    UpdateKeepsFirst(lines, key, value, other);
    var at := First(lines, Numbered(key));
    if at.Some? && value.Some? {
      if other == key {
        UpdatedLine(lines[at.value], key, value.value);
      } else {
        UpdateKeepsMatch(lines[at.value], key, value.value, other);
        assert First(lines, Numbered(other)) != at;
      }
    }
  }

  function Wanted(settings: map<string, NumberText>, key: string): Option<NumberText> {
    if key in settings then Some(settings[key]) else None
  }

  /** `updateSettings`: the keys one after the other. */
  function UpdateAll(lines: seq<string>, keys: seq<string>, settings: map<string, NumberText>): seq<string> {
    if keys == [] then lines
    else
      var init, last := keys[..|keys| - 1], keys[|keys| - 1];
      UpdateValue(UpdateAll(lines, init, settings), last, Wanted(settings, last))
  }

  predicate KeyList(keys: seq<string>) {
    && (forall i :: 0 <= i < |keys| ==> IsKey(keys[i]))
    && (forall i, j :: 0 <= i < j < |keys| ==> keys[i] != keys[j])
  }

  /** After an update each given setting that the file mentions reads as the whole part of
      what was given; all other settings, and settings the file does not mention, as before. */
  lemma {:induction false} UpdateAllExact(lines: seq<string>, keys: seq<string>, settings: map<string, NumberText>,
                                          other: string, fallback: nat)
    requires KeyList(keys) && IsKey(other)
    ensures GetValue(UpdateAll(lines, keys, settings), other, fallback)
            == if other in keys && other in settings && Present(lines, other) then Whole(settings[other])
               else GetValue(lines, other, fallback)
    ensures First(UpdateAll(lines, keys, settings), Numbered(other)) == First(lines, Numbered(other))
  {
    if keys != [] {
      var init, last := keys[..|keys| - 1], keys[|keys| - 1];
      assert keys == init + [last];
      UpdateAllExact(lines, init, settings, other, fallback);
      UpdateValueExact(UpdateAll(lines, init, settings), last, Wanted(settings, last), other, fallback);
    }
  }

  lemma KeysAreKeys()
    ensures KeyList(KEYS) && |KEYS| == |FALLBACKS|
  {
    forall i | 0 <= i < |KEYS| ensures IsKey(KEYS[i]) {}
  }

  /** `getSettings`, in the order of `KEYS`. */
  function GetSettings(lines: seq<string>): (r: seq<nat>)
    ensures |r| == |KEYS|
  {
    seq(|KEYS|, (i: nat) requires i < |KEYS| => GetValue(lines, KEYS[i], FALLBACKS[i]))
  }

  /** The settings by name, with what is read for those the file does not have. */
  lemma SettingsByName(lines: seq<string>, i: nat)
    requires i < 10
    ensures |GetSettings(lines)| == 10
    ensures var (name, fallback) := [("LF_TRIGGER", 10), ("LF_INTERVAL", 3600), ("LF_SSHD", 5), ("LF_FTPD", 10),
                                     ("LF_SMTPAUTH", 5), ("LF_IMAPD", 10), ("LF_POP3D", 10), ("LF_HTACCESS", 5),
                                     ("LF_MODSEC", 5), ("LF_DIRECTADMIN", 5)][i];
            GetSettings(lines)[i] == GetValue(lines, name, fallback)
  {}

  /** Reading back after `updateSettings`: the old settings overridden by the whole parts of
      the given ones, except that a setting whose line is missing keeps its fallback. */
  lemma UpdateThenGet(lines: seq<string>, settings: map<string, NumberText>, i: nat)
    requires i < |KEYS|
    ensures GetSettings(UpdateAll(lines, KEYS, settings))[i]
            == if KEYS[i] in settings && Present(lines, KEYS[i]) then Whole(settings[KEYS[i]])
               else GetSettings(lines)[i]
  {
    KeysAreKeys();
    assert IsKey(KEYS[i]) && KEYS[i] in KEYS;
    UpdateAllExact(lines, KEYS, settings, KEYS[i], FALLBACKS[i]);
  }

  /** A given number reads back as it was printed exactly when it is printed in digits only:
      a whole number below 1e21. */
  lemma ReadsBackIff(lines: seq<string>, settings: map<string, NumberText>, i: nat)
    requires i < |KEYS| && KEYS[i] in settings && Present(lines, KEYS[i])
    ensures ToDecimal(GetSettings(UpdateAll(lines, KEYS, settings))[i]) == settings[KEYS[i]]
            <==> AllDigits(settings[KEYS[i]])
  {
    UpdateThenGet(lines, settings, i);
    WholeIff(settings[KEYS[i]]);
  }

  /** What follows the digits of a number that does not read back stays in the line, in front
      of the old rest, whatever is set next. */
  lemma LeftoverStays(line: string, key: string, value: NumberText, next: NumberText)
    requires ParseNumber(line, key).Some? && !AllDigits(value) && AllDigits(next)
    ensures ParseNumber(UpdateLine(line, key, value), key).Some?
    ensures ParseNumber(UpdateLine(UpdateLine(line, key, value), key, next), key).Some?
    ensures ParseNumber(UpdateLine(UpdateLine(line, key, value), key, next), key).value.rest
            == value[|TakeDigits(value)|..] + ("\"" + ParseNumber(line, key).value.rest)
  {
    UpdatedLine(line, key, value);
    UpdatedLine(UpdateLine(line, key, value), key, next);
  }

  /** So a limit of 5.5 reads back as 5, and leaves `.5"` behind the next one. */
  lemma FiveAndAHalf()
    ensures Printed("5.5") && !AllDigits("5.5") && Whole("5.5") == 5 && "5.5"[|TakeDigits("5.5")|..] == ".5"
  {
    assert ToDecimal(5) + ".5" == "5.5";
    HalfText(5);
    TakeAllDigits("5");
    TakeDigitsOf("5", ".5");
    assert "5" + ".5" == "5.5";
  }

  // --------------------------------------------------------------- ignore list

  predicate Begins(line: string, ip: string) { StartsWith(Trim(line), ip) }

  predicate AnyBegins(lines: seq<string>, ip: string) {
    exists i :: 0 <= i < |lines| && Begins(lines[i], ip)
  }

  function NewLine(ip: string, comment: Option<string>): string {
    match comment
    case None => ip
    case Some(c) => if c == "" then ip else ip + (" # " + c)
  }

  /** The text after `ignoreIp`. */
  function Ignore(content: string, ip: string, comment: Option<string>): string {
    var lines := Split(content, '\n');
    if AnyBegins(lines, ip) then content else Join(lines + [NewLine(ip, comment)], '\n')
  }

  function Without(lines: seq<string>, ip: string): seq<string> {
    if lines == [] then []
    else (if Begins(lines[0], ip) then [] else [lines[0]]) + Without(lines[1..], ip)
  }

  /** The text after `removeIgnoredIp`. */
  function Unignore(content: string, ip: string): string {
    var lines := Split(content, '\n');
    var filtered := Without(lines, ip);
    if |lines| == |filtered| then content else Join(filtered, '\n')
  }

  /** An address as the file lists it: no leading white space, one line. */
  predicate Address(ip: string) { ip != "" && Trimmed(ip) && '\n' !in ip }

  lemma {:induction false} WithoutNone(lines: seq<string>, ip: string)
    ensures |Without(lines, ip)| <= |lines|
    ensures |Without(lines, ip)| == |lines| <==> !AnyBegins(lines, ip)
    ensures !AnyBegins(lines, ip) ==> Without(lines, ip) == lines
    ensures forall l :: l in Without(lines, ip) ==> l in lines
  {
    if lines != [] {
      WithoutNone(lines[1..], ip);
      assert AnyBegins(lines, ip) <==> Begins(lines[0], ip) || AnyBegins(lines[1..], ip) by {
        if AnyBegins(lines[1..], ip) {
          var i :| 0 <= i < |lines[1..]| && Begins(lines[1..][i], ip);
          assert Begins(lines[i + 1], ip);
        }
        if AnyBegins(lines, ip) && !Begins(lines[0], ip) {
          var i :| 0 <= i < |lines| && Begins(lines[i], ip);
          assert lines[1..][i - 1] == lines[i];
        }
      }
    }
  }

  lemma WithoutCons(line: string, rest: seq<string>, ip: string)
    ensures Without([line] + rest, ip) == (if Begins(line, ip) then [] else [line]) + Without(rest, ip)
  {
    assert ([line] + rest)[1..] == rest;
  }

  lemma NewLineBegins(ip: string, comment: Option<string>)
    requires Address(ip)
    ensures Begins(NewLine(ip, comment), ip)
  {
    var tail := if comment.Some? && comment.value != "" then " # " + comment.value else "";
    assert NewLine(ip, comment) == ip + tail;
    NewLineTailBegins(ip, tail);
  }

  lemma NewLineTailBegins(ip: string, tail: string)
    requires Address(ip)
    ensures Begins(ip + tail, ip)
  {
    assert (ip + tail)[0] == ip[0];
    assert TrimLeft(ip + tail) == ip + tail;
    TrimRightKeepsFront(ip, tail);
  }

  /** The lines an entry makes: one, and one more for each line break in its comment. */
  function NewLines(ip: string, comment: Option<string>): (ls: seq<string>)
    ensures |ls| >= 1
  {
    Split(NewLine(ip, comment), '\n')
  }

  lemma Regroup(a: seq<string>, b: seq<string>, c: seq<string>)
    ensures a + (b + c) == a + b + c
  {}

  lemma {:induction false} WithoutConcat(lines: seq<string>, more: seq<string>, ip: string)
    ensures Without(lines + more, ip) == Without(lines, ip) + Without(more, ip)
  {
    if lines == [] {
      assert lines + more == more;
    } else {
      var first, rest := lines[0], lines[1..];
      WithoutConcat(rest, more, ip);
      WithoutCons(first, rest + more, ip);
      WithoutCons(first, rest, ip);
      assert lines == [first] + rest && lines + more == [first] + (rest + more);
      Regroup(if Begins(first, ip) then [] else [first], Without(rest, ip), Without(more, ip));
    }
  }

  /** The file after an address has been added. */
  lemma IgnoredLines(content: string, ip: string, comment: Option<string>)
    requires !AnyBegins(Split(content, '\n'), ip)
    ensures Split(Ignore(content, ip, comment), '\n') == Split(content, '\n') + NewLines(ip, comment)
  {
    SplitOfJoinLast(Split(content, '\n'), NewLine(ip, comment), '\n');
  }

  lemma NewLineParts(ip: string, comment: Option<string>)
    requires Address(ip)
    ensures NewLines(ip, comment)
            == match NonBlank(comment)
               case None => [ip]
               case Some(c) => [ip + (" # " + Split(c, '\n')[0])] + Split(c, '\n')[1..]
  {
    match NonBlank(comment)
    case None => SplitWhole(ip, '\n');
    case Some(c) =>
      SplitWord(ip, " # " + c, '\n');
      SplitWord(" # ", c, '\n');
  }

  /** The comment as the service tests it. */
  function NonBlank(comment: Option<string>): Option<string> {
    if comment == Some("") then None else comment
  }

  lemma FirstNewLineBegins(ip: string, comment: Option<string>)
    requires Address(ip)
    ensures Begins(NewLines(ip, comment)[0], ip)
  {
    NewLineParts(ip, comment);
    match NonBlank(comment)
    case None => NewLineBegins(ip, None);
    case Some(c) => NewLineTailBegins(ip, " # " + Split(c, '\n')[0]);
  }

  predicate AllBegin(lines: seq<string>, ip: string) { forall i :: 0 <= i < |lines| ==> Begins(lines[i], ip) }

  lemma {:induction false} WithoutAll(lines: seq<string>, ip: string)
    ensures Without(lines, ip) == [] <==> AllBegin(lines, ip)
  {
    if lines != [] {
      WithoutAll(lines[1..], ip);
      assert lines == [lines[0]] + lines[1..];
      assert AllBegin(lines, ip) <==> Begins(lines[0], ip) && AllBegin(lines[1..], ip) by {
        if AllBegin(lines, ip) {
          forall i | 0 <= i < |lines[1..]| ensures Begins(lines[1..][i], ip) { assert Begins(lines[i + 1], ip); }
        }
        if Begins(lines[0], ip) && AllBegin(lines[1..], ip) {
          forall i | 0 <= i < |lines| ensures Begins(lines[i], ip) {
            if i > 0 { assert Begins(lines[1..][i - 1], ip); }
          }
        }
      }
    }
  }

  /** What removing the address leaves of the file it was added to. */
  lemma RemovedAfterIgnore(content: string, ip: string, comment: Option<string>)
    requires Address(ip) && !AnyBegins(Split(content, '\n'), ip)
    ensures Unignore(Ignore(content, ip, comment), ip)
            == Join(Split(content, '\n') + Without(NewLines(ip, comment), ip), '\n')
  {
    var lines, more := Split(content, '\n'), NewLines(ip, comment);
    IgnoredLines(content, ip, comment);
    FirstNewLineBegins(ip, comment);
    WithoutNone(lines, ip);
    WithoutConcat(lines, more, ip);
    WithoutNone(more, ip);
    assert AnyBegins(more, ip);
  }

  /** Removing an address some line begins with always changes the text. */
  lemma RemovingChanges(content: string, ip: string)
    requires Address(ip) && AnyBegins(Split(content, '\n'), ip)
    ensures Unignore(content, ip) != content
  {
    var lines := Split(content, '\n');
    var filtered := Without(lines, ip);
    WithoutNone(lines, ip);
    assert !AnyBegins(Split("", '\n'), ip) by { assert Trim("") == ""; }
    if filtered != [] {
      forall i | 0 <= i < |filtered| ensures '\n' !in filtered[i] { assert filtered[i] in lines; }
      SplitOfJoin(filtered, '\n');
    }
  }

  lemma LeftoverChanges(lines: seq<string>, left: seq<string>)
    requires |lines| >= 1 && forall i :: 0 <= i < |lines| ==> '\n' !in lines[i]
    requires forall i :: 0 <= i < |left| ==> '\n' !in left[i]
    ensures Join(lines + left, '\n') == Join(lines, '\n') <==> left == []
  {
    SplitOfJoin(lines + left, '\n');
    SplitOfJoin(lines, '\n');
    if left == [] { assert lines + left == lines; }
  }

  /** Ignoring an address and removing it again gives back the file, character for
      character, exactly when no line began with the address before and every further line
      the comment makes does. (A longer address with the same beginning counts: `10.0.0.1`
      and `10.0.0.12`.) */
  lemma IgnoreThenRemoveIff(content: string, ip: string, comment: Option<string>)
    requires Address(ip)
    ensures Unignore(Ignore(content, ip, comment), ip) == content
            <==> !AnyBegins(Split(content, '\n'), ip) && AllBegin(NewLines(ip, comment)[1..], ip)
  {
    var lines, more := Split(content, '\n'), NewLines(ip, comment);
    if AnyBegins(lines, ip) {
      RemovingChanges(content, ip);
    } else {
      RemovedAfterIgnore(content, ip, comment);
      FirstNewLineBegins(ip, comment);
      WithoutCons(more[0], more[1..], ip);
      assert more == [more[0]] + more[1..];
      WithoutNone(more, ip);
      forall i | 0 <= i < |Without(more, ip)| ensures '\n' !in Without(more, ip)[i] {
        assert Without(more, ip)[i] in more;
      }
      LeftoverChanges(lines, Without(more, ip));
      WithoutAll(more[1..], ip);
      JoinOfSplit(content, '\n');
    }
  }

  /** With a comment of one line nothing can be left over. */
  lemma OneLineComment(ip: string, comment: Option<string>)
    requires Address(ip) && (comment.Some? ==> '\n' !in comment.value)
    ensures NewLines(ip, comment) == [NewLine(ip, comment)]
  {
    NewLineParts(ip, comment);
    if NonBlank(comment).Some? { SplitWhole(comment.value, '\n'); }
  }

  function TwoLines(first: string, second: string): string { first + ("\n" + second) }

  lemma TwoNewLines(ip: string, first: string, second: string)
    requires Address(ip) && '\n' !in first && '\n' !in second
    ensures NewLines(ip, Some(TwoLines(first, second))) == [ip + (" # " + first), second]
  {
    SplitLine(first, second, '\n');
    SplitWhole(second, '\n');
    assert TwoLines(first, second) != "";
    NewLineParts(ip, Some(TwoLines(first, second)));
  }

  lemma WithoutFirst(one: string, two: string, ip: string)
    requires Begins(one, ip) && !Begins(two, ip)
    ensures Without([one, two], ip) == [two]
  {
    WithoutCons(one, [two], ip);
    WithoutCons(two, [], ip);
    assert [one, two] == [one] + [two] && [two] == [two] + [];
  }

  /** A comment of two lines leaves its second one behind, unless that too begins with the
      address: `1` with the comment `x`, line break, `2` leaves a line `2`. */
  lemma TwoLineComment(content: string, ip: string, first: string, second: string)
    requires Address(ip) && !AnyBegins(Split(content, '\n'), ip)
    requires '\n' !in first && '\n' !in second && !Begins(second, ip)
    ensures Unignore(Ignore(content, ip, Some(TwoLines(first, second))), ip)
            == Join(Split(content, '\n') + [second], '\n')
  {
    var comment := Some(TwoLines(first, second));
    TwoNewLines(ip, first, second);
    FirstNewLineBegins(ip, comment);
    RemovedAfterIgnore(content, ip, comment);
    WithoutFirst(ip + (" # " + first), second, ip);
  }

  /** On an empty file: no line began with `1`, and a line `2` is left. */
  lemma LeftBehind()
    ensures !AnyBegins(Split("", '\n'), "1")
    ensures Unignore(Ignore("", "1", Some("x\n2")), "1") == "\n2"
  {
    assert Split("", '\n') == [""];
    assert TrimLeft("") == "" && TrimLeft("2") == "2";
    assert TwoLines("x", "2") == "x\n2";
    TwoLineComment("", "1", "x", "2");
    assert [""] + ["2"] == ["", "2"] && ["", "2"][1..] == ["2"];
  }

  // ------------------------------------------------------------------- listing

  predicate IpChar(c: char) { IsDigit(c) || c == '.' || c == ':' || 'a' <= c <= 'f' || 'A' <= c <= 'F' }

  /** Digits, dots, colons and hexadecimal letters of either case. */
  lemma AddressChars(c: char)
    ensures IpChar(c) <==> c in "0123456789.:abcdefABCDEF"
  {}

  function TakeIpChars(s: string): (r: string)
    ensures r <= s
  {
    if s != "" && IpChar(s[0]) then [s[0]] + TakeIpChars(s[1..]) else ""
  }

  /** A host, and the prefix length if there is one. */
  function Slashed(host: string, bits: string): string { if bits == "" then host else host + ("/" + bits) }

  /** What the pattern takes, its first part having taken the host. */
  function AddressFrom(host: string, rest: string): string {
    if host == "" || rest == "" || rest[0] != '/' then host else Slashed(host, TakeDigits(rest[1..]))
  }

  /** `[\\d.:a-f]+(?:\\/\\d+)?` at the start of `s`. */
  function TakeAddress(s: string): (r: string)
    ensures r <= s
  {
    var host := TakeIpChars(s);
    AddressFits(host, s[|host|..]);
    assert host + s[|host|..] == s;
    AddressFrom(host, s[|host|..])
  }

  lemma AddressFits(host: string, rest: string)
    ensures AddressFrom(host, rest) <= host + rest
  {
    if rest != "" {
      var bits := TakeDigits(rest[1..]);
      assert rest == [rest[0]] + rest[1..];
      assert [rest[0]] + bits <= rest;
    }
  }

  datatype Entry = Entry(ip: string, comment: Option<string>)

  function NonEmpty(s: string): Option<string> { if s == "" then None else Some(s) }

  /** The entry a trimmed line stands for, if any. */
  function ParseEntry(t: string): Option<Entry> {
    if t == "" || t[0] == '#' then None
    else
      var ip := TakeAddress(t);
      var rest := TrimLeft(t[|ip|..]);
      if ip == "" then None
      else if rest == "" then Some(Entry(ip, None))
      else if rest[0] == '#' then Some(Entry(ip, NonEmpty(TrimLeft(rest[1..]))))
      else None
  }

  /** Blank lines and comments make no entry. */
  lemma NoEntry(line: string, text: string)
    requires Blank(line)
    ensures ParseEntry(Trim(line)).None? && ParseEntry("#" + text).None?
  {
    TrimLeftBlank(line);
  }

  function ListEntries(lines: seq<string>): seq<Entry> {
    if lines == [] then []
    else
      var e := ParseEntry(Trim(lines[|lines| - 1]));
      ListEntries(lines[..|lines| - 1]) + if e.Some? then [e.value] else []
  }

  function ListIgnored(content: string): seq<Entry> { ListEntries(Split(content, '\n')) }

  /** An address the listing recognizes as a whole. */
  predicate Listable(ip: string) { Address(ip) && TakeAddress(ip) == ip && '#' !in ip }

  lemma {:induction false} TakeIpCharsStops(s: string, rest: string)
    requires rest != "" ==> !IpChar(rest[0])
    requires TakeIpChars(s) == s
    ensures TakeIpChars(s + rest) == s
  {
    if s == "" {
      assert s + rest == rest;
    } else {
      assert (s + rest)[1..] == s[1..] + rest;
      assert TakeIpChars(s) == [s[0]] + TakeIpChars(s[1..]);
      assert TakeIpChars(s)[1..] == TakeIpChars(s[1..]);
      TakeIpCharsStops(s[1..], rest);
      assert [s[0]] + s[1..] == s;
    }
  }

  /** An address is a host, or a host and a prefix length. */
  lemma AddressShape(ip: string) returns (host: string, bits: string)
    requires TakeAddress(ip) == ip && ip != ""
    ensures host != "" && TakeIpChars(host) == host
    ensures if bits == "" then ip == host else TakeDigits(bits) == bits && ip == host + ("/" + bits)
  {
    TakeIpCharsIdempotent(ip);
    host, bits := TakeIpChars(ip), "";
    if host != ip {
      bits := ip[|host| + 1..];
      assert ip[|host|..][1..] == bits;
      assert |TakeDigits(bits)| == |bits|;
      assert ip == host + ip[|host|..];
      assert ip[|host|..] == "/" + bits;
    }
  }

  lemma HostThen(host: string, rest: string)
    requires host != "" && TakeIpChars(host) == host && (rest == "" || rest[0] == ' ')
    ensures TakeAddress(host + rest) == host
  {
    TakeIpCharsStops(host, rest);
    Cut(host, rest);
  }

  lemma AddressThen(ip: string, rest: string)
    requires TakeAddress(ip) == ip && ip != "" && (rest == "" || rest[0] == ' ')
    ensures TakeAddress(ip + rest) == ip
  {
    var host, bits := AddressShape(ip);
    if bits == "" {
      HostThen(host, rest);
    } else {
      PrefixThen(host, bits, rest);
      assert (host + ("/" + bits)) + rest == host + ("/" + (bits + rest));
    }
  }

  /** A host with a prefix length, followed by a blank or nothing. */
  lemma PrefixThen(host: string, bits: string, rest: string)
    requires host != "" && TakeIpChars(host) == host
    requires bits != "" && TakeDigits(bits) == bits && (rest == "" || rest[0] == ' ')
    ensures TakeAddress(host + ("/" + (bits + rest))) == host + ("/" + bits)
  {
    var tail := "/" + (bits + rest);
    TakeIpCharsStops(host, tail);
    Cut(host, tail);
    Cut("/", bits + rest);
    TakeDigitsStops(bits, rest);
  }

  lemma {:induction false} TakeIpCharsIdempotent(s: string)
    ensures TakeIpChars(TakeIpChars(s)) == TakeIpChars(s)
  {
    if s != "" && IpChar(s[0]) {
      TakeIpCharsIdempotent(s[1..]);
      var r := [s[0]] + TakeIpChars(s[1..]);
      assert r[1..] == TakeIpChars(s[1..]);
    }
  }

  /** A comment shows unless it is blank. */
  lemma ShownIff(c: string)
    ensures NonEmpty(TrimLeft(TrimRight(c))) == if Blank(c) then None else Some(TrimLeft(TrimRight(c)))
  {
    var t := TrimRight(c);
    TrimRightBlank(c);
    TrimLeftBlank(t);
    if t != "" { assert !IsSpace(t[|t| - 1]); }
  }

  /** The comment as the listing shows it. */
  function ShownComment(comment: Option<string>): Option<string> {
    match comment
    case None => None
    case Some(c) => if Blank(c) then None else Some(TrimLeft(TrimRight(c)))
  }

  lemma TrimmedTail(c: string)
    ensures TrimRight(" # " + c) == Tail(TrimRight(c))
  {
    TrimRightAppend(" # ", c);
    assert " # "[..2] == " #";
    assert TrimRight(" # ") == TrimRight(" #") == " #";
  }

  lemma TrimmedNewLine(ip: string, c: string)
    requires Address(ip)
    ensures Trim(ip + (" # " + c)) == ip + Tail(TrimRight(c))
  {
    var line := ip + (" # " + c);
    assert line[0] == ip[0] && TrimLeft(line) == line;
    TrimRightAppend(ip, " # " + c);
    TrimmedTail(c);
  }

  function Tail(c: string): string { if c == "" then " #" else " # " + c }

  lemma EntryWithTail(ip: string, c: string)
    requires Listable(ip)
    ensures ParseEntry(ip + Tail(c)) == Some(Entry(ip, NonEmpty(TrimLeft(c))))
  {
    var t := ip + Tail(c);
    assert ip[0] in ip;
    assert t[0] == ip[0];
    AddressThen(ip, Tail(c));
    Cut(ip, Tail(c));
    ShownTail(c);
  }

  lemma EntryAlone(ip: string)
    requires Listable(ip)
    ensures ParseEntry(Trim(ip)) == Some(Entry(ip, None))
  {
    TrimOfTrimmed(ip);
    assert ip[0] in ip;
    assert ip[|ip|..] == "";
  }

  lemma NewLineEntry(ip: string, comment: Option<string>)
    requires Listable(ip)
    ensures ParseEntry(Trim(NewLine(ip, comment))) == Some(Entry(ip, ShownComment(comment)))
  {
    if comment.None? || comment.value == "" {
      EntryAlone(ip);
    } else {
      TrimmedNewLine(ip, comment.value);
      EntryWithTail(ip, TrimRight(comment.value));
      ShownIff(comment.value);
    }
  }

  lemma ShownTail(c: string)
    ensures var tail := Tail(c);
            TrimLeft(tail) != "" && TrimLeft(tail)[0] == '#' && TrimLeft(TrimLeft(tail)[1..]) == TrimLeft(c)
  {
    var tail := Tail(c);
    assert tail[1..][0] == '#';
    assert TrimLeft(tail) == tail[1..];
    if c == "" {
      assert tail[1..][1..] == "";
    } else {
      assert tail[1..][1..] == " " + c;
      assert (" " + c)[1..] == c;
      assert TrimLeft(" " + c) == TrimLeft(c);
    }
  }

  lemma {:induction false} EntriesConcat(lines: seq<string>, more: seq<string>)
    ensures ListEntries(lines + more) == ListEntries(lines) + ListEntries(more)
  {
    if more == [] {
      assert lines + more == lines;
    } else {
      var init := more[..|more| - 1];
      assert (lines + more)[..|lines + more| - 1] == lines + init;
      EntriesConcat(lines, init);
    }
  }

  /** In between, the listing has gained the entries of the new lines, at its end. */
  lemma IgnoreAddsEntries(content: string, ip: string, comment: Option<string>)
    requires !AnyBegins(Split(content, '\n'), ip)
    ensures ListIgnored(Ignore(content, ip, comment)) == ListIgnored(content) + ListEntries(NewLines(ip, comment))
  {
    IgnoredLines(content, ip, comment);
    EntriesConcat(Split(content, '\n'), NewLines(ip, comment));
  }

  /** An address is one word, without a comment sign. */
  predicate Plain(ip: string) { Address(ip) && '#' !in ip && forall i :: 0 <= i < |ip| ==> !IsSpace(ip[i]) }

  lemma {:induction false} TakeIpCharsOf(s: string, rest: string)
    requires rest != "" ==> !IpChar(rest[0])
    ensures TakeIpChars(s + rest) == TakeIpChars(s)
  {
    if s == "" {
      assert s + rest == rest;
    } else if IpChar(s[0]) {
      assert (s + rest)[1..] == s[1..] + rest;
      TakeIpCharsOf(s[1..], rest);
    }
  }

  lemma AddressFromOf(host: string, left: string, rest: string)
    requires rest == "" || rest[0] == ' '
    ensures AddressFrom(host, left + rest) == AddressFrom(host, left)
  {
    if left == "" {
      assert left + rest == rest;
    } else {
      assert (left + rest)[1..] == left[1..] + rest;
      TakeDigitsOf(left[1..], rest);
    }
  }

  /** What the pattern takes of an address does not depend on what follows it. */
  lemma TakeAddressOf(ip: string, rest: string)
    requires rest == "" || rest[0] == ' '
    ensures TakeAddress(ip + rest) == TakeAddress(ip)
  {
    var host := TakeIpChars(ip);
    TakeIpCharsOf(ip, rest);
    assert (ip + rest)[|host|..] == ip[|host|..] + rest;
    AddressFromOf(host, ip[|host|..], rest);
  }

  /** An address the pattern takes only a part of, such as IPv6 with a zone, makes no entry. */
  lemma UncoveredLine(ip: string, tail: string)
    requires Plain(ip) && TakeAddress(ip) != ip && (tail == "" || tail[0] == ' ')
    ensures ParseEntry(ip + tail).None?
  {
    var t, a := ip + tail, TakeAddress(ip);
    TakeAddressOf(ip, tail);
    assert ip[0] in ip && t[0] == ip[0];
    assert |a| < |ip|;
    assert t[|a|..][0] == ip[|a|] && ip[|a|] in ip;
    assert TrimLeft(t[|a|..]) == t[|a|..];
  }

  /** With a comment of one line the listing gains exactly that entry if the pattern covers
      the address, and nothing if it does not. */
  lemma NewEntry(ip: string, comment: Option<string>)
    requires Plain(ip) && (comment.Some? ==> '\n' !in comment.value)
    ensures ListEntries(NewLines(ip, comment))
            == if TakeAddress(ip) == ip then [Entry(ip, ShownComment(comment))] else []
  {
    OneLineComment(ip, comment);
    var line := NewLine(ip, comment);
    assert [line][..0] == [];
    if TakeAddress(ip) == ip {
      NewLineEntry(ip, comment);
    } else if NonBlank(comment).None? {
      TrimOfTrimmed(ip);
      UncoveredLine(ip, "");
      assert ip + "" == ip;
    } else {
      TrimmedNewLine(ip, comment.value);
      UncoveredLine(ip, Tail(TrimRight(comment.value)));
    }
  }

  lemma EntryWithComment(ip: string, c: string)
    requires Listable(ip)
    ensures ParseEntry(Trim(ip + (" # " + c))) == Some(Entry(ip, ShownComment(Some(c))))
  {
    TrimmedNewLine(ip, c);
    EntryWithTail(ip, TrimRight(c));
    ShownIff(c);
  }

  lemma EntriesPush(lines: seq<string>, line: string)
    requires ParseEntry(Trim(line)).Some?
    ensures ListEntries(lines + [line]) == ListEntries(lines) + [ParseEntry(Trim(line)).value]
  {
    var more := lines + [line];
    assert more[..|more| - 1] == lines && more[|more| - 1] == line;
  }

  lemma EntriesOfTwo(one: string, two: string)
    requires ParseEntry(Trim(one)).Some? && ParseEntry(Trim(two)).Some?
    ensures ListEntries([one, two]) == [ParseEntry(Trim(one)).value, ParseEntry(Trim(two)).value]
  {
    var lines: seq<string> := [];
    EntriesPush(lines, one);
    EntriesPush(lines + [one], two);
    assert lines + [one] + [two] == [one, two];
  }

  /** A second line of the comment that is itself an entry is listed as one. */
  lemma HiddenEntry(ip: string, first: string, second: string)
    requires Plain(ip) && TakeAddress(ip) == ip && Plain(second) && TakeAddress(second) == second && '\n' !in first
    ensures ListEntries(NewLines(ip, Some(TwoLines(first, second))))
            == [Entry(ip, ShownComment(Some(first))), Entry(second, None)]
  {
    TwoNewLines(ip, first, second);
    EntryWithComment(ip, first);
    EntryAlone(second);
    EntriesOfTwo(ip + (" # " + first), second);
  }

  // --------------------------------------------------------------- the service

  datatype Result = Changed | AlreadyThere | NotThere | NoFile

  class CsfLfdService {
    var config: seq<string>
    /** csf.ignore; `None` when the file does not exist. */
    var ignoreFile: Option<string>

    constructor (config: seq<string>, ignoreFile: Option<string>)
      ensures this.config == config && this.ignoreFile == ignoreFile
    {
      this.config, this.ignoreFile := config, ignoreFile;
    }

    /** `copied` is whether the final `cp` took effect; its failure goes unnoticed. */
    method UpdateSettings(settings: map<string, NumberText>, copied: bool)
      modifies this`config
      ensures config == if copied then UpdateAll(old(config), KEYS, settings) else old(config)
    {
      var text, keys := config, KEYS;
      for k := 0 to |keys|
        invariant text == UpdateAll(config, keys[..k], settings)
      {
        assert keys[..k + 1][..k] == keys[..k];
        text := UpdateValue(text, keys[k], Wanted(settings, keys[k]));
      }
      assert keys[..|keys|] == keys;
      if copied { config := text; }
    }

    /** The answer does not depend on the `cp` either. */
    method IgnoreIp(ip: string, comment: Option<string>, copied: bool) returns (r: Result)
      modifies this`ignoreFile
      ensures r == AlreadyThere <==> AnyBegins(Split(old(ignoreFile).GetOr(""), '\n'), ip)
      ensures r == AlreadyThere || r == Changed
      ensures ignoreFile == if r == AlreadyThere || !copied then old(ignoreFile)
                            else Some(Ignore(old(ignoreFile).GetOr(""), ip, comment))
    {
      var content := ignoreFile.GetOr("");
      var lines := Split(content, '\n');
      for i := 0 to |lines|
        invariant forall j :: 0 <= j < i ==> !Begins(lines[j], ip)
      {
        if Begins(lines[i], ip) { return AlreadyThere; }
      }
      lines := lines + [NewLine(ip, comment)];
      if copied { ignoreFile := Some(Join(lines, '\n')); }
      r := Changed;
    }

    method RemoveIgnoredIp(ip: string, copied: bool) returns (r: Result)
      modifies this`ignoreFile
      ensures r == NoFile <==> old(ignoreFile).None?
      ensures old(ignoreFile).Some? ==> (r == NotThere <==> !AnyBegins(Split(old(ignoreFile).value, '\n'), ip))
      ensures ignoreFile == if old(ignoreFile).None? || !copied then old(ignoreFile)
                            else Some(Unignore(old(ignoreFile).value, ip))
    {
      if ignoreFile.None? { return NoFile; }
      var lines := Split(ignoreFile.value, '\n');
      var filteredLines := Without(lines, ip);
      WithoutNone(lines, ip);
      if |lines| == |filteredLines| { return NotThere; }
      if copied { ignoreFile := Some(Join(filteredLines, '\n')); }
      r := Changed;
    }
  }
}
