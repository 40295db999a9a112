/** Opening and closing ports in csf.conf: four comma-separated lists, edited in
    place on the first matching line of each key. */
module CsfPorts {
  import opened Text
  import opened NumberTexts
  import opened ConfLines

  datatype Protocol = Tcp | Udp | BothProtocols
  datatype Direction = In | Out | BothDirections

  const TCP_IN := "TCP_IN"
  const TCP_OUT := "TCP_OUT"
  const UDP_IN := "UDP_IN"
  const UDP_OUT := "UDP_OUT"

  predicate IsListKey(key: string) { key == TCP_IN || key == TCP_OUT || key == UDP_IN || key == UDP_OUT }

  /** The lists a call with this protocol and direction is about. */
  predicate Selected(key: string, p: Protocol, d: Direction) {
    || (key == TCP_IN && p != Udp && d != Out)
    || (key == TCP_OUT && p != Udp && d != In)
    || (key == UDP_IN && p != Tcp && d != Out)
    || (key == UDP_OUT && p != Tcp && d != In)
  }

  // -------------------------------------------------------------------- tokens

  /** `.map(p => p.trim()).filter(p => p)` */
  function CleanParts(parts: seq<string>): seq<string> {
    if parts == [] then []
    else
      var t := Trim(parts[0]);
      (if t == "" then [] else [t]) + CleanParts(parts[1..])
  }

  function Tokens(body: string): seq<string> { CleanParts(Split(body, ',')) }

  predicate CleanToken(t: string) { t != "" && Trimmed(t) && ',' !in t && Unquoted(t) }

  predicate CleanTokens(ts: seq<string>) { forall i :: 0 <= i < |ts| ==> CleanToken(ts[i]) }

  lemma {:induction false} CleanPartsAreClean(parts: seq<string>)
    requires forall i :: 0 <= i < |parts| ==> ',' !in parts[i] && Unquoted(parts[i])
    ensures CleanTokens(CleanParts(parts))
  {
    if parts != [] {
      CleanPartsAreClean(parts[1..]);
      TrimIsTrimmed(parts[0]);
      var t := Trim(parts[0]);
      forall i | 0 <= i < |t| ensures !IsQuote(t[i]) { assert t[i] in parts[0]; }
    }
  }

  lemma TokensAreClean(body: string)
    requires Unquoted(body)
    ensures CleanTokens(Tokens(body))
  {
    var parts := Split(body, ',');
    forall i | 0 <= i < |parts| ensures Unquoted(parts[i]) {
      forall j | 0 <= j < |parts[i]| ensures !IsQuote(parts[i][j]) {
        SplitChars(body, ',', i, parts[i][j]);
      }
    }
    CleanPartsAreClean(parts);
  }

  lemma {:induction false} CleanPartsOfClean(ts: seq<string>)
    requires CleanTokens(ts)
    ensures CleanParts(ts) == ts
  {
    if ts != [] {
      assert CleanToken(ts[0]);
      TrimOfTrimmed(ts[0]);
      CleanPartsOfClean(ts[1..]);
    }
  }

  /** Printing tokens and reading them back. */
  lemma TokensOfJoin(ts: seq<string>)
    requires CleanTokens(ts)
    ensures Tokens(Join(ts, ',')) == ts && Unquoted(Join(ts, ','))
  {
    if ts == [] {
      assert Split("", ',') == [""];
      assert Trim("") == "";
      assert CleanParts([""]) == CleanParts([""][1..]);
    } else {
      assert forall i :: 0 <= i < |ts| ==> CleanToken(ts[i]);
      SplitOfJoin(ts, ',');
      CleanPartsOfClean(ts);
    }
    var s := Join(ts, ',');
    forall i | 0 <= i < |s| ensures !IsQuote(s[i]) {
      JoinChars(ts, ',', s[i]);
      if s[i] != ',' {
        var k :| 0 <= k < |ts| && s[i] in ts[k];
        assert CleanToken(ts[k]);
      }
    }
  }

  // --------------------------------------------------------------------- edits

  /** The numbers are given as the services print them: a port to open may have a fraction, a
      port to close comes out of `parseInt`, NaN included. */
  datatype Edit = Allow(port: NumberText) | Deny(closed: string)

  function Removed(ts: seq<string>, t: string): seq<string> {
    if ts == [] then []
    else (if ts[0] == t then [] else [ts[0]]) + Removed(ts[1..], t)
  }

  /** What `addPortToList` and `removePortFromList` do to the tokens of a list. */
  function EditTokens(ts: seq<string>, e: Edit): seq<string> {
    match e
    case Allow(port) => if port in ts then ts else ts + [port]
    case Deny(port) => Removed(ts, port)
  }

  function Matches(key: string): string -> bool { (line: string) => ParseList(line, key).Some? }

  /** The rewritten line: same key, blanks and opening quote, new body, and a double
      quote at the end whatever the line had before. */
  function EditLine(line: string, key: string, e: Edit): string
    requires ParseList(line, key).Some?
  {
    var l := ParseList(line, key).value;
    RenderList(key, l.(body := Join(EditTokens(Tokens(l.body), e), ','), close := '"'))
  }

  function EditKey(lines: seq<string>, key: string, e: Edit): (r: seq<string>)
    ensures |r| == |lines|
  {
    match First(lines, Matches(key))
    case None => lines
    case Some(i) => lines[i := EditLine(lines[i], key, e)]
  }

  function EditIf(lines: seq<string>, key: string, selected: bool, e: Edit): (r: seq<string>)
    ensures |r| == |lines|
  {
    if selected then EditKey(lines, key, e) else lines
  }

  /** One list after the other, in the order of the source. */
  function EditSelected(lines: seq<string>, p: Protocol, d: Direction, e: Edit): (r: seq<string>)
    ensures |r| == |lines|
  {
    var a := EditIf(lines, TCP_IN, Selected(TCP_IN, p, d), e);
    var b := EditIf(a, TCP_OUT, Selected(TCP_OUT, p, d), e);
    var c := EditIf(b, UDP_IN, Selected(UDP_IN, p, d), e);
    EditIf(c, UDP_OUT, Selected(UDP_OUT, p, d), e)
  }

  /** The tokens of the list a key's first matching line holds. */
  function ListTokens(lines: seq<string>, key: string): Option<seq<string>> {
    match First(lines, Matches(key))
    case None => None
    case Some(i) => Some(Tokens(ParseList(lines[i], key).value.body))
  }

  lemma {:induction false} RemovedMeaning(ts: seq<string>, t: string)
    ensures t !in Removed(ts, t)
    ensures forall u :: u != t ==> (u in Removed(ts, t) <==> u in ts)
    ensures t !in ts ==> Removed(ts, t) == ts
  {
    if ts != [] { RemovedMeaning(ts[1..], t); }
  }

  lemma {:induction false} RemovedFromEnd(ts: seq<string>, t: string)
    ensures Removed(ts + [t], t) == Removed(ts, t)
  {
    if ts == [] {
      assert [t][1..] == [] && ts + [t] == [t];
    } else {
      assert (ts + [t])[1..] == ts[1..] + [t];
      RemovedFromEnd(ts[1..], t);
    }
  }

  lemma {:induction false} RemovedClean(ts: seq<string>, t: string)
    requires CleanTokens(ts)
    ensures CleanTokens(Removed(ts, t))
  {
    if ts != [] { RemovedClean(ts[1..], t); }
  }

  lemma NumberTextClean(v: NumberText)
    ensures CleanToken(v)
  {
    NumberTextTrimmed(v);
    assert !NumberChar(',');
    forall i | 0 <= i < |v| ensures !IsQuote(v[i]) { assert NumberChar(v[i]); }
  }

  lemma EditedTokensClean(ts: seq<string>, e: Edit)
    requires CleanTokens(ts)
    ensures CleanTokens(EditTokens(ts, e))
  {
    match e
    case Allow(port) => NumberTextClean(port);
    case Deny(port) => RemovedClean(ts, port);
  }

  /** The edited line still matches its key, holds the edited tokens between the same
      opening quote and a double quote, and keeps everything around them. */
  lemma EditedLine(line: string, key: string, e: Edit)
    requires ParseList(line, key).Some?
    ensures ParseList(EditLine(line, key, e), key).Some?
    ensures var l, m := ParseList(line, key).value, ParseList(EditLine(line, key, e), key).value;
            && Tokens(m.body) == EditTokens(Tokens(l.body), e)
            && m.gap1 == l.gap1 && m.gap2 == l.gap2 && m.open == l.open && m.close == '"' && m.rest == l.rest
            && m.body == Join(EditTokens(Tokens(l.body), e), ',')
  {
    RenderedList(line, key);
    var l := ParseList(line, key).value;
    TokensAreClean(l.body);
    EditedTokensClean(Tokens(l.body), e);
    TokensOfJoin(EditTokens(Tokens(l.body), e));
    ParsedList(key, l.(body := Join(EditTokens(Tokens(l.body), e), ','), close := '"'));
  }

  /** A line of one key matches no other. */
  lemma ForeignLine(line: string, key: string, other: string)
    requires IsKey(key) && IsKey(other) && key != other && ParseList(line, key).Some?
    ensures ParseList(line, other).None? && ParseNumber(line, other).None?
  {
    if ParseHead(line, other).Some? { OneKeyPerLine(line, key, other); }
  }

  lemma ListKeysAreKeys(key: string)
    requires IsListKey(key)
    ensures IsKey(key)
  {}

  lemma EditKeepsMatch(line: string, key: string, e: Edit, other: string)
    requires IsKey(key) && IsKey(other) && ParseList(line, key).Some?
    ensures Matches(other)(EditLine(line, key, e)) == Matches(other)(line)
    ensures other != key ==> !Matches(other)(line)
  {
    EditedLine(line, key, e);
    if other != key {
      ForeignLine(line, key, other);
      ForeignLine(EditLine(line, key, e), key, other);
    }
  }

  function EditedTokens(ts: Option<seq<string>>, e: Edit, selected: bool): Option<seq<string>> {
    match ts
    case None => None
    case Some(t) => if selected then Some(EditTokens(t, e)) else Some(t)
  }

  lemma EditKeepsFirst(lines: seq<string>, key: string, e: Edit, other: string)
    requires IsKey(key) && IsKey(other)
    ensures First(EditKey(lines, key, e), Matches(other)) == First(lines, Matches(other))
  {
    var at := First(lines, Matches(key));
    if at.Some? {
      EditKeepsMatch(lines[at.value], key, e, other);
      FirstAfterUpdate(lines, at.value, EditLine(lines[at.value], key, e), Matches(other));
    }
  }

  lemma EditedList(lines: seq<string>, key: string, e: Edit)
    requires IsKey(key)
    ensures ListTokens(EditKey(lines, key, e), key) == EditedTokens(ListTokens(lines, key), e, true)
  {
    EditKeepsFirst(lines, key, e, key);
    var at := First(lines, Matches(key));
    if at.Some? {
      EditedLine(lines[at.value], key, e);
    }
  }

  /** Editing one list: its tokens are the edited ones, the lists of all other keys
      read as before, and no other line changes. */
  lemma EditKeyExact(lines: seq<string>, key: string, e: Edit, other: string)
    requires IsKey(key) && IsKey(other)
    ensures ListTokens(EditKey(lines, key, e), other) == EditedTokens(ListTokens(lines, other), e, other == key)
    ensures First(EditKey(lines, key, e), Matches(other)) == First(lines, Matches(other))
    ensures forall i :: 0 <= i < |lines| && First(lines, Matches(key)) != Some(i) ==>
                          EditKey(lines, key, e)[i] == lines[i]
  {
    EditKeepsFirst(lines, key, e, other);
    if other == key {
      EditedList(lines, key, e);
    } else {
      var at, j := First(lines, Matches(key)), First(lines, Matches(other));
      if at.Some? && j.Some? {
        EditKeepsMatch(lines[at.value], key, e, other);
        assert j.value != at.value;
      }
    }
  }

  lemma EditIfExact(lines: seq<string>, key: string, selected: bool, e: Edit, other: string)
    requires IsKey(key) && IsKey(other)
    ensures ListTokens(EditIf(lines, key, selected, e), other)
            == EditedTokens(ListTokens(lines, other), e, selected && other == key)
    ensures First(EditIf(lines, key, selected, e), Matches(other)) == First(lines, Matches(other))
    ensures forall i :: 0 <= i < |lines| && !(selected && First(lines, Matches(key)) == Some(i)) ==>
                          EditIf(lines, key, selected, e)[i] == lines[i]
  {
    EditKeyExact(lines, key, e, other);
  }

  lemma FourKeys()
    ensures IsKey(TCP_IN) && IsKey(TCP_OUT) && IsKey(UDP_IN) && IsKey(UDP_OUT)
    ensures TCP_IN != TCP_OUT && TCP_IN != UDP_IN && TCP_IN != UDP_OUT
    ensures TCP_OUT != UDP_IN && TCP_OUT != UDP_OUT && UDP_IN != UDP_OUT
  {}

  /** The main result: after allow or deny each list holds the edited tokens if the
      (protocol, direction) pair selects it and its old tokens if not, whatever the
      lines look like. */
  lemma EditSelectedExact(lines: seq<string>, p: Protocol, d: Direction, e: Edit, key: string)
    requires IsKey(key)
    ensures ListTokens(EditSelected(lines, p, d, e), key)
            == EditedTokens(ListTokens(lines, key), e, Selected(key, p, d))
    ensures First(EditSelected(lines, p, d, e), Matches(key)) == First(lines, Matches(key))
  {
    FourKeys();
    EditInOrder(lines, TCP_IN, TCP_OUT, UDP_IN, UDP_OUT, Selected(TCP_IN, p, d), Selected(TCP_OUT, p, d),
                Selected(UDP_IN, p, d), Selected(UDP_OUT, p, d), e, key);
  }

  lemma EditInOrder(lines: seq<string>, k1: string, k2: string, k3: string, k4: string,
                    s1: bool, s2: bool, s3: bool, s4: bool, e: Edit, key: string)
    requires IsKey(k1) && IsKey(k2) && IsKey(k3) && IsKey(k4) && IsKey(key)
    requires k1 != k2 && k1 != k3 && k1 != k4 && k2 != k3 && k2 != k4 && k3 != k4
    ensures var r := EditIf(EditIf(EditIf(EditIf(lines, k1, s1, e), k2, s2, e), k3, s3, e), k4, s4, e);
            && ListTokens(r, key)
               == EditedTokens(ListTokens(lines, key), e,
                               (key == k1 && s1) || (key == k2 && s2) || (key == k3 && s3) || (key == k4 && s4))
            && First(r, Matches(key)) == First(lines, Matches(key))
  {
    var a := EditIf(lines, k1, s1, e);
    var b := EditIf(a, k2, s2, e);
    var c := EditIf(b, k3, s3, e);
    EditIfExact(lines, k1, s1, e, key);
    EditIfExact(a, k2, s2, e, key);
    EditIfExact(b, k3, s3, e, key);
    EditIfExact(c, k4, s4, e, key);
  }

  /** Every line but the first ones of the selected keys stays character for character. */
  lemma OtherLinesUntouched(lines: seq<string>, p: Protocol, d: Direction, e: Edit, i: nat)
    requires i < |lines|
    requires forall key :: IsListKey(key) && Selected(key, p, d) ==> First(lines, Matches(key)) != Some(i)
    ensures EditSelected(lines, p, d, e)[i] == lines[i]
  {
    FourKeys();
    EditSpares(lines, TCP_IN, TCP_OUT, UDP_IN, UDP_OUT, Selected(TCP_IN, p, d), Selected(TCP_OUT, p, d),
               Selected(UDP_IN, p, d), Selected(UDP_OUT, p, d), e, i);
  }

  lemma EditSpares(lines: seq<string>, k1: string, k2: string, k3: string, k4: string,
                   s1: bool, s2: bool, s3: bool, s4: bool, e: Edit, i: nat)
    requires IsKey(k1) && IsKey(k2) && IsKey(k3) && IsKey(k4) && i < |lines|
    requires s1 ==> First(lines, Matches(k1)) != Some(i)
    requires s2 ==> First(lines, Matches(k2)) != Some(i)
    requires s3 ==> First(lines, Matches(k3)) != Some(i)
    requires s4 ==> First(lines, Matches(k4)) != Some(i)
    ensures EditIf(EditIf(EditIf(EditIf(lines, k1, s1, e), k2, s2, e), k3, s3, e), k4, s4, e)[i] == lines[i]
  {
    var a := EditIf(lines, k1, s1, e);
    var b := EditIf(a, k2, s2, e);
    var c := EditIf(b, k3, s3, e);
    EditIfExact(lines, k1, s1, e, k2);
    EditIfExact(lines, k1, s1, e, k3);
    EditIfExact(lines, k1, s1, e, k4);
    EditIfExact(a, k2, s2, e, k3);
    EditIfExact(a, k2, s2, e, k4);
    EditIfExact(b, k3, s3, e, k4);
    EditIfExact(c, k4, s4, e, k1);
  }

  // ------------------------------------------------------------------- reading

  /** `parsePortList` on the split body: `parseInt` of each part, NaN left out. */
  function Numbers(parts: seq<string>): seq<int> {
    if parts == [] then []
    else
      var n := ParseInt(Trim(parts[0]));
      (if n.Some? then [n.value] else []) + Numbers(parts[1..])
  }

  /** One of the four lists `getAllowedPorts` returns. */
  function AllowedPorts(lines: seq<string>, key: string): seq<int> {
    match First(lines, Matches(key))
    case None => []
    case Some(i) => Numbers(Split(ParseList(lines[i], key).value.body, ','))
  }

  lemma {:induction false} NumbersOfClean(parts: seq<string>)
    ensures Numbers(parts) == Numbers(CleanParts(parts))
  {
    if parts != [] {
      NumbersOfClean(parts[1..]);
      var t := Trim(parts[0]);
      TrimIsTrimmed(parts[0]);
      TrimOfTrimmed(t);
      if t != "" {
        assert CleanParts(parts) == [t] + CleanParts(parts[1..]);
      } else {
        assert CleanParts(parts) == CleanParts(parts[1..]);
      }
    }
  }

  lemma AllowedPortsOfTokens(lines: seq<string>, key: string)
    ensures AllowedPorts(lines, key)
            == match ListTokens(lines, key)
               case None => []
               case Some(ts) => Numbers(ts)
  {
    var at := First(lines, Matches(key));
    if at.Some? { NumbersOfClean(Split(ParseList(lines[at.value], key).value.body, ',')); }
  }

  lemma NumberToken(v: NumberText)
    ensures ParseInt(Trim(v)) == Some(Whole(v))
  {
    NumberTextTrimmed(v);
    ParseNumberText(v, "");
    assert v + "" == v;
  }

  lemma NumbersCons(t: string, ts: seq<string>)
    ensures var n := ParseInt(Trim(t));
            Numbers([t] + ts) == (if n.Some? then [n.value] else []) + Numbers(ts)
  {
    assert ([t] + ts)[1..] == ts;
  }

  lemma {:induction false} NumbersAppend(ts: seq<string>, t: string, n: int)
    requires ParseInt(Trim(t)) == Some(n)
    ensures Numbers(ts + [t]) == Numbers(ts) + [n]
  {
    if ts == [] {
      NumbersCons(t, []);
      assert ts + [t] == [t] + [];
    } else {
      assert ts + [t] == [ts[0]] + (ts[1..] + [t]);
      NumbersCons(ts[0], ts[1..] + [t]);
      NumbersAppend(ts[1..], t, n);
    }
  }

  /** Reading after allow: the whole part of the port is appended where the port, as printed,
      was not listed. */
  lemma PortsAfterAllow(lines: seq<string>, p: Protocol, d: Direction, port: NumberText, key: string)
    requires IsKey(key)
    ensures AllowedPorts(EditSelected(lines, p, d, Allow(port)), key)
            == if Selected(key, p, d) && ListTokens(lines, key).Some? && port !in ListTokens(lines, key).value
               then AllowedPorts(lines, key) + [Whole(port)]
               else AllowedPorts(lines, key)
  {
    EditSelectedExact(lines, p, d, Allow(port), key);
    AllowedPortsOfTokens(lines, key);
    AllowedPortsOfTokens(EditSelected(lines, p, d, Allow(port)), key);
    if ListTokens(lines, key).Some? {
      NumberToken(port);
      NumbersAppend(ListTokens(lines, key).value, port, Whole(port));
    }
  }

  lemma {:induction false} NumberComesFrom(ts: seq<string>, n: int)
    ensures n in Numbers(ts) <==> exists i :: 0 <= i < |ts| && ParseInt(Trim(ts[i])) == Some(n)
  {
    if ts != [] {
      NumberComesFrom(ts[1..], n);
      assert ts == [ts[0]] + ts[1..];
      if i :| 0 <= i < |ts| && ParseInt(Trim(ts[i])) == Some(n) {
        if i > 0 { assert ts[1..][i - 1] == ts[i]; }
      }
    }
  }

  lemma TokenReads(ts: seq<string>, v: NumberText)
    requires v in ts
    ensures Whole(v) in Numbers(ts)
  {
    var i :| 0 <= i < |ts| && ts[i] == v;
    NumberToken(v);
    NumberComesFrom(ts, Whole(v));
  }

  /** In a selected list a port reads back as it was given exactly when it is printed in digits
      only; otherwise its whole part reads as open, a port nobody asked for. */
  lemma AllowedReadsBackIff(lines: seq<string>, p: Protocol, d: Direction, port: NumberText, key: string)
    requires IsKey(key) && Selected(key, p, d) && ListTokens(lines, key).Some?
    ensures Whole(port) in AllowedPorts(EditSelected(lines, p, d, Allow(port)), key)
    ensures (exists n :: n in AllowedPorts(EditSelected(lines, p, d, Allow(port)), key) && IntToString(n) == port)
            <==> AllDigits(port)
  {
    var after := EditSelected(lines, p, d, Allow(port));
    EditSelectedExact(lines, p, d, Allow(port), key);
    AllowedPortsOfTokens(after, key);
    TokenReads(ListTokens(after, key).value, port);
    IntegerText(Whole(port), port);
    if n :| n in AllowedPorts(after, key) && IntToString(n) == port { IntegerText(n, port); }
  }

  lemma DenyKeepsToken(lines: seq<string>, p: Protocol, d: Direction, port: NumberText, gone: string, key: string)
    requires IsKey(key) && ListTokens(lines, key).Some? && port in ListTokens(lines, key).value && port != gone
    ensures Whole(port) in AllowedPorts(EditSelected(lines, p, d, Deny(gone)), key)
  {
    var after := EditSelected(lines, p, d, Deny(gone));
    EditSelectedExact(lines, p, d, Deny(gone), key);
    AllowedPortsOfTokens(after, key);
    RemovedMeaning(ListTokens(lines, key).value, gone);
    TokenReads(ListTokens(after, key).value, port);
  }

  /** Such a port stays open whatever integer is denied next: its whole part still reads. */
  lemma FractionStays(lines: seq<string>, p: Protocol, d: Direction, port: NumberText, closed: int, key: string)
    requires IsKey(key) && Selected(key, p, d) && ListTokens(lines, key).Some? && !AllDigits(port)
    ensures var after := EditSelected(EditSelected(lines, p, d, Allow(port)), p, d, Deny(IntToString(closed)));
            Whole(port) in AllowedPorts(after, key)
  {
    var widened, gone := EditSelected(lines, p, d, Allow(port)), IntToString(closed);
    IntegerText(closed, port);
    EditSelectedExact(lines, p, d, Allow(port), key);
    DenyKeepsToken(widened, p, d, port, gone, key);
  }

  /** Allowing 80.5 opens port 80 for the reader, and denying 80 leaves it so. */
  lemma EightyAndAHalf(lines: seq<string>, p: Protocol, d: Direction, key: string)
    requires IsKey(key) && Selected(key, p, d) && ListTokens(lines, key).Some?
    ensures Printed("80.5")
    ensures var widened := EditSelected(lines, p, d, Allow("80.5"));
            && 80 in AllowedPorts(widened, key)
            && 80 in AllowedPorts(EditSelected(widened, p, d, Deny("80")), key)
  {
    EightyTexts();
    AllowedReadsBackIff(lines, p, d, "80.5", key);
    FractionStays(lines, p, d, "80.5", 80, key);
  }

  function WithoutNumber(ns: seq<int>, n: int): seq<int> {
    if ns == [] then [] else (if ns[0] == n then [] else [ns[0]]) + WithoutNumber(ns[1..], n)
  }

  lemma WithoutCons(n: int, ns: seq<int>, gone: int)
    ensures WithoutNumber([n] + ns, gone) == (if n == gone then [] else [n]) + WithoutNumber(ns, gone)
  {
    assert ([n] + ns)[1..] == ns;
  }

  /** Every token that reads as the number is its printed form. */
  predicate OneSpelling(ts: seq<string>, port: int) {
    forall i :: 0 <= i < |ts| && ParseInt(Trim(ts[i])) == Some(port) ==> ts[i] == IntToString(port)
  }

  lemma {:induction false} NumbersOfRemoved(ts: seq<string>, port: int)
    requires OneSpelling(ts, port)
    ensures Numbers(Removed(ts, IntToString(port))) == WithoutNumber(Numbers(ts), port)
  {
    if ts != [] {
      var t, rest, gone := ts[0], ts[1..], IntToString(port);
      assert OneSpelling(rest, port) by {
        assert forall i :: 0 <= i < |rest| ==> rest[i] == ts[i + 1];
      }
      NumbersOfRemoved(rest, port);
      IntegerReads(port);
      var n, kept := ParseInt(Trim(t)), Removed(rest, gone);
      assert n == Some(port) <==> t == gone;
      if t != gone { NumbersCons(t, kept); }
      assert Removed(ts, gone) == if t == gone then kept else [t] + kept;
      if n.Some? {
        WithoutCons(n.value, Numbers(rest), port);
        assert Numbers(ts) == [n.value] + Numbers(rest);
      } else {
        assert Numbers(ts) == Numbers(rest);
      }
    }
  }

  lemma {:induction false} WithoutIsGone(ns: seq<int>, n: int)
    ensures n !in WithoutNumber(ns, n)
  {
    if ns != [] { WithoutIsGone(ns[1..], n); }
  }

  lemma RemovedNumbersIff(ts: seq<string>, port: int)
    ensures Numbers(Removed(ts, IntToString(port))) == WithoutNumber(Numbers(ts), port) <==> OneSpelling(ts, port)
  {
    if OneSpelling(ts, port) {
      NumbersOfRemoved(ts, port);
    } else {
      DenyLeavesOtherSpellings(ts, port);
      WithoutIsGone(Numbers(ts), port);
    }
  }

  /** Reading after deny: a list that is not selected stays. In a selected one the port is gone
      and every other port is kept, in order, exactly when nothing else in it spells the port. */
  lemma PortsAfterDeny(lines: seq<string>, p: Protocol, d: Direction, port: int, key: string)
    requires IsKey(key)
    ensures var after := AllowedPorts(EditSelected(lines, p, d, Deny(IntToString(port))), key);
            if !Selected(key, p, d) || ListTokens(lines, key).None? then after == AllowedPorts(lines, key)
            else
              after == WithoutNumber(AllowedPorts(lines, key), port)
              <==> OneSpelling(ListTokens(lines, key).value, port)
  {
    EditSelectedExact(lines, p, d, Deny(IntToString(port)), key);
    AllowedPortsOfTokens(lines, key);
    AllowedPortsOfTokens(EditSelected(lines, p, d, Deny(IntToString(port))), key);
    if ListTokens(lines, key).Some? { RemovedNumbersIff(ListTokens(lines, key).value, port); }
  }

  /** On any list: a denied port still reads as allowed exactly when some token spells it in
      another way (`022`, `22tcp`, the start of a range). */
  lemma DenyLeavesOtherSpellings(ts: seq<string>, port: int)
    ensures port in Numbers(EditTokens(ts, Deny(IntToString(port)))) <==> !OneSpelling(ts, port)
  {
    var left := Removed(ts, IntToString(port));
    RemovedMeaning(ts, IntToString(port));
    NumberComesFrom(left, port);
    if i :| 0 <= i < |ts| && ts[i] != IntToString(port) && ParseInt(Trim(ts[i])) == Some(port) {
      assert ts[i] in left;
      var k :| 0 <= k < |left| && left[k] == ts[i];
    }
    if k :| 0 <= k < |left| && ParseInt(Trim(left[k])) == Some(port) {
      assert left[k] in left && left[k] in ts;
      var i :| 0 <= i < |ts| && ts[i] == left[k];
    }
  }

  // ------------------------------------------------ which lists, by protocol and direction

  lemma AllowedIn(lines: seq<string>, p: Protocol, d: Direction, port: NumberText, key: string)
    requires IsKey(key) && Selected(key, p, d) && ListTokens(lines, key).Some?
    ensures Whole(port) in AllowedPorts(EditSelected(lines, p, d, Allow(port)), key)
  {
    AllowedReadsBackIff(lines, p, d, port, key);
  }

  predicate Opens(before: seq<string>, after: seq<string>, key: string, port: NumberText) {
    ListTokens(before, key).Some? ==> Whole(port) in AllowedPorts(after, key)
  }

  /** Allowing opens the port in every list of its protocols and directions. */
  lemma AllowOpens(lines: seq<string>, p: Protocol, d: Direction, port: NumberText)
    ensures var after := EditSelected(lines, p, d, Allow(port));
            && ((p == Tcp || p == BothProtocols) && (d == In || d == BothDirections) ==>
                  Opens(lines, after, "TCP_IN", port))
            && ((p == Tcp || p == BothProtocols) && (d == Out || d == BothDirections) ==>
                  Opens(lines, after, "TCP_OUT", port))
            && ((p == Udp || p == BothProtocols) && (d == In || d == BothDirections) ==>
                  Opens(lines, after, "UDP_IN", port))
            && ((p == Udp || p == BothProtocols) && (d == Out || d == BothDirections) ==>
                  Opens(lines, after, "UDP_OUT", port))
  {
    FourKeys();
    if Selected(TCP_IN, p, d) && ListTokens(lines, TCP_IN).Some? { AllowedIn(lines, p, d, port, TCP_IN); }
    if Selected(TCP_OUT, p, d) && ListTokens(lines, TCP_OUT).Some? { AllowedIn(lines, p, d, port, TCP_OUT); }
    if Selected(UDP_IN, p, d) && ListTokens(lines, UDP_IN).Some? { AllowedIn(lines, p, d, port, UDP_IN); }
    if Selected(UDP_OUT, p, d) && ListTokens(lines, UDP_OUT).Some? { AllowedIn(lines, p, d, port, UDP_OUT); }
  }

  /** No such list holds the token. */
  predicate Lacks(lines: seq<string>, key: string, t: string) {
    ListTokens(lines, key).Some? ==> t !in ListTokens(lines, key).value
  }

  lemma DeniedIn(lines: seq<string>, p: Protocol, d: Direction, port: string, key: string)
    requires IsKey(key) && Selected(key, p, d)
    ensures Lacks(EditSelected(lines, p, d, Deny(port)), key, port)
  {
    EditSelectedExact(lines, p, d, Deny(port), key);
    if ListTokens(lines, key).Some? { RemovedMeaning(ListTokens(lines, key).value, port); }
  }

  /** Denying takes the token out of every list of its protocols and directions. */
  lemma DenyCloses(lines: seq<string>, p: Protocol, d: Direction, port: string)
    ensures var after := EditSelected(lines, p, d, Deny(port));
            && ((p == Tcp || p == BothProtocols) && (d == In || d == BothDirections) ==> Lacks(after, "TCP_IN", port))
            && ((p == Tcp || p == BothProtocols) && (d == Out || d == BothDirections) ==> Lacks(after, "TCP_OUT", port))
            && ((p == Udp || p == BothProtocols) && (d == In || d == BothDirections) ==> Lacks(after, "UDP_IN", port))
            && ((p == Udp || p == BothProtocols) && (d == Out || d == BothDirections) ==> Lacks(after, "UDP_OUT", port))
  {
    FourKeys();
    if Selected(TCP_IN, p, d) { DeniedIn(lines, p, d, port, TCP_IN); }
    if Selected(TCP_OUT, p, d) { DeniedIn(lines, p, d, port, TCP_OUT); }
    if Selected(UDP_IN, p, d) { DeniedIn(lines, p, d, port, UDP_IN); }
    if Selected(UDP_OUT, p, d) { DeniedIn(lines, p, d, port, UDP_OUT); }
  }

  /** Tokens and ports of the list are as before. */
  predicate SameList(before: seq<string>, after: seq<string>, key: string) {
    ListTokens(after, key) == ListTokens(before, key) && AllowedPorts(after, key) == AllowedPorts(before, key)
  }

  lemma Unselected(lines: seq<string>, p: Protocol, d: Direction, e: Edit, key: string)
    requires IsKey(key) && !Selected(key, p, d)
    ensures SameList(lines, EditSelected(lines, p, d, e), key)
  {
    EditSelectedExact(lines, p, d, e, key);
    AllowedPortsOfTokens(lines, key);
    AllowedPortsOfTokens(EditSelected(lines, p, d, e), key);
  }

  /** Either edit leaves the lists of the other protocol and of the other direction alone, and
      those of every other key. */
  lemma OtherListsKept(lines: seq<string>, p: Protocol, d: Direction, e: Edit, other: string)
    requires IsKey(other) && other != "TCP_IN" && other != "TCP_OUT" && other != "UDP_IN" && other != "UDP_OUT"
    ensures var after := EditSelected(lines, p, d, e);
            && (p == Tcp ==> SameList(lines, after, "UDP_IN") && SameList(lines, after, "UDP_OUT"))
            && (p == Udp ==> SameList(lines, after, "TCP_IN") && SameList(lines, after, "TCP_OUT"))
            && (d == In ==> SameList(lines, after, "TCP_OUT") && SameList(lines, after, "UDP_OUT"))
            && (d == Out ==> SameList(lines, after, "TCP_IN") && SameList(lines, after, "UDP_IN"))
            && SameList(lines, after, other)
  {
    FourKeys();
    Unselected(lines, p, d, e, other);
    if !Selected(TCP_IN, p, d) { Unselected(lines, p, d, e, TCP_IN); }
    if !Selected(TCP_OUT, p, d) { Unselected(lines, p, d, e, TCP_OUT); }
    if !Selected(UDP_IN, p, d) { Unselected(lines, p, d, e, UDP_IN); }
    if !Selected(UDP_OUT, p, d) { Unselected(lines, p, d, e, UDP_OUT); }
  }

  /** Edits of two keys can be made in either order. */
  lemma EditsCommute(lines: seq<string>, k1: string, s1: bool, k2: string, s2: bool, e: Edit)
    requires IsKey(k1) && IsKey(k2) && k1 != k2
    ensures EditIf(EditIf(lines, k1, s1, e), k2, s2, e) == EditIf(EditIf(lines, k2, s2, e), k1, s1, e)
  {
    EditIfExact(lines, k1, s1, e, k2);
    EditIfExact(lines, k2, s2, e, k1);
    var i, j := First(lines, Matches(k1)), First(lines, Matches(k2));
    if i.Some? && j.Some? { EditKeepsMatch(lines[i.value], k1, e, k2); }
  }

  /** Both directions are one and then the other, and so are both protocols: the same text. */
  lemma BothIsOneAfterTheOther(lines: seq<string>, p: Protocol, d: Direction, e: Edit)
    ensures EditSelected(lines, p, BothDirections, e) == EditSelected(EditSelected(lines, p, In, e), p, Out, e)
    ensures EditSelected(lines, BothProtocols, d, e) == EditSelected(EditSelected(lines, Tcp, d, e), Udp, d, e)
  {
    FourKeys();
    var a := EditIf(lines, TCP_IN, p != Udp, e);
    EditsCommute(a, TCP_OUT, p != Udp, UDP_IN, p != Tcp, e);
  }

  // ------------------------------------------------------- idempotence, and undo

  /** The key's line, if there is one, is as the edit would write it. */
  predicate Settled(lines: seq<string>, key: string, e: Edit) {
    var at := First(lines, Matches(key));
    at.Some? ==> EditLine(lines[at.value], key, e) == lines[at.value]
  }

  lemma EditLineTwice(line: string, key: string, port: NumberText)
    requires ParseList(line, key).Some?
    ensures ParseList(EditLine(line, key, Allow(port)), key).Some?
    ensures EditLine(EditLine(line, key, Allow(port)), key, Allow(port)) == EditLine(line, key, Allow(port))
  {
    EditedLine(line, key, Allow(port));
    RenderedList(EditLine(line, key, Allow(port)), key);
  }

  lemma EditKeySettles(lines: seq<string>, key: string, port: NumberText)
    requires IsKey(key)
    ensures Settled(EditKey(lines, key, Allow(port)), key, Allow(port))
  {
    EditKeepsFirst(lines, key, Allow(port), key);
    var at := First(lines, Matches(key));
    if at.Some? { EditLineTwice(lines[at.value], key, port); }
  }

  lemma EditIfKeepsSettled(lines: seq<string>, key: string, selected: bool, e: Edit, other: string)
    requires IsKey(key) && IsKey(other) && key != other && Settled(lines, other, e)
    ensures Settled(EditIf(lines, key, selected, e), other, e)
  {
    EditIfExact(lines, key, selected, e, other);
    var at, j := First(lines, Matches(key)), First(lines, Matches(other));
    if at.Some? && j.Some? { EditKeepsMatch(lines[at.value], key, e, other); }
  }

  lemma SettledIsFixed(lines: seq<string>, key: string, selected: bool, e: Edit)
    requires selected ==> Settled(lines, key, e)
    ensures EditIf(lines, key, selected, e) == lines
  {}

  lemma FourSettled(lines: seq<string>, k1: string, k2: string, k3: string, k4: string,
                    s1: bool, s2: bool, s3: bool, s4: bool, port: NumberText)
    requires IsKey(k1) && IsKey(k2) && IsKey(k3) && IsKey(k4)
    requires k1 != k2 && k1 != k3 && k1 != k4 && k2 != k3 && k2 != k4 && k3 != k4
    ensures var e := Allow(port);
            var r := EditIf(EditIf(EditIf(EditIf(lines, k1, s1, e), k2, s2, e), k3, s3, e), k4, s4, e);
            && (s1 ==> Settled(r, k1, e)) && (s2 ==> Settled(r, k2, e))
            && (s3 ==> Settled(r, k3, e)) && (s4 ==> Settled(r, k4, e))
  {
    var e := Allow(port);
    var a := EditIf(lines, k1, s1, e);
    var b := EditIf(a, k2, s2, e);
    var c := EditIf(b, k3, s3, e);
    EditKeySettles(lines, k1, port);
    EditKeySettles(a, k2, port);
    EditKeySettles(b, k3, port);
    EditKeySettles(c, k4, port);
    if s1 {
      EditIfKeepsSettled(a, k2, s2, e, k1);
      EditIfKeepsSettled(b, k3, s3, e, k1);
      EditIfKeepsSettled(c, k4, s4, e, k1);
    }
    if s2 {
      EditIfKeepsSettled(b, k3, s3, e, k2);
      EditIfKeepsSettled(c, k4, s4, e, k2);
    }
    if s3 { EditIfKeepsSettled(c, k4, s4, e, k3); }
  }

  /** Allowing twice is allowing once, character for character. */
  lemma AllowTwice(lines: seq<string>, p: Protocol, d: Direction, port: NumberText)
    ensures var once := EditSelected(lines, p, d, Allow(port));
            EditSelected(once, p, d, Allow(port)) == once
  {
    FourKeys();
    var s1, s2 := Selected(TCP_IN, p, d), Selected(TCP_OUT, p, d);
    var s3, s4 := Selected(UDP_IN, p, d), Selected(UDP_OUT, p, d);
    var once := EditSelected(lines, p, d, Allow(port));
    FourSettled(lines, TCP_IN, TCP_OUT, UDP_IN, UDP_OUT, s1, s2, s3, s4, port);
    SettledIsFixed(once, TCP_IN, s1, Allow(port));
    SettledIsFixed(once, TCP_OUT, s2, Allow(port));
    SettledIsFixed(once, UDP_IN, s3, Allow(port));
    SettledIsFixed(once, UDP_OUT, s4, Allow(port));
  }

  /** Denying right after allowing a port no list held, in the same spelling, gives back the
      same lists. */
  lemma DenyUndoesAllow(lines: seq<string>, p: Protocol, d: Direction, port: NumberText, key: string)
    requires IsKey(key)
    requires ListTokens(lines, key).Some? ==> port !in ListTokens(lines, key).value
    ensures ListTokens(EditSelected(EditSelected(lines, p, d, Allow(port)), p, d, Deny(port)), key)
            == ListTokens(lines, key)
  {
    EditSelectedExact(lines, p, d, Allow(port), key);
    EditSelectedExact(EditSelected(lines, p, d, Allow(port)), p, d, Deny(port), key);
    if ListTokens(lines, key).Some? {
      RemovedFromEnd(ListTokens(lines, key).value, port);
      RemovedMeaning(ListTokens(lines, key).value, port);
    }
  }

  /** Denying the port as it reads does so exactly when the port is printed in digits only, or
      no selected list was there to change. */
  lemma DenyOfReadUndoesIff(lines: seq<string>, p: Protocol, d: Direction, port: NumberText, key: string)
    requires IsKey(key)
    requires ListTokens(lines, key).Some? ==> port !in ListTokens(lines, key).value
    ensures var after := EditSelected(EditSelected(lines, p, d, Allow(port)), p, d, Deny(ToDecimal(Whole(port))));
            ListTokens(after, key) == ListTokens(lines, key)
            <==> AllDigits(port) || !Selected(key, p, d) || ListTokens(lines, key).None?
  {
    WholeIff(port);
    if AllDigits(port) {
      DenyUndoesAllow(lines, p, d, port, key);
    } else {
      var widened, closed := EditSelected(lines, p, d, Allow(port)), ToDecimal(Whole(port));
      EditSelectedExact(lines, p, d, Allow(port), key);
      EditSelectedExact(widened, p, d, Deny(closed), key);
      if ListTokens(lines, key).Some? { RemovedMeaning(ListTokens(lines, key).value + [port], closed); }
    }
  }

  /** The rewritten line has matching quotes exactly when the old one widened with a
      double quote: a list in single quotes comes out as `'20,21"`. */
  lemma QuotesMatchIff(line: string, key: string, e: Edit)
    requires ParseList(line, key).Some?
    ensures var m := ParseList(EditLine(line, key, e), key);
            m.Some? && (m.value.open == m.value.close <==> ParseList(line, key).value.open == '"')
  {
    EditedLine(line, key, e);
  }

  // ---------------------------------------------------------------- the service

  datatype PortRule = PortRule(port: string, protocol: Protocol, direction: Direction)

  function WithoutPort(rules: seq<PortRule>, port: string): seq<PortRule> {
    if rules == [] then []
    else (if rules[0].port == port then [] else [rules[0]]) + WithoutPort(rules[1..], port)
  }

  lemma {:induction false} WithoutPortConcat(rules: seq<PortRule>, more: seq<PortRule>, port: string)
    ensures WithoutPort(rules + more, port) == WithoutPort(rules, port) + WithoutPort(more, port)
  {
    if rules == [] {
      assert rules + more == more;
    } else {
      var kept := if rules[0].port == port then [] else [rules[0]];
      WithoutPortConcat(rules[1..], more, port);
      assert (rules + more)[1..] == rules[1..] + more && (rules + more)[0] == rules[0];
      assert kept + (WithoutPort(rules[1..], port) + WithoutPort(more, port))
             == kept + WithoutPort(rules[1..], port) + WithoutPort(more, port);
    }
  }

  /** The stored rules after a deny are those of the other ports, each as often as before; by
      `WithoutPortConcat` they keep their order. */
  lemma {:induction false} WithoutPortExact(rules: seq<PortRule>, port: string, r: PortRule)
    ensures multiset(WithoutPort(rules, port))[r] == if r.port == port then 0 else multiset(rules)[r]
  {
    if rules != [] {
      WithoutPortExact(rules[1..], port, r);
      assert rules == [rules[0]] + rules[1..];
    }
  }

  /** Outcomes of one call: reading csf.conf, the `cp` that installs the new text (whose
      failure goes unnoticed), the database. */
  datatype Io = Io(readable: bool, copied: bool, saved: bool)

  class CsfService {
    var config: seq<string>
    var rules: seq<PortRule>

    constructor (config: seq<string>)
      ensures this.config == config && rules == []
    {
      this.config, rules := config, [];
    }

    method EditOne(csfConfig: seq<string>, key: string, selected: bool, e: Edit) returns (r: seq<string>)
      ensures r == EditIf(csfConfig, key, selected, e)
    {
      r := csfConfig;
      if selected {
        for i := 0 to |csfConfig|
          invariant forall j :: 0 <= j < i ==> !Matches(key)(csfConfig[j])
        {
          if ParseList(csfConfig[i], key).Some? {
            FirstIs(csfConfig, Matches(key), i);
            r := csfConfig[i := EditLine(csfConfig[i], key, e)];
            return;
          }
        }
        NoneAccepted(csfConfig, Matches(key));
      }
    }

    /** Reassigns the text list by list, then installs it. */
    method RewriteLists(p: Protocol, d: Direction, e: Edit, copied: bool)
      modifies this`config
      ensures config == if copied then EditSelected(old(config), p, d, e) else old(config)
    {
      var csfConfig := config;
      csfConfig := EditOne(csfConfig, TCP_IN, p != Udp && d != Out, e);
      csfConfig := EditOne(csfConfig, TCP_OUT, p != Udp && d != In, e);
      csfConfig := EditOne(csfConfig, UDP_IN, p != Tcp && d != Out, e);
      csfConfig := EditOne(csfConfig, UDP_OUT, p != Tcp && d != In, e);
      FourKeys();
      if copied { config := csfConfig; }
    }

    method AllowPort(port: NumberText, p: Protocol, d: Direction, io: Io) returns (success: bool)
      modifies this
      ensures success <==> io.readable && io.saved
      ensures config == if io.readable && io.copied then EditSelected(old(config), p, d, Allow(port)) else old(config)
      ensures rules == if success then old(rules) + [PortRule(port, p, d)] else old(rules)
    {
      if !io.readable { return false; }
      RewriteLists(p, d, Allow(port), io.copied);
      if !io.saved { return false; }
      rules := rules + [PortRule(port, p, d)];
      success := true;
    }

    /** Deletes the stored rules of the port, whatever their protocol and direction. */
    method DenyPort(port: string, p: Protocol := Tcp, d: Direction := BothDirections, io: Io) returns (success: bool)
      modifies this
      ensures success <==> io.readable && io.saved
      ensures config == if io.readable && io.copied then EditSelected(old(config), p, d, Deny(port)) else old(config)
      ensures rules == if success then WithoutPort(old(rules), port) else old(rules)
    {
      if !io.readable { return false; }
      RewriteLists(p, d, Deny(port), io.copied);
      if !io.saved { return false; }
      rules := WithoutPort(rules, port);
      success := true;
    }
  }
}
