/** The `KEY = "value"` lines of csf.conf: what the services' regular expressions
    accept on one line, and how they print it back. */
module ConfLines {
  import opened Text

  predicate IsQuote(c: char) { c == '"' || c == '\'' }

  /** A configuration key: no white space and no equals sign in it. */
  predicate IsKey(key: string) {
    key != "" && forall i :: 0 <= i < |key| ==> !IsSpace(key[i]) && key[i] != '='
  }

  predicate Unquoted(s: string) { forall i :: 0 <= i < |s| ==> !IsQuote(s[i]) }

  function TakeUnquoted(s: string): (r: string)
    ensures r <= s && Unquoted(r)
    ensures |r| < |s| ==> IsQuote(s[|r|])
  {
    if s != "" && !IsQuote(s[0]) then [s[0]] + TakeUnquoted(s[1..]) else ""
  }

  lemma {:induction false} TakeUnquotedStops(body: string, rest: string)
    requires Unquoted(body) && rest != "" && IsQuote(rest[0])
    ensures TakeUnquoted(body + rest) == body
  {
    if body == "" {
      assert body + rest == rest;
    } else {
      assert (body + rest)[1..] == body[1..] + rest;
      TakeUnquotedStops(body[1..], rest);
      assert [body[0]] + body[1..] == body;
    }
  }

  // -------------------------------------------------- the part up to the value

  /** `KEY`, blanks, `=`, blanks: the two runs of blanks, and what follows. */
  datatype Head = Head(gap1: string, gap2: string, value: string)

  predicate HeadOk(h: Head) {
    Blank(h.gap1) && Blank(h.gap2) && (h.value != "" ==> !IsSpace(h.value[0]))
  }

  function RenderHead(key: string, h: Head): string {
    key + (h.gap1 + ("=" + (h.gap2 + h.value)))
  }

  function ParseHead(line: string, key: string): Option<Head> {
    if !StartsWith(line, key) then None
    else
      var a := line[|key|..];
      var b := TrimLeft(a);
      if b == "" || b[0] != '=' then None
      else Some(Head(Pad(a), Pad(b[1..]), TrimLeft(b[1..])))
  }

  lemma RenderedHead(line: string, key: string)
    requires ParseHead(line, key).Some?
    ensures RenderHead(key, ParseHead(line, key).value) == line && HeadOk(ParseHead(line, key).value)
  {
    var a := line[|key|..];
    var b := TrimLeft(a);
    assert line == key + a;
    PadAndRest(a);
    assert b == "=" + b[1..];
    PadAndRest(b[1..]);
  }

  lemma ParsedHead(key: string, h: Head)
    requires HeadOk(h)
    ensures ParseHead(RenderHead(key, h), key) == Some(h)
  {
    var b := "=" + (h.gap2 + h.value);
    Cut(key, h.gap1 + b);
    PadOf(h.gap1, b);
    Cut("=", h.gap2 + h.value);
    PadOf(h.gap2, h.value);
    assert key <= key + (h.gap1 + b);
  }

  lemma KeyEnds(line: string, key: string)
    requires ParseHead(line, key).Some?
    ensures StartsWith(line, key) && |key| < |line| && (IsSpace(line[|key|]) || line[|key|] == '=')
  {
    var a := line[|key|..];
    PadAndRest(a);
    if Pad(a) != "" { assert a[0] == Pad(a)[0]; }
    assert a[0] == line[|key|];
  }

  lemma KeyNotShorter(line: string, key1: string, key2: string)
    requires IsKey(key2) && ParseHead(line, key1).Some? && StartsWith(line, key2)
    ensures |key2| <= |key1|
  {
    KeyEnds(line, key1);
    assert forall i :: 0 <= i < |key2| ==> line[i] == key2[i];
  }

  /** A line assigns one key only. */
  lemma OneKeyPerLine(line: string, key1: string, key2: string)
    requires IsKey(key1) && IsKey(key2)
    requires ParseHead(line, key1).Some? && ParseHead(line, key2).Some?
    ensures key1 == key2
  {
    KeyNotShorter(line, key1, key2);
    KeyNotShorter(line, key2, key1);
    assert line[..|key1|] == key1 && line[..|key2|] == key2;
  }

  // --------------------------------------------------------------- quoted lists

  /** `KEY = "body"rest`, the two quotes being `open` and `close`. */
  datatype ListLine = ListLine(gap1: string, gap2: string, open: char, body: string, close: char, rest: string)

  predicate ListOk(l: ListLine) {
    Blank(l.gap1) && Blank(l.gap2) && IsQuote(l.open) && IsQuote(l.close) && Unquoted(l.body)
  }

  function RenderList(key: string, l: ListLine): string {
    RenderHead(key, Head(l.gap1, l.gap2, [l.open] + (l.body + ([l.close] + l.rest))))
  }

  /** The match of `^KEY\s*=\s*["']([^"']*)["']` on one line. */
  function ParseList(line: string, key: string): Option<ListLine> {
    match ParseHead(line, key)
    case None => None
    case Some(h) =>
      if h.value == "" || !IsQuote(h.value[0]) then None
      else
        var inner := h.value[1..];
        var body := TakeUnquoted(inner);
        if |body| == |inner| then None
        else Some(ListLine(h.gap1, h.gap2, h.value[0], body, inner[|body|], inner[|body| + 1..]))
  }

  lemma RenderedList(line: string, key: string)
    requires ParseList(line, key).Some?
    ensures RenderList(key, ParseList(line, key).value) == line && ListOk(ParseList(line, key).value)
  {
    RenderedHead(line, key);
    var v := ParseHead(line, key).value.value;
    var l := ParseList(line, key).value;
    var inner := v[1..];
    assert v == [l.open] + inner;
    assert inner[|l.body|..] == [l.close] + l.rest;
    assert inner == l.body + inner[|l.body|..];
  }

  lemma ParsedList(key: string, l: ListLine)
    requires ListOk(l)
    ensures ParseList(RenderList(key, l), key) == Some(l)
  {
    var tail := [l.close] + l.rest;
    var inner := l.body + tail;
    var v := [l.open] + inner;
    ParsedHead(key, Head(l.gap1, l.gap2, v));
    Cut([l.open], inner);
    TakeUnquotedStops(l.body, tail);
    Cut(l.body + [l.close], l.rest);
    assert inner == l.body + [l.close] + l.rest;
    assert inner[|l.body|] == l.close;
  }

  // ------------------------------------------------------------ numeric settings

  /** `KEY = "digits"rest` with both quotes optional. */
  datatype NumberLine = NumberLine(gap1: string, gap2: string, digits: string, rest: string)

  function DropQuote(s: string): string { if s != "" && IsQuote(s[0]) then s[1..] else s }

  /** The match of `^KEY\s*=\s*["']?(\d+)["']?`; `rest` is what the match leaves. */
  function ParseNumber(line: string, key: string): Option<NumberLine> {
    match ParseHead(line, key)
    case None => None
    case Some(h) =>
      var inner := DropQuote(h.value);
      var digits := TakeDigits(inner);
      if digits == "" then None
      else Some(NumberLine(h.gap1, h.gap2, digits, DropQuote(inner[|digits|..])))
  }

  // ---------------------------------------------------------------- whole files

  /** The first line `p` accepts: where `match` without the `g` flag looks. */
  function First(lines: seq<string>, p: string -> bool): (r: Option<nat>)
    ensures r.Some? ==> r.value < |lines| && p(lines[r.value])
  {
    if lines == [] then None
    else if p(lines[0]) then Some(0)
    else
      match First(lines[1..], p)
      case None => None
      case Some(i) => Some(i + 1)
  }

  lemma {:induction false} RejectedBefore(lines: seq<string>, p: string -> bool, j: nat)
    requires j < |lines| && (First(lines, p).None? || j < First(lines, p).value)
    ensures !p(lines[j])
  {
    if j > 0 { RejectedBefore(lines[1..], p, j - 1); }
  }

  /** The first accepted line is determined by where acceptance starts. */
  lemma {:induction false} FirstIs(lines: seq<string>, p: string -> bool, i: nat)
    requires i < |lines| && p(lines[i]) && forall j :: 0 <= j < i ==> !p(lines[j])
    ensures First(lines, p) == Some(i)
  {
    if i > 0 {
      assert !p(lines[0]);
      forall j | 0 <= j < i - 1 ensures !p(lines[1..][j]) { assert !p(lines[j + 1]); }
      FirstIs(lines[1..], p, i - 1);
    }
  }

  lemma {:induction false} NoneAccepted(lines: seq<string>, p: string -> bool)
    requires forall j :: 0 <= j < |lines| ==> !p(lines[j])
    ensures First(lines, p).None?
  {
    if lines != [] {
      assert !p(lines[0]);
      forall j | 0 <= j < |lines[1..]| ensures !p(lines[1..][j]) { assert !p(lines[j + 1]); }
      NoneAccepted(lines[1..], p);
    }
  }

  /** Rewriting one line without changing whether it is accepted. */
  lemma {:induction false} FirstAfterUpdate(lines: seq<string>, i: nat, line: string, p: string -> bool)
    requires i < |lines| && p(line) == p(lines[i])
    ensures First(lines[i := line], p) == First(lines, p)
  {
    if i == 0 {
      assert lines[0 := line][1..] == lines[1..];
    } else {
      assert lines[i := line][1..] == lines[1..][i - 1 := line];
      FirstAfterUpdate(lines[1..], i - 1, line, p);
    }
  }
}
