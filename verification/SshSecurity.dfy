/** Changing sshd_config and its port: edit, install, let sshd check the file, put the
    old one back if it objects, and move the firewall opening along with the port. */
module SshSecurity {
  import opened Text
  import opened NumberTexts
  import opened ConfLines
  import opened CsfPorts
  import opened SshdConfig

  // ------------------------------------------------------------- the firewall

  /** The old port is closed unless it is printed as the new one or is 22: a new port with a
      fraction differs from every port that can be read. */
  predicate Closes(current: int, v: string) { IntToString(current) != v && current != 22 }

  predicate Took(io: Io) { io.readable && io.copied }

  /** csf.conf after the two edits of a port change, each of which may fail to take. */
  function MovedPort(lines: seq<string>, current: int, v: NumberText, allow: Io, deny: Io): seq<string> {
    var widened := if Took(allow) then EditSelected(lines, Tcp, BothDirections, Allow(v)) else lines;
    if Closes(current, v) && Took(deny) then
      EditSelected(widened, Tcp, BothDirections, Deny(IntToString(current)))
    else widened
  }

  /** The stored rules after them. */
  function MovedRules(rules: seq<PortRule>, current: int, v: NumberText, allow: Io, deny: Io): seq<PortRule> {
    var more := if allow.readable && allow.saved then rules + [PortRule(v, Tcp, BothDirections)] else rules;
    if Closes(current, v) && deny.readable && deny.saved then WithoutPort(more, IntToString(current)) else more
  }

  lemma NumbersAfterAllow(ts: seq<string>, v: NumberText, m: int)
    ensures m in Numbers(EditTokens(ts, Allow(v))) <==> m == Whole(v) || m in Numbers(ts)
  {
    NumberToken(v);
    if v in ts {
      TokenReads(ts, v);
    } else {
      NumbersAppend(ts, v, Whole(v));
    }
  }

  /** A denied number is gone unless some other spelling of it is listed, and no other goes. */
  lemma NumbersAfterDeny(ts: seq<string>, closed: int, m: int)
    ensures m in Numbers(EditTokens(ts, Deny(IntToString(closed))))
            <==> m in Numbers(ts) && (m != closed || !OneSpelling(ts, closed))
  {
    var gone := IntToString(closed);
    DenyLeavesOtherSpellings(ts, closed);
    if m == closed {
      NumberComesFrom(ts, m);
    } else {
      IntegerReads(closed);
      OthersStay(ts, gone, m);
    }
  }

  lemma OthersStay(ts: seq<string>, gone: string, m: int)
    requires ParseInt(Trim(gone)) != Some(m)
    ensures m in Numbers(Removed(ts, gone)) <==> m in Numbers(ts)
  {
    var left := Removed(ts, gone);
    RemovedMeaning(ts, gone);
    NumberComesFrom(left, m);
    NumberComesFrom(ts, m);
    if k :| 0 <= k < |left| && ParseInt(Trim(left[k])) == Some(m) {
      assert left[k] in left;
      var i :| 0 <= i < |ts| && ts[i] == left[k];
    }
    if i :| 0 <= i < |ts| && ParseInt(Trim(ts[i])) == Some(m) {
      assert ts[i] in left;
    }
  }

  lemma SpellingPush(ts: seq<string>, t: string, n: int)
    ensures OneSpelling(ts + [t], n) <==> OneSpelling(ts, n) && (ParseInt(Trim(t)) == Some(n) ==> t == IntToString(n))
  {
    var all := ts + [t];
    assert all[|ts|] == t && forall i :: 0 <= i < |ts| ==> all[i] == ts[i];
  }

  lemma SpellingAfterAllow(ts: seq<string>, v: NumberText, closed: int)
    requires IntToString(closed) != v
    ensures OneSpelling(EditTokens(ts, Allow(v)), closed) <==> OneSpelling(ts, closed) && Whole(v) != closed
  {
    NumberToken(v);
    if v in ts {
      var i :| 0 <= i < |ts| && ts[i] == v;
    } else {
      SpellingPush(ts, v, closed);
    }
  }

  /** Both edits: the new port reads as its whole part, and the old one is gone unless it is that
      whole part or listed in another spelling. */
  lemma NumbersAfterBoth(ts: seq<string>, v: NumberText, closed: int, m: int)
    requires IntToString(closed) != v
    ensures m in Numbers(EditTokens(EditTokens(ts, Allow(v)), Deny(IntToString(closed))))
            <==> m == Whole(v) || (m in Numbers(ts) && (m != closed || !OneSpelling(ts, closed)))
  {
    NumbersAfterAllow(ts, v, m);
    NumbersAfterDeny(EditTokens(ts, Allow(v)), closed, m);
    SpellingAfterAllow(ts, v, closed);
  }

  lemma TokensAfterMove(lines: seq<string>, current: int, v: NumberText, allow: Io, deny: Io, key: string)
    requires IsKey(key)
    ensures ListTokens(MovedPort(lines, current, v, allow, deny), key)
            == var tcp := Selected(key, Tcp, BothDirections);
               var widened := EditedTokens(ListTokens(lines, key), Allow(v), Took(allow) && tcp);
               EditedTokens(widened, Deny(IntToString(current)), Closes(current, v) && Took(deny) && tcp)
  {
    var widened := if Took(allow) then EditSelected(lines, Tcp, BothDirections, Allow(v)) else lines;
    EditSelectedExact(lines, Tcp, BothDirections, Allow(v), key);
    EditSelectedExact(widened, Tcp, BothDirections, Deny(IntToString(current)), key);
  }

  /** The old port goes from a list by a port change. */
  predicate Goes(lines: seq<string>, key: string, current: int, v: NumberText, deny: Io)
    requires ListTokens(lines, key).Some?
  {
    Closes(current, v) && Took(deny) && OneSpelling(ListTokens(lines, key).value, current)
  }

  /** The TCP lists after a port change hold the whole part of the new port if the first edit
      took, not the old port if the second one did, unless it is that whole part or listed in
      another spelling, and otherwise what they held; the UDP lists stay. */
  lemma PortsAfterMove(lines: seq<string>, current: int, v: NumberText, allow: Io, deny: Io, key: string, m: int)
    requires IsListKey(key)
    ensures m in AllowedPorts(MovedPort(lines, current, v, allow, deny), key)
            <==> if (key == TCP_IN || key == TCP_OUT) && ListTokens(lines, key).Some? then
                   (Took(allow) && m == Whole(v))
                   || (m in AllowedPorts(lines, key) && !(m == current && Goes(lines, key, current, v, deny)))
                 else m in AllowedPorts(lines, key)
  {
    ListKeysAreKeys(key);
    TokensAfterMove(lines, current, v, allow, deny, key);
    AllowedPortsOfTokens(lines, key);
    AllowedPortsOfTokens(MovedPort(lines, current, v, allow, deny), key);
    if ListTokens(lines, key).Some? {
      var ts := ListTokens(lines, key).value;
      NumbersAfterAllow(ts, v, m);
      NumbersAfterDeny(ts, current, m);
      if Closes(current, v) { NumbersAfterBoth(ts, v, current, m); }
    }
  }

  // ---------------------------------------------------------- accepted numbers

  /** A number in print, infinities aside: one below zero carries its sign. */
  predicate FiniteNumber(v: string) { Printed(v) || (v != "" && v[0] == '-') }

  /** Between 1 and 65535: numbers below 1e-6 and from 1e21 on are printed with an exponent. */
  predicate InRange(v: string) { Printed(v) && 'e' !in v && Whole(v) >= 1 && (Whole(v) < 65535 || v == "65535") }

  /** For integers that is the range itself. */
  lemma InRangeIff(n: int)
    ensures FiniteNumber(IntToString(n)) && (InRange(IntToString(n)) <==> 1 <= n <= 65535)
  {
    if n < 0 {
      assert IntToString(n)[0] == '-' && !IsDigit('-');
    } else {
      DecimalPrinted(n);
      assert !IsDigit('e');
      DecimalPrinted(65535);
      HighestPort();
    }
  }

  lemma HighestPort()
    ensures ToDecimal(65535) == "65535"
  {
    assert ToDecimal(65) == "65";
    assert ToDecimal(6553) == "6553";
  }

  /** Fractions of the range are in it, past its ends they are not. */
  lemma InRangeHalf(n: nat)
    ensures InRange(ToDecimal(n) + ".5") <==> 1 <= n < 65535
  {
    var v := ToDecimal(n) + ".5";
    HalfText(n);
    assert v[|v| - 1] == '5' && v[|v| - 2] == '.';
    assert "65535"[3] == '3';
    assert 'e' !in v;
  }

  /** Numbers printed with an exponent are too small or too large, negative ones too small. */
  lemma OutOfRange(v: string)
    requires 'e' in v || v == "" || v[0] == '-'
    ensures !InRange(v)
  {}

  // -------------------------------------------------------------- the service

  /** Outcomes of the calls of one change, in order. A failing `cp` is not noticed;
      a backup that was never made can be neither put back nor removed. */
  datatype Calls = Calls(backedUp: bool, readable: bool, written: bool, installed: bool, tempRemoved: bool,
                         valid: bool, restored: bool, backupRemoved: bool)

  predicate Checked(c: Calls) { c.readable && c.written && c.tempRemoved }

  /** sshd_config after a change that would make it `wanted`. */
  function Installed(before: seq<string>, wanted: seq<string>, c: Calls): seq<string> {
    if !c.readable || !c.written || !c.installed then before
    else if c.tempRemoved && !c.valid && c.backedUp && c.restored then before
    else wanted
  }

  /** sshd_config has the new text exactly when it was written and installed, and not, after the
      objection of sshd, put back from a backup that was made; otherwise the old one. In
      particular it stays in place when the temporary file cannot be removed. */
  lemma InstalledExact(before: seq<string>, wanted: seq<string>, c: Calls)
    ensures c.readable && c.written && c.installed && (c.valid || !c.tempRemoved || !c.backedUp || !c.restored) ==>
              Installed(before, wanted, c) == wanted
    ensures !c.readable || !c.written || !c.installed || (c.tempRemoved && !c.valid && c.backedUp && c.restored) ==>
              Installed(before, wanted, c) == before
  {}

  /** The stored rules after a port change: one for the new port, if the first call saved it, and
      none of the old one, if the second did. */
  lemma MovedRulesExact(rules: seq<PortRule>, current: int, v: NumberText, allow: Io, deny: Io, r: PortRule)
    ensures var closed := IntToString(current) != v && current != 22 && deny.readable && deny.saved;
            multiset(MovedRules(rules, current, v, allow, deny))[r]
            == if closed && r.port == IntToString(current) then 0
               else multiset(rules)[r]
                    + if allow.readable && allow.saved && r == PortRule(v, Tcp, BothDirections) then 1 else 0
  {
    var more := if allow.readable && allow.saved then rules + [PortRule(v, Tcp, BothDirections)] else rules;
    WithoutPortExact(more, IntToString(current), r);
  }

  class SshSecurityService {
    var sshdConfig: seq<string>
    const csf: CsfService

    constructor (sshdConfig: seq<string>, csf: CsfService)
      ensures this.sshdConfig == sshdConfig && this.csf == csf
    {
      this.sshdConfig, this.csf := sshdConfig, csf;
    }

    /** Writes the text, installs it and has it checked; puts the backup back if sshd
        objects. False when a step threw or sshd objected. */
    method Install(config: seq<string>, c: Calls) returns (ok: bool)
      requires c.readable
      modifies this`sshdConfig
      ensures ok <==> Checked(c) && c.valid
      ensures sshdConfig == Installed(old(sshdConfig), config, c)
    {
      var backup := sshdConfig;
      if !c.written { return false; }
      if c.installed { sshdConfig := config; }
      if !c.tempRemoved { return false; }
      if !c.valid {
        if c.backedUp && c.restored { sshdConfig := backup; }
        return false;
      }
      ok := true;
    }

    /** A success whose `cp` worked reads back as the old settings overridden; after
        an objection by sshd the text is as before exactly when the new text never went in,
        the backup was made and put back, or there was no difference. */
    method UpdateSecuritySettings(p: Partial, c: Calls) returns (success: bool)
      requires GoodPartial(p)
      modifies this`sshdConfig
      ensures success <==> Checked(c) && c.valid && c.backedUp && c.backupRemoved
      ensures sshdConfig == Installed(old(sshdConfig), UpdateAll(old(sshdConfig), p), c)
      ensures success && c.installed ==> GetSettings(sshdConfig) == Overridden(GetSettings(old(sshdConfig)), p)
      ensures Checked(c) && !c.valid ==>
                (sshdConfig == old(sshdConfig) <==>
                 !c.installed || (c.backedUp && c.restored) || UpdateAll(old(sshdConfig), p) == old(sshdConfig))
    {
      if !c.readable { return false; }
      var config := sshdConfig;
      config := SetIf(config, ROOT_LOGIN, p.permitRootLogin);
      config := SetIf(config, PASSWORD, ShowFlag(p.passwordAuthentication));
      config := SetIf(config, PUBKEY, ShowFlag(p.pubkeyAuthentication));
      config := SetIf(config, TRIES, p.maxAuthTries);
      config := SetIf(config, GRACE, p.loginGraceTime);
      UpdateThenGet(sshdConfig, p);
      success := Install(config, c);
      success := success && c.backedUp && c.backupRemoved;
    }

    /** Opens the new port and closes the old one; failures are not looked at. */
    method MoveFirewall(current: int, v: NumberText, allow: Io, deny: Io)
      modifies csf
      ensures csf.config == MovedPort(old(csf.config), current, v, allow, deny)
      ensures csf.rules == MovedRules(old(csf.rules), current, v, allow, deny)
    {
      var allowed := csf.AllowPort(v, Tcp, BothDirections, allow);
      if IntToString(current) != v && current != 22 {
        var closed := csf.DenyPort(IntToString(current), Tcp, BothDirections, deny);
      }
    }

    /** `inUse` is whether `ss` lists a socket on the port. */
    method ChangePort(v: string, inUse: bool, c: Calls, allow: Io, deny: Io) returns (success: bool)
      requires FiniteNumber(v)
      modifies this`sshdConfig, csf
      ensures success <==> InRange(v) && !inUse && Checked(c) && c.valid && c.backedUp && c.backupRemoved
      ensures !InRange(v) || inUse ==> sshdConfig == old(sshdConfig)
      ensures InRange(v) && !inUse ==> sshdConfig == Installed(old(sshdConfig), ReplacePort(old(sshdConfig), v), c)
      ensures !(InRange(v) && !inUse && Checked(c) && c.valid) ==>
                csf.config == old(csf.config) && csf.rules == old(csf.rules)
      ensures InRange(v) && !inUse && Checked(c) && c.valid ==>
                csf.config == MovedPort(old(csf.config), PortIn(old(sshdConfig)), v, allow, deny)
                && csf.rules == MovedRules(old(csf.rules), PortIn(old(sshdConfig)), v, allow, deny)
    {
      if !InRange(v) || inUse || !c.readable { return false; }
      var currentPort := PortIn(sshdConfig);
      var config := ReplacePort(sshdConfig, v);
      success := Install(config, c);
      if success {
        MoveFirewall(currentPort, v, allow, deny);
        success := c.backedUp && c.backupRemoved;
      }
    }
  }

  /** A successful change whose installation and firewall edits worked: the port reads
      back as given exactly when it is printed in digits only and the rewritten line was the
      first active one (or nothing changed), every other keyword as before; both TCP lists
      hold the new port's whole part; the old port, unless it is 22, is in them exactly when it
      is that, too, or listed in another spelling. */
  lemma PortChanged(lines: seq<string>, conf: seq<string>, v: NumberText, allow: Io, deny: Io, key: string,
                    other: string)
    requires (key == TCP_IN || key == TCP_OUT) && Took(allow) && Took(deny)
    requires ListTokens(conf, key).Some? && IsWord(other) && !FoldEq(PORT, other)
    ensures IntToString(PortIn(ReplacePort(lines, v))) == v
            <==> AllDigits(v) && (PortLineIsFirst(lines) || PortIn(lines) == Whole(v))
    ensures Read(ReplacePort(lines, v), other) == Read(lines, other)
    ensures Whole(v) in AllowedPorts(MovedPort(conf, PortIn(lines), v, allow, deny), key)
    ensures PortIn(lines) != 22 ==>
              (PortIn(lines) in AllowedPorts(MovedPort(conf, PortIn(lines), v, allow, deny), key)
               <==> PortIn(lines) == Whole(v) || !OneSpelling(ListTokens(conf, key).value, PortIn(lines)))
  {
    var current := PortIn(lines);
    NewPortAsGivenIff(lines, v);
    PortKeepsOthers(lines, v, other);
    PortsAfterMove(conf, current, v, allow, deny, key, Whole(v));
    PortsAfterMove(conf, current, v, allow, deny, key, current);
    IntegerText(current, v);
    AllowedPortsOfTokens(conf, key);
    NumberComesFrom(ListTokens(conf, key).value, current);
  }
}
