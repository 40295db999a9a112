/** Numbers of a request as the services print them, `String(n)`, and what `parseInt` makes
    of the printed text: the request validation lets fractions through. */
module NumberTexts {
  import opened Text

  predicate NumberChar(c: char) { IsDigit(c) || c == '.' || c == 'e' || c == '+' || c == '-' }

  /** A positive number in print: a digit first, and a leading zero only in front of something
      that is no digit. */
  predicate Printed(v: string) {
    && v != "" && IsDigit(v[0]) && (forall i :: 0 <= i < |v| ==> NumberChar(v[i]))
    && (v[0] == '0' && |v| > 1 ==> !IsDigit(v[1]))
  }

  type NumberText = v: string | Printed(v) witness "0"

  /** What `parseInt` makes of it: its leading digits. */
  function Whole(v: string): nat { DigitsValue(TakeDigits(v)) }

  lemma {:induction false} TakeAllDigits(v: string)
    ensures TakeDigits(v) == v <==> AllDigits(v)
  {
    if v != "" && IsDigit(v[0]) {
      TakeAllDigits(v[1..]);
      assert v == [v[0]] + v[1..];
      assert TakeDigits(v) == [v[0]] + TakeDigits(v[1..]);
      assert TakeDigits(v)[1..] == TakeDigits(v[1..]);
    }
  }

  lemma {:induction false} TakeDigitsOf(v: string, tail: string)
    requires tail != "" ==> !IsDigit(tail[0])
    ensures TakeDigits(v + tail) == TakeDigits(v)
  {
    if v == "" {
      assert v + tail == tail;
    } else if IsDigit(v[0]) {
      assert (v + tail)[1..] == v[1..] + tail;
      TakeDigitsOf(v[1..], tail);
    }
  }

  /** A printed number reads as its whole part, whatever follows it but a digit. */
  lemma ParseNumberText(v: NumberText, rest: string)
    requires rest != "" ==> !IsDigit(rest[0])
    ensures ParseInt(v + rest) == Some(Whole(v))
  {
    assert (v + rest)[0] == v[0];
    ParseIntOfDigit(v + rest);
    TakeDigitsOf(v, rest);
  }

  lemma NumberTextTrimmed(v: NumberText)
    ensures Trimmed(v) && Trim(v) == v
  {
    assert NumberChar(v[0]) && NumberChar(v[|v| - 1]);
    TrimOfTrimmed(v);
  }

  // ------------------------------------------------------------- which numbers read back

  lemma DecimalStep(n: nat, c: char)
    requires n > 0 && IsDigit(c)
    ensures ToDecimal(10 * n + (c as int - '0' as int)) == ToDecimal(n) + [c]
  {
    var m := 10 * n + (c as int - '0' as int);
    assert m / 10 == n && m % 10 == c as int - '0' as int;
  }

  lemma {:induction false} CanonicalPositive(v: string)
    requires v != "" && AllDigits(v) && v[0] != '0'
    ensures DigitsValue(v) > 0
  {
    assert IsDigit(v[0]);
    if |v| > 1 {
      assert v[..|v| - 1][0] == v[0];
      CanonicalPositive(v[..|v| - 1]);
    } else {
      assert v[..0] == "";
    }
  }

  /** Digits without a leading zero are the printed form of their value. */
  lemma {:induction false} CanonicalDigits(v: string)
    requires v != "" && AllDigits(v) && (v[0] == '0' ==> |v| == 1)
    ensures ToDecimal(DigitsValue(v)) == v
  {
    var init, last := v[..|v| - 1], v[|v| - 1];
    assert IsDigit(last) && v == init + [last];
    if |v| > 1 {
      assert init[0] == v[0];
      CanonicalDigits(init);
      CanonicalPositive(init);
      DecimalStep(DigitsValue(init), last);
    } else {
      assert DigitsValue(init) == 0;
    }
  }

  /** The number read is printed as the given one exactly when that is in digits only: a
      whole number below 1e21. */
  lemma WholeIff(v: NumberText)
    ensures ToDecimal(Whole(v)) == v <==> AllDigits(v)
  {
    TakeAllDigits(v);
    if AllDigits(v) { CanonicalDigits(v); }
  }

  /** Printed integers read back. */
  lemma IntegerReads(n: int)
    ensures ParseInt(IntToString(n)) == Some(n) && Trim(IntToString(n)) == IntToString(n)
  {
    var s := IntToString(n);
    if n >= 0 {
      DecimalPrinted(n);
      NumberTextTrimmed(s);
      ParseNumberText(s, "");
      assert s + "" == s;
    } else {
      var digits := ToDecimal(-n);
      assert s[1..] == digits && s[0] == '-' && IsDigit(s[|s| - 1]);
      DecimalPrinted(-n);
      TakeAllDigits(digits);
      TrimOfTrimmed(s);
    }
  }

  lemma {:induction false} DecimalLeads(n: nat)
    ensures ToDecimal(n)[0] == '0' <==> n == 0
  {
    if n >= 10 { DecimalLeads(n / 10); }
  }

  /** Natural numbers print so. */
  lemma DecimalPrinted(n: nat)
    ensures Printed(ToDecimal(n)) && Whole(ToDecimal(n)) == n
  {
    DecimalLeads(n);
    TakeAllDigits(ToDecimal(n));
    DecimalValue(n);
  }

  /** No integer is printed like a number that is not all digits. */
  lemma IntegerText(n: int, v: NumberText)
    ensures IntToString(n) == v <==> n == Whole(v) && AllDigits(v)
  {
    WholeIff(v);
    if n >= 0 {
      DecimalPrinted(n);
    } else {
      assert IntToString(n)[0] == '-' && !IsDigit('-');
    }
  }

  /** A natural number and a half does not read back. */
  lemma HalfText(n: nat)
    ensures var v := ToDecimal(n) + ".5"; Printed(v) && !AllDigits(v) && Whole(v) == n
  {
    var v := ToDecimal(n) + ".5";
    DecimalPrinted(n);
    TakeDigitsOf(ToDecimal(n), ".5");
    assert v[|ToDecimal(n)|] == '.';
    if ToDecimal(n)[0] == '0' {
      DecimalLeads(n);
      assert |ToDecimal(n)| == 1;
    }
  }

  lemma EightyTexts()
    ensures ToDecimal(80) == "80"
    ensures Printed("80.5") && !AllDigits("80.5") && Whole("80.5") == 80
  {
    assert ToDecimal(8) == "8";
    assert ToDecimal(80) == ToDecimal(8) + "0";
    HalfText(80);
    assert ToDecimal(80) + ".5" == "80.5";
  }
}
