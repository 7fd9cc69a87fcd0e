/**
 * The phone-number helpers: `stripNonDigits` and `keepLeadingPlusDigits`
 * normalise user input, `isValidBDPhone` accepts the two Bangladeshi mobile
 * formats.  An absent value is `None`; JavaScript treats it and the empty
 * string alike as falsy, and the helpers return such a value unchanged.
 */
module Phone {
  import opened Wrappers
  import opened Ascii

  /** The value is falsy: absent or the empty string. */
  predicate Falsy(v: Option<string>) {
    v.None? || v.value == []
  }

  /** `s.replace(/\D+/g, '')`: the decimal digits of `s`, in order. */
  function Digits(s: string): (r: string)
    ensures AllDigits(r) && |r| <= |s|
  {
    if s == [] then []
    else
      assert s == [s[0]] + s[1..];
      (if IsDigit(s[0]) then [s[0]] else []) + Digits(s[1..])
  }

  /** The digits kept are exactly the digits of the input. */
  lemma {:induction false} DigitsMembers(s: string)
    ensures forall c :: c in Digits(s) <==> c in s && IsDigit(c)
  {
    if s != [] {
      DigitsMembers(s[1..]);
      assert s == [s[0]] + s[1..];
    }
  }

  /** Removing the non-digits of a concatenation removes them from each part. */
  lemma {:induction false} DigitsAppend(a: string, b: string)
    ensures Digits(a + b) == Digits(a) + Digits(b)
  {
    if a == [] {
      assert a + b == b;
    } else {
      assert (a + b)[0] == a[0] && (a + b)[1..] == a[1..] + b;
      DigitsAppend(a[1..], b);
    }
  }

  /** A string of digits keeps all of them, and only such a string is kept whole. */
  lemma {:induction false} DigitsKeepsDigitString(s: string)
    ensures Digits(s) == s <==> AllDigits(s)
  {
    if s != [] {
      DigitsKeepsDigitString(s[1..]);
      if !IsDigit(s[0]) {
        assert |Digits(s)| <= |s[1..]| < |s|;
      }
    }
  }

  /** `stripNonDigits`: the digits of a truthy value; a falsy one as it is. */
  function StripNonDigits(v: Option<string>): Option<string> {
    if Falsy(v) then v else Some(Digits(v.value))
  }

  /** A stripped value is unchanged by a second strip. */
  lemma StripNonDigitsIdempotent(v: Option<string>)
    ensures StripNonDigits(StripNonDigits(v)) == StripNonDigits(v)
  {
    if !Falsy(v) {
      DigitsKeepsDigitString(Digits(v.value));
    }
  }

  /** A truthy value keeps exactly its digits. */
  lemma StripNonDigitsKeepsDigits(s: string)
    requires s != []
    ensures StripNonDigits(Some(s)) == Some(Digits(s))
    ensures forall c :: c in StripNonDigits(Some(s)).value <==> c in s && IsDigit(c)
  {
    DigitsMembers(s);
  }

  /** `keepLeadingPlusDigits`: `+` and the digits when the trimmed text starts with `+`, else the digits. */
  function KeepLeadingPlusDigits(raw: Option<string>): Option<string> {
    if Falsy(raw) then raw
    else
      var s := Trim(raw.value);
      var digits := Digits(s);
      if s != [] && s[0] == '+' then Some(['+'] + digits) else Some(digits)
  }

  /** White space holds no digit, so trimming keeps every digit. */
  lemma DigitsOfTrim(s: string)
    ensures Digits(Trim(s)) == Digits(s)
  {
    DigitsOfTrimStart(s);
    DigitsOfTrimEnd(TrimStart(s));
  }

  lemma DigitsOfTrimStart(s: string)
    ensures Digits(TrimStart(s)) == Digits(s)
  {
    var t := TrimStart(s);
    var i := |s| - |t|;
    assert s == s[..i] + t;
    DigitsAppend(s[..i], t);
    NoDigitsInSpace(s[..i]);
  }

  lemma DigitsOfTrimEnd(t: string)
    ensures Digits(TrimEnd(t)) == Digits(t)
  {
    var u := TrimEnd(t);
    assert t == u + t[|u|..];
    DigitsAppend(u, t[|u|..]);
    NoDigitsInSpace(t[|u|..]);
  }

  lemma {:induction false} NoDigitsInSpace(w: string)
    requires forall i :: 0 <= i < |w| ==> IsSpace(w[i])
    ensures Digits(w) == []
  {
    if w != [] {
      NoDigitsInSpace(w[1..]);
    }
  }

  /** The result is `+` and the input's digits, or its digits alone, the plus kept exactly when the trimmed input starts with it. */
  lemma KeepLeadingPlusDigitsShape(s: string)
    requires s != []
    ensures var r := KeepLeadingPlusDigits(Some(s)).value;
      var t := Trim(s);
      && (t != [] && t[0] == '+' ==> r == ['+'] + Digits(s))
      && (!(t != [] && t[0] == '+') ==> r == Digits(s))
  {
    DigitsOfTrim(s);
  }

  /** `+` and digits is left as it is. */
  lemma PlusDigitsFixed(d: string)
    requires AllDigits(d)
    ensures KeepLeadingPlusDigits(Some(['+'] + d)) == Some(['+'] + d)
  {
    var r := ['+'] + d;
    assert r[0] == '+' && !IsSpace(r[|r| - 1]);
    TrimNoSpace(r);
    DigitsAppend(['+'], d);
    DigitsKeepsDigitString(d);
    assert Digits(['+']) == [] by {
      assert ['+'][1..] == [];
    }
    assert Trim(r) == r;
    assert Digits(r) == d;
  }

  /** A non-empty digit string is left as it is. */
  lemma DigitsFixed(d: string)
    requires AllDigits(d) && d != []
    ensures KeepLeadingPlusDigits(Some(d)) == Some(d)
  {
    assert !IsSpace(d[0]) && !IsSpace(d[|d| - 1]);
    TrimNoSpace(d);
    DigitsKeepsDigitString(d);
  }

  /** A normalised number is normalised again to itself. */
  lemma KeepLeadingPlusDigitsIdempotent(raw: Option<string>)
    ensures KeepLeadingPlusDigits(KeepLeadingPlusDigits(raw)) == KeepLeadingPlusDigits(raw)
  {
    if !Falsy(raw) {
      var s := Trim(raw.value);
      var d := Digits(s);
      if s != [] && s[0] == '+' {
        PlusDigitsFixed(d);
      } else if d != [] {
        DigitsFixed(d);
      }
    }
  }

  /** `/^\+8801\d{9}$/`: `+8801` and nine digits. */
  predicate IsE164(v: string) {
    |v| == 14 && v[..5] == "+8801" && AllDigits(v[5..])
  }

  /** `/^01\d{9}$/`: `01` and nine digits. */
  predicate IsLocal(v: string) {
    |v| == 11 && v[..2] == "01" && AllDigits(v[2..])
  }

  /** `isValidBDPhone`: a falsy value passes, as the field is optional; otherwise one of the two formats. */
  predicate IsValidBDPhone(v: Option<string>) {
    Falsy(v) || IsE164(v.value) || IsLocal(v.value)
  }

  /** The international form is the country code `+88` before the local form. */
  lemma E164IsCountryCodeAndLocal(v: string)
    ensures IsE164(v) <==> |v| >= 3 && v[..3] == "+88" && IsLocal(v[3..])
  {
    if |v| == 14 {
      assert v[3..][..2] == v[3..5];
      assert v[3..][2..] == v[5..];
      assert v[..5] == v[..3] + v[3..5];
    }
  }

  /** A valid number is already in the form `keepLeadingPlusDigits` produces. */
  lemma ValidPhoneIsNormal(v: string)
    requires v != [] && IsValidBDPhone(Some(v))
    ensures KeepLeadingPlusDigits(Some(v)) == Some(v)
  {
    if IsE164(v) {
      var d := v[1..];
      assert v == ['+'] + d;
      assert AllDigits(d) by {
        assert d == v[1..5] + v[5..];
        assert v[1..5] == "8801";
      }
      PlusDigitsFixed(d);
    } else {
      assert AllDigits(v) by {
        assert v == v[..2] + v[2..];
      }
      DigitsFixed(v);
    }
  }

  /**
   * `stripNonDigits` drops the `+` of an international number, and the
   * thirteen digits left are in neither accepted format.
   */
  lemma StripNonDigitsBreaksE164(v: string)
    requires IsE164(v)
    ensures StripNonDigits(Some(v)) == Some(v[1..])
    ensures !IsValidBDPhone(StripNonDigits(Some(v)))
  {
    var d := v[1..];
    assert v == ['+'] + d;
    assert AllDigits(d) by {
      assert d == v[1..5] + v[5..];
      assert v[1..5] == "8801";
    }
    DigitsAppend(['+'], d);
    DigitsKeepsDigitString(d);
    assert Digits(['+']) == [] by {
      assert ['+'][1..] == [];
    }
    assert Digits(v) == d;
    assert d[..2] == "88";
  }

  /** The two formats on concrete numbers. */
  lemma IsValidBDPhoneExamples()
    ensures IsValidBDPhone(Some("+8801711000000")) && IsValidBDPhone(Some("01711000000"))
    ensures !IsValidBDPhone(Some("8801711000000")) && !IsValidBDPhone(Some("0171100000"))
    ensures IsValidBDPhone(None) && IsValidBDPhone(Some(""))
  {
  }

  /** Spaces and hyphens go; digits stay in order. */
  lemma DigitsExample()
    ensures Digits("01-7 1") == "0171"
  {
  }
}
