/** Python's `int(text)` as applied to the duration query parameters: an
    optional sign followed by decimal digits. Anything else raises, which the
    caller models as `None`. */
module PyInt {
  import opened Wrappers
  import opened Digits

  /** `s` is an integer literal `int` reads as `n`: ASCII digits, or a
      `+` or `-` followed by at least one digit. */
  predicate IntLiteral(s: string, n: int) {
    || (|s| >= 1 && AllDigits(s) && n == DigitsValue(s))
    || (|s| >= 2 && (s[0] == '+' || s[0] == '-') && AllDigits(s[1..])
        && n == (if s[0] == '-' then -(DigitsValue(s[1..]) as int) else DigitsValue(s[1..])))
  }

  function ParseInt(s: string): (r: Option<int>)
    ensures r.Some? ==> |s| >= 1
    ensures r.Some? && s[0] != '-' ==> r.value >= 0
    ensures r.Some? && s[0] == '-' ==> r.value <= 0
    ensures AllDigits(s) && |s| >= 1 ==> r == Some(DigitsValue(s))
    ensures r.Some? ==> IntLiteral(s, r.value)
    ensures forall n :: IntLiteral(s, n) ==> r == Some(n)
  {
    if |s| == 0 then None
    else if s[0] == '-' || s[0] == '+' then
      if |s| >= 2 && AllDigits(s[1..]) then
        var magnitude: int := DigitsValue(s[1..]);
        Some(if s[0] == '-' then -magnitude else magnitude)
      else None
    else if AllDigits(s) then Some(DigitsValue(s))
    else None
  }

  /** The parser reads exactly the integer literals, each as its value:
      every other string, `"abc"` included, makes `int` raise. */
  lemma ParseIntExact(s: string, n: int)
    ensures ParseInt(s) == Some(n) <==> IntLiteral(s, n)
  {
    if |s| >= 1 && AllDigits(s) {
      assert IsDigit(s[0]);
    }
  }

  /** Python's `str(n)` for an integer. */
  function FormatInt(n: int): string {
    if n < 0 then "-" + FormatNat(-n) else FormatNat(n)
  }

  /** Every integer, rendered in decimal, is read back as itself: this is
      the round trip `int(str(n)) == n`. */
  lemma ParseFormatInt(n: int)
    ensures ParseInt(FormatInt(n)) == Some(n)
  {
    if n < 0 {
      var digits := FormatNat(-n);
      assert FormatInt(n)[1..] == digits;
    }
  }

  /** `int("-3")` succeeds: negative durations are accepted, not rejected. */
  lemma NegativeIsAccepted()
    ensures ParseInt("-3") == Some(-3)
  {
    assert "-3"[1..] == "3";
    assert "3"[..0] == "";
  }

  /** A sign alone, or a non-digit anywhere after it, makes `int` raise. */
  lemma SignAloneIsRejected()
    ensures ParseInt("-") == None && ParseInt("+") == None
    ensures ParseInt("") == None
    ensures ParseInt("1h") == None
  {
    assert !IsDigit("1h"[1]);
  }
}
