/** Decimal numerals: Python's str() of a non-negative int, and Python's int() of a string. */
module Text {
  import opened Results

  predicate IsDigit(c: char) {
    '0' <= c <= '9'
  }

  predicate AllDigits(s: string) {
    forall i :: 0 <= i < |s| ==> IsDigit(s[i])
  }

  function DigitValue(c: char): (n: nat)
    requires IsDigit(c)
    ensures n < 10
  {
    c as int - '0' as int
  }

  function DigitChar(n: nat): (c: char)
    requires n < 10
    ensures IsDigit(c) && DigitValue(c) == n
  {
    ('0' as int + n) as char
  }

  /** The value of a decimal numeral, most significant digit first. */
  function DigitsValue(s: string): nat
    requires AllDigits(s)
  {
    if |s| == 0 then 0 else DigitsValue(s[..|s| - 1]) * 10 + DigitValue(s[|s| - 1])
  }

  function Pow10(k: nat): (p: nat)
    ensures p >= 1
  {
    if k == 0 then 1 else 10 * Pow10(k - 1)
  }

  /** str(n) for a non-negative int: the shortest numeral whose value is n. */
  function NatToString(n: nat): (s: string)
    ensures |s| > 0 && AllDigits(s)
    ensures DigitsValue(s) == n
    ensures n < 10 <==> |s| == 1
    ensures |s| > 1 ==> s[0] != '0'
    ensures Unpadded(s, n)
  {
    if n < 10 then [DigitChar(n)]
    else
      var prefix := NatToString(n / 10);
      var s := prefix + [DigitChar(n % 10)];
      assert s[..|s| - 1] == prefix;
      s
  }

  /** s is a numeral for n without zero padding, as str() writes it. */
  predicate Unpadded(s: string, n: nat) {
    |s| > 0 && AllDigits(s) && DigitsValue(s) == n && (|s| > 1 ==> s[0] != '0')
  }

  /** Two unpadded numerals joined by '-' split back at their only '-'. */
  lemma DashBetweenNumerals(a: string, x: nat, b: string, y: nat)
    requires Unpadded(a, x) && Unpadded(b, y)
    ensures var s := a + "-" + b;
      && '-' in s
      && forall k :: 0 <= k < |s| && s[k] == '-' ==> Unpadded(s[..k], x) && Unpadded(s[k + 1..], y)
  {
    var s := a + "-" + b;
    assert s[|a|] == '-';
    assert s[..|a|] == a && s[|a| + 1..] == b;
    forall k | 0 <= k < |s| && k != |a|
      ensures IsDigit(s[k])
    {
      if k < |a| {
        assert s[k] == a[k];
      } else {
        assert s[k] == b[k - |a| - 1];
      }
    }
  }

  /** str(i) for any int: a minus sign before the magnitude when negative. */
  function IntToString(i: int): string {
    if i < 0 then "-" + NatToString(-i) else NatToString(i)
  }

  /** A numeral of at most k digits is what str() gives for every n below 10^k. */
  lemma {:induction false} NatToStringShort(n: nat, k: nat)
    requires k >= 1 && n < Pow10(k)
    ensures |NatToString(n)| <= k
  {
    if n >= 10 {
      assert n / 10 < Pow10(k - 1);
      NatToStringShort(n / 10, k - 1);
    }
  }

  /** A leading zero does not change the value of a numeral. */
  lemma {:induction false} LeadingZero(s: string)
    requires AllDigits(s)
    ensures AllDigits("0" + s) && DigitsValue("0" + s) == DigitsValue(s)
  {
    if |s| > 0 {
      var z := "0" + s;
      assert z[..|z| - 1] == "0" + s[..|s| - 1];
      LeadingZero(s[..|s| - 1]);
    }
  }

  /** The ASCII whitespace int() strips around a numeral: tab, LF, VT, FF, CR and space. */
  predicate IsSpace(c: char) {
    c == ' ' || (9 <= c as int <= 13)
  }

  /** s without its leading white space. */
  function TrimLeft(s: string): (r: string)
    ensures |r| <= |s| && r == s[|s| - |r|..]
    ensures |r| > 0 ==> !IsSpace(r[0])
    ensures forall i :: 0 <= i < |s| - |r| ==> IsSpace(s[i])
  {
    if |s| > 0 && IsSpace(s[0]) then TrimLeft(s[1..]) else s
  }

  /** s without its trailing white space. */
  function TrimRight(s: string): (r: string)
    ensures |r| <= |s| && r == s[..|r|]
    ensures |r| > 0 ==> !IsSpace(r[|r| - 1])
    ensures forall i :: |r| <= i < |s| ==> IsSpace(s[i])
  {
    if |s| > 0 && IsSpace(s[|s| - 1]) then TrimRight(s[..|s| - 1]) else s
  }

  /** Digits, where an underscore may stand only between two digits (int()'s base-10 grammar). */
  predicate IsDigitGroups(s: string) {
    && |s| > 0
    && IsDigit(s[0])
    && (forall i :: 0 <= i < |s| ==> IsDigit(s[i]) || s[i] == '_')
    && (forall i :: 0 <= i < |s| && s[i] == '_' ==> i + 1 < |s| && IsDigit(s[i + 1]))
  }

  /** The digits of s, in order, without the underscores. */
  function DropUnderscores(s: string): (r: string)
    requires forall i :: 0 <= i < |s| ==> IsDigit(s[i]) || s[i] == '_'
    ensures AllDigits(r) && |r| <= |s|
    ensures AllDigits(s) ==> r == s
  {
    if |s| == 0 then []
    else (if s[0] == '_' then [] else [s[0]]) + DropUnderscores(s[1..])
  }

  /** int(t) for a string t: Some(value), or None where Python raises ValueError. */
  function ParseInt(t: string): (r: Option<int>)
    ensures AllNonDigits(t) ==> r.None?
  {
    ParseSigned(TrimRight(TrimLeft(t)))
  }

  /** An optional sign followed by digit groups, with no white space around it. */
  function ParseSigned(u: string): Option<int> {
    if |u| > 0 && (u[0] == '+' || u[0] == '-') then
      match ParseDigitGroups(u[1..])
      case None => None
      case Some(magnitude) => Some(if u[0] == '-' then -magnitude else magnitude)
    else ParseDigitGroups(u)
  }

  function ParseDigitGroups(s: string): Option<int> {
    if IsDigitGroups(s) then Some(DigitsValue(DropUnderscores(s)) as int) else None
  }

  predicate AllNonDigits(t: string) {
    forall i :: 0 <= i < |t| ==> !IsDigit(t[i])
  }

  /** The minus sign of a negative numeral. */
  function Sign(negative: bool): string {
    if negative then "-" else ""
  }

  /** The value of a numeral with a minus sign in front when `negative`. */
  function SignedValue(negative: bool, digits: string): int
    requires AllDigits(digits)
  {
    if negative then -(DigitsValue(digits) as int) else DigitsValue(digits)
  }

  /** A numeral, with a minus sign when `negative`, reads back as its value. */
  lemma ParseSignedDigits(negative: bool, digits: string)
    requires |digits| > 0 && AllDigits(digits)
    ensures ParseInt(Sign(negative) + digits) == Some(SignedValue(negative, digits))
  {
    var t := Sign(negative) + digits;
    assert t[|t| - 1] == digits[|digits| - 1];
    NotTrimmed(t);
    assert ParseInt(t) == ParseSigned(t);
    SignedDigits(negative, digits);
  }

  /** A plain numeral reads back as its value. */
  lemma ParseDigits(digits: string)
    requires |digits| > 0 && AllDigits(digits)
    ensures ParseInt(digits) == Some(DigitsValue(digits) as int)
  {
    ParseSignedDigits(false, digits);
    assert "" + digits == digits;
  }

  lemma SignedDigits(negative: bool, digits: string)
    requires |digits| > 0 && AllDigits(digits)
    ensures ParseSigned(Sign(negative) + digits) == Some(SignedValue(negative, digits))
  {
    if negative {
      assert Sign(negative) + digits == "-" + digits;
      NegatedDigits(digits);
    } else {
      assert Sign(negative) + digits == digits;
      UnsignedDigits(digits);
    }
  }

  lemma NegatedDigits(digits: string)
    requires |digits| > 0 && AllDigits(digits)
    ensures ParseSigned("-" + digits) == Some(-(DigitsValue(digits) as int))
  {
    DigitsAreGroups(digits);
    var t := "-" + digits;
    assert t[1..] == digits;
    MinusSign(t, DigitsValue(digits));
  }

  /** A minus sign negates the digit groups after it. */
  lemma MinusSign(u: string, magnitude: int)
    requires |u| > 0 && u[0] == '-' && ParseDigitGroups(u[1..]) == Some(magnitude)
    ensures ParseSigned(u) == Some(-magnitude)
  {
  }

  lemma UnsignedDigits(digits: string)
    requires |digits| > 0 && AllDigits(digits)
    ensures ParseSigned(digits) == Some(DigitsValue(digits) as int)
  {
    assert IsDigit(digits[0]);
    DigitsAreGroups(digits);
  }

  lemma DigitsAreGroups(digits: string)
    requires |digits| > 0 && AllDigits(digits)
    ensures ParseDigitGroups(digits) == Some(DigitsValue(digits) as int)
  {
  }

  lemma NotTrimmed(t: string)
    requires |t| > 0 && !IsSpace(t[0]) && !IsSpace(t[|t| - 1])
    ensures TrimRight(TrimLeft(t)) == t
  {
  }

  /** int(str(i)) == i. */
  lemma ParseIntToString(i: int)
    ensures ParseInt(IntToString(i)) == Some(i)
  {
    if i < 0 {
      ParseSignedDigits(true, NatToString(-i));
    } else {
      ParseSignedDigits(false, NatToString(i));
      assert "" + NatToString(i) == NatToString(i);
    }
  }

  /**
   * int() rejects a numeral preceded by a character that is neither white space, a sign nor a
   * digit.
   */
  lemma StrayPrefix(c: char, digits: string)
    requires !IsSpace(c) && !IsDigit(c) && c != '+' && c != '-'
    requires |digits| > 0 && AllDigits(digits)
    ensures ParseInt([c] + digits).None?
  {
    var t := [c] + digits;
    assert t[|t| - 1] == digits[|digits| - 1];
    NotTrimmed(t);
  }

  /** int("\x1c" + digits) raises: the file separator is not white space to int(). */
  lemma FileSeparatorRejected(digits: string)
    requires |digits| > 0 && AllDigits(digits)
    ensures ParseInt(['\U{1c}'] + digits).None?
  {
    StrayPrefix('\U{1c}', digits);
  }
}
