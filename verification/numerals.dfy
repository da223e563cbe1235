/** Decimal numerals as Python's `str(n)` writes them and `int(s)` reads them:
    the move numbers a PGN fragment prints and the two counters a FEN record
    carries. */
module Numerals {
  import opened Wrappers

  predicate IsDigit(c: char)
  {
    '0' <= c <= '9'
  }

  predicate AllDigits(s: string)
  {
    forall i :: 0 <= i < |s| ==> IsDigit(s[i])
  }

  function DigitValue(c: char): (d: nat)
    requires IsDigit(c)
    ensures d < 10
  {
    c as int - '0' as int
  }

  function DigitChar(d: nat): (c: char)
    requires d < 10
    ensures IsDigit(c) && DigitValue(c) == d
  {
    ('0' as int + d) as char
  }

  /** The value of a string of decimal digits, most significant digit first. */
  function Value(s: string): nat
    requires AllDigits(s)
    decreases |s|
  {
    if s == [] then 0 else Value(s[..|s| - 1]) * 10 + DigitValue(s[|s| - 1])
  }

  /** A digit string without superfluous leading zeros, as `str` writes it. */
  predicate Canonical(s: string)
  {
    |s| > 0 && AllDigits(s) && (|s| > 1 ==> s[0] != '0')
  }

  /** `str(n)` for a non-negative integer. */
  function NatToString(n: nat): (s: string)
    ensures Canonical(s)
    ensures |s| == 1 <==> n < 10
    decreases n
  {
    if n < 10 then [DigitChar(n)] else NatToString(n / 10) + [DigitChar(n % 10)]
  }

  /** Reading back what `str` wrote gives the number. */
  lemma {:induction false} NatToStringValue(n: nat)
    ensures Value(NatToString(n)) == n
    decreases n
  {
    if n >= 10 {
      var s := NatToString(n);
      NatToStringValue(n / 10);
      assert s[..|s| - 1] == NatToString(n / 10);
    }
  }

  /** A canonical digit string with a non-zero leading digit has a positive value. */
  lemma {:induction false} LeadingDigitPositive(s: string)
    requires Canonical(s) && s[0] != '0'
    ensures Value(s) > 0
    decreases |s|
  {
    if |s| > 1 {
      var t := s[..|s| - 1];
      assert t[0] == s[0];
      LeadingDigitPositive(t);
    }
  }

  /** Writing the value of a canonical digit string gives the string back. */
  lemma {:induction false} ValueToString(s: string)
    requires Canonical(s)
    ensures NatToString(Value(s)) == s
    decreases |s|
  {
    if |s| > 1 {
      var t := s[..|s| - 1];
      assert t[0] == s[0];
      LeadingDigitPositive(t);
      ValueToString(t);
      assert s == t + [s[|s| - 1]];
    }
  }

  /** `str(i)` for any integer: a minus sign before the magnitude when negative. */
  function IntToString(i: int): (s: string)
    ensures |s| > 0 && IsDigit(s[|s| - 1])
    ensures i < 0 <==> s[0] == '-'
    ensures i >= 0 ==> Canonical(s)
    ensures i < 0 ==> Canonical(s[1..])
  {
    if i < 0 then "-" + NatToString(-i) else NatToString(i)
  }

  /** The ASCII characters Python's `str.isspace` accepts. */
  predicate IsSpace(c: char)
  {
    c == ' ' || '\t' <= c <= '\r' || '\U{001C}' <= c <= '\U{001F}'
  }

  /** `str.strip()` restricted to ASCII white space. */
  function Strip(s: string): (t: string)
    ensures |t| <= |s|
    ensures |t| > 0 ==> !IsSpace(t[0]) && !IsSpace(t[|t| - 1])
    decreases |s|
  {
    if |s| > 0 && IsSpace(s[0]) then Strip(s[1..])
    else if |s| > 0 && IsSpace(s[|s| - 1]) then Strip(s[..|s| - 1])
    else s
  }

  /** `t` is `s[i..j]` and everything of `s` outside that slice is white space. */
  predicate TrimmedTo(s: string, i: int, j: int, t: string)
  {
    0 <= i <= j <= |s| && t == s[i..j] &&
    (forall k :: 0 <= k < i ==> IsSpace(s[k])) && (forall k :: j <= k < |s| ==> IsSpace(s[k]))
  }

  lemma TrimmedAfterSpace(s: string, i: int, j: int, t: string)
    requires |s| > 0 && IsSpace(s[0]) && TrimmedTo(s[1..], i, j, t)
    ensures TrimmedTo(s, i + 1, j + 1, t)
  {
    assert s[1..][i..j] == s[i + 1..j + 1];
    assert forall k :: 0 < k < |s| ==> s[k] == s[1..][k - 1];
  }

  lemma TrimmedBeforeSpace(s: string, i: int, j: int, t: string)
    requires |s| > 0 && IsSpace(s[|s| - 1]) && TrimmedTo(s[..|s| - 1], i, j, t)
    ensures TrimmedTo(s, i, j, t)
  {
    assert s[..|s| - 1][i..j] == s[i..j];
    assert forall k :: 0 <= k < |s| - 1 ==> s[k] == s[..|s| - 1][k];
  }

  /** `Strip` removes white space at the two ends and nothing else: the result
      is a slice of `s` with only white space before and after it. */
  lemma {:induction false} StripOuter(s: string)
    ensures exists i, j :: TrimmedTo(s, i, j, Strip(s))
    decreases |s|
  {
    if |s| > 0 && IsSpace(s[0]) {
      StripOuter(s[1..]);
      var i, j :| TrimmedTo(s[1..], i, j, Strip(s[1..]));
      TrimmedAfterSpace(s, i, j, Strip(s[1..]));
      assert TrimmedTo(s, i + 1, j + 1, Strip(s));
    } else if |s| > 0 && IsSpace(s[|s| - 1]) {
      StripOuter(s[..|s| - 1]);
      var i, j :| TrimmedTo(s[..|s| - 1], i, j, Strip(s[..|s| - 1]));
      TrimmedBeforeSpace(s, i, j, Strip(s[..|s| - 1]));
      assert TrimmedTo(s, i, j, Strip(s));
    } else {
      assert TrimmedTo(s, 0, |s|, Strip(s));
    }
  }

  /** A string already free of outer white space is left as it is. */
  lemma StripNoSpace(s: string)
    requires |s| > 0 && !IsSpace(s[0]) && !IsSpace(s[|s| - 1])
    ensures Strip(s) == s
  {}

  /** The shape `int(s)` accepts once the white space is stripped: an optional
      sign followed by at least one decimal digit. */
  predicate IsNumeral(t: string)
  {
    (|t| > 0 && AllDigits(t)) || (|t| > 1 && (t[0] == '-' || t[0] == '+') && AllDigits(t[1..]))
  }

  /** The value of a numeral already stripped of white space. */
  function ParseNumeral(t: string): (r: Result<int>)
    ensures r.Err? <==> !IsNumeral(t)
    ensures r.Err? ==> r.error == ValueError
    ensures r.Ok? && AllDigits(t) ==> r.value == Value(t)
    ensures r.Ok? && t[0] == '-' ==> r.value == 0 - Value(t[1..])
    ensures r.Ok? && t[0] == '+' ==> r.value == Value(t[1..])
  {
    if |t| > 0 && AllDigits(t) then Ok(Value(t))
    else if |t| > 1 && t[0] == '-' && AllDigits(t[1..]) then Ok(0 - Value(t[1..]))
    else if |t| > 1 && t[0] == '+' && AllDigits(t[1..]) then Ok(Value(t[1..]))
    else Err(ValueError)
  }

  /** `int(s)`: a `ValueError` unless the stripped text is a signed decimal numeral. */
  function ParseInt(s: string): (r: Result<int>)
    ensures r.Err? <==> !IsNumeral(Strip(s))
    ensures r.Ok? ==> r == ParseNumeral(Strip(s))
  {
    ParseNumeral(Strip(s))
  }

  /** A minus sign before a digit string reads as the negated value. */
  lemma NegativeNumeral(m: string)
    requires |m| > 0 && AllDigits(m)
    ensures ParseNumeral("-" + m) == Ok(0 - Value(m))
  {
    var s := "-" + m;
    assert s[1..] == m;
    assert !IsDigit(s[0]);
  }

  /** What `str` writes for a number reads back as that number. */
  lemma ParseNumeralToString(i: int)
    ensures ParseNumeral(IntToString(i)) == Ok(i)
  {
    var s := IntToString(i);
    if i < 0 {
      var m := NatToString(-i);
      assert s == "-" + m;
      NegativeNumeral(m);
      NatToStringValue(-i);
    } else {
      NatToStringValue(i);
      assert ParseNumeral(s) == Ok(Value(s));
    }
  }

  /** `int(str(i)) == i`. */
  lemma ParseIntToString(i: int)
    ensures ParseInt(IntToString(i)) == Ok(i)
  {
    var s := IntToString(i);
    StripNoSpace(s);
    ParseNumeralToString(i);
    assert ParseInt(s) == ParseNumeral(s);
  }

  /** `str(int(s)) == s` for the text `str` itself writes: canonical digits,
      optionally after a minus sign, and never `-0`. */
  lemma ToStringParseInt(s: string)
    requires Canonical(s) || (|s| > 1 && s[0] == '-' && Canonical(s[1..]) && s[1] != '0')
    ensures ParseInt(s).Ok? && IntToString(ParseInt(s).value) == s
  {
    StripNoSpace(s);
    if s[0] == '-' {
      ValueToString(s[1..]);
      LeadingDigitPositive(s[1..]);
      assert s == "-" + s[1..];
    } else {
      ValueToString(s);
    }
  }

  /** The text written for a number contains no white space, no '.' and no '#'. */
  lemma IntToStringChars(i: int)
    ensures forall k :: 0 <= k < |IntToString(i)| ==>
      IntToString(i)[k] == '-' || IsDigit(IntToString(i)[k])
  {
    var s := IntToString(i);
    if i < 0 {
      forall k | 1 <= k < |s| ensures IsDigit(s[k]) {
        assert s[k] == s[1..][k - 1];
      }
    }
  }
}
