/** Decimal text of integers as Rust's `{}` formats an `i16`: an optional
    '-' followed by the digits, most significant first, without leading
    zeros. A parser is given alongside so that log entries can be shown to
    carry the number they were formatted from. */
module Decimal {
  import opened Wrappers

  predicate IsDigit(c: char) { '0' <= c <= '9' }

  predicate AllDigits(s: string)
  {
    forall i :: 0 <= i < |s| ==> IsDigit(s[i])
  }

  /** The shape of every text `IntText` produces. */
  predicate IsIntText(s: string)
  {
    || (|s| >= 1 && AllDigits(s))
    || (|s| >= 2 && s[0] == '-' && AllDigits(s[1..]))
  }

  function DigitValue(c: char): (d: nat)
    requires IsDigit(c)
    ensures d < 10
  {
    c as int - '0' as int
  }

  function DigitChar(d: int): (c: char)
    requires 0 <= d < 10
    ensures IsDigit(c) && DigitValue(c) == d
  {
    ('0' as int + d) as char
  }

  /** The digits of `n`; only zero itself starts with '0', and it is the
      single digit "0". */
  function NatText(n: nat): (s: string)
    ensures |s| >= 1 && AllDigits(s)
    ensures s[0] == '0' <==> n == 0
    ensures |s| == 1 <==> n < 10
    decreases n
  {
    if n < 10 then [DigitChar(n)] else NatText(n / 10) + [DigitChar(n % 10)]
  }

  /** `format!("{}", n)` for a signed integer. */
  function IntText(n: int): (s: string)
    ensures IsIntText(s)
    ensures s[0] == '-' <==> n < 0
    ensures n < 0 ==> s[1] != '0'
    ensures s[0] == '0' ==> s == "0"
  {
    if n < 0 then "-" + NatText(-n) else NatText(n)
  }

  function ParseNat(s: string): nat
    requires AllDigits(s)
  {
    if |s| == 0 then 0 else ParseNat(s[..|s| - 1]) * 10 + DigitValue(s[|s| - 1])
  }

  /** Reads back a text of the shape `IntText` produces; anything else is
      rejected. */
  function ParseInt(s: string): (r: Option<int>)
    ensures r.Some? <==> IsIntText(s)
  {
    if |s| >= 1 && AllDigits(s) then Some(ParseNat(s) as int)
    else if |s| >= 2 && s[0] == '-' && AllDigits(s[1..]) then Some(-(ParseNat(s[1..]) as int))
    else None
  }

  lemma {:induction false} ParseNatText(n: nat)
    ensures ParseNat(NatText(n)) == n
    decreases n
  {
    if n >= 10 {
      var s := NatText(n);
      assert s[..|s| - 1] == NatText(n / 10);
      ParseNatText(n / 10);
    }
  }

  /** Formatting an integer and parsing the text gives the integer back. */
  lemma IntTextRoundTrip(n: int)
    ensures ParseInt(IntText(n)) == Some(n)
  {
    var s := IntText(n);
    if n < 0 {
      var digits := NatText(-n);
      assert s == "-" + digits;
      assert s[1..] == digits;
      assert !AllDigits(s) by { assert !IsDigit(s[0]); }
      assert ParseInt(s) == Some(-(ParseNat(digits) as int));
      ParseNatText(-n);
    } else {
      assert ParseInt(s) == Some(ParseNat(s) as int);
      ParseNatText(n);
    }
  }
  /** A digit text that does not start with '0' reads as a positive number. */
  lemma {:induction false} LeadingDigitPositive(t: string)
    requires |t| >= 1 && AllDigits(t) && t[0] != '0'
    ensures ParseNat(t) >= 1
    decreases |t|
  {
    if |t| > 1 {
      LeadingDigitPositive(t[..|t| - 1]);
    }
  }

  /** A digit text without a leading zero (other than "0" itself) is the
      text of the number it reads as. */
  lemma {:induction false} CanonicalNat(t: string)
    requires |t| >= 1 && AllDigits(t)
    requires t[0] == '0' ==> t == "0"
    ensures t == NatText(ParseNat(t))
    decreases |t|
  {
    var n := ParseNat(t);
    var c := t[|t| - 1];
    if |t| == 1 {
      assert ParseNat(t) == ParseNat(t[..0]) * 10 + DigitValue(c);
      assert ParseNat(t[..0]) == 0;
      assert DigitChar(DigitValue(c)) == c;
    } else {
      var front := t[..|t| - 1];
      LeadingDigitPositive(front);
      CanonicalNat(front);
      assert n / 10 == ParseNat(front) && n % 10 == DigitValue(c);
      assert DigitChar(DigitValue(c)) == c;
      assert t == front + [c];
    }
  }

  /** The formatted text is the only well-formed text without leading
      zeros that reads as `n`: the contracts above fix `IntText` exactly. */
  lemma CanonicalInt(t: string, n: int)
    requires IsIntText(t) && ParseInt(t) == Some(n)
    requires t[0] == '0' ==> t == "0"
    requires t[0] == '-' ==> t[1] != '0'
    ensures t == IntText(n)
  {
    if AllDigits(t) {
      CanonicalNat(t);
    } else {
      var digits := t[1..];
      assert t[0] == '-';
      CanonicalNat(digits);
      LeadingDigitPositive(digits);
      assert t == "-" + digits;
    }
  }
}
