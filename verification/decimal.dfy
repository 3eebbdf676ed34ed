/** Decimal text for non-negative integers, as Python's `str(n)`, `int(s)` and
    `str.isdigit` (restricted to the ASCII digits '0'..'9') treat it. */
module Decimal {

  predicate IsDigit(c: char) {
    '0' <= c <= '9'
  }

  predicate AllDigits(s: string) {
    forall i :: 0 <= i < |s| ==> IsDigit(s[i])
  }

  function DigitChar(d: nat): (c: char)
    requires d < 10
    ensures IsDigit(c) && c as int - '0' as int == d
  {
    ('0' as int + d) as char
  }

  /** The value of a digit string, as `int(s)` computes it. */
  function Value(s: string): (n: nat)
    requires AllDigits(s)
  {
    if s == [] then 0 else Value(s[..|s| - 1]) * 10 + (s[|s| - 1] as int - '0' as int)
  }

  /** `str(n)` for a non-negative integer: no sign, no leading zero. */
  function Str(n: nat): (s: string)
    ensures |s| > 0 && AllDigits(s)
    ensures |s| > 1 ==> s[0] != '0'
  {
    if n < 10 then [DigitChar(n)] else Str(n / 10) + [DigitChar(n % 10)]
  }

  /** `int(str(n)) == n`. */
  lemma {:induction false} ValueOfStr(n: nat)
    ensures Value(Str(n)) == n
  {
    if n >= 10 {
      ValueOfStr(n / 10);
      var s := Str(n);
      assert s[..|s| - 1] == Str(n / 10);
    }
  }

  /** `str(n)` for any integer: a minus sign in front of a negative value. */
  function IntStr(n: int): (s: string)
    ensures n >= 0 ==> s == Str(n)
    ensures n < 0 ==> s == "-" + Str(-n)
  {
    if n < 0 then "-" + Str(-n) else Str(n)
  }

  /** `f"{n}"` reads back: a non-negative value is a digit string worth `n`, and a
      negative one is a minus sign followed by a digit string worth `-n`. */
  lemma IntStrReadsBack(n: int)
    ensures n >= 0 ==> AllDigits(IntStr(n)) && Value(IntStr(n)) == n
    ensures n < 0 ==>
      |IntStr(n)| > 1 && IntStr(n)[0] == '-' && AllDigits(IntStr(n)[1..]) && Value(IntStr(n)[1..]) == -n
  {
    if n >= 0 {
      ValueOfStr(n);
    } else {
      ValueOfStr(-n);
      assert IntStr(n)[1..] == Str(-n);
    }
  }

  /** 10 to the power k; positive, so it can bound a digit count. */
  function Pow10(k: nat): (p: nat)
    ensures p >= 1
  {
    if k == 0 then 1 else 10 * Pow10(k - 1)
  }

  /** A number below 10^k takes at most k digits. */
  lemma {:induction false} StrLength(n: nat, k: nat)
    requires 0 < k && n < Pow10(k)
    ensures |Str(n)| <= k
  {
    if n >= 10 {
      assert k > 1;
      assert n / 10 < Pow10(k - 1);
      StrLength(n / 10, k - 1);
    }
  }

  /** Leading zeros do not change the value of a digit string. */
  lemma {:induction false} LeadingZeros(z: nat, s: string)
    requires AllDigits(s)
    ensures AllDigits(Zeros(z) + s)
    ensures Value(Zeros(z) + s) == Value(s)
    decreases z, |s|
  {
    var t := Zeros(z) + s;
    assert AllDigits(t) by {
      forall i | 0 <= i < |t| ensures IsDigit(t[i]) {
        if i >= z { assert t[i] == s[i - z]; }
      }
    }
    if s == [] {
      assert t == Zeros(z);
      if z > 0 {
        assert t[..|t| - 1] == Zeros(z - 1) + [];
        LeadingZeros(z - 1, []);
      }
    } else {
      var p := s[..|s| - 1];
      assert t[..|t| - 1] == Zeros(z) + p;
      LeadingZeros(z, p);
    }
  }

  function Zeros(z: nat): (s: string)
    ensures |s| == z && forall i :: 0 <= i < z ==> s[i] == '0'
  {
    seq(z, _ => '0')
  }

  /** A run of zeros is a digit string worth 0. */
  lemma ZerosValue(z: nat)
    ensures AllDigits(Zeros(z)) && Value(Zeros(z)) == 0
  {
    LeadingZeros(z, []);
    assert Zeros(z) + [] == Zeros(z);
  }

  /** `f"{n:06d}"`: at least `width` characters, padded with zeros after the sign. */
  function ZeroPad(s: string, width: nat): (r: string)
    ensures |r| == if |s| < width then width else |s|
  {
    if |s| < width then Zeros(width - |s|) + s else s
  }

  /** `format_score` (game.py:152-162): the six-digit zero-padded decimal form. */
  function FormatScore(score: int): (s: string)
  {
    if score < 0 then "-" + ZeroPad(Str(-score), 5) else ZeroPad(Str(score), 6)
  }

  /** Every score from 0 to 999999 is written as exactly six digits that read back as
      the score. */
  lemma FormatScoreSixDigits(score: int)
    requires 0 <= score < 1000000
    ensures |FormatScore(score)| == 6
    ensures AllDigits(FormatScore(score)) && Value(FormatScore(score)) == score
  {
    assert Pow10(6) == 1000000;
    StrLength(score, 6);
    var s := Str(score);
    ValueOfStr(score);
    if |s| < 6 {
      LeadingZeros(6 - |s|, s);
    }
  }
}
