/** Decimal text of integers, and 64-bit machine arithmetic. */
module Decimal {

  const MIN_INT64: int := -0x8000_0000_0000_0000
  const MAX_INT64: int := 0x7fff_ffff_ffff_ffff
  const TWO_64: int := 0x1_0000_0000_0000_0000

  /** The machine integer that a 64-bit operation with exact result `x` leaves behind. */
  function Wrap(x: int): (r: int)
    ensures MIN_INT64 <= r <= MAX_INT64
    ensures MIN_INT64 <= x <= MAX_INT64 ==> r == x
  {
    (x - MIN_INT64) % TWO_64 + MIN_INT64
  }

  predicate IsDigit(c: char) {
    '0' <= c <= '9'
  }

  predicate AllDigits(s: string) {
    forall i :: 0 <= i < |s| ==> IsDigit(s[i])
  }

  function DigitChar(d: int): (c: char)
    requires 0 <= d < 10
    ensures IsDigit(c)
  {
    (d + '0' as int) as char
  }

  /** The digits of `n`, most significant first. */
  function Digits(n: nat): (s: string)
    ensures |s| > 0 && AllDigits(s)
  {
    if n < 10 then [DigitChar(n)] else Digits(n / 10) + [DigitChar(n % 10)]
  }

  function ParseDigits(s: string): (n: nat)
    requires AllDigits(s)
  {
    if s == "" then 0
    else 10 * ParseDigits(s[..|s| - 1]) + (s[|s| - 1] as int - '0' as int)
  }

  lemma {:induction false} ParseOfDigits(n: nat)
    ensures ParseDigits(Digits(n)) == n
  {
    if n < 10 {
    } else {
      ParseOfDigits(n / 10);
      assert Digits(n)[..|Digits(n)| - 1] == Digits(n / 10);
    }
  }

  /** The library's integer-to-text conversion. */
  function Itoa(x: int): (s: string)
    ensures |s| > 0
    ensures forall i :: 0 <= i < |s| ==> IsDigit(s[i]) || s[i] == '-'
    ensures s[0] == '-' <==> x < 0
  {
    if x < 0 then "-" + Digits(-x) else Digits(x)
  }

  lemma DigitsInjective(m: nat, n: nat)
    requires Digits(m) == Digits(n)
    ensures m == n
  {
    ParseOfDigits(m);
    ParseOfDigits(n);
  }

  lemma MinusInjective(a: string, b: string)
    requires "-" + a == "-" + b
    ensures a == b
  {
    assert a == ("-" + a)[1..] && b == ("-" + b)[1..];
  }

  lemma ItoaInjective(x: int, y: int)
    requires Itoa(x) == Itoa(y)
    ensures x == y
  {
    if x < 0 {
      MinusInjective(Digits(-x), Digits(-y));
      DigitsInjective(-x, -y);
    } else {
      DigitsInjective(x, y);
    }
  }

  /** Zero-padded to at least `width` digits, with a sign in front when negative. */
  function ZeroPad(s: string, width: nat): (r: string)
    requires AllDigits(s)
    ensures AllDigits(r)
    ensures |r| == if |s| < width then width else |s|
    ensures ParseDigits(r) == ParseDigits(s)
    decreases width - |s|
  {
    if |s| < width then
      LeadingZero(s);
      ZeroPad("0" + s, width)
    else s
  }

  lemma {:induction false} LeadingZero(s: string)
    requires AllDigits(s)
    ensures AllDigits("0" + s) && ParseDigits("0" + s) == ParseDigits(s)
  {
    if s == "" {
    } else {
      LeadingZero(s[..|s| - 1]);
      assert ("0" + s)[..|s|] == "0" + s[..|s| - 1];
    }
  }

  function Padded(x: int, width: nat): (s: string)
    ensures |s| > 0
    ensures forall i :: 0 <= i < |s| ==> IsDigit(s[i]) || s[i] == '-'
    ensures s[0] == '-' <==> x < 0
  {
    if x < 0 then "-" + ZeroPad(Digits(-x), width) else ZeroPad(Digits(x), width)
  }

  /** What is left of a padded number without its sign reads as its absolute value. */
  lemma PaddedReads(x: int, width: nat)
    ensures var s := if x < 0 then Padded(x, width)[1..] else Padded(x, width);
      AllDigits(s) && ParseDigits(s) == if x < 0 then -x else x
  {
    var n := if x < 0 then -x else x;
    ParseOfDigits(n);
    if x < 0 {
      assert Padded(x, width)[1..] == ZeroPad(Digits(n), width);
    }
  }

  lemma PaddedInjective(x: int, y: int, width: nat)
    requires Padded(x, width) == Padded(y, width)
    ensures x == y
  {
    PaddedReads(x, width);
    PaddedReads(y, width);
  }

  lemma FourDigits(x: int)
    requires 0 <= x < 10000
    ensures |Padded(x, 4)| == 4
  {
    DigitCount(x);
  }

  lemma DigitCount(x: nat)
    requires x < 10000
    ensures |Digits(x)| <= 4
  {
    if x >= 10 {
      assert Digits(x) == Digits(x / 10) + [DigitChar(x % 10)];
      if x >= 100 {
        assert Digits(x / 10) == Digits(x / 100) + [DigitChar(x / 10 % 10)];
        if x >= 1000 {
          assert Digits(x / 100) == Digits(x / 1000) + [DigitChar(x / 100 % 10)];
        }
      }
    }
  }

  lemma TwoDigits(x: int)
    requires 0 <= x < 100
    ensures |Padded(x, 2)| == 2
  {
    if x >= 10 {
      assert Digits(x) == Digits(x / 10) + [DigitChar(x % 10)];
    }
  }
}
