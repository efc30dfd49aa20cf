/** Rupiah amounts with dots between thousands, printed and read back. */
module Money {
  import opened Seqs
  import opened Decimal

  /** A dot before every full group of three, counted from the right. */
  function Grouped(value: string): (r: string)
    ensures |r| >= |value|
  {
    if |value| <= 3 then value
    else Grouped(value[..|value| - 3]) + "." + value[|value| - 3..]
  }

  /** Machine negation: the least integer is its own negation. */
  function Unsigned(amount: int): (r: int) {
    if amount < 0 then Wrap(-amount) else amount
  }

  function IdrText(amount: int): (s: string) {
    if amount == 0 then "Rp. 0"
    else (if amount < 0 then "-Rp. " else "Rp. ") + Grouped(Itoa(Unsigned(amount)))
  }

  lemma DotInserted(digits: string, tail: string, i: int)
    requires 0 < i <= |digits| - 3
    ensures var value, longer := digits[..i + 3] + tail, "." + digits[i..i + 3] + tail;
      && value[..i] + "." + value[i..] == digits[..i] + longer
      && Grouped(digits[..i + 3]) + tail == Grouped(digits[..i]) + longer
  {
    var value := digits[..i + 3] + tail;
    assert value[..i] == digits[..i] && value[i..] == digits[i..i + 3] + tail;
    assert digits[..i + 3][..i] == digits[..i] && digits[..i + 3][i..] == digits[i..i + 3];
  }

  method FormatIDR(amount: int) returns (s: string)
    ensures s == IdrText(amount)
  {
    if amount == 0 {
      return "Rp. 0";
    }
    var negative := amount < 0;
    var rest := if negative then Wrap(-amount) else amount;
    var value := Itoa(rest);
    ghost var digits, tail := value, "";
    assert digits[..|digits|] == digits;
    var i := |value| - 3;
    while i > 0
      invariant -2 <= i <= |digits| - 3
      invariant value == digits[..i + 3] + tail
      invariant Grouped(digits) == Grouped(digits[..i + 3]) + tail
    {
      DotInserted(digits, tail, i);
      value := value[..i] + "." + value[i..];
      tail := "." + digits[i..i + 3] + tail;
      i := i - 3;
    }
    if negative {
      return "-Rp. " + value;
    }
    return "Rp. " + value;
  }

  // ---- reading back ----

  predicate NotDot(c: char) { c != '.' }

  function ReadGrouped(s: string): (r: Option<int>) {
    var digits := Keep(NotDot, s);
    if digits != "" && AllDigits(digits) then Some(ParseDigits(digits)) else None
  }

  function ReadIDR(s: string): (r: Option<int>) {
    if "-Rp. " <= s then
      match ReadGrouped(s[5..])
      case None => None
      case Some(n) => Some(-n)
    else if "Rp. " <= s then
      match ReadGrouped(s[4..])
      case None => None
      case Some(n) => Some(n)
    else None
  }

  lemma {:induction false} DotsRemoved(value: string)
    requires '.' !in value
    ensures Keep(NotDot, Grouped(value)) == value
  {
    if |value| <= 3 {
      KeepsDotless(value);
    } else {
      var a, b := value[..|value| - 3], value[|value| - 3..];
      DotsRemoved(a);
      DotBetween(Grouped(a), b);
      assert value == a + b;
    }
  }

  lemma DotBetween(a: string, b: string)
    requires '.' !in b
    ensures Keep(NotDot, a + "." + b) == Keep(NotDot, a) + b
  {
    KeepsDotless(b);
    KeepConcat(NotDot, a + ".", b);
    KeepSnoc(NotDot, a, '.');
  }

  lemma {:induction false} KeepsDotless(s: string)
    requires '.' !in s
    ensures Keep(NotDot, s) == s
  {
    if s == "" {
    } else {
      KeepsDotless(s[..|s| - 1]);
      assert s == s[..|s| - 1] + [s[|s| - 1]];
    }
  }

  /** Zero prints like any other unsigned amount. */
  lemma ZeroPrefix()
    ensures IdrText(0) == "Rp. " + Grouped(Itoa(Unsigned(0)))
  {
    assert Itoa(0) == "0";
  }

  lemma TextParts(amount: int)
    ensures amount < 0 ==> "-Rp. " <= IdrText(amount) && IdrText(amount)[5..] == Grouped(Itoa(Unsigned(amount)))
    ensures amount >= 0 ==> "Rp. " <= IdrText(amount) && IdrText(amount)[4..] == Grouped(Itoa(Unsigned(amount)))
    ensures amount >= 0 ==> !("-Rp. " <= IdrText(amount))
  {
    ZeroPrefix();
    if amount >= 0 {
      assert IdrText(amount)[0] == 'R';
    }
  }

  lemma ReadsDigits(n: nat)
    ensures ReadGrouped(Grouped(Itoa(n))) == Some(n)
  {
    DotsRemoved(Itoa(n));
    ParseOfDigits(n);
  }

  lemma MinusIsUnreadable(n: int)
    requires n < 0
    ensures ReadGrouped(Grouped(Itoa(n))) == None
  {
    DotsRemoved(Itoa(n));
    assert Itoa(n)[0] == '-' && !IsDigit('-');
  }

  /** Printing then reading gives the amount back exactly when it is not the least machine integer. */
  lemma RoundTripIff(amount: int)
    requires MIN_INT64 <= amount <= MAX_INT64
    ensures ReadIDR(IdrText(amount)) == Some(amount) <==> amount != MIN_INT64
    ensures amount == MIN_INT64 ==> ReadIDR(IdrText(amount)) == None
  {
    TextParts(amount);
    if amount == MIN_INT64 {
      assert Unsigned(amount) == MIN_INT64;
      MinusIsUnreadable(MIN_INT64);
    } else {
      ReadsDigits(Unsigned(amount));
    }
  }

  /** Two machine integers never print alike. */
  lemma PrintsApart(a: int, b: int)
    requires MIN_INT64 <= a <= MAX_INT64 && MIN_INT64 <= b <= MAX_INT64
    requires IdrText(a) == IdrText(b)
    ensures a == b
  {
    RoundTripIff(a);
    RoundTripIff(b);
  }

  // ---- the shape of the groups ----

  /** The pieces between separators. */
  function Split(s: string, sep: char): (r: seq<string>)
    ensures |r| > 0
  {
    if s == "" then [""]
    else
      var rest := Split(s[1..], sep);
      if s[0] == sep then [""] + rest else [[s[0]] + rest[0]] + rest[1..]
  }

  lemma {:induction false} SplitConcat(a: string, b: string, sep: char)
    ensures Split(a + [sep] + b, sep) == Split(a, sep) + Split(b, sep)
  {
    if a == "" {
      assert a + [sep] + b == [sep] + b;
    } else {
      assert (a + [sep] + b)[1..] == a[1..] + [sep] + b;
      SplitConcat(a[1..], b, sep);
    }
  }

  lemma {:induction false} SplitWhole(s: string, sep: char)
    requires sep !in s
    ensures Split(s, sep) == [s]
  {
    if s == "" {
    } else {
      SplitWhole(s[1..], sep);
      assert s == [s[0]] + s[1..];
    }
  }

  /** The first group has one to three characters, every later group exactly three. */
  lemma {:induction false} GroupsOfThree(value: string)
    requires value != "" && '.' !in value
    ensures var groups := Split(Grouped(value), '.');
      1 <= |groups[0]| <= 3 && forall i :: 1 <= i < |groups| ==> |groups[i]| == 3
  {
    if |value| <= 3 {
      SplitWhole(value, '.');
    } else {
      var a, b := value[..|value| - 3], value[|value| - 3..];
      GroupsOfThree(a);
      SplitConcat(Grouped(a), b, '.');
      SplitWhole(b, '.');
    }
  }
}
