/**
 Instants with a fixed zone offset, in whole seconds and whole minutes, on the proleptic
 Gregorian calendar; the texts are the date and the date-time of section 5.6 of RFC 3339.
 */
module Times {
  import opened Text
  import opened Decimal

  /** `sec` counts seconds from the zero time, 0001-01-01T00:00:00Z; `off` is minutes east. */
  datatype Time = Time(sec: int, off: int)

  datatype Date = Date(year: int, month: int, day: int)

  const DAY_SECONDS := 86400

  predicate IsZero(t: Time) { t.sec == 0 }

  predicate Before(t: Time, u: Time) { t.sec < u.sec }

  predicate After(t: Time, u: Time) { t.sec > u.sec }

  function LocalSeconds(t: Time): (s: int) { t.sec + 60 * t.off }

  function LocalDay(t: Time): (n: int) { LocalSeconds(t) / DAY_SECONDS }

  function SecondOfDay(t: Time): (s: int)
    ensures 0 <= s < DAY_SECONDS
    ensures LocalSeconds(t) == DAY_SECONDS * LocalDay(t) + s
  {
    LocalSeconds(t) % DAY_SECONDS
  }

  predicate Leap(y: int) {
    y % 4 == 0 && (y % 100 != 0 || y % 400 == 0)
  }

  function DaysInYear(y: int): (n: int) { if Leap(y) then 366 else 365 }

  function DaysInMonth(y: int, m: int): (n: int)
    ensures 28 <= n <= 31
  {
    if m == 2 then (if Leap(y) then 29 else 28)
    else if m == 4 || m == 6 || m == 9 || m == 11 then 30
    else 31
  }

  /** Days from 0001-01-01 to the first of January of year `y`. */
  function YearStart(y: int): (n: int) {
    365 * (y - 1) + (y - 1) / 4 - (y - 1) / 100 + (y - 1) / 400
  }

  function MonthStart(y: int, m: int): (n: int)
    requires 1 <= m <= 12
    ensures 0 <= n <= 31 * (m - 1)
    decreases m
  {
    if m == 1 then 0 else MonthStart(y, m - 1) + DaysInMonth(y, m - 1)
  }

  predicate ValidDate(d: Date) {
    1 <= d.month <= 12 && 1 <= d.day <= DaysInMonth(d.year, d.month)
  }

  function DayNumber(d: Date): (n: int)
    requires ValidDate(d)
  {
    YearStart(d.year) + MonthStart(d.year, d.month) + d.day - 1
  }

  lemma YearLength(y: int)
    ensures YearStart(y + 1) == YearStart(y) + DaysInYear(y)
  {
    Multiples(y);
    DivStep(y, 4);
    DivStep(y, 100);
    DivStep(y, 400);
  }

  lemma Multiples(y: int)
    ensures y % 400 == 0 ==> y % 100 == 0
    ensures y % 100 == 0 ==> y % 4 == 0
  {
    if y % 100 == 0 {
      assert y == 4 * (25 * (y / 100));
    }
    if y % 400 == 0 {
      assert y == 100 * (4 * (y / 400));
    }
  }

  lemma DivStep(k: int, m: int)
    requires m == 4 || m == 100 || m == 400
    ensures k / m == (k - 1) / m + (if k % m == 0 then 1 else 0)
  {
  }

  /** The year a day falls in, searching from year `y` on, and the day's index in it. */
  function YearOf(y: int, n: int): (r: (int, int))
    ensures YearStart(r.0) + r.1 == YearStart(y) + n
    ensures 0 <= r.1 < DaysInYear(r.0)
    decreases if n < 0 then 366 - n else n
  {
    YearLength(y);
    YearLength(y - 1);
    if n < 0 then YearOf(y - 1, n + DaysInYear(y - 1))
    else if n < DaysInYear(y) then (y, n)
    else YearOf(y + 1, n - DaysInYear(y))
  }

  function MonthOf(y: int, m: int, n: int): (d: Date)
    requires 1 <= m <= 12 && 0 <= n
    requires MonthStart(y, m) + n < DaysInYear(y)
    ensures ValidDate(d) && d.year == y
    ensures MonthStart(y, d.month) + d.day - 1 == MonthStart(y, m) + n
    decreases 12 - m
  {
    if n < DaysInMonth(y, m) then Date(y, m, n + 1)
    else
      YearEndsWithDecember(y);
      MonthOf(y, m + 1, n - DaysInMonth(y, m))
  }

  lemma YearEndsWithDecember(y: int)
    ensures MonthStart(y, 12) + 31 == DaysInYear(y)
  {
    assert MonthStart(y, 3) == MonthStart(y, 2) + DaysInMonth(y, 2);
    assert MonthStart(y, 6) == MonthStart(y, 3) + 92;
    assert MonthStart(y, 9) == MonthStart(y, 6) + 92;
    assert MonthStart(y, 12) == MonthStart(y, 9) + 91;
  }

  /** The calendar date of day `n`; DayNumber undoes it. */
  function CivilDate(n: int): (d: Date)
    ensures ValidDate(d) && DayNumber(d) == n
  {
    var (y, k) := YearOf(1, n);
    MonthOf(y, 1, k)
  }

  /** Known days: the month starts of a common year, and the ends of February around the turns of two centuries. */
  lemma KnownDays()
    ensures DayNumber(Date(2025, 1, 1)) == 739251
    ensures DayNumber(Date(2025, 2, 1)) == 739282
    ensures DayNumber(Date(2025, 3, 1)) == 739310
    ensures DayNumber(Date(2025, 4, 1)) == 739341
    ensures DayNumber(Date(2025, 5, 1)) == 739371
    ensures DayNumber(Date(2025, 6, 1)) == 739402
    ensures DayNumber(Date(2025, 7, 1)) == 739432
    ensures DayNumber(Date(2025, 8, 1)) == 739463
    ensures DayNumber(Date(2025, 9, 1)) == 739494
    ensures DayNumber(Date(2025, 10, 1)) == 739524
    ensures DayNumber(Date(2025, 11, 1)) == 739555
    ensures DayNumber(Date(2025, 12, 1)) == 739585
    ensures DayNumber(Date(1970, 1, 1)) == 719162 && DayNumber(Date(2024, 2, 29)) == 738944 && DayNumber(Date(2024, 3, 1)) == 738945
    ensures DayNumber(Date(2000, 2, 29)) == 730178 && DayNumber(Date(2000, 3, 1)) == 730179
    ensures DayNumber(Date(1900, 2, 28)) == 693653 && DayNumber(Date(1900, 3, 1)) == 693654
  {
    MonthStarts(2025);
    MonthStarts(2024);
    MonthStarts(2000);
    MonthStarts(1900);
  }

  lemma MonthStarts(y: int)
    ensures var extra := if Leap(y) then 1 else 0;
      && MonthStart(y, 1) == 0 && MonthStart(y, 2) == 31 && MonthStart(y, 3) == 59 + extra && MonthStart(y, 4) == 90 + extra
      && MonthStart(y, 5) == 120 + extra && MonthStart(y, 6) == 151 + extra && MonthStart(y, 7) == 181 + extra
      && MonthStart(y, 8) == 212 + extra && MonthStart(y, 9) == 243 + extra && MonthStart(y, 10) == 273 + extra
      && MonthStart(y, 11) == 304 + extra && MonthStart(y, 12) == 334 + extra
  {
    assert MonthStart(y, 3) == MonthStart(y, 2) + DaysInMonth(y, 2);
    assert MonthStart(y, 5) == MonthStart(y, 4) + DaysInMonth(y, 4);
    assert MonthStart(y, 7) == MonthStart(y, 6) + DaysInMonth(y, 6);
    assert MonthStart(y, 9) == MonthStart(y, 8) + DaysInMonth(y, 8);
    assert MonthStart(y, 11) == MonthStart(y, 10) + DaysInMonth(y, 10);
  }

  function DateOf(t: Time): (d: Date)
    ensures ValidDate(d) && DayNumber(d) == LocalDay(t)
  {
    CivilDate(LocalDay(t))
  }

  /** The library's constructor: a civil date, a second of that day and a zone. */
  function MakeTime(d: Date, secondOfDay: int, off: int): (t: Time)
    requires ValidDate(d)
    ensures LocalSeconds(t) == DAY_SECONDS * DayNumber(d) + secondOfDay
  {
    Time(DAY_SECONDS * DayNumber(d) + secondOfDay - 60 * off, off)
  }

  // ---- texts ----

  function DateText(d: Date): (s: string) {
    Padded(d.year, 4) + "-" + Padded(d.month, 2) + "-" + Padded(d.day, 2)
  }

  function ClockFields(h: int, m: int, s: int): (r: string) {
    Padded(h, 2) + ":" + Padded(m, 2) + ":" + Padded(s, 2)
  }

  function ClockText(s: int): (r: string) {
    ClockFields(s / 3600, s / 60 % 60, s % 60)
  }

  function Magnitude(x: int): (r: int)
    ensures r >= 0 && (r == x || r == -x)
  {
    if x < 0 then -x else x
  }

  function ZoneSign(off: int): (s: string)
    ensures |s| == 1
  {
    if off < 0 then "-" else "+"
  }

  function ZoneDigits(minutes: int): (s: string) {
    Padded(minutes / 60, 2) + ":" + Padded(minutes % 60, 2)
  }

  function ZoneText(off: int): (s: string) {
    if off == 0 then "Z" else ZoneSign(off) + ZoneDigits(Magnitude(off))
  }

  function FormatDate(t: Time): (s: string) {
    DateText(DateOf(t))
  }

  function FormatTime(t: Time): (s: string) {
    DateText(DateOf(t)) + "T" + (ClockText(SecondOfDay(t)) + ZoneText(t.off))
  }

  predicate TimeChar(c: char) {
    IsDigit(c) || c == '-' || c == '+' || c == ':' || c == 'T' || c == 'Z'
  }

  lemma DateTextChars(d: Date)
    ensures forall c :: c in DateText(d) ==> IsDigit(c) || c == '-'
  {
  }

  lemma ClockFieldsChars(h: int, m: int, s: int)
    ensures forall c :: c in ClockFields(h, m, s) ==> TimeChar(c)
  {
  }

  lemma ZoneTextChars(off: int)
    ensures forall c :: c in ZoneText(off) ==> TimeChar(c)
  {
    assert forall c :: c in ZoneDigits(Magnitude(off)) ==> TimeChar(c);
  }

  lemma FormatTimeChars(t: Time)
    ensures forall c :: c in FormatTime(t) ==> TimeChar(c)
  {
    DateTextChars(DateOf(t));
    ClockFieldsChars(SecondOfDay(t) / 3600, SecondOfDay(t) / 60 % 60, SecondOfDay(t) % 60);
    ZoneTextChars(t.off);
  }

  lemma DateTextInjective(d: Date, e: Date)
    requires ValidDate(d) && ValidDate(e)
    requires DateText(d) == DateText(e)
    ensures d == e
  {
    TwoDigits(d.month);
    TwoDigits(d.day);
    TwoDigits(e.month);
    TwoDigits(e.day);
    CutLast('-', Padded(d.year, 4) + "-" + Padded(d.month, 2), Padded(d.day, 2),
                 Padded(e.year, 4) + "-" + Padded(e.month, 2), Padded(e.day, 2));
    CutLast('-', Padded(d.year, 4), Padded(d.month, 2), Padded(e.year, 4), Padded(e.month, 2));
    PaddedInjective(d.year, e.year, 4);
    PaddedInjective(d.month, e.month, 2);
    PaddedInjective(d.day, e.day, 2);
  }

  /** The date text is year, month and day in decimal, at the places of section 5.6 of RFC 3339. */
  lemma DateTextReads(d: Date)
    requires ValidDate(d) && 0 <= d.year < 10000
    ensures var s := DateText(d);
      && |s| == 10 && s[4] == '-' && s[7] == '-'
      && AllDigits(s[..4]) && ParseDigits(s[..4]) == d.year
      && AllDigits(s[5..7]) && ParseDigits(s[5..7]) == d.month
      && AllDigits(s[8..]) && ParseDigits(s[8..]) == d.day
  {
    FourDigits(d.year);
    TwoDigits(d.month);
    TwoDigits(d.day);
    PaddedReads(d.year, 4);
    PaddedReads(d.month, 2);
    PaddedReads(d.day, 2);
    ThreeParts(Padded(d.year, 4), Padded(d.month, 2), Padded(d.day, 2), '-');
  }

  lemma ThreeParts(a: string, b: string, c: string, sep: char)
    requires |b| == 2 && |c| == 2
    ensures var s, n := a + [sep] + b + [sep] + c, |a|;
      && |s| == n + 6 && s[n] == sep && s[n + 3] == sep
      && s[..n] == a && s[n + 1..n + 3] == b && s[n + 4..] == c
  {
  }

  /** The clock text is hour, minute and second in decimal. */
  lemma ClockTextReads(k: int)
    requires 0 <= k < DAY_SECONDS
    ensures var s := ClockText(k);
      && |s| == 8 && s[2] == ':' && s[5] == ':'
      && AllDigits(s[..2]) && AllDigits(s[3..5]) && AllDigits(s[6..])
      && k == 3600 * ParseDigits(s[..2]) + 60 * ParseDigits(s[3..5]) + ParseDigits(s[6..])
      && ParseDigits(s[3..5]) < 60 && ParseDigits(s[6..]) < 60
  {
    TwoDigits(k / 3600);
    TwoDigits(k / 60 % 60);
    TwoDigits(k % 60);
    PaddedReads(k / 3600, 2);
    PaddedReads(k / 60 % 60, 2);
    PaddedReads(k % 60, 2);
    ClockParts(k);
    ThreeParts(Padded(k / 3600, 2), Padded(k / 60 % 60, 2), Padded(k % 60, 2), ':');
  }

  lemma ClockFieldsInjective(h: int, m: int, s: int, h': int, m': int, s': int)
    requires ClockFields(h, m, s) == ClockFields(h', m', s')
    ensures h == h' && m == m' && s == s'
  {
    CutLast(':', Padded(h, 2) + ":" + Padded(m, 2), Padded(s, 2), Padded(h', 2) + ":" + Padded(m', 2), Padded(s', 2));
    CutLast(':', Padded(h, 2), Padded(m, 2), Padded(h', 2), Padded(m', 2));
    PaddedInjective(h, h', 2);
    PaddedInjective(m, m', 2);
    PaddedInjective(s, s', 2);
  }

  lemma ClockTextInjective(s: int, t: int)
    requires ClockText(s) == ClockText(t)
    ensures s == t
  {
    ClockFieldsInjective(s / 3600, s / 60 % 60, s % 60, t / 3600, t / 60 % 60, t % 60);
    ClockParts(s);
    ClockParts(t);
  }

  lemma ClockParts(s: int)
    ensures s == 3600 * (s / 3600) + 60 * (s / 60 % 60) + s % 60
  {
  }

  lemma ClockTextLength(s: int)
    requires 0 <= s < DAY_SECONDS
    ensures |ClockText(s)| == 8
  {
    TwoDigits(s / 3600);
    TwoDigits(s / 60 % 60);
    TwoDigits(s % 60);
  }

  lemma ZoneDigitsInjective(x: int, y: int)
    requires ZoneDigits(x) == ZoneDigits(y)
    ensures x == y
  {
    CutLast(':', Padded(x / 60, 2), Padded(x % 60, 2), Padded(y / 60, 2), Padded(y % 60, 2));
    PaddedInjective(x / 60, y / 60, 2);
    PaddedInjective(x % 60, y % 60, 2);
  }

  lemma SignedInjective(sign: string, rest: string, sign': string, rest': string)
    requires |sign| == |sign'| == 1 && sign + rest == sign' + rest'
    ensures sign == sign' && rest == rest'
  {
    assert sign == (sign + rest)[..1] && sign' == (sign' + rest')[..1];
    assert rest == (sign + rest)[1..] && rest' == (sign' + rest')[1..];
  }

  lemma ZoneTextInjective(a: int, b: int)
    requires ZoneText(a) == ZoneText(b)
    ensures a == b
  {
    if a != 0 && b != 0 {
      SignedInjective(ZoneSign(a), ZoneDigits(Magnitude(a)), ZoneSign(b), ZoneDigits(Magnitude(b)));
      ZoneDigitsInjective(Magnitude(a), Magnitude(b));
    }
  }

  /** The date text of a time fixes its local day. */
  lemma FormatDateInjective(t: Time, u: Time)
    requires FormatDate(t) == FormatDate(u)
    ensures DateOf(t) == DateOf(u) && LocalDay(t) == LocalDay(u)
  {
    DateTextInjective(DateOf(t), DateOf(u));
  }

  /** The date-time text fixes the time, zone included. */
  lemma FormatTimeInjective(t: Time, u: Time)
    requires FormatTime(t) == FormatTime(u)
    ensures t == u
  {
    DateTextChars(DateOf(t));
    DateTextChars(DateOf(u));
    CutFirst('T', DateText(DateOf(t)), ClockText(SecondOfDay(t)) + ZoneText(t.off),
                  DateText(DateOf(u)), ClockText(SecondOfDay(u)) + ZoneText(u.off));
    ClockTextLength(SecondOfDay(t));
    ClockTextLength(SecondOfDay(u));
    var rest := ClockText(SecondOfDay(t)) + ZoneText(t.off);
    assert ClockText(SecondOfDay(t)) == rest[..8] == ClockText(SecondOfDay(u));
    assert ZoneText(t.off) == rest[8..] == ZoneText(u.off);
    ClockTextInjective(SecondOfDay(t), SecondOfDay(u));
    ZoneTextInjective(t.off, u.off);
    DateTextInjective(DateOf(t), DateOf(u));
  }

  /** Lower-casing a date-time text still loses nothing. */
  lemma LoweredTimeInjective(t: Time, u: Time)
    requires ToLower(FormatTime(t)) == ToLower(FormatTime(u))
    ensures t == u
  {
    var a, b := FormatTime(t), FormatTime(u);
    FormatTimeChars(t);
    FormatTimeChars(u);
    assert |a| == |ToLower(a)| == |ToLower(b)| == |b|;
    forall i | 0 <= i < |a|
      ensures a[i] == b[i]
    {
      assert a[i] in a && b[i] in b;
      assert LowerChar(a[i]) == ToLower(a)[i] == ToLower(b)[i] == LowerChar(b[i]);
    }
    FormatTimeInjective(t, u);
  }

  /** The zone text is Z, or a sign and the offset in hours and minutes. */
  lemma ZoneTextReads(off: int)
    requires -6000 < off < 6000
    ensures var s := ZoneText(off);
      if off == 0 then s == "Z"
      else
        && |s| == 6 && s[0] == (if off < 0 then '-' else '+') && s[3] == ':'
        && AllDigits(s[1..3]) && AllDigits(s[4..]) && ParseDigits(s[4..]) < 60
        && 60 * ParseDigits(s[1..3]) + ParseDigits(s[4..]) == Magnitude(off)
  {
    if off != 0 {
      var s, m := ZoneText(off), Magnitude(off);
      TwoDigits(m / 60);
      TwoDigits(m % 60);
      PaddedReads(m / 60, 2);
      PaddedReads(m % 60, 2);
      assert s[1..3] == Padded(m / 60, 2) && s[4..] == Padded(m % 60, 2);
    }
  }

  /** The date-time text: the local date, T, the local clock and the zone, each at its place. */
  lemma TimeTextReads(t: Time)
    requires 0 <= DateOf(t).year < 10000
    ensures var s := FormatTime(t);
      && |s| > 19 && s[..10] == DateText(DateOf(t)) && s[10] == 'T'
      && s[11..19] == ClockText(SecondOfDay(t)) && s[19..] == ZoneText(t.off)
  {
    DateTextReads(DateOf(t));
    ClockTextReads(SecondOfDay(t));
    JoinedAt(DateText(DateOf(t)), ClockText(SecondOfDay(t)), ZoneText(t.off));
  }

  lemma JoinedAt(date: string, clock: string, zone: string)
    requires |date| == 10 && |clock| == 8 && zone != ""
    ensures var s := date + "T" + (clock + zone);
      |s| > 19 && s[..10] == date && s[10] == 'T' && s[11..19] == clock && s[19..] == zone
  {
  }

  /** East of the zero meridian local time is ahead: it is what a clock at offset zero would show `off` minutes later. */
  lemma LocalIsAhead(t: Time)
    ensures var u := Time(t.sec + 60 * t.off, 0); DateOf(t) == DateOf(u) && SecondOfDay(t) == SecondOfDay(u)
  {
  }
}
