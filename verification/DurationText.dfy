/** Durations in minutes as text, and the reader one provider's feed needs. */
module DurationText {
  import opened Seqs
  import opened Text
  import opened Decimal

  function FormatDuration(minutes: int): (s: string) {
    if minutes <= 0 then ""
    else if minutes / 60 == 0 then Itoa(minutes % 60) + "m"
    else if minutes % 60 == 0 then Itoa(minutes / 60) + "h"
    else Itoa(minutes / 60) + "h " + Itoa(minutes % 60) + "m"
  }

  // ---- the pattern: digits, h, white space, digits, m, in either case, anywhere in the text ----

  predicate PatternSpace(c: char) {
    c as int == 9 || c as int == 10 || c as int == 12 || c as int == 13 || c == ' '
  }

  /** The pattern's white space is that of the library but for the vertical tab. */
  lemma PatternSpacesAre(c: char)
    ensures PatternSpace(c) <==> IsSpace(c) && c != 11 as char
  {
  }

  function DigitsEnd(s: string, i: nat): (j: nat)
    requires i <= |s|
    ensures i <= j <= |s|
    ensures forall k :: i <= k < j ==> IsDigit(s[k])
    ensures j < |s| ==> !IsDigit(s[j])
    decreases |s| - i
  {
    if i < |s| && IsDigit(s[i]) then DigitsEnd(s, i + 1) else i
  }

  function SpacesEnd(s: string, i: nat): (j: nat)
    requires i <= |s|
    ensures i <= j <= |s|
    ensures forall k :: i <= k < j ==> PatternSpace(s[k])
    ensures j < |s| ==> !PatternSpace(s[j])
    decreases |s| - i
  {
    if i < |s| && PatternSpace(s[i]) then SpacesEnd(s, i + 1) else i
  }

  datatype Groups = Groups(hours: string, minutes: string)

  function MatchAt(s: string, i: nat): (r: Option<Groups>)
    requires i <= |s|
    ensures r.Some? ==> AllDigits(r.value.hours) && AllDigits(r.value.minutes)
  {
    var j := DigitsEnd(s, i);
    if j == i || j == |s| || (s[j] != 'h' && s[j] != 'H') then None
    else
      var k := SpacesEnd(s, j + 1);
      var l := DigitsEnd(s, k);
      if l == k || l == |s| || (s[l] != 'm' && s[l] != 'M') then None
      else Some(Groups(s[i..j], s[k..l]))
  }

  function FindMatch(s: string, i: nat): (r: Option<Groups>)
    requires i <= |s|
    ensures r.Some? ==> AllDigits(r.value.hours) && AllDigits(r.value.minutes)
    decreases |s| - i
  {
    if MatchAt(s, i).Some? then MatchAt(s, i)
    else if i < |s| then FindMatch(s, i + 1)
    else None
  }

  /** A digit group too large for a machine integer is an error, which reads as 0. */
  function ParseDurationMinutes(s: string): (m: int) {
    match FindMatch(s, 0)
    case None => 0
    case Some(g) =>
      if ParseDigits(g.hours) > MAX_INT64 || ParseDigits(g.minutes) > MAX_INT64 then 0
      else Wrap(ParseDigits(g.hours) * 60 + ParseDigits(g.minutes))
  }

  lemma {:induction false} NoMatchFrom(s: string, i: nat)
    requires i <= |s|
    requires ('h' !in s && 'H' !in s) || ('m' !in s && 'M' !in s)
    ensures FindMatch(s, i) == None
    decreases |s| - i
  {
    var j := DigitsEnd(s, i);
    if j < |s| {
      assert s[j] in s;
      var l := DigitsEnd(s, SpacesEnd(s, j + 1));
      assert l < |s| ==> s[l] in s;
    }
    if i < |s| {
      NoMatchFrom(s, i + 1);
    }
  }

  lemma DigitsEndAfter(s: string, pre: string, a: string, post: string)
    requires s == pre + a + post && AllDigits(a) && post != "" && !IsDigit(post[0])
    ensures DigitsEnd(s, |pre|) == |pre| + |a|
    ensures s[|pre|..|pre| + |a|] == a
  {
    assert s[|pre| + |a|] == post[0];
    assert forall k :: |pre| <= k < |pre| + |a| ==> s[k] == a[k - |pre|];
  }

  lemma NoDigitNoMatch(s: string, i: nat)
    requires i <= |s| && (i < |s| ==> !IsDigit(s[i]))
    ensures MatchAt(s, i) == None
  {
  }

  lemma {:induction false} FirstDigitMatches(s: string, i: nat, n: nat, g: Groups)
    requires i <= n <= |s| && MatchAt(s, n) == Some(g)
    requires forall k :: i <= k < n ==> !IsDigit(s[k])
    ensures FindMatch(s, i) == Some(g)
    decreases n - i
  {
    if i == n {
    } else {
      NoDigitNoMatch(s, i);
      FirstDigitMatches(s, i + 1, n, g);
    }
  }

  lemma SpacesEndAfter(s: string, pre: string, spaces: string, post: string)
    requires s == pre + spaces + post && AllSpaces(spaces) && post != "" && !PatternSpace(post[0])
    ensures SpacesEnd(s, |pre|) == |pre| + |spaces|
  {
    assert s[|pre| + |spaces|] == post[0];
    assert forall k :: |pre| <= k < |pre| + |spaces| ==> s[k] == spaces[k - |pre|];
  }

  lemma MatchesAt(s: string, i: nat, j: nat, k: nat, l: nat)
    requires i < j < k < l < |s|
    requires (s[j] == 'h' || s[j] == 'H') && (s[l] == 'm' || s[l] == 'M')
    requires DigitsEnd(s, i) == j && SpacesEnd(s, j + 1) == k && DigitsEnd(s, k) == l
    ensures MatchAt(s, i) == Some(Groups(s[i..j], s[k..l]))
  {
  }

  predicate AllSpaces(s: string) {
    forall k :: 0 <= k < |s| ==> PatternSpace(s[k])
  }

  predicate NoDigits(s: string) {
    forall k :: 0 <= k < |s| ==> !IsDigit(s[k])
  }

  /** The first digits of a text, h, any white space, digits, m, in either case, and anything after. */
  ghost predicate HasPattern(s: string, pre: string, a: string, h: char, spaces: string, b: string, m: char, post: string) {
    && s == pre + (a + ([h] + (spaces + (b + ([m] + post)))))
    && NoDigits(pre) && AllSpaces(spaces) && a != "" && b != "" && AllDigits(a) && AllDigits(b)
    && (h == 'h' || h == 'H') && (m == 'm' || m == 'M')
  }

  lemma HoursEnd(s: string, pre: string, a: string, h: char, spaces: string, b: string, m: char, post: string)
    requires HasPattern(s, pre, a, h, spaces, b, m, post)
    ensures var j := |pre| + |a|; j < |s| && s[j] == h && DigitsEnd(s, |pre|) == j && s[|pre|..j] == a
  {
    var after := spaces + (b + ([m] + post));
    Regrouped(pre, a, [h] + after);
    NotADigit(h, after);
    DigitsEndAfter(s, pre, a, [h] + after);
  }

  lemma Regrouped(a: string, b: string, c: string)
    ensures a + (b + c) == a + b + c
  {
  }

  lemma NotADigit(unit: char, after: string)
    requires unit == 'h' || unit == 'H' || unit == 'm' || unit == 'M'
    ensures ([unit] + after)[0] == unit && !IsDigit(unit)
  {
  }

  lemma BlanksEnd(s: string, pre: string, a: string, h: char, spaces: string, b: string, m: char, post: string)
    requires HasPattern(s, pre, a, h, spaces, b, m, post)
    ensures var j := |pre| + |a|; j < |s| && SpacesEnd(s, j + 1) == j + 1 + |spaces|
  {
    var front, rest := pre + a + [h], b + ([m] + post);
    assert s == front + spaces + rest && rest[0] == b[0];
    SpacesEndAfter(s, front, spaces, rest);
  }

  lemma MinutesEnd(s: string, pre: string, a: string, h: char, spaces: string, b: string, m: char, post: string)
    requires HasPattern(s, pre, a, h, spaces, b, m, post)
    ensures var k := |pre| + |a| + 1 + |spaces|; var l := k + |b|;
      l < |s| && s[l] == m && DigitsEnd(s, k) == l && s[k..l] == b
  {
    var front, rest := pre + a + [h] + spaces, [m] + post;
    assert s == front + b + rest;
    DigitsEndAfter(s, front, b, rest);
  }

  /** The reader finds the pattern. */
  lemma ReadsPattern(s: string, pre: string, a: string, h: char, spaces: string, b: string, m: char, post: string)
    requires HasPattern(s, pre, a, h, spaces, b, m, post)
    ensures FindMatch(s, 0) == Some(Groups(a, b))
  {
    var j := |pre| + |a|;
    var k := j + 1 + |spaces|;
    HoursEnd(s, pre, a, h, spaces, b, m, post);
    BlanksEnd(s, pre, a, h, spaces, b, m, post);
    MinutesEnd(s, pre, a, h, spaces, b, m, post);
    NoDigitBefore(s, pre, a, h, spaces, b, m, post);
    MatchesFrom(s, |pre|, j, k, k + |b|);
  }

  lemma NoDigitBefore(s: string, pre: string, a: string, h: char, spaces: string, b: string, m: char, post: string)
    requires HasPattern(s, pre, a, h, spaces, b, m, post)
    ensures |pre| <= |s| && NoDigits(s[..|pre|]) && |a| > 0 && |b| > 0
  {
    assert s[..|pre|] == pre;
  }

  lemma MatchesFrom(s: string, i: nat, j: nat, k: nat, l: nat)
    requires i < j < k < l < |s| && NoDigits(s[..i])
    requires (s[j] == 'h' || s[j] == 'H') && (s[l] == 'm' || s[l] == 'M')
    requires DigitsEnd(s, i) == j && SpacesEnd(s, j + 1) == k && DigitsEnd(s, k) == l
    ensures FindMatch(s, 0) == Some(Groups(s[i..j], s[k..l]))
  {
    MatchesAt(s, i, j, k, l);
    assert forall n :: 0 <= n < i ==> !IsDigit(s[..i][n]);
    FirstDigitMatches(s, 0, i, Groups(s[i..j], s[k..l]));
  }

  /** And makes sixty minutes to the hour of it, or 0 if a number is too large for a machine integer. */
  lemma PatternMinutes(s: string, pre: string, a: string, h: char, spaces: string, b: string, m: char, post: string)
    requires HasPattern(s, pre, a, h, spaces, b, m, post)
    ensures ParseDigits(a) > MAX_INT64 || ParseDigits(b) > MAX_INT64 ==> ParseDurationMinutes(s) == 0
    ensures 60 * ParseDigits(a) + ParseDigits(b) <= MAX_INT64 ==> ParseDurationMinutes(s) == 60 * ParseDigits(a) + ParseDigits(b)
  {
    ReadsPattern(s, pre, a, h, spaces, b, m, post);
  }

  lemma MatchBoth(a: string, b: string)
    requires a != "" && b != "" && AllDigits(a) && AllDigits(b)
    ensures FindMatch(a + "h " + b + "m", 0) == Some(Groups(a, b))
  {
    var s := a + "h " + b + "m";
    assert s == "" + (a + (['h'] + (" " + (b + (['m'] + "")))));
    ReadsPattern(s, "", a, 'h', " ", b, 'm', "");
  }

  /** The reader recovers the printed duration exactly when it has both hours and minutes to show; every other text reads as 0. */
  lemma DurationRoundTrip(m: int)
    requires m <= MAX_INT64
    ensures ParseDurationMinutes(FormatDuration(m)) == if m > 0 && m / 60 != 0 && m % 60 != 0 then m else 0
  {
    var s := FormatDuration(m);
    if m > 0 && m / 60 != 0 && m % 60 != 0 {
      MatchBoth(Itoa(m / 60), Itoa(m % 60));
      ParseOfDigits(m / 60);
      ParseOfDigits(m % 60);
    } else {
      NoMatchFrom(s, 0);
    }
  }

  // ---- every printed duration can be read ----

  /** Reading from left to right: minutes so far, and the number being read. */
  datatype Span = Span(minutes: int, number: int)

  function TakeChar(a: Span, c: char): (b: Span) {
    if IsDigit(c) then Span(a.minutes, 10 * a.number + (c as int - '0' as int))
    else if c == 'h' then Span(a.minutes + 60 * a.number, 0)
    else if c == 'm' then Span(a.minutes + a.number, 0)
    else a
  }

  function ReadSpan(s: string): (a: Span) {
    if s == "" then Span(0, 0) else TakeChar(ReadSpan(s[..|s| - 1]), s[|s| - 1])
  }

  lemma ReadChar(s: string, c: char)
    ensures ReadSpan(s + [c]) == TakeChar(ReadSpan(s), c)
  {
    assert (s + [c])[..|s|] == s;
  }

  lemma {:induction false} ReadNumber(s: string, n: nat)
    requires ReadSpan(s).number == 0
    ensures ReadSpan(s + Digits(n)) == Span(ReadSpan(s).minutes, n)
  {
    if n < 10 {
      ReadChar(s, DigitChar(n));
    } else {
      ReadNumber(s, n / 10);
      ReadChar(s + Digits(n / 10), DigitChar(n % 10));
      assert s + Digits(n) == s + Digits(n / 10) + [DigitChar(n % 10)];
    }
  }

  lemma TakeUnit(a: Span, unit: char)
    requires unit == 'h' || unit == 'm'
    ensures TakeChar(a, unit) == Span(a.minutes + (if unit == 'h' then 60 * a.number else a.number), 0)
  {
  }

  /** A number and its unit. */
  lemma ReadPart(s: string, n: nat, unit: char)
    requires ReadSpan(s).number == 0 && (unit == 'h' || unit == 'm')
    ensures ReadSpan(s + Itoa(n) + [unit]) == Span(ReadSpan(s).minutes + (if unit == 'h' then 60 * n else n), 0)
  {
    var t := Itoa(n);
    assert ReadSpan(s + t) == Span(ReadSpan(s).minutes, n) by {
      ReadNumber(s, n);
    }
    ReadChar(s + t, unit);
    TakeUnit(Span(ReadSpan(s).minutes, n), unit);
  }

  /** With h for sixty minutes and m for one, every printed duration reads as what was printed, and nothing is printed for none. */
  lemma PrintedDurationReads(m: int)
    ensures ReadSpan(FormatDuration(m)) == Span(if m > 0 then m else 0, 0)
    ensures FormatDuration(m) == "" <==> m <= 0
  {
    if m > 0 {
      PrintedPartsRead(m / 60, m % 60);
    }
  }

  lemma OnePartReads(n: nat, unit: char)
    requires unit == 'h' || unit == 'm'
    ensures ReadSpan(Itoa(n) + [unit]) == Span(if unit == 'h' then 60 * n else n, 0)
  {
    assert "" + Itoa(n) == Itoa(n);
    ReadPart("", n, unit);
  }

  lemma BlankReads(s: string)
    ensures ReadSpan(s + " ") == ReadSpan(s)
  {
    ReadChar(s, ' ');
  }

  lemma TwoPartsRead(hours: string, h: nat, r: nat)
    requires ReadSpan(hours) == Span(60 * h, 0)
    ensures ReadSpan(hours + " " + Itoa(r) + "m") == Span(60 * h + r, 0)
  {
    BlankReads(hours);
    ReadPart(hours + " ", r, 'm');
  }

  lemma PrintedPartsRead(h: nat, r: nat)
    ensures ReadSpan(Itoa(r) + "m") == Span(r, 0)
    ensures ReadSpan(Itoa(h) + "h") == Span(60 * h, 0)
    ensures ReadSpan(Itoa(h) + "h " + Itoa(r) + "m") == Span(60 * h + r, 0)
  {
    OnePartReads(r, 'm');
    OnePartReads(h, 'h');
    var hours := Itoa(h) + "h";
    TwoPartsRead(hours, h, r);
    assert hours + " " == Itoa(h) + "h ";
  }
}
