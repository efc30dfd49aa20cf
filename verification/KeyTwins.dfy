/** Which inputs own their cache key: when another input can have the same one although it asks for something else. */
module KeyTwins {
  import opened Seqs
  import opened Text
  import opened Times
  import opened Query
  import Filters

  /** Whoever has this key asks the same query. */
  ghost predicate KeyTells(x: FlightsInput) {
    forall y :: BuildCacheKey(y) == BuildCacheKey(x) ==> Canon(y) == Canon(x)
  }

  /** No separator in a text field, and at most one airline that is not blank. */
  ghost predicate Unambiguous(x: FlightsInput) {
    SeparatorFree(x) && |CleanNames(x.filters.airlines)| <= 1
  }

  // ---- counting separators ----

  predicate IsPipe(c: char) { c == '|' }

  function Pipes(s: string): (n: nat)
    ensures n == 0 <==> '|' !in s
  {
    KeepContents(IsPipe, s);
    assert forall c :: c in Keep(IsPipe, s) ==> c == '|';
    if Keep(IsPipe, s) != [] then (assert Keep(IsPipe, s)[0] in Keep(IsPipe, s); |Keep(IsPipe, s)|) else 0
  }

  lemma PipesConcat(a: string, b: string)
    ensures Pipes(a + b) == Pipes(a) + Pipes(b)
  {
    KeepConcat(IsPipe, a, b);
  }

  function PipesIn(parts: seq<string>): (n: nat) {
    if parts == [] then 0 else Pipes(parts[0]) + PipesIn(parts[1..])
  }

  lemma {:induction false} PipesOfJoin(parts: seq<string>)
    requires parts != []
    ensures Pipes(Join(parts, '|')) == PipesIn(parts) + |parts| - 1
  {
    if |parts| == 1 {
      assert PipesIn(parts[1..]) == 0;
    } else {
      PipesOfJoin(parts[1..]);
      PipesConcat(parts[0] + "|", Join(parts[1..], '|'));
      PipesConcat(parts[0], "|");
      assert Keep(IsPipe, "|") == "|" by {
        assert "|"[..0] == "";
      }
    }
  }

  lemma {:induction false} PipesInNone(parts: seq<string>)
    ensures PipesIn(parts) == 0 <==> NoneHas('|', parts)
  {
    if parts == [] {
    } else {
      PipesInNone(parts[1..]);
      assert parts == [parts[0]] + parts[1..];
    }
  }

  /** A key of pipe-free fields cannot be read with a pipe in any field. */
  lemma PipeFreeParts(p: seq<string>, q: seq<string>)
    requires |p| == |q| > 0 && Join(p, '|') == Join(q, '|') && NoneHas('|', p)
    ensures NoneHas('|', q)
  {
    PipesOfJoin(p);
    PipesOfJoin(q);
    PipesInNone(p);
    PipesInNone(q);
  }

  // ---- what a pipe-free key says of its input ----

  function FilterFront(w: Filters.FlightFilters): (s: string) {
    Join(FilterParts(w)[..10], ',') + ","
  }

  lemma FilterTextEnds(w: Filters.FlightFilters)
    ensures FormatFilters(w) == FilterFront(w) + AirlinesText(w.airlines)
  {
    var p := FilterParts(w);
    assert p == p[..10] + [AirlinesText(w.airlines)];
    JoinConcat(p[..10], [AirlinesText(w.airlines)], ',');
  }

  lemma FrontIsPipeFree(w: Filters.FlightFilters)
    ensures '|' !in FilterFront(w)
  {
    var p := FilterParts(w)[..10];
    forall i | 0 <= i < 10
      ensures '|' !in p[i]
    {
      if i < 6 {
        assert p[i] == FormatOptionalInt(Bounds(w)[i]);
        OptionalIntChars(Bounds(w)[i]);
      } else {
        assert p[i] == FormatOptionalTime(TimeBounds(w)[i - 6]);
        OptionalTimeChars(TimeBounds(w)[i - 6]);
      }
    }
    JoinKeepsOut(p, ',', '|');
  }

  lemma AirlinesPipeFreeIff(values: seq<string>)
    ensures '|' !in AirlinesText(values) <==> NoneHas('|', values) && |CleanNames(values)| <= 1
  {
    var names := SortedNames(values);
    NamesAreNonBlank(values);
    if names != [] {
      PipesOfJoin(names);
      PipesInNone(names);
    }
    if NoneHas('|', names) {
      forall v | v in values
        ensures '|' !in v
      {
        if '|' in v {
          TrimKeepsPipe(v);
          CaseKeepsPipes(TrimSpace(v));
          assert ToLower(TrimSpace(v)) in Filters.NormalSet(values);
          NamesAreNormal(values);
        }
      }
    }
  }

  lemma FilterTextPipeFreeIff(w: Filters.FlightFilters)
    ensures '|' !in FormatFilters(w) <==> NoneHas('|', w.airlines) && |CleanNames(w.airlines)| <= 1
  {
    FilterTextEnds(w);
    FrontIsPipeFree(w);
    AirlinesPipeFreeIff(w.airlines);
  }

  lemma DatesArePipeFree(x: FlightsInput)
    ensures '|' !in FormatDate(x.departureDate) && '|' !in FormatOptionalDate(x.returnDate)
  {
    DateTextChars(DateOf(x.departureDate));
    if x.returnDate.Some? {
      DateTextChars(DateOf(x.returnDate.value));
    }
  }

  lemma KeyPipeFreeIff(x: FlightsInput)
    ensures NoneHas('|', KeyParts(x)) <==> Unambiguous(x)
  {
    var p := KeyParts(x);
    FilterTextPipeFreeIff(x.filters);
    CaseKeepsPipes(x.origin);
    CaseKeepsPipes(x.destination);
    CaseKeepsPipes(x.cabinClass);
    CaseKeepsPipes(x.sort.field);
    CaseKeepsPipes(x.sort.order);
    DatesArePipeFree(x);
    NineHaveNone(p);
  }

  lemma NineHaveNone(p: seq<string>)
    requires |p| == 9
    ensures NoneHas('|', p) <==>
              && '|' !in p[0] && '|' !in p[1] && '|' !in p[2] && '|' !in p[3] && '|' !in p[4]
              && '|' !in p[5] && '|' !in p[6] && '|' !in p[7] && '|' !in p[8]
  {
    assert p == [p[0], p[1], p[2], p[3], p[4], p[5], p[6], p[7], p[8]];
  }

  /** The key of an unambiguous input belongs to that query only, whatever text the other input holds. */
  lemma UnambiguousKey(x: FlightsInput, y: FlightsInput)
    requires Unambiguous(x)
    ensures BuildCacheKey(y) == BuildCacheKey(x) <==> Canon(y) == Canon(x)
    ensures BuildCacheKey(y) == BuildCacheKey(x) ==> Unambiguous(y)
  {
    if BuildCacheKey(y) == BuildCacheKey(x) {
      KeyPipeFreeIff(x);
      PipeFreeParts(KeyParts(x), KeyParts(y));
      KeyPipeFreeIff(y);
      KeyIsCanonical(y, x);
    }
    if Canon(y) == Canon(x) {
      CanonFixesKey(y, x);
    }
  }

  // ---- a second reading ----

  /** A separator moves from one field into the next. */
  lemma SeparatorMoves(p: seq<string>, q: seq<string>, i: nat, a: string, b: string, c: string)
    requires |p| == |q| && i + 1 < |p| && p[..i] == q[..i] && p[i + 2..] == q[i + 2..]
    requires p[i] == a + "|" + b && p[i + 1] == c
    requires q[i] == a && q[i + 1] == b + "|" + c
    ensures Join(p, '|') == Join(q, '|')
  {
    PairJoins(a, b, c);
    JoinReplaced(p[..i], [p[i], p[i + 1]], [q[i], q[i + 1]], p[i + 2..], '|');
    CutAround(p, i);
    CutAround(q, i);
  }

  lemma PairJoins(a: string, b: string, c: string)
    ensures Join([a + "|" + b, c], '|') == Join([a, b + "|" + c], '|')
  {
    JoinTwo(a + "|" + b, c);
    JoinTwo(a, b + "|" + c);
  }

  lemma CutAround(p: seq<string>, i: nat)
    requires i + 1 < |p|
    ensures p == p[..i] + [p[i], p[i + 1]] + p[i + 2..]
  {
  }

  lemma JoinTwo(a: string, b: string)
    ensures Join([a, b], '|') == a + "|" + b
  {
    assert [a, b][1..] == [b];
  }

  lemma CutAtPipe(s: string) returns (a: string, b: string)
    requires '|' in s
    ensures s == a + "|" + b && |a| < |s| && |b| < |s|
  {
    var i :| 0 <= i < |s| && s[i] == '|';
    a, b := s[..i], s[i + 1..];
  }

  lemma UpperOfThree(a: string, b: string)
    ensures ToUpper(a + "|" + b) == ToUpper(a) + "|" + ToUpper(b)
    ensures ToLower(a + "|" + b) == ToLower(a) + "|" + ToLower(b)
  {
    UpperConcat(a + "|", b);
    UpperConcat(a, "|");
    LowerConcat(a + "|", b);
    LowerConcat(a, "|");
    assert ToUpper("|") == "|" && ToLower("|") == "|";
  }

  lemma RouteKeys(x: FlightsInput, y: FlightsInput, a: string, b: string, c: string)
    requires y == x.(origin := y.origin, destination := y.destination)
    requires x.origin == a + "|" + b && x.destination == c && y.origin == a && y.destination == b + "|" + c
    ensures BuildCacheKey(y) == BuildCacheKey(x)
  {
    var p, q := KeyParts(x), KeyParts(y);
    assert p[0] == ToUpper(a) + "|" + ToUpper(b) && q[0] == ToUpper(a) by {
      UpperOfThree(a, b);
    }
    assert p[1] == ToUpper(c) && q[1] == ToUpper(b) + "|" + ToUpper(c) by {
      UpperOfThree(b, c);
    }
    assert p[..0] == q[..0] && p[2..] == q[2..];
    SeparatorMoves(p, q, 0, ToUpper(a), ToUpper(b), ToUpper(c));
  }

  lemma RouteTwin(x: FlightsInput) returns (y: FlightsInput)
    requires '|' in x.origin || '|' in x.destination
    ensures BuildCacheKey(y) == BuildCacheKey(x) && Canon(y) != Canon(x)
  {
    if '|' in x.origin {
      var a, b := CutAtPipe(x.origin);
      y := x.(origin := a, destination := b + "|" + x.destination);
      RouteKeys(x, y, a, b, x.destination);
    } else {
      var a, b := CutAtPipe(x.destination);
      y := x.(origin := x.origin + "|" + a, destination := b);
      RouteKeys(y, x, x.origin, a, b);
    }
    assert |ToUpper(y.origin)| != |ToUpper(x.origin)|;
  }

  lemma SortTwin(x: FlightsInput) returns (y: FlightsInput)
    requires '|' in x.sort.field || '|' in x.sort.order
    ensures BuildCacheKey(y) == BuildCacheKey(x) && Canon(y) != Canon(x)
  {
    var field, order := x.sort.field, x.sort.order;
    if '|' in field {
      var a, b := CutAtPipe(field);
      y := x.(sort := x.sort.(field := a, order := b + "|" + order));
      UpperOfThree(a, b);
      UpperOfThree(b, order);
      assert KeyParts(x)[..7] == KeyParts(y)[..7];
      SeparatorMoves(KeyParts(x), KeyParts(y), 7, ToLower(a), ToLower(b), ToLower(order));
      assert |ToLower(y.sort.field)| < |ToLower(field)|;
    } else {
      var a, b := CutAtPipe(order);
      y := x.(sort := x.sort.(field := field + "|" + a, order := b));
      UpperOfThree(field, a);
      UpperOfThree(a, b);
      assert KeyParts(x)[..7] == KeyParts(y)[..7];
      SeparatorMoves(KeyParts(y), KeyParts(x), 7, ToLower(field), ToLower(a), ToLower(b));
      assert |ToLower(y.sort.field)| > |ToLower(field)|;
    }
  }

  // ---- clean airline texts ----

  /** Lower case, not blank, and no white space at either end. */
  predicate CleanText(s: string) {
    s != "" && ToLower(s) == s && !IsSpace(s[0]) && !IsSpace(s[|s| - 1])
  }

  /** A clean text is the text of the list that holds it alone. */
  lemma AloneInList(s: string)
    requires CleanText(s)
    ensures SortedNames([s]) == [s] && AirlinesText([s]) == s
  {
    assert TrimLeft(s) == s && TrimRight(s) == s;
    assert MapSeq(CleanName, [s]) == [s] && [s][..0] == [];
    assert Keep(NonBlank, [s]) == [s];
  }

  lemma NameIsClean(values: seq<string>, name: string)
    requires name in SortedNames(values)
    ensures CleanText(name)
  {
    NamesAreNormal(values);
    var v :| v in values && ToLower(TrimSpace(v)) != "" && ToLower(TrimSpace(v)) == name;
    TrimEnds(v);
    LoweredIsClean(TrimSpace(v));
  }

  lemma TrimEnds(v: string)
    ensures var s := TrimSpace(v); s != "" ==> !IsSpace(s[0]) && !IsSpace(s[|s| - 1])
  {
    TrimLeftEnds(v);
    TrimRightEnds(TrimLeft(v));
  }

  lemma LoweredIsClean(s: string)
    requires s != "" && !IsSpace(s[0]) && !IsSpace(s[|s| - 1])
    ensures CleanText(ToLower(s))
  {
    LowerIdempotent(s);
  }

  lemma {:induction false} JoinIsClean(names: seq<string>)
    requires names != [] && forall i :: 0 <= i < |names| ==> CleanText(names[i])
    ensures CleanText(Join(names, '|'))
  {
    if |names| == 1 {
    } else {
      JoinIsClean(names[1..]);
      UpperOfThree(names[0], Join(names[1..], '|'));
    }
  }

  lemma AirlinesTextIsClean(values: seq<string>)
    requires CleanNames(values) != []
    ensures CleanText(AirlinesText(values))
  {
    var names := SortedNames(values);
    forall i | 0 <= i < |names|
      ensures CleanText(names[i])
    {
      assert names[i] in names;
      NameIsClean(values, names[i]);
    }
    JoinIsClean(names);
  }

  /** Where the rest of an airline text can be read as the start of the sort field. */
  predicate CutsClean(text: string, p: nat) {
    p < |text| && text[p] == '|' && (p > 0 ==> !IsSpace(text[p - 1]))
  }

  /** Cut an airline text there: the head is an airline of its own, or none, and the tail begins the sort field. */
  lemma AirlineTwin(x: FlightsInput, p: nat) returns (y: FlightsInput)
    requires CutsClean(AirlinesText(x.filters.airlines), p)
    ensures BuildCacheKey(y) == BuildCacheKey(x) && Canon(y) != Canon(x)
  {
    AirlinesTextIsClean(x.filters.airlines);
    var airlines, tail := CutText(AirlinesText(x.filters.airlines), p, x.sort.field);
    y := TailMoved(x, airlines, tail);
  }

  lemma CutText(text: string, p: nat, field: string) returns (airlines: seq<string>, tail: string)
    requires CleanText(text) && CutsClean(text, p)
    ensures text == AirlinesText(airlines) + "|" + tail
    ensures ToLower(tail + "|" + field) == tail + "|" + ToLower(field)
  {
    airlines := HeadIsAirline(text, p);
    tail := text[p + 1..];
    LowerOfTail(text, p, field);
  }

  lemma TailMoved(x: FlightsInput, airlines: seq<string>, tail: string) returns (y: FlightsInput)
    requires AirlinesText(x.filters.airlines) == AirlinesText(airlines) + "|" + tail
    requires ToLower(tail + "|" + x.sort.field) == tail + "|" + ToLower(x.sort.field)
    ensures BuildCacheKey(y) == BuildCacheKey(x) && Canon(y) != Canon(x)
  {
    y := x.(filters := x.filters.(airlines := airlines), sort := x.sort.(field := tail + "|" + x.sort.field));
    FilterTextCut(x.filters, y.filters, tail);
    TwinKeys(x, y, tail);
    assert |ToLower(y.sort.field)| > |ToLower(x.sort.field)|;
  }

  lemma FilterTextCut(v: Filters.FlightFilters, w: Filters.FlightFilters, tail: string)
    requires w == v.(airlines := w.airlines) && AirlinesText(v.airlines) == AirlinesText(w.airlines) + "|" + tail
    ensures FormatFilters(v) == FormatFilters(w) + "|" + tail
  {
    var front, head := FilterFront(v), AirlinesText(w.airlines);
    FilterTextEnds(v);
    FilterTextEnds(w);
    assert FilterParts(v)[..10] == FilterParts(w)[..10];
    assert front + (head + "|" + tail) == (front + head) + "|" + tail;
  }

  lemma HeadIsAirline(text: string, p: nat) returns (airlines: seq<string>)
    requires CleanText(text) && CutsClean(text, p)
    ensures AirlinesText(airlines) == text[..p]
  {
    if p == 0 {
      airlines := [];
      assert MapSeq(CleanName, airlines) == [];
    } else {
      airlines := [text[..p]];
      assert forall i :: 0 <= i < p ==> ToLower(text)[i] == LowerChar(text[i]);
      AloneInList(text[..p]);
    }
  }

  lemma LowerOfTail(text: string, p: nat, field: string)
    requires p < |text| && ToLower(text) == text
    ensures ToLower(text[p + 1..] + "|" + field) == text[p + 1..] + "|" + ToLower(field)
  {
    var tail := text[p + 1..];
    UpperOfThree(tail, field);
    forall i | 0 <= i < |tail|
      ensures LowerChar(tail[i]) == tail[i]
    {
      assert ToLower(text)[p + 1 + i] == LowerChar(text[p + 1 + i]);
    }
    assert ToLower(tail) == tail;
  }

  lemma TwinKeys(x: FlightsInput, y: FlightsInput, last: string)
    requires y == x.(filters := y.filters, sort := x.sort.(field := y.sort.field))
    requires FormatFilters(x.filters) == FormatFilters(y.filters) + "|" + last
    requires ToLower(y.sort.field) == last + "|" + ToLower(x.sort.field)
    ensures BuildCacheKey(y) == BuildCacheKey(x)
  {
    var p, q := KeyParts(x), KeyParts(y);
    assert p[..6] == q[..6] && p[8..] == q[8..];
    SeparatorMoves(p, q, 6, FormatFilters(y.filters), last, ToLower(x.sort.field));
  }

  /** White space never comes right before a separator. */
  predicate NoBlankBeforePipe(s: string) {
    forall p :: 0 < p < |s| && s[p] == '|' ==> !IsSpace(s[p - 1])
  }

  ghost predicate NamesCutClean(values: seq<string>) {
    forall name :: name in SortedNames(values) ==> NoBlankBeforePipe(name)
  }

  lemma SomeCleanCut(values: seq<string>) returns (p: nat)
    requires NamesCutClean(values) && '|' in AirlinesText(values)
    ensures CutsClean(AirlinesText(values), p)
  {
    var names := SortedNames(values);
    var text := AirlinesText(values);
    assert names[0] in names;
    if |names| == 1 {
      p :| 0 <= p < |text| && text[p] == '|';
    } else {
      p := |names[0]|;
      NameIsClean(values, names[0]);
      assert text[p - 1] == names[0][p - 1];
    }
  }

  /**
   With no `|` in the cabin and no blank before a `|` in an airline, an input owns its key exactly when no
   text field holds a `|` and it names at most one airline.
   */
  lemma KeyTellsIff(x: FlightsInput)
    requires '|' !in x.cabinClass && NamesCutClean(x.filters.airlines)
    ensures KeyTells(x) <==> Unambiguous(x)
  {
    AirlinesPipeFreeIff(x.filters.airlines);
    if Unambiguous(x) {
      forall y | BuildCacheKey(y) == BuildCacheKey(x)
        ensures Canon(y) == Canon(x)
      {
        UnambiguousKey(x, y);
      }
    } else if '|' in AirlinesText(x.filters.airlines) {
      var p := SomeCleanCut(x.filters.airlines);
      var y := AirlineTwin(x, p);
    } else if '|' in x.origin || '|' in x.destination {
      var y := RouteTwin(x);
    } else {
      var y := SortTwin(x);
    }
  }

  // ---- a list of airlines read as one airline ----

  /** The same input asking for one airline whose name is the whole airline text. */
  function AsOneAirline(x: FlightsInput): (y: FlightsInput) {
    x.(filters := x.filters.(airlines := [AirlinesText(x.filters.airlines)]))
  }

  lemma OneAirlineKey(x: FlightsInput)
    requires CleanNames(x.filters.airlines) != []
    ensures BuildCacheKey(AsOneAirline(x)) == BuildCacheKey(x)
    ensures SortedNames(AsOneAirline(x).filters.airlines) == [AirlinesText(x.filters.airlines)]
  {
    var y := AsOneAirline(x);
    AirlinesTextIsClean(x.filters.airlines);
    AloneInList(AirlinesText(x.filters.airlines));
    assert FilterParts(x.filters) == FilterParts(y.filters);
    assert KeyParts(x) == KeyParts(y);
  }
}
