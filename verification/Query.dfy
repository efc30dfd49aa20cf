/** The search input, the leg queries made from it, and the cache key that stands for it. */
module Query {
  import opened Seqs
  import opened Text
  import opened Decimal
  import opened Times
  import opened Entity
  import opened Filters
  import opened Ranking
  import opened StableSort

  datatype FlightsInput = FlightsInput(
    origin: string,
    destination: string,
    departureDate: Time,
    returnDate: Option<Time>,
    passengers: int,
    cabinClass: string,
    filters: FlightFilters,
    sort: SortOption)

  function OutboundQuery(x: FlightsInput): (q: LegQuery) {
    LegQuery(x.origin, x.destination, x.cabinClass, x.filters, FormatDate(x.departureDate))
  }

  function ShiftTimeDate(value: Option<Time>, date: Time): (r: Option<Time>) {
    if value.None? then None
    else Some(MakeTime(DateOf(date), SecondOfDay(value.value), value.value.off))
  }

  function ShiftFiltersDate(w: FlightFilters, date: Time): (r: FlightFilters) {
    w.(departAfter := ShiftTimeDate(w.departAfter, date),
       departBefore := ShiftTimeDate(w.departBefore, date),
       arriveAfter := ShiftTimeDate(w.arriveAfter, date),
       arriveBefore := ShiftTimeDate(w.arriveBefore, date))
  }

  function ReturnQuery(x: FlightsInput): (q: LegQuery)
    requires x.returnDate.Some?
  {
    LegQuery(x.destination, x.origin, x.cabinClass, ShiftFiltersDate(x.filters, x.returnDate.value),
             FormatDate(x.returnDate.value))
  }

  // ---- the key ----

  function FormatOptionalDate(value: Option<Time>): (s: string) {
    if value.None? then "" else FormatDate(value.value)
  }

  function FormatOptionalInt(value: Option<int>): (s: string) {
    if value.None? then "" else Itoa(value.value)
  }

  function FormatOptionalTime(value: Option<Time>): (s: string) {
    if value.None? then "" else FormatTime(value.value)
  }

  function CleanName(v: string): (r: string) {
    TrimSpace(ToLower(v))
  }

  predicate NonBlank(v: string) { v != "" }

  function CleanNames(values: seq<string>): (r: seq<string>) {
    Keep(NonBlank, MapSeq(CleanName, values))
  }

  function SortedNames(values: seq<string>): (r: seq<string>) {
    SortWith(CleanNames(values), StrLess)
  }

  function AirlinesText(values: seq<string>): (s: string) {
    Join(SortedNames(values), '|')
  }

  method FormatAirlines(values: seq<string>) returns (s: string)
    ensures s == AirlinesText(values)
  {
    if |values| == 0 {
      return "";
    }
    var clean: seq<string> := [];
    for i := 0 to |values|
      invariant clean == CleanNames(values[..i])
    {
      assert MapSeq(CleanName, values[..i + 1])[..i] == MapSeq(CleanName, values[..i]);
      var trimmed := TrimSpace(ToLower(values[i]));
      if trimmed != "" {
        clean := clean + [trimmed];
      }
    }
    assert values[..|values|] == values;
    if |clean| == 0 {
      return "";
    }
    var buffer := new string[|clean|](i requires 0 <= i < |clean| => clean[i]);
    assert buffer[..] == clean;
    SliceStable(buffer, StrLess);
    s := Join(buffer[..], '|');
  }

  function Bounds(w: FlightFilters): (r: seq<Option<int>>)
    ensures |r| == 6
  {
    [w.minPrice, w.maxPrice, w.stops, w.maxStops, w.minDuration, w.maxDuration]
  }

  function TimeBounds(w: FlightFilters): (r: seq<Option<Time>>)
    ensures |r| == 4
  {
    [w.departAfter, w.departBefore, w.arriveAfter, w.arriveBefore]
  }

  function FilterParts(w: FlightFilters): (parts: seq<string>)
    ensures |parts| == 11
  {
    MapSeq(FormatOptionalInt, Bounds(w)) + MapSeq(FormatOptionalTime, TimeBounds(w)) + [AirlinesText(w.airlines)]
  }

  function FormatFilters(w: FlightFilters): (s: string) {
    Join(FilterParts(w), ',')
  }

  function KeyParts(x: FlightsInput): (parts: seq<string>)
    ensures |parts| == 9
  {
    [ToUpper(x.origin), ToUpper(x.destination), FormatDate(x.departureDate), FormatOptionalDate(x.returnDate),
     Itoa(x.passengers), ToLower(x.cabinClass), FormatFilters(x.filters), ToLower(x.sort.field), ToLower(x.sort.order)]
  }

  function BuildCacheKey(x: FlightsInput): (key: string) {
    Join(KeyParts(x), '|')
  }

  // ---- what the key says ----

  /** An input up to letter case, padding and order of airlines, and time of day of its dates. */
  datatype Canonical = Canonical(
    origin: string,
    destination: string,
    departureDate: Date,
    returnDate: Option<Date>,
    passengers: int,
    cabinClass: string,
    bounds: seq<Option<int>>,
    times: seq<Option<Time>>,
    airlines: seq<string>,
    field: string,
    order: string)

  function DateOption(value: Option<Time>): (r: Option<Date>) {
    if value.None? then None else Some(DateOf(value.value))
  }

  function Canon(x: FlightsInput): (c: Canonical) {
    Canonical(ToUpper(x.origin), ToUpper(x.destination), DateOf(x.departureDate), DateOption(x.returnDate),
              x.passengers, ToLower(x.cabinClass), Bounds(x.filters), TimeBounds(x.filters),
              SortedNames(x.filters.airlines), ToLower(x.sort.field), ToLower(x.sort.order))
  }

  /** No text field holds the separator `|`. */
  ghost predicate SeparatorFree(x: FlightsInput) {
    && '|' !in x.origin && '|' !in x.destination && '|' !in x.cabinClass
    && '|' !in x.sort.field && '|' !in x.sort.order
    && NoneHas('|', x.filters.airlines)
  }

  lemma OptionalDateInjective(a: Option<Time>, b: Option<Time>)
    requires FormatOptionalDate(a) == FormatOptionalDate(b)
    ensures DateOption(a) == DateOption(b)
  {
    if a.Some? && b.Some? {
      FormatDateInjective(a.value, b.value);
    }
  }

  lemma OptionalIntInjective(a: Option<int>, b: Option<int>)
    requires FormatOptionalInt(a) == FormatOptionalInt(b)
    ensures a == b
  {
    if a.Some? && b.Some? {
      ItoaInjective(a.value, b.value);
    }
  }

  lemma OptionalTimeInjective(a: Option<Time>, b: Option<Time>)
    requires FormatOptionalTime(a) == FormatOptionalTime(b)
    ensures a == b
  {
    if a.Some? && b.Some? {
      FormatTimeInjective(a.value, b.value);
    }
  }

  lemma OptionalIntChars(v: Option<int>)
    ensures ',' !in FormatOptionalInt(v) && '|' !in FormatOptionalInt(v)
  {
  }

  lemma OptionalTimeChars(v: Option<Time>)
    ensures ',' !in FormatOptionalTime(v) && '|' !in FormatOptionalTime(v)
  {
    if v.Some? {
      FormatTimeChars(v.value);
    }
  }

  lemma CommaFree(w: FlightFilters)
    ensures NoneHas(',', FilterParts(w)[..10])
  {
    var a, b := MapSeq(FormatOptionalInt, Bounds(w)), MapSeq(FormatOptionalTime, TimeBounds(w));
    assert FilterParts(w)[..10] == a + b;
    forall i | 0 <= i < 6
      ensures ',' !in a[i]
    {
      OptionalIntChars(Bounds(w)[i]);
    }
    forall i | 0 <= i < 4
      ensures ',' !in b[i]
    {
      OptionalTimeChars(TimeBounds(w)[i]);
    }
  }

  lemma CleanedNames(values: seq<string>)
    ensures forall c :: c in MapSeq(CleanName, values) <==> exists v :: v in values && ToLower(TrimSpace(v)) == c
  {
    var cleaned := MapSeq(CleanName, values);
    forall v | v in values
      ensures ToLower(TrimSpace(v)) in cleaned
    {
      var i :| 0 <= i < |values| && values[i] == v;
      TrimLower(v);
      assert cleaned[i] == ToLower(TrimSpace(v));
    }
    forall c | c in cleaned
      ensures exists v :: v in values && ToLower(TrimSpace(v)) == c
    {
      var i :| 0 <= i < |values| && cleaned[i] == c;
      TrimLower(values[i]);
      assert values[i] in values;
    }
  }

  lemma SortedNamesAreClean(values: seq<string>, c: string)
    ensures c in SortedNames(values) <==> c in CleanNames(values)
  {
    SortContents(CleanNames(values), StrLess);
    assert c in SortedNames(values) <==> c in multiset(SortedNames(values));
    assert c in CleanNames(values) <==> c in multiset(CleanNames(values));
  }

  lemma CleanNamesAreNormal(values: seq<string>, c: string)
    ensures c in CleanNames(values) <==> c in NormalSet(values)
  {
    CleanedNames(values);
    KeepContents(NonBlank, MapSeq(CleanName, values));
  }

  lemma NamesAreNormal(values: seq<string>)
    ensures forall v :: v in SortedNames(values) <==> v in NormalSet(values)
  {
    forall c
      ensures c in SortedNames(values) <==> c in NormalSet(values)
    {
      SortedNamesAreClean(values, c);
      CleanNamesAreNormal(values, c);
    }
  }

  lemma NamesAreNonBlank(values: seq<string>)
    ensures "" !in SortedNames(values)
    ensures NoneHas('|', values) ==> NoneHas('|', SortedNames(values))
  {
    NamesAreNormal(values);
    if NoneHas('|', values) {
      forall v | v in values
        ensures '|' !in ToLower(TrimSpace(v))
      {
        TrimKeepsChars(v);
        CaseKeepsPipes(TrimSpace(v));
      }
    }
  }

  /** The filter text determines every bound and the airline text; airline names may hold commas. */
  lemma FilterTextInjective(v: FlightFilters, w: FlightFilters)
    requires FormatFilters(v) == FormatFilters(w)
    ensures Bounds(v) == Bounds(w) && TimeBounds(v) == TimeBounds(w)
    ensures AirlinesText(v.airlines) == AirlinesText(w.airlines)
  {
    var p, q := FilterParts(v), FilterParts(w);
    CommaFree(v);
    CommaFree(w);
    JoinPeel(',', p, q, 10);
    assert forall i :: 0 <= i < 10 ==> p[..10][i] == p[i] && q[..10][i] == q[i];
    forall i | 0 <= i < 6
      ensures Bounds(v)[i] == Bounds(w)[i]
    {
      assert p[i] == FormatOptionalInt(Bounds(v)[i]) && q[i] == FormatOptionalInt(Bounds(w)[i]);
      OptionalIntInjective(Bounds(v)[i], Bounds(w)[i]);
    }
    forall i | 0 <= i < 4
      ensures TimeBounds(v)[i] == TimeBounds(w)[i]
    {
      assert p[i + 6] == FormatOptionalTime(TimeBounds(v)[i]) && q[i + 6] == FormatOptionalTime(TimeBounds(w)[i]);
      OptionalTimeInjective(TimeBounds(v)[i], TimeBounds(w)[i]);
    }
    assert p[10..] == [p[10]] && q[10..] == [q[10]];
  }

  lemma SixHaveNone(sep: char, a: string, b: string, c: string, d: string, e: string, f: string)
    requires sep !in a && sep !in b && sep !in c && sep !in d && sep !in e && sep !in f
    ensures NoneHas(sep, [a, b, c, d, e, f])
  {
  }

  lemma PipeFreeFront(x: FlightsInput)
    requires SeparatorFree(x)
    ensures NoneHas('|', KeyParts(x)[..6])
    ensures '|' !in ToLower(x.sort.field) && '|' !in ToLower(x.sort.order)
  {
    CaseKeepsPipes(x.origin);
    CaseKeepsPipes(x.destination);
    CaseKeepsPipes(x.cabinClass);
    CaseKeepsPipes(x.sort.field);
    CaseKeepsPipes(x.sort.order);
    DateTextChars(DateOf(x.departureDate));
    if x.returnDate.Some? {
      DateTextChars(DateOf(x.returnDate.value));
    }
    var p := KeyParts(x);
    SixHaveNone('|', p[0], p[1], p[2], p[3], p[4], p[5]);
    assert p[..6] == [p[0], p[1], p[2], p[3], p[4], p[5]];
  }

  lemma JoinThree(p: seq<string>)
    requires |p| == 3
    ensures Join(p, '|') == p[0] + "|" + p[1] + "|" + p[2]
  {
    assert Join(p[1..], '|') == p[1] + "|" + Join(p[2..], '|');
  }

  /** Although `|` also separates airline names, the key gives back all of its nine fields. */
  lemma KeyPartsFixed(x: FlightsInput, y: FlightsInput)
    requires SeparatorFree(x) && SeparatorFree(y)
    requires BuildCacheKey(x) == BuildCacheKey(y)
    ensures KeyParts(x) == KeyParts(y)
  {
    var p, q := KeyParts(x), KeyParts(y);
    PipeFreeFront(x);
    PipeFreeFront(y);
    JoinPeel('|', p, q, 6);
    JoinThree(p[6..]);
    JoinThree(q[6..]);
    CutLast('|', p[6] + "|" + p[7], p[8], q[6] + "|" + q[7], q[8]);
    CutLast('|', p[6], p[7], q[6], q[7]);
    assert p == p[..6] + [p[6], p[7], p[8]] && q == q[..6] + [q[6], q[7], q[8]];
  }

  /** The key determines the query, and nothing else: two keys are equal exactly when the two inputs are the same query. */
  lemma KeyIsCanonical(x: FlightsInput, y: FlightsInput)
    requires SeparatorFree(x) && SeparatorFree(y)
    ensures BuildCacheKey(x) == BuildCacheKey(y) <==> Canon(x) == Canon(y)
  {
    if BuildCacheKey(x) == BuildCacheKey(y) {
      KeyPartsFixed(x, y);
      var p, q := KeyParts(x), KeyParts(y);
      assert forall i :: 0 <= i < 9 ==> p[i] == q[i];
      assert p[2] == q[2] && p[3] == q[3] && p[4] == q[4] && p[6] == q[6];
      FormatDateInjective(x.departureDate, y.departureDate);
      OptionalDateInjective(x.returnDate, y.returnDate);
      ItoaInjective(x.passengers, y.passengers);
      FilterTextInjective(x.filters, y.filters);
      NamesAreNonBlank(x.filters.airlines);
      NamesAreNonBlank(y.filters.airlines);
      JoinInjective('|', SortedNames(x.filters.airlines), SortedNames(y.filters.airlines));
    }
    if Canon(x) == Canon(y) {
      CanonFixesKey(x, y);
    }
  }

  /** The same query, field by field: letter case, times of day, and order, padding and blanks of airlines do not count. */
  ghost predicate SameQuery(x: FlightsInput, y: FlightsInput) {
    && EqualFold(x.origin, y.origin) && EqualFold(x.destination, y.destination)
    && LocalDay(x.departureDate) == LocalDay(y.departureDate)
    && (x.returnDate.Some? <==> y.returnDate.Some?)
    && (x.returnDate.Some? && y.returnDate.Some? ==> LocalDay(x.returnDate.value) == LocalDay(y.returnDate.value))
    && x.passengers == y.passengers && EqualFold(x.cabinClass, y.cabinClass)
    && x.filters == y.filters.(airlines := x.filters.airlines)
    && multiset(CleanNames(x.filters.airlines)) == multiset(CleanNames(y.filters.airlines))
    && EqualFold(x.sort.field, y.sort.field) && EqualFold(x.sort.order, y.sort.order)
  }

  lemma SortedNamesIff(a: seq<string>, b: seq<string>)
    ensures SortedNames(a) == SortedNames(b) <==> multiset(CleanNames(a)) == multiset(CleanNames(b))
  {
    SortContents(CleanNames(a), StrLess);
    SortContents(CleanNames(b), StrLess);
    if multiset(CleanNames(a)) == multiset(CleanNames(b)) {
      StrOrderTotal();
      SortInOrder(CleanNames(a), StrLess, StrAtMost);
      SortInOrder(CleanNames(b), StrLess, StrAtMost);
      OrderedUnique(StrAtMost, SortedNames(a), SortedNames(b));
    }
  }

  lemma SameDay(t: Time, u: Time)
    ensures DateOf(t) == DateOf(u) <==> LocalDay(t) == LocalDay(u)
  {
  }

  lemma CanonIff(x: FlightsInput, y: FlightsInput)
    ensures Canon(x) == Canon(y) <==> SameQuery(x, y)
  {
    SameCaseClasses(x.origin, y.origin);
    SameCaseClasses(x.destination, y.destination);
    SameDay(x.departureDate, y.departureDate);
    if x.returnDate.Some? && y.returnDate.Some? {
      SameDay(x.returnDate.value, y.returnDate.value);
    }
    SortedNamesIff(x.filters.airlines, y.filters.airlines);
    if Canon(x) == Canon(y) {
      BoundsFixFields(x.filters, y.filters);
      assert x.filters == x.filters.(airlines := []).(airlines := x.filters.airlines);
    }
  }

  /** Inputs without `|` have one key exactly when they are the same query, field by field. */
  lemma SameKeyIff(x: FlightsInput, y: FlightsInput)
    requires SeparatorFree(x) && SeparatorFree(y)
    ensures BuildCacheKey(x) == BuildCacheKey(y) <==> SameQuery(x, y)
  {
    KeyIsCanonical(x, y);
    CanonIff(x, y);
  }

  lemma CanonFixesKey(x: FlightsInput, y: FlightsInput)
    requires Canon(x) == Canon(y)
    ensures BuildCacheKey(x) == BuildCacheKey(y)
  {
    BoundsFixFields(x.filters, y.filters);
    assert FilterParts(x.filters) == FilterParts(y.filters);
    assert KeyParts(x) == KeyParts(y);
  }

  lemma BoundsFixFields(v: FlightFilters, w: FlightFilters)
    requires Bounds(v) == Bounds(w) && TimeBounds(v) == TimeBounds(w)
    ensures v.(airlines := []) == w.(airlines := [])
  {
    assert forall i :: 0 <= i < 6 ==> Bounds(v)[i] == Bounds(w)[i];
    assert forall i :: 0 <= i < 4 ==> TimeBounds(v)[i] == TimeBounds(w)[i];
    assert Bounds(v)[0] == Bounds(w)[0] && Bounds(v)[1] == Bounds(w)[1] && Bounds(v)[2] == Bounds(w)[2];
    assert Bounds(v)[3] == Bounds(w)[3] && Bounds(v)[4] == Bounds(w)[4] && Bounds(v)[5] == Bounds(w)[5];
    assert TimeBounds(v)[0] == TimeBounds(w)[0] && TimeBounds(v)[1] == TimeBounds(w)[1];
    assert TimeBounds(v)[2] == TimeBounds(w)[2] && TimeBounds(v)[3] == TimeBounds(w)[3];
  }

  /** The airline text depends only on which cleaned names occur, and how often. */
  lemma AirlinesTextIff(a: seq<string>, b: seq<string>)
    ensures multiset(CleanNames(a)) == multiset(CleanNames(b)) ==> AirlinesText(a) == AirlinesText(b)
    ensures NoneHas('|', a) && NoneHas('|', b) && AirlinesText(a) == AirlinesText(b) ==>
              multiset(CleanNames(a)) == multiset(CleanNames(b))
  {
    SortContents(CleanNames(a), StrLess);
    SortContents(CleanNames(b), StrLess);
    if multiset(CleanNames(a)) == multiset(CleanNames(b)) {
      StrOrderTotal();
      SortInOrder(CleanNames(a), StrLess, StrAtMost);
      SortInOrder(CleanNames(b), StrLess, StrAtMost);
      OrderedUnique(StrAtMost, SortedNames(a), SortedNames(b));
    }
    if NoneHas('|', a) && NoneHas('|', b) && AirlinesText(a) == AirlinesText(b) {
      NamesAreNonBlank(a);
      NamesAreNonBlank(b);
      JoinInjective('|', SortedNames(a), SortedNames(b));
    }
  }

  lemma BlanksVanish(a: seq<string>, blanks: seq<string>)
    requires forall v :: v in blanks ==> AllSpace(v)
    ensures CleanNames(a + blanks) == CleanNames(a)
  {
    var c := MapSeq(CleanName, blanks);
    forall i | 0 <= i < |blanks|
      ensures !NonBlank(c[i])
    {
      assert blanks[i] in blanks;
      BlankCleans(blanks[i]);
    }
    assert MapSeq(CleanName, a + blanks) == MapSeq(CleanName, a) + c;
    KeepConcat(NonBlank, MapSeq(CleanName, a), c);
    KeepNone(NonBlank, c);
  }

  /** Reordering airlines, and adding blank ones anywhere, leaves the text unchanged. */
  lemma AirlinesReordered(a: seq<string>, b: seq<string>, blanks: seq<string>)
    requires multiset(b) == multiset(a + blanks)
    requires forall v :: v in blanks ==> AllSpace(v)
    ensures AirlinesText(a) == AirlinesText(b)
  {
    MapPermuted(CleanName, b, a + blanks);
    KeepPermuted(NonBlank, MapSeq(CleanName, b), MapSeq(CleanName, a + blanks));
    BlanksVanish(a, blanks);
    AirlinesTextIff(a, b);
  }

  lemma BlankCleans(v: string)
    requires AllSpace(v)
    ensures CleanName(v) == ""
  {
    assert ToLower(v) == v + "";
    TrimLeftPadded(v, "");
  }

  /** Letter case and padding of an airline name leave its cleaned form unchanged. */
  lemma NameRewritten(v: string, w: string, left: string, right: string)
    requires EqualFold(v, w) && AllSpace(left) && AllSpace(right)
    ensures CleanName(left + w + right) == CleanName(v)
  {
    assert ToLower(left + w + right) == left + ToLower(w) + right;
    TrimPadded(left, ToLower(w), right);
  }

  // ---- equal keys, equal behaviour ----

  lemma SameNormalSets(x: FlightsInput, y: FlightsInput)
    requires Canon(x) == Canon(y)
    ensures NormalSet(x.filters.airlines) == NormalSet(y.filters.airlines)
  {
    NamesAreNormal(x.filters.airlines);
    NamesAreNormal(y.filters.airlines);
    assert forall v :: v in NormalSet(x.filters.airlines) <==> v in NormalSet(y.filters.airlines);
  }

  predicate SameTests(q: LegQuery, r: LegQuery) {
    && EqualFold(q.origin, r.origin) && EqualFold(q.destination, r.destination)
    && EqualFold(q.cabinClass, r.cabinClass) && q.criteriaDate == r.criteriaDate
    && q.filters.(airlines := []) == r.filters.(airlines := [])
    && NormalSet(q.filters.airlines) == NormalSet(r.filters.airlines)
  }

  lemma SameTestsAcceptAlike(q: LegQuery, r: LegQuery, f: Flight)
    requires SameTests(q, r)
    ensures Accepts(q, f) == Accepts(r, f)
  {
    assert |q.cabinClass| == |ToLower(q.cabinClass)| == |ToLower(r.cabinClass)| == |r.cabinClass|;
    MatchesAlike(q.filters, r.filters, f);
  }

  lemma MatchesAlike(v: FlightFilters, w: FlightFilters, f: Flight)
    requires v.(airlines := []) == w.(airlines := [])
    ensures MatchPriceFilter(f, v) == MatchPriceFilter(f, w)
    ensures MatchStopsFilter(f, v) == MatchStopsFilter(f, w)
    ensures MatchDurationFilter(f, v) == MatchDurationFilter(f, w)
    ensures MatchTimeFilter(f, v) == MatchTimeFilter(f, w)
  {
    assert v == v.(airlines := []).(airlines := v.airlines) && w == v.(airlines := w.airlines);
  }

  /** Inputs that are one query ask both legs the same questions and sort by the same comparator. */
  lemma SameQueryAsksAlike(x: FlightsInput, y: FlightsInput)
    requires Canon(x) == Canon(y)
    ensures SameTests(OutboundQuery(x), OutboundQuery(y))
    ensures x.returnDate.Some? <==> y.returnDate.Some?
    ensures x.returnDate.Some? ==> SameTests(ReturnQuery(x), ReturnQuery(y))
    ensures FieldOf(x.sort) == FieldOf(y.sort) && (Descending(x.sort) <==> Descending(y.sort))
  {
    SameCaseClasses(x.origin, y.origin);
    SameCaseClasses(x.destination, y.destination);
    SameNormalSets(x, y);
    BoundsFixFields(x.filters, y.filters);
    if x.returnDate.Some? {
      ShiftedAlike(x.filters, y.filters, x.returnDate.value, y.returnDate.value);
    }
  }

  /** The same of inputs with one key. */
  lemma EqualKeysAskAlike(x: FlightsInput, y: FlightsInput)
    requires SeparatorFree(x) && SeparatorFree(y) && BuildCacheKey(x) == BuildCacheKey(y)
    ensures SameTests(OutboundQuery(x), OutboundQuery(y))
    ensures x.returnDate.Some? <==> y.returnDate.Some?
    ensures x.returnDate.Some? ==> SameTests(ReturnQuery(x), ReturnQuery(y))
    ensures FieldOf(x.sort) == FieldOf(y.sort) && (Descending(x.sort) <==> Descending(y.sort))
  {
    KeyIsCanonical(x, y);
    SameQueryAsksAlike(x, y);
  }

  lemma ShiftedAlike(v: FlightFilters, w: FlightFilters, d: Time, e: Time)
    requires v.(airlines := []) == w.(airlines := []) && DateOf(d) == DateOf(e)
    ensures ShiftFiltersDate(v, d).(airlines := []) == ShiftFiltersDate(w, e).(airlines := [])
    ensures ShiftFiltersDate(v, d).airlines == v.airlines && ShiftFiltersDate(w, e).airlines == w.airlines
  {
    assert w == v.(airlines := w.airlines);
  }

  /** A shifted bound falls on the return date, at the bound's own time of day and zone; on its own date it stays put. */
  lemma ShiftedBound(value: Time, date: Time)
    ensures var t := ShiftTimeDate(Some(value), date);
      t.Some? && LocalDay(t.value) == LocalDay(date) && SecondOfDay(t.value) == SecondOfDay(value) && t.value.off == value.off
    ensures LocalDay(date) == LocalDay(value) ==> ShiftTimeDate(Some(value), date) == Some(value)
  {
  }

  /**
   What a shifted bound means for a time in any zone: read in the bound's zone, the time is after the
   bound when it falls on a later day than the return date, or on that day at a later time of day.
   Arrival bounds move to the return date too, so an arrival after that day is always after them.
   */
  lemma ReturnWindowIff(bound: Time, date: Time, t: Time)
    ensures var shifted, u := ShiftTimeDate(Some(bound), date).value, Time(t.sec, bound.off);
      && (After(t, shifted) <==>
            LocalDay(u) > LocalDay(date) || (LocalDay(u) == LocalDay(date) && SecondOfDay(u) > SecondOfDay(bound)))
      && (Before(t, shifted) <==>
            LocalDay(u) < LocalDay(date) || (LocalDay(u) == LocalDay(date) && SecondOfDay(u) < SecondOfDay(bound)))
  {
    ShiftedBound(bound, date);
  }

  // ---- what each leg asks, in the input's own terms ----

  /** What both legs ask alike: route, day, cabin, price, stops, duration and airline. */
  predicate MeetsTerms(x: FlightsInput, origin: string, destination: string, date: Time, f: Flight) {
    && EqualFold(f.departure.airport, origin) && EqualFold(f.arrival.airport, destination)
    && f.departure.time.sec != 0 && f.arrival.time.sec != 0 && f.departure.time.sec < f.arrival.time.sec
    && LocalDay(f.departure.time) == LocalDay(date)
    && (x.cabinClass == "" || EqualFold(f.cabinClass, x.cabinClass))
    && Within(x.filters.minPrice, f.price.amount, x.filters.maxPrice)
    && Within(x.filters.stops, f.stops, x.filters.stops) && Within(None, f.stops, x.filters.maxStops)
    && Within(x.filters.minDuration, f.durationMinute, x.filters.maxDuration)
    && AirlineWanted(f.airline, x.filters.airlines)
  }

  /** The outbound leg: from origin to destination on the departure date, at the instants the bounds allow. */
  predicate MeetsOutbound(x: FlightsInput, f: Flight) {
    && MeetsTerms(x, x.origin, x.destination, x.departureDate, f)
    && Within(Instant(x.filters.departAfter), f.departure.time.sec, Instant(x.filters.departBefore))
    && Within(Instant(x.filters.arriveAfter), f.arrival.time.sec, Instant(x.filters.arriveBefore))
  }

  /** In the bound's zone, `t` is on a later day than `date`, or on that day no earlier than the bound's time of day. */
  predicate NoEarlierThatDay(bound: Option<Time>, date: Time, t: Time) {
    bound.Some? ==>
      var u := Time(t.sec, bound.value.off);
      LocalDay(u) > LocalDay(date) || (LocalDay(u) == LocalDay(date) && SecondOfDay(u) >= SecondOfDay(bound.value))
  }

  predicate NoLaterThatDay(bound: Option<Time>, date: Time, t: Time) {
    bound.Some? ==>
      var u := Time(t.sec, bound.value.off);
      LocalDay(u) < LocalDay(date) || (LocalDay(u) == LocalDay(date) && SecondOfDay(u) <= SecondOfDay(bound.value))
  }

  /** The return leg: from destination to origin on the return date, with every bound's time of day on that date. */
  predicate MeetsReturn(x: FlightsInput, f: Flight)
    requires x.returnDate.Some?
  {
    var date := x.returnDate.value;
    && MeetsTerms(x, x.destination, x.origin, date, f)
    && NoEarlierThatDay(x.filters.departAfter, date, f.departure.time)
    && NoLaterThatDay(x.filters.departBefore, date, f.departure.time)
    && NoEarlierThatDay(x.filters.arriveAfter, date, f.arrival.time)
    && NoLaterThatDay(x.filters.arriveBefore, date, f.arrival.time)
  }

  lemma SameDateText(t: Time, u: Time)
    ensures FormatDate(t) == FormatDate(u) <==> LocalDay(t) == LocalDay(u)
  {
    if FormatDate(t) == FormatDate(u) {
      FormatDateInjective(t, u);
    }
  }

  /** The outbound query wants exactly the flights that meet the input there. */
  lemma OutboundIff(x: FlightsInput, f: Flight)
    ensures Wanted(OutboundQuery(x), f) <==> MeetsOutbound(x, f)
  {
    SameDateText(f.departure.time, x.departureDate);
  }

  lemma ShiftedInstants(bound: Option<Time>, date: Time, t: Time)
    ensures Within(Instant(ShiftTimeDate(bound, date)), t.sec, None) <==> NoEarlierThatDay(bound, date, t)
    ensures Within(None, t.sec, Instant(ShiftTimeDate(bound, date))) <==> NoLaterThatDay(bound, date, t)
  {
    if bound.Some? {
      ReturnWindowIff(bound.value, date, t);
    }
  }

  /** The return query wants exactly the flights that meet the input on the way back. */
  lemma ReturnIff(x: FlightsInput, f: Flight)
    requires x.returnDate.Some?
    ensures Wanted(ReturnQuery(x), f) <==> MeetsReturn(x, f)
  {
    var w, date := x.filters, x.returnDate.value;
    SameDateText(f.departure.time, date);
    ShiftedInstants(w.departAfter, date, f.departure.time);
    ShiftedInstants(w.departBefore, date, f.departure.time);
    ShiftedInstants(w.arriveAfter, date, f.arrival.time);
    ShiftedInstants(w.arriveBefore, date, f.arrival.time);
  }

  /** A time later by date may still be before the bound: the zone of the bound decides. */
  lemma ZoneOfBoundDecides()
    ensures var date, bound, t := Time(0, 420), Time(86340 - 420 * 60, 420), Time(86400 + 1800 - 480 * 60, 480);
      LocalDay(t) == LocalDay(date) + 1 && !After(t, ShiftTimeDate(Some(bound), date).value)
  {
    ReturnWindowIff(Time(86340 - 420 * 60, 420), Time(0, 420), Time(86400 + 1800 - 480 * 60, 480));
  }
}
