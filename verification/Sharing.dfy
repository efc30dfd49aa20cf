/** What a shared cache key leads to: exactly which inputs are always answered as recomputation would answer them. */
module Sharing {
  import opened Seqs
  import opened Text
  import opened Entity
  import opened Filters
  import opened Query
  import opened Search
  import opened KeyTwins
  import opened Service
  import TtlMap

  function OneProvider(f: Flight): (world: World)
    ensures forall r :: world(r) == [ProviderResult(f.provider, Found([f]))]
  {
    r => [ProviderResult(f.provider, Found([f]))]
  }

  lemma OneProviderFits(f: Flight)
    ensures CaseBlind(OneProvider(f)) && Attributed([f.provider], OneProvider(f))
  {
    forall r
      ensures InProviderOrder([f.provider], OneProvider(f)(r)) && OwnFlights(OneProvider(f)(r))
    {
    }
  }

  lemma OnlyOffer(f: Flight, arrived: seq<ProviderResult>, g: Flight)
    requires multiset(arrived) == multiset([ProviderResult(f.provider, Found([f]))])
    ensures Offered(arrived, g) <==> g == f
  {
    var x := ProviderResult(f.provider, Found([f]));
    assert forall y :: y in arrived <==> y in multiset(arrived);
    assert x in multiset([x]);
  }

  /** When one input wants the only flight there is and another does not, their answers are not equivalent. */
  lemma AnswersDiffer(x: FlightsInput, y: FlightsInput, f: Flight, s: Schedule, t: Schedule, elapsed: int, elapsed': int)
    requires Wanted(OutboundQuery(x), NormalizeDuration(f)) && !Wanted(OutboundQuery(y), NormalizeDuration(f))
    requires Feasible(x, OneProvider(f), s) && Feasible(y, OneProvider(f), t)
    ensures !Equivalent(x.sort, Compute(x, [f.provider], OneProvider(f), s, elapsed),
                                Compute(y, [f.provider], OneProvider(f), t, elapsed'))
  {
    var a := Ranked(OutboundQuery(x), x.sort, s.outbound, s.outboundWalk);
    var b := Ranked(OutboundQuery(y), y.sort, t.outbound, t.outboundWalk);
    OnlyOffer(f, s.outbound, f);
    var g := WantedIsListed(OutboundQuery(x), x.sort, s.outbound, s.outboundWalk, f);
    if multiset(a) == multiset(b) {
      assert g in multiset(b);
      var h := ListedIsWanted(OutboundQuery(y), y.sort, t.outbound, t.outboundWalk, g);
      OnlyOffer(f, t.outbound, h);
    }
  }

  lemma StoredOnMiss(names: seq<string>, world: World, ttl: int, m: TtlMap.Entries<Output>, c: Call, v: Output)
    requires Admissible(world, c) && v == Compute(c.input, names, world, c.schedule, c.elapsed)
    requires BuildCacheKey(c.input) !in m
    ensures Serve(names, world, ttl, m, c).1 == m[BuildCacheKey(c.input) := TtlMap.Slot(v, c.stored + ttl)]
  {
    TtlMap.SetOnMiss(m, BuildCacheKey(c.input), c.probed, v, c.stored, ttl);
    ServedByComputing(names, world, ttl, m, c, v);
  }

  lemma AfterOneCall(names: seq<string>, world: World, ttl: int, m: TtlMap.Entries<Output>, c: Call)
    requires Admissible(world, c) && m == EntriesAfter(names, world, ttl, [])
    ensures AllAdmissible(world, [c])
    ensures EntriesAfter(names, world, ttl, [c]) == Serve(names, world, ttl, m, c).1
  {
    var calls := [c];
    assert calls[..|calls| - 1] == [] && calls[|calls| - 1] == c;
  }

  /** The i-th answer of a sequence of calls. */
  ghost function AnswerTo(names: seq<string>, world: World, ttl: int, calls: seq<Call>, i: int): (v: Output)
    requires AllAdmissible(world, calls) && 0 <= i < |calls|
  {
    Serve(names, world, ttl, EntriesAfter(names, world, ttl, calls[..i]), calls[i]).0
  }

  /** It is what computing it under schedule `t` would give. */
  ghost predicate AnsweredAsComputed(
      names: seq<string>, world: World, ttl: int, calls: seq<Call>, i: int, t: Schedule, elapsed: int)
    requires AllAdmissible(world, calls) && 0 <= i < |calls| && Feasible(calls[i].input, world, t)
  {
    Equivalent(calls[i].input.sort,
               Compute(calls[i].input, names, world, t, elapsed), AnswerTo(names, world, ttl, calls, i))
  }

  /** The second of two calls is not answered as computing it would answer. */
  ghost predicate Misled(names: seq<string>, world: World, ttl: int, calls: seq<Call>) {
    && |calls| == 2 && AllAdmissible(world, calls)
    && !AnsweredAsComputed(names, world, ttl, calls, 1, calls[1].schedule, 0)
  }

  /** A call right after another with its key, when the cache was empty, gets what that one computed. */
  lemma SecondIsHit(names: seq<string>, world: World, ttl: nat, c: Call, d: Call, v: Output)
    requires Admissible(world, c) && Admissible(world, d) && BuildCacheKey(c.input) == BuildCacheKey(d.input)
    requires v == Compute(c.input, names, world, c.schedule, c.elapsed) && d.probed == c.stored
    ensures AllAdmissible(world, [c])
    ensures Serve(names, world, ttl, EntriesAfter(names, world, ttl, [c]), d).0 == MarkHit(v, d.elapsed)
  {
    var none := EntriesAfter(names, world, ttl, []);
    AfterOneCall(names, world, ttl, none, c);
    StoredOnMiss(names, world, ttl, none, c, v);
    ServedFromCache(names, world, ttl, EntriesAfter(names, world, ttl, [c]), d, v);
  }

  lemma AnswerOfTwo(names: seq<string>, world: World, ttl: nat, calls: seq<Call>, v: Output)
    requires |calls| == 2 && AllAdmissible(world, calls)
    requires BuildCacheKey(calls[0].input) == BuildCacheKey(calls[1].input) && calls[1].probed == calls[0].stored
    requires v == Compute(calls[0].input, names, world, calls[0].schedule, calls[0].elapsed)
    ensures AnswerTo(names, world, ttl, calls, 1) == MarkHit(v, calls[1].elapsed)
  {
    assert Admissible(world, calls[0]) && Admissible(world, calls[1]);
    assert calls[..1] == [calls[0]];
    SecondIsHit(names, world, ttl, calls[0], calls[1], v);
  }

  /** Two calls with one key that ought to be answered differently. */
  lemma WrongAnswerMisleads(names: seq<string>, world: World, ttl: nat, calls: seq<Call>)
    requires |calls| == 2 && AllAdmissible(world, calls)
    requires BuildCacheKey(calls[0].input) == BuildCacheKey(calls[1].input) && calls[1].probed == calls[0].stored
    requires Differ(names, world, calls[1], calls[0])
    ensures Misled(names, world, ttl, calls)
  {
    AnswerOfTwo(names, world, ttl, calls, Compute(calls[0].input, names, world, calls[0].schedule, calls[0].elapsed));
  }

  ghost predicate Differ(names: seq<string>, world: World, c: Call, d: Call) {
    && Admissible(world, c) && Admissible(world, d)
    && !Equivalent(c.input.sort, Compute(c.input, names, world, c.schedule, 0),
                   MarkHit(Compute(d.input, names, world, d.schedule, d.elapsed), c.elapsed))
  }

  lemma CallsDiffer(f: Flight, c: Call, d: Call)
    requires Wanted(OutboundQuery(c.input), NormalizeDuration(f)) && !Wanted(OutboundQuery(d.input), NormalizeDuration(f))
    requires Admissible(OneProvider(f), c) && Admissible(OneProvider(f), d)
    ensures Differ([f.provider], OneProvider(f), c, d)
  {
    AnswersDiffer(c.input, d.input, f, c.schedule, d.schedule, 0, d.elapsed);
  }

  lemma SomeCall(x: FlightsInput, world: World) returns (c: Call)
    ensures Admissible(world, c) && c.input == x && c.probed == 0 && c.stored == 0
  {
    var s := SomeSchedule(x, world);
    c := Call(x, s, 0, 0, 0);
  }

  lemma BothAdmissible(world: World, c: Call, d: Call)
    requires Admissible(world, c) && Admissible(world, d)
    ensures AllAdmissible(world, [c, d])
  {
  }

  /**
   When another query shares the key and the two disagree on some outbound flight, there are providers and
   two calls for which the second is answered with what it did not ask for.
   */
  lemma SharedKeyMisleads(x: FlightsInput, y: FlightsInput, f: Flight, ttl: nat)
    returns (world: World, calls: seq<Call>)
    requires BuildCacheKey(x) == BuildCacheKey(y)
    requires Wanted(OutboundQuery(x), NormalizeDuration(f)) && !Wanted(OutboundQuery(y), NormalizeDuration(f))
    ensures CaseBlind(world) && Attributed([f.provider], world)
    ensures |calls| == 2 && calls[0].input == y && calls[1].input == x && Misled([f.provider], world, ttl, calls)
  {
    world := OneProvider(f);
    OneProviderFits(f);
    var c := SomeCall(y, world);
    var d := SomeCall(x, world);
    CallsDiffer(f, d, c);
    calls := [c, d];
    BothAdmissible(world, c, d);
    WrongAnswerMisleads([f.provider], world, ttl, calls);
  }

  // ---- two or more airlines ----

  function FlownBy(w: Flight, name: string): (f: Flight) {
    w.(airline := Airline(name, ""))
  }

  /** A flight of the first airline of the list is wanted as much as the flight it is made from. */
  lemma FirstAirlineWanted(q: LegQuery, w: Flight)
    requires Wanted(q, NormalizeDuration(w)) && SortedNames(q.filters.airlines) != []
    ensures Wanted(q, NormalizeDuration(FlownBy(w, SortedNames(q.filters.airlines)[0])))
  {
    var name := SortedNames(q.filters.airlines)[0];
    assert name in SortedNames(q.filters.airlines);
    NamesAreNormal(q.filters.airlines);
    NameIsClean(q.filters.airlines, name);
    NamedIff(name, q.filters.airlines);
  }

  /** It is not wanted by a query for the one airline whose name is the whole list. */
  lemma OneAirlineRefuses(q: LegQuery, w: Flight, name: string, text: string)
    requires q.filters.airlines == [text] && CleanText(text) && ToLower(name) != text
    ensures !Wanted(q, NormalizeDuration(FlownBy(w, name)))
  {
    OneAirlineNames(name, text);
  }

  lemma OneAirlineNames(name: string, text: string)
    requires CleanText(text) && ToLower(name) != text
    ensures !AirlineWanted(Airline(name, ""), [text])
  {
    AloneInList(text);
    NamesAreNormal([text]);
    assert text in SortedNames([text]);
    NamedIff(name, [text]);
    NamedIff("", [text]);
  }

  lemma FirstIsShorter(values: seq<string>)
    requires |CleanNames(values)| >= 2
    ensures ToLower(SortedNames(values)[0]) != AirlinesText(values)
  {
    var names := SortedNames(values);
    assert |AirlinesText(values)| > |names[0]| == |ToLower(names[0])|;
  }

  /**
   Two or more airlines: for every such input that some flight meets there are another input with its key,
   providers and two calls for which the second is answered with what it did not ask for.
   */
  lemma AirlinesMislead(x: FlightsInput, w: Flight, ttl: nat)
    returns (names: seq<string>, world: World, calls: seq<Call>)
    requires |CleanNames(x.filters.airlines)| >= 2 && Wanted(OutboundQuery(x), NormalizeDuration(w))
    ensures CaseBlind(world) && Attributed(names, world)
    ensures Misled(names, world, ttl, calls) && calls[1].input == x
  {
    var name, text := SortedNames(x.filters.airlines)[0], AirlinesText(x.filters.airlines);
    OneAirlineKey(x);
    AirlinesTextIsClean(x.filters.airlines);
    FirstIsShorter(x.filters.airlines);
    FirstAirlineWanted(OutboundQuery(x), w);
    OneAirlineRefuses(OutboundQuery(AsOneAirline(x)), w, name, text);
    world, calls := SharedKeyMisleads(x, AsOneAirline(x), FlownBy(w, name), ttl);
    names := [w.provider];
  }

  /** An input that sets no bounds is met by some flight, whatever airlines it names. */
  lemma SomeFlightMeets(x: FlightsInput) returns (w: Flight)
    requires x.filters == NoBounds(x.filters.airlines)
    requires x.departureDate.sec > 0
    ensures Wanted(OutboundQuery(x), NormalizeDuration(w))
  {
    var names := SortedNames(x.filters.airlines);
    w := FlownBy(HourLong(x), "");
    assert NormalizeDuration(w) == w;
    if names == [] {
      NoNamesNoTest(x.filters.airlines);
    } else {
      w := FlownBy(w, names[0]);
      assert names[0] in names;
      NamesAreNormal(x.filters.airlines);
      NameIsClean(x.filters.airlines, names[0]);
      NamedIff(names[0], x.filters.airlines);
    }
  }

  lemma NoNamesNoTest(values: seq<string>)
    requires SortedNames(values) == []
    ensures AirlineWanted(Airline("", ""), values)
  {
    NamesAreNormal(values);
    assert forall v :: v !in NormalSet(values);
    NamedIff("", values);
  }

  function NoBounds(airlines: seq<string>): (w: FlightFilters) {
    FlightFilters(None, None, None, None, None, None, airlines, None, None, None, None)
  }

  function HourLong(x: FlightsInput): (w: Flight) {
    var start := x.departureDate;
    Flight("", "P", Airline("", ""), "1", FlightPoint(x.origin, "", start),
           FlightPoint(x.destination, "", start.(sec := start.sec + 3600)), 60, 0, Price(0, ""), 0,
           x.cabinClass, None, [], Baggage("", ""), 0.0)
  }

  // ---- the exact condition ----

  /** Whatever the providers, the other callers and the schedules. */
  ghost predicate AlwaysAnsweredAsComputed(x: FlightsInput) {
    forall names, world, ttl, calls: seq<Call>, i, t, elapsed ::
      && CaseBlind(world) && Attributed(names, world) && AllAdmissible(world, calls)
      && 0 <= i < |calls| && calls[i].input == x && Feasible(x, world, t)
      ==> AnsweredAsComputed(names, world, ttl, calls, i, t, elapsed)
  }

  lemma MisledIsNotComputed(x: FlightsInput, names: seq<string>, world: World, ttl: int, calls: seq<Call>)
    requires CaseBlind(world) && Attributed(names, world) && Misled(names, world, ttl, calls) && calls[1].input == x
    ensures !AlwaysAnsweredAsComputed(x)
  {
    assert Admissible(world, calls[1]);
  }

  /**
   An input with no `|` that some flight meets is answered as recomputation would answer it, in every sequence
   of calls over all providers, exactly when it names at most one airline.
   */
  lemma TransparentIff(x: FlightsInput, w: Flight)
    requires SeparatorFree(x) && Wanted(OutboundQuery(x), NormalizeDuration(w))
    ensures AlwaysAnsweredAsComputed(x) <==> |CleanNames(x.filters.airlines)| <= 1
  {
    if |CleanNames(x.filters.airlines)| <= 1 {
      forall names, world, ttl, calls: seq<Call>, i, t, elapsed |
        && CaseBlind(world) && Attributed(names, world) && AllAdmissible(world, calls)
        && 0 <= i < |calls| && calls[i].input == x && Feasible(x, world, t)
        ensures AnsweredAsComputed(names, world, ttl, calls, i, t, elapsed)
      {
        CacheIsTransparent(names, world, ttl, calls, i, t, elapsed);
      }
    } else {
      var names, world, calls := AirlinesMislead(x, w, 0);
      MisledIsNotComputed(x, names, world, 0, calls);
    }
  }
}
