/** Which offers a search leg accepts, and the durations recomputed from timestamps. */
module Filters {
  import opened Seqs
  import opened Text
  import opened Decimal
  import opened Times
  import opened Entity
  import opened Dedup

  datatype FlightFilters = FlightFilters(
    minPrice: Option<int>,
    maxPrice: Option<int>,
    stops: Option<int>,
    maxStops: Option<int>,
    minDuration: Option<int>,
    maxDuration: Option<int>,
    airlines: seq<string>,
    departAfter: Option<Time>,
    departBefore: Option<Time>,
    arriveAfter: Option<Time>,
    arriveBefore: Option<Time>)

  /** What one leg of a search asks of a flight. */
  datatype LegQuery = LegQuery(
    origin: string,
    destination: string,
    cabinClass: string,
    filters: FlightFilters,
    criteriaDate: string)

  predicate MatchFlightCriteria(f: Flight, q: LegQuery) {
    && EqualFold(f.departure.airport, q.origin)
    && EqualFold(f.arrival.airport, q.destination)
    && !(IsZero(f.departure.time) || IsZero(f.arrival.time))
    && After(f.arrival.time, f.departure.time)
    && FormatDate(f.departure.time) == q.criteriaDate
    && !(q.cabinClass != "" && !EqualFold(f.cabinClass, q.cabinClass))
  }

  predicate MatchPriceFilter(f: Flight, w: FlightFilters) {
    && !(w.minPrice.Some? && f.price.amount < w.minPrice.value)
    && !(w.maxPrice.Some? && f.price.amount > w.maxPrice.value)
  }

  predicate MatchStopsFilter(f: Flight, w: FlightFilters) {
    && !(w.stops.Some? && f.stops != w.stops.value)
    && !(w.maxStops.Some? && f.stops > w.maxStops.value)
  }

  predicate MatchDurationFilter(f: Flight, w: FlightFilters) {
    && !(w.minDuration.Some? && f.durationMinute < w.minDuration.value)
    && !(w.maxDuration.Some? && f.durationMinute > w.maxDuration.value)
  }

  predicate MatchAirlineFilter(f: Flight, airlines: set<string>) {
    || airlines == {}
    || ToLower(f.airline.name) in airlines
    || ToLower(f.airline.code) in airlines
  }

  predicate MatchTimeFilter(f: Flight, w: FlightFilters) {
    && !(w.departAfter.Some? && Before(f.departure.time, w.departAfter.value))
    && !(w.departBefore.Some? && After(f.departure.time, w.departBefore.value))
    && !(w.arriveAfter.Some? && Before(f.arrival.time, w.arriveAfter.value))
    && !(w.arriveBefore.Some? && After(f.arrival.time, w.arriveBefore.value))
  }

  predicate MatchFilter(f: Flight, w: FlightFilters, airlines: set<string>) {
    && MatchPriceFilter(f, w)
    && MatchStopsFilter(f, w)
    && MatchDurationFilter(f, w)
    && MatchAirlineFilter(f, airlines)
    && MatchTimeFilter(f, w)
  }

  /** The non-blank names, trimmed and lower-cased. */
  function NormalSet(values: seq<string>): (r: set<string>) {
    set v | v in values && ToLower(TrimSpace(v)) != "" :: ToLower(TrimSpace(v))
  }

  method NormalizeSet(values: seq<string>) returns (r: set<string>)
    ensures r == NormalSet(values)
  {
    if |values| == 0 {
      return {};
    }
    r := {};
    for i := 0 to |values|
      invariant r == NormalSet(values[..i])
    {
      assert values[..i + 1] == values[..i] + [values[i]];
      var value := ToLower(TrimSpace(values[i]));
      if value == "" {
        continue;
      }
      r := r + {value};
    }
    assert values[..|values|] == values;
  }

  predicate Accepts(q: LegQuery, f: Flight) {
    MatchFlightCriteria(f, q) && MatchFilter(f, q.filters, NormalSet(q.filters.airlines))
  }

  /** The acceptance test of a query, as a value. */
  function AcceptedBy(q: LegQuery): (p: Flight -> bool)
    ensures forall f :: p(f) <==> Accepts(q, f)
  {
    f => Accepts(q, f)
  }

  function Accepted(q: LegQuery, flights: seq<Flight>): (r: seq<Flight>) {
    Keep(AcceptedBy(q), flights)
  }

  predicate Within(lo: Option<int>, x: int, hi: Option<int>) {
    (lo.Some? ==> lo.value <= x) && (hi.Some? ==> x <= hi.value)
  }

  function Instant(t: Option<Time>): (s: Option<int>) {
    if t.None? then None else Some(t.value.sec)
  }

  /** What a query asks for, said with closed intervals. */
  predicate Wanted(q: LegQuery, f: Flight) {
    var w := q.filters;
    && EqualFold(f.departure.airport, q.origin) && EqualFold(f.arrival.airport, q.destination)
    && (q.cabinClass == "" || EqualFold(f.cabinClass, q.cabinClass))
    && f.departure.time.sec != 0 && f.arrival.time.sec != 0 && f.departure.time.sec < f.arrival.time.sec
    && FormatDate(f.departure.time) == q.criteriaDate
    && Within(w.minPrice, f.price.amount, w.maxPrice)
    && Within(w.stops, f.stops, w.stops) && Within(None, f.stops, w.maxStops)
    && Within(w.minDuration, f.durationMinute, w.maxDuration)
    && Within(Instant(w.departAfter), f.departure.time.sec, Instant(w.departBefore))
    && Within(Instant(w.arriveAfter), f.arrival.time.sec, Instant(w.arriveBefore))
    && AirlineWanted(f.airline, w.airlines)
  }

  predicate AirlineWanted(a: Airline, values: seq<string>) {
    || (forall v :: v in values ==> ToLower(TrimSpace(v)) == "")
    || Named(a.name, values) || Named(a.code, values)
  }

  /** Some non-blank entry of the list is this name, up to case and padding of the entry. */
  predicate Named(name: string, values: seq<string>) {
    exists v :: v in values && ToLower(TrimSpace(v)) != "" && EqualFold(TrimSpace(v), name)
  }

  lemma NamedIff(name: string, values: seq<string>)
    ensures Named(name, values) <==> ToLower(name) in NormalSet(values)
    ensures (forall v :: v in values ==> ToLower(TrimSpace(v)) == "") <==> NormalSet(values) == {}
  {
    if v :| v in values && ToLower(TrimSpace(v)) != "" {
      assert ToLower(TrimSpace(v)) in NormalSet(values);
    }
  }

  /** The filter keeps exactly the wanted flights. */
  lemma AcceptedExactly(q: LegQuery, flights: seq<Flight>, f: Flight)
    ensures f in Accepted(q, flights) <==> f in flights && Wanted(q, f)
  {
    KeepContents(AcceptedBy(q), flights);
    WantedIff(q, f);
  }

  lemma WantedIff(q: LegQuery, f: Flight)
    ensures Accepts(q, f) <==> Wanted(q, f)
  {
    assert MatchAirlineFilter(f, NormalSet(q.filters.airlines)) <==> AirlineWanted(f.airline, q.filters.airlines) by {
      NamedIff(f.airline.name, q.filters.airlines);
      NamedIff(f.airline.code, q.filters.airlines);
    }
    IntervalsIff(f, q.filters);
  }

  lemma IntervalsIff(f: Flight, w: FlightFilters)
    ensures MatchPriceFilter(f, w) <==> Within(w.minPrice, f.price.amount, w.maxPrice)
    ensures MatchStopsFilter(f, w) <==> Within(w.stops, f.stops, w.stops) && Within(None, f.stops, w.maxStops)
    ensures MatchDurationFilter(f, w) <==> Within(w.minDuration, f.durationMinute, w.maxDuration)
    ensures MatchTimeFilter(f, w) <==>
              && Within(Instant(w.departAfter), f.departure.time.sec, Instant(w.departBefore))
              && Within(Instant(w.arriveAfter), f.arrival.time.sec, Instant(w.arriveBefore))
  {
  }

  method FilterFlights(flights: seq<Flight>, q: LegQuery) returns (filtered: seq<Flight>)
    ensures filtered == Accepted(q, flights)
  {
    filtered := [];
    var airlineFilter := NormalizeSet(q.filters.airlines);
    for i := 0 to |flights|
      invariant filtered == Accepted(q, flights[..i])
    {
      assert flights[..i + 1][..i] == flights[..i];
      if !MatchFlightCriteria(flights[i], q) {
        continue;
      }
      if !MatchFilter(flights[i], q.filters, airlineFilter) {
        continue;
      }
      filtered := filtered + [flights[i]];
    }
    assert flights[..|flights|] == flights;
  }

  // ---- durations ----

  /** The longest span a 64-bit count of nanoseconds holds, in whole seconds; longer ones saturate. */
  const MAX_SPAN_SECONDS := 9223372036

  function MinutesBetween(t: Time, u: Time): (m: int)
    requires After(u, t)
    ensures m >= 0
    ensures m > 0 <==> u.sec - t.sec >= 60
  {
    (if u.sec - t.sec > MAX_SPAN_SECONDS then MAX_SPAN_SECONDS else u.sec - t.sec) / 60
  }

  function NormalizeDuration(f: Flight): (g: Flight)
    ensures g == f.(durationMinute := g.durationMinute)
  {
    if IsZero(f.departure.time) || IsZero(f.arrival.time) then f
    else if After(f.arrival.time, f.departure.time) then
      var duration := MinutesBetween(f.departure.time, f.arrival.time);
      if duration > 0 then f.(durationMinute := duration) else f
    else f
  }

  /**
   What recomputing makes of a flight: whole minutes from take-off to landing, rounded down, when both times are
   set and at least a minute apart; otherwise the flight as it was.
   */
  ghost predicate IsRecomputed(f: Flight, g: Flight) {
    var s := f.arrival.time.sec - f.departure.time.sec;
    if f.departure.time.sec == 0 || f.arrival.time.sec == 0 || s < 60 then g == f
    else
      && g == f.(durationMinute := g.durationMinute)
      && (s <= MAX_SPAN_SECONDS ==> 60 * g.durationMinute <= s < 60 * (g.durationMinute + 1))
      && (s > MAX_SPAN_SECONDS ==> 60 * g.durationMinute <= MAX_SPAN_SECONDS < 60 * (g.durationMinute + 1))
  }

  lemma NormalizedIsRecomputed(f: Flight)
    ensures IsRecomputed(f, NormalizeDuration(f))
  {
  }

  method NormalizeDurations(flights: array<Flight>)
    modifies flights
    ensures flights[..] == MapSeq(NormalizeDuration, old(flights[..]))
    ensures forall k :: 0 <= k < flights.Length ==> IsRecomputed(old(flights[k]), flights[k])
  {
    for i := 0 to flights.Length
      invariant forall k :: 0 <= k < i ==> flights[k] == NormalizeDuration(old(flights[k]))
      invariant forall k :: i <= k < flights.Length ==> flights[k] == old(flights[k])
    {
      if IsZero(flights[i].departure.time) || IsZero(flights[i].arrival.time) {
        continue;
      }
      if After(flights[i].arrival.time, flights[i].departure.time) {
        var duration := MinutesBetween(flights[i].departure.time, flights[i].arrival.time);
        if duration > 0 {
          flights[i] := flights[i].(durationMinute := duration);
        }
      }
    }
  }

  /** A flight that does not claim to land less than a minute after take-off. */
  predicate AtLeastAMinute(f: Flight) {
    After(f.arrival.time, f.departure.time) ==> f.arrival.time.sec - f.departure.time.sec >= 60
  }

  /** A recomputed flight of at least a minute. */
  predicate Settled(f: Flight) {
    f == NormalizeDuration(f) && AtLeastAMinute(f)
  }

  lemma NormalizedIsSettled(f: Flight)
    requires AtLeastAMinute(f)
    ensures Settled(NormalizeDuration(f))
  {
  }

  /** After recomputation an accepted flight's duration is a function of its times, hence of its key. */
  lemma KeyFixesDuration(f: Flight, g: Flight)
    requires Settled(f) && Settled(g) && FlightKey(f) == FlightKey(g)
    requires !IsZero(f.departure.time) && !IsZero(f.arrival.time) && After(f.arrival.time, f.departure.time)
    ensures f.durationMinute == g.durationMinute
  {
    KeyFixesTimes(f, g);
  }

  // ---- filtering before or after price comparison ----

  predicate BoundsBelow(lo: Option<int>) {
    lo.Some? && lo.value > MIN_INT64
  }

  predicate BoundsAbove(hi: Option<int>) {
    hi.Some? && hi.value < MAX_INT64
  }

  /**
   No test on anything an offer's key leaves open, except an upper price bound. A bound that no machine
   integer can break tests nothing.
   */
  predicate KeyOnly(q: LegQuery) {
    && q.cabinClass == ""
    && !BoundsBelow(q.filters.minPrice) && q.filters.stops.None? && !BoundsAbove(q.filters.maxStops)
    && NormalSet(q.filters.airlines) == {}
  }

  predicate IsMachineInt(x: int) {
    MIN_INT64 <= x <= MAX_INT64
  }

  /** A recomputed flight of at least a minute with machine-sized fields and no separator in its key's texts. */
  predicate Comparable(f: Flight) {
    && PipeFreeKey(f) && Settled(f)
    && IsMachineInt(f.price.amount) && IsMachineInt(f.stops) && IsMachineInt(f.durationMinute)
  }

  ghost predicate AllComparable(flights: seq<Flight>) {
    forall f :: f in flights ==> Comparable(f)
  }

  ghost predicate PassesCommute(q: LegQuery, flights: seq<Flight>) {
    Commutes(FlightKey, AcceptedBy(q), flights)
  }

  ghost predicate OrderOfPassesHidden(q: LegQuery) {
    forall flights :: AllComparable(flights) ==> PassesCommute(q, flights)
  }

  lemma KeyOnlyAccepts(q: LegQuery, f: Flight, g: Flight)
    requires KeyOnly(q) && Comparable(f) && Comparable(g)
    requires FlightKey(f) == FlightKey(g) && Accepts(q, f) && g.price.amount <= f.price.amount
    ensures Accepts(q, g)
  {
    KeyFixesRoute(f, g);
    KeyFixesDuration(f, g);
  }

  /** A pair with one key that the query tells apart shows the order of the two passes. */
  lemma OrderShows(q: LegQuery, f: Flight, g: Flight)
    requires Comparable(f) && Comparable(g)
    requires FlightKey(f) == FlightKey(g) && Accepts(q, f) && !Accepts(q, g) && !Beats(f, g)
    ensures !OrderOfPassesHidden(q)
  {
    PairTellsOrder(FlightKey, AcceptedBy(q), f, g);
    assert !PassesCommute(q, [g, f]);
    PairComparable(f, g);
  }

  lemma PairComparable(f: Flight, g: Flight)
    requires Comparable(f) && Comparable(g)
    ensures AllComparable([g, f])
  {
  }

  lemma SameKeyFields(f: Flight, g: Flight)
    requires KeyFields(f) == KeyFields(g)
    ensures FlightKey(f) == FlightKey(g)
  {
  }

  /** A twin of an accepted flight, under the same key and at no higher price, that a restricting query rejects. */
  lemma RejectedTwin(q: LegQuery, w: Flight) returns (f: Flight, g: Flight)
    requires !KeyOnly(q) && Comparable(w) && Accepts(q, w)
    ensures Comparable(f) && Comparable(g) && KeyFields(f) == KeyFields(g)
    ensures Accepts(q, f) && !Accepts(q, g) && !Beats(f, g)
  {
    var airlines := NormalSet(q.filters.airlines);
    f := w;
    StrLessTotal(w.provider, w.provider);
    if q.cabinClass != "" {
      g := w.(cabinClass := "");
      assert ToLower(g.cabinClass) != ToLower(q.cabinClass);
    } else if BoundsBelow(q.filters.minPrice) {
      g := w.(price := w.price.(amount := q.filters.minPrice.value - 1));
    } else if q.filters.stops.Some? {
      g := w.(stops := if w.stops < MAX_INT64 then w.stops + 1 else w.stops - 1);
    } else if BoundsAbove(q.filters.maxStops) {
      g := w.(stops := q.filters.maxStops.value + 1);
    } else {
      var name :| name in airlines;
      var v :| v in q.filters.airlines && name == ToLower(TrimSpace(v));
      LowerIdempotent(TrimSpace(v));
      f := w.(airline := Airline(name, ""));
      g := w.(airline := Airline("", ""));
      assert ToLower("") == "";
    }
  }

  /** For a query some comparable flight satisfies, filtering and price comparison commute exactly when the query is key-only. */
  lemma FilterOrderIff(q: LegQuery, w: Flight)
    requires Comparable(w) && Accepts(q, w)
    ensures OrderOfPassesHidden(q) <==> KeyOnly(q)
  {
    if KeyOnly(q) {
      var p := AcceptedBy(q);
      forall flights | AllComparable(flights)
        ensures PassesCommute(q, flights)
      {
        forall f, g | f in flights && g in flights && FlightKey(f) == FlightKey(g) && p(f) && !Beats(f, g)
          ensures p(g)
        {
          KeyOnlyAccepts(q, f, g);
        }
        FilterCommutes(FlightKey, p, flights);
      }
    } else {
      var f, g := RejectedTwin(q, w);
      SameKeyFields(f, g);
      OrderShows(q, f, g);
    }
  }
}
