/** Sorting a result list by the caller's option. */
module Ranking {
  import opened Seqs
  import opened Text
  import opened Times
  import opened Entity
  import opened Score
  import opened StableSort

  datatype SortOption = SortOption(field: string, order: string)

  function FieldOf(opt: SortOption): (field: string) {
    if ToLower(opt.field) == "" then "best_value" else ToLower(opt.field)
  }

  predicate Descending(opt: SortOption) {
    ToLower(opt.order) == "desc"
  }

  predicate Less(field: string, f: Flight, g: Flight) {
    if field == "price" then f.price.amount < g.price.amount
    else if field == "duration" then f.durationMinute < g.durationMinute
    else if field == "departure" then Before(f.departure.time, g.departure.time)
    else if field == "arrival" then Before(f.arrival.time, g.arrival.time)
    else f.bestValueScore < g.bestValueScore
  }

  function SortedFlights(flights: seq<Flight>, opt: SortOption): (r: seq<Flight>) {
    if Descending(opt) then SortWith(flights, (f, g) => !Less(FieldOf(opt), f, g))
    else SortWith(flights, (f, g) => Less(FieldOf(opt), f, g))
  }

  method SortFlights(flights: array<Flight>, opt: SortOption)
    modifies flights
    ensures flights[..] == SortedFlights(old(flights[..]), opt)
  {
    var field := ToLower(opt.field);
    var order := ToLower(opt.order);
    if field == "" {
      field := "best_value";
    }
    if order == "" {
      order := "asc";
    }
    ghost var input := flights[..];
    if order == "desc" {
      SliceStable(flights, (f, g) => !Less(field, f, g));
      SortSame(input, (f, g) => !Less(field, f, g), (f, g) => !Less(FieldOf(opt), f, g));
      return;
    }
    SliceStable(flights, (f, g) => Less(field, f, g));
    SortSame(input, (f, g) => Less(field, f, g), (f, g) => Less(FieldOf(opt), f, g));
  }

  // ---- what a field's order means ----

  /** The number a field sorts by. */
  function SortValue(field: string, f: Flight): (v: real) {
    if field == "price" then f.price.amount as real
    else if field == "duration" then f.durationMinute as real
    else if field == "departure" then f.departure.time.sec as real
    else if field == "arrival" then f.arrival.time.sec as real
    else f.bestValueScore
  }

  function ValueBy(opt: SortOption): (v: Flight -> real)
    ensures forall f :: v(f) == SortValue(FieldOf(opt), f)
  {
    f => SortValue(FieldOf(opt), f)
  }

  function Forward(opt: SortOption): (less: (Flight, Flight) -> bool)
    ensures Ascending(less, ValueBy(opt))
  {
    (f, g) => Less(FieldOf(opt), f, g)
  }

  function Backward(opt: SortOption): (less: (Flight, Flight) -> bool)
    ensures NegatedAscending(less, ValueBy(opt))
  {
    (f, g) => !Less(FieldOf(opt), f, g)
  }

  lemma SortedBothWays(flights: seq<Flight>, opt: SortOption)
    ensures SortedFlights(flights, opt) ==
            if Descending(opt) then Reverse(SortWith(flights, Forward(opt))) else SortWith(flights, Forward(opt))
  {
    SortSame(flights, Forward(opt), (f, g) => Less(FieldOf(opt), f, g));
    SortSame(flights, Backward(opt), (f, g) => !Less(FieldOf(opt), f, g));
    SortMirrored(flights, Forward(opt), Backward(opt), ValueBy(opt));
  }

  /** By the caller's field, `f` need not come after `g`; an unknown or empty field means best value. */
  predicate NoLater(opt: SortOption, f: Flight, g: Flight) {
    if ToLower(opt.field) == "price" then f.price.amount <= g.price.amount
    else if ToLower(opt.field) == "duration" then f.durationMinute <= g.durationMinute
    else if ToLower(opt.field) == "departure" then f.departure.time.sec <= g.departure.time.sec
    else if ToLower(opt.field) == "arrival" then f.arrival.time.sec <= g.arrival.time.sec
    else f.bestValueScore <= g.bestValueScore
  }

  /** The list runs by the caller's field, downwards if the caller says "desc" and upwards otherwise. */
  ghost predicate InAskedOrder(opt: SortOption, s: seq<Flight>) {
    forall i, j :: 0 <= i < j < |s| ==>
      if ToLower(opt.order) == "desc" then NoLater(opt, s[j], s[i]) else NoLater(opt, s[i], s[j])
  }

  lemma NoLaterIsValue(opt: SortOption, f: Flight, g: Flight)
    ensures NoLater(opt, f, g) <==> ValueBy(opt)(f) <= ValueBy(opt)(g)
  {
    assert ToLower(opt.field) == "" ==> FieldOf(opt)[0] == 'b';
  }

  /** Sorting puts a list in the asked order. */
  lemma SortedInAskedOrder(flights: seq<Flight>, opt: SortOption)
    ensures InAskedOrder(opt, SortedFlights(flights, opt))
  {
    var v, sorted := ValueBy(opt), SortWith(flights, Forward(opt));
    var s := SortedFlights(flights, opt);
    SortedBothWays(flights, opt);
    SortOrdered(flights, Forward(opt), v);
    ReverseNonIncreasing(sorted, v);
    forall i, j | 0 <= i < j < |s|
      ensures if ToLower(opt.order) == "desc" then NoLater(opt, s[j], s[i]) else NoLater(opt, s[i], s[j])
    {
      NoLaterIsValue(opt, s[i], s[j]);
      NoLaterIsValue(opt, s[j], s[i]);
    }
  }

  function OppositeOrder(opt: SortOption): (r: SortOption) {
    SortOption(opt.field, if Descending(opt) then "asc" else "desc")
  }

  /** "desc" is "asc" read backwards, ties included. */
  lemma OppositeOrdersMirror(flights: seq<Flight>, opt: SortOption)
    ensures SortedFlights(flights, OppositeOrder(opt)) == Reverse(SortedFlights(flights, opt))
  {
    OppositeIsOpposite(opt);
    SortedBothWays(flights, opt);
    SortedBothWays(flights, OppositeOrder(opt));
    SortSame(flights, Forward(opt), Forward(OppositeOrder(opt)));
    ReverseTwice(SortWith(flights, Forward(opt)));
  }

  lemma OppositeIsOpposite(opt: SortOption)
    ensures Descending(OppositeOrder(opt)) <==> !Descending(opt)
    ensures FieldOf(OppositeOrder(opt)) == FieldOf(opt)
    ensures forall f, g :: Forward(opt)(f, g) == Forward(OppositeOrder(opt))(f, g)
  {
    assert ToLower("desc") == "desc";
    assert ToLower("asc")[0] == 'a';
  }

  /** For every field, known or not: an ordered permutation; ascending keeps ties in input order, descending turns them around. */
  lemma SortedFlightsMeaning(flights: seq<Flight>, opt: SortOption, at: Flight -> bool, level: real)
    requires forall f :: at(f) <==> SortValue(FieldOf(opt), f) == level
    ensures multiset(SortedFlights(flights, opt)) == multiset(flights)
    ensures !Descending(opt) ==>
              && NonDecreasing(SortedFlights(flights, opt), ValueBy(opt))
              && Keep(at, SortedFlights(flights, opt)) == Keep(at, flights)
    ensures Descending(opt) ==>
              && NonIncreasing(SortedFlights(flights, opt), ValueBy(opt))
              && Keep(at, SortedFlights(flights, opt)) == Reverse(Keep(at, flights))
  {
    var sorted := SortWith(flights, Forward(opt));
    SortedBothWays(flights, opt);
    SortContents(flights, Forward(opt));
    SortOrdered(flights, Forward(opt), ValueBy(opt));
    SortStable(flights, Forward(opt), ValueBy(opt), at, level);
    ReverseContents(sorted);
    ReverseNonIncreasing(sorted, ValueBy(opt));
    KeepReversed(at, sorted);
  }

  lemma {:induction false} KeepReversed(p: Flight -> bool, s: seq<Flight>)
    ensures Keep(p, Reverse(s)) == Reverse(Keep(p, s))
  {
    if s == [] {
    } else {
      var init, last := s[..|s| - 1], s[|s| - 1];
      KeepReversed(p, init);
      KeepConcat(p, [last], Reverse(init));
      assert [last][..0] == [];
      ReverseConcat(Keep(p, init), if p(last) then [last] else []);
    }
  }

  /** The values a sorted list shows depend only on the values it holds. */
  lemma RankedValuesFixed(s: seq<Flight>, t: seq<Flight>, opt: SortOption)
    requires multiset(ToReals(ValueBy(opt), s)) == multiset(ToReals(ValueBy(opt), t))
    ensures ToReals(ValueBy(opt), SortedFlights(s, opt)) == ToReals(ValueBy(opt), SortedFlights(t, opt))
  {
    SortedBothWays(s, opt);
    SortedBothWays(t, opt);
    SortedValuesFixed(s, t, Forward(opt), ValueBy(opt));
    MapReversed(ValueBy(opt), SortWith(s, Forward(opt)));
    MapReversed(ValueBy(opt), SortWith(t, Forward(opt)));
  }

  lemma RankedElement(flights: seq<Flight>, opt: SortOption, i: int) returns (a: int)
    requires 0 <= i < |SortedFlights(flights, opt)|
    ensures 0 <= a < |flights| && SortedFlights(flights, opt)[i] == flights[a]
  {
    var sorted := SortedFlights(flights, opt);
    SortedBothWays(flights, opt);
    SortContents(flights, Forward(opt));
    ReverseContents(SortWith(flights, Forward(opt)));
    assert sorted[i] in multiset(flights);
    a :| 0 <= a < |flights| && flights[a] == sorted[i];
  }

  lemma RankedLength(flights: seq<Flight>, opt: SortOption)
    ensures |SortedFlights(flights, opt)| == |flights|
  {
    SortedBothWays(flights, opt);
  }

  /** In the default order no flight comes after one it dominates, so the first is undominated. */
  lemma DefaultOrderRespectsDominance(flights: seq<Flight>, opt: SortOption, i: int, j: int)
    requires SpreadsFit(flights)
    requires FieldOf(opt) !in {"price", "duration", "departure", "arrival"} && !Descending(opt)
    requires 0 <= i < j < |flights|
    ensures |SortedFlights(Scored(flights), opt)| == |flights|
    ensures !Dominates(SortedFlights(Scored(flights), opt)[j], SortedFlights(Scored(flights), opt)[i])
  {
    RankedLength(Scored(flights), opt);
    var a := RankedElement(Scored(flights), opt, i);
    var b := RankedElement(Scored(flights), opt, j);
    ScoresRespectDominance(flights, b, a);
    InDefaultOrder(Scored(flights), opt, i, j);
  }

  lemma InDefaultOrder(flights: seq<Flight>, opt: SortOption, i: int, j: int)
    requires FieldOf(opt) !in {"price", "duration", "departure", "arrival"} && !Descending(opt)
    requires 0 <= i < j < |SortedFlights(flights, opt)|
    ensures SortedFlights(flights, opt)[i].bestValueScore <= SortedFlights(flights, opt)[j].bestValueScore
  {
    var v := ValueBy(opt);
    SortedBothWays(flights, opt);
    SortOrdered(flights, Forward(opt), v);
    assert v(SortedFlights(flights, opt)[i]) <= v(SortedFlights(flights, opt)[j]);
  }
}
