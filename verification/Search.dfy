/** One leg of a search: gather, recompute, filter, compare prices, score and rank. */
module Search {
  import opened Seqs
  import opened Entity
  import opened Dedup
  import opened Filters
  import opened Score
  import opened StableSort
  import opened Ranking

  datatype Outcome = Found(flights: seq<Flight>) | Failed(error: string)

  datatype ProviderResult = ProviderResult(name: string, outcome: Outcome)

  /** The flights of the providers that answered, in order of arrival. */
  function Gather(results: seq<ProviderResult>): (r: seq<Flight>) {
    if results == [] then []
    else Gather(results[..|results| - 1]) +
         (if results[|results| - 1].outcome.Found? then results[|results| - 1].outcome.flights else [])
  }

  function Succeeded(results: seq<ProviderResult>): (r: set<string>) {
    set x | x in results && x.outcome.Found? :: x.name
  }

  function Broken(results: seq<ProviderResult>): (r: set<string>) {
    set x | x in results && x.outcome.Failed? :: x.name
  }

  function Candidates(q: LegQuery, results: seq<ProviderResult>): (r: seq<Flight>) {
    Accepted(q, MapSeq(NormalizeDuration, Gather(results)))
  }

  function Offers(q: LegQuery, results: seq<ProviderResult>): (best: Best) {
    BestByKey(FlightKey, Candidates(q, results))
  }

  /** The compared flights of a leg, given the order results arrived in and the order the map was walked in. */
  function LegFlights(q: LegQuery, results: seq<ProviderResult>, walk: seq<string>): (r: seq<Flight>)
    requires forall k :: k in walk ==> k in Offers(q, results)
  {
    Listing(Offers(q, results), walk)
  }

  function Ranked(q: LegQuery, opt: SortOption, results: seq<ProviderResult>, walk: seq<string>): (r: seq<Flight>)
    requires forall k :: k in walk ==> k in Offers(q, results)
  {
    SortedFlights(Scored(LegFlights(q, results, walk)), opt)
  }

  /** With distinct names, a result's name is among those that answered exactly when it did, and among the others otherwise. */
  lemma CountedWhereItBelongs(results: seq<ProviderResult>, i: int)
    requires 0 <= i < |results|
    requires forall j, k :: 0 <= j < k < |results| ==> results[j].name != results[k].name
    ensures results[i].name in Succeeded(results) <==> results[i].outcome.Found?
    ensures results[i].name in Broken(results) <==> results[i].outcome.Failed?
  {
    assert results[i] in results;
  }

  // ---- the methods ----

  lemma OneMoreResult(results: seq<ProviderResult>, i: int)
    requires 0 <= i < |results|
    ensures var x := results[i];
      && Gather(results[..i + 1]) == Gather(results[..i]) + (if x.outcome.Found? then x.outcome.flights else [])
      && Succeeded(results[..i + 1]) == Succeeded(results[..i]) + (if x.outcome.Found? then {x.name} else {})
      && Broken(results[..i + 1]) == Broken(results[..i]) + (if x.outcome.Failed? then {x.name} else {})
  {
    assert results[..i + 1] == results[..i] + [results[i]];
    assert results[..i + 1][..i] == results[..i];
  }

  method CollectFlights(q: LegQuery, results: seq<ProviderResult>)
    returns (compared: seq<Flight>, success: set<string>, failed: set<string>, ghost walk: seq<string>)
    ensures IsWalk(walk, Offers(q, results)) && compared == LegFlights(q, results, walk)
    ensures success == Succeeded(results) && failed == Broken(results)
  {
    var flights: seq<Flight> := [];
    success, failed := {}, {};
    for i := 0 to |results|
      invariant flights == Gather(results[..i])
      invariant success == Succeeded(results[..i]) && failed == Broken(results[..i])
    {
      OneMoreResult(results, i);
      if results[i].outcome.Failed? {
        failed := failed + {results[i].name};
        continue;
      }
      success := success + {results[i].name};
      flights := flights + results[i].outcome.flights;
    }
    assert results[..|results|] == results;
    var buffer := new Flight[|flights|](i requires 0 <= i < |flights| => flights[i]);
    assert buffer[..] == flights;
    NormalizeDurations(buffer);
    var filtered := FilterFlights(buffer[..], q);
    compared, walk := CompareAndDedup(FlightKey, filtered);
  }

  method RankFlights(flights: seq<Flight>, opt: SortOption) returns (ranked: seq<Flight>)
    ensures ranked == SortedFlights(Scored(flights), opt)
  {
    var buffer := new Flight[|flights|](i requires 0 <= i < |flights| => flights[i]);
    assert buffer[..] == flights;
    ApplyBestValueScore(buffer);
    SortFlights(buffer, opt);
    ranked := buffer[..];
  }

  function FailedNames(names: seq<string>, outbound: set<string>, inbound: set<string>): (r: seq<string>) {
    Keep(n => !(n in outbound || n in inbound), names)
  }

  method MergeProviderStats(names: seq<string>, outbound: set<string>, inbound: set<string>)
    returns (succeeded: nat, failedProviders: seq<string>)
    ensures failedProviders == FailedNames(names, outbound, inbound)
    ensures succeeded + |failedProviders| == |names|
  {
    succeeded, failedProviders := 0, [];
    for i := 0 to |names|
      invariant failedProviders == FailedNames(names[..i], outbound, inbound)
      invariant succeeded + |failedProviders| == i
    {
      assert names[..i + 1][..i] == names[..i];
      if names[i] in outbound || names[i] in inbound {
        succeeded := succeeded + 1;
        continue;
      }
      failedProviders := failedProviders + [names[i]];
    }
    assert names[..|names|] == names;
  }

  /** With distinct provider names, a provider is listed failed exactly when it answered on no leg. */
  lemma FailedExactly(names: seq<string>, outbound: seq<ProviderResult>, inbound: seq<ProviderResult>, i: int)
    requires 0 <= i < |names| && NoDuplicates(names)
    requires |outbound| == |names| && forall j :: 0 <= j < |names| ==> outbound[j].name == names[j]
    requires inbound == [] || (|inbound| == |names| && forall j :: 0 <= j < |names| ==> inbound[j].name == names[j])
    ensures names[i] in FailedNames(names, Succeeded(outbound), Succeeded(inbound)) <==>
            outbound[i].outcome.Failed? && (inbound == [] || inbound[i].outcome.Failed?)
  {
    KeepContents(n => !(n in Succeeded(outbound) || n in Succeeded(inbound)), names);
    if outbound[i].outcome.Found? {
      assert outbound[i] in outbound;
    }
    if inbound != [] && inbound[i].outcome.Found? {
      assert inbound[i] in inbound;
    }
  }

  // ---- what a leg's answer holds ----

  /** The flight is in the answer of some provider that did not fail. */
  ghost predicate Offered(results: seq<ProviderResult>, g: Flight) {
    exists x :: x in results && x.outcome.Found? && g in x.outcome.flights
  }

  lemma {:induction false} GatheredIff(results: seq<ProviderResult>, g: Flight)
    ensures g in Gather(results) <==> Offered(results, g)
  {
    if results == [] {
    } else {
      GatheredIff(results[..|results| - 1], g);
      assert results == results[..|results| - 1] + [results[|results| - 1]];
    }
  }

  lemma SortingKeepsContents(s: seq<Flight>, opt: SortOption)
    ensures multiset(SortedFlights(s, opt)) == multiset(s)
  {
    SortedBothWays(s, opt);
    SortContents(s, Forward(opt));
    ReverseContents(SortWith(s, Forward(opt)));
  }

  lemma RankedFrom(q: LegQuery, opt: SortOption, results: seq<ProviderResult>, walk: seq<string>, f: Flight) returns (k: string)
    requires IsWalk(walk, Offers(q, results)) && f in Ranked(q, opt, results, walk)
    ensures k in Offers(q, results)
    ensures f == Offers(q, results)[k].(bestValueScore := f.bestValueScore)
  {
    var listed := LegFlights(q, results, walk);
    SortingKeepsContents(Scored(listed), opt);
    assert f in multiset(Scored(listed));
    var i :| 0 <= i < |listed| && Scored(listed)[i] == f;
    assert walk[i] in walk;
    k := walk[i];
  }

  /** Sound: a listed flight is some provider's flight, with its duration recomputed and its score written, that the query wants. */
  lemma ListedIsWanted(q: LegQuery, opt: SortOption, results: seq<ProviderResult>, walk: seq<string>, f: Flight) returns (g: Flight)
    requires IsWalk(walk, Offers(q, results)) && f in Ranked(q, opt, results, walk)
    ensures Offered(results, g) && Wanted(q, NormalizeDuration(g))
    ensures f == NormalizeDuration(g).(bestValueScore := f.bestValueScore)
  {
    var k := RankedFrom(q, opt, results, walk, f);
    KeptUnderOwnKey(FlightKey, Candidates(q, results), k);
    var normalized := MapSeq(NormalizeDuration, Gather(results));
    var c := Offers(q, results)[k];
    AcceptedExactly(q, normalized, c);
    var i :| 0 <= i < |normalized| && normalized[i] == c;
    g := Gather(results)[i];
    GatheredIff(results, g);
  }

  lemma OfferListed(q: LegQuery, opt: SortOption, results: seq<ProviderResult>, walk: seq<string>, k: string) returns (f: Flight)
    requires IsWalk(walk, Offers(q, results)) && k in Offers(q, results)
    ensures f in Ranked(q, opt, results, walk)
    ensures f == Offers(q, results)[k].(bestValueScore := f.bestValueScore)
  {
    var listed := LegFlights(q, results, walk);
    var i :| 0 <= i < |walk| && walk[i] == k;
    f := Scored(listed)[i];
    SortingKeepsContents(Scored(listed), opt);
    assert f in multiset(Ranked(q, opt, results, walk));
  }

  /** Complete: for every wanted flight of any provider, a flight with its key is listed that it does not beat. */
  lemma WantedIsListed(q: LegQuery, opt: SortOption, results: seq<ProviderResult>, walk: seq<string>, g: Flight) returns (f: Flight)
    requires IsWalk(walk, Offers(q, results)) && Offered(results, g) && Wanted(q, NormalizeDuration(g))
    ensures f in Ranked(q, opt, results, walk)
    ensures FlightKey(f) == FlightKey(g) && !Beats(g, f)
  {
    var c := NormalizeDuration(g);
    GatheredIff(results, g);
    WantedIsCandidate(q, results, g);
    KeptIsUnbeaten(FlightKey, Candidates(q, results), c);
    KeptUnderOwnKey(FlightKey, Candidates(q, results), FlightKey(c));
    f := OfferListed(q, opt, results, walk, FlightKey(c));
    SameKeyFields(c, g);
    SameKeyFields(f, Offers(q, results)[FlightKey(c)]);
  }

  lemma WantedIsCandidate(q: LegQuery, results: seq<ProviderResult>, g: Flight)
    requires g in Gather(results) && Wanted(q, NormalizeDuration(g))
    ensures NormalizeDuration(g) in Candidates(q, results)
  {
    var normalized := MapSeq(NormalizeDuration, Gather(results));
    var i :| 0 <= i < |Gather(results)| && Gather(results)[i] == g;
    assert normalized[i] == NormalizeDuration(g);
    AcceptedExactly(q, normalized, NormalizeDuration(g));
  }

  /** Every listed flight carries the score it gets within the list itself. */
  lemma ListedScores(q: LegQuery, opt: SortOption, results: seq<ProviderResult>, walk: seq<string>, f: Flight)
    requires IsWalk(walk, Offers(q, results)) && f in Ranked(q, opt, results, walk)
    ensures HasListScore(Ranked(q, opt, results, walk), f)
  {
    var listed, ranked := LegFlights(q, results, walk), Ranked(q, opt, results, walk);
    SortingKeepsContents(Scored(listed), opt);
    assert f in multiset(Scored(listed));
    var i :| 0 <= i < |listed| && Scored(listed)[i] == f;
    ScoringKeepsTerms(listed);
    MapPermuted(PriceOf, Scored(listed), ranked);
    MapPermuted(DurationOf, Scored(listed), ranked);
    ExtremesPermuted(MapSeq(PriceOf, listed), MapSeq(PriceOf, ranked));
    ExtremesPermuted(MapSeq(DurationOf, listed), MapSeq(DurationOf, ranked));
    ScoreAt(listed, i);
    ScoreSame(listed[i], f, MapSeq(PriceOf, listed), MapSeq(DurationOf, listed), MapSeq(PriceOf, ranked), MapSeq(DurationOf, ranked));
  }

  ghost predicate HasListScore(list: seq<Flight>, f: Flight) {
    list != [] && f.bestValueScore == ScoreIn(f, MapSeq(PriceOf, list), MapSeq(DurationOf, list))
  }

  lemma ScoreAt(s: seq<Flight>, i: int)
    requires 0 <= i < |s|
    ensures Scored(s)[i].bestValueScore == ScoreIn(s[i], MapSeq(PriceOf, s), MapSeq(DurationOf, s))
  {
  }

  lemma ScoreSame(f: Flight, g: Flight, p: seq<int>, d: seq<int>, p': seq<int>, d': seq<int>)
    requires p != [] && d != [] && p' != [] && d' != []
    requires Least(p) == Least(p') && Greatest(p) == Greatest(p') && Least(d) == Least(d') && Greatest(d) == Greatest(d')
    requires f.price.amount == g.price.amount && f.durationMinute == g.durationMinute
    ensures ScoreIn(f, p, d) == ScoreIn(g, p', d')
  {
  }

  lemma ScoringKeepsTerms(s: seq<Flight>)
    ensures MapSeq(PriceOf, Scored(s)) == MapSeq(PriceOf, s) && MapSeq(DurationOf, Scored(s)) == MapSeq(DurationOf, s)
  {
  }

  /** No two listed flights share a key. */
  lemma ListedOnce(q: LegQuery, opt: SortOption, results: seq<ProviderResult>, walk: seq<string>)
    requires IsWalk(walk, Offers(q, results))
    ensures NoDuplicates(MapSeq(FlightKey, Ranked(q, opt, results, walk)))
  {
    var scored := Scored(LegFlights(q, results, walk));
    forall i | 0 <= i < |walk|
      ensures FlightKey(scored[i]) == walk[i]
    {
      assert walk[i] in walk;
      KeptUnderOwnKey(FlightKey, Candidates(q, results), walk[i]);
      SameKeyFields(scored[i], Offers(q, results)[walk[i]]);
    }
    assert MapSeq(FlightKey, scored) == walk;
    SortingKeepsContents(scored, opt);
    MapPermuted(FlightKey, scored, Ranked(q, opt, results, walk));
    StillNoDuplicates(walk, MapSeq(FlightKey, Ranked(q, opt, results, walk)));
  }
}
