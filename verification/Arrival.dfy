/** What the order in which provider results arrive can and cannot change. */
module Arrival {
  import opened Seqs
  import opened Entity
  import opened Dedup
  import opened Merging
  import opened Filters
  import opened Score
  import opened StableSort
  import opened Ranking
  import opened Search
  import opened Times

  lemma {:induction false} GatherConcat(r: seq<ProviderResult>, t: seq<ProviderResult>)
    ensures Gather(r + t) == Gather(r) + Gather(t)
  {
    if t == [] {
      assert r + t == r;
    } else {
      assert (r + t)[..|r + t| - 1] == r + t[..|t| - 1];
      GatherConcat(r, t[..|t| - 1]);
    }
  }

  // ---- whole results merge ----

  lemma CandidatesConcat(q: LegQuery, r: seq<ProviderResult>, t: seq<ProviderResult>)
    ensures Candidates(q, r + t) == Candidates(q, r) + Candidates(q, t)
  {
    var xs, ys := MapSeq(NormalizeDuration, Gather(r)), MapSeq(NormalizeDuration, Gather(t));
    GatherConcat(r, t);
    assert MapSeq(NormalizeDuration, Gather(r + t)) == xs + ys;
    KeepConcat(AcceptedBy(q), xs, ys);
  }

  lemma OffersConcat(q: LegQuery, r: seq<ProviderResult>, t: seq<ProviderResult>)
    ensures Offers(q, r + t) == Merge(Offers(q, r), Offers(q, t))
  {
    CandidatesConcat(q, r, t);
    DedupOfConcat(FlightKey, Candidates(q, r), Candidates(q, t));
  }

  /** What a provider would show of each key if it were alone. */
  function OwnBest(q: LegQuery): (own: ProviderResult -> Best)
    ensures forall x :: own(x) == Offers(q, [x])
  {
    x => Offers(q, [x])
  }

  /** A leg's offers are the providers' own, merged in the order of arrival. */
  lemma {:induction false} OffersMerge(q: LegQuery, results: seq<ProviderResult>)
    ensures Offers(q, results) == MergeAll(OwnBest(q), results)
  {
    if results == [] {
      assert MapSeq(NormalizeDuration, Gather([])) == [];
    } else {
      var init, last := results[..|results| - 1], results[|results| - 1];
      assert results == init + [last];
      OffersMerge(q, init);
      OffersConcat(q, init, [last]);
    }
  }

  /** However the results are reordered, the flight a leg keeps for each key has the same value of `v`. */
  ghost predicate SameInEveryOrder<T>(q: LegQuery, v: Flight -> T, results: seq<ProviderResult>) {
    forall t, k :: multiset(t) == multiset(results) && k in Offers(q, results) ==>
                     k in Offers(q, t) && v(Offers(q, t)[k]) == v(Offers(q, results)[k])
  }

  /**
   For every leg and attribute of its flights: no order of arrival shows in the attribute exactly when
   providers whose own best offers under a key are unbeaten agree on it.
   */
  lemma ArrivalShowsIff<T>(q: LegQuery, v: Flight -> T, results: seq<ProviderResult>)
    ensures SameInEveryOrder(q, v, results) <==> OwnersAgree(OwnBest(q), v, results)
  {
    ArrivalBlindIff(OwnBest(q), v, results);
    OffersMerge(q, results);
    forall t
      ensures Offers(q, t) == MergeAll(OwnBest(q), t)
    {
      OffersMerge(q, t);
    }
  }

  // ---- providers that put their own name on their flights ----

  /** Every provider stamps its name on its flights, and no two providers share a name. */
  ghost predicate Stamped(results: seq<ProviderResult>) {
    && (forall x, f :: x in results && x.outcome.Found? && f in x.outcome.flights ==> f.provider == x.name)
    && forall i, j :: 0 <= i < j < |results| ==> results[i].name != results[j].name
  }

  lemma OwnBestIsStamped(q: LegQuery, results: seq<ProviderResult>, x: ProviderResult, k: string)
    requires Stamped(results) && x in results && k in OwnBest(q)(x)
    ensures OwnBest(q)(x)[k].provider == x.name
  {
    KeptUnderOwnKey(FlightKey, Candidates(q, [x]), k);
    var g := CandidateFrom(q, [x], OwnBest(q)(x)[k]);
  }

  /** Where a candidate comes from. */
  lemma CandidateFrom(q: LegQuery, results: seq<ProviderResult>, f: Flight) returns (g: Flight)
    requires f in Candidates(q, results)
    ensures Offered(results, g) && Wanted(q, f) && f == NormalizeDuration(g)
    ensures f.provider == g.provider
  {
    var normalized := MapSeq(NormalizeDuration, Gather(results));
    AcceptedExactly(q, normalized, f);
    var i :| 0 <= i < |normalized| && normalized[i] == f;
    g := Gather(results)[i];
    GatheredIff(results, g);
  }

  lemma StampedNeverTie(q: LegQuery, results: seq<ProviderResult>, x: ProviderResult, y: ProviderResult, k: string)
    requires Stamped(results) && x in results && y in results
    requires Unbeaten(OwnBest(q), results, x, k) && Unbeaten(OwnBest(q), results, y, k)
    ensures x == y
  {
    OwnBestIsStamped(q, results, x, k);
    OwnBestIsStamped(q, results, y, k);
    BeatsTrichotomy(OwnBest(q)(x)[k], OwnBest(q)(y)[k]);
  }

  /** Stamped results give the very same records in every order of arrival. */
  lemma OffersFixed(q: LegQuery, r: seq<ProviderResult>, t: seq<ProviderResult>)
    requires multiset(r) == multiset(t) && Stamped(r)
    ensures Offers(q, r) == Offers(q, t)
  {
    forall x, y, k | x in r && y in r && Unbeaten(OwnBest(q), r, x, k) && Unbeaten(OwnBest(q), r, y, k)
      ensures x == y
    {
      StampedNeverTie(q, r, x, y, k);
    }
    MergeAllFixed(OwnBest(q), r, t);
    OffersMerge(q, r);
    OffersMerge(q, t);
  }

  /** The score each flight gets in a list with these prices and durations. */
  function ScoreBy(prices: seq<int>, durations: seq<int>): (score: Flight -> real)
    requires prices != [] && durations != []
    ensures forall f :: score(f) == ScoreIn(f, prices, durations)
  {
    f => ScoreIn(f, prices, durations)
  }

  function Rewritten(score: Flight -> real): (w: Flight -> Flight)
    ensures forall f :: w(f) == f.(bestValueScore := score(f))
  {
    (f: Flight) => f.(bestValueScore := score(f))
  }

  lemma ScoredIsRewritten(s: seq<Flight>, prices: seq<int>, durations: seq<int>)
    requires s != [] && multiset(prices) == multiset(MapSeq(PriceOf, s)) && multiset(durations) == multiset(MapSeq(DurationOf, s))
    ensures prices != [] && durations != []
    ensures Scored(s) == MapSeq(Rewritten(ScoreBy(prices, durations)), s)
  {
    ExtremesPermuted(MapSeq(PriceOf, s), prices);
    ExtremesPermuted(MapSeq(DurationOf, s), durations);
  }

  /** Scoring does not look at the order of the list. */
  lemma ScoredPermuted(s: seq<Flight>, t: seq<Flight>)
    requires multiset(s) == multiset(t)
    ensures multiset(Scored(s)) == multiset(Scored(t))
  {
    if s == [] {
      EmptyPermuted(t);
    } else {
      var prices, durations := MapSeq(PriceOf, s), MapSeq(DurationOf, s);
      assert |t| == |multiset(t)| == |multiset(s)| == |s|;
      MapPermuted(PriceOf, s, t);
      MapPermuted(DurationOf, s, t);
      ScoredIsRewritten(s, prices, durations);
      ScoredIsRewritten(t, prices, durations);
      MapPermuted(Rewritten(ScoreBy(prices, durations)), s, t);
    }
  }

  lemma ListedPermuted(best: Best, walk: seq<string>, walk': seq<string>)
    requires IsWalk(walk, best) && IsWalk(walk', best)
    ensures multiset(Listing(best, walk)) == multiset(Listing(best, walk'))
  {
    ListingsPermuted(walk, walk');
    if walk == [] {
      EmptyPermuted(walk');
    } else {
      assert walk[0] in best;
      var at := k => if k in best then best[k] else best[walk[0]];
      MapPermuted(at, walk, walk');
      assert MapSeq(at, walk) == Listing(best, walk) && MapSeq(at, walk') == Listing(best, walk');
    }
  }

  lemma RankedContents(s: seq<Flight>, t: seq<Flight>, opt: SortOption)
    requires multiset(s) == multiset(t)
    ensures multiset(SortedFlights(Scored(s), opt)) == multiset(SortedFlights(Scored(t), opt))
    ensures ToReals(ValueBy(opt), SortedFlights(Scored(s), opt)) == ToReals(ValueBy(opt), SortedFlights(Scored(t), opt))
  {
    ScoredPermuted(s, t);
    SortingKeepsContents(Scored(s), opt);
    SortingKeepsContents(Scored(t), opt);
    MapPermuted(ValueBy(opt), Scored(s), Scored(t));
    RankedValuesFixed(Scored(s), Scored(t), opt);
  }

  /**
   Neither the order in which provider results arrive nor the order in which the map is walked shows:
   the ranked list holds the same records and has the same sequence of sort values. What is left to
   chance is the order among flights with one sort value.
   */
  lemma ScheduleIndependence(
      q: LegQuery, opt: SortOption,
      r: seq<ProviderResult>, t: seq<ProviderResult>, walk: seq<string>, walk': seq<string>)
    requires multiset(r) == multiset(t) && Stamped(r)
    requires IsWalk(walk, Offers(q, r)) && IsWalk(walk', Offers(q, t))
    ensures ToReals(ValueBy(opt), Ranked(q, opt, r, walk)) == ToReals(ValueBy(opt), Ranked(q, opt, t, walk'))
    ensures multiset(Ranked(q, opt, r, walk)) == multiset(Ranked(q, opt, t, walk'))
  {
    OffersFixed(q, r, t);
    ListedPermuted(Offers(q, r), walk, walk');
    RankedContents(LegFlights(q, r, walk), LegFlights(q, t, walk'), opt);
  }

  // ---- when the list itself is fixed ----

  /** Under every schedule the ranked list is this one. */
  ghost predicate OneList(q: LegQuery, opt: SortOption, r: seq<ProviderResult>, ranked: seq<Flight>) {
    forall t, walk :: multiset(t) == multiset(r) && IsWalk(walk, Offers(q, t)) ==> Ranked(q, opt, t, walk) == ranked
  }

  /** Lists with the same records and the same distinct values are the same. */
  lemma DistinctValuesFix(v: Flight -> real, a: seq<Flight>, b: seq<Flight>)
    requires multiset(a) == multiset(b) && ToReals(v, a) == ToReals(v, b) && NoDuplicates(ToReals(v, a))
    ensures a == b
  {
    assert |a| == |ToReals(v, a)| == |ToReals(v, b)| == |b|;
    forall i | 0 <= i < |a|
      ensures a[i] == b[i]
    {
      assert a[i] in multiset(b);
      var j :| 0 <= j < |b| && b[j] == a[i];
      assert ToReals(v, a)[i] == v(a[i]) == ToReals(v, b)[j] == ToReals(v, a)[j];
    }
  }

  lemma ReversedListing(best: Best, walk: seq<string>)
    requires IsWalk(walk, best) && IsWalk(Reverse(walk), best)
    ensures Listing(best, Reverse(walk)) == Reverse(Listing(best, walk))
  {
    forall i | 0 <= i < |walk|
      ensures Listing(best, Reverse(walk))[i] == Reverse(Listing(best, walk))[i]
    {
      ReverseAt(walk, i);
      ReverseAt(Listing(best, walk), i);
    }
  }

  lemma ReversedWalk(best: Best, walk: seq<string>)
    requires IsWalk(walk, best)
    ensures IsWalk(Reverse(walk), best)
  {
    ReverseContents(walk);
    StillNoDuplicates(walk, Reverse(walk));
    forall k
      ensures k in Reverse(walk) <==> k in walk
    {
      assert k in Reverse(walk) <==> k in multiset(Reverse(walk));
    }
  }

  /** Scoring a list read backwards. */
  lemma ScoredBackwards(s: seq<Flight>)
    ensures Scored(Reverse(s)) == Reverse(Scored(s))
  {
    if s == [] {
    } else {
      var prices, durations := MapSeq(PriceOf, s), MapSeq(DurationOf, s);
      ReverseContents(s);
      MapPermuted(PriceOf, Reverse(s), s);
      MapPermuted(DurationOf, Reverse(s), s);
      ScoredIsRewritten(s, prices, durations);
      ScoredIsRewritten(Reverse(s), prices, durations);
      MapReversed(Rewritten(ScoreBy(prices, durations)), s);
    }
  }

  /** The flights of one sort value appear in opposite orders when the walk is reversed. */
  lemma TiesTurn(
      q: LegQuery, opt: SortOption, r: seq<ProviderResult>, walk: seq<string>, at: Flight -> bool, level: real)
    requires IsWalk(walk, Offers(q, r)) && forall f :: at(f) <==> SortValue(FieldOf(opt), f) == level
    ensures IsWalk(Reverse(walk), Offers(q, r))
    ensures Keep(at, Ranked(q, opt, r, Reverse(walk))) == Reverse(Keep(at, Ranked(q, opt, r, walk)))
  {
    var s := Scored(LegFlights(q, r, walk));
    ReversedWalk(Offers(q, r), walk);
    ReversedListing(Offers(q, r), walk);
    ScoredBackwards(LegFlights(q, r, walk));
    SortedFlightsMeaning(s, opt, at, level);
    SortedFlightsMeaning(Reverse(s), opt, at, level);
    KeepReversed(at, s);
  }

  lemma MirrorIsShort(kept: seq<Flight>)
    requires kept == Reverse(kept) && NoDuplicates(kept)
    ensures |kept| <= 1
  {
    if |kept| >= 2 {
      ReverseAt(kept, 0);
    }
  }

  lemma KeepTwo(p: Flight -> bool, s: seq<Flight>, i: int, j: int)
    requires 0 <= i < j < |s| && p(s[i]) && p(s[j])
    ensures |Keep(p, s)| >= 2
  {
    KeepOne(p, s[..j], i);
    KeepConcat(p, s[..j], s[j..]);
    KeepOne(p, s[j..], 0);
    assert s == s[..j] + s[j..];
  }

  lemma KeepOne(p: Flight -> bool, s: seq<Flight>, i: int)
    requires 0 <= i < |s| && p(s[i])
    ensures |Keep(p, s)| >= 1
  {
    KeepContents(p, s);
    assert s[i] in Keep(p, s);
  }

  lemma {:induction false} KeepNoDuplicates(p: Flight -> bool, s: seq<Flight>)
    requires NoDuplicates(s)
    ensures NoDuplicates(Keep(p, s))
  {
    if s == [] {
    } else {
      var init, last := s[..|s| - 1], s[|s| - 1];
      KeepNoDuplicates(p, init);
      KeepContents(p, init);
      assert last !in init;
    }
  }

  lemma TiedListsDiffer(
      q: LegQuery, opt: SortOption, r: seq<ProviderResult>, walk: seq<string>, i: int, j: int)
    requires IsWalk(walk, Offers(q, r)) && 0 <= i < j < |Ranked(q, opt, r, walk)|
    requires ValueBy(opt)(Ranked(q, opt, r, walk)[i]) == ValueBy(opt)(Ranked(q, opt, r, walk)[j])
    ensures IsWalk(Reverse(walk), Offers(q, r))
    ensures Ranked(q, opt, r, Reverse(walk)) != Ranked(q, opt, r, walk)
  {
    var a := Ranked(q, opt, r, walk);
    var level := ValueBy(opt)(a[i]);
    var at := (f: Flight) => SortValue(FieldOf(opt), f) == level;
    TiesTurn(q, opt, r, walk, at, level);
    ListedOnce(q, opt, r, walk);
    assert NoDuplicates(a) by {
      forall k, l | 0 <= k < l < |a|
        ensures a[k] != a[l]
      {
        assert MapSeq(FlightKey, a)[k] != MapSeq(FlightKey, a)[l];
      }
    }
    KeepNoDuplicates(at, a);
    KeepTwo(at, a, i, j);
    if Ranked(q, opt, r, Reverse(walk)) == a {
      MirrorIsShort(Keep(at, a));
    }
  }

  /** For stamped results the ranked list is the same under every schedule exactly when no two of its flights share a sort value. */
  lemma OneListIff(q: LegQuery, opt: SortOption, r: seq<ProviderResult>, walk: seq<string>)
    requires Stamped(r) && IsWalk(walk, Offers(q, r))
    ensures OneList(q, opt, r, Ranked(q, opt, r, walk)) <==> NoDuplicates(ToReals(ValueBy(opt), Ranked(q, opt, r, walk)))
  {
    var v, a := ValueBy(opt), Ranked(q, opt, r, walk);
    if NoDuplicates(ToReals(v, a)) {
      forall t, walk' | multiset(t) == multiset(r) && IsWalk(walk', Offers(q, t))
        ensures Ranked(q, opt, t, walk') == a
      {
        ScheduleIndependence(q, opt, r, t, walk, walk');
        DistinctValuesFix(v, a, Ranked(q, opt, t, walk'));
      }
    } else {
      var i, j :| 0 <= i < j < |a| && ToReals(v, a)[i] == ToReals(v, a)[j];
      TiedListsDiffer(q, opt, r, walk, i, j);
    }
  }

  // ---- providers that name themselves as they please ----

  lemma GatherOfThree(a: seq<ProviderResult>, x: seq<ProviderResult>, b: seq<ProviderResult>)
    ensures multiset(Gather(a + (x + b))) == multiset(Gather(a + b)) + multiset(Gather(x))
  {
    GatherConcat(a, x + b);
    GatherConcat(x, b);
    GatherConcat(a, b);
  }

  lemma {:induction false} GatherPermuted(r: seq<ProviderResult>, t: seq<ProviderResult>)
    requires multiset(r) == multiset(t)
    ensures multiset(Gather(r)) == multiset(Gather(t))
    decreases |r|
  {
    if r != [] {
      var a, b := FindFirst(r, t);
      GatherPermuted(r[1..], a + b);
      GatherOfThree([], [r[0]], r[1..]);
      GatherOfThree(a, [r[0]], b);
      assert r == [] + ([r[0]] + r[1..]) && r[1..] == [] + r[1..];
    } else {
      assert |t| == |multiset(t)| == |multiset(r)| == 0;
    }
  }

  lemma CandidatesPermuted(q: LegQuery, r: seq<ProviderResult>, t: seq<ProviderResult>)
    requires multiset(r) == multiset(t)
    ensures multiset(Candidates(q, r)) == multiset(Candidates(q, t))
  {
    GatherPermuted(r, t);
    MapPermuted(NormalizeDuration, Gather(r), Gather(t));
    KeepPermuted(AcceptedBy(q), MapSeq(NormalizeDuration, Gather(r)), MapSeq(NormalizeDuration, Gather(t)));
  }

  /** Flights no sort field tells apart before scoring. */
  predicate Twins(f: Flight, g: Flight) {
    && f.price.amount == g.price.amount && f.provider == g.provider
    && f.durationMinute == g.durationMinute
    && f.departure.time == g.departure.time && f.arrival.time == g.arrival.time
  }

  ghost predicate TwinMaps(a: Best, b: Best) {
    a.Keys == b.Keys && forall k :: k in a ==> Twins(a[k], b[k])
  }

  /** A value that twins share occurs equally often in both listings. */
  lemma ListedValues<T>(a: Best, b: Best, walk: seq<string>, walk': seq<string>, v: Flight -> T, v': Flight -> T)
    requires TwinMaps(a, b) && IsWalk(walk, a) && IsWalk(walk', b)
    requires forall k :: k in a ==> v(a[k]) == v'(b[k])
    ensures multiset(MapSeq(v, Listing(a, walk))) == multiset(MapSeq(v', Listing(b, walk')))
  {
    if walk == [] {
      assert forall k :: k !in walk';
    } else {
      assert walk[0] in a;
      var g := k => if k in a then v(a[k]) else v(a[walk[0]]);
      ListingsPermuted(walk, walk');
      MapPermuted(g, walk, walk');
      assert MapSeq(v, Listing(a, walk)) == MapSeq(g, walk);
      assert MapSeq(v', Listing(b, walk')) == MapSeq(g, walk');
    }
  }

  ghost predicate AlikeOnTwins(v: Flight -> real, v': Flight -> real) {
    forall f, g :: Twins(f, g) ==> v(f) == v'(g)
  }

  /** Twins with one score have one value. */
  ghost predicate SeesOnlyScore(v: Flight -> real) {
    forall f, g :: Twins(f, g) && f.bestValueScore == g.bestValueScore ==> v(f) == v(g)
  }

  lemma SortValuesSeeOnlyScore(opt: SortOption)
    ensures SeesOnlyScore(ValueBy(opt))
  {
  }

  /** The value a flight will have once `score` is written into it. */
  function Rescored(v: Flight -> real, score: Flight -> real): (w: Flight -> real)
    ensures forall f :: w(f) == v(f.(bestValueScore := score(f)))
  {
    (f: Flight) => v(f.(bestValueScore := score(f)))
  }

  lemma RescoredValues(v: Flight -> real, s: seq<Flight>)
    requires s != []
    ensures ToReals(v, Scored(s)) ==
            MapSeq(Rescored(v, ScoreBy(MapSeq(PriceOf, s), MapSeq(DurationOf, s))), s)
  {
  }

  lemma TwinsScoreAlike(p: seq<int>, d: seq<int>, p': seq<int>, d': seq<int>)
    requires p != [] && d != [] && p' != [] && d' != []
    requires multiset(p) == multiset(p') && multiset(d) == multiset(d')
    ensures AlikeOnTwins(ScoreBy(p, d), ScoreBy(p', d'))
  {
    ExtremesPermuted(p, p');
    ExtremesPermuted(d, d');
  }

  lemma RescoredAlike(v: Flight -> real, score: Flight -> real, score': Flight -> real)
    requires SeesOnlyScore(v) && AlikeOnTwins(score, score')
    ensures AlikeOnTwins(Rescored(v, score), Rescored(v, score'))
  {
    forall f, g | Twins(f, g)
      ensures Rescored(v, score)(f) == Rescored(v, score')(g)
    {
      assert Twins(f.(bestValueScore := score(f)), g.(bestValueScore := score'(g)));
    }
  }

  lemma ListedScoreValues(v: Flight -> real, a: Best, b: Best, walk: seq<string>, walk': seq<string>)
    requires TwinMaps(a, b) && IsWalk(walk, a) && IsWalk(walk', b)
    requires SeesOnlyScore(v)
    ensures multiset(ToReals(v, Scored(Listing(a, walk)))) == multiset(ToReals(v, Scored(Listing(b, walk'))))
  {
    var s, t := Listing(a, walk), Listing(b, walk');
    var p, d, p', d' := MapSeq(PriceOf, s), MapSeq(DurationOf, s), MapSeq(PriceOf, t), MapSeq(DurationOf, t);
    ListedValues(a, b, walk, walk', PriceOf, PriceOf);
    ListedValues(a, b, walk, walk', DurationOf, DurationOf);
    assert |walk| == |multiset(p)| == |multiset(p')| == |walk'|;
    if s != [] {
      TwinsScoreAlike(p, d, p', d');
      RescoredAlike(v, ScoreBy(p, d), ScoreBy(p', d'));
      ListedAlike(a, b, walk, walk', Rescored(v, ScoreBy(p, d)), Rescored(v, ScoreBy(p', d')));
      RescoredValues(v, s);
      RescoredValues(v, t);
    }
  }

  lemma ListedAlike(a: Best, b: Best, walk: seq<string>, walk': seq<string>, v: Flight -> real, v': Flight -> real)
    requires TwinMaps(a, b) && IsWalk(walk, a) && IsWalk(walk', b)
    requires AlikeOnTwins(v, v')
    ensures multiset(MapSeq(v, Listing(a, walk))) == multiset(MapSeq(v', Listing(b, walk')))
  {
    ListedValues(a, b, walk, walk', v, v');
  }

  /** What a response shows of a flight for comparing fares: its key, price and provider. */
  datatype Fare = Fare(key: string, amount: int, provider: string)

  function FareOf(f: Flight): (r: Fare) {
    Fare(FlightKey(f), f.price.amount, f.provider)
  }

  function Fares(flights: seq<Flight>): (r: multiset<Fare>) {
    multiset(MapSeq(FareOf, flights))
  }

  lemma ScoringKeepsFares(s: seq<Flight>)
    ensures MapSeq(FareOf, Scored(s)) == MapSeq(FareOf, s)
  {
    forall i | 0 <= i < |s|
      ensures FareOf(Scored(s)[i]) == FareOf(s[i])
    {
      SameKeyFields(Scored(s)[i], s[i]);
    }
  }

  lemma RankedFares(q: LegQuery, opt: SortOption, r: seq<ProviderResult>, walk: seq<string>)
    requires IsWalk(walk, Offers(q, r))
    ensures Fares(Ranked(q, opt, r, walk)) == Fares(LegFlights(q, r, walk))
  {
    var s := LegFlights(q, r, walk);
    SortingKeepsContents(Scored(s), opt);
    MapPermuted(FareOf, Scored(s), Ranked(q, opt, r, walk));
    ScoringKeepsFares(s);
  }

  lemma OffersAreTwins(q: LegQuery, r: seq<ProviderResult>, t: seq<ProviderResult>)
    requires multiset(r) == multiset(t) && OwnersAgree(OwnBest(q), DurationOf, r)
    ensures TwinMaps(Offers(q, r), Offers(q, t))
  {
    ArrivalShowsIff(q, DurationOf, r);
    OffersMerge(q, r);
    OffersMerge(q, t);
    forall k
      ensures k in Offers(q, r) <==> k in Offers(q, t)
      ensures k in Offers(q, r) ==> Twins(Offers(q, r)[k], Offers(q, t)[k])
    {
      if k in Offers(q, r) {
        KeptUnderOneKey(q, r, t, k);
        KeyFixesTimes(Offers(q, r)[k], Offers(q, t)[k]);
        assert DurationOf(Offers(q, t)[k]) == DurationOf(Offers(q, r)[k]);
      } else if k in Offers(q, t) {
        KeysArrive(OwnBest(q), t, r, k);
      }
    }
  }

  lemma KeptUnderOneKey(q: LegQuery, r: seq<ProviderResult>, t: seq<ProviderResult>, k: string)
    requires multiset(r) == multiset(t) && k in Offers(q, r) && k in Offers(q, t)
    ensures FlightKey(Offers(q, r)[k]) == FlightKey(Offers(q, t)[k])
    ensures FareOf(Offers(q, r)[k]) == FareOf(Offers(q, t)[k])
  {
    KeptUnderOwnKey(FlightKey, Candidates(q, r), k);
    KeptUnderOwnKey(FlightKey, Candidates(q, t), k);
    var a, b := Candidates(q, r), Candidates(q, t);
    CandidatesPermuted(q, r, t);
    DedupOfPermuted(FlightKey, a, b);
  }

  /**
   Whatever names flights carry: when the unbeaten providers of each key agree on its duration, the
   ranked list has the same sequence of sort values and the same fares under every schedule.
   */
  lemma ValuesIndependence(
      q: LegQuery, opt: SortOption,
      r: seq<ProviderResult>, t: seq<ProviderResult>, walk: seq<string>, walk': seq<string>)
    requires multiset(r) == multiset(t) && OwnersAgree(OwnBest(q), DurationOf, r)
    requires IsWalk(walk, Offers(q, r)) && IsWalk(walk', Offers(q, t))
    ensures ToReals(ValueBy(opt), Ranked(q, opt, r, walk)) == ToReals(ValueBy(opt), Ranked(q, opt, t, walk'))
    ensures Fares(Ranked(q, opt, r, walk)) == Fares(Ranked(q, opt, t, walk'))
  {
    var a, b := Offers(q, r), Offers(q, t);
    OffersAreTwins(q, r, t);
    SortValuesSeeOnlyScore(opt);
    ListedScoreValues(ValueBy(opt), a, b, walk, walk');
    RankedValuesFixed(Scored(Listing(a, walk)), Scored(Listing(b, walk')), opt);
    RankedFares(q, opt, r, walk);
    RankedFares(q, opt, t, walk');
    forall k | k in a
      ensures FareOf(a[k]) == FareOf(b[k])
    {
      KeptUnderOneKey(q, r, t, k);
    }
    ListedValues(a, b, walk, walk', FareOf, FareOf);
  }

  /** Matching flights of at least a minute meet that condition. */
  lemma LongFlightsAgree(q: LegQuery, results: seq<ProviderResult>)
    requires forall f :: Offered(results, f) && Wanted(q, NormalizeDuration(f)) ==> AtLeastAMinute(f)
    ensures OwnersAgree(OwnBest(q), DurationOf, results)
  {
    forall x, y, k | x in results && y in results && Unbeaten(OwnBest(q), results, x, k) && Unbeaten(OwnBest(q), results, y, k)
      ensures DurationOf(OwnBest(q)(x)[k]) == DurationOf(OwnBest(q)(y)[k])
    {
      OwnBestSettled(q, results, x, k);
      OwnBestSettled(q, results, y, k);
      KeyFixesDuration(OwnBest(q)(x)[k], OwnBest(q)(y)[k]);
    }
  }

  lemma OwnBestSettled(q: LegQuery, results: seq<ProviderResult>, x: ProviderResult, k: string)
    requires forall f :: Offered(results, f) && Wanted(q, NormalizeDuration(f)) ==> AtLeastAMinute(f)
    requires x in results && k in OwnBest(q)(x)
    ensures var f := OwnBest(q)(x)[k];
      && FlightKey(f) == k && Settled(f)
      && !IsZero(f.departure.time) && !IsZero(f.arrival.time) && After(f.arrival.time, f.departure.time)
  {
    KeptUnderOwnKey(FlightKey, Candidates(q, [x]), k);
    var g := CandidateFrom(q, [x], OwnBest(q)(x)[k]);
    assert Offered(results, g);
    NormalizedIsSettled(g);
  }
}
