/** What an answer holds, said in terms of the input and the providers' offers alone, and when it comes from the cache. */
module Answers {
  import opened Seqs
  import opened Text
  import opened Times
  import opened Entity
  import opened Filters
  import opened Ranking
  import opened Query
  import opened Search
  import opened Service
  import TtlMap

  // ---- one leg ----

  /** The flight as offered, apart from its recomputed duration and its score. */
  ghost predicate ShownAs(g: Flight, f: Flight) {
    IsRecomputed(g, f.(bestValueScore := g.bestValueScore))
  }

  /** As cheap or cheaper, and if only as cheap then not from a later-named provider. */
  predicate NoWorse(f: Flight, g: Flight) {
    f.price.amount <= g.price.amount && (f.price.amount == g.price.amount ==> !StrLess(g.provider, f.provider))
  }

  /**
   The list answers a leg: it holds offers that meet the test; for every offer that meets it, one with the same key
   that is no worse; no key twice; in the asked order; each with the score it gets in this list.
   */
  ghost predicate AnswersLeg(list: seq<Flight>, outcomes: seq<ProviderResult>, meets: Flight -> bool, opt: SortOption) {
    && (forall f :: f in list ==> meets(f) && exists g :: Offered(outcomes, g) && ShownAs(g, f))
    && (forall g, h :: Offered(outcomes, g) && IsRecomputed(g, h) && meets(h) ==> Represented(list, g))
    && NoDuplicates(MapSeq(FlightKey, list))
    && InAskedOrder(opt, list)
    && forall f :: f in list ==> HasListScore(list, f)
  }

  ghost predicate Represented(list: seq<Flight>, g: Flight) {
    exists f :: f in list && FlightKey(f) == FlightKey(g) && NoWorse(f, g)
  }

  lemma RecomputedOnce(f: Flight, g: Flight)
    requires IsRecomputed(f, g)
    ensures g == NormalizeDuration(f)
  {
    NormalizedIsRecomputed(f);
    assert g == f.(durationMinute := g.durationMinute);
  }

  lemma WantedWithAnyScore(q: LegQuery, f: Flight, score: real)
    ensures Wanted(q, f.(bestValueScore := score)) <==> Wanted(q, f)
  {
  }

  lemma OfferedInAnyOrder(r: seq<ProviderResult>, t: seq<ProviderResult>, g: Flight)
    requires multiset(r) == multiset(t) && Offered(r, g)
    ensures Offered(t, g)
  {
    var x :| x in r && x.outcome.Found? && g in x.outcome.flights;
    assert x in multiset(t);
  }

  lemma ListedIsShown(
      q: LegQuery, opt: SortOption, outcomes: seq<ProviderResult>, arrived: seq<ProviderResult>, walk: seq<string>, f: Flight)
    requires LegFeasible(q, outcomes, arrived, walk) && f in Ranked(q, opt, arrived, walk)
    ensures Wanted(q, f) && exists g :: Offered(outcomes, g) && ShownAs(g, f)
  {
    var g := ListedIsWanted(q, opt, arrived, walk, f);
    OfferedInAnyOrder(arrived, outcomes, g);
    NormalizedIsRecomputed(g);
    WantedWithAnyScore(q, NormalizeDuration(g), f.bestValueScore);
    assert f.(bestValueScore := g.bestValueScore) == NormalizeDuration(g);
  }

  lemma OfferIsRepresented(
      q: LegQuery, opt: SortOption, outcomes: seq<ProviderResult>, arrived: seq<ProviderResult>, walk: seq<string>,
      g: Flight, h: Flight)
    requires LegFeasible(q, outcomes, arrived, walk)
    requires Offered(outcomes, g) && IsRecomputed(g, h) && Wanted(q, h)
    ensures Represented(Ranked(q, opt, arrived, walk), g)
  {
    RecomputedOnce(g, h);
    OfferedInAnyOrder(outcomes, arrived, g);
    var f := WantedIsListed(q, opt, arrived, walk, g);
    assert NoWorse(f, g);
  }

  lemma LegIsAnswered(
      q: LegQuery, opt: SortOption, outcomes: seq<ProviderResult>, arrived: seq<ProviderResult>, walk: seq<string>,
      meets: Flight -> bool)
    requires LegFeasible(q, outcomes, arrived, walk) && forall f :: Wanted(q, f) <==> meets(f)
    ensures AnswersLeg(Ranked(q, opt, arrived, walk), outcomes, meets, opt)
  {
    var list := Ranked(q, opt, arrived, walk);
    forall f | f in list
      ensures meets(f) && exists g :: Offered(outcomes, g) && ShownAs(g, f)
    {
      ListedIsShown(q, opt, outcomes, arrived, walk, f);
    }
    forall g, h | Offered(outcomes, g) && IsRecomputed(g, h) && meets(h)
      ensures Represented(list, g)
    {
      OfferIsRepresented(q, opt, outcomes, arrived, walk, g, h);
    }
    forall f | f in list
      ensures HasListScore(list, f)
    {
      ListedScores(q, opt, arrived, walk, f);
    }
    ListedOnce(q, opt, arrived, walk);
    SortedInAskedOrder(Score.Scored(LegFlights(q, arrived, walk)), opt);
  }

  // ---- the whole answer ----

  function OutboundTest(x: FlightsInput): (meets: Flight -> bool)
    ensures forall f :: meets(f) <==> MeetsOutbound(x, f)
  {
    f => MeetsOutbound(x, f)
  }

  function ReturnTest(x: FlightsInput): (meets: Flight -> bool)
    requires x.returnDate.Some?
    ensures forall f :: meets(f) <==> MeetsReturn(x, f)
  {
    f => MeetsReturn(x, f)
  }

  /** Both lists answer their legs, each against what the providers said when asked for that leg. */
  ghost predicate AnswersInput(x: FlightsInput, world: World, a: Output) {
    && AnswersLeg(a.flights,
                  world(SearchRequest(x.origin, x.destination, x.departureDate, x.passengers, x.cabinClass)),
                  OutboundTest(x), x.sort)
    && if x.returnDate.None? then a.returnFlights == []
       else AnswersLeg(a.returnFlights,
                       world(SearchRequest(x.destination, x.origin, x.returnDate.value, x.passengers, x.cabinClass)),
                       ReturnTest(x), x.sort)
  }

  /** Under every schedule the computed answer is an answer to the input. */
  lemma ComputedAnswers(x: FlightsInput, names: seq<string>, world: World, s: Schedule, elapsed: int)
    requires Feasible(x, world, s)
    ensures AnswersInput(x, world, Compute(x, names, world, s, elapsed))
  {
    forall f
      ensures Wanted(OutboundQuery(x), f) <==> OutboundTest(x)(f)
    {
      OutboundIff(x, f);
    }
    LegIsAnswered(OutboundQuery(x), x.sort, world(OutboundRequest(x)), s.outbound, s.outboundWalk, OutboundTest(x));
    if x.returnDate.Some? {
      forall f
        ensures Wanted(ReturnQuery(x), f) <==> ReturnTest(x)(f)
      {
        ReturnIff(x, f);
      }
      LegIsAnswered(ReturnQuery(x), x.sort, world(ReturnRequest(x)), s.inbound, s.inboundWalk, ReturnTest(x));
    }
  }

  /** What the answer says about itself: the input as typed, the number of flights shown, the time taken, and no hit. */
  lemma ComputedLabels(x: FlightsInput, names: seq<string>, world: World, s: Schedule, elapsed: int)
    requires Feasible(x, world, s)
    ensures var a := Compute(x, names, world, s, elapsed); var c, m := a.searchCriteria, a.metadata;
      && c.origin == x.origin && c.destination == x.destination && c.passengers == x.passengers && c.cabinClass == x.cabinClass
      && c.departureDate == DateText(DateOf(x.departureDate))
      && (c.returnDate.None? <==> x.returnDate.None?)
      && (x.returnDate.Some? ==> c.returnDate == Some(DateText(DateOf(x.returnDate.value))))
      && m.totalResults == |a.flights| + |a.returnFlights| && m.searchTimeMs == elapsed && !m.cacheHit
  {
  }

  // ---- when an answer comes from the cache ----

  predicate IsHit(m: TtlMap.Entries<Output>, c: Call) {
    TtlMap.Probe(m, BuildCacheKey(c.input), c.probed).Some?
  }

  /** A hit is marked as one and nothing else is; both report the time of this call. */
  lemma ServedLabels(names: seq<string>, world: World, ttl: int, m: TtlMap.Entries<Output>, c: Call)
    requires Admissible(world, c)
    ensures var v := Serve(names, world, ttl, m, c).0;
      (v.metadata.cacheHit <==> IsHit(m, c)) && v.metadata.searchTimeMs == c.elapsed
  {
  }

  /** What is served on a hit is the stored answer, but for the mark and the time. */
  lemma HitKeepsAnswer(names: seq<string>, world: World, ttl: int, m: TtlMap.Entries<Output>, c: Call, v: Output)
    requires Admissible(world, c) && TtlMap.Probe(m, BuildCacheKey(c.input), c.probed) == Some(v)
    ensures var w := Serve(names, world, ttl, m, c).0;
      && w.searchCriteria == v.searchCriteria && w.flights == v.flights && w.returnFlights == v.returnFlights
      && SameMetadata(w.metadata, v.metadata)
  {
    ServedFromCache(names, world, ttl, m, c, v);
  }

  /** Calls made one after another, each storing after it probed. */
  ghost predicate OneAfterAnother(calls: seq<Call>) {
    && (forall j :: 0 <= j < |calls| ==> calls[j].probed <= calls[j].stored)
    && forall j, k :: 0 <= j < k < |calls| ==> calls[j].stored <= calls[k].probed
  }

  /** The entries before each call and after the last, starting from none. */
  ghost predicate IsHistory(names: seq<string>, world: World, ttl: int, calls: seq<Call>, ms: seq<TtlMap.Entries<Output>>) {
    && AllAdmissible(world, calls)
    && |ms| == |calls| + 1 && ms[0] == map[]
    && forall j :: 0 <= j < |calls| ==> Admissible(world, calls[j]) && ms[j + 1] == Serve(names, world, ttl, ms[j], calls[j]).1
  }

  /** The entries after any calls, as histories have them. */
  lemma {:induction false} HistoryEnds(
      names: seq<string>, world: World, ttl: int, calls: seq<Call>, ms: seq<TtlMap.Entries<Output>>)
    requires IsHistory(names, world, ttl, calls, ms)
    ensures ms[|calls|] == EntriesAfter(names, world, ttl, calls)
  {
    if calls == [] {
    } else {
      HistoryEnds(names, world, ttl, calls[..|calls| - 1], ms[..|calls|]);
    }
  }

  /** What a call makes of the entries: nothing on a hit, otherwise an entry that lasts a lifetime from its store. */
  ghost predicate Moved(ttl: int, m: TtlMap.Entries<Output>, key: string, probed: int, stored: int, r: TtlMap.Entries<Output>) {
    if TtlMap.Probe(m, key, probed).Some? then r == m
    else key in r && r == m[key := TtlMap.Slot(r[key].value, stored + ttl)]
  }

  lemma ServeMoves(names: seq<string>, world: World, ttl: int, m: TtlMap.Entries<Output>, c: Call)
    requires Admissible(world, c)
    ensures Moved(ttl, m, BuildCacheKey(c.input), c.probed, c.stored, Serve(names, world, ttl, m, c).1)
  {
    var key := BuildCacheKey(c.input);
    match TtlMap.Probe(m, key, c.probed)
    case Some(v) => ServedFromCache(names, world, ttl, m, c, v);
    case None =>
      var v := Compute(c.input, names, world, c.schedule, c.elapsed);
      ServedByComputing(names, world, ttl, m, c, v);
      SetAfterMiss(m, key, c.probed, v, c.stored, ttl);
  }

  lemma SetAfterMiss(m: TtlMap.Entries<Output>, key: string, probed: int, v: Output, stored: int, ttl: int)
    requires TtlMap.Probe(m, key, probed).None?
    ensures Moved(ttl, m, key, probed, stored, TtlMap.AfterSet(TtlMap.AfterGet(m, key, probed), key, v, stored, ttl))
  {
  }

  // ---- one key over time ----

  function Lasts(m: TtlMap.Entries<Output>, k: string): (r: Option<int>) {
    if k in m then Some(m[k].expiry) else None
  }

  /** A visit to a key and what it leaves, seen from key `k`. */
  lemma EntryAfterVisit(ttl: int, m: TtlMap.Entries<Output>, key: string, probed: int, stored: int, r: TtlMap.Entries<Output>, k: string)
    requires Moved(ttl, m, key, probed, stored, r)
    ensures var hit := TtlMap.Probe(m, key, probed).Some?;
      && (key == k ==> (hit <==> Lasts(m, k).Some? && probed <= Lasts(m, k).value))
      && Lasts(r, k) == if key == k && !hit then Some(stored + ttl) else Lasts(m, k)
  {
  }

  /** What happens to one key: which calls ask for it, which of them hit, and until when its entry lasts before each. */
  datatype Visit = Visit(mine: bool, hit: bool, probed: int, stored: int)

  ghost predicate IsLog(visits: seq<Visit>, lasts: seq<Option<int>>, ttl: int) {
    && |lasts| == |visits| + 1 && lasts[0] == None
    && (forall j :: 0 <= j < |visits| ==> visits[j].probed <= visits[j].stored)
    && (forall j, k :: 0 <= j < k < |visits| ==> visits[j].stored <= visits[k].probed)
    && (forall j :: 0 <= j < |visits| && visits[j].mine ==>
          (visits[j].hit <==> lasts[j].Some? && visits[j].probed <= lasts[j].value))
    && forall j :: 0 <= j < |visits| ==>
         lasts[j + 1] == if visits[j].mine && !visits[j].hit then Some(visits[j].stored + ttl) else lasts[j]
  }

  ghost predicate StoredAt(visits: seq<Visit>, j: int) {
    0 <= j < |visits| && visits[j].mine && !visits[j].hit
  }

  /** The entry before visit `n` lasts as long as the latest store, which is at least as long as any before it. */
  lemma {:induction false} LatestLasts(visits: seq<Visit>, lasts: seq<Option<int>>, ttl: int, n: int)
    requires IsLog(visits, lasts, ttl) && 0 <= n <= |visits|
    ensures lasts[n].Some? ==> exists j :: j < n && StoredAt(visits, j) && lasts[n] == Some(visits[j].stored + ttl)
    ensures forall j :: j < n && StoredAt(visits, j) ==> lasts[n].Some? && visits[j].stored + ttl <= lasts[n].value
  {
    if n == 0 {
    } else {
      LatestLasts(visits, lasts, ttl, n - 1);
      assert lasts[(n - 1) + 1] == lasts[n];
      if StoredAt(visits, n - 1) {
        assert lasts[n] == Some(visits[n - 1].stored + ttl);
      }
    }
  }

  lemma VisitHits(visits: seq<Visit>, lasts: seq<Option<int>>, ttl: int, i: int)
    requires IsLog(visits, lasts, ttl) && 0 <= i < |visits| && visits[i].mine
    ensures visits[i].hit <==> exists j :: j < i && StoredAt(visits, j) && visits[i].probed <= visits[j].stored + ttl
  {
    LatestLasts(visits, lasts, ttl, i);
  }

  ghost predicate Moves(ttl: int, keys: seq<string>, calls: seq<Call>, ms: seq<TtlMap.Entries<Output>>) {
    && |keys| == |calls| && |ms| == |calls| + 1 && ms[0] == map[]
    && forall j :: 0 <= j < |calls| ==> Moved(ttl, ms[j], keys[j], calls[j].probed, calls[j].stored, ms[j + 1])
  }

  function VisitOf(key: string, c: Call, m: TtlMap.Entries<Output>, k: string): (v: Visit) {
    Visit(key == k, TtlMap.Probe(m, key, c.probed).Some?, c.probed, c.stored)
  }

  function VisitsOf(keys: seq<string>, calls: seq<Call>, ms: seq<TtlMap.Entries<Output>>, k: string): (visits: seq<Visit>)
    requires |keys| == |calls| && |ms| == |calls| + 1
    ensures |visits| == |calls|
    ensures forall j :: 0 <= j < |calls| ==> visits[j] == VisitOf(keys[j], calls[j], ms[j], k)
  {
    seq(|calls|, j requires 0 <= j < |calls| => VisitOf(keys[j], calls[j], ms[j], k))
  }

  function LastsOf(ms: seq<TtlMap.Entries<Output>>, k: string): (lasts: seq<Option<int>>)
    ensures |lasts| == |ms|
    ensures forall j :: 0 <= j < |ms| ==> lasts[j] == Lasts(ms[j], k)
  {
    seq(|ms|, j requires 0 <= j < |ms| => Lasts(ms[j], k))
  }

  lemma CallsAreVisits(ttl: int, keys: seq<string>, calls: seq<Call>, ms: seq<TtlMap.Entries<Output>>, k: string)
    requires Moves(ttl, keys, calls, ms) && OneAfterAnother(calls)
    ensures IsLog(VisitsOf(keys, calls, ms, k), LastsOf(ms, k), ttl)
  {
    var visits, lasts := VisitsOf(keys, calls, ms, k), LastsOf(ms, k);
    forall j | 0 <= j < |calls|
      ensures visits[j].mine ==> (visits[j].hit <==> lasts[j].Some? && visits[j].probed <= lasts[j].value)
      ensures lasts[j + 1] == if visits[j].mine && !visits[j].hit then Some(visits[j].stored + ttl) else lasts[j]
    {
      EntryAfterVisit(ttl, ms[j], keys[j], calls[j].probed, calls[j].stored, ms[j + 1], k);
    }
  }

  // ---- calls ----

  function KeyOf(c: Call): (key: string) {
    BuildCacheKey(c.input)
  }

  lemma HistoryMoves(names: seq<string>, world: World, ttl: int, calls: seq<Call>, ms: seq<TtlMap.Entries<Output>>)
    requires IsHistory(names, world, ttl, calls, ms)
    ensures Moves(ttl, MapSeq(KeyOf, calls), calls, ms)
  {
    forall j | 0 <= j < |calls|
      ensures Moved(ttl, ms[j], KeyOf(calls[j]), calls[j].probed, calls[j].stored, ms[j + 1])
    {
      ServeMoves(names, world, ttl, ms[j], calls[j]);
    }
  }

  /** Call `j` asked for the key and, not finding it, stored an answer under it. */
  predicate StoredUnder(calls: seq<Call>, ms: seq<TtlMap.Entries<Output>>, j: int, k: string)
    requires |ms| == |calls| + 1
  {
    0 <= j < |calls| && KeyOf(calls[j]) == k && !IsHit(ms[j], calls[j])
  }

  /** A call is answered from the cache exactly when an earlier one stored an answer under its key that has not run out. */
  lemma HitExactly(
      names: seq<string>, world: World, ttl: int, calls: seq<Call>, ms: seq<TtlMap.Entries<Output>>, i: int)
    requires IsHistory(names, world, ttl, calls, ms) && OneAfterAnother(calls) && 0 <= i < |calls|
    ensures IsHit(ms[i], calls[i]) <==>
            exists j :: j < i && StoredUnder(calls, ms, j, KeyOf(calls[i])) && calls[i].probed <= calls[j].stored + ttl
  {
    var keys, k := MapSeq(KeyOf, calls), KeyOf(calls[i]);
    var visits := VisitsOf(keys, calls, ms, k);
    HistoryMoves(names, world, ttl, calls, ms);
    CallsAreVisits(ttl, keys, calls, ms, k);
    VisitHits(visits, LastsOf(ms, k), ttl, i);
    forall j
      ensures StoredUnder(calls, ms, j, k) <==> StoredAt(visits, j)
    {
    }
  }
}
