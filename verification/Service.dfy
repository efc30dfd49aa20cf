/** The whole search: both legs, provider statistics, and answers that may come from the cache. */
module Service {
  import opened Seqs
  import opened Text
  import opened Times
  import opened Entity
  import opened Dedup
  import opened Filters
  import opened Score
  import opened StableSort
  import opened Ranking
  import opened Query
  import opened Search
  import opened Arrival
  import opened KeyTwins
  import TtlMap

  datatype SearchRequest = SearchRequest(
    origin: string, destination: string, departureDate: Time, passengers: int, cabinClass: string)

  /** What the providers answer, in provider order; retries, timeouts and rate limits are inside. */
  type World = SearchRequest -> seq<ProviderResult>

  datatype SearchCriteria = SearchCriteria(
    origin: string, destination: string, departureDate: string, returnDate: Option<string>,
    passengers: int, cabinClass: string)

  datatype SearchMetadata = SearchMetadata(
    totalResults: int, providersQueried: int, providersSucceeded: int, providersFailed: int,
    searchTimeMs: int, cacheHit: bool, failedProviders: seq<string>)

  datatype Output = Output(
    searchCriteria: SearchCriteria, metadata: SearchMetadata, flights: seq<Flight>, returnFlights: seq<Flight>)

  function OutboundRequest(x: FlightsInput): (r: SearchRequest) {
    SearchRequest(x.origin, x.destination, x.departureDate, x.passengers, x.cabinClass)
  }

  function ReturnRequest(x: FlightsInput): (r: SearchRequest)
    requires x.returnDate.Some?
  {
    SearchRequest(x.destination, x.origin, x.returnDate.value, x.passengers, x.cabinClass)
  }

  /** Everything a run leaves to chance: arrival orders and map walks of both legs. */
  datatype Schedule = Schedule(
    outbound: seq<ProviderResult>, outboundWalk: seq<string>,
    inbound: seq<ProviderResult>, inboundWalk: seq<string>)

  ghost predicate LegFeasible(q: LegQuery, outcomes: seq<ProviderResult>, arrived: seq<ProviderResult>, walk: seq<string>) {
    multiset(arrived) == multiset(outcomes) && IsWalk(walk, Offers(q, arrived))
  }

  ghost predicate Feasible(x: FlightsInput, world: World, s: Schedule) {
    && LegFeasible(OutboundQuery(x), world(OutboundRequest(x)), s.outbound, s.outboundWalk)
    && if x.returnDate.Some?
       then LegFeasible(ReturnQuery(x), world(ReturnRequest(x)), s.inbound, s.inboundWalk)
       else s.inbound == [] && s.inboundWalk == []
  }

  function EchoedCriteria(x: FlightsInput): (c: SearchCriteria) {
    SearchCriteria(x.origin, x.destination, FormatDate(x.departureDate),
                   if x.returnDate.None? then None else Some(FormatDate(x.returnDate.value)),
                   x.passengers, x.cabinClass)
  }

  function Assemble(
      x: FlightsInput, names: seq<string>, flights: seq<Flight>, returnFlights: seq<Flight>,
      outbound: set<string>, inbound: set<string>, elapsed: int): (r: Output)
  {
    var failed := FailedNames(names, outbound, inbound);
    Output(EchoedCriteria(x),
           SearchMetadata(|flights| + |returnFlights|, |names|, |names| - |failed|, |failed|, elapsed, false, failed),
           flights, returnFlights)
  }

  /** The answer computed from the providers under one schedule. */
  ghost function Compute(x: FlightsInput, names: seq<string>, world: World, s: Schedule, elapsed: int): (r: Output)
    requires Feasible(x, world, s)
  {
    Assemble(x, names,
             Ranked(OutboundQuery(x), x.sort, s.outbound, s.outboundWalk),
             if x.returnDate.Some? then Ranked(ReturnQuery(x), x.sort, s.inbound, s.inboundWalk) else [],
             Succeeded(s.outbound), Succeeded(s.inbound), elapsed)
  }

  function MarkHit(v: Output, elapsed: int): (r: Output) {
    v.(metadata := v.metadata.(cacheHit := true, searchTimeMs := elapsed))
  }

  /** The answer's two lists fly the asked route there on the departure date, and back on the return date if there is one. */
  lemma AnswerFliesTheRoute(x: FlightsInput, names: seq<string>, world: World, s: Schedule, elapsed: int, f: Flight)
    requires Feasible(x, world, s)
    ensures var answer := Compute(x, names, world, s, elapsed);
      && (f in answer.flights ==>
            && EqualFold(f.departure.airport, x.origin) && EqualFold(f.arrival.airport, x.destination)
            && LocalDay(f.departure.time) == LocalDay(x.departureDate))
      && (f in answer.returnFlights ==>
            && EqualFold(f.departure.airport, x.destination) && EqualFold(f.arrival.airport, x.origin)
            && x.returnDate.Some? && LocalDay(f.departure.time) == LocalDay(x.returnDate.value))
  {
    if f in Ranked(OutboundQuery(x), x.sort, s.outbound, s.outboundWalk) {
      var g := ListedIsWanted(OutboundQuery(x), x.sort, s.outbound, s.outboundWalk, f);
      FormatDateInjective(f.departure.time, x.departureDate);
    }
    if x.returnDate.Some? && f in Ranked(ReturnQuery(x), x.sort, s.inbound, s.inboundWalk) {
      var g := ListedIsWanted(ReturnQuery(x), x.sort, s.inbound, s.inboundWalk, f);
      FormatDateInjective(f.departure.time, x.returnDate.value);
    }
  }

  /** Each provider's own result comes back under its own name. */
  ghost predicate InProviderOrder(names: seq<string>, outcomes: seq<ProviderResult>) {
    |outcomes| == |names| && forall j :: 0 <= j < |names| ==> outcomes[j].name == names[j]
  }

  /** The metadata accounts for every provider: it failed exactly when no leg that was asked got an answer from it. */
  lemma ProvidersAccounted(x: FlightsInput, names: seq<string>, world: World, s: Schedule, elapsed: int, i: int)
    requires Feasible(x, world, s) && NoDuplicates(names) && 0 <= i < |names|
    requires InProviderOrder(names, world(OutboundRequest(x)))
    requires x.returnDate.Some? ==> InProviderOrder(names, world(ReturnRequest(x)))
    ensures var m := Compute(x, names, world, s, elapsed).metadata;
      && m.providersSucceeded + m.providersFailed == m.providersQueried == |names|
      && m.providersFailed == |m.failedProviders|
      && (names[i] in m.failedProviders <==>
            && world(OutboundRequest(x))[i].outcome.Failed?
            && (x.returnDate.Some? ==> world(ReturnRequest(x))[i].outcome.Failed?))
  {
    var back := if x.returnDate.Some? then world(ReturnRequest(x)) else [];
    SucceededPermuted(s.outbound, world(OutboundRequest(x)));
    SucceededPermuted(s.inbound, back);
    FailedExactly(names, world(OutboundRequest(x)), back, i);
  }

  // ---- when two answers are the same answer ----

  predicate SameMetadata(a: SearchMetadata, b: SearchMetadata) {
    a == b.(searchTimeMs := a.searchTimeMs, cacheHit := a.cacheHit)
  }

  predicate SameCriteria(a: SearchCriteria, b: SearchCriteria) {
    && EqualFold(a.origin, b.origin) && EqualFold(a.destination, b.destination) && EqualFold(a.cabinClass, b.cabinClass)
    && a.departureDate == b.departureDate && a.returnDate == b.returnDate && a.passengers == b.passengers
  }

  ghost predicate SameList(opt: SortOption, a: seq<Flight>, b: seq<Flight>) {
    && ToReals(ValueBy(opt), a) == ToReals(ValueBy(opt), b)
    && multiset(a) == multiset(b)
  }

  /** Equal, record by record, up to the hit mark, the time taken, letter case of the echo, and the order of flights that sort alike. */
  ghost predicate Equivalent(opt: SortOption, a: Output, b: Output) {
    && SameCriteria(a.searchCriteria, b.searchCriteria)
    && SameMetadata(a.metadata, b.metadata)
    && SameList(opt, a.flights, b.flights)
    && SameList(opt, a.returnFlights, b.returnFlights)
  }

  // ---- what is assumed of the providers ----

  predicate SameAsked(r: SearchRequest, t: SearchRequest) {
    && EqualFold(r.origin, t.origin) && EqualFold(r.destination, t.destination) && EqualFold(r.cabinClass, t.cabinClass)
    && FormatDate(r.departureDate) == FormatDate(t.departureDate) && r.passengers == t.passengers
  }

  /** Deterministic outcomes that do not look at letter case or time of day. */
  ghost predicate CaseBlind(world: World) {
    forall r, t :: SameAsked(r, t) ==> world(r) == world(t)
  }

  /** Distinct provider names, and every provider answers under its own name with flights that carry it. */
  ghost predicate Attributed(names: seq<string>, world: World) {
    && NoDuplicates(names)
    && forall r :: InProviderOrder(names, world(r)) && OwnFlights(world(r))
  }

  ghost predicate OwnFlights(outcomes: seq<ProviderResult>) {
    forall x, f :: x in outcomes && x.outcome.Found? && f in x.outcome.flights ==> f.provider == x.name
  }

  lemma AttributedIsStamped(names: seq<string>, world: World, r: SearchRequest)
    requires Attributed(names, world)
    ensures Stamped(world(r))
  {
    assert InProviderOrder(names, world(r)) && OwnFlights(world(r));
  }

  lemma StampedPermuted(r: seq<ProviderResult>, t: seq<ProviderResult>)
    requires multiset(r) == multiset(t) && Stamped(r)
    ensures Stamped(t)
  {
    forall x | x in t
      ensures x in r
    {
      assert x in multiset(r);
    }
    NamesStayDistinct(r, t);
  }

  function NameOf(x: ProviderResult): (name: string) { x.name }

  lemma NamesStayDistinct(r: seq<ProviderResult>, t: seq<ProviderResult>)
    requires multiset(r) == multiset(t) && forall i, j :: 0 <= i < j < |r| ==> r[i].name != r[j].name
    ensures forall i, j :: 0 <= i < j < |t| ==> t[i].name != t[j].name
  {
    var a, b := MapSeq(NameOf, r), MapSeq(NameOf, t);
    assert NoDuplicates(a);
    MapPermuted(NameOf, r, t);
    StillNoDuplicates(a, b);
    assert forall i :: 0 <= i < |t| ==> b[i] == t[i].name;
  }

  lemma SameSort(flights: seq<Flight>, opt: SortOption, opt': SortOption)
    requires FieldOf(opt) == FieldOf(opt') && (Descending(opt) <==> Descending(opt'))
    ensures SortedFlights(flights, opt) == SortedFlights(flights, opt')
  {
    SortedBothWays(flights, opt);
    SortedBothWays(flights, opt');
    SortSame(flights, Forward(opt), Forward(opt'));
  }

  lemma SameOffersAsked(q: LegQuery, r: LegQuery, results: seq<ProviderResult>)
    requires SameTests(q, r)
    ensures Offers(q, results) == Offers(r, results)
  {
    var normalized := MapSeq(NormalizeDuration, Gather(results));
    forall f
      ensures Accepts(q, f) == Accepts(r, f)
    {
      SameTestsAcceptAlike(q, r, f);
    }
    KeepSame(AcceptedBy(q), AcceptedBy(r), normalized);
  }

  /** One leg, asked by two inputs with one key, under any two schedules. */
  lemma LegsAgree(
      q: LegQuery, r: LegQuery, opt: SortOption, opt': SortOption,
      outcomes: seq<ProviderResult>, arrived: seq<ProviderResult>, arrived': seq<ProviderResult>,
      walk: seq<string>, walk': seq<string>)
    requires SameTests(q, r) && Stamped(outcomes)
    requires FieldOf(opt) == FieldOf(opt') && (Descending(opt) <==> Descending(opt'))
    requires LegFeasible(q, outcomes, arrived, walk) && LegFeasible(r, outcomes, arrived', walk')
    ensures SameList(opt, Ranked(q, opt, arrived, walk), Ranked(r, opt', arrived', walk'))
    ensures |Ranked(q, opt, arrived, walk)| == |Ranked(r, opt', arrived', walk')|
    ensures Succeeded(arrived) == Succeeded(arrived')
  {
    SameOffersAsked(q, r, arrived');
    StampedPermuted(outcomes, arrived);
    ScheduleIndependence(q, opt, arrived, arrived', walk, walk');
    SameSort(Scored(LegFlights(r, arrived', walk')), opt, opt');
    SucceededPermuted(arrived, arrived');
    ListLengths(opt, Ranked(q, opt, arrived, walk), Ranked(r, opt', arrived', walk'));
  }

  lemma SucceededPermuted(r: seq<ProviderResult>, t: seq<ProviderResult>)
    requires multiset(r) == multiset(t)
    ensures Succeeded(r) == Succeeded(t)
  {
    forall x
      ensures x in r <==> x in t
    {
      assert x in r <==> x in multiset(t);
    }
  }

  lemma ListLengths(opt: SortOption, a: seq<Flight>, b: seq<Flight>)
    requires SameList(opt, a, b)
    ensures |a| == |b|
  {
    assert |a| == |ToReals(ValueBy(opt), a)| == |ToReals(ValueBy(opt), b)| == |b|;
  }

  lemma RequestsAskAlike(x: FlightsInput, y: FlightsInput)
    requires Canon(x) == Canon(y)
    ensures SameAsked(OutboundRequest(x), OutboundRequest(y))
    ensures x.returnDate.Some? && y.returnDate.Some? ==> SameAsked(ReturnRequest(x), ReturnRequest(y))
    ensures SameCriteria(EchoedCriteria(x), EchoedCriteria(y))
  {
    SameCaseClasses(x.origin, y.origin);
    SameCaseClasses(x.destination, y.destination);
  }

  lemma AssembledAlike(
      x: FlightsInput, y: FlightsInput, names: seq<string>, a: seq<Flight>, b: seq<Flight>, a': seq<Flight>, b': seq<Flight>,
      ok: set<string>, ok': set<string>, elapsed: int, elapsed': int)
    requires SameCriteria(EchoedCriteria(x), EchoedCriteria(y))
    requires SameList(x.sort, a, b) && |a| == |b| && SameList(x.sort, a', b') && |a'| == |b'|
    ensures Equivalent(x.sort, Assemble(x, names, a, a', ok, ok', elapsed), Assemble(y, names, b, b', ok, ok', elapsed'))
  {
  }

  /** Two inputs that are one query, computed under any two schedules, get equivalent answers. */
  lemma RecomputationAgrees(
      x: FlightsInput, y: FlightsInput, names: seq<string>, world: World,
      s: Schedule, t: Schedule, elapsed: int, elapsed': int)
    requires Canon(x) == Canon(y)
    requires CaseBlind(world) && Attributed(names, world)
    requires Feasible(x, world, s) && Feasible(y, world, t)
    ensures Equivalent(x.sort, Compute(x, names, world, s, elapsed), Compute(y, names, world, t, elapsed'))
  {
    SameQueryAsksAlike(x, y);
    RequestsAskAlike(x, y);
    AttributedIsStamped(names, world, OutboundRequest(x));
    LegsAgree(OutboundQuery(x), OutboundQuery(y), x.sort, y.sort, world(OutboundRequest(x)),
              s.outbound, t.outbound, s.outboundWalk, t.outboundWalk);
    var a := Ranked(OutboundQuery(x), x.sort, s.outbound, s.outboundWalk);
    var b := Ranked(OutboundQuery(y), y.sort, t.outbound, t.outboundWalk);
    var a': seq<Flight>, b': seq<Flight> := [], [];
    if x.returnDate.Some? {
      AttributedIsStamped(names, world, ReturnRequest(x));
      LegsAgree(ReturnQuery(x), ReturnQuery(y), x.sort, y.sort, world(ReturnRequest(x)),
                s.inbound, t.inbound, s.inboundWalk, t.inboundWalk);
      a' := Ranked(ReturnQuery(x), x.sort, s.inbound, s.inboundWalk);
      b' := Ranked(ReturnQuery(y), y.sort, t.inbound, t.inboundWalk);
    }
    AssembledAlike(x, y, names, a, b, a', b', Succeeded(s.outbound), Succeeded(s.inbound), elapsed, elapsed');
  }

  // ---- every input can be answered ----

  lemma {:induction false} SomeListing(keys: set<string>) returns (walk: seq<string>)
    ensures NoDuplicates(walk) && forall k :: k in walk <==> k in keys
    decreases |keys|
  {
    if keys == {} {
      walk := [];
    } else {
      var k :| k in keys;
      walk := SomeListing(keys - {k});
      walk := walk + [k];
    }
  }

  lemma SomeLegRun(q: LegQuery, outcomes: seq<ProviderResult>) returns (walk: seq<string>)
    ensures LegFeasible(q, outcomes, outcomes, walk)
  {
    walk := SomeListing(Offers(q, outcomes).Keys);
  }

  lemma SomeSchedule(x: FlightsInput, world: World) returns (s: Schedule)
    ensures Feasible(x, world, s)
  {
    var walk := SomeLegRun(OutboundQuery(x), world(OutboundRequest(x)));
    s := Schedule(world(OutboundRequest(x)), walk, [], []);
    if x.returnDate.Some? {
      var walk' := SomeLegRun(ReturnQuery(x), world(ReturnRequest(x)));
      s := s.(inbound := world(ReturnRequest(x)), inboundWalk := walk');
    }
  }

  // ---- answering through the cache ----

  /** One call: its input, the schedule that a computation would run under, and its clock readings. */
  datatype Call = Call(input: FlightsInput, schedule: Schedule, probed: int, stored: int, elapsed: int)

  ghost predicate Admissible(world: World, c: Call) {
    Feasible(c.input, world, c.schedule)
  }

  ghost predicate AllAdmissible(world: World, calls: seq<Call>) {
    forall i :: 0 <= i < |calls| ==> Admissible(world, calls[i])
  }

  ghost predicate AllAmong(pool: seq<FlightsInput>, calls: seq<Call>) {
    forall i :: 0 <= i < |calls| ==> calls[i].input in pool
  }

  ghost function Serve(names: seq<string>, world: World, ttl: int, entries: TtlMap.Entries<Output>, c: Call)
    : (r: (Output, TtlMap.Entries<Output>))
    requires Admissible(world, c)
  {
    var key := BuildCacheKey(c.input);
    var rest := TtlMap.AfterGet(entries, key, c.probed);
    match TtlMap.Probe(entries, key, c.probed)
    case Some(v) => (MarkHit(v, c.elapsed), rest)
    case None =>
      var v := Compute(c.input, names, world, c.schedule, c.elapsed);
      (v, TtlMap.AfterSet(rest, key, v, c.stored, ttl))
  }

  ghost function EntriesAfter(names: seq<string>, world: World, ttl: int, calls: seq<Call>): (m: TtlMap.Entries<Output>)
    requires AllAdmissible(world, calls)
  {
    if calls == [] then map[]
    else Serve(names, world, ttl, EntriesAfter(names, world, ttl, calls[..|calls| - 1]), calls[|calls| - 1]).1
  }

  /** A value that a computation for some input of the pool with this key could have produced. */
  ghost predicate IsAnswer(pool: seq<FlightsInput>, names: seq<string>, world: World, key: string, v: Output) {
    exists y: FlightsInput, t: Schedule, elapsed: int ::
      y in pool && BuildCacheKey(y) == key && Feasible(y, world, t) && v == Compute(y, names, world, t, elapsed)
  }

  ghost predicate Sound(pool: seq<FlightsInput>, names: seq<string>, world: World, m: TtlMap.Entries<Output>) {
    TtlMap.AllValues(m, (k, v) => IsAnswer(pool, names, world, k, v))
  }

  /** A live entry is returned marked, from a map that the lookup leaves as it was. */
  lemma ServedFromCache(names: seq<string>, world: World, ttl: int, m: TtlMap.Entries<Output>, c: Call, v: Output)
    requires Admissible(world, c)
    requires TtlMap.Probe(m, BuildCacheKey(c.input), c.probed) == Some(v)
    ensures Serve(names, world, ttl, m, c) == (MarkHit(v, c.elapsed), m)
  {
  }

  lemma ServedByComputing(names: seq<string>, world: World, ttl: int, m: TtlMap.Entries<Output>, c: Call, v: Output)
    requires Admissible(world, c)
    requires TtlMap.Probe(m, BuildCacheKey(c.input), c.probed) == None
    requires v == Compute(c.input, names, world, c.schedule, c.elapsed)
    ensures Serve(names, world, ttl, m, c) ==
            (v, TtlMap.AfterSet(TtlMap.AfterGet(m, BuildCacheKey(c.input), c.probed), BuildCacheKey(c.input), v, c.stored, ttl))
  {
  }

  lemma ComputedIsAnswer(
      pool: seq<FlightsInput>, names: seq<string>, world: World, x: FlightsInput, s: Schedule, elapsed: int)
    requires x in pool && Feasible(x, world, s)
    ensures IsAnswer(pool, names, world, BuildCacheKey(x), Compute(x, names, world, s, elapsed))
  {
  }

  lemma ServeKeepsSound(
      pool: seq<FlightsInput>, names: seq<string>, world: World, ttl: int, m: TtlMap.Entries<Output>, c: Call)
    requires Sound(pool, names, world, m) && Admissible(world, c) && c.input in pool
    ensures Sound(pool, names, world, Serve(names, world, ttl, m, c).1)
  {
    var key, good := BuildCacheKey(c.input), (k, v) => IsAnswer(pool, names, world, k, v);
    match TtlMap.Probe(m, key, c.probed)
    case Some(v) => ServedFromCache(names, world, ttl, m, c, v);
    case None =>
      var v := Compute(c.input, names, world, c.schedule, c.elapsed);
      var rest := TtlMap.AfterGet(m, key, c.probed);
      ServedByComputing(names, world, ttl, m, c, v);
      ComputedIsAnswer(pool, names, world, c.input, c.schedule, c.elapsed);
      TtlMap.OperationsKeepValues(m, good, key, c.probed);
      TtlMap.OperationsKeepValues(rest, good, key, c.probed);
      assert TtlMap.AllValues(TtlMap.AfterSet(rest, key, v, c.stored, ttl), good);
  }

  lemma {:induction false} EntriesStaySound(
      pool: seq<FlightsInput>, names: seq<string>, world: World, ttl: int, calls: seq<Call>)
    requires AllAdmissible(world, calls) && AllAmong(pool, calls)
    ensures Sound(pool, names, world, EntriesAfter(names, world, ttl, calls))
  {
    if calls == [] {
    } else {
      var init, last := calls[..|calls| - 1], calls[|calls| - 1];
      EntriesStaySound(pool, names, world, ttl, init);
      ServeKeepsSound(pool, names, world, ttl, EntriesAfter(names, world, ttl, init), last);
    }
  }

  /** Nobody in the pool who asks something else has this input's key. */
  ghost predicate OwnsKey(x: FlightsInput, pool: seq<FlightsInput>) {
    forall y :: y in pool && BuildCacheKey(y) == BuildCacheKey(x) ==> Canon(y) == Canon(x)
  }

  /** An input with no `|` and at most one airline owns its key whoever else calls; with more airlines, among callers with no `|`. */
  lemma WhoOwnsItsKey(x: FlightsInput, pool: seq<FlightsInput>)
    requires Unambiguous(x) || (SeparatorFree(x) && forall y :: y in pool ==> SeparatorFree(y))
    ensures OwnsKey(x, pool)
  {
    forall y | y in pool && BuildCacheKey(y) == BuildCacheKey(x)
      ensures Canon(y) == Canon(x)
    {
      if Unambiguous(x) {
        UnambiguousKey(x, y);
      } else {
        KeyIsCanonical(y, x);
      }
    }
  }

  lemma AnswerAgrees(
      pool: seq<FlightsInput>, names: seq<string>, world: World,
      x: FlightsInput, v: Output, t: Schedule, elapsed: int, elapsed': int)
    requires OwnsKey(x, pool) && CaseBlind(world) && Attributed(names, world) && Feasible(x, world, t)
    requires IsAnswer(pool, names, world, BuildCacheKey(x), v)
    ensures Equivalent(x.sort, Compute(x, names, world, t, elapsed'), v)
    ensures Equivalent(x.sort, Compute(x, names, world, t, elapsed'), MarkHit(v, elapsed))
  {
    var y: FlightsInput, s: Schedule, ms: int :|
      y in pool && BuildCacheKey(y) == BuildCacheKey(x) && Feasible(y, world, s) && v == Compute(y, names, world, s, ms);
    RecomputationAgrees(x, y, names, world, t, s, elapsed', ms);
  }

  lemma CallerOwnsKey(calls: seq<Call>, i: int)
    requires 0 <= i < |calls|
    requires Unambiguous(calls[i].input) || forall j :: 0 <= j < |calls| ==> SeparatorFree(calls[j].input)
    ensures var pool := MapSeq(InputOf, calls); AllAmong(pool, calls[..i]) && OwnsKey(calls[i].input, pool)
  {
    var pool := MapSeq(InputOf, calls);
    forall j | 0 <= j < |calls|
      ensures calls[j].input in pool
    {
      assert pool[j] == calls[j].input;
    }
    WhoOwnsItsKey(calls[i].input, pool);
  }

  function InputOf(c: Call): (x: FlightsInput) { c.input }

  /**
   In any sequence of calls, the answer to an input with no `|` and at most one airline is equivalent,
   cached or not, to computing it again under any schedule, whatever the other callers send. An input
   with more airlines needs the other callers to be free of `|`.
   */
  lemma CacheIsTransparent(
      names: seq<string>, world: World, ttl: int, calls: seq<Call>, i: int, t: Schedule, elapsed: int)
    requires AllAdmissible(world, calls) && 0 <= i < |calls|
    requires Unambiguous(calls[i].input)
             || forall j :: 0 <= j < |calls| ==> SeparatorFree(calls[j].input)
    requires CaseBlind(world) && Attributed(names, world) && Feasible(calls[i].input, world, t)
    ensures Equivalent(calls[i].input.sort,
                       Compute(calls[i].input, names, world, t, elapsed),
                       Serve(names, world, ttl, EntriesAfter(names, world, ttl, calls[..i]), calls[i]).0)
  {
    var pool := MapSeq(InputOf, calls);
    var c, m := calls[i], EntriesAfter(names, world, ttl, calls[..i]);
    CallerOwnsKey(calls, i);
    EntriesStaySound(pool, names, world, ttl, calls[..i]);
    AnswerServed(pool, names, world, ttl, m, c, t, elapsed);
  }

  lemma AnswerServed(
      pool: seq<FlightsInput>, names: seq<string>, world: World, ttl: int, m: TtlMap.Entries<Output>,
      c: Call, t: Schedule, elapsed: int)
    requires Sound(pool, names, world, m) && Admissible(world, c) && OwnsKey(c.input, pool)
    requires CaseBlind(world) && Attributed(names, world) && Feasible(c.input, world, t)
    ensures Equivalent(c.input.sort, Compute(c.input, names, world, t, elapsed), Serve(names, world, ttl, m, c).0)
  {
    match TtlMap.Probe(m, BuildCacheKey(c.input), c.probed)
    case Some(v) => AnswerAgrees(pool, names, world, c.input, v, t, c.elapsed, elapsed);
    case None => RecomputationAgrees(c.input, c.input, names, world, t, c.schedule, elapsed, c.elapsed);
  }
}
