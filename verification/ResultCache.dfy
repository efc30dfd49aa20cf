/** Outputs as objects, the cache that keeps private clones of them, and the search that uses it. */
module ResultCache {
  import opened Seqs
  import opened Entity
  import opened Filters
  import opened Ranking
  import opened Query
  import opened Search
  import opened Service
  import FanOut
  import TtlMap

  class FlightsOutput {
    var searchCriteria: SearchCriteria
    var metadata: SearchMetadata
    var flights: array<Flight>
    var returnFlights: array<Flight>

    constructor (criteria: SearchCriteria, metadata: SearchMetadata, flights: array<Flight>, returnFlights: array<Flight>)
      ensures searchCriteria == criteria && this.metadata == metadata
      ensures this.flights == flights && this.returnFlights == returnFlights
    {
      this.searchCriteria := criteria;
      this.metadata := metadata;
      this.flights := flights;
      this.returnFlights := returnFlights;
    }

    /** What a reader of the object sees. */
    ghost function View(): (v: Output)
      reads this, flights, returnFlights
    {
      Output(searchCriteria, metadata, flights[..], returnFlights[..])
    }

    ghost function Parts(): (r: set<object>)
      reads this
    {
      {this, flights, returnFlights}
    }
  }

  method CopyFlights(source: array<Flight>) returns (copy: array<Flight>)
    ensures fresh(copy) && copy[..] == source[..]
  {
    copy := new Flight[source.Length](i requires 0 <= i < source.Length reads source => source[i]);
  }

  method CloneFlightsOutput(value: FlightsOutput?) returns (clone: FlightsOutput?)
    ensures value == null <==> clone == null
    ensures value != null ==> fresh(clone.Parts()) && clone.View() == value.View()
  {
    if value == null {
      return null;
    }
    var flights := CopyFlights(value.flights);
    var returnFlights := CopyFlights(value.returnFlights);
    clone := new FlightsOutput(value.searchCriteria, value.metadata, flights, returnFlights);
  }

  datatype Entry = Entry(value: FlightsOutput, expiry: int)

  class Cache {
    var entries: map<string, Entry>
    ghost var repr: set<object>

    /** Every part of every stored object belongs to the cache. */
    ghost predicate Valid()
      reads this, repr
    {
      && this !in repr
      && forall k :: k in entries ==>
           && entries[k].value in repr
           && entries[k].value.flights in repr && entries[k].value.returnFlights in repr
    }

    ghost function Contents(): (m: TtlMap.Entries<Output>)
      requires Valid()
      reads this, repr
    {
      map k | k in entries :: TtlMap.Slot(entries[k].value.View(), entries[k].expiry)
    }

    constructor ()
      ensures Valid() && repr == {} && Contents() == map[]
    {
      entries := map[];
      repr := {};
    }

    method Get(key: string, now: int) returns (value: FlightsOutput?, found: bool)
      requires Valid()
      modifies this
      ensures Valid() && repr == old(repr)
      ensures Contents() == TtlMap.AfterGet(old(Contents()), key, now)
      ensures found <==> TtlMap.Probe(old(Contents()), key, now).Some?
      ensures found ==> value != null && fresh(value.Parts()) &&
                        Some(value.View()) == TtlMap.Probe(old(Contents()), key, now)
    {
      if key !in entries {
        return null, false;
      }
      var entry := entries[key];
      if now > entry.expiry {
        entries := entries - {key};
        return null, false;
      }
      value := CloneFlightsOutput(entry.value);
      found := true;
    }

    method Set(key: string, value: FlightsOutput, now: int, ttl: int)
      requires Valid()
      modifies this
      ensures Valid() && fresh(repr - old(repr)) && repr !! value.Parts() - old(repr)
      ensures Contents() == TtlMap.AfterSet(old(Contents()), key, value.View(), now, ttl)
      ensures value.View() == old(value.View())
    {
      var clone := CloneFlightsOutput(value);
      repr := repr + clone.Parts();
      entries := entries[key := Entry(clone, now + ttl)];
    }

    /**
     Isolation: a caller holding an object that is not part of the cache may overwrite its metadata and
     the elements of both its lists; every later lookup still sees what was stored.
     */
    method Overwrite(held: FlightsOutput, metadata: SearchMetadata, i: nat, f: Flight, j: nat, g: Flight)
      requires Valid() && held.Parts() !! repr + {this}
      modifies held, held.flights, held.returnFlights
      ensures Valid() && Contents() == old(Contents())
      ensures held.metadata == metadata
    {
      held.metadata := metadata;
      if i < held.flights.Length {
        held.flights[i] := f;
      }
      if j < held.returnFlights.Length {
        held.returnFlights[j] := g;
      }
    }
  }

  /** Storing an object and then overwriting it: the entry is what was stored. */
  method StoreThenOverwrite(
      cache: Cache, key: string, value: FlightsOutput, now: int, ttl: int, metadata: SearchMetadata, i: nat, f: Flight)
    requires cache.Valid() && value.Parts() !! cache.repr + {cache}
    modifies cache, value, value.flights, value.returnFlights
    ensures cache.Valid()
    ensures cache.Contents() == TtlMap.AfterSet(old(cache.Contents()), key, old(value.View()), now, ttl)
  {
    cache.Set(key, value, now, ttl);
    cache.Overwrite(value, metadata, i, f, i, f);
  }

  /** Reading a live entry, overwriting what was read and reading again: the second read is the first as it was. */
  method ReadOverwriteRead(
      cache: Cache, key: string, now: int, metadata: SearchMetadata, i: nat, f: Flight)
    returns (first: FlightsOutput?, second: FlightsOutput?)
    requires cache.Valid()
    modifies cache
    ensures cache.Valid()
    ensures TtlMap.Probe(old(cache.Contents()), key, now).Some? ==>
              && first != null && first.metadata == metadata
              && second != null && Some(second.View()) == TtlMap.Probe(old(cache.Contents()), key, now)
              && cache.Contents() == old(cache.Contents())
  {
    var found;
    first, found := cache.Get(key, now);
    if found {
      cache.Overwrite(first, metadata, i, f, i, f);
      second, found := cache.Get(key, now);
    } else {
      second := null;
    }
  }

  /** One leg: the providers' outcomes, gathered in any order, compared and ranked. */
  method SearchLeg(q: LegQuery, opt: SortOption, outcomes: seq<ProviderResult>)
    returns (ranked: seq<Flight>, success: set<string>, ghost arrived: seq<ProviderResult>, ghost walk: seq<string>)
    ensures LegFeasible(q, outcomes, arrived, walk)
    ensures ranked == Ranked(q, opt, arrived, walk) && success == Succeeded(arrived)
    ensures success == Succeeded(outcomes)
  {
    var results := FanOut.SearchProviders(outcomes);
    var compared, ok, failed, order := CollectFlights(q, results);
    ranked := RankFlights(compared, opt);
    success, arrived, walk := ok, results, order;
    SucceededPermuted(arrived, outcomes);
  }

  method ToArray(flights: seq<Flight>) returns (a: array<Flight>)
    ensures fresh(a) && a[..] == flights
  {
    a := new Flight[|flights|](i requires 0 <= i < |flights| => flights[i]);
  }

  method AssembleOutput(
      x: FlightsInput, names: seq<string>, flights: seq<Flight>, returnFlights: seq<Flight>,
      outboundOk: set<string>, inboundOk: set<string>, elapsed: int) returns (output: FlightsOutput)
    ensures fresh(output.Parts())
    ensures output.View() == Assemble(x, names, flights, returnFlights, outboundOk, inboundOk, elapsed)
  {
    var succeeded, failedProviders := MergeProviderStats(names, outboundOk, inboundOk);
    var a := ToArray(flights);
    var b := ToArray(returnFlights);
    var metadata := SearchMetadata(a.Length + b.Length, |names|, succeeded, |names| - succeeded, elapsed, false, failedProviders);
    output := new FlightsOutput(EchoedCriteria(x), metadata, a, b);
  }

  /** Runs both legs and assembles the answer. */
  method ComputeOutput(x: FlightsInput, names: seq<string>, world: World, elapsed: int)
    returns (output: FlightsOutput, ghost schedule: Schedule)
    ensures Feasible(x, world, schedule)
    ensures fresh(output.Parts()) && output.View() == Compute(x, names, world, schedule, elapsed)
  {
    var flights, outboundOk, arrived, walk := SearchLeg(OutboundQuery(x), x.sort, world(OutboundRequest(x)));
    var returnFlights: seq<Flight> := [];
    var inboundOk: set<string> := {};
    ghost var arrived': seq<ProviderResult>, walk': seq<string> := [], [];
    if x.returnDate.Some? {
      returnFlights, inboundOk, arrived', walk' := SearchLeg(ReturnQuery(x), x.sort, world(ReturnRequest(x)));
    } else {
      assert Succeeded(arrived') == {};
    }
    schedule := Schedule(arrived, walk, arrived', walk');
    output := AssembleOutput(x, names, flights, returnFlights, outboundOk, inboundOk, elapsed);
  }

  /** The path of a miss: compute and store. */
  method ComputeAndStore(
      cache: Cache, key: string, names: seq<string>, world: World, ttl: int, x: FlightsInput, stored: int, elapsed: int)
    returns (output: FlightsOutput, ghost schedule: Schedule)
    requires cache.Valid()
    modifies cache
    ensures Feasible(x, world, schedule)
    ensures cache.Valid() && fresh(output.Parts()) && output.Parts() !! cache.repr
    ensures output.View() == Compute(x, names, world, schedule, elapsed)
    ensures cache.Contents() == TtlMap.AfterSet(old(cache.Contents()), key, output.View(), stored, ttl)
  {
    output, schedule := ComputeOutput(x, names, world, elapsed);
    cache.Set(key, output, stored, ttl);
  }

  /** The path of a hit: two writes to the clone that the lookup returned. */
  method MarkObject(cache: Cache, cached: FlightsOutput, elapsed: int)
    requires cache.Valid() && cached.Parts() !! cache.repr + {cache}
    modifies cached
    ensures cached.View() == MarkHit(old(cached.View()), elapsed) && cached.Parts() == old(cached.Parts())
    ensures cache.Valid() && cache.Contents() == old(cache.Contents())
  {
    cached.metadata := cached.metadata.(cacheHit := true);
    cached.metadata := cached.metadata.(searchTimeMs := elapsed);
  }

  /**
   The search. `probed` and `stored` are the clock readings of the lookup and of the store, `elapsed` the
   milliseconds reported; the object returned shares nothing with the cache, hit or miss.
   */
  method Flights(
      cache: Cache, names: seq<string>, world: World, ttl: int,
      x: FlightsInput, probed: int, stored: int, elapsed: int)
    returns (output: FlightsOutput, ghost call: Call)
    requires cache.Valid()
    modifies cache
    ensures call.input == x && call.probed == probed && call.stored == stored && call.elapsed == elapsed
    ensures Admissible(world, call)
    ensures cache.Valid() && fresh(output.Parts()) && output.Parts() !! cache.repr
    ensures (output.View(), cache.Contents()) == Serve(names, world, ttl, old(cache.Contents()), call)
  {
    var key := BuildCacheKey(x);
    ghost var before := cache.Contents();
    var cached, found := cache.Get(key, probed);
    ghost var schedule;
    if found {
      ghost var stored' := cached.View();
      MarkObject(cache, cached, elapsed);
      schedule := SomeSchedule(x, world);
      call := Call(x, schedule, probed, stored, elapsed);
      ServedFromCache(names, world, ttl, before, call, stored');
      return cached, call;
    }
    output, schedule := ComputeAndStore(cache, key, names, world, ttl, x, stored, elapsed);
    call := Call(x, schedule, probed, stored, elapsed);
    ServedByComputing(names, world, ttl, before, call, output.View());
  }
}
