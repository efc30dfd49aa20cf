# Flight search aggregator: a Dafny model

The service answers a flight search by asking every airline provider in parallel, recomputing
durations, filtering, keeping one offer per flight, scoring and sorting. Answers are kept in an
in-memory cache with a time to live; providers sit behind a rate limiter and a retry loop. Two
things in a search are left to chance: the order in which provider results arrive, and the order in
which Go walks the map of best offers. The project proves what those two orders cannot change, that
a cached answer is as good as a new one, what the limiter, the retry loop and the fan-out guarantee
under every interleaving, and what the text printers and readers lose.

Run `dafny verify dfyconfig.toml`.

## Modules

| module | about |
|---|---|
| `Seqs`, `Text`, `Decimal`, `Times` | sequences up to order, ASCII text and joining, decimal digits and 64-bit wrap-around, instants and calendar dates with their RFC 3339 text |
| `Entity` | the flight record and the flight key |
| `Dedup`, `Merging` | one offer per key, as a fold and as a left-biased merge; what the order of merged sources can change |
| `Filters` | leg queries, the match tests, recomputed durations |
| `Score`, `StableSort`, `Ranking`, `AnySort` | best-value score, the stable sort, sorting by option in both directions, and why any algorithm that asks only later-before-earlier gives the same list |
| `FanOut` | goroutines and a buffered channel as a step system |
| `Search`, `Arrival` | one leg from provider results to ranked list, and its independence of the order of arrival |
| `Query`, `KeyTwins` | the search input, the return leg's shifted bounds, the cache key, and which inputs own their key |
| `TtlMap` | the expiring map, one operation at a time and with interleaved critical sections |
| `Service`, `Answers`, `Sharing`, `Concurrent` | both legs, metadata, answering through the cache, what an answer holds and when it is a hit, what a shared key leads to, and whole calls interleaved |
| `ResultCache` | outputs as heap objects, the cloning cache, the search as a method |
| `RateLimiter`, `Retry` | the shared limiter with many callers, the doubling retry loop |
| `Money`, `DurationText`, `Masking` | rupiah text, duration text, masking of logged JSON |

## Modelling choices

- A time is a whole number of seconds since 0001-01-01T00:00:00Z and a zone offset in whole minutes.
  Its texts are the date and the date-time of section 5.6 of RFC 3339; the calendar is the proleptic
  Gregorian one, and out-of-range years print as Go prints them, with a sign or more digits.
- Text is ASCII. Scores are exact reals. Prices compare by amount only, as in the code.
- Integers are unbounded except where a machine operation can wrap: the score's subtractions, the
  doubled backoff, the negation in `formatIDR`, the sum in `parseDurationMinutes`. A span longer than
  a 64-bit count of nanoseconds saturates, as subtracting two times does.
- What providers answer is an arbitrary function of the request (`World`), or an arbitrary sequence of
  replies (`Retry`). The four providers write their own name into every flight
  (`internal/bookcabin/provider/airasia.go:97`, `batik_air.go:94`, `garuda.go:128`, `lion_air.go:129`) and have distinct
  names (`internal/bookcabin/module.go:20-25`); results that rest on this say so (`Arrival.Stamped`, `Service.Attributed`). The arrival order is an arbitrary reordering, the map walk an arbitrary listing of the
  keys. Loops whose order is arbitrary choose with `:|`, and the ghost result `walk` records the choice.
- The clock never runs backwards and a sleep lasts at least as long as asked. The rate limiter's clock
  reading is taken before the lock, so in the step system it may be older than `last`.
- `sort.SliceStable` is library code; `StableSort.SliceStable` is an in-place insertion sort that only
  asks whether a later element goes before an earlier one. `AnySort` shows that every algorithm that sorts
  and asks only such questions, merging of blocks included, gives the same list in both directions.
- Methods over arrays and objects are proved equal to functions on values; the theorems are about
  those functions.

## Results where the code falls short of a simple reading

- `"desc"` negates the comparator, so it is true of ties: the result is exactly the ascending one read
  backwards, ties included (`Ranking.SortedFlightsMeaning`, `Ranking.OppositeOrdersMirror`).
- On flights of at least a minute, filtering before or after price comparison is the same only for
  queries without a cabin, minimum-price, stop or airline test that a machine integer can fail, and for
  those it always is (`Filters.FilterOrderIff`).
- Arrival order shows in an attribute of the kept flights exactly when two providers are unbeaten under
  one key and disagree on it (`Arrival.ArrivalShowsIff`). With providers that write their own distinct names
  that never happens, and the ranked records are the same under every schedule (`Arrival.ScheduleIndependence`); their
  order is the same exactly when no two of them share a sort value (`Arrival.OneListIff`).
- Two or more airlines leave a key open: the list has the key of one airline whose name is the whole list. An
  input with no `|` that some flight meets is always answered as recomputation would answer it exactly when it names
  at most one airline (`Sharing.TransparentIff`, `Sharing.AirlinesMislead`).
- On the return leg every bound moves to the return date, arrival bounds too, so an arrival bound refuses
  every flight that lands after that date as read in the bound's zone (`Query.ReturnWindowIff`).
- A lookup that found an expired entry deletes a live one exactly when the last thing that happened to the key
  since it read is a store that has not expired (`TtlMap.DeleteDropsLiveIff`, `TtlMap.LateDeleteDropsNewer`).
- From the 38th retry on the doubled backoff has wrapped (`Retry.TotalWaitIff`).
- `formatIDR` prints the least machine integer unreadably (`Money.RoundTripIff`).
- The parts of a list's scores stay in [0, 1] exactly when its spread fits a machine integer or it has no value between
  its extremes (`Score.PartsInUnitIff`, `Score.OverflowedSpread`).
- Granted stamps are an interval apart, but a caller with an old clock reading can be let through closer after the one
  before, by as much as that one's reading was old (`RateLimiter.ReleasesAreSpaced`, `RateLimiter.StaleReadingBunches`).

## Model

| member | source | states |
|---|---|---|
| `Entity.KeyFixesTimes` | internal/bookcabin/usecase/flights.go:495-504 | two flights with one key have the same departure and arrival times, whatever their text fields contain |
| `Entity.KeyFixesRoute` | internal/bookcabin/usecase/flights.go:495-504 | without `\|` in the text fields, keys are equal exactly when airline code, number and airports agree up to case and the times agree |
| `Text.EqualFoldIff` | internal/bookcabin/usecase/flights.go:242-247 | texts are equal under case folding exactly when they are equal letter by letter up to the two cases of a letter |
| `Times.TimeTextReads` | internal/bookcabin/usecase/flights.go:501-502 | the date-time text holds, at fixed places, the local date, T, the local clock and the zone |
| `Times.ZoneTextReads` | internal/bookcabin/usecase/flights.go:501-502 | the zone is Z, or a sign with the offset in hours and minutes |
| `Times.DateTextReads` | internal/bookcabin/usecase/flights.go:195 | the date text reads as year, month and day |
| `Times.LocalIsAhead` | internal/bookcabin/usecase/flights.go:254 | east of the zero meridian the local date and clock are ahead by the offset |
| `Dedup.CompareAndDedup` | internal/bookcabin/usecase/flights.go:471-493 | the result holds exactly the offers the map keeps, each once, in an arbitrary order |
| `Dedup.KeptOffer` | internal/bookcabin/usecase/flights.go:475-486 | the offer kept for a key is the earliest among those least by price, then provider |
| `Dedup.EarliestLeastIsKept` | internal/bookcabin/usecase/flights.go:475-486 | conversely, an offer that is the earliest among the least of its key is the one kept |
| `Dedup.KeptIsCheapest` | internal/bookcabin/usecase/flights.go:479-485 | no offer under a key is cheaper than the one kept, and none as cheap comes from an earlier-named provider |
| `Text.StrLessIff` | internal/bookcabin/usecase/flights.go:483 | a string goes before another when at the first difference its character is smaller, or when it is a proper prefix |
| `Dedup.DedupOfConcat` | internal/bookcabin/usecase/flights.go:475-486 | deduplicating a concatenation is the left-biased merge of the two deduplications |
| `Dedup.DedupIdempotent` | internal/bookcabin/usecase/flights.go:471-493 | deduplicating a result again, listed in any order, changes nothing |
| `Dedup.DedupOfPermuted` | internal/bookcabin/usecase/flights.go:471-493 | reordering the input keeps the keys and each key's price and provider |
| `Dedup.OrderBlindIff` | internal/bookcabin/usecase/flights.go:471-493 | an attribute of the kept offers is independent of the order of single offers exactly when equally cheap least offers of a key agree on it |
| `Merging.ArrivalBlindIff` | internal/bookcabin/usecase/flights.go:186-193 | an attribute of the offers kept from merged sources is independent of the order of the sources exactly when the unbeaten sources of each key agree on it |
| `Dedup.FilterCommutes` | internal/bookcabin/usecase/flights.go:196-197 | a test closed, within a key, under offers that are no worse commutes with deduplication, picking the very same flights |
| `Dedup.CommutesIff` | internal/bookcabin/usecase/flights.go:196-197 | a test commutes with deduplication on every input exactly when it is so closed |
| `Filters.NormalizeSet` | internal/bookcabin/usecase/flights.go:441-454 | the set of trimmed, lower-cased, non-blank names |
| `Filters.FilterFlights` | internal/bookcabin/usecase/flights.go:224-239 | the accepted flights in input order |
| `Filters.AcceptedExactly` | internal/bookcabin/usecase/flights.go:241-261 | a flight is kept exactly when it is in the input, flies the asked route and date, and lies in every interval the query sets |
| `Filters.IntervalsIff` | internal/bookcabin/usecase/flights.go:310-338 | the price, stop, duration and time tests are closed intervals, open where a bound is absent |
| `Filters.NamedIff` | internal/bookcabin/usecase/flights.go:340-351 | a name passes the airline set exactly when some non-blank entry equals it up to case and padding |
| `Filters.NormalizeDurations` | internal/bookcabin/usecase/flights.go:456-469 | rewrites in place the duration of every flight whose times are set and at least a minute apart to the whole minutes between them, and leaves all else alone |
| `Filters.NormalizedIsRecomputed` | internal/bookcabin/usecase/flights.go:458-465 | the new duration m and the span s in seconds satisfy 60m <= s < 60(m + 1), with spans past 64-bit nanoseconds cut off there |
| `Filters.KeyFixesDuration` | internal/bookcabin/usecase/flights.go:456-469 | afterwards the duration of a flight of at least a minute is a function of its key |
| `Filters.FilterOrderIff` | internal/bookcabin/usecase/flights.go:194-198 | for a query that some flight meets, filtering and price comparison commute on all lists of machine-sized, recomputed flights of at least a minute with `\|`-free keys exactly when the query has no cabin, minimum-price, stop or airline test that a machine integer can fail |
| `Score.Extremes` | internal/bookcabin/usecase/flights.go:373-388 | the least and greatest price and duration of the list |
| `Score.ApplyBestValueScore` | internal/bookcabin/usecase/flights.go:369-404 | writes every flight's score in place and changes nothing else |
| `Score.ScoresRespectDominance` | internal/bookcabin/usecase/flights.go:390-403 | scores lie in [0, 1] and a flight better in one respect and worse in none scores strictly lower, zero ranges included |
| `Score.ExtremeScores` | internal/bookcabin/usecase/flights.go:399-403 | the cheapest and slowest flight scores 0.4, the dearest and fastest 0.6 |
| `Score.ScoreIs` | internal/bookcabin/usecase/flights.go:399-403 | every score is six tenths of the place in the price range plus four tenths of the place in the duration range, a range of one value counting as place 0 |
| `Score.PartsInUnitIff` | internal/bookcabin/usecase/flights.go:390-402 | for a list of machine integers, every part of its scores lies in [0, 1] exactly when its spread fits a machine integer or each of its values is an extreme |
| `Score.NonNegativeFits` | internal/bookcabin/usecase/flights.go:390-391 | lists of non-negative machine integers always fit |
| `Score.OverflowedSpread` | internal/bookcabin/usecase/flights.go:390-403 | a list whose spread overflows, on which a score exceeds 1 |
| `StableSort.SliceStable` | internal/bookcabin/usecase/flights.go:433-438 | sorts the array in place, with any comparator, into the insertion-sorted sequence |
| `AnySort.AnyAlgorithmAgrees` | internal/bookcabin/usecase/flights.go:433-438 | every algorithm that sorts and asks only whether a later element goes before an earlier one gives the insertion-sorted sequence, for every comparator those questions make a strict order of |
| `AnySort.AnySortRanks` | internal/bookcabin/usecase/flights.go:406-439 | so for a result list it gives the modelled list, by every field and in both directions |
| `AnySort.InsertionQualifies` | internal/bookcabin/usecase/flights.go:433-438 | insertion is such an algorithm |
| `StableSort.SortStable` | internal/bookcabin/usecase/flights.go:438 | ascending, elements with equal values keep their input order |
| `StableSort.SortMirrored` | internal/bookcabin/usecase/flights.go:433-436 | with the negated comparator the result is the ascending result read backwards |
| `Ranking.SortFlights` | internal/bookcabin/usecase/flights.go:406-439 | sorts in place by the option's field and order, defaults applied |
| `Ranking.SortedInAskedOrder` | internal/bookcabin/usecase/flights.go:406-439 | by the named field, or by best value when the field is empty or unknown, the list runs downwards for "desc" in any case and upwards otherwise |
| `Ranking.SortedFlightsMeaning` | internal/bookcabin/usecase/flights.go:406-439 | for every field, known or not, an ordered permutation; ascending keeps ties in input order, descending reverses them |
| `Ranking.OppositeOrdersMirror` | internal/bookcabin/usecase/flights.go:412-438 | the two orders of one field are each other's reverse |
| `Ranking.DefaultOrderRespectsDominance` | internal/bookcabin/usecase/flights.go:369-439 | in the default order no flight comes after one it dominates, so the first is undominated |
| `Search.CollectFlights` | internal/bookcabin/usecase/flights.go:174-199 | results in arrival order give the deduplicated leg and the names that answered and failed |
| `Search.ListedIsWanted` | internal/bookcabin/usecase/flights.go:174-199 | every listed flight was offered by a provider that answered, with only duration and score rewritten, and is wanted |
| `Search.WantedIsListed` | internal/bookcabin/usecase/flights.go:174-199 | for every wanted flight any provider offered, a flight with its key is listed that it does not beat |
| `Search.ListedOnce` | internal/bookcabin/usecase/flights.go:471-493 | no two listed flights share a key |
| `Search.ListedScores` | internal/bookcabin/usecase/flights.go:369-404 | every listed flight carries the score it gets within the list it is shown in |
| `Search.CountedWhereItBelongs` | internal/bookcabin/usecase/flights.go:186-193 | with distinct names a provider counts as successful exactly when it answered and as failed otherwise |
| `Arrival.ArrivalShowsIff` | internal/bookcabin/usecase/flights.go:174-199 | for every leg and attribute, the kept flights' values are the same under all reorderings of the provider results exactly when providers whose own best offers under a key are unbeaten agree on it |
| `Arrival.OffersFixed` | internal/bookcabin/usecase/flights.go:471-493 | results of distinct providers that stamp their flights give the very same records in every order of arrival |
| `Arrival.ScheduleIndependence` | internal/bookcabin/usecase/flights.go:153-199 | for such results every pair of arrival orders and map walks gives ranked lists with the same records and the same sequence of sort values |
| `Arrival.OneListIff` | internal/bookcabin/usecase/flights.go:153-199 | for such results the ranked list itself is the same under every schedule exactly when no two of its flights share a sort value |
| `Arrival.ValuesIndependence` | internal/bookcabin/usecase/flights.go:153-199 | for results whose flights carry any names, when unbeaten providers agree on durations, the same sequence of sort values and the same multiset of key, price and provider |
| `Arrival.LongFlightsAgree` | internal/bookcabin/usecase/flights.go:456-469 | unbeaten providers agree on durations when wanted flights last a minute or more |
| `Search.MergeProviderStats` | internal/bookcabin/usecase/flights.go:280-292 | lists the providers that answered on no leg, in order; those and the successes add up to all |
| `Search.FailedExactly` | internal/bookcabin/usecase/flights.go:280-292 | with distinct names a provider is listed as failed exactly when every leg asked of it failed |
| `FanOut.NoSendBlocks` | internal/bookcabin/usecase/flights.go:155-165 | in every reachable state every waiting sender finds room in the channel |
| `FanOut.RunsFinish` | internal/bookcabin/usecase/flights.go:157-169 | every run has at most 2n steps and can take another until all n results are collected |
| `FanOut.CompleteRunCollects` | internal/bookcabin/usecase/flights.go:167-171 | a complete run has collected exactly the multiset of provider results |
| `FanOut.EveryOrderOccurs` | internal/bookcabin/usecase/flights.go:157-169 | every order of arrival is the order of some run |
| `FanOut.SearchProviders` | internal/bookcabin/usecase/flights.go:153-172 | under any scheduler it returns a reordering of the provider results |
| `Retry.SearchWithRetry` | internal/bookcabin/usecase/flights.go:201-222 | its result, calls and waits are those of the first attempt that is final, last or cancelled: one call per attempt and the waits of all attempts before |
| `Retry.RetryExact` | internal/bookcabin/usecase/flights.go:203-213 | without cancellation the result is the first reply that is not temporary among the first R+1, otherwise the temporary error of the last |
| `Retry.RetryCancelled` | internal/bookcabin/usecase/flights.go:214-219 | while every reply is temporary, a context that ends during a wait ends the search there with its own error |
| `Retry.LeavesOnce` | internal/bookcabin/usecase/flights.go:203-221 | the leaving attempt is unique, and with a non-negative limit the error after the loop is never returned |
| `Retry.TotalWaitIff` | internal/bookcabin/usecase/flights.go:202-218 | k waits add up to 80 ms times 2^k - 1 exactly when k is at most 37, and to less beyond |
| `Query.ShiftedBound` | internal/bookcabin/usecase/flights.go:263-278 | a shifted bound falls on the return date at its own time of day and zone, and on its own date stays put |
| `Query.ReturnWindowIff` | internal/bookcabin/usecase/flights.go:263-278 | for a time in any zone, read in the bound's zone: after (before) the shifted bound exactly when on a later (earlier) day than the return date, or on that day at a later (earlier) time of day |
| `Query.OutboundIff` | internal/bookcabin/usecase/flights.go:81-90 | the outbound leg accepts exactly the flights from origin to destination on the departure date that meet cabin, price, stops, duration, airline and the four instants |
| `Query.ReturnIff` | internal/bookcabin/usecase/flights.go:94-105 | the return leg accepts exactly the flights from destination to origin on the return date that meet the same terms and, bound by bound, that bound's time of day on that date in its zone |
| `Query.ZoneOfBoundDecides` | internal/bookcabin/usecase/flights.go:272-278 | a landing on the day after the return date, by its own zone, that the shifted bound still accepts |
| `Query.FormatAirlines` | internal/bookcabin/usecase/helpers.go:65-81 | the sorted, cleaned, non-blank names joined by `\|` |
| `Query.FilterTextInjective` | internal/bookcabin/usecase/helpers.go:34-49 | the filter text determines each optional bound and the airline text, commas in airline names included |
| `Query.KeyIsCanonical` | internal/bookcabin/usecase/helpers.go:12-81 | for inputs without `\|` in text fields keys are equal exactly when route, both dates, passengers, cabin, bounds, sorted airlines, sort field and order agree up to letter case |
| `Query.SameKeyIff` | internal/bookcabin/usecase/helpers.go:12-81 | the same said field by field: letter case, times of day, and order, padding and blanks of airlines do not count, everything else does |
| `Query.AirlinesTextIff` | internal/bookcabin/usecase/helpers.go:65-81 | the airline text depends only on the multiset of cleaned names, and determines it when no name has a `\|` |
| `Query.AirlinesReordered` | internal/bookcabin/usecase/helpers.go:69-80 | permuting airlines and adding blank ones leaves the text unchanged |
| `Query.NameRewritten` | internal/bookcabin/usecase/helpers.go:70-74 | changing an airline's case or padding leaves its cleaned name unchanged |
| `Query.SameQueryAsksAlike` | internal/bookcabin/usecase/flights.go:81-105 | inputs that agree on route, dates, cabin, bounds, airlines and sort up to letter case put the same tests to both legs and sort by the same field and direction |
| `Query.EqualKeysAskAlike` | internal/bookcabin/usecase/helpers.go:12-25 | so do inputs without `\|` that have equal keys |
| `Query.SameTestsAcceptAlike` | internal/bookcabin/usecase/flights.go:224-261 | the same tests accept exactly the same flights |
| `KeyTwins.KeyTellsIff` | internal/bookcabin/usecase/helpers.go:12-81 | an input with no `\|` in its cabin, and no white space right before a `\|` in an airline, owns its key against every other input exactly when no text field has a `\|` and it names at most one airline |
| `KeyTwins.UnambiguousKey` | internal/bookcabin/usecase/helpers.go:12-81 | another input has the key of such an input exactly when it is the same query, whatever text it holds |
| `KeyTwins.AirlineTwin` | internal/bookcabin/usecase/helpers.go:65-81 | for every airline text with a `\|` not after white space, its own or between two airlines, another query with the same key: what follows is read as the start of the sort field |
| `KeyTwins.OneAirlineKey` | internal/bookcabin/usecase/helpers.go:65-81 | every airline list has the key of the one airline whose name is the whole airline text |
| `KeyTwins.RouteTwin` | internal/bookcabin/usecase/helpers.go:12-25 | for every input with `\|` in an airport, another query with its key |
| `KeyTwins.SortTwin` | internal/bookcabin/usecase/helpers.go:12-25 | for every input with `\|` in its sort field or order, another query with its key |
| `TtlMap.RefinesIdealMap` | internal/bookcabin/cache/cache.go:26-51 | one operation at a time, every lookup answers as a map that remembers the latest value set while it lasts |
| `TtlMap.HitsAreFresh` | internal/bookcabin/cache/cache.go:26-51 | in every interleaving a hit returns the value last stored under its key before its read, not past its expiry when the clock was checked |
| `TtlMap.HitsInherit` | internal/bookcabin/cache/cache.go:26-51 | whatever holds of all values stored under a key holds of every hit on it |
| `TtlMap.AbsentExactly` | internal/bookcabin/cache/cache.go:34-39 | an entry is absent exactly when nothing was stored under its key or a delete came after the last store |
| `TtlMap.DeleteDropsLiveIff` | internal/bookcabin/cache/cache.go:26-39 | in every run a pending delete is about to remove an entry that a lookup would return exactly when the last event of the key since the deleting lookup read is a store that has not expired |
| `TtlMap.LateDeleteDropsNewer` | internal/bookcabin/cache/cache.go:27-37 | a run in which a late delete removes an entry stored after the read |
| `Service.AnswerFliesTheRoute` | internal/bookcabin/usecase/flights.go:81-106 | the outbound list flies the route on the departure date, the return list flies it back on the return date |
| `Answers.ComputedAnswers` | internal/bookcabin/usecase/flights.go:81-140 | under every schedule both lists answer their legs: offers that meet the input, one no worse for every such offer of the providers asked for that leg, no key twice, in the asked order, each with its score in the list; no return list without a return date |
| `Answers.ComputedLabels` | internal/bookcabin/usecase/flights.go:110-135 | the answer echoes the input, counts the flights of both lists, reports the time taken and is not marked as a hit |
| `Answers.ServedLabels` | internal/bookcabin/usecase/flights.go:74-79 | an answer is marked as a hit exactly when it is one, and reports the time of its own call |
| `Answers.HitKeepsAnswer` | internal/bookcabin/usecase/flights.go:75-79 | on a hit the stored answer is served unchanged but for the mark and the time |
| `Answers.HitExactly` | internal/bookcabin/usecase/flights.go:74-137 | among calls one after another, one is answered from the cache exactly when an earlier one stored an answer under its key at most a lifetime ago |
| `Service.ProvidersAccounted` | internal/bookcabin/usecase/flights.go:108-131 | succeeded and failed counts add up to the providers queried, and a provider is listed as failed exactly when every leg asked of it failed |
| `Service.RecomputationAgrees` | internal/bookcabin/usecase/flights.go:72-140 | two inputs that are one query, computed under any two schedules against one deterministic world of distinct, stamping providers, get answers with the same records, sort values and metadata |
| `Service.WhoOwnsItsKey` | internal/bookcabin/usecase/helpers.go:12-81 | an input with no `\|` and at most one airline shares its key with no other query of any caller, and with more airlines with none of callers without `\|` |
| `Service.CacheIsTransparent` | internal/bookcabin/usecase/flights.go:72-140 | in any sequence of calls the answer to an input with no `\|` and at most one airline is equivalent, record by record, to computing it again under any schedule, whatever other callers send; with more airlines, when no caller sends `\|` |
| `Sharing.SharedKeyMisleads` | internal/bookcabin/usecase/flights.go:74-79 | when two queries share a key and disagree on some outbound flight, there are providers and two calls whose second is answered with what it did not ask for |
| `Sharing.AirlinesMislead` | internal/bookcabin/usecase/flights.go:74-79 | for every input with two or more airlines that some flight meets, there are another input, providers and two calls whose second is answered with what it did not ask for |
| `Sharing.SomeFlightMeets` | internal/bookcabin/usecase/flights.go:224-261 | every input that sets no bounds, whatever airlines it names, is met by some flight |
| `Sharing.TransparentIff` | internal/bookcabin/usecase/flights.go:72-140 | an input with no `\|` that some flight meets is answered as recomputation would answer it, in every sequence of calls over all attributed, deterministic providers, exactly when it names at most one airline |
| `Concurrent.AnswersAreTransparent` | internal/bookcabin/usecase/flights.go:72-140 | the same for whole calls under every interleaving of their reads, clock checks, deletes, computations and stores |
| `Concurrent.AnswersAreReplies` | internal/bookcabin/usecase/flights.go:72-140 | under every interleaving every answer is one that some call with that key could have computed, marked exactly when it is a hit |
| `Concurrent.NoCallIsStuck` | internal/bookcabin/usecase/flights.go:72-140 | under every interleaving a call that is not answered can take a step, and five steps of its own are enough |
| `Concurrent.StoreLasts` | internal/bookcabin/cache/cache.go:47-51 | what a call stores can be looked up until one lifetime later and no longer |
| `ResultCache.CloneFlightsOutput` | internal/bookcabin/usecase/helpers.go:83-96 | a fresh object with fresh lists and equal contents, or nil for nil |
| `ResultCache.Cache.Get` | internal/bookcabin/cache/cache.go:26-45 | answers as the expiring map does, with a fresh clone that shares nothing with the cache |
| `ResultCache.Cache.Set` | internal/bookcabin/cache/cache.go:47-58 | stores a private clone; the cache shares nothing with the caller's object |
| `ResultCache.Cache.Overwrite` | internal/bookcabin/cache/cache.go:41-51 | overwriting metadata and list elements of any object outside the cache leaves its contents unchanged |
| `ResultCache.StoreThenOverwrite` | internal/bookcabin/cache/cache.go:47-58 | overwriting an object after storing it does not reach the entry |
| `ResultCache.ReadOverwriteRead` | internal/bookcabin/cache/cache.go:26-45 | overwriting what a lookup returned does not change what the next lookup returns |
| `ResultCache.MarkObject` | internal/bookcabin/usecase/flights.go:75-79 | the two writes on a hit change the returned object only |
| `ResultCache.Flights` | internal/bookcabin/usecase/flights.go:72-140 | returns the answer, and leaves the cache, as specified by `Service.Serve`, with an object that shares nothing with the cache |
| `RateLimiter.SleepEndsOnTime` | internal/bookcabin/provider/ratelimit.go:28-33 | a caller is granted when no stamp exists or an interval has passed by its reading, and is otherwise told to wait until exactly one interval after the stamp |
| `RateLimiter.Limiter.CheckUnderLock` | internal/bookcabin/provider/ratelimit.go:27-34 | grants and stamps, or reports the wait until one interval after the stamp and leaves it alone |
| `RateLimiter.Limiter.Wait` | internal/bookcabin/provider/ratelimit.go:21-41 | a lone caller makes at most two checks and passes at once, or one interval after the previous grant plus the lag of its timer; it fails exactly when it has to wait and its context ends, and then leaves the stamp alone |
| `RateLimiter.LimitedProvider.Search` | internal/bookcabin/provider/ratelimit.go:59-64 | the provider is asked only once the limiter has let the caller pass, and never when the context ends first |
| `RateLimiter.GrantsAreSpaced` | internal/bookcabin/provider/ratelimit.go:25-40 | in every interleaving, stale readings included, the stamps of the i-th and j-th grant are at least (j - i) intervals apart |
| `RateLimiter.ReleasesAreSpaced` | internal/bookcabin/provider/ratelimit.go:25-40 | the clock times of those grants are at least (j - i) intervals apart less the age of the i-th reading |
| `RateLimiter.StaleReadingBunches` | internal/bookcabin/provider/ratelimit.go:26-32 | a run in which an old reading lets two callers through one tick apart |
| `RateLimiter.SleepersWakeOnTime` | internal/bookcabin/provider/ratelimit.go:26-38 | in every interleaving a refused caller sleeps until one interval after the last stamp, longer only by the age of its reading and the lag of its timer |
| `RateLimiter.FailureNeedsGrant` | internal/bookcabin/provider/ratelimit.go:25-40 | a caller that failed before fails again only if somebody was granted in between |
| `RateLimiter.ChecksBounded` | internal/bookcabin/provider/ratelimit.go:25-40 | with n callers nobody checks more than n + 1 times |
| `RateLimiter.EveryoneIsGranted` | internal/bookcabin/provider/ratelimit.go:25-40 | the callers' own steps are bounded, and when none is cancelled a run that cannot be continued has granted everyone |
| `Money.FormatIDR` | internal/bookcabin/inbound/http_helper.go:200-216 | the in-place grouping loop prints the grouped digits of the absolute value behind sign and prefix |
| `Money.RoundTripIff` | internal/bookcabin/inbound/http_helper.go:200-216 | reading the text back gives the amount exactly when it is not the least machine integer |
| `Money.PrintsApart` | internal/bookcabin/inbound/http_helper.go:200-216 | no two machine integers print alike |
| `Money.GroupsOfThree` | internal/bookcabin/inbound/http_helper.go:209-211 | the first group has one to three digits, every later group exactly three |
| `DurationText.DurationRoundTrip` | internal/bookcabin/inbound/http_helper.go:185-198 | the provider's reader recovers a printed duration exactly when it has both an hour and a minute part, and otherwise reads 0 |
| `DurationText.PrintedDurationReads` | internal/bookcabin/inbound/http_helper.go:185-198 | with h for sixty minutes and m for one, every printed duration reads as what was printed, and nothing is printed for none |
| `DurationText.PatternMinutes` | internal/bookcabin/provider/batik_air.go:113-127 | the first digits, h, any white space, digits and m, in either case and with anything around them, read as sixty minutes to the hour, or as 0 when a number is too large |
| `DurationText.NoMatchFrom` | internal/bookcabin/provider/batik_air.go:113-118 | a text without an h, or without an m, in either case, has no match anywhere |
| `Masking.MaskHidesExactly` | internal/pkg/pkgrouter/middleware_logging.go:47-68 | two trees are logged alike exactly when they differ only beneath sensitive keys |
| `Masking.MaskKeepsRest` | internal/pkg/pkgrouter/middleware_logging.go:47-68 | masking keeps shape, keys and leaves outside sensitive values |
| `Masking.MaskIdempotent` | internal/pkg/pkgrouter/middleware_logging.go:47-68 | masking twice is masking once |
| `Masking.MaskedExactly` | internal/pkg/pkgrouter/middleware_logging.go:23-57 | after masking every sensitive key at any depth holds `***`, and exactly the trees already so are left alone |
| `Masking.SensitiveIff` | internal/pkg/pkgrouter/middleware_logging.go:23-35 | exactly the ten listed keys are sensitive, in any letter case |

## Left out

- Provider searches (file reads, JSON decoding, random delays and failures), timeouts and context plumbing: arbitrary outcomes stand for them.
- HTTP routing, request parsing, response encoding, configuration, start-up and shutdown, log handlers, identifier generation: plumbing over libraries.
- Header masking, error code tables, city names, baggage splitting, stop defaults: one-branch facts.
- Location databases, daylight-saving gaps, sub-minute zone offsets and fractional seconds; Unicode case folding and white space beyond ASCII.
- Rounding of 64-bit floats in the score.
- Sharing below the shallow clone: amenities, aircraft, return date and failed-provider lists are values in this model, so nothing is claimed about overwriting them through a shared reference.
- StableSort.SliceStable: the library's block-and-merge sort is not written out; that it asks only later-before-earlier, as `AnySort` needs, is a reading of the library and not proved here.
- Service.CacheIsTransparent: assumes providers whose outcomes are deterministic and do not depend on letter case or on the time of day of the requested dates; the four providers do not read the request at all.
- Query.KeyIsCanonical: compares inputs without `|`; `KeyTwins` says which inputs own their key against all others.
- KeyTwins.KeyTellsIff: does not characterise inputs with `|` in the cabin, or with white space right before a `|` in an airline name, where a second reading depends on what the text around it happens to look like.
- Sharing.TransparentIff: says nothing of an input that no flight can meet on its outbound leg.
- RateLimiter.Limiter.Wait: durations are unbounded integers, so the saturation of time differences over more than 292 years is not modelled.
- ResultCache.Cache.Get: the lookup is one step here; its split critical sections are in `TtlMap`, where values are not heap objects.
- ResultCache.Flights: stored outputs are never nil, since the only caller never stores nil.
- Retry.SearchWithRetry: the context ending during a provider call is part of that call's reply.
