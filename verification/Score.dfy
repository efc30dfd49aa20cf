/** The best-value score: price and duration, each scaled to its range over the result list. */
module Score {
  import opened Seqs
  import opened Decimal
  import opened Entity

  function PriceOf(f: Flight): (p: int) { f.price.amount }

  function DurationOf(f: Flight): (d: int) { f.durationMinute }

  function Least(xs: seq<int>): (m: int)
    requires xs != []
  {
    var n := |xs| - 1;
    if n == 0 then xs[0]
    else if xs[n] < Least(xs[..n]) then xs[n]
    else Least(xs[..n])
  }

  function Greatest(xs: seq<int>): (m: int)
    requires xs != []
  {
    var n := |xs| - 1;
    if n == 0 then xs[0]
    else if xs[n] > Greatest(xs[..n]) then xs[n]
    else Greatest(xs[..n])
  }

  /** The least and the greatest element are elements, and bound the others. */
  lemma {:induction false} ExtremesBound(xs: seq<int>)
    requires xs != []
    ensures Least(xs) in xs && Greatest(xs) in xs
    ensures forall x :: x in xs ==> Least(xs) <= x <= Greatest(xs)
  {
    if |xs| == 1 {
      assert xs == [xs[0]];
    } else {
      var init, last := xs[..|xs| - 1], xs[|xs| - 1];
      ExtremesBound(init);
      assert xs == init + [last];
    }
  }

  /** The divisor; a zero range counts as 1. The subtraction is a machine subtraction. */
  function Range(lo: int, hi: int): (r: real)
    ensures r != 0.0
  {
    if Wrap(hi - lo) == 0 then 1.0 else Wrap(hi - lo) as real
  }

  function Part(x: int, lo: int, range: real): (r: real)
    requires range != 0.0
  {
    Wrap(x - lo) as real / range
  }

  function BestValue(f: Flight, minPrice: int, priceRange: real, minDuration: int, durationRange: real): (r: real)
    requires priceRange != 0.0 && durationRange != 0.0
  {
    Part(f.price.amount, minPrice, priceRange) * 0.6 + Part(f.durationMinute, minDuration, durationRange) * 0.4
  }

  function ScoreIn(f: Flight, prices: seq<int>, durations: seq<int>): (r: real)
    requires prices != [] && durations != []
  {
    BestValue(f, Least(prices), Range(Least(prices), Greatest(prices)),
              Least(durations), Range(Least(durations), Greatest(durations)))
  }

  function WithScore(f: Flight, prices: seq<int>, durations: seq<int>): (r: Flight)
    requires prices != [] && durations != []
    ensures r == f.(bestValueScore := r.bestValueScore)
  {
    f.(bestValueScore := ScoreIn(f, prices, durations))
  }

  /** The same flights, each carrying its score. */
  function Scored(flights: seq<Flight>): (r: seq<Flight>)
    ensures |r| == |flights|
    ensures forall i :: 0 <= i < |flights| ==> r[i] == flights[i].(bestValueScore := r[i].bestValueScore)
  {
    seq(|flights|, i requires 0 <= i < |flights| =>
      WithScore(flights[i], MapSeq(PriceOf, flights), MapSeq(DurationOf, flights)))
  }

  /** The extremes of the first `k` elements. */
  ghost predicate AreExtremes(xs: seq<int>, k: int, lo: int, hi: int) {
    0 < k <= |xs| && lo == Least(xs[..k]) && hi == Greatest(xs[..k])
  }

  lemma ExtremesStep(xs: seq<int>, k: int, lo: int, hi: int)
    requires AreExtremes(xs, k, lo, hi) && k < |xs|
    ensures AreExtremes(xs, k + 1, if xs[k] < lo then xs[k] else lo, if xs[k] > hi then xs[k] else hi)
  {
    assert xs[..k + 1][..k] == xs[..k];
  }

  lemma ExtremesOfFirst(xs: seq<int>)
    requires xs != []
    ensures AreExtremes(xs, 1, xs[0], xs[0])
  {
  }

  lemma ExtremesOfAll(xs: seq<int>, lo: int, hi: int)
    requires AreExtremes(xs, |xs|, lo, hi)
    ensures lo == Least(xs) && hi == Greatest(xs)
  {
    assert xs[..|xs|] == xs;
  }

  /** The first pass: both ranges, from one reading of the list. */
  method Extremes(flights: array<Flight>)
    returns (minPrice: int, maxPrice: int, minDuration: int, maxDuration: int)
    requires flights.Length > 0
    ensures var prices, durations := MapSeq(PriceOf, flights[..]), MapSeq(DurationOf, flights[..]);
      && minPrice == Least(prices) && maxPrice == Greatest(prices)
      && minDuration == Least(durations) && maxDuration == Greatest(durations)
  {
    ghost var prices, durations := MapSeq(PriceOf, flights[..]), MapSeq(DurationOf, flights[..]);
    minPrice, maxPrice := flights[0].price.amount, flights[0].price.amount;
    minDuration, maxDuration := flights[0].durationMinute, flights[0].durationMinute;
    ExtremesOfFirst(prices);
    ExtremesOfFirst(durations);
    for k := 1 to flights.Length
      invariant AreExtremes(prices, k, minPrice, maxPrice)
      invariant AreExtremes(durations, k, minDuration, maxDuration)
    {
      ExtremesStep(prices, k, minPrice, maxPrice);
      ExtremesStep(durations, k, minDuration, maxDuration);
      var f := flights[k];
      assert prices[k] == f.price.amount && durations[k] == f.durationMinute;
      minPrice := if f.price.amount < minPrice then f.price.amount else minPrice;
      maxPrice := if f.price.amount > maxPrice then f.price.amount else maxPrice;
      minDuration := if f.durationMinute < minDuration then f.durationMinute else minDuration;
      maxDuration := if f.durationMinute > maxDuration then f.durationMinute else maxDuration;
    }
    ExtremesOfAll(prices, minPrice, maxPrice);
    ExtremesOfAll(durations, minDuration, maxDuration);
  }

  /** The second pass: writes every score in place. */
  method WriteScores(flights: array<Flight>, minPrice: int, priceRange: real, minDuration: int, durationRange: real)
    requires priceRange != 0.0 && durationRange != 0.0
    modifies flights
    ensures forall k :: 0 <= k < flights.Length ==>
      flights[k] == old(flights[k]).(
        bestValueScore := BestValue(old(flights[k]), minPrice, priceRange, minDuration, durationRange))
  {
    for i := 0 to flights.Length
      invariant forall k :: 0 <= k < i ==>
        flights[k] == old(flights[k]).(
          bestValueScore := BestValue(old(flights[k]), minPrice, priceRange, minDuration, durationRange))
      invariant forall k :: i <= k < flights.Length ==> flights[k] == old(flights[k])
    {
      var priceScore := Wrap(flights[i].price.amount - minPrice) as real / priceRange;
      var durationScore := Wrap(flights[i].durationMinute - minDuration) as real / durationRange;
      flights[i] := flights[i].(bestValueScore := priceScore * 0.6 + durationScore * 0.4);
    }
  }

  /** Scores written from the extremes of the list are the scores of the list. */
  lemma WrittenScores(input: seq<Flight>, output: seq<Flight>, priceRange: real, durationRange: real)
    requires input != [] && |output| == |input|
    requires var prices, durations := MapSeq(PriceOf, input), MapSeq(DurationOf, input);
      && priceRange == Range(Least(prices), Greatest(prices))
      && durationRange == Range(Least(durations), Greatest(durations))
      && forall k :: 0 <= k < |input| ==>
           output[k] == input[k].(bestValueScore :=
             BestValue(input[k], Least(prices), priceRange, Least(durations), durationRange))
    ensures output == Scored(input)
  {
  }

  method ApplyBestValueScore(flights: array<Flight>)
    modifies flights
    ensures flights[..] == Scored(old(flights[..]))
  {
    if flights.Length == 0 {
      return;
    }
    ghost var input := flights[..];
    var minPrice, maxPrice, minDuration, maxDuration := Extremes(flights);
    var priceRange := Wrap(maxPrice - minPrice) as real;
    var durationRange := Wrap(maxDuration - minDuration) as real;
    priceRange := if priceRange == 0.0 then 1.0 else priceRange;
    durationRange := if durationRange == 0.0 then 1.0 else durationRange;
    assert priceRange == Range(minPrice, maxPrice) && durationRange == Range(minDuration, maxDuration);
    WriteScores(flights, minPrice, priceRange, minDuration, durationRange);
    WrittenScores(input, flights[..], priceRange, durationRange);
  }

  // ---- dominance ----

  /** Better in price or duration and worse in neither. */
  predicate Dominates(f: Flight, g: Flight) {
    && f.price.amount <= g.price.amount && f.durationMinute <= g.durationMinute
    && (f.price.amount < g.price.amount || f.durationMinute < g.durationMinute)
  }

  /** The spread of a list fits a machine integer; true of any list of non-negative machine integers. */
  predicate SpreadFits(xs: seq<int>) {
    xs != [] ==> Greatest(xs) - Least(xs) <= MAX_INT64
  }

  lemma NonNegativeFits(xs: seq<int>)
    requires forall x :: x in xs ==> 0 <= x <= MAX_INT64
    ensures SpreadFits(xs)
  {
    if xs != [] {
      ExtremesBound(xs);
    }
  }

  predicate SpreadsFit(flights: seq<Flight>) {
    SpreadFits(MapSeq(PriceOf, flights)) && SpreadFits(MapSeq(DurationOf, flights))
  }

  lemma DivideOrdered(a: real, b: real, r: real)
    requires r > 0.0
    ensures a < b ==> a / r < b / r
    ensures 0.0 <= a <= r ==> 0.0 <= a / r <= 1.0
  {
    var x, y := a / r, b / r;
    assert x * r == a && y * r == b;
    if x >= y {
      assert x * r >= y * r;
    }
  }

  lemma PartBounds(x: int, y: int, lo: int, hi: int)
    requires lo <= x <= hi && lo <= y <= hi && hi - lo <= MAX_INT64
    ensures 0.0 <= Part(x, lo, Range(lo, hi)) <= 1.0
    ensures x < y ==> Part(x, lo, Range(lo, hi)) < Part(y, lo, Range(lo, hi))
  {
    DivideOrdered((x - lo) as real, (y - lo) as real, Range(lo, hi));
  }

  predicate InUnit(x: real) { 0.0 <= x <= 1.0 }

  /** One part of every score of a list, in price or in duration, lies in [0, 1]. */
  ghost predicate PartsInUnit(xs: seq<int>)
    requires xs != []
  {
    forall x :: x in xs ==> InUnit(Part(x, Least(xs), Range(Least(xs), Greatest(xs))))
  }

  ghost predicate OnlyExtremes(xs: seq<int>)
    requires xs != []
  {
    forall x :: x in xs ==> x == Least(xs) || x == Greatest(xs)
  }

  /** The parts of a list's scores stay in [0, 1] exactly when its spread fits a machine integer or it has no value between its extremes. */
  lemma PartsInUnitIff(xs: seq<int>)
    requires xs != [] && forall x :: x in xs ==> MIN_INT64 <= x <= MAX_INT64
    ensures PartsInUnit(xs) <==> SpreadFits(xs) || OnlyExtremes(xs)
  {
    var lo, hi := Least(xs), Greatest(xs);
    ExtremesBound(xs);
    forall x | x in xs
      ensures InUnit(Part(x, lo, Range(lo, hi))) <==> SpreadFits(xs) || x == lo || x == hi
    {
      if SpreadFits(xs) {
        PartBounds(x, x, lo, hi);
      } else {
        WrappedPart(x, lo, hi);
      }
    }
  }

  /** Past the machine range only the extremes themselves keep their place. */
  lemma WrappedPart(x: int, lo: int, hi: int)
    requires MIN_INT64 <= lo <= x <= hi <= MAX_INT64 && hi - lo > MAX_INT64
    ensures InUnit(Part(x, lo, Range(lo, hi))) <==> x == lo || x == hi
  {
    var r := hi - lo - TWO_64;
    assert Wrap(hi - lo) == r;
    var n := Wrap(x - lo);
    assert n == if x - lo <= MAX_INT64 then x - lo else x - lo - TWO_64;
    DivideByNegative(n as real, r as real);
  }

  lemma DivideByNegative(a: real, r: real)
    requires r < 0.0
    ensures a > 0.0 ==> a / r < 0.0
    ensures a < r ==> a / r > 1.0
    ensures a == 0.0 ==> a / r == 0.0
    ensures a == r ==> a / r == 1.0
  {
    var q := a / r;
    assert q * r == a;
    if q <= 1.0 {
      assert q * r >= 1.0 * r;
    }
  }

  lemma ScoreOrdered(f: Flight, g: Flight, prices: seq<int>, durations: seq<int>)
    requires f.price.amount in prices && g.price.amount in prices
    requires f.durationMinute in durations && g.durationMinute in durations
    requires SpreadFits(prices) && SpreadFits(durations)
    ensures 0.0 <= ScoreIn(f, prices, durations) <= 1.0
    ensures Dominates(f, g) ==> ScoreIn(f, prices, durations) < ScoreIn(g, prices, durations)
  {
    ExtremesBound(prices);
    ExtremesBound(durations);
    PartBounds(f.price.amount, g.price.amount, Least(prices), Greatest(prices));
    PartBounds(f.durationMinute, g.durationMinute, Least(durations), Greatest(durations));
  }

  /** Scores lie in [0, 1], and a dominating flight scores strictly lower, ranges of zero included. */
  lemma ScoresRespectDominance(flights: seq<Flight>, i: int, j: int)
    requires 0 <= i < |flights| && 0 <= j < |flights|
    requires SpreadsFit(flights)
    ensures 0.0 <= Scored(flights)[i].bestValueScore <= 1.0
    ensures Dominates(flights[i], flights[j]) ==>
              Scored(flights)[i].bestValueScore < Scored(flights)[j].bestValueScore
  {
    var prices, durations := MapSeq(PriceOf, flights), MapSeq(DurationOf, flights);
    assert prices[i] in prices && prices[j] in prices && durations[i] in durations && durations[j] in durations;
    ScoreOrdered(flights[i], flights[j], prices, durations);
  }

  /** The whole score: six tenths of the place in the price range and four tenths of the place in the duration range. */
  lemma ScoreIs(f: Flight, prices: seq<int>, durations: seq<int>) returns (p: real, d: real)
    requires prices != [] && durations != [] && SpreadFits(prices) && SpreadFits(durations)
    requires f.price.amount in prices && f.durationMinute in durations
    ensures ScoreIn(f, prices, durations) == 0.6 * p + 0.4 * d
    ensures IsPlace(p, f.price.amount, Least(prices), Greatest(prices))
    ensures IsPlace(d, f.durationMinute, Least(durations), Greatest(durations))
  {
    ExtremesBound(prices);
    ExtremesBound(durations);
    p := PlaceOf(f.price.amount, Least(prices), Greatest(prices));
    d := PlaceOf(f.durationMinute, Least(durations), Greatest(durations));
  }

  /** `p` says how far `x` is on the way from `lo` to `hi`; a range of one value has no way to go. */
  predicate IsPlace(p: real, x: int, lo: int, hi: int) {
    p * (hi - lo) as real == (x - lo) as real && (lo == hi ==> p == 0.0)
  }

  lemma PlaceOf(x: int, lo: int, hi: int) returns (p: real)
    requires lo <= x <= hi && hi - lo <= MAX_INT64
    ensures p == Part(x, lo, Range(lo, hi)) && IsPlace(p, x, lo, hi)
  {
    p := Part(x, lo, Range(lo, hi));
    Quotient((x - lo) as real, Range(lo, hi));
  }

  lemma Quotient(a: real, r: real)
    requires r != 0.0
    ensures a / r * r == a && (a == 0.0 ==> a / r == 0.0)
  {
  }

  /** The weights: the cheapest and slowest flight scores 0.4, the dearest and fastest 0.6. */
  lemma ExtremeScores(f: Flight, g: Flight, prices: seq<int>, durations: seq<int>)
    requires prices != [] && durations != [] && SpreadFits(prices) && SpreadFits(durations)
    requires Least(prices) < Greatest(prices) && Least(durations) < Greatest(durations)
    requires f.price.amount == Least(prices) && f.durationMinute == Greatest(durations)
    requires g.price.amount == Greatest(prices) && g.durationMinute == Least(durations)
    ensures ScoreIn(f, prices, durations) == 0.4 && ScoreIn(g, prices, durations) == 0.6
  {
    PartEnds(Least(prices), Greatest(prices));
    PartEnds(Least(durations), Greatest(durations));
  }

  lemma PartEnds(lo: int, hi: int)
    requires lo < hi && hi - lo <= MAX_INT64
    ensures Part(lo, lo, Range(lo, hi)) == 0.0 && Part(hi, lo, Range(lo, hi)) == 1.0
  {
    DivideEnds(Range(lo, hi));
  }

  lemma DivideEnds(r: real)
    requires r > 0.0
    ensures 0.0 / r == 0.0 && r / r == 1.0
  {
    var q := r / r;
    assert q * r == r;
    assert (q - 1.0) * r == 0.0;
  }

  lemma WrappedSpread()
    ensures Wrap(MAX_INT64 - MIN_INT64) == -1 && Wrap(0 - MIN_INT64) == MIN_INT64
    ensures Part(0, MIN_INT64, Range(MIN_INT64, MAX_INT64)) == -(MIN_INT64 as real)
  {
    assert MIN_INT64 as real / -1.0 == -(MIN_INT64 as real);
  }

  lemma ExtremesOfThree(a: int, b: int, c: int)
    requires a <= b <= c
    ensures Least([a, b, c]) == a && Greatest([a, b, c]) == c
  {
    ExtremesBound([a, b, c]);
    assert [a, b, c][0] == a && [a, b, c][2] == c;
    assert a in [a, b, c] && c in [a, b, c];
  }

  /** When the spread overflows a machine integer, a score can leave [0, 1]. */
  lemma OverflowedSpread(f: Flight) returns (flights: seq<Flight>)
    ensures |flights| == 3 && !SpreadsFit(flights)
    ensures Scored(flights)[1].bestValueScore > 1.0
  {
    flights := [
      f.(price := f.price.(amount := MIN_INT64)),
      f.(price := f.price.(amount := 0)),
      f.(price := f.price.(amount := MAX_INT64))];
    var d := f.durationMinute;
    assert MapSeq(PriceOf, flights) == [MIN_INT64, 0, MAX_INT64];
    assert MapSeq(DurationOf, flights) == [d, d, d];
    ExtremesOfThree(MIN_INT64, 0, MAX_INT64);
    ExtremesOfThree(d, d, d);
    WrappedSpread();
    assert Part(d, d, Range(d, d)) == 0.0;
  }

  // ---- independence of order ----

  lemma ExtremesPermuted(xs: seq<int>, ys: seq<int>)
    requires xs != [] && multiset(xs) == multiset(ys)
    ensures ys != [] && Least(xs) == Least(ys) && Greatest(xs) == Greatest(ys)
  {
    assert |ys| == |multiset(ys)| == |multiset(xs)| == |xs|;
    ExtremesBound(xs);
    ExtremesBound(ys);
    assert Least(xs) in multiset(ys) && Least(ys) in multiset(xs);
    assert Greatest(xs) in multiset(ys) && Greatest(ys) in multiset(xs);
    assert Least(xs) in ys && Least(ys) in xs && Greatest(xs) in ys && Greatest(ys) in xs;
  }
}
