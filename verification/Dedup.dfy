/** Price comparison: one offer is kept for each flight key. */
module Dedup {
  import opened Seqs
  import opened Text
  import opened Entity

  /** `f` displaces `g` when both have the same key: cheaper, or as cheap from an earlier-named provider. */
  predicate Beats(f: Flight, g: Flight) {
    || f.price.amount < g.price.amount
    || (f.price.amount == g.price.amount && StrLess(f.provider, g.provider))
  }

  type Best = map<string, Flight>

  function Absorb(key: Flight -> string, best: Best, f: Flight): (r: Best) {
    var k := key(f);
    if k !in best || Beats(f, best[k]) then best[k := f] else best
  }

  /** The best offers after reading `flights` from left to right. */
  function BestByKey(key: Flight -> string, flights: seq<Flight>): (best: Best) {
    if flights == [] then map[]
    else Absorb(key, BestByKey(key, flights[..|flights| - 1]), flights[|flights| - 1])
  }

  /** An order in which the map may be walked. */
  ghost predicate IsWalk(walk: seq<string>, best: Best) {
    NoDuplicates(walk) && forall k :: k in walk <==> k in best
  }

  function Listing(best: Best, walk: seq<string>): (r: seq<Flight>)
    requires forall k :: k in walk ==> k in best
    ensures |r| == |walk|
    ensures forall i :: 0 <= i < |walk| ==> r[i] == best[walk[i]]
  {
    seq(|walk|, i requires 0 <= i < |walk| => best[walk[i]])
  }

  lemma ListingHasAll(best: Best, walk: seq<string>)
    requires IsWalk(walk, best)
    ensures forall f :: f in Listing(best, walk) <==> f in best.Values
  {
    forall f | f in best.Values
      ensures f in Listing(best, walk)
    {
      var k :| k in best && best[k] == f;
      var i :| 0 <= i < |walk| && walk[i] == k;
      assert Listing(best, walk)[i] == f;
    }
    forall f | f in Listing(best, walk)
      ensures f in best.Values
    {
      var i :| 0 <= i < |walk| && Listing(best, walk)[i] == f;
      assert walk[i] in walk;
    }
  }

  /** The map is filled in input order; it is then walked in an order nobody controls. */
  method CompareAndDedup(key: Flight -> string, flights: seq<Flight>) returns (unique: seq<Flight>, ghost walk: seq<string>)
    ensures IsWalk(walk, BestByKey(key, flights))
    ensures unique == Listing(BestByKey(key, flights), walk)
    ensures |unique| == |BestByKey(key, flights)|
    ensures forall f :: f in unique <==> f in BestByKey(key, flights).Values
  {
    if |flights| == 0 {
      return flights, [];
    }
    var bestByKey: Best := map[];
    for i := 0 to |flights|
      invariant bestByKey == BestByKey(key, flights[..i])
    {
      assert flights[..i + 1][..i] == flights[..i];
      var flight := flights[i];
      var k := key(flight);
      if k !in bestByKey || flight.price.amount < bestByKey[k].price.amount {
        bestByKey := bestByKey[k := flight];
        continue;
      }
      if flight.price.amount == bestByKey[k].price.amount && StrLess(flight.provider, bestByKey[k].provider) {
        bestByKey := bestByKey[k := flight];
      }
    }
    assert flights[..|flights|] == flights;
    unique, walk := [], [];
    var left := bestByKey.Keys;
    while left != {}
      invariant NoDuplicates(walk)
      invariant left <= bestByKey.Keys
      invariant forall k :: k in walk <==> k in bestByKey.Keys - left
      invariant unique == Listing(bestByKey, walk)
      invariant |walk| + |left| == |bestByKey.Keys|
      decreases left
    {
      var k :| k in left;
      assert k !in walk;
      unique, walk, left := unique + [bestByKey[k]], walk + [k], left - {k};
    }
    ListingHasAll(bestByKey, walk);
  }

  // ---- the order on offers ----

  lemma BeatsTrichotomy(f: Flight, g: Flight)
    ensures !(Beats(f, g) && Beats(g, f))
    ensures !Beats(f, g) && !Beats(g, f) <==> f.price.amount == g.price.amount && f.provider == g.provider
  {
    StrLessTotal(f.provider, g.provider);
  }

  lemma BeatsTransitive(f: Flight, g: Flight, h: Flight)
    requires !Beats(g, f) && !Beats(h, g)
    ensures !Beats(h, f)
    ensures Beats(f, g) || Beats(g, h) ==> Beats(f, h)
  {
    var p, q, r := f.provider, g.provider, h.provider;
    StrLessTotal(p, q);
    StrLessTotal(q, r);
    StrLessTotal(p, r);
    if StrLess(p, q) && StrLess(q, r) {
      StrLessTransitive(p, q, r);
    }
  }

  // ---- which offer is kept ----

  /** Offer `i` is the earliest among the least for its key. */
  ghost predicate EarliestLeast(key: Flight -> string, flights: seq<Flight>, i: int) {
    && 0 <= i < |flights|
    && forall j :: 0 <= j < |flights| && key(flights[j]) == key(flights[i]) ==>
                     !Beats(flights[j], flights[i]) && (j < i ==> Beats(flights[i], flights[j]))
  }

  lemma {:induction false} KeysPresent(key: Flight -> string, flights: seq<Flight>, k: string)
    ensures k in BestByKey(key, flights) <==> exists i :: 0 <= i < |flights| && key(flights[i]) == k
  {
    if flights == [] {
    } else {
      var n := |flights| - 1;
      KeysPresent(key, flights[..n], k);
      if k in BestByKey(key, flights[..n]) {
        var i :| 0 <= i < n && key(flights[..n][i]) == k;
        assert key(flights[i]) == k;
      }
      if i :| 0 <= i < n && key(flights[i]) == k {
        assert key(flights[..n][i]) == k;
      }
    }
  }

  /** Exactly one offer per key survives: the earliest among those least by price, then provider. */
  lemma {:induction false} KeptOffer(key: Flight -> string, flights: seq<Flight>, k: string) returns (i: int)
    requires k in BestByKey(key, flights)
    ensures EarliestLeast(key, flights, i) && key(flights[i]) == k
    ensures BestByKey(key, flights)[k] == flights[i]
  {
    var n := |flights| - 1;
    var init, f := flights[..n], flights[n];
    var before := BestByKey(key, init);
    if key(f) != k {
      i := KeptOffer(key, init, k);
    } else if k !in before {
      i := n;
      forall j | 0 <= j < n
        ensures key(flights[j]) != k
      {
        KeysPresent(key, init, k);
        assert key(init[j]) == key(flights[j]);
      }
      BeatsTrichotomy(f, f);
    } else {
      var m := KeptOffer(key, init, k);
      forall j | 0 <= j < n && key(flights[j]) == k
        ensures !Beats(flights[j], flights[m])
        ensures Beats(f, flights[m]) ==> Beats(f, flights[j]) && !Beats(flights[j], f)
      {
        assert init[j] == flights[j] && init[m] == flights[m];
        BeatsTrichotomy(f, flights[m]);
        if Beats(f, flights[m]) {
          BeatsTransitive(f, flights[m], flights[j]);
          BeatsTrichotomy(f, flights[j]);
        }
      }
      BeatsTrichotomy(f, f);
      i := if Beats(f, before[k]) then n else m;
      forall j | 0 <= j < |flights| && key(flights[j]) == key(flights[i])
        ensures !Beats(flights[j], flights[i]) && (j < i ==> Beats(flights[i], flights[j]))
      {
        if j < n {
          assert init[j] == flights[j];
        }
      }
    }
    if i < n {
      forall j | 0 <= j < |flights| && key(flights[j]) == key(flights[i])
        ensures !Beats(flights[j], flights[i]) && (j < i ==> Beats(flights[i], flights[j]))
      {
        if j < n {
          assert init[j] == flights[j];
        }
      }
    }
  }

  /** No offer beats the one kept for its key. */
  lemma KeptIsUnbeaten(key: Flight -> string, flights: seq<Flight>, f: Flight)
    requires f in flights
    ensures key(f) in BestByKey(key, flights) && !Beats(f, BestByKey(key, flights)[key(f)])
  {
    var j :| 0 <= j < |flights| && flights[j] == f;
    KeysPresent(key, flights, key(f));
    var i := KeptOffer(key, flights, key(f));
  }

  /** In the source's own terms: no offer under the key is cheaper, and none as cheap has an earlier-named provider. */
  lemma KeptIsCheapest(key: Flight -> string, flights: seq<Flight>, f: Flight)
    requires f in flights
    ensures key(f) in BestByKey(key, flights)
    ensures var g := BestByKey(key, flights)[key(f)];
      g.price.amount <= f.price.amount && (g.price.amount == f.price.amount ==> !StrLess(f.provider, g.provider))
  {
    KeptIsUnbeaten(key, flights, f);
  }

  lemma EarliestLeastUnique(key: Flight -> string, flights: seq<Flight>, i: int, j: int)
    requires EarliestLeast(key, flights, i) && EarliestLeast(key, flights, j)
    requires key(flights[i]) == key(flights[j])
    ensures i == j
  {
  }

  /** The converse of KeptOffer: being the earliest among the least is what it takes to be kept. */
  lemma EarliestLeastIsKept(key: Flight -> string, flights: seq<Flight>, i: int)
    requires EarliestLeast(key, flights, i)
    ensures key(flights[i]) in BestByKey(key, flights)
    ensures BestByKey(key, flights)[key(flights[i])] == flights[i]
  {
    KeysPresent(key, flights, key(flights[i]));
    var j := KeptOffer(key, flights, key(flights[i]));
    EarliestLeastUnique(key, flights, i, j);
  }

  // ---- dedup is a left-biased merge ----

  function Merge(a: Best, b: Best): (r: Best) {
    map k | k in a.Keys + b.Keys ::
      if k !in a || (k in b && Beats(b[k], a[k])) then b[k] else a[k]
  }

  lemma AbsorbMerges(key: Flight -> string, a: Best, b: Best, f: Flight)
    ensures Absorb(key, Merge(a, b), f) == Merge(a, Absorb(key, b, f))
  {
    var k := key(f);
    if k in a && k in b {
      BeatsTrichotomy(f, b[k]);
      BeatsTrichotomy(f, a[k]);
      BeatsTrichotomy(b[k], a[k]);
      if !Beats(b[k], f) && !Beats(a[k], b[k]) {
        BeatsTransitive(f, b[k], a[k]);
      }
      if !Beats(f, b[k]) && !Beats(b[k], a[k]) {
        BeatsTransitive(a[k], b[k], f);
      }
    }
    assert Absorb(key, Merge(a, b), f).Keys == Merge(a, Absorb(key, b, f)).Keys;
  }

  /** Reading two batches in a row gives the merge of what each batch alone would give. */
  lemma {:induction false} DedupOfConcat(key: Flight -> string, xs: seq<Flight>, ys: seq<Flight>)
    ensures BestByKey(key, xs + ys) == Merge(BestByKey(key, xs), BestByKey(key, ys))
  {
    if ys == [] {
      assert xs + ys == xs;
      assert Merge(BestByKey(key, xs), map[]) == BestByKey(key, xs);
    } else {
      var n := |ys| - 1;
      assert (xs + ys)[..|xs + ys| - 1] == xs + ys[..n];
      DedupOfConcat(key, xs, ys[..n]);
      AbsorbMerges(key, BestByKey(key, xs), BestByKey(key, ys[..n]), ys[n]);
    }
  }

  // ---- idempotence ----

  lemma KeptUnderOwnKey(key: Flight -> string, flights: seq<Flight>, k: string)
    requires k in BestByKey(key, flights)
    ensures key(BestByKey(key, flights)[k]) == k
    ensures BestByKey(key, flights)[k] in flights
  {
    var i := KeptOffer(key, flights, k);
  }

  /** Deduplicating a result again, listed in any order, changes nothing. */
  lemma DedupIdempotent(key: Flight -> string, flights: seq<Flight>, walk: seq<string>)
    requires IsWalk(walk, BestByKey(key, flights))
    ensures BestByKey(key, Listing(BestByKey(key, flights), walk)) == BestByKey(key, flights)
  {
    var best := BestByKey(key, flights);
    var listed := Listing(best, walk);
    forall i | 0 <= i < |walk|
      ensures key(listed[i]) == walk[i]
      ensures EarliestLeast(key, listed, i)
    {
      forall j | 0 <= j < |walk|
        ensures key(listed[j]) == walk[j]
      {
        KeptUnderOwnKey(key, flights, walk[j]);
      }
      BeatsTrichotomy(listed[i], listed[i]);
    }
    forall k
      ensures k in BestByKey(key, listed) <==> k in best
      ensures k in best ==> BestByKey(key, listed)[k] == best[k]
    {
      KeysPresent(key, listed, k);
      if k in best {
        var i :| 0 <= i < |walk| && walk[i] == k;
        EarliestLeastIsKept(key, listed, i);
      }
    }
  }

  // ---- what reordering the input cannot change ----

  ghost predicate SameOffers(a: Best, b: Best) {
    && a.Keys == b.Keys
    && forall k :: k in a ==> a[k].price.amount == b[k].price.amount && a[k].provider == b[k].provider
  }

  lemma KeysOfPermuted(key: Flight -> string, xs: seq<Flight>, ys: seq<Flight>, k: string)
    requires multiset(xs) == multiset(ys)
    requires k in BestByKey(key, xs)
    ensures k in BestByKey(key, ys)
  {
    KeysPresent(key, xs, k);
    var i :| 0 <= i < |xs| && key(xs[i]) == k;
    assert xs[i] in multiset(ys);
    KeysPresent(key, ys, k);
  }

  /** Reordering the input keeps every key with its price and provider. */
  lemma DedupOfPermuted(key: Flight -> string, xs: seq<Flight>, ys: seq<Flight>)
    requires multiset(xs) == multiset(ys)
    ensures SameOffers(BestByKey(key, xs), BestByKey(key, ys))
  {
    forall k
      ensures k in BestByKey(key, xs) <==> k in BestByKey(key, ys)
      ensures k in BestByKey(key, xs) ==>
                && BestByKey(key, xs)[k].price.amount == BestByKey(key, ys)[k].price.amount
                && BestByKey(key, xs)[k].provider == BestByKey(key, ys)[k].provider
    {
      if k in BestByKey(key, xs) {
        KeysOfPermuted(key, xs, ys, k);
        var i := KeptOffer(key, xs, k);
        var j := KeptOffer(key, ys, k);
        assert xs[i] in multiset(ys) && ys[j] in multiset(xs);
        BeatsTrichotomy(xs[i], ys[j]);
      } else if k in BestByKey(key, ys) {
        KeysOfPermuted(key, ys, xs, k);
      }
    }
  }

  /** The offers of one key that no other offer of that key displaces. */
  ghost predicate IsLeast(key: Flight -> string, flights: seq<Flight>, f: Flight) {
    f in flights && forall h :: h in flights && key(h) == key(f) ==> !Beats(h, f)
  }

  ghost predicate LeastOffersAgree(key: Flight -> string, v: Flight -> int, flights: seq<Flight>) {
    forall f, g :: IsLeast(key, flights, f) && IsLeast(key, flights, g) && key(f) == key(g) ==> v(f) == v(g)
  }

  /** Whatever order the offers arrive in, the offer kept for each key has the same value of `v`. */
  ghost predicate OrderBlind(key: Flight -> string, v: Flight -> int, flights: seq<Flight>) {
    forall ys, k :: multiset(ys) == multiset(flights) && k in BestByKey(key, flights) ==>
                      k in BestByKey(key, ys) && v(BestByKey(key, ys)[k]) == v(BestByKey(key, flights)[k])
  }

  lemma KeptIsLeast(key: Flight -> string, xs: seq<Flight>, ys: seq<Flight>, k: string)
    requires multiset(xs) == multiset(ys)
    requires k in BestByKey(key, ys)
    ensures IsLeast(key, xs, BestByKey(key, ys)[k]) && key(BestByKey(key, ys)[k]) == k
  {
    var i := KeptOffer(key, ys, k);
    assert ys[i] in multiset(xs);
    forall h | h in xs && key(h) == k
      ensures !Beats(h, ys[i])
    {
      assert h in multiset(ys);
    }
  }

  lemma LeastFirstIsKept(key: Flight -> string, xs: seq<Flight>, f: Flight) returns (ys: seq<Flight>)
    requires IsLeast(key, xs, f)
    ensures multiset(ys) == multiset(xs)
    ensures key(f) in BestByKey(key, ys) && BestByKey(key, ys)[key(f)] == f
  {
    var i :| 0 <= i < |xs| && xs[i] == f;
    ys := [f] + RemoveAt(xs, i);
    forall j | 0 <= j < |ys| && key(ys[j]) == key(f)
      ensures !Beats(ys[j], f)
    {
      assert ys[j] in multiset(xs);
    }
    assert EarliestLeast(key, ys, 0);
    EarliestLeastIsKept(key, ys, 0);
  }

  /** An attribute of the kept offers is independent of arrival order exactly when tied cheapest offers agree on it. */
  lemma OrderBlindIff(key: Flight -> string, v: Flight -> int, flights: seq<Flight>)
    ensures OrderBlind(key, v, flights) <==> LeastOffersAgree(key, v, flights)
  {
    if LeastOffersAgree(key, v, flights) {
      forall ys, k | multiset(ys) == multiset(flights) && k in BestByKey(key, flights)
        ensures k in BestByKey(key, ys) && v(BestByKey(key, ys)[k]) == v(BestByKey(key, flights)[k])
      {
        KeysOfPermuted(key, flights, ys, k);
        KeptIsLeast(key, flights, ys, k);
        KeptIsLeast(key, flights, flights, k);
      }
    }
    if OrderBlind(key, v, flights) {
      forall f, g | IsLeast(key, flights, f) && IsLeast(key, flights, g) && key(f) == key(g)
        ensures v(f) == v(g)
      {
        var ys := LeastFirstIsKept(key, flights, f);
        var zs := LeastFirstIsKept(key, flights, g);
        KeysOfPermuted(key, ys, flights, key(f));
      }
    }
  }

  // ---- filtering before or after ----

  /** What a test must satisfy to commute with dedup: whatever would displace an accepted offer, or tie with it, is accepted. */
  ghost predicate ClosedUnderBetter(key: Flight -> string, p: Flight -> bool) {
    forall f, g :: key(f) == key(g) && p(f) && !Beats(f, g) ==> p(g)
  }

  ghost predicate ClosedOn(key: Flight -> string, p: Flight -> bool, flights: seq<Flight>) {
    forall f, g :: f in flights && g in flights && key(f) == key(g) && p(f) && !Beats(f, g) ==> p(g)
  }

  ghost predicate Commutes(key: Flight -> string, p: Flight -> bool, flights: seq<Flight>) {
    BestByKey(key, Keep(p, flights)) == Restricted(BestByKey(key, flights), p)
  }

  function Restricted(best: Best, p: Flight -> bool): (r: Best) {
    map k | k in best && p(best[k]) :: best[k]
  }

  lemma AbsorbRestricted(key: Flight -> string, p: Flight -> bool, best: Best, f: Flight)
    requires var k := key(f); k in best ==>
               && (p(best[k]) && !Beats(best[k], f) ==> p(f))
               && (p(f) && !Beats(f, best[k]) ==> p(best[k]))
    ensures Restricted(Absorb(key, best, f), p) ==
            if p(f) then Absorb(key, Restricted(best, p), f) else Restricted(best, p)
  {
    var k := key(f);
    if k in best {
      BeatsTrichotomy(f, best[k]);
    }
  }

  /** Filtering then deduplicating picks the very same flights as deduplicating then filtering. */
  lemma {:induction false} FilterCommutes(key: Flight -> string, p: Flight -> bool, flights: seq<Flight>)
    requires ClosedOn(key, p, flights)
    ensures Commutes(key, p, flights)
  {
    if flights == [] {
    } else {
      var n := |flights| - 1;
      var init, f := flights[..n], flights[n];
      assert flights == init + [f];
      FilterCommutes(key, p, init);
      if key(f) in BestByKey(key, init) {
        KeptUnderOwnKey(key, init, key(f));
      }
      AbsorbRestricted(key, p, BestByKey(key, init), f);
      if p(f) {
        assert Keep(p, flights)[..|Keep(p, flights)| - 1] == Keep(p, init);
      } else {
        assert Keep(p, flights) == Keep(p, init);
      }
    }
  }

  /** One pair that breaks closure is an input on which the order of the two passes shows. */
  lemma PairTellsOrder(key: Flight -> string, p: Flight -> bool, f: Flight, g: Flight)
    requires key(f) == key(g) && p(f) && !p(g) && !Beats(f, g)
    ensures !Commutes(key, p, [g, f])
  {
    assert [g, f][..1] == [g] && [g][..0] == [] && [f][..0] == [];
    assert BestByKey(key, [g]) == map[key(g) := g];
    assert BestByKey(key, [g, f]) == map[key(g) := g];
    assert Keep(p, [g]) == [];
    assert Keep(p, [g, f]) == [f];
    assert key(f) in BestByKey(key, [f]);
  }

  /** Exactly the tests closed under better offers commute with dedup on every input. */
  lemma CommutesIff(key: Flight -> string, p: Flight -> bool)
    ensures (forall flights :: Commutes(key, p, flights)) <==> ClosedUnderBetter(key, p)
  {
    if ClosedUnderBetter(key, p) {
      forall flights
        ensures Commutes(key, p, flights)
      {
        FilterCommutes(key, p, flights);
      }
    }
    if forall flights :: Commutes(key, p, flights) {
      forall f, g | key(f) == key(g) && p(f) && !Beats(f, g)
        ensures p(g)
      {
        assert Commutes(key, p, [g, f]);
        if !p(g) {
          PairTellsOrder(key, p, f, g);
        }
      }
    }
  }
}
