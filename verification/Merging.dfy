/** Best offers of several sources merged in the order the sources arrive. */
module Merging {
  import opened Seqs
  import opened Entity
  import opened Dedup

  function MergeAll<X>(own: X -> Best, xs: seq<X>): (best: Best) {
    if xs == [] then map[] else Merge(MergeAll(own, xs[..|xs| - 1]), own(xs[|xs| - 1]))
  }

  lemma MergeAssociative(a: Best, b: Best, c: Best)
    ensures Merge(Merge(a, b), c) == Merge(a, Merge(b, c))
  {
    forall k | k in a.Keys + b.Keys + c.Keys
      ensures Merge(Merge(a, b), c)[k] == Merge(a, Merge(b, c))[k]
    {
      MergeAssociativeAt(a, b, c, k);
    }
  }

  lemma MergeAssociativeAt(a: Best, b: Best, c: Best, k: string)
    requires k in a.Keys + b.Keys + c.Keys
    ensures Merge(Merge(a, b), c)[k] == Merge(a, Merge(b, c))[k]
  {
    if k in a && k in b && k in c {
      BeatsTrichotomy(b[k], a[k]);
      BeatsTrichotomy(c[k], b[k]);
      BeatsTrichotomy(c[k], a[k]);
      if !Beats(b[k], a[k]) && !Beats(c[k], b[k]) {
        BeatsTransitive(a[k], b[k], c[k]);
      }
      if Beats(c[k], b[k]) && Beats(b[k], a[k]) {
        BeatsTransitive(c[k], b[k], a[k]);
      }
    }
  }

  lemma {:induction false} MergeAllConcat<X>(own: X -> Best, xs: seq<X>, ys: seq<X>)
    ensures MergeAll(own, xs + ys) == Merge(MergeAll(own, xs), MergeAll(own, ys))
  {
    if ys == [] {
      assert xs + ys == xs;
      assert Merge(MergeAll(own, xs), map[]) == MergeAll(own, xs);
    } else {
      var init, last := ys[..|ys| - 1], ys[|ys| - 1];
      assert (xs + ys)[..|xs + ys| - 1] == xs + init;
      MergeAllConcat(own, xs, init);
      MergeAssociative(MergeAll(own, xs), MergeAll(own, init), own(last));
    }
  }

  /** Nobody's own offer under the key beats this one's. */
  ghost predicate Unbeaten<X>(own: X -> Best, xs: seq<X>, x: X, k: string) {
    k in own(x) && forall y :: y in xs && k in own(y) ==> !Beats(own(y)[k], own(x)[k])
  }

  lemma {:induction false} NobodyElse<X>(own: X -> Best, xs: seq<X>, k: string)
    requires k !in MergeAll(own, xs)
    ensures forall y :: y in xs ==> k !in own(y)
  {
    if xs == [] {
    } else {
      NobodyElse(own, xs[..|xs| - 1], k);
      assert xs == xs[..|xs| - 1] + [xs[|xs| - 1]];
    }
  }

  /** Every kept offer is the own offer of a source that is unbeaten under its key. */
  lemma {:induction false} KeptIsOwn<X>(own: X -> Best, xs: seq<X>, k: string) returns (x: X)
    requires k in MergeAll(own, xs)
    ensures x in xs && Unbeaten(own, xs, x, k)
    ensures MergeAll(own, xs)[k] == own(x)[k]
  {
    var init, last := xs[..|xs| - 1], xs[|xs| - 1];
    assert xs == init + [last];
    if k in MergeAll(own, init) {
      var y := KeptIsOwn(own, init, k);
      x := if k in own(last) && Beats(own(last)[k], own(y)[k]) then last else y;
      LaterUnbeaten(own, init, last, y, k);
    } else {
      x := last;
      NobodyElse(own, init, k);
      BeatsTrichotomy(own(last)[k], own(last)[k]);
    }
  }

  /** One more source takes over exactly if it beats the best so far. */
  lemma LaterUnbeaten<X>(own: X -> Best, init: seq<X>, last: X, y: X, k: string)
    requires Unbeaten(own, init, y, k)
    ensures if k in own(last) && Beats(own(last)[k], own(y)[k])
            then Unbeaten(own, init + [last], last, k)
            else Unbeaten(own, init + [last], y, k)
  {
    if k in own(last) {
      BeatsTrichotomy(own(last)[k], own(last)[k]);
      BeatsTrichotomy(own(last)[k], own(y)[k]);
      if Beats(own(last)[k], own(y)[k]) {
        forall z | z in init && k in own(z)
          ensures !Beats(own(z)[k], own(last)[k])
        {
          BeatsTransitive(own(last)[k], own(y)[k], own(z)[k]);
        }
      }
    }
  }

  /** An unbeaten source that arrives first has its offer kept. */
  lemma UnbeatenFirstIsKept<X>(own: X -> Best, xs: seq<X>, x: X, k: string) returns (ys: seq<X>)
    requires x in xs && Unbeaten(own, xs, x, k)
    ensures multiset(ys) == multiset(xs)
    ensures k in MergeAll(own, ys) && MergeAll(own, ys)[k] == own(x)[k]
  {
    var i :| 0 <= i < |xs| && xs[i] == x;
    var rest := RemoveAt(xs, i);
    ys := [x] + rest;
    MergeAllConcat(own, [x], rest);
    assert Merge(map[], own(x)) == own(x) && [x][..0] == [];
    assert MergeAll(own, [x]) == own(x);
    if k in MergeAll(own, rest) {
      var y := KeptIsOwn(own, rest, k);
      assert y in multiset(xs);
    }
  }

  lemma UnbeatenPermuted<X>(own: X -> Best, xs: seq<X>, ys: seq<X>, x: X, k: string)
    requires multiset(xs) == multiset(ys) && Unbeaten(own, xs, x, k)
    ensures Unbeaten(own, ys, x, k)
  {
    forall y | y in ys
      ensures y in xs
    {
      assert y in multiset(xs);
    }
  }

  lemma KeysArrive<X>(own: X -> Best, xs: seq<X>, ys: seq<X>, k: string)
    requires multiset(xs) == multiset(ys) && k in MergeAll(own, xs)
    ensures k in MergeAll(own, ys)
  {
    var x := KeptIsOwn(own, xs, k);
    assert x in multiset(ys);
    if k !in MergeAll(own, ys) {
      NobodyElse(own, ys, k);
      assert false;
    }
  }

  // ---- what the order of the sources can change ----

  /** However the sources are reordered, the offer kept for each key has the same value of `v`. */
  ghost predicate ArrivalBlind<X(!new), T>(own: X -> Best, v: Flight -> T, xs: seq<X>) {
    forall ys, k :: multiset(ys) == multiset(xs) && k in MergeAll(own, xs) ==>
                      k in MergeAll(own, ys) && v(MergeAll(own, ys)[k]) == v(MergeAll(own, xs)[k])
  }

  /** Sources that are unbeaten under one key agree on `v` there. */
  ghost predicate OwnersAgree<X, T>(own: X -> Best, v: Flight -> T, xs: seq<X>) {
    forall x, y, k :: x in xs && y in xs && Unbeaten(own, xs, x, k) && Unbeaten(own, xs, y, k) ==>
                        v(own(x)[k]) == v(own(y)[k])
  }

  /** An attribute of the kept offers does not depend on arrival exactly when the unbeaten sources of each key agree on it. */
  lemma ArrivalBlindIff<X(!new), T>(own: X -> Best, v: Flight -> T, xs: seq<X>)
    ensures ArrivalBlind(own, v, xs) <==> OwnersAgree(own, v, xs)
  {
    if OwnersAgree(own, v, xs) {
      forall ys, k | multiset(ys) == multiset(xs) && k in MergeAll(own, xs)
        ensures k in MergeAll(own, ys) && v(MergeAll(own, ys)[k]) == v(MergeAll(own, xs)[k])
      {
        KeysArrive(own, xs, ys, k);
        var x := KeptIsOwn(own, xs, k);
        var y := KeptIsOwn(own, ys, k);
        assert y in multiset(xs);
        UnbeatenPermuted(own, ys, xs, y, k);
      }
    }
    if ArrivalBlind(own, v, xs) {
      forall x, y, k | x in xs && y in xs && Unbeaten(own, xs, x, k) && Unbeaten(own, xs, y, k)
        ensures v(own(x)[k]) == v(own(y)[k])
      {
        var ys := UnbeatenFirstIsKept(own, xs, x, k);
        var zs := UnbeatenFirstIsKept(own, xs, y, k);
        KeysArrive(own, ys, xs, k);
      }
    }
  }

  function Itself(f: Flight): (g: Flight) { f }

  /** When at most one source is unbeaten under each key, the merge is the same in every order, record by record. */
  lemma MergeAllFixed<X(!new)>(own: X -> Best, xs: seq<X>, ys: seq<X>)
    requires multiset(xs) == multiset(ys)
    requires forall x, y, k :: x in xs && y in xs && Unbeaten(own, xs, x, k) && Unbeaten(own, xs, y, k) ==> x == y
    ensures MergeAll(own, xs) == MergeAll(own, ys)
  {
    ArrivalBlindIff(own, Itself, xs);
    forall k
      ensures k in MergeAll(own, xs) <==> k in MergeAll(own, ys)
      ensures k in MergeAll(own, xs) ==> MergeAll(own, xs)[k] == MergeAll(own, ys)[k]
    {
      if k in MergeAll(own, xs) {
        KeysArrive(own, xs, ys, k);
        assert Itself(MergeAll(own, ys)[k]) == Itself(MergeAll(own, xs)[k]);
      } else if k in MergeAll(own, ys) {
        KeysArrive(own, ys, xs, k);
      }
    }
  }
}
