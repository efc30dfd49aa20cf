/**
 The sort of a result list by any algorithm, block-and-merge included, that sorts and asks only whether a
 later element goes before an earlier one. An algorithm is seen as the order it puts input positions in,
 given the answers to its questions.
 */
module AnySort {
  import opened Seqs
  import opened Entity
  import opened StableSort
  import opened Ranking

  /** The answer to (i, j): does the element at `i` go before the element at `j`? */
  type Answers = (int, int) -> bool

  type Algorithm = (nat, Answers) -> seq<int>

  ghost predicate IsOrderOf(p: seq<int>, n: nat) {
    && |p| == n && NoDuplicates(p)
    && (forall k :: 0 <= k < n ==> 0 <= p[k] < n)
    && forall i :: 0 <= i < n ==> i in p
  }

  ghost predicate Arranged(answers: Answers, p: seq<int>) {
    forall a, b :: 0 <= a < b < |p| ==> answers(p[a], p[b])
  }

  ghost predicate StrictTotal(n: nat, answers: Answers) {
    && (forall i, j :: 0 <= i < n && 0 <= j < n && i != j ==> (answers(i, j) <==> !answers(j, i)))
    && forall i, j, k :: 0 <= i < n && 0 <= j < n && 0 <= k < n && answers(i, j) && answers(j, k) ==> answers(i, k)
  }

  /** Given the answers of a strict total order, it puts the positions in that order. */
  ghost predicate Sorts(alg: Algorithm) {
    forall n, answers :: StrictTotal(n, answers) ==> IsOrderOf(alg(n, answers), n) && Arranged(answers, alg(n, answers))
  }

  ghost predicate AgreeLaterFirst(n: nat, a: Answers, b: Answers) {
    forall i, j :: 0 <= i < j < n ==> a(j, i) == b(j, i)
  }

  /** It never asks whether an earlier element goes before a later one, so those answers cannot matter. */
  ghost predicate AsksLaterFirst(alg: Algorithm) {
    forall n, a, b :: AgreeLaterFirst(n, a, b) ==> alg(n, a) == alg(n, b)
  }

  /** The comparator's own answers. */
  function Asked<T>(s: seq<T>, before: (T, T) -> bool): (answers: Answers) {
    (i, j) => 0 <= i < |s| && 0 <= j < |s| && before(s[i], s[j])
  }

  /** The order those answers amount to when only later-before-earlier is asked: otherwise the earlier goes first. */
  function LaterFirst<T>(s: seq<T>, before: (T, T) -> bool): (answers: Answers) {
    (i, j) =>
      if 0 <= j < i < |s| then before(s[i], s[j])
      else 0 <= i < j < |s| && !before(s[j], s[i])
  }

  function Place<T>(s: seq<T>, p: seq<int>): (r: seq<T>)
    requires forall k :: 0 <= k < |p| ==> 0 <= p[k] < |s|
    ensures |r| == |p|
    ensures forall k :: 0 <= k < |p| ==> r[k] == s[p[k]]
  {
    seq(|p|, k requires 0 <= k < |p| => s[p[k]])
  }

  function Skip(a: int, k: int): (r: int) { if k < a then k else k + 1 }

  /** The positions without the one at index `a`. */
  function Without(p: seq<int>, a: int): (rest: seq<int>)
    requires 0 <= a < |p|
    ensures |rest| == |p| - 1
    ensures forall k :: 0 <= k < |rest| ==> rest[k] == p[Skip(a, k)]
  {
    seq(|p| - 1, k requires 0 <= k < |p| - 1 => p[Skip(a, k)])
  }

  lemma WithoutIsOrder(p: seq<int>, a: int)
    requires IsOrderOf(p, |p|) && 0 <= a < |p| && p[a] == |p| - 1
    ensures IsOrderOf(Without(p, a), |p| - 1)
  {
    var rest := Without(p, a);
    forall i | 0 <= i < |p| - 1
      ensures i in rest
    {
      assert i in p;
      var k :| 0 <= k < |p| && p[k] == i;
      assert rest[if k < a then k else k - 1] == i;
    }
  }

  lemma WithoutIsArranged<T>(s: seq<T>, before: (T, T) -> bool, p: seq<int>, a: int)
    requires s != [] && IsOrderOf(p, |s|) && Arranged(LaterFirst(s, before), p)
    requires 0 <= a < |p| && p[a] == |s| - 1
    ensures Arranged(LaterFirst(s[..|s| - 1], before), Without(p, a))
  {
    forall b, c | 0 <= b < c < |p| - 1
      ensures LaterFirst(s[..|s| - 1], before)(Without(p, a)[b], Without(p, a)[c])
    {
      assert LaterFirst(s, before)(p[Skip(a, b)], p[Skip(a, c)]);
      assert p[Skip(a, b)] != p[a] && p[Skip(a, c)] != p[a];
    }
  }

  /** There is one such order, and it is the one insertion finds. */
  lemma {:induction false} ArrangedIsSorted<T>(s: seq<T>, before: (T, T) -> bool, p: seq<int>)
    requires IsOrderOf(p, |s|) && Arranged(LaterFirst(s, before), p)
    ensures Place(s, p) == SortWith(s, before)
  {
    if s == [] {
    } else {
      var init, x := s[..|s| - 1], s[|s| - 1];
      assert |s| - 1 in p;
      var a :| 0 <= a < |p| && p[a] == |s| - 1;
      WithoutIsOrder(p, a);
      WithoutIsArranged(s, before, p, a);
      ArrangedIsSorted(init, before, Without(p, a));
      LastIsPlaced(s, before, p, a);
      InsertAt(Place(init, Without(p, a)), x, before, a);
    }
  }

  lemma LastIsPlaced<T>(s: seq<T>, before: (T, T) -> bool, p: seq<int>, a: int)
    requires s != [] && IsOrderOf(p, |s|) && Arranged(LaterFirst(s, before), p)
    requires 0 <= a < |p| && p[a] == |s| - 1 && IsOrderOf(Without(p, a), |s| - 1)
    ensures var t, x := Place(s[..|s| - 1], Without(p, a)), s[|s| - 1];
      && (forall k :: a <= k < |t| ==> before(x, t[k]))
      && (a > 0 ==> !before(x, t[a - 1]))
      && Place(s, p) == t[..a] + [x] + t[a..]
  {
    var t, x := Place(s[..|s| - 1], Without(p, a)), s[|s| - 1];
    forall k | a <= k < |t|
      ensures before(x, t[k])
    {
      assert LaterFirst(s, before)(p[a], p[k + 1]);
    }
    if a > 0 {
      assert LaterFirst(s, before)(p[a - 1], p[a]);
    }
    Spliced(Place(s, p), t, x, a);
  }

  /** Every algorithm that sorts and asks only later-before-earlier gives the same result. */
  lemma AnyAlgorithmAgrees<T>(alg: Algorithm, s: seq<T>, before: (T, T) -> bool)
    requires Sorts(alg) && AsksLaterFirst(alg)
    requires StrictTotal(|s|, LaterFirst(s, before))
    ensures IsOrderOf(alg(|s|, Asked(s, before)), |s|)
    ensures Place(s, alg(|s|, Asked(s, before))) == SortWith(s, before)
  {
    assert AgreeLaterFirst(|s|, Asked(s, before), LaterFirst(s, before));
    ArrangedIsSorted(s, before, alg(|s|, LaterFirst(s, before)));
  }

  // ---- insertion is such an algorithm ----

  function UpTo(n: nat): (r: seq<int>)
    ensures |r| == n && forall i :: 0 <= i < n ==> r[i] == i
  {
    seq(n, i => i)
  }

  function Insertion(n: nat, answers: Answers): (p: seq<int>) {
    SortWith(UpTo(n), answers)
  }

  lemma IsOrderOfUpTo(n: nat, p: seq<int>)
    requires multiset(p) == multiset(UpTo(n))
    ensures IsOrderOf(p, n)
  {
    assert |p| == |multiset(p)| == |multiset(UpTo(n))| == n;
    StillNoDuplicates(UpTo(n), p);
    forall i | 0 <= i < n
      ensures i in p
    {
      assert UpTo(n)[i] in multiset(p);
    }
    forall k | 0 <= k < n
      ensures 0 <= p[k] < n
    {
      assert p[k] in multiset(UpTo(n));
    }
  }

  lemma InsertionIsOrder(n: nat, answers: Answers)
    ensures IsOrderOf(Insertion(n, answers), n)
  {
    SortContents(UpTo(n), answers);
    IsOrderOfUpTo(n, Insertion(n, answers));
  }

  lemma {:induction false} InsertAsksOnly(p: seq<int>, x: int, a: Answers, b: Answers)
    requires forall k :: 0 <= k < |p| ==> a(x, p[k]) == b(x, p[k])
    ensures InsertLast(p, x, a) == InsertLast(p, x, b)
  {
    if p == [] {
    } else {
      InsertAsksOnly(p[..|p| - 1], x, a, b);
    }
  }

  lemma {:induction false} InsertionAsksLaterFirst(n: nat, a: Answers, b: Answers)
    requires AgreeLaterFirst(n, a, b)
    ensures Insertion(n, a) == Insertion(n, b)
  {
    if n == 0 {
    } else {
      assert UpTo(n)[..n - 1] == UpTo(n - 1);
      InsertionAsksLaterFirst(n - 1, a, b);
      InsertionIsOrder(n - 1, a);
      InsertAsksOnly(Insertion(n - 1, a), n - 1, a, b);
    }
  }

  ghost predicate AllBefore(answers: Answers, p: seq<int>, x: int) {
    forall k :: 0 <= k < |p| ==> answers(p[k], x)
  }

  lemma AppendArranged(answers: Answers, p: seq<int>, x: int)
    requires Arranged(answers, p) && AllBefore(answers, p, x)
    ensures Arranged(answers, p + [x])
  {
    forall a, b | 0 <= a < b < |p + [x]|
      ensures answers((p + [x])[a], (p + [x])[b])
    {
      assert (p + [x])[a] == p[a];
    }
  }

  lemma InsertAddsOne(p: seq<int>, x: int, answers: Answers)
    ensures forall y :: y in InsertLast(p, x, answers) <==> y in p || y == x
  {
    InsertContents(p, x, answers);
    forall y
      ensures y in InsertLast(p, x, answers) <==> y in p || y == x
    {
      assert y in InsertLast(p, x, answers) <==> y in multiset(InsertLast(p, x, answers));
    }
  }

  lemma InsertStaysBefore(answers: Answers, p: seq<int>, x: int, y: int)
    requires AllBefore(answers, p, y) && answers(x, y)
    ensures AllBefore(answers, InsertLast(p, x, answers), y)
  {
    var q := InsertLast(p, x, answers);
    InsertAddsOne(p, x, answers);
    forall k | 0 <= k < |q|
      ensures answers(q[k], y)
    {
      assert q[k] in q;
    }
  }

  lemma {:induction false} InsertArranged(n: nat, answers: Answers, p: seq<int>, x: int)
    requires StrictTotal(n, answers) && Arranged(answers, p) && 0 <= x < n
    requires forall k :: 0 <= k < |p| ==> 0 <= p[k] < n && p[k] != x
    ensures Arranged(answers, InsertLast(p, x, answers))
  {
    if p == [] {
    } else {
      var init, last := p[..|p| - 1], p[|p| - 1];
      assert p == init + [last] && AllBefore(answers, init, last);
      if answers(x, last) {
        InsertArranged(n, answers, init, x);
        InsertStaysBefore(answers, init, x, last);
        AppendArranged(answers, InsertLast(init, x, answers), last);
      } else {
        assert AllBefore(answers, p, x);
        AppendArranged(answers, p, x);
      }
    }
  }

  lemma {:induction false} InsertionSorts(n: nat, answers: Answers)
    requires StrictTotal(n, answers)
    ensures Arranged(answers, Insertion(n, answers))
  {
    if n == 0 {
    } else {
      assert UpTo(n)[..n - 1] == UpTo(n - 1);
      assert StrictTotal(n - 1, answers);
      InsertionSorts(n - 1, answers);
      InsertionIsOrder(n - 1, answers);
      InsertArranged(n, answers, Insertion(n - 1, answers), n - 1);
    }
  }

  lemma InsertionQualifies()
    ensures Sorts(Insertion) && AsksLaterFirst(Insertion)
  {
    forall n, answers | StrictTotal(n, answers)
      ensures IsOrderOf(Insertion(n, answers), n) && Arranged(answers, Insertion(n, answers))
    {
      InsertionIsOrder(n, answers);
      InsertionSorts(n, answers);
    }
    forall n, a, b | AgreeLaterFirst(n, a, b)
      ensures Insertion(n, a) == Insertion(n, b)
    {
      InsertionAsksLaterFirst(n, a, b);
    }
  }

  // ---- result lists ----

  lemma AscendingIsTotal<T(!new)>(s: seq<T>, before: (T, T) -> bool, v: T -> real)
    requires Ascending(before, v) || NegatedAscending(before, v)
    ensures StrictTotal(|s|, LaterFirst(s, before))
  {
  }

  function ListedOrder(opt: SortOption): (before: (Flight, Flight) -> bool) {
    if Descending(opt) then Backward(opt) else Forward(opt)
  }

  /**
   Sorting a result list with any such algorithm gives the sequence that the model's insertion sort gives,
   in both directions; the negated comparator of "desc" is no strict order, but it is never asked the other way round.
   */
  lemma AnySortRanks(alg: Algorithm, flights: seq<Flight>, opt: SortOption)
    requires Sorts(alg) && AsksLaterFirst(alg)
    ensures IsOrderOf(alg(|flights|, Asked(flights, ListedOrder(opt))), |flights|)
    ensures Place(flights, alg(|flights|, Asked(flights, ListedOrder(opt)))) == SortedFlights(flights, opt)
  {
    AscendingIsTotal(flights, ListedOrder(opt), ValueBy(opt));
    AnyAlgorithmAgrees(alg, flights, ListedOrder(opt));
    SortSame(flights, Forward(opt), (f, g) => Less(FieldOf(opt), f, g));
    SortSame(flights, Backward(opt), (f, g) => !Less(FieldOf(opt), f, g));
  }
}
