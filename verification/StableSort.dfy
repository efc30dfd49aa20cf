/**
 The library's stable sort, as insertion: an element moves left while it goes before its left
 neighbour, so the comparator is only ever asked whether a later element goes before an earlier one.
 */
module StableSort {
  import opened Seqs

  function InsertLast<T>(s: seq<T>, x: T, before: (T, T) -> bool): (r: seq<T>)
    ensures |r| == |s| + 1
  {
    if s != [] && before(x, s[|s| - 1]) then InsertLast(s[..|s| - 1], x, before) + [s[|s| - 1]]
    else s + [x]
  }

  function SortWith<T>(s: seq<T>, before: (T, T) -> bool): (r: seq<T>)
    ensures |r| == |s|
  {
    if s == [] then [] else InsertLast(SortWith(s[..|s| - 1], before), s[|s| - 1], before)
  }

  lemma SplitEarly<T>(s: seq<T>, x: T, j: int)
    requires 0 <= j < |s|
    ensures var init, last := s[..|s| - 1], s[|s| - 1];
      s[..j] + [x] + s[j..] == init[..j] + [x] + init[j..] + [last]
  {
    assert s[j..] == s[..|s| - 1][j..] + [s[|s| - 1]];
  }

  lemma {:induction false} InsertAt<T>(s: seq<T>, x: T, before: (T, T) -> bool, j: int)
    requires 0 <= j <= |s|
    requires forall k :: j <= k < |s| ==> before(x, s[k])
    requires j > 0 ==> !before(x, s[j - 1])
    ensures InsertLast(s, x, before) == s[..j] + [x] + s[j..]
  {
    if j < |s| {
      var init, last := s[..|s| - 1], s[|s| - 1];
      InsertAt(init, x, before, j);
      SplitEarly(s, x, j);
    } else {
      assert s[..j] == s && s[j..] == [];
    }
  }

  /** A sequence that is `s` with `x` put in at `j`. */
  lemma Spliced<T>(t: seq<T>, s: seq<T>, x: T, j: int)
    requires 0 <= j <= |s| && |t| == |s| + 1 && t[j] == x
    requires forall k :: 0 <= k < j ==> t[k] == s[k]
    requires forall k :: j < k < |t| ==> t[k] == s[k - 1]
    ensures t == s[..j] + [x] + s[j..]
  {
    assert forall k :: 0 <= k < |t| ==> t[k] == (s[..j] + [x] + s[j..])[k];
  }

  lemma SortStep<T>(s: seq<T>, before: (T, T) -> bool, i: int)
    requires 0 <= i < |s|
    ensures SortWith(s[..i + 1], before) == InsertLast(SortWith(s[..i], before), s[i], before)
  {
    assert s[..i + 1][..i] == s[..i];
  }

  /** Moves the element at `i` left past every element it goes before. */
  method Insert<T>(a: array<T>, i: int, before: (T, T) -> bool)
    requires 0 <= i < a.Length
    modifies a
    ensures a[..i + 1] == InsertLast(old(a[..i]), old(a[i]), before)
    ensures a[i + 1..] == old(a[i + 1..])
  {
    ghost var sorted, x, rest := a[..i], a[i], a[i + 1..];
    var j := i;
    while j > 0 && before(a[j], a[j - 1])
      invariant 0 <= j <= i
      invariant forall k :: 0 <= k < j ==> a[k] == sorted[k]
      invariant a[j] == x
      invariant forall k :: j < k <= i ==> a[k] == sorted[k - 1]
      invariant forall k :: j <= k < i ==> before(x, sorted[k])
      invariant forall k :: i < k < a.Length ==> a[k] == rest[k - i - 1]
    {
      a[j], a[j - 1] := a[j - 1], a[j];
      j := j - 1;
    }
    Spliced(a[..i + 1], sorted, x, j);
    InsertAt(sorted, x, before, j);
    assert a[i + 1..] == rest by {
      assert forall k :: 0 <= k < |rest| ==> a[i + 1..][k] == rest[k];
    }
  }

  method SliceStable<T>(a: array<T>, before: (T, T) -> bool)
    modifies a
    ensures a[..] == SortWith(old(a[..]), before)
  {
    ghost var input := a[..];
    for i := 0 to a.Length
      invariant a[..i] == SortWith(input[..i], before)
      invariant a[i..] == input[i..]
    {
      SortStep(input, before, i);
      assert a[i] == a[i..][0] == input[i];
      assert a[i + 1..] == input[i + 1..] by {
        assert a[i + 1..] == a[i..][1..] && input[i + 1..] == input[i..][1..];
      }
      Insert(a, i, before);
    }
    assert input[..a.Length] == input && a[..a.Length] == a[..];
  }

  // ---- any comparator ----

  lemma {:induction false} InsertContents<T>(s: seq<T>, x: T, before: (T, T) -> bool)
    ensures multiset(InsertLast(s, x, before)) == multiset(s) + multiset{x}
  {
    if s != [] && before(x, s[|s| - 1]) {
      InsertContents(s[..|s| - 1], x, before);
      LastContents(s);
    }
  }

  lemma {:induction false} SortContents<T>(s: seq<T>, before: (T, T) -> bool)
    ensures multiset(SortWith(s, before)) == multiset(s)
  {
    if s == [] {
    } else {
      SortContents(s[..|s| - 1], before);
      InsertContents(SortWith(s[..|s| - 1], before), s[|s| - 1], before);
      LastContents(s);
    }
  }

  lemma {:induction false} InsertSame<T>(s: seq<T>, x: T, b: (T, T) -> bool, c: (T, T) -> bool)
    requires forall y, z :: b(y, z) == c(y, z)
    ensures InsertLast(s, x, b) == InsertLast(s, x, c)
  {
    if s != [] && b(x, s[|s| - 1]) {
      InsertSame(s[..|s| - 1], x, b, c);
    }
  }

  /** Comparators that agree sort alike. */
  lemma {:induction false} SortSame<T>(s: seq<T>, b: (T, T) -> bool, c: (T, T) -> bool)
    requires forall y, z :: b(y, z) == c(y, z)
    ensures SortWith(s, b) == SortWith(s, c)
  {
    if s == [] {
    } else {
      SortSame(s[..|s| - 1], b, c);
      InsertSame(SortWith(s[..|s| - 1], b), s[|s| - 1], b, c);
    }
  }

  // ---- strict total orders ----

  ghost predicate StrictPartOf<T(!new)>(before: (T, T) -> bool, le: (T, T) -> bool) {
    forall x, y :: before(x, y) <==> !le(y, x)
  }

  lemma {:induction false} InsertInOrder<T(!new)>(s: seq<T>, x: T, before: (T, T) -> bool, le: (T, T) -> bool)
    requires TotalOrder(le) && StrictPartOf(before, le) && OrderedBy(le, s)
    ensures OrderedBy(le, InsertLast(s, x, before))
    ensures forall y :: y in InsertLast(s, x, before) <==> y in s || y == x
  {
    if s != [] && before(x, s[|s| - 1]) {
      var init, last := s[..|s| - 1], s[|s| - 1];
      InsertInOrder(init, x, before, le);
      assert s == init + [last];
      var t := InsertLast(init, x, before);
      assert le(x, last) && forall y :: y in t ==> le(y, last);
    } else if s != [] {
      assert forall i :: 0 <= i < |s| ==> le(s[i], s[|s| - 1]);
      assert forall i :: 0 <= i < |s| ==> le(s[i], x);
    }
  }

  lemma {:induction false} SortInOrder<T(!new)>(s: seq<T>, before: (T, T) -> bool, le: (T, T) -> bool)
    requires TotalOrder(le) && StrictPartOf(before, le)
    ensures OrderedBy(le, SortWith(s, before))
  {
    if s == [] {
    } else {
      SortInOrder(s[..|s| - 1], before, le);
      InsertInOrder(SortWith(s[..|s| - 1], before), s[|s| - 1], before, le);
    }
  }

  // ---- comparators that compare one number ----

  ghost predicate Ascending<T(!new)>(before: (T, T) -> bool, v: T -> real) {
    forall x, y :: before(x, y) <==> v(x) < v(y)
  }

  /** The negated comparator: true on equal values. */
  ghost predicate NegatedAscending<T(!new)>(before: (T, T) -> bool, v: T -> real) {
    forall x, y :: before(x, y) <==> !(v(x) < v(y))
  }

  ghost predicate NonDecreasing<T>(s: seq<T>, v: T -> real) {
    forall i, j :: 0 <= i < j < |s| ==> v(s[i]) <= v(s[j])
  }

  ghost predicate NonIncreasing<T>(s: seq<T>, v: T -> real) {
    forall i, j :: 0 <= i < j < |s| ==> v(s[i]) >= v(s[j])
  }

  lemma {:induction false} InsertOrdered<T(!new)>(s: seq<T>, x: T, before: (T, T) -> bool, v: T -> real)
    requires Ascending(before, v) && NonDecreasing(s, v)
    ensures NonDecreasing(InsertLast(s, x, before), v)
    ensures forall y :: y in InsertLast(s, x, before) <==> y in s || y == x
  {
    if s != [] && before(x, s[|s| - 1]) {
      InsertOrdered(s[..|s| - 1], x, before, v);
      assert s == s[..|s| - 1] + [s[|s| - 1]];
      assert forall y :: y in InsertLast(s[..|s| - 1], x, before) ==> v(y) <= v(s[|s| - 1]);
    }
  }

  /** Ascending: the result is in order. */
  lemma {:induction false} SortOrdered<T(!new)>(s: seq<T>, before: (T, T) -> bool, v: T -> real)
    requires Ascending(before, v)
    ensures NonDecreasing(SortWith(s, before), v)
  {
    if s == [] {
    } else {
      SortOrdered(s[..|s| - 1], before, v);
      InsertOrdered(SortWith(s[..|s| - 1], before), s[|s| - 1], before, v);
    }
  }

  lemma {:induction false} InsertStable<T(!new)>(s: seq<T>, x: T, before: (T, T) -> bool, v: T -> real, at: T -> bool, level: real)
    requires Ascending(before, v) && forall y :: at(y) <==> v(y) == level
    requires NonDecreasing(s, v)
    ensures Keep(at, InsertLast(s, x, before)) == Keep(at, s) + (if at(x) then [x] else [])
  {
    if s != [] && before(x, s[|s| - 1]) {
      var init, last := s[..|s| - 1], s[|s| - 1];
      InsertStable(init, x, before, v, at, level);
      KeepSnoc(at, InsertLast(init, x, before), last);
      if at(last) {
        assert v(x) < level;
      }
    } else {
      KeepSnoc(at, s, x);
    }
  }

  /** Ascending: elements with the same value keep their input order. */
  lemma {:induction false} SortStable<T(!new)>(s: seq<T>, before: (T, T) -> bool, v: T -> real, at: T -> bool, level: real)
    requires Ascending(before, v) && forall y :: at(y) <==> v(y) == level
    ensures Keep(at, SortWith(s, before)) == Keep(at, s)
  {
    if s == [] {
    } else {
      SortStable(s[..|s| - 1], before, v, at, level);
      SortOrdered(s[..|s| - 1], before, v);
      InsertStable(SortWith(s[..|s| - 1], before), s[|s| - 1], before, v, at, level);
    }
  }

  lemma {:induction false} InsertFront<T(!new)>(s: seq<T>, y: T, x: T, negated: (T, T) -> bool, v: T -> real)
    requires NegatedAscending(negated, v)
    requires forall z :: z in s ==> v(y) >= v(z)
    ensures !negated(x, y) ==> InsertLast([y] + s, x, negated) == [y] + InsertLast(s, x, negated)
    ensures negated(x, y) ==> InsertLast([y] + s, x, negated) == [x, y] + s
  {
    if s == [] {
      assert [y] + s == [y] && [y][..0] == [];
    } else {
      var n := |s| - 1;
      assert ([y] + s)[..|[y] + s| - 1] == [y] + s[..n];
      assert s == s[..n] + [s[n]];
      if negated(x, s[n]) {
        InsertFront(s[..n], y, x, negated, v);
        assert [y] + InsertLast(s[..n], x, negated) + [s[n]] == [y] + (InsertLast(s[..n], x, negated) + [s[n]]);
        assert [x, y] + s[..n] + [s[n]] == [x, y] + s;
      } else {
        assert [y] + s + [x] == [y] + (s + [x]);
      }
    }
  }

  lemma {:induction false} InsertMirrored<T(!new)>(
      s: seq<T>, x: T, before: (T, T) -> bool, negated: (T, T) -> bool, v: T -> real)
    requires Ascending(before, v) && NegatedAscending(negated, v)
    requires NonDecreasing(s, v)
    ensures InsertLast(Reverse(s), x, negated) == Reverse(InsertLast(s, x, before))
  {
    if s == [] {
      ReverseSnoc([], x);
      assert [] + [x] == [x];
    } else {
      var init, last := s[..|s| - 1], s[|s| - 1];
      var rest := Reverse(init);
      forall z | z in rest
        ensures v(last) >= v(z)
      {
        var i :| 0 <= i < |rest| && rest[i] == z;
        ReverseAt(init, i);
      }
      assert InsertLast([last] + rest, x, negated)
          == if negated(x, last) then [x, last] + rest else [last] + InsertLast(rest, x, negated) by {
        InsertFront(rest, last, x, negated, v);
      }
      if before(x, last) {
        InsertMirrored(init, x, before, negated, v);
        ReverseSnoc(InsertLast(init, x, before), last);
      } else {
        ReverseSnoc(s, x);
        assert [x, last] + rest == [x] + ([last] + rest);
      }
    }
  }

  /** Descending, by the negated comparator: exactly the ascending result read backwards. */
  lemma {:induction false} SortMirrored<T(!new)>(
      s: seq<T>, before: (T, T) -> bool, negated: (T, T) -> bool, v: T -> real)
    requires Ascending(before, v) && NegatedAscending(negated, v)
    ensures SortWith(s, negated) == Reverse(SortWith(s, before))
  {
    if s == [] {
    } else {
      var init := s[..|s| - 1];
      SortMirrored(init, before, negated, v);
      SortOrdered(init, before, v);
      InsertMirrored(SortWith(init, before), s[|s| - 1], before, negated, v);
    }
  }

  lemma ReverseNonIncreasing<T>(s: seq<T>, v: T -> real)
    requires NonDecreasing(s, v)
    ensures NonIncreasing(Reverse(s), v)
  {
    forall i, j | 0 <= i < j < |s|
      ensures v(Reverse(s)[i]) >= v(Reverse(s)[j])
    {
      ReverseAt(s, i);
      ReverseAt(s, j);
    }
  }

  // ---- the sequence of values ----

  predicate AtMost(x: real, y: real) { x <= y }

  function ToReals<T>(v: T -> real, s: seq<T>): (r: seq<real>)
    ensures |r| == |s|
    ensures forall i :: 0 <= i < |s| ==> r[i] == v(s[i])
  {
    MapSeq(v, s)
  }

  /** Sorting fixes the sequence of values: it depends on the input's values only, not on their order. */
  lemma SortedValuesFixed<T(!new)>(s: seq<T>, t: seq<T>, before: (T, T) -> bool, v: T -> real)
    requires Ascending(before, v)
    requires multiset(ToReals(v, s)) == multiset(ToReals(v, t))
    ensures ToReals(v, SortWith(s, before)) == ToReals(v, SortWith(t, before))
  {
    SortContents(s, before);
    SortContents(t, before);
    MapPermuted(v, s, SortWith(s, before));
    MapPermuted(v, t, SortWith(t, before));
    SortOrdered(s, before, v);
    SortOrdered(t, before, v);
    OrderedUnique(AtMost, ToReals(v, SortWith(s, before)), ToReals(v, SortWith(t, before)));
  }
}
