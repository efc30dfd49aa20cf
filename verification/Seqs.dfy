/** Sequences seen up to order: what survives an arbitrary reordering. */
module Seqs {

  datatype Option<+T> = None | Some(value: T)

  function MapSeq<A, B>(f: A -> B, s: seq<A>): (r: seq<B>)
    ensures |r| == |s|
    ensures forall i :: 0 <= i < |s| ==> r[i] == f(s[i])
  {
    seq(|s|, i requires 0 <= i < |s| => f(s[i]))
  }

  /** The elements that satisfy `p`, in their original order. */
  function Keep<T>(p: T -> bool, s: seq<T>): (r: seq<T>)
  {
    if s == [] then []
    else Keep(p, s[..|s| - 1]) + (if p(s[|s| - 1]) then [s[|s| - 1]] else [])
  }

  function Reverse<T>(s: seq<T>): (r: seq<T>)
    ensures |r| == |s|
  {
    if s == [] then [] else [s[|s| - 1]] + Reverse(s[..|s| - 1])
  }

  ghost predicate NoDuplicates<T>(s: seq<T>) {
    forall i, j :: 0 <= i < j < |s| ==> s[i] != s[j]
  }

  lemma KeepContents<T>(p: T -> bool, s: seq<T>)
    ensures forall x :: x in Keep(p, s) <==> x in s && p(x)
    ensures |Keep(p, s)| <= |s|
  {
    if s != [] {
      assert s == s[..|s| - 1] + [s[|s| - 1]];
      KeepContents(p, s[..|s| - 1]);
    }
  }

  lemma KeepSnoc<T>(p: T -> bool, s: seq<T>, x: T)
    ensures Keep(p, s + [x]) == Keep(p, s) + (if p(x) then [x] else [])
  {
    assert (s + [x])[..|s|] == s;
  }

  lemma {:induction false} KeepSame<T>(p: T -> bool, q: T -> bool, s: seq<T>)
    requires forall x :: x in s ==> p(x) == q(x)
    ensures Keep(p, s) == Keep(q, s)
  {
    if s == [] {
    } else {
      KeepSame(p, q, s[..|s| - 1]);
    }
  }

  lemma {:induction false} KeepNone<T>(p: T -> bool, s: seq<T>)
    requires forall i :: 0 <= i < |s| ==> !p(s[i])
    ensures Keep(p, s) == []
  {
    if s == [] {
    } else {
      KeepNone(p, s[..|s| - 1]);
    }
  }

  lemma {:induction false} KeepConcat<T>(p: T -> bool, s: seq<T>, t: seq<T>)
    ensures Keep(p, s + t) == Keep(p, s) + Keep(p, t)
  {
    if t == [] {
      assert s + t == s;
    } else {
      assert (s + t)[..|s + t| - 1] == s + t[..|t| - 1];
      KeepConcat(p, s, t[..|t| - 1]);
    }
  }

  lemma TailContents<T>(s: seq<T>)
    requires s != []
    ensures multiset(s[1..]) == multiset(s) - multiset{s[0]}
  {
    assert s == [s[0]] + s[1..];
  }

  lemma LastContents<T>(s: seq<T>)
    requires s != []
    ensures multiset(s) == multiset(s[..|s| - 1]) + multiset{s[|s| - 1]}
  {
    assert s == s[..|s| - 1] + [s[|s| - 1]];
  }

  lemma MiddleContents<T>(a: seq<T>, x: seq<T>, b: seq<T>)
    ensures multiset(a + (x + b)) == multiset(a + b) + multiset(x)
  {
  }

  /** The first element of `s`, found and cut out of a reordering of `s`. */
  lemma FindFirst<T>(s: seq<T>, t: seq<T>) returns (a: seq<T>, b: seq<T>)
    requires s != [] && multiset(s) == multiset(t)
    ensures t == a + ([s[0]] + b)
    ensures multiset(s[1..]) == multiset(a + b)
  {
    assert s[0] in multiset(t);
    var i :| 0 <= i < |t| && t[i] == s[0];
    a, b := t[..i], t[i + 1..];
    assert t == a + ([s[0]] + b);
    assert multiset(t) == multiset(a + b) + multiset{s[0]} by {
      MiddleContents(a, [s[0]], b);
    }
    TailContents(s);
  }

  lemma KeepMiddle<T>(p: T -> bool, a: seq<T>, x: seq<T>, b: seq<T>)
    ensures multiset(Keep(p, a + (x + b))) == multiset(Keep(p, a + b)) + multiset(Keep(p, x))
  {
    KeepConcat(p, a, x + b);
    KeepConcat(p, x, b);
    KeepConcat(p, a, b);
    MiddleContents(Keep(p, a), Keep(p, x), Keep(p, b));
  }

  lemma {:induction false} KeepPermuted<T>(p: T -> bool, s: seq<T>, t: seq<T>)
    requires multiset(s) == multiset(t)
    ensures multiset(Keep(p, s)) == multiset(Keep(p, t))
  {
    if s == [] {
      EmptyPermuted(t);
    } else {
      var a, b := FindFirst(s, t);
      KeepPermuted(p, s[1..], a + b);
      KeepMiddle(p, a, [s[0]], b);
      KeepMiddle(p, [], [s[0]], s[1..]);
      assert s == [] + ([s[0]] + s[1..]) && s[1..] == [] + s[1..];
    }
  }

  lemma EmptyPermuted<T>(t: seq<T>)
    requires multiset(t) == multiset([])
    ensures t == []
  {
    assert |t| == |multiset(t)| == 0;
  }

  lemma MapMiddle<A, B>(f: A -> B, a: seq<A>, x: A, b: seq<A>)
    ensures multiset(MapSeq(f, a + ([x] + b))) == multiset(MapSeq(f, a + b)) + multiset{f(x)}
  {
    assert MapSeq(f, a + ([x] + b)) == MapSeq(f, a) + ([f(x)] + MapSeq(f, b));
    assert MapSeq(f, a + b) == MapSeq(f, a) + MapSeq(f, b);
    MiddleContents(MapSeq(f, a), [f(x)], MapSeq(f, b));
  }

  lemma {:induction false} MapPermuted<A, B>(f: A -> B, s: seq<A>, t: seq<A>)
    requires multiset(s) == multiset(t)
    ensures multiset(MapSeq(f, s)) == multiset(MapSeq(f, t))
  {
    if s == [] {
      EmptyPermuted(t);
    } else {
      var a, b := FindFirst(s, t);
      MapPermuted(f, s[1..], a + b);
      MapMiddle(f, a, s[0], b);
      assert MapSeq(f, s) == [f(s[0])] + MapSeq(f, s[1..]);
    }
  }

  function RemoveAt<T>(s: seq<T>, i: int): (r: seq<T>)
    requires 0 <= i < |s|
    ensures |r| == |s| - 1
    ensures multiset(s) == multiset(r) + multiset{s[i]}
  {
    assert s == s[..i] + ([s[i]] + s[i + 1..]);
    MiddleContents(s[..i], [s[i]], s[i + 1..]);
    s[..i] + s[i + 1..]
  }

  ghost predicate TotalOrder<T(!new)>(le: (T, T) -> bool) {
    && (forall x, y :: le(x, y) || le(y, x))
    && (forall x, y :: le(x, y) && le(y, x) ==> x == y)
    && (forall x, y, z :: le(x, y) && le(y, z) ==> le(x, z))
  }

  ghost predicate OrderedBy<T(!new)>(le: (T, T) -> bool, s: seq<T>) {
    forall i, j :: 0 <= i < j < |s| ==> le(s[i], s[j])
  }

  /** An ordered sequence is fixed by its contents. */
  lemma {:induction false} OrderedUnique<T(!new)>(le: (T, T) -> bool, s: seq<T>, t: seq<T>)
    requires TotalOrder(le)
    requires OrderedBy(le, s) && OrderedBy(le, t)
    requires multiset(s) == multiset(t)
    ensures s == t
    decreases |s|
  {
    assert |s| == |multiset(s)| == |multiset(t)| == |t|;
    if s != [] {
      assert s[0] in multiset(t) && t[0] in multiset(s);
      var i :| 0 <= i < |t| && t[i] == s[0];
      var j :| 0 <= j < |s| && s[j] == t[0];
      assert le(s[0], s[j]) && le(t[0], t[i]);
      TailContents(s);
      TailContents(t);
      OrderedUnique(le, s[1..], t[1..]);
    }
  }

  lemma {:induction false} ReverseAt<T>(s: seq<T>, i: int)
    requires 0 <= i < |s|
    ensures Reverse(s)[i] == s[|s| - 1 - i]
  {
    if i == 0 {
    } else {
      ReverseAt(s[..|s| - 1], i - 1);
    }
  }

  lemma MapReversed<A, B>(f: A -> B, s: seq<A>)
    ensures MapSeq(f, Reverse(s)) == Reverse(MapSeq(f, s))
  {
    forall i | 0 <= i < |s|
      ensures MapSeq(f, Reverse(s))[i] == Reverse(MapSeq(f, s))[i]
    {
      ReverseAt(s, i);
      ReverseAt(MapSeq(f, s), i);
    }
  }

  lemma ReverseSnoc<T>(s: seq<T>, x: T)
    ensures Reverse(s + [x]) == [x] + Reverse(s)
  {
    assert (s + [x])[..|s|] == s;
  }

  lemma ReverseTwice<T>(s: seq<T>)
    ensures Reverse(Reverse(s)) == s
  {
    forall i | 0 <= i < |s|
      ensures Reverse(Reverse(s))[i] == s[i]
    {
      ReverseAt(Reverse(s), i);
      ReverseAt(s, |s| - 1 - i);
    }
  }

  lemma {:induction false} ReverseContents<T>(s: seq<T>)
    ensures multiset(Reverse(s)) == multiset(s)
  {
    if s == [] {
    } else {
      assert s == s[..|s| - 1] + [s[|s| - 1]];
      ReverseContents(s[..|s| - 1]);
    }
  }

  lemma {:induction false} ReverseConcat<T>(s: seq<T>, t: seq<T>)
    ensures Reverse(s + t) == Reverse(t) + Reverse(s)
  {
    if t == [] {
      assert s + t == s;
    } else {
      assert (s + t)[..|s + t| - 1] == s + t[..|t| - 1];
      ReverseConcat(s, t[..|t| - 1]);
    }
  }

  /** Two duplicate-free listings of the same elements differ only in order. */
  lemma ListingsPermuted<T>(s: seq<T>, t: seq<T>)
    requires NoDuplicates(s) && NoDuplicates(t)
    requires forall x :: x in s <==> x in t
    ensures multiset(s) == multiset(t)
  {
    forall x: T
      ensures multiset(s)[x] == multiset(t)[x]
    {
      CountedOnce(s, x);
      CountedOnce(t, x);
    }
  }

  lemma StillNoDuplicates<T>(s: seq<T>, t: seq<T>)
    requires NoDuplicates(s) && multiset(s) == multiset(t)
    ensures NoDuplicates(t)
  {
    forall i, j | 0 <= i < j < |t|
      ensures t[i] != t[j]
    {
      assert t == t[..i] + ([t[i]] + t[i + 1..]);
      assert t[j] == t[i + 1..][j - i - 1];
      assert t[j] in multiset(t[i + 1..]);
      CountedOnce(s, t[j]);
    }
  }

  lemma {:induction false} CountedOnce<T>(s: seq<T>, x: T)
    requires NoDuplicates(s)
    ensures multiset(s)[x] == if x in s then 1 else 0
  {
    if s == [] {
    } else {
      assert s == s[..|s| - 1] + [s[|s| - 1]];
      CountedOnce(s[..|s| - 1], x);
    }
  }
}
