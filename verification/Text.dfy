/** ASCII text: letter case, padding, the order of strings, and joining with a separator. */
module Text {
  import opened Seqs

  function LowerChar(c: char): (r: char) {
    if 'A' <= c <= 'Z' then (c as int + 32) as char else c
  }

  function UpperChar(c: char): (r: char) {
    if 'a' <= c <= 'z' then (c as int - 32) as char else c
  }

  function ToLower(s: string): (r: string)
    ensures |r| == |s|
    ensures forall i :: 0 <= i < |s| ==> r[i] == LowerChar(s[i])
  {
    seq(|s|, i requires 0 <= i < |s| => LowerChar(s[i]))
  }

  function ToUpper(s: string): (r: string)
    ensures |r| == |s|
    ensures forall i :: 0 <= i < |s| ==> r[i] == UpperChar(s[i])
  {
    seq(|s|, i requires 0 <= i < |s| => UpperChar(s[i]))
  }

  predicate EqualFold(s: string, t: string) {
    ToLower(s) == ToLower(t)
  }

  predicate IsSpace(c: char) {
    9 <= c as int <= 13 || c == ' '
  }

  /** White space is tab, line feed, vertical tab, form feed, carriage return and space. */
  lemma SpacesAre(c: char)
    ensures IsSpace(c) <==> c == '\t' || c == '\n' || c == 11 as char || c == 12 as char || c == '\r' || c == ' '
  {
  }

  function TrimLeft(s: string): (r: string) {
    if s != "" && IsSpace(s[0]) then TrimLeft(s[1..]) else s
  }

  function TrimRight(s: string): (r: string) {
    if s != "" && IsSpace(s[|s| - 1]) then TrimRight(s[..|s| - 1]) else s
  }

  function TrimSpace(s: string): (r: string) {
    TrimRight(TrimLeft(s))
  }

  /** The same character, or the two cases of one letter. */
  predicate SameLetter(c: char, d: char) {
    || c == d
    || ('A' <= c <= 'Z' && d as int == c as int + 32)
    || ('A' <= d <= 'Z' && c as int == d as int + 32)
  }

  /** Equality under case folding is equality letter by letter. */
  lemma EqualFoldIff(s: string, t: string)
    ensures EqualFold(s, t) <==> |s| == |t| && forall i :: 0 <= i < |s| ==> SameLetter(s[i], t[i])
  {
    assert |ToLower(s)| == |s| && |ToLower(t)| == |t|;
    if EqualFold(s, t) {
      forall i | 0 <= i < |s|
        ensures SameLetter(s[i], t[i])
      {
        assert ToLower(s)[i] == ToLower(t)[i];
      }
    }
  }

  /** Upper-casing and lower-casing identify the same strings. */
  lemma SameCaseClasses(s: string, t: string)
    ensures ToUpper(s) == ToUpper(t) <==> EqualFold(s, t)
  {
    if ToUpper(s) == ToUpper(t) {
      forall i | 0 <= i < |s|
        ensures LowerChar(s[i]) == LowerChar(t[i])
      {
        assert UpperChar(s[i]) == ToUpper(s)[i] == ToUpper(t)[i] == UpperChar(t[i]);
      }
    }
    if EqualFold(s, t) {
      forall i | 0 <= i < |s|
        ensures UpperChar(s[i]) == UpperChar(t[i])
      {
        assert LowerChar(s[i]) == ToLower(s)[i] == ToLower(t)[i] == LowerChar(t[i]);
      }
      assert |s| == |ToLower(s)| == |ToLower(t)| == |t|;
    }
  }

  lemma LowerConcat(s: string, t: string)
    ensures ToLower(s + t) == ToLower(s) + ToLower(t)
  {
  }

  lemma UpperConcat(s: string, t: string)
    ensures ToUpper(s + t) == ToUpper(s) + ToUpper(t)
  {
  }

  lemma LowerIdempotent(s: string)
    ensures ToLower(ToLower(s)) == ToLower(s)
  {
  }

  lemma CaseKeepsPipes(s: string)
    ensures '|' in ToLower(s) <==> '|' in s
    ensures '|' in ToUpper(s) <==> '|' in s
  {
    if '|' in s {
      var i :| 0 <= i < |s| && s[i] == '|';
      assert ToLower(s)[i] == '|' && ToUpper(s)[i] == '|';
    }
    if '|' in ToUpper(s) {
      var i :| 0 <= i < |s| && ToUpper(s)[i] == '|';
      assert s[i] == '|';
    }
    if '|' in ToLower(s) {
      var i :| 0 <= i < |s| && ToLower(s)[i] == '|';
      assert s[i] == '|';
    }
  }

  ghost predicate AllSpace(s: string) {
    forall i :: 0 <= i < |s| ==> IsSpace(s[i])
  }

  lemma {:induction false} TrimLeftPadded(pad: string, s: string)
    requires AllSpace(pad)
    ensures TrimLeft(pad + s) == TrimLeft(s)
  {
    if pad == "" {
      assert pad + s == s;
    } else {
      assert (pad + s)[1..] == pad[1..] + s;
      TrimLeftPadded(pad[1..], s);
    }
  }

  lemma {:induction false} TrimRightPadded(s: string, pad: string)
    requires AllSpace(pad)
    ensures TrimRight(s + pad) == TrimRight(s)
  {
    if pad == "" {
      assert s + pad == s;
    } else {
      assert (s + pad)[..|s + pad| - 1] == s + pad[..|pad| - 1];
      TrimRightPadded(s, pad[..|pad| - 1]);
    }
  }

  lemma {:induction false} TrimLeftTail(s: string, pad: string)
    requires AllSpace(pad)
    ensures TrimSpace(s + pad) == TrimSpace(s)
  {
    if s == "" {
      assert s + pad == pad + "";
      TrimLeftPadded(pad, "");
    } else if IsSpace(s[0]) {
      assert (s + pad)[1..] == s[1..] + pad;
      TrimLeftTail(s[1..], pad);
    } else {
      TrimRightPadded(s, pad);
    }
  }

  /** Padding on either side does not survive trimming. */
  lemma TrimPadded(left: string, s: string, right: string)
    requires AllSpace(left) && AllSpace(right)
    ensures TrimSpace(left + s + right) == TrimSpace(s)
  {
    assert left + s + right == left + (s + right);
    TrimLeftPadded(left, s + right);
    TrimLeftTail(s, right);
  }

  /** Trimming and lower-casing commute. */
  lemma TrimLower(s: string)
    ensures TrimSpace(ToLower(s)) == ToLower(TrimSpace(s))
  {
    TrimLeftLower(s);
    TrimRightLower(TrimLeft(s));
  }

  lemma {:induction false} TrimLeftLower(s: string)
    ensures TrimLeft(ToLower(s)) == ToLower(TrimLeft(s))
  {
    if s == "" {
    } else {
      assert ToLower(s)[1..] == ToLower(s[1..]);
      TrimLeftLower(s[1..]);
    }
  }

  lemma {:induction false} TrimRightLower(s: string)
    ensures TrimRight(ToLower(s)) == ToLower(TrimRight(s))
  {
    if s == "" {
    } else {
      assert ToLower(s)[..|s| - 1] == ToLower(s[..|s| - 1]);
      TrimRightLower(s[..|s| - 1]);
    }
  }

  lemma TrimKeepsChars(s: string)
    ensures forall c :: c in TrimSpace(s) ==> c in s
  {
    TrimLeftKeepsChars(s);
    TrimRightKeepsChars(TrimLeft(s));
  }

  lemma TrimLeftKeepsChars(s: string)
    ensures forall c :: c in TrimLeft(s) ==> c in s
  {
  }

  lemma TrimRightKeepsChars(s: string)
    ensures forall c :: c in TrimRight(s) ==> c in s
  {
  }

  /** The byte order of strings. */
  predicate StrLess(s: string, t: string) {
    if t == "" then false
    else if s == "" then true
    else if s[0] != t[0] then s[0] < t[0]
    else StrLess(s[1..], t[1..])
  }

  predicate StrAtMost(s: string, t: string) {
    !StrLess(t, s)
  }

  lemma {:induction false} StrLessTotal(s: string, t: string)
    ensures StrLess(s, t) || StrLess(t, s) || s == t
    ensures !(StrLess(s, t) && StrLess(t, s))
    ensures s == t ==> !StrLess(s, t)
  {
    if s != "" && t != "" {
      StrLessTotal(s[1..], t[1..]);
      if s[0] == t[0] && s[1..] == t[1..] {
        assert s == [s[0]] + s[1..] && t == [t[0]] + t[1..];
      }
    }
  }

  lemma {:induction false} StrLessTransitive(s: string, t: string, u: string)
    requires StrLess(s, t) && StrLess(t, u)
    ensures StrLess(s, u)
  {
    if s != "" && t != "" && u != "" && s[0] == t[0] == u[0] {
      StrLessTransitive(s[1..], t[1..], u[1..]);
    }
  }

  /** At the first difference the smaller character goes first, and a proper prefix goes before what it begins. */
  lemma {:induction false} StrLessIff(s: string, t: string)
    ensures StrLess(s, t) <==>
            exists i :: 0 <= i <= |s| && i < |t| && s[..i] == t[..i] && (i == |s| || s[i] < t[i])
  {
    if s == "" || t == "" {
      assert t != "" ==> s[..0] == t[..0];
    } else if s[0] != t[0] {
      assert s[..0] == t[..0];
      forall i | 0 < i <= |s| && i < |t|
        ensures s[..i] != t[..i]
      {
        assert s[..i][0] != t[..i][0];
      }
    } else {
      StrLessIff(s[1..], t[1..]);
      DifferenceMoves(s, t);
    }
  }

  lemma DifferenceMoves(s: string, t: string)
    requires s != "" && t != "" && s[0] == t[0]
    ensures (exists i :: 0 <= i <= |s| && i < |t| && s[..i] == t[..i] && (i == |s| || s[i] < t[i])) <==>
            (exists i :: 0 <= i <= |s[1..]| && i < |t[1..]| && s[1..][..i] == t[1..][..i] && (i == |s[1..]| || s[1..][i] < t[1..][i]))
  {
    if i :| 0 <= i <= |s| && i < |t| && s[..i] == t[..i] && (i == |s| || s[i] < t[i]) {
      assert s[1..][..i - 1] == s[..i][1..] && t[1..][..i - 1] == t[..i][1..];
    }
    if i :| 0 <= i <= |s[1..]| && i < |t[1..]| && s[1..][..i] == t[1..][..i] && (i == |s[1..]| || s[1..][i] < t[1..][i]) {
      assert s[..i + 1] == [s[0]] + s[1..][..i] && t[..i + 1] == [t[0]] + t[1..][..i];
    }
  }

  lemma StrOrderTotal()
    ensures TotalOrder(StrAtMost)
  {
    forall x, y
      ensures StrAtMost(x, y) || StrAtMost(y, x)
      ensures StrAtMost(x, y) && StrAtMost(y, x) ==> x == y
    {
      StrLessTotal(x, y);
    }
    forall x, y, z | StrAtMost(x, y) && StrAtMost(y, z)
      ensures StrAtMost(x, z)
    {
      StrLessTotal(x, y);
      StrLessTotal(y, z);
      StrLessTotal(x, z);
      if StrLess(z, x) {
        if x != y && y != z {
          StrLessTransitive(x, y, z);
        }
      }
    }
  }

  /** Joins with one separator character, as the library's Join does. */
  function Join(parts: seq<string>, sep: char): (r: string) {
    if parts == [] then ""
    else if |parts| == 1 then parts[0]
    else parts[0] + [sep] + Join(parts[1..], sep)
  }

  /** A text cut at its first separator. */
  lemma CutFirst(sep: char, a: string, b: string, a': string, b': string)
    requires sep !in a && sep !in a'
    requires a + [sep] + b == a' + [sep] + b'
    ensures a == a' && b == b'
  {
    var s := a + [sep] + b;
    assert s[|a|] == sep && s[|a'|] == sep;
    assert a == s[..|a|] && a' == s[..|a'|];
    assert b == s[|a| + 1..] && b' == s[|a'| + 1..];
  }

  /** A text cut at its last separator. */
  lemma CutLast(sep: char, a: string, b: string, a': string, b': string)
    requires sep !in b && sep !in b'
    requires a + [sep] + b == a' + [sep] + b'
    ensures a == a' && b == b'
  {
    var s := a + [sep] + b;
    assert s[|a|] == sep && s[|a'|] == sep;
    assert a == s[..|a|] && a' == s[..|a'|];
    assert b == s[|a| + 1..] && b' == s[|a'| + 1..];
  }

  /** Peels separator-free parts off the front of a join. */
  lemma {:induction false} JoinPeel(sep: char, p: seq<string>, q: seq<string>, n: nat)
    requires |p| == |q| && n < |p|
    requires NoneHas(sep, p[..n]) && NoneHas(sep, q[..n])
    requires Join(p, sep) == Join(q, sep)
    ensures p[..n] == q[..n] && Join(p[n..], sep) == Join(q[n..], sep)
  {
    if n > 0 {
      assert p[..n][0] == p[0] && q[..n][0] == q[0];
      assert p[0] in p[..n] && q[0] in q[..n];
      CutFirst(sep, p[0], Join(p[1..], sep), q[0], Join(q[1..], sep));
      assert p[..n] == [p[0]] + p[1..][..n - 1] && q[..n] == [q[0]] + q[1..][..n - 1];
      assert forall x :: x in p[1..][..n - 1] ==> x in p[..n];
      assert forall x :: x in q[1..][..n - 1] ==> x in q[..n];
      JoinPeel(sep, p[1..], q[1..], n - 1);
      assert p[1..][n - 1..] == p[n..] && q[1..][n - 1..] == q[n..];
    } else {
      assert p[0..] == p && q[0..] == q;
    }
  }

  ghost predicate NoneHas(sep: char, parts: seq<string>) {
    forall p :: p in parts ==> sep !in p
  }

  lemma SeparatorShows(sep: char, p: seq<string>)
    requires NoneHas(sep, p)
    ensures sep in Join(p, sep) <==> |p| >= 2
  {
    if |p| >= 2 {
      assert Join(p, sep)[|p[0]|] == sep;
    }
  }

  /** Joining separator-free, non-empty parts loses nothing. */
  lemma {:induction false} JoinInjective(sep: char, p: seq<string>, q: seq<string>)
    requires NoneHas(sep, p) && NoneHas(sep, q)
    requires "" !in p && "" !in q
    requires Join(p, sep) == Join(q, sep)
    ensures p == q
  {
    SeparatorShows(sep, p);
    SeparatorShows(sep, q);
    assert |p| == 1 ==> p[0] in p;
    assert |q| == 1 ==> q[0] in q;
    if |p| >= 2 {
      CutFirst(sep, p[0], Join(p[1..], sep), q[0], Join(q[1..], sep));
      JoinInjective(sep, p[1..], q[1..]);
      assert p == [p[0]] + p[1..] && q == [q[0]] + q[1..];
    } else if p != [] && q != [] {
      assert p == [p[0]] && q == [q[0]];
    }
  }

  lemma {:induction false} JoinConcat(p: seq<string>, q: seq<string>, sep: char)
    requires p != [] && q != []
    ensures Join(p + q, sep) == Join(p, sep) + [sep] + Join(q, sep)
  {
    assert (p + q)[1..] == p[1..] + q;
    if |p| == 1 {
      assert p[1..] + q == q;
    } else {
      JoinConcat(p[1..], q, sep);
    }
  }

  /** Only what a stretch of parts joins to matters. */
  lemma JoinReplaced(pre: seq<string>, p: seq<string>, q: seq<string>, post: seq<string>, sep: char)
    requires p != [] && q != [] && Join(p, sep) == Join(q, sep)
    ensures Join(pre + p + post, sep) == Join(pre + q + post, sep)
  {
    JoinWithHead(pre, p, q, sep);
    JoinWithTail(pre + p, pre + q, post, sep);
  }

  lemma JoinWithHead(pre: seq<string>, p: seq<string>, q: seq<string>, sep: char)
    requires p != [] && q != [] && Join(p, sep) == Join(q, sep)
    ensures Join(pre + p, sep) == Join(pre + q, sep)
  {
    if pre == [] {
      assert pre + p == p && pre + q == q;
    } else {
      JoinConcat(pre, p, sep);
      JoinConcat(pre, q, sep);
    }
  }

  lemma JoinWithTail(p: seq<string>, q: seq<string>, post: seq<string>, sep: char)
    requires p != [] && q != [] && Join(p, sep) == Join(q, sep)
    ensures Join(p + post, sep) == Join(q + post, sep)
  {
    if post == [] {
      assert p + post == p && q + post == q;
    } else {
      JoinConcat(p, post, sep);
      JoinConcat(q, post, sep);
    }
  }

  /** A character that is in no part and is not the separator is not in the join. */
  lemma {:induction false} JoinKeepsOut(parts: seq<string>, sep: char, c: char)
    requires c != sep && NoneHas(c, parts)
    ensures c !in Join(parts, sep)
  {
    if |parts| <= 1 {
    } else {
      JoinKeepsOut(parts[1..], sep, c);
    }
  }

  /** Trimming takes off nothing but white space. */
  lemma TrimKeepsPipe(s: string)
    requires '|' in s
    ensures '|' in TrimSpace(s)
  {
    TrimLeftKeepsPipe(s);
    TrimRightKeepsPipe(TrimLeft(s));
  }

  lemma {:induction false} TrimLeftKeepsPipe(s: string)
    requires '|' in s
    ensures '|' in TrimLeft(s)
  {
    if IsSpace(s[0]) {
      TrimLeftKeepsPipe(s[1..]);
    }
  }

  lemma {:induction false} TrimRightKeepsPipe(s: string)
    requires '|' in s
    ensures '|' in TrimRight(s)
  {
    if IsSpace(s[|s| - 1]) {
      TrimRightKeepsPipe(s[..|s| - 1]);
    }
  }

  lemma {:induction false} TrimLeftEnds(s: string)
    ensures TrimLeft(s) != "" ==> !IsSpace(TrimLeft(s)[0])
  {
    if s != "" && IsSpace(s[0]) {
      TrimLeftEnds(s[1..]);
    }
  }

  lemma {:induction false} TrimRightEnds(s: string)
    ensures TrimRight(s) <= s
    ensures TrimRight(s) != "" ==> !IsSpace(TrimRight(s)[|TrimRight(s)| - 1])
  {
    if s != "" && IsSpace(s[|s| - 1]) {
      TrimRightEnds(s[..|s| - 1]);
    }
  }
}
