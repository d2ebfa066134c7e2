/** Python's `sorted`, on module numbers and on components keyed by `(-len(c), c)`. */
module Sorting {

  ghost predicate Ascending(s: seq<nat>) {
    forall i, j :: 0 <= i < j < |s| ==> s[i] <= s[j]
  }

  ghost predicate StrictlyAscending(s: seq<nat>) {
    forall i, j :: 0 <= i < j < |s| ==> s[i] < s[j]
  }

  ghost predicate Distinct<T>(s: seq<T>) {
    forall i, j :: 0 <= i < j < |s| ==> s[i] != s[j]
  }

  lemma SameElements<T>(s: seq<T>, t: seq<T>)
    requires multiset(s) == multiset(t)
    ensures |s| == |t| && forall x :: x in s <==> x in t
  {
    assert |multiset(s)| == |s| && |multiset(t)| == |t|;
    forall x ensures x in s <==> x in t {
      assert x in s <==> x in multiset(s);
      assert x in t <==> x in multiset(t);
    }
  }

  lemma KeepLeast(head: nat, tail: seq<nat>, x: nat, r: seq<nat>)
    requires Ascending([head] + tail) && head <= x && Ascending(r)
    requires multiset(r) == multiset(tail) + multiset{x}
    ensures Ascending([head] + r)
    ensures multiset([head] + r) == multiset([head] + tail) + multiset{x}
  {
    SameElements(r, tail + [x]);
    forall i | 0 <= i < |r|
      ensures head <= r[i]
    {
      assert r[i] in tail + [x];
      if r[i] != x {
        var k :| 0 <= k < |tail| && tail[k] == r[i];
        var all := [head] + tail;
        assert all[k + 1] == r[i] && all[0] <= all[k + 1];
      }
    }
  }

  function Insert(x: nat, s: seq<nat>): (r: seq<nat>)
    requires Ascending(s)
    ensures Ascending(r) && multiset(r) == multiset(s) + multiset{x}
  {
    if s == [] then [x]
    else if x <= s[0] then [x] + s
    else
      assert s == [s[0]] + s[1..];
      var r := Insert(x, s[1..]);
      KeepLeast(s[0], s[1..], x, r);
      [s[0]] + r
  }

  function Sorted(s: seq<nat>): (r: seq<nat>)
    ensures Ascending(r) && multiset(r) == multiset(s)
  {
    if s == [] then []
    else
      assert s == [s[0]] + s[1..];
      Insert(s[0], Sorted(s[1..]))
  }

  lemma CountedOnce<T>(s: seq<T>)
    requires Distinct(s)
    ensures forall i :: 0 <= i < |s| ==> multiset(s)[s[i]] == 1
  {
    if s != [] {
      var front, x := s[..|s| - 1], s[|s| - 1];
      assert s == front + [x];
      CountedOnce(front);
      assert x !in front;
      assert forall i :: 0 <= i < |front| ==> s[i] == front[i];
    }
  }

  lemma CountedTwice<T>(s: seq<T>, i: nat, j: nat)
    requires i < j < |s| && s[i] == s[j]
    ensures multiset(s)[s[i]] >= 2
  {
    assert s == s[..j] + s[j..];
    assert s[..j][i] == s[i] && s[j..][0] == s[i];
    assert multiset(s[..j])[s[i]] >= 1 && multiset(s[j..])[s[i]] >= 1;
  }

  /** Sorting a list without repeats gives the strictly ascending list of the same numbers. */
  lemma SortedDistinct(s: seq<nat>)
    requires Distinct(s)
    ensures StrictlyAscending(Sorted(s)) && |Sorted(s)| == |s|
    ensures forall x :: x in Sorted(s) <==> x in s
  {
    var r := Sorted(s);
    SameElements(r, s);
    CountedOnce(s);
    forall i, j | 0 <= i < j < |r|
      ensures r[i] < r[j]
    {
      assert r[i] in s;
      if r[i] == r[j] { CountedTwice(r, i, j); }
    }
  }

  /** `sorted` of a list without repeats. */
  function Ascend(s: seq<nat>): (r: seq<nat>)
    requires Distinct(s)
    ensures StrictlyAscending(r) && |r| == |s| && forall x :: x in r <==> x in s
  {
    SortedDistinct(s);
    Sorted(s)
  }

  /** A strictly ascending list is determined by the set of its elements. */
  lemma {:induction false} AscendingUnique(s: seq<nat>, t: seq<nat>)
    requires StrictlyAscending(s) && StrictlyAscending(t)
    requires forall x :: x in s <==> x in t
    ensures s == t
    decreases |s|
  {
    assert t == [] || t[0] in t;
    if s != [] {
      assert s[0] in t;
      assert t[0] in s;
      assert s[0] == t[0];
      forall x ensures x in s[1..] <==> x in t[1..] {
        assert x in s[1..] ==> x in t && x != t[0];
        assert x in t[1..] ==> x in s && x != s[0];
      }
      AscendingUnique(s[1..], t[1..]);
    }
  }

  ghost predicate IsLeast(s: set<nat>, m: nat) {
    m in s && forall x :: x in s ==> m <= x
  }

  function Least(s: set<nat>): (m: nat)
    requires s != {}
    ensures IsLeast(s, m)
  {
    LeastExists(s);
    var m :| m in s && forall x :: x in s ==> m <= x;
    m
  }

  lemma {:induction false} LeastExists(s: set<nat>)
    requires s != {}
    ensures exists m :: IsLeast(s, m)
  {
    var m :| m in s;
    var rest := s - {m};
    if rest == {} {
      assert s == {m} && IsLeast(s, m);
    } else {
      LeastExists(rest);
      var n :| IsLeast(rest, n);
      assert s == rest + {m};
      assert IsLeast(s, if m <= n then m else n);
    }
  }

  /** `sorted` of a set or of a dictionary's keys. */
  function SortedSet(s: set<nat>): (r: seq<nat>)
    ensures StrictlyAscending(r) && forall x :: x in r <==> x in s
  {
    if s == {} then []
    else
      var m := Least(s);
      var rest := SortedSet(s - {m});
      assert forall x :: x in rest ==> m < x;
      [m] + rest
  }

  /** Lexicographic order of two lists, as Python compares them. */
  predicate LexLess(a: seq<nat>, b: seq<nat>) {
    b != [] && (a == [] || a[0] < b[0] || (a[0] == b[0] && LexLess(a[1..], b[1..])))
  }

  /** The key `(-len(c), c)`: longer components first, then lexicographically. */
  predicate Before(a: seq<nat>, b: seq<nat>) {
    |a| > |b| || (|a| == |b| && LexLess(a, b))
  }

  ghost predicate LargestFirst(cs: seq<seq<nat>>) {
    forall i, j :: 0 <= i < j < |cs| ==> Before(cs[i], cs[j])
  }

  lemma {:induction false} LexTotal(a: seq<nat>, b: seq<nat>)
    ensures a == b || LexLess(a, b) || LexLess(b, a)
    ensures !(LexLess(a, b) && LexLess(b, a)) && !LexLess(a, a)
    decreases |a|
  {
    if a != [] && b != [] {
      LexTotal(a[1..], b[1..]);
      assert a == [a[0]] + a[1..] && b == [b[0]] + b[1..];
    }
    if a != [] { LexTotal(a[1..], a[1..]); }
  }

  lemma {:induction false} LexTransitive(a: seq<nat>, b: seq<nat>, c: seq<nat>)
    requires LexLess(a, b) && LexLess(b, c)
    ensures LexLess(a, c)
    decreases |a|
  {
    if a != [] && a[0] == b[0] == c[0] { LexTransitive(a[1..], b[1..], c[1..]); }
  }

  lemma BeforeTransitive(a: seq<nat>, b: seq<nat>, c: seq<nat>)
    requires Before(a, b) && Before(b, c)
    ensures Before(a, c)
  {
    if |a| == |b| == |c| { LexTransitive(a, b, c); }
  }

  lemma BeforeAll(c: seq<nat>, cs: seq<seq<nat>>)
    requires LargestFirst(cs) && cs != [] && Before(c, cs[0])
    ensures LargestFirst([c] + cs)
  {
    forall i | 0 <= i < |cs|
      ensures Before(c, cs[i])
    {
      if i > 0 { BeforeTransitive(c, cs[0], cs[i]); }
    }
  }

  lemma KeepHead(head: seq<nat>, tail: seq<seq<nat>>, c: seq<nat>, r: seq<seq<nat>>)
    requires LargestFirst([head] + tail) && Before(head, c) && LargestFirst(r)
    requires multiset(r) == multiset(tail) + multiset{c}
    ensures LargestFirst([head] + r)
    ensures multiset([head] + r) == multiset([head] + tail) + multiset{c}
  {
    SameElements(r, tail + [c]);
    forall i | 0 <= i < |r|
      ensures Before(head, r[i])
    {
      assert r[i] in tail + [c];
      if r[i] != c {
        var k :| 0 <= k < |tail| && tail[k] == r[i];
        var all := [head] + tail;
        assert all[k + 1] == r[i] && Before(all[0], all[k + 1]);
      }
    }
  }

  function InsertComponent(c: seq<nat>, cs: seq<seq<nat>>): (r: seq<seq<nat>>)
    requires LargestFirst(cs) && c !in cs
    ensures LargestFirst(r) && multiset(r) == multiset(cs) + multiset{c}
  {
    if cs == [] then [c]
    else if Before(c, cs[0]) then
      BeforeAll(c, cs);
      [c] + cs
    else
      assert cs == [cs[0]] + cs[1..];
      LexTotal(c, cs[0]);
      var r := InsertComponent(c, cs[1..]);
      KeepHead(cs[0], cs[1..], c, r);
      [cs[0]] + r
  }

  function SortedComponents(cs: seq<seq<nat>>): (r: seq<seq<nat>>)
    requires Distinct(cs)
    ensures LargestFirst(r) && multiset(r) == multiset(cs)
  {
    if cs == [] then []
    else
      assert cs == [cs[0]] + cs[1..];
      var r := SortedComponents(cs[1..]);
      assert forall d :: d in r ==> d in multiset(r);
      assert cs[0] !in cs[1..];
      assert cs[0] !in multiset(cs[1..]);
      InsertComponent(cs[0], r)
  }

  /** A list in this order is determined by which components are in it. */
  lemma {:induction false} LargestFirstUnique(a: seq<seq<nat>>, b: seq<seq<nat>>)
    requires LargestFirst(a) && LargestFirst(b)
    requires forall c :: c in a <==> c in b
    ensures a == b
    decreases |a|
  {
    assert b == [] || b[0] in b;
    if a != [] {
      assert a[0] in b;
      assert b[0] in a;
      LexTotal(a[0], b[0]);
      assert a[0] == b[0];
      forall c ensures c in a[1..] <==> c in b[1..] {
        LexTotal(c, c);
        assert c in a[1..] ==> Before(a[0], c) && c in b && c != b[0];
        assert c in b[1..] ==> Before(b[0], c) && c in a && c != a[0];
      }
      LargestFirstUnique(a[1..], b[1..]);
    }
  }
}
