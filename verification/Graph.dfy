/** Finite directed graphs and reachability, shared by every gate that reasons about cycles. */
module Graph {

  /** `edges.get(v, ())`: a node without an entry has no successors. */
  function Succ<T>(g: map<T, set<T>>, v: T): set<T> {
    if v in g then g[v] else {}
  }

  /** `y` is `n` edges away from `x`. */
  ghost predicate Steps<T(!new)>(g: map<T, set<T>>, x: T, y: T, n: nat) {
    if n == 0 then x == y else exists z :: z in Succ(g, x) && Steps(g, z, y, n - 1)
  }

  ghost predicate Reach<T(!new)>(g: map<T, set<T>>, x: T, y: T) {
    exists n: nat :: Steps(g, x, y, n)
  }

  ghost predicate Mutual<T(!new)>(g: map<T, set<T>>, x: T, y: T) {
    Reach(g, x, y) && Reach(g, y, x)
  }

  ghost predicate Closed<T>(g: map<T, set<T>>, s: set<T>) {
    forall x :: x in s ==> Succ(g, x) <= s
  }

  lemma ReachRefl<T(!new)>(g: map<T, set<T>>, x: T)
    ensures Reach(g, x, x)
  {
    assert Steps(g, x, x, 0);
  }

  lemma ReachEdge<T(!new)>(g: map<T, set<T>>, x: T, y: T)
    requires y in Succ(g, x)
    ensures Reach(g, x, y)
  {
    assert Steps(g, y, y, 0);
    assert Steps(g, x, y, 1);
  }

  lemma {:induction false} StepsAdd<T(!new)>(g: map<T, set<T>>, x: T, y: T, z: T, m: nat, n: nat)
    requires Steps(g, x, y, m) && Steps(g, y, z, n)
    ensures Steps(g, x, z, m + n)
    decreases m
  {
    if m > 0 {
      var w :| w in Succ(g, x) && Steps(g, w, y, m - 1);
      StepsAdd(g, w, y, z, m - 1, n);
    }
  }

  lemma ReachTrans<T(!new)>(g: map<T, set<T>>, x: T, y: T, z: T)
    requires Reach(g, x, y) && Reach(g, y, z)
    ensures Reach(g, x, z)
  {
    var m: nat :| Steps(g, x, y, m);
    var n: nat :| Steps(g, y, z, n);
    StepsAdd(g, x, y, z, m, n);
  }

  /** A walk that starts inside a set and ends outside it takes an edge that leaves the set. */
  lemma {:induction false} StepsLeave<T(!new)>(g: map<T, set<T>>, x: T, y: T, n: nat, inside: set<T>) returns (a: T, b: T)
    requires Steps(g, x, y, n) && x in inside && y !in inside
    ensures a in inside && b !in inside && b in Succ(g, a)
    ensures Reach(g, x, a) && Reach(g, b, y)
    decreases n
  {
    var z :| z in Succ(g, x) && Steps(g, z, y, n - 1);
    if z in inside {
      a, b := StepsLeave(g, z, y, n - 1, inside);
      ReachEdge(g, x, z);
      ReachTrans(g, x, z, a);
    } else {
      a, b := x, z;
      ReachRefl(g, x);
    }
  }

  lemma Leaves<T(!new)>(g: map<T, set<T>>, x: T, y: T, inside: set<T>) returns (a: T, b: T)
    requires Reach(g, x, y) && x in inside && y !in inside
    ensures a in inside && b !in inside && b in Succ(g, a)
    ensures Reach(g, x, a) && Reach(g, b, y)
  {
    var n: nat :| Steps(g, x, y, n);
    a, b := StepsLeave(g, x, y, n, inside);
  }

  lemma ClosedReach<T(!new)>(g: map<T, set<T>>, s: set<T>, x: T, y: T)
    requires Closed(g, s) && x in s && Reach(g, x, y)
    ensures y in s
  {
    if y !in s {
      var a, b := Leaves(g, x, y, s);
    }
  }
}
