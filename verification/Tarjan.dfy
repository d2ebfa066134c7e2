/** `sccs` of ci/check-module-cycle.py: Tarjan's algorithm on module numbers, with its mutable tables. */
module Tarjan {
  import opened Graph
  import opened Sorting

  type Digraph = map<nat, set<nat>>

  // ------------------------------------------------------------------ what `sccs` promises

  /** `v` is one of `names` or is reached from one. */
  ghost predicate Named(g: Digraph, names: seq<nat>, v: nat) {
    exists r :: r in names && Reach(g, r, v)
  }

  /** A component is exactly one mutual-reachability class, in ascending order. */
  ghost predicate IsClass(g: Digraph, c: seq<nat>) {
    && c != []
    && StrictlyAscending(c)
    && forall x, y {:trigger Mutual(g, x, y)} :: x in c ==> (y in c <==> Mutual(g, x, y))
  }

  /** Every class reached from `names`, each once, largest first. */
  ghost predicate IsSccList(g: Digraph, names: seq<nat>, comps: seq<seq<nat>>) {
    && (forall c :: c in comps ==> IsClass(g, c))
    && (forall v :: Named(g, names, v) <==> exists c :: c in comps && v in c)
    && LargestFirst(comps)
  }

  // ------------------------------------------------------------------ the invariant of the search

  /** The search at one moment. `gray` holds the callers whose loops are still running. */
  datatype View = View(index: map<nat, nat>, counter: nat, on: set<nat>, gray: set<nat>) {
    ghost function Finished(): set<nat> { index.Keys - on }

    /** A gray node no younger than `y` that `y` reaches. */
    ghost predicate Anchor(g: Digraph, y: nat, x: nat) {
      x in gray && x in index && y in index && index[x] <= index[y] && Reach(g, y, x)
    }

    ghost predicate Inv(g: Digraph) {
      && (forall v :: v in index ==> index[v] < counter)
      && gray <= on <= index.Keys
      && (forall x :: x in index && x !in gray ==> Succ(g, x) <= index.Keys)
      && Closed(g, Finished())
      && (forall a, b {:trigger Reach(g, a, b)} :: a in on && b in on && index[a] <= index[b] ==> Reach(g, a, b))
      && (forall y {:trigger Anchored(g, y)} :: y in on ==> Anchored(g, y))
    }

    ghost predicate Anchored(g: Digraph, y: nat) {
      exists x :: Anchor(g, y, x)
    }

    /** The nodes on the stack from `v` upwards. */
    ghost function From(v: nat): set<nat>
      requires v in index && on <= index.Keys
    {
      set a | a in on && index[a] >= index[v]
    }
  }

  /** Calling the search on an unnumbered node that every gray node reaches. */
  lemma Enter(g: Digraph, s: View, v: nat, t: View)
    requires s.Inv(g) && v !in s.index && forall x :: x in s.gray ==> Reach(g, x, v)
    requires t == View(s.index[v := s.counter], s.counter + 1, s.on + {v}, s.gray + {v})
    ensures t.Inv(g)
  {
    assert t.Finished() == s.Finished();
    ReachRefl(g, v);
    forall a, b | a in t.on && b in t.on && t.index[a] <= t.index[b]
      ensures Reach(g, a, b)
    {
      if b == v && a != v {
        assert s.Anchored(g, a);
        var x :| s.Anchor(g, a, x);
        ReachTrans(g, a, x, v);
      }
    }
    forall y | y in t.on
      ensures t.Anchored(g, y)
    {
      if y == v {
        assert t.Anchor(g, v, v);
      } else {
        assert s.Anchored(g, y);
      var x :| s.Anchor(g, y, x);
        assert t.Anchor(g, y, x);
      }
    }
  }

  /** `v` reaches an older node on the stack: it stays there and stops being gray. */
  lemma Stay(g: Digraph, s: View, v: nat, u: nat, t: View)
    requires s.Inv(g) && v in s.gray && Succ(g, v) <= s.index.Keys
    requires u in s.on && s.index[u] < s.index[v] && Reach(g, v, u)
    requires t == s.(gray := s.gray - {v})
    ensures t.Inv(g)
  {
    hide Reach;
    assert t.Finished() == s.Finished();
    assert s.Anchored(g, u);
    var x :| s.Anchor(g, u, x);
    ReachTrans(g, v, u, x);
    forall y | y in t.on
      ensures t.Anchored(g, y)
    {
      assert s.Anchored(g, y);
      var z :| s.Anchor(g, y, z);
      if z == v {
        ReachTrans(g, y, v, x);
        assert t.Anchor(g, y, x);
      } else {
        assert t.Anchor(g, y, z);
      }
    }
  }

  /** What `strong(v)` knows when its loop is over and `low[v] == index[v]`. */
  ghost predicate Root(g: Digraph, s: View, v: nat) {
    && s.Inv(g)
    && v in s.gray && Succ(g, v) <= s.index.Keys
    && (forall x :: x in s.gray && x != v ==> s.index[x] < s.index[v])
    && (forall a, b :: a in s.From(v) && b in Succ(g, a) && b in s.on ==> s.index[b] >= s.index[v])
  }

  /** The nodes from a root upwards, together with the finished ones, have no way out. */
  lemma SegmentClosed(g: Digraph, s: View, v: nat)
    requires Root(g, s, v)
    ensures Closed(g, s.Finished() + s.From(v))
  {
    forall a, b | a in s.Finished() + s.From(v) && b in Succ(g, a)
      ensures b in s.Finished() + s.From(v)
    {
      if a in s.From(v) {
        assert a == v || a !in s.gray;
        assert b in s.index;
      }
    }
  }

  /** Those nodes are exactly the class of the root. */
  lemma SegmentReaches(g: Digraph, s: View, v: nat, y: nat)
    requires Root(g, s, v) && y in s.From(v)
    ensures Mutual(g, v, y)
  {
    SegmentClosed(g, s, v);
    assert s.Anchored(g, y);
    var x :| s.Anchor(g, y, x);
    ClosedReach(g, s.Finished() + s.From(v), y, x);
  }

  lemma SegmentIsClass(g: Digraph, s: View, v: nat, x: nat, y: nat)
    requires Root(g, s, v) && x in s.From(v)
    ensures y in s.From(v) <==> Mutual(g, x, y)
  {
    SegmentReaches(g, s, v, x);
    if y in s.From(v) {
      SegmentReaches(g, s, v, y);
      ReachTrans(g, x, v, y);
      ReachTrans(g, y, v, x);
    } else if Mutual(g, x, y) {
      SegmentClosed(g, s, v);
      ClosedReach(g, s.Finished() + s.From(v), x, y);
      ClosedReach(g, s.Finished(), y, x);
    }
  }

  /** Popping the segment keeps the invariant. */
  lemma Pop(g: Digraph, s: View, v: nat, t: View)
    requires Root(g, s, v)
    requires t == s.(on := s.on - s.From(v), gray := s.gray - {v})
    ensures t.Inv(g) && t.Finished() == s.Finished() + s.From(v)
  {
    SegmentClosed(g, s, v);
    assert t.Finished() == s.Finished() + s.From(v);
    forall y | y in t.on
      ensures t.Anchored(g, y)
    {
      assert s.Anchored(g, y);
      var x :| s.Anchor(g, y, x);
      assert t.Anchor(g, y, x);
    }
  }

  // ------------------------------------------------------------------ the emitted components

  /** `out` lists the classes of the finished nodes, each once. */
  ghost predicate Emitted(g: Digraph, out: seq<seq<nat>>, finished: set<nat>) {
    && (forall c :: c in out ==> IsClass(g, c))
    && (forall v :: v in finished <==> exists c :: c in out && v in c)
    && Distinct(out)
  }

  lemma Emit(g: Digraph, s: View, v: nat, out: seq<seq<nat>>, comp: seq<nat>)
    requires Root(g, s, v) && Emitted(g, out, s.Finished())
    requires StrictlyAscending(comp) && forall x :: x in comp <==> x in s.From(v)
    ensures Emitted(g, out + [comp], s.Finished() + s.From(v))
  {
    assert v in comp;
    forall x, y | x in comp
      ensures y in comp <==> Mutual(g, x, y)
    {
      SegmentIsClass(g, s, v, x, y);
    }
    assert IsClass(g, comp);
    assert v !in s.Finished();
    assert comp !in out;
    var all := out + [comp];
    forall x | x in s.Finished() + s.From(v)
      ensures exists c :: c in all && x in c
    {
      if x in s.From(v) {
        assert comp in all && x in comp;
      } else {
        var c :| c in out && x in c;
        assert c in all && x in c;
      }
    }
  }

  // ------------------------------------------------------------------ the search

  /** `on` holds the same nodes as `stack`, whose numbers ascend. */
  ghost predicate Stacked(index: map<nat, nat>, on: set<nat>, stack: seq<nat>) {
    && (forall v :: v in on <==> v in stack)
    && (forall v :: v in stack ==> v in index)
    && (forall i, j :: 0 <= i < j < |stack| ==> index[stack[i]] < index[stack[j]])
  }

  lemma PopOne(index: map<nat, nat>, on: set<nat>, stack: seq<nat>)
    requires Stacked(index, on, stack) && stack != []
    ensures Stacked(index, on - {stack[|stack| - 1]}, stack[..|stack| - 1])
  {
    var n := |stack| - 1;
    assert stack == stack[..n] + [stack[n]];
    assert stack[n] !in stack[..n];
  }

  lemma StackedOnce(index: map<nat, nat>, on: set<nat>, stack: seq<nat>)
    requires Stacked(index, on, stack)
    ensures forall i, j :: 0 <= i < j < |stack| ==> stack[i] != stack[j]
  {
  }

  lemma StackedOn(index: map<nat, nat>, on: set<nat>, stack: seq<nat>)
    requires Stacked(index, on, stack)
    ensures forall x :: x in on <==> x in stack
  {
  }

  /** The part of the stack from `v` upwards, popped in reverse, is `From(v)`. */
  lemma Segment(index: map<nat, nat>, s: View, was: seq<nat>, v: nat, n: nat, comp: seq<nat>)
    requires s.index == index && s.on <= index.Keys && Stacked(index, s.on, was)
    requires n < |was| && was[n] == v
    requires |comp| == |was| - n && forall k :: 0 <= k < |comp| ==> comp[k] == was[|was| - 1 - k]
    ensures Distinct(comp)
    ensures forall x :: x in comp <==> x in s.From(v)
    ensures forall x :: x in was[..n] <==> x in s.on - s.From(v)
  {
    forall x | x in s.From(v)
      ensures x in comp
    {
      var k :| 0 <= k < |was| && was[k] == x;
      assert comp[|was| - 1 - k] == x;
    }
    forall x | x in s.on - s.From(v)
      ensures x in was[..n]
    {
      var k :| 0 <= k < |was| && was[k] == x;
      assert was[..n][k] == x;
    }
  }

  // ------------------------------------------------------------------ what one call of `strong` does

  /** Every edge from `a` into the stack `strong(v)` found on entry ends no lower than `low[v]`. */
  ghost predicate Bounded(g: Digraph, start: View, s: View, low: map<nat, nat>, v: nat, a: nat)
    requires v in low && start.on <= s.index.Keys
  {
    forall b :: b in Succ(g, a) && b in start.on ==> low[v] <= s.index[b]
  }

  /** From `start`, just before `strong(v)`, to `s`, during it or after it: old entries are kept, `v` is numbered. */
  ghost predicate Visiting(g: Digraph, start: View, startLow: map<nat, nat>, s: View, low: map<nat, nat>, v: nat) {
    && start.on <= start.index.Keys && start.on <= s.on && s.on <= s.index.Keys
    && v in s.index && v !in start.index && s.index[v] == start.counter
    && (forall x :: x in start.index ==> x in s.index && s.index[x] == start.index[x])
    && (forall x :: x in start.index ==> x in low && x in startLow && low[x] == startLow[x])
    && (forall x :: x in s.index && x !in start.index ==> start.counter <= s.index[x])
    && (forall x :: x in s.on && x in start.index ==> x in start.on)
    && v in low && low[v] <= s.index[v]
    && (forall a {:trigger Bounded(g, start, s, low, v, a)} :: a in s.on && a !in start.on && a != v ==> Bounded(g, start, s, low, v, a))
  }

  /** `low[v]` is the number of a node on the stack that `v` reaches. */
  ghost predicate LowWitness(g: Digraph, on: set<nat>, index: map<nat, nat>, low: map<nat, nat>, v: nat) {
    v in low && exists u :: u in on && u in index && index[u] == low[v] && Reach(g, v, u)
  }

  /** `strong(v)` has returned: it left `v` on the stack below an older node, or emitted it. */
  ghost predicate Visited(g: Digraph, start: View, startLow: map<nat, nat>, s: View, low: map<nat, nat>, v: nat) {
    && Visiting(g, start, startLow, s, low, v)
    && (v in s.on ==> Bounded(g, start, s, low, v, v) && low[v] < s.index[v] && LowWitness(g, start.on, s.index, low, v))
    && (v !in s.on ==> s.on == start.on && low[v] == s.index[v])
  }

  /** The successors `ws` of `v` have been looked at. */
  ghost predicate Handled(start: View, index: map<nat, nat>, low: map<nat, nat>, v: nat, ws: seq<nat>)
    requires v in low
  {
    forall w :: w in ws ==> w in index && (w in start.on ==> low[v] <= index[w])
  }

  /** `strong(v)` has just numbered `v` and pushed it. */
  lemma Begin(g: Digraph, s: View, startLow: map<nat, nat>, v: nat, t: View, low: map<nat, nat>)
    requires s.Inv(g) && v !in s.index && forall x :: x in s.gray ==> Reach(g, x, v)
    requires t == View(s.index[v := s.counter], s.counter + 1, s.on + {v}, s.gray + {v})
    requires startLow.Keys == s.index.Keys && low == startLow[v := s.counter]
    ensures t.Inv(g) && t.Finished() == s.Finished()
    ensures Visiting(g, s, startLow, t, low, v) && LowWitness(g, t.on, t.index, low, v)
    ensures Handled(s, t.index, low, v, [])
    ensures forall x :: x in s.index ==> s.index[x] < s.counter
  {
    Enter(g, s, v, t);
    ReachRefl(g, v);
  }

  lemma Callable(g: Digraph, names: seq<nat>, start: View, startLow: map<nat, nat>, s: View, low: map<nat, nat>, v: nat, w: nat)
    requires start.Inv(g) && s.Inv(g) && s.gray == start.gray + {v}
    requires Visiting(g, start, startLow, s, low, v)
    requires w in Succ(g, v) && Named(g, names, v)
    ensures Named(g, names, w) && forall x :: x in s.gray ==> Reach(g, x, w)
    ensures start.index.Keys + {v} <= s.index.Keys
  {
    ReachEdge(g, v, w);
    var r :| r in names && Reach(g, r, v);
    ReachTrans(g, r, v, w);
    forall x | x in s.gray ensures Reach(g, x, w) {
      assert s.index[x] <= s.index[v];
      assert Reach(g, x, v);
      ReachTrans(g, x, v, w);
    }
  }

  /** After the call some node on the stack that `v` reaches still bears the number `low[v]`. */
  lemma LowAfterCall(g: Digraph, start: View, startLow: map<nat, nat>, s: View, sLow: map<nat, nat>,
                     t: View, tLow: map<nat, nat>, v: nat, w: nat, low: map<nat, nat>)
    requires Visiting(g, start, startLow, s, sLow, v) && LowWitness(g, s.on, s.index, sLow, v)
    requires v in s.on && s.Inv(g) && Visited(g, s, sLow, t, tLow, w) && w in Succ(g, v)
    requires low == tLow[v := if tLow[v] <= tLow[w] then tLow[v] else tLow[w]]
    ensures LowWitness(g, t.on, t.index, low, v)
  {
    hide Reach, Bounded;
    var u :| u in s.on && u in s.index && s.index[u] == sLow[v] && Reach(g, v, u);
    assert t.index[u] == sLow[v];
    if w in t.on {
      var z :| z in s.on && z in t.index && t.index[z] == tLow[w] && Reach(g, w, z);
      ReachEdge(g, v, w);
      ReachTrans(g, v, w, z);
    }
  }

  /** Edges from `a` that were bounded before the call, or that the call bounded, still are. */
  lemma BoundedAfterCall(g: Digraph, start: View, startLow: map<nat, nat>, s: View, sLow: map<nat, nat>,
                         t: View, tLow: map<nat, nat>, v: nat, w: nat, low: map<nat, nat>, a: nat)
    requires Visiting(g, start, startLow, s, sLow, v) && LowWitness(g, s.on, s.index, sLow, v)
    requires v in s.on && s.Inv(g) && Visited(g, s, sLow, t, tLow, w) && w in Succ(g, v)
    requires low == tLow[v := if tLow[v] <= tLow[w] then tLow[v] else tLow[w]]
    requires a in t.on && a !in start.on && a != v
    ensures Bounded(g, start, t, low, v, a)
  {
    hide Reach, LowWitness, Succ;
    if a in s.on {
      assert Bounded(g, start, s, sLow, v, a);
    } else {
      assert Bounded(g, s, t, tLow, w, a);
    }
  }

  /** `low[v] = min(low[v], low[w])` after `strong(w)` took `s` to `t`. */
  lemma AfterCall(g: Digraph, start: View, startLow: map<nat, nat>, s: View, sLow: map<nat, nat>,
                  t: View, tLow: map<nat, nat>, v: nat, w: nat, low: map<nat, nat>, ws: seq<nat>)
    requires Visiting(g, start, startLow, s, sLow, v) && LowWitness(g, s.on, s.index, sLow, v)
    requires v in s.on && s.Inv(g) && Visited(g, s, sLow, t, tLow, w) && w in Succ(g, v)
    requires Handled(start, s.index, sLow, v, ws)
    requires low == tLow[v := if tLow[v] <= tLow[w] then tLow[v] else tLow[w]]
    ensures Visiting(g, start, startLow, t, low, v) && LowWitness(g, t.on, t.index, low, v)
    ensures Handled(start, t.index, low, v, ws + [w])
  {
    LowAfterCall(g, start, startLow, s, sLow, t, tLow, v, w, low);
    forall a | a in t.on && a !in start.on && a != v
      ensures Bounded(g, start, t, low, v, a)
    {
      BoundedAfterCall(g, start, startLow, s, sLow, t, tLow, v, w, low, a);
    }
    hide Reach, Bounded, LowWitness, Succ, View.Inv;
  }

  /** An already numbered `w`: `low[v] = min(low[v], index[w])` when it is on the stack, else nothing. */
  lemma AfterEdge(g: Digraph, start: View, startLow: map<nat, nat>, s: View, sLow: map<nat, nat>,
                  v: nat, w: nat, low: map<nat, nat>, ws: seq<nat>)
    requires Visiting(g, start, startLow, s, sLow, v) && LowWitness(g, s.on, s.index, sLow, v)
    requires w in Succ(g, v) && w in s.index && Handled(start, s.index, sLow, v, ws)
    requires low == if w in s.on then sLow[v := if sLow[v] <= s.index[w] then sLow[v] else s.index[w]] else sLow
    ensures Visiting(g, start, startLow, s, low, v) && LowWitness(g, s.on, s.index, low, v)
    ensures Handled(start, s.index, low, v, ws + [w])
  {
    ReachEdge(g, v, w);
    forall a | a in s.on && a !in start.on && a != v
      ensures Bounded(g, start, s, low, v, a)
    {
      assert Bounded(g, start, s, sLow, v, a);
    }
  }

  /** The loop of `strong(v)` is over. */
  ghost predicate Explored(g: Digraph, start: View, startLow: map<nat, nat>, s: View, low: map<nat, nat>, v: nat) {
    && start.Inv(g) && s.Inv(g) && s.gray == start.gray + {v}
    && Visiting(g, start, startLow, s, low, v) && LowWitness(g, s.on, s.index, low, v)
    && Succ(g, v) <= s.index.Keys && Bounded(g, start, s, low, v, v)
  }

  lemma Explore(g: Digraph, start: View, startLow: map<nat, nat>, s: View, low: map<nat, nat>, v: nat, ws: seq<nat>)
    requires start.Inv(g) && s.Inv(g) && s.gray == start.gray + {v}
    requires Visiting(g, start, startLow, s, low, v) && LowWitness(g, s.on, s.index, low, v)
    requires Handled(start, s.index, low, v, ws) && forall w :: w in Succ(g, v) ==> w in ws
    ensures Explored(g, start, startLow, s, low, v) && low[v] <= s.index[v]
    ensures start.index.Keys + {v} <= s.index.Keys
  {
  }

  lemma AtRoot(g: Digraph, start: View, startLow: map<nat, nat>, s: View, low: map<nat, nat>, v: nat)
    requires Explored(g, start, startLow, s, low, v) && low[v] == s.index[v]
    ensures Root(g, s, v) && s.From(v) == s.on - start.on
  {
    forall a, b | a in s.From(v) && b in Succ(g, a) && b in s.on
      ensures s.index[b] >= s.index[v]
    {
      assert Bounded(g, start, s, low, v, a);
    }
  }

  lemma NotRoot(g: Digraph, start: View, startLow: map<nat, nat>, s: View, low: map<nat, nat>, v: nat)
    requires Explored(g, start, startLow, s, low, v) && low[v] < s.index[v]
    ensures s.(gray := start.gray).Inv(g)
    ensures Visited(g, start, startLow, s.(gray := start.gray), low, v)
  {
    var u :| u in s.on && s.index[u] == low[v] && Reach(g, v, u);
    assert u in start.index;
    Stay(g, s, v, u, s.(gray := s.gray - {v}));
    assert s.gray - {v} == start.gray;
    forall a | a in s.on && a !in start.on && a != v
      ensures Bounded(g, start, s.(gray := start.gray), low, v, a)
    {
      assert Bounded(g, start, s, low, v, a);
    }
  }

  lemma RootDone(g: Digraph, start: View, startLow: map<nat, nat>, s: View, low: map<nat, nat>, v: nat, t: View)
    requires Explored(g, start, startLow, s, low, v) && low[v] == s.index[v]
    requires t == s.(on := s.on - s.From(v), gray := start.gray)
    ensures Root(g, s, v) && t.Inv(g) && t.Finished() == s.Finished() + s.From(v)
    ensures Visited(g, start, startLow, t, low, v)
  {
    AtRoot(g, start, startLow, s, low, v);
    assert s.gray - {v} == start.gray;
    Pop(g, s, v, t);
  }

  /** `strong(v)` found `bottom` on the stack and pushed `v` onto it. */
  ghost predicate Above(bottom: seq<nat>, v: nat, stack: seq<nat>) {
    |bottom| < |stack| && stack[..|bottom|] == bottom && stack[|bottom|] == v
  }

  lemma StillAbove(bottom: seq<nat>, v: nat, s: seq<nat>, t: seq<nat>)
    requires Above(bottom, v, s) && |s| <= |t| && t[..|s|] == s
    ensures Above(bottom, v, t)
  {
    assert t[..|bottom|] == s[..|bottom|];
    assert t[|bottom|] == s[|bottom|];
  }

  class Search {
    const g: Digraph
    ghost const names: seq<nat>
    var index: map<nat, nat>
    var low: map<nat, nat>
    var on: set<nat>
    var stack: seq<nat>
    var out: seq<seq<nat>>
    var counter: nat
    ghost var gray: set<nat>

    ghost function Now(): View
      reads this
    {
      View(index, counter, on, gray)
    }

    ghost predicate Valid()
      reads this
    {
      && Now().Inv(g)
      && Stacked(index, on, stack)
      && Emitted(g, out, Now().Finished())
      && index.Keys == low.Keys
      && forall v :: v in index ==> Named(g, names, v)
    }

    constructor (g: Digraph, ghost names: seq<nat>)
      ensures Valid() && this.g == g && this.names == names
      ensures index == map[] && stack == [] && gray == {}
    {
      this.g, this.names := g, names;
      index, low, on, stack, out, counter, gray := map[], map[], {}, [], [], 0, {};
    }

    /** The `while True` loop of `strong`: pop down to and including `v`. */
    method PopTo(v: nat, ghost n: nat) returns (comp: seq<nat>)
      requires Stacked(index, on, stack) && n < |stack| && stack[n] == v
      modifies this`stack, this`on
      ensures stack == old(stack)[..n] && forall x :: x in on <==> x in stack
      ensures |comp| == |old(stack)| - n
      ensures forall k :: 0 <= k < |comp| ==> comp[k] == old(stack)[|old(stack)| - 1 - k]
    {
      hide Stacked;
      ghost var was := stack;
      StackedOnce(index, on, stack);
      var w := Pop();
      comp := [w];
      while w != v
        invariant n <= |stack| < |was| && stack == was[..|stack|] && w == was[|stack|]
        invariant |comp| == |was| - |stack| && forall k :: 0 <= k < |comp| ==> comp[k] == was[|was| - 1 - k]
        invariant Stacked(index, on, stack)
        decreases |stack|
      {
        w := Pop();
        comp := comp + [w];
      }
      assert |stack| == n;
      StackedOn(index, on, stack);
    }

    /** `stack.pop()` and `on.discard`. */
    method Pop() returns (w: nat)
      requires Stacked(index, on, stack) && stack != []
      modifies this`stack, this`on
      ensures w == old(stack)[|old(stack)| - 1] && stack == old(stack)[..|old(stack)| - 1] && on == old(on) - {w}
      ensures Stacked(index, on, stack)
    {
      PopOne(index, on, stack);
      w := stack[|stack| - 1];
      stack := stack[..|stack| - 1];
      on := on - {w};
    }

    /** The tail of `strong` at a root: pop its component and append it, sorted. */
    method PopComponent(v: nat, ghost start: View, ghost startLow: map<nat, nat>, ghost n: nat)
      requires Valid() && Explored(g, start, startLow, Now(), low, v) && low[v] == index[v]
      requires n < |stack| && stack[n] == v
      modifies this`stack, this`on, this`out, this`gray
      ensures Valid() && gray == start.gray && stack == old(stack)[..n]
      ensures Visited(g, start, startLow, Now(), low, v)
    {
      hide Reach, Named, View.Inv, Emitted, Visiting, LowWitness, Bounded, Handled, Explored, Visited, Root, IsClass;
      hide Ascend, Distinct, StrictlyAscending;
      ghost var last, was := Now(), stack;
      ghost var popped := last.(on := last.on - last.From(v), gray := start.gray);
      RootDone(g, start, startLow, last, low, v, popped);
      var comp := PopTo(v, n);
      Segment(index, last, was, v, n, comp);
      var sorted := Ascend(comp);
      Emit(g, last, v, out, sorted);
      out := out + [sorted];
      gray := start.gray;
      assert on == popped.on;
      assert Now() == popped;
    }

    /** The head of `strong`: number `v` and push it. */
    method Push(v: nat)
      requires Valid() && v !in index && Named(g, names, v)
      requires forall x :: x in gray ==> Reach(g, x, v)
      modifies this
      ensures Valid() && gray == old(gray) + {v} && stack == old(stack) + [v]
      ensures v in index && v in low && old(index).Keys + {v} <= index.Keys
      ensures Visiting(g, old(Now()), old(low), Now(), low, v)
      ensures LowWitness(g, on, index, low, v) && Handled(old(Now()), index, low, v, [])
    {
      hide Reach, Named, View.Inv, Emitted, Visiting, LowWitness, Bounded, Handled;
      ghost var start, startLow := Now(), low;
      index := index[v := counter];
      low := low[v := counter];
      counter := counter + 1;
      stack := stack + [v];
      on := on + {v};
      gray := gray + {v};
      Begin(g, start, startLow, v, Now(), low);
    }

    lemma Facts(bottom: seq<nat>, v: nat)
      requires Valid()
      ensures Now().Inv(g) && index.Keys == low.Keys
      ensures Above(bottom, v, stack) ==> v in on
    {
    }

    /** `low[v] = min(low[v], k)`. */
    method Lower(v: nat, k: nat)
      requires Valid() && v in index
      modifies this`low
      ensures Valid() && low == old(low)[v := if old(low)[v] <= k then old(low)[v] else k]
    {
      hide Reach, Named, View.Inv, Emitted;
      low := low[v := if low[v] <= k then low[v] else k];
    }

    /** `strong(v)` returns without emitting: its loop is over, so it stops being gray. */
    ghost method Unmark(v: nat, start: View, startLow: map<nat, nat>)
      requires Valid() && Explored(g, start, startLow, Now(), low, v) && low[v] < index[v]
      modifies this`gray
      ensures Valid() && gray == start.gray && Visited(g, start, startLow, Now(), low, v)
    {
      hide Reach, Named, View.Inv, Emitted, Visiting, LowWitness, Bounded, Explored, Visited;
      NotRoot(g, start, startLow, Now(), low, v);
      gray := start.gray;
    }

    /** The loop of `strong(v)`, called from `start` with `bottom` on the stack, has looked at `ws`. */
    ghost predicate Looping(v: nat, start: View, startLow: map<nat, nat>, bottom: seq<nat>, ws: seq<nat>)
      reads this
    {
      && Valid() && gray == start.gray + {v}
      && Above(bottom, v, stack)
      && v in index && v in low
      && start.Inv(g) && Visiting(g, start, startLow, Now(), low, v)
      && LowWitness(g, on, index, low, v) && Handled(start, index, low, v, ws)
    }

    method Strong(v: nat, ghost universe: set<nat>)
      requires Valid() && v !in index && Named(g, names, v)
      requires v in universe && Closed(g, universe)
      requires forall x :: x in gray ==> Reach(g, x, v)
      modifies this
      ensures Valid() && gray == old(gray)
      ensures Visited(g, old(Now()), old(low), Now(), low, v) && v in index && old(index).Keys + {v} <= index.Keys
      ensures |old(stack)| <= |stack| && stack[..|old(stack)|] == old(stack)
      decreases universe - index.Keys, 0
    {
      hide Reach, Named, View.Inv, Emitted, Visiting, LowWitness, Bounded, Handled, Explored, Visited, Root, Stacked, Valid, StrictlyAscending;
      Facts([], v);
      ghost var start, startLow := Now(), low;
      Push(v);
      var succ := SortedSet(Succ(g, v));
      var i := 0;
      assert succ[..0] == [];
      while i < |succ|
        invariant 0 <= i <= |succ|
        invariant Looping(v, start, startLow, old(stack), succ[..i])
        invariant old(index).Keys + {v} <= index.Keys
      {
        Visit(v, succ[i], start, startLow, old(stack), succ[..i], universe);
        assert succ[..i + 1] == succ[..i] + [succ[i]];
        i := i + 1;
      }
      assert succ[..i] == succ;
      Facts([], v);
      Explore(g, start, startLow, Now(), low, v, succ);
      if low[v] == index[v] {
        PopComponent(v, start, startLow, |old(stack)|);
      } else {
        Unmark(v, start, startLow);
      }
    }

    /** One turn of the loop of `strong(v)`, for the successor `w`. */
    method Visit(v: nat, w: nat, ghost start: View, ghost startLow: map<nat, nat>, ghost bottom: seq<nat>,
                 ghost ws: seq<nat>, ghost universe: set<nat>)
      requires Looping(v, start, startLow, bottom, ws) && w in Succ(g, v) && Named(g, names, v)
      requires v in universe && Closed(g, universe)
      modifies this
      ensures Looping(v, start, startLow, bottom, ws + [w])
      ensures old(index).Keys <= index.Keys
      decreases universe - index.Keys, 1
    {
      hide Reach, Named, View.Inv, Emitted, Visiting, LowWitness, Bounded, Handled, Explored, Visited, Root, Stacked, Valid, Above;
      Facts(bottom, v);
      ghost var s, sLow := Now(), low;
      if w !in index {
        Callable(g, names, start, startLow, s, low, v, w);
        ghost var was := stack;
        Strong(w, universe);
        StillAbove(bottom, v, was, stack);
        Facts(bottom, v);
        ghost var tLow := low;
        Lower(v, low[w]);
        AfterCall(g, start, startLow, s, sLow, Now(), tLow, v, w, low, ws);
      } else {
        if w in on {
          Lower(v, index[w]);
        }
        AfterEdge(g, start, startLow, s, sLow, v, w, low, ws);
      }
    }
  }

  // ------------------------------------------------------------------ the whole search

  /** Every node of the graph or of `names`: what the search can ever number. */
  ghost function Universe(g: Digraph, names: seq<nat>): (u: set<nat>)
    ensures Closed(g, u) && forall v :: v in names ==> v in u
  {
    (set v | v in names) + (set v, w | v in g && w in g[v] :: w)
  }

  lemma GrayBelow(g: Digraph, s: View, y: nat) returns (x: nat)
    requires s.Inv(g) && y in s.on
    ensures x in s.gray && Reach(g, y, x)
  {
    assert s.Anchored(g, y);
    x :| s.Anchor(g, y, x);
  }

  /** Outside any call nothing is gray, so nothing is left on the stack. */
  lemma Settled(g: Digraph, s: View)
    requires s.Inv(g) && s.gray == {}
    ensures s.on == {} && s.Finished() == s.index.Keys && Closed(g, s.index.Keys)
  {
    if s.on != {} {
      var y :| y in s.on;
      var x := GrayBelow(g, s, y);
    }
    assert s.Finished() == s.index.Keys;
  }

  lemma NamedNumbered(g: Digraph, names: seq<nat>, numbered: set<nat>, v: nat)
    requires Closed(g, numbered) && (forall v :: v in names ==> v in numbered)
    requires forall v :: v in numbered ==> Named(g, names, v)
    ensures Named(g, names, v) <==> v in numbered
  {
    if Named(g, names, v) {
      var r :| r in names && Reach(g, r, v);
      ClosedReach(g, numbered, r, v);
    }
  }

  lemma AllNumbered(g: Digraph, names: seq<nat>, numbered: set<nat>, out: seq<seq<nat>>)
    requires Closed(g, numbered) && (forall v :: v in names ==> v in numbered)
    requires (forall v :: v in numbered ==> Named(g, names, v)) && Emitted(g, out, numbered)
    ensures Distinct(out) && IsSccList(g, names, SortedComponents(out))
  {
    var comps := SortedComponents(out);
    SameElements(comps, out);
    forall v ensures Named(g, names, v) <==> v in numbered { NamedNumbered(g, names, numbered, v); }
    hide Reach, Named, Closed, IsClass, SortedComponents, LargestFirst;
    forall v
      ensures v in numbered <==> exists c :: c in comps && v in c
    {
      if v in numbered {
        var c :| c in out && v in c;
        assert c in comps;
      }
    }
  }

  method Sccs(names: seq<nat>, g: Digraph) returns (comps: seq<seq<nat>>)
    ensures IsSccList(g, names, comps)
  {
    hide Reach, View.Inv, Emitted, Stacked, IsSccList, Distinct, Universe;
    var search := new Search(g, names);
    ghost var universe := Universe(g, names);
    var i := 0;
    while i < |names|
      invariant 0 <= i <= |names|
      invariant fresh(search) && search.Valid() && search.gray == {}
      invariant forall j :: 0 <= j < i ==> names[j] in search.index
    {
      if names[i] !in search.index {
        ReachRefl(g, names[i]);
        assert Named(g, names, names[i]);
        search.Strong(names[i], universe);
      }
      i := i + 1;
    }
    Settled(g, search.Now());
    AllNumbered(g, names, search.index.Keys, search.out);
    comps := SortedComponents(search.out);
  }

  // ------------------------------------------------------------------ the answer does not depend on the order

  lemma SameClass(g: Digraph, c: seq<nat>, d: seq<nat>, v: nat)
    requires IsClass(g, c) && IsClass(g, d) && v in c && v in d
    ensures c == d
  {
    forall x ensures x in c <==> x in d {
      assert Mutual(g, v, x) || !Mutual(g, v, x);
    }
    AscendingUnique(c, d);
  }

  lemma SccListCovers(g: Digraph, names: seq<nat>, a: seq<seq<nat>>, b: seq<seq<nat>>, c: seq<nat>)
    requires IsSccList(g, names, a) && IsSccList(g, names, b) && c in a
    ensures c in b
  {
    var v := c[0];
    assert v in c;
    assert Named(g, names, v);
    var d :| d in b && v in d;
    SameClass(g, c, d, v);
  }

  /** Whatever order the search visits names and edges in, there is one correct answer. */
  lemma SccListUnique(g: Digraph, names: seq<nat>, a: seq<seq<nat>>, b: seq<seq<nat>>)
    requires IsSccList(g, names, a) && IsSccList(g, names, b)
    ensures a == b
  {
    forall c ensures c in a <==> c in b {
      if c in a { SccListCovers(g, names, a, b, c); }
      if c in b { SccListCovers(g, names, b, a, c); }
    }
    LargestFirstUnique(a, b);
  }
}
