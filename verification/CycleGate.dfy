/** `cycles`, `snapshot`, `explain` and `check` of ci/check-module-cycle.py: the module-cycle ratchet. */
module CycleGate {
  import opened Options
  import opened Graph
  import opened Sorting
  import opened Tarjan

  /** One textual reference, `file:line`. */
  datatype Ref = Ref(file: string, line: nat)

  /** `edges[a][b]`: the references by which module `a` names module `b`. */
  type Edges = map<nat, map<nat, seq<Ref>>>

  function Adjacent(edges: Edges): Digraph {
    map v | v in edges :: edges[v].Keys
  }

  datatype Tree = Tree(names: seq<nat>, edges: Edges) {
    function Graph(): Digraph { Adjacent(edges) }
  }

  /** The recorded baseline. `size` is printed, never compared. */
  datatype Baseline = Baseline(members: seq<nat>, size: nat, outsideCount: Option<int>, otherCycles: seq<seq<nat>>)

  function ToSet(s: seq<nat>): set<nat> {
    set v | v in s
  }

  /** `allowed`: the group of the members, then every other recorded cycle. */
  function Allowed(b: Baseline): (groups: seq<set<nat>>)
    ensures |groups| == 1 + |b.otherCycles|
  {
    [ToSet(b.members)] + seq(|b.otherCycles|, i requires 0 <= i < |b.otherCycles| => ToSet(b.otherCycles[i]))
  }

  // ------------------------------------------------------------------ cycles

  /** `v` sits on a cycle: some other module reaches it and is reached from it. */
  ghost predicate OnCycle(g: Digraph, v: nat) {
    exists w :: w != v && Mutual(g, v, w)
  }

  ghost predicate IsCycleList(t: Tree, cyc: seq<seq<nat>>) {
    && (forall c :: c in cyc ==> IsClass(t.Graph(), c) && |c| > 1)
    && (forall v :: Named(t.Graph(), t.names, v) && OnCycle(t.Graph(), v) <==> exists c :: c in cyc && v in c)
    && LargestFirst(cyc)
  }

  function MoreThanOne(comps: seq<seq<nat>>): (r: seq<seq<nat>>)
    ensures forall c :: c in r <==> c in comps && |c| > 1
    ensures LargestFirst(comps) ==> LargestFirst(r)
  {
    if comps == [] then []
    else if |comps[0]| > 1 then [comps[0]] + MoreThanOne(comps[1..])
    else MoreThanOne(comps[1..])
  }

  /** A class holds a second module exactly when its modules are on a cycle. */
  lemma ClassOnCycle(g: Digraph, c: seq<nat>, v: nat)
    requires IsClass(g, c) && v in c
    ensures |c| > 1 <==> OnCycle(g, v)
  {
    if |c| > 1 {
      var w := if c[0] == v then c[1] else c[0];
      assert c[0] in c && c[1] in c;
      assert Mutual(g, v, w) || !Mutual(g, v, w);
    }
    if OnCycle(g, v) {
      var w :| w != v && Mutual(g, v, w);
      assert w in c;
    }
  }

  method Cycles(t: Tree) returns (cyc: seq<seq<nat>>)
    ensures IsCycleList(t, cyc)
  {
    hide Reach, Mutual, IsClass, LargestFirst, OnCycle;
    var comps := Sccs(t.names, t.Graph());
    cyc := MoreThanOne(comps);
    forall v
      ensures Named(t.Graph(), t.names, v) && OnCycle(t.Graph(), v) <==> exists c :: c in cyc && v in c
    {
      if Named(t.Graph(), t.names, v) {
        var c :| c in comps && v in c;
        ClassOnCycle(t.Graph(), c, v);
      }
      forall c | c in cyc && v in c
        ensures Named(t.Graph(), t.names, v) && OnCycle(t.Graph(), v)
      {
        ClassOnCycle(t.Graph(), c, v);
      }
    }
  }

  // ------------------------------------------------------------------ explain and check

  type Edge = (nat, nat)

  datatype Failure =
    | Joined(added: seq<nat>, comp: seq<nat>, closers: seq<Edge>, entries: seq<Edge>)
    | Merged(touched: seq<seq<nat>>, crossings: seq<Edge>)

  datatype Notice =
    | Shrank(left: seq<nat>, gone: seq<nat>)
    | OutsideChanged(now: int, recorded: int)

  /** `[(s, t) for t in targets if keep(s, t)]`. */
  function EdgesTo(s: nat, targets: seq<nat>, keep: (nat, nat) -> bool): (r: seq<Edge>)
    ensures forall a, b :: (a, b) in r <==> a == s && b in targets && keep(a, b)
  {
    if targets == [] then []
    else (if keep(s, targets[0]) then [(s, targets[0])] else []) + EdgesTo(s, targets[1..], keep)
  }

  /** `[(s, t) for s in sources for t in sorted(edges.get(s, {})) if keep(s, t)]`. */
  function EdgesWhere(sources: seq<nat>, g: Digraph, keep: (nat, nat) -> bool): (r: seq<Edge>)
    ensures forall a, b :: (a, b) in r <==> a in sources && b in Succ(g, a) && keep(a, b)
  {
    if sources == [] then []
    else EdgesTo(sources[0], SortedSet(Succ(g, sources[0])), keep) + EdgesWhere(sources[1..], g, keep)
  }

  function Explain(added: seq<nat>, comp: seq<nat>, g: Digraph): Failure {
    var toOld := EdgesWhere(added, g, (s: nat, t: nat) => t in comp && t !in added);
    var closers := if toOld == [] then EdgesWhere(added, g, (s: nat, t: nat) => t in added) else toOld;
    var entries := EdgesWhere(comp, g, (s: nat, t: nat) => s !in added && t in added);
    Joined(added, comp, closers, entries)
  }

  predicate Within(comp: seq<nat>, groups: seq<set<nat>>) {
    exists k :: 0 <= k < |groups| && ToSet(comp) <= groups[k]
  }

  predicate Known(m: nat, groups: seq<set<nat>>) {
    exists k :: 0 <= k < |groups| && m in groups[k]
  }

  predicate Together(s: nat, t: nat, groups: seq<set<nat>>) {
    exists k :: 0 <= k < |groups| && s in groups[k] && t in groups[k]
  }

  function Unknown(comp: seq<nat>, groups: seq<set<nat>>): (r: seq<nat>)
    ensures forall m :: m in r <==> m in comp && !Known(m, groups)
  {
    if comp == [] then []
    else (if Known(comp[0], groups) then [] else [comp[0]]) + Unknown(comp[1..], groups)
  }

  function Touched(comp: seq<nat>, groups: seq<set<nat>>): seq<seq<nat>> {
    if groups == [] then []
    else (if groups[0] * ToSet(comp) != {} then [SortedSet(groups[0])] else []) + Touched(comp, groups[1..])
  }

  /** The references that a merge names. */
  function Crossings(comp: seq<nat>, g: Digraph, groups: seq<set<nat>>): seq<Edge> {
    EdgesWhere(comp, g, (s: nat, t: nat) => t in comp && !Together(s, t, groups))
  }

  /** What one component contributes to `failures`, if anything. */
  function Verdict(comp: seq<nat>, g: Digraph, groups: seq<set<nat>>): Option<Failure> {
    if Within(comp, groups) then None
    else
      var added := Unknown(comp, groups);
      if added != [] then Some(Explain(added, comp, g))
      else Some(Merged(Touched(comp, groups), Crossings(comp, g, groups)))
  }

  /** The failures of a list of cycles, in their order. */
  function Verdicts(cyc: seq<seq<nat>>, g: Digraph, groups: seq<set<nat>>): (r: seq<Failure>)
    ensures r == [] <==> forall c :: c in cyc ==> Within(c, groups)
    ensures forall f :: f in r <==> exists c :: c in cyc && Verdict(c, g, groups) == Some(f)
  {
    if cyc == [] then []
    else
      var rest := Verdicts(cyc[1..], g, groups);
      match Verdict(cyc[0], g, groups)
      case None => rest
      case Some(f) => [f] + rest
  }

  function OnSome(cyc: seq<seq<nat>>): (r: set<nat>)
    ensures forall v :: v in r <==> exists c :: c in cyc && v in c
  {
    if cyc == [] then {} else
      var r := ToSet(cyc[0]) + OnSome(cyc[1..]);
      assert forall v :: v in cyc[0] ==> v in r;
      r
  }

  function SnapshotOf(cyc: seq<seq<nat>>, count: nat): Baseline {
    var members := if cyc == [] then [] else cyc[0];
    Baseline(members, |members|, Some(count - |members|), if cyc == [] then [] else cyc[1..])
  }

  /** `left` of `check`: the recorded members that are on no cycle. */
  function Left(cyc: seq<seq<nat>>, b: Baseline): seq<nat> {
    SortedSet(ToSet(b.members) - OnSome(cyc))
  }

  function Notices(cyc: seq<seq<nat>>, names: seq<nat>, b: Baseline, failures: seq<Failure>): seq<Notice> {
    var left := Left(cyc, b);
    var now := SnapshotOf(cyc, |names|);
    if left != [] then [Shrank(left, SortedSet(set v | v in left && v !in names))]
    else if failures == [] && b.outsideCount.Some? && now.outsideCount != b.outsideCount && now.members == b.members then
      [OutsideChanged(now.outsideCount.value, b.outsideCount.value)]
    else []
  }

  // ------------------------------------------------------------------ the gate, stated on reachability

  /** The group holds everything mutually reachable with `x`. */
  ghost predicate Holds(g: Digraph, group: set<nat>, x: nat) {
    forall y :: Mutual(g, x, y) ==> y in group
  }

  /** Every cycle of the tree lies inside one group of the baseline. */
  ghost predicate Green(t: Tree, b: Baseline) {
    forall x :: Named(t.Graph(), t.names, x) && OnCycle(t.Graph(), x) ==>
      exists k :: 0 <= k < |Allowed(b)| && Holds(t.Graph(), Allowed(b)[k], x)
  }

  lemma ClassHeld(g: Digraph, c: seq<nat>, group: set<nat>, x: nat)
    requires IsClass(g, c) && x in c
    ensures Holds(g, group, x) <==> ToSet(c) <= group
  {
    assert forall y :: y in c <==> Mutual(g, x, y);
    assert forall y :: y in c <==> y in ToSet(c);
  }

  lemma GreenMeansWithin(t: Tree, cyc: seq<seq<nat>>, b: Baseline)
    requires IsCycleList(t, cyc)
    ensures Green(t, b) <==> forall c :: c in cyc ==> Within(c, Allowed(b))
  {
    hide Mutual, IsClass, OnCycle, Holds, Named, LargestFirst;
    var g, groups := t.Graph(), Allowed(b);
    if Green(t, b) {
      forall c | c in cyc ensures Within(c, groups) {
        var x := c[0];
        assert x in c;
        assert Named(g, t.names, x) && OnCycle(g, x);
        var k :| 0 <= k < |groups| && Holds(g, groups[k], x);
        ClassHeld(g, c, groups[k], x);
      }
    }
    if forall c :: c in cyc ==> Within(c, groups) {
      forall x | Named(g, t.names, x) && OnCycle(g, x)
        ensures exists k :: 0 <= k < |groups| && Holds(g, groups[k], x)
      {
        var c :| c in cyc && x in c;
        assert Within(c, groups);
        var k :| 0 <= k < |groups| && ToSet(c) <= groups[k];
        ClassHeld(g, c, groups[k], x);
      }
    }
  }

  /** Any two mutually reachable modules share a group. */
  ghost predicate PairsTogether(g: Digraph, names: seq<nat>, groups: seq<set<nat>>) {
    forall x, y :: Named(g, names, x) && x != y && Mutual(g, x, y) ==> Together(x, y, groups)
  }

  lemma HeldTogether(g: Digraph, groups: seq<set<nat>>, x: nat, k: nat, y: nat)
    requires k < |groups| && Holds(g, groups[k], x) && Mutual(g, x, y)
    ensures Together(x, y, groups)
  {
    ReachRefl(g, x);
    assert Mutual(g, x, x);
  }

  /** Every set of two or more modules, each two of which share a group, lies in one group. */
  ghost predicate PairsCovered(groups: seq<set<nat>>) {
    forall s: set<nat> :: |s| >= 2 && PairwiseTogether(s, groups) ==> Fits(s, groups)
  }

  ghost predicate PairwiseTogether(s: set<nat>, groups: seq<set<nat>>) {
    forall x, y :: x in s && y in s && x != y ==> Together(x, y, groups)
  }

  ghost predicate Fits(group: set<nat>, groups: seq<set<nat>>) {
    exists k :: 0 <= k < |groups| && group <= groups[k]
  }

  /** The modules that `x` is on a cycle with, as a finite set. */
  ghost function Cycle(g: Digraph, x: nat): (s: set<nat>) {
    set y | y in g.Keys && Mutual(g, x, y)
  }

  lemma Companion(g: Digraph, x: nat) returns (w: nat)
    requires OnCycle(g, x)
    ensures w != x && Mutual(g, x, w)
  {
    hide Mutual;
    w :| w != x && Mutual(g, x, w);
  }

  lemma InCycle(g: Digraph, x: nat, y: nat)
    requires OnCycle(g, x) && Mutual(g, x, y)
    ensures y in Cycle(g, x)
  {
    var w := Companion(g, x);
    if y == x { LeadsOn(g, x, w); } else { LeadsOn(g, y, x); }
  }

  lemma LeadsOn(g: Digraph, y: nat, z: nat)
    requires Reach(g, y, z) && y != z
    ensures y in g.Keys
  {
    hide Reach;
    if y !in g.Keys {
      var a, b := Leaves(g, y, z, {y});
    }
  }

  lemma MutualOf(g: Digraph, x: nat, y: nat, z: nat)
    requires Mutual(g, x, y) && Mutual(g, x, z)
    ensures Mutual(g, y, z)
  {
    hide Reach;
    ReachTrans(g, y, x, z);
    ReachTrans(g, z, x, y);
  }

  lemma PairsHeld(g: Digraph, names: seq<nat>, groups: seq<set<nat>>, x: nat)
    requires PairsTogether(g, names, groups) && PairsCovered(groups) && Named(g, names, x) && OnCycle(g, x)
    ensures exists k :: 0 <= k < |groups| && Holds(g, groups[k], x)
  {
    hide Reach, Mutual, PairsCovered, Together;
    var w := Companion(g, x);
    var s := Cycle(g, x);
    SelfMutual(g, x);
    InCycle(g, x, x);
    InCycle(g, x, w);
    assert {x, w} <= s;
    AtLeastTwo(s, x, w);
    forall y, z | y in s && z in s && y != z ensures Together(y, z, groups) {
      MutualOf(g, x, y, z);
      NamedOnward(g, names, x, y);
    }
    CoveredFits(groups, s);
    var k :| 0 <= k < |groups| && s <= groups[k];
    forall y | Mutual(g, x, y) ensures y in groups[k] { InCycle(g, x, y); }
    assert Holds(g, groups[k], x);
  }

  lemma SelfMutual(g: Digraph, x: nat)
    ensures Mutual(g, x, x)
  {
    ReachRefl(g, x);
  }

  lemma AtLeastTwo(s: set<nat>, x: nat, w: nat)
    requires x in s && w in s && x != w
    ensures |s| >= 2
  {
    assert {x, w} <= s;
    assert s == {x, w} + (s - {x, w});
  }

  lemma NamedOnward(g: Digraph, names: seq<nat>, x: nat, y: nat)
    requires Named(g, names, x) && Mutual(g, x, y)
    ensures Named(g, names, y)
  {
    hide Reach;
    var r :| r in names && Reach(g, r, x);
    ReachTrans(g, r, x, y);
  }

  lemma CoveredFits(groups: seq<set<nat>>, s: set<nat>)
    requires PairsCovered(groups) && |s| >= 2 && PairwiseTogether(s, groups)
    ensures Fits(s, groups)
  {
  }

  lemma GreenPairs(t: Tree, b: Baseline)
    requires Green(t, b)
    ensures PairsTogether(t.Graph(), t.names, Allowed(b))
  {
    hide Named, Reach, Mutual, Allowed, Holds, Together;
    var g, groups := t.Graph(), Allowed(b);
    forall x, y | Named(g, t.names, x) && x != y && Mutual(g, x, y)
      ensures Together(x, y, groups)
    {
      var k :| 0 <= k < |groups| && Holds(g, groups[k], x);
      HeldTogether(g, groups, x, k, y);
    }
  }

  lemma PairsGreen(t: Tree, b: Baseline)
    requires PairsCovered(Allowed(b)) && PairsTogether(t.Graph(), t.names, Allowed(b))
    ensures Green(t, b)
  {
    hide Named, Reach, Mutual, PairsCovered, Allowed, Holds, Together;
    var g, groups := t.Graph(), Allowed(b);
    forall x | Named(g, t.names, x) && OnCycle(g, x)
      ensures exists k :: 0 <= k < |groups| && Holds(g, groups[k], x)
    {
      PairsHeld(g, t.names, groups, x);
    }
  }

  /** A tree with this graph. */
  function TreeOf(g: Digraph): Tree {
    Tree(SortedSet(g.Keys), map v | v in g :: map w | w in g[v] :: [Ref("m.rs", 1)])
  }

  lemma TreeOfGraph(g: Digraph)
    ensures TreeOf(g).Graph() == g && forall v :: v in TreeOf(g).names <==> v in g
  {
    var edges := TreeOf(g).edges;
    assert forall v :: v in g ==> edges[v].Keys == g[v];
  }

  /** Every module of `s` names every other. */
  function Complete(s: set<nat>): Digraph {
    map x | x in s :: s - {x}
  }

  lemma CompleteMutual(s: set<nat>, x: nat, y: nat)
    requires x in s && y in s
    ensures Mutual(Complete(s), x, y)
  {
    var g := Complete(s);
    if x == y { ReachRefl(g, x); } else { ReachEdge(g, x, y); ReachEdge(g, y, x); }
  }

  lemma CompleteInside(s: set<nat>, x: nat, y: nat)
    requires x in s && Reach(Complete(s), x, y)
    ensures y in s
  {
    assert Closed(Complete(s), s);
    ClosedReach(Complete(s), s, x, y);
  }

  /** A set whose pairs are covered and that lies in no group is a cycle the gate refuses. */
  lemma UncoveredPairs(b: Baseline, s: set<nat>) returns (t: Tree)
    requires |s| >= 2 && PairwiseTogether(s, Allowed(b)) && !Fits(s, Allowed(b))
    ensures PairsTogether(t.Graph(), t.names, Allowed(b)) && !Green(t, b)
  {
    var g, groups := Complete(s), Allowed(b);
    t := TreeOf(g);
    TreeOfGraph(g);
    hide Reach, Allowed, Together, Fits;
    forall x, y | Named(g, t.names, x) && x != y && Mutual(g, x, y) ensures Together(x, y, groups) {
      var r :| r in t.names && Reach(g, r, x);
      CompleteInside(s, r, x);
      CompleteInside(s, x, y);
    }
    var x :| x in s;
    var w :| w in s - {x} by { assert s != {x} && s - {x} != {}; }
    CompleteMutual(s, x, x);
    CompleteMutual(s, x, w);
    assert Named(g, t.names, x) && OnCycle(g, x);
    forall k | 0 <= k < |groups| ensures !Holds(g, groups[k], x) {
      if Holds(g, groups[k], x) {
        forall y | y in s ensures y in groups[k] { CompleteMutual(s, x, y); }
        NotFits(s, groups, k);
      }
    }
  }

  lemma NotFits(s: set<nat>, groups: seq<set<nat>>, k: nat)
    requires k < |groups| && s <= groups[k]
    ensures Fits(s, groups)
  {
  }

  /** Reading the gate pair by pair is right for every tree exactly when the groups cover every set that they cover pairwise. */
  lemma GreenPairwise(b: Baseline)
    ensures PairsCovered(Allowed(b)) <==> forall t: Tree :: Green(t, b) <==> PairsTogether(t.Graph(), t.names, Allowed(b))
  {
    hide Green, PairsTogether, Allowed, PairwiseTogether, Fits;
    if PairsCovered(Allowed(b)) {
      forall t: Tree ensures Green(t, b) <==> PairsTogether(t.Graph(), t.names, Allowed(b)) {
        if Green(t, b) { GreenPairs(t, b); }
        if PairsTogether(t.Graph(), t.names, Allowed(b)) { PairsGreen(t, b); }
      }
    } else {
      var s: set<nat> :| |s| >= 2 && PairwiseTogether(s, Allowed(b)) && !Fits(s, Allowed(b));
      var t := UncoveredPairs(b, s);
    }
  }

  // ------------------------------------------------------------------ every failure names a witness

  /** A proper part of a class has an edge to the rest of the class. */
  lemma ClassEdge(g: Digraph, c: seq<nat>, part: set<nat>, x: nat, y: nat) returns (a: nat, b: nat)
    requires IsClass(g, c) && x in c && y in c && x in part && y !in part
    ensures a in c && b in c && a in part && b !in part && b in Succ(g, a)
  {
    assert Mutual(g, x, y) || !Mutual(g, x, y);
    a, b := Leaves(g, x, y, part);
    ReachEdge(g, a, b);
    ReachTrans(g, x, a, b);
    ReachTrans(g, b, y, x);
    ReachTrans(g, a, b, y);
    ReachTrans(g, a, y, x);
    assert Mutual(g, x, a) && Mutual(g, x, b);
  }

  /** Every listed pair is an edge from the first set into the second. */
  /** Exactly the edges that lead from one set into the other. */
  ghost predicate EdgesBetween(es: seq<Edge>, g: Digraph, from: set<nat>, to: set<nat>) {
    forall s, t :: (s, t) in es <==> s in from && t in Succ(g, s) && t in to
  }

  /** What a reader of `explain` can rely on. */
  ghost predicate Explained(f: Failure, added: seq<nat>, comp: seq<nat>, g: Digraph) {
    var old_ := ToSet(comp) - ToSet(added);
    && f.Joined? && f.added == added && f.comp == comp
    && f.closers != []
    && EdgesBetween(f.closers, g, ToSet(added), if old_ != {} then old_ else ToSet(added))
    && EdgesBetween(f.entries, g, old_, ToSet(added))
    && (f.entries != [] <==> old_ != {})
  }

  lemma ExplainOld(added: seq<nat>, comp: seq<nat>, g: Digraph, x: nat, m: nat)
    requires IsClass(g, comp) && x in added && x in comp && m in comp && m !in added
    ensures EdgesWhere(added, g, (s: nat, t: nat) => t in comp && t !in added) != []
    ensures EdgesWhere(comp, g, (s: nat, t: nat) => s !in added && t in added) != []
  {
    hide IsClass;
    var a, b := ClassEdge(g, comp, ToSet(added), x, m);
    assert (a, b) in EdgesWhere(added, g, (s: nat, t: nat) => t in comp && t !in added);
    var c, d := ClassEdge(g, comp, ToSet(comp) - ToSet(added), m, x);
    assert (c, d) in EdgesWhere(comp, g, (s: nat, t: nat) => s !in added && t in added);
  }

  lemma ExplainAllNew(added: seq<nat>, comp: seq<nat>, g: Digraph, x: nat, y: nat)
    requires IsClass(g, comp) && x in comp && y in comp && x != y && forall m :: m in comp ==> m in added
    ensures EdgesWhere(added, g, (s: nat, t: nat) => t in added) != []
  {
    hide IsClass;
    var a, b := ClassEdge(g, comp, {x}, x, y);
    assert (a, b) in EdgesWhere(added, g, (s: nat, t: nat) => t in added);
  }

  lemma SecondMember(g: Digraph, comp: seq<nat>, x: nat) returns (y: nat)
    requires IsClass(g, comp) && |comp| > 1
    ensures y in comp && y != x
  {
    y := if comp[0] == x then comp[1] else comp[0];
  }

  lemma NonEmptyEdge(es: seq<Edge>)
    requires es != []
    ensures exists s, t :: (s, t) in es
  {
    assert (es[0].0, es[0].1) in es;
  }

  /** `explain` always lists a reference that closes the cycle, and an entry exactly when there is an old part. */
  lemma ExplainWitness(added: seq<nat>, comp: seq<nat>, g: Digraph)
    requires IsClass(g, comp) && |comp| > 1 && added != [] && forall m :: m in added ==> m in comp
    ensures Explained(Explain(added, comp, g), added, comp, g)
  {
    hide IsClass, EdgesWhere;
    var x := added[0];
    assert x in added;
    var y := SecondMember(g, comp, x);
    if m :| m in comp && m !in added {
      ExplainOld(added, comp, g, x, m);
      assert m in ToSet(comp) - ToSet(added);
    } else {
      ExplainAllNew(added, comp, g, x, y);
      assert ToSet(comp) - ToSet(added) == {};
      var toOld := EdgesWhere(added, g, (s: nat, t: nat) => t in comp && t !in added);
      if toOld != [] { NonEmptyEdge(toOld); }
      var entries := EdgesWhere(comp, g, (s: nat, t: nat) => s !in added && t in added);
      if entries != [] { NonEmptyEdge(entries); }
    }
  }

  /** A reference from one group into another. */
  ghost predicate Crosses(g: Digraph, groups: seq<set<nat>>, s: nat, t: nat) {
    t in Succ(g, s) && exists i, j :: 0 <= i < |groups| && 0 <= j < |groups| && i != j && s in groups[i] && t in groups[j]
  }

  lemma MergeCrosses(comp: seq<nat>, g: Digraph, groups: seq<set<nat>>, s: nat, t: nat)
    requires Unknown(comp, groups) == [] && s in comp && t in comp && t in Succ(g, s) && !Together(s, t, groups)
    ensures Crosses(g, groups, s, t)
  {
    assert s !in Unknown(comp, groups) && t !in Unknown(comp, groups);
    var i :| 0 <= i < |groups| && s in groups[i];
    var j :| 0 <= j < |groups| && t in groups[j];
    assert i != j;
  }

  lemma AnyKnown(g: Digraph, comp: seq<nat>, groups: seq<set<nat>>) returns (x: nat, k: nat)
    requires IsClass(g, comp) && Unknown(comp, groups) == []
    ensures x in comp && k < |groups| && x in groups[k]
  {
    x := comp[0];
    assert x in comp && x !in Unknown(comp, groups);
    k :| 0 <= k < |groups| && x in groups[k];
  }

  /** Any two groups that share a member lie together inside one group. */
  ghost predicate OverlapsContained(groups: seq<set<nat>>) {
    forall i, j :: 0 <= i < |groups| && 0 <= j < |groups| && !(groups[i] !! groups[j]) ==> Fits(groups[i] + groups[j], groups)
  }

  /** Of the first `n` groups that hold `x`, the largest. */
  lemma {:induction false} LargestGroup(groups: seq<set<nat>>, x: nat, n: nat, some: nat) returns (k: nat)
    requires some < n <= |groups| && x in groups[some]
    ensures k < n && x in groups[k] && forall j :: 0 <= j < n && x in groups[j] ==> |groups[j]| <= |groups[k]|
    decreases n
  {
    if exists j :: 0 <= j < n - 1 && x in groups[j] {
      var j: nat :| j < n - 1 && x in groups[j];
      k := LargestGroup(groups, x, n - 1, j);
      if x in groups[n - 1] && |groups[n - 1]| > |groups[k]| { k := n - 1; }
    } else {
      k := some;
    }
  }

  lemma Larger(a: set<nat>, b: set<nat>, x: nat)
    requires a <= b && x in b && x !in a
    ensures |a| < |b|
  {
    assert b == a + (b - a) && x in b - a;
  }

  /** When overlaps are contained, a merge always names a reference, and from one group into another. */
  lemma MergeWitness(comp: seq<nat>, g: Digraph, groups: seq<set<nat>>)
    requires IsClass(g, comp) && !Within(comp, groups) && Unknown(comp, groups) == []
    ensures OverlapsContained(groups) ==> Crossings(comp, g, groups) != []
    ensures forall s, t :: (s, t) in Crossings(comp, g, groups) ==> Crosses(g, groups, s, t)
  {
    hide IsClass, EdgesWhere, Crosses, Unknown, OverlapsContained;
    if OverlapsContained(groups) { MergeNames(comp, g, groups); }
    forall s, t | (s, t) in Crossings(comp, g, groups)
      ensures Crosses(g, groups, s, t)
    {
      MergeCrosses(comp, g, groups, s, t);
    }
  }

  /** The largest group around `x` holds every group that it overlaps. */
  lemma LargestHolds(groups: seq<set<nat>>, x: nat, k: nat, j: nat, a: nat)
    requires OverlapsContained(groups) && k < |groups| && j < |groups| && x in groups[k] && a in groups[k] && a in groups[j]
    requires forall m :: 0 <= m < |groups| && x in groups[m] ==> |groups[m]| <= |groups[k]|
    ensures groups[j] <= groups[k]
  {
    assert a in groups[k] * groups[j];
    assert Fits(groups[k] + groups[j], groups);
    var m :| 0 <= m < |groups| && groups[k] + groups[j] <= groups[m];
    forall b | b in groups[j] ensures b in groups[k] {
      assert b in groups[m];
      if b !in groups[k] { Larger(groups[k], groups[m], b); }
    }
  }

  lemma MergeNames(comp: seq<nat>, g: Digraph, groups: seq<set<nat>>)
    requires IsClass(g, comp) && !Within(comp, groups) && Unknown(comp, groups) == [] && OverlapsContained(groups)
    ensures Crossings(comp, g, groups) != []
  {
    hide IsClass, EdgesWhere, Unknown, OverlapsContained;
    var x, some := AnyKnown(g, comp, groups);
    var k := LargestGroup(groups, x, |groups|, some);
    assert !(ToSet(comp) <= groups[k]);
    var y :| y in ToSet(comp) && y !in groups[k];
    var a, b := ClassEdge(g, comp, groups[k], x, y);
    if Together(a, b, groups) {
      var j :| 0 <= j < |groups| && a in groups[j] && b in groups[j];
      LargestHolds(groups, x, k, j, a);
    }
    assert (a, b) in Crossings(comp, g, groups);
  }

  /** Two groups in full, each module naming every other one of its own group. */
  function TwoGroups(a: set<nat>, b: set<nat>): Digraph {
    map x | x in a + b :: (if x in a then a - {x} else {}) + (if x in b then b - {x} else {})
  }

  lemma TwoGroupsMutual(a: set<nat>, b: set<nat>, v: nat, x: nat)
    requires v in a && v in b && x in a + b
    ensures Mutual(TwoGroups(a, b), v, x)
  {
    var g := TwoGroups(a, b);
    if x == v { ReachRefl(g, x); } else { ReachEdge(g, x, v); ReachEdge(g, v, x); }
  }

  lemma TwoGroupsClass(a: set<nat>, b: set<nat>, v: nat)
    requires v in a && v in b
    ensures IsClass(TwoGroups(a, b), SortedSet(a + b))
  {
    var g, c := TwoGroups(a, b), SortedSet(a + b);
    assert v in c && Closed(g, a + b);
    hide Reach, TwoGroups;
    forall x, y {:trigger Mutual(g, x, y)} | x in c ensures y in c <==> Mutual(g, x, y) {
      TwoGroupsMutual(a, b, v, x);
      if y in c {
        TwoGroupsMutual(a, b, v, y);
        MutualOf(g, v, x, y);
      }
      if Mutual(g, x, y) { ClosedReach(g, a + b, x, y); }
    }
  }

  /** Two groups that overlap, with no group around both, merge without a reference between them. */
  lemma UncontainedOverlap(groups: seq<set<nat>>, i: nat, j: nat, v: nat) returns (g: Digraph, comp: seq<nat>)
    requires i < |groups| && j < |groups| && v in groups[i] && v in groups[j] && !Fits(groups[i] + groups[j], groups)
    ensures IsClass(g, comp) && !Within(comp, groups) && Unknown(comp, groups) == [] && Crossings(comp, g, groups) == []
  {
    var a, b := groups[i], groups[j];
    g, comp := TwoGroups(a, b), SortedSet(a + b);
    TwoGroupsClass(a, b, v);
    NotWithin(comp, a + b, groups);
    hide IsClass, EdgesWhere, Known, Together, TwoGroups, Succ, Within, Unknown, Fits;
    forall x, y | x in comp && y in Succ(g, x) ensures Together(x, y, groups) { TwoGroupsTogether(groups, i, j, x, y); }
    forall x | x in comp ensures Known(x, groups) { TwoGroupsKnown(groups, i, j, x); }
    NothingToName(comp, g, groups);
  }

  lemma NotWithin(comp: seq<nat>, s: set<nat>, groups: seq<set<nat>>)
    requires !Fits(s, groups) && forall x :: x in comp <==> x in s
    ensures !Within(comp, groups)
  {
    assert ToSet(comp) == s;
  }

  lemma NothingToName(comp: seq<nat>, g: Digraph, groups: seq<set<nat>>)
    requires forall x :: x in comp ==> Known(x, groups)
    requires forall x, y :: x in comp && y in Succ(g, x) ==> Together(x, y, groups)
    ensures Unknown(comp, groups) == [] && Crossings(comp, g, groups) == []
  {
    hide EdgesWhere, Known, Together, Succ;
    if Unknown(comp, groups) != [] { assert Unknown(comp, groups)[0] in Unknown(comp, groups); }
    if Crossings(comp, g, groups) != [] { NonEmptyEdge(Crossings(comp, g, groups)); }
  }

  lemma TwoGroupsTogether(groups: seq<set<nat>>, i: nat, j: nat, x: nat, y: nat)
    requires i < |groups| && j < |groups| && y in Succ(TwoGroups(groups[i], groups[j]), x)
    ensures Together(x, y, groups)
  {
    assert (x in groups[i] && y in groups[i]) || (x in groups[j] && y in groups[j]);
  }

  lemma TwoGroupsKnown(groups: seq<set<nat>>, i: nat, j: nat, x: nat)
    requires i < |groups| && j < |groups| && x in groups[i] + groups[j]
    ensures Known(x, groups)
  {
    assert x in groups[i] || x in groups[j];
  }

  /** A class that the baseline knows but has in no one group is reported as a merge. */
  ghost predicate Merges(comp: seq<nat>, g: Digraph, groups: seq<set<nat>>) {
    IsClass(g, comp) && !Within(comp, groups) && Unknown(comp, groups) == []
  }

  /** Every merge of every tree names a reference exactly when groups that overlap lie together inside one. */
  lemma MergesName(groups: seq<set<nat>>)
    ensures OverlapsContained(groups) <==>
      forall t: Tree, comp :: Merges(comp, t.Graph(), groups) ==> Crossings(comp, t.Graph(), groups) != []
  {
    hide IsClass, Unknown, Within, Crossings, Fits;
    if OverlapsContained(groups) {
      forall t: Tree, comp | Merges(comp, t.Graph(), groups) ensures Crossings(comp, t.Graph(), groups) != [] {
        MergeNames(comp, t.Graph(), groups);
      }
    } else {
      var i: nat, j: nat :| i < |groups| && j < |groups| && !(groups[i] !! groups[j]) && !Fits(groups[i] + groups[j], groups);
      var v :| v in groups[i] && v in groups[j];
      var g, comp := UncontainedOverlap(groups, i, j, v);
      TreeOfGraph(g);
      assert Merges(comp, TreeOf(g).Graph(), groups);
    }
  }

  ghost predicate Disjoint(groups: seq<set<nat>>) {
    forall i, j :: 0 <= i < j < |groups| ==> groups[i] !! groups[j]
  }

  lemma OneGroup(groups: seq<set<nat>>, v: nat, i: nat, j: nat)
    requires Disjoint(groups) && i < |groups| && j < |groups| && v in groups[i] && v in groups[j]
    ensures i == j
  {
  }

  /** Disjoint groups, as a snapshot records them, meet both conditions. */
  lemma DisjointGroups(groups: seq<set<nat>>)
    requires Disjoint(groups)
    ensures PairsCovered(groups) && OverlapsContained(groups)
  {
    hide Disjoint;
    forall s: set<nat> | |s| >= 2 && PairwiseTogether(s, groups) ensures Fits(s, groups) {
      var x :| x in s;
      var w :| w in s - {x} by { assert s != {x} && s - {x} != {}; }
      assert Together(x, w, groups);
      var k :| 0 <= k < |groups| && x in groups[k] && w in groups[k];
      forall y | y in s ensures y in groups[k] {
        if y != x {
          assert Together(x, y, groups);
          var j :| 0 <= j < |groups| && x in groups[j] && y in groups[j];
          OneGroup(groups, x, k, j);
        }
      }
    }
    forall i, j | 0 <= i < |groups| && 0 <= j < |groups| && !(groups[i] !! groups[j])
      ensures Fits(groups[i] + groups[j], groups)
    {
      var v :| v in groups[i] && v in groups[j];
      OneGroup(groups, v, i, j);
      assert groups[i] + groups[j] <= groups[i];
    }
  }

  /** A baseline that meets neither condition: a triangle covered pairwise by three overlapping groups. */
  function Triangle(): Tree {
    var ref := [Ref("m.rs", 1)];
    Tree([0, 1, 2], map[0 := map[1 := ref], 1 := map[2 := ref], 2 := map[0 := ref]])
  }

  function Overlapping(): Baseline { Baseline([0, 1], 2, Some(1), [[1, 2], [0, 2]]) }

  lemma TriangleIsClass(x: nat, y: nat)
    requires x < 3 && y < 3
    ensures Mutual(Triangle().Graph(), x, y)
  {
    var g := Triangle().Graph();
    assert 1 in Succ(g, 0) && 2 in Succ(g, 1) && 0 in Succ(g, 2);
    hide Reach, Triangle, Tree.Graph;
    ReachEdge(g, 0, 1);
    ReachEdge(g, 1, 2);
    ReachEdge(g, 2, 0);
    ReachTrans(g, 0, 1, 2);
    ReachTrans(g, 1, 2, 0);
    ReachTrans(g, 2, 0, 1);
    ReachRefl(g, x);
  }

  lemma TriangleGroups()
    ensures var groups := Allowed(Overlapping());
      |groups| == 3 && groups[0] == {0, 1} && groups[1] == {1, 2} && groups[2] == {0, 2}
  {
  }

  lemma TriangleNotGreen()
    ensures !Green(Triangle(), Overlapping())
  {
    var t, groups := Triangle(), Allowed(Overlapping());
    TriangleGroups();
    hide Reach, Allowed;
    TriangleIsClass(0, 0);
    TriangleIsClass(0, 1);
    TriangleIsClass(0, 2);
    assert 0 in t.names && Named(t.Graph(), t.names, 0) && OnCycle(t.Graph(), 0);
    forall k | 0 <= k < |groups|
      ensures !Holds(t.Graph(), groups[k], 0)
    {
    }
  }

  lemma TrianglePairs()
    ensures PairsTogether(Triangle().Graph(), Triangle().names, Allowed(Overlapping()))
  {
    var t, groups := Triangle(), Allowed(Overlapping());
    var g := t.Graph();
    TriangleGroups();
    hide Allowed;
    assert Closed(g, {0, 1, 2});
    forall x, y | Named(g, t.names, x) && x != y && Mutual(g, x, y)
      ensures Together(x, y, groups)
    {
      var r :| r in t.names && Reach(g, r, x);
      ClosedReach(g, {0, 1, 2}, r, x);
      ClosedReach(g, {0, 1, 2}, x, y);
      assert {x, y} <= groups[0] || {x, y} <= groups[1] || {x, y} <= groups[2];
    }
  }

  lemma OverlapTogether(groups: seq<set<nat>>, s: nat, t: nat)
    requires |groups| == 3 && groups[0] == {0, 1} && groups[1] == {1, 2} && groups[2] == {0, 2}
    requires s < 3 && t < 3
    ensures Together(s, t, groups) && Known(s, groups)
  {
    assert {s, t} <= groups[0] || {s, t} <= groups[1] || {s, t} <= groups[2];
  }

  lemma OverlapVerdict(g: Digraph, groups: seq<set<nat>>)
    requires |groups| == 3 && groups[0] == {0, 1} && groups[1] == {1, 2} && groups[2] == {0, 2}
    ensures !Within([0, 1, 2], groups) && Unknown([0, 1, 2], groups) == []
    ensures Crossings([0, 1, 2], g, groups) == []
  {
    hide EdgesWhere, Unknown, Together, Known;
    var comp := [0, 1, 2];
    var unknown := Unknown(comp, groups);
    assert unknown == [] || unknown[0] in unknown;
    assert 0 in ToSet(comp) && 1 in ToSet(comp) && 2 in ToSet(comp);
    forall s, t | s in comp && t in comp
      ensures Together(s, t, groups) && Known(s, groups)
    {
      OverlapTogether(groups, s, t);
    }
    var crossings := Crossings(comp, g, groups);
    if crossings != [] { NonEmptyEdge(crossings); }
  }

  /** The pairwise reading holds, yet `check` fails, and its merge names no reference at all. */
  lemma OverlapBreaksPairs()
    ensures PairsTogether(Triangle().Graph(), Triangle().names, Allowed(Overlapping()))
    ensures !Green(Triangle(), Overlapping())
    ensures var f := Verdict([0, 1, 2], Triangle().Graph(), Allowed(Overlapping()));
      f.Some? && f.value.Merged? && f.value.crossings == []
  {
    hide PairsTogether, Green, Allowed, Touched, EdgesWhere, Unknown, Within;
    TrianglePairs();
    TriangleNotGreen();
    TriangleGroups();
    OverlapVerdict(Triangle().Graph(), Allowed(Overlapping()));
  }

  // ------------------------------------------------------------------ snapshot, check and the ratchet

  /** The largest cycle, how many modules are not on it, and the other cycles. */
  ghost predicate Records(t: Tree, b: Baseline) {
    && IsCycleList(t, (if b.members == [] then [] else [b.members]) + b.otherCycles)
    && (b.members == [] ==> b.otherCycles == [])
    && b.size == |b.members| && b.outsideCount == Some(|t.names| - |b.members|)
  }

  /** There is one list of the cycles of a tree. */
  lemma CycleListUnique(t: Tree, a: seq<seq<nat>>, b: seq<seq<nat>>)
    requires IsCycleList(t, a) && IsCycleList(t, b)
    ensures a == b
  {
    hide IsClass, OnCycle, Named, LargestFirst;
    forall c ensures c in a <==> c in b {
      if c in a { CycleListCovers(t, a, b, c); }
      if c in b { CycleListCovers(t, b, a, c); }
    }
    LargestFirstUnique(a, b);
  }

  lemma CycleListCovers(t: Tree, a: seq<seq<nat>>, b: seq<seq<nat>>, c: seq<nat>)
    requires IsCycleList(t, a) && IsCycleList(t, b) && c in a
    ensures c in b
  {
    hide OnCycle, Named, LargestFirst, Mutual;
    var v := c[0];
    assert v in c;
    assert Named(t.Graph(), t.names, v) && OnCycle(t.Graph(), v);
    var d :| d in b && v in d;
    SameClass(t.Graph(), c, d, v);
  }

  /** A snapshot is what the tree's cycles make it, and there is only one. */
  lemma SnapshotRecords(t: Tree, b: Baseline)
    ensures IsSnapshot(t, b) <==> Records(t, b)
  {
    hide LargestFirst, OnCycle, Named;
    if cyc :| IsCycleList(t, cyc) && b == SnapshotOf(cyc, |t.names|) {
      assert (if b.members == [] then [] else [b.members]) + b.otherCycles == cyc;
    }
    if Records(t, b) {
      var cyc := (if b.members == [] then [] else [b.members]) + b.otherCycles;
      assert cyc != [] ==> cyc[0] == b.members && cyc[1..] == b.otherCycles;
      assert b == SnapshotOf(cyc, |t.names|);
    }
  }

  ghost predicate IsSnapshot(t: Tree, b: Baseline) {
    exists cyc :: IsCycleList(t, cyc) && b == SnapshotOf(cyc, |t.names|)
  }

  method Snapshot(t: Tree) returns (b: Baseline)
    ensures IsSnapshot(t, b) && Records(t, b)
  {
    var cyc := Cycles(t);
    b := SnapshotOf(cyc, |t.names|);
    SnapshotRecords(t, b);
  }

  /** The recorded groups of a snapshot are its cycles, and possibly one empty group. */
  lemma SnapshotGroups(cyc: seq<seq<nat>>, count: nat)
    ensures var groups := Allowed(SnapshotOf(cyc, count));
      && (forall c :: c in cyc ==> Within(c, groups))
      && forall k :: 0 <= k < |groups| ==> groups[k] == {} || exists c :: c in cyc && groups[k] == ToSet(c)
  {
    var b := SnapshotOf(cyc, count);
    var groups := Allowed(b);
    forall c | c in cyc
      ensures Within(c, groups)
    {
      var i :| 0 <= i < |cyc| && cyc[i] == c;
      assert groups[i] == ToSet(c);
    }
    forall k | 0 <= k < |groups|
      ensures groups[k] == {} || exists c :: c in cyc && groups[k] == ToSet(c)
    {
      if cyc != [] {
        assert groups[k] == ToSet(cyc[k]);
      } else {
        assert groups[k] == {};
      }
    }
  }

  /** A tree is always green against its own snapshot. */
  lemma OwnSnapshotGreen(t: Tree, b: Baseline)
    requires IsSnapshot(t, b)
    ensures Green(t, b)
  {
    hide Green, IsCycleList;
    var cyc :| IsCycleList(t, cyc) && b == SnapshotOf(cyc, |t.names|);
    SnapshotGroups(cyc, |t.names|);
    GreenMeansWithin(t, cyc, b);
  }

  /** `a` records nothing that `b` does not already allow. */
  ghost predicate Narrower(a: Baseline, b: Baseline) {
    forall k :: 0 <= k < |Allowed(a)| ==> Fits(Allowed(a)[k], Allowed(b))
  }

  lemma SnapshotNarrower(t: Tree, b: Baseline, next: Baseline)
    requires Green(t, b) && IsSnapshot(t, next)
    ensures Narrower(next, b)
  {
    hide Green, IsCycleList, Allowed;
    var cyc :| IsCycleList(t, cyc) && next == SnapshotOf(cyc, |t.names|);
    SnapshotGroups(cyc, |t.names|);
    GreenMeansWithin(t, cyc, b);
    forall k | 0 <= k < |Allowed(next)|
      ensures Fits(Allowed(next)[k], Allowed(b))
    {
      if Allowed(next)[k] == {} {
        assert Allowed(next)[k] <= Allowed(b)[0];
      } else {
        var c :| c in cyc && Allowed(next)[k] == ToSet(c);
        assert Within(c, Allowed(b));
        assert Fits(ToSet(c), Allowed(b));
      }
    }
  }

  lemma NarrowerGreen(t: Tree, a: Baseline, b: Baseline)
    requires Narrower(a, b) && Green(t, a)
    ensures Green(t, b)
  {
    hide Allowed, Mutual, OnCycle, Named;
    forall x | Named(t.Graph(), t.names, x) && OnCycle(t.Graph(), x)
      ensures exists j :: 0 <= j < |Allowed(b)| && Holds(t.Graph(), Allowed(b)[j], x)
    {
      var k :| 0 <= k < |Allowed(a)| && Holds(t.Graph(), Allowed(a)[k], x);
      assert Fits(Allowed(a)[k], Allowed(b));
      var j :| 0 <= j < |Allowed(b)| && Allowed(a)[k] <= Allowed(b)[j];
      assert Holds(t.Graph(), Allowed(b)[j], x);
    }
  }

  lemma NarrowerTrans(a: Baseline, b: Baseline, c: Baseline)
    requires Narrower(a, b) && Narrower(b, c)
    ensures Narrower(a, c)
  {
    hide Allowed;
    forall k | 0 <= k < |Allowed(a)|
      ensures Fits(Allowed(a)[k], Allowed(c))
    {
      assert Fits(Allowed(a)[k], Allowed(b));
      var i :| 0 <= i < |Allowed(b)| && Allowed(a)[k] <= Allowed(b)[i];
      assert Fits(Allowed(b)[i], Allowed(c));
      var j :| 0 <= j < |Allowed(c)| && Allowed(b)[i] <= Allowed(c)[j];
      assert Allowed(a)[k] <= Allowed(c)[j];
    }
  }

  /** Trees checked in turn; after a green check the baseline may be replaced by that tree's snapshot. */
  ghost predicate History(trees: seq<Tree>, bases: seq<Baseline>) {
    && |bases| == |trees| + 1
    && forall i :: 0 <= i < |trees| ==>
         Green(trees[i], bases[i]) && (bases[i + 1] == bases[i] || IsSnapshot(trees[i], bases[i + 1]))
  }

  lemma {:induction false} BasesNarrow(trees: seq<Tree>, bases: seq<Baseline>, i: nat)
    requires History(trees, bases) && i < |bases|
    ensures Narrower(bases[i], bases[0])
    decreases i
  {
    hide Green, IsSnapshot, Allowed;
    if i == 0 {
      assert forall k :: 0 <= k < |Allowed(bases[0])| ==> Fits(Allowed(bases[0])[k], Allowed(bases[0]));
    } else {
      BasesNarrow(trees, bases, i - 1);
      assert Green(trees[i - 1], bases[i - 1]);
      if bases[i] != bases[i - 1] {
        SnapshotNarrower(trees[i - 1], bases[i - 1], bases[i]);
        NarrowerTrans(bases[i], bases[i - 1], bases[0]);
      }
    }
  }

  /** The ratchet: no tree of such a history ever has a cycle outside the first baseline's groups. */
  lemma Ratchet(trees: seq<Tree>, bases: seq<Baseline>, i: nat)
    requires History(trees, bases) && i < |trees|
    ensures Green(trees[i], bases[0])
  {
    BasesNarrow(trees, bases, i);
    NarrowerGreen(trees[i], bases[i], bases[0]);
  }

  // ------------------------------------------------------------------ check itself

  /** What a failure says is true of the tree, and names the references to look at. */
  ghost predicate Justified(f: Failure, t: Tree, b: Baseline) {
    exists comp :: IsClass(t.Graph(), comp) && |comp| > 1 && Named(t.Graph(), t.names, comp[0])
                && !Within(comp, Allowed(b)) && Describes(f, comp, t.Graph(), Allowed(b))
  }

  ghost predicate Describes(f: Failure, comp: seq<nat>, g: Digraph, groups: seq<set<nat>>) {
    if Unknown(comp, groups) != [] then Explained(f, Unknown(comp, groups), comp, g)
    else
      && f.Merged? && Meets(f.touched, comp, groups)
      && (OverlapsContained(groups) ==> f.crossings != [])
      && (forall s, t :: (s, t) in f.crossings ==> Crosses(g, groups, s, t))
      && forall s, t :: (s, t) in f.crossings <==> s in comp && t in comp && t in Succ(g, s) && !Together(s, t, groups)
  }

  /** The groups that hold a member of `comp`, in their order, each sorted. */
  ghost predicate Meets(touched: seq<seq<nat>>, comp: seq<nat>, groups: seq<set<nat>>) {
    exists ks: seq<nat> :: MeetsAt(touched, comp, groups, ks)
  }

  ghost predicate Meet(group: set<nat>, comp: seq<nat>) {
    exists m :: m in comp && m in group
  }

  ghost predicate MeetsAt(touched: seq<seq<nat>>, comp: seq<nat>, groups: seq<set<nat>>, ks: seq<nat>) {
    && |ks| == |touched| && StrictlyAscending(ks)
    && (forall k: nat :: k in ks <==> k < |groups| && Meet(groups[k], comp))
    && forall j :: 0 <= j < |ks| ==> ks[j] < |groups| && IsSorted(touched[j], groups[ks[j]])
  }

  ghost predicate IsSorted(s: seq<nat>, group: set<nat>) {
    StrictlyAscending(s) && forall m :: m in s <==> m in group
  }

  lemma MeetIs(group: set<nat>, comp: seq<nat>)
    ensures group * ToSet(comp) != {} <==> Meet(group, comp)
  {
    if m :| m in comp && m in group { assert m in group * ToSet(comp); }
    if group * ToSet(comp) != {} {
      var m :| m in group * ToSet(comp);
      assert m in comp;
    }
  }

  lemma {:induction false} TouchedMeets(comp: seq<nat>, groups: seq<set<nat>>) returns (ks: seq<nat>)
    ensures MeetsAt(Touched(comp, groups), comp, groups, ks)
    decreases |groups|
  {
    if groups == [] {
      ks := [];
    } else {
      MeetIs(groups[0], comp);
      var rest := TouchedMeets(comp, groups[1..]);
      var shifted: seq<nat> := seq(|rest|, j requires 0 <= j < |rest| => rest[j] + 1);
      var touched := Touched(comp, groups[1..]);
      ShiftedMeets(comp, groups, touched, rest, shifted);
      hide Meet, MeetsAt, StrictlyAscending, IsSorted;
      if Meet(groups[0], comp) {
        AddMeet(comp, groups, touched, shifted);
        ks := [0] + shifted;
      } else {
        SkipMeet(comp, groups, touched, shifted);
        assert [] + touched == touched;
        ks := shifted;
      }
    }
  }

  lemma AddMeet(comp: seq<nat>, groups: seq<set<nat>>, touched: seq<seq<nat>>, shifted: seq<nat>)
    requires groups != [] && Meet(groups[0], comp) && |shifted| == |touched| && StrictlyAscending(shifted)
    requires forall k: nat :: k in shifted <==> 0 < k < |groups| && Meet(groups[k], comp)
    requires forall j :: 0 <= j < |shifted| ==> 0 < shifted[j] < |groups| && IsSorted(touched[j], groups[shifted[j]])
    ensures MeetsAt([SortedSet(groups[0])] + touched, comp, groups, [0] + shifted)
  {
    assert IsSorted(SortedSet(groups[0]), groups[0]);
    hide Meet, IsSorted, SortedSet;
    var ks: seq<nat> := [0] + shifted;
    assert forall k: nat :: k in ks <==> k == 0 || k in shifted;
  }

  lemma SkipMeet(comp: seq<nat>, groups: seq<set<nat>>, touched: seq<seq<nat>>, shifted: seq<nat>)
    requires groups != [] && !Meet(groups[0], comp) && |shifted| == |touched| && StrictlyAscending(shifted)
    requires forall k: nat :: k in shifted <==> 0 < k < |groups| && Meet(groups[k], comp)
    requires forall j :: 0 <= j < |shifted| ==> 0 < shifted[j] < |groups| && IsSorted(touched[j], groups[shifted[j]])
    ensures MeetsAt(touched, comp, groups, shifted)
  {
    hide Meet, IsSorted;
  }

  lemma ShiftedMeets(comp: seq<nat>, groups: seq<set<nat>>, touched: seq<seq<nat>>, rest: seq<nat>, shifted: seq<nat>)
    requires groups != [] && MeetsAt(touched, comp, groups[1..], rest)
    requires |shifted| == |rest| && forall j :: 0 <= j < |rest| ==> shifted[j] == rest[j] + 1
    ensures |shifted| == |touched| && StrictlyAscending(shifted)
    ensures forall k: nat :: k in shifted <==> 0 < k < |groups| && Meet(groups[k], comp)
    ensures forall j :: 0 <= j < |shifted| ==> 0 < shifted[j] < |groups| && IsSorted(touched[j], groups[shifted[j]])
  {
    ShiftedIn(rest, shifted);
    hide Meet, IsSorted;
    assert forall k: nat :: 0 < k < |groups| ==> groups[k] == groups[1..][k - 1];
  }

  lemma ShiftedIn(rest: seq<nat>, shifted: seq<nat>)
    requires |shifted| == |rest| && forall j :: 0 <= j < |rest| ==> shifted[j] == rest[j] + 1
    ensures forall k: nat :: k in shifted <==> k > 0 && (k - 1) as nat in rest
  {
    forall k: nat | k > 0 && (k - 1) as nat in rest ensures k in shifted {
      var j :| 0 <= j < |rest| && rest[j] == k - 1;
      assert shifted[j] == k;
    }
  }

  lemma VerdictDescribes(comp: seq<nat>, g: Digraph, groups: seq<set<nat>>)
    requires IsClass(g, comp) && |comp| > 1 && !Within(comp, groups)
    ensures Verdict(comp, g, groups).Some? && Describes(Verdict(comp, g, groups).value, comp, g, groups)
  {
    hide IsClass, Within, Explained, Crosses, OverlapsContained, EdgesWhere, Touched, Known;
    var unknown := Unknown(comp, groups);
    if unknown != [] {
      ExplainWitness(unknown, comp, g);
    } else {
      MergeWitness(comp, g, groups);
      var ks := TouchedMeets(comp, groups);
    }
  }

  lemma VerdictsJustified(t: Tree, b: Baseline, cyc: seq<seq<nat>>)
    requires IsCycleList(t, cyc)
    ensures forall f :: f in Verdicts(cyc, t.Graph(), Allowed(b)) ==> Justified(f, t, b)
  {
    hide Allowed, IsClass, Within, Describes, Verdict;
    var g, groups := t.Graph(), Allowed(b);
    forall f | f in Verdicts(cyc, g, groups)
      ensures Justified(f, t, b)
    {
      var c :| c in cyc && Verdict(c, g, groups) == Some(f);
      SomeVerdict(c, g, groups, f);
      VerdictDescribes(c, g, groups);
      assert c[0] in c;
    }
  }

  lemma SomeVerdict(c: seq<nat>, g: Digraph, groups: seq<set<nat>>, f: Failure)
    requires Verdict(c, g, groups) == Some(f)
    ensures !Within(c, groups)
  {
  }

  lemma {:induction false} VerdictsAppend(cyc: seq<seq<nat>>, c: seq<nat>, g: Digraph, groups: seq<set<nat>>)
    ensures Verdicts(cyc + [c], g, groups)
         == Verdicts(cyc, g, groups) + (match Verdict(c, g, groups) case None => [] case Some(f) => [f])
  {
    hide Verdict;
    if cyc == [] {
      assert cyc + [c] == [c];
    } else {
      assert (cyc + [c])[1..] == cyc[1..] + [c];
      VerdictsAppend(cyc[1..], c, g, groups);
    }
  }

  /** A baseline member is reported as having left exactly when it is on no cycle any more. */
  ghost predicate Noticed(notices: seq<Notice>, t: Tree, b: Baseline) {
    var stayed := forall v :: v in b.members ==> Named(t.Graph(), t.names, v) && OnCycle(t.Graph(), v);
    && |notices| <= 1 && (stayed <==> forall n :: n in notices ==> n.OutsideChanged?)
    && (forall now, was :: OutsideChanged(now, was) in notices <==> stayed && Green(t, b) && CountMoved(t, b, now, was))
    && forall n :: n in notices && n.Shrank? ==>
         && (forall v :: v in n.left <==> v in b.members && !(Named(t.Graph(), t.names, v) && OnCycle(t.Graph(), v)))
         && (forall v :: v in n.gone <==> v in n.left && v !in t.names)
  }

  /** The recorded members are those of the tree, but the modules not among them number differently. */
  ghost predicate CountMoved(t: Tree, b: Baseline, now: int, was: int) {
    b.outsideCount == Some(was) && now != was && exists s :: Records(t, s) && s.members == b.members && s.outsideCount == Some(now)
  }

  lemma CountMovedIs(t: Tree, b: Baseline, cyc: seq<seq<nat>>, now: int, was: int)
    requires IsCycleList(t, cyc)
    ensures var s := SnapshotOf(cyc, |t.names|);
      CountMoved(t, b, now, was) <==> b.outsideCount == Some(was) && now != was && s.members == b.members && s.outsideCount == Some(now)
  {
    hide IsCycleList;
    var s := SnapshotOf(cyc, |t.names|);
    assert IsSnapshot(t, s);
    SnapshotRecords(t, s);
    if s' :| Records(t, s') && s'.members == b.members && s'.outsideCount == Some(now) {
      SnapshotRecords(t, s');
      var cyc' :| IsCycleList(t, cyc') && s' == SnapshotOf(cyc', |t.names|);
      CycleListUnique(t, cyc, cyc');
    }
  }

  lemma LeftMeans(t: Tree, b: Baseline, cyc: seq<seq<nat>>, v: nat)
    requires IsCycleList(t, cyc)
    ensures v in Left(cyc, b) <==> v in b.members && !(Named(t.Graph(), t.names, v) && OnCycle(t.Graph(), v))
  {
    hide Named, OnCycle, IsClass, LargestFirst, StrictlyAscending;
    assert v in Left(cyc, b) <==> v in ToSet(b.members) - OnSome(cyc);
  }

  lemma NoticesTrue(t: Tree, b: Baseline, cyc: seq<seq<nat>>, failures: seq<Failure>)
    requires IsCycleList(t, cyc) && (failures == [] <==> Green(t, b))
    ensures Noticed(Notices(cyc, t.names, b, failures), t, b)
  {
    hide Named, OnCycle, IsCycleList, StrictlyAscending, Left, CountMoved, SnapshotOf, Green;
    var left := Left(cyc, b);
    assert left == [] || left[0] in left;
    forall v
      ensures v in left <==> v in b.members && !(Named(t.Graph(), t.names, v) && OnCycle(t.Graph(), v))
    {
      LeftMeans(t, b, cyc, v);
    }
    forall now, was ensures CountMoved(t, b, now, was) <==>
      var s := SnapshotOf(cyc, |t.names|);
      b.outsideCount == Some(was) && now != was && s.members == b.members && s.outsideCount == Some(now)
    {
      CountMovedIs(t, b, cyc, now, was);
    }
    SnapshotCounts(cyc, |t.names|);
    var notices := Notices(cyc, t.names, b, failures);
    if left != [] {
      assert notices == [Shrank(left, SortedSet(set v | v in left && v !in t.names))];
      assert notices[0] in notices && notices[0].Shrank?;
    } else {
      assert forall n :: n in notices ==> n.OutsideChanged?;
    }
  }

  lemma SnapshotCounts(cyc: seq<seq<nat>>, count: nat)
    ensures SnapshotOf(cyc, count).outsideCount.Some?
  {
  }

  method Check(t: Tree, b: Baseline) returns (failures: seq<Failure>, notices: seq<Notice>)
    ensures failures == [] <==> Green(t, b)
    ensures forall f :: f in failures ==> Justified(f, t, b)
    ensures Noticed(notices, t, b)
    ensures exists cyc :: IsCycleList(t, cyc) && failures == Verdicts(cyc, t.Graph(), Allowed(b))
                       && notices == Notices(cyc, t.names, b, failures)
  {
    hide IsCycleList, Green, Justified, Noticed, Allowed, Within, Notices, Verdicts, Explain, Touched, EdgesWhere, Unknown, Known, Together, Adjacent;
    var groups := Allowed(b);
    var g := t.Graph();
    var cyc := Cycles(t);
    failures := [];
    var i := 0;
    assert cyc[..0] == [];
    while i < |cyc|
      invariant 0 <= i <= |cyc|
      invariant failures == Verdicts(cyc[..i], g, groups)
    {
      var comp := cyc[i];
      assert cyc[..i + 1] == cyc[..i] + [comp];
      VerdictsAppend(cyc[..i], comp, g, groups);
      i := i + 1;
      if Within(comp, groups) {
        continue;
      }
      var added := Unknown(comp, groups);
      if added != [] {
        failures := failures + [Explain(added, comp, g)];
      } else {
        failures := failures
          + [Merged(Touched(comp, groups), EdgesWhere(comp, g, (s: nat, t: nat) => t in comp && !Together(s, t, groups)))];
      }
    }
    assert cyc[..i] == cyc;
    notices := Notices(cyc, t.names, b, failures);
    GreenMeansWithin(t, cyc, b);
    VerdictsJustified(t, b, cyc);
    NoticesTrue(t, b, cyc, failures);
  }
}
