/** The closure at the end of `report` in ci/check-module-layers.py: which layers can become a crate. */
module Readiness {
  import opened Options
  import opened Graph
  import opened L = Layers

  /** The `uses` lists as a graph; a name that is no layer has no successors. */
  function UsesGraph(uses: map<Layer, seq<Layer>>): map<Layer, set<Layer>> {
    map l | l in uses :: set u | u in uses[l]
  }

  /** No layer that `l` uses, directly or not, is held up. */
  ghost predicate Extractable(uses: map<Layer, seq<Layer>>, held: set<Layer>, l: Layer) {
    forall y :: Reach(UsesGraph(uses), l, y) ==> y !in held
  }

  /** Whatever lies below a ready layer is ready. */
  lemma ExtractableBelow(uses: map<Layer, seq<Layer>>, held: set<Layer>, l: Layer, b: Layer)
    requires Extractable(uses, held, l) && Reach(UsesGraph(uses), l, b)
    ensures Extractable(uses, held, b)
  {
    hide Reach;
    var g := UsesGraph(uses);
    forall y | Reach(g, b, y) ensures y !in held {
      ReachTrans(g, l, b, y);
    }
  }

  // ------------------------------------------------------------------ the worklist

  function Names(uses: map<Layer, seq<Layer>>): set<Layer> {
    set l, u | l in uses && u in uses[l] :: u
  }

  /** Layers seen so far are reached; those not pending have their own `uses` seen. */
  ghost predicate Walking(uses: map<Layer, seq<Layer>>, layer: Layer, below: set<Layer>, pending: seq<Layer>) {
    var g, seen := UsesGraph(uses), below + {layer};
    && (forall x :: x in pending ==> x in seen)
    && (forall x :: x in seen ==> Reach(g, layer, x))
    && (forall x :: x in seen && x !in pending ==> x in uses && Succ(g, x) <= seen)
    && below <= Names(uses)
  }

  /** `at` was popped and the first `k` names it uses were looked at. */
  ghost predicate Looking(uses: map<Layer, seq<Layer>>, layer: Layer, below: set<Layer>, pending: seq<Layer>, at: Layer, k: nat)
    requires at in uses && k <= |uses[at]|
  {
    var g, seen := UsesGraph(uses), below + {layer};
    && at in seen
    && (forall x :: x in pending ==> x in seen)
    && (forall x :: x in seen ==> Reach(g, layer, x))
    && (forall x :: x in seen && x !in pending && x != at ==> x in uses && Succ(g, x) <= seen)
    && (forall j :: 0 <= j < k ==> uses[at][j] in below)
    && below <= Names(uses)
  }

  lemma Start(uses: map<Layer, seq<Layer>>, layer: Layer)
    ensures Walking(uses, layer, {}, [layer])
  {
    ReachRefl(UsesGraph(uses), layer);
  }

  lemma Popped(uses: map<Layer, seq<Layer>>, layer: Layer, below: set<Layer>, pending: seq<Layer>)
    requires Walking(uses, layer, below, pending) && pending != []
    ensures Reach(UsesGraph(uses), layer, pending[|pending| - 1])
    ensures pending[|pending| - 1] in uses ==> Looking(uses, layer, below, pending[..|pending| - 1], pending[|pending| - 1], 0)
  {
    hide Reach;
    var at := pending[|pending| - 1];
    assert at in pending && pending == pending[..|pending| - 1] + [at];
  }

  lemma Looked(uses: map<Layer, seq<Layer>>, layer: Layer, below: set<Layer>, pending: seq<Layer>, at: Layer, k: nat)
    requires at in uses && k < |uses[at]| && Looking(uses, layer, below, pending, at, k)
    ensures var used := uses[at][k];
      if used in below then Looking(uses, layer, below, pending, at, k + 1)
      else Looking(uses, layer, below + {used}, pending + [used], at, k + 1)
  {
    var g, used := UsesGraph(uses), uses[at][k];
    assert used in Succ(g, at) && used in Names(uses);
    hide Reach, UsesGraph, Names, Succ;
    if used !in below {
      ReachEdge(g, at, used);
      ReachTrans(g, layer, at, used);
      var below', pending' := below + {used}, pending + [used];
      assert forall x :: x in pending' <==> x in pending || x == used;
      assert below + {layer} <= below' + {layer};
    }
  }

  lemma Finished(uses: map<Layer, seq<Layer>>, layer: Layer, below: set<Layer>, pending: seq<Layer>, at: Layer)
    requires at in uses && Looking(uses, layer, below, pending, at, |uses[at]|)
    ensures Walking(uses, layer, below, pending)
  {
    hide Reach;
    assert Succ(UsesGraph(uses), at) <= below;
  }

  lemma Done(uses: map<Layer, seq<Layer>>, layer: Layer, below: set<Layer>)
    requires Walking(uses, layer, below, [])
    ensures forall y :: y in below + {layer} <==> Reach(UsesGraph(uses), layer, y)
    ensures below + {layer} <= uses.Keys
  {
    hide Reach;
    var g, seen := UsesGraph(uses), below + {layer};
    forall y | Reach(g, layer, y) ensures y in seen {
      ClosedReach(g, seen, layer, y);
    }
  }

  lemma Within(uses: map<Layer, seq<Layer>>, layer: Layer, below: set<Layer>, pending: seq<Layer>)
    requires Walking(uses, layer, below, pending)
    ensures below <= Names(uses)
  {
  }

  /** Every layer below `layer`; `known` is false when a name that is no layer comes up, where the source raises. */
  method Below(uses: map<Layer, seq<Layer>>, layer: Layer) returns (known: bool, below: set<Layer>)
    ensures known <==> forall y :: Reach(UsesGraph(uses), layer, y) ==> y in uses
    ensures known ==> forall y :: y in below + {layer} <==> Reach(UsesGraph(uses), layer, y)
  {
    hide *;
    below := {};
    var pending := [layer];
    Start(uses, layer);
    while pending != []
      invariant Walking(uses, layer, below, pending)
      decreases Names(uses) - below, |pending|
    {
      var at := pending[|pending| - 1];
      Popped(uses, layer, below, pending);
      if at !in uses {
        return false, below;
      }
      pending := pending[..|pending| - 1];
      ghost var was, length := below, |pending|;
      for k := 0 to |uses[at]|
        invariant Looking(uses, layer, below, pending, at, k)
        invariant was <= below && (below == was ==> |pending| == length)
      {
        Looked(uses, layer, below, pending, at, k);
        var used := uses[at][k];
        if used !in below {
          below := below + {used};
          pending := pending + [used];
        }
      }
      Finished(uses, layer, below, pending, at);
      Within(uses, layer, below, pending);
      assert below == was || Names(uses) - below < Names(uses) - was;
    }
    Done(uses, layer, below);
    known := true;
  }

  // ------------------------------------------------------------------ what holds a layer up

  /** The layer that an entry counts against: the one its first reference is in. */
  function Against(t: Table, refs: seq<Ref>): Option<Layer> {
    if refs == [] then None else t.LayerOf(refs[0].source)
  }

  /** Entries counted per layer. */
  method Blocked(t: Table, found: map<Key, seq<Ref>>) returns (blocked: map<Layer, nat>)
    ensures forall l :: (l in blocked && blocked[l] > 0) <==> exists k :: k in found && Against(t, found[k]) == Some(l)
  {
    blocked := map[];
    var rest := found.Keys;
    while rest != {}
      invariant rest <= found.Keys
      invariant forall l :: (l in blocked && blocked[l] > 0) <==> exists k :: k in found && k !in rest && Against(t, found[k]) == Some(l)
      decreases |rest|
    {
      hide Table.LayerOf;
      var k :| k in rest;
      rest := rest - {k};
      var against := Against(t, found[k]);
      if against.Some? {
        var l := against.value;
        blocked := blocked[l := (if l in blocked then blocked[l] else 0) + 1];
      }
    }
  }

  function Held(blocked: map<Layer, nat>, support: map<Layer, nat>): set<Layer> {
    (set l | l in blocked && blocked[l] > 0) + (set l | l in support && support[l] > 0)
  }

  /** Whether `report` calls the layer ready; None where a `uses` list names an unknown layer and the source raises. */
  method Ready(uses: map<Layer, seq<Layer>>, blocked: map<Layer, nat>, support: map<Layer, nat>, layer: Layer) returns (r: Option<bool>)
    ensures r.Some? <==> forall y :: Reach(UsesGraph(uses), layer, y) ==> y in uses
    ensures r.Some? ==> (r.value <==> Extractable(uses, Held(blocked, support), layer))
  {
    hide Reach, UsesGraph, Held;
    var known, below := Below(uses, layer);
    if !known {
      return None;
    }
    var waiting, tests := 0, 0;
    var rest := below + {layer};
    while rest != {}
      invariant rest <= below + {layer}
      invariant waiting + tests == 0 <==> forall l :: l in below + {layer} && l !in rest ==> l !in Held(blocked, support)
      decreases |rest|
    {
      var l :| l in rest;
      rest := rest - {l};
      HeldAt(blocked, support, l);
      waiting := waiting + if l in blocked then blocked[l] else 0;
      tests := tests + if l in support then support[l] else 0;
    }
    r := Some(waiting == 0 && tests == 0);
  }

  lemma HeldAt(blocked: map<Layer, nat>, support: map<Layer, nat>, l: Layer)
    ensures l in Held(blocked, support) <==> (l in blocked && blocked[l] > 0) || (l in support && support[l] > 0)
  {
  }

  // ------------------------------------------------------------------ what ready means

  /** A ready layer `l` has no upward reference `r` in it or below it. */
  ghost predicate Kept(t: Table, held: set<Layer>, l: Layer, r: Ref)
    requires t.Valid()
  {
    Extractable(t.uses, held, l) && t.LayerOf(r.source).Some? && Reach(UsesGraph(t.uses), l, t.LayerOf(r.source).value) ==> UpKey(t, r).None?
  }

  /** The module's layer, or some layer that it uses, directly or not, is held up. */
  ghost predicate HeldUp(t: Table, held: set<Layer>, m: Module) {
    t.LayerOf(m).Some? && !Extractable(t.uses, held, t.LayerOf(m).value)
  }

  /** Every upward reference comes from a layer that is held up. */
  ghost predicate Charged(t: Table, refs: seq<Ref>, held: set<Layer>)
    requires t.Valid()
  {
    forall r :: r in refs && UpKey(t, r).Some? ==> HeldUp(t, held, r.source)
  }

  /** Ready means that nothing at or below names upward exactly when every upward reference holds up its own layer. */
  lemma ReadyNamesNothingAbove(t: Table, refs: seq<Ref>, held: set<Layer>)
    requires t.Valid()
    ensures (forall l, r :: r in refs ==> Kept(t, held, l, r)) <==> Charged(t, refs, held)
  {
    hide Reach, UsesGraph, Table.LayerOf, UpKey;
    if forall l, r :: r in refs ==> Kept(t, held, l, r) {
      forall r | r in refs && UpKey(t, r).Some? ensures HeldUp(t, held, r.source) {
        var a := SourceLayer(t, r);
        ReachRefl(UsesGraph(t.uses), a);
        assert Kept(t, held, a, r);
      }
    }
    if Charged(t, refs, held) {
      forall l, r | r in refs ensures Kept(t, held, l, r) {
        if Extractable(t.uses, held, l) && UpKey(t, r).Some? {
          var a := SourceLayer(t, r);
          if Reach(UsesGraph(t.uses), l, a) { ExtractableBelow(t.uses, held, l, a); }
        }
      }
    }
  }

  lemma SourceLayer(t: Table, r: Ref) returns (a: Layer)
    requires t.Valid() && UpKey(t, r).Some?
    ensures t.LayerOf(r.source) == Some(a)
  {
    a := t.LayerOf(r.source).value;
  }

  /** All references under one key come from one layer. */
  ghost predicate OneLayerEach(t: Table, refs: seq<Ref>)
    requires t.Valid()
  {
    forall r, q :: r in refs && q in refs && UpKey(t, r).Some? && UpKey(t, r) == UpKey(t, q) ==> t.LayerOf(r.source) == t.LayerOf(q.source)
  }

  /** So it is when no file spans two layers: then the first reference of an entry speaks for all of them. */
  lemma OneLayerCharged(t: Table, refs: seq<Ref>, found: map<Key, seq<Ref>>, held: set<Layer>)
    requires t.Valid() && Grouped(refs, r => UpKey(t, r), found) && OneLayerEach(t, refs)
    requires forall k :: k in found && Against(t, found[k]).Some? ==> Against(t, found[k]).value in held
    ensures Charged(t, refs, held)
  {
    forall r | r in refs && UpKey(t, r).Some? ensures HeldUp(t, held, r.source) {
      var a := SourceLayer(t, r);
      hide Reach, UsesGraph, Table.LayerOf, UpKey;
      var k := UpKey(t, r).value;
      var key: Ref -> Option<Key> := r => UpKey(t, r);
      Picked(refs, key, k, r);
      assert Pick(refs, key, k) == if k in found then found[k] else [];
      var first := found[k][0];
      Picked(refs, key, k, first);
      assert a in held;
      ReachRefl(UsesGraph(t.uses), a);
    }
  }

  /**
   * When one does, a layer can be called ready although one of its modules names a layer it may not use:
   * `a.rs` is in layer 1, its inline module `a::b` in layer 2, both name `c` of layer 3, and only layer 1 is charged.
   */
  lemma SharedFileHidesDebt() returns (t: Table, refs: seq<Ref>, found: map<Key, seq<Ref>>, r: Ref)
    ensures t.Valid() && Grouped(refs, r => UpKey(t, r), found) && r in refs
    ensures t.LayerOf(r.source) == Some(2) && UpKey(t, r).Some?
    ensures forall k :: k in found ==> Against(t, found[k]) == Some(1)
    ensures Extractable(t.uses, {1}, 2)
  {
    var a, b, c := ["a"], ["a", "b"], ["c"];
    t := Table(map[1 := [], 2 := [], 3 := []], map[a := 1, b := 2, c := 3], map[]);
    var q := Ref("a.rs", a, c);
    r := Ref("a.rs", b, c);
    refs := [q, r];
    OwnerIsLongest(t.members.Keys, a, a);
    OwnerIsLongest(t.members.Keys, b, b);
    OwnerIsLongest(t.members.Keys, c, c);
    var k := (SRC + "a.rs", Name(c));
    assert UpKey(t, q) == Some(k) && UpKey(t, r) == Some(k);
    found := map[k := refs];
    SmallGroup(q, r, r => UpKey(t, r), k);
    NothingUsed(t.uses, 2);
  }

  lemma SmallGroup(q: Ref, r: Ref, key: Ref -> Option<Key>, k: Key)
    requires key(q) == Some(k) && key(r) == Some(k)
    ensures Grouped([q, r], key, map[k := [q, r]])
  {
    assert [q, r][..1] == [q] && [q][..0] == [];
    forall j ensures Pick([q, r], key, j) == if j == k then [q, r] else [] {
      assert Pick([q], key, j) == if j == k then [q] else [];
    }
  }

  lemma NothingUsed(uses: map<Layer, seq<Layer>>, l: Layer)
    requires l in uses && uses[l] == []
    ensures Extractable(uses, {1}, l) <==> l != 1
  {
    var g := UsesGraph(uses);
    forall y | Reach(g, l, y) ensures y == l {
      if y != l {
        var a, b := Graph.Leaves(g, l, y, {l});
      }
    }
    ReachRefl(g, l);
  }
}
