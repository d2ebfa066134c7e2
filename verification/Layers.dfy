/** ci/check-module-layers.py: which layer a module is in, and which references a layer may make. */
module Layers {
  import opened Options
  import opened Graph
  import Tarjan

  /** A module path, `[]` for the crate root. */
  type Module = seq<string>
  type Layer = nat
  /** A file and the name of the member it refers to. */
  type Key = (string, string)

  datatype Ref = Ref(file: string, source: Module, target: Module)

  /** The heading and the keys of one section of module-layers.ini. */
  datatype Section = Section(heading: string, keys: set<string>)

  /** Its sections, and what they list in file order. A layer is a number, a port a string. */
  datatype Config = Config(sections: seq<Section>, uses: map<Layer, seq<Layer>>, listed: seq<(Module, Layer)>, ported: seq<(Module, string)>) {
    ghost predicate Valid() {
      forall i :: 0 <= i < |listed| ==> listed[i].1 in uses
    }
  }

  datatype Error = BadKeys(heading: string, keys: set<string>) | Twice(member: Module) | Unknown(layer: Layer, used: Layer) | SelfUse(layer: Layer) | Cycle(layers: seq<Layer>)

  // ------------------------------------------------------------------ filling the tables

  /** What the last section that lists `k` says. */
  function LastOf<V>(listed: seq<(Module, V)>, k: Module): Option<V>
    decreases |listed|
  {
    if listed == [] then None
    else if listed[|listed| - 1].0 == k then Some(listed[|listed| - 1].1)
    else LastOf(listed[..|listed| - 1], k)
  }

  ghost predicate LastWins<V>(listed: seq<(Module, V)>, m: map<Module, V>) {
    forall k :: LastOf(listed, k) == if k in m then Some(m[k]) else None
  }

  ghost predicate ListedOnce<V>(listed: seq<(Module, V)>) {
    forall i, j :: 0 <= i < j < |listed| ==> listed[i].0 != listed[j].0
  }

  lemma {:induction false} LastOfListed<V>(listed: seq<(Module, V)>, k: Module)
    ensures LastOf(listed, k).Some? ==> (k, LastOf(listed, k).value) in listed
    ensures (exists i :: 0 <= i < |listed| && listed[i].0 == k) ==> LastOf(listed, k).Some?
    decreases |listed|
  {
    if listed != [] {
      var n := |listed| - 1;
      LastOfListed(listed[..n], k);
      assert listed == listed[..n] + [listed[n]];
      if i :| 0 <= i < |listed| && listed[i].0 == k { assert i < n ==> listed[..n][i].0 == k; }
    }
  }

  lemma LastWinsStep<V>(listed: seq<(Module, V)>, m: map<Module, V>, n: nat)
    requires n < |listed| && LastWins(listed[..n], m)
    ensures LastWins(listed[..n + 1], m[listed[n].0 := listed[n].1])
  {
    assert listed[..n + 1][..n] == listed[..n];
  }

  lemma ListedOnceStep<V>(listed: seq<(Module, V)>, m: map<Module, V>, n: nat)
    requires n < |listed| && LastWins(listed[..n], m)
    ensures ListedOnce(listed[..n + 1]) <==> ListedOnce(listed[..n]) && listed[n].0 !in m
  {
    var was, all, key := listed[..n], listed[..n + 1], listed[n].0;
    LastOfListed(was, key);
    assert all == was + [listed[n]];
    if key in m {
      var i :| 0 <= i < n && was[i] == (key, m[key]);
      assert all[i].0 == all[n].0;
    }
    if ListedOnce(all) {
      forall i, j | 0 <= i < j < n ensures was[i].0 != was[j].0 {
        assert all[i].0 != all[j].0;
      }
    }
  }

  method Register<V(==)>(listed: seq<(Module, V)>) returns (m: map<Module, V>, twice: seq<Error>)
    ensures LastWins(listed, m)
    ensures twice == [] <==> ListedOnce(listed)
  {
    hide LastWins, ListedOnce;
    m, twice := map[], [];
    assert listed[..0] == [];
    assert LastWins(listed[..0], m) && ListedOnce(listed[..0]) by { Nothing<V>(); }
    for i := 0 to |listed|
      invariant LastWins(listed[..i], m)
      invariant twice == [] <==> ListedOnce(listed[..i])
    {
      LastWinsStep(listed, m, i);
      ListedOnceStep(listed, m, i);
      var (member, layer) := listed[i];
      if member in m {
        twice := twice + [Twice(member)];
      }
      m := m[member := layer];
    }
    assert listed[..|listed|] == listed;
  }

  lemma Nothing<V>()
    ensures LastWins<V>([], map[]) && ListedOnce<V>([])
  {
  }

  // ------------------------------------------------------------------ the keys of a section

  const PORT: string := "port "

  /** A port lists members; a layer also says which layers it uses. */
  function Allowed(s: Section): set<string> {
    if PORT <= s.heading then {"members"} else {"uses", "members"}
  }

  ghost predicate KnownKeys(sections: seq<Section>) {
    forall s :: s in sections ==> s.keys <= Allowed(s)
  }

  method KeyErrors(sections: seq<Section>) returns (errors: seq<Error>)
    ensures forall e :: e in errors <==> exists s :: s in sections && !(s.keys <= Allowed(s)) && e == BadKeys(s.heading, s.keys - Allowed(s))
    ensures errors == [] <==> KnownKeys(sections)
  {
    errors := [];
    for i := 0 to |sections|
      invariant forall e :: e in errors <==>
        exists s :: s in sections[..i] && !(s.keys <= Allowed(s)) && e == BadKeys(s.heading, s.keys - Allowed(s))
    {
      hide Allowed;
      var s := sections[i];
      var unknown := s.keys - Allowed(s);
      assert sections[..i + 1] == sections[..i] + [s];
      if unknown != {} {
        errors := errors + [BadKeys(s.heading, unknown)];
      }
    }
    assert sections[..|sections|] == sections;
    if s :| s in sections && !(s.keys <= Allowed(s)) { assert BadKeys(s.heading, s.keys - Allowed(s)) in errors; }
    assert errors != [] ==> errors[0] in errors;
  }

  // ------------------------------------------------------------------ the layer graph

  function Adjacency(uses: map<Layer, seq<Layer>>): map<Layer, set<Layer>> {
    map l | l in uses :: set u | u in uses[l] && u in uses
  }

  ghost predicate Acyclic(uses: map<Layer, seq<Layer>>) {
    forall a, b :: Mutual(Adjacency(uses), a, b) ==> a == b
  }

  ghost predicate GoodUses(uses: map<Layer, seq<Layer>>, l: Layer)
    requires l in uses
  {
    forall k :: 0 <= k < |uses[l]| ==> uses[l][k] in uses && uses[l][k] != l
  }

  /** Every name a `uses` list holds is another layer. */
  ghost predicate KnownUses(uses: map<Layer, seq<Layer>>) {
    forall l :: l in uses ==> GoodUses(uses, l)
  }

  method UsesErrors(order: seq<Layer>, uses: map<Layer, seq<Layer>>) returns (errors: seq<Error>)
    requires forall l :: l in order <==> l in uses
    ensures errors == [] <==> KnownUses(uses)
  {
    errors := [];
    for i := 0 to |order|
      invariant errors == [] <==> forall k :: 0 <= k < i ==> GoodUses(uses, order[k])
    {
      hide KnownUses;
      var layer := order[i];
      ghost var before := errors;
      for j := 0 to |uses[layer]|
        invariant errors == [] <==> before == [] && forall k :: 0 <= k < j ==> uses[layer][k] in uses && uses[layer][k] != layer
      {
        var used := uses[layer][j];
        if used !in uses { errors := errors + [Unknown(layer, used)]; }
        if used == layer { errors := errors + [SelfUse(layer)]; }
      }
      assert errors == [] <==> before == [] && GoodUses(uses, layer);
    }
    InOrder(order, uses);
  }

  lemma InOrder(order: seq<Layer>, uses: map<Layer, seq<Layer>>)
    requires forall l :: l in order <==> l in uses
    ensures KnownUses(uses) <==> forall k :: 0 <= k < |order| ==> GoodUses(uses, order[k])
  {
    forall l | l in uses ensures exists k :: 0 <= k < |order| && order[k] == l {
      assert l in order;
    }
  }

  lemma Outside(uses: map<Layer, seq<Layer>>, a: Layer, b: Layer)
    requires a !in uses && Reach(Adjacency(uses), a, b)
    ensures a == b
  {
    if a != b {
      var x, y := Graph.Leaves(Adjacency(uses), a, b, {a});
    }
  }

  lemma SingletonsAcyclic(order: seq<Layer>, uses: map<Layer, seq<Layer>>, comps: seq<seq<nat>>)
    requires forall l :: l in order <==> l in uses
    requires Tarjan.IsSccList(Adjacency(uses), order, comps)
    ensures (forall c :: c in comps ==> |c| <= 1) <==> Acyclic(uses)
  {
    var g := Adjacency(uses);
    if forall c :: c in comps ==> |c| <= 1 {
      forall a, b | Mutual(g, a, b) ensures a == b {
        if a in uses {
          ReachRefl(g, a);
          assert Tarjan.Named(g, order, a);
          var c :| c in comps && a in c;
          assert Tarjan.IsClass(g, c);
          assert b in c;
        } else {
          Outside(uses, a, b);
        }
      }
    }
    forall c | c in comps && |c| > 1 ensures !Acyclic(uses) {
      assert Tarjan.IsClass(g, c) && c[0] < c[1];
      assert c[0] in c && c[1] in c;
      assert Mutual(g, c[0], c[1]);
    }
  }

  method CycleErrors(order: seq<Layer>, uses: map<Layer, seq<Layer>>) returns (errors: seq<Error>)
    requires forall l :: l in order <==> l in uses
    ensures errors == [] <==> Acyclic(uses)
  {
    hide Reach, Tarjan.IsSccList, Acyclic;
    var comps := Tarjan.Sccs(order, Adjacency(uses));
    SingletonsAcyclic(order, uses, comps);
    errors := [];
    for i := 0 to |comps|
      invariant errors == [] <==> forall k :: 0 <= k < i ==> |comps[k]| <= 1
    {
      if |comps[i]| > 1 { errors := errors + [Cycle(comps[i])]; }
    }
  }

  // ------------------------------------------------------------------ where a module is placed

  /** The longest listed prefix; the root `[]` owns only itself. */
  function OwnerFrom(keys: set<Module>, m: Module, k: nat): Option<Module>
    requires k <= |m|
  {
    if k == 0 then None else if m[..k] in keys then Some(m[..k]) else OwnerFrom(keys, m, k - 1)
  }

  function Owner(keys: set<Module>, m: Module): Option<Module> {
    var r := OwnerFrom(keys, m, |m|);
    if r.Some? then r else if m == [] && [] in keys then Some([]) else None
  }

  /** `p` is listed, is a prefix of `m`, and no listed prefix is longer; the root is never a catch-all. */
  ghost predicate Owns(keys: set<Module>, p: Module, m: Module) {
    p in keys && p <= m && (p == [] ==> m == []) && forall q :: q in keys && q <= m ==> |q| <= |p|
  }

  lemma {:induction false} OwnerFromLongest(keys: set<Module>, m: Module, k: nat)
    requires k <= |m|
    ensures match OwnerFrom(keys, m, k)
            case Some(p) => p in keys && p != [] && p <= m && |p| <= k && forall q :: q in keys && q <= m && |q| <= k ==> |q| <= |p|
            case None => forall q :: q in keys && q <= m && |q| <= k ==> q == []
  {
    if k > 0 {
      OwnerFromLongest(keys, m, k - 1);
      forall q | q in keys && q <= m && |q| == k ensures q == m[..k] {
      }
    }
  }

  /** Owner finds the one listed member that owns the module, if there is one. */
  lemma OwnerIsLongest(keys: set<Module>, p: Module, m: Module)
    ensures Owner(keys, m) == Some(p) <==> Owns(keys, p, m)
  {
    OwnerFromLongest(keys, m, |m|);
    match Owner(keys, m)
    case Some(q) =>
      if Owns(keys, p, m) { assert p == m[..|p|] && q == m[..|q|]; }
    case None =>
  }

  // ------------------------------------------------------------------ references that are not allowed

  /** What the gate reads: the tables of `Layers`. */
  datatype Table = Table(uses: map<Layer, seq<Layer>>, members: map<Module, Layer>, ports: map<Module, string>) {
    ghost predicate Valid() {
      forall m :: m in members ==> members[m] in uses
    }

    function LayerOf(m: Module): Option<Layer> {
      match Owner(members.Keys, m)
      case None => None
      case Some(p) => OwnerIsLongest(members.Keys, p, m); Some(members[p])
    }

    /** The innermost port member in front of `m`. */
    function PortMember(m: Module): (r: Option<Module>)
      ensures r.Some? ==> r.value in ports
    {
      OwnerFromLongest(ports.Keys, m, |m|);
      OwnerFrom(ports.Keys, m, |m|)
    }

    function PortOf(m: Module): Option<string> {
      match PortMember(m) case None => None case Some(p) => Some(ports[p])
    }
  }

  function Path(m: Module): string {
    if m == [] then "" else if |m| == 1 then m[0] else m[0] + "::" + Path(m[1..])
  }

  function Name(m: Module): string { if m == [] then "crate" else Path(m) }

  const SRC: string := "rust-modules/src/"

  /** What `split('::')` gives for a path. */
  ghost predicate Segments(m: Module) {
    forall i :: 0 <= i < |m| ==> m[i] != "" && ':' !in m[i]
  }

  lemma NoColonYet(s: string, b: string, n: nat)
    requires b <= s && ':' !in b && n < |s| && s[n] == ':'
    ensures |b| <= n
  {
    forall k | 0 <= k < |b| ensures s[k] != ':' { assert s[k] == b[k] && b[k] in b; }
  }

  lemma FirstColon(a: string, x: string, b: string, y: string)
    requires ':' !in a && ':' !in b && a + "::" + x == b + "::" + y
    ensures a == b && x == y
  {
    var s := a + "::" + x;
    assert a <= s && b <= s && s[|a|] == ':' && s[|b|] == ':';
    NoColonYet(s, a, |b|);
    NoColonYet(s, b, |a|);
    assert s[|a| + 2..] == x && s[|b| + 2..] == y;
  }

  lemma PathColon(m: Module)
    requires Segments(m)
    ensures ':' in Path(m) <==> |m| > 1
    ensures Path(m) == "" <==> m == []
  {
    if |m| > 1 {
      assert Path(m)[|m[0]|] == ':';
    }
  }

  lemma {:induction false} PathsDiffer(a: Module, b: Module)
    requires Segments(a) && Segments(b) && Path(a) == Path(b)
    ensures a == b
    decreases |a|
  {
    PathColon(a);
    PathColon(b);
    if |a| > 1 {
      FirstColon(a[0], Path(a[1..]), b[0], Path(b[1..]));
      PathsDiffer(a[1..], b[1..]);
      assert a == [a[0]] + a[1..] && b == [b[0]] + b[1..];
    }
  }

  /** Members have different names, but for the crate root and a module that is itself called `crate`. */
  lemma NamesDiffer(a: Module, b: Module)
    requires Segments(a) && Segments(b)
    ensures Name(a) == Name(b) <==> a == b || {a, b} == {[], ["crate"]}
  {
    if Path(a) == Path(b) { PathsDiffer(a, b); }
    if Path(a) == Path(["crate"]) { PathsDiffer(a, ["crate"]); }
    if Path(b) == Path(["crate"]) { PathsDiffer(b, ["crate"]); }
    hide Path;
    assert Path(["crate"]) == "crate";
    assert {a, b} == {[], ["crate"]} ==> (a == [] || a == ["crate"]) && (b == [] || b == ["crate"]);
  }

  /** The allowlist key of a reference that names a layer it may not use. */
  function UpKey(t: Table, r: Ref): Option<Key>
    requires t.Valid()
  {
    match (t.LayerOf(r.source), Owner(t.members.Keys, r.target))
    case (Some(a), Some(target)) =>
      OwnerIsLongest(t.members.Keys, target, r.target);
      var b := t.members[target];
      Uses(t, r.source);
      if a != b && b !in t.uses[a] then Some((SRC + r.file, Name(target))) else None
    case _ => None
  }

  lemma Uses(t: Table, m: Module)
    requires t.Valid()
    ensures t.LayerOf(m).Some? ==> t.LayerOf(m).value in t.uses
  {
    match Owner(t.members.Keys, m)
    case None =>
    case Some(p) => OwnerIsLongest(t.members.Keys, p, m);
  }

  /** The allowlist key of a reference into a port from outside it. */
  function PortKey(t: Table, r: Ref): Option<Key> {
    match t.PortMember(r.target)
    case None => None
    case Some(target) => if t.PortOf(r.source) == Some(t.ports[target]) then None else Some((SRC + r.file, Name(target)))
  }

  /** The references with key `k`, in order. */
  function Pick(refs: seq<Ref>, key: Ref -> Option<Key>, k: Key): seq<Ref> {
    if refs == [] then []
    else Pick(refs[..|refs| - 1], key, k) + (if key(refs[|refs| - 1]) == Some(k) then [refs[|refs| - 1]] else [])
  }

  lemma {:induction false} Picked(refs: seq<Ref>, key: Ref -> Option<Key>, k: Key, r: Ref)
    ensures r in Pick(refs, key, k) <==> r in refs && key(r) == Some(k)
    decreases |refs|
  {
    if refs != [] {
      Picked(refs[..|refs| - 1], key, k, r);
      assert refs == refs[..|refs| - 1] + [refs[|refs| - 1]];
    }
  }

  /** `found` groups the references by key, and has no key without one. */
  ghost predicate Grouped(refs: seq<Ref>, key: Ref -> Option<Key>, found: map<Key, seq<Ref>>) {
    && (forall k :: Pick(refs, key, k) == if k in found then found[k] else [])
    && forall k :: k in found ==> found[k] != []
  }

  lemma GroupStep(refs: seq<Ref>, key: Ref -> Option<Key>, found: map<Key, seq<Ref>>, n: nat)
    requires n < |refs| && Grouped(refs[..n], key, found)
    ensures match key(refs[n])
            case None => Grouped(refs[..n + 1], key, found)
            case Some(k) => Grouped(refs[..n + 1], key, found[k := (if k in found then found[k] else []) + [refs[n]]])
  {
    assert refs[..n + 1][..n] == refs[..n];
    assert forall k :: Pick(refs[..n + 1], key, k) == Pick(refs[..n], key, k) + (if key(refs[n]) == Some(k) then [refs[n]] else []);
    assert forall k :: Pick(refs[..n], key, k) + [] == Pick(refs[..n], key, k);
  }

  // ------------------------------------------------------------------ the tables as an object

  ghost predicate WellFormed(c: Config) {
    && KnownKeys(c.sections) && ListedOnce(c.listed) && ListedOnce(c.ported)
    && KnownUses(c.uses) && Acyclic(c.uses)
  }

  lemma LastWinsLayer(c: Config, m: map<Module, Layer>)
    requires c.Valid() && LastWins(c.listed, m)
    ensures forall k :: k in m ==> m[k] in c.uses
  {
    forall k | k in m ensures m[k] in c.uses {
      LastOfListed(c.listed, k);
      var i :| 0 <= i < |c.listed| && c.listed[i] == (k, m[k]);
    }
  }

  class Layers {
    const uses: map<Layer, seq<Layer>>
    const members: map<Module, Layer>
    const portMembers: map<Module, string>
    const errors: seq<Error>

    ghost predicate Valid(c: Config) {
      && uses == c.uses && LastWins(c.listed, members) && LastWins(c.ported, portMembers) && Now().Valid()
      && (errors == [] <==> WellFormed(c))
    }

    function Now(): Table { Table(uses, members, portMembers) }

    constructor (order: seq<Layer>, c: Config)
      requires c.Valid() && forall l :: l in order <==> l in c.uses
      ensures Valid(c)
    {
      var misnamed := KeyErrors(c.sections);
      var ported, twicePorted := Register(c.ported);
      var listed, twice := Register(c.listed);
      var misused := UsesErrors(order, c.uses);
      var cycles := CycleErrors(order, c.uses);
      LastWinsLayer(c, listed);
      uses, members, portMembers := c.uses, listed, ported;
      errors := misnamed + twicePorted + twice + misused + cycles;
    }

    method MemberOf(m: Module) returns (r: Option<Module>)
      ensures r == Owner(members.Keys, m)
    {
      var k := |m|;
      while k > 0
        invariant 0 <= k <= |m|
        invariant OwnerFrom(members.Keys, m, |m|) == OwnerFrom(members.Keys, m, k)
      {
        if m[..k] in members {
          return Some(m[..k]);
        }
        k := k - 1;
      }
      return if m == [] && [] in members then Some([]) else None;
    }

    method PortMemberOf(m: Module) returns (r: Option<Module>)
      ensures r == Now().PortMember(m)
    {
      var k := |m|;
      while k > 0
        invariant 0 <= k <= |m|
        invariant OwnerFrom(portMembers.Keys, m, |m|) == OwnerFrom(portMembers.Keys, m, k)
      {
        if m[..k] in portMembers {
          return Some(m[..k]);
        }
        k := k - 1;
      }
      return None;
    }

    method Violations(refs: seq<Ref>) returns (found: map<Key, seq<Ref>>)
      requires Now().Valid()
      ensures Grouped(refs, r => UpKey(Now(), r), found)
    {
      ghost var key: Ref -> Option<Key> := r => UpKey(Now(), r);
      found := map[];
      assert refs[..0] == [];
      for i := 0 to |refs|
        invariant Grouped(refs[..i], key, found)
      {
        hide Grouped, Owner, OwnerFrom, Name;
        var source := MemberOf(refs[i].source);
        var target := MemberOf(refs[i].target);
        GroupStep(refs, key, found, i);
        if source.Some? && target.Some? {
          OwnerIsLongest(members.Keys, source.value, refs[i].source);
          OwnerIsLongest(members.Keys, target.value, refs[i].target);
          var a, b := members[source.value], members[target.value];
          if a != b && b !in uses[a] {
            var k := (SRC + refs[i].file, Name(target.value));
            found := found[k := (if k in found then found[k] else []) + [refs[i]]];
          }
        }
      }
      assert refs[..|refs|] == refs;
    }

    method PortViolations(refs: seq<Ref>) returns (found: map<Key, seq<Ref>>)
      requires Now().Valid()
      ensures Grouped(refs, r => PortKey(Now(), r), found)
    {
      ghost var key: Ref -> Option<Key> := r => PortKey(Now(), r);
      found := map[];
      assert refs[..0] == [];
      for i := 0 to |refs|
        invariant Grouped(refs[..i], key, found)
      {
        hide Grouped, OwnerFrom, Name;
        GroupStep(refs, key, found, i);
        var target := PortMemberOf(refs[i].target);
        if target.Some? {
          var source := PortMemberOf(refs[i].source);
          if source.None? || portMembers[source.value] != portMembers[target.value] {
            var k := (SRC + refs[i].file, Name(target.value));
            found := found[k := (if k in found then found[k] else []) + [refs[i]]];
          }
        }
      }
      assert refs[..|refs|] == refs;
    }
  }

  // ------------------------------------------------------------------ the gate

  datatype Failure =
    | BadConfig(error: Error) | Gone(member: Module) | GonePort(member: Module) | Unplaced(m: Module)
    | Malformed | Cargo | NotAllowed(key: Key) | IntoPort(key: Key) | Stale(key: Key) | Count

  /** `r` leads from a member of one layer to a member of another that the first may not use; `k` is its file and that member. */
  ghost predicate NamesUp(t: Table, r: Ref, k: Key)
    requires t.Valid()
  {
    exists p, q ::
      && Owns(t.members.Keys, p, r.source) && Owns(t.members.Keys, q, r.target)
      && t.members[p] != t.members[q] && t.members[q] !in t.uses[t.members[p]]
      && k == ("rust-modules/src/" + r.file, Name(q))
  }

  /** `p` is the innermost of these port members around `m`; the crate root is none. */
  ghost predicate Innermost(ports: set<Module>, p: Module, m: Module) {
    p in ports && p != [] && p <= m && forall q :: q in ports && q <= m ==> |q| <= |p|
  }

  /** `r` leads to a port member from outside its port; `k` is its file and that member. */
  ghost predicate NamesPort(t: Table, r: Ref, k: Key) {
    exists q ::
      && Innermost(t.ports.Keys, q, r.target) && k == ("rust-modules/src/" + r.file, Name(q))
      && forall p :: Innermost(t.ports.Keys, p, r.source) ==> t.ports[p] != t.ports[q]
  }

  ghost predicate UpUse(t: Table, refs: seq<Ref>, k: Key)
    requires t.Valid()
  {
    exists r :: r in refs && NamesUp(t, r, k)
  }

  ghost predicate PortUse(t: Table, refs: seq<Ref>, k: Key) {
    exists r :: r in refs && NamesPort(t, r, k)
  }

  /** Some reference has this key, as one to a higher layer or as one into a port. */
  ghost predicate InUse(t: Table, refs: seq<Ref>, k: Key)
    requires t.Valid()
  {
    UpUse(t, refs, k) || PortUse(t, refs, k)
  }

  /** The key of a reference is that of the layers its ends are in. */
  lemma UpKeyMeans(t: Table, r: Ref, k: Key)
    requires t.Valid()
    ensures UpKey(t, r) == Some(k) <==> NamesUp(t, r, k)
  {
    hide Owner, OwnerFrom, Owns, Name;
    forall p ensures Owner(t.members.Keys, r.source) == Some(p) <==> Owns(t.members.Keys, p, r.source) {
      OwnerIsLongest(t.members.Keys, p, r.source);
    }
    forall q ensures Owner(t.members.Keys, r.target) == Some(q) <==> Owns(t.members.Keys, q, r.target) {
      OwnerIsLongest(t.members.Keys, q, r.target);
    }
    match Owner(t.members.Keys, r.target)
    case None =>
    case Some(q) => OwnerIsLongest(t.members.Keys, q, r.target);
  }

  lemma PortMemberMeans(t: Table, p: Module, m: Module)
    ensures t.PortMember(m) == Some(p) <==> Innermost(t.ports.Keys, p, m)
  {
    OwnerFromLongest(t.ports.Keys, m, |m|);
    match t.PortMember(m)
    case Some(q) =>
      if Innermost(t.ports.Keys, p, m) { assert p == m[..|p|] && q == m[..|q|]; }
    case None =>
  }

  lemma PortKeyMeans(t: Table, r: Ref, k: Key)
    ensures PortKey(t, r) == Some(k) <==> NamesPort(t, r, k)
  {
    hide Table.PortMember, Innermost, Name;
    forall p, m ensures t.PortMember(m) == Some(p) <==> Innermost(t.ports.Keys, p, m) { PortMemberMeans(t, p, m); }
  }

  lemma KeyInUse(t: Table, refs: seq<Ref>, r: Ref)
    requires t.Valid() && r in refs
    ensures UpKey(t, r).Some? ==> InUse(t, refs, UpKey(t, r).value)
    ensures PortKey(t, r).Some? ==> InUse(t, refs, PortKey(t, r).value)
  {
    hide UpKey, PortKey, NamesUp, NamesPort;
    if UpKey(t, r).Some? { UpKeyMeans(t, r, UpKey(t, r).value); }
    if PortKey(t, r).Some? { PortKeyMeans(t, r, PortKey(t, r).value); }
  }

  /** Every member exists and every module of the crate is placed. */
  ghost predicate Placed(t: Table, modules: set<Module>) {
    && (forall m :: m in t.members ==> m in modules)
    && (forall m :: m in t.ports ==> m in modules)
    && forall m :: m in modules ==> exists p :: Owns(t.members.Keys, p, m)
  }

  lemma PlacedModule(t: Table, m: Module)
    ensures (exists p :: Owns(t.members.Keys, p, m)) <==> t.LayerOf(m).Some?
    ensures forall p :: Owns(t.members.Keys, p, m) ==> t.LayerOf(m) == Some(t.members[p])
  {
    hide Owner, Owns;
    forall p ensures Owner(t.members.Keys, m) == Some(p) <==> Owns(t.members.Keys, p, m) { OwnerIsLongest(t.members.Keys, p, m); }
  }

  /** No reference without an entry, no entry without a reference, and the count is right. */
  ghost predicate ListHolds(t: Table, refs: seq<Ref>, declared: Option<int>, allow: set<Key>)
    requires t.Valid()
  {
    && (forall k :: InUse(t, refs, k) <==> k in allow)
    && declared == Some(|allow|)
  }

  ghost predicate Green(c: Config, t: Table, modules: set<Module>, refs: seq<Ref>, declared: Option<int>, allow: set<Key>, malformed: nat)
    requires t.Valid()
  {
    WellFormed(c) && Placed(t, modules) && malformed == 0 && ListHolds(t, refs, declared, allow)
  }

  lemma {:induction false} GroupedKeys(refs: seq<Ref>, key: Ref -> Option<Key>, found: map<Key, seq<Ref>>, k: Key)
    requires Grouped(refs, key, found)
    ensures k in found <==> exists r :: r in refs && key(r) == Some(k)
  {
    assert Pick(refs, key, k) == if k in found then found[k] else [];
    if k in found { Picked(refs, key, k, found[k][0]); }
    if r :| r in refs && key(r) == Some(k) { Picked(refs, key, k, r); }
  }

  lemma NamedInUse(t: Table, refs: seq<Ref>, found: map<Key, seq<Ref>>, ported: map<Key, seq<Ref>>, k: Key)
    requires t.Valid() && Grouped(refs, r => UpKey(t, r), found) && Grouped(refs, r => PortKey(t, r), ported)
    ensures k in found <==> UpUse(t, refs, k)
    ensures k in ported <==> PortUse(t, refs, k)
  {
    hide Grouped, UpKey, PortKey, NamesUp, NamesPort;
    GroupedKeys(refs, r => UpKey(t, r), found, k);
    GroupedKeys(refs, r => PortKey(t, r), ported, k);
    forall r ensures UpKey(t, r) == Some(k) <==> NamesUp(t, r, k) { UpKeyMeans(t, r, k); }
    forall r ensures PortKey(t, r) == Some(k) <==> NamesPort(t, r, k) { PortKeyMeans(t, r, k); }
  }

  /** What one run finds, given the keys in use. */
  datatype Finding = Finding(errors: seq<Error>, t: Table, modules: set<Module>, found: set<Key>, ported: set<Key>,
                             cargo: nat, declared: Option<int>, allow: set<Key>, malformed: nat) {

    function OfConfig(): set<Failure> {
      (set e | e in errors :: BadConfig(e))
      + (set m | m in modules && t.LayerOf(m).None? :: Unplaced(m))
    }

    function OfMembers(): set<Failure> {
      (set m | m in t.members && m !in modules :: Gone(m))
      + (set m | m in t.ports && m !in modules :: GonePort(m))
    }

    function OfReferences(): set<Failure> {
      (set k | k in found && k !in allow :: NotAllowed(k))
      + (set k | k in ported && k !in allow && k !in found :: IntoPort(k))
      + (set k | k in allow && k !in found + ported :: Stale(k))
    }

    function OfFiles(): set<Failure> {
      (if malformed > 0 then {Malformed} else {})
      + (if cargo > 0 then {Cargo} else {})
      + (if declared != Some(|allow| + malformed) then {Count} else {})
    }

    function Failures(): set<Failure> {
      OfConfig() + OfMembers() + OfReferences() + OfFiles()
    }

    ghost predicate Reported(f: Failure) {
      match f
      case BadConfig(e) => e in errors
      case Gone(m) => m in t.members && m !in modules
      case GonePort(m) => m in t.ports && m !in modules
      case Unplaced(m) => m in modules && t.LayerOf(m).None?
      case Malformed => malformed > 0
      case Cargo => cargo > 0
      case NotAllowed(k) => k in found && k !in allow
      case IntoPort(k) => k in ported && k !in allow && k !in found
      case Stale(k) => k in allow && k !in found + ported
      case Count => declared != Some(|allow| + malformed)
    }
  }

  lemma ConfigFailures(x: Finding, f: Failure)
    ensures f in x.OfConfig() <==> (f.BadConfig? || f.Unplaced?) && x.Reported(f)
  {
    hide Table.LayerOf;
  }

  lemma MemberFailures(x: Finding, f: Failure)
    ensures f in x.OfMembers() <==> (f.Gone? || f.GonePort?) && x.Reported(f)
  {
    hide Table.LayerOf;
  }

  lemma ReferenceFailures(x: Finding, f: Failure)
    ensures f in x.OfReferences() <==> (f.NotAllowed? || f.IntoPort? || f.Stale?) && x.Reported(f)
  {
    hide Table.LayerOf;
  }

  lemma FileFailures(x: Finding, f: Failure)
    ensures f in x.OfFiles() <==> (f.Malformed? || f.Cargo? || f.Count?) && x.Reported(f)
  {
    hide Table.LayerOf;
  }

  lemma FailuresAre(x: Finding, f: Failure)
    ensures f in x.Failures() <==> x.Reported(f)
  {
    ConfigFailures(x, f);
    MemberFailures(x, f);
    ReferenceFailures(x, f);
    FileFailures(x, f);
    assert x.Failures() == x.OfConfig() + x.OfMembers() + x.OfReferences() + x.OfFiles();
    hide *;
  }

  lemma QuietPlaces(x: Finding)
    requires forall f :: !x.Reported(f)
    ensures Placed(x.t, x.modules)
  {
    hide Table.LayerOf, Owns;
    forall m | m in x.t.members ensures m in x.modules { assert !x.Reported(Gone(m)); }
    forall m | m in x.t.ports ensures m in x.modules { assert !x.Reported(GonePort(m)); }
    forall m | m in x.modules ensures exists p :: Owns(x.t.members.Keys, p, m) {
      assert !x.Reported(Unplaced(m));
      PlacedModule(x.t, m);
    }
  }

  lemma QuietLists(x: Finding)
    requires forall f :: !x.Reported(f)
    ensures x.errors == [] && x.malformed == 0 && x.cargo == 0 && x.found + x.ported == x.allow && x.declared == Some(|x.allow|)
  {
    hide Table.LayerOf;
    assert x.errors != [] ==> x.Reported(BadConfig(x.errors[0]));
    assert !x.Reported(Malformed) && !x.Reported(Cargo) && !x.Reported(Count);
    forall k ensures k in x.found + x.ported <==> k in x.allow {
      assert !x.Reported(NotAllowed(k)) && !x.Reported(IntoPort(k)) && !x.Reported(Stale(k));
    }
  }

  lemma InOrderQuiet(x: Finding, f: Failure)
    requires x.errors == [] && Placed(x.t, x.modules) && x.malformed == 0 && x.cargo == 0
    requires x.found + x.ported == x.allow && x.declared == Some(|x.allow|)
    ensures !x.Reported(f)
  {
    hide Table.LayerOf, Owns;
    if f.Unplaced? { PlacedModule(x.t, f.m); }
  }

  lemma NoFailure(x: Finding)
    ensures x.Failures() == {} <==> (x.errors == [] && Placed(x.t, x.modules) && x.malformed == 0 && x.cargo == 0
                                     && x.found + x.ported == x.allow && x.declared == Some(|x.allow|))
  {
    hide *;
    forall f ensures f in x.Failures() <==> x.Reported(f) { FailuresAre(x, f); }
    if x.Failures() == {} {
      forall f ensures !x.Reported(f) { assert f !in x.Failures(); }
      QuietPlaces(x);
      QuietLists(x);
    } else {
      var f :| f in x.Failures();
      assert x.Reported(f);
      if x.errors == [] && Placed(x.t, x.modules) && x.malformed == 0 && x.cargo == 0
         && x.found + x.ported == x.allow && x.declared == Some(|x.allow|) {
        InOrderQuiet(x, f);
      }
    }
  }

  /** The keys a run finds are those in use. */
  ghost predicate Finds(x: Finding, c: Config, refs: seq<Ref>)
    requires x.t.Valid()
  {
    && (x.errors == [] <==> WellFormed(c))
    && (forall k :: k in x.found <==> UpUse(x.t, refs, k))
    && forall k :: k in x.ported <==> PortUse(x.t, refs, k)
  }

  lemma GreenFinding(x: Finding, c: Config, refs: seq<Ref>)
    requires x.t.Valid() && Finds(x, c, refs)
    ensures x.Failures() == {} <==> x.cargo == 0 && Green(c, x.t, x.modules, refs, x.declared, x.allow, x.malformed)
  {
    hide WellFormed, UpUse, PortUse, Placed, Finding.Failures, Table.LayerOf;
    NoFailure(x);
    if x.found + x.ported != x.allow {
      var k :| k in x.found + x.ported <==> k !in x.allow;
      assert InUse(x.t, refs, k) <==> k !in x.allow;
    }
  }

  /** Which keys a run reports, and under which heading. */
  ghost predicate ReportsKey(t: Table, refs: seq<Ref>, allow: set<Key>, failures: set<Failure>, k: Key)
    requires t.Valid()
  {
    && (NotAllowed(k) in failures <==> UpUse(t, refs, k) && k !in allow)
    && (IntoPort(k) in failures <==> PortUse(t, refs, k) && !UpUse(t, refs, k) && k !in allow)
    && (Stale(k) in failures <==> k in allow && !InUse(t, refs, k))
  }

  lemma KeyFinding(x: Finding, c: Config, refs: seq<Ref>, k: Key)
    requires x.t.Valid() && Finds(x, c, refs)
    ensures ReportsKey(x.t, refs, x.allow, x.Failures(), k)
  {
    hide WellFormed, UpUse, PortUse, Placed, Finding.Failures, Table.LayerOf;
    FailuresAre(x, NotAllowed(k));
    FailuresAre(x, IntoPort(k));
    FailuresAre(x, Stale(k));
  }

  /** Which modules and members a run reports. */
  ghost predicate ReportsModule(t: Table, modules: set<Module>, failures: set<Failure>, m: Module) {
    && (Unplaced(m) in failures <==> m in modules && forall p :: !Owns(t.members.Keys, p, m))
    && (Gone(m) in failures <==> m in t.members && m !in modules)
    && (GonePort(m) in failures <==> m in t.ports && m !in modules)
  }

  lemma ModuleFinding(x: Finding, m: Module)
    ensures ReportsModule(x.t, x.modules, x.Failures(), m)
  {
    hide Owns, Finding.Failures, Table.LayerOf;
    PlacedModule(x.t, m);
    FailuresAre(x, Unplaced(m));
    FailuresAre(x, Gone(m));
    FailuresAre(x, GonePort(m));
  }

  method Gate(layers: Layers, c: Config, modules: set<Module>, refs: seq<Ref>, cargo: nat,
              declared: Option<int>, allow: set<Key>, malformed: nat) returns (failures: set<Failure>)
    requires layers.Valid(c)
    ensures failures == {} <==> cargo == 0 && Green(c, layers.Now(), modules, refs, declared, allow, malformed)
    ensures forall k :: ReportsKey(layers.Now(), refs, allow, failures, k)
    ensures forall m :: ReportsModule(layers.Now(), modules, failures, m)
  {
    hide WellFormed, Grouped, UpUse, PortUse, Green, Owner, OwnerFrom, UpKey, PortKey, LastWins, Finding.Failures, Table.LayerOf;
    ghost var t := layers.Now();
    var found := layers.Violations(refs);
    var ported := layers.PortViolations(refs);
    var x := Finding(layers.errors, layers.Now(), modules, found.Keys, ported.Keys, cargo, declared, allow, malformed);
    failures := x.Failures();
    forall k ensures (k in found <==> UpUse(t, refs, k)) && (k in ported <==> PortUse(t, refs, k)) {
      NamedInUse(t, refs, found, ported, k);
    }
    assert Finds(x, c, refs);
    hide Finds, ReportsKey, ReportsModule;
    GreenFinding(x, c, refs);
    forall k ensures ReportsKey(t, refs, allow, failures, k) { KeyFinding(x, c, refs, k); }
    forall m ensures ReportsModule(t, modules, failures, m) { ModuleFinding(x, m); }
  }

  // ------------------------------------------------------------------ what a green gate means for cycles

  /** The list has an entry for the file and the member the reference names. */
  predicate Listed(t: Table, allow: set<Key>, r: Ref) {
    match Owner(t.members.Keys, r.target)
    case None => false
    case Some(p) => (SRC + r.file, Name(p)) in allow
  }

  /** The module graph of the references that `keep` holds for. */
  function RefGraph(refs: seq<Ref>, keep: Ref -> bool): map<Module, set<Module>> {
    map m | m in Sources(refs) :: Targets(refs, keep, m)
  }

  function Sources(refs: seq<Ref>): set<Module> {
    set r | r in refs :: r.source
  }

  function Targets(refs: seq<Ref>, keep: Ref -> bool, m: Module): set<Module> {
    set r | r in refs && r.source == m && keep(r) :: r.target
  }

  lemma EdgeBack(refs: seq<Ref>, keep: Ref -> bool, r: Ref)
    requires r in refs && keep(r)
    ensures r.target in Succ(RefGraph(refs, keep), r.source)
  {
    assert r.source in Sources(refs) && r.target in Targets(refs, keep, r.source);
  }

  lemma SameGraph(refs: seq<Ref>, keep: Ref -> bool, keep': Ref -> bool)
    requires forall r :: r in refs ==> keep(r) == keep'(r)
    ensures RefGraph(refs, keep) == RefGraph(refs, keep')
  {
    forall m ensures Targets(refs, keep, m) == Targets(refs, keep', m) {
    }
  }

  function Unlisted(t: Table, allow: set<Key>, refs: seq<Ref>): map<Module, set<Module>> {
    RefGraph(refs, r => !Listed(t, allow, r))
  }

  lemma Edge(refs: seq<Ref>, keep: Ref -> bool, x: Module, y: Module) returns (r: Ref)
    requires y in Succ(RefGraph(refs, keep), x)
    ensures r in refs && r.source == x && r.target == y && keep(r)
  {
    r :| r in refs && r.source == x && keep(r) && r.target == y;
  }

  ghost predicate Inside(refs: seq<Ref>, modules: set<Module>) {
    forall r :: r in refs ==> r.source in modules && r.target in modules
  }

  /** A reference without an entry stays in its layer or follows one `uses`. */
  lemma UnlistedGoesDown(c: Config, t: Table, modules: set<Module>, refs: seq<Ref>, declared: Option<int>, allow: set<Key>, r: Ref)
    requires t.Valid() && Green(c, t, modules, refs, declared, allow, 0) && Inside(refs, modules)
    requires r in refs && !Listed(t, allow, r)
    ensures t.LayerOf(r.source).Some? && t.LayerOf(r.target).Some?
    ensures Reach(Adjacency(t.uses), t.LayerOf(r.source).value, t.LayerOf(r.target).value)
  {
    hide *;
    GreenPlaces(c, t, modules, refs, declared, allow, r.source);
    GreenPlaces(c, t, modules, refs, declared, allow, r.target);
    InsideEnds(refs, modules, r);
    GreenLists(c, t, modules, refs, declared, allow, r);
    NoUpKey(t, r);
    var a, b := t.LayerOf(r.source).value, t.LayerOf(r.target).value;
    if a == b {
      ReachRefl(Adjacency(t.uses), a);
    } else {
      ReachEdge(Adjacency(t.uses), a, b);
    }
  }

  lemma InsideEnds(refs: seq<Ref>, modules: set<Module>, r: Ref)
    requires Inside(refs, modules) && r in refs
    ensures r.source in modules && r.target in modules
  {
  }

  lemma GreenPlaces(c: Config, t: Table, modules: set<Module>, refs: seq<Ref>, declared: Option<int>, allow: set<Key>, m: Module)
    requires t.Valid() && Green(c, t, modules, refs, declared, allow, 0)
    ensures m in modules ==> t.LayerOf(m).Some?
  {
    hide Table.LayerOf, Owns, WellFormed, ListHolds;
    PlacedModule(t, m);
  }

  lemma GreenLists(c: Config, t: Table, modules: set<Module>, refs: seq<Ref>, declared: Option<int>, allow: set<Key>, r: Ref)
    requires t.Valid() && Green(c, t, modules, refs, declared, allow, 0) && r in refs
    ensures UpKey(t, r).Some? ==> Listed(t, allow, r)
  {
    hide WellFormed, Placed, InUse, Owner, Name;
    KeyInUse(t, refs, r);
  }

  lemma NoUpKey(t: Table, r: Ref)
    requires t.Valid() && t.LayerOf(r.source).Some? && t.LayerOf(r.target).Some? && UpKey(t, r).None?
    ensures var a, b := t.LayerOf(r.source).value, t.LayerOf(r.target).value;
      a == b || b in Succ(Adjacency(t.uses), a)
  {
    hide Owner, Owns, Name;
    Uses(t, r.source);
    Uses(t, r.target);
  }

  lemma {:induction false} StepsGoDown(c: Config, t: Table, modules: set<Module>, refs: seq<Ref>, declared: Option<int>,
                                      allow: set<Key>, x: Module, y: Module, n: nat)
    requires t.Valid() && Green(c, t, modules, refs, declared, allow, 0) && Inside(refs, modules)
    requires x in modules && Steps(Unlisted(t, allow, refs), x, y, n)
    ensures t.LayerOf(x).Some? && t.LayerOf(y).Some?
    ensures Reach(Adjacency(t.uses), t.LayerOf(x).value, t.LayerOf(y).value)
    decreases n
  {
    hide WellFormed, ListHolds, Placed, Owns, Reach, Unlisted, Adjacency, Listed, Table.LayerOf;
    GreenPlaces(c, t, modules, refs, declared, allow, x);
    if n == 0 {
      ReachRefl(Adjacency(t.uses), t.LayerOf(x).value);
    } else {
      var z :| z in Succ(Unlisted(t, allow, refs), x) && Steps(Unlisted(t, allow, refs), z, y, n - 1);
      var r := UnlistedEdge(t, allow, refs, x, z);
      UnlistedGoesDown(c, t, modules, refs, declared, allow, r);
      StepsGoDown(c, t, modules, refs, declared, allow, z, y, n - 1);
      ReachTrans(Adjacency(t.uses), t.LayerOf(x).value, t.LayerOf(z).value, t.LayerOf(y).value);
    }
  }

  lemma UnlistedEdge(t: Table, allow: set<Key>, refs: seq<Ref>, x: Module, y: Module) returns (r: Ref)
    requires y in Succ(Unlisted(t, allow, refs), x)
    ensures r in refs && r.source == x && r.target == y && !Listed(t, allow, r)
  {
    r := Edge(refs, r => !Listed(t, allow, r), x, y);
  }

  /** Without the listed references, modules that reach each other are in one layer. */
  lemma CyclesStayInside(c: Config, t: Table, modules: set<Module>, refs: seq<Ref>, declared: Option<int>, allow: set<Key>,
                         x: Module, y: Module)
    requires t.Valid() && t.uses == c.uses && Green(c, t, modules, refs, declared, allow, 0) && Inside(refs, modules)
    requires x in modules && y in modules && Mutual(Unlisted(t, allow, refs), x, y)
    ensures t.LayerOf(x) == t.LayerOf(y)
  {
    hide Adjacency, Unlisted, Listed, Placed, ListHolds, Inside, Table.LayerOf, KnownUses, ListedOnce;
    var m: nat :| Steps(Unlisted(t, allow, refs), x, y, m);
    var n: nat :| Steps(Unlisted(t, allow, refs), y, x, n);
    StepsGoDown(c, t, modules, refs, declared, allow, x, y, m);
    StepsGoDown(c, t, modules, refs, declared, allow, y, x, n);
    assert Mutual(Adjacency(t.uses), t.LayerOf(x).value, t.LayerOf(y).value);
  }

  /** With an empty list, every strongly connected component of the module graph is inside one layer. */
  lemma EmptyListNoCrossing(c: Config, t: Table, modules: set<Module>, refs: seq<Ref>, declared: Option<int>, x: Module, y: Module)
    requires t.Valid() && t.uses == c.uses && Green(c, t, modules, refs, declared, {}, 0) && Inside(refs, modules)
    requires x in modules && y in modules && Mutual(RefGraph(refs, _ => true), x, y)
    ensures t.LayerOf(x) == t.LayerOf(y)
  {
    SameGraph(refs, r => !Listed(t, {}, r), _ => true);
    assert Unlisted(t, {}, refs) == RefGraph(refs, _ => true);
    hide *;
    CyclesStayInside(c, t, modules, refs, declared, {}, x, y);
  }

  /** A closed walk: each reference starts where the one before it ended, and the first where the last ended. */
  ghost predicate ClosedWalk(refs: seq<Ref>, walk: seq<Ref>) {
    && (forall r :: r in walk ==> r in refs)
    && (forall i :: 0 <= i < |walk| - 1 ==> walk[i].target == walk[i + 1].source)
    && (walk != [] ==> walk[|walk| - 1].target == walk[0].source)
  }

  lemma {:induction false} WalkReaches(refs: seq<Ref>, keep: Ref -> bool, walk: seq<Ref>, i: nat, j: nat)
    requires ClosedWalk(refs, walk) && i <= j < |walk| && forall r :: r in walk ==> keep(r)
    ensures Reach(RefGraph(refs, keep), walk[i].source, walk[j].source)
    decreases j
  {
    hide Reach, RefGraph, Succ;
    var g := RefGraph(refs, keep);
    if i == j {
      ReachRefl(g, walk[i].source);
    } else {
      WalkReaches(refs, keep, walk, i, j - 1);
      var r := walk[j - 1];
      assert r in walk && r.target == walk[j].source;
      EdgeBack(refs, keep, r);
      ReachEdge(g, r.source, r.target);
      ReachTrans(g, walk[i].source, walk[j - 1].source, walk[j].source);
    }
  }

  lemma WalkIsMutual(refs: seq<Ref>, keep: Ref -> bool, walk: seq<Ref>, i: nat, j: nat)
    requires ClosedWalk(refs, walk) && i <= j < |walk| && forall r :: r in walk ==> keep(r)
    ensures Mutual(RefGraph(refs, keep), walk[i].source, walk[j].source)
  {
    hide Reach, RefGraph, Succ;
    var g, last := RefGraph(refs, keep), |walk| - 1;
    WalkReaches(refs, keep, walk, i, j);
    WalkReaches(refs, keep, walk, j, last);
    WalkReaches(refs, keep, walk, 0, i);
    var r := walk[last];
    assert r in walk && r.target == walk[0].source;
    EdgeBack(refs, keep, r);
    ReachEdge(g, r.source, r.target);
    ReachTrans(g, walk[j].source, r.source, r.target);
    ReachTrans(g, walk[j].source, walk[0].source, walk[i].source);
  }

  /** Every cycle of references that visits two layers goes through one the list has an entry for. */
  lemma CrossingCycleIsListed(c: Config, t: Table, modules: set<Module>, refs: seq<Ref>, declared: Option<int>, allow: set<Key>,
                              walk: seq<Ref>, i: nat, j: nat)
    requires t.Valid() && t.uses == c.uses && Green(c, t, modules, refs, declared, allow, 0) && Inside(refs, modules)
    requires ClosedWalk(refs, walk) && i <= j < |walk| && t.LayerOf(walk[i].source) != t.LayerOf(walk[j].source)
    ensures exists r :: r in walk && Listed(t, allow, r)
  {
    hide Green, Table.LayerOf, Inside;
    if forall r :: r in walk ==> !Listed(t, allow, r) {
      var x, y := walk[i], walk[j];
      InsideEnds(refs, modules, x);
      InsideEnds(refs, modules, y);
      assert x in walk && y in walk;
      WalkIsMutual(refs, r => !Listed(t, allow, r), walk, i, j);
      assert Unlisted(t, allow, refs) == RefGraph(refs, r => !Listed(t, allow, r));
      hide *;
      CyclesStayInside(c, t, modules, refs, declared, allow, x.source, y.source);
    }
  }

  // ------------------------------------------------------------------ what it means for ports

  /** The list has an entry for the file and the port member the reference names. */
  predicate ListedPort(t: Table, allow: set<Key>, r: Ref) {
    match t.PortMember(r.target)
    case None => false
    case Some(p) => (SRC + r.file, Name(p)) in allow
  }

  /** A walk that has no listed reference enters no port. */
  lemma {:induction false} PortsHold(t: Table, refs: seq<Ref>, declared: Option<int>, allow: set<Key>, x: Module, y: Module, n: nat)
    requires t.Valid() && ListHolds(t, refs, declared, allow)
    requires Steps(RefGraph(refs, r => !ListedPort(t, allow, r)), x, y, n) && t.PortOf(y).Some?
    ensures t.PortOf(x) == t.PortOf(y)
    decreases n
  {
    hide RefGraph, Name, OwnerFrom;
    if n > 0 {
      var g := RefGraph(refs, r => !ListedPort(t, allow, r));
      var z :| z in Succ(g, x) && Steps(g, z, y, n - 1);
      PortsHold(t, refs, declared, allow, z, y, n - 1);
      var r := Edge(refs, r => !ListedPort(t, allow, r), x, z);
      KeyInUse(t, refs, r);
    }
  }
}
