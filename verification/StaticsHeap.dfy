/** `owner` of ci/check-statics-heap.py: whether a type owns heap, following every name into its definitions. */
module StaticsHeap {
  import opened Options
  import opened Graph

  /** `re.findall` of the identifiers in a fragment with its `fn` pointer types dropped. */
  type Extract = string -> seq<string>

  /** Every name defined in the tree, with the bodies of all definitions of that name. */
  type Defs = map<string, seq<string>>

  const HEAP: set<string> := {
    "Vec", "VecDeque", "BinaryHeap", "LinkedList", "HashMap", "HashSet", "BTreeMap", "BTreeSet", "IndexMap", "IndexSet",
    "String", "CString", "OsString", "PathBuf", "Box", "Rc", "Arc", "Weak", "Cow"
  }

  const PLAIN: set<string> := {
    "Option", "Result", "Self", "Ordering", "NonNull", "PhantomData",
    "Cell", "RefCell", "UnsafeCell", "MaybeUninit", "ManuallyDrop", "Wrapping", "Saturating",
    "Duration", "Instant", "SystemTime",
    "Atomic", "AtomicBool", "AtomicI8", "AtomicI16", "AtomicI32", "AtomicI64", "AtomicIsize", "AtomicU8", "AtomicU16",
    "AtomicU32", "AtomicU64", "AtomicUsize", "AtomicPtr"
  }

  predicate NonZero(name: string) {
    |name| >= 7 && name[..7] == "NonZero" &&
    (name[7..] == "" || (name[7] in "UI" && name[8..] in ["8", "16", "32", "64", "128", "size"]))
  }

  predicate IsPlainStd(name: string) { name in PLAIN || NonZero(name) }

  /** A CamelCase word; identifiers are ASCII. */
  predicate LooksLikeAType(word: string) {
    word != "" && 'A' <= word[0] <= 'Z' && exists i :: 0 <= i < |word| && 'a' <= word[i] <= 'z'
  }

  // ------------------------------------------------------------------ what the answer means

  function NamesOf(names: Extract, fragments: seq<string>): set<string> {
    set f, n | f in fragments && n in names(f) :: n
  }

  /** Each defined name, and the names any of its definitions mentions. */
  function Mentions(names: Extract, defs: Defs): map<string, set<string>> {
    map n | n in defs :: NamesOf(names, defs[n])
  }

  predicate Unresolved(defs: Defs, n: string) {
    n !in defs && !IsPlainStd(n) && LooksLikeAType(n)
  }

  predicate Guilty(defs: Defs, n: string) {
    n in HEAP || Unresolved(defs, n)
  }

  /** `n` is reached from the declared type through the definitions. */
  ghost predicate Reached(names: Extract, defs: Defs, declared: string, n: string) {
    exists s :: s in names(declared) && Reach(Mentions(names, defs), s, n)
  }

  ghost predicate OwnsHeap(names: Extract, defs: Defs, declared: string) {
    exists n :: Reached(names, defs, declared, n) && Guilty(defs, n)
  }

  lemma ReachedFirst(names: Extract, defs: Defs, declared: string, n: string)
    requires n in names(declared)
    ensures Reached(names, defs, declared, n)
  {
    ReachRefl(Mentions(names, defs), n);
  }

  lemma ReachedNext(names: Extract, defs: Defs, declared: string, n: string, body: string, m: string)
    requires Reached(names, defs, declared, n) && n in defs && body in defs[n] && m in names(body)
    ensures Reached(names, defs, declared, m)
  {
    var g := Mentions(names, defs);
    assert m in Succ(g, n);
    hide Reach, Mentions, Succ;
    var s :| s in names(declared) && Reach(g, s, n);
    ReachEdge(g, n, m);
    ReachTrans(g, s, n, m);
  }

  // ------------------------------------------------------------------ the worklist

  /** The names of `fragment` are reached, and every one is seen or its fragment waits. */
  ghost predicate Allowed(names: Extract, defs: Defs, declared: string, fragment: string) {
    forall n :: n in names(fragment) ==> Reached(names, defs, declared, n)
  }

  ghost predicate Covered(names: Extract, seen: set<string>, todo: seq<string>, fragment: string) {
    fragment in todo || forall n :: n in names(fragment) ==> n in seen
  }

  ghost predicate AllAllowed(names: Extract, defs: Defs, declared: string, todo: seq<string>) {
    forall f :: f in todo ==> Allowed(names, defs, declared, f)
  }

  ghost predicate Innocent(names: Extract, defs: Defs, declared: string, seen: set<string>) {
    forall n :: n in seen ==> Reached(names, defs, declared, n) && !Guilty(defs, n)
  }

  /** The declared type and the bodies of every seen name are covered, `spare` aside. */
  ghost predicate AllCovered(names: Extract, defs: Defs, declared: string, seen: set<string>, todo: seq<string>, spare: Option<string>) {
    && (Covered(names, seen, todo, declared) || Some(declared) == spare)
    && (forall n, body :: n in seen && n in defs && body in defs[n] ==> Covered(names, seen, todo, body) || Some(body) == spare)
  }

  ghost predicate Going(names: Extract, defs: Defs, declared: string, seen: set<string>, todo: seq<string>) {
    AllAllowed(names, defs, declared, todo) && Innocent(names, defs, declared, seen) && AllCovered(names, defs, declared, seen, todo, None)
  }

  /** As `Going`, while the names of `at` from `k` on are still to be looked at. */
  ghost predicate Inside(names: Extract, defs: Defs, declared: string, seen: set<string>, todo: seq<string>, at: string, k: nat)
    requires k <= |names(at)|
  {
    && AllAllowed(names, defs, declared, todo) && Innocent(names, defs, declared, seen)
    && AllCovered(names, defs, declared, seen, todo, Some(at))
    && Allowed(names, defs, declared, at) && forall j :: 0 <= j < k ==> names(at)[j] in seen
  }

  lemma Begin(names: Extract, defs: Defs, declared: string)
    ensures Going(names, defs, declared, {}, [declared])
  {
    forall n | n in names(declared) ensures Reached(names, defs, declared, n) { ReachedFirst(names, defs, declared, n); }
  }

  lemma Popped(names: Extract, defs: Defs, declared: string, seen: set<string>, todo: seq<string>)
    requires Going(names, defs, declared, seen, todo) && todo != []
    ensures Inside(names, defs, declared, seen, todo[..|todo| - 1], todo[|todo| - 1], 0)
  {
    hide Reached, Guilty, Allowed, Innocent;
    var rest, at := todo[..|todo| - 1], todo[|todo| - 1];
    assert todo == rest + [at];
    assert at in todo && forall f :: f in todo <==> f in rest || f == at;
    forall f | Covered(names, seen, todo, f) ensures Covered(names, seen, rest, f) || f == at {
    }
  }

  lemma Looked(names: Extract, defs: Defs, declared: string, seen: set<string>, todo: seq<string>, at: string, k: nat)
    requires k < |names(at)| && Inside(names, defs, declared, seen, todo, at, k)
    ensures Reached(names, defs, declared, names(at)[k])
    ensures names(at)[k] in seen ==> Inside(names, defs, declared, seen, todo, at, k + 1)
  {
    hide Reached, Guilty, AllAllowed, Innocent, AllCovered;
    assert names(at)[k] in names(at);
  }

  lemma BodiesAllowed(names: Extract, defs: Defs, declared: string, n: string)
    requires Reached(names, defs, declared, n) && n in defs
    ensures forall body :: body in defs[n] ==> Allowed(names, defs, declared, body)
  {
    forall body, m | body in defs[n] && m in names(body) ensures Reached(names, defs, declared, m) {
      ReachedNext(names, defs, declared, n, body, m);
    }
  }

  lemma CoveredMore(names: Extract, defs: Defs, declared: string, seen: set<string>, todo: seq<string>, at: string, n: string, bodies: seq<string>)
    requires AllCovered(names, defs, declared, seen, todo, Some(at))
    requires n in defs ==> bodies == defs[n]
    ensures AllCovered(names, defs, declared, seen + {n}, todo + bodies, Some(at))
  {
    forall f | Covered(names, seen, todo, f) || f in bodies ensures Covered(names, seen + {n}, todo + bodies, f) {
    }
    hide Covered;
  }

  lemma Opened(names: Extract, defs: Defs, declared: string, seen: set<string>, todo: seq<string>, at: string, k: nat)
    requires k < |names(at)| && Inside(names, defs, declared, seen, todo, at, k)
    requires names(at)[k] !in seen && !Guilty(defs, names(at)[k])
    ensures var n := names(at)[k];
      Inside(names, defs, declared, seen + {n}, todo + (if n in defs then defs[n] else []), at, k + 1)
  {
    hide Reached, Guilty, Allowed, AllCovered;
    var n := names(at)[k];
    var bodies := if n in defs then defs[n] else [];
    Looked(names, defs, declared, seen, todo, at, k);
    if n in defs { BodiesAllowed(names, defs, declared, n); }
    CoveredMore(names, defs, declared, seen, todo, at, n, bodies);
    assert forall f :: f in todo + bodies <==> f in todo || f in bodies;
  }

  lemma Closed(names: Extract, defs: Defs, declared: string, seen: set<string>, todo: seq<string>, at: string)
    requires Inside(names, defs, declared, seen, todo, at, |names(at)|)
    ensures Going(names, defs, declared, seen, todo)
  {
    hide Reached, Guilty, Allowed, AllAllowed, Innocent;
    forall n | n in names(at) ensures n in seen {
      var j :| 0 <= j < |names(at)| && names(at)[j] == n;
    }
  }

  lemma SeenClosed(names: Extract, defs: Defs, declared: string, seen: set<string>)
    requires AllCovered(names, defs, declared, seen, [], None)
    ensures Graph.Closed(Mentions(names, defs), seen)
    ensures forall n :: n in names(declared) ==> n in seen
  {
    forall x, m | x in seen && x in defs && m in NamesOf(names, defs[x]) ensures m in seen {
      var f :| f in defs[x] && m in names(f);
      assert Covered(names, seen, [], f);
    }
  }

  lemma Finished(names: Extract, defs: Defs, declared: string, seen: set<string>)
    requires Going(names, defs, declared, seen, [])
    ensures !OwnsHeap(names, defs, declared)
  {
    var g := Mentions(names, defs);
    SeenClosed(names, defs, declared, seen);
    hide Reach, Guilty, Mentions, AllAllowed, AllCovered, Graph.Closed;
    forall n | Reached(names, defs, declared, n) ensures !Guilty(defs, n) {
      var s :| s in names(declared) && Reach(g, s, n);
      ClosedReach(g, seen, s, n);
    }
  }

  /** Every name the declared type or a definition mentions. */
  ghost function Universe(names: Extract, defs: Defs, declared: string): set<string> {
    (set n | n in names(declared)) + (set d, n | d in defs && n in NamesOf(names, defs[d]) :: n)
  }

  lemma InUniverse(names: Extract, defs: Defs, declared: string, n: string)
    requires Reached(names, defs, declared, n)
    ensures n in Universe(names, defs, declared)
  {
    var g, all := Mentions(names, defs), Universe(names, defs, declared);
    hide NamesOf, Reach;
    assert Graph.Closed(g, all);
    var s :| s in names(declared) && Reach(g, s, n);
    ClosedReach(g, all, s, n);
  }

  lemma SeenInUniverse(names: Extract, defs: Defs, declared: string, seen: set<string>, todo: seq<string>)
    requires Going(names, defs, declared, seen, todo)
    ensures seen <= Universe(names, defs, declared)
  {
    hide Universe, Reached, Guilty;
    forall n | n in seen ensures n in Universe(names, defs, declared) { InUniverse(names, defs, declared, n); }
  }

  datatype Answer = Plain | Owns(name: string) | Unknown(name: string)

  lemma Found(names: Extract, defs: Defs, declared: string, n: string)
    requires Reached(names, defs, declared, n) && Guilty(defs, n)
    ensures OwnsHeap(names, defs, declared)
  {
  }

  lemma Verdict(defs: Defs, n: string)
    ensures Guilty(defs, n) <==> n in HEAP || Unresolved(defs, n)
    ensures Unresolved(defs, n) <==> (n !in defs && !IsPlainStd(n) && LooksLikeAType(n))
  {
    hide IsPlainStd, LooksLikeAType, HEAP;
  }

  lemma Shrinks(all: set<string>, was: set<string>, seen: set<string>)
    requires was <= seen <= all
    ensures seen == was || all - seen < all - was
  {
  }

  /** `owner`: the answer says whether heap is reached, and names what was found. */
  method Owner(names: Extract, defs: Defs, declared: string) returns (r: Answer)
    ensures r != Plain <==> OwnsHeap(names, defs, declared)
    ensures r.Owns? ==> r.name in HEAP && Reached(names, defs, declared, r.name)
    ensures r.Unknown? ==> Unresolved(defs, r.name) && Reached(names, defs, declared, r.name)
  {
    hide *;
    var seen: set<string>, todo := {}, [declared];
    Begin(names, defs, declared);
    ghost var all := Universe(names, defs, declared);
    while todo != []
      invariant Going(names, defs, declared, seen, todo)
      decreases all - seen, |todo|
    {
      SeenInUniverse(names, defs, declared, seen, todo);
      ghost var was := seen;
      var at := todo[|todo| - 1];
      Popped(names, defs, declared, seen, todo);
      todo := todo[..|todo| - 1];
      ghost var length := |todo|;
      for k := 0 to |names(at)|
        invariant Inside(names, defs, declared, seen, todo, at, k)
        invariant was <= seen && (seen == was ==> |todo| == length)
      {
        var name := names(at)[k];
        Looked(names, defs, declared, seen, todo, at, k);
        Verdict(defs, name);
        if name in HEAP {
          Found(names, defs, declared, name);
          return Owns(name);
        }
        if name !in seen {
          if name !in defs && !IsPlainStd(name) && LooksLikeAType(name) {
            Found(names, defs, declared, name);
            return Unknown(name);
          }
          Opened(names, defs, declared, seen, todo, at, k);
          seen := seen + {name};
          if name in defs {
            todo := todo + defs[name];
          } else {
            assert todo + [] == todo;
          }
        }
      }
      Closed(names, defs, declared, seen, todo, at);
      SeenInUniverse(names, defs, declared, seen, todo);
      Shrinks(all, was, seen);
    }
    Finished(names, defs, declared, seen);
    r := Plain;
  }

  // ------------------------------------------------------------------ more definitions

  /** A type that is just this name owns heap. */
  ghost predicate NameOwns(names: Extract, defs: Defs, n: string) {
    exists m :: Reach(Mentions(names, defs), n, m) && Guilty(defs, m)
  }

  lemma OwnsByName(names: Extract, defs: Defs, declared: string)
    ensures OwnsHeap(names, defs, declared) <==> exists n :: n in names(declared) && NameOwns(names, defs, n)
  {
    hide Reach, Guilty, Mentions;
    if OwnsHeap(names, defs, declared) {
      var m :| Reached(names, defs, declared, m) && Guilty(defs, m);
      var n :| n in names(declared) && Reach(Mentions(names, defs), n, m);
      assert NameOwns(names, defs, n);
    }
    if n :| n in names(declared) && NameOwns(names, defs, n) {
      var m :| Reach(Mentions(names, defs), n, m) && Guilty(defs, m);
      assert Reached(names, defs, declared, m);
    }
  }

  /** `more` has every body that `defs` has. */
  ghost predicate Extends(defs: Defs, more: Defs) {
    forall n :: n in defs ==> n in more && forall b :: b in defs[n] ==> b in more[n]
  }

  lemma {:induction false} StepsMore(names: Extract, defs: Defs, more: Defs, s: string, n: string, k: nat)
    requires Extends(defs, more) && Steps(Mentions(names, defs), s, n, k)
    ensures Steps(Mentions(names, more), s, n, k)
    decreases k
  {
    if k > 0 {
      var g := Mentions(names, defs);
      var z :| z in Succ(g, s) && Steps(g, z, n, k - 1);
      var b :| b in defs[s] && z in names(b);
      assert z in Succ(Mentions(names, more), s);
      StepsMore(names, defs, more, z, n, k - 1);
    }
  }

  lemma ReachMore(names: Extract, defs: Defs, more: Defs, s: string, n: string)
    requires Extends(defs, more) && Reach(Mentions(names, defs), s, n)
    ensures Reach(Mentions(names, more), s, n)
  {
    hide Extends;
    var k: nat :| Steps(Mentions(names, defs), s, n, k);
    StepsMore(names, defs, more, s, n, k);
  }

  /** Every name that counted against a type because nothing defines it owns heap in the larger tree. */
  ghost predicate UnknownsOwn(names: Extract, defs: Defs, more: Defs) {
    forall n :: Unresolved(defs, n) ==> NameOwns(names, more, n)
  }

  lemma NameStillOwns(names: Extract, defs: Defs, more: Defs, n: string)
    requires Extends(defs, more) && UnknownsOwn(names, defs, more) && NameOwns(names, defs, n)
    ensures NameOwns(names, more, n)
  {
    hide Reach, Mentions, HEAP, Unresolved, Extends;
    var m :| Reach(Mentions(names, defs), n, m) && Guilty(defs, m);
    ReachMore(names, defs, more, n, m);
    if Unresolved(defs, m) {
      var u :| Reach(Mentions(names, more), m, u) && Guilty(more, u);
      ReachTrans(Mentions(names, more), n, m, u);
    }
  }

  /** With more definitions every owner of heap is still one exactly when every name that was unknown is one. */
  lemma OwnersStillOwn(names: Extract, defs: Defs, more: Defs)
    requires Extends(defs, more)
    ensures (forall n :: NameOwns(names, defs, n) ==> NameOwns(names, more, n)) <==> UnknownsOwn(names, defs, more)
  {
    hide Reach, Mentions, Unresolved, Extends;
    if UnknownsOwn(names, defs, more) {
      forall n | NameOwns(names, defs, n) ensures NameOwns(names, more, n) { NameStillOwns(names, defs, more, n); }
    }
    if forall n :: NameOwns(names, defs, n) ==> NameOwns(names, more, n) {
      forall n | Unresolved(defs, n) ensures NameOwns(names, more, n) {
        ReachRefl(Mentions(names, defs), n);
        assert Guilty(defs, n);
      }
    }
  }

  /** The same for declared types. */
  lemma MoreBodiesStillOwn(names: Extract, defs: Defs, more: Defs, declared: string)
    requires Extends(defs, more) && UnknownsOwn(names, defs, more) && OwnsHeap(names, defs, declared)
    ensures OwnsHeap(names, more, declared)
  {
    hide OwnsHeap, NameOwns, UnknownsOwn, Extends;
    OwnsByName(names, defs, declared);
    OwnsByName(names, more, declared);
    var n :| n in names(declared) && NameOwns(names, defs, n);
    NameStillOwns(names, defs, more, n);
  }

  /** Another body of a defined name leaves every unknown name unknown. */
  lemma AddBody(names: Extract, defs: Defs, name: string, body: string, declared: string)
    requires name in defs && OwnsHeap(names, defs, declared)
    ensures OwnsHeap(names, defs[name := defs[name] + [body]], declared)
  {
    var more := defs[name := defs[name] + [body]];
    forall n | Unresolved(defs, n) ensures NameOwns(names, more, n) {
      hide Mentions, Reach, IsPlainStd, LooksLikeAType;
      ReachRefl(Mentions(names, more), n);
      assert Guilty(more, n);
    }
    hide OwnsHeap, Unresolved, NameOwns;
    MoreBodiesStillOwn(names, defs, more, declared);
  }

  /** Defining a name that was unknown can: `Foo` owns heap while it is defined nowhere, and not once it is a `u8`. */
  lemma DefiningCanClear(names: Extract)
    requires names("Foo") == ["Foo"] && names("u8") == ["u8"]
    ensures OwnsHeap(names, map[], "Foo") && !OwnsHeap(names, map["Foo" := ["u8"]], "Foo")
  {
    var none: Defs, defs: Defs := map[], map["Foo" := ["u8"]];
    assert "Foo"[0] == 'F' && "Foo"[1] == 'o';
    assert LooksLikeAType("Foo") && !IsPlainStd("Foo") && "Foo" !in HEAP;
    assert "u8" !in HEAP && !LooksLikeAType("u8");
    ReachedFirst(names, none, "Foo", "Foo");
    assert Guilty(none, "Foo");
    var g, s := Mentions(names, defs), {"Foo", "u8"};
    assert Graph.Closed(g, s);
    forall n | Reached(names, defs, "Foo", n) ensures !Guilty(defs, n) {
      hide Mentions;
      var f :| f in names("Foo") && Reach(g, f, n);
      ClosedReach(g, s, f, n);
    }
  }
}
